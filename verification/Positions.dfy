/** Where statements stand in a function body, and where `break`, `continue` and the labels of
    a switch may. A position is a path: the numbers of the children to go down to. */
module Positions {
  import opened Wrappers
  import opened Control

  type Path = seq<nat>

  function Children(s: Stmt): (cs: seq<Stmt>)
    ensures |cs| <= 2 && forall i :: 0 <= i < |cs| ==> cs[i] < s
  {
    match s
    case Seq(a, b) => [a, b]
    case If(_, a) => [a]
    case IfElse(_, a, b) => [a, b]
    case While(_, a) => [a]
    case For(_, _, _, a) => [a]
    case DoWhile(a, _) => [a]
    case Switch(_, a) => [a]
    case Case(_, _, a) => [a]
    case Default(a) => [a]
    case _ => []
  }

  /** The statement at a position, if there is one. */
  function At(s: Stmt, p: Path): Option<Stmt>
    decreases |p|
  {
    if p == [] then Some(s)
    else if p[0] < |Children(s)| then At(Children(s)[p[0]], p[1..])
    else None
  }

  predicate IsLoop(s: Stmt) { s.While? || s.For? || s.DoWhile? }

  /** The position has a loop above it. */
  predicate InLoop(s: Stmt, p: Path)
    decreases |p|
  {
    p != [] && p[0] < |Children(s)| && (IsLoop(s) || InLoop(Children(s)[p[0]], p[1..]))
  }

  /** The innermost switch above a position. */
  function Home(s: Stmt, p: Path): Option<Path>
    decreases |p|
  {
    if p == [] || p[0] >= |Children(s)| then None else
    var h := Home(Children(s)[p[0]], p[1..]);
    if h.Some? then Some([p[0]] + h.value) else if s.Switch? then Some([]) else None
  }

  predicate InSwitch(s: Stmt, p: Path) { Home(s, p).Some? }

  predicate IsDefault(s: Stmt, p: Path) { At(s, p).Some? && At(s, p).value.Default? }

  /** What stands at `p` may stand there. */
  predicate Fitting(s: Stmt, p: Path) {
    match At(s, p)
    case Some(Break) => InLoop(s, p) || InSwitch(s, p)
    case Some(Continue) => InLoop(s, p)
    case Some(Case(_, _, _)) => InSwitch(s, p)
    case Some(Default(_)) => InSwitch(s, p)
    case _ => true
  }

  /** No two defaults of one switch. */
  predicate Single(s: Stmt, p: Path, q: Path) {
    p != q && IsDefault(s, p) && IsDefault(s, q) ==> Home(s, p) != Home(s, q)
  }

  ghost predicate WellPlaced(s: Stmt) {
    (forall p :: Fitting(s, p)) && forall p, q :: Single(s, p, q)
  }

  // ----- inside other statements -----

  /** The same of a part of a function, where breaks, continues and labels are allowed as `b`,
      `c` and `w` say, and the enclosing switch has a default already if `seen`. */
  predicate FittingIn(s: Stmt, p: Path, b: bool, c: bool, w: bool, seen: bool) {
    match At(s, p)
    case Some(Break) => b || InLoop(s, p) || InSwitch(s, p)
    case Some(Continue) => c || InLoop(s, p)
    case Some(Case(_, _, _)) => w || InSwitch(s, p)
    case Some(Default(_)) => (w || InSwitch(s, p)) && (seen ==> InSwitch(s, p))
    case _ => true
  }

  ghost predicate PlacedIn(s: Stmt, b: bool, c: bool, w: bool, seen: bool) {
    (forall p :: FittingIn(s, p, b, c, w, seen)) && forall p, q :: Single(s, p, q)
  }

  predicate SelfOk(s: Stmt, b: bool, c: bool, w: bool, seen: bool) {
    && (s.Break? ==> b) && (s.Continue? ==> c) && (s.Case? || s.Default? ==> w) && (s.Default? ==> !seen)
  }

  /** Whether child `i` of a statement finds a default seen. */
  predicate SeenBy(s: Stmt, i: nat, seen: bool)
    requires i < |Children(s)|
  {
    !s.Switch? && (seen || s.Default? || (i == 1 && HasDefault(Children(s)[0])))
  }

  predicate AcceptedChild(s: Stmt, i: nat, b: bool, c: bool, w: bool, seen: bool)
    requires i < |Children(s)|
  {
    Accepted(Children(s)[i], b || IsLoop(s) || s.Switch?, c || IsLoop(s), w || s.Switch?, SeenBy(s, i, seen))
  }

  ghost predicate PlacedChild(s: Stmt, i: nat, b: bool, c: bool, w: bool, seen: bool)
    requires i < |Children(s)|
  {
    PlacedIn(Children(s)[i], b || IsLoop(s) || s.Switch?, c || IsLoop(s), w || s.Switch?, SeenBy(s, i, seen))
  }

  lemma AcceptedUnfolds(s: Stmt, b: bool, c: bool, w: bool, seen: bool)
    ensures Accepted(s, b, c, w, seen) <==>
            SelfOk(s, b, c, w, seen) && forall i :: 0 <= i < |Children(s)| ==> AcceptedChild(s, i, b, c, w, seen)
  {
    hide HasDefault;
    if |Children(s)| == 2 {
      assert Accepted(s, b, c, w, seen) <==> AcceptedChild(s, 0, b, c, w, seen) && AcceptedChild(s, 1, b, c, w, seen);
    } else if |Children(s)| == 1 {
      assert Accepted(s, b, c, w, seen) <==> SelfOk(s, b, c, w, seen) && AcceptedChild(s, 0, b, c, w, seen);
    }
  }

  /** A default that belongs to no switch within `s`. */
  predicate OpenDefault(s: Stmt, p: Path) { IsDefault(s, p) && !InSwitch(s, p) }

  lemma Down(s: Stmt, i: nat, r: Path)
    requires i < |Children(s)|
    ensures var p, x := [i] + r, Children(s)[i];
            && At(s, p) == At(x, r)
            && (InLoop(s, p) <==> IsLoop(s) || InLoop(x, r))
            && Home(s, p) == if Home(x, r).Some? then Some([i] + Home(x, r).value) else if s.Switch? then Some([]) else None
  {
    assert ([i] + r)[1..] == r;
  }

  lemma Path1(s: Stmt, p: Path)
    requires p != [] && At(s, p).Some?
    ensures p[0] < |Children(s)| && p == [p[0]] + p[1..]
  {
  }

  predicate InChild(s: Stmt, i: nat) { i < |Children(s)| && HasDefault(Children(s)[i]) }

  lemma HasDefaultUnfolds(s: Stmt)
    ensures HasDefault(s) <==> s.Default? || (!s.Switch? && (InChild(s, 0) || InChild(s, 1)))
  {
  }

  lemma {:induction false} HasDefaultIs(s: Stmt)
    ensures HasDefault(s) <==> exists p :: OpenDefault(s, p)
    decreases s
  {
    hide HasDefault, At, Home;
    var cs := Children(s);
    HasDefaultUnfolds(s);
    forall i | 0 <= i < |cs| ensures HasDefault(cs[i]) <==> exists p :: OpenDefault(cs[i], p) {
      HasDefaultIs(cs[i]);
    }
    if HasDefault(s) {
      AtTop(s);
      if s.Default? {
        assert OpenDefault(s, []);
      } else {
        var i := if InChild(s, 0) then 0 else 1;
        var r :| OpenDefault(cs[i], r);
        Down(s, i, r);
        assert OpenDefault(s, [i] + r);
      }
    }
    if exists p :: OpenDefault(s, p) {
      var p :| OpenDefault(s, p);
      if p == [] {
        AtTop(s);
      } else {
        Path1(s, p);
        Down(s, p[0], p[1..]);
        assert OpenDefault(cs[p[0]], p[1..]);
        assert InChild(s, p[0]);
      }
    }
  }

  lemma ChildrenPlaced(s: Stmt, b: bool, c: bool, w: bool, seen: bool, i: nat)
    requires PlacedIn(s, b, c, w, seen) && i < |Children(s)|
    ensures PlacedChild(s, i, b, c, w, seen)
  {
    hide At, InLoop, Home, HasDefault;
    var x, b', c', w' := Children(s)[i], b || IsLoop(s) || s.Switch?, c || IsLoop(s), w || s.Switch?;
    var seen' := SeenBy(s, i, seen);
    forall r ensures FittingIn(x, r, b', c', w', seen') {
      Down(s, i, r);
      assert FittingIn(s, [i] + r, b, c, w, seen);
      if IsDefault(x, r) && SeenBy(s, i, seen) && !seen { SeenElsewhere(s, i, r, seen); }
    }
    forall r, t ensures Single(x, r, t) {
      Down(s, i, r);
      Down(s, i, t);
      assert ([i] + r)[1..] == r && ([i] + t)[1..] == t;
      assert Single(s, [i] + r, [i] + t);
    }
  }

  /** A default is seen by a later one of the same switch. */
  lemma SeenElsewhere(s: Stmt, i: nat, r: Path, seen: bool)
    requires i < |Children(s)| && SeenBy(s, i, seen) && !seen && IsDefault(Children(s)[i], r)
    requires forall p, q :: Single(s, p, q)
    ensures InSwitch(Children(s)[i], r)
  {
    hide At, InLoop, Home, HasDefault, Single;
    Down(s, i, r);
    if s.Default? {
      AtTop(s);
      OneOf(s, [], [i] + r);
    } else {
      HasDefaultIs(Children(s)[0]);
      var r0 :| OpenDefault(Children(s)[0], r0);
      Down(s, 0, r0);
      assert ([0] + r0)[0] != ([i] + r)[0];
      OneOf(s, [0] + r0, [i] + r);
    }
  }

  lemma OneOf(s: Stmt, p: Path, q: Path)
    requires forall p, q :: Single(s, p, q)
    requires p != q && IsDefault(s, p) && IsDefault(s, q)
    ensures Home(s, p) != Home(s, q)
  {
    assert Single(s, p, q);
  }

  lemma AtTop(s: Stmt)
    ensures At(s, []) == Some(s) && Home(s, []) == None && !InLoop(s, [])
  {
  }

  lemma FromChildren(s: Stmt, b: bool, c: bool, w: bool, seen: bool)
    requires SelfOk(s, b, c, w, seen) && forall i :: 0 <= i < |Children(s)| ==> PlacedChild(s, i, b, c, w, seen)
    ensures PlacedIn(s, b, c, w, seen)
  {
    hide At, InLoop, Home, HasDefault, PlacedIn, Single;
    forall p ensures FittingIn(s, p, b, c, w, seen) {
      if p == [] {
        AtTop(s);
      } else if At(s, p).Some? {
        FittingBelow(s, b, c, w, seen, p);
      }
    }
    forall p, q ensures Single(s, p, q) {
      SingleBelow(s, b, c, w, seen, p, q);
    }
    assert PlacedIn(s, b, c, w, seen) by { PlacedFrom(s, b, c, w, seen); }
  }

  lemma PlacedFrom(s: Stmt, b: bool, c: bool, w: bool, seen: bool)
    requires (forall p :: FittingIn(s, p, b, c, w, seen)) && forall p, q :: Single(s, p, q)
    ensures PlacedIn(s, b, c, w, seen)
  {
  }

  lemma FittingBelow(s: Stmt, b: bool, c: bool, w: bool, seen: bool, p: Path)
    requires p != [] && At(s, p).Some?
    requires forall i :: 0 <= i < |Children(s)| ==> PlacedChild(s, i, b, c, w, seen)
    ensures FittingIn(s, p, b, c, w, seen)
  {
    hide At, InLoop, Home, HasDefault, Single;
    Path1(s, p);
    Down(s, p[0], p[1..]);
    assert PlacedChild(s, p[0], b, c, w, seen);
    assert FittingIn(Children(s)[p[0]], p[1..], b || IsLoop(s) || s.Switch?, c || IsLoop(s), w || s.Switch?, SeenBy(s, p[0], seen));
  }

  lemma SingleBelow(s: Stmt, b: bool, c: bool, w: bool, seen: bool, p: Path, q: Path)
    requires forall i :: 0 <= i < |Children(s)| ==> PlacedChild(s, i, b, c, w, seen)
    ensures Single(s, p, q)
  {
    hide At, InLoop, Home, HasDefault, PlacedChild, PlacedIn;
    if p != q && IsDefault(s, p) && IsDefault(s, q) {
      if p == [] {
        SingleTop(s, b, c, w, seen, q);
      } else if q == [] {
        SingleTop(s, b, c, w, seen, p);
      } else {
        Path1(s, p);
        Path1(s, q);
        if p[0] == q[0] {
          SingleSame(s, b, c, w, seen, p[0], p[1..], q[1..]);
        } else if p[0] < q[0] {
          SingleTwo(s, b, c, w, seen, p[1..], q[1..]);
        } else {
          SingleTwo(s, b, c, w, seen, q[1..], p[1..]);
        }
      }
    }
  }

  lemma SingleTop(s: Stmt, b: bool, c: bool, w: bool, seen: bool, q: Path)
    requires forall i :: 0 <= i < |Children(s)| ==> PlacedChild(s, i, b, c, w, seen)
    requires q != [] && IsDefault(s, []) && IsDefault(s, q)
    ensures Home(s, q).Some? && Home(s, []) == None
  {
    hide At, InLoop, Home, HasDefault, Single;
    AtTop(s);
    Path1(s, q);
    Down(s, q[0], q[1..]);
    assert PlacedChild(s, q[0], b, c, w, seen);
    assert FittingIn(Children(s)[q[0]], q[1..], b || IsLoop(s) || s.Switch?, c || IsLoop(s), w || s.Switch?, SeenBy(s, q[0], seen));
  }

  lemma SingleSame(s: Stmt, b: bool, c: bool, w: bool, seen: bool, i: nat, r: Path, t: Path)
    requires i < |Children(s)| && PlacedChild(s, i, b, c, w, seen) && r != t
    requires IsDefault(s, [i] + r) && IsDefault(s, [i] + t)
    ensures Home(s, [i] + r) != Home(s, [i] + t)
  {
    hide At, InLoop, Home, HasDefault;
    Down(s, i, r);
    Down(s, i, t);
    assert Single(Children(s)[i], r, t);
    var a, z := Home(Children(s)[i], r), Home(Children(s)[i], t);
    if a.Some? && z.Some? { assert ([i] + a.value)[1..] == a.value && ([i] + z.value)[1..] == z.value; }
  }

  lemma SingleTwo(s: Stmt, b: bool, c: bool, w: bool, seen: bool, r: Path, t: Path)
    requires |Children(s)| == 2 && PlacedChild(s, 1, b, c, w, seen)
    requires IsDefault(s, [0] + r) && IsDefault(s, [1] + t)
    ensures Home(s, [0] + r) != Home(s, [1] + t)
  {
    hide At, InLoop, Home, HasDefault, Single;
    Down(s, 0, r);
    Down(s, 1, t);
    var x, y := Children(s)[0], Children(s)[1];
    assert FittingIn(y, t, b || IsLoop(s) || s.Switch?, c || IsLoop(s), w || s.Switch?, SeenBy(s, 1, seen));
    if Home(x, r).None? {
      assert OpenDefault(x, r);
      HasDefaultIs(x);
    } else if Home(y, t).Some? {
      assert ([0] + Home(x, r).value)[0] != ([1] + Home(y, t).value)[0];
    }
  }

  /** What the parser accepts inside other statements, by positions alone. */
  lemma {:induction false} PlacedExactly(s: Stmt, b: bool, c: bool, w: bool, seen: bool)
    ensures Accepted(s, b, c, w, seen) <==> PlacedIn(s, b, c, w, seen)
    decreases s
  {
    hide Accepted, PlacedIn, HasDefault, SeenBy;
    AcceptedUnfolds(s, b, c, w, seen);
    forall i | 0 <= i < |Children(s)| ensures AcceptedChild(s, i, b, c, w, seen) <==> PlacedChild(s, i, b, c, w, seen) {
      PlacedExactly(Children(s)[i], b || IsLoop(s) || s.Switch?, c || IsLoop(s), w || s.Switch?, SeenBy(s, i, seen));
    }
    if PlacedIn(s, b, c, w, seen) {
      SelfPlaced(s, b, c, w, seen);
      forall i | 0 <= i < |Children(s)| ensures PlacedChild(s, i, b, c, w, seen) {
        ChildrenPlaced(s, b, c, w, seen, i);
      }
    } else if Accepted(s, b, c, w, seen) {
      FromChildren(s, b, c, w, seen);
    }
  }

  lemma SelfPlaced(s: Stmt, b: bool, c: bool, w: bool, seen: bool)
    requires PlacedIn(s, b, c, w, seen)
    ensures SelfOk(s, b, c, w, seen)
  {
    AtTop(s);
    assert FittingIn(s, [], b, c, w, seen);
  }

  /** A function body is accepted if and only if every break is in a loop or a switch, every
      continue in a loop, every label in a switch, and no switch has two defaults of its own. */
  lemma AcceptedExactly(s: Stmt)
    ensures Accepted(s, false, false, false, false) <==> WellPlaced(s)
  {
    hide Accepted, At, InLoop, Home;
    PlacedExactly(s, false, false, false, false);
    forall p ensures FittingIn(s, p, false, false, false, false) <==> Fitting(s, p) {
    }
  }
}
