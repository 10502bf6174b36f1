/** What a stretch of one-pass compilation has done: the region it emitted, the lists it
    extended and the case list it resolved. The lemmas here say how stretches compose. */
module Regions {
  import opened Wrappers
  import opened JumpCode
  import opened Control
  import opened Patching

  predicate IsList(l: Label) { l == Brk || l == Cnt || l == Nxt || l == Ret }

  /** The heads of the jump lists a statement may extend; `None` where the C code passes a
      null pointer. */
  datatype Heads = Heads(b: Option<int>, c: Option<int>, k: Option<int>, r: Option<int>) {
    function Of(l: Label): Option<int>
      requires IsList(l)
    {
      if l == Brk then b else if l == Cnt then c else if l == Nxt then k else r
    }

    function With(l: Label, t: Option<int>): Heads
      requires IsList(l)
    {
      if l == Brk then this.(b := t) else if l == Cnt then this.(c := t)
      else if l == Nxt then this.(k := t) else this.(r := t)
    }
  }

  /** The slots on each of the four lists. */
  datatype Lists = Lists(b: seq<int>, c: seq<int>, k: seq<int>, r: seq<int>) {
    function Of(l: Label): seq<int>
      requires IsList(l)
    {
      if l == Brk then b else if l == Cnt then c else if l == Nxt then k else r
    }

    function With(l: Label, ss: seq<int>): Lists
      requires IsList(l)
    {
      if l == Brk then this.(b := ss) else if l == Cnt then this.(c := ss)
      else if l == Nxt then this.(k := ss) else this.(r := ss)
    }

    predicate Has(x: int) { x in b || x in c || x in k || x in r }
  }

  ghost predicate One(code: seq<Cell>, t: Option<int>, ss: seq<int>) {
    && (t.Some? ==> Linked(code, t.value, ss))
    && (forall x :: x in ss ==> 0 < x < |code|)
  }

  predicate Apart(a: seq<int>, b: seq<int>) { forall x :: x in a ==> x !in b }

  /** The lists are well formed, and the case list shares no slot with the others. */
  ghost predicate Held(code: seq<Cell>, h: Heads, ls: Lists) {
    && One(code, h.b, ls.b) && One(code, h.c, ls.c) && One(code, h.k, ls.k) && One(code, h.r, ls.r)
    && Apart(ls.k, ls.b) && Apart(ls.k, ls.c) && Apart(ls.k, ls.r)
    && (h.k.None? ==> ls.k == [])
  }

  /** The lists after `cells` have been emitted at `p`; `first` is where the old case list
      now leads, if it has been resolved. */
  ghost function Now(ls: Lists, cells: Symbolic, p: int, first: Option<int>): (r: Lists) {
    Lists(Spots(cells, p, Brk) + ls.b, Spots(cells, p, Cnt) + ls.c,
          Spots(cells, p, Nxt) + (if first.Some? then [] else ls.k), Spots(cells, p, Ret) + ls.r)
  }

  function Tie(cells: Symbolic, first: Option<int>): (r: Symbolic)
    ensures |r| == |cells|
  {
    if first.Some? then Bind(cells, Nxt, first.value) else cells
  }

  /** The code below a stretch, its case list resolved to `first`. */
  ghost function Below(code0: seq<Cell>, k: seq<int>, first: Option<int>): (r: seq<Cell>)
    ensures |r| == |code0|
  {
    if first.Some? then Patched(code0, k, first.value) else code0
  }

  /** From `code0`, compilation has emitted `cells`, resolved the case list to `first` and
      left everything else below untouched. */
  ghost predicate Part(code0: seq<Cell>, code: seq<Cell>, cells: Symbolic, first: Option<int>, h: Heads, ls: Lists) {
    && 0 < |code0|
    && |code| == |code0| + |cells|
    && Matches(code, |code0|, cells)
    && code[..|code0|] == Below(code0, ls.k, first)
    && Held(code, h, Now(ls, cells, |code0|, first))
  }

  /** Displacements that are known or wait only for a value or a jump over code. */
  ghost predicate Plain(cells: Symbolic) {
    forall i :: 0 <= i < |cells| && cells[i].Ref? ==> !IsList(cells[i].l)
  }

  // ----- lists and the code they run through -----

  lemma OneKept(code: seq<Cell>, code': seq<Cell>, t: Option<int>, ss: seq<int>)
    requires One(code, t, ss) && |code| <= |code'|
    requires forall x :: x in ss ==> code'[x] == code[x]
    ensures One(code', t, ss)
  {
    if t.Some? { LinkedFrame(code, code', t.value, ss); }
  }

  lemma OnePush(code: seq<Cell>, code': seq<Cell>, t: int, ss: seq<int>, s: int)
    requires 0 < |code| <= s < |code'| && One(code, Some(t), ss)
    requires code'[..|code|] == code && code'[s] == Slot(t)
    ensures One(code', Some(s), [s] + ss)
  {
    forall x | x in ss ensures code'[x] == code[x] { assert code'[..|code|][x] == code[x]; }
    OneKept(code, code', Some(t), ss);
    LinkedBelow(code, t, ss);
    if ss != [] { assert ss[0] in ss; }
    assert ([s] + ss)[1..] == ss;
  }

  lemma HeldKept(code: seq<Cell>, code': seq<Cell>, h: Heads, ls: Lists)
    requires Held(code, h, ls) && |code| <= |code'|
    requires forall x :: ls.Has(x) ==> 0 <= x < |code'| && (x < |code| ==> code'[x] == code[x])
    ensures Held(code', h, ls)
  {
    hide Linked;
    OneKept(code, code', h.b, ls.b);
    OneKept(code, code', h.c, ls.c);
    OneKept(code, code', h.k, ls.k);
    OneKept(code, code', h.r, ls.r);
  }

  lemma HeldGrow(code: seq<Cell>, code': seq<Cell>, h: Heads, ls: Lists)
    requires Held(code, h, ls) && |code| <= |code'| && code'[..|code|] == code
    ensures Held(code', h, ls)
  {
    hide Linked;
    forall x | ls.Has(x) ensures 0 <= x < |code| && code'[x] == code[x] {
      assert code'[..|code|][x] == code[x];
    }
    HeldKept(code, code', h, ls);
  }

  // ----- the lists of a region -----

  lemma PlainSpots(cells: Symbolic, p: int)
    requires Plain(cells)
    ensures Spots(cells, p, Brk) == Spots(cells, p, Cnt) == Spots(cells, p, Nxt) == Spots(cells, p, Ret) == []
  {
    SpotsNone(cells, p, Brk);
    SpotsNone(cells, p, Cnt);
    SpotsNone(cells, p, Nxt);
    SpotsNone(cells, p, Ret);
  }

  lemma NowConcat(ls: Lists, a: Symbolic, b: Symbolic, p: int, f: Option<int>)
    ensures Now(ls, a + b, p, f) == Now(Now(ls, a, p, f), b, p + |a|, None)
  {
    hide Spots;
    var q := p + |a|;
    SpotsConcat(a, b, p, Brk);
    SpotsConcat(a, b, p, Cnt);
    SpotsConcat(a, b, p, Nxt);
    SpotsConcat(a, b, p, Ret);
    Assoc(Spots(b, q, Brk), Spots(a, p, Brk), ls.b);
    Assoc(Spots(b, q, Cnt), Spots(a, p, Cnt), ls.c);
    Assoc(Spots(b, q, Nxt), Spots(a, p, Nxt), if f.Some? then [] else ls.k);
    Assoc(Spots(b, q, Ret), Spots(a, p, Ret), ls.r);
  }

  lemma NowPlain(ls: Lists, a: Symbolic, b: Symbolic, p: int, f: Option<int>)
    requires Plain(b)
    ensures Now(ls, a + b, p, f) == Now(ls, a, p, f)
  {
    hide Spots, Plain;
    NowConcat(ls, a, b, p, f);
    PlainSpots(b, p + |a|);
  }

  lemma NowBind(ls: Lists, cells: Symbolic, p: int, f: Option<int>, l: Label, a: int)
    requires !l.To?
    ensures var r := Now(ls, Bind(cells, l, a), p, f); var now := Now(ls, cells, p, f);
            && r.b == (if l == Brk then ls.b else now.b) && r.c == (if l == Cnt then ls.c else now.c)
            && r.k == (if l == Nxt then (if f.Some? then [] else ls.k) else now.k)
            && r.r == (if l == Ret then ls.r else now.r)
  {
    SpotsBind(cells, l, a, p, Brk);
    SpotsBind(cells, l, a, p, Cnt);
    SpotsBind(cells, l, a, p, Nxt);
    SpotsBind(cells, l, a, p, Ret);
  }

  /** A slot on a list is either in the region, on a displacement of that list, or on the
      list as it was. */
  lemma NowHas(ls: Lists, cells: Symbolic, p: int, f: Option<int>, x: int)
    ensures Now(ls, cells, p, f).Has(x) ==> ls.Has(x) || (p <= x < p + |cells| && cells[x - p].Ref? && IsList(cells[x - p].l))
  {
    SpotsIn(cells, p, Brk);
    SpotsIn(cells, p, Cnt);
    SpotsIn(cells, p, Nxt);
    SpotsIn(cells, p, Ret);
  }

  // ----- stretches -----

  lemma PartStart(code0: seq<Cell>, h: Heads, ls: Lists)
    requires 0 < |code0| && Held(code0, h, ls)
    ensures Part(code0, code0, [], None, h, ls)
  {
    assert Now(ls, [], |code0|, None) == ls;
  }

  lemma RegionGrow(code0: seq<Cell>, code: seq<Cell>, cells: Symbolic, code': seq<Cell>, x: Symbolic)
    requires |code| == |code0| + |cells| && Matches(code, |code0|, cells)
    requires |code'| == |code| + |x| && code'[..|code|] == code && Matches(code', |code|, x)
    ensures Matches(code', |code0|, cells + x) && code'[..|code0|] == code[..|code0|]
  {
    forall i | 0 <= i < |code| ensures code'[i] == code[i] { assert code'[..|code|][i] == code[i]; }
    MatchesFrame(code, code', |code0|, cells);
    MatchesConcat(code', |code0|, cells, x);
    assert code'[..|code0|] == code'[..|code|][..|code0|];
  }

  lemma PartAppend(code0: seq<Cell>, code: seq<Cell>, cells: Symbolic, first: Option<int>, h: Heads, ls: Lists, code': seq<Cell>, x: Symbolic)
    requires Part(code0, code, cells, first, h, ls)
    requires |code'| == |code| + |x| && code'[..|code|] == code && Matches(code', |code|, x) && Plain(x)
    ensures Part(code0, code', cells + x, first, h, ls)
  {
    hide Plain, Held, Matches, Now;
    RegionGrow(code0, code, cells, code', x);
    NowPlain(ls, cells, x, |code0|, first);
    HeldGrow(code, code', h, Now(ls, cells, |code0|, first));
  }

  lemma SpotsOne(l: Label, p: int, l': Label)
    ensures Spots([Ref(l)], p, l') == if l' == l then [p] else []
  {
    assert SpotsTo([Ref(l)], 0, p, l') == [];
  }

  lemma JumpSpots(op: Symbolic, l: Label, p: int, l': Label)
    requires !l.To? && !l'.To?
    requires forall i :: 0 <= i < |op| ==> op[i].Raw?
    ensures Spots(op + Disp32(l), p, l') == if l' == l then [p + |op|] else []
  {
    hide Spots;
    SpotsConcat(op, Disp32(l), p, l');
    SpotsNone(op, p, l');
    SpotsConcat([Ref(l)], Fills(3), p + |op|, l');
    SpotsNone(Fills(3), p + |op| + 1, l');
    SpotsOne(l, p + |op|, l');
  }

  /** Jumping off to a list pushes the new slot on it. */
  lemma PartJump(code0: seq<Cell>, code: seq<Cell>, cells: Symbolic, first: Option<int>, h: Heads, ls: Lists, code': seq<Cell>, op: Symbolic, l: Label)
    requires Part(code0, code, cells, first, h, ls) && IsList(l) && h.Of(l).Some?
    requires var x := op + Disp32(l); var t := |code| + |op|;
             && |code'| == |code| + |x| && code'[..|code|] == code && Matches(code', |code|, x)
             && code'[t] == Slot(h.Of(l).value)
    requires forall i :: 0 <= i < |op| ==> op[i].Raw?
    ensures Part(code0, code', cells + (op + Disp32(l)), first, h.With(l, Some(|code| + |op|)), ls)
  {
    hide Linked, Matches, Spots, Disp32, One;
    var p, x, t := |code0|, op + Disp32(l), |code| + |op|;
    RegionGrow(code0, code, cells, code', x);
    var now, now' := Now(ls, cells, p, first), Now(ls, cells + x, p, first);
    NowConcat(ls, cells, x, p, first);
    JumpSpots(op, l, |code|, Brk);
    JumpSpots(op, l, |code|, Cnt);
    JumpSpots(op, l, |code|, Nxt);
    JumpSpots(op, l, |code|, Ret);
    assert now' == now.With(l, [t] + now.Of(l));
    HeldGrow(code, code', h, now);
    OnePush(code, code', h.Of(l).value, now.Of(l), t);
    HeldPush(code, code', h, now, l, t);
  }

  lemma HeldPush(code: seq<Cell>, code': seq<Cell>, h: Heads, ls: Lists, l: Label, t: int)
    requires Held(code, h, ls) && Held(code', h, ls) && IsList(l) && t >= |code|
    requires One(code', Some(t), [t] + ls.Of(l))
    requires l == Nxt ==> h.k.Some?
    ensures Held(code', h.With(l, Some(t)), ls.With(l, [t] + ls.Of(l)))
  {
    hide Linked;
  }

  /** A region and what is below it when one of its lists is patched. */
  lemma PatchRegion(code0: seq<Cell>, code: seq<Cell>, cells: Symbolic, l: Label, a: int)
    requires |code| == |code0| + |cells| && Matches(code, |code0|, cells)
    ensures var ss := Spots(cells, |code0|, l);
            && Matches(Patched(code, ss, a), |code0|, Bind(cells, l, a))
            && Patched(code, ss, a)[..|code0|] == code[..|code0|]
  {
    SpotsIn(cells, |code0|, l);
    MatchesPatched(code, |code0|, cells, Spots(cells, |code0|, l), l, a);
  }

  lemma SpotsApart(cells: Symbolic, p: int, l: Label, l': Label)
    requires l != l'
    ensures Apart(Spots(cells, p, l), Spots(cells, p, l'))
  {
    SpotsIn(cells, p, l);
    SpotsIn(cells, p, l');
  }

  /** Patching the list of a value or of a jump over code binds it. */
  lemma PartBind(code0: seq<Cell>, code: seq<Cell>, cells: Symbolic, first: Option<int>, h: Heads, ls: Lists, l: Label, a: int)
    requires Part(code0, code, cells, first, h, ls) && (l == Pending || l == Over)
    requires forall x :: ls.Has(x) ==> x < |code0|
    ensures Part(code0, Patched(code, Spots(cells, |code0|, l), a), Bind(cells, l, a), first, h, ls)
  {
    hide Matches, Held, Spots, Bind;
    var p, ss := |code0|, Spots(cells, |code0|, l);
    PatchRegion(code0, code, cells, l, a);
    NowBind(ls, cells, p, first, l, a);
    var now := Now(ls, cells, p, first);
    assert now == Now(ls, Bind(cells, l, a), p, first);
    SpotsIn(cells, p, l);
    HeldBound(code, h, now);
    forall x | now.Has(x) ensures x !in ss { NowHas(ls, cells, p, first, x); }
    HeldKept(code, Patched(code, ss, a), h, now);
  }

  lemma HeldBound(code: seq<Cell>, h: Heads, ls: Lists)
    requires Held(code, h, ls)
    ensures forall x :: ls.Has(x) ==> 0 < x < |code|
  {
  }

  /** Patching a list that began in this region closes it. */
  lemma PartClose(code0: seq<Cell>, code: seq<Cell>, cells: Symbolic, first: Option<int>, h: Heads, ls: Lists, l: Label, a: int)
    requires Part(code0, code, cells, first, h, ls) && IsList(l) && ls.Of(l) == []
    requires forall x :: ls.Has(x) ==> x < |code0|
    ensures Part(code0, Patched(code, Spots(cells, |code0|, l), a), Bind(cells, l, a), first, h.With(l, None), ls)
  {
    hide Matches, Linked, Spots, Bind, Apart;
    var p, ss := |code0|, Spots(cells, |code0|, l);
    var code' := Patched(code, ss, a);
    PatchRegion(code0, code, cells, l, a);
    NowBind(ls, cells, p, first, l, a);
    var now := Now(ls, cells, p, first);
    assert now.With(l, []) == Now(ls, Bind(cells, l, a), p, first);
    CloseList(code, code', cells, p, first, h, ls, l, Brk);
    CloseList(code, code', cells, p, first, h, ls, l, Cnt);
    CloseList(code, code', cells, p, first, h, ls, l, Nxt);
    CloseList(code, code', cells, p, first, h, ls, l, Ret);
    assert Apart([], now.b) && Apart([], now.c) && Apart([], now.r) && Apart(now.k, []) by {
      assert forall a, b: seq<int> :: a == [] || b == [] ==> Apart(a, b) by { EmptyApart(); }
    }
  }

  lemma EmptyApart()
    ensures forall a, b: seq<int> :: a == [] || b == [] ==> Apart(a, b)
  {
  }

  lemma CloseList(code: seq<Cell>, code': seq<Cell>, cells: Symbolic, p: int, first: Option<int>, h: Heads, ls: Lists, l: Label, l': Label)
    requires Held(code, h, Now(ls, cells, p, first)) && IsList(l) && IsList(l') && |code'| == |code|
    requires forall x :: ls.Has(x) ==> x < p
    requires forall x :: 0 <= x < |code| && x !in Spots(cells, p, l) ==> code'[x] == code[x]
    ensures l' != l ==> One(code', h.Of(l'), Now(ls, cells, p, first).Of(l'))
  {
    hide Linked, Spots, Apart;
    if l' != l {
      SpotsIn(cells, p, l);
      SpotsIn(cells, p, l');
      var ss := Now(ls, cells, p, first).Of(l');
      forall x | x in ss ensures x !in Spots(cells, p, l) {
        assert x in Spots(cells, p, l') || x in ls.Of(l');
        assert x in ls.Of(l') ==> ls.Has(x);
      }
      OneKept(code, code', h.Of(l'), ss);
    }
  }

  /** Resolving the case list from outside: the next case test is at `a`. */
  lemma PartFirst(code0: seq<Cell>, code: seq<Cell>, cells: Symbolic, h: Heads, ls: Lists, a: int)
    requires Part(code0, code, cells, None, h, ls) && h.k.Some? && Plain(cells)
    requires Held(code0, h, ls)
    ensures Part(code0, Patched(code, ls.k, a), cells, Some(a), h.(k := Some(0)), ls)
  {
    hide Linked, Spots;
    var p := |code0|;
    var code' := Patched(code, ls.k, a);
    assert code'[..p] == Patched(code0, ls.k, a) by {
      forall i | 0 <= i < p ensures code'[i] == Patched(code0, ls.k, a)[i] { assert code[..p][i] == code0[i]; }
    }
    MatchesFrame(code, code', p, cells);
    PlainSpots(cells, p);
    assert Now(ls, cells, p, None) == ls && Now(ls, cells, p, Some(a)) == ls.(k := []);
    OneKept(code, code', h.b, ls.b);
    OneKept(code, code', h.c, ls.c);
    OneKept(code, code', h.r, ls.r);
    assert Linked(code', 0, []) by { LinkedNil(code'); }
  }

  lemma LinkedNil(code: seq<Cell>)
    ensures Linked(code, 0, [])
  {
  }

  function Or(f1: Option<int>, f2: Option<int>): Option<int> { if f1.Some? then f1 else f2 }

  /** One stretch after another: the case tests of the first fail into those of the second. */
  lemma PartSeq(code0: seq<Cell>, code1: seq<Cell>, x: Symbolic, f1: Option<int>, h1: Heads, ls: Lists,
                code2: seq<Cell>, y: Symbolic, f2: Option<int>, h2: Heads)
    requires Part(code0, code1, x, f1, h1, ls)
    requires Part(code1, code2, y, f2, h2, Now(ls, x, |code0|, f1))
    requires forall z :: ls.Has(z) ==> z < |code0|
    ensures Part(code0, code2, Tie(x, f2) + y, Or(f1, f2), h2, ls)
  {
    hide Held, Spots, Matches;
    var p, q := |code0|, |code1|;
    PartSeqCode(code0, code1, x, f1, h1, ls, code2, f2);
    assert Matches(code2, p, Tie(x, f2) + y) by { MatchesConcat(code2, p, Tie(x, f2), y); }
    assert Now(ls, Tie(x, f2) + y, p, Or(f1, f2)) == Now(Now(ls, x, p, f1), y, q, f2) by {
      NowConcat(ls, Tie(x, f2), y, p, Or(f1, f2));
      if f2.Some? { NowBind(ls, x, p, Or(f1, f2), Nxt, f2.value); }
    }
  }

  lemma PartSeqCode(code0: seq<Cell>, code1: seq<Cell>, x: Symbolic, f1: Option<int>, h1: Heads, ls: Lists,
                    code2: seq<Cell>, f2: Option<int>)
    requires Part(code0, code1, x, f1, h1, ls) && |code1| <= |code2|
    requires code2[..|code1|] == Below(code1, Now(ls, x, |code0|, f1).k, f2)
    requires forall z :: ls.Has(z) ==> z < |code0|
    ensures Matches(code2, |code0|, Tie(x, f2))
    ensures code2[..|code0|] == Below(code0, ls.k, Or(f1, f2))
  {
    hide Held, Spots;
    var p, q := |code0|, |code1|;
    var mid := code2[..q];
    assert forall i :: 0 <= i < q ==> code2[i] == mid[i];
    var goal := Below(code0, ls.k, Or(f1, f2));
    if f2.Some? {
      var k := Now(ls, x, p, f1).k;
      SpotsIn(x, p, Nxt);
      assert forall z :: z in ls.k ==> ls.Has(z);
      MatchesPatched(code1, p, x, k, Nxt, f2.value);
      forall i | 0 <= i < p ensures code2[i] == goal[i] {
        assert code1[..p][i] == code1[i];
      }
    } else {
      assert forall i :: 0 <= i < p ==> code1[..p][i] == code1[i];
    }
    assert code2[..p] == goal;
    MatchesFrame(mid, code2, p, Tie(x, f2));
  }

  /** A list of the first stretch that waits for a value or a jump over code survives
      the second. */
  lemma WaitingKept(code0: seq<Cell>, code1: seq<Cell>, x: Symbolic, f1: Option<int>, ls: Lists,
                    code2: seq<Cell>, y: Symbolic, f2: Option<int>, l: Label, t: int)
    requires |code1| == |code0| + |x| && |code1| <= |code2|
    requires code2[..|code1|] == Below(code1, Now(ls, x, |code0|, f1).k, f2)
    requires forall z :: ls.Has(z) ==> z < |code0|
    requires (l == Pending || l == Over) && Lacks(y, l) && Linked(code1, t, Spots(x, |code0|, l))
    ensures Linked(code2, t, Spots(Tie(x, f2) + y, |code0|, l))
  {
    hide Linked, Spots;
    var p := |code0|;
    SpotsConcat(Tie(x, f2), y, p, l);
    SpotsNone(y, p + |x|, l);
    if f2.Some? { SpotsBind(x, Nxt, f2.value, p, l); }
    SpotsIn(x, p, l);
    SpotsIn(x, p, Nxt);
    assert Spots(Tie(x, f2) + y, p, l) == Spots(x, p, l);
    forall z | z in Spots(x, p, l) ensures code2[z] == code1[z] {
      assert z in ls.k ==> ls.Has(z);
      assert z !in Now(ls, x, p, f1).k;
      assert code2[..|code1|][z] == code2[z];
    }
    LinkedFrame(code1, code2, t, Spots(x, p, l));
  }

  /** The outer lists of a statement are intact after it, but for the case list. */
  lemma OuterKept(code0: seq<Cell>, code: seq<Cell>, h0: Heads, ls: Lists, first: Option<int>)
    requires Held(code0, h0, ls) && |code0| <= |code|
    requires code[..|code0|] == Below(code0, ls.k, first)
    ensures One(code, h0.b, ls.b) && One(code, h0.c, ls.c) && One(code, h0.r, ls.r)
    ensures first.None? ==> One(code, h0.k, ls.k)
  {
    hide Linked;
    forall x | ls.Has(x) && (first.None? || x !in ls.k) ensures 0 < x < |code0| && code[x] == code0[x] {
      assert code[..|code0|][x] == code[x];
    }
    OneKept(code0, code, h0.b, ls.b);
    OneKept(code0, code, h0.c, ls.c);
    OneKept(code0, code, h0.r, ls.r);
    if first.None? { OneKept(code0, code, h0.k, ls.k); }
  }

  /** The heads and lists a loop body is compiled with. */
  function LoopHeads(h: Heads): Heads { h.(b := Some(0), c := Some(0)) }
  ghost function LoopLists(ls: Lists): Lists { ls.(b := [], c := []) }

  lemma EnterLoop(code0: seq<Cell>, h: Heads, ls: Lists)
    requires 0 < |code0| && Held(code0, h, ls)
    ensures Part(code0, code0, [], None, LoopHeads(h), LoopLists(ls))
  {
    PartStart(code0, LoopHeads(h), LoopLists(ls));
  }

  /** Outside the loop its own lists are gone and the outer ones are as they were. */
  lemma LeaveLoop(code0: seq<Cell>, code: seq<Cell>, cells: Symbolic, first: Option<int>, h0: Heads, h: Heads, ls: Lists)
    requires Held(code0, h0, ls) && Part(code0, code, cells, first, h, LoopLists(ls))
    requires Lacks(cells, Brk) && Lacks(cells, Cnt)
    ensures Part(code0, code, cells, first, h.(b := h0.b, c := h0.c), ls)
  {
    hide Linked, Spots, Matches;
    var p := |code0|;
    SpotsNone(cells, p, Brk);
    SpotsNone(cells, p, Cnt);
    SpotsIn(cells, p, Nxt);
    HeldBound(code0, h0, ls);
    OuterKept(code0, code, h0, ls, first);
    var inner, now := Now(LoopLists(ls), cells, p, first), Now(ls, cells, p, first);
    assert now == inner.(b := ls.b, c := ls.c);
    assert forall x :: x in ls.b || x in ls.c ==> ls.Has(x);
    assert forall x :: x in now.k ==> p <= x || x in ls.k;
  }

  /** The heads and lists a switch body is compiled with. */
  function SwitchHeads(h: Heads): Heads { h.(b := Some(0), k := Some(0)) }
  ghost function SwitchLists(ls: Lists): Lists { ls.(b := [], k := []) }

  lemma EnterSwitch(code0: seq<Cell>, h: Heads, ls: Lists)
    requires 0 < |code0| && Held(code0, h, ls)
    ensures Part(code0, code0, [], None, SwitchHeads(h), SwitchLists(ls))
  {
    PartStart(code0, SwitchHeads(h), SwitchLists(ls));
  }

  lemma LeaveSwitch(code0: seq<Cell>, code: seq<Cell>, cells: Symbolic, first: Option<int>, h0: Heads, h: Heads, ls: Lists)
    requires Held(code0, h0, ls) && Part(code0, code, cells, first, h, SwitchLists(ls))
    requires Lacks(cells, Brk) && Lacks(cells, Nxt)
    ensures Part(code0, code, cells, None, h.(b := h0.b, k := h0.k), ls)
  {
    hide Linked, Spots, Matches;
    var p := |code0|;
    SpotsNone(cells, p, Brk);
    SpotsNone(cells, p, Nxt);
    SpotsIn(cells, p, Cnt);
    SpotsIn(cells, p, Ret);
    HeldBound(code0, h0, ls);
    assert code[..p] == code0;
    OuterKept(code0, code, h0, ls, None);
    var inner, now := Now(SwitchLists(ls), cells, p, first), Now(ls, cells, p, None);
    assert now == inner.(b := ls.b, k := ls.k);
    assert forall x :: x in ls.k ==> ls.Has(x);
  }

  /** A failed loop test leaves by the same list as `break`. */
  function AsBreak(cells: Symbolic): (r: Symbolic)
    ensures |r| == |cells|
  {
    seq(|cells|, i requires 0 <= i < |cells| => if cells[i] == Ref(Pending) then Ref(Brk) else cells[i])
  }

  lemma PartAsBreak(code0: seq<Cell>, code: seq<Cell>, cells: Symbolic, h: Heads, ls: Lists, t: int)
    requires Part(code0, code, cells, None, h, ls) && Plain(cells) && ls.b == []
    requires forall x :: ls.Has(x) ==> x < |code0|
    requires Linked(code, t, Spots(cells, |code0|, Pending))
    ensures Part(code0, code, AsBreak(cells), None, h.(b := Some(t)), ls)
  {
    hide Linked, Spots, Matches, AsBreak;
    var p, r := |code0|, AsBreak(cells);
    assert Now(ls, cells, p, None) == ls by { PlainSpots(cells, p); }
    AsBreakSpots(code, cells, p);
    SpotsIn(cells, p, Pending);
    assert Now(ls, r, p, None) == ls.(b := Spots(cells, p, Pending));
    assert forall x :: x in ls.k ==> ls.Has(x);
  }

  lemma AsBreakSpots(code: seq<Cell>, cells: Symbolic, p: int)
    requires Matches(code, p, cells) && Plain(cells)
    ensures var r := AsBreak(cells);
            && Matches(code, p, r) && Spots(r, p, Brk) == Spots(cells, p, Pending)
            && Spots(r, p, Cnt) == Spots(r, p, Nxt) == Spots(r, p, Ret) == []
  {
    hide Spots;
    var r := AsBreak(cells);
    SpotsSame(r, Brk, cells, Pending, p);
    SpotsNone(r, p, Cnt);
    SpotsNone(r, p, Nxt);
    SpotsNone(r, p, Ret);
    forall i | 0 <= i < |cells| ensures CellMatches(code[p + i], r[i], p + i) {
      assert CellMatches(code[p + i], cells[i], p + i);
    }
  }

  // ----- which lists a piece of code is on -----

  /** Displacements on no list of the expression kind: an expression's code once tested. */
  ghost predicate Valued(cells: Symbolic) {
    forall i :: 0 <= i < |cells| && cells[i].Ref? ==> cells[i].l.To? || cells[i].l == Pending
  }

  ghost predicate Known(cells: Symbolic) {
    forall i :: 0 <= i < |cells| && cells[i].Ref? ==> cells[i].l.To?
  }

  lemma ValuedConcat(a: Symbolic, b: Symbolic)
    requires Valued(a) && Valued(b)
    ensures Valued(a + b)
  {
  }

  lemma KnownConcat(a: Symbolic, b: Symbolic)
    requires Known(a) && Known(b)
    ensures Known(a + b)
  {
  }

  lemma ValuedBind(cells: Symbolic, a: int)
    requires Valued(cells)
    ensures Known(Bind(cells, Pending, a))
  {
  }

  lemma ValuedTest(cells: Symbolic, at: Place, inv: bool, p: int)
    requires Valued(cells)
    ensures Valued(TestOf(cells, at, inv, p))
  {
    hide Bind;
    assert Valued(JmpTo(Pending)) && Valued([Raw(Test), Raw(Fill)]);
    match at
    case InConst(c) => ValuedConcat(cells, JmpTo(Pending));
    case InFlags(op) =>
      var jump := JccTo(FlipIf(op, inv), Pending);
      assert Valued(jump);
      ValuedConcat(cells, jump);
    case InReg =>
      var jump := JccTo(FlipIf(TOK_NE, inv), Pending);
      assert Valued(jump);
      ValuedConcat(cells, [Raw(Test), Raw(Fill)]);
      ValuedConcat(cells + [Raw(Test), Raw(Fill)], jump);
    case _ =>
      ValuedBind(cells, p + |cells| + 5);
      ValuedConcat(Bind(cells, Pending, p + |cells| + 5), JmpTo(Pending));
  }

  lemma {:induction false} CodeValued(e: Expr, p: int)
    ensures Valued(Code(e, p).0)
    decreases e, 0
  {
    hide Valued;
    match e
    case Operand(id, extra) => assert Valued([Raw(Atom(id, extra))] + Fills(extra)) by { RawValued(Atom(id, extra), extra); }
    case Relation(op, id, extra) => RawValued(Cell.Compare(id, extra), extra);
    case Const(c) => NilValued();
    case Not(e1) =>
      CodeValued(e1, p);
      ValuedTest(Code(e1, p).0, Code(e1, p).1, true, p);
    case Land(es) => ChainValued(es, true, p);
    case Lor(es) => ChainValued(es, false, p);
  }

  lemma RawValued(c: Cell, n: nat)
    ensures Valued([Raw(c)] + Fills(n))
  {
  }

  lemma NilValued()
    ensures Valued([])
  {
  }

  lemma {:induction false} ChainValued(es: Exprs, inv: bool, p: int)
    ensures Valued(ChainCode(es, inv, p))
    decreases es, 0
  {
    hide Valued;
    match es
    case Nil => NilValued();
    case Cons(e, rest) =>
      CodeValued(e, p);
      ValuedTest(Code(e, p).0, Code(e, p).1, inv, p);
      var first := TestCode(e, inv, p);
      ChainValued(rest, inv, p + |first|);
      ValuedConcat(first, ChainCode(rest, inv, p + |first|));
  }

  lemma TestValued(e: Expr, inv: bool, p: int)
    ensures Valued(TestCode(e, inv, p))
  {
    CodeValued(e, p);
    ValuedTest(Code(e, p).0, Code(e, p).1, inv, p);
  }

  lemma PopKnown(e: Expr, p: int)
    ensures Known(PopCode(e, p))
  {
    CodeValued(e, p);
    ValuedBind(Code(e, p).0, p + |Code(e, p).0|);
  }

  lemma BackKnown(a: int, at: int)
    ensures Known(JmpBack(a, at))
  {
  }

  lemma StepKnown(n: Option<Expr>, d: int, p: int)
    ensures Known(StepCode(n, d, p))
  {
    hide PopCode;
    if n.Some? {
      var c := PopCode(n.value, p + 5);
      var back := JmpBack(d, p + 5 + |c|);
      PopKnown(n.value, p + 5);
      BackKnown(d, p + 5 + |c|);
      var jump := JmpTo(To(p + 5 + |c| + |back|));
      assert Known(jump);
      KnownConcat(jump, c);
      KnownConcat(jump + c, back);
    }
  }

  /** An expression in the register leaves nothing open. */
  lemma RegKnown(code: seq<Cell>, e: Expr, p: int)
    requires Code(e, p).1.JmpTrue? || Code(e, p).1.JmpFalse? || Lacks(Code(e, p).0, Pending)
    ensures Known(RegCode(e, p))
  {
    hide Bind;
    var (cells, at) := Code(e, p);
    CodeValued(e, p);
    match at
    case InReg =>
    case InConst(c) => KnownConcat(cells, MovImm(c));
    case InFlags(op) =>
      KnownConcat(cells, MovImm(0));
      KnownConcat(cells + MovImm(0), [Raw(SetCond(op))]);
      KnownConcat(cells + MovImm(0) + [Raw(SetCond(op))], Fills(2));
    case _ =>
      ValuedBind(cells, p + |cells| + 7);
      var a, hop, b := MovImm(Bit(at.JmpFalse?)), [Raw(JmpShort), Raw(Disp8(5))], MovImm(Bit(at.JmpTrue?));
      KnownConcat(a, hop);
      KnownConcat(a + hop, b);
      KnownConcat(Bind(cells, Pending, p + |cells| + 7), a + hop + b);
  }

  lemma {:induction false} NoJumpNoList(e: Expr, p: int)
    ensures Code(e, p).1.JmpTrue? || Code(e, p).1.JmpFalse? || Lacks(Code(e, p).0, Pending)
    decreases e
  {
    match e
    case Not(e1) => NoJumpNoList(e1, p);
    case _ =>
  }

  /** Displacements that are known, lead to the return list, or are on a list that is allowed. */
  ghost predicate Only(cells: Symbolic, b: bool, c: bool, w: bool) {
    forall i :: 0 <= i < |cells| && cells[i].Ref? ==>
      var l := cells[i].l; l.To? || l == Ret || (b && l == Brk) || (c && l == Cnt) || (w && l == Nxt)
  }

  lemma OnlyConcat(x: Symbolic, y: Symbolic, b: bool, c: bool, w: bool)
    requires Only(x, b, c, w) && Only(y, b, c, w)
    ensures Only(x + y, b, c, w)
  {
  }

  lemma OnlyLink(x: Symbolic, s: Stmt, p: int, b: bool, c: bool, w: bool)
    requires Only(x, b, c, w)
    ensures Only(Link(x, s, p), b, c, w)
  {
    hide FirstCase;
  }

  lemma OnlyKnown(x: Symbolic, b: bool, c: bool, w: bool)
    requires Known(x)
    ensures Only(x, b, c, w)
  {
  }

  lemma OnlyBound(x: Symbolic, l: Label, a: int, l': Label, a': int, b: bool, c: bool, w: bool)
    requires IsList(l) && IsList(l') && l != Ret && l' != Ret
    requires Only(x, b || l == Brk || l' == Brk, c || l == Cnt || l' == Cnt, w || l == Nxt || l' == Nxt)
    ensures Only(Bind(Bind(x, l, a), l', a'), b, c, w)
  {
  }

  /** An accepted statement leaves only the lists open that its context owns. */
  lemma {:induction false} EmitOnly(s: Stmt, p: int, b: bool, c: bool, w: bool, seen: bool)
    requires Accepted(s, b, c, w, seen)
    ensures Only(Emit(s, p), b, c, w)
    decreases s, 0
  {
    hide Emit, Only, Known, Valued, Bind, LoopCode, TestCode, RegCode, PopCode, CaseTest, Link, Entry, Otherwise;
    EmitLeaf(s, p);
    match s
    case Skip => OnlyNil(b, c, w);
    case Eval(e) => PopKnown(e, p); OnlyKnown(PopCode(e, p), b, c, w);
    case Break => OnlyJump(Brk, b, c, w);
    case Continue => OnlyJump(Cnt, b, c, w);
    case Return(e) => OnlyReturn(e, p, b, c, w);
    case Seq(x, y) =>
      EmitSeq(x, y, p);
      var q := Sub2(s, p);
      EmitOnly(x, p, b, c, w, seen);
      EmitOnly(y, q, b, c, w, seen || HasDefault(x));
      OnlyLink(Emit(x, p), y, q, b, c, w);
      OnlyConcat(Link(Emit(x, p), y, q), Emit(y, q), b, c, w);
    case If(e, x) =>
      EmitIf(e, x, p);
      var q := Sub1(s, p);
      EmitOnly(x, q, b, c, w, seen);
      OnlyTest(e, true, p, q + |Emit(x, q)|, b, c, w);
      OnlyConcat(Bind(TestCode(e, true, p), Pending, q + |Emit(x, q)|), Emit(x, q), b, c, w);
    case IfElse(e, x, y) =>
      EmitIfElse(e, x, y, p);
      var q, r := Sub1(s, p), Sub2(s, p);
      EmitOnly(x, q, b, c, w, seen);
      EmitOnly(y, r, b, c, w, seen || HasDefault(x));
      OnlyTest(e, true, p, r, b, c, w);
      OnlyLink(Emit(x, q), y, r, b, c, w);
      var jump := JmpTo(To(r + |Emit(y, r)|));
      OnlyJump(To(r + |Emit(y, r)|), b, c, w);
      OnlyConcat(jump, Emit(y, r), b, c, w);
      OnlyConcat(Link(Emit(x, q), y, r), jump + Emit(y, r), b, c, w);
      OnlyConcat(Bind(TestCode(e, true, p), Pending, r), Link(Emit(x, q), y, r) + (jump + Emit(y, r)), b, c, w);
    case While(e, x) =>
      EmitLoop(s, p);
      LoopOnly(Some(e), None, x, p, b, c, w, seen);
    case For(i, t, n, x) =>
      EmitLoop(s, p);
      OnlyOptPop(i, p, b, c, w);
      LoopOnly(t, n, x, p + |OptPop(i, p)|, b, c, w, seen);
      OnlyConcat(OptPop(i, p), LoopCode(t, n, x, p + |OptPop(i, p)|), b, c, w);
    case DoWhile(x, e) =>
      EmitDo(x, e, p);
      var q := p + |Emit(x, p)|;
      var test := TestCode(e, false, q);
      EmitOnly(x, p, true, true, w, seen);
      OnlyBound(Emit(x, p), Brk, q + |test|, Cnt, q, b, c, w);
      OnlyTest(e, false, q, p, b, c, w);
      OnlyConcat(Bind(Bind(Emit(x, p), Brk, q + |test|), Cnt, q), Bind(test, Pending, p), b, c, w);
    case Switch(e, x) =>
      EmitSwitch(e, x, p);
      var q := Sub1(s, p);
      EmitOnly(x, q, true, c, true, false);
      OnlyBound(Emit(x, q), Nxt, Otherwise(x, q), Brk, q + |Emit(x, q)|, b, c, w);
      NoJumpNoList(e, p);
      RegKnown([], e, p);
      OnlyKnown(RegCode(e, p), b, c, w);
      var jump := JmpTo(To(Entry(x, q)));
      OnlyJump(To(Entry(x, q)), b, c, w);
      OnlyConcat(jump, Bind(Bind(Emit(x, q), Nxt, Otherwise(x, q)), Brk, q + |Emit(x, q)|), b, c, w);
      OnlyConcat(RegCode(e, p), jump + Bind(Bind(Emit(x, q), Nxt, Otherwise(x, q)), Brk, q + |Emit(x, q)|), b, c, w);
    case Case(lo, hi, x) =>
      EmitCase(lo, hi, x, p);
      var q := Sub1(s, p);
      EmitOnly(x, q, b, c, w, seen);
      OnlyCaseTest(lo, hi, b, c);
      OnlyLink(CaseTest(lo, hi), x, q, b, c, w);
      OnlyJump(To(q), b, c, w);
      OnlyConcat(Link(CaseTest(lo, hi), x, q), Emit(x, q), b, c, w);
      OnlyConcat(JmpTo(To(q)), Link(CaseTest(lo, hi), x, q) + Emit(x, q), b, c, w);
    case Default(x) =>
      EmitLoop(s, p);
      EmitOnly(x, p, b, c, w, true);
  }

  lemma OnlyNil(b: bool, c: bool, w: bool)
    ensures Only([], b, c, w)
  {
  }

  lemma OnlyJump(l: Label, b: bool, c: bool, w: bool)
    requires l.To? || l == Ret || (b && l == Brk) || (c && l == Cnt) || (w && l == Nxt)
    ensures Only(JmpTo(l), b, c, w)
  {
  }

  lemma OnlyTest(e: Expr, inv: bool, p: int, a: int, b: bool, c: bool, w: bool)
    ensures Only(Bind(TestCode(e, inv, p), Pending, a), b, c, w)
  {
    hide Only, Known, Valued, Bind;
    TestValued(e, inv, p);
    ValuedBind(TestCode(e, inv, p), a);
    OnlyKnown(Bind(TestCode(e, inv, p), Pending, a), b, c, w);
  }

  lemma OnlyOptPop(e: Option<Expr>, p: int, b: bool, c: bool, w: bool)
    ensures Only(OptPop(e, p), b, c, w)
  {
    hide Only, Known, PopCode;
    if e.Some? {
      PopKnown(e.value, p);
      OnlyKnown(PopCode(e.value, p), b, c, w);
    } else {
      OnlyNil(b, c, w);
    }
  }

  lemma OnlyReturn(e: Option<Expr>, p: int, b: bool, c: bool, w: bool)
    ensures Only(OptReg(e, p) + JmpTo(Ret), b, c, w)
  {
    hide Only, Known, RegCode;
    if e.Some? {
      NoJumpNoList(e.value, p);
      RegKnown([], e.value, p);
      OnlyKnown(RegCode(e.value, p), b, c, w);
    } else {
      OnlyNil(b, c, w);
    }
    OnlyJump(Ret, b, c, w);
    OnlyConcat(OptReg(e, p), JmpTo(Ret), b, c, w);
  }

  lemma OnlyCaseTest(lo: int, hi: int, b: bool, c: bool)
    ensures Only(CaseTest(lo, hi), b, c, true)
  {
    OnlyCompare(lo, Flip(if lo == hi then TOK_EQ else TOK_GE), b, c);
    OnlyCompare(hi, Flip(TOK_LE), b, c);
    if lo != hi {
      OnlyConcat(CompareImm(lo) + JccTo(Flip(TOK_GE), Nxt), CompareImm(hi) + JccTo(Flip(TOK_LE), Nxt), b, c, true);
    }
  }

  lemma OnlyCompare(v: int, op: CompareOp, b: bool, c: bool)
    ensures Only(CompareImm(v) + JccTo(op, Nxt), b, c, true)
  {
    assert Only(CompareImm(v), b, c, true) && Only(JccTo(op, Nxt), b, c, true);
    OnlyConcat(CompareImm(v), JccTo(op, Nxt), b, c, true);
  }

  lemma {:induction false} LoopOnly(t: Option<Expr>, n: Option<Expr>, x: Stmt, d: int, b: bool, c: bool, w: bool, seen: bool)
    requires Accepted(x, true, true, w, seen)
    ensures Only(LoopCode(t, n, x, d), b, c, w)
    decreases x, 1
  {
    hide Only, Known, Valued, Bind, TestCode, Emit, StepCode;
    var q := BodyAt(t, n, d);
    var body := Emit(x, q);
    var again := AgainAt(t, n, d);
    var back := JmpBack(again, q + |body|);
    var end := q + |body| + |back|;
    EmitOnly(x, q, true, true, w, seen);
    OnlyBound(body, Brk, end, Cnt, again, b, c, w);
    var tied := Bind(Bind(body, Brk, end), Cnt, again);
    BackKnown(again, q + |body|);
    OnlyKnown(back, b, c, w);
    OnlyConcat(tied, back, b, c, w);
    StepKnown(n, d, StepAt(t, d));
    OnlyKnown(StepCode(n, d, StepAt(t, d)), b, c, w);
    OnlyConcat(StepCode(n, d, StepAt(t, d)), tied + back, b, c, w);
    if t.Some? {
      OnlyTest(t.value, true, d, end, b, c, w);
    } else {
      OnlyNil(b, c, w);
      BindNil(end);
    }
    OnlyConcat(Bind(OptTest(t, d), Pending, end), StepCode(n, d, StepAt(t, d)) + (tied + back), b, c, w);
  }

  lemma BindNil(a: int)
    ensures Bind([], Pending, a) == []
  {
  }
}
