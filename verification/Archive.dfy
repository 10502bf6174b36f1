/** Loading from an archive only the members that resolve undefined symbols, again and again
    until a pass over the archive's index loads nothing. */
module Archive {
  import opened Wrappers
  import opened ElfSymbols
  import opened Linker
  import M = Merging

  /** An entry of the archive's index: a symbol and the member said to define it. */
  datatype Entry = Entry(name: string, o: Object)

  datatype State = State(secs: seq<Section>, syms: seq<Sym>)

  predicate Ready(st: State) { |st.secs| > 0 && |st.syms| > 0 && !Global(st.syms[0]) }

  predicate HasDefined(syms: seq<Sym>, name: string) {
    var i := Newest(syms, |syms|, name); i != 0 && Defined(syms[i])
  }

  /** In the table but not defined. */
  predicate Wanted(syms: seq<Sym>, name: string) {
    var i := Newest(syms, |syms|, name); i != 0 && !Defined(syms[i])
  }

  /** Symbol `k` of the member asks for a definition of `name` to be added. */
  predicate Offers(o: Object, tab: seq<Slot>, k: nat, name: string)
    requires k < |o.syms|
  {
    var f := Moved(o, tab, k);
    f.Request? && Global(f.s) && Defined(f.s) && f.s.name == name
  }

  /** What an index promises of a member: it defines the symbol in a section that is loaded
      whatever was loaded before, or absolutely, or as a common symbol. */
  predicate Provides(o: Object, k: nat, name: string)
    requires k < |o.syms|
  {
    var s := o.syms[k];
    && Global(s) && Defined(s) && s.name == name
    && (s.shndx >= SHN_LORESERVE
        || (s.shndx < |o.shdrs| && M.Loads(o, s.shndx) && !LinkOnce(o.shdrs[s.shndx].name)))
  }

  ghost predicate Honest(e: Entry) {
    ObjectOk(e.o) && exists k :: 1 <= k < |e.o.syms| && Provides(e.o, k, e.name)
  }

  ghost predicate AllHonest(index: seq<Entry>) { forall i :: 0 <= i < |index| ==> Honest(index[i]) }

  // ----- the passes -----

  /** One entry of the index looked at: the state after it, and whether its member was loaded. */
  function Look(st: State, e: Entry, isDyn: bool): (r: Option<(State, bool)>)
    requires Ready(st)
    ensures r.Some? ==> |r.value.0.secs| > 0
  {
    if !Wanted(st.syms, e.name) then Some((st, false)) else
    var l := Load(st.secs, st.syms, e.o, isDyn);
    if l.None? then None else
    LoadNonempty(st, e.o, isDyn);
    Some((State(l.value.secs, l.value.symbols.syms), true))
  }

  lemma LoadNonempty(st: State, o: Object, isDyn: bool)
    requires Ready(st) && Load(st.secs, st.syms, o, isDyn).Some?
    ensures |Load(st.secs, st.syms, o, isDyn).value.secs| > 0
  {
  }

  /** The first `n` entries looked at, and how many members were loaded. */
  function Pass(st: State, index: seq<Entry>, n: nat, isDyn: bool): (r: Option<(State, nat)>)
    requires n <= |index| && Ready(st)
    ensures r.Some? ==> Ready(r.value.0)
  {
    if n == 0 then Some((st, 0)) else
    var p := Pass(st, index, n - 1, isDyn);
    if p.None? then None else
    var q := Look(p.value.0, index[n - 1], isDyn);
    if q.None? then None else
    LookKeeps(p.value.0, index[n - 1], isDyn);
    Some((q.value.0, p.value.1 + if q.value.1 then 1 else 0))
  }

  /** `k` passes, and how many members they loaded. */
  function Passes(st: State, index: seq<Entry>, k: nat, isDyn: bool): (r: Option<(State, nat)>)
    requires Ready(st)
    ensures r.Some? ==> Ready(r.value.0)
  {
    if k == 0 then Some((st, 0)) else
    var p := Passes(st, index, k - 1, isDyn);
    if p.None? then None else
    var q := Pass(p.value.0, index, |index|, isDyn);
    if q.None? then None else Some((q.value.0, p.value.1 + q.value.1))
  }

  /** The pass after `k` others loads nothing. */
  predicate Quiet(st: State, index: seq<Entry>, k: nat, isDyn: bool)
    requires Ready(st)
  {
    var p := Passes(st, index, k, isDyn);
    p.Some? && var q := Pass(p.value.0, index, |index|, isDyn); q.Some? && q.value.1 == 0
  }

  /** The pass after `k` others is the last: it loads nothing, or fails. */
  predicate Halts(st: State, index: seq<Entry>, k: nat, isDyn: bool)
    requires Ready(st)
  {
    var p := Passes(st, index, k, isDyn);
    p.Some? && var q := Pass(p.value.0, index, |index|, isDyn); q.Some? ==> q.value.1 == 0
  }

  ghost predicate Ends(st: State, index: seq<Entry>, isDyn: bool)
    requires Ready(st)
  {
    exists k :: Halts(st, index, k, isDyn)
  }

  /** What the last pass leaves. */
  ghost function Closure(st: State, index: seq<Entry>, isDyn: bool): Option<State>
    requires Ready(st) && Ends(st, index, isDyn)
  {
    var k: nat :| Halts(st, index, k, isDyn);
    var q := Pass(Passes(st, index, k, isDyn).value.0, index, |index|, isDyn);
    if q.None? then None else Some(q.value.0)
  }

  /** How many of the first `n` entries name a symbol that is not defined yet. */
  function Missing(syms: seq<Sym>, index: seq<Entry>, n: nat): nat
    requires n <= |index|
  {
    if n == 0 then 0
    else Missing(syms, index, n - 1) + if HasDefined(syms, index[n - 1].name) then 0 else 1
  }

  // ----- what one load does to a name -----

  lemma AddedNewest(syms: seq<Sym>, s: Sym, isDyn: bool, name: string)
    requires |syms| > 0 && !Global(syms[0])
    ensures var (t, i, _) := Added(syms, s, isDyn);
            var j := Newest(syms, |syms|, name);
            && |t| > 0 && !Global(t[0])
            && (j != 0 ==> Newest(t, |t|, name) == j)
            && (HasDefined(syms, name) ==> HasDefined(t, name))
            && (Wanted(syms, name) ==> (HasDefined(t, name) <==> Global(s) && Defined(s) && s.name == name))
  {
    var (t, i, bad) := Added(syms, s, isDyn);
    if i == |syms| {
      NewestSame(t, syms, |syms|, name);
      assert Newest(t, |t|, name) == if Global(s) && s.name == name then |syms| else Newest(t, |syms|, name);
    } else {
      NewestSame(t, syms, |syms|, name);
    }
  }

  /** A wanted name is defined by the symbols of an object exactly when one of them offers it. */
  lemma {:induction false} AddSymsDefines(syms: seq<Sym>, o: Object, tab: seq<Slot>, n: nat, isDyn: bool, name: string)
    requires n <= |o.syms| && |syms| > 0 && !Global(syms[0])
    ensures var t := AddSyms(syms, o, tab, n, isDyn).syms;
            && |t| > 0 && !Global(t[0])
            && (HasDefined(syms, name) ==> HasDefined(t, name))
            && (Wanted(syms, name) ==>
                  && Newest(t, |t|, name) != 0
                  && (HasDefined(t, name) <==> exists k :: 1 <= k < n && Offers(o, tab, k, name)))
    decreases n
  {
    hide Added, Newest;
    if n > 1 {
      AddSymsDefines(syms, o, tab, n - 1, isDyn, name);
      var t := AddSyms(syms, o, tab, n - 1, isDyn);
      var f := Moved(o, tab, n - 1);
      if f.Request? { AddedNewest(t.syms, f.s, isDyn, name); }
      assert Offers(o, tab, n - 1, name) <==> f.Request? && Global(f.s) && Defined(f.s) && f.s.name == name;
    }
  }

  lemma {:induction false} PlacedIf(secs: seq<Section>, o: Object, n: nat, i: nat)
    requires i < n <= |o.shdrs| && |secs| > 0 && PlaceAll(secs, o, n).Some?
    requires M.Loads(o, i) && !LinkOnce(o.shdrs[i].name)
    ensures var slot := PlaceAll(secs, o, n).value.1[i]; slot.Placed? && slot.sec > 0
    decreases n
  {
    hide LinkOnce, Append, OffsetIn;
    if i < n - 1 { PlacedIf(secs, o, n - 1, i); }
  }

  /** Loading a member for a wanted name defines it exactly when the member offers it. */
  lemma LoadDefines(st: State, o: Object, isDyn: bool, name: string)
    requires Ready(st) && Load(st.secs, st.syms, o, isDyn).Some?
    ensures var l := Load(st.secs, st.syms, o, isDyn).value;
            && |l.symbols.syms| > 0 && !Global(l.symbols.syms[0])
            && (HasDefined(st.syms, name) ==> HasDefined(l.symbols.syms, name))
            && (Wanted(st.syms, name) ==>
                  && Newest(l.symbols.syms, |l.symbols.syms|, name) != 0
                  && (HasDefined(l.symbols.syms, name) <==> exists k :: 1 <= k < |o.syms| && Offers(o, l.tab, k, name)))
  {
    hide PlaceAll, LinkAll, RelocAll, AddSyms, LastOnce, SymtabCount, Newest, Moved;
    var l := Load(st.secs, st.syms, o, isDyn).value;
    AddSymsDefines(st.syms, o, l.tab, |o.syms|, isDyn, name);
  }

  /** A member that provides a name offers it whenever it is loaded. */
  lemma ProvidedIsOffered(st: State, o: Object, isDyn: bool, k: nat, name: string)
    requires Ready(st) && ObjectOk(o) && Load(st.secs, st.syms, o, isDyn).Some?
    requires 1 <= k < |o.syms| && Provides(o, k, name)
    ensures Offers(o, Load(st.secs, st.syms, o, isDyn).value.tab, k, name)
  {
    hide PlaceAll, LinkAll, RelocAll, AddSyms, LastOnce, SymtabCount;
    var l := Load(st.secs, st.syms, o, isDyn).value;
    var s := o.syms[k];
    if s.shndx < SHN_LORESERVE {
      PlacedIf(st.secs, o, |o.shdrs|, s.shndx);
    }
  }

  lemma LookKeeps(st: State, e: Entry, isDyn: bool)
    requires Ready(st) && Look(st, e, isDyn).Some?
    ensures var (t, loaded) := Look(st, e, isDyn).value;
            && Ready(t)
            && (forall name :: HasDefined(st.syms, name) ==> HasDefined(t.syms, name))
            && (loaded && Honest(e) ==> !HasDefined(st.syms, e.name) && HasDefined(t.syms, e.name))
  {
    hide Load, HasDefined, Provides, Offers, ObjectOk, Newest;
    var (t, loaded) := Look(st, e, isDyn).value;
    if loaded {
      forall name ensures Ready(t) && (HasDefined(st.syms, name) ==> HasDefined(t.syms, name)) {
        LoadDefines(st, e.o, isDyn, name);
      }
      WantedNotDefined(st.syms, e.name);
      LoadDefines(st, e.o, isDyn, e.name);
      if Honest(e) {
        var k :| 1 <= k < |e.o.syms| && Provides(e.o, k, e.name);
        ProvidedIsOffered(st, e.o, isDyn, k, e.name);
      }
    }
  }

  lemma WantedNotDefined(syms: seq<Sym>, name: string)
    requires Wanted(syms, name)
    ensures !HasDefined(syms, name)
  {
  }

  // ----- termination and the result -----

  lemma {:induction false} MissingFalls(a: seq<Sym>, b: seq<Sym>, index: seq<Entry>, n: nat, i: nat)
    requires n <= |index| && forall name :: HasDefined(a, name) ==> HasDefined(b, name)
    ensures Missing(b, index, n) <= Missing(a, index, n)
    ensures i < n && !HasDefined(a, index[i].name) && HasDefined(b, index[i].name) ==> Missing(b, index, n) < Missing(a, index, n)
    decreases n
  {
    hide HasDefined;
    if n > 0 { MissingFalls(a, b, index, n - 1, i); }
  }

  /** Every load of a pass leaves fewer entries without a definition, so no entry is loaded
      for twice and there are never more loads than entries. */
  lemma {:induction false} PassProgress(st: State, index: seq<Entry>, n: nat, isDyn: bool)
    requires n <= |index| && Ready(st) && AllHonest(index) && Pass(st, index, n, isDyn).Some?
    ensures var (t, bound) := Pass(st, index, n, isDyn).value;
            && Missing(t.syms, index, |index|) + bound <= Missing(st.syms, index, |index|)
            && (forall name :: HasDefined(st.syms, name) ==> HasDefined(t.syms, name))
            && (bound == 0 ==> t == st && forall i :: 0 <= i < n ==> !Wanted(t.syms, index[i].name))
    decreases n
  {
    hide HasDefined, Wanted, Honest, Missing, Load;
    if n > 0 {
      PassProgress(st, index, n - 1, isDyn);
      var p := Pass(st, index, n - 1, isDyn).value.0;
      LookKeeps(p, index[n - 1], isDyn);
      MissingFalls(p.syms, Look(p, index[n - 1], isDyn).value.0.syms, index, |index|, n - 1);
    }
  }

  /** A pass loses no definition, and one that loads nothing changes nothing, no symbol of the
      index being in the table but undefined. */
  lemma {:induction false} PassKeeps(st: State, index: seq<Entry>, n: nat, isDyn: bool)
    requires n <= |index| && Ready(st) && Pass(st, index, n, isDyn).Some?
    ensures var (t, bound) := Pass(st, index, n, isDyn).value;
            && (forall name :: HasDefined(st.syms, name) ==> HasDefined(t.syms, name))
            && (bound == 0 ==> t == st && forall i :: 0 <= i < n ==> !Wanted(t.syms, index[i].name))
    decreases n
  {
    hide HasDefined, Wanted, Honest, Load;
    if n > 0 {
      PassKeeps(st, index, n - 1, isDyn);
      LookKeeps(Pass(st, index, n - 1, isDyn).value.0, index[n - 1], isDyn);
    }
  }

  /** After a pass that loads nothing no other does. */
  lemma {:induction false} StaysQuiet(st: State, index: seq<Entry>, j: nat, k: nat, isDyn: bool)
    requires Ready(st) && j <= k && Quiet(st, index, j, isDyn)
    ensures Quiet(st, index, k, isDyn) && Passes(st, index, k, isDyn).value.0 == Passes(st, index, j, isDyn).value.0
    decreases k
  {
    hide Pass;
    if j < k {
      StaysQuiet(st, index, j, k - 1, isDyn);
      PassKeeps(Passes(st, index, k - 1, isDyn).value.0, index, |index|, isDyn);
    }
  }

  lemma {:induction false} StaysFailed(st: State, index: seq<Entry>, j: nat, k: nat, isDyn: bool)
    requires Ready(st) && j <= k && Passes(st, index, j, isDyn).None?
    ensures Passes(st, index, k, isDyn).None?
    decreases k
  {
    hide Pass;
    if j < k { StaysFailed(st, index, j, k - 1, isDyn); }
  }

  /** The loop has one end. */
  lemma ClosureAt(st: State, index: seq<Entry>, k: nat, isDyn: bool)
    requires Ready(st) && Halts(st, index, k, isDyn)
    ensures Ends(st, index, isDyn)
    ensures var q := Pass(Passes(st, index, k, isDyn).value.0, index, |index|, isDyn);
            Closure(st, index, isDyn) == if q.None? then None else Some(q.value.0)
  {
    hide Pass, Passes;
    forall j: nat | Halts(st, index, j, isDyn)
      ensures Pass(Passes(st, index, j, isDyn).value.0, index, |index|, isDyn) ==
              Pass(Passes(st, index, k, isDyn).value.0, index, |index|, isDyn)
    {
      if j < k { SameEnd(st, index, j, k, isDyn); } else if k < j { SameEnd(st, index, k, j, isDyn); }
    }
  }

  lemma SameEnd(st: State, index: seq<Entry>, j: nat, k: nat, isDyn: bool)
    requires Ready(st) && j < k && Halts(st, index, j, isDyn) && Halts(st, index, k, isDyn)
    ensures Passes(st, index, j, isDyn).value.0 == Passes(st, index, k, isDyn).value.0
  {
    hide Pass;
    if Quiet(st, index, j, isDyn) {
      StaysQuiet(st, index, j, k, isDyn);
    } else {
      StaysFailed(st, index, j + 1, k, isDyn);
    }
  }

  lemma {:induction false} PassesKeep(st: State, index: seq<Entry>, k: nat, isDyn: bool)
    requires Ready(st) && Passes(st, index, k, isDyn).Some?
    ensures forall name :: HasDefined(st.syms, name) ==> HasDefined(Passes(st, index, k, isDyn).value.0.syms, name)
    decreases k
  {
    hide Pass, HasDefined;
    if k > 0 {
      PassesKeep(st, index, k - 1, isDyn);
      PassKeeps(Passes(st, index, k - 1, isDyn).value.0, index, |index|, isDyn);
    }
  }

  /** On success no symbol of the index is in the table but undefined, and whatever was
      defined still is. */
  lemma ClosureCloses(st: State, index: seq<Entry>, isDyn: bool)
    requires Ready(st) && Ends(st, index, isDyn) && Closure(st, index, isDyn).Some?
    ensures var t := Closure(st, index, isDyn).value;
            && (forall i :: 0 <= i < |index| ==> !Wanted(t.syms, index[i].name))
            && (forall name :: HasDefined(st.syms, name) ==> HasDefined(t.syms, name))
  {
    hide Pass, Passes, HasDefined, Wanted, Closure;
    var k: nat :| Halts(st, index, k, isDyn);
    ClosureAt(st, index, k, isDyn);
    PassesKeep(st, index, k, isDyn);
    PassKeeps(Passes(st, index, k, isDyn).value.0, index, |index|, isDyn);
  }

  lemma {:induction false} PassesShift(st: State, index: seq<Entry>, k: nat, isDyn: bool)
    requires Ready(st) && Pass(st, index, |index|, isDyn).Some?
    ensures var p, q := Passes(st, index, k + 1, isDyn), Passes(Pass(st, index, |index|, isDyn).value.0, index, k, isDyn);
            (p.Some? <==> q.Some?) && (p.Some? ==> p.value.0 == q.value.0)
    decreases k
  {
    hide Pass;
    if k == 0 {
      assert Passes(st, index, 0, isDyn) == Some((st, 0));
    } else {
      PassesShift(st, index, k - 1, isDyn);
    }
  }

  /** The loop ends if every member defines what the index promises of it. */
  lemma {:induction false} HonestEnds(st: State, index: seq<Entry>, isDyn: bool)
    requires Ready(st) && AllHonest(index)
    ensures Ends(st, index, isDyn)
    decreases Missing(st.syms, index, |index|)
  {
    hide Pass, Missing, AllHonest, HasDefined, Wanted;
    var p := Pass(st, index, |index|, isDyn);
    assert Passes(st, index, 0, isDyn) == Some((st, 0));
    if p.None? || p.value.1 == 0 {
      assert Halts(st, index, 0, isDyn);
    } else {
      PassProgress(st, index, |index|, isDyn);
      HonestEnds(p.value.0, index, isDyn);
      var k: nat :| Halts(p.value.0, index, k, isDyn);
      PassesShift(st, index, k, isDyn);
      assert Halts(st, index, k + 1, isDyn);
    }
  }

  // ----- an index that promises too much -----

  /** No member of the archive has a non-local symbol of that name. */
  ghost predicate Unmet(index: seq<Entry>, name: string) {
    forall i, k :: 0 <= i < |index| && 1 <= k < |index[i].o.syms| ==>
      !(Global(index[i].o.syms[k]) && index[i].o.syms[k].name == name)
  }

  lemma {:induction false} StillWanted(st: State, index: seq<Entry>, n: nat, isDyn: bool, name: string)
    requires n <= |index| && Ready(st) && Pass(st, index, n, isDyn).Some?
    requires Wanted(st.syms, name) && Unmet(index, name)
    ensures var (t, bound) := Pass(st, index, n, isDyn).value;
            && Wanted(t.syms, name)
            && ((exists i :: 0 <= i < n && index[i].name == name) ==> bound > 0)
    decreases n
  {
    hide Load, Newest;
    if n > 0 {
      StillWanted(st, index, n - 1, isDyn, name);
      var p := Pass(st, index, n - 1, isDyn).value.0;
      var e := index[n - 1];
      if Wanted(p.syms, e.name) {
        LoadDefines(p, e.o, isDyn, name);
        var l := Load(p.secs, p.syms, e.o, isDyn).value;
        forall k | 1 <= k < |e.o.syms| ensures !Offers(e.o, l.tab, k, name) {
        }
      }
    }
  }

  /** A wanted name that the index promises and no member has: every pass that succeeds loads
      a member, and leaves the name as wanted as before, so the loop never ends. */
  lemma {:induction false} DishonestLoops(st: State, index: seq<Entry>, i: nat, k: nat, isDyn: bool)
    requires Ready(st) && i < |index| && Wanted(st.syms, index[i].name) && Unmet(index, index[i].name)
    ensures var p := Passes(st, index, k, isDyn);
            p.Some? ==> p.value.1 >= k && Wanted(p.value.0.syms, index[i].name)
    decreases k
  {
    hide Pass, Wanted, Unmet;
    if k > 0 {
      DishonestLoops(st, index, i, k - 1, isDyn);
      var p := Passes(st, index, k - 1, isDyn);
      if p.Some? && Pass(p.value.0, index, |index|, isDyn).Some? {
        StillWanted(p.value.0, index, |index|, isDyn, index[i].name);
      }
    }
  }

  /** An object file without contents. */
  const EMPTY := Object([Input("", 0, 0, 0, 0, [], [], 0, 0)], 0, [])

  /** Such a member under a wanted name: any number of passes succeed and load it each time. */
  lemma {:induction false} EmptyLoops(st: State, name: string, k: nat, isDyn: bool)
    requires Ready(st) && Wanted(st.syms, name)
    ensures Passes(st, [Entry(name, EMPTY)], k, isDyn) == Some((st, k))
    decreases k
  {
    hide Pass;
    if k > 0 {
      EmptyLoops(st, name, k - 1, isDyn);
      EmptyPass(st, name, isDyn);
    }
  }

  lemma EmptyPass(st: State, name: string, isDyn: bool)
    requires Ready(st) && Wanted(st.syms, name)
    ensures Pass(st, [Entry(name, EMPTY)], 1, isDyn) == Some((st, 1))
  {
    hide Wanted, Load;
    EmptyLoads(st.secs, st.syms, isDyn);
    var index := [Entry(name, EMPTY)];
    assert Pass(st, index, 0, isDyn) == Some((st, 0));
    assert Look(st, index[0], isDyn) == Some((st, true));
  }

  lemma EmptyLoads(secs: seq<Section>, syms: seq<Sym>, isDyn: bool)
    requires |secs| > 0
    ensures Load(secs, syms, EMPTY, isDyn) == Some(Loaded(secs, [Absent], Symbols(syms, [], 0)))
  {
    assert PlaceAll(secs, EMPTY, 0) == Some((secs, []));
    assert Place(secs, EMPTY, 0) == Some((secs, Absent)) && [] + [Absent] == [Absent];
    assert LinkAll(secs, [Absent], EMPTY, 1) == secs;
    assert RelocAll(secs, [Absent], EMPTY, [], false, 1) == Some(secs);
  }

  // ----- when the loop ends -----

  /** How far a name has come: absent, wanted, defined. */
  function Rank(syms: seq<Sym>, name: string): (r: nat)
    ensures r <= 2 && (r == 1 <==> Wanted(syms, name))
  {
    var e := ElfSymbols.Entry(syms, name);
    if e == [] then 0 else if Defined(e[0]) then 2 else 1
  }

  function Max(a: nat, b: nat): nat { if a < b then b else a }

  function Worth(s: Sym, name: string): nat { if !For(s, name) then 0 else if Defined(s) then 2 else 1 }

  lemma AddedRank(syms: seq<Sym>, s: Sym, isDyn: bool, name: string)
    requires |syms| > 0
    ensures var t := Added(syms, s, isDyn).0; |t| > 0 && Rank(t, name) == Max(Rank(syms, name), Worth(s, name))
  {
    hide Added, Newest;
    AddedEntry(syms, s, isDyn, name);
  }

  /** Nothing the member loads is link-once. */
  predicate Plain(o: Object) {
    forall n :: 0 <= n < |o.shdrs| && M.Loads(o, n) ==> !LinkOnce(o.shdrs[n].name)
  }

  /** Symbol `k` is asked of the table, wherever the sections of the member go. */
  predicate Asked(o: Object, k: nat)
    requires k < |o.syms|
  {
    var s := o.syms[k];
    !Defined(s) || s.shndx >= SHN_LORESERVE || s.shndx >= |o.shdrs| || o.shdrs[s.shndx].typ == SHT_SYMTAB || M.Loads(o, s.shndx)
  }

  /** How far the first `n` symbols of a member bring a name. */
  function Brings(o: Object, n: nat, name: string): (r: nat)
    requires n <= |o.syms|
    ensures r <= 2
  {
    if n <= 1 then 0 else Max(Brings(o, n - 1, name), if Asked(o, n - 1) then Worth(o.syms[n - 1], name) else 0)
  }

  lemma {:induction false} SlotIs(secs: seq<Section>, o: Object, n: nat, i: nat)
    requires 0 < i < n <= |o.shdrs| && |secs| > 0 && PlaceAll(secs, o, n).Some? && Plain(o)
    ensures var slot := PlaceAll(secs, o, n).value.1[i];
            if o.shdrs[i].typ == SHT_SYMTAB then slot.Table?
            else if M.Loads(o, i) then slot.Placed? && slot.sec > 0 else slot.Absent?
    decreases n
  {
    hide LinkOnce, Append, OffsetIn;
    if i < n - 1 { SlotIs(secs, o, n - 1, i); }
  }

  lemma MovedIf(secs: seq<Section>, o: Object, tab: seq<Slot>, k: nat, name: string)
    requires |secs| > 0 && Plain(o) && PlaceAll(secs, o, |o.shdrs|).Some? && tab == PlaceAll(secs, o, |o.shdrs|).value.1
    requires k < |o.syms|
    ensures Moved(o, tab, k).Request? <==> Asked(o, k)
    ensures Asked(o, k) ==> Worth(Moved(o, tab, k).s, name) == Worth(o.syms[k], name)
  {
    hide PlaceAll, M.Loads;
    var s := o.syms[k];
    if Defined(s) && s.shndx < SHN_LORESERVE && s.shndx < |tab| { SlotIs(secs, o, |o.shdrs|, s.shndx); }
  }

  lemma {:induction false} AddSymsRank(secs: seq<Section>, syms: seq<Sym>, o: Object, tab: seq<Slot>, n: nat, isDyn: bool, name: string)
    requires |secs| > 0 && Plain(o) && PlaceAll(secs, o, |o.shdrs|).Some? && tab == PlaceAll(secs, o, |o.shdrs|).value.1
    requires n <= |o.syms| && |syms| > 0
    ensures var t := AddSyms(syms, o, tab, n, isDyn).syms; |t| > 0 && Rank(t, name) == Max(Rank(syms, name), Brings(o, n, name))
    decreases n
  {
    hide Added, Newest, PlaceAll, Rank, Worth, Asked, Moved, Plain;
    if n > 1 {
      AddSymsRank(secs, syms, o, tab, n - 1, isDyn, name);
      MovedIf(secs, o, tab, n - 1, name);
      var f := Moved(o, tab, n - 1);
      if f.Request? { AddedRank(AddSyms(syms, o, tab, n - 1, isDyn).syms, f.s, isDyn, name); }
    }
  }

  /** A load brings every name as far as the member does, whatever was loaded before. */
  lemma LoadRank(st: State, o: Object, isDyn: bool, name: string)
    requires Ready(st) && Plain(o) && Load(st.secs, st.syms, o, isDyn).Some?
    ensures Rank(Load(st.secs, st.syms, o, isDyn).value.symbols.syms, name) == Max(Rank(st.syms, name), Brings(o, |o.syms|, name))
  {
    hide PlaceAll, LinkAll, RelocAll, AddSyms, LastOnce, SymtabCount, Rank, Brings, Plain;
    AddSymsRank(st.secs, st.syms, o, Load(st.secs, st.syms, o, isDyn).value.tab, |o.syms|, isDyn, name);
  }

  ghost predicate AllPlain(index: seq<Entry>) { forall i :: 0 <= i < |index| ==> Plain(index[i].o) }

  /** What looking at an entry does to a name. */
  lemma LookRank(st: State, e: Entry, isDyn: bool, name: string)
    requires Ready(st) && Plain(e.o) && Look(st, e, isDyn).Some?
    ensures var (t, loaded) := Look(st, e, isDyn).value;
            && (loaded <==> Rank(st.syms, e.name) == 1)
            && Rank(t.syms, name) == if loaded then Max(Rank(st.syms, name), Brings(e.o, |e.o.syms|, name)) else Rank(st.syms, name)
  {
    hide Load, Rank, Brings, Plain, Wanted;
    if Wanted(st.syms, e.name) { LoadRank(st, e.o, isDyn, name); }
  }

  /** The member of entry `i` brings the name of entry `j` no further. */
  predicate Idle(syms: seq<Sym>, index: seq<Entry>, i: nat, j: nat)
    requires i < |index| && j < |index|
  {
    Brings(index[i].o, |index[i].o.syms|, index[j].name) <= Rank(syms, index[j].name)
  }

  /** Entry `i` is wanted, and its member brings no name of the index any further. */
  ghost predicate IdleLoad(syms: seq<Sym>, index: seq<Entry>, i: nat)
    requires i < |index|
  {
    Rank(syms, index[i].name) == 1 ==> forall j :: 0 <= j < |index| ==> Idle(syms, index, i, j)
  }

  /** Some name of the index is wanted, and none of the members that are loaded for such names
      brings any name of the index further. */
  ghost predicate Stuck(syms: seq<Sym>, index: seq<Entry>) {
    && (exists i :: 0 <= i < |index| && Rank(syms, index[i].name) == 1)
    && forall i :: 0 <= i < |index| ==> IdleLoad(syms, index, i)
  }

  ghost predicate SameRanks(a: seq<Sym>, b: seq<Sym>, index: seq<Entry>) {
    forall j :: 0 <= j < |index| ==> Rank(a, index[j].name) == Rank(b, index[j].name)
  }

  ghost predicate RanksRise(a: seq<Sym>, b: seq<Sym>, index: seq<Entry>) {
    forall j :: 0 <= j < |index| ==> Rank(a, index[j].name) <= Rank(b, index[j].name)
  }

  /** A pass brings no name of the index further exactly if none of its loads does, and then it
      loads something exactly if a name was wanted. */
  lemma {:induction false} PassRanks(st: State, index: seq<Entry>, n: nat, isDyn: bool)
    requires n <= |index| && Ready(st) && AllPlain(index) && Pass(st, index, n, isDyn).Some?
    ensures var (t, bound) := Pass(st, index, n, isDyn).value;
            && RanksRise(st.syms, t.syms, index)
            && (SameRanks(st.syms, t.syms, index) <==> forall i :: 0 <= i < n ==> IdleLoad(st.syms, index, i))
            && (SameRanks(st.syms, t.syms, index) ==>
                  (bound > 0 <==> exists i :: 0 <= i < n && Rank(st.syms, index[i].name) == 1))
    decreases n
  {
    hide Look, Rank, Brings, SameRanks, RanksRise, IdleLoad, Plain;
    if n == 0 {
      RanksSelf(st.syms, index);
    } else {
      PassRanks(st, index, n - 1, isDyn);
      var p := Pass(st, index, n - 1, isDyn).value.0;
      var (t, loaded) := Look(p, index[n - 1], isDyn).value;
      OneRank(st.syms, p, index, n - 1, isDyn);
    }
  }

  lemma RanksSelf(syms: seq<Sym>, index: seq<Entry>)
    ensures SameRanks(syms, syms, index) && RanksRise(syms, syms, index)
  {
  }

  lemma OneRank(a: seq<Sym>, p: State, index: seq<Entry>, m: nat, isDyn: bool)
    requires m < |index| && Ready(p) && AllPlain(index) && Look(p, index[m], isDyn).Some? && RanksRise(a, p.syms, index)
    ensures var (t, loaded) := Look(p, index[m], isDyn).value;
            && RanksRise(a, t.syms, index)
            && (SameRanks(a, t.syms, index) <==> SameRanks(a, p.syms, index) && IdleLoad(a, index, m))
            && (SameRanks(a, p.syms, index) ==> (loaded <==> Rank(a, index[m].name) == 1))
  {
    hide Look, Rank, Brings, Plain;
    var e := index[m];
    var (t, loaded) := Look(p, e, isDyn).value;
    LookRank(p, e, isDyn, e.name);
    forall j | 0 <= j < |index|
      ensures Rank(t.syms, index[j].name) ==
              if loaded then Max(Rank(p.syms, index[j].name), Brings(e.o, |e.o.syms|, index[j].name)) else Rank(p.syms, index[j].name)
    {
      LookRank(p, e, isDyn, index[j].name);
    }
    if SameRanks(a, t.syms, index) {
      forall j | 0 <= j < |index| ensures Rank(a, index[j].name) == Rank(p.syms, index[j].name) {
        assert Rank(a, index[j].name) == Rank(t.syms, index[j].name);
      }
      forall j | 0 <= j < |index| && Rank(a, e.name) == 1 ensures Idle(a, index, m, j) {
        assert Rank(a, index[j].name) == Rank(t.syms, index[j].name);
      }
    }
    if SameRanks(a, p.syms, index) && IdleLoad(a, index, m) {
      forall j | 0 <= j < |index| ensures Rank(a, index[j].name) == Rank(t.syms, index[j].name) {
        assert Rank(a, index[j].name) == Rank(p.syms, index[j].name);
        assert Rank(a, e.name) == 1 ==> Idle(a, index, m, j);
      }
    }
  }

  /** Names are stuck after `k` passes. */
  ghost predicate StuckAt(st: State, index: seq<Entry>, k: nat, isDyn: bool)
    requires Ready(st)
  {
    Passes(st, index, k, isDyn).Some? && Stuck(Passes(st, index, k, isDyn).value.0.syms, index)
  }

  /** Stuck names stay stuck, so that every later pass loads something. */
  lemma {:induction false} StuckStays(st: State, index: seq<Entry>, j: nat, k: nat, isDyn: bool)
    requires Ready(st) && AllPlain(index) && j <= k && StuckAt(st, index, j, isDyn) && Passes(st, index, k, isDyn).Some?
    ensures StuckAt(st, index, k, isDyn) && !Quiet(st, index, k, isDyn)
    decreases k
  {
    hide Pass, Rank, Idle, Plain;
    var p := Passes(st, index, k, isDyn).value.0;
    if j < k {
      StuckStays(st, index, j, k - 1, isDyn);
      var q := Passes(st, index, k - 1, isDyn).value.0;
      PassRanks(q, index, |index|, isDyn);
      StuckSame(q.syms, p.syms, index);
    }
    if Pass(p, index, |index|, isDyn).Some? { PassRanks(p, index, |index|, isDyn); }
  }

  lemma StuckSame(a: seq<Sym>, b: seq<Sym>, index: seq<Entry>)
    requires Stuck(a, index) && SameRanks(a, b, index)
    ensures Stuck(b, index)
  {
    hide Rank, Brings;
    forall i | 0 <= i < |index| ensures IdleLoad(b, index, i) {
      assert IdleLoad(a, index, i);
      forall j | 0 <= j < |index| && Rank(b, index[i].name) == 1 ensures Idle(b, index, i, j) {
        assert Idle(a, index, i, j);
      }
    }
  }

  function Ranks(syms: seq<Sym>, index: seq<Entry>, n: nat): (r: nat)
    requires n <= |index|
    ensures r <= 2 * n
  {
    if n == 0 then 0 else Ranks(syms, index, n - 1) + Rank(syms, index[n - 1].name)
  }

  lemma {:induction false} RanksGrow(a: seq<Sym>, b: seq<Sym>, index: seq<Entry>, n: nat)
    requires n <= |index| && RanksRise(a, b, index)
    ensures Ranks(a, index, n) <= Ranks(b, index, n)
    ensures (exists j :: 0 <= j < n && Rank(a, index[j].name) != Rank(b, index[j].name)) ==> Ranks(a, index, n) < Ranks(b, index, n)
    decreases n
  {
    hide Rank;
    if n > 0 { RanksGrow(a, b, index, n - 1); }
  }

  /** Every pass that loads something and is not stuck brings a name further. */
  lemma {:induction false} Climb(st: State, index: seq<Entry>, k: nat, isDyn: bool)
    requires Ready(st) && AllPlain(index) && Passes(st, index, k, isDyn).Some?
    requires forall j :: 0 <= j < k ==> !Quiet(st, index, j, isDyn)
    requires forall j :: 0 <= j < k ==> !StuckAt(st, index, j, isDyn)
    ensures k <= Ranks(Passes(st, index, k, isDyn).value.0.syms, index, |index|)
    decreases k
  {
    hide Pass, Rank, IdleLoad, Ranks;
    if k > 0 {
      Climb(st, index, k - 1, isDyn);
      var p := Passes(st, index, k - 1, isDyn).value.0;
      PassRanks(p, index, |index|, isDyn);
      assert !Quiet(st, index, k - 1, isDyn) && !StuckAt(st, index, k - 1, isDyn);
      RanksGrow(p.syms, Passes(st, index, k, isDyn).value.0.syms, index, |index|);
    }
  }

  /** For members without link-once sections the first passes decide: one that loads nothing
      is among the first `2 * |index| + 1`, or there is none. */
  lemma EndsSoon(st: State, index: seq<Entry>, isDyn: bool)
    requires Ready(st) && AllPlain(index)
    ensures (exists k :: Quiet(st, index, k, isDyn)) <==> exists k :: 0 <= k <= 2 * |index| && Quiet(st, index, k, isDyn)
  {
    hide Quiet;
    if exists k :: Quiet(st, index, k, isDyn) {
      var k: nat :| Quiet(st, index, k, isDyn);
      var j := FirstQuiet(st, index, k, isDyn);
      NotStuckBefore(st, index, j, isDyn);
      Climb(st, index, j, isDyn);
    }
  }

  lemma {:induction false} FirstQuiet(st: State, index: seq<Entry>, k: nat, isDyn: bool) returns (j: nat)
    requires Ready(st) && Quiet(st, index, k, isDyn)
    ensures j <= k && Quiet(st, index, j, isDyn) && forall i :: 0 <= i < j ==> !Quiet(st, index, i, isDyn)
    decreases k
  {
    hide Quiet;
    if i: nat :| i < k && Quiet(st, index, i, isDyn) { j := FirstQuiet(st, index, i, isDyn); } else { j := k; }
  }

  /** Before a pass that loads nothing names were never stuck. */
  lemma NotStuckBefore(st: State, index: seq<Entry>, k: nat, isDyn: bool)
    requires Ready(st) && AllPlain(index) && Quiet(st, index, k, isDyn)
    ensures Passes(st, index, k, isDyn).Some?
    ensures forall j :: 0 <= j <= k ==> !StuckAt(st, index, j, isDyn)
  {
    hide Pass, Passes, StuckAt, Plain;
    forall j | 0 <= j <= k ensures !StuckAt(st, index, j, isDyn) {
      if StuckAt(st, index, j, isDyn) { StuckStays(st, index, j, k, isDyn); }
    }
  }

  /** As long as loads succeed, the loop ends if and only if names are not stuck after any of
      the first `2 * |index| + 1` numbers of passes. */
  lemma EndsUnlessStuck(st: State, index: seq<Entry>, isDyn: bool)
    requires Ready(st) && AllPlain(index) && Passes(st, index, 2 * |index| + 1, isDyn).Some?
    ensures (exists k :: Quiet(st, index, k, isDyn)) <==>
            forall k :: 0 <= k <= 2 * |index| ==> !StuckAt(st, index, k, isDyn)
  {
    hide Quiet, Pass, Passes, StuckAt, Plain;
    var n := 2 * |index|;
    if exists k :: Quiet(st, index, k, isDyn) {
      EndsSoon(st, index, isDyn);
      var k: nat :| k <= n && Quiet(st, index, k, isDyn);
      StaysQuiet(st, index, k, n, isDyn);
      NotStuckBefore(st, index, n, isDyn);
    } else if forall k :: 0 <= k <= n ==> !StuckAt(st, index, k, isDyn) {
      Climb(st, index, n + 1, isDyn);
      assert false;
    }
  }

  // ----- the code -----

  ghost predicate Formed(index: seq<Entry>) { forall i :: 0 <= i < |index| ==> ObjectOk(index[i].o) }

  /** `tcc_load_alacarte`, where it ends. */
  method LoadAlacarte(ls: LinkState, index: seq<Entry>) returns (ok: bool)
    requires ls.Valid() && Formed(index) && Ends(State(ls.secs, ls.symtab.syms), index, ls.symtab.isDyn)
    modifies ls, ls.symtab
    ensures ls.Valid()
    ensures var r := Closure(State(old(ls.secs), old(ls.symtab.syms)), index, ls.symtab.isDyn);
            (ok <==> r.Some?) && (ok ==> r.value == State(ls.secs, ls.symtab.syms))
  {
    hide Pass, Formed, Closure;
    ghost var isDyn, st := ls.symtab.isDyn, State(ls.secs, ls.symtab.syms);
    ghost var k: nat :| Halts(st, index, k, isDyn);
    ghost var n := 0;
    var bound := 1;
    while bound != 0
      invariant ls.Valid() && bound >= 0
      invariant bound != 0 ==>
                  0 <= n <= k && Passes(st, index, n, isDyn).Some? && Passes(st, index, n, isDyn).value.0 == State(ls.secs, ls.symtab.syms)
      invariant bound == 0 ==> Closure(st, index, isDyn) == Some(State(ls.secs, ls.symtab.syms))
      decreases if bound == 0 then 0 else 1 + k - n
    {
      ghost var here := State(ls.secs, ls.symtab.syms);
      var passed;
      passed, bound := OnePass(ls, index);
      if !passed || bound == 0 {
        ClosureAt(st, index, n, isDyn);
        if !passed { return false; }
      }
      n := n + 1;
    }
    ok := true;
  }

  method OnePass(ls: LinkState, index: seq<Entry>) returns (ok: bool, bound: nat)
    requires ls.Valid() && Formed(index)
    modifies ls, ls.symtab
    ensures ls.Valid()
    ensures var p := Pass(State(old(ls.secs), old(ls.symtab.syms)), index, |index|, ls.symtab.isDyn);
            (ok <==> p.Some?) && (ok ==> p.value == (State(ls.secs, ls.symtab.syms), bound))
  {
    hide Look, Honest;
    ghost var st := State(ls.secs, ls.symtab.syms);
    bound := 0;
    var i := 0;
    while i < |index|
      invariant 0 <= i <= |index| && ls.Valid()
      invariant Pass(st, index, i, ls.symtab.isDyn) == Some((State(ls.secs, ls.symtab.syms), bound))
    {
      var looked, loaded := LookAt(ls, index[i]);
      if !looked {
        PassFails(st, index, i, |index|, ls.symtab.isDyn);
        return false, bound;
      }
      if loaded { bound := bound + 1; }
      i := i + 1;
    }
    ok := true;
  }

  method LookAt(ls: LinkState, e: Entry) returns (ok: bool, loaded: bool)
    requires ls.Valid() && ObjectOk(e.o)
    modifies ls, ls.symtab
    ensures ls.Valid()
    ensures var q := Look(State(old(ls.secs), old(ls.symtab.syms)), e, ls.symtab.isDyn);
            (ok <==> q.Some?) && (ok ==> q.value == (State(ls.secs, ls.symtab.syms), loaded))
  {
    hide Load, Newest;
    ok, loaded := true, false;
    var symIndex := ls.symtab.Find(e.name);
    if symIndex != 0 && ls.symtab.syms[symIndex].shndx == SHN_UNDEF {
      loaded := true;
      ok := ls.LoadObject(e.o);
    }
  }

  lemma {:induction false} PassFails(st: State, index: seq<Entry>, i: nat, n: nat, isDyn: bool)
    requires i < n <= |index| && Ready(st) && Pass(st, index, i + 1, isDyn).None?
    ensures Pass(st, index, n, isDyn).None?
    decreases n
  {
    hide Look;
    if i + 1 < n { PassFails(st, index, i, n - 1, isDyn); }
  }
}
