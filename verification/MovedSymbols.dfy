/** Where the symbols of a loaded object end up: which record of the table each becomes, and
    what it holds. */
module MovedSymbols {
  import opened Wrappers
  import opened ElfSymbols
  import opened Linker
  import opened Merging

  // ----- loading symbols is making requests -----

  /** What the first `n` symbols of the object ask of the table. */
  function Requests(o: Object, tab: seq<Slot>, n: nat): seq<Sym>
    requires n <= |o.syms|
  {
    if n <= 1 then [] else
    Requests(o, tab, n - 1) + if Moved(o, tab, n - 1).Request? then [Moved(o, tab, n - 1).s] else []
  }

  lemma {:induction false} SymsAreRequests(syms: seq<Sym>, o: Object, tab: seq<Slot>, n: nat, isDyn: bool)
    requires n <= |o.syms|
    ensures var t := AddSyms(syms, o, tab, n, isDyn); (t.syms, t.errors) == AddAll(syms, Requests(o, tab, n), isDyn)
    decreases n
  {
    hide Added, Moved;
    if n > 1 {
      SymsAreRequests(syms, o, tab, n - 1, isDyn);
      if Moved(o, tab, n - 1).Request? {
        var before, s := Requests(o, tab, n - 1), Moved(o, tab, n - 1).s;
        assert (before + [s])[..|before + [s]| - 1] == before;
      } else {
        assert Requests(o, tab, n - 1) + [] == Requests(o, tab, n - 1);
      }
    }
  }

  // ----- where the record is -----

  /** The record a request is numbered as: the only one of its name, or one of its own. */
  predicate Numbered(syms: seq<Sym>, i: nat, s: Sym) {
    0 < i < |syms| && if Global(s) then i == Newest(syms, |syms|, s.name) else syms[i] == s
  }

  lemma NumberedStays(syms: seq<Sym>, i: nat, s: Sym, n: Sym, isDyn: bool)
    requires |syms| > 0 && !Global(syms[0]) && Numbered(syms, i, s)
    ensures Numbered(Added(syms, n, isDyn).0, i, s)
  {
    var (t, j, _) := Added(syms, n, isDyn);
    NewestSame(t, syms, |syms|, s.name);
    if j == |syms| {
      if Global(s) { OnlyOne(syms, n, isDyn, s); }
    }
  }

  /** A name that is there gets no second record. */
  lemma OnlyOne(syms: seq<Sym>, n: Sym, isDyn: bool, s: Sym)
    requires |syms| > 0 && Global(s) && Newest(syms, |syms|, s.name) != 0 && Added(syms, n, isDyn).1 == |syms|
    ensures var t := Added(syms, n, isDyn).0; Newest(t, |t|, s.name) == Newest(syms, |syms|, s.name)
  {
    var t := Added(syms, n, isDyn).0;
    NewestSame(t, syms, |syms|, s.name);
  }

  lemma NumberedNow(syms: seq<Sym>, n: Sym, isDyn: bool)
    requires |syms| > 0 && !Global(syms[0])
    ensures Numbered(Added(syms, n, isDyn).0, Added(syms, n, isDyn).1, n)
  {
    var (t, i, _) := Added(syms, n, isDyn);
    NewestSame(t, syms, |syms|, n.name);
  }

  lemma {:induction false} AllNumbered(syms: seq<Sym>, o: Object, tab: seq<Slot>, n: nat, isDyn: bool)
    requires n <= |o.syms| && |syms| > 0 && !Global(syms[0])
    ensures var t := AddSyms(syms, o, tab, n, isDyn);
            && |t.syms| > 0 && !Global(t.syms[0])
            && forall k :: 1 <= k < n && Moved(o, tab, k).Request? ==> Numbered(t.syms, t.newIndex[k], Moved(o, tab, k).s)
    decreases n
  {
    hide Added, Newest, Moved, Numbered;
    if n > 1 {
      AllNumbered(syms, o, tab, n - 1, isDyn);
      var t, f := AddSyms(syms, o, tab, n - 1, isDyn), Moved(o, tab, n - 1);
      var t' := AddSyms(syms, o, tab, n, isDyn);
      if f.Request? {
        NumberedNow(t.syms, f.s, isDyn);
        AddedExtends(t.syms, f.s, isDyn);
        StillLocal(t.syms, t'.syms);
        forall k | 1 <= k < n && Moved(o, tab, k).Request? ensures Numbered(t'.syms, t'.newIndex[k], Moved(o, tab, k).s) {
          if k < n - 1 { NumberedStays(t.syms, t.newIndex[k], Moved(o, tab, k).s, f.s, isDyn); }
        }
      }
    }
  }

  // ----- the requests for one name -----

  /** Symbol `j` asks for `name`. */
  predicate Asks(o: Object, tab: seq<Slot>, j: nat, name: string)
    requires j < |o.syms|
  {
    Moved(o, tab, j).Request? && For(Moved(o, tab, j).s, name)
  }

  lemma {:induction false} NoneAsks(o: Object, tab: seq<Slot>, n: nat, name: string)
    requires n <= |o.syms| && forall j :: 1 <= j < n ==> !Asks(o, tab, j, name)
    ensures ForName(Requests(o, tab, n), name) == []
    decreases n
  {
    hide Moved, For;
    if n > 1 {
      NoneAsks(o, tab, n - 1, name);
      ForNameOne(o, tab, n, name);
    }
  }

  lemma ForNameOne(o: Object, tab: seq<Slot>, n: nat, name: string)
    requires 1 < n <= |o.syms|
    ensures ForName(Requests(o, tab, n), name) ==
            ForName(Requests(o, tab, n - 1), name) + if Asks(o, tab, n - 1, name) then [Moved(o, tab, n - 1).s] else []
  {
    hide Moved, For;
    var before := Requests(o, tab, n - 1);
    if Moved(o, tab, n - 1).Request? {
      var s := Moved(o, tab, n - 1).s;
      assert (before + [s])[..|before + [s]| - 1] == before;
    } else {
      assert before + [] == before;
      assert ForName(before, name) + [] == ForName(before, name);
    }
  }

  /** The requests for the name of symbol `k`, when the others are all of one kind. */
  lemma {:induction false} OwnAmong(o: Object, tab: seq<Slot>, n: nat, k: nat, name: string, kind: Sym -> bool)
    requires 1 <= k < n <= |o.syms| && Asks(o, tab, k, name)
    requires forall j :: 1 <= j < n && j != k && Asks(o, tab, j, name) ==> kind(Moved(o, tab, j).s)
    ensures var rs, i := ForName(Requests(o, tab, n), name), |ForName(Requests(o, tab, k), name)|;
            && i < |rs| && rs[i] == Moved(o, tab, k).s && rs[..i] == ForName(Requests(o, tab, k), name)
            && forall x :: 0 <= x < |rs| && x != i ==> kind(rs[x])
    decreases n
  {
    hide Moved, For;
    ForNameOne(o, tab, n, name);
    if k < n - 1 {
      OwnAmong(o, tab, n - 1, k, name, kind);
      var rs, before := ForName(Requests(o, tab, n), name), ForName(Requests(o, tab, n - 1), name);
      var i := |ForName(Requests(o, tab, k), name)|;
      assert rs[..i] == before[..i];
    } else {
      BeforeAll(o, tab, k, name, kind);
    }
  }

  lemma {:induction false} BeforeAll(o: Object, tab: seq<Slot>, n: nat, name: string, kind: Sym -> bool)
    requires n <= |o.syms|
    requires forall j :: 1 <= j < n && Asks(o, tab, j, name) ==> kind(Moved(o, tab, j).s)
    ensures var rs := ForName(Requests(o, tab, n), name); forall x :: 0 <= x < |rs| ==> kind(rs[x])
    decreases n
  {
    hide Moved, For;
    if n > 1 {
      BeforeAll(o, tab, n - 1, name, kind);
      ForNameOne(o, tab, n, name);
    }
  }

  // ----- what the record holds -----

  /** No other symbol of the object is called as symbol `k`, and the table has none yet. */
  predicate Alone(syms: seq<Sym>, o: Object, k: nat)
    requires k < |o.syms|
  {
    Global(o.syms[k]) ==>
      && Newest(syms, |syms|, o.syms[k].name) == 0
      && forall j :: 1 <= j < |o.syms| && j != k ==> !For(o.syms[j], o.syms[k].name)
  }

  lemma MovedKeepsName(o: Object, tab: seq<Slot>, k: nat, name: string)
    requires k < |o.syms|
    ensures Asks(o, tab, k, name) ==> For(o.syms[k], name)
    ensures Moved(o, tab, k).Request? ==> (For(o.syms[k], name) <==> Asks(o, tab, k, name))
  {
  }

  lemma AloneHolds(syms: seq<Sym>, o: Object, tab: seq<Slot>, isDyn: bool, k: nat)
    requires |syms| > 0 && !Global(syms[0]) && 1 <= k < |o.syms| && Alone(syms, o, k) && Moved(o, tab, k).Request?
    ensures var t := AddSyms(syms, o, tab, |o.syms|, isDyn);
            0 < t.newIndex[k] < |t.syms| && t.syms[t.newIndex[k]] == Moved(o, tab, k).s
  {
    hide AddSyms, Moved, Newest, AddAll, Requests, ForName, Fold, For;
    var t, name, n := AddSyms(syms, o, tab, |o.syms|, isDyn), o.syms[k].name, |o.syms|;
    AllNumbered(syms, o, tab, n, isDyn);
    MovedSame(o, tab, k);
    if Global(o.syms[k]) {
      SymsAreRequests(syms, o, tab, n, isDyn);
      forall j | 1 <= j < n && j != k ensures !Asks(o, tab, j, name) {
        MovedKeepsName(o, tab, j, name);
      }
      MovedKeepsName(o, tab, k, name);
      OwnAmong(o, tab, n, k, name, Never);
      NoneAsks(o, tab, k, name);
      var own := ForName(Requests(o, tab, n), name);
      assert |own| > 1 ==> Never(own[1]);
      assert own == [Moved(o, tab, k).s];
      FoldIsAddAll(syms, Requests(o, tab, n), isDyn, name);
      EntryThere(syms, name);
      EntryThere(t.syms, name);
      assert [] + own == own;
      FoldOne(Moved(o, tab, k).s, isDyn);
    }
  }

  predicate Never(s: Sym) { false }

  lemma FoldOne(s: Sym, isDyn: bool)
    ensures Fold([s], isDyn) == (s, 0)
  {
  }

  lemma MovedSame(o: Object, tab: seq<Slot>, k: nat)
    requires k < |o.syms| && Moved(o, tab, k).Request?
    ensures var m, s := Moved(o, tab, k).s, o.syms[k];
            m.name == s.name && m.bind == s.bind && For(s, s.name) == Global(s)
  {
  }

  /** A symbol in a section of the object that has been placed. */
  predicate Homed(secs: seq<Section>, o: Object, s: Sym) {
    Defined(s) && s.shndx < SHN_LORESERVE && s.shndx < |o.shdrs| && Stays(secs, o, s.shndx)
  }

  lemma {:induction false} TableSlot(secs: seq<Section>, o: Object, n: nat, i: nat)
    requires 0 < i < n <= |o.shdrs| && |secs| > 0 && PlaceAll(secs, o, n).Some? && o.shdrs[i].typ == SHT_SYMTAB
    ensures PlaceAll(secs, o, n).value.1[i].Table?
    decreases n
  {
    if i < n - 1 { TableSlot(secs, o, n - 1, i); }
  }

  /** A symbol that is local, or alone in bearing its name, becomes the record it was in the
      file: with the number of the section its own has become part of, and a value that is
      moved as that section was; or if it is in no section just as it was. */
  lemma SymbolsMoved(secs: seq<Section>, syms: seq<Sym>, o: Object, isDyn: bool, l: Loaded, k: nat)
    requires Session(secs, syms, o, isDyn, l) && 1 <= k < |o.syms| && Alone(syms, o, k)
    ensures |l.tab| == |o.shdrs| && k < |l.symbols.newIndex|
    ensures var s, i, t := o.syms[k], l.symbols.newIndex[k], l.symbols.syms;
            && (Homed(secs, o, s) ==>
                  && l.tab[s.shndx].Placed? && 0 < i < |t|
                  && t[i] == s.(shndx := l.tab[s.shndx].sec, value := s.value + l.tab[s.shndx].off))
            && (!Defined(s) || s.shndx >= SHN_LORESERVE || s.shndx >= |o.shdrs| ==> 0 < i < |t| && t[i] == s)
            && (Defined(s) && s.shndx < SHN_LORESERVE && s.shndx < |o.shdrs| && o.shdrs[s.shndx].typ == SHT_SYMTAB ==>
                  0 < i < |t| && t[i] == s.(shndx := 4))
  {
    hide PlaceAll, LinkAll, RelocAll, AddSyms, Targeted, Stays, ObjectOk;
    var placed, linked := Stages(secs, syms, o, isDyn, l);
    var s := o.syms[k];
    if 0 < s.shndx < |o.shdrs| && o.shdrs[s.shndx].typ == SHT_SYMTAB { TableSlot(secs, o, |o.shdrs|, s.shndx); }
    if Moved(o, l.tab, k).Request? { AloneHolds(syms, o, l.tab, isDyn, k); }
  }

  /** So it denotes the byte it denoted in the file. */
  lemma AloneDenotes(secs: seq<Section>, syms: seq<Sym>, o: Object, isDyn: bool, l: Loaded, k: nat)
    requires Session(secs, syms, o, isDyn, l) && 1 <= k < |o.syms| && Alone(syms, o, k)
    requires Homed(secs, o, o.syms[k]) && 0 <= o.syms[k].value < |o.shdrs[o.syms[k].shndx].data|
    ensures k < |l.symbols.newIndex| && l.symbols.newIndex[k] < |l.symbols.syms|
    ensures var s, e := o.syms[k], l.symbols.syms[l.symbols.newIndex[k]];
            && e.shndx < |l.secs| && 0 <= e.value < |l.secs[e.shndx].data|
            && l.secs[e.shndx].data[e.value] == o.shdrs[s.shndx].data[s.value]
  {
    hide Session, Stays;
    SymbolsMoved(secs, syms, o, isDyn, l, k);
    SymbolsDenote(secs, syms, o, isDyn, l, k);
  }

  // ----- a strong definition among others -----

  /** What the table has for the name, and all other symbols of the object that bear it, are
      no strong definitions, and none of them is common. */
  predicate OnlyStrong(syms: seq<Sym>, o: Object, k: nat)
    requires k < |o.syms|
  {
    && Strong(o.syms[k])
    && (forall x :: 0 <= x < |Entry(syms, o.syms[k].name)| ==> Yielding(Entry(syms, o.syms[k].name)[x]))
    && forall j :: 1 <= j < |o.syms| && j != k && For(o.syms[j], o.syms[k].name) ==> Yielding(o.syms[j])
  }

  predicate Yielding(s: Sym) { Weak(s) || Reference(s) }

  lemma MovedYields(o: Object, tab: seq<Slot>, k: nat)
    requires k < |o.syms| && Moved(o, tab, k).Request? && Yielding(o.syms[k])
    requires forall i :: 0 <= i < |tab| && tab[i].Placed? ==> tab[i].sec > 0
    ensures Yielding(Moved(o, tab, k).s)
  {
  }

  /** A strong definition that meets only weak definitions and references, in the table or in
      the object, defines the name, moved as its section was. */
  lemma StrongMoved(secs: seq<Section>, syms: seq<Sym>, o: Object, isDyn: bool, l: Loaded, k: nat)
    requires Session(secs, syms, o, isDyn, l) && 1 <= k < |o.syms| && OnlyStrong(syms, o, k)
    requires Homed(secs, o, o.syms[k]) && |l.secs| <= SHN_LORESERVE
    ensures |l.tab| == |o.shdrs| && k < |l.symbols.newIndex|
    ensures var s, i, t := o.syms[k], l.symbols.newIndex[k], l.symbols.syms;
            && l.tab[s.shndx].Placed? && 0 < i < |t|
            && SameDefinition(t[i], s.(shndx := l.tab[s.shndx].sec, value := s.value + l.tab[s.shndx].off))
  {
    hide PlaceAll, LinkAll, RelocAll, AddSyms, TableOk, Targeted, Stays, ObjectOk, Newest, AddAll, Requests, ForName, Fold, SameDefinition, Entry;
    var placed, linked := Stages(secs, syms, o, isDyn, l);
    var s, name, n := o.syms[k], o.syms[k].name, |o.syms|;
    forall i | 0 <= i < |l.tab| && l.tab[i].Placed? ensures 0 < l.tab[i].sec < |l.secs| {
      HoldsName(placed, l.tab, o, i);
    }
    var m := s.(shndx := l.tab[s.shndx].sec, value := s.value + l.tab[s.shndx].off);
    assert Moved(o, l.tab, k) == Request(m);
    AllNumbered(syms, o, l.tab, n, isDyn);
    StrongAdded(syms, o, l.tab, isDyn, k, m);
  }

  lemma StrongAdded(syms: seq<Sym>, o: Object, tab: seq<Slot>, isDyn: bool, k: nat, m: Sym)
    requires |syms| > 0 && !Global(syms[0]) && 1 <= k < |o.syms| && OnlyStrong(syms, o, k)
    requires Moved(o, tab, k) == Request(m) && Strong(m) && m.name == o.syms[k].name
    requires forall i :: 0 <= i < |tab| && tab[i].Placed? ==> tab[i].sec > 0
    ensures var t := AddSyms(syms, o, tab, |o.syms|, isDyn).syms;
            var i := Newest(t, |t|, m.name);
            i != 0 && SameDefinition(t[i], m)
  {
    hide AddSyms, Moved, Newest, AddAll, Requests, ForName, Fold, SameDefinition, Entry, Yielding;
    var name, n, t := m.name, |o.syms|, AddSyms(syms, o, tab, |o.syms|, isDyn).syms;
    SymsAreRequests(syms, o, tab, n, isDyn);
    forall j | 1 <= j < n && j != k && Asks(o, tab, j, name) ensures Yielding(Moved(o, tab, j).s) {
      MovedKeepsName(o, tab, j, name);
      MovedYields(o, tab, j);
    }
    OwnAmong(o, tab, n, k, name, Yielding);
    FoldIsAddAll(syms, Requests(o, tab, n), isDyn, name);
    EntryThere(t, name);
    var e, rs, i := Entry(syms, name), ForName(Requests(o, tab, n), name), |ForName(Requests(o, tab, k), name)|;
    var own := e + rs;
    forall x | 0 <= x < |own| && x != |e| + i ensures Yielding(own[x]) {
      if x >= |e| { assert own[x] == rs[x - |e|]; }
    }
    YieldingWeak(own, |e| + i, isDyn);
  }

  lemma YieldingWeak(rs: seq<Sym>, k: nat, isDyn: bool)
    requires k < |rs| && Strong(rs[k]) && forall x :: 0 <= x < |rs| && x != k ==> Yielding(rs[x])
    ensures SameDefinition(Fold(rs, isDyn).0, rs[k])
  {
    hide Fold, SameDefinition;
    assert forall x :: 0 <= x < |rs| && x != k ==> Yielding(rs[x]) && (Weak(rs[x]) || Reference(rs[x]));
    StrongWins(rs, k, isDyn);
  }
}
