/** What one load does to sections, exactly: where contents go, what new sections inherit, which
    links are set, and when the load fails. */
module Placement {
  import opened Wrappers
  import opened Arith
  import opened ElfSymbols
  import opened Linker
  import opened Merging

  // ----- one section -----

  /** The first multiple of `align` from `from` on. */
  predicate Least(x: int, from: int, align: int) { align > 0 && from <= x < from + align && x % align == 0 }

  /** The alignment a header asks for, 1 if none. */
  function Asked(i: Input): nat { if i.align == 0 then 1 else i.align }

  /** `r` is `was` with the contents of `i` at `off`, zeros in between. */
  predicate Takes(was: Section, r: Section, i: Input, off: nat) {
    && Least(off, was.size, Asked(i)) && r.size == off + i.size
    && (r.name, r.typ, r.flags, r.link, r.info, r.reloc) == (was.name, was.typ, was.flags, was.link, was.info, was.reloc)
    && r.align == (if was.align < Asked(i) then Asked(i) else was.align)
    && (i.typ == SHT_NOBITS ==> r.data == was.data && r.rels == was.rels)
    && (i.typ == SHT_REL ==> r.data == was.data && Extended(was.rels, r.rels, (off - was.size) / 8, Rel(0, 0, 0), i.rels))
    && (i.typ != SHT_REL && i.typ != SHT_NOBITS ==> r.rels == was.rels && Extended(was.data, r.data, off - was.size, 0, i.data))
  }

  /** `b` is `a`, `gap` times `fill`, and `more`. */
  predicate Extended<T(==)>(a: seq<T>, b: seq<T>, gap: int, fill: T, more: seq<T>) {
    && gap >= 0 && |b| == |a| + gap + |more| && b[..|a|] == a && b[|a| + gap..] == more
    && forall k :: |a| <= k < |a| + gap ==> b[k] == fill
  }

  lemma AppendTakes(was: Section, i: Input)
    ensures Takes(was, Append(was, i), i, OffsetIn(was, i))
  {
  }

  /** A section that is placed goes to the section of its name, or to a new one that is like it
      and empty; and no other section changes. */
  lemma PlacedTight(secs: seq<Section>, o: Object, n: nat)
    requires |secs| > 0 && n < |o.shdrs| && Place(secs, o, n).Some? && Place(secs, o, n).value.1.Placed?
    ensures var (r, slot) := Place(secs, o, n).value; var i := o.shdrs[n];
            && slot.sec < |r| && (forall x :: 0 <= x < |secs| && x != slot.sec ==> x < |r| && r[x] == secs[x])
            && if slot.isNew then
                 && slot.sec == |secs| == |r| - 1 && (forall x :: 1 <= x < |secs| ==> secs[x].name != i.name)
                 && Takes(Section(i.name, i.typ, i.flags, Asked(i), 0, [], [], 0, 0, 0), r[slot.sec], i, slot.off)
               else
                 && 1 <= slot.sec < |secs| == |r| && secs[slot.sec].name == i.name && secs[slot.sec].typ == i.typ
                 && Takes(secs[slot.sec], r[slot.sec], i, slot.off)
  {
    hide LinkOnce, Handled, Append, OffsetIn, Takes;
    var i := o.shdrs[n];
    AppendTakes(Ensured(secs, i)[Target(secs, i)], i);
  }

  // ----- links -----

  /** The number of what a section of the object has become: its section, that of the symbol
      table, or none. */
  function Number(slot: Slot): nat {
    if slot.Placed? then slot.sec else if slot.Table? then 4 else 0
  }

  /** The section is new, and section `i` of the object is what made it. */
  predicate MadeBy(tab: seq<Slot>, i: nat, j: nat) { i < |tab| && tab[i].Placed? && tab[i].isNew && tab[i].sec == j }

  lemma {:induction false} LinkStays(secs: seq<Section>, tab: seq<Slot>, o: Object, n: nat, j: nat)
    requires n <= |o.shdrs| == |tab| && j < |secs| && forall i :: 0 <= i < n ==> !MadeBy(tab, i, j)
    ensures LinkAll(secs, tab, o, n)[j].link == secs[j].link
    decreases n
  {
    if n > 0 {
      LinkStays(secs, tab, o, n - 1, j);
      assert !MadeBy(tab, n - 1, j);
    }
  }

  /** A new section is linked to what its header links it to, and no other is. */
  lemma {:induction false} LinkSet(secs: seq<Section>, tab: seq<Slot>, o: Object, n: nat, i: nat, j: nat)
    requires i < n <= |o.shdrs| == |tab| && j < |secs| && MadeBy(tab, i, j) && o.shdrs[i].link < |tab|
    requires forall k :: 0 <= k < n && k != i ==> !MadeBy(tab, k, j)
    ensures LinkAll(secs, tab, o, n)[j].link == if o.shdrs[i].link == 0 then secs[j].link else Number(tab[o.shdrs[i].link])
    decreases n
  {
    if i < n - 1 {
      LinkSet(secs, tab, o, n - 1, i, j);
      assert !MadeBy(tab, n - 1, j);
    } else {
      LinkStays(secs, tab, o, i, j);
    }
  }

  /** Section `i` of the object is a new relocation section for section `t`. */
  predicate RelocatesTo(tab: seq<Slot>, o: Object, i: nat, t: nat)
    requires |tab| == |o.shdrs|
  {
    && i < |tab| && tab[i].Placed? && tab[i].isNew && o.shdrs[i].typ == SHT_REL
    && o.shdrs[i].info < |tab| && tab[o.shdrs[i].info].Placed? && tab[o.shdrs[i].info].sec == t
  }

  lemma LinkOneBack(secs: seq<Section>, tab: seq<Slot>, o: Object, n: nat, t: nat)
    requires n < |o.shdrs| == |tab| && t < |secs| && forall i :: 0 <= i < |tab| && tab[i].Placed? ==> tab[i].sec < |secs|
    ensures LinkOne(secs, tab, o, n)[t].reloc == if RelocatesTo(tab, o, n, t) then tab[n].sec else secs[t].reloc
  {
  }

  /** The link back from a section is to the last new relocation section for it. */
  lemma {:induction false} BackLink(secs: seq<Section>, tab: seq<Slot>, o: Object, n: nat, t: nat)
    requires n <= |o.shdrs| == |tab| && t < |secs| && forall i :: 0 <= i < |tab| && tab[i].Placed? ==> tab[i].sec < |secs|
    ensures (forall i :: 0 <= i < n ==> !RelocatesTo(tab, o, i, t)) ==> LinkAll(secs, tab, o, n)[t].reloc == secs[t].reloc
    ensures forall i :: 0 <= i < n && LastTo(tab, o, n, i, t) ==> LinkAll(secs, tab, o, n)[t].reloc == tab[i].sec
    decreases n
  {
    hide LinkOne, RelocatesTo;
    if n > 0 {
      BackLink(secs, tab, o, n - 1, t);
      LinkOneBack(LinkAll(secs, tab, o, n - 1), tab, o, n - 1, t);
      forall i | 0 <= i < n && LastTo(tab, o, n, i, t) ensures LinkAll(secs, tab, o, n)[t].reloc == tab[i].sec {
        if i < n - 1 { assert LastTo(tab, o, n - 1, i, t); }
      }
    }
  }

  predicate LastTo(tab: seq<Slot>, o: Object, n: nat, i: nat, t: nat)
    requires n <= |o.shdrs| == |tab|
  {
    i < n && tab[i].Placed? && RelocatesTo(tab, o, i, t) && forall k :: i < k < n ==> !RelocatesTo(tab, o, k, t)
  }

  /** Placing sets no links. */
  lemma {:induction false} PlacingLinks(secs: seq<Section>, o: Object, n: nat)
    requires |secs| > 0 && n <= |o.shdrs| && PlaceAll(secs, o, n).Some?
    ensures var r := PlaceAll(secs, o, n).value.0;
            forall j :: 0 <= j < |r| ==>
              (r[j].link, r[j].reloc, r[j].flags) == if j < |secs| then (secs[j].link, secs[j].reloc, secs[j].flags) else (0, 0, r[j].flags)
    decreases n
  {
    hide Place;
    if n > 0 {
      PlacingLinks(secs, o, n - 1);
      var a := PlaceAll(secs, o, n - 1).value.0;
      if Place(a, o, n - 1).value.1.Placed? { PlacedTight(a, o, n - 1); } else { PlacedNot(a, o, n - 1); }
    }
  }

  lemma PlacedNot(secs: seq<Section>, o: Object, n: nat)
    requires |secs| > 0 && n < |o.shdrs| && Place(secs, o, n).Some? && !Place(secs, o, n).value.1.Placed?
    ensures Place(secs, o, n).value.0 == secs
  {
  }

  /** After a load a new section is linked as its header says, and older ones as they were. */
  lemma LinksRight(secs: seq<Section>, syms: seq<Sym>, o: Object, isDyn: bool, l: Loaded)
    requires Session(secs, syms, o, isDyn, l)
    ensures |l.tab| == |o.shdrs| && |secs| <= |l.secs|
    ensures forall j :: 0 <= j < |secs| ==> l.secs[j].link == secs[j].link
    ensures forall i :: 1 <= i < |o.shdrs| && l.tab[i].Placed? && l.tab[i].isNew ==>
              l.tab[i].sec < |l.secs|
              && l.secs[l.tab[i].sec].link == if o.shdrs[i].link == 0 then 0 else Number(l.tab[o.shdrs[i].link])
  {
    hide PlaceAll, LinkAll, RelocAll, AddSyms, Load, AllOk, UniqueNames, RelTargets, Targeted, Stays, AllHold, Disjoint;
    var placed, linked := Stages(secs, syms, o, isDyn, l);
    RelocBodies(linked, l.tab, o, l.symbols.newIndex, LastOnce(o, l.tab, |o.syms|), |o.shdrs|);
    PlacingLinks(secs, o, |o.shdrs|);
    forall j | 0 <= j < |secs| ensures l.secs[j].link == secs[j].link {
      assert forall i :: 0 <= i < |o.shdrs| ==> !MadeBy(l.tab, i, j);
      LinkStays(placed, l.tab, o, |o.shdrs|, j);
    }
    forall i | 1 <= i < |o.shdrs| && l.tab[i].Placed? && l.tab[i].isNew
      ensures l.tab[i].sec < |l.secs|
      ensures l.secs[l.tab[i].sec].link == if o.shdrs[i].link == 0 then 0 else Number(l.tab[o.shdrs[i].link])
    {
      OnlyMaker(secs, placed, l.tab, o, i);
      LinkSet(placed, l.tab, o, |o.shdrs|, i, l.tab[i].sec);
    }
  }

  lemma OnlyMaker(secs: seq<Section>, r: seq<Section>, tab: seq<Slot>, o: Object, i: nat)
    requires |tab| == |o.shdrs| && Slots(secs, r, tab, o) && i < |tab| && tab[i].Placed? && tab[i].isNew
    ensures forall k :: 0 <= k < |tab| && k != i ==> !MadeBy(tab, k, tab[i].sec)
  {
    hide Stays;
    forall k | 0 <= k < |tab| && k != i ensures !MadeBy(tab, k, tab[i].sec) {
      assert k < i || i < k;
    }
  }

  // ----- when a load fails -----

  /** The type of the section that section `n` of the object goes to. */
  function HomeType(secs: seq<Section>, o: Object, n: nat): nat
    requires n < |o.shdrs| && Loads(o, n)
  {
    var j := FindSection(secs, o.shdrs[n].name, 1);
    if j != 0 then secs[j].typ else o.shdrs[FirstNamed(o, n, 0)].typ
  }

  /** What stays and is put into a section has its type. */
  predicate TypeAgrees(secs: seq<Section>, o: Object, n: nat)
    requires n < |o.shdrs|
  {
    Stays(secs, o, n) ==> o.shdrs[n].typ == HomeType(secs, o, n)
  }

  lemma PlaceIf(a: seq<Section>, o: Object, n: nat)
    requires |a| > 0 && n < |o.shdrs|
    ensures Place(a, o, n).Some? <==>
            (Loads(o, n) && There(a, o.shdrs[n].name) && !LinkOnce(o.shdrs[n].name) ==>
               a[FindSection(a, o.shdrs[n].name, 1)].typ == o.shdrs[n].typ)
    ensures Place(a, o, n).Some? ==>
              var r := Place(a, o, n).value.0;
              |a| <= |r| && (forall j :: 0 <= j < |a| ==> r[j].name == a[j].name && r[j].typ == a[j].typ)
              && (forall j :: |a| <= j < |r| ==> r[j].name == o.shdrs[n].name && r[j].typ == o.shdrs[n].typ)
              && (|a| < |r| ==> Loads(o, n) && !There(a, o.shdrs[n].name))
  {
  }

  /** The type of the section called `name` after the first `n` sections: that of the section
      there before, or of the first of the object. */
  lemma {:induction false} TypeThere(secs: seq<Section>, o: Object, n: nat, name: string)
    requires |secs| > 0 && n <= |o.shdrs| && PlaceAll(secs, o, n).Some? && There(PlaceAll(secs, o, n).value.0, name)
    ensures var r := PlaceAll(secs, o, n).value.0;
            if There(secs, name) then r[FindSection(r, name, 1)].typ == secs[FindSection(secs, name, 1)].typ
            else exists k :: FirstOf(o, n, name, k) && r[FindSection(r, name, 1)].typ == o.shdrs[k].typ
    decreases n
  {
    hide Place, Loads, FindSection;
    if n > 0 {
      var a, r := PlaceAll(secs, o, n - 1).value.0, PlaceAll(secs, o, n).value.0;
      PlaceIf(a, o, n - 1);
      NamesThere(secs, o, n - 1, name);
      if There(a, name) {
        TypeThere(secs, o, n - 1, name);
        SameFound(a, r, name);
        if !There(secs, name) {
          var k :| FirstOf(o, n - 1, name, k) && a[FindSection(a, name, 1)].typ == o.shdrs[k].typ;
          assert FirstOf(o, n, name, k);
        }
      } else {
        NewFound(a, r, o, n - 1, name);
        assert !NamedBelow(o, n - 1, name);
        assert FirstOf(o, n, name, n - 1);
      }
    }
  }

  /** Section `k` is the first of the first `n` that is loaded under that name. */
  predicate FirstOf(o: Object, n: nat, name: string, k: int) {
    0 <= k < n <= |o.shdrs| && Loads(o, k) && o.shdrs[k].name == name
    && forall j :: 0 <= j < k && Loads(o, j) ==> o.shdrs[j].name != name
  }

  lemma SameFound(a: seq<Section>, r: seq<Section>, name: string)
    requires |a| <= |r| && (forall j :: 0 <= j < |a| ==> r[j].name == a[j].name) && There(a, name)
    ensures FindSection(r, name, 1) == FindSection(a, name, 1)
  {
    assert r[FindSection(a, name, 1)].name == name;
  }

  lemma NewFound(a: seq<Section>, r: seq<Section>, o: Object, n: nat, name: string)
    requires n < |o.shdrs| && 0 < |a| <= |r| && (forall j :: 0 <= j < |a| ==> r[j].name == a[j].name) && !There(a, name) && There(r, name)
    requires forall j :: |a| <= j < |r| ==> r[j].name == o.shdrs[n].name && r[j].typ == o.shdrs[n].typ
    requires |a| < |r| ==> Loads(o, n)
    ensures Loads(o, n) && o.shdrs[n].name == name && r[FindSection(r, name, 1)].typ == o.shdrs[n].typ
  {
    assert forall x :: 1 <= x < |a| ==> r[x].name != name;
  }

  lemma FirstOfNamed(o: Object, n: nat, k: nat)
    requires n < |o.shdrs| && Loads(o, n) && FirstOf(o, n, o.shdrs[n].name, k)
    ensures FirstNamed(o, n, 0) == k
  {
    hide Loads;
  }

  /** Section `n` can be placed after those before it exactly if its type agrees. */
  lemma PlaceAgrees(secs: seq<Section>, o: Object, n: nat)
    requires |secs| > 0 && n < |o.shdrs| && PlaceAll(secs, o, n).Some?
    ensures Place(PlaceAll(secs, o, n).value.0, o, n).Some? <==> TypeAgrees(secs, o, n)
  {
    hide Place, PlaceAll, Loads, FindSection, FirstNamed;
    var a, name := PlaceAll(secs, o, n).value.0, o.shdrs[n].name;
    PlaceIf(a, o, n);
    NamesThere(secs, o, n, name);
    if Loads(o, n) {
      FirstNamedIs(o, n);
      if There(a, name) {
        TypeThere(secs, o, n, name);
        if !There(secs, name) {
          var k :| FirstOf(o, n, name, k) && a[FindSection(a, name, 1)].typ == o.shdrs[k].typ;
          FirstOfNamed(o, n, k);
        }
      }
    }
  }

  lemma FirstNamedIs(o: Object, n: nat)
    requires n < |o.shdrs| && Loads(o, n)
    ensures FirstNamed(o, n, 0) < n <==> NamedBelow(o, n, o.shdrs[n].name)
    ensures FirstNamed(o, n, 0) <= n
  {
    hide Loads;
    if FirstNamed(o, n, 0) < n { assert NamedBelow(o, n, o.shdrs[n].name); }
  }

  lemma {:induction false} PlacesIf(secs: seq<Section>, o: Object, n: nat)
    requires |secs| > 0 && n <= |o.shdrs|
    ensures PlaceAll(secs, o, n).Some? <==> forall i :: 0 <= i < n ==> TypeAgrees(secs, o, i)
    decreases n
  {
    hide Place, TypeAgrees;
    if n > 0 {
      PlacesIf(secs, o, n - 1);
      if PlaceAll(secs, o, n - 1).Some? { PlaceAgrees(secs, o, n - 1); }
    }
  }

  // ----- relocations that are refused -----

  /** An entry names a symbol of the object that has got a number, which does not matter after
      a symbol of a dropped section. */
  predicate Valid(e: Rel, newIndex: seq<nat>, once: bool) {
    e.sym < |newIndex| && (once || newIndex[e.sym] > 0)
  }

  lemma {:induction false} PatchedIf(rels: seq<Rel>, q: nat, newIndex: seq<nat>, delta: nat, once: bool)
    requires q <= |rels|
    ensures Patched(rels, q, newIndex, delta, once).Some? <==> forall x :: q <= x < |rels| ==> Valid(rels[x], newIndex, once)
    decreases |rels| - q
  {
    if q < |rels| {
      var e := rels[q];
      if Valid(e, newIndex, once) {
        var rels' := rels[q := Rel(e.offset + delta, newIndex[e.sym], e.typ)];
        PatchedIf(rels', q + 1, newIndex, delta, once);
        assert forall x :: q + 1 <= x < |rels| ==> rels'[x] == rels[x];
      }
    }
  }

  /** No two relocation sections of the object share a name. */
  predicate NoTwins(o: Object) {
    forall n, m :: 0 <= n < m < |o.shdrs| && Loads(o, n) && Loads(o, m) && o.shdrs[n].typ == SHT_REL ==> o.shdrs[n].name != o.shdrs[m].name
  }

  /** All entries of section `n` are valid, if it is one of relocations. */
  predicate EntriesValid(secs: seq<Section>, o: Object, newIndex: seq<nat>, once: bool, n: nat)
    requires n < |o.shdrs|
  {
    Stays(secs, o, n) && o.shdrs[n].typ == SHT_REL ==> forall x :: 0 <= x < |o.shdrs[n].rels| ==> Valid(o.shdrs[n].rels[x], newIndex, once)
  }

  /** What relocation section `n` put into its section stands at its end. */
  ghost predicate AtEnd(secs: seq<Section>, tab: seq<Slot>, o: Object, n: nat)
    requires n < |o.shdrs| == |tab|
  {
    tab[n].Placed? && o.shdrs[n].typ == SHT_REL ==>
      && tab[n].sec < |secs| && secs[tab[n].sec].typ == SHT_REL
      && var s, q := secs[tab[n].sec], tab[n].off / REL_SIZE; q <= |s.rels| && s.rels[q..] == o.shdrs[n].rels
  }

  lemma RelocOneIf(secs: seq<Section>, a: seq<Section>, tab: seq<Slot>, o: Object, newIndex: seq<nat>, once: bool, n: nat)
    requires n < |o.shdrs| == |tab| && AtEnd(a, tab, o, n) && (tab[n].Placed? <==> Stays(secs, o, n))
    requires tab[n].Placed? ==> tab[n].sec < |a| && a[tab[n].sec].typ == o.shdrs[n].typ
    ensures RelocOne(a, tab, o, newIndex, once, n).Some? <==> EntriesValid(secs, o, newIndex, once, n)
  {
    hide Patched, Stays, Valid;
    if tab[n].Placed? && o.shdrs[n].typ == SHT_REL {
      var s, q := a[tab[n].sec], tab[n].off / REL_SIZE;
      PatchedIf(s.rels, q, newIndex, DeltaOf(o, tab, n), once);
      forall x | q <= x < |s.rels| ensures s.rels[x] == o.shdrs[n].rels[x - q] { assert s.rels[q..][x - q] == s.rels[x]; }
      forall x | 0 <= x < |o.shdrs[n].rels| ensures o.shdrs[n].rels[x] == s.rels[q + x] { assert s.rels[q..][x] == s.rels[q + x]; }
    }
  }

  /** Passes over other sections leave the entries of section `m` as they are. */
  lemma {:induction false} RelocIf(secs: seq<Section>, linked: seq<Section>, tab: seq<Slot>, o: Object, newIndex: seq<nat>, once: bool, n: nat)
    requires n <= |o.shdrs| == |tab| && NoTwins(o) && Settled(secs, linked, tab, o)
    requires forall i :: 0 <= i < |tab| ==> AtEnd(linked, tab, o, i)
    ensures RelocAll(linked, tab, o, newIndex, once, n).Some? <==> forall i :: 0 <= i < n ==> EntriesValid(secs, o, newIndex, once, i)
    decreases n
  {
    hide RelocOne, Settled, NoTwins, EntriesValid;
    if n > 0 {
      RelocIf(secs, linked, tab, o, newIndex, once, n - 1);
      if RelocAll(linked, tab, o, newIndex, once, n - 1).Some? {
        var a := RelocAll(linked, tab, o, newIndex, once, n - 1).value;
        RelocBodies(linked, tab, o, newIndex, once, n - 1);
        StillAtEnd(secs, linked, tab, o, newIndex, once, n - 1);
        RelocOneIf(secs, a, tab, o, newIndex, once, n - 1);
      }
    }
  }

  lemma StillAtEnd(secs: seq<Section>, linked: seq<Section>, tab: seq<Slot>, o: Object, newIndex: seq<nat>, once: bool, n: nat)
    requires n < |o.shdrs| == |tab| && NoTwins(o) && Settled(secs, linked, tab, o) && AtEnd(linked, tab, o, n)
    requires RelocAll(linked, tab, o, newIndex, once, n).Some?
    ensures var a := RelocAll(linked, tab, o, newIndex, once, n).value;
            && AtEnd(a, tab, o, n) && (tab[n].Placed? <==> Stays(secs, o, n))
            && (tab[n].Placed? ==> tab[n].sec < |a| && a[tab[n].sec].typ == o.shdrs[n].typ)
  {
    hide RelocAll, AllHold, UniqueNames, ObjectOk, Disjoint, Stays, Loads;
    RelocBodies(linked, tab, o, newIndex, once, n);
    if tab[n].Placed? {
      HoldsName(linked, tab, o, n);
      if o.shdrs[n].typ == SHT_REL {
        forall i | 0 <= i < n && tab[i].Placed? ensures tab[i].sec != tab[n].sec {
          SameHome(linked, tab, o, n, i);
          HoldsName(linked, tab, o, i);
          StaysLoads(secs, o, i);
          StaysLoads(secs, o, n);
        }
        Untouched(linked, tab, o, newIndex, once, n, tab[n].sec);
      }
    }
  }

  lemma {:induction false} Untouched(secs: seq<Section>, tab: seq<Slot>, o: Object, newIndex: seq<nat>, once: bool, n: nat, j: nat)
    requires n <= |o.shdrs| == |tab| && j < |secs| && RelocAll(secs, tab, o, newIndex, once, n).Some?
    requires forall i :: 0 <= i < n && tab[i].Placed? ==> tab[i].sec != j
    ensures RelocAll(secs, tab, o, newIndex, once, n).value[j] == secs[j]
    decreases n
  {
    if n > 0 { Untouched(secs, tab, o, newIndex, once, n - 1, j); }
  }

  /** The last section of a name has its contents at the end. */
  lemma {:induction false} EndAfter(secs: seq<Section>, o: Object, n: nat, m: nat)
    requires m < n <= |o.shdrs| && |secs| > 0 && AllOk(secs) && ObjectOk(o) && UniqueNames(secs) && NoTwins(o) && PlaceAll(secs, o, n).Some?
    ensures var (r, tab) := PlaceAll(secs, o, n).value; Ends(r, tab[m], o.shdrs[m])
    decreases n
  {
    hide Place, AllOk, ObjectOk, UniqueNames, NoTwins, Takes, Ends, Slots, Sound;
    var (a, tab) := PlaceAll(secs, o, n - 1).value;
    PlaceAllHolds(secs, o, n - 1);
    PlaceAllNames(secs, o, n - 1);
    SoundParts(secs, a, tab, o);
    SlotsLoads(secs, a, tab, o);
    if m < n - 1 {
      EndAfter(secs, o, n - 1, m);
      EndKept(a, tab, o, n - 1, m);
    } else {
      EndNow(a, o, n - 1);
    }
  }

  predicate Ends(secs: seq<Section>, slot: Slot, i: Input) {
    slot.Placed? && i.typ == SHT_REL ==>
      && slot.sec < |secs| && secs[slot.sec].typ == SHT_REL
      && var s, q := secs[slot.sec], slot.off / REL_SIZE; q <= |s.rels| && s.rels[q..] == i.rels
  }

  lemma SoundParts(secs: seq<Section>, r: seq<Section>, tab: seq<Slot>, o: Object)
    requires |tab| <= |o.shdrs| && Sound(secs, r, tab, o)
    ensures AllOk(r) && AllHold(r, tab, o)
  {
  }

  lemma SlotsLoads(secs: seq<Section>, r: seq<Section>, tab: seq<Slot>, o: Object)
    requires |tab| <= |o.shdrs| && Slots(secs, r, tab, o)
    ensures forall i :: 0 <= i < |tab| && tab[i].Placed? ==> Loads(o, i)
  {
  }

  lemma EndNow(a: seq<Section>, o: Object, n: nat)
    requires |a| > 0 && n < |o.shdrs| && AllOk(a) && ObjectOk(o) && Place(a, o, n).Some?
    ensures Ends(Place(a, o, n).value.0, Place(a, o, n).value.1, o.shdrs[n])
  {
    hide PowerOf2, Append, OffsetIn;
    var i := o.shdrs[n];
    var slot := Place(a, o, n).value.1;
    if slot.Placed? {
      assert SectionOk(NewSection(i));
      AppendHolds(Ensured(a, i)[slot.sec], i);
    }
  }

  lemma EndKept(a: seq<Section>, tab: seq<Slot>, o: Object, n: nat, m: nat)
    requires m < n == |tab| && n < |o.shdrs| && |a| > 0 && Place(a, o, n).Some? && Ends(a, tab[m], o.shdrs[m])
    requires AllHold(a, tab, o) && NoTwins(o) && (tab[m].Placed? ==> Loads(o, m))
    ensures Ends(Place(a, o, n).value.0, tab[m], o.shdrs[m])
  {
    hide Place, Takes;
    var (r, slot) := Place(a, o, n).value;
    if tab[m].Placed? && o.shdrs[m].typ == SHT_REL {
      assert Holds(a, tab[m], o.shdrs[m]);
      if slot.Placed? {
        PlacedTight(a, o, n);
        PlacedLoads(a, o, n);
      } else {
        PlacedNot(a, o, n);
      }
    }
  }

  lemma PlacedLoads(a: seq<Section>, o: Object, n: nat)
    requires |a| > 0 && n < |o.shdrs| && Place(a, o, n).Some? && Place(a, o, n).value.1.Placed?
    ensures Loads(o, n)
  {
  }

  /** No two symbol tables. */
  predicate OneTable(o: Object) {
    forall i, j :: 1 <= i < j < |o.shdrs| ==> !(o.shdrs[i].typ == SHT_SYMTAB && o.shdrs[j].typ == SHT_SYMTAB)
  }

  lemma {:induction false} CountTables(o: Object, n: nat)
    requires n <= |o.shdrs|
    ensures SymtabCount(o, n) >= 1 <==> exists i :: 1 <= i < n && o.shdrs[i].typ == SHT_SYMTAB
    ensures SymtabCount(o, n) <= 1 <==> forall i, j :: 1 <= i < j < n ==> !(o.shdrs[i].typ == SHT_SYMTAB && o.shdrs[j].typ == SHT_SYMTAB)
    decreases n
  {
    if n > 1 { CountTables(o, n - 1); }
  }

  predicate AllAgree(secs: seq<Section>, o: Object) { forall n :: 0 <= n < |o.shdrs| ==> TypeAgrees(secs, o, n) }

  /** Every entry is valid, given what the symbols are numbered as. */
  predicate AllValid(secs: seq<Section>, syms: seq<Sym>, o: Object, isDyn: bool)
    requires |secs| > 0
  {
    var p := PlaceAll(secs, o, |o.shdrs|);
    p.Some? &&
    var newIndex, once := AddSyms(syms, o, p.value.1, |o.syms|, isDyn).newIndex, LastOnce(o, p.value.1, |o.syms|);
    forall n :: 0 <= n < |o.shdrs| ==> EntriesValid(secs, o, newIndex, once, n)
  }

  /** A load succeeds if and only if the object has no two symbol tables, every section that
      stays has the type of the section it goes to, and every entry is valid. Stated of objects
      no two of whose relocation sections share a name. */
  lemma LoadsIf(secs: seq<Section>, syms: seq<Sym>, o: Object, isDyn: bool)
    requires TableOk(secs) && ObjectOk(o) && NoTwins(o) && |syms| > 0 && !Global(syms[0])
    ensures Load(secs, syms, o, isDyn).Some? <==>
            OneTable(o) && AllAgree(secs, o) && AllValid(secs, syms, o, isDyn)
  {
    hide PlaceAll, LinkAll, RelocAll, AddSyms, LastOnce, TypeAgrees, EntriesValid, ObjectOk, NoTwins, AllOk, UniqueNames, RelTargets;
    var N := |o.shdrs|;
    CountTables(o, N);
    assert SymtabCount(o, N) <= 1 <==> OneTable(o);
    PlacesIf(secs, o, N);
    assert PlaceAll(secs, o, N).None? ==> Load(secs, syms, o, isDyn).None?;
    if PlaceAll(secs, o, N).Some? {
      var (placed, tab) := PlaceAll(secs, o, N).value;
      var linked := LinkAll(placed, tab, o, N);
      var newIndex := AddSyms(syms, o, tab, |o.syms|, isDyn).newIndex;
      LinkedSettled(secs, o);
      RelocIf(secs, linked, tab, o, newIndex, LastOnce(o, tab, |o.syms|), N);
      assert Load(secs, syms, o, isDyn).Some? <==>
             SymtabCount(o, N) <= 1 && RelocAll(linked, tab, o, newIndex, LastOnce(o, tab, |o.syms|), N).Some?;
    }
  }

  lemma LinkedSettled(secs: seq<Section>, o: Object)
    requires TableOk(secs) && ObjectOk(o) && NoTwins(o) && PlaceAll(secs, o, |o.shdrs|).Some?
    ensures var (placed, tab) := PlaceAll(secs, o, |o.shdrs|).value;
            var linked := LinkAll(placed, tab, o, |o.shdrs|);
            Settled(secs, linked, tab, o) && forall i :: 0 <= i < |tab| ==> AtEnd(linked, tab, o, i)
  {
    hide PlaceAll, LinkAll, AllHold, ObjectOk, Disjoint, Stays, NoTwins, UniqueNames;
    var n := |o.shdrs|;
    var (placed, tab) := PlaceAll(secs, o, n).value;
    var linked := LinkAll(placed, tab, o, n);
    PlaceAllHolds(secs, o, n);
    PlaceAllNames(secs, o, n);
    forall j | 0 <= j < |placed| ensures SameBody(placed[j], linked[j]) { LinkBodies(placed, tab, o, n, j); }
    BodiesHold(placed, linked, tab, o);
    BodiesNamed(placed, linked);
    forall i | 0 <= i < |tab| ensures AtEnd(linked, tab, o, i) {
      EndAfter(secs, o, n, i);
      if tab[i].Placed? && o.shdrs[i].typ == SHT_REL { assert SameBody(placed[tab[i].sec], linked[tab[i].sec]); }
    }
  }

  // ----- the flag that lets entries pass -----

  /** Symbol `k` is defined in a section of the object. */
  predicate Sectioned(o: Object, k: nat)
    requires k < |o.syms|
  {
    Defined(o.syms[k]) && o.syms[k].shndx < SHN_LORESERVE && o.syms[k].shndx < |o.shdrs|
  }

  predicate LastSectioned(o: Object, n: nat, k: int)
    requires n <= |o.syms|
  {
    1 <= k < n && Sectioned(o, k) && forall j :: k < j < n ==> !Sectioned(o, j)
  }

  /** It says whether the last symbol of the object that is defined in a section was in one that
      is dropped, whatever the entry has to do with that. */
  lemma {:induction false} FlagIs(secs: seq<Section>, o: Object, tab: seq<Slot>, n: nat)
    requires n <= |o.syms| && |tab| == |o.shdrs| && forall i :: 0 <= i < |tab| ==> (tab[i].Once? <==> Dropped(secs, o, i))
    ensures LastOnce(o, tab, n) <==> exists k :: LastSectioned(o, n, k) && Dropped(secs, o, o.syms[k].shndx)
    decreases n
  {
    hide Dropped, Sectioned;
    if n > 1 {
      FlagIs(secs, o, tab, n - 1);
      FlagStep(secs, o, tab, n);
    }
  }

  lemma FlagStep(secs: seq<Section>, o: Object, tab: seq<Slot>, n: nat)
    requires 1 < n <= |o.syms| && |tab| == |o.shdrs| && forall i :: 0 <= i < |tab| ==> (tab[i].Once? <==> Dropped(secs, o, i))
    requires LastOnce(o, tab, n - 1) <==> exists k :: LastSectioned(o, n - 1, k) && Dropped(secs, o, o.syms[k].shndx)
    ensures LastOnce(o, tab, n) <==> exists k :: LastSectioned(o, n, k) && Dropped(secs, o, o.syms[k].shndx)
  {
    hide Dropped;
    if Sectioned(o, n - 1) {
      assert LastSectioned(o, n, n - 1);
    } else {
      forall k ensures LastSectioned(o, n, k) <==> LastSectioned(o, n - 1, k) {
      }
    }
  }
}
