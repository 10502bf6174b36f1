/** What loading an object preserves: contents, the bytes symbols denote, and the sites and
    symbols of relocations. */
module Merging {
  import opened Wrappers
  import opened Arith
  import opened ElfSymbols
  import opened Linker

  /** `b` is `a` with more after it. */
  predicate Grown(a: Section, b: Section) {
    b.name == a.name && b.typ == a.typ && a.size <= b.size && a.align <= b.align && a.data <= b.data && a.rels <= b.rels
  }

  ghost predicate AllGrown(a: seq<Section>, b: seq<Section>) {
    |a| <= |b| && forall j :: 0 <= j < |a| ==> Grown(a[j], b[j])
  }

  ghost predicate AllOk(secs: seq<Section>) { forall j :: 0 <= j < |secs| ==> SectionOk(secs[j]) }

  /** Section `i` of the object sits unchanged at an aligned offset of its section. */
  predicate Holds(secs: seq<Section>, slot: Slot, i: Input) {
    slot.Placed? ==>
      && 0 < slot.sec < |secs|
      && var s := secs[slot.sec];
      && s.name == i.name && s.typ == i.typ
      && slot.off % Least1(i.align) == 0 && slot.off + i.size <= s.size && Least1(i.align) <= s.align
      && (i.typ == SHT_REL ==>
            var q := slot.off / REL_SIZE;
            slot.off % REL_SIZE == 0 && q + |i.rels| <= |s.rels| && s.rels[q..q + |i.rels|] == i.rels)
      && (i.typ != SHT_REL && i.typ != SHT_NOBITS ==>
            slot.off + i.size <= |s.data| && s.data[slot.off..slot.off + i.size] == i.data)
  }

  lemma {:induction false} PowerCases(a: nat)
    requires PowerOf2(a)
    ensures a == 1 || a == 2 || a == 4 || a % 8 == 0
    decreases a
  {
    if a > 4 {
      PowerCases(a / 2);
    }
  }

  /** Relocation entries are never split by alignment. */
  lemma EntriesAligned(n: nat, a: nat)
    requires PowerOf2(a)
    ensures AlignUp(REL_SIZE * n, a) % REL_SIZE == 0
  {
    PowerCases(a);
    if a % 8 == 0 {
      MultipleTrans(AlignUp(REL_SIZE * n, a), a, 8);
    } else {
      AlignedStays(REL_SIZE * n, a);
    }
  }

  lemma AppendHolds(s: Section, i: Input)
    requires SectionOk(s) && InputOk(i) && s.typ == i.typ && PowerOf2(Least1(i.align))
    ensures var r := Append(s, i); SectionOk(r) && Grown(s, r)
    ensures var r := Append(s, i); var off := OffsetIn(s, i);
            && off % Least1(i.align) == 0 && off + i.size == r.size && Least1(i.align) <= r.align && s.size <= off
            && (i.typ == SHT_REL ==>
                  var q := off / REL_SIZE;
                  off % REL_SIZE == 0 && q + |i.rels| == |r.rels| && r.rels[q..] == i.rels)
            && (i.typ != SHT_REL && i.typ != SHT_NOBITS ==> |r.data| == off + i.size && r.data[off..off + i.size] == i.data)
  {
    if i.typ == SHT_REL {
      EntriesAligned(|s.rels|, Least1(i.align));
    }
  }

  lemma HoldsGrown(a: seq<Section>, b: seq<Section>, slot: Slot, i: Input)
    requires Holds(a, slot, i) && AllGrown(a, b)
    ensures Holds(b, slot, i)
  {
    if slot.Placed? {
      var s, t := a[slot.sec], b[slot.sec];
      assert Grown(s, t);
    }
  }

  lemma PlaceHolds(secs: seq<Section>, o: Object, n: nat)
    requires |secs| > 0 && n < |o.shdrs| && AllOk(secs) && ObjectOk(o) && Place(secs, o, n).Some?
    ensures var (r, slot) := Place(secs, o, n).value;
            && AllOk(r) && AllGrown(secs, r) && Holds(r, slot, o.shdrs[n])
            && (slot.Placed? && slot.sec < |secs| ==> secs[slot.sec].size <= slot.off)
            && (slot.Placed? ==> r[slot.sec].size == slot.off + o.shdrs[n].size)
  {
    hide PowerOf2, Append, OffsetIn;
    var i := o.shdrs[n];
    var (r, slot) := Place(secs, o, n).value;
    if slot.Placed? {
      var secs1 := Ensured(secs, i);
      assert SectionOk(NewSection(i));
      AppendHolds(secs1[slot.sec], i);
      assert forall j :: 0 <= j < |secs| ==> secs1[j] == secs[j];
    }
  }

  /** Sections of one object never overlap, and come after what was there. */
  predicate Disjoint(secs: seq<Section>, tab: seq<Slot>, o: Object)
    requires |tab| <= |o.shdrs|
  {
    && (forall i :: 0 <= i < |tab| && tab[i].Placed? && tab[i].sec < |secs| ==> secs[tab[i].sec].size <= tab[i].off)
    && (forall i, k :: 0 <= i < k < |tab| && tab[i].Placed? && tab[k].Placed? && tab[i].sec == tab[k].sec ==>
          tab[i].off + o.shdrs[i].size <= tab[k].off)
  }

  ghost predicate AllHold(secs: seq<Section>, tab: seq<Slot>, o: Object)
    requires |tab| <= |o.shdrs|
  {
    forall i :: 0 <= i < |tab| ==> Holds(secs, tab[i], o.shdrs[i])
  }

  /** Everything placed so far is held, in order, after what was there. */
  ghost predicate Sound(secs: seq<Section>, r: seq<Section>, tab: seq<Slot>, o: Object)
    requires |tab| <= |o.shdrs|
  {
    AllOk(r) && AllGrown(secs, r) && AllHold(r, tab, o) && Disjoint(secs, tab, o)
  }

  lemma {:induction false} PlaceAllHolds(secs: seq<Section>, o: Object, n: nat)
    requires |secs| > 0 && n <= |o.shdrs| && AllOk(secs) && ObjectOk(o) && PlaceAll(secs, o, n).Some?
    ensures var (r, tab) := PlaceAll(secs, o, n).value; Sound(secs, r, tab, o)
    decreases n
  {
    hide Place, Sound, AllOk, ObjectOk;
    if n == 0 {
      SoundFirst(secs, o);
    } else {
      PlaceAllHolds(secs, o, n - 1);
      var (a, tab) := PlaceAll(secs, o, n - 1).value;
      SoundStep(secs, a, tab, o);
    }
  }

  lemma SoundFirst(secs: seq<Section>, o: Object)
    requires AllOk(secs)
    ensures Sound(secs, secs, [], o)
  {
  }

  lemma SoundStep(secs: seq<Section>, a: seq<Section>, tab: seq<Slot>, o: Object)
    requires |tab| < |o.shdrs| && |a| > 0 && ObjectOk(o) && Sound(secs, a, tab, o) && Place(a, o, |tab|).Some?
    ensures var (r, slot) := Place(a, o, |tab|).value; Sound(secs, r, tab + [slot], o)
  {
    hide Place, Holds, AllHold, AllGrown, AllOk, Disjoint, ObjectOk;
    PlaceHolds(a, o, |tab|);
    var (r, slot) := Place(a, o, |tab|).value;
    GrownTrans(secs, a, r);
    HoldStep(a, r, tab, slot, o);
    DisjointStep(secs, a, tab, slot, o);
  }

  lemma HoldStep(a: seq<Section>, r: seq<Section>, tab: seq<Slot>, slot: Slot, o: Object)
    requires |tab| < |o.shdrs| && AllHold(a, tab, o) && AllGrown(a, r) && Holds(r, slot, o.shdrs[|tab|])
    ensures AllHold(r, tab + [slot], o)
  {
    hide AllGrown, Holds;
    forall i | 0 <= i < |tab| + 1 ensures Holds(r, (tab + [slot])[i], o.shdrs[i]) {
      if i < |tab| { HoldsGrown(a, r, tab[i], o.shdrs[i]); }
    }
  }

  lemma DisjointStep(secs: seq<Section>, a: seq<Section>, tab: seq<Slot>, slot: Slot, o: Object)
    requires |tab| < |o.shdrs| && AllGrown(secs, a) && AllHold(a, tab, o) && Disjoint(secs, tab, o)
    requires slot.Placed? && slot.sec < |a| ==> a[slot.sec].size <= slot.off
    ensures Disjoint(secs, tab + [slot], o)
  {
    assert |secs| <= |a|;
    var tab' := tab + [slot];
    forall i, k | 0 <= i < k < |tab'| && tab'[i].Placed? && tab'[k].Placed? && tab'[i].sec == tab'[k].sec
      ensures tab'[i].off + o.shdrs[i].size <= tab'[k].off
    {
      if k == |tab| { assert Holds(a, tab[i], o.shdrs[i]); }
    }
    forall i | 0 <= i < |tab'| && tab'[i].Placed? && tab'[i].sec < |secs| ensures secs[tab'[i].sec].size <= tab'[i].off {
      if i == |tab| { assert Grown(secs[slot.sec], a[slot.sec]); }
    }
  }

  lemma GrownTrans(a: seq<Section>, b: seq<Section>, c: seq<Section>)
    requires AllGrown(a, b) && AllGrown(b, c)
    ensures AllGrown(a, c)
  {
    forall j | 0 <= j < |a| ensures Grown(a[j], c[j]) {
      assert Grown(a[j], b[j]) && Grown(b[j], c[j]);
    }
  }

  // ----- tables and objects -----

  ghost predicate UniqueNames(secs: seq<Section>) {
    forall i, j :: 1 <= i < |secs| && 1 <= j < |secs| && secs[i].name == secs[j].name ==> i == j
  }

  /** Every relocation section applies to a section. */
  predicate RelTargets(secs: seq<Section>) {
    forall j :: 1 <= j < |secs| && secs[j].typ == SHT_REL ==> 1 <= secs[j].info < |secs|
  }

  ghost predicate TableOk(secs: seq<Section>) {
    |secs| > 0 && AllOk(secs) && UniqueNames(secs) && RelTargets(secs)
  }

  /** What was there applies to what it applied to. */
  predicate SameTargets(a: seq<Section>, b: seq<Section>) {
    |a| <= |b| && forall j :: 0 <= j < |a| ==> b[j].info == a[j].info
  }

  lemma StandardOk()
    ensures TableOk(STANDARD)
  {
  }

  predicate Loads(o: Object, n: nat)
    requires n < |o.shdrs|
  {
    n != 0 && n != o.shstrndx && Handled(o.shdrs[n])
  }

  /** The first section loaded under the name of section `n`. */
  function FirstNamed(o: Object, n: nat, from: nat): (r: nat)
    requires from <= n < |o.shdrs| && Loads(o, n)
    ensures from <= r <= n && Loads(o, r) && o.shdrs[r].name == o.shdrs[n].name
    ensures forall k :: from <= k < r && Loads(o, k) ==> o.shdrs[k].name != o.shdrs[n].name
    decreases n - from
  {
    if Loads(o, from) && o.shdrs[from].name == o.shdrs[n].name then from else FirstNamed(o, n, from + 1)
  }

  /** A link-once section whose name is there already, or comes earlier in the object. */
  predicate Dropped(secs: seq<Section>, o: Object, n: nat)
    requires n < |o.shdrs|
  {
    Loads(o, n) && LinkOnce(o.shdrs[n].name) && (FindSection(secs, o.shdrs[n].name, 1) != 0 || FirstNamed(o, n, 0) < n)
  }

  predicate Stays(secs: seq<Section>, o: Object, n: nat)
    requires n < |o.shdrs|
  {
    Loads(o, n) && !Dropped(secs, o, n)
  }

  /** Every relocation section that is new applies to a section that stays. For others the code
      would look up the number of no section at all. */
  predicate Targeted(secs: seq<Section>, o: Object) {
    forall n :: 0 <= n < |o.shdrs| && Starts(secs, o, n) && o.shdrs[n].typ == SHT_REL ==>
      o.shdrs[n].info < |o.shdrs| && Stays(secs, o, o.shdrs[n].info)
  }

  /** Section `n` brings in a new name. */
  predicate Starts(secs: seq<Section>, o: Object, n: nat)
    requires n < |o.shdrs|
  {
    Stays(secs, o, n) && FindSection(secs, o.shdrs[n].name, 1) == 0 && FirstNamed(o, n, 0) == n
  }

  // ----- names and slots -----

  lemma PlaceNames(secs: seq<Section>, o: Object, n: nat)
    requires |secs| > 0 && n < |o.shdrs| && UniqueNames(secs) && Place(secs, o, n).Some?
    ensures var (r, slot) := Place(secs, o, n).value;
            && UniqueNames(r)
            && (slot.Placed? <==> Loads(o, n) && !(LinkOnce(o.shdrs[n].name) && There(secs, o.shdrs[n].name)))
            && (slot.Once? <==> Loads(o, n) && LinkOnce(o.shdrs[n].name) && There(secs, o.shdrs[n].name))
            && (slot.Placed? ==> 0 < slot.sec < |r| && (slot.isNew <==> slot.sec == |secs|))
            && |r| == |secs| + (if slot.Placed? && slot.isNew then 1 else 0)
            && (forall j :: 0 <= j < |secs| ==> r[j].info == secs[j].info)
  {
  }

  predicate There(secs: seq<Section>, name: string) { FindSection(secs, name, 1) != 0 }

  lemma PlaceThere(secs: seq<Section>, o: Object, n: nat, name: string)
    requires |secs| > 0 && n < |o.shdrs| && Place(secs, o, n).Some?
    ensures There(Place(secs, o, n).value.0, name) <==> There(secs, name) || (Loads(o, n) && o.shdrs[n].name == name)
  {
    var (r, slot) := Place(secs, o, n).value;
    assert forall j :: 0 <= j < |secs| ==> r[j].name == secs[j].name;
    if There(secs, name) { assert r[FindSection(secs, name, 1)].name == name; }
    if Loads(o, n) && slot.Placed? { assert r[slot.sec].name == o.shdrs[n].name; }
    if There(r, name) {
      var j := FindSection(r, name, 1);
      if j < |secs| { assert secs[j].name == name; }
    }
  }

  predicate NamedBelow(o: Object, n: nat, name: string)
    requires n <= |o.shdrs|
  {
    exists k :: 0 <= k < n && Loads(o, k) && o.shdrs[k].name == name
  }

  /** A name is there once it was there or a section of that name has been looked at. */
  lemma {:induction false} NamesThere(secs: seq<Section>, o: Object, n: nat, name: string)
    requires |secs| > 0 && n <= |o.shdrs| && PlaceAll(secs, o, n).Some?
    ensures There(PlaceAll(secs, o, n).value.0, name) <==> There(secs, name) || NamedBelow(o, n, name)
    decreases n
  {
    hide Place, There, Loads;
    if n > 0 {
      NamesThere(secs, o, n - 1, name);
      PlaceThere(PlaceAll(secs, o, n - 1).value.0, o, n - 1, name);
    }
  }

  /** So a section is placed exactly if it stays. */
  lemma PlacedIfStays(secs: seq<Section>, o: Object, n: nat)
    requires |secs| > 0 && n < |o.shdrs| && UniqueNames(secs) && PlaceAll(secs, o, n + 1).Some?
    requires UniqueNames(PlaceAll(secs, o, n).value.0)
    ensures Place(PlaceAll(secs, o, n).value.0, o, n).Some?
    ensures Place(PlaceAll(secs, o, n).value.0, o, n).value.1.Placed? <==> Stays(secs, o, n)
    ensures Place(PlaceAll(secs, o, n).value.0, o, n).value.1.Once? <==> Dropped(secs, o, n)
  {
    hide Place, Loads, FindSection;
    var a := PlaceAll(secs, o, n).value.0;
    PlaceNames(a, o, n);
    NamesThere(secs, o, n, o.shdrs[n].name);
    if Loads(o, n) {
      if FirstNamed(o, n, 0) < n { assert NamedBelow(o, n, o.shdrs[n].name); }
    }
  }

  /** The slots of the first `n` sections: those that stay have one, and a section is new for
      exactly one of them. */
  ghost predicate Slots(secs: seq<Section>, r: seq<Section>, tab: seq<Slot>, o: Object)
    requires |tab| <= |o.shdrs|
  {
    && (forall i :: 0 <= i < |tab| ==> (tab[i].Placed? <==> Stays(secs, o, i)) && (tab[i].Once? <==> Dropped(secs, o, i)))
    && (forall i :: 0 <= i < |tab| && tab[i].Placed? ==> tab[i].sec < |r| && (tab[i].isNew ==> tab[i].sec >= |secs|))
    && (forall i, k :: 0 <= i < k < |tab| && tab[i].Placed? && tab[k].Placed? && tab[k].isNew ==> tab[i].sec < tab[k].sec)
    && (forall j :: |secs| <= j < |r| ==> Made(tab, j))
  }

  predicate Makes(tab: seq<Slot>, i: nat, j: nat) { i < |tab| && tab[i].Placed? && tab[i].sec == j && tab[i].isNew }

  ghost predicate Made(tab: seq<Slot>, j: nat) { exists i :: Makes(tab, i, j) }

  /** The names and slots after placing: the sections there before are still where they were. */
  ghost predicate Tidy(secs: seq<Section>, r: seq<Section>, tab: seq<Slot>, o: Object)
    requires |tab| <= |o.shdrs|
  {
    && UniqueNames(r) && Slots(secs, r, tab, o) && |secs| <= |r|
    && (forall j :: 0 <= j < |secs| ==> r[j].info == secs[j].info)
  }

  lemma {:induction false} PlaceAllNames(secs: seq<Section>, o: Object, n: nat)
    requires |secs| > 0 && n <= |o.shdrs| && UniqueNames(secs) && PlaceAll(secs, o, n).Some?
    ensures var (r, tab) := PlaceAll(secs, o, n).value; Tidy(secs, r, tab, o)
    decreases n
  {
    hide Place, Slots, UniqueNames, Stays, Dropped;
    if n == 0 {
      TidyFirst(secs, o);
    } else {
      PlaceAllNames(secs, o, n - 1);
      var (a, tab) := PlaceAll(secs, o, n - 1).value;
      PlacedIfStays(secs, o, n - 1);
      TidyStep(secs, a, tab, o);
    }
  }

  lemma TidyFirst(secs: seq<Section>, o: Object)
    requires UniqueNames(secs)
    ensures Tidy(secs, secs, [], o)
  {
  }

  lemma TidyStep(secs: seq<Section>, a: seq<Section>, tab: seq<Slot>, o: Object)
    requires |tab| < |o.shdrs| && |a| > 0 && Tidy(secs, a, tab, o) && Place(a, o, |tab|).Some?
    requires var slot := Place(a, o, |tab|).value.1;
             (slot.Placed? <==> Stays(secs, o, |tab|)) && (slot.Once? <==> Dropped(secs, o, |tab|))
    ensures var (r, slot) := Place(a, o, |tab|).value; Tidy(secs, r, tab + [slot], o)
  {
    hide Place, Slots, UniqueNames, Stays, Dropped;
    PlaceNames(a, o, |tab|);
    var (r, slot) := Place(a, o, |tab|).value;
    SlotsStep(secs, a, r, tab, slot, o);
  }

  lemma SlotsStep(secs: seq<Section>, a: seq<Section>, r: seq<Section>, tab: seq<Slot>, slot: Slot, o: Object)
    requires |tab| < |o.shdrs| && |secs| <= |a| && Slots(secs, a, tab, o)
    requires (slot.Placed? <==> Stays(secs, o, |tab|)) && (slot.Once? <==> Dropped(secs, o, |tab|))
    requires slot.Placed? ==> slot.sec < |r| && (slot.isNew <==> slot.sec == |a|)
    requires |r| == |a| + (if slot.Placed? && slot.isNew then 1 else 0)
    ensures Slots(secs, r, tab + [slot], o)
  {
    hide Stays, Dropped;
    var tab' := tab + [slot];
    forall j {:trigger Made(tab', j)} | |secs| <= j < |r| ensures Made(tab', j) {
      if j < |a| {
        assert Made(tab, j);
        var i :| Makes(tab, i, j);
        assert Makes(tab', i, j);
      } else {
        assert Makes(tab', |tab|, j);
      }
    }
  }

  // ----- links -----

  predicate SameBody(a: Section, b: Section) {
    a.name == b.name && a.typ == b.typ && a.align == b.align && a.size == b.size && a.data == b.data && a.rels == b.rels
  }

  lemma {:induction false} LinkBodies(secs: seq<Section>, tab: seq<Slot>, o: Object, n: nat, j: nat)
    requires n <= |o.shdrs| == |tab| && j < |secs|
    ensures SameBody(secs[j], LinkAll(secs, tab, o, n)[j])
    decreases n
  {
    if n > 0 { LinkBodies(secs, tab, o, n - 1, j); }
  }

  /** Section `i` of the object makes section `j` its own and is a relocation section. */
  predicate Names(tab: seq<Slot>, o: Object, i: nat, j: nat)
    requires |tab| == |o.shdrs|
  {
    i < |tab| && tab[i].Placed? && tab[i].isNew && tab[i].sec == j && o.shdrs[i].typ == SHT_REL
    && o.shdrs[i].info < |tab| && tab[o.shdrs[i].info].Placed?
  }

  lemma {:induction false} LinkKeepsInfo(secs: seq<Section>, tab: seq<Slot>, o: Object, n: nat, j: nat)
    requires n <= |o.shdrs| == |tab| && j < |secs|
    requires forall i :: 0 <= i < n ==> !Names(tab, o, i, j)
    ensures LinkAll(secs, tab, o, n)[j].info == secs[j].info
    decreases n
  {
    if n > 0 {
      LinkKeepsInfo(secs, tab, o, n - 1, j);
      assert !Names(tab, o, n - 1, j);
    }
  }

  lemma {:induction false} LinkSetsInfo(secs: seq<Section>, tab: seq<Slot>, o: Object, n: nat, i: nat, j: nat)
    requires i < n <= |o.shdrs| == |tab| && j < |secs| && Names(tab, o, i, j)
    requires forall k :: 0 <= k < n && Names(tab, o, k, j) ==> k == i
    requires tab[o.shdrs[i].info].sec < |secs|
    ensures LinkAll(secs, tab, o, n)[j].info == tab[o.shdrs[i].info].sec
    decreases n
  {
    if i < n - 1 {
      LinkSetsInfo(secs, tab, o, n - 1, i, j);
      assert !Names(tab, o, n - 1, j);
    }
  }

  /** Where a section goes: where its name is already, or where the first of its name went. */
  lemma Home(secs: seq<Section>, r: seq<Section>, tab: seq<Slot>, o: Object, n: nat)
    requires |tab| == |o.shdrs| && UniqueNames(r) && AllGrown(secs, r) && AllHold(r, tab, o) && Slots(secs, r, tab, o)
    requires n < |o.shdrs| && Stays(secs, o, n)
    ensures var f := FindSection(secs, o.shdrs[n].name, 1);
            && tab[n].Placed?
            && (f != 0 ==> tab[n].sec == f)
            && (f == 0 ==> tab[n].sec >= |secs| && Makes(tab, FirstNamed(o, n, 0), tab[n].sec))
  {
    hide Holds, AllHold, AllGrown, UniqueNames;
    HoldsName(r, tab, o, n);
    var f, j := FindSection(secs, o.shdrs[n].name, 1), tab[n].sec;
    if f != 0 {
      GrownAt(secs, r, f);
      OneName(r, f, j);
    } else {
      if j < |secs| { GrownAt(secs, r, j); }
      assert Made(tab, j);
      var i :| Makes(tab, i, j);
      HoldsName(r, tab, o, i);
      var first := FirstNamed(o, n, 0);
      FirstStays(secs, o, n);
      HoldsName(r, tab, o, first);
      OneName(r, tab[first].sec, j);
    }
  }

  /** The first section of a name stays if any does, or the name was there. */
  lemma FirstStays(secs: seq<Section>, o: Object, n: nat)
    requires n < |o.shdrs| && Loads(o, n) && (Stays(secs, o, n) || !There(secs, o.shdrs[n].name))
    ensures Stays(secs, o, FirstNamed(o, n, 0))
    ensures FirstNamed(o, FirstNamed(o, n, 0), 0) == FirstNamed(o, n, 0)
  {
    hide FindSection, Loads, LinkOnce;
  }

  lemma GrownAt(a: seq<Section>, b: seq<Section>, j: nat)
    requires AllGrown(a, b) && j < |a|
    ensures j < |b| && Grown(a[j], b[j])
  {
  }

  lemma OneName(secs: seq<Section>, i: nat, j: nat)
    requires UniqueNames(secs) && 1 <= i < |secs| && 1 <= j < |secs| && secs[i].name == secs[j].name
    ensures i == j
  {
  }

  lemma HoldsName(secs: seq<Section>, tab: seq<Slot>, o: Object, i: nat)
    requires |tab| == |o.shdrs| && AllHold(secs, tab, o) && i < |tab| && tab[i].Placed?
    ensures 0 < tab[i].sec < |secs| && secs[tab[i].sec].name == o.shdrs[i].name && secs[tab[i].sec].typ == o.shdrs[i].typ
  {
    assert Holds(secs, tab[i], o.shdrs[i]);
  }

  /** Sections of one name, and no others, go to one place. */
  lemma SameHome(secs: seq<Section>, tab: seq<Slot>, o: Object, n: nat, m: nat)
    requires |tab| == |o.shdrs| && UniqueNames(secs) && AllHold(secs, tab, o)
    requires n < |tab| && tab[n].Placed? && m < |tab| && tab[m].Placed?
    ensures tab[n].sec == tab[m].sec <==> o.shdrs[n].name == o.shdrs[m].name
  {
    HoldsName(secs, tab, o, n);
    HoldsName(secs, tab, o, m);
  }

  /** The name of the section that the relocations of section `n` end up applying to: what a
      section of that name applies to already, or else what the first of the object does. */
  function HomeTarget(secs: seq<Section>, o: Object, n: nat): string
    requires n < |o.shdrs| && Loads(o, n)
  {
    var j := FindSection(secs, o.shdrs[n].name, 1);
    if j != 0 then
      if secs[j].info < |secs| then secs[secs[j].info].name else ""
    else
      var t := o.shdrs[FirstNamed(o, n, 0)].info;
      if t < |o.shdrs| then o.shdrs[t].name else ""
  }

  /** What relocation section `n` applies to after linking. */
  lemma InfoLinked(secs: seq<Section>, o: Object, n: nat)
    requires TableOk(secs) && ObjectOk(o) && Targeted(secs, o) && PlaceAll(secs, o, |o.shdrs|).Some?
    requires n < |o.shdrs| && Stays(secs, o, n) && o.shdrs[n].typ == SHT_REL
    ensures var (r, tab) := PlaceAll(secs, o, |o.shdrs|).value; var f := FindSection(secs, o.shdrs[n].name, 1);
            && tab[n].Placed? && tab[n].sec < |r|
            && var info := LinkAll(r, tab, o, |o.shdrs|)[tab[n].sec].info;
            if f != 0 then tab[n].sec == f && info == secs[f].info && 1 <= info < |secs| else
            var t := o.shdrs[FirstNamed(o, n, 0)].info;
            t < |o.shdrs| && Stays(secs, o, t) && tab[t].Placed? && info == tab[t].sec
  {
    hide PlaceAll, LinkAll, AllHold, AllGrown, UniqueNames, AllOk;
    PlaceAllHolds(secs, o, |o.shdrs|);
    PlaceAllNames(secs, o, |o.shdrs|);
    var (r, tab) := PlaceAll(secs, o, |o.shdrs|).value;
    Home(secs, r, tab, o, n);
    HoldsName(r, tab, o, n);
    var f, j := FindSection(secs, o.shdrs[n].name, 1), tab[n].sec;
    if f != 0 {
      GrownAt(secs, r, f);
      LinkKeepsInfo(r, tab, o, |o.shdrs|, j);
    } else {
      var i := FirstNamed(o, n, 0);
      FirstStays(secs, o, n);
      HoldsName(r, tab, o, i);
      assert o.shdrs[i].typ == SHT_REL && Stays(secs, o, o.shdrs[i].info);
      HoldsName(r, tab, o, o.shdrs[i].info);
      assert Names(tab, o, i, j);
      LinkSetsInfo(r, tab, o, |o.shdrs|, i, j);
    }
  }

  lemma TargetLoads(o: Object, n: nat)
    requires ObjectOk(o) && n < |o.shdrs| && Loads(o, n) && o.shdrs[n].typ == SHT_REL
    ensures 1 <= o.shdrs[n].info < |o.shdrs| && Loads(o, o.shdrs[n].info)
  {
  }

  // ----- relocations -----

  function Renumbered(e: Rel, newIndex: seq<nat>, delta: nat): Rel
    requires e.sym < |newIndex|
  {
    Rel(e.offset + delta, newIndex[e.sym], e.typ)
  }

  lemma {:induction false} PatchedExactly(rels: seq<Rel>, q: nat, newIndex: seq<nat>, delta: nat, once: bool)
    requires q <= |rels| && Patched(rels, q, newIndex, delta, once).Some?
    ensures var r := Patched(rels, q, newIndex, delta, once).value;
            && r[..q] == rels[..q]
            && forall x :: q <= x < |rels| ==> rels[x].sym < |newIndex| && r[x] == Renumbered(rels[x], newIndex, delta)
    decreases |rels| - q
  {
    if q < |rels| {
      var e := rels[q];
      var rels' := rels[q := Rel(e.offset + delta, newIndex[e.sym], e.typ)];
      PatchedExactly(rels', q + 1, newIndex, delta, once);
      var r := Patched(rels, q, newIndex, delta, once).value;
      assert r[..q + 1] == rels'[..q + 1];
      assert r[..q] == r[..q + 1][..q] == rels'[..q];
      assert r[q] == r[..q + 1][q] == rels'[q];
      assert forall x :: q < x < |rels| ==> rels'[x] == rels[x];
    }
  }

  /** The sections but for their relocation entries. */
  lemma {:induction false} RelocBodies(secs: seq<Section>, tab: seq<Slot>, o: Object, newIndex: seq<nat>, once: bool, n: nat)
    requires n <= |o.shdrs| == |tab| && RelocAll(secs, tab, o, newIndex, once, n).Some?
    ensures forall k :: 0 <= k < |secs| ==>
              var s := RelocAll(secs, tab, o, newIndex, once, n).value[k];
              s == secs[k].(rels := s.rels) && |s.rels| == |secs[k].rels|
    decreases n
  {
    if n > 0 { RelocBodies(secs, tab, o, newIndex, once, n - 1); }
  }

  /** Entries below every pass over their section stay. */
  lemma {:induction false} KeptBelow(secs: seq<Section>, tab: seq<Slot>, o: Object, newIndex: seq<nat>, once: bool, n: nat, j: nat, q: nat)
    requires n <= |o.shdrs| == |tab| && RelocAll(secs, tab, o, newIndex, once, n).Some?
    requires j < |secs| && q <= |secs[j].rels|
    requires forall i :: 0 <= i < n && tab[i].Placed? && tab[i].sec == j ==> q <= tab[i].off / REL_SIZE
    ensures var now := RelocAll(secs, tab, o, newIndex, once, n).value[j].rels;
            q <= |now| && now[..q] == secs[j].rels[..q]
    decreases n
  {
    hide Patched;
    if n > 0 {
      KeptBelow(secs, tab, o, newIndex, once, n - 1, j, q);
      RelocBodies(secs, tab, o, newIndex, once, n - 1);
      var a := RelocAll(secs, tab, o, newIndex, once, n - 1).value;
      if tab[n - 1].Placed? && tab[n - 1].sec == j {
        var p := tab[n - 1].off / REL_SIZE;
        if p <= |a[j].rels| && a[j].typ == SHT_REL {
          PatchedExactly(a[j].rels, p, newIndex, DeltaOf(o, tab, n - 1), once);
          var r := Patched(a[j].rels, p, newIndex, DeltaOf(o, tab, n - 1), once).value;
          assert r[..q] == r[..p][..q] == a[j].rels[..p][..q] == a[j].rels[..q];
        }
      }
    }
  }

  /** The sections among the first `k` that are loaded under that name, in order. */
  function Alike(o: Object, name: string, k: nat): (r: seq<nat>)
    requires k <= |o.shdrs|
    ensures forall i :: 0 <= i < |r| ==> r[i] < k
  {
    if k == 0 then [] else
    Alike(o, name, k - 1) + if Loads(o, k - 1) && o.shdrs[k - 1].name == name then [k - 1] else []
  }

  /** An entry renumbered and moved for each of the sections `ms` in turn, if its symbol always
      is one of the object's. */
  function Passed(e: Rel, ms: seq<nat>, o: Object, tab: seq<Slot>, newIndex: seq<nat>): Option<Rel>
    requires |tab| == |o.shdrs| && forall i :: 0 <= i < |ms| ==> ms[i] < |o.shdrs|
    decreases |ms|
  {
    if ms == [] then Some(e) else
    var r := Passed(e, ms[..|ms| - 1], o, tab, newIndex);
    if r.None? || r.value.sym >= |newIndex| then None
    else Some(Renumbered(r.value, newIndex, DeltaOf(o, tab, ms[|ms| - 1])))
  }

  /** What the passes need to know of the sections and where the object's are. */
  ghost predicate Settled(secs: seq<Section>, linked: seq<Section>, tab: seq<Slot>, o: Object) {
    && |tab| == |o.shdrs| && ObjectOk(o)
    && UniqueNames(linked) && AllHold(linked, tab, o) && Disjoint(secs, tab, o)
    && forall i :: 0 <= i < |tab| ==> (tab[i].Placed? <==> Stays(secs, o, i))
  }

  /** The pass over a section reaches an entry of another exactly when that one is not later
      in the same place. */
  lemma Reaches(secs: seq<Section>, linked: seq<Section>, tab: seq<Slot>, o: Object, m: nat, n: nat, x: nat)
    requires Settled(secs, linked, tab, o)
    requires m < |o.shdrs| && tab[m].Placed? && n < |o.shdrs| && tab[n].Placed? && tab[m].sec == tab[n].sec
    requires o.shdrs[n].typ == SHT_REL && x < |o.shdrs[n].rels|
    ensures tab[m].off / REL_SIZE <= tab[n].off / REL_SIZE + x <==> m <= n
    ensures tab[m].off / REL_SIZE <= |linked[tab[m].sec].rels|
  {
    assert Holds(linked, tab[m], o.shdrs[m]) && Holds(linked, tab[n], o.shdrs[n]);
    assert InputOk(o.shdrs[n]);
  }

  lemma RelocStep(a: seq<Section>, tab: seq<Slot>, o: Object, newIndex: seq<nat>, once: bool, m: nat, j: nat, p: nat)
    requires m < |o.shdrs| == |tab| && RelocOne(a, tab, o, newIndex, once, m).Some? && j < |a| && p < |a[j].rels|
    requires tab[m].Placed? && tab[m].sec == j ==> a[j].typ == SHT_REL && tab[m].off / REL_SIZE <= |a[j].rels|
    ensures var now := RelocOne(a, tab, o, newIndex, once, m).value[j].rels;
            && |now| == |a[j].rels|
            && if tab[m].Placed? && tab[m].sec == j && tab[m].off / REL_SIZE <= p then
                 a[j].rels[p].sym < |newIndex| && now[p] == Renumbered(a[j].rels[p], newIndex, DeltaOf(o, tab, m))
               else now[p] == a[j].rels[p]
  {
    hide Patched;
    if tab[m].Placed? && tab[m].sec == j {
      var q := tab[m].off / REL_SIZE;
      PatchedExactly(a[j].rels, q, newIndex, DeltaOf(o, tab, m), once);
      var r := Patched(a[j].rels, q, newIndex, DeltaOf(o, tab, m), once).value;
      if p < q { assert r[p] == r[..q][p] == a[j].rels[..q][p]; }
    }
  }

  /** An entry of section `n` is passed over for every section of that name up to `n`. */
  lemma {:induction false} RelocPasses(secs: seq<Section>, linked: seq<Section>, tab: seq<Slot>, o: Object, newIndex: seq<nat>, once: bool, k: nat, n: nat, x: nat)
    requires |tab| == |o.shdrs| && Settled(secs, linked, tab, o) && k <= |o.shdrs| && RelocAll(linked, tab, o, newIndex, once, k).Some?
    requires n < |o.shdrs| && tab[n].Placed? && o.shdrs[n].typ == SHT_REL && x < |o.shdrs[n].rels|
    requires 0 < tab[n].sec < |linked| && tab[n].off / REL_SIZE + x < |linked[tab[n].sec].rels|
    ensures var j, p := tab[n].sec, tab[n].off / REL_SIZE + x;
            var now := RelocAll(linked, tab, o, newIndex, once, k).value[j].rels;
            && |now| == |linked[j].rels|
            && Some(now[p]) == Passed(linked[j].rels[p], Alike(o, o.shdrs[n].name, if k <= n then k else n + 1), o, tab, newIndex)
    decreases k
  {
    hide RelocOne, Loads, Stays, Settled, Passed, Alike, Renumbered, DeltaOf;
    var j, p := tab[n].sec, tab[n].off / REL_SIZE + x;
    var name := o.shdrs[n].name;
    if k == 0 {
      NotPassed(linked[j].rels[p], o, name, tab, newIndex);
    } else {
      var m := k - 1;
      RelocPasses(secs, linked, tab, o, newIndex, once, m, n, x);
      RelocBodies(linked, tab, o, newIndex, once, m);
      PassHere(secs, linked, tab, o, m, n, x);
      RelocStep(RelocAll(linked, tab, o, newIndex, once, m).value, tab, o, newIndex, once, m, j, p);
      if m <= n { PassedStep(linked[j].rels[p], o, name, m, tab, newIndex); }
    }
  }

  lemma NotPassed(e: Rel, o: Object, name: string, tab: seq<Slot>, newIndex: seq<nat>)
    requires |tab| == |o.shdrs|
    ensures Passed(e, Alike(o, name, 0), o, tab, newIndex) == Some(e)
  {
  }

  lemma PassedStep(e: Rel, o: Object, name: string, m: nat, tab: seq<Slot>, newIndex: seq<nat>)
    requires m < |o.shdrs| == |tab|
    ensures var before := Passed(e, Alike(o, name, m), o, tab, newIndex);
            Passed(e, Alike(o, name, m + 1), o, tab, newIndex) ==
            if !(Loads(o, m) && o.shdrs[m].name == name) then before
            else if before.None? || before.value.sym >= |newIndex| then None
            else Some(Renumbered(before.value, newIndex, DeltaOf(o, tab, m)))
  {
    var before := Alike(o, name, m);
    assert (before + [m])[..|before + [m]| - 1] == before && before + [] == before;
  }

  lemma PassHere(secs: seq<Section>, linked: seq<Section>, tab: seq<Slot>, o: Object, m: nat, n: nat, x: nat)
    requires Settled(secs, linked, tab, o)
    requires m < |o.shdrs| && n < |o.shdrs| && tab[n].Placed? && o.shdrs[n].typ == SHT_REL && x < |o.shdrs[n].rels|
    ensures m <= n ==> (tab[m].Placed? && tab[m].sec == tab[n].sec <==> Loads(o, m) && o.shdrs[m].name == o.shdrs[n].name)
    ensures 0 < tab[n].sec < |linked| && linked[tab[n].sec].typ == SHT_REL
    ensures tab[m].Placed? && tab[m].sec == tab[n].sec ==>
              && tab[m].off / REL_SIZE <= |linked[tab[n].sec].rels|
              && (tab[m].off / REL_SIZE <= tab[n].off / REL_SIZE + x <==> m <= n)
  {
    hide Holds, AllHold, UniqueNames, ObjectOk, Disjoint, Handled, Stays;
    HoldsName(linked, tab, o, n);
    if tab[m].Placed? {
      SameHome(linked, tab, o, n, m);
      if tab[m].sec == tab[n].sec { Reaches(secs, linked, tab, o, m, n, x); }
    }
    AllStay(secs, o, m, n);
    assert Stays(secs, o, m) ==> Loads(o, m) by { StaysLoads(secs, o, m); }
  }

  lemma StaysLoads(secs: seq<Section>, o: Object, n: nat)
    requires n < |o.shdrs|
    ensures Stays(secs, o, n) ==> Loads(o, n)
  {
  }

  /** With a section all earlier ones of its name stay. */
  lemma AllStay(secs: seq<Section>, o: Object, m: nat, n: nat)
    requires m < |o.shdrs| && n < |o.shdrs| && Stays(secs, o, n)
    ensures m <= n && Loads(o, m) && o.shdrs[m].name == o.shdrs[n].name ==> Stays(secs, o, m)
  {
    hide FindSection, Loads, LinkOnce;
  }

  /** The entries of a section are passed over once exactly if it is the first of its name. */
  lemma {:induction false} PassedOnce(o: Object, n: nat, k: nat)
    requires k <= n < |o.shdrs| && Loads(o, n)
    ensures Alike(o, o.shdrs[n].name, k) == [] <==> k <= FirstNamed(o, n, 0)
    decreases k
  {
    if k > 0 { PassedOnce(o, n, k - 1); }
  }

  function Deltas(o: Object, tab: seq<Slot>, ms: seq<nat>): nat
    requires |tab| == |o.shdrs| && forall i :: 0 <= i < |ms| ==> ms[i] < |o.shdrs|
  {
    if ms == [] then 0 else Deltas(o, tab, ms[..|ms| - 1]) + DeltaOf(o, tab, ms[|ms| - 1])
  }

  lemma {:induction false} PassedOffset(e: Rel, ms: seq<nat>, o: Object, tab: seq<Slot>, newIndex: seq<nat>)
    requires |tab| == |o.shdrs| && forall i :: 0 <= i < |ms| ==> ms[i] < |o.shdrs|
    ensures var r := Passed(e, ms, o, tab, newIndex);
            r.Some? ==> r.value.offset == e.offset + Deltas(o, tab, ms) && r.value.typ == e.typ
    decreases |ms|
  {
    if ms != [] { PassedOffset(e, ms[..|ms| - 1], o, tab, newIndex); }
  }

  /** After earlier passes `ms` that of section `n` itself leaves the right entry exactly if
      they did not move it and led to a symbol with the same new index. */
  lemma RightlyPassed(e: Rel, ms: seq<nat>, n: nat, o: Object, tab: seq<Slot>, newIndex: seq<nat>)
    requires |tab| == |o.shdrs| && (forall i :: 0 <= i < |ms| ==> ms[i] < |o.shdrs|) && n < |o.shdrs|
    requires Passed(e, ms + [n], o, tab, newIndex).Some? && e.sym < |newIndex|
    ensures var before := Passed(e, ms, o, tab, newIndex);
            && before.Some? && before.value.sym < |newIndex|
            && (Passed(e, ms + [n], o, tab, newIndex).value == Renumbered(e, newIndex, DeltaOf(o, tab, n)) <==>
                  Deltas(o, tab, ms) == 0 && newIndex[before.value.sym] == newIndex[e.sym])
  {
    assert (ms + [n])[..|ms + [n]| - 1] == ms;
    PassedOffset(e, ms, o, tab, newIndex);
  }

  // ----- symbols -----

  /** The entry that answers a request bears its name and is at least as defined. */
  predicate Answers(syms: seq<Sym>, i: nat, s: Sym) {
    0 < i < |syms| && syms[i].name == s.name && (Global(syms[i]) <==> Global(s)) && (Defined(s) ==> Defined(syms[i]))
  }

  lemma {:induction false} AddSymsAnswer(syms: seq<Sym>, o: Object, tab: seq<Slot>, n: nat, isDyn: bool)
    requires n <= |o.syms| && |syms| > 0 && !Global(syms[0])
    ensures var t := AddSyms(syms, o, tab, n, isDyn);
            && Extends(syms, t.syms) && (Unique(syms) ==> Unique(t.syms))
            && forall k :: 1 <= k < n && Moved(o, tab, k).Request? ==> Answers(t.syms, t.newIndex[k], Moved(o, tab, k).s)
    decreases n
  {
    hide Added, Newest, Extends, Unique, Moved;
    ExtendsItself(syms);
    if n > 1 {
      AddSymsAnswer(syms, o, tab, n - 1, isDyn);
      var t := AddSyms(syms, o, tab, n - 1, isDyn);
      var t' := AddSyms(syms, o, tab, n, isDyn);
      StillLocal(syms, t.syms);
      if Moved(o, tab, n - 1).Request? {
        AddedExtends(t.syms, Moved(o, tab, n - 1).s, isDyn);
      } else {
        ExtendsItself(t.syms);
      }
      ExtendsTrans(syms, t.syms, t'.syms);
      forall k | 1 <= k < n && Moved(o, tab, k).Request? ensures Answers(t'.syms, t'.newIndex[k], Moved(o, tab, k).s) {
        if k < n - 1 { AnswersStay(t.syms, t'.syms, t.newIndex[k], Moved(o, tab, k).s); }
      }
    }
  }

  predicate Meets(syms: seq<Sym>, i: nat, s: Sym) {
    i == 0 || (i < |syms| && Global(syms[i]) && syms[i].name == s.name)
  }

  /** What symbols that ask nothing of the table are numbered as. */
  lemma {:induction false} AddSymsMeet(syms: seq<Sym>, o: Object, tab: seq<Slot>, n: nat, isDyn: bool)
    requires n <= |o.syms| && |syms| > 0 && !Global(syms[0])
    ensures var t := AddSyms(syms, o, tab, n, isDyn);
            forall k :: 1 <= k < n && !Moved(o, tab, k).Request? ==>
              Meets(t.syms, t.newIndex[k], o.syms[k]) && (Moved(o, tab, k).Skip? ==> t.newIndex[k] == 0)
    decreases n
  {
    hide Added, Newest, Extends, Moved;
    if n > 1 {
      AddSymsMeet(syms, o, tab, n - 1, isDyn);
      AddSymsAnswer(syms, o, tab, n - 1, isDyn);
      var t := AddSyms(syms, o, tab, n - 1, isDyn);
      StillLocal(syms, t.syms);
      if Moved(o, tab, n - 1).Request? {
        AddedExtends(t.syms, Moved(o, tab, n - 1).s, isDyn);
      } else {
        ExtendsItself(t.syms);
      }
      var t' := AddSyms(syms, o, tab, n, isDyn);
      forall k | 1 <= k < n && !Moved(o, tab, k).Request? ensures Meets(t'.syms, t'.newIndex[k], o.syms[k]) {
        if k < n - 1 { MeetsStay(t.syms, t'.syms, t.newIndex[k], o.syms[k]); }
      }
    }
  }

  lemma MeetsStay(a: seq<Sym>, b: seq<Sym>, i: nat, s: Sym)
    requires Meets(a, i, s) && Extends(a, b)
    ensures Meets(b, i, s)
  {
  }

  lemma ExtendsItself(a: seq<Sym>)
    ensures Extends(a, a)
  {
  }

  lemma StillLocal(a: seq<Sym>, b: seq<Sym>)
    requires Extends(a, b) && |a| > 0 && !Global(a[0])
    ensures |b| > 0 && !Global(b[0])
  {
  }

  lemma ExtendsTrans(a: seq<Sym>, b: seq<Sym>, c: seq<Sym>)
    requires Extends(a, b) && Extends(b, c)
    ensures Extends(a, c)
  {
  }

  lemma AnswersStay(a: seq<Sym>, b: seq<Sym>, i: nat, s: Sym)
    requires Answers(a, i, s) && Extends(a, b)
    ensures Answers(b, i, s)
  {
  }

  // ----- the whole load -----

  /** A table, an object and the result of loading one into the other. */
  ghost predicate Session(secs: seq<Section>, syms: seq<Sym>, o: Object, isDyn: bool, l: Loaded) {
    && TableOk(secs) && ObjectOk(o) && Targeted(secs, o)
    && |syms| > 0 && !Global(syms[0])
    && Load(secs, syms, o, isDyn) == Some(l)
  }

  /** The sections after placing and after linking. */
  lemma Stages(secs: seq<Section>, syms: seq<Sym>, o: Object, isDyn: bool, l: Loaded) returns (placed: seq<Section>, linked: seq<Section>)
    requires Session(secs, syms, o, isDyn, l)
    ensures PlaceAll(secs, o, |o.shdrs|) == Some((placed, l.tab)) && |l.tab| == |o.shdrs|
    ensures linked == LinkAll(placed, l.tab, o, |o.shdrs|) && |linked| == |placed| == |l.secs|
    ensures forall j :: 0 <= j < |placed| ==> SameBody(placed[j], linked[j])
    ensures l.symbols == AddSyms(syms, o, l.tab, |o.syms|, isDyn)
    ensures RelocAll(linked, l.tab, o, l.symbols.newIndex, LastOnce(o, l.tab, |o.syms|), |o.shdrs|) == Some(l.secs)
    ensures AllOk(placed) && UniqueNames(placed) && AllGrown(secs, placed)
    ensures Slots(secs, placed, l.tab, o) && Settled(secs, placed, l.tab, o) && Settled(secs, linked, l.tab, o)
  {
    hide PlaceAll, LinkAll, RelocAll, AddSyms, LastOnce, AllHold, ObjectOk, Disjoint, Stays;
    var n := |o.shdrs|;
    placed := PlaceAll(secs, o, n).value.0;
    linked := LinkAll(placed, l.tab, o, n);
    PlaceAllHolds(secs, o, n);
    PlaceAllNames(secs, o, n);
    forall j | 0 <= j < |placed| ensures SameBody(placed[j], linked[j]) {
      LinkBodies(placed, l.tab, o, n, j);
    }
    BodiesHold(placed, linked, l.tab, o);
    BodiesNamed(placed, linked);
  }

  lemma BodiesNamed(a: seq<Section>, b: seq<Section>)
    requires |a| == |b| && UniqueNames(a) && forall j :: 0 <= j < |a| ==> SameBody(a[j], b[j])
    ensures UniqueNames(b)
  {
    forall i, j | 1 <= i < |b| && 1 <= j < |b| && b[i].name == b[j].name ensures i == j {
      assert SameBody(a[i], b[i]) && SameBody(a[j], b[j]);
    }
  }

  lemma BodiesHold(a: seq<Section>, b: seq<Section>, tab: seq<Slot>, o: Object)
    requires |a| == |b| && |tab| == |o.shdrs| && AllHold(a, tab, o)
    requires forall j :: 0 <= j < |a| ==> SameBody(a[j], b[j])
    ensures AllHold(b, tab, o)
  {
    forall i | 0 <= i < |tab| ensures Holds(b, tab[i], o.shdrs[i]) {
      assert Holds(a, tab[i], o.shdrs[i]);
    }
  }

  /** Loading keeps the table in order and everything it held, places the sections of the
      object at disjoint ranges after it, and leaves every byte as it was in the file. */
  lemma LoadPreserves(secs: seq<Section>, syms: seq<Sym>, o: Object, isDyn: bool, l: Loaded)
    requires Session(secs, syms, o, isDyn, l)
    ensures TableOk(l.secs) && AllGrown(secs, l.secs) && SameTargets(secs, l.secs) && |l.tab| == |o.shdrs|
    ensures Disjoint(secs, l.tab, o)
    ensures forall i :: 0 <= i < |o.shdrs| && l.tab[i].Placed? && o.shdrs[i].typ != SHT_REL ==> Holds(l.secs, l.tab[i], o.shdrs[i])
    ensures forall i :: 0 <= i < |o.shdrs| ==> (l.tab[i].Placed? <==> Stays(secs, o, i))
    ensures Extends(syms, l.symbols.syms)
  {
    hide PlaceAll, LinkAll, RelocAll, AddSyms, Load, Grown, AllOk, AllGrown, UniqueNames, RelTargets, SameTargets, Disjoint, ObjectOk, Extends, AllHold, Slots, Stays, Targeted;
    var placed, linked := Stages(secs, syms, o, isDyn, l);
    var once := LastOnce(o, l.tab, |o.syms|);
    RelocBodies(linked, l.tab, o, l.symbols.newIndex, once, |o.shdrs|);
    AddSymsAnswer(syms, o, l.tab, |o.syms|, isDyn);
    BytesHold(linked, l.secs, l.tab, o);
    EntriesKept(secs, o, l, placed, linked, once);
    TargetsStay(secs, syms, o, isDyn, l, placed, linked);
    TableStays(placed, linked, l.secs);
    TargetsSame(secs, o, l.tab, placed, linked, l.secs);
  }

  lemma TargetsSame(secs: seq<Section>, o: Object, tab: seq<Slot>, placed: seq<Section>, linked: seq<Section>, done: seq<Section>)
    requires |tab| == |o.shdrs| && |secs| <= |placed| == |linked| == |done|
    requires |secs| > 0 && UniqueNames(secs) && PlaceAll(secs, o, |o.shdrs|) == Some((placed, tab))
    requires linked == LinkAll(placed, tab, o, |o.shdrs|)
    requires forall k :: 0 <= k < |linked| ==> done[k] == linked[k].(rels := done[k].rels)
    ensures SameTargets(secs, done)
  {
    hide PlaceAll, LinkAll, UniqueNames, Stays;
    forall j | 0 <= j < |secs| ensures done[j].info == secs[j].info {
      OldInfo(secs, o, placed, tab, j);
    }
  }

  /** Sections hold their bytes whatever becomes of relocation entries. */
  lemma BytesHold(a: seq<Section>, b: seq<Section>, tab: seq<Slot>, o: Object)
    requires |a| == |b| && |tab| == |o.shdrs| && AllHold(a, tab, o)
    requires forall k :: 0 <= k < |a| ==> b[k] == a[k].(rels := b[k].rels) && |b[k].rels| == |a[k].rels|
    ensures forall i :: 0 <= i < |o.shdrs| && tab[i].Placed? && o.shdrs[i].typ != SHT_REL ==> Holds(b, tab[i], o.shdrs[i])
  {
    forall i | 0 <= i < |o.shdrs| && tab[i].Placed? && o.shdrs[i].typ != SHT_REL ensures Holds(b, tab[i], o.shdrs[i]) {
      assert Holds(a, tab[i], o.shdrs[i]);
    }
  }

  lemma TableStays(placed: seq<Section>, linked: seq<Section>, done: seq<Section>)
    requires |placed| == |linked| == |done| > 0 && AllOk(placed) && UniqueNames(placed) && RelTargets(linked)
    requires forall k :: 0 <= k < |placed| ==> SameBody(placed[k], linked[k])
    requires forall k :: 0 <= k < |linked| ==> done[k] == linked[k].(rels := done[k].rels) && |done[k].rels| == |linked[k].rels|
    ensures TableOk(done)
  {
    forall j | 0 <= j < |done| ensures SectionOk(done[j]) {
      assert SectionOk(placed[j]) && SameBody(placed[j], linked[j]);
    }
  }

  /** No pass touches an entry that was there before. */
  lemma EntriesKept(secs: seq<Section>, o: Object, l: Loaded, placed: seq<Section>, linked: seq<Section>, once: bool)
    requires AllOk(secs) && AllGrown(secs, placed) && |linked| == |placed| == |l.secs|
    requires Settled(secs, linked, l.tab, o)
    requires RelocAll(linked, l.tab, o, l.symbols.newIndex, once, |o.shdrs|) == Some(l.secs)
    requires forall k :: 0 <= k < |placed| ==> SameBody(placed[k], linked[k])
    requires forall k :: 0 <= k < |linked| ==> l.secs[k] == linked[k].(rels := l.secs[k].rels) && |l.secs[k].rels| == |linked[k].rels|
    ensures AllGrown(secs, l.secs)
  {
    hide RelocAll, UniqueNames, ObjectOk, AllHold, Stays;
    forall j | 0 <= j < |secs| ensures Grown(secs[j], l.secs[j]) {
      assert Grown(secs[j], placed[j]) && SameBody(placed[j], linked[j]) && SectionOk(secs[j]);
      var q := |secs[j].rels|;
      assert q == 0 || secs[j].size == REL_SIZE * q;
      KeptBelow(linked, l.tab, o, l.symbols.newIndex, once, |o.shdrs|, j, q);
      assert l.secs[j].rels[..q] == linked[j].rels[..q] == secs[j].rels;
    }
  }

  lemma TargetsStay(secs: seq<Section>, syms: seq<Sym>, o: Object, isDyn: bool, l: Loaded, placed: seq<Section>, linked: seq<Section>)
    requires Session(secs, syms, o, isDyn, l) && |l.tab| == |o.shdrs| && |linked| == |placed|
    requires PlaceAll(secs, o, |o.shdrs|) == Some((placed, l.tab)) && linked == LinkAll(placed, l.tab, o, |o.shdrs|)
    requires AllGrown(secs, placed) && Settled(secs, placed, l.tab, o) && Slots(secs, placed, l.tab, o)
    requires forall k :: 0 <= k < |placed| ==> SameBody(placed[k], linked[k])
    ensures RelTargets(linked)
  {
    hide PlaceAll, LinkAll, Load, AllHold, AllGrown, Slots, Targeted, Stays, ObjectOk, UniqueNames, AllOk, Disjoint;
    forall j | 1 <= j < |linked| && linked[j].typ == SHT_REL ensures 1 <= linked[j].info < |linked| {
      assert SameBody(placed[j], linked[j]);
      if j < |secs| {
        GrownAt(secs, placed, j);
        OldInfo(secs, o, placed, l.tab, j);
      } else {
        var i := MakerOf(secs, placed, l.tab, o, j);
        HoldsName(placed, l.tab, o, i);
        InfoLinked(secs, o, i);
        HomeInfo(secs, o, placed, l.tab, i);
      }
    }
  }

  /** Sections that were there before apply to what they applied to. */
  lemma OldInfo(secs: seq<Section>, o: Object, placed: seq<Section>, tab: seq<Slot>, j: nat)
    requires |secs| > 0 && UniqueNames(secs) && PlaceAll(secs, o, |o.shdrs|) == Some((placed, tab)) && |tab| == |o.shdrs|
    requires j < |secs| <= |placed|
    ensures LinkAll(placed, tab, o, |o.shdrs|)[j].info == secs[j].info
  {
    hide PlaceAll, LinkAll, UniqueNames, Stays;
    PlaceAllNames(secs, o, |o.shdrs|);
    LinkKeepsInfo(placed, tab, o, |o.shdrs|, j);
  }

  lemma HomeInfo(secs: seq<Section>, o: Object, placed: seq<Section>, tab: seq<Slot>, i: nat)
    requires |tab| == |o.shdrs| && AllHold(placed, tab, o) && AllGrown(secs, placed)
    ensures |secs| <= |placed| && forall k :: 0 <= k < |tab| && tab[k].Placed? ==> 0 < tab[k].sec < |placed|
  {
    forall k | 0 <= k < |tab| && tab[k].Placed? ensures 0 < tab[k].sec < |placed| {
      HoldsName(placed, tab, o, k);
    }
  }

  lemma MakerOf(secs: seq<Section>, r: seq<Section>, tab: seq<Slot>, o: Object, j: nat) returns (i: nat)
    requires |tab| == |o.shdrs| && Slots(secs, r, tab, o) && |secs| <= j < |r|
    ensures Makes(tab, i, j) && Stays(secs, o, i)
  {
    assert Made(tab, j);
    i :| Makes(tab, i, j);
  }

  /** Sections and symbols after loading some objects one after another, if all loads succeed
      and every new relocation section has its target. */
  function LoadEach(secs: seq<Section>, syms: seq<Sym>, os: seq<Object>, isDyn: bool): (r: Option<(seq<Section>, seq<Sym>)>)
    requires |secs| > 0
    ensures r.Some? ==> |r.value.0| > 0
    decreases |os|
  {
    if os == [] then Some((secs, syms)) else
    var before := LoadEach(secs, syms, os[..|os| - 1], isDyn);
    if before.None? then None else
    var l := Load(before.value.0, before.value.1, os[|os| - 1], isDyn);
    if l.None? || !Targeted(before.value.0, os[|os| - 1]) then None else Some((l.value.secs, l.value.symbols.syms))
  }

  /** Over a whole run the table stays in order, and no contents, entries or definitions of
      before are lost. */
  lemma {:induction false} RunPreserves(secs: seq<Section>, syms: seq<Sym>, os: seq<Object>, isDyn: bool)
    requires |secs| > 0 && TableOk(secs) && |syms| > 0 && !Global(syms[0])
    requires forall i :: 0 <= i < |os| ==> ObjectOk(os[i])
    requires LoadEach(secs, syms, os, isDyn).Some?
    ensures var (secs', syms') := LoadEach(secs, syms, os, isDyn).value;
            TableOk(secs') && AllGrown(secs, secs') && SameTargets(secs, secs') && Extends(syms, syms')
    decreases |os|
  {
    hide Load, TableOk, Grown, AllGrown, Extends, ObjectOk, Targeted;
    if os == [] {
      GrownItself(secs);
      ExtendsItself(syms);
    } else {
      var init, o := os[..|os| - 1], os[|os| - 1];
      RunPreserves(secs, syms, init, isDyn);
      var (a, b) := LoadEach(secs, syms, init, isDyn).value;
      StillLocal(syms, b);
      var l := Load(a, b, o, isDyn).value;
      LoadPreserves(a, b, o, isDyn, l);
      GrownTrans(secs, a, l.secs);
      ExtendsTrans(syms, b, l.symbols.syms);
    }
  }

  lemma GrownItself(secs: seq<Section>)
    ensures AllGrown(secs, secs) && SameTargets(secs, secs)
  {
  }

  /** A symbol whose definition is the one kept denotes the byte it denoted in the file. */
  lemma SymbolsDenote(secs: seq<Section>, syms: seq<Sym>, o: Object, isDyn: bool, l: Loaded, k: nat)
    requires Session(secs, syms, o, isDyn, l) && 1 <= k < |o.syms|
    requires var s := o.syms[k]; Defined(s) && s.shndx < SHN_LORESERVE && Stays(secs, o, s.shndx)
    ensures var s := o.syms[k]; var slot := l.tab[s.shndx]; var i := l.symbols.newIndex[k];
            && slot.Placed? && 0 < i < |l.symbols.syms|
            && var e := l.symbols.syms[i];
            && e.name == s.name && Defined(e)
            && (SameDefinition(e, s.(shndx := slot.sec, value := s.value + slot.off)) && 0 <= s.value < |o.shdrs[s.shndx].data| ==>
                  && e.shndx < |l.secs| && 0 <= e.value < |l.secs[e.shndx].data|
                  && l.secs[e.shndx].data[e.value] == o.shdrs[s.shndx].data[s.value])
  {
    hide PlaceAll, LinkAll, RelocAll, AddSyms, TableOk, Targeted;
    LoadPreserves(secs, syms, o, isDyn, l);
    AddSymsAnswer(syms, o, l.tab, |o.syms|, isDyn);
    var s := o.syms[k];
    var slot, input := l.tab[s.shndx], o.shdrs[s.shndx];
    var moved := s.(shndx := slot.sec, value := s.value + slot.off);
    assert Moved(o, l.tab, k) == Request(moved);
    var placed, linked := Stages(secs, syms, o, isDyn, l);
    assert Holds(placed, slot, input);
    var e := l.symbols.syms[l.symbols.newIndex[k]];
    assert Answers(l.symbols.syms, l.symbols.newIndex[k], moved);
    if 0 <= s.value < |input.data| {
      assert InputOk(input);
      assert Holds(l.secs, slot, input);
      assert l.secs[slot.sec].data[slot.off..slot.off + input.size][s.value] == input.data[s.value];
    }
  }

  /** A symbol of a section that is dropped becomes the one of its name that is there, or the
      null symbol. */
  lemma DroppedSymbol(secs: seq<Section>, syms: seq<Sym>, o: Object, isDyn: bool, l: Loaded, k: nat)
    requires Session(secs, syms, o, isDyn, l) && 1 <= k < |o.syms|
    requires var s := o.syms[k]; Defined(s) && s.shndx < SHN_LORESERVE && s.shndx < |o.shdrs| && Dropped(secs, o, s.shndx)
    ensures k < |l.symbols.newIndex|
    ensures var s, i := o.syms[k], l.symbols.newIndex[k];
            Meets(l.symbols.syms, i, s) && (!Global(s) ==> i == 0)
  {
    hide PlaceAll, LinkAll, RelocAll, AddSyms, TableOk, Targeted, Dropped, Stays;
    var placed, linked := Stages(secs, syms, o, isDyn, l);
    AddSymsMeet(syms, o, l.tab, |o.syms|, isDyn);
    assert l.tab[o.syms[k].shndx].Once?;
  }

  /** The name of every section the object loads is there, even if the section is dropped. */
  lemma ImageThere(secs: seq<Section>, o: Object, placed: seq<Section>, tab: seq<Slot>, t: nat)
    requires |secs| > 0 && PlaceAll(secs, o, |o.shdrs|) == Some((placed, tab)) && |tab| == |o.shdrs|
    requires UniqueNames(placed) && AllHold(placed, tab, o) && t < |o.shdrs| && Loads(o, t)
    ensures var i := FindSection(placed, o.shdrs[t].name, 1);
            0 < i < |placed| && placed[i].name == o.shdrs[t].name && (tab[t].Placed? ==> tab[t].sec == i)
  {
    hide PlaceAll, AllHold, UniqueNames;
    NamesThere(secs, o, |o.shdrs|, o.shdrs[t].name);
    if tab[t].Placed? {
      HoldsName(placed, tab, o, t);
      OneName(placed, tab[t].sec, FindSection(placed, o.shdrs[t].name, 1));
    }
  }

  /** Sections of the same names are found at the same places. */
  lemma {:induction false} FindSame(a: seq<Section>, b: seq<Section>, name: string, from: nat)
    requires |a| == |b| && 1 <= from && forall j :: 0 <= j < |a| ==> b[j].name == a[j].name
    ensures FindSection(a, name, from) == FindSection(b, name, from)
    decreases |a| - from
  {
    if from < |a| && a[from].name != name { FindSame(a, b, name, from + 1); }
  }

  /** The relocations of a section apply to the section of its target's name if and only if a
      section of its own name that decided before applies to one called as the target. */
  lemma TargetKept(secs: seq<Section>, syms: seq<Sym>, o: Object, isDyn: bool, l: Loaded, n: nat)
    requires Session(secs, syms, o, isDyn, l)
    requires n < |o.shdrs| && Stays(secs, o, n) && o.shdrs[n].typ == SHT_REL
    ensures var t := o.shdrs[n].info;
            && |l.tab| == |o.shdrs| && t < |o.shdrs| && l.tab[n].Placed? && l.tab[n].sec < |l.secs|
            && var image := FindSection(l.secs, o.shdrs[t].name, 1);
            && 0 < image < |l.secs| && (l.tab[t].Placed? ==> l.tab[t].sec == image)
            && (l.secs[l.tab[n].sec].info == image <==> HomeTarget(secs, o, n) == o.shdrs[t].name)
  {
    hide PlaceAll, LinkAll, RelocAll, AddSyms, Load, ObjectOk, AllOk, AllHold, AllGrown, Slots, Disjoint, Stays, Loads, Targeted, UniqueNames, RelTargets, FindSection;
    var placed, linked := Stages(secs, syms, o, isDyn, l);
    RelocBodies(linked, l.tab, o, l.symbols.newIndex, LastOnce(o, l.tab, |o.syms|), |o.shdrs|);
    StaysLoads(secs, o, n);
    InfoLinked(secs, o, n);
    TargetLoads(o, n);
    var t, f := o.shdrs[n].info, FindSection(secs, o.shdrs[n].name, 1);
    FindSame(placed, l.secs, o.shdrs[t].name, 1);
    ImageThere(secs, o, placed, l.tab, t);
    var image := FindSection(placed, o.shdrs[t].name, 1);
    if f != 0 {
      GrownAt(secs, placed, secs[f].info);
      if secs[secs[f].info].name == o.shdrs[t].name { OneName(placed, secs[f].info, image); }
    } else {
      var t' := o.shdrs[FirstNamed(o, n, 0)].info;
      HoldsName(placed, l.tab, o, t');
      if o.shdrs[t'].name == o.shdrs[t].name { OneName(placed, l.tab[t'].sec, image); }
    }
  }

  /** What becomes of a relocation: it is renumbered and moved for every section of its own
      section's name up to that, so just once if it is the first; and if the target is kept,
      it names the same site, byte for byte, and the image of its symbol. If the section it
      applies to is dropped, it is not moved, and names a site of the section kept instead. */
  lemma RelocationsName(secs: seq<Section>, syms: seq<Sym>, o: Object, isDyn: bool, l: Loaded, n: nat, x: nat)
    requires Session(secs, syms, o, isDyn, l)
    requires n < |o.shdrs| && Stays(secs, o, n) && o.shdrs[n].typ == SHT_REL && x < |o.shdrs[n].rels|
    ensures var e := o.shdrs[n].rels[x]; var t := o.shdrs[n].info;
            && |l.tab| == |o.shdrs| && l.tab[n].Placed? && t < |o.shdrs| && (l.tab[t].Placed? <==> Stays(secs, o, t))
            && var j, q, delta := l.tab[n].sec, l.tab[n].off / REL_SIZE + x, if l.tab[t].Placed? then l.tab[t].off else 0;
            && j < |l.secs| && q < |l.secs[j].rels|
            && Some(l.secs[j].rels[q]) == Passed(e, Alike(o, o.shdrs[n].name, n + 1), o, l.tab, l.symbols.newIndex)
            && (FirstNamed(o, n, 0) == n ==>
                  && e.sym < |l.symbols.newIndex|
                  && l.secs[j].rels[q] == Rel(e.offset + delta, l.symbols.newIndex[e.sym], e.typ))
            && (HomeTarget(secs, o, n) == o.shdrs[t].name ==> l.secs[j].info == FindSection(l.secs, o.shdrs[t].name, 1))
            && (l.tab[t].Placed? && 0 <= e.offset < |o.shdrs[t].data| ==>
                  && l.tab[t].sec == FindSection(l.secs, o.shdrs[t].name, 1) < |l.secs|
                  && e.offset + l.tab[t].off < |l.secs[l.tab[t].sec].data|
                  && l.secs[l.tab[t].sec].data[e.offset + l.tab[t].off] == o.shdrs[t].data[e.offset])
  {
    hide PlaceAll, LinkAll, RelocAll, AddSyms, Load, ObjectOk, AllOk, AllHold, AllGrown, Slots, Disjoint, Stays, Loads, Targeted, UniqueNames, RelTargets, HomeTarget, Alike, Passed, Holds, FirstNamed, FindSection;
    var placed, linked := Stages(secs, syms, o, isDyn, l);
    StaysLoads(secs, o, n);
    TargetKept(secs, syms, o, isDyn, l, n);
    TargetLoads(o, n);
    var e, t := o.shdrs[n].rels[x], o.shdrs[n].info;
    EntryPlaced(linked, l.tab, o, n, x);
    RelocPasses(secs, linked, l.tab, o, l.symbols.newIndex, LastOnce(o, l.tab, |o.syms|), |o.shdrs|, n, x);
    if FirstNamed(o, n, 0) == n { PassedFirst(e, o, n, l.tab, l.symbols.newIndex); }
    LoadPreserves(secs, syms, o, isDyn, l);
    if l.tab[t].Placed? && 0 <= e.offset < |o.shdrs[t].data| { ByteKept(l.secs, l.tab, o, t, e.offset); }
  }

  lemma PassedFirst(e: Rel, o: Object, n: nat, tab: seq<Slot>, newIndex: seq<nat>)
    requires n < |o.shdrs| == |tab| && Loads(o, n)
    requires Passed(e, Alike(o, o.shdrs[n].name, n + 1), o, tab, newIndex).Some? && FirstNamed(o, n, 0) == n
    ensures e.sym < |newIndex|
    ensures Passed(e, Alike(o, o.shdrs[n].name, n + 1), o, tab, newIndex).value == Renumbered(e, newIndex, DeltaOf(o, tab, n))
  {
    PassedOnce(o, n, n);
    PassedStep(e, o, o.shdrs[n].name, n, tab, newIndex);
  }

  lemma EntryPlaced(secs: seq<Section>, tab: seq<Slot>, o: Object, n: nat, x: nat)
    requires |tab| == |o.shdrs| && AllHold(secs, tab, o)
    requires n < |o.shdrs| && tab[n].Placed? && o.shdrs[n].typ == SHT_REL && x < |o.shdrs[n].rels|
    ensures var j, q := tab[n].sec, tab[n].off / REL_SIZE + x;
            0 < j < |secs| && q < |secs[j].rels| && secs[j].rels[q] == o.shdrs[n].rels[x]
  {
    assert Holds(secs, tab[n], o.shdrs[n]);
    var q := tab[n].off / REL_SIZE;
    assert secs[tab[n].sec].rels[q..q + |o.shdrs[n].rels|][x] == o.shdrs[n].rels[x];
  }

  lemma ByteKept(secs: seq<Section>, tab: seq<Slot>, o: Object, t: nat, at: int)
    requires |tab| == |o.shdrs| && t < |o.shdrs| && tab[t].Placed? && Loads(o, t) && ObjectOk(o)
    requires o.shdrs[t].typ != SHT_REL ==> Holds(secs, tab[t], o.shdrs[t])
    requires 0 <= at < |o.shdrs[t].data|
    ensures tab[t].sec < |secs| && at + tab[t].off < |secs[tab[t].sec].data|
    ensures secs[tab[t].sec].data[at + tab[t].off] == o.shdrs[t].data[at]
  {
    var slot, input := tab[t], o.shdrs[t];
    assert InputOk(input);
    assert secs[slot.sec].data[slot.off..slot.off + input.size][at] == input.data[at];
  }

  // ----- objects that load and come out wrong -----

  const NO_INPUT := Input("", 0, 0, 0, 0, [], [], 0, 0)
  const NO_SECTION := Section("", 0, 0, 0, 0, [], [], 0, 0, 0)

  function Bytes(name: string, size: nat): Input {
    Input(name, SHT_PROGBITS, 0, 1, size, seq(size, _ => 0), [], 0, 0)
  }

  function RelocsOf(name: string, info: nat): Input {
    Input(name, SHT_REL, 0, 4, REL_SIZE, [], [Rel(0, 1, 1)], 0, info)
  }

  function BytesOf(name: string, size: nat): Section {
    Section(name, SHT_PROGBITS, 0, 1, size, seq(size, _ => 0), [], 0, 0, 0)
  }

  const X := Sym("x", 0, 4, STB_GLOBAL, 1, 0, 0, 1)

  lemma NamesDiffer()
    ensures ".text" != ".data" && ".text" != ".rel.text" && ".data" != ".rel.text" && "" != ".text" && "" != ".data"
    ensures !LinkOnce(".text") && !LinkOnce(".data") && !LinkOnce(".rel.text") && !LinkOnce("")
  {
    assert ".text"[1] == 't' && ".data"[1] == 'd' && ".rel.text"[1] == 'r' && LINKONCE[1] == 'g';
  }

  const REL_TEXT := Section(".rel.text", SHT_REL, 0, 4, 0, [], [], 0, 1, 0)
  const MISNAMED := Object([NO_INPUT, Bytes(".data", 4), RelocsOf(".rel.text", 1)], 0, [NULL_SYM, X])
  const THREE := [NO_SECTION, BytesOf(".text", 4), BytesOf(".data", 0), REL_TEXT]

  lemma MisnamedOk()
    ensures TableOk(THREE) && ObjectOk(MISNAMED) && SymtabCount(MISNAMED, 3) == 0
  {
    hide LinkOnce;
    NamesDiffer();
    assert PowerOf2(4 / 2);
    assert SymtabCount(MISNAMED, 2) == 0;
  }

  lemma PlaceAllStep(secs: seq<Section>, o: Object, n: nat, a: seq<Section>, tab: seq<Slot>)
    requires n < |o.shdrs| && |secs| > 0 && |a| > 0
    requires if n == 0 then a == secs && tab == [] else PlaceAll(secs, o, n) == Some((a, tab))
    ensures PlaceAll(secs, o, n + 1) ==
            if Place(a, o, n).None? then None else Some((Place(a, o, n).value.0, tab + [Place(a, o, n).value.1]))
  {
    hide Place;
  }

  const MERGED := [NO_SECTION, BytesOf(".text", 4), BytesOf(".data", 4), REL_TEXT.(size := 8, rels := [Rel(0, 1, 1)])]
  const MERGED_TAB := [Absent, Placed(2, 0, false), Placed(3, 0, false)]

  lemma MisnamedPlaced()
    ensures PlaceAll(THREE, MISNAMED, 3) == Some((MERGED, MERGED_TAB))
  {
    hide LinkOnce, FindSection;
    NamesDiffer();
    var mid := THREE[2 := BytesOf(".data", 4)];
    assert Place(THREE, MISNAMED, 0) == Some((THREE, Absent)) && [] + [Absent] == [Absent];
    PlaceAllStep(THREE, MISNAMED, 0, THREE, []);
    assert THREE[1].name == ".text" && THREE[2].name == ".data" && THREE[3].name == ".rel.text";
    assert FindSection(THREE, ".data", 1) == 2;
    assert Append(THREE[2], MISNAMED.shdrs[1]) == BytesOf(".data", 4) by {
      assert THREE[2].data + seq(0, _ => 0) + MISNAMED.shdrs[1].data == BytesOf(".data", 4).data;
    }
    assert Place(THREE, MISNAMED, 1) == Some((mid, Placed(2, 0, false)));
    PlaceAllStep(THREE, MISNAMED, 1, THREE, [Absent]);
    assert [Absent] + [Placed(2, 0, false)] == [Absent, Placed(2, 0, false)];
    MisnamedLast();
    PlaceAllStep(THREE, MISNAMED, 2, mid, [Absent, Placed(2, 0, false)]);
    assert [Absent, Placed(2, 0, false)] + [Placed(3, 0, false)] == MERGED_TAB;
  }

  lemma MisnamedLast()
    ensures Place(THREE[2 := BytesOf(".data", 4)], MISNAMED, 2) == Some((MERGED, Placed(3, 0, false)))
  {
    hide LinkOnce, FindSection;
    NamesDiffer();
    var mid := THREE[2 := BytesOf(".data", 4)];
    assert mid[1].name == ".text" && mid[2].name == ".data" && mid[3].name == ".rel.text";
    assert FindSection(mid, ".rel.text", 1) == 3;
    assert Append(mid[3], MISNAMED.shdrs[2]) == REL_TEXT.(size := 8, rels := [Rel(0, 1, 1)]);
    assert mid[3 := REL_TEXT.(size := 8, rels := [Rel(0, 1, 1)])] == MERGED;
  }

  lemma MisnamedPatched()
    ensures LinkAll(MERGED, MERGED_TAB, MISNAMED, 3) == MERGED
    ensures RelocAll(MERGED, MERGED_TAB, MISNAMED, [0, 1], false, 3) == Some(MERGED)
  {
    var rels := [Rel(0, 1, 1)];
    assert LinkAll(MERGED, MERGED_TAB, MISNAMED, 1) == MERGED;
    assert RelocAll(MERGED, MERGED_TAB, MISNAMED, [0, 1], false, 1) == Some(MERGED);
    assert RelocAll(MERGED, MERGED_TAB, MISNAMED, [0, 1], false, 2) == Some(MERGED);
    assert rels[0 := Rel(0, 1, 1)] == rels;
    assert Patched(rels, 1, [0, 1], 0, false) == Some(rels);
    assert Patched(rels, 0, [0, 1], 0, false) == Some(rels);
    assert MERGED[3 := MERGED[3].(rels := rels)] == MERGED;
  }

  lemma OneSymbol(o: Object, tab: seq<Slot>, sec: nat, off: nat, isNew: bool)
    requires o.syms == [NULL_SYM, X] && |tab| > 1 && tab[1] == Placed(sec, off, isNew)
    ensures AddSyms([NULL_SYM], o, tab, 2, false) == Symbols([NULL_SYM, X.(shndx := sec, value := off)], [0, 1], 0)
    ensures !LastOnce(o, tab, 2)
  {
    assert AddSyms([NULL_SYM], o, tab, 1, false) == Symbols([NULL_SYM], [0], 0);
    assert Newest([NULL_SYM], 1, "x") == 0;
  }

  /** An object whose relocations of its .data are in a section called .rel.text: they are
      added to those of .text. */
  lemma WrongTarget()
    ensures TableOk(THREE) && ObjectOk(MISNAMED) && MISNAMED.shdrs[2].info == 1
    ensures Load(THREE, [NULL_SYM], MISNAMED, false).Some?
    ensures var l := Load(THREE, [NULL_SYM], MISNAMED, false).value;
            l.tab[1].Placed? && l.tab[1].sec == 2 && l.tab[2].Placed? && l.tab[2].sec == 3 && l.secs[3].info == 1
  {
    hide PlaceAll, LinkAll, AddSyms, LastOnce, RelocAll;
    MisnamedOk();
    MisnamedPlaced();
    MisnamedPatched();
    OneSymbol(MISNAMED, MERGED_TAB, 2, 0, false);
  }

  const TWO := [NO_SECTION, BytesOf(".text", 4)]
  const TWICE := Object([NO_INPUT, Bytes(".text", 4), RelocsOf(".rel.text", 1), RelocsOf(".rel.text", 1)], 0, [NULL_SYM, X])
  const REL_NEW := Section(".rel.text", SHT_REL, 0, 4, 16, [], [Rel(0, 1, 1), Rel(0, 1, 1)], 0, 0, 0)
  const GROWN := [NO_SECTION, BytesOf(".text", 8), REL_NEW]
  const TWICE_TAB := [Absent, Placed(1, 4, false), Placed(2, 0, true), Placed(2, 8, false)]

  lemma TwiceOk()
    ensures TableOk(TWO) && ObjectOk(TWICE) && SymtabCount(TWICE, 4) == 0
  {
    hide LinkOnce;
    NamesDiffer();
    assert PowerOf2(4 / 2);
    assert SymtabCount(TWICE, 2) == SymtabCount(TWICE, 3) == 0;
  }

  lemma TwicePlaced()
    ensures PlaceAll(TWO, TWICE, 4) == Some((GROWN, TWICE_TAB))
  {
    hide LinkOnce, FindSection, Place;
    var mid := TWO[1 := BytesOf(".text", 8)];
    var one := mid + [REL_NEW.(size := 8, rels := [Rel(0, 1, 1)])];
    TwiceText();
    assert [] + [Absent] == [Absent];
    PlaceAllStep(TWO, TWICE, 0, TWO, []);
    PlaceAllStep(TWO, TWICE, 1, TWO, [Absent]);
    TwiceFirst();
    assert [Absent] + [Placed(1, 4, false)] == [Absent, Placed(1, 4, false)];
    PlaceAllStep(TWO, TWICE, 2, mid, [Absent, Placed(1, 4, false)]);
    TwiceSecond();
    assert [Absent, Placed(1, 4, false)] + [Placed(2, 0, true)] == [Absent, Placed(1, 4, false), Placed(2, 0, true)];
    PlaceAllStep(TWO, TWICE, 3, one, [Absent, Placed(1, 4, false), Placed(2, 0, true)]);
    assert [Absent, Placed(1, 4, false), Placed(2, 0, true)] + [Placed(2, 8, false)] == TWICE_TAB;
  }

  lemma TwiceText()
    ensures Place(TWO, TWICE, 0) == Some((TWO, Absent))
    ensures Place(TWO, TWICE, 1) == Some((TWO[1 := BytesOf(".text", 8)], Placed(1, 4, false)))
  {
    hide LinkOnce, FindSection;
    NamesDiffer();
    assert TWO[1].name == ".text";
    assert FindSection(TWO, ".text", 1) == 1;
    assert TWO[1].data + seq(0, _ => 0) + TWICE.shdrs[1].data == BytesOf(".text", 8).data;
    assert Append(TWO[1], TWICE.shdrs[1]) == BytesOf(".text", 8);
  }

  lemma TwiceFirst()
    ensures var mid := TWO[1 := BytesOf(".text", 8)];
            Place(mid, TWICE, 2) == Some((mid + [REL_NEW.(size := 8, rels := [Rel(0, 1, 1)])], Placed(2, 0, true)))
  {
    hide LinkOnce, FindSection;
    NamesDiffer();
    var mid := TWO[1 := BytesOf(".text", 8)];
    assert mid[1].name == ".text";
    assert FindSection(mid, ".rel.text", 1) == 0;
    var s := REL_NEW.(size := 8, rels := [Rel(0, 1, 1)]);
    assert Append(NewSection(TWICE.shdrs[2]), TWICE.shdrs[2]) == s;
    assert (mid + [NewSection(TWICE.shdrs[2])])[2 := s] == mid + [s];
  }

  lemma TwiceSecond()
    ensures var one := TWO[1 := BytesOf(".text", 8)] + [REL_NEW.(size := 8, rels := [Rel(0, 1, 1)])];
            Place(one, TWICE, 3) == Some((GROWN, Placed(2, 8, false)))
  {
    hide LinkOnce, FindSection;
    NamesDiffer();
    var one := TWO[1 := BytesOf(".text", 8)] + [REL_NEW.(size := 8, rels := [Rel(0, 1, 1)])];
    assert one[1].name == ".text" && one[2].name == ".rel.text";
    assert FindSection(one, ".rel.text", 1) == 2;
    assert Append(one[2], TWICE.shdrs[3]) == REL_NEW;
    assert one[2 := REL_NEW] == GROWN;
  }

  lemma TwicePatched()
    ensures var linked := GROWN[2 := REL_NEW.(info := 1)][1 := GROWN[1].(reloc := 2)];
            && LinkAll(GROWN, TWICE_TAB, TWICE, 4) == linked
            && RelocAll(linked, TWICE_TAB, TWICE, [0, 1], false, 4) ==
               Some(linked[2 := REL_NEW.(info := 1, rels := [Rel(4, 1, 1), Rel(8, 1, 1)])])
  {
    var linked := GROWN[2 := REL_NEW.(info := 1)][1 := GROWN[1].(reloc := 2)];
    assert LinkAll(GROWN, TWICE_TAB, TWICE, 1) == GROWN;
    assert LinkAll(GROWN, TWICE_TAB, TWICE, 2) == GROWN;
    assert LinkOne(GROWN, TWICE_TAB, TWICE, 2) == linked;
    assert LinkAll(GROWN, TWICE_TAB, TWICE, 3) == linked;
    var r0, r1, r2 := [Rel(0, 1, 1), Rel(0, 1, 1)], [Rel(4, 1, 1), Rel(4, 1, 1)], [Rel(4, 1, 1), Rel(8, 1, 1)];
    var a := linked[2 := linked[2].(rels := r1)];
    assert RelocAll(linked, TWICE_TAB, TWICE, [0, 1], false, 1) == Some(linked);
    assert RelocAll(linked, TWICE_TAB, TWICE, [0, 1], false, 2) == Some(linked);
    assert Patched(r1, 2, [0, 1], 4, false) == Some(r1);
    assert r0[0 := Rel(4, 1, 1)][1 := Rel(4, 1, 1)] == r1;
    assert Patched(r0[0 := Rel(4, 1, 1)], 1, [0, 1], 4, false) == Some(r1);
    assert Patched(r0, 0, [0, 1], 4, false) == Some(r1);
    assert RelocAll(linked, TWICE_TAB, TWICE, [0, 1], false, 3) == Some(a);
    assert r1[1 := Rel(8, 1, 1)] == r2;
    assert Patched(r2, 2, [0, 1], 4, false) == Some(r2);
    assert Patched(r1, 1, [0, 1], 4, false) == Some(r2);
    assert a[2 := a[2].(rels := r2)] == linked[2 := REL_NEW.(info := 1, rels := r2)];
  }

  /** An object with two sections of relocations of its .text that bear one name, loaded after
      four bytes of .text: both entries are for the word that is at 4 now, and the second
      names 8. */
  lemma MovedTwice()
    ensures TableOk(TWO) && ObjectOk(TWICE) && TWICE.shdrs[3].rels == [Rel(0, 1, 1)]
    ensures Load(TWO, [NULL_SYM], TWICE, false).Some?
    ensures var l := Load(TWO, [NULL_SYM], TWICE, false).value;
            && l.tab == TWICE_TAB && |l.secs| == 3
            && l.secs[2].rels == [Rel(4, 1, 1), Rel(8, 1, 1)]
  {
    hide PlaceAll, LinkAll, AddSyms, LastOnce, RelocAll;
    TwiceOk();
    TwicePlaced();
    TwicePatched();
    OneSymbol(TWICE, TWICE_TAB, 1, 4, false);
  }

  const ONCE := LINKONCE + ".t.f"
  const REL_ONCE := ".rel" + ONCE
  const SAME := Object([NO_INPUT, Bytes(ONCE, 4), RelocsOf(REL_ONCE, 1)], 0, [NULL_SYM, X])
  const REL_KEPT := Section(REL_ONCE, SHT_REL, 0, 4, 8, [], [Rel(0, 1, 1)], 0, 1, 0)
  const KEPT := [NO_SECTION, BytesOf(ONCE, 4), REL_KEPT]
  const AGAIN := REL_KEPT.(size := 16, rels := [Rel(0, 1, 1), Rel(0, 1, 1)])
  const SAME_TAB := [Absent, Once, Placed(2, 8, false)]

  lemma OnceNames()
    ensures LinkOnce(ONCE) && !LinkOnce(REL_ONCE) && ONCE != REL_ONCE && !LinkOnce("") && ONCE != "" && REL_ONCE != ""
  {
    assert ONCE[1] == 'g' && REL_ONCE[1] == 'r' && LINKONCE[1] == 'g';
  }

  lemma SameOk()
    ensures TableOk(KEPT) && ObjectOk(SAME) && Targeted(KEPT, SAME) && SymtabCount(SAME, 3) == 0
  {
    hide LinkOnce;
    OnceNames();
    assert PowerOf2(4 / 2);
    assert SymtabCount(SAME, 2) == 0;
    assert KEPT[1].name == ONCE && KEPT[2].name == REL_ONCE;
    assert FindSection(KEPT, REL_ONCE, 1) == 2;
  }

  lemma SamePlaced()
    ensures PlaceAll(KEPT, SAME, 3) == Some((KEPT[2 := AGAIN], SAME_TAB))
  {
    hide LinkOnce, FindSection;
    OnceNames();
    assert KEPT[1].name == ONCE && KEPT[2].name == REL_ONCE;
    assert Place(KEPT, SAME, 0) == Some((KEPT, Absent)) && [] + [Absent] == [Absent];
    PlaceAllStep(KEPT, SAME, 0, KEPT, []);
    assert FindSection(KEPT, ONCE, 1) == 1;
    assert Place(KEPT, SAME, 1) == Some((KEPT, Once)) && [Absent] + [Once] == [Absent, Once];
    PlaceAllStep(KEPT, SAME, 1, KEPT, [Absent]);
    assert FindSection(KEPT, REL_ONCE, 1) == 2;
    assert Append(KEPT[2], SAME.shdrs[2]) == AGAIN;
    PlaceAllStep(KEPT, SAME, 2, KEPT, [Absent, Once]);
    assert [Absent, Once] + [Placed(2, 8, false)] == SAME_TAB;
  }

  lemma SamePatched()
    ensures LinkAll(KEPT[2 := AGAIN], SAME_TAB, SAME, 3) == KEPT[2 := AGAIN]
    ensures RelocAll(KEPT[2 := AGAIN], SAME_TAB, SAME, [0, 1], true, 3) == Some(KEPT[2 := AGAIN])
  {
    var secs, rels := KEPT[2 := AGAIN], AGAIN.rels;
    assert LinkAll(secs, SAME_TAB, SAME, 1) == secs;
    assert RelocAll(secs, SAME_TAB, SAME, [0, 1], true, 1) == Some(secs);
    assert RelocAll(secs, SAME_TAB, SAME, [0, 1], true, 2) == Some(secs);
    assert rels[1 := Rel(0, 1, 1)] == rels;
    assert Patched(rels, 2, [0, 1], 0, true) == Some(rels);
    assert Patched(rels, 1, [0, 1], 0, true) == Some(rels);
    assert secs[2 := secs[2].(rels := rels)] == secs;
  }

  lemma SameSymbol()
    ensures AddSyms([NULL_SYM, X], SAME, SAME_TAB, 2, false) == Symbols([NULL_SYM, X], [0, 1], 0)
    ensures LastOnce(SAME, SAME_TAB, 2)
  {
    assert AddSyms([NULL_SYM, X], SAME, SAME_TAB, 1, false) == Symbols([NULL_SYM, X], [0], 0);
    assert Newest([NULL_SYM, X], 2, "x") == 1;
  }

  /** An object with a link-once section that is there already: the section is dropped, but its
      relocation comes to stand beside that of the section kept, for the same word. */
  lemma KeptTwice()
    ensures TableOk(KEPT) && ObjectOk(SAME) && Targeted(KEPT, SAME) && KEPT[2].rels == [Rel(0, 1, 1)]
    ensures Load(KEPT, [NULL_SYM, X], SAME, false).Some?
    ensures var l := Load(KEPT, [NULL_SYM, X], SAME, false).value;
            && l.tab == SAME_TAB && l.secs == KEPT[2 := AGAIN] && AGAIN.info == 1
  {
    hide PlaceAll, LinkAll, AddSyms, LastOnce, RelocAll;
    SameOk();
    SamePlaced();
    SamePatched();
    SameSymbol();
  }
}
