/** Loading relocatable objects into the linker's sections and symbol table, one at a time
    or from an archive on demand. File contents are given as already decoded headers. */
module Linker {
  import opened Wrappers
  import opened Arith
  import opened ElfSymbols

  const SHT_PROGBITS := 1
  const SHT_SYMTAB := 2
  const SHT_STRTAB := 3
  const SHT_NOBITS := 8
  const SHT_REL := 9
  const SHT_INIT_ARRAY := 14
  const SHT_FINI_ARRAY := 15
  const SHT_PREINIT_ARRAY := 16

  const REL_SIZE := 8

  datatype Rel = Rel(offset: int, sym: nat, typ: nat)

  /** A section header of an object with its contents: bytes, or entries if it holds relocations. */
  datatype Input = Input(name: string, typ: nat, flags: nat, align: nat, size: nat,
                         data: seq<int>, rels: seq<Rel>, link: nat, info: nat)

  /** A section being linked; `size` is how far it is filled. */
  datatype Section = Section(name: string, typ: nat, flags: nat, align: nat, size: nat,
                             data: seq<int>, rels: seq<Rel>, link: nat, info: nat, reloc: nat)

  datatype Object = Object(shdrs: seq<Input>, shstrndx: nat, syms: seq<Sym>)

  /** The section that stands for the symbol table. Its contents are kept in a `SymTab`. */
  const SYMTAB := 4

  /** What became of a section of the object. */
  datatype Slot = Absent | Once | Table | Placed(sec: nat, off: nat, isNew: bool)

  /** The section that a section of the object has become part of, 0 if none. */
  function SectionOf(slot: Slot): nat {
    match slot
    case Placed(sec, _, _) => sec
    case Table => SYMTAB
    case _ => 0
  }

  predicate Handled(i: Input) {
    i.typ == SHT_PROGBITS || i.typ == SHT_REL || i.typ == SHT_NOBITS
    || i.typ == SHT_PREINIT_ARRAY || i.typ == SHT_INIT_ARRAY || i.typ == SHT_FINI_ARRAY
  }

  const LINKONCE := ".gnu.linkonce"

  predicate LinkOnce(name: string) { LINKONCE <= name }

  function Least1(n: nat): nat { if n < 1 then 1 else n }

  predicate Full(typ: nat, size: nat, data: seq<int>, rels: seq<Rel>) {
    if typ == SHT_NOBITS then data == [] && rels == []
    else if typ == SHT_REL then data == [] && size == REL_SIZE * |rels|
    else |data| == size && rels == []
  }

  predicate SectionOk(s: Section) { Full(s.typ, s.size, s.data, s.rels) }
  predicate InputOk(i: Input) { Full(i.typ, i.size, i.data, i.rels) }

  /** The sections of an object as a well-formed file has them. */
  ghost predicate ObjectOk(o: Object) {
    && |o.shdrs| > 0
    && (forall i :: 0 <= i < |o.shdrs| && Handled(o.shdrs[i]) ==>
          InputOk(o.shdrs[i]) && PowerOf2(Least1(o.shdrs[i].align)))
    && (forall k :: 0 <= k < |o.syms| && Defined(o.syms[k]) && o.syms[k].shndx < SHN_LORESERVE ==> o.syms[k].shndx < |o.shdrs|)
    && (forall i :: 1 <= i < |o.shdrs| && o.shdrs[i].typ == SHT_REL && i != o.shstrndx ==>
          1 <= o.shdrs[i].info < |o.shdrs| && o.shdrs[i].info != o.shstrndx && Handled(o.shdrs[o.shdrs[i].info]))
    && (forall i :: 1 <= i < |o.shdrs| ==> o.shdrs[i].link < |o.shdrs|)
  }

  // ----- placing sections -----

  /** The first section of that name, 0 if there is none. */
  function FindSection(secs: seq<Section>, name: string, from: nat): (j: nat)
    requires 1 <= from
    ensures j == 0 || (from <= j < |secs| && secs[j].name == name)
    ensures j == 0 ==> forall k :: from <= k < |secs| ==> secs[k].name != name
    ensures j > 0 ==> forall k :: from <= k < j ==> secs[k].name != name
    decreases |secs| - from
  {
    if from >= |secs| then 0 else if secs[from].name == name then from else FindSection(secs, name, from + 1)
  }

  function NewSection(i: Input): Section {
    Section(i.name, i.typ, i.flags, Least1(i.align), 0, [], [], 0, 0, 0)
  }

  function OffsetIn(s: Section, i: Input): nat { AlignUp(s.size, Least1(i.align)) }

  /** `s` with the contents of `i` after its own, at the next aligned offset. */
  function Append(s: Section, i: Input): Section {
    var off := OffsetIn(s, i);
    var gap := off - s.size;
    s.(align := if Least1(i.align) > s.align then Least1(i.align) else s.align,
       size := off + i.size,
       data := if i.typ == SHT_NOBITS || i.typ == SHT_REL then s.data else s.data + seq(gap, _ => 0) + i.data,
       rels := if i.typ == SHT_REL then s.rels + seq(gap / REL_SIZE, _ => Rel(0, 0, 0)) + i.rels else s.rels)
  }

  function Ensured(secs: seq<Section>, i: Input): seq<Section> {
    if FindSection(secs, i.name, 1) == 0 then secs + [NewSection(i)] else secs
  }

  function Target(secs: seq<Section>, i: Input): nat {
    var j := FindSection(secs, i.name, 1);
    if j == 0 then |secs| else j
  }

  /** Section `n` of the object merged into `secs`; `None` is "invalid section type". */
  function Place(secs: seq<Section>, o: Object, n: nat): Option<(seq<Section>, Slot)>
    requires n < |o.shdrs| && |secs| > 0
  {
    var i := o.shdrs[n];
    if n != 0 && i.typ == SHT_SYMTAB then Some((secs, Table))
    else if n == 0 || n == o.shstrndx || !Handled(i) then Some((secs, Absent))
    else if FindSection(secs, i.name, 1) != 0 && LinkOnce(i.name) then Some((secs, Once))
    else
      var j := Target(secs, i);
      var secs1 := Ensured(secs, i);
      if secs1[j].typ != i.typ then None
      else Some((secs1[j := Append(secs1[j], i)], Placed(j, OffsetIn(secs1[j], i), FindSection(secs, i.name, 1) == 0)))
  }

  /** The first `n` sections of the object merged. */
  function PlaceAll(secs: seq<Section>, o: Object, n: nat): (r: Option<(seq<Section>, seq<Slot>)>)
    requires n <= |o.shdrs| && |secs| > 0
    ensures r.Some? ==> |r.value.0| >= |secs| && |r.value.1| == n
  {
    if n == 0 then Some((secs, [])) else
    var r := PlaceAll(secs, o, n - 1);
    if r.None? then None else
    var p := Place(r.value.0, o, n - 1);
    if p.None? then None else Some((p.value.0, r.value.1 + [p.value.1]))
  }

  // ----- links -----

  /** The second pass over the sections that are new. */
  function LinkOne(secs: seq<Section>, tab: seq<Slot>, o: Object, n: nat): (r: seq<Section>)
    requires n < |o.shdrs| == |tab|
    ensures |r| == |secs|
  {
    var i := o.shdrs[n];
    if tab[n].Placed? && tab[n].isNew && tab[n].sec < |secs| then
      var j := tab[n].sec;
      var s1 := if 0 < i.link < |tab| then secs[j := secs[j].(link := SectionOf(tab[i.link]))] else secs;
      if i.typ == SHT_REL && i.info < |tab| && tab[i.info].Placed? && tab[i.info].sec < |s1| then
        var t := tab[i.info].sec;
        var s2 := s1[j := s1[j].(info := t)];
        s2[t := s2[t].(reloc := j)]
      else s1
    else secs
  }

  function LinkAll(secs: seq<Section>, tab: seq<Slot>, o: Object, n: nat): (r: seq<Section>)
    requires n <= |o.shdrs| == |tab|
    ensures |r| == |secs|
  {
    if n == 0 then secs else LinkOne(LinkAll(secs, tab, o, n - 1), tab, o, n - 1)
  }

  // ----- symbols -----

  datatype Fate = Skip | Lookup | Request(s: Sym)

  /** What is asked of the table for symbol `k`. */
  function Moved(o: Object, tab: seq<Slot>, k: nat): Fate
    requires k < |o.syms|
  {
    var s := o.syms[k];
    if Defined(s) && s.shndx < SHN_LORESERVE && s.shndx < |tab| then
      match tab[s.shndx]
      case Once => if Global(s) then Lookup else Skip
      case Absent => Skip
      case Table => Request(s.(shndx := SYMTAB))
      case Placed(j, off, _) => Request(s.(shndx := j, value := s.value + off))
    else Request(s)
  }

  datatype Symbols = Symbols(syms: seq<Sym>, newIndex: seq<nat>, errors: nat)

  function AddOne(t: Symbols, o: Object, tab: seq<Slot>, k: nat, isDyn: bool): Symbols
    requires k < |o.syms|
  {
    match Moved(o, tab, k)
    case Skip => t.(newIndex := t.newIndex + [0])
    case Lookup => t.(newIndex := t.newIndex + [Newest(t.syms, |t.syms|, o.syms[k].name)])
    case Request(s) =>
      var (syms, i, bad) := Added(t.syms, s, isDyn);
      Symbols(syms, t.newIndex + [i], t.errors + if bad then 1 else 0)
  }

  /** The table after the first `n` symbols; symbol 0 is null and maps to 0. */
  function AddSyms(syms: seq<Sym>, o: Object, tab: seq<Slot>, n: nat, isDyn: bool): (r: Symbols)
    requires n <= |o.syms|
    ensures |r.newIndex| == n
  {
    if n == 0 then Symbols(syms, [], 0)
    else if n == 1 then Symbols(syms, [0], 0)
    else AddOne(AddSyms(syms, o, tab, n - 1, isDyn), o, tab, n - 1, isDyn)
  }

  /** Whether the last symbol with a section of its own sat in a duplicate link-once section. */
  function LastOnce(o: Object, tab: seq<Slot>, n: nat): bool
    requires n <= |o.syms|
  {
    if n <= 1 then false else
    var s := o.syms[n - 1];
    if Defined(s) && s.shndx < SHN_LORESERVE && s.shndx < |tab| then tab[s.shndx].Once? else LastOnce(o, tab, n - 1)
  }

  // ----- relocations -----

  /** Entries from `q` on renumbered and moved by `delta`; `None` is "Invalid relocation entry". */
  function Patched(rels: seq<Rel>, q: nat, newIndex: seq<nat>, delta: nat, once: bool): (r: Option<seq<Rel>>)
    requires q <= |rels|
    ensures r.Some? ==> |r.value| == |rels|
    decreases |rels| - q
  {
    if q == |rels| then Some(rels) else
    var e := rels[q];
    if e.sym >= |newIndex| || (newIndex[e.sym] == 0 && !once) then None
    else Patched(rels[q := Rel(e.offset + delta, newIndex[e.sym], e.typ)], q + 1, newIndex, delta, once)
  }

  function DeltaOf(o: Object, tab: seq<Slot>, n: nat): nat
    requires n < |o.shdrs| == |tab|
  {
    var t := o.shdrs[n].info;
    if t < |tab| && tab[t].Placed? then tab[t].off else 0
  }

  function RelocOne(secs: seq<Section>, tab: seq<Slot>, o: Object, newIndex: seq<nat>, once: bool, n: nat): (r: Option<seq<Section>>)
    requires n < |o.shdrs| == |tab|
    ensures r.Some? ==> |r.value| == |secs|
  {
    if tab[n].Placed? && tab[n].sec < |secs| && secs[tab[n].sec].typ == SHT_REL && tab[n].off / REL_SIZE <= |secs[tab[n].sec].rels| then
      var s := secs[tab[n].sec];
      var r := Patched(s.rels, tab[n].off / REL_SIZE, newIndex, DeltaOf(o, tab, n), once);
      if r.None? then None else Some(secs[tab[n].sec := s.(rels := r.value)])
    else Some(secs)
  }

  function RelocAll(secs: seq<Section>, tab: seq<Slot>, o: Object, newIndex: seq<nat>, once: bool, n: nat): (r: Option<seq<Section>>)
    requires n <= |o.shdrs| == |tab|
    ensures r.Some? ==> |r.value| == |secs|
  {
    if n == 0 then Some(secs) else
    var r := RelocAll(secs, tab, o, newIndex, once, n - 1);
    if r.None? then None else RelocOne(r.value, tab, o, newIndex, once, n - 1)
  }

  // ----- loading -----

  function SymtabCount(o: Object, n: nat): nat
    requires n <= |o.shdrs|
  {
    if n <= 1 then 0 else SymtabCount(o, n - 1) + if o.shdrs[n - 1].typ == SHT_SYMTAB then 1 else 0
  }

  datatype Loaded = Loaded(secs: seq<Section>, tab: seq<Slot>, symbols: Symbols)

  /** `tcc_load_object_file` on decoded contents. */
  function Load(secs: seq<Section>, syms: seq<Sym>, o: Object, isDyn: bool): Option<Loaded>
    requires |secs| > 0
  {
    if SymtabCount(o, |o.shdrs|) > 1 then None else
    var p := PlaceAll(secs, o, |o.shdrs|);
    if p.None? then None else
    var (secs1, tab) := p.value;
    var secs2 := LinkAll(secs1, tab, o, |o.shdrs|);
    var t := AddSyms(syms, o, tab, |o.syms|, isDyn);
    var r := RelocAll(secs2, tab, o, t.newIndex, LastOnce(o, tab, |o.syms|), |o.shdrs|);
    if r.None? then None else Some(Loaded(r.value, tab, t))
  }

  const SHF_WRITE := 1
  const SHF_ALLOC := 2
  const SHF_EXECINSTR := 4

  /** The sections of a new state; there is none with number 0. */
  const STANDARD := [
    Section("", 0, 0, 0, 0, [], [], 0, 0, 0),
    Section(".text", SHT_PROGBITS, SHF_ALLOC + SHF_EXECINSTR, 32, 0, [], [], 0, 0, 0),
    Section(".data", SHT_PROGBITS, SHF_ALLOC + SHF_WRITE, 32, 0, [], [], 0, 0, 0),
    Section(".bss", SHT_NOBITS, SHF_ALLOC + SHF_WRITE, 32, 0, [], [], 0, 0, 0),
    Section(".symtab", SHT_SYMTAB, 0, 4, 0, [], [], 5, 0, 0),
    Section(".strtab", SHT_STRTAB, 0, 1, 0, [], [], 0, 0, 0)]

  class LinkState {
    var secs: seq<Section>
    const symtab: SymTab

    ghost predicate Valid()
      reads this, symtab
    {
      |secs| > 0 && symtab.Valid()
    }

    /** The standard sections. */
    constructor (t: SymTab)
      requires t.Valid()
      ensures Valid() && symtab == t && secs == STANDARD
    {
      symtab := t;
      secs := STANDARD;
    }

    /** The search for a section of the same name. */
    method FindByName(name: string) returns (j: nat)
      requires |secs| > 0
      ensures j == FindSection(secs, name, 1)
    {
      j := 1;
      while j < |secs|
        invariant 1 <= j <= |secs| && FindSection(secs, name, 1) == FindSection(secs, name, j)
      {
        if secs[j].name == name { return; }
        j := j + 1;
      }
      j := 0;
    }

    /** Examines one section and tries to merge it with those in memory. */
    method PlaceSection(o: Object, n: nat) returns (ok: bool, slot: Slot)
      requires |secs| > 0 && n < |o.shdrs|
      modifies `secs
      ensures |secs| > 0
      ensures ok <==> Place(old(secs), o, n).Some?
      ensures ok ==> (secs, slot) == Place(old(secs), o, n).value
    {
      hide Handled, LinkOnce, FindSection, AlignUp;
      ok, slot := true, Absent;
      var sh := o.shdrs[n];
      if n != 0 && sh.typ == SHT_SYMTAB { return true, Table; }
      if n == 0 || n == o.shstrndx || !Handled(sh) { return; }
      var align := if sh.align < 1 then 1 else sh.align;
      var j := FindByName(sh.name);
      if j != 0 && LinkOnce(sh.name) { return true, Once; }
      var isNew := j == 0;
      if j == 0 {
        j := |secs|;
        secs := secs + [Section(sh.name, sh.typ, sh.flags, align, 0, [], [], 0, 0, 0)];
      }
      var s := secs[j];
      if sh.typ != s.typ { return false, Absent; }
      var off := AlignUp(s.size, align);
      if align > s.align { s := s.(align := align); }
      var gap := off - s.size;
      if sh.typ == SHT_REL {
        s := s.(rels := s.rels + seq(gap / REL_SIZE, _ => Rel(0, 0, 0)) + sh.rels);
      } else if sh.typ != SHT_NOBITS {
        s := s.(data := s.data + seq(gap, _ => 0) + sh.data);
      }
      s := s.(size := off + sh.size);
      secs := secs[j := s];
      slot := Placed(j, off, isNew);
    }

    /** Updates the links of the sections that are new. */
    method LinkSections(o: Object, tab: seq<Slot>)
      requires |tab| == |o.shdrs|
      modifies `secs
      ensures secs == LinkAll(old(secs), tab, o, |o.shdrs|)
    {
      var i := 0;
      while i < |o.shdrs|
        invariant 0 <= i <= |o.shdrs| && secs == LinkAll(old(secs), tab, o, i)
      {
        var sh := o.shdrs[i];
        if tab[i].Placed? && tab[i].isNew && tab[i].sec < |secs| {
          var j := tab[i].sec;
          if 0 < sh.link < |tab| {
            secs := secs[j := secs[j].(link := SectionOf(tab[sh.link]))];
          }
          if sh.typ == SHT_REL && sh.info < |tab| && tab[sh.info].Placed? && tab[sh.info].sec < |secs| {
            var t := tab[sh.info].sec;
            secs := secs[j := secs[j].(info := t)];
            secs := secs[t := secs[t].(reloc := j)];
          }
        }
        i := i + 1;
      }
    }

    /** Resolves the symbols of the object. */
    method AddSymbols(o: Object, tab: seq<Slot>) returns (newIndex: seq<nat>, once: bool)
      requires Valid()
      modifies symtab
      ensures Valid()
      ensures var t := AddSyms(old(symtab.syms), o, tab, |o.syms|, symtab.isDyn);
              symtab.syms == t.syms && newIndex == t.newIndex && symtab.nbErrors == old(symtab.nbErrors) + t.errors
      ensures once == LastOnce(o, tab, |o.syms|)
    {
      newIndex, once := [], false;
      if |o.syms| == 0 { return; }
      newIndex := [0];
      var k := 1;
      while k < |o.syms|
        invariant 1 <= k <= |o.syms| && Valid()
        invariant once == LastOnce(o, tab, k)
        invariant symtab.nbErrors >= old(symtab.nbErrors)
        invariant AddSyms(old(symtab.syms), o, tab, k, symtab.isDyn) ==
                  Symbols(symtab.syms, newIndex, symtab.nbErrors - old(symtab.nbErrors))
      {
        var index;
        index, once := AddSymbol(o, tab, k, newIndex, once, symtab.nbErrors - old(symtab.nbErrors));
        newIndex := newIndex + [index];
        k := k + 1;
      }
    }

    method AddSymbol(o: Object, tab: seq<Slot>, k: nat, ghost newIndex: seq<nat>, was: bool, ghost errors: nat) returns (index: nat, once: bool)
      requires Valid() && 1 <= k < |o.syms| && errors <= symtab.nbErrors
      modifies symtab
      ensures Valid() && symtab.nbErrors >= old(symtab.nbErrors)
      ensures AddOne(Symbols(old(symtab.syms), newIndex, errors), o, tab, k, symtab.isDyn) ==
              Symbols(symtab.syms, newIndex + [index], errors + (symtab.nbErrors - old(symtab.nbErrors)))
      ensures once == (var s := o.syms[k];
                       if Defined(s) && s.shndx < SHN_LORESERVE && s.shndx < |tab| then tab[s.shndx].Once? else was)
    {
      hide Added, Newest;
      var s := o.syms[k];
      index, once := 0, was;
      if s.shndx != SHN_UNDEF && s.shndx < SHN_LORESERVE && s.shndx < |tab| {
        var slot := tab[s.shndx];
        once := slot.Once?;
        if once {
          if s.bind != STB_LOCAL { index := symtab.Find(s.name); }
          return;
        }
        if slot.Absent? { return; }
        s := s.(shndx := SectionOf(slot));
        if slot.Placed? { s := s.(value := s.value + slot.off); }
      }
      index := symtab.Add(s);
    }

    /** Patches the relocation entries of the sections that were merged. */
    method PatchRelocs(o: Object, tab: seq<Slot>, newIndex: seq<nat>, once: bool) returns (ok: bool)
      requires |tab| == |o.shdrs|
      modifies `secs
      ensures |secs| == |old(secs)|
      ensures ok <==> RelocAll(old(secs), tab, o, newIndex, once, |o.shdrs|).Some?
      ensures ok ==> secs == RelocAll(old(secs), tab, o, newIndex, once, |o.shdrs|).value
    {
      var i := 0;
      while i < |o.shdrs|
        invariant 0 <= i <= |o.shdrs| && RelocAll(old(secs), tab, o, newIndex, once, i) == Some(secs)
      {
        if tab[i].Placed? && tab[i].sec < |secs| && secs[tab[i].sec].typ == SHT_REL
           && tab[i].off / REL_SIZE <= |secs[tab[i].sec].rels|
        {
          var j := tab[i].sec;
          var rels := secs[j].rels;
          var q: nat := tab[i].off / REL_SIZE;
          ghost var all := Patched(rels, q, newIndex, DeltaOf(o, tab, i), once);
          var info := o.shdrs[i].info;
          var delta := if info < |tab| && tab[info].Placed? then tab[info].off else 0;
          while q < |rels|
            invariant 0 <= q <= |rels| && Patched(rels, q, newIndex, delta, once) == all
          {
            var e := rels[q];
            if e.sym >= |newIndex| || (newIndex[e.sym] == 0 && !once) {
              RelocFails(old(secs), tab, o, newIndex, once, i, |o.shdrs|);
              return false;
            }
            rels := rels[q := Rel(e.offset + delta, newIndex[e.sym], e.typ)];
            q := q + 1;
          }
          secs := secs[j := secs[j].(rels := rels)];
        }
        i := i + 1;
      }
      ok := true;
    }

    static lemma {:induction false} RelocFails(secs: seq<Section>, tab: seq<Slot>, o: Object, newIndex: seq<nat>, once: bool, i: nat, n: nat)
      requires i < n <= |o.shdrs| == |tab| && RelocAll(secs, tab, o, newIndex, once, i + 1).None?
      ensures RelocAll(secs, tab, o, newIndex, once, n).None?
      decreases n
    {
      if i + 1 < n { RelocFails(secs, tab, o, newIndex, once, i, n - 1); }
    }

    static lemma {:induction false} PlaceFails(secs: seq<Section>, o: Object, i: nat, n: nat)
      requires i < n <= |o.shdrs| && |secs| > 0 && PlaceAll(secs, o, i + 1).None?
      ensures PlaceAll(secs, o, n).None?
      decreases n
    {
      hide Place;
      if i + 1 < n { PlaceFails(secs, o, i, n - 1); }
    }

    static lemma {:induction false} CountGrows(o: Object, i: nat, n: nat)
      requires i <= n <= |o.shdrs|
      ensures SymtabCount(o, i) <= SymtabCount(o, n)
      decreases n
    {
      if i < n { CountGrows(o, i, n - 1); }
    }

    /** `tcc_load_object_file`. */
    method LoadObject(o: Object) returns (ok: bool)
      requires Valid() && ObjectOk(o)
      modifies this, symtab
      ensures Valid()
      ensures ok <==> Load(old(secs), old(symtab.syms), o, symtab.isDyn).Some?
      ensures ok ==> var l := Load(old(secs), old(symtab.syms), o, symtab.isDyn).value;
                secs == l.secs && symtab.syms == l.symbols.syms && symtab.nbErrors == old(symtab.nbErrors) + l.symbols.errors
    {
      hide Place, LinkAll, AddSyms, RelocAll;
      var found := false;
      var i := 1;
      while i < |o.shdrs|
        invariant 1 <= i <= |o.shdrs| && SymtabCount(o, i) == if found then 1 else 0
      {
        if o.shdrs[i].typ == SHT_SYMTAB {
          if found {
            CountGrows(o, i + 1, |o.shdrs|);
            return false;
          }
          found := true;
        }
        i := i + 1;
      }
      var tab: seq<Slot> := [];
      i := 0;
      while i < |o.shdrs|
        invariant 0 <= i <= |o.shdrs| && Valid()
        invariant symtab.syms == old(symtab.syms) && symtab.nbErrors == old(symtab.nbErrors)
        invariant PlaceAll(old(secs), o, i) == Some((secs, tab))
      {
        var placed, slot := PlaceSection(o, i);
        if !placed {
          PlaceFails(old(secs), o, i, |o.shdrs|);
          return false;
        }
        tab := tab + [slot];
        i := i + 1;
      }
      LinkSections(o, tab);
      var newIndex, once := AddSymbols(o, tab);
      ok := PatchRelocs(o, tab, newIndex, once);
    }
  }
}
