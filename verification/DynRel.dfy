/** Relocations of a shared object on the i386: those that are resolved when the object is
    linked are, and those the loader must finish are kept, compacted in place. */
module DynRel {
  import opened Linker

  const R_386_32 := 1
  const R_386_PC32 := 2
  const R_386_PLT32 := 4
  const R_386_RELATIVE := 8

  /** What relocation needs to know: the address of a symbol in the object, and its index in
      the dynamic table, 0 if it has none. */
  datatype Names = Names(value: nat -> int, dynsym: nat -> nat)

  /** Types whose only effect is on the word, and which are resolved for good. */
  predicate Resolved(typ: nat) { typ == R_386_PLT32 }

  // ----- what is kept and what is added -----

  predicate Keeps(e: Rel, n: Names) { e.typ == R_386_32 || (e.typ == R_386_PC32 && n.dynsym(e.sym) != 0) }

  function KeptAs(e: Rel, n: Names): Rel
    requires Keeps(e, n)
  {
    if n.dynsym(e.sym) != 0 then Rel(e.offset, n.dynsym(e.sym), e.typ) else Rel(e.offset, 0, R_386_RELATIVE)
  }

  function Kept(rels: seq<Rel>, k: nat, n: Names): (r: seq<Rel>)
    requires k <= |rels|
    ensures |r| <= k
  {
    if k == 0 then [] else
    Kept(rels, k - 1, n) + if Keeps(rels[k - 1], n) then [KeptAs(rels[k - 1], n)] else []
  }

  /** What linking adds to the word at the site of an entry. */
  function Added(e: Rel, n: Names, base: int, dll: bool): int {
    var left := dll && n.dynsym(e.sym) != 0;
    if e.typ == R_386_32 then (if left then 0 else n.value(e.sym))
    else if e.typ == R_386_PC32 then (if left then 0 else n.value(e.sym) - (base + e.offset))
    else if Resolved(e.typ) then n.value(e.sym) - (base + e.offset)
    else 0
  }

  function AddedAt(rels: seq<Rel>, k: nat, n: Names, base: int, dll: bool, x: int): int
    requires k <= |rels|
  {
    if k == 0 then 0 else
    AddedAt(rels, k - 1, n, base, dll, x) + if rels[k - 1].offset == x then Added(rels[k - 1], n, base, dll) else 0
  }

  // ----- what the loader does, and what was wanted -----

  /** What the loader adds for a kept entry when the object is loaded at `at`; `where` gives
      the addresses of dynamic symbols. */
  function Loads(e: Rel, where: nat -> int, base: int, at: int): int {
    if e.typ == R_386_32 then where(e.sym)
    else if e.typ == R_386_PC32 then where(e.sym) - (at + base + e.offset)
    else if e.typ == R_386_RELATIVE then at
    else 0
  }

  function LoadsAt(rels: seq<Rel>, k: nat, where: nat -> int, base: int, at: int, x: int): int
    requires k <= |rels|
  {
    if k == 0 then 0 else
    LoadsAt(rels, k - 1, where, base, at, x) + if rels[k - 1].offset == x then Loads(rels[k - 1], where, base, at) else 0
  }

  /** The run-time address of a symbol. */
  function Address(sym: nat, n: Names, where: nat -> int, at: int): int {
    if n.dynsym(sym) != 0 then where(n.dynsym(sym)) else at + n.value(sym)
  }

  /** What the word should have had added to it in all. */
  function Wanted(e: Rel, n: Names, where: nat -> int, base: int, at: int): int {
    if e.typ == R_386_32 then Address(e.sym, n, where, at)
    else if e.typ == R_386_PC32 then Address(e.sym, n, where, at) - (at + base + e.offset)
    else if e.typ == R_386_PLT32 then n.value(e.sym) - (base + e.offset)
    else 0
  }

  function WantedAt(rels: seq<Rel>, k: nat, n: Names, where: nat -> int, base: int, at: int, x: int): int
    requires k <= |rels|
  {
    if k == 0 then 0 else
    WantedAt(rels, k - 1, n, where, base, at, x) + if rels[k - 1].offset == x then Wanted(rels[k - 1], n, where, base, at) else 0
  }

  lemma LoadsPush(rels: seq<Rel>, e: Rel, where: nat -> int, base: int, at: int, x: int)
    ensures LoadsAt(rels + [e], |rels| + 1, where, base, at, x) ==
            LoadsAt(rels, |rels|, where, base, at, x) + if e.offset == x then Loads(e, where, base, at) else 0
  {
    LoadsPrefix(rels + [e], rels, |rels|, where, base, at, x);
  }

  lemma {:induction false} LoadsPrefix(a: seq<Rel>, b: seq<Rel>, k: nat, where: nat -> int, base: int, at: int, x: int)
    requires k <= |b| && b <= a
    ensures LoadsAt(a, k, where, base, at, x) == LoadsAt(b, k, where, base, at, x)
    decreases k
  {
    if k > 0 { LoadsPrefix(a, b, k - 1, where, base, at, x); }
  }

  /** Wherever the object is loaded and whatever its dynamic symbols turn out to be, linking
      and loading together add to every word what relocation at that place would have. */
  lemma {:induction false} LinkedThenLoaded(rels: seq<Rel>, k: nat, n: Names, where: nat -> int, base: int, at: int, x: int)
    requires k <= |rels|
    ensures AddedAt(rels, k, n, base, true, x) + LoadsAt(Kept(rels, k, n), |Kept(rels, k, n)|, where, base, at, x) ==
            WantedAt(rels, k, n, where, base, at, x)
    decreases k
  {
    hide Added, Loads, Wanted, Keeps, KeptAs;
    if k > 0 {
      var e := rels[k - 1];
      LinkedThenLoaded(rels, k - 1, n, where, base, at, x);
      EntryAdds(e, n, where, base, at);
      var kept := Kept(rels, k - 1, n);
      if !Keeps(e, n) {
        assert Kept(rels, k, n) == kept;
      } else {
        assert Kept(rels, k, n) == kept + [KeptAs(e, n)];
        LoadsPush(kept, KeptAs(e, n), where, base, at, x);
      }
    }
  }

  /** The same for one entry. */
  lemma EntryAdds(e: Rel, n: Names, where: nat -> int, base: int, at: int)
    ensures Keeps(e, n) ==> KeptAs(e, n).offset == e.offset
    ensures Added(e, n, base, true) + (if Keeps(e, n) then Loads(KeptAs(e, n), where, base, at) else 0) == Wanted(e, n, where, base, at)
  {
  }

  ghost predicate Unsettled(e: Rel, n: Names, base: int) {
    exists where: nat -> int, at: int :: Lacks(e, n, where, base, at)
  }

  predicate Lacks(e: Rel, n: Names, where: nat -> int, base: int, at: int) { Wanted(e, n, where, base, at) != Added(e, n, base, true) }

  /** An entry is kept exactly if linking alone cannot settle the word; it then carries the
      symbol's dynamic index and is relative if there is none. */
  lemma KeptExactly(e: Rel, n: Names, base: int)
    ensures Keeps(e, n) <==> Unsettled(e, n, base)
    ensures Keeps(e, n) ==>
              && KeptAs(e, n).offset == e.offset && KeptAs(e, n).sym == n.dynsym(e.sym)
              && KeptAs(e, n).typ == if n.dynsym(e.sym) == 0 then R_386_RELATIVE else e.typ
  {
    if Keeps(e, n) {
      var d := n.dynsym(e.sym);
      var at := 1 - n.value(e.sym) + Added(e, n, base, true);
      var there := Added(e, n, base, true) + base + e.offset + at + 1;
      assert d == 0 ==> Lacks(e, n, _ => 0, base, at);
      assert d != 0 && e.typ == R_386_32 ==> Lacks(e, n, _ => Added(e, n, base, true) + 1, base, at);
      assert d != 0 && e.typ == R_386_PC32 ==> Lacks(e, n, _ => there, base, at);
    }
  }

  /** In a program nothing is left to the loader: words get what they want if every symbol is
      where the program has it. */
  lemma LinkedAlone(e: Rel, n: Names, where: nat -> int, base: int)
    requires n.dynsym(e.sym) != 0 ==> where(n.dynsym(e.sym)) == n.value(e.sym)
    ensures Added(e, n, base, false) == Wanted(e, n, where, base, 0)
  {
  }

  /** Kept entries are in order and at the sites they had. */
  lemma {:induction false} KeptSites(rels: seq<Rel>, k: nat, n: Names, i: nat) returns (j: nat)
    requires k <= |rels| && i < |Kept(rels, k, n)|
    ensures j < k && Keeps(rels[j], n) && Kept(rels, k, n)[i] == KeptAs(rels[j], n) && |Kept(rels, j, n)| == i
    decreases k
  {
    if i < |Kept(rels, k - 1, n)| {
      j := KeptSites(rels, k - 1, n, i);
      assert Kept(rels, k, n)[i] == Kept(rels, k - 1, n)[i];
    } else {
      j := k - 1;
    }
  }

  // ----- the code -----

  class Relocator {
    var rels: seq<Rel>
    var words: int -> int
    const names: Names
    const addr: int
    const dll: bool

    constructor (rels: seq<Rel>, words: int -> int, names: Names, addr: int, dll: bool)
      ensures this.rels == rels && this.words == words && this.names == names && this.addr == addr && this.dll == dll
    {
      this.rels, this.words, this.names, this.addr, this.dll := rels, words, names, addr, dll;
    }

    /** `prepare_dynamic_rel`: how many entries to reserve. */
    method PrepareDynamicRel() returns (count: nat)
      ensures count == |Kept(rels, |rels|, names)|
    {
      count := 0;
      var i := 0;
      while i < |rels|
        invariant 0 <= i <= |rels| && count == |Kept(rels, i, names)|
      {
        var e := rels[i];
        if e.typ == R_386_32 {
          count := count + 1;
        } else if e.typ == R_386_PC32 {
          if names.dynsym(e.sym) != 0 { count := count + 1; }
        }
        i := i + 1;
      }
    }

    method AddTo(x: int, v: int)
      modifies `words
      ensures forall y :: words(y) == old(words)(y) + if y == x then v else 0
    {
      var w := words;
      words := y => w(y) + if y == x then v else 0;
    }

    /** `relocate_section`: the write cursor never passes the read cursor, and the entries
        below it are those that `PrepareDynamicRel` made room for. */
    method RelocateSection() returns (q: nat)
      modifies this
      ensures |rels| == |old(rels)| && q <= |rels|
      ensures rels[..q] == (if dll then Kept(old(rels), |old(rels)|, names) else [])
      ensures rels[q..] == old(rels)[q..]
      ensures forall x :: words(x) == old(words)(x) + AddedAt(old(rels), |old(rels)|, names, addr, dll, x)
    {
      hide Keeps, KeptAs, Added;
      ghost var was := rels;
      q := 0;
      var i := 0;
      while i < |rels|
        invariant 0 <= q <= i <= |rels| == |was|
        invariant rels[..q] == (if dll then Kept(was, i, names) else [])
        invariant rels[q..] == was[q..]
        invariant forall x :: words(x) == old(words)(x) + AddedAt(was, i, names, addr, dll, x)
      {
        ghost var before, w, at := rels, words, q;
        assert rels[q..][i - q] == was[q..][i - q];
        q := RelocateEntry(i, q);
        assert rels[q..] == before[at..][q - at..] == was[q..];
        i := i + 1;
      }
    }

    /** Entry `i`, with `q` entries kept so far. */
    method RelocateEntry(i: nat, q0: nat) returns (q: nat)
      requires q0 <= i < |rels|
      modifies this
      ensures var e := old(rels)[i]; var keep := dll && Keeps(e, names);
              && q == q0 + (if keep then 1 else 0)
              && |rels| == |old(rels)| && rels[..q] == old(rels)[..q0] + (if keep then [KeptAs(e, names)] else [])
              && rels[q..] == old(rels)[q..]
              && forall x :: words(x) == old(words)(x) + if x == e.offset then Added(e, names, addr, dll) else 0
    {
      var e := rels[i];
      q := q0;
      var val := names.value(e.sym);
      var site := addr + e.offset;
      if e.typ == R_386_32 {
        if dll {
          var esym := names.dynsym(e.sym);
          rels := rels[q := rels[q].(offset := e.offset)];
          if esym != 0 {
            rels := rels[q := rels[q].(sym := esym, typ := R_386_32)];
            q := q + 1;
            return;
          }
          rels := rels[q := rels[q].(sym := 0, typ := R_386_RELATIVE)];
          q := q + 1;
        }
        AddTo(e.offset, val);
      } else if e.typ == R_386_PC32 {
        if dll {
          var esym := names.dynsym(e.sym);
          if esym != 0 {
            rels := rels[q := rels[q].(offset := e.offset)];
            rels := rels[q := rels[q].(sym := esym, typ := R_386_PC32)];
            q := q + 1;
            return;
          }
        }
        AddTo(e.offset, val - site);
      } else if e.typ == R_386_PLT32 {
        AddTo(e.offset, val - site);
      }
    }
  }
}
