/** Moving local symbols below the others, as an ELF file has them, and renumbering every
    relocation of the table. */
module SortSyms {
  import opened ElfSymbols
  import opened Linker

  // ----- the stable partition -----

  /** The symbols among the first `n` whose being local is `local`, in order. */
  function Part(syms: seq<Sym>, n: nat, local: bool): (r: seq<Sym>)
    requires n <= |syms|
    ensures |r| <= n && forall k :: 0 <= k < |r| ==> (!Global(r[k]) <==> local)
  {
    if n == 0 then [] else
    Part(syms, n - 1, local) + if !Global(syms[n - 1]) == local then [syms[n - 1]] else []
  }

  function Sorted(syms: seq<Sym>): seq<Sym> { Part(syms, |syms|, true) + Part(syms, |syms|, false) }

  /** Where symbol `i` goes. */
  function NewIndex(syms: seq<Sym>, i: nat): nat
    requires i < |syms|
  {
    if !Global(syms[i]) then |Part(syms, i, true)| else |Part(syms, |syms|, true)| + |Part(syms, i, false)|
  }

  predicate GoesTo(syms: seq<Sym>, i: nat, k: nat) { i < |syms| && NewIndex(syms, i) == k }

  ghost predicate Reached(syms: seq<Sym>, k: nat) { exists i: nat :: GoesTo(syms, i, k) }

  lemma {:induction false} PartCounts(syms: seq<Sym>, n: nat)
    requires n <= |syms|
    ensures |Part(syms, n, true)| + |Part(syms, n, false)| == n
    decreases n
  {
    if n > 0 { PartCounts(syms, n - 1); }
  }

  lemma {:induction false} PartPrefix(syms: seq<Sym>, i: nat, n: nat, local: bool)
    requires i <= n <= |syms|
    ensures Part(syms, i, local) <= Part(syms, n, local)
    decreases n
  {
    if i < n { PartPrefix(syms, i, n - 1, local); }
  }

  /** A symbol stands in its part right after those of its part that came before it. */
  lemma PartAt(syms: seq<Sym>, i: nat, local: bool)
    requires i < |syms| && !Global(syms[i]) == local
    ensures var k, p := |Part(syms, i, local)|, Part(syms, |syms|, local); k < |p| && p[k] == syms[i]
  {
    PartPrefix(syms, i + 1, |syms|, local);
    var q := Part(syms, i + 1, local);
    assert q[|q| - 1] == syms[i] && q <= Part(syms, |syms|, local);
  }

  /** Every symbol is kept, where its new index says. */
  lemma SymbolMoved(syms: seq<Sym>, i: nat)
    requires i < |syms|
    ensures |Sorted(syms)| == |syms| && NewIndex(syms, i) < |syms| && Sorted(syms)[NewIndex(syms, i)] == syms[i]
  {
    PartCounts(syms, |syms|);
    PartAt(syms, i, !Global(syms[i]));
  }

  /** Locals come first, and within each part the order is kept; so no two symbols meet. */
  lemma OrderKept(syms: seq<Sym>, i: nat, j: nat)
    requires i < |syms| && j < |syms| && i != j
    ensures NewIndex(syms, i) < NewIndex(syms, j) <==> if Global(syms[i]) == Global(syms[j]) then i < j else Global(syms[j])
    ensures NewIndex(syms, i) != NewIndex(syms, j)
  {
    PartAt(syms, i, !Global(syms[i]));
    PartAt(syms, j, !Global(syms[j]));
    var lo, hi := if i < j then i else j, if i < j then j else i;
    if Global(syms[i]) == Global(syms[j]) {
      PartPrefix(syms, lo + 1, hi, !Global(syms[lo]));
    }
  }

  /** The renumbering is a bijection that keeps the null symbol in its place. */
  lemma Bijection(syms: seq<Sym>)
    requires |syms| > 0 && !Global(syms[0])
    ensures NewIndex(syms, 0) == 0
    ensures forall i, j :: 0 <= i < |syms| && 0 <= j < |syms| && NewIndex(syms, i) == NewIndex(syms, j) ==> i == j
    ensures forall k :: 0 <= k < |syms| ==> Reached(syms, k)
  {
    forall i, j | 0 <= i < |syms| && 0 <= j < |syms| && NewIndex(syms, i) == NewIndex(syms, j) ensures i == j {
      if i != j { OrderKept(syms, i, j); }
    }
    forall k | 0 <= k < |syms| ensures Reached(syms, k) {
      var nl := |Part(syms, |syms|, true)|;
      PartCounts(syms, |syms|);
      if k < nl {
        var i := Source(syms, |syms|, true, k);
        assert GoesTo(syms, i, k);
      } else {
        var i := Source(syms, |syms|, false, k - nl);
        assert GoesTo(syms, i, k);
      }
    }
  }

  /** The symbol that stands at place `k` of a part. */
  lemma {:induction false} Source(syms: seq<Sym>, n: nat, local: bool, k: nat) returns (i: nat)
    requires n <= |syms| && k < |Part(syms, n, local)|
    ensures i < n && !Global(syms[i]) == local && |Part(syms, i, local)| == k
    decreases n
  {
    if k < |Part(syms, n - 1, local)| {
      i := Source(syms, n - 1, local, k);
    } else {
      i := n - 1;
    }
  }

  lemma PartStart(syms: seq<Sym>, local: bool)
    ensures Part(syms, 0, local) == []
  {
  }

  lemma PartStep(syms: seq<Sym>, i: nat, local: bool)
    requires i < |syms|
    ensures Part(syms, i + 1, local) == Part(syms, i, local) + if !Global(syms[i]) == local then [syms[i]] else []
    ensures !Global(syms[i]) == local ==>
              NewIndex(syms, i) == (if local then 0 else |Part(syms, |syms|, true)|) + |Part(syms, i, local)|
  {
  }

  // ----- relocations -----

  function Renumber(rels: seq<Rel>, syms: seq<Sym>): (r: seq<Rel>)
    requires forall k :: 0 <= k < |rels| ==> rels[k].sym < |syms|
    ensures |r| == |rels|
  {
    seq(|rels|, k requires 0 <= k < |rels| => rels[k].(sym := NewIndex(syms, rels[k].sym)))
  }

  /** Every relocation keeps its site and type and names the record it named. */
  lemma RelocationsFollow(rels: seq<Rel>, syms: seq<Sym>, k: nat)
    requires k < |rels| && forall k :: 0 <= k < |rels| ==> rels[k].sym < |syms|
    ensures var r := Renumber(rels, syms)[k];
            && r.offset == rels[k].offset && r.typ == rels[k].typ
            && r.sym < |Sorted(syms)| && Sorted(syms)[r.sym] == syms[rels[k].sym]
  {
    SymbolMoved(syms, rels[k].sym);
  }

  // ----- the code -----

  class Output {
    var syms: seq<Sym>
    var info: nat
    var secs: seq<Section>

    constructor (syms: seq<Sym>, secs: seq<Section>)
      ensures this.syms == syms && this.secs == secs
    {
      this.syms, this.info, this.secs := syms, 0, secs;
    }

    /** The relocation sections that belong to the symbol table, section `s`. */
    static predicate Belongs(sec: Section, s: nat) { sec.typ == SHT_REL && sec.link == s }

    static function Renumbered(secs: seq<Section>, n: nat, s: nat, syms: seq<Sym>): (r: seq<Section>)
      requires n <= |secs|
      requires AllInTable(secs, s, syms)
      ensures |r| == |secs|
    {
      seq(|secs|, i requires 0 <= i < |secs| =>
        if 1 <= i < n && Belongs(secs[i], s) then secs[i].(rels := Renumber(secs[i].rels, syms)) else secs[i])
    }

    static predicate AllInTable(secs: seq<Section>, s: nat, syms: seq<Sym>) {
      forall i :: 1 <= i < |secs| && Belongs(secs[i], s) ==> InTable(secs[i], syms)
    }

    static predicate InTable(sec: Section, syms: seq<Sym>) { forall k :: 0 <= k < |sec.rels| ==> sec.rels[k].sym < |syms| }

    /** In every relocation section of the table each entry keeps its site and type and names
        the record it named; nothing else changes. */
    static lemma SectionsFollow(secs: seq<Section>, s: nat, syms: seq<Sym>, i: nat, k: nat)
      requires AllInTable(secs, s, syms) && i < |secs| && k < |secs[i].rels|
      ensures var now, was := Renumbered(secs, |secs|, s, syms)[i], secs[i];
              && now == was.(rels := now.rels) && |now.rels| == |was.rels|
              && (i > 0 && was.typ == SHT_REL && was.link == s ==>
                    && now.rels[k].offset == was.rels[k].offset && now.rels[k].typ == was.rels[k].typ
                    && was.rels[k].sym < |syms| && now.rels[k].sym < |Sorted(syms)|
                    && Sorted(syms)[now.rels[k].sym] == syms[was.rels[k].sym])
              && (i == 0 || was.typ != SHT_REL || was.link != s ==> now == was)
    {
      if i > 0 && secs[i].typ == SHT_REL && secs[i].link == s {
        assert Belongs(secs[i], s) && InTable(secs[i], syms);
        RelocationsFollow(secs[i].rels, syms, k);
      }
    }

    /** `sort_syms`. */
    method SortSyms(s: nat)
      requires AllInTable(secs, s, syms)
      modifies this
      ensures syms == Sorted(old(syms))
      ensures info == |Part(old(syms), |old(syms)|, true)|
      ensures secs == Renumbered(old(secs), |old(secs)|, s, old(syms))
    {
      hide Renumbered, AllInTable;
      var n := |syms|;
      var oldToNew: seq<nat> := seq(n, _ => 0);
      var newSyms: seq<Sym> := [];
      oldToNew, newSyms := OnePart(true, oldToNew, newSyms);
      var nl := |newSyms|;
      oldToNew, newSyms := OnePart(false, oldToNew, newSyms);
      RenumberSections(s, oldToNew);
      syms := newSyms;
      info := nl;
    }

    /** One pass over the table: takes the local symbols, or the others. */
    method OnePart(local: bool, oldToNew: seq<nat>, newSyms: seq<Sym>) returns (map1: seq<nat>, out: seq<Sym>)
      requires |oldToNew| == |syms| && newSyms == if local then [] else Part(syms, |syms|, true)
      ensures |map1| == |syms| && out == newSyms + Part(syms, |syms|, local)
      ensures forall k :: 0 <= k < |syms| ==> map1[k] == if !Global(syms[k]) == local then NewIndex(syms, k) else oldToNew[k]
    {
      hide Part, NewIndex;
      map1, out := oldToNew, newSyms;
      var i := 0;
      PartStart(syms, local);
      while i < |syms|
        invariant 0 <= i <= |syms| == |map1| && out == newSyms + Part(syms, i, local)
        invariant forall k :: 0 <= k < |syms| ==>
                    map1[k] == if k < i && !Global(syms[k]) == local then NewIndex(syms, k) else oldToNew[k]
      {
        PartStep(syms, i, local);
        if (syms[i].bind == STB_LOCAL) == local {
          map1 := map1[i := |out|];
          out := out + [syms[i]];
        }
        i := i + 1;
      }
    }

    method RenumberSections(s: nat, oldToNew: seq<nat>)
      requires |oldToNew| == |syms| && forall k :: 0 <= k < |syms| ==> oldToNew[k] == NewIndex(syms, k)
      requires AllInTable(secs, s, syms)
      modifies `secs
      ensures secs == Renumbered(old(secs), |old(secs)|, s, syms)
    {
      ghost var was := secs;
      var i := 1;
      while i < |secs|
        invariant 1 <= i && (i <= |secs| || secs == was) && |secs| == |was|
        invariant forall k :: 0 <= k < |was| ==>
                    secs[k] == if 1 <= k < i && Belongs(was[k], s) then was[k].(rels := Renumber(was[k].rels, syms)) else was[k]
      {
        if secs[i].typ == SHT_REL && secs[i].link == s {
          assert Belongs(was[i], s) && InTable(was[i], syms);
          var rels := secs[i].rels;
          var q := 0;
          while q < |rels|
            invariant 0 <= q <= |rels| == |was[i].rels|
            invariant forall k :: 0 <= k < |rels| ==>
                        rels[k] == if k < q then was[i].rels[k].(sym := NewIndex(syms, was[i].rels[k].sym)) else was[i].rels[k]
          {
            rels := rels[q := rels[q].(sym := oldToNew[rels[q].sym])];
            q := q + 1;
          }
          assert rels == Renumber(was[i].rels, syms);
          secs := secs[i := secs[i].(rels := rels)];
        }
        i := i + 1;
      }
    }
  }
}
