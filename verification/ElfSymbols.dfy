/** The linker's symbol table: symbols in order of arrival, a chained hash index over the
    non-local ones, and the rules by which a definition meets an earlier one. */
module ElfSymbols {
  const SHN_UNDEF := 0
  const SHN_LORESERVE := 0xff00
  const SHN_ABS := 0xfff1
  const SHN_COMMON := 0xfff2

  const STB_LOCAL := 0
  const STB_GLOBAL := 1
  const STB_WEAK := 2

  const STV_DEFAULT := 0
  const STV_INTERNAL := 1
  const STV_HIDDEN := 2

  /** `vis` is the visibility in st_other, `rest` its remaining bits. */
  datatype Sym = Sym(name: string, value: int, size: int, bind: nat, typ: nat, vis: nat, rest: nat, shndx: nat)

  const NULL_SYM := Sym("", 0, 0, STB_LOCAL, 0, STV_DEFAULT, 0, SHN_UNDEF)

  type Hash = string -> nat

  predicate Defined(s: Sym) { s.shndx != SHN_UNDEF }
  predicate Global(s: Sym) { s.bind != STB_LOCAL }

  // ----- the index, declaratively -----

  /** The largest of the first `n` indices that holds a non-local symbol of bucket `b`, 0 if none. */
  function LastIn(syms: seq<Sym>, n: nat, b: nat, nb: nat, f: Hash): (r: nat)
    requires n <= |syms| && 0 < nb
    ensures r == 0 || r < n
  {
    if n <= 1 then 0
    else if Global(syms[n - 1]) && f(syms[n - 1].name) % nb == b then n - 1
    else LastIn(syms, n - 1, b, nb, f)
  }

  /** The plain scan: the largest of the first `n` indices that holds a non-local symbol
      called `name`, 0 if none. */
  function Newest(syms: seq<Sym>, n: nat, name: string): (r: nat)
    requires n <= |syms|
    ensures r == 0 || (r < n && Global(syms[r]) && syms[r].name == name)
    ensures forall i :: r < i < n && i > 0 ==> !(Global(syms[i]) && syms[i].name == name)
  {
    if n <= 1 then 0
    else if Global(syms[n - 1]) && syms[n - 1].name == name then n - 1
    else Newest(syms, n - 1, name)
  }

  /** The hash section: bucket count, symbol count, buckets, chain. Every bucket holds the
      newest symbol of its class and every link the next older one. */
  predicate Indexed(hash: seq<nat>, syms: seq<Sym>, nb: nat, f: Hash) {
    && 0 < nb && |hash| == 2 + nb + |syms|
    && hash[0] == nb && hash[1] == |syms|
    && (forall b :: 0 <= b < nb ==> hash[2 + b] == LastIn(syms, |syms|, b, nb, f))
    && (forall i :: 1 <= i < |syms| ==> hash[2 + nb + i] == Link(syms, i, nb, f))
  }

  function Link(syms: seq<Sym>, i: nat, nb: nat, f: Hash): nat
    requires i < |syms| && 0 < nb
  {
    if Global(syms[i]) then LastIn(syms, i, f(syms[i].name) % nb, nb, f) else 0
  }

  predicate SameKeys(a: seq<Sym>, b: seq<Sym>, n: nat)
    requires n <= |a| && n <= |b|
  {
    forall i :: 0 <= i < n ==> a[i].name == b[i].name && (Global(a[i]) <==> Global(b[i]))
  }

  lemma {:induction false} LastSame(a: seq<Sym>, b: seq<Sym>, n: nat, k: nat, nb: nat, f: Hash)
    requires n <= |a| && n <= |b| && 0 < nb && SameKeys(a, b, n)
    ensures LastIn(a, n, k, nb, f) == LastIn(b, n, k, nb, f)
    decreases n
  {
    if n > 1 { LastSame(a, b, n - 1, k, nb, f); }
  }

  lemma {:induction false} NewestSame(a: seq<Sym>, b: seq<Sym>, n: nat, name: string)
    requires n <= |a| && n <= |b| && SameKeys(a, b, n)
    ensures Newest(a, n, name) == Newest(b, n, name)
    decreases n
  {
    if n > 1 { NewestSame(a, b, n - 1, name); }
  }

  /** A walk that skipped `LastIn(n, bucket)` and found another name there may go on below it. */
  lemma {:induction false} NewestBelow(syms: seq<Sym>, n: nat, name: string, nb: nat, f: Hash)
    requires n <= |syms| && 0 < nb
    ensures var i := LastIn(syms, n, f(name) % nb, nb, f);
            && Newest(syms, n, name) <= i
            && (i > 0 && syms[i].name == name ==> Newest(syms, n, name) == i)
            && (i > 0 && syms[i].name != name ==> Newest(syms, n, name) == Newest(syms, i, name))
            && (i > 0 ==> LastIn(syms, i, f(name) % nb, nb, f) == Link(syms, i, nb, f))
    decreases n
  {
    if n > 1 { NewestBelow(syms, n - 1, name, nb, f); }
  }

  function Hashed(syms: seq<Sym>, n: nat): nat
    requires n <= |syms|
  {
    if n <= 1 then 0 else Hashed(syms, n - 1) + if Global(syms[n - 1]) then 1 else 0
  }

  lemma {:induction false} HashedSame(a: seq<Sym>, b: seq<Sym>, n: nat)
    requires n <= |a| && n <= |b| && SameKeys(a, b, n)
    ensures Hashed(a, n) == Hashed(b, n)
    decreases n
  {
    if n > 1 { HashedSame(a, b, n - 1); }
  }

  // ----- symbol resolution, declaratively -----

  /** The more constraining of two visibilities. */
  function MergedVis(e: nat, n: nat): nat {
    if e == STV_DEFAULT then n else if n == STV_DEFAULT then e
    else if e < n then e else n
  }

  /** The record `e` taken over by the request `n`. */
  function Patch(e: Sym, n: Sym, vis: nat, rest: nat): Sym {
    Sym(e.name, n.value, n.size, n.bind, n.typ, vis, rest, n.shndx)
  }

  datatype Verdict = Keep | Replace | Clash

  /** What a defined `e` and a further request `n` come to. */
  function Judge(e: Sym, n: Sym, isDyn: bool): Verdict {
    if !Defined(n) then Keep
    else if n.bind == STB_GLOBAL && e.bind == STB_WEAK then Replace
    else if n.bind == STB_WEAK && e.bind == STB_GLOBAL then Keep
    else if n.bind == STB_WEAK && e.bind == STB_WEAK then Keep
    else if n.vis == STV_HIDDEN || n.vis == STV_INTERNAL then Keep
    else if e.shndx == SHN_COMMON && (n.shndx < SHN_LORESERVE || n.shndx == SHN_COMMON) then Replace
    else if isDyn then Keep
    else Clash
  }

  /** The record after the request, and whether "defined twice" was reported. */
  function Resolve(e: Sym, n: Sym, isDyn: bool): (Sym, bool) {
    if Defined(e) then
      var vis := MergedVis(e.vis, n.vis);
      match Judge(e, n, isDyn)
      case Keep => (e.(vis := vis), false)
      case Replace => (Patch(e, n, vis, e.rest), false)
      case Clash => (e.(vis := vis), true)
    else (Patch(e, n, n.vis, n.rest), false)
  }

  /** The table after `add_elf_sym`, the index returned, and whether an error was reported. */
  function Added(syms: seq<Sym>, n: Sym, isDyn: bool): (seq<Sym>, nat, bool) {
    var i := if Global(n) then Newest(syms, |syms|, n.name) else 0;
    if i == 0 then (syms + [n], |syms|, false)
    else (syms[i := Resolve(syms[i], n, isDyn).0], i, Resolve(syms[i], n, isDyn).1)
  }

  // ----- the table -----

  class SymTab {
    var syms: seq<Sym>
    var hash: seq<nat>
    var nbHashed: nat
    var nbErrors: nat
    var newUndef: bool
    const isDyn: bool
    const hashOf: Hash

    ghost predicate Valid()
      reads this
    {
      && |syms| > 0 && !Global(syms[0])
      && |hash| > 0 && Indexed(hash, syms, hash[0], hashOf)
      && nbHashed == Hashed(syms, |syms|)
      && nbHashed <= 2 * hash[0]
    }

    /** `new_symtab`: one null symbol, one bucket. */
    constructor (isDyn: bool, hashOf: Hash)
      ensures Valid() && syms == [NULL_SYM] && nbErrors == 0
      ensures this.isDyn == isDyn && this.hashOf == hashOf
    {
      this.isDyn, this.hashOf := isDyn, hashOf;
      syms := [NULL_SYM];
      hash := [1, 1, 0, 0];
      nbHashed, nbErrors, newUndef := 0, 0, false;
    }

    /** `rebuild_hash`. The section keeps whatever it held; every cell that matters is written. */
    method RebuildHash(nb: nat)
      requires 0 < nb && |syms| > 0
      modifies `hash
      ensures Indexed(hash, syms, nb, hashOf)
    {
      var n := |syms|;
      var h := if |hash| >= 2 + nb + n then hash[..2 + nb + n] else hash + seq(2 + nb + n - |hash|, _ => 0);
      h := h[0 := nb][1 := n];
      hash := seq(|h|, i requires 0 <= i < |h| => if 2 <= i < 2 + nb + 1 then 0 else h[i]);
      assert forall b :: 0 <= b < nb ==> LastIn(syms, 1, b, nb, hashOf) == 0;
      var i := 1;
      while i < n
        invariant 1 <= i <= n && Filled(hash, syms, i, nb, hashOf)
      {
        FilledStep(hash, syms, i, nb, hashOf);
        if Global(syms[i]) {
          var b := hashOf(syms[i].name) % nb;
          hash := hash[2 + nb + i := hash[2 + b]];
          hash := hash[2 + b := i];
        } else {
          hash := hash[2 + nb + i := 0];
        }
        i := i + 1;
      }
    }

    /** The index built over the first `i` symbols. */
    static predicate Filled(hash: seq<nat>, syms: seq<Sym>, i: nat, nb: nat, f: Hash) {
      && 0 < nb && 1 <= i <= |syms| && |hash| == 2 + nb + |syms| && hash[0] == nb && hash[1] == |syms|
      && (forall b :: 0 <= b < nb ==> hash[2 + b] == LastIn(syms, i, b, nb, f))
      && (forall j :: 1 <= j < i ==> hash[2 + nb + j] == Link(syms, j, nb, f))
    }

    static lemma FilledStep(hash: seq<nat>, syms: seq<Sym>, i: nat, nb: nat, f: Hash)
      requires Filled(hash, syms, i, nb, f) && i < |syms|
      ensures var b := f(syms[i].name) % nb;
              Filled(if Global(syms[i]) then hash[2 + nb + i := hash[2 + b]][2 + b := i] else hash[2 + nb + i := 0],
                     syms, i + 1, nb, f)
    {
      var b := f(syms[i].name) % nb;
      var h := if Global(syms[i]) then hash[2 + nb + i := hash[2 + b]][2 + b := i] else hash[2 + nb + i := 0];
      forall k {:trigger LastIn(syms, i + 1, k, nb, f)} | 0 <= k < nb ensures h[2 + k] == LastIn(syms, i + 1, k, nb, f) {
        assert hash[2 + k] == LastIn(syms, i, k, nb, f);
      }
      forall j | 1 <= j < i + 1 ensures h[2 + nb + j] == Link(syms, j, nb, f) {
        assert hash[2 + b] == LastIn(syms, i, b, nb, f);
        if j < i { assert hash[2 + nb + j] == Link(syms, j, nb, f); }
      }
    }

    /** `put_elf_sym`. */
    method Put(s: Sym) returns (index: nat)
      requires Valid()
      modifies `syms, `hash, `nbHashed
      ensures Valid() && syms == old(syms) + [s] && index == |old(syms)|
    {
      hide LastIn, Link;
      index := |syms|;
      var nb := hash[0];
      ghost var was, old_hash := syms, hash;
      syms := syms + [s];
      HashedSame(was, syms, |was|);
      if Global(s) {
        var b := hashOf(s.name) % nb;
        hash := hash + [hash[2 + b]];
        hash := hash[2 + b := index];
        hash := hash[1 := hash[1] + 1];
        PutGlobal(old_hash, was, s, nb, hashOf);
        nbHashed := nbHashed + 1;
        if nbHashed > 2 * nb {
          RebuildHash(2 * nb);
        }
      } else {
        hash := hash + [0];
        hash := hash[1 := hash[1] + 1];
        PutLocal(old_hash, was, s, nb, hashOf);
      }
    }

    static lemma PutPrefix(was: seq<Sym>, s: Sym, nb: nat, f: Hash, b: nat, i: nat)
      requires 0 < nb && i < |was|
      ensures LastIn(was + [s], |was|, b, nb, f) == LastIn(was, |was|, b, nb, f)
      ensures Link(was + [s], i, nb, f) == Link(was, i, nb, f)
    {
      LastSame(was + [s], was, |was|, b, nb, f);
      LastSame(was + [s], was, i, f(was[i].name) % nb, nb, f);
    }

    static lemma PutGlobal(hash: seq<nat>, was: seq<Sym>, s: Sym, nb: nat, f: Hash)
      requires |was| > 0 && Indexed(hash, was, nb, f) && Global(s)
      ensures var b := f(s.name) % nb;
              Indexed((hash + [hash[2 + b]])[2 + b := |was|][1 := |was| + 1], was + [s], nb, f)
    {
      var b, n := f(s.name) % nb, |was|;
      var syms, h := was + [s], (hash + [hash[2 + b]])[2 + b := n][1 := n + 1];
      forall k {:trigger LastIn(syms, n + 1, k, nb, f)} | 0 <= k < nb ensures h[2 + k] == LastIn(syms, n + 1, k, nb, f) {
        PutPrefix(was, s, nb, f, k, 0);
        assert hash[2 + k] == LastIn(was, n, k, nb, f);
      }
      forall i | 1 <= i < n + 1 ensures h[2 + nb + i] == Link(syms, i, nb, f) {
        if i < n {
          PutPrefix(was, s, nb, f, b, i);
          assert hash[2 + nb + i] == Link(was, i, nb, f);
        } else {
          PutPrefix(was, s, nb, f, b, 0);
          assert hash[2 + b] == LastIn(was, n, b, nb, f);
        }
      }
    }

    static lemma PutLocal(hash: seq<nat>, was: seq<Sym>, s: Sym, nb: nat, f: Hash)
      requires |was| > 0 && Indexed(hash, was, nb, f) && !Global(s)
      ensures Indexed((hash + [0])[1 := |was| + 1], was + [s], nb, f)
    {
      var n := |was|;
      var syms, h := was + [s], (hash + [0])[1 := n + 1];
      forall k {:trigger LastIn(syms, n + 1, k, nb, f)} | 0 <= k < nb ensures h[2 + k] == LastIn(syms, n + 1, k, nb, f) {
        PutPrefix(was, s, nb, f, k, 0);
        assert hash[2 + k] == LastIn(was, n, k, nb, f);
      }
      forall i | 1 <= i < n + 1 ensures h[2 + nb + i] == Link(syms, i, nb, f) {
        if i < n {
          PutPrefix(was, s, nb, f, 0, i);
          assert hash[2 + nb + i] == Link(was, i, nb, f);
        }
      }
    }

    /** `find_elf_sym`: the walk down a chain finds what a scan of the whole table finds. */
    method Find(name: string) returns (index: nat)
      requires Valid()
      ensures index == Newest(syms, |syms|, name)
    {
      hide LastIn, Newest;
      var nb := hash[0];
      var b := hashOf(name) % nb;
      index := hash[2 + b];
      ghost var n: nat := |syms|;
      NewestBelow(syms, n, name, nb, hashOf);
      while index != 0
        invariant n <= |syms| && index == LastIn(syms, n, b, nb, hashOf)
        invariant Newest(syms, |syms|, name) == Newest(syms, n, name) <= index
        decreases index
      {
        NewestBelow(syms, n, name, nb, hashOf);
        if syms[index].name == name {
          return;
        }
        n := index;
        index := hash[2 + nb + index];
        NewestBelow(syms, n, name, nb, hashOf);
      }
    }

    /** `add_elf_sym`. */
    method Add(n: Sym) returns (index: nat)
      requires Valid()
      modifies this
      ensures Valid()
      ensures (syms, index, nbErrors) ==
              (Added(old(syms), n, isDyn).0, Added(old(syms), n, isDyn).1,
               old(nbErrors) + if Added(old(syms), n, isDyn).2 then 1 else 0)
    {
      hide LastIn, Link, Indexed, Newest;
      if n.bind == STB_LOCAL {
        index := Put(n);
        return;
      }
      index := Find(n.name);
      if index == 0 {
        index := Put(n);
        return;
      }
      var e, bad := Meet(syms[index], n);
      ghost var was := syms;
      syms := syms[index := e];
      Replaced(hash, was, syms, hashOf);
      if bad { nbErrors := nbErrors + 1; }
    }

    /** What becomes of an entry when another symbol of its name arrives. */
    method Meet(entry: Sym, n: Sym) returns (e: Sym, bad: bool)
      modifies `newUndef
      ensures (e, bad) == Resolve(entry, n, isDyn)
    {
      e, bad := entry, false;
      if e.shndx != SHN_UNDEF {
        var vis := if e.vis == STV_DEFAULT then n.vis else if n.vis == STV_DEFAULT then e.vis
                   else if e.vis < n.vis then e.vis else n.vis;
        e := e.(vis := vis);
        if n.shndx == SHN_UNDEF {
        } else if n.bind == STB_GLOBAL && e.bind == STB_WEAK {
          e := TakeOver(e, n, e.vis, e.rest);
        } else if n.bind == STB_WEAK && e.bind == STB_GLOBAL {
        } else if n.bind == STB_WEAK && e.bind == STB_WEAK {
        } else if n.vis == STV_HIDDEN || n.vis == STV_INTERNAL {
        } else if e.shndx == SHN_COMMON && (n.shndx < SHN_LORESERVE || n.shndx == SHN_COMMON) {
          e := TakeOver(e, n, e.vis, e.rest);
        } else if isDyn {
        } else {
          bad := true;
        }
      } else {
        e := TakeOver(e, n, n.vis, n.rest);
      }
    }

    /** The `do_patch` part. */
    method TakeOver(e: Sym, n: Sym, vis: nat, rest: nat) returns (r: Sym)
      modifies `newUndef
      ensures r == Patch(e, n, vis, rest) && newUndef
    {
      r := e.(bind := n.bind, typ := n.typ);
      r := r.(shndx := n.shndx);
      newUndef := true;
      r := r.(value := n.value, size := n.size, vis := vis, rest := rest);
    }

    static lemma Replaced(hash: seq<nat>, a: seq<Sym>, b: seq<Sym>, f: Hash)
      requires |a| == |b| && SameKeys(a, b, |a|) && |hash| > 0 && Indexed(hash, a, hash[0], f)
      ensures Indexed(hash, b, hash[0], f) && Hashed(a, |a|) == Hashed(b, |b|)
    {
      var nb := hash[0];
      forall k | 0 <= k < nb ensures hash[2 + k] == LastIn(b, |b|, k, nb, f) {
        LastSame(a, b, |a|, k, nb, f);
      }
      forall i | 1 <= i < |b| ensures hash[2 + nb + i] == Link(b, i, nb, f) {
        LastSame(a, b, i, f(a[i].name) % nb, nb, f);
        assert hash[2 + nb + i] == Link(a, i, nb, f);
      }
      HashedSame(a, b, |a|);
    }
  }

  /** The links of a bucket lead strictly downwards. */
  lemma ChainsDescend(hash: seq<nat>, syms: seq<Sym>, nb: nat, f: Hash, i: nat)
    requires Indexed(hash, syms, nb, f) && 1 <= i < |syms|
    ensures hash[2 + nb + i] < i
  {
    assert hash[2 + nb + i] == Link(syms, i, nb, f);
  }

  // ----- any number of requests -----

  function AddAll(syms: seq<Sym>, rs: seq<Sym>, isDyn: bool): (seq<Sym>, nat)
    decreases |rs|
  {
    if rs == [] then (syms, 0) else
    var (t, errs) := AddAll(syms, rs[..|rs| - 1], isDyn);
    var a := Added(t, rs[|rs| - 1], isDyn);
    (a.0, errs + if a.2 then 1 else 0)
  }

  /** At most one non-local entry for each name. */
  ghost predicate Unique(syms: seq<Sym>) {
    forall i, j ::
      1 <= i < |syms| && 1 <= j < |syms| && Global(syms[i]) && Global(syms[j]) && syms[i].name == syms[j].name ==>
        i == j
  }

  /** No request moves, renames, demotes or undefines an existing entry. */
  ghost predicate Extends(a: seq<Sym>, b: seq<Sym>) {
    && |a| <= |b|
    && forall i :: 0 <= i < |a| ==>
         && b[i].name == a[i].name && (Global(b[i]) <==> Global(a[i]))
         && (Defined(a[i]) ==> Defined(b[i]))
         && (!Global(a[i]) ==> b[i] == a[i])
  }

  lemma AddedExtends(syms: seq<Sym>, n: Sym, isDyn: bool)
    requires |syms| > 0 && !Global(syms[0])
    ensures var (t, i, _) := Added(syms, n, isDyn);
            && Extends(syms, t) && (Unique(syms) ==> Unique(t))
            && 0 < i < |t| && t[i].name == n.name && (Global(t[i]) <==> Global(n))
            && (Defined(n) ==> Defined(t[i]))
  {
  }

  /** Over any requests the table keeps one entry a name, at a fixed index, and what is
      defined stays defined. */
  lemma {:induction false} AddAllMonotone(syms: seq<Sym>, rs: seq<Sym>, isDyn: bool)
    requires |syms| > 0 && !Global(syms[0])
    ensures var t := AddAll(syms, rs, isDyn).0; Extends(syms, t) && (Unique(syms) ==> Unique(t))
    decreases |rs|
  {
    if rs != [] {
      AddAllMonotone(syms, rs[..|rs| - 1], isDyn);
      AddedExtends(AddAll(syms, rs[..|rs| - 1], isDyn).0, rs[|rs| - 1], isDyn);
    }
  }

  // ----- order independence -----

  predicate Strong(s: Sym) { s.bind == STB_GLOBAL && Defined(s) && s.shndx != SHN_COMMON }
  predicate Weak(s: Sym) { s.bind == STB_WEAK && Defined(s) }
  predicate Reference(s: Sym) { (s.bind == STB_GLOBAL || s.bind == STB_WEAK) && !Defined(s) }
  predicate Common(s: Sym) { s.bind == STB_GLOBAL && s.shndx == SHN_COMMON }
  predicate Shown(s: Sym) { s.vis != STV_HIDDEN && s.vis != STV_INTERNAL }

  /** Same definition: everything but the visibility bits. */
  predicate SameDefinition(a: Sym, b: Sym) {
    a.value == b.value && a.size == b.size && a.shndx == b.shndx && a.bind == b.bind && a.typ == b.typ
  }

  predicate Shared(s: Sym) { Common(s) && Shown(s) }

  function CountHits(rs: seq<Sym>, p: Sym -> bool): nat {
    if rs == [] then 0 else CountHits(rs[..|rs| - 1], p) + if p(rs[|rs| - 1]) then 1 else 0
  }

  /** Requests for one name, folded into an entry that is not there yet, and the reports. */
  function Fold(rs: seq<Sym>, isDyn: bool): (Sym, nat)
    requires rs != []
    decreases |rs|
  {
    if |rs| == 1 then (rs[0], 0) else
    var (e, errs) := Fold(rs[..|rs| - 1], isDyn);
    var (e', bad) := Resolve(e, rs[|rs| - 1], isDyn);
    (e', errs + if bad then 1 else 0)
  }

  // ----- names do not disturb each other -----

  predicate For(s: Sym, name: string) { Global(s) && s.name == name }

  /** The requests that concern `name`. */
  function ForName(rs: seq<Sym>, name: string): (r: seq<Sym>)
    ensures forall i :: 0 <= i < |r| ==> For(r[i], name)
  {
    if rs == [] then [] else
    ForName(rs[..|rs| - 1], name) + if For(rs[|rs| - 1], name) then [rs[|rs| - 1]] else []
  }

  /** The entry there is for `name`, if any. */
  function Entry(syms: seq<Sym>, name: string): (r: seq<Sym>)
    ensures |r| <= 1
  {
    var i := Newest(syms, |syms|, name);
    if i == 0 then [] else [syms[i]]
  }

  /** The reports made for `name` while `rs` are added. */
  function Reports(syms: seq<Sym>, rs: seq<Sym>, isDyn: bool, name: string): nat {
    if rs == [] then 0 else
    var init, last := rs[..|rs| - 1], rs[|rs| - 1];
    Reports(syms, init, isDyn, name) + if last.name == name && Added(AddAll(syms, init, isDyn).0, last, isDyn).2 then 1 else 0
  }

  lemma AddedEntry(syms: seq<Sym>, n: Sym, isDyn: bool, name: string)
    requires |syms| > 0
    ensures var t := Added(syms, n, isDyn).0;
            && |t| > 0
            && Entry(t, name) == if !For(n, name) then Entry(syms, name)
                                 else if Entry(syms, name) == [] then [n]
                                 else [Resolve(Entry(syms, name)[0], n, isDyn).0]
    ensures n.name == name && Added(syms, n, isDyn).2 <==>
            For(n, name) && Entry(syms, name) != [] && Resolve(Entry(syms, name)[0], n, isDyn).1
  {
    var (t, i, bad) := Added(syms, n, isDyn);
    NewestSame(t, syms, |syms|, name);
    if i == |syms| {
      assert Newest(t, |t|, name) == if For(n, name) then |syms| else Newest(t, |syms|, name);
    }
  }

  /** However requests for different names are interleaved, the entry for a name is what its
      own requests make of it, one after another, and so are the reports. */
  lemma {:induction false} FoldIsAddAll(syms: seq<Sym>, rs: seq<Sym>, isDyn: bool, name: string)
    requires |syms| > 0
    ensures var t := AddAll(syms, rs, isDyn).0;
            var own := Entry(syms, name) + ForName(rs, name);
            && |t| > 0
            && Entry(t, name) == (if own == [] then [] else [Fold(own, isDyn).0])
            && Reports(syms, rs, isDyn, name) == (if own == [] then 0 else Fold(own, isDyn).1)
    decreases |rs|
  {
    hide Newest, Added, Resolve, Entry, For, Fold;
    if rs == [] {
      FoldEntry(syms, name, isDyn);
    } else {
      var init, last := rs[..|rs| - 1], rs[|rs| - 1];
      FoldIsAddAll(syms, init, isDyn, name);
      AddedEntry(AddAll(syms, init, isDyn).0, last, isDyn, name);
      var before := Entry(syms, name) + ForName(init, name);
      var own := Entry(syms, name) + ForName(rs, name);
      if For(last, name) {
        assert own == before + [last];
        FoldSnoc(before, last, isDyn);
      } else {
        assert own == before;
      }
    }
  }

  lemma FoldEntry(syms: seq<Sym>, name: string, isDyn: bool)
    ensures var e := Entry(syms, name);
            e + [] == e && (e != [] ==> Fold(e, isDyn) == (e[0], 0))
  {
    hide Newest;
  }

  lemma FoldSnoc(rs: seq<Sym>, s: Sym, isDyn: bool)
    ensures Fold(rs + [s], isDyn) ==
            if rs == [] then (s, 0) else
            var (e, errs) := Fold(rs, isDyn);
            (Resolve(e, s, isDyn).0, errs + if Resolve(e, s, isDyn).1 then 1 else 0)
  {
    hide Resolve;
    assert (rs + [s])[..|rs + [s]| - 1] == rs;
  }

  function ReportsIn(syms: seq<Sym>, rs: seq<Sym>, isDyn: bool, names: seq<string>): nat {
    if names == [] then 0
    else Reports(syms, rs, isDyn, names[0]) + ReportsIn(syms, rs, isDyn, names[1..])
  }

  ghost predicate Distinct(names: seq<string>) {
    forall i, j :: 0 <= i < j < |names| ==> names[i] != names[j]
  }

  lemma {:induction false} ReportsOnce(syms: seq<Sym>, rs: seq<Sym>, isDyn: bool, names: seq<string>)
    requires rs != [] && Distinct(names)
    ensures var init, last := rs[..|rs| - 1], rs[|rs| - 1];
            ReportsIn(syms, rs, isDyn, names) == ReportsIn(syms, init, isDyn, names)
              + if last.name in names && Added(AddAll(syms, init, isDyn).0, last, isDyn).2 then 1 else 0
    decreases |names|
  {
    hide Added, AddAll;
    if names != [] {
      ReportsOnce(syms, rs, isDyn, names[1..]);
      assert names == [names[0]] + names[1..];
    }
  }

  /** Every report is made for one name: those of all names that occur add up to the total. */
  lemma {:induction false} ReportsAddUp(syms: seq<Sym>, rs: seq<Sym>, isDyn: bool, names: seq<string>)
    requires Distinct(names) && forall i :: 0 <= i < |rs| ==> rs[i].name in names
    ensures AddAll(syms, rs, isDyn).1 == ReportsIn(syms, rs, isDyn, names)
    decreases |rs|
  {
    hide Added;
    if rs == [] {
      NoReports(syms, isDyn, names);
    } else {
      ReportsAddUp(syms, rs[..|rs| - 1], isDyn, names);
      ReportsOnce(syms, rs, isDyn, names);
    }
  }

  lemma {:induction false} NoReports(syms: seq<Sym>, isDyn: bool, names: seq<string>)
    ensures ReportsIn(syms, [], isDyn, names) == 0
    decreases |names|
  {
    if names != [] { NoReports(syms, isDyn, names[1..]); }
  }

  // ----- a strong definition among others -----

  ghost predicate SomeCommon(rs: seq<Sym>) { exists i :: 0 <= i < |rs| && Common(rs[i]) }

  /** The strong definition `s` does not displace a common symbol: it is hidden, or absolute. */
  predicate Meek(s: Sym) { !Shown(s) || s.shndx >= SHN_LORESERVE }

  ghost predicate Lost(rs: seq<Sym>, k: nat)
    requires k < |rs|
  {
    SomeCommon(rs[..k]) && Meek(rs[k])
  }

  predicate Other(s: Sym) { Common(s) || Weak(s) || Reference(s) }

  /** Before the strong definition the entry is common as soon as one request was. */
  lemma {:induction false} NoStrongYet(rs: seq<Sym>, isDyn: bool)
    requires rs != [] && forall i :: 0 <= i < |rs| ==> Other(rs[i])
    ensures Fold(rs, isDyn).1 == 0 && Other(Fold(rs, isDyn).0)
    ensures Common(Fold(rs, isDyn).0) <==> SomeCommon(rs)
    decreases |rs|
  {
    if |rs| > 1 {
      var init := rs[..|rs| - 1];
      NoStrongYet(init, isDyn);
      SomeCommonLast(rs);
    } else {
      assert Common(rs[0]) ==> SomeCommon(rs);
    }
  }

  lemma SomeCommonLast(rs: seq<Sym>)
    requires rs != []
    ensures SomeCommon(rs) <==> SomeCommon(rs[..|rs| - 1]) || Common(rs[|rs| - 1])
  {
    var init := rs[..|rs| - 1];
    if SomeCommon(init) {
      var i :| 0 <= i < |init| && Common(init[i]);
      assert Common(rs[i]);
    }
    if SomeCommon(rs) {
      var i :| 0 <= i < |rs| && Common(rs[i]);
      assert i < |init| ==> Common(init[i]);
    }
  }

  /** One strong definition among common symbols, weak definitions and references, in any
      order. It is kept, and each visible common after it is reported, unless a common came
      before it and it is hidden or absolute: then the common is kept, and the strong
      definition itself is reported, or not even that if it is hidden. */
  lemma {:induction false} CommonOrder(rs: seq<Sym>, k: nat, isDyn: bool)
    requires k < |rs| && Strong(rs[k])
    requires forall i :: 0 <= i < |rs| && i != k ==> Other(rs[i])
    ensures var (e, errs) := Fold(rs, isDyn);
            if Lost(rs, k) then Common(e) && errs == if Shown(rs[k]) && !isDyn then 1 else 0
            else SameDefinition(e, rs[k]) && errs == if isDyn then 0 else CountHits(rs[k + 1..], Shared)
    decreases |rs|
  {
    var init := rs[..|rs| - 1];
    if k < |rs| - 1 {
      CommonOrder(init, k, isDyn);
      assert init[..k] == rs[..k] && init[k] == rs[k];
      assert rs[k + 1..][..|rs[k + 1..]| - 1] == init[k + 1..];
    } else {
      assert rs[k + 1..] == [] && rs[..k] == init;
      if |rs| > 1 { NoStrongYet(init, isDyn); }
    }
  }

  /** So a strong definition wins without a report, whatever the order, if there are no
      common symbols. */
  lemma StrongWins(rs: seq<Sym>, k: nat, isDyn: bool)
    requires k < |rs| && Strong(rs[k])
    requires forall i :: 0 <= i < |rs| && i != k ==> Weak(rs[i]) || Reference(rs[i])
    ensures SameDefinition(Fold(rs, isDyn).0, rs[k]) && Fold(rs, isDyn).1 == 0
  {
    hide Fold, CountHits;
    CommonOrder(rs, k, isDyn);
    NoHits(rs[k + 1..], Shared);
  }

  lemma {:induction false} NoHits(rs: seq<Sym>, p: Sym -> bool)
    requires forall i :: 0 <= i < |rs| ==> !p(rs[i])
    ensures CountHits(rs, p) == 0
    decreases |rs|
  {
    if rs != [] { NoHits(rs[..|rs| - 1], p); }
  }

  lemma {:induction false} ForNameSplit(a: seq<Sym>, b: seq<Sym>, name: string)
    ensures ForName(a + b, name) == ForName(a, name) + ForName(b, name)
    decreases |b|
  {
    if b == [] {
      assert a + b == a;
    } else {
      ForNameSplit(a, b[..|b| - 1], name);
      assert (a + b)[..|a + b| - 1] == a + b[..|b| - 1];
    }
  }

  lemma {:induction false} ForNameOf(rs: seq<Sym>, name: string, i: nat) returns (j: nat)
    requires i < |ForName(rs, name)|
    ensures j < |rs| && rs[j] == ForName(rs, name)[i]
    decreases |rs|
  {
    var init := rs[..|rs| - 1];
    if i < |ForName(init, name)| { j := ForNameOf(init, name, i); } else { j := |rs| - 1; }
  }

  /** Requests `a`, the strong definition `s` and requests `b`, for any names, added to a table
      without the name of `s`; only the other requests for that name matter. */
  lemma StrongInTable(syms: seq<Sym>, a: seq<Sym>, s: Sym, b: seq<Sym>, isDyn: bool)
    requires |syms| > 0 && Newest(syms, |syms|, s.name) == 0 && Strong(s)
    requires forall i :: 0 <= i < |a| && For(a[i], s.name) ==> Other(a[i])
    requires forall i :: 0 <= i < |b| && For(b[i], s.name) ==> Other(b[i])
    ensures var rs, t := a + [s] + b, AddAll(syms, a + [s] + b, isDyn).0;
            var i := Newest(t, |t|, s.name);
            && i != 0
            && if SomeCommon(ForName(a, s.name)) && Meek(s) then
                 Common(t[i]) && Reports(syms, rs, isDyn, s.name) == if Shown(s) && !isDyn then 1 else 0
               else
                 && SameDefinition(t[i], s)
                 && Reports(syms, rs, isDyn, s.name) == if isDyn then 0 else CountHits(ForName(b, s.name), Shared)
  {
    hide Newest, AddAll, Fold, Reports, CountHits, ForName, Entry, Other, Strong, SomeCommon, Meek, SameDefinition, Common;
    var rs := a + [s] + b;
    var fa, fb := ForName(a, s.name), ForName(b, s.name);
    FoldIsAddAll(syms, rs, isDyn, s.name);
    OwnRequests(a, s, b);
    var own := fa + [s] + fb;
    EntryThere(syms, s.name);
    EntryThere(AddAll(syms, rs, isDyn).0, s.name);
    assert [] + own == own;
    CommonOrder(own, |fa|, isDyn);
    assert own[..|fa|] == fa && own[|fa| + 1..] == fb && own[|fa|] == s;
  }

  lemma EntryThere(syms: seq<Sym>, name: string)
    ensures var i := Newest(syms, |syms|, name); if i == 0 then Entry(syms, name) == [] else Entry(syms, name) == [syms[i]]
  {
  }

  lemma OwnRequests(a: seq<Sym>, s: Sym, b: seq<Sym>)
    requires Strong(s)
    requires forall i :: 0 <= i < |a| && For(a[i], s.name) ==> Other(a[i])
    requires forall i :: 0 <= i < |b| && For(b[i], s.name) ==> Other(b[i])
    ensures var own := ForName(a, s.name) + [s] + ForName(b, s.name);
            && ForName(a + [s] + b, s.name) == own
            && forall i :: 0 <= i < |own| && i != |ForName(a, s.name)| ==> Other(own[i])
  {
    hide Other;
    var fa, fb := ForName(a, s.name), ForName(b, s.name);
    ForNameSplit(a + [s], b, s.name);
    ForNameSplit(a, [s], s.name);
    var own := fa + [s] + fb;
    forall i | 0 <= i < |own| && i != |fa| ensures Other(own[i]) {
      if i < |fa| { var j := ForNameOf(a, s.name, i); } else { var j := ForNameOf(b, s.name, i - |fa| - 1); }
    }
  }

  // ----- no strong definition -----

  /** Of weak definitions and references the first definition is kept, and nothing is reported. */
  lemma {:induction false} FirstWeak(rs: seq<Sym>, k: nat, isDyn: bool)
    requires k < |rs| && Weak(rs[k])
    requires forall i :: 0 <= i < k ==> Reference(rs[i])
    requires forall i :: k < i < |rs| ==> Weak(rs[i]) || Reference(rs[i])
    ensures SameDefinition(Fold(rs, isDyn).0, rs[k]) && Fold(rs, isDyn).1 == 0
    decreases |rs|
  {
    var init := rs[..|rs| - 1];
    if k < |rs| - 1 {
      FirstWeak(init, k, isDyn);
    } else if |rs| > 1 {
      LastReference(init, isDyn);
    }
  }

  /** Of references alone the last is kept. */
  lemma {:induction false} LastReference(rs: seq<Sym>, isDyn: bool)
    requires rs != [] && forall i :: 0 <= i < |rs| ==> Reference(rs[i])
    ensures Fold(rs, isDyn) == (rs[|rs| - 1].(name := rs[0].name), 0)
    decreases |rs|
  {
    if |rs| > 1 { LastReference(rs[..|rs| - 1], isDyn); }
  }

  /** Of common symbols, weak definitions and references the last visible common symbol is
      kept, or the first common one if no visible one comes after it. */
  lemma {:induction false} LastShared(rs: seq<Sym>, k: nat, isDyn: bool)
    requires k < |rs| && Common(rs[k]) && (Shown(rs[k]) || !SomeCommon(rs[..k]))
    requires forall i :: 0 <= i < |rs| ==> Other(rs[i]) && (i > k ==> !Shared(rs[i]))
    ensures SameDefinition(Fold(rs, isDyn).0, rs[k]) && Fold(rs, isDyn).1 == 0
    decreases |rs|
  {
    var init := rs[..|rs| - 1];
    if k < |rs| - 1 {
      assert init[..k] == rs[..k];
      LastShared(init, k, isDyn);
    } else {
      assert rs[..k] == init;
      if |rs| > 1 { NoStrongYet(init, isDyn); }
    }
  }

  // ----- several strong definitions -----

  predicate Rival(s: Sym) { Shown(s) && (Common(s) || Strong(s)) }

  /** The first strong definition, unless a common symbol keeps it out, is kept against all that
      follow, and each visible common symbol or strong definition after it is reported. */
  lemma {:induction false} FirstStrong(rs: seq<Sym>, k: nat, isDyn: bool)
    requires k < |rs| && Strong(rs[k]) && !Lost(rs, k)
    requires forall i :: 0 <= i < k ==> Other(rs[i])
    requires forall i :: k < i < |rs| ==> Other(rs[i]) || Strong(rs[i])
    ensures SameDefinition(Fold(rs, isDyn).0, rs[k])
    ensures Fold(rs, isDyn).1 == if isDyn then 0 else CountHits(rs[k + 1..], Rival)
    decreases |rs|
  {
    var init := rs[..|rs| - 1];
    if k < |rs| - 1 {
      assert init[..k] == rs[..k] && init[k] == rs[k];
      FirstStrong(init, k, isDyn);
      assert rs[k + 1..][..|rs[k + 1..]| - 1] == init[k + 1..];
    } else {
      assert rs[k + 1..] == [] && rs[..k] == init;
      if |rs| > 1 { NoStrongYet(init, isDyn); }
    }
  }

  // ----- visibility -----

  /** default < protected < hidden < internal */
  function Strictness(vis: nat): nat {
    if vis == STV_DEFAULT then 0 else if vis == STV_HIDDEN then 2 else if vis == STV_INTERNAL then 3 else 1
  }

  /** Once a name is defined the strictest visibility asked for it holds, whatever definition
      is kept. */
  lemma {:induction false} StrictestHolds(rs: seq<Sym>, isDyn: bool)
    requires rs != [] && Defined(rs[0]) && forall i :: 0 <= i < |rs| ==> rs[i].vis <= 3
    ensures var e := Fold(rs, isDyn).0;
            && Defined(e) && e.vis <= 3 && e.name == rs[0].name && e.rest == rs[0].rest
            && (forall i :: 0 <= i < |rs| ==> Strictness(rs[i].vis) <= Strictness(e.vis))
            && exists i :: 0 <= i < |rs| && rs[i].vis == e.vis
    decreases |rs|
  {
    if |rs| > 1 {
      var init, last := rs[..|rs| - 1], rs[|rs| - 1];
      StrictestHolds(init, isDyn);
      var was, e := Fold(init, isDyn).0, Fold(rs, isDyn).0;
      var i :| 0 <= i < |init| && init[i].vis == was.vis;
      assert rs[i].vis == was.vis && (e.vis == was.vis || e.vis == last.vis);
    } else {
      assert rs[0].vis == Fold(rs, isDyn).0.vis;
    }
  }

  /** A table without the name of the weak definition `w`, and requests for any names, none
      before `w` and no strong or common one after it defining that name. */
  lemma WeakInTable(syms: seq<Sym>, a: seq<Sym>, w: Sym, b: seq<Sym>, isDyn: bool)
    requires |syms| > 0 && Newest(syms, |syms|, w.name) == 0 && Weak(w)
    requires forall i :: 0 <= i < |a| && For(a[i], w.name) ==> Reference(a[i])
    requires forall i :: 0 <= i < |b| && For(b[i], w.name) ==> Weak(b[i]) || Reference(b[i])
    ensures var rs, t := a + [w] + b, AddAll(syms, a + [w] + b, isDyn).0;
            var i := Newest(t, |t|, w.name);
            i != 0 && SameDefinition(t[i], w) && Reports(syms, rs, isDyn, w.name) == 0
  {
    hide Newest, AddAll, Fold, Reports, ForName, Entry, Weak, Reference, SameDefinition;
    var rs := a + [w] + b;
    var fa, fb := ForName(a, w.name), ForName(b, w.name);
    FoldIsAddAll(syms, rs, isDyn, w.name);
    ForNameSplit(a + [w], b, w.name);
    ForNameSplit(a, [w], w.name);
    WeakFor(w);
    var own := fa + [w] + fb;
    EntryThere(syms, w.name);
    EntryThere(AddAll(syms, rs, isDyn).0, w.name);
    assert [] + own == own;
    forall i | 0 <= i < |fa| ensures Reference(own[i]) { var j := ForNameOf(a, w.name, i); }
    forall i | |fa| < i < |own| ensures Weak(own[i]) || Reference(own[i]) {
      var j := ForNameOf(b, w.name, i - |fa| - 1);
      assert own[i] == fb[i - |fa| - 1];
    }
    FirstWeak(own, |fa|, isDyn);
  }

  lemma WeakFor(w: Sym)
    requires Weak(w)
    ensures ForName([w], w.name) == [w]
  {
    assert ForName([], w.name) == [];
  }

  const STRONG := Sym("x", 8, 4, STB_GLOBAL, 1, STV_DEFAULT, 0, 3)
  const SHARED := Sym("x", 4, 4, STB_GLOBAL, 1, STV_DEFAULT, 0, SHN_COMMON)

  /** Two orders of the same requests with different reports. */
  lemma CommonOrderMatters()
    ensures Fold([SHARED, STRONG], false).1 == 0 && Fold([STRONG, SHARED], false).1 == 1
  {
    assert [SHARED, STRONG][..1] == [SHARED] && [STRONG, SHARED][..1] == [STRONG];
  }

  /** An absolute definition after a common symbol is reported and lost. */
  lemma AbsoluteLost()
    ensures Fold([SHARED, STRONG.(shndx := SHN_ABS)], false) == (SHARED, 1)
  {
    assert [SHARED, STRONG.(shndx := SHN_ABS)][..1] == [SHARED];
  }

  /** A hidden definition after a common symbol is lost without a word. */
  lemma HiddenLost()
    ensures Fold([SHARED, STRONG.(vis := STV_HIDDEN)], false) == (SHARED.(vis := STV_HIDDEN), 0)
  {
    assert [SHARED, STRONG.(vis := STV_HIDDEN)][..1] == [SHARED];
  }
}
