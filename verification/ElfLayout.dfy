/** Where sections go in memory and in the file: a read-only and a writable segment, and
    after them the sections that are not loaded. */
module ElfLayout {
  import opened Arith

  /** The five groups in which a segment is laid out. */
  datatype Kind = Interp | Symbols | Relocations | Bits | NoBits

  function Group(k: Kind): nat {
    match k
    case Interp => 0
    case Symbols => 1
    case Relocations => 2
    case Bits => 3
    case NoBits => 4
  }

  datatype Sec = Sec(alloc: bool, write: bool, kind: Kind, align: nat, size: nat)

  /** What a section takes up in the file. */
  function Stored(s: Sec): nat { if s.kind.NoBits? then 0 else s.size }

  datatype Cursor = Cursor(addr: nat, off: nat)

  ghost predicate Aligned(secs: seq<Sec>) { forall i :: 0 <= i < |secs| ==> secs[i].align > 0 && PowerOf2(secs[i].align) }

  // ----- the order -----

  predicate Chosen(s: Sec, j: nat, k: nat) { s.alloc && (s.write <==> j == 1) && Group(s.kind) == k }

  /** The sections of segment `j` and group `k` among the first `n`, in order. */
  function Visit(secs: seq<Sec>, j: nat, k: nat, n: nat): seq<nat>
    requires n <= |secs|
  {
    if n <= 1 then [] else
    Visit(secs, j, k, n - 1) + if Chosen(secs[n - 1], j, k) then [n - 1] else []
  }

  /** The first `k` groups of segment `j`. */
  function Segment(secs: seq<Sec>, j: nat, k: nat): seq<nat> {
    if k == 0 then [] else Segment(secs, j, k - 1) + Visit(secs, j, k - 1, |secs|)
  }

  /** The sections that come after the segments, among the first `n`. */
  function Others(secs: seq<Sec>, segments: bool, n: nat): seq<nat>
    requires n <= |secs|
  {
    if n <= 1 then [] else
    Others(secs, segments, n - 1) + if segments && secs[n - 1].alloc then [] else [n - 1]
  }

  function Order(secs: seq<Sec>, segments: bool): seq<nat> {
    (if segments then Segment(secs, 0, 5) + Segment(secs, 1, 5) else []) + Others(secs, segments, |secs|)
  }

  // ----- laying out a list of sections -----

  predicate InRange(secs: seq<Sec>, l: seq<nat>) { forall p :: 0 <= p < |l| ==> l[p] < |secs| }

  function Align(c: Cursor, s: Sec): Cursor
    requires s.align > 0
  {
    var a := AlignUp(c.addr, s.align);
    Cursor(a, c.off + (a - c.addr))
  }

  function After(c: Cursor, s: Sec): Cursor { Cursor(c.addr + s.size, c.off + Stored(s)) }

  /** The cursor once the sections of `l` are laid out from `c`. */
  function Run(secs: seq<Sec>, l: seq<nat>, c: Cursor): Cursor
    requires Aligned(secs) && InRange(secs, l)
    decreases |l|
  {
    if l == [] then c else
    var s := secs[l[|l| - 1]];
    After(Align(Run(secs, l[..|l| - 1], c), s), s)
  }

  /** Where section `l[p]` is put. */
  function PlaceOf(secs: seq<Sec>, l: seq<nat>, c: Cursor, p: nat): Cursor
    requires Aligned(secs) && InRange(secs, l) && p < |l|
  {
    Align(Run(secs, l[..p], c), secs[l[p]])
  }

  /** In the middle of a page the page is mapped twice; a flat file goes on at the next one. */
  function Between(c: Cursor, sa: nat, elf: bool): Cursor
    requires sa > 0
  {
    if elf then (if c.addr % sa != 0 then c.(addr := c.addr + sa) else c)
    else Cursor(AlignUp(c.addr, sa), AlignUp(c.off, sa))
  }

  /** The start: the address and the file offset agree within a page. */
  function Start(base: nat, isText: bool, header: nat, sa: nat): Cursor
    requires sa > 0
  {
    if isText then
      var a, p := base % sa, header % sa;
      Cursor(base, header + ((if a < p then a + sa else a) - p))
    else Cursor(base + header % sa, header)
  }

  // ----- the order is a permutation -----

  lemma {:induction false} VisitIn(secs: seq<Sec>, j: nat, k: nat, n: nat, i: nat)
    requires n <= |secs|
    ensures i in Visit(secs, j, k, n) <==> 1 <= i < n && Chosen(secs[i], j, k)
    decreases n
  {
    if n > 1 { VisitIn(secs, j, k, n - 1, i); }
  }

  lemma {:induction false} SegmentIn(secs: seq<Sec>, j: nat, k: nat, i: nat)
    requires k <= 5
    ensures i in Segment(secs, j, k) <==> 1 <= i < |secs| && secs[i].alloc && (secs[i].write <==> j == 1) && Group(secs[i].kind) < k
    decreases k
  {
    hide Visit;
    if k > 0 {
      SegmentIn(secs, j, k - 1, i);
      VisitIn(secs, j, k - 1, |secs|, i);
    }
  }

  lemma {:induction false} OthersIn(secs: seq<Sec>, segments: bool, n: nat, i: nat)
    requires n <= |secs|
    ensures i in Others(secs, segments, n) <==> 1 <= i < n && !(segments && secs[i].alloc)
    decreases n
  {
    if n > 1 { OthersIn(secs, segments, n - 1, i); }
  }

  ghost predicate Distinct(l: seq<nat>) { forall p, q :: 0 <= p < q < |l| ==> l[p] != l[q] }

  lemma DistinctConcat(a: seq<nat>, b: seq<nat>)
    requires Distinct(a) && Distinct(b) && forall i :: i in a ==> i !in b
    ensures Distinct(a + b)
  {
    var l := a + b;
    forall p, q | 0 <= p < q < |l| ensures l[p] != l[q] {
      if p < |a| && q >= |a| { assert l[p] in a && l[q] in b; }
    }
  }

  lemma {:induction false} VisitDistinct(secs: seq<Sec>, j: nat, k: nat, n: nat)
    requires n <= |secs|
    ensures Distinct(Visit(secs, j, k, n))
    decreases n
  {
    if n > 1 {
      VisitDistinct(secs, j, k, n - 1);
      var v := Visit(secs, j, k, n - 1);
      forall p | 0 <= p < |v| ensures v[p] < n - 1 { VisitIn(secs, j, k, n - 1, v[p]); }
    }
  }

  lemma {:induction false} SegmentDistinct(secs: seq<Sec>, j: nat, k: nat)
    requires k <= 5
    ensures Distinct(Segment(secs, j, k))
    decreases k
  {
    hide Visit, Distinct;
    if k == 0 {
      NothingDistinct();
    } else {
      SegmentDistinct(secs, j, k - 1);
      VisitDistinct(secs, j, k - 1, |secs|);
      var a, b := Segment(secs, j, k - 1), Visit(secs, j, k - 1, |secs|);
      forall i | i in a ensures i !in b {
        SegmentIn(secs, j, k - 1, i);
        VisitIn(secs, j, k - 1, |secs|, i);
      }
      DistinctConcat(a, b);
    }
  }

  lemma NothingDistinct()
    ensures Distinct([])
  {
  }

  lemma {:induction false} OthersDistinct(secs: seq<Sec>, segments: bool, n: nat)
    requires n <= |secs|
    ensures Distinct(Others(secs, segments, n))
    decreases n
  {
    if n > 1 {
      OthersDistinct(secs, segments, n - 1);
      var v := Others(secs, segments, n - 1);
      forall p | 0 <= p < |v| ensures v[p] < n - 1 { OthersIn(secs, segments, n - 1, v[p]); }
    }
  }

  /** Every section but the null one is in the order exactly once. */
  lemma OrderPermutes(secs: seq<Sec>, segments: bool)
    ensures Distinct(Order(secs, segments))
    ensures forall i: nat :: i in Order(secs, segments) <==> 1 <= i < |secs|
  {
    var a, b, c := Segment(secs, 0, 5), Segment(secs, 1, 5), Others(secs, segments, |secs|);
    OthersDistinct(secs, segments, |secs|);
    forall i: nat ensures i in Order(secs, segments) <==> 1 <= i < |secs| {
      SegmentIn(secs, 0, 5, i);
      SegmentIn(secs, 1, 5, i);
      OthersIn(secs, segments, |secs|, i);
    }
    if segments {
      SegmentDistinct(secs, 0, 5);
      SegmentDistinct(secs, 1, 5);
      forall i | i in a ensures i !in b && i !in c {
        SegmentIn(secs, 0, 5, i);
        SegmentIn(secs, 1, 5, i);
        OthersIn(secs, segments, |secs|, i);
      }
      forall i | i in b ensures i !in c {
        SegmentIn(secs, 1, 5, i);
        OthersIn(secs, segments, |secs|, i);
      }
      DistinctConcat(a, b);
      DistinctConcat(a + b, c);
    } else {
      assert [] + c == c;
    }
  }

  lemma SegmentRange(secs: seq<Sec>, j: nat, k: nat)
    requires k <= 5
    ensures InRange(secs, Segment(secs, j, k))
  {
    forall p | 0 <= p < |Segment(secs, j, k)| ensures Segment(secs, j, k)[p] < |secs| {
      SegmentIn(secs, j, k, Segment(secs, j, k)[p]);
    }
  }

  // ----- one segment -----

  /** Later sections lie above earlier ones, in memory and in the file, at their alignment. */
  lemma {:induction false} RunSeparates(secs: seq<Sec>, l: seq<nat>, c: Cursor, p: nat, n: nat)
    requires Aligned(secs) && InRange(secs, l) && p < n <= |l|
    ensures var a, z := PlaceOf(secs, l, c, p), Run(secs, l[..n], c);
            && c.addr <= a.addr && c.off <= a.off && a.addr % secs[l[p]].align == 0
            && a.addr + secs[l[p]].size <= z.addr && a.off + Stored(secs[l[p]]) <= z.off
    decreases n
  {
    hide PowerOf2;
    RunGrows(secs, l[..p], c);
    assert l[..n][..n - 1] == l[..n - 1];
    if p < n - 1 {
      RunSeparates(secs, l, c, p, n - 1);
    }
  }

  lemma {:induction false} RunGrows(secs: seq<Sec>, l: seq<nat>, c: Cursor)
    requires Aligned(secs) && InRange(secs, l)
    ensures var z := Run(secs, l, c); c.addr <= z.addr && c.off <= z.off
    decreases |l|
  {
    if l != [] { RunGrows(secs, l[..|l| - 1], c); }
  }

  /** What sections without contents add to memory alone. */
  function Unstored(secs: seq<Sec>, l: seq<nat>): nat
    requires InRange(secs, l)
    decreases |l|
  {
    if l == [] then 0 else
    Unstored(secs, l[..|l| - 1]) + (secs[l[|l| - 1]].size - Stored(secs[l[|l| - 1]]))
  }

  /** Address and offset part company by exactly that. */
  lemma {:induction false} RunDrift(secs: seq<Sec>, l: seq<nat>, c: Cursor)
    requires Aligned(secs) && InRange(secs, l)
    ensures var z := Run(secs, l, c); z.addr - z.off == c.addr - c.off + Unstored(secs, l)
    decreases |l|
  {
    if l != [] { RunDrift(secs, l[..|l| - 1], c); }
  }

  lemma {:induction false} AllStored(secs: seq<Sec>, l: seq<nat>)
    requires InRange(secs, l) && forall p :: 0 <= p < |l| ==> !secs[l[p]].kind.NoBits?
    ensures Unstored(secs, l) == 0
    decreases |l|
  {
    if l != [] { AllStored(secs, l[..|l| - 1]); }
  }

  /** Sections without contents come last in a segment. */
  lemma StoredFirst(secs: seq<Sec>, j: nat, p: nat)
    requires p < |Segment(secs, j, 5)|
    ensures InRange(secs, Segment(secs, j, 5))
    ensures !secs[Segment(secs, j, 5)[p]].kind.NoBits? ==>
              forall q :: 0 <= q <= p ==> !secs[Segment(secs, j, 5)[q]].kind.NoBits?
  {
    SegmentRange(secs, j, 5);
    var l, head, tail := Segment(secs, j, 5), Segment(secs, j, 4), Visit(secs, j, 4, |secs|);
    assert l == head + tail;
    if p < |head| {
      forall q | 0 <= q <= p ensures !secs[l[q]].kind.NoBits? { SegmentIn(secs, j, 4, head[q]); assert l[q] == head[q]; }
    } else {
      assert l[p] == tail[p - |head|];
      VisitIn(secs, j, 4, |secs|, l[p]);
    }
  }

  // ----- the whole image -----

  datatype Image = Image(secs: seq<Sec>, base: nat, isText: bool, header: nat, sa: nat, elf: bool)

  ghost predicate ImageOk(m: Image) { Aligned(m.secs) && m.sa > 0 && PowerOf2(m.sa) }

  function Low(m: Image): seq<nat> { Segment(m.secs, 0, 5) }
  function High(m: Image): seq<nat> { Segment(m.secs, 1, 5) }

  function LowStart(m: Image): Cursor
    requires m.sa > 0
  {
    Start(m.base, m.isText, m.header, m.sa)
  }

  function LowEnd(m: Image): Cursor
    requires ImageOk(m)
  {
    SegmentRange(m.secs, 0, 5);
    Run(m.secs, Low(m), LowStart(m))
  }

  function HighStart(m: Image): Cursor
    requires ImageOk(m)
  {
    Between(LowEnd(m), m.sa, m.elf)
  }

  function LowPlace(m: Image, p: nat): Cursor
    requires ImageOk(m) && p < |Low(m)|
  {
    SegmentRange(m.secs, 0, 5);
    PlaceOf(m.secs, Low(m), LowStart(m), p)
  }

  function HighPlace(m: Image, p: nat): Cursor
    requires ImageOk(m) && p < |High(m)|
  {
    SegmentRange(m.secs, 1, 5);
    PlaceOf(m.secs, High(m), HighStart(m), p)
  }

  /** Every writable section lies above every read-only one, in memory, in the file, and in
      a page of its own. */
  lemma SegmentsApart(m: Image, p: nat, q: nat)
    requires ImageOk(m) && p < |Low(m)| && q < |High(m)|
    ensures Low(m)[p] < |m.secs| && High(m)[q] < |m.secs|
    ensures var s, a, b := m.secs[Low(m)[p]], LowPlace(m, p), HighPlace(m, q);
            && a.addr + s.size <= b.addr && a.off + Stored(s) <= b.off
            && (s.size > 0 ==> (a.addr + s.size - 1) / m.sa < b.addr / m.sa)
  {
    hide Run, PowerOf2;
    SegmentRange(m.secs, 0, 5);
    SegmentRange(m.secs, 1, 5);
    var s, a, b := m.secs[Low(m)[p]], LowPlace(m, p), HighPlace(m, q);
    assert Low(m)[..|Low(m)|] == Low(m) && High(m)[..|High(m)|] == High(m);
    RunSeparates(m.secs, Low(m), LowStart(m), p, |Low(m)|);
    RunSeparates(m.secs, High(m), HighStart(m), q, |High(m)|);
    NextPage(LowEnd(m), m.sa, m.elf);
    if s.size > 0 {
      DivMono(a.addr + s.size - 1, LowEnd(m).addr - 1, m.sa);
      DivMono(HighStart(m).addr, b.addr, m.sa);
    }
  }

  /** The writable segment starts on a page that the read-only one has not reached. */
  lemma NextPage(c: Cursor, sa: nat, elf: bool)
    requires sa > 0
    ensures var z := Between(c, sa, elf);
            c.addr <= z.addr && c.off <= z.off && (c.addr - 1) / sa < z.addr / sa
  {
    var z := Between(c, sa, elf);
    var d, r := c.addr / sa, c.addr % sa;
    assert c.addr == d * sa + r;
    if r == 0 {
      DivUnique(c.addr - 1, d - 1, sa - 1, sa);
      DivMono(c.addr, z.addr, sa);
    } else {
      DivUnique(c.addr - 1, d, r - 1, sa);
      if elf {
        DivUnique(z.addr, d + 1, r, sa);
      } else {
        var k := z.addr / sa;
        assert z.addr == k * sa;
        if k <= d { MulLess(k, d, sa); }
      }
    }
  }

  lemma MulLess(k: int, d: int, a: int)
    requires k <= d && a > 0
    ensures k * a <= d * a
  {
    if k < d { MulAtLeast(d - k, a); }
  }

  // ----- addresses and offsets agree within a page -----

  ghost predicate Agree(c: Cursor, sa: nat)
    requires sa > 0
  {
    (c.addr - c.off) % sa == 0
  }

  /** The start agrees: always for a given text address, otherwise if the base is a page. */
  lemma StartAgrees(m: Image)
    requires ImageOk(m)
    ensures Agree(LowStart(m), m.sa) <==> m.isText || m.base % m.sa == 0
  {
    hide PowerOf2, Start;
    if m.isText {
      TextStart(m.base, m.header, m.sa);
    } else {
      PageStart(m.base, m.header, m.sa);
    }
  }

  lemma TextStart(b: nat, h: nat, sa: nat)
    requires sa > 0
    ensures Agree(Start(b, true, h, sa), sa)
  {
    var c := Start(b, true, h, sa);
    var k: int, n: int, x: int, y: int := b / sa, h / sa, b % sa, h % sa;
    assert b == k * sa + x && h == n * sa + y;
    MulDiff(k, n, sa);
    var lift := if x < y then sa else 0;
    assert lift % sa == 0 by { ModMul(1, sa); }
    ModMul(k - n, sa);
    assert c.addr - c.off == (k - n) * sa - lift;
    DifferenceOf((k - n) * sa, lift, sa);
  }

  lemma PageStart(b: nat, h: nat, sa: nat)
    requires sa > 0
    ensures Agree(Start(b, false, h, sa), sa) <==> b % sa == 0
  {
    var c := Start(b, false, h, sa);
    var n: int := h / sa;
    assert h == n * sa + h % sa;
    MulDiff(0, n, sa);
    assert c.addr - c.off == b + (0 - n) * sa;
    ModAdd(b, 0 - n, sa);
  }

  lemma DriftTo(secs: seq<Sec>, l: seq<nat>, c: Cursor, p: nat)
    requires Aligned(secs) && InRange(secs, l) && p < |l|
    requires forall q :: 0 <= q < p ==> !secs[l[q]].kind.NoBits?
    ensures var a := PlaceOf(secs, l, c, p); a.addr - a.off == c.addr - c.off
  {
    RunDrift(secs, l[..p], c);
    AllStored(secs, l[..p]);
  }

  /** A read-only section with contents agrees whenever the start does. */
  lemma LowAgrees(m: Image, p: nat)
    requires ImageOk(m) && p < |Low(m)| && Low(m)[p] < |m.secs| && !m.secs[Low(m)[p]].kind.NoBits?
    ensures Agree(LowPlace(m, p), m.sa) <==> Agree(LowStart(m), m.sa)
  {
    SegmentRange(m.secs, 0, 5);
    StoredFirst(m.secs, 0, p);
    DriftTo(m.secs, Low(m), LowStart(m), p);
  }

  /** A writable section with contents agrees, in a flat file, always, and in an ELF file
      exactly when the read-only sections without contents fill whole pages: what they add
      to memory alone is carried over to the second segment. */
  lemma HighAgrees(m: Image, q: nat)
    requires ImageOk(m) && Agree(LowStart(m), m.sa)
    requires q < |High(m)| && High(m)[q] < |m.secs| && !m.secs[High(m)[q]].kind.NoBits?
    ensures InRange(m.secs, Low(m))
    ensures Agree(HighPlace(m, q), m.sa) <==> !m.elf || Unstored(m.secs, Low(m)) % m.sa == 0
  {
    hide PowerOf2;
    SegmentRange(m.secs, 0, 5);
    SegmentRange(m.secs, 1, 5);
    StoredFirst(m.secs, 1, q);
    DriftTo(m.secs, High(m), HighStart(m), q);
    RunDrift(m.secs, Low(m), LowStart(m));
    BetweenAgrees(LowStart(m), LowEnd(m), m.sa, m.elf, Unstored(m.secs, Low(m)));
  }

  lemma BetweenAgrees(s: Cursor, e: Cursor, sa: nat, elf: bool, u: nat)
    requires sa > 0 && Agree(s, sa) && e.addr - e.off == s.addr - s.off + u
    ensures Agree(Between(e, sa, elf), sa) <==> !elf || u % sa == 0
  {
    if elf {
      DriftAdds(s.addr - s.off, u, sa);
      DriftAdds(sa, e.addr - e.off, sa);
      ModMul(1, sa);
    } else {
      DifferenceOf(AlignUp(e.addr, sa), AlignUp(e.off, sa), sa);
    }
  }

  lemma DriftAdds(d: int, u: int, sa: nat)
    requires sa > 0 && d % sa == 0
    ensures (d + u) % sa == u % sa
  {
    var k := d / sa;
    assert d == k * sa;
    ModAdd(u, k, sa);
  }

  lemma DifferenceOf(x: int, y: int, a: int)
    requires a > 0 && x % a == 0 && y % a == 0
    ensures (x - y) % a == 0
  {
    var p, q := x / a, y / a;
    assert x == p * a && y == q * a;
    MulDiff(p, q, a);
    ModMul(p - q, a);
  }

  const ELF_START := 0x08048000

  /** A read-only section without contents and a writable one with contents. */
  const UNEVEN := [Sec(false, false, Bits, 1, 0), Sec(true, false, NoBits, 4, 4), Sec(true, true, Bits, 4, 4)]

  lemma PageOk(sa: nat)
    requires sa == 0x1000 || sa == 0x10000
    ensures PowerOf2(1) && PowerOf2(4) && PowerOf2(sa)
  {
    assert PowerOf2(4) && PowerOf2(16) && PowerOf2(64) && PowerOf2(256) && PowerOf2(1024) && PowerOf2(4096);
    assert PowerOf2(0x4000) && PowerOf2(0x10000);
  }

  /** An ELF image that starts in step, with a writable section that is out of step. */
  lemma WritableDrifts()
    ensures var m := Image(UNEVEN, ELF_START, false, 0x94, 0x1000, true);
            && ImageOk(m) && Agree(LowStart(m), m.sa)
            && High(m) == [2] && !Agree(HighPlace(m, 0), m.sa)
  {
    hide PowerOf2, HighPlace;
    var m := Image(UNEVEN, ELF_START, false, 0x94, 0x1000, true);
    PageOk(0x1000);
    StartAgrees(m);
    UnevenSegment(0, 5);
    UnevenSegment(1, 5);
    HighAgrees(m, 0);
    assert Low(m)[..0] == [];
    assert Unstored(m.secs, Low(m)) == 4;
  }

  lemma UnevenVisit(j: nat, k: nat)
    requires j < 2 && k < 5
    ensures Visit(UNEVEN, j, k, 3) == if j == 0 && k == 4 then [1] else if j == 1 && k == 3 then [2] else []
  {
    assert Visit(UNEVEN, j, k, 1) == [];
    assert Visit(UNEVEN, j, k, 2) == if j == 0 && k == 4 then [1] else [];
  }

  lemma {:induction false} UnevenSegment(j: nat, k: nat)
    requires j < 2 && k <= 5
    ensures Segment(UNEVEN, j, k) == if j == 0 && k == 5 then [1] else if j == 1 && k > 3 then [2] else []
    decreases k
  {
    hide Visit;
    if k > 0 {
      UnevenSegment(j, k - 1);
      UnevenVisit(j, k - 1);
    }
  }

  /** Sections aligned to more than the default base is a multiple of: nothing is in step. */
  lemma StartDrifts()
    ensures var m := Image(UNEVEN, ELF_START, false, 0x94, 0x10000, true);
            ImageOk(m) && !Agree(LowStart(m), m.sa)
  {
    hide PowerOf2;
    var m := Image(UNEVEN, ELF_START, false, 0x94, 0x10000, true);
    PageOk(0x10000);
    StartAgrees(m);
  }

  /** Within a list later sections lie above earlier ones. */
  lemma ListApart(secs: seq<Sec>, l: seq<nat>, c: Cursor, p: nat, q: nat)
    requires Aligned(secs) && InRange(secs, l) && p < q < |l|
    ensures var s, a, b := secs[l[p]], PlaceOf(secs, l, c, p), PlaceOf(secs, l, c, q);
            a.addr + s.size <= b.addr && a.off + Stored(s) <= b.off && b.addr % secs[l[q]].align == 0
  {
    hide PowerOf2;
    RunSeparates(secs, l, c, p, q);
  }

  // ----- and nothing is skipped -----

  /** The first multiple of `align` from `from` on. */
  predicate Least(x: int, from: int, align: int) { align > 0 && from <= x < from + align && x % align == 0 }

  /** Section `s` is put at `a`, as soon after `z` as its alignment lets it, in memory and as
      much later in the file. */
  predicate Follows(a: Cursor, z: Cursor, s: Sec) {
    Least(a.addr, z.addr, s.align) && a.off - z.off == a.addr - z.addr
  }

  /** Where the image begins: at the text address, or behind the headers in the page of the
      base; in the file behind the headers too, or as soon after them as it agrees with the
      text address within a page. */
  ghost predicate Begins(m: Image, z: Cursor)
    requires m.sa > 0
  {
    if m.isText then z.addr == m.base && m.header <= z.off < m.header + m.sa && (z.addr - z.off) % m.sa == 0
    else z.addr == m.base + m.header % m.sa && z.off == m.header
  }

  /** Where list `l`, its sections at `places`, ends if it begins at `z`. */
  function EndOf(secs: seq<Sec>, l: seq<nat>, places: seq<Cursor>, z: Cursor): Cursor
    requires InRange(secs, l) && |places| == |l|
  {
    if l == [] then z else
    var s, a := secs[l[|l| - 1]], places[|l| - 1];
    Cursor(a.addr + s.size, a.off + if s.kind.NoBits? then 0 else s.size)
  }

  /** Every section of the list follows the one before it, and the first one `z`. */
  ghost predicate Tight(secs: seq<Sec>, l: seq<nat>, places: seq<Cursor>, z: Cursor) {
    && InRange(secs, l) && |places| == |l|
    && forall p :: 0 <= p < |l| ==> Follows(places[p], EndOf(secs, l[..p], places[..p], z), secs[l[p]])
  }

  function Places(secs: seq<Sec>, l: seq<nat>, c: Cursor): (r: seq<Cursor>)
    requires Aligned(secs) && InRange(secs, l)
    ensures |r| == |l|
  {
    seq(|l|, p requires 0 <= p < |l| => PlaceOf(secs, l, c, p))
  }

  lemma RunEnd(secs: seq<Sec>, l: seq<nat>, c: Cursor)
    requires Aligned(secs) && InRange(secs, l)
    ensures Run(secs, l, c) == EndOf(secs, l, Places(secs, l, c), c)
  {
    hide PowerOf2;
  }

  lemma RunTight(secs: seq<Sec>, l: seq<nat>, c: Cursor)
    requires Aligned(secs) && InRange(secs, l)
    ensures Tight(secs, l, Places(secs, l, c), c)
  {
    hide PowerOf2, Run, EndOf;
    forall p | 0 <= p < |l| ensures Follows(Places(secs, l, c)[p], EndOf(secs, l[..p], Places(secs, l, c)[..p], c), secs[l[p]]) {
      PlacesPrefix(secs, l, c, p);
      RunEnd(secs, l[..p], c);
    }
  }

  lemma PlacesPrefix(secs: seq<Sec>, l: seq<nat>, c: Cursor, p: nat)
    requires Aligned(secs) && InRange(secs, l) && p <= |l|
    ensures Places(secs, l, c)[..p] == Places(secs, l[..p], c)
  {
    hide PowerOf2;
    forall q | 0 <= q < p ensures Places(secs, l, c)[q] == Places(secs, l[..p], c)[q] {
      assert l[..p][..q] == l[..q];
    }
  }

  /** From the end `e` of the read-only sections to the beginning `z` of the writable ones: a page
      further if that is inside a page, or to the next page in a flat file. */
  predicate Moves(e: Cursor, z: Cursor, sa: nat, elf: bool)
    requires sa > 0
  {
    if elf then z.off == e.off && z.addr == e.addr + (if e.addr % sa == 0 then 0 else sa)
    else Least(z.addr, e.addr, sa) && Least(z.off, e.off, sa)
  }

  function LowPlaces(m: Image): (r: seq<Cursor>)
    requires ImageOk(m)
    ensures |r| == |Low(m)| && forall p :: 0 <= p < |r| ==> r[p] == LowPlace(m, p)
  {
    SegmentRange(m.secs, 0, 5);
    Places(m.secs, Low(m), LowStart(m))
  }

  function HighPlaces(m: Image): (r: seq<Cursor>)
    requires ImageOk(m)
    ensures |r| == |High(m)| && forall p :: 0 <= p < |r| ==> r[p] == HighPlace(m, p)
  {
    SegmentRange(m.secs, 1, 5);
    Places(m.secs, High(m), HighStart(m))
  }

  /** The read-only sections are tight from `z` on, the writable ones from `y` on. */
  ghost predicate TightFrom(m: Image, z: Cursor, y: Cursor)
    requires ImageOk(m)
  {
    && InRange(m.secs, Low(m)) && InRange(m.secs, High(m))
    && Begins(m, z) && Tight(m.secs, Low(m), LowPlaces(m), z)
    && Moves(EndOf(m.secs, Low(m), LowPlaces(m), z), y, m.sa, m.elf)
    && Tight(m.secs, High(m), HighPlaces(m), y) && HighEnd(m) == EndOf(m.secs, High(m), HighPlaces(m), y)
  }

  /** The image begins where it should, and each section as soon after the one before it as it
      can; the writable ones after the end of the others, moved on within memory as `Moves`
      says. */
  lemma ImageTight(m: Image)
    requires ImageOk(m)
    ensures exists z, y :: TightFrom(m, z, y)
  {
    hide PowerOf2, Run, EndOf, Tight, Segment;
    SegmentRange(m.secs, 0, 5);
    SegmentRange(m.secs, 1, 5);
    var z, y := LowStart(m), HighStart(m);
    StartBegins(m);
    RunTight(m.secs, Low(m), z);
    RunEnd(m.secs, Low(m), z);
    RunTight(m.secs, High(m), y);
    RunEnd(m.secs, High(m), y);
    BetweenMoves(LowEnd(m), m.sa, m.elf);
    assert TightFrom(m, z, y);
  }

  lemma StartBegins(m: Image)
    requires ImageOk(m)
    ensures Begins(m, LowStart(m))
  {
    hide PowerOf2;
    if m.isText { TextStart(m.base, m.header, m.sa); }
  }

  lemma BetweenMoves(e: Cursor, sa: nat, elf: bool)
    requires sa > 0
    ensures Moves(e, Between(e, sa, elf), sa, elf)
  {
  }

  /** There is one place to begin. */
  lemma BeginsOnce(m: Image, y: Cursor, z: Cursor)
    requires m.sa > 0 && Begins(m, y) && Begins(m, z)
    ensures y == z
  {
    if m.isText { CloseMultiples(y.addr - y.off, z.addr - z.off, m.sa); }
  }

  lemma CloseMultiples(a: int, b: int, n: nat)
    requires n > 0 && a % n == 0 && b % n == 0 && a - b < n && b - a < n
    ensures a == b
  {
    DifferenceOf(a, b, n);
    var k := (a - b) / n;
    assert a - b == k * n;
    if k >= 1 { MulLess(1, k, n); }
    if k <= -1 { MulLess(k, -1, n); }
  }

  // ----- which comes first -----

  /** Read-only sections come before writable ones, and those that are not loaded last. */
  function PartOf(s: Sec, segments: bool): nat {
    if !(segments && s.alloc) then 2 else if s.write then 1 else 0
  }

  /** The interpreter, then symbols, relocations, contents, and what has none. */
  function PlaceOfKind(s: Sec, segments: bool): nat {
    if PartOf(s, segments) == 2 then 0 else
    match s.kind
    case Interp => 1
    case Symbols => 2
    case Relocations => 3
    case Bits => 4
    case NoBits => 5
  }

  predicate Before(secs: seq<Sec>, segments: bool, i: nat, j: nat)
    requires i < |secs| && j < |secs|
  {
    var a, b := secs[i], secs[j];
    || PartOf(a, segments) < PartOf(b, segments)
    || (PartOf(a, segments) == PartOf(b, segments) && PlaceOfKind(a, segments) < PlaceOfKind(b, segments))
    || (PartOf(a, segments) == PartOf(b, segments) && PlaceOfKind(a, segments) == PlaceOfKind(b, segments) && i < j)
  }

  ghost predicate InOrder(secs: seq<Sec>, segments: bool, l: seq<nat>) {
    InRange(secs, l) && forall p, q :: 0 <= p < q < |l| ==> Before(secs, segments, l[p], l[q])
  }

  lemma InOrderConcat(secs: seq<Sec>, segments: bool, a: seq<nat>, b: seq<nat>)
    requires InOrder(secs, segments, a) && InOrder(secs, segments, b)
    requires forall i, j :: i in a && j in b ==> Before(secs, segments, i, j)
    ensures InOrder(secs, segments, a + b)
  {
    var l := a + b;
    forall p, q | 0 <= p < q < |l| ensures Before(secs, segments, l[p], l[q]) {
      if p < |a| <= q { assert l[p] in a && l[q] in b; }
    }
  }

  lemma NothingInOrder(secs: seq<Sec>, segments: bool)
    ensures InOrder(secs, segments, [])
  {
  }

  lemma OneInOrder(secs: seq<Sec>, segments: bool, i: nat)
    requires i < |secs|
    ensures InOrder(secs, segments, [i])
  {
  }

  lemma {:induction false} VisitInOrder(secs: seq<Sec>, j: nat, k: nat, n: nat)
    requires n <= |secs| && j < 2 && k < 5
    ensures InOrder(secs, true, Visit(secs, j, k, n))
    decreases n
  {
    hide InOrder;
    if n <= 1 {
      NothingInOrder(secs, true);
    } else {
      VisitInOrder(secs, j, k, n - 1);
      var v := Visit(secs, j, k, n - 1);
      assert v + [] == v;
      if Chosen(secs[n - 1], j, k) {
        OneInOrder(secs, true, n - 1);
        forall i | i in v ensures i < n - 1 && Before(secs, true, i, n - 1) { VisitIn(secs, j, k, n - 1, i); }
        InOrderConcat(secs, true, v, [n - 1]);
      }
    }
  }

  lemma {:induction false} SegmentInOrder(secs: seq<Sec>, j: nat, k: nat)
    requires j < 2 && k <= 5
    ensures InOrder(secs, true, Segment(secs, j, k))
    decreases k
  {
    hide InOrder, Visit;
    if k == 0 {
      NothingInOrder(secs, true);
    } else {
      SegmentInOrder(secs, j, k - 1);
      VisitInOrder(secs, j, k - 1, |secs|);
      var a, b := Segment(secs, j, k - 1), Visit(secs, j, k - 1, |secs|);
      SegmentRange(secs, j, k - 1);
      forall x, y | x in a && y in b ensures x < |secs| && y < |secs| && Before(secs, true, x, y) {
        SegmentIn(secs, j, k - 1, x);
        VisitIn(secs, j, k - 1, |secs|, y);
      }
      InOrderConcat(secs, true, a, b);
    }
  }

  lemma {:induction false} OthersInOrder(secs: seq<Sec>, segments: bool, n: nat)
    requires n <= |secs|
    ensures InOrder(secs, segments, Others(secs, segments, n))
    decreases n
  {
    hide InOrder;
    if n <= 1 {
      NothingInOrder(secs, segments);
    } else {
      OthersInOrder(secs, segments, n - 1);
      var v := Others(secs, segments, n - 1);
      assert v + [] == v;
      if !(segments && secs[n - 1].alloc) {
        OneInOrder(secs, segments, n - 1);
        forall i | i in v ensures i < n - 1 && Before(secs, segments, i, n - 1) { OthersIn(secs, segments, n - 1, i); }
        InOrderConcat(secs, segments, v, [n - 1]);
      }
    }
  }

  /** The order is by segment, by kind, and by number. */
  lemma OrderSorts(secs: seq<Sec>, segments: bool)
    ensures InOrder(secs, segments, Order(secs, segments))
  {
    hide InOrder, Segment, Others;
    var c := Others(secs, segments, |secs|);
    OthersInOrder(secs, segments, |secs|);
    assert [] + c == c;
    if segments {
      var a, b := Segment(secs, 0, 5), Segment(secs, 1, 5);
      SegmentInOrder(secs, 0, 5);
      SegmentInOrder(secs, 1, 5);
      forall x, y | x in a && y in b ensures x < |secs| && y < |secs| && Before(secs, true, x, y) {
        SegmentIn(secs, 0, 5, x);
        SegmentIn(secs, 1, 5, y);
      }
      InOrderConcat(secs, true, a, b);
      forall x, y | x in a + b && y in c ensures x < |secs| && y < |secs| && Before(secs, true, x, y) {
        SegmentIn(secs, 0, 5, x);
        SegmentIn(secs, 1, 5, x);
        OthersIn(secs, true, |secs|, y);
      }
      InOrderConcat(secs, true, a + b, c);
    }
  }

  // ----- sections that are not loaded -----

  function RunOff(secs: seq<Sec>, l: seq<nat>, off: nat): nat
    requires Aligned(secs) && InRange(secs, l)
    decreases |l|
  {
    if l == [] then off else
    var s := secs[l[|l| - 1]];
    AlignUp(RunOff(secs, l[..|l| - 1], off), s.align) + Stored(s)
  }

  function OffOf(secs: seq<Sec>, l: seq<nat>, off: nat, p: nat): nat
    requires Aligned(secs) && InRange(secs, l) && p < |l|
  {
    AlignUp(RunOff(secs, l[..p], off), secs[l[p]].align)
  }

  lemma {:induction false} OthersApart(secs: seq<Sec>, l: seq<nat>, off: nat, p: nat, n: nat)
    requires Aligned(secs) && InRange(secs, l) && p < n <= |l|
    ensures off <= OffOf(secs, l, off, p) && OffOf(secs, l, off, p) + Stored(secs[l[p]]) <= RunOff(secs, l[..n], off)
    decreases n
  {
    hide PowerOf2;
    assert l[..n][..n - 1] == l[..n - 1];
    OffGrows(secs, l[..p], off);
    if p < n - 1 { OthersApart(secs, l, off, p, n - 1); }
  }

  lemma {:induction false} OffGrows(secs: seq<Sec>, l: seq<nat>, off: nat)
    requires Aligned(secs) && InRange(secs, l)
    ensures off <= RunOff(secs, l, off)
    decreases |l|
  {
    if l != [] { OffGrows(secs, l[..|l| - 1], off); }
  }

  /** They are put at the least aligned offset each: the first from `off` on, every other from
      the end of the one before it. */
  lemma OthersTight(secs: seq<Sec>, l: seq<nat>, off: nat, p: nat)
    requires Aligned(secs) && InRange(secs, l) && p < |l|
    ensures var from := if p == 0 then off else OffOf(secs, l, off, p - 1) + if secs[l[p - 1]].kind.NoBits? then 0 else secs[l[p - 1]].size;
            Least(OffOf(secs, l, off, p), from, secs[l[p]].align)
  {
    hide PowerOf2;
    if p > 0 { assert l[..p][..p - 1] == l[..p - 1]; }
  }

  // ----- the code -----

  /** The places in `at` are those of list `l` laid out from `c`. */
  ghost predicate Laid(secs: seq<Sec>, at: seq<Cursor>, l: seq<nat>, c: Cursor) {
    && Aligned(secs) && InRange(secs, l) && |at| == |secs|
    && forall p :: 0 <= p < |l| ==> at[l[p]] == PlaceOf(secs, l, c, p)
  }

  lemma LaidMore(secs: seq<Sec>, at: seq<Cursor>, l: seq<nat>, c: Cursor, i: nat)
    requires Laid(secs, at, l, c) && i < |secs| && i !in l
    ensures InRange(secs, l + [i])
    ensures var a := Align(Run(secs, l, c), secs[i]);
            Laid(secs, at[i := a], l + [i], c) && Run(secs, l + [i], c) == After(a, secs[i])
  {
    hide Run, Align, PowerOf2;
    var l', a := l + [i], Align(Run(secs, l, c), secs[i]);
    assert l'[..|l|] == l;
    forall p | 0 <= p < |l'| ensures at[i := a][l'[p]] == PlaceOf(secs, l', c, p) {
      if p < |l| { assert l'[..p] == l[..p] && l'[p] == l[p]; }
    }
    RunPush(secs, l, i, c);
  }

  lemma RunPush(secs: seq<Sec>, l: seq<nat>, i: nat, c: Cursor)
    requires Aligned(secs) && InRange(secs, l) && i < |secs|
    ensures InRange(secs, l + [i]) && Run(secs, l + [i], c) == After(Align(Run(secs, l, c), secs[i]), secs[i])
  {
    assert (l + [i])[..|l|] == l;
  }

  class Layouter {
    const secs: seq<Sec>
    var at: seq<Cursor>
    var order: seq<nat>
    var cur: Cursor

    constructor (secs: seq<Sec>)
      ensures this.secs == secs && |at| == |secs| && order == []
    {
      this.secs, at, order, cur := secs, seq(|secs|, _ => Cursor(0, 0)), [], Cursor(0, 0);
    }

    /** One of the two loops over groups and sections. */
    method LaySegment(j: nat)
      requires Aligned(secs) && |at| == |secs| && j < 2
      modifies this
      ensures |at| == |secs| && order == old(order) + Segment(secs, j, 5)
      ensures InRange(secs, Segment(secs, j, 5)) && Laid(secs, at, Segment(secs, j, 5), old(cur))
      ensures cur == Run(secs, Segment(secs, j, 5), old(cur))
      ensures forall x :: 0 <= x < |secs| && x !in Segment(secs, j, 5) ==> at[x] == old(at)[x]
    {
      hide Segment, Laid, Run, PowerOf2, Aligned;
      ghost var c := cur;
      var k := 0;
      SegmentStart(secs, at, j, c);
      while k < 5
        invariant 0 <= k <= 5 && |at| == |secs| && order == old(order) + Segment(secs, j, k)
        invariant InRange(secs, Segment(secs, j, k)) && Laid(secs, at, Segment(secs, j, k), c)
        invariant cur == Run(secs, Segment(secs, j, k), c)
        invariant forall x :: 0 <= x < |secs| && x !in Segment(secs, j, k) ==> at[x] == old(at)[x]
      {
        LayGroup(j, k, Segment(secs, j, k), c);
        SegmentNext(secs, j, k);
        k := k + 1;
      }
    }

    static lemma SegmentStart(secs: seq<Sec>, at: seq<Cursor>, j: nat, c: Cursor)
      requires Aligned(secs) && |at| == |secs|
      ensures Segment(secs, j, 0) == [] && Laid(secs, at, [], c) && Run(secs, [], c) == c
    {
    }

    static lemma SegmentNext(secs: seq<Sec>, j: nat, k: nat)
      ensures Segment(secs, j, k + 1) == Segment(secs, j, k) + Visit(secs, j, k, |secs|)
    {
    }

    /** The loop over sections. */
    method LayGroup(j: nat, k: nat, ghost l: seq<nat>, ghost c: Cursor)
      requires Aligned(secs) && |at| == |secs| && j < 2 && k < 5
      requires l == Segment(secs, j, k) && InRange(secs, l) && Laid(secs, at, l, c) && cur == Run(secs, l, c)
      modifies this
      ensures var l' := l + Visit(secs, j, k, |secs|);
              && |at| == |secs| && order == old(order) + Visit(secs, j, k, |secs|)
              && InRange(secs, l') && Laid(secs, at, l', c) && cur == Run(secs, l', c)
              && forall x :: 0 <= x < |secs| && x !in l' ==> at[x] == old(at)[x]
    {
      hide Segment, Laid, Run, PowerOf2;
      ghost var done := l;
      var i := 1;
      assert l + [] == l && order + [] == order;
      while i < |secs|
        invariant 1 <= i && (i <= |secs| || |secs| <= 1) && |at| == |secs|
        invariant done == l + Visit(secs, j, k, if i <= |secs| then i else |secs|)
        invariant order == old(order) + Visit(secs, j, k, if i <= |secs| then i else |secs|)
        invariant InRange(secs, done) && Laid(secs, at, done, c) && cur == Run(secs, done, c)
        invariant forall x :: 0 <= x < |secs| && x !in done ==> at[x] == old(at)[x]
      {
        var s := secs[i];
        assert s == secs[i] && (s.alloc && (s.write <==> j == 1) && Group(s.kind) == k <==> Chosen(s, j, k));
        if s.alloc && (s.write <==> j == 1) && Group(s.kind) == k {
          NotYet(secs, j, k, i, done);
          LaidMore(secs, at, done, c, i);
          order := order + [i];
          var addr := AlignUp(cur.addr, s.align);
          var off := cur.off + (addr - cur.addr);
          at := at[i := Cursor(addr, off)];
          addr := addr + s.size;
          if !s.kind.NoBits? { off := off + s.size; }
          cur := Cursor(addr, off);
          done := done + [i];
        } else {
          assert Visit(secs, j, k, i + 1) == Visit(secs, j, k, i);
        }
        i := i + 1;
      }
    }

    static lemma NotYet(secs: seq<Sec>, j: nat, k: nat, i: nat, done: seq<nat>)
      requires 1 <= i < |secs| && k < 5 && Chosen(secs[i], j, k) && done == Segment(secs, j, k) + Visit(secs, j, k, i)
      ensures i !in done
    {
      SegmentIn(secs, j, k, i);
      VisitIn(secs, j, k, i, i);
    }

    /** The layout part of `elf_output_file`. */
    method Layout(m: Image, segments: bool)
      requires m.secs == secs && ImageOk(m) && |at| == |secs| && order == []
      modifies this
      ensures order == Order(secs, segments) && |at| == |secs|
      ensures segments ==> forall p :: 0 <= p < |Low(m)| ==> Low(m)[p] < |at| && at[Low(m)[p]] == LowPlace(m, p)
      ensures segments ==> forall p :: 0 <= p < |High(m)| ==> High(m)[p] < |at| && at[High(m)[p]] == HighPlace(m, p)
      ensures InRange(secs, Others(secs, segments, |secs|))
      ensures var l := Others(secs, segments, |secs|);
              var off := if segments then HighEnd(m).off else m.header;
              forall p :: 0 <= p < |l| ==> at[l[p]].off == OffOf(secs, l, off, p)
    {
      hide Segment, Run, PowerOf2, Aligned, Others, Start, Between, PlaceOf, OffOf, RunOff;
      var off := m.header;
      if segments {
        SetStart(m);
        LaySegment(0);
        ghost var low := at;
        NextSegment(m);
        LaySegment(1);
        SegmentsDiffer(m.secs);
        off := cur.off;
      }
      ghost var laid := at;
      LayOthers(segments, off);
      OthersDiffer(m.secs);
      SegmentRange(secs, 0, 5);
      SegmentRange(secs, 1, 5);
    }

    /** The address of the first section, and room in the file to match it. */
    method SetStart(m: Image)
      requires m.sa > 0
      modifies `cur
      ensures cur == LowStart(m)
    {
      if m.isText {
        cur := Cursor(m.base, m.header);
        var a, p := cur.addr % m.sa, cur.off % m.sa;
        if a < p { a := a + m.sa; }
        cur := Cursor(cur.addr, cur.off + (a - p));
      } else {
        cur := Cursor(m.base + m.header % m.sa, m.header);
      }
    }

    method NextSegment(m: Image)
      requires m.sa > 0
      modifies `cur
      ensures cur == Between(old(cur), m.sa, m.elf)
    {
      if m.elf {
        if cur.addr % m.sa != 0 { cur := Cursor(cur.addr + m.sa, cur.off); }
      } else {
        cur := Cursor(AlignUp(cur.addr, m.sa), AlignUp(cur.off, m.sa));
      }
    }

    static lemma SegmentsDiffer(secs: seq<Sec>)
      ensures forall p :: 0 <= p < |Segment(secs, 0, 5)| ==> Segment(secs, 0, 5)[p] !in Segment(secs, 1, 5)
    {
      hide Segment;
      forall p | 0 <= p < |Segment(secs, 0, 5)| ensures Segment(secs, 0, 5)[p] !in Segment(secs, 1, 5) {
        SegmentIn(secs, 0, 5, Segment(secs, 0, 5)[p]);
        SegmentIn(secs, 1, 5, Segment(secs, 0, 5)[p]);
      }
    }

    static lemma OthersDiffer(secs: seq<Sec>)
      ensures forall p :: 0 <= p < |Segment(secs, 0, 5)| ==> Segment(secs, 0, 5)[p] !in Others(secs, true, |secs|)
      ensures forall p :: 0 <= p < |Segment(secs, 1, 5)| ==> Segment(secs, 1, 5)[p] !in Others(secs, true, |secs|)
    {
      hide Segment;
      forall p | 0 <= p < |Segment(secs, 0, 5)| ensures Segment(secs, 0, 5)[p] !in Others(secs, true, |secs|) {
        SegmentIn(secs, 0, 5, Segment(secs, 0, 5)[p]);
        OthersIn(secs, true, |secs|, Segment(secs, 0, 5)[p]);
      }
      forall p | 0 <= p < |Segment(secs, 1, 5)| ensures Segment(secs, 1, 5)[p] !in Others(secs, true, |secs|) {
        SegmentIn(secs, 1, 5, Segment(secs, 1, 5)[p]);
        OthersIn(secs, true, |secs|, Segment(secs, 1, 5)[p]);
      }
    }

    /** All other sections come after. */
    method LayOthers(segments: bool, start: nat)
      requires Aligned(secs) && |at| == |secs|
      modifies this
      ensures |at| == |secs| && order == old(order) + Others(secs, segments, |secs|)
      ensures InRange(secs, Others(secs, segments, |secs|))
      ensures var l := Others(secs, segments, |secs|); forall p :: 0 <= p < |l| ==> at[l[p]].off == OffOf(secs, l, start, p)
      ensures forall x :: 0 <= x < |secs| && x !in Others(secs, segments, |secs|) ==> at[x] == old(at)[x]
    {
      hide PowerOf2, RunOff, OffOf;
      var off := start;
      ghost var l: seq<nat> := [];
      var i := 1;
      OffStart(secs, start);
      assert order + [] == order;
      while i < |secs|
        invariant 1 <= i && (i <= |secs| || |secs| <= 1) && |at| == |secs|
        invariant l == Others(secs, segments, if i <= |secs| then i else |secs|) && order == old(order) + l
        invariant InRange(secs, l) && off == RunOff(secs, l, start) && forall p :: 0 <= p < |l| ==> l[p] < i
        invariant forall p :: 0 <= p < |l| ==> at[l[p]].off == OffOf(secs, l, start, p)
        invariant forall x :: 0 <= x < |secs| && x !in l ==> at[x] == old(at)[x]
      {
        var s := secs[i];
        if !(segments && s.alloc) {
          OffPush(secs, l, i, start);
          order := order + [i];
          off := AlignUp(off, s.align);
          at := at[i := at[i].(off := off)];
          if !s.kind.NoBits? { off := off + s.size; }
          l := l + [i];
        }
        i := i + 1;
      }
    }

    static lemma OffStart(secs: seq<Sec>, off: nat)
      requires Aligned(secs)
      ensures RunOff(secs, [], off) == off
    {
    }

    static lemma OffPush(secs: seq<Sec>, l: seq<nat>, i: nat, off: nat)
      requires Aligned(secs) && InRange(secs, l) && i < |secs|
      ensures InRange(secs, l + [i])
      ensures OffOf(secs, l + [i], off, |l|) == AlignUp(RunOff(secs, l, off), secs[i].align)
      ensures RunOff(secs, l + [i], off) == AlignUp(RunOff(secs, l, off), secs[i].align) + Stored(secs[i])
      ensures forall p :: 0 <= p < |l| ==> OffOf(secs, l + [i], off, p) == OffOf(secs, l, off, p)
    {
      assert (l + [i])[..|l|] == l;
      assert forall p :: 0 <= p < |l| ==> (l + [i])[..p] == l[..p];
    }
  }

  function HighEnd(m: Image): Cursor
    requires ImageOk(m)
  {
    SegmentRange(m.secs, 1, 5);
    Run(m.secs, High(m), HighStart(m))
  }
}
