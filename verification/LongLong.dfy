/** 64-bit operations lowered to 32-bit ones on the value stack of a 32-bit target.
    A stack entry is what it denotes when the code emitted so far has run: one word, or a
    pair of registers. */
module LongLong {
  import opened Arith
  import opened Words

  const W := 0x1_0000_0000
  const WW := 0x1_0000_0000_0000_0000

  datatype Val = Word(w: nat) | Long(lo: nat, hi: nat)

  predicate Fits(v: Val) { if v.Word? then v.w < W else v.lo < W && v.hi < W }

  function Join(lo: int, hi: int): int { lo + W * hi }

  // ----- what the target's instructions compute -----

  datatype Op32 = Plus | Times | AddC1 | AddC2 | SubC1 | SubC2 | Umull | Bit(b: BitOp) | ShlI | ShrI | SarI

  function Result(op: Op32, a: nat, b: nat, carry: nat): (r: Val)
    requires a < W && b < W && carry <= 1
    ensures Fits(r)
  {
    Pow2Values();
    match op
    case Plus => Word((a + b) % W)
    case Times => Word(a * b % W)
    case AddC1 => Word((a + b) % W)
    case AddC2 => Word((a + b + carry) % W)
    case SubC1 => Word((a - b) % W)
    case SubC2 => Word((a - b - carry) % W)
    case Umull => UmullFits(a, b); Long(a * b % W, a * b / W)
    case Bit(o) => Word(Bitwise(o, a, b, 32))
    case ShlI => Word(Shl(a, b % 32, 32))
    case ShrI => Word(Shr(a, b % 32))
    case SarI => Word(Sar(a, b % 32, 32))
  }

  lemma UmullFits(a: nat, b: nat)
    requires a < W && b < W
    ensures 0 <= a * b / W < W
  {
    if a > 0 { MulAtLeast(W - b, a); }
    assert a * b <= a * W;
    assert a * b < W * W;
  }

  function Carry(op: Op32, a: nat, b: nat): (c: nat)
    requires a < W && b < W
    ensures c <= 1
  {
    match op
    case AddC1 => if a + b >= W then 1 else 0
    case SubC1 => if a < b then 1 else 0
    case _ => 0
  }

  // ----- what the 64-bit operations mean -----

  datatype Op64 = Add | Sub | Mul | Bits(b: BitOp)

  function Apply(op: Op64, x: nat, y: nat): int {
    match op
    case Add => (x + y) % WW
    case Sub => (x - y) % WW
    case Mul => x * y % WW
    case Bits(o) => Bitwise(o, x, y, 64)
  }

  datatype ShiftOp = SHL | SHR | SAR

  function Shifted(op: ShiftOp, x: nat, c: nat): nat
    requires x < Pow2(64)
  {
    match op
    case SHL => Shl(x, c, 64)
    case SHR => Shr(x, c)
    case SAR => Sar(x, c, 64)
  }

  lemma ModIs(x: int, k: int, r: int)
    requires x == r + k * WW && 0 <= r < WW
    ensures x % WW == r
  {
  }

  lemma AddHalves(l1: nat, h1: nat, l2: nat, h2: nat)
    requires l1 < W && h1 < W && l2 < W && h2 < W
    ensures var c := Carry(AddC1, l1, l2);
            Join((l1 + l2) % W, (h1 + h2 + c) % W) == (Join(l1, h1) + Join(l2, h2)) % WW
  {
    var c := Carry(AddC1, l1, l2);
    var d := if h1 + h2 + c >= W then 1 else 0;
    assert (l1 + l2) % W == l1 + l2 - c * W;
    assert (h1 + h2 + c) % W == h1 + h2 + c - d * W;
    ModIs(Join(l1, h1) + Join(l2, h2), d, Join(l1 + l2 - c * W, h1 + h2 + c - d * W));
  }

  lemma SubHalves(l1: nat, h1: nat, l2: nat, h2: nat)
    requires l1 < W && h1 < W && l2 < W && h2 < W
    ensures var c := Carry(SubC1, l1, l2);
            Join((l1 - l2) % W, (h1 - h2 - c) % W) == (Join(l1, h1) - Join(l2, h2)) % WW
  {
    var c := Carry(SubC1, l1, l2);
    var d := if h1 < h2 + c then 1 else 0;
    assert (l1 - l2) % W == l1 - l2 + c * W;
    assert (h1 - h2 - c) % W == h1 - h2 - c + d * W;
    ModIs(Join(l1, h1) - Join(l2, h2), -d, Join(l1 - l2 + c * W, h1 - h2 - c + d * W));
  }

  /** The school product of two two-digit numbers, with what overflows thrown away. */
  lemma MulHalves(l1: nat, h1: nat, l2: nat, h2: nat)
    requires l1 < W && h1 < W && l2 < W && h2 < W
    ensures var p := l1 * l2;
            Join(p % W, (p / W + (h1 * l2 % W + l1 * h2 % W) % W) % W) == Join(l1, h1) * Join(l2, h2) % WW
  {
    var p, u, v := l1 * l2, h1 * l2, l1 * h2;
    var q := h1 * h2;
    var m := (p / W + (u % W + v % W) % W) % W;
    var k := (p / W + (u % W + v % W) % W) / W + (u % W + v % W) / W + u / W + v / W;
    assert p / W + u + v == m + k * W;
    Expand(l1, h1, l2, h2);
    assert Join(l1, h1) * Join(l2, h2) == p + W * (u + v) + WW * q;
    assert p + W * (u + v) + WW * q == Join(p % W, m) + (k + q) * WW;
    assert p >= 0 && 0 <= p % W < W && 0 <= m < W;
    ModIs(Join(l1, h1) * Join(l2, h2), k + q, Join(p % W, m));
  }

  lemma Expand(l1: int, h1: int, l2: int, h2: int)
    ensures (l1 + W * h1) * (l2 + W * h2) == l1 * l2 + W * (h1 * l2 + l1 * h2) + WW * (h1 * h2)
  {
    var a, b := W * h1, W * h2;
    assert (l1 + a) * (l2 + b) == l1 * l2 + a * l2 + l1 * b + a * b;
    MulAssoc(W, h1, l2);
    MulAssoc(l1, W, h2);
    assert a * b == WW * (h1 * h2) by { MulAssoc(W * h1, W, h2); MulAssoc(W, W, h1 * h2); MulAssoc(W, h1, h2); }
  }

  lemma BitHalves(o: BitOp, l1: nat, h1: nat, l2: nat, h2: nat)
    requires l1 < W && h1 < W && l2 < W && h2 < W
    ensures Join(Bitwise(o, l1, l2, 32), Bitwise(o, h1, h2, 32)) == Bitwise(o, Join(l1, h1), Join(l2, h2), 64)
  {
    hide Bitwise, Pow2;
    Pow2Values();
    BitwiseSplit(o, l1, h1, l2, h2, 32, 32);
  }

  // ----- shifts by a constant -----

  /** `2^c * 2^(32 - c)` is a word's worth. */
  lemma Halves(c: nat) returns (p: nat, q: nat)
    requires c <= 32
    ensures p == Pow2(c) && q == Pow2(32 - c) && p * q == W && p > 0 && q > 0
  {
    p, q := Pow2(c), Pow2(32 - c);
    Pow2Add(c, 32 - c);
    Pow2Values();
  }

  /** A word shifted left loses its upper `c` bits, which is what the other shift keeps. */
  lemma ShlWord(x: nat, c: nat) returns (a: nat, b: nat)
    requires x < W && 1 <= c <= 31
    ensures x == a * Pow2(32 - c) + b && b < Pow2(32 - c) && a < Pow2(c)
    ensures Shr(x, 32 - c) == a && Shl(x, c, 32) == Pow2(c) * b
    ensures x * Pow2(c) == a * W + Pow2(c) * b && Pow2(c) * b < W
  {
    hide Pow2;
    Pow2Values();
    var p, q := Halves(c);
    a, b := x / q, x % q;
    assert x == a * q + b;
    if a >= p { MulAtLeastBoth(a, p, q); }
    MulAssoc(a, q, p);
    MulCommutes(q, p);
    MulCommutes(b, p);
    assert x * p == (a * q) * p + b * p;
    MulBelow(p, b, q);
    DivUnique(x * p, a, p * b, W);
  }

  lemma MulAtLeastBoth(a: int, p: int, q: int)
    requires a >= p && q > 0
    ensures a * q >= p * q
  {
  }

  /** `b < q` leaves `p * b` below `p * q`. */
  lemma MulBelow(p: int, b: int, q: int)
    requires p > 0 && 0 <= b < q
    ensures 0 <= p * b <= p * (q - 1) < p * q
  {
  }

  lemma ShlHalves(lo: nat, hi: nat, c: nat)
    requires lo < W && hi < W && 1 <= c <= 31
    ensures Join(Shl(lo, c, 32), Bitwise(Or, Shr(lo, 32 - c), Shl(hi, c, 32), 32)) == Shl(Join(lo, hi), c, 64)
  {
    hide Pow2, Bitwise, Shl, Shr;
    Pow2Values();
    var a, b := ShlWord(lo, c);
    var a2, b2 := ShlWord(hi, c);
    OrDisjoint(a, b2, c, 32);
    var p := Pow2(c);
    PairTimes(lo, hi, p, a, p * b, a2, p * b2);
    ShlIs(Join(lo, hi), c);
  }

  lemma PairTimes(lo: nat, hi: nat, p: nat, a: nat, l: nat, a2: nat, h: nat)
    requires lo * p == a * W + l && hi * p == a2 * W + h && l < W && a + h < W
    ensures Join(lo, hi) * p % WW == Join(l, a + h)
  {
    MulAssoc(W, hi, p);
    assert Join(lo, hi) * p == lo * p + W * (hi * p);
    DivUnique(Join(lo, hi) * p, a2, Join(l, a + h), WW);
  }

  lemma ShlIs(x: nat, c: nat)
    ensures Shl(x, c, 64) == x * Pow2(c) % WW
  {
    hide Pow2;
    Pow2Values();
  }

  /** The bits of the upper word that cross over. */
  lemma Crossing(hi: nat, s: int, t: int, p: nat, q: nat)
    requires hi == s + t * W && p * q == W && p > 0 && q > 0
    ensures hi * q % W == q * (s % p) < W
  {
    var a, b := s / p, s % p;
    assert s == a * p + b;
    MulBelow(q, b, p);
    MulCommutes(p, q);
    assert hi * q == (a * p) * q + b * q + (t * W) * q;
    MulAssoc(a, p, q);
    MulAssoc(t, W, q);
    MulAssoc(t, q, W);
    assert hi * q == (a + t * q) * W + q * b;
    DivUnique(hi * q, a + t * q, q * b, W);
  }

  /** Dividing a pair by `p`: the upper word's remainder moves into the lower word. */
  lemma PairDivided(lo: nat, s: int, p: nat, q: nat)
    requires lo < W && p * q == W && p > 0 && q > 0
    ensures Join(lo, s) / p == Join(lo / p + q * (s % p), s / p) && 0 <= lo / p < q
  {
    var a, b := s / p, s % p;
    var d, e := lo / p, lo % p;
    assert s == a * p + b && lo == d * p + e;
    DivLess(lo, p);
    if d >= q { MulAtLeastBoth(d, q, p); }
    MulAssoc(p, q, s);
    assert q * s == q * (a * p) + q * b;
    MulAssoc(q, a, p);
    MulCommutes(q, a);
    MulAssoc(a, q, p);
    assert q * s == a * W + q * b;
    assert Join(lo, s) == (d + q * b + W * a) * p + e;
    DivUnique(Join(lo, s), d + q * b + W * a, e, p);
  }

  /** The upper word, read as `s`, spills its low bits into the lower one. */
  lemma ShrHalves(lo: nat, hi: nat, s: int, t: int, c: nat)
    requires lo < W && hi < W && hi == s + t * W && 1 <= c <= 31
    ensures var l := Bitwise(Or, Shl(hi, 32 - c, 32), Shr(lo, c), 32);
            Join(l, s / Pow2(c)) == Join(lo, s) / Pow2(c) && l < W
  {
    hide Pow2, Bitwise, Shl, Shr;
    Pow2Values();
    var p, q := Halves(c);
    Crossing(hi, s, t, p, q);
    PairDivided(lo, s, p, q);
    ShlShrAre(hi, lo, c);
    OrDisjoint(lo / p, s % p, 32 - c, 32);
  }

  lemma ShlShrAre(hi: nat, lo: nat, c: nat)
    requires 1 <= c <= 31
    ensures Shl(hi, 32 - c, 32) == hi * Pow2(32 - c) % W && Shr(lo, c) == lo / Pow2(c)
  {
    hide Pow2;
    Pow2Values();
  }

  /** The signed reading of a pair is decided by its upper word. */
  lemma SignedPair(lo: nat, hi: nat)
    requires lo < W && hi < W
    ensures Join(lo, hi) < Pow2(64) && hi < Pow2(32)
    ensures Signed(Join(lo, hi), 64) == Join(lo, Signed(hi, 32))
  {
    hide Pow2;
    Pow2Values();
  }

  lemma JoinLow(l: nat, y: int)
    requires l < W
    ensures Join(l, y) % WW == Join(l, y % W)
  {
    DivUnique(Join(l, y), y / W, Join(l, y % W), WW);
  }

  /** The other reading of a word is off by a multiple of the word size. */
  lemma SignedOff(hi: nat) returns (s: int, t: int)
    requires hi < W
    ensures hi < Pow2(32) && s == Signed(hi, 32) && hi == s + t * W && -0x8000_0000 <= s < 0x8000_0000
    ensures t == if hi < 0x8000_0000 then 0 else 1
  {
    hide Pow2;
    Pow2Values();
    s := Signed(hi, 32);
    t := if hi < 0x8000_0000 then 0 else 1;
  }

  lemma SarIs(lo: nat, hi: nat, c: nat)
    requires lo < W && hi < W
    ensures hi < Pow2(32) && Join(lo, hi) < Pow2(64)
    ensures Sar(Join(lo, hi), c, 64) == Join(lo, Signed(hi, 32)) / Pow2(c) % WW
    ensures Sar(hi, c, 32) == Signed(hi, 32) / Pow2(c) % W
  {
    hide Pow2;
    Pow2Values();
    SignedPair(lo, hi);
  }

  /** Both right shifts by less than a word. */
  lemma ShrPair(lo: nat, hi: nat, c: nat)
    requires lo < W && hi < W && 1 <= c <= 31
    ensures hi < Pow2(32) && Join(lo, hi) < Pow2(64)
    ensures var l := Bitwise(Or, Shl(hi, 32 - c, 32), Shr(lo, c), 32);
            && Join(l, Shr(hi, c)) == Shr(Join(lo, hi), c)
            && Join(l, Sar(hi, c, 32)) == Sar(Join(lo, hi), c, 64)
  {
    hide Pow2, Bitwise, Signed;
    Pow2Values();
    ShrHalves(lo, hi, hi, 0, c);
    var s, t := SignedOff(hi);
    ShrHalves(lo, hi, s, t, c);
    SarIs(lo, hi, c);
    JoinLow(Bitwise(Or, Shl(hi, 32 - c, 32), Shr(lo, c), 32), s / Pow2(c));
  }

  /** Dividing by a word and more leaves only the upper word. */
  lemma UpperDivided(lo: nat, s: int, p: nat)
    requires lo < W && p > 0
    ensures W * p > 0 && Join(lo, s) / (W * p) == s / p
  {
    var d, r := s / p, s % p;
    assert s == d * p + r;
    MulAssoc(d, p, W);
    MulCommutes(p, W);
    MulBelow(W, r, p);
    assert W * s == (d * p) * W + W * r;
    assert Join(lo, s) == d * (W * p) + (lo + W * r);
    DivUnique(Join(lo, s), d, lo + W * r, W * p);
  }

  lemma WideShift(e: nat)
    ensures Pow2(32 + e) == W * Pow2(e)
  {
    Pow2Values();
    Pow2Add(32, e);
  }

  /** Shifts by a word and more. */
  lemma FarShifts(lo: nat, hi: nat, e: nat)
    requires lo < W && hi < W && e <= 31
    ensures hi < Pow2(32) && Join(lo, hi) < Pow2(64)
    ensures Join(0, Shl(lo, e, 32)) == Shl(Join(lo, hi), 32 + e, 64)
    ensures Join(Shr(hi, e), 0) == Shr(Join(lo, hi), 32 + e)
    ensures Join(Sar(hi, e, 32), Sar(Sar(hi, e, 32), 31, 32)) == Sar(Join(lo, hi), 32 + e, 64)
  {
    hide Pow2, Signed;
    Pow2Values();
    WideShift(e);
    var p := Pow2(e);
    FarLeft(lo, hi, e);
    UpperDivided(lo, hi, p);
    var s, t := SignedOff(hi);
    UpperDivided(lo, s, p);
    SarIs(lo, hi, e);
    SarIs(lo, hi, 32 + e);
    SignFill(hi, e);
  }

  lemma FarLeft(lo: nat, hi: nat, e: nat)
    requires lo < W && hi < W && e <= 31
    ensures Join(0, Shl(lo, e, 32)) == Shl(Join(lo, hi), 32 + e, 64)
  {
    hide Pow2;
    Pow2Values();
    WideShift(e);
    var p := Pow2(e);
    ShlIs(Join(lo, hi), 32 + e);
    var x := lo * p;
    assert Join(lo, hi) * (W * p) == W * x + WW * (hi * p) by {
      MulAssoc(W * hi, W, p);
      MulAssoc(lo, W, p);
      MulAssoc(W, lo, p);
    }
    assert W * x == W * (x % W) + WW * (x / W);
    DivUnique(Join(lo, hi) * (W * p), hi * p + x / W, W * (x % W), WW);
  }

  lemma SignExtended(y: int)
    requires -0x8000_0000 <= y < 0x8000_0000
    ensures y % W < Pow2(32) && Join(y % W, Sar(y % W, 31, 32)) == y % WW
  {
    hide Pow2, Signed;
    Pow2Values();
    var h := y % W;
    assert h == if y < 0 then y + W else y;
    var y', t := SignedOff(h);
    SarIs(0, h, 31);
    assert Sar(h, 31, 32) == if y < 0 then W - 1 else 0;
  }

  /** The upper word of an arithmetic shift by a word and more is the sign alone. */
  lemma SignFill(hi: nat, e: nat)
    requires hi < W
    ensures hi < Pow2(32)
    ensures var h := Sar(hi, e, 32); var y := Signed(hi, 32) / Pow2(e); Join(h, Sar(h, 31, 32)) == y % WW
  {
    hide Pow2, Signed, Sar;
    var s, t := SignedOff(hi);
    QuotientBounds(s, Pow2(e));
    SarIs(0, hi, e);
    SignExtended(s / Pow2(e));
  }

  lemma QuotientBounds(s: int, p: nat)
    requires -0x8000_0000 <= s < 0x8000_0000 && p > 0
    ensures -0x8000_0000 <= s / p < 0x8000_0000
  {
    var y, r := s / p, s % p;
    assert s == y * p + r;
    if y >= 0x8000_0000 { MulAtLeastBoth(y, 0x8000_0000, p); }
    if y < -0x8000_0000 { FarBelow(y, p); }
  }

  lemma FarBelow(y: int, p: int)
    requires y < -0x8000_0000 && p > 0
    ensures y * p + p <= -0x8000_0000 * p <= -0x8000_0000
  {
    MulAtLeastBoth(-(y + 1), 0x8000_0000, p);
  }

  // ----- what a shift leaves for any count -----

  datatype Halved = Halved(lo: nat, hi: nat)

  predicate HalvedFits(r: Halved) { r.lo < W && r.hi < W }

  function OpOf(op: ShiftOp): Op32 {
    match op
    case SHL => ShlI
    case SHR => ShrI
    case SAR => SarI
  }

  function WordShift(op: ShiftOp, x: nat, c: int): (r: nat)
    requires x < W
    ensures r < W
    ensures x < Pow2(32) && Result(OpOf(op), x, c % W, 0) == Word(r)
    ensures r == match op case SHL => Shl(x, c % 32, 32) case SHR => Shr(x, c % 32) case SAR => Sar(x, c % 32, 32)
  {
    Pow2Values();
    CountMod(c);
    Result(OpOf(op), x, c % W, 0).w
  }

  lemma CountMod(c: int)
    ensures c % W % 32 == c % 32
  {
  }

  /** The two words the lowered shift leaves. The processor looks at five bits of a count. */
  function Lowered(op: ShiftOp, lo: nat, hi: nat, c: int): (r: Halved)
    requires lo < W && hi < W
    ensures HalvedFits(r)
  {
    Pow2Values();
    var w := if op == SHL then lo else hi;
    if c >= 32 then
      var far := if c > 32 then WordShift(op, w, c - 32) else w;
      var fill := if op == SAR then WordShift(SAR, far, 31) else 0;
      if op == SHL then Halved(fill, far) else Halved(far, fill)
    else
      var near := WordShift(op, w, c);
      var across := WordShift(if op == SHL then SHR else SHL, w, 32 - c);
      var stay := WordShift(if op == SHL then SHL else SHR, if op == SHL then hi else lo, c);
      var other := Bitwise(Or, across, stay, 32);
      if op == SHL then Halved(near, other) else Halved(other, near)
  }

  /** For every count from 1 to 63 the two words are the 64-bit shift. */
  lemma ShiftLowered(op: ShiftOp, lo: nat, hi: nat, c: int)
    requires lo < W && hi < W && 1 <= c <= 63
    ensures Join(lo, hi) < Pow2(64)
    ensures var r := Lowered(op, lo, hi, c); Join(r.lo, r.hi) == Shifted(op, Join(lo, hi), c)
  {
    hide Pow2, Shl, Shr, Sar, Bitwise, Signed;
    Pow2Values();
    if c < 32 {
      assert c % 32 == c && (32 - c) % 32 == 32 - c;
      ShlHalves(lo, hi, c);
      ShrPair(lo, hi, c);
    } else {
      assert (c - 32) % 32 == c - 32;
      FarShifts(lo, hi, c - 32);
      if c == 32 { NoShift(lo); NoShift(hi); }
    }
  }

  lemma NoShift(x: nat)
    requires x < W
    ensures x < Pow2(32) && Shl(x, 0, 32) == x && Shr(x, 0) == x && Sar(x, 0, 32) == x
  {
    Pow2Values();
    ModSmall(x, W);
    assert x * 1 == x;
    var s, t := SignedOff(x);
    SarIs(0, x, 0);
    assert s / 1 == s;
  }

  /** A count of 0, which constant folding never lets through: the word that takes in bits of
      the other takes in all of them, and so the result is wrong unless it has them already. */
  lemma ZeroCount(op: ShiftOp, lo: nat, hi: nat)
    requires lo < W && hi < W
    ensures Lowered(op, lo, hi, 0) ==
            if op == SHL then Halved(lo, Bitwise(Or, lo, hi, 32)) else Halved(Bitwise(Or, hi, lo, 32), hi)
    ensures Join(lo, hi) < Pow2(64)
    ensures var r := Lowered(op, lo, hi, 0);
            Join(r.lo, r.hi) == Shifted(op, Join(lo, hi), 0) <==>
            if op == SHL then Bitwise(Or, lo, hi, 32) == hi else Bitwise(Or, hi, lo, 32) == lo
  {
    hide Pow2, Bitwise, Shl, Shr, Sar, Signed;
    Pow2Values();
    NoShift(lo);
    NoShift(hi);
    assert 0 % 32 == 0 && (32 - 0) % 32 == 0;
    LongNoShift(op, Join(lo, hi));
  }

  lemma LongNoShift(op: ShiftOp, x: nat)
    requires x < WW
    ensures x < Pow2(64) && Shifted(op, x, 0) == x
  {
    Pow2Values();
    ModSmall(x, WW);
    assert Pow2(0) == 1;
    assert x * 1 == x && x / 1 == x && Signed(x, 64) / 1 == Signed(x, 64);
  }

  /** The low bit alone, shifted left by 0, would come out in both words. */
  lemma OneTwice()
    ensures var r := Lowered(SHL, 1, 0, 0); r == Halved(1, 1) && Join(r.lo, r.hi) != Join(1, 0)
  {
    hide Bitwise, Lowered;
    Pow2Values();
    ZeroCount(SHL, 1, 0);
    OrZero(1, 32);
  }

  // ----- the value stack -----

  class ValueStack {
    var vs: seq<Val>
    var carry: nat

    ghost predicate Valid()
      reads this
    {
      carry <= 1 && forall i :: 0 <= i < |vs| ==> Fits(vs[i])
    }

    constructor (vs: seq<Val>)
      requires forall i :: 0 <= i < |vs| ==> Fits(vs[i])
      ensures Valid() && this.vs == vs
    {
      this.vs, carry := vs, 0;
    }

    method VPush(v: Val)
      requires Valid() && Fits(v)
      modifies `vs
      ensures Valid() && vs == old(vs) + [v]
    {
      vs := vs + [v];
    }

    method VPop()
      requires Valid() && |vs| > 0
      modifies `vs
      ensures Valid() && vs == old(vs)[..|old(vs)| - 1]
    {
      vs := vs[..|vs| - 1];
    }

    method VSwap(ghost rest: seq<Val>, ghost a: Val, ghost b: Val)
      requires Valid() && vs == rest + [a, b]
      modifies `vs
      ensures Valid() && vs == rest + [b, a]
    {
      var n := |vs|;
      vs := vs[n - 1 := vs[n - 2]][n - 2 := vs[n - 1]];
    }

    /** `vrotb`: the lowest of the top `n` entries goes to the top. */
    method VRotB(n: nat, ghost rest: seq<Val>, ghost xs: seq<Val>)
      requires Valid() && vs == rest + xs && |xs| == n > 0
      modifies `vs
      ensures Valid() && vs == rest + xs[1..] + [xs[0]]
    {
      var top := |vs| - 1;
      var tmp := vs[top - n + 1];
      ghost var was, bottom := vs, |rest|;
      var i := 1 - n;
      while i != 0
        invariant 1 - n <= i <= 0 && |vs| == |was| && bottom == top - n + 1
        invariant forall k :: 0 <= k < bottom ==> vs[k] == was[k]
        invariant forall k :: bottom <= k < top + i ==> vs[k] == was[k + 1]
        invariant forall k :: top + i <= k < |vs| ==> vs[k] == was[k]
        decreases -i
      {
        vs := vs[top + i := vs[top + i + 1]];
        i := i + 1;
      }
      vs := vs[top := tmp];
      assert vs == rest + xs[1..] + [xs[0]];
      assert forall k :: 0 <= k < |vs| ==> vs[k] in was;
    }

    /** `lexpand`: a pair becomes its two words, the upper one on top. */
    method LExpand(ghost rest: seq<Val>, ghost v: Val)
      requires Valid() && vs == rest + [v] && v.Long?
      modifies `vs
      ensures Valid() && vs == rest + [Word(v.lo), Word(v.hi)]
    {
      var top := vs[|vs| - 1];
      VPush(Word(top.hi));
      vs := vs[|vs| - 2 := Word(top.lo)];
    }

    /** `lbuild`: two words become a pair. */
    method LBuild(ghost rest: seq<Val>, ghost lo: nat, ghost hi: nat)
      requires Valid() && vs == rest + [Word(lo), Word(hi)]
      modifies `vs
      ensures Valid() && vs == rest + [Long(lo, hi)]
    {
      var n := |vs|;
      vs := vs[n - 2 := Long(vs[n - 2].w, vs[n - 1].w)];
      VPop();
    }

    /** `gen_op` on two words. */
    method GenOp(op: Op32, ghost rest: seq<Val>, ghost a: nat, ghost b: nat)
      requires Valid() && vs == rest + [Word(a), Word(b)]
      modifies this
      ensures Fits(Word(a)) && Fits(Word(b))
      ensures Valid() && vs == rest + [Result(op, a, b, old(carry))] && carry == Carry(op, a, b)
    {
      var n := |vs|;
      assert Fits(vs[n - 2]) && Fits(vs[n - 1]);
      var x, y := vs[n - 2].w, vs[n - 1].w;
      vs := vs[..n - 2] + [Result(op, x, y, carry)];
      carry := Carry(op, x, y);
    }

    /** `gv_dup`: another register takes a copy. */
    method GvDup(ghost rest: seq<Val>, ghost v: Val)
      requires Valid() && vs == rest + [v]
      modifies `vs
      ensures Valid() && vs == rest + [v, v]
    {
      VPush(vs[|vs| - 1]);
    }

    /** Both operands as words: L1 H1 L2 H2. */
    method ExpandBoth(ghost rest: seq<Val>, ghost x: Val, ghost y: Val)
      requires Valid() && vs == rest + [x, y] && x.Long? && y.Long?
      modifies `vs
      ensures Valid() && vs == rest + [Word(x.lo), Word(x.hi), Word(y.lo), Word(y.hi)]
    {
      VSwap(rest, x, y);
      LExpand(rest + [y], x);
      VRotB(3, rest, [y, Word(x.lo), Word(x.hi)]);
      LExpand(rest + [Word(x.lo), Word(x.hi)], y);
    }

    /** H1 H2 L1 L2. */
    method GroupHalves(ghost rest: seq<Val>, ghost x: Val, ghost y: Val)
      requires Valid() && vs == rest + [x, y] && x.Long? && y.Long?
      modifies `vs
      ensures Valid() && vs == rest + [Word(x.hi), Word(y.hi), Word(x.lo), Word(y.lo)]
    {
      ExpandBoth(rest, x, y);
      var n := |vs|;
      var tmp := vs[n - 1];
      vs := vs[n - 1 := vs[n - 4]];
      vs := vs[n - 4 := tmp];
      tmp := vs[n - 3];
      vs := vs[n - 3 := vs[n - 4]];
      vs := vs[n - 4 := tmp];
      VSwap(rest + [Word(x.hi), Word(y.hi)], Word(y.lo), Word(x.lo));
    }

    /** L1 L2 H1 H2, as comparisons want them. */
    method GroupPairs(ghost rest: seq<Val>, ghost x: Val, ghost y: Val)
      requires Valid() && vs == rest + [x, y] && x.Long? && y.Long?
      modifies `vs
      ensures Valid() && vs == rest + [Word(x.lo), Word(y.lo), Word(x.hi), Word(y.hi)]
    {
      ExpandBoth(rest, x, y);
      var n := |vs|;
      var tmp := vs[n - 2];
      vs := vs[n - 2 := vs[n - 3]];
      vs := vs[n - 3 := tmp];
    }

    /** Two words are compared; the flags that result are not kept on the stack. */
    method TakePair(ghost rest: seq<Val>, ghost a: nat, ghost b: nat) returns (x: nat, y: nat)
      requires Valid() && vs == rest + [Word(a), Word(b)]
      modifies `vs
      ensures Valid() && vs == rest && x == a && y == b
    {
      var n := |vs|;
      x, y := vs[n - 2].w, vs[n - 1].w;
      vs := vs[..n - 2];
      assert forall k :: 0 <= k < |vs| ==> vs[k] == rest[k];
    }

    /** `gen_opl`: what it leaves is the 64-bit result. */
    method GenOpl(op: Op64, ghost rest: seq<Val>, ghost x: Val, ghost y: Val)
      requires Valid() && vs == rest + [x, y] && x.Long? && y.Long?
      modifies this
      ensures Valid() && |vs| == |rest| + 1 && vs[..|rest|] == rest && vs[|rest|].Long?
      ensures Fits(x) && Fits(y)
      ensures Join(vs[|rest|].lo, vs[|rest|].hi) == Apply(op, Join(x.lo, x.hi), Join(y.lo, y.hi))
    {
      hide Bitwise, Pow2, Valid, Result, Carry, Apply;
      InRange(rest, x, y);
      GroupHalves(rest, x, y);
      if op == Mul {
        TimesRight(x, y);
        Product(rest, x, y);
      } else {
        PairRight(op, x, y, carry);
        ByWords(Pair(op).0, Pair(op).1, rest, x, y);
      }
      assert vs == rest + [vs[|rest|]];
    }

    /** The instructions for the lower and the upper words. */
    static function Pair(op: Op64): (Op32, Op32)
      requires op != Mul
    {
      match op
      case Add => (AddC1, AddC2)
      case Sub => (SubC1, SubC2)
      case Bits(o) => (Bit(o), Bit(o))
    }

    static lemma PairRight(op: Op64, x: Val, y: Val, carry: nat)
      requires op != Mul && x.Long? && y.Long? && Fits(x) && Fits(y) && carry <= 1
      ensures var (op1, op2) := Pair(op);
              && !op1.Umull? && !op2.Umull?
              && Result(op1, x.lo, y.lo, carry).Word? && Result(op2, x.hi, y.hi, Carry(op1, x.lo, y.lo)).Word?
              && Join(Result(op1, x.lo, y.lo, carry).w, Result(op2, x.hi, y.hi, Carry(op1, x.lo, y.lo)).w) ==
                 Apply(op, Join(x.lo, x.hi), Join(y.lo, y.hi))
    {
      hide Bitwise, Pow2, Carry, Join;
      match op
      case Add => AddHalves(x.lo, x.hi, y.lo, y.hi);
      case Sub => SubHalves(x.lo, x.hi, y.lo, y.hi);
      case Bits(o) => BitHalves(o, x.lo, x.hi, y.lo, y.hi);
    }

    static lemma TimesRight(x: Val, y: Val)
      requires x.Long? && y.Long? && Fits(x) && Fits(y)
      ensures var p := x.lo * y.lo;
              Join(p % W, (p / W + (x.hi * y.lo % W + x.lo * y.hi % W) % W) % W) == Apply(Mul, Join(x.lo, x.hi), Join(y.lo, y.hi))
    {
      hide Join;
      MulHalves(x.lo, x.hi, y.lo, y.hi);
    }

    /** Low words first, then the upper ones with what was carried. */
    method ByWords(op1: Op32, op2: Op32, ghost rest: seq<Val>, ghost x: Val, ghost y: Val)
      requires Valid() && x.Long? && y.Long? && Fits(x) && Fits(y)
      requires vs == rest + [Word(x.hi), Word(y.hi), Word(x.lo), Word(y.lo)]
      requires !op1.Umull? && !op2.Umull?
      modifies this
      ensures Valid() && vs == rest + [Long(Result(op1, x.lo, y.lo, old(carry)).w,
                                            Result(op2, x.hi, y.hi, Carry(op1, x.lo, y.lo)).w)]
    {
      hide Carry, Bitwise;
      ghost var h1, h2, l := Word(x.hi), Word(y.hi), Result(op1, x.lo, y.lo, carry);
      assert vs == (rest + [h1, h2]) + [Word(x.lo), Word(y.lo)];
      GenOp(op1, rest + [h1, h2], x.lo, y.lo);
      VRotB(3, rest, [h1, h2, l]);
      VRotB(3, rest, [h2, l, h1]);
      assert vs == (rest + [l]) + [h1, h2];
      GenOp(op2, rest + [l], x.hi, y.hi);
      LBuild(rest, l.w, Result(op2, x.hi, y.hi, Carry(op1, x.lo, y.lo)).w);
    }

    method Product(ghost rest: seq<Val>, ghost x: Val, ghost y: Val)
      requires Valid() && x.Long? && y.Long? && Fits(x) && Fits(y)
      requires vs == rest + [Word(x.hi), Word(y.hi), Word(x.lo), Word(y.lo)]
      modifies this
      ensures Valid()
      ensures var p := x.lo * y.lo;
              vs == rest + [Long(p % W, (p / W + (x.hi * y.lo % W + x.lo * y.hi % W) % W) % W)]
    {
      ghost var p := x.lo * y.lo;
      ghost var m1, m2 := x.lo * y.hi % W, x.hi * y.lo % W;
      ghost var ml, mh, m := Word(p % W), Word(p / W), Word((m1 + m2) % W);
      LowProduct(rest, x, y, p);
      CrossProducts(rest + [ml, mh], x, y);
      assert vs == (rest + [ml, mh]) + [Word(m1), Word(m2)];
      GenOp(Plus, rest + [ml, mh], m1, m2);
      assert vs == (rest + [ml]) + [mh, m];
      GenOp(Plus, rest + [ml], mh.w, m.w);
      LBuild(rest, ml.w, (mh.w + m.w) % W);
    }

    /** The product of the low words goes below the four words. */
    method LowProduct(ghost rest: seq<Val>, ghost x: Val, ghost y: Val, ghost p: nat)
      requires Valid() && x.Long? && y.Long? && Fits(x) && Fits(y) && p == x.lo * y.lo
      requires vs == rest + [Word(x.hi), Word(y.hi), Word(x.lo), Word(y.lo)]
      modifies this
      ensures Valid() && 0 <= p / W
      ensures vs == (rest + [Word(p % W), Word(p / W)]) + [Word(x.hi), Word(y.lo), Word(x.lo), Word(y.hi)]
    {
      ghost var h1, h2, l1, l2 := Word(x.hi), Word(y.hi), Word(x.lo), Word(y.lo);
      ghost var ml, mh := Word(p % W), Word(p / W);
      VPush(vs[|vs| - 2]);
      VPush(vs[|vs| - 2]);
      assert vs == (rest + [h1, h2, l1, l2]) + [l1, l2];
      GenOp(Umull, rest + [h1, h2, l1, l2], x.lo, y.lo);
      LExpand(rest + [h1, h2, l1, l2], Long(p % W, p / W));
      FourTimes(rest, [h1, h2, l1, l2, ml, mh]);
      var n := |vs|;
      var tmp := vs[n - 1];
      vs := vs[n - 1 := vs[n - 3]];
      vs := vs[n - 3 := tmp];
    }

    method CrossProducts(ghost rest: seq<Val>, ghost x: Val, ghost y: Val)
      requires Valid() && x.Long? && y.Long?
      requires vs == rest + [Word(x.hi), Word(y.lo), Word(x.lo), Word(y.hi)]
      modifies this
      ensures Valid() && vs == rest + [Word(x.lo * y.hi % W), Word(x.hi * y.lo % W)]
    {
      ghost var h1, l2, m1 := Word(x.hi), Word(y.lo), Word(x.lo * y.hi % W);
      assert vs == (rest + [h1, l2]) + [Word(x.lo), Word(y.hi)];
      GenOp(Times, rest + [h1, l2], x.lo, y.hi);
      assert vs == rest + [h1, l2, m1];
      VRotB(3, rest, [h1, l2, m1]);
      VRotB(3, rest, [l2, m1, h1]);
      assert vs == (rest + [m1]) + [h1, l2];
      GenOp(Times, rest + [m1], x.hi, y.lo);
    }

    method FourTimes(ghost rest: seq<Val>, ghost xs: seq<Val>)
      requires Valid() && vs == rest + xs && |xs| == 6
      modifies `vs
      ensures Valid() && vs == rest + [xs[4], xs[5], xs[0], xs[1], xs[2], xs[3]]
    {
      var i := 0;
      while i < 4
        invariant 0 <= i <= 4 && Valid() && vs == rest + (xs[i..] + xs[..i])
      {
        VRotB(6, rest, xs[i..] + xs[..i]);
        assert (xs[i..] + xs[..i])[1..] + [xs[i]] == xs[i + 1..] + xs[..i + 1];
        i := i + 1;
      }
    }

    /** `gen_opl` with a constant shift count. */
    method GenShift(op: ShiftOp, c: int, ghost rest: seq<Val>, ghost x: Val)
      requires Valid() && vs == rest + [x, Word(c % W)] && x.Long?
      modifies this
      ensures Fits(x) && Valid()
      ensures var r := Lowered(op, x.lo, x.hi, c); vs == rest + [Long(r.lo, r.hi)]
    {
      hide Result, Carry, Bitwise;
      assert Fits(vs[|rest|]);
      ghost var lo, hi := Word(x.lo), Word(x.hi);
      VSwap(rest, x, Word(c % W));
      LExpand(rest + [Word(c % W)], x);
      VRotB(3, rest, [Word(c % W), lo, hi]);
      assert vs == (rest + [lo, hi]) + [Word(c % W)];
      VPop();
      ghost var u, v := lo, hi;
      assert vs == rest + [u, v];
      if op != SHL {
        VSwap(rest, lo, hi);
        u, v := hi, lo;
      }
      if c >= 32 {
        FarWords(op, c, rest, u, v);
      } else {
        NearWords(op, c, rest, u, v);
      }
      ghost var r := Lowered(op, x.lo, x.hi, c);
      if op != SHL {
        VSwap(rest, Word(r.hi), Word(r.lo));
      }
      LBuild(rest, r.lo, r.hi);
    }

    /** A word of constant bits pushed and shifted by. */
    method ShiftBy(op: ShiftOp, c: int, ghost rest: seq<Val>, ghost a: nat)
      requires Valid() && vs == rest + [Word(a)]
      modifies this
      ensures Valid() && a < W && vs == rest + [Word(WordShift(op, a, c))]
    {
      assert Fits(vs[|rest|]);
      VPush(Word(c % W));
      assert vs == rest + [Word(a), Word(c % W)];
      GenOp(OpOf(op), rest, a, c % W);
      SameShift(op, a, c, old(carry));
    }

    static lemma SameShift(op: ShiftOp, a: nat, c: int, carry: nat)
      requires a < W && carry <= 1
      ensures Result(OpOf(op), a, c % W, carry) == Word(WordShift(op, a, c))
    {
    }

    /** A count of a word and more: `u` is the word that stays, `v` the one shifted out. */
    method FarWords(op: ShiftOp, c: int, ghost rest: seq<Val>, ghost u: Val, ghost v: Val)
      requires Valid() && vs == rest + [u, v] && u.Word? && v.Word? && c >= 32
      modifies this
      ensures Valid() && Fits(u)
      ensures var far := if c > 32 then WordShift(op, u.w, c - 32) else u.w;
              far < W && vs == rest + [Word(if op == SAR then WordShift(SAR, far, 31) else 0), Word(far)]
    {
      hide WordShift;
      assert Fits(vs[|rest|]);
      VPop();
      assert vs == rest + [u];
      if c > 32 { ShiftBy(op, c - 32, rest, u.w); }
      ghost var far := if c > 32 then WordShift(op, u.w, c - 32) else u.w;
      ghost var fill := Word(if op == SAR then WordShift(SAR, far, 31) else 0);
      if op != SAR {
        VPush(Word(0));
      } else {
        GvDup(rest, Word(far));
        assert vs == (rest + [Word(far)]) + [Word(far)];
        ShiftBy(SAR, 31, rest + [Word(far)], far);
      }
      assert vs == rest + [Word(far), fill];
      VSwap(rest, Word(far), fill);
    }

    method NearWords(op: ShiftOp, c: int, ghost rest: seq<Val>, ghost u: Val, ghost v: Val)
      requires Valid() && vs == rest + [u, v] && u.Word? && v.Word? && c < 32
      modifies this
      ensures Valid() && Fits(u) && Fits(v)
      ensures var across := WordShift(if op == SHL then SHR else SHL, u.w, 32 - c);
              var stay := WordShift(if op == SHL then SHL else SHR, v.w, c);
              vs == rest + [Word(WordShift(op, u.w, c)), Word(Bitwise(Or, across, stay, 32))]
    {
      hide WordShift, Bitwise, Valid;
      InRange(rest, u, v);
      ghost var near := Word(WordShift(op, u.w, c));
      ghost var across := WordShift(if op == SHL then SHR else SHL, u.w, 32 - c);
      ghost var stay := WordShift(if op == SHL then SHL else SHR, v.w, c);
      TwoShifts(op, c, rest, u, v);
      VRotB(3, rest, [v, near, Word(across)]);
      assert vs == (rest + [near, Word(across)]) + [v];
      if op == SHL { ShiftBy(SHL, c, rest + [near, Word(across)], v.w); } else { ShiftBy(SHR, c, rest + [near, Word(across)], v.w); }
      assert vs == (rest + [near]) + [Word(across), Word(stay)];
      GenOp(Bit(Or), rest + [near], across, stay);
      assert vs == rest + [near, Word(Bitwise(Or, across, stay, 32))];
    }

    /** The word that stays, shifted, and the bits of it that cross over. */
    method TwoShifts(op: ShiftOp, c: int, ghost rest: seq<Val>, ghost u: Val, ghost v: Val)
      requires Valid() && vs == rest + [u, v] && u.Word? && v.Word? && Fits(u)
      modifies this
      ensures Valid()
      ensures vs == rest + [v, Word(WordShift(op, u.w, c)), Word(WordShift(if op == SHL then SHR else SHL, u.w, 32 - c))]
    {
      hide WordShift, Valid;
      ghost var near := Word(WordShift(op, u.w, c));
      VSwap(rest, u, v);
      GvDup(rest + [v], u);
      assert vs == (rest + [v, u]) + [u];
      ShiftBy(op, c, rest + [v, u], u.w);
      assert vs == (rest + [v]) + [u, near];
      VSwap(rest + [v], u, near);
      assert vs == (rest + [v, near]) + [u];
      if op == SHL { ShiftBy(SHR, 32 - c, rest + [v, near], u.w); } else { ShiftBy(SHL, 32 - c, rest + [v, near], u.w); }
    }

    lemma InRange(rest: seq<Val>, u: Val, v: Val)
      requires Valid() && vs == rest + [u, v]
      ensures Fits(u) && Fits(v)
    {
      assert Fits(vs[|rest|]) && Fits(vs[|rest| + 1]);
    }
  }
}
