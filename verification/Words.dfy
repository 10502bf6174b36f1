/** Machine words of any width: bits, shifts and bitwise operations on naturals. */
module Words {
  import opened Arith

  function Pow2(n: nat): (r: nat)
    ensures r > 0
  {
    if n == 0 then 1 else 2 * Pow2(n - 1)
  }

  lemma {:induction false} Pow2Add(m: nat, n: nat)
    ensures Pow2(m + n) == Pow2(m) * Pow2(n)
    decreases m
  {
    if m > 0 {
      Pow2Add(m - 1, n);
      MulAssoc(2, Pow2(m - 1), Pow2(n));
    }
  }

  lemma Pow2Values()
    ensures Pow2(32) == 0x1_0000_0000 && Pow2(31) == 0x8000_0000 && Pow2(16) == 0x1_0000 && Pow2(8) == 0x100
    ensures Pow2(64) == 0x1_0000_0000_0000_0000 && Pow2(63) == 0x8000_0000_0000_0000
  {
    assert Pow2(8) == 0x100;
    Pow2Add(8, 8);
    Pow2Add(16, 15);
    assert Pow2(15) == 0x8000 by { Pow2Add(8, 7); assert Pow2(7) == 0x80; }
    Pow2Add(16, 16);
    Pow2Add(32, 31);
    Pow2Add(32, 32);
  }

  // ----- bitwise operations -----

  datatype BitOp = And | Or | Xor

  function BitOf(op: BitOp, a: nat, b: nat): nat
    requires a < 2 && b < 2
  {
    match op
    case And => a * b
    case Or => if a + b > 0 then 1 else 0
    case Xor => if a != b then 1 else 0
  }

  /** `a op b` on the low `n` bits. */
  function Bitwise(op: BitOp, a: nat, b: nat, n: nat): (r: nat)
    ensures r < Pow2(n)
  {
    if n == 0 then 0 else 2 * Bitwise(op, a / 2, b / 2, n - 1) + BitOf(op, a % 2, b % 2)
  }

  // ----- words made of two -----

  /** The word whose low `k` bits are `l` and whose other bits are `h`. */
  function Glue(l: nat, h: nat, k: nat): (r: nat) {
    Nonneg(Pow2(k), h);
    l + Pow2(k) * h
  }

  lemma Nonneg(a: nat, b: nat)
    ensures a * b >= 0
  {
  }

  lemma GlueParts(l: nat, h: nat, k: nat)
    requires l < Pow2(k)
    ensures Glue(l, h, k) % Pow2(k) == l && Glue(l, h, k) / Pow2(k) == h
  {
    var p := Pow2(k);
    MulCommutes(p, h);
    DivUnique(l + p * h, h, l, p);
  }

  lemma GlueSplit(w: nat, k: nat)
    ensures 0 <= w / Pow2(k) && 0 <= w % Pow2(k) < Pow2(k) && Glue(w % Pow2(k), w / Pow2(k), k) == w
  {
    var p := Pow2(k);
    DivLess(w, p);
    MulCommutes(p, w / p);
    assert w == (w / p) * p + w % p;
  }

  lemma GlueBounds(l: nat, h: nat, k: nat, m: nat)
    requires l < Pow2(k) && h < Pow2(m)
    ensures Glue(l, h, k) < Pow2(k + m)
  {
    var p, q := Pow2(k), Pow2(m);
    Pow2Add(k, m);
    MulDiff(q, h, p);
    MulAtLeast(q - h, p);
    MulCommutes(p, q);
    MulCommutes(p, h);
  }

  lemma UpperBelow(w: nat, k: nat, m: nat)
    requires w < Pow2(k + m)
    ensures 0 <= w / Pow2(k) < Pow2(m)
  {
    var p, q, d := Pow2(k), Pow2(m), w / Pow2(k);
    Pow2Add(k, m);
    GlueSplit(w, k);
    MulCommutes(p, d);
    MulCommutes(p, q);
    if d >= q {
      MulDiff(d, q, p);
      if d > q { MulAtLeast(d - q, p); }
    }
  }

  /** Gluing is associative. */
  lemma GlueAssoc(a: nat, b: nat, c: nat, j: nat, k: nat)
    ensures Glue(a, Glue(b, c, k), j) == Glue(Glue(a, b, j), c, j + k)
  {
    var p, q := Pow2(j), Pow2(k);
    Pow2Add(j, k);
    MulAssoc(p, q, c);
    Distribute(p, b, q * c);
  }

  lemma Distribute(p: int, x: int, y: int)
    ensures p * (x + y) == p * x + p * y
  {
  }

  lemma GlueNone(l: nat, k: nat)
    ensures Glue(l, 0, k) == l
  {
  }

  lemma GlueShift(x: nat, k: nat)
    ensures Glue(0, x, k) == x * Pow2(k)
  {
    MulCommutes(x, Pow2(k));
  }

  lemma GlueOnes(k: nat, m: nat)
    ensures Glue(Pow2(k) - 1, Pow2(m) - 1, k) == Pow2(k + m) - 1
  {
    var p, q := Pow2(k), Pow2(m);
    Pow2Add(k, m);
    Distribute(p, q, -1);
  }

  /** A bitwise operation on a wide word is the operation on its two parts. */
  lemma {:induction false} BitwiseSplit(op: BitOp, al: nat, ah: nat, bl: nat, bh: nat, k: nat, m: nat)
    requires al < Pow2(k) && bl < Pow2(k)
    ensures Bitwise(op, Glue(al, ah, k), Glue(bl, bh, k), k + m) ==
            Glue(Bitwise(op, al, bl, k), Bitwise(op, ah, bh, m), k)
    decreases k
  {
    hide Glue, Bitwise, Pow2;
    if k == 0 {
      NoBits(op, al, bl);
      GlueNoBits(ah);
      GlueNoBits(bh);
      GlueNoBits(Bitwise(op, ah, bh, m));
      NothingBelow(al, bl);
    } else {
      HalfOf(al, ah, k);
      HalfOf(bl, bh, k);
      BitwiseSplit(op, al / 2, ah, bl / 2, bh, k - 1, m);
      OneBit(op, Glue(al, ah, k), Glue(bl, bh, k), k + m);
      OneBit(op, al, bl, k);
      DoubleGlue(Bitwise(op, al / 2, bl / 2, k - 1), BitOf(op, al % 2, bl % 2), Bitwise(op, ah, bh, m), k);
    }
  }

  lemma NoBits(op: BitOp, a: nat, b: nat)
    ensures Bitwise(op, a, b, 0) == 0
  {
  }

  lemma NothingBelow(a: nat, b: nat)
    requires a < Pow2(0) && b < Pow2(0)
    ensures a == 0 && b == 0
  {
  }

  lemma OneBit(op: BitOp, a: nat, b: nat, n: nat)
    requires n > 0
    ensures Bitwise(op, a, b, n) == 2 * Bitwise(op, a / 2, b / 2, n - 1) + BitOf(op, a % 2, b % 2)
  {
  }

  lemma DoubleGlue(l: nat, bit: nat, h: nat, k: nat)
    requires k > 0
    ensures Glue(2 * l + bit, h, k) == 2 * Glue(l, h, k - 1) + bit
  {
    MulAssoc(2, Pow2(k - 1), h);
  }

  lemma GlueNoBits(h: nat)
    ensures Glue(0, h, 0) == h
  {
  }

  lemma HalfOf(l: nat, h: nat, k: nat)
    requires k > 0
    ensures Glue(l, h, k) / 2 == Glue(l / 2, h, k - 1) && Glue(l, h, k) % 2 == l % 2
    ensures l < Pow2(k) ==> l / 2 < Pow2(k - 1)
  {
    MulAssoc(2, Pow2(k - 1), h);
  }

  lemma {:induction false} OrZero(a: nat, n: nat)
    requires a < Pow2(n)
    ensures Bitwise(Or, a, 0, n) == a && Bitwise(Or, 0, a, n) == a
    decreases n
  {
    if n > 0 { OrZero(a / 2, n - 1); }
  }

  lemma {:induction false} AndZero(a: nat, n: nat)
    ensures Bitwise(And, a, 0, n) == 0 && Bitwise(And, 0, a, n) == 0
    decreases n
  {
    if n > 0 { AndZero(a / 2, n - 1); }
  }

  lemma {:induction false} AndOnes(a: nat, n: nat)
    requires a < Pow2(n)
    ensures Bitwise(And, a, Pow2(n) - 1, n) == a && Bitwise(And, Pow2(n) - 1, a, n) == a
    decreases n
  {
    if n > 0 {
      DivUnique(Pow2(n) - 1, Pow2(n - 1) - 1, 1, 2);
      AndOnes(a / 2, n - 1);
    }
  }

  lemma {:induction false} XorZero(a: nat, n: nat)
    requires a < Pow2(n)
    ensures Bitwise(Xor, a, 0, n) == a
    decreases n
  {
    if n > 0 { XorZero(a / 2, n - 1); }
  }

  /** Disjoint bits add up. */
  lemma OrDisjoint(lo: nat, hi: nat, k: nat, n: nat)
    requires k <= n && lo < Pow2(k) && hi < Pow2(n - k)
    ensures Bitwise(Or, lo, Pow2(k) * hi, n) == lo + Pow2(k) * hi
    ensures Bitwise(Or, Pow2(k) * hi, lo, n) == lo + Pow2(k) * hi
  {
    hide Bitwise, Pow2;
    GlueNone(lo, k);
    BitwiseSplit(Or, lo, 0, 0, hi, k, n - k);
    BitwiseSplit(Or, 0, hi, lo, 0, k, n - k);
    OrZero(lo, k);
    OrZero(hi, n - k);
  }

  // ----- shifts -----

  function Low(x: int, n: nat): (r: nat)
    ensures r < Pow2(n)
  {
    x % Pow2(n)
  }

  /** The two's complement reading of an `n`-bit word. */
  function Signed(x: nat, n: nat): (r: int)
    requires n > 0 && x < Pow2(n)
    ensures 0 <= r + Pow2(n - 1) < Pow2(n) && Low(r, n) == x
  {
    SignedLow(x, Pow2(n));
    if x < Pow2(n - 1) then x else x - Pow2(n)
  }

  lemma SignedLow(x: nat, p: nat)
    requires x < p
    ensures x % p == x && (x - p) % p == x
  {
    ModSmall(x, p);
    ModAdd(x, -1, p);
  }

  function Shl(x: nat, c: nat, n: nat): (r: nat)
    ensures r < Pow2(n)
  {
    Low(x * Pow2(c), n)
  }

  function Shr(x: nat, c: nat): (r: nat)
    ensures r <= x
  {
    DivLess(x, Pow2(c));
    x / Pow2(c)
  }

  function Sar(x: nat, c: nat, n: nat): (r: nat)
    requires n > 0 && x < Pow2(n)
    ensures r < Pow2(n)
  {
    Low(Signed(x, n) / Pow2(c), n)
  }

  // ----- powers of two -----

  predicate IsPower(l: nat, n: nat) { l == Pow2(n) }

  ghost predicate Power(l: nat) { exists k: nat :: IsPower(l, k) }

  /** `l & (l - 1)` is zero exactly for the powers of two. */
  lemma {:induction false} PowerTest(l: nat, n: nat)
    requires 0 < l < Pow2(n)
    ensures Bitwise(And, l, l - 1, n) == 0 <==> Power(l)
    decreases n
  {
    hide Bitwise, Pow2, Power;
    var m := l / 2;
    HalfBelow(l, n);
    OneBit(And, l, l - 1, n);
    if l % 2 == 1 {
      assert l == 2 * m + 1;
      assert (l - 1) / 2 == m && (l - 1) % 2 == 0;
      AndSelf(m, n - 1);
      OddPower(m);
    } else {
      assert l == 2 * m;
      assert (l - 1) / 2 == m - 1 && (l - 1) % 2 == 1;
      PowerTest(m, n - 1);
      EvenPower(m);
    }
  }

  lemma HalfBelow(l: nat, n: nat)
    requires 0 < l < Pow2(n)
    ensures n > 0 && l / 2 < Pow2(n - 1)
  {
  }

  lemma OddPower(m: nat)
    ensures Power(2 * m + 1) <==> m == 0
  {
    if m == 0 { assert IsPower(1, 0); }
    if Power(2 * m + 1) {
      var k: nat :| IsPower(2 * m + 1, k);
      if k > 0 { assert Pow2(k) == 2 * Pow2(k - 1); }
    }
  }

  lemma EvenPower(m: nat)
    requires m > 0
    ensures Power(2 * m) <==> Power(m)
  {
    if Power(m) {
      var k: nat :| IsPower(m, k);
      assert IsPower(2 * m, k + 1);
    }
    if Power(2 * m) {
      var k: nat :| IsPower(2 * m, k);
      assert k > 0 && IsPower(m, k - 1);
    }
  }

  lemma {:induction false} AndSelf(m: nat, n: nat)
    requires m < Pow2(n)
    ensures Bitwise(And, m, m, n) == m
    decreases n
  {
    hide Bitwise, Pow2;
    if n == 0 {
      NoBits(And, m, m);
      NothingBelow(m, m);
    } else {
      if m > 0 { HalfBelow(m, n); } else { ModSmall(0, Pow2(n - 1)); }
      OneBit(And, m, m, n);
      AndSelf(m / 2, n - 1);
    }
  }
}
