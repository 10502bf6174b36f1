/** What the operations on words mean: sums and products by congruence, bitwise operations and
    shifts by single bits, divisions by quotient and remainder, tests by their truth. Each
    determines the one word that is the result. */
module Operators {
  import opened Arith
  import opened Words
  import opened BitFields
  import opened ConstFold

  predicate On(x: nat, k: nat) { BitAt(x, k) == 1 }

  // ----- bits of a word -----

  lemma BitOfHalf(x: nat, k: nat)
    requires k > 0
    ensures BitAt(x, k) == BitAt(x / 2, k - 1)
  {
    hide BitAt, Pow2;
    PowerOne();
    assert Glue(x % 2, x / 2, 1) == x;
    HighBits(x % 2, x / 2, 1, k);
  }

  lemma PowerOne()
    ensures Pow2(1) == 2
  {
  }

  lemma LowestBit(x: nat)
    ensures BitAt(x, 0) == x % 2
  {
    assert x / 1 == x;
  }

  /** Words with the same bits are the same. */
  lemma {:induction false} SameBits(a: nat, b: nat, n: nat)
    requires a < Pow2(n) && b < Pow2(n)
    requires forall k: nat :: k < n ==> (On(a, k) <==> On(b, k))
    ensures a == b
    decreases n
  {
    hide BitAt;
    if n > 0 {
      LowestBit(a);
      LowestBit(b);
      assert On(a, 0) <==> On(b, 0);
      forall k: nat | k < n - 1 ensures On(a / 2, k) <==> On(b / 2, k) {
        BitOfHalf(a, k + 1);
        BitOfHalf(b, k + 1);
        assert On(a, k + 1) <==> On(b, k + 1);
      }
      SameBits(a / 2, b / 2, n - 1);
    }
  }

  /** A bit of a bitwise operation depends on those bits of the operands. */
  predicate Joined(op: BitOp, p: bool, q: bool) {
    match op
    case And => p && q
    case Or => p || q
    case Xor => p != q
  }

  lemma {:induction false} BitwiseBits(op: BitOp, a: nat, b: nat, n: nat, k: nat)
    requires k < n
    ensures On(Bitwise(op, a, b, n), k) <==> Joined(op, On(a, k), On(b, k))
    decreases n
  {
    hide BitAt, Bitwise, Pow2;
    OneBit(op, a, b, n);
    if k == 0 {
      LowestBit(a);
      LowestBit(b);
      LowestBit(Bitwise(op, a, b, n));
    } else {
      BitOfHalf(a, k);
      BitOfHalf(b, k);
      BitOfHalf(Bitwise(op, a, b, n), k);
      BitwiseBits(op, a / 2, b / 2, n - 1, k - 1);
    }
  }

  lemma CutBits(z: nat, w: nat, k: nat)
    requires k < w
    ensures On(Low(z, w), k) <==> On(z, k)
  {
    hide BitAt, Pow2, Glue;
    GlueSplit(z, w);
    LowBits(z % Pow2(w), z / Pow2(w), w, k);
  }

  lemma NoBitsAbove(x: nat, k: nat)
    requires x < Pow2(k)
    ensures !On(x, k)
  {
    ModSmall(x, Pow2(k));
  }

  lemma AllOnes(n: nat, k: nat)
    requires k < n
    ensures On(Pow2(n) - 1, k)
  {
    hide Pow2, Glue;
    GlueOnes(k, n - k);
    GlueParts(Pow2(k) - 1, Pow2(n - k) - 1, k);
    OneMore(n - k);
    DoubleLess(Pow2(n - k - 1));
  }

  lemma DoubleLess(p: int)
    ensures (2 * p - 1) % 2 == 1
  {
  }

  lemma OneMore(n: nat)
    requires n > 0
    ensures Pow2(n) == 2 * Pow2(n - 1)
  {
  }

  lemma TopBit(x: nat, w: nat)
    requires w > 0 && x < Pow2(w)
    ensures On(x, w - 1) <==> x >= Pow2(w - 1)
  {
    var p := Pow2(w - 1);
    if x < p { ModSmall(x, p); } else { DivUnique(x, 1, x - p, p); }
  }

  // ----- shifts -----

  lemma ShlBits(x: nat, c: nat, w: nat, k: nat)
    requires k < w
    ensures On(Words.Shl(x, c, w), k) <==> k >= c && On(x, k - c)
  {
    hide BitAt, Pow2, Glue;
    GlueShift(x, c);
    CutBits(x * Pow2(c), w, k);
    if k < c {
      LowBits(0, x, c, k);
      NoBitAt(k);
    } else {
      HighBits(0, x, c, k);
    }
  }

  lemma NoBitAt(k: nat)
    ensures !On(0, k)
  {
    NoBitsAbove(0, k);
  }

  lemma ShrBits(x: nat, c: nat, k: nat)
    ensures On(Words.Shr(x, c), k) <==> On(x, k + c)
  {
    hide BitAt, Pow2, Glue;
    GlueSplit(x, c);
    HighBits(x % Pow2(c), x / Pow2(c), c, k + c);
  }

  /** The sign fills what a shift to the right leaves empty. */
  lemma SarBits(x: nat, c: nat, w: nat, k: nat)
    requires w > 0 && x < Pow2(w) && k < w && c <= w
    ensures On(Words.Sar(x, c, w), k) <==> On(x, if k + c < w then k + c else w - 1)
  {
    hide BitAt, Pow2, Glue, Low;
    TopBit(x, w);
    var s := Signed(x, w);
    if x < Pow2(w - 1) {
      DivLess(x, Pow2(c));
      CutBits(x / Pow2(c), w, k);
      ShrBits(x, c, k);
      if k + c >= w { PositiveAbove(x, w, k + c); }
    } else {
      var y := Glue(x, Pow2(c) - 1, w);
      NegativeShifted(x, c, w);
      CutBits(y / Pow2(c), w, k);
      ShrBits(y, c, k);
      if k + c < w { LowBits(x, Pow2(c) - 1, w, k + c); }
      else {
        HighBits(x, Pow2(c) - 1, w, k + c);
        AllOnes(c, k + c - w);
      }
    }
  }

  lemma {:induction false} Grows(m: nat, n: nat)
    requires m <= n
    ensures Pow2(m) <= Pow2(n)
    decreases n
  {
    if m < n { Grows(m, n - 1); }
  }

  lemma PositiveAbove(x: nat, w: nat, k: nat)
    requires x < Pow2(w) && k >= w
    ensures !On(x, k)
  {
    Grows(w, k);
    NoBitsAbove(x, k);
  }

  /** A negative word is shifted as the wider one with ones above it. */
  lemma NegativeShifted(x: nat, c: nat, w: nat)
    requires w > 0 && Pow2(w - 1) <= x < Pow2(w)
    ensures 0 <= Glue(x, Pow2(c) - 1, w) / Pow2(c)
    ensures Words.Sar(x, c, w) == Low(Glue(x, Pow2(c) - 1, w) / Pow2(c), w)
  {
    hide Pow2, Low;
    var p, q := Pow2(w), Pow2(c);
    var y := x + p * (q - 1);
    SignedTop(x, w);
    MulAtLeastZero(p, q - 1);
    DivLess(y, q);
    Borrowed(x, p, q);
    LowMinus(y / q, w);
  }

  lemma MulAtLeastZero(p: nat, q: nat)
    ensures 0 <= p * q
  {
  }

  lemma Borrowed(x: int, p: int, q: int)
    requires q > 0
    ensures (x - p) / q == (x + p * (q - 1)) / q - p
  {
    var y := x + p * (q - 1);
    var d, r := y / q, y % q;
    Distribute(p, q, -1);
    MulCommutes(p, q);
    assert y == d * q + r;
    MulDiff(d, p, q);
    DivUnique(x - p, d - p, r, q);
  }

  lemma LowMinus(z: int, w: nat)
    ensures Low(z - Pow2(w), w) == Low(z, w)
  {
    hide Pow2;
    ModAdd(z, -1, Pow2(w));
  }

  lemma SignedTop(x: nat, w: nat)
    requires w > 0 && Pow2(w - 1) <= x < Pow2(w)
    ensures Signed(x, w) == x - Pow2(w)
  {
  }

  // ----- what the operations mean -----

  predicate Congruent(r: int, z: int, w: nat) { (r - z) % Pow2(w) == 0 }

  /** Division towards zero: the remainder is smaller than the divisor and has the sign of
      the dividend. */
  predicate Towards(x: int, y: int, q: int, m: int) { Leaving(x, y, q * y, m) }

  predicate Leaving(x: int, y: int, p: int, m: int) {
    && x == p + m
    && (if y > 0 then -y < m < y else y < m < -y)
    && (m > 0 ==> x > 0) && (m < 0 ==> x < 0)
  }

  predicate Rest(x: int, y: int, q: int, m: int) { x == q * y + m && 0 <= m < y }

  predicate Bits(op: BitOp, x: nat, y: nat, r: nat, w: nat) {
    forall k: nat :: k < w ==> (On(r, k) <==> Joined(op, On(x, k), On(y, k)))
  }

  predicate ShiftedLeft(x: nat, c: nat, r: nat, w: nat) {
    forall k: nat :: k < w ==> (On(r, k) <==> k >= c && On(x, k - c))
  }

  predicate ShiftedRight(x: nat, c: nat, fill: bool, r: nat, w: nat) {
    forall k: nat :: k < w ==> (On(r, k) <==> if k + c < w then On(x, k + c) else fill)
  }

  predicate Tells(r: nat, b: bool) { r == if b then 1 else 0 }

  /** `r` is what C makes of `x op y` on words of `w` bits. */
  ghost predicate Means(op: Op, x: nat, y: nat, r: nat, w: nat)
    requires w > 0 && x < Pow2(w) && y < Pow2(w) && r < Pow2(w)
  {
    var sx, sy, sr := Signed(x, w), Signed(y, w), Signed(r, w);
    match op
    case Add => Congruent(r, x + y, w)
    case Sub => Congruent(r, x - y, w)
    case Mul => Congruent(r, x * y, w)
    case And => Bits(BitOp.And, x, y, r, w)
    case Or => Bits(BitOp.Or, x, y, r, w)
    case Xor => Bits(BitOp.Xor, x, y, r, w)
    case Div => Towards(sx, sy, sr, sx - sr * sy)
    case PDiv => Towards(sx, sy, sr, sx - sr * sy)
    case Mod => exists q: int :: Towards(sx, sy, q, sr)
    case UDiv => Rest(x, y, r, x - r * y)
    case UMod => exists q: int :: Rest(x, y, q, r)
    case Shl => ShiftedLeft(x, y, r, w)
    case Shr => ShiftedRight(x, y, false, r, w)
    case Sar => ShiftedRight(x, y, On(x, w - 1), r, w)
    case Ult => Tells(r, x < y)
    case Uge => Tells(r, x >= y)
    case Eq => Tells(r, x == y)
    case Ne => Tells(r, x != y)
    case Ule => Tells(r, x <= y)
    case Ugt => Tells(r, x > y)
    case Lt => Tells(r, sx < sy)
    case Ge => Tells(r, sx >= sy)
    case Le => Tells(r, sx <= sy)
    case Gt => Tells(r, sx > sy)
    case Land => Tells(r, x != 0 && y != 0)
    case Lor => Tells(r, x != 0 || y != 0)
  }

  // ----- the machine does what C says -----

  lemma Quotients(x: int, y: int)
    requires y != 0
    ensures Towards(x, y, Quotient(x, y), Remainder(x, y))
  {
    var a: int, b: int := Abs(x), Abs(y);
    Divided(a, b);
    DivLess(a, b);
    SignedTowards(x, y, a, b, a / b, a % b);
  }

  lemma SignedTowards(x: int, y: int, a: int, b: int, d: int, r: int)
    requires a == Abs(x) && b == Abs(y) && y != 0 && Rest(a, b, d, r) && d >= 0
    ensures Towards(x, y, if (x >= 0) == (y > 0) then d else -d, if x >= 0 then r else -r)
  {
    SignedProduct(d, b, y, x >= 0);
    MulAtLeastZero(d, b);
    Exceeding(x, y, a, b, d * b, r);
  }

  lemma SignedProduct(d: int, b: int, y: int, up: bool)
    requires y != 0 && b == Abs(y)
    ensures (if up == (y > 0) then d else -d) * y == if up then d * b else -(d * b)
  {
    Negated(d, b);
    if y > 0 {
      assert y == b;
    } else {
      assert y == -b;
    }
  }

  lemma Exceeding(x: int, y: int, a: int, b: int, p: int, r: int)
    requires a == Abs(x) && b == Abs(y) && y != 0 && a == p + r && 0 <= p && 0 <= r < b
    ensures Leaving(x, y, if x >= 0 then p else -p, if x >= 0 then r else -r)
  {
  }

  lemma Negated(d: int, b: int)
    ensures (-d) * b == -(d * b) && d * (-b) == -(d * b) && (-d) * (-b) == d * b
  {
  }

  lemma TowardsOnce(x: int, y: int, q: int, m: int, q': int, m': int)
    requires y != 0 && Towards(x, y, q, m) && Towards(x, y, q', m')
    ensures q == q' && m == m'
  {
    MulDiff(q, q', y);
    var d: int, b: int := q - q', Abs(y);
    assert d * y == m' - m && -b < m' - m < b;
    if y < 0 { MulCommutes(d, y); MulCommutes(d, -y); MulDiff(0, y, d); }
    if d >= 1 { MulAtLeast(d, b); }
    if d <= -1 { MulAtMost(d, b); }
  }

  lemma RestOnce(x: int, y: int, q: int, m: int, q': int, m': int)
    requires Rest(x, y, q, m) && Rest(x, y, q', m')
    ensures q == q' && m == m'
  {
    DivUnique(x, q, m, y);
    DivUnique(x, q', m', y);
  }

  lemma CongruentOnce(z: int, r: nat, r': nat, w: nat)
    requires r < Pow2(w) && r' < Pow2(w) && Congruent(r, z, w) && Congruent(r', z, w)
    ensures r == r'
  {
    hide Pow2;
    var p := Pow2(w);
    var a, b := (r - z) / p, (r' - z) / p;
    assert r - z == a * p && r' - z == b * p;
    MulDiff(a, b, p);
    if a - b >= 1 { MulAtLeast(a - b, p); }
    if a - b <= -1 { MulAtMost(a - b, p); }
  }

  lemma LowCongruent(z: int, w: nat)
    ensures Congruent(Low(z, w), z, w)
  {
    hide Pow2;
    var p: int := Pow2(w);
    var d: int, r: int := z / p, z % p;
    assert z == d * p + r;
    MulDiff(0, d, p);
    ModMul(-d, p);
  }

  lemma SignedLows(z: int, w: nat)
    requires w > 0 && 0 <= z + Pow2(w - 1) < Pow2(w)
    ensures Signed(Low(z, w), w) == z
  {
    OneMore(w);
    if z >= 0 { ModSmall(z, Pow2(w)); } else { ModSmall(z + Pow2(w), Pow2(w)); ModAdd(z, 1, Pow2(w)); }
  }

  lemma SameSigned(x: nat, y: nat, w: nat)
    requires w > 0 && x < Pow2(w) && y < Pow2(w) && Signed(x, w) == Signed(y, w)
    ensures x == y
  {
  }

  lemma SignedNothing(y: nat, w: nat)
    requires w > 0 && y < Pow2(w)
    ensures Signed(y, w) == 0 <==> y == 0
  {
  }

  /** A quotient stays in the range of its operands but for one. */
  lemma QuotientRange(x: int, y: int, q: int, m: int, h: int)
    requires y != 0 && Towards(x, y, q, m) && -h <= x < h && -h <= y < h && !(x == -h && y == -1)
    ensures -h <= q < h && -h <= m < h
  {
    if y > 0 {
      ProductRange(x, q, y, m);
    } else {
      Negated(q, y);
      ProductRange(x, -q, -y, m);
    }
  }

  lemma ProductRange(x: int, d: int, a: int, m: int)
    requires a >= 1 && x == d * a + m && -a < m < a && (m > 0 ==> x > 0) && (m < 0 ==> x < 0)
    ensures if x >= 0 then 0 <= d <= x else x <= d <= 0
    ensures d == x && x != 0 ==> a == 1
  {
    if d >= 1 {
      MulAtLeast(d, a);
      Scaled(d, a);
    } else if d <= -1 {
      MulAtMost(d, a);
      Negated(d, a);
      Scaled(-d, a);
    }
  }

  lemma Scaled(d: int, a: int)
    requires d >= 1 && a >= 1
    ensures d * a >= d && (a > 1 ==> d * a > d)
  {
    MulCommutes(d, a);
    MulAtLeast(a, d);
    if a > 1 {
      MulDiff(a, 1, d);
      MulAtLeast(a - 1, d);
    }
  }

  /** The operation has the meaning of its operator. */
  lemma MachineHolds(op: Op, x: nat, y: nat, w: nat)
    requires w > 0 && x < Pow2(w) && y < Pow2(w) && Defined(op, x, y, w)
    ensures Means(op, x, y, Machine(op, x, y, w), w)
  {
    hide Pow2, Signed, Low, Bitwise, Words.Shl, Words.Shr, Words.Sar, On, Congruent, Towards, Quotient, Remainder;
    if op in {Add, Sub, Mul} {
      LowCongruent(x + y, w);
      LowCongruent(x - y, w);
      LowCongruent(x * y, w);
    } else if op in {Op.And, Op.Or, Op.Xor} {
      BitsHold(op, x, y, w);
    } else if op in {Div, PDiv, Mod} {
      DivisionHolds(op, x, y, w);
    } else if op in {UDiv, UMod} {
      UnsignedHolds(op, x, y, w);
    } else if IsShift(op) {
      ShiftHolds(op, x, y, w);
    }
  }

  lemma BitsHold(op: Op, x: nat, y: nat, w: nat)
    requires w > 0 && x < Pow2(w) && y < Pow2(w) && op in {Op.And, Op.Or, Op.Xor}
    ensures Means(op, x, y, Machine(op, x, y, w), w)
  {
    hide Pow2, Signed, Bitwise, On;
    var o := if op == Op.And then BitOp.And else if op == Op.Or then BitOp.Or else BitOp.Xor;
    forall k: nat | k < w ensures On(Bitwise(o, x, y, w), k) <==> Joined(o, On(x, k), On(y, k)) {
      BitwiseBits(o, x, y, w, k);
    }
  }

  lemma DivisionHolds(op: Op, x: nat, y: nat, w: nat)
    requires w > 0 && x < Pow2(w) && y < Pow2(w) && op in {Div, PDiv, Mod} && Defined(op, x, y, w)
    ensures Means(op, x, y, Machine(op, x, y, w), w)
  {
    hide Pow2, Signed, Low, Towards, Quotient, Remainder, On;
    var sx, sy, h := Signed(x, w), Signed(y, w), Pow2(w - 1);
    SignedNothing(y, w);
    OneMore(w);
    var q, m := Quotient(sx, sy), Remainder(sx, sy);
    Quotients(sx, sy);
    QuotientRange(sx, sy, q, m, h);
    SignedLows(q, w);
    SignedLows(m, w);
    assert m == sx - q * sy by { Leaves(sx, sy, q, m); }
  }

  lemma Leaves(x: int, y: int, q: int, m: int)
    requires Towards(x, y, q, m)
    ensures m == x - q * y
  {
  }

  lemma UnsignedHolds(op: Op, x: nat, y: nat, w: nat)
    requires w > 0 && x < Pow2(w) && y < Pow2(w) && op in {UDiv, UMod} && Defined(op, x, y, w)
    ensures Means(op, x, y, Machine(op, x, y, w), w)
  {
    hide Pow2, Signed, On, Rest, Low, Bitwise, Quotient, Remainder;
    Divided(x, y);
    assert Rest(x, y, x / y, x % y);
    assert x - x / y * y == x % y;
  }

  lemma Divided(x: int, y: int)
    requires y > 0
    ensures Rest(x, y, x / y, x % y) && x - x / y * y == x % y
  {
  }

  lemma ShiftHolds(op: Op, x: nat, y: nat, w: nat)
    requires w > 0 && x < Pow2(w) && y < w && y < Pow2(w) && IsShift(op)
    ensures Means(op, x, y, Machine(op, x, y, w), w)
  {
    hide Pow2, Signed, Words.Shl, Words.Shr, Words.Sar, On;
    forall k: nat | k < w
      ensures On(Words.Shl(x, y, w), k) <==> k >= y && On(x, k - y)
      ensures On(Words.Shr(x, y), k) <==> if k + y < w then On(x, k + y) else false
      ensures On(Words.Sar(x, y, w), k) <==> On(x, if k + y < w then k + y else w - 1)
    {
      ShlBits(x, y, w, k);
      ShrBits(x, y, k);
      SarBits(x, y, w, k);
      if k + y >= w { PositiveAbove(x, w, k + y); }
    }
  }

  /** No other word has it. */
  lemma MeansOnce(op: Op, x: nat, y: nat, r: nat, r': nat, w: nat)
    requires w > 0 && x < Pow2(w) && y < Pow2(w) && r < Pow2(w) && r' < Pow2(w) && Defined(op, x, y, w)
    requires Means(op, x, y, r, w) && Means(op, x, y, r', w)
    ensures r == r'
  {
    hide Pow2, Signed, On, Congruent, Towards, Rest;
    if op in {Add, Sub, Mul} {
      CongruentOnce(if op == Add then x + y else if op == Sub then x - y else x * y, r, r', w);
    } else if op in {Op.And, Op.Or, Op.Xor} || IsShift(op) {
      BitsOnce(op, x, y, r, r', w);
    } else if op in {Div, PDiv, Mod} {
      DivisionOnce(op, x, y, r, r', w);
    } else if op == UDiv {
      RestOnce(x, y, r, x - r * y, r', x - r' * y);
    } else if op == UMod {
      var q: int :| Rest(x, y, q, r);
      var q': int :| Rest(x, y, q', r');
      RestOnce(x, y, q, r, q', r');
    }
  }

  lemma DivisionOnce(op: Op, x: nat, y: nat, r: nat, r': nat, w: nat)
    requires w > 0 && x < Pow2(w) && y < Pow2(w) && r < Pow2(w) && r' < Pow2(w) && y != 0 && op in {Div, PDiv, Mod}
    requires Means(op, x, y, r, w) && Means(op, x, y, r', w)
    ensures r == r'
  {
    hide Pow2, Signed, On, Congruent, Towards, Rest;
    var sx, sy, sr, sr' := Signed(x, w), Signed(y, w), Signed(r, w), Signed(r', w);
    SignedNothing(y, w);
    if op == Mod {
      var q: int :| Towards(sx, sy, q, sr);
      var q': int :| Towards(sx, sy, q', sr');
      TowardsOnce(sx, sy, q, sr, q', sr');
    } else {
      TowardsOnce(sx, sy, sr, sx - sr * sy, sr', sx - sr' * sy);
    }
    SameSigned(r, r', w);
  }

  lemma BitsOnce(op: Op, x: nat, y: nat, r: nat, r': nat, w: nat)
    requires w > 0 && x < Pow2(w) && y < Pow2(w) && r < Pow2(w) && r' < Pow2(w)
    requires op in {Op.And, Op.Or, Op.Xor} || IsShift(op)
    requires Means(op, x, y, r, w) && Means(op, x, y, r', w)
    ensures r == r'
  {
    hide Pow2, Signed, On, Joined;
    SameBits(r, r', w);
  }

  /** The operation is the one word that C's operator determines. */
  lemma MachineMeans(op: Op, x: nat, y: nat, r: nat, w: nat)
    requires w > 0 && x < Pow2(w) && y < Pow2(w) && r < Pow2(w) && Defined(op, x, y, w)
    ensures Machine(op, x, y, w) == r <==> Means(op, x, y, r, w)
  {
    hide Pow2, Machine, Means, Defined;
    MachineHolds(op, x, y, w);
    if Means(op, x, y, r, w) { MeansOnce(op, x, y, r, Machine(op, x, y, w), w); }
  }

  // ----- what is reported and what is dropped -----

  /** Some word is the result. */
  ghost predicate HasValue(op: Op, x: nat, y: nat, w: nat)
    requires w > 0 && x < Pow2(w) && y < Pow2(w)
  {
    exists r: nat :: r < Pow2(w) && Means(op, x, y, r, w)
  }

  /** C leaves undefined what has no result, and a remainder where there is no quotient. */
  lemma DefinedExactly(op: Op, x: nat, y: nat, w: nat)
    requires w > 0 && x < Pow2(w) && y < Pow2(w) && !IsShift(op) && op != PDiv
    ensures Defined(op, x, y, w) <==> HasValue(if op == Mod then Div else op, x, y, w)
  {
    hide Pow2, Machine, Means, Signed;
    var o := if op == Mod then Div else op;
    if Defined(op, x, y, w) {
      MachineHolds(o, x, y, w);
    } else if HasValue(o, x, y, w) {
      var r: nat :| r < Pow2(w) && Means(o, x, y, r, w);
      NoValue(op, x, y, r, w);
    }
  }

  lemma NoValue(op: Op, x: nat, y: nat, r: nat, w: nat)
    requires w > 0 && x < Pow2(w) && y < Pow2(w) && r < Pow2(w) && !IsShift(op) && op != PDiv && !Defined(op, x, y, w)
    ensures !Means(if op == Mod then Div else op, x, y, r, w)
  {
    hide Pow2, Signed;
    SignedNothing(y, w);
    OneMore(w);
    if op != UDiv && op != UMod && y != 0 {
      var sx, sr := Signed(x, w), Signed(r, w);
      assert sr * -1 == -sr;
    }
  }

  /** No first operand gives the operation a value. */
  ghost predicate NeverDefined(op: Op, y: nat, w: nat)
    requires w > 0 && y < Pow2(w)
  {
    forall x: nat :: x < Pow2(w) ==> !Defined(op, x, y, w)
  }

  /** A division by a constant is reported exactly if it has no value whatever is divided. */
  lemma ReportedExactly(op: Op, y: nat, t: Type)
    requires TypeOk(t) && y < Pow2(t.w) && !IsShift(op)
    ensures DivByZero(op, Known(Held(y, t))) <==> NeverDefined(op, y, t.w)
  {
    hide Pow2, Held, Signed;
    HeldPositive(y, t);
    SignedNothing(0, t.w);
    OneMore(t.w);
    assert Held(0, t) == 0 by { HeldNothing(t); }
    if y != 0 || op !in {Div, Mod, UDiv, UMod, PDiv} {
      SignedNothing(y, t.w);
      if y != 0 { ModSmall(0, Abs(Signed(y, t.w))); }
      assert Defined(op, 0, y, t.w);
    }
  }

  lemma HeldNothing(t: Type)
    requires TypeOk(t)
    ensures Held(0, t) == 0
  {
  }

  ghost predicate LeavesAll(op: Op, y: nat, w: nat)
    requires w > 0 && y < Pow2(w)
  {
    forall x: nat :: x < Pow2(w) ==> Machine(op, x, y, w) == x
  }

  /** A constant is dropped exactly if it never changes the other operand; all ones in an
      `unsigned int` escape. */
  lemma NeutralExactly(op: Op, y: nat, t: Type)
    requires TypeOk(t) && Legit(op, t) && y < Pow2(t.w)
    requires !(op == Op.And && t == Type(32, true))
    ensures IsNeutral(op, Held(y, t)) <==> LeavesAll(op, y, t.w)
  {
    hide Pow2, Machine, Held;
    if IsNeutral(op, Held(y, t)) {
      forall x: nat | x < Pow2(t.w) ensures Machine(op, x, y, t.w) == x {
        Neutral(op, x, y, t);
      }
    } else {
      Changes(op, y, t);
    }
  }

  /** All ones of an `unsigned int` is neutral and is not dropped. */
  lemma Escapes()
    ensures Pow2(32) - 1 >= 0 && LeavesAll(Op.And, Pow2(32) - 1, 32)
    ensures !IsNeutral(Op.And, Held(Pow2(32) - 1, Type(32, true)))
  {
    hide Pow2, Bitwise;
    Pow2Values();
    var ones := Pow2(32) - 1;
    forall x: nat | x < Pow2(32) ensures Machine(Op.And, x, ones, 32) == x {
      AndOnes(x, 32);
    }
  }

  /** An operand that the constant changes. */
  function Changed(op: Op, y: nat, w: nat): (x: nat)
    requires (w == 32 || w == 64) && y < Pow2(w)
    ensures x < Pow2(w)
  {
    Pow2Values();
    if op == Op.And then Pow2(w) - 1
    else if op in {Add, Op.Or, Op.Xor, Sub} then 0
    else if y > 0 && op in {Div, PDiv, UDiv, Mod, UMod} then y
    else if op in {Mul, Div, PDiv, UDiv, Mod, UMod, Op.Shl, Op.Shr, Op.Sar} then 1
    else 2
  }

  lemma Changes(op: Op, y: nat, t: Type)
    requires TypeOk(t) && Legit(op, t) && y < Pow2(t.w) && !IsNeutral(op, Held(y, t))
    requires !(op == Op.And && t == Type(32, true))
    ensures Alters(op, y, t.w)
  {
    hide Pow2, Machine, Held, Changed;
    HeldOnes(y, t);
    if op in {Op.And, Op.Or, Op.Xor} {
      BitsChange(op, y, t.w);
    } else if op in {Add, Sub, Mul} {
      SumChanges(op, y, t.w);
    } else if op in {Div, PDiv, Mod} {
      QuotientChanges(op, y, t.w);
    } else if op in {UDiv, UMod} {
      RestChanges(op, y, t.w);
    } else if IsShift(op) {
      ShiftChanges(op, y, t.w);
    } else {
      TestChanges(op, y, t.w);
    }
  }

  predicate Alters(op: Op, y: nat, w: nat)
    requires (w == 32 || w == 64) && y < Pow2(w)
  {
    Machine(op, Changed(op, y, w), y, w) != Changed(op, y, w)
  }

  lemma BitsChange(op: Op, y: nat, w: nat)
    requires (w == 32 || w == 64) && y < Pow2(w) && op in {Op.And, Op.Or, Op.Xor}
    requires if op == Op.And then y != Pow2(w) - 1 else y != 0
    ensures Alters(op, y, w)
  {
    hide Pow2, Bitwise, Low;
    AndOnes(y, w);
    OrZero(y, w);
    XorZero(y, w);
    BitwiseCommutes(BitOp.Xor, 0, y, w);
  }

  lemma TestChanges(op: Op, y: nat, w: nat)
    requires (w == 32 || w == 64) && y < Pow2(w)
    requires op !in {Op.And, Op.Or, Op.Xor, Add, Sub, Mul, Div, PDiv, Mod, UDiv, UMod} && !IsShift(op)
    ensures Alters(op, y, w)
  {
    hide Pow2, Bitwise, Low, Signed;
  }

  lemma RestChanges(op: Op, y: nat, w: nat)
    requires (w == 32 || w == 64) && y < Pow2(w) && op in {UDiv, UMod} && (op == UDiv ==> y != 1)
    ensures Alters(op, y, w)
  {
    hide Pow2, Bitwise, Low, Signed;
    if y > 0 { ItselfOnce(y); }
  }

  /** The constants that are neutral for some operation, as they are held. */
  lemma HeldOnes(y: nat, t: Type)
    requires TypeOk(t) && y < Pow2(t.w)
    ensures y == 0 ==> Held(y, t) == 0
    ensures y == 1 ==> Held(y, t) == 1
    ensures y == Pow2(t.w) - 1 && t != Type(32, true) ==> Held(y, t) == Pow2(64) - 1
  {
    Pow2Values();
  }

  lemma SumChanges(op: Op, y: nat, w: nat)
    requires (w == 32 || w == 64) && y < Pow2(w) && op in {Add, Sub, Mul} && y != if op == Mul then 1 else 0
    ensures Alters(op, y, w)
  {
    hide Pow2, Bitwise, Signed;
    var p := Pow2(w);
    ModSmall(y, p);
    if y != 0 {
      ModSmall(p - y, p);
      ModAdd(0 - y, 1, p);
    }
  }

  lemma QuotientChanges(op: Op, y: nat, w: nat)
    requires (w == 32 || w == 64) && y < Pow2(w) && op in {Div, PDiv, Mod} && (op != Mod ==> y != 1)
    ensures Alters(op, y, w)
  {
    hide Pow2, Signed, Bitwise;
    Pow2Values();
    SignedNothing(y, w);
    var s := Signed(y, w);
    if s != 0 {
      ItselfOnce(Abs(s));
      ModSmall(1, Pow2(w));
      ModSmall(0, Pow2(w));
    }
  }

  lemma ItselfOnce(y: nat)
    requires y > 0
    ensures y / y == 1 && y % y == 0
  {
    DivUnique(y, 1, 0, y);
  }

  lemma ShiftChanges(op: Op, y: nat, w: nat)
    requires (w == 32 || w == 64) && y < Pow2(w) && IsShift(op) && y != 0
    ensures Alters(op, y, w)
  {
    hide Pow2, Signed, BitAt, Bitwise, Words.Shl;
    Pow2Values();
    ShlBits(1, y, w, 0);
    LowestBit(1);
    LowestBit(Words.Shl(1, y, w));
    Grows(1, y);
    PowerOne();
    ModSmall(1, Pow2(y));
    SignedOne(w);
    ModSmall(0, Pow2(w));
  }
}
