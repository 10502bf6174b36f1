/** Integer operations with constant operands: folded in 64 bits when both are constant,
    dropped or turned into shifts when one is. */
module ConstFold {
  import opened Arith
  import opened Words

  datatype Op =
    | Add | Sub | Mul | And | Or | Xor
    | Div | Mod | UDiv | UMod | PDiv
    | Shl | Shr | Sar
    | Ult | Uge | Eq | Ne | Ule | Ugt | Lt | Ge | Le | Gt
    | Land | Lor

  /** The type both operands have been cast to. */
  datatype Type = Type(w: nat, unsigned: bool)

  predicate TypeOk(t: Type) { t.w == 32 || t.w == 64 }

  /** The operators a type is used with: those that read the sign have two forms. */
  predicate Legit(op: Op, t: Type) {
    if op in {Div, Mod, Sar, Lt, Ge, Le, Gt} then !t.unsigned
    else if op in {UDiv, UMod, Shr, Ult, Uge, Ule, Ugt} then t.unsigned
    else if op == PDiv then !t.unsigned
    else true
  }

  predicate IsShift(op: Op) { op == Shl || op == Shr || op == Sar }

  // ----- the operation itself -----

  /** Division as processors and C do it, towards zero. */
  function Quotient(x: int, y: int): int
    requires y != 0
  {
    if (x >= 0) == (y > 0) then Abs(x) / Abs(y) else -(Abs(x) / Abs(y))
  }

  function Remainder(x: int, y: int): int
    requires y != 0
  {
    if x >= 0 then Abs(x) % Abs(y) else -(Abs(x) % Abs(y))
  }

  function Abs(x: int): (r: nat)
    ensures x != 0 ==> r > 0
  {
    if x >= 0 then x else -x
  }

  function Truth(b: bool): nat { if b then 1 else 0 }

  /** The operation on words of `w` bits. */
  function Machine(op: Op, x: nat, y: nat, w: nat): (r: nat)
    requires w > 0 && x < Pow2(w) && y < Pow2(w)
    ensures r < Pow2(w)
  {
    var sx, sy := Signed(x, w), Signed(y, w);
    match op
    case Add => Low(x + y, w)
    case Sub => Low(x - y, w)
    case Mul => Low(x * y, w)
    case And => Bitwise(BitOp.And, x, y, w)
    case Or => Bitwise(BitOp.Or, x, y, w)
    case Xor => Bitwise(BitOp.Xor, x, y, w)
    case Div => if sy == 0 then 0 else Low(Quotient(sx, sy), w)
    case PDiv => if sy == 0 then 0 else Low(Quotient(sx, sy), w)
    case Mod => if sy == 0 then 0 else Low(Remainder(sx, sy), w)
    case UDiv => if y == 0 then 0 else DivLess(x, y); x / y
    case UMod => if y == 0 then 0 else x % y
    case Shl => Words.Shl(x, y, w)
    case Shr => Words.Shr(x, y)
    case Sar => Words.Sar(x, y, w)
    case Ult => Truth(x < y)
    case Uge => Truth(x >= y)
    case Eq => Truth(x == y)
    case Ne => Truth(x != y)
    case Ule => Truth(x <= y)
    case Ugt => Truth(x > y)
    case Lt => Truth(sx < sy)
    case Ge => Truth(sx >= sy)
    case Le => Truth(sx <= sy)
    case Gt => Truth(sx > sy)
    case Land => Truth(x != 0 && y != 0)
    case Lor => Truth(x != 0 || y != 0)
  }

  /** Where C gives the operation a value: no division by zero or overflowing one, pointer
      differences that are exact, and counts below the width. */
  predicate Defined(op: Op, x: nat, y: nat, w: nat)
    requires w > 0 && x < Pow2(w) && y < Pow2(w)
  {
    && (op in {Div, Mod, PDiv} ==> y != 0 && !(Signed(x, w) + Pow2(w - 1) == 0 && Signed(y, w) == -1))
    && (op in {UDiv, UMod} ==> y != 0)
    && (op == PDiv && y != 0 ==> Abs(Signed(x, w)) % Abs(Signed(y, w)) == 0)
    && (IsShift(op) ==> y < w)
  }

  /** How a constant of type `t` is held: sign- or zero-extended to 64 bits. */
  function Held(x: nat, t: Type): nat
    requires TypeOk(t) && x < Pow2(t.w)
  {
    if t.unsigned || t.w == 64 then x else Low(Signed(x, t.w), 64)
  }

  // ----- folding -----

  /** What a held constant is worth. */
  lemma HeldIs(x: nat, t: Type)
    requires TypeOk(t) && x < Pow2(t.w)
    ensures Held(x, t) < Pow2(64) && Held(x, t) % Pow2(t.w) == x
    ensures Signed(Held(x, t), 64) == if t.unsigned && t.w == 32 then x else Signed(x, t.w)
    ensures x < 64 ==> Held(x, t) == x
  {
    hide Pow2, Signed;
    Pow2Values();
    if t.w == 64 {
      ModSmall(x, Pow2(64));
    } else if t.unsigned {
      ModSmall(x, Pow2(32));
      SignedWide(x);
    } else {
      HeldSigned(x);
    }
  }

  lemma SignedWide(x: nat)
    requires x < Pow2(32)
    ensures x < Pow2(64) && Signed(x, 64) == x
  {
    hide Pow2;
    Pow2Values();
  }

  lemma HeldSigned(x: nat)
    requires x < Pow2(32)
    ensures var h := Low(Signed(x, 32), 64);
            h < Pow2(64) && h % Pow2(32) == x && Signed(h, 64) == Signed(x, 32) && (x < 64 ==> h == x)
  {
    hide Pow2;
    Pow2Values();
    if x >= 0x8000_0000 {
      var h := x - 0x1_0000_0000 + 0x1_0000_0000_0000_0000;
      DivUnique(x - 0x1_0000_0000, -1, h, 0x1_0000_0000_0000_0000);
      DivUnique(h, 0xffff_ffff, x, 0x1_0000_0000);
    }
  }

  lemma LowLow(z: int)
    ensures Low(Low(z, 64), 32) == Low(z, 32)
  {
    hide Pow2;
    Pow2Values();
  }

  lemma LowSmall(z: nat, w: nat)
    requires z < Pow2(w)
    ensures Low(z, w) == z
  {
    hide Pow2;
    ModSmall(z, Pow2(w));
  }

  /** Operands with the same remainder give results with the same remainder. */
  lemma Congruent(a: int, x: int, c: int, p: int)
    requires p > 0 && a % p == x
    ensures (a + c) % p == (x + c) % p && (a - c) % p == (x - c) % p && (c - a) % p == (c - x) % p
    ensures (a * c) % p == (x * c) % p && (c * a) % p == (c * x) % p
  {
    var k := a / p;
    SumCongruent(a, x, k, c, p);
    SumCongruent(a, x, k, -c, p);
    MinusCongruent(a, x, k, c, p);
    TimesCongruent(x, k, c, p);
    MulCommutes(a, c);
    MulCommutes(x, c);
  }

  lemma SumCongruent(a: int, x: int, k: int, c: int, p: int)
    requires p > 0 && a == x + k * p
    ensures (a + c) % p == (x + c) % p
  {
    ModAdd(x + c, k, p);
  }

  lemma MinusCongruent(a: int, x: int, k: int, c: int, p: int)
    requires p > 0 && a == x + k * p
    ensures (c - a) % p == (c - x) % p
  {
    MulDiff(0, k, p);
    ModAdd(c - x, 0 - k, p);
  }

  lemma TimesCongruent(x: int, k: int, c: int, p: int)
    requires p > 0
    ensures ((x + k * p) * c) % p == (x * c) % p
  {
    MulAssoc(k, p, c);
    MulAssoc(k, c, p);
    MulCommutes(p, c);
    Spread(x, k * p, c);
    ModAdd(x * c, k * c, p);
  }

  lemma Spread(x: int, y: int, c: int)
    ensures (x + y) * c == x * c + y * c
  {
  }

  /** 32-bit sums and products are those of any numbers with the same low words. */
  lemma SameLow(a: nat, b: nat, x: nat, y: nat)
    requires a % Pow2(32) == x && b % Pow2(32) == y
    ensures Low(a + b, 32) == Low(x + y, 32) && Low(a - b, 32) == Low(x - y, 32) && Low(a * b, 32) == Low(x * y, 32)
  {
    hide Pow2;
    Congruent(a, x, b, Pow2(32));
    Congruent(b, y, x, Pow2(32));
  }

  lemma BitwiseLow(o: BitOp, a: nat, b: nat)
    requires a < Pow2(64) && b < Pow2(64)
    ensures Low(Bitwise(o, a, b, 64), 32) == Bitwise(o, a % Pow2(32), b % Pow2(32), 32)
  {
    hide Pow2, Bitwise, Glue;
    GlueSplit(a, 32);
    GlueSplit(b, 32);
    BitwiseSplit(o, a % Pow2(32), a / Pow2(32), b % Pow2(32), b / Pow2(32), 32, 32);
    GlueParts(Bitwise(o, a % Pow2(32), b % Pow2(32), 32), Bitwise(o, a / Pow2(32), b / Pow2(32), 32), 32);
  }

  lemma ShlLow(a: nat, x: nat, c: nat)
    requires a % Pow2(32) == x
    ensures Low(a * Pow2(c), 32) == Low(x * Pow2(c), 32)
  {
    hide Pow2;
    Congruent(a, x, Pow2(c), Pow2(32));
  }

  /** Folding in 64 bits and cutting the result to its type is the operation on the type. */
  lemma FoldRefines(op: Op, x: nat, y: nat, t: Type)
    requires TypeOk(t) && Legit(op, t) && x < Pow2(t.w) && y < Pow2(t.w) && Defined(op, x, y, t.w)
    ensures Held(x, t) < Pow2(64) && Held(y, t) < Pow2(64)
    ensures Low(Machine(op, Held(x, t), Held(y, t), 64), t.w) == Machine(op, x, y, t.w)
  {
    hide Pow2, Held, Machine;
    HeldIs(x, t);
    HeldIs(y, t);
    if t.w == 64 {
      HeldWide(x, t);
      HeldWide(y, t);
      LowSmall(Machine(op, x, y, 64), 64);
    } else {
      FoldNarrow(op, x, y, t);
    }
  }

  lemma HeldWide(x: nat, t: Type)
    requires t.w == 64 && x < Pow2(64)
    ensures Held(x, t) == x
  {
  }

  lemma HeldUnsigned(x: nat, t: Type)
    requires t.w == 32 && t.unsigned && x < Pow2(32)
    ensures Held(x, t) == x
  {
  }

  lemma FoldNarrow(op: Op, x: nat, y: nat, t: Type)
    requires t.w == 32 && Legit(op, t) && x < Pow2(32) && y < Pow2(32) && Defined(op, x, y, 32)
    ensures Held(x, t) < Pow2(64) && Held(y, t) < Pow2(64)
    ensures Low(Machine(op, Held(x, t), Held(y, t), 64), 32) == Machine(op, x, y, 32)
  {
    hide Pow2, Held, Low, Machine, Signed;
    HeldIs(x, t);
    HeldIs(y, t);
    if op == Add || op == Sub || op == Mul {
      NarrowSum(op, x, y, t);
    } else if op == Op.And || op == Op.Or || op == Op.Xor {
      NarrowBits(op, x, y, t);
    } else if op == Div || op == PDiv || op == Mod {
      NarrowQuotient(op, x, y, t);
    } else if op == Op.Shl || op == Op.Sar {
      NarrowShift(op, x, y, t);
    } else {
      NarrowRest(op, x, y, t);
    }
  }

  lemma NarrowSum(op: Op, x: nat, y: nat, t: Type)
    requires t.w == 32 && x < Pow2(32) && y < Pow2(32) && op in {Add, Sub, Mul}
    ensures Held(x, t) < Pow2(64) && Held(y, t) < Pow2(64)
    ensures Low(Machine(op, Held(x, t), Held(y, t), 64), 32) == Machine(op, x, y, 32)
  {
    hide Pow2, Held, Low;
    HeldIs(x, t);
    HeldIs(y, t);
    var a: int, b: int := Held(x, t), Held(y, t);
    SameLow(a, b, x, y);
    LowLow(a + b);
    LowLow(a - b);
    LowLow(a * b);
  }

  lemma NarrowBits(op: Op, x: nat, y: nat, t: Type)
    requires t.w == 32 && x < Pow2(32) && y < Pow2(32) && op in {Op.And, Op.Or, Op.Xor}
    ensures Held(x, t) < Pow2(64) && Held(y, t) < Pow2(64)
    ensures Low(Machine(op, Held(x, t), Held(y, t), 64), 32) == Machine(op, x, y, 32)
  {
    hide Pow2, Held, Low, Bitwise;
    HeldIs(x, t);
    HeldIs(y, t);
    BitwiseLow(if op == Op.And then BitOp.And else if op == Op.Or then BitOp.Or else BitOp.Xor, Held(x, t), Held(y, t));
  }

  lemma NarrowQuotient(op: Op, x: nat, y: nat, t: Type)
    requires t.w == 32 && !t.unsigned && x < Pow2(32) && y < Pow2(32) && op in {Div, PDiv, Mod}
    ensures Held(x, t) < Pow2(64) && Held(y, t) < Pow2(64)
    ensures Low(Machine(op, Held(x, t), Held(y, t), 64), 32) == Machine(op, x, y, 32)
  {
    hide Pow2, Held, Low, Signed, Quotient, Remainder;
    HeldIs(x, t);
    HeldIs(y, t);
    var sx, sy := Signed(x, 32), Signed(y, 32);
    if sy != 0 {
      LowLow(Quotient(sx, sy));
      LowLow(Remainder(sx, sy));
    } else {
      LowLow(0);
      NothingLow(32);
    }
  }

  lemma NothingLow(w: nat)
    ensures 0 < Pow2(w) && Low(0, w) == 0
  {
    ModSmall(0, Pow2(w));
  }

  lemma NarrowShift(op: Op, x: nat, y: nat, t: Type)
    requires t.w == 32 && x < Pow2(32) && y < 32 && y < Pow2(32) && op in {Op.Shl, Op.Sar} && (op == Op.Sar ==> !t.unsigned)
    ensures Held(x, t) < Pow2(64) && Held(y, t) < Pow2(64)
    ensures Low(Machine(op, Held(x, t), Held(y, t), 64), 32) == Machine(op, x, y, 32)
  {
    hide Pow2, Held, Low, Signed;
    HeldIs(x, t);
    HeldIs(y, t);
    ShlLow(Held(x, t), x, y);
    LowLow(Held(x, t) * Pow2(y));
    LowLow(Signed(x, 32) / Pow2(y));
  }

  /** Unsigned operations and comparisons. */
  lemma NarrowRest(op: Op, x: nat, y: nat, t: Type)
    requires t.w == 32 && Legit(op, t) && x < Pow2(32) && y < Pow2(32)
    requires op in {UDiv, UMod, Op.Shr, Ult, Uge, Eq, Ne, Ule, Ugt} || op in {Lt, Ge, Le, Gt, Land, Lor}
    ensures Held(x, t) < Pow2(64) && Held(y, t) < Pow2(64)
    ensures Low(Machine(op, Held(x, t), Held(y, t), 64), 32) == Machine(op, x, y, 32)
  {
    hide Pow2, Held, Low, Bitwise, Quotient, Remainder;
    HeldIs(x, t);
    HeldIs(y, t);
    LowSmall(Machine(op, x, y, 32), 32);
    if t.unsigned {
      HeldUnsigned(x, t);
      HeldUnsigned(y, t);
    } else if op == Land || op == Lor {
      NarrowLogic(op, x, y, t);
    } else {
      NarrowTruth(op, x, y, t);
    }
  }

  lemma NarrowTruth(op: Op, x: nat, y: nat, t: Type)
    requires t.w == 32 && !t.unsigned && x < Pow2(32) && y < Pow2(32) && op in {Eq, Ne, Lt, Ge, Le, Gt}
    ensures Held(x, t) < Pow2(64) && Held(y, t) < Pow2(64)
    ensures Machine(op, Held(x, t), Held(y, t), 64) == Machine(op, x, y, 32)
  {
    hide Pow2, Held, Low, Signed;
    HeldIs(x, t);
    HeldIs(y, t);
  }

  lemma NarrowLogic(op: Op, x: nat, y: nat, t: Type)
    requires t.w == 32 && x < Pow2(32) && y < Pow2(32) && (op == Land || op == Lor)
    ensures Held(x, t) < Pow2(64) && Held(y, t) < Pow2(64)
    ensures Machine(op, Held(x, t), Held(y, t), 64) == Machine(op, x, y, 32)
  {
    hide Pow2, Held, Low, Signed, Bitwise, Quotient, Remainder;
    NotNothing(x, t);
    NotNothing(y, t);
  }

  lemma NotNothing(x: nat, t: Type)
    requires TypeOk(t) && x < Pow2(t.w)
    ensures Held(x, t) < Pow2(64) && (Held(x, t) == 0 <==> x == 0)
  {
    hide Pow2, Held, Signed;
    HeldIs(x, t);
    Pow2Values();
  }

  // ----- one constant operand -----

  /** A constant that leaves the other operand as it is. */
  predicate IsNeutral(op: Op, h: nat) {
    || (op in {Mul, Div, UDiv, PDiv} && h == 1)
    || (op in {Add, Sub, Op.Or, Op.Xor, Op.Shl, Op.Shr, Op.Sar} && h == 0)
    || (op == Op.And && h == Pow2(64) - 1)
  }

  lemma HeldPositive(y: nat, t: Type)
    requires TypeOk(t) && y < Pow2(t.w)
    ensures Held(y, t) < Pow2(64)
    ensures Signed(Held(y, t), 64) > 0 ==> Held(y, t) == y && (!t.unsigned ==> y < Pow2(t.w - 1))
    ensures Held(y, t) == 0 ==> y == 0
    ensures Held(y, t) == 1 ==> y == 1
    ensures Held(y, t) == Pow2(64) - 1 ==> y == Pow2(t.w) - 1
  {
    hide Pow2;
    Pow2Values();
  }

  lemma ShiftNothing(x: nat, w: nat)
    requires w > 0 && x < Pow2(w)
    ensures Words.Shl(x, 0, w) == x && Words.Shr(x, 0) == x && Words.Sar(x, 0, w) == x
  {
    LowSmall(x, w);
    assert Pow2(0) == 1;
    assert x * 1 == x && x / 1 == x && Signed(x, w) / 1 == Signed(x, w);
  }

  lemma Neutral(op: Op, x: nat, y: nat, t: Type)
    requires TypeOk(t) && Legit(op, t) && x < Pow2(t.w) && y < Pow2(t.w) && IsNeutral(op, Held(y, t))
    ensures Machine(op, x, y, t.w) == x
  {
    hide Pow2, Held, Low, Bitwise;
    HeldPositive(y, t);
    LowSmall(x, t.w);
    ShiftNothing(x, t.w);
    if op == Op.And { AndOnes(x, t.w); }
    if op == Op.Or { OrZero(x, t.w); }
    if op == Op.Xor { XorZero(x, t.w); }
    if op in {Div, PDiv} {
      SignedOne(t.w);
      QuotientOne(Signed(x, t.w));
    }
  }

  lemma SignedOne(w: nat)
    requires w == 32 || w == 64
    ensures 1 < Pow2(w) && Signed(1, w) == 1
  {
    hide Pow2;
    Pow2Values();
  }

  lemma QuotientOne(x: int)
    ensures Quotient(x, 1) == x
  {
  }

  /** Operands of a commutative operation may change places. */
  lemma Commutes(op: Op, x: nat, y: nat, w: nat)
    requires w > 0 && x < Pow2(w) && y < Pow2(w) && op in {Add, Op.And, Op.Or, Op.Xor, Mul}
    ensures Machine(op, x, y, w) == Machine(op, y, x, w)
  {
    hide Pow2, Bitwise;
    MulCommutes(x, y);
    BitwiseCommutes(if op == Op.And then BitOp.And else if op == Op.Or then BitOp.Or else BitOp.Xor, x, y, w);
  }

  lemma {:induction false} BitwiseCommutes(o: BitOp, x: nat, y: nat, n: nat)
    ensures Bitwise(o, x, y, n) == Bitwise(o, y, x, n)
    decreases n
  {
    if n > 0 {
      BitwiseCommutes(o, x / 2, y / 2, n - 1);
      MulCommutes(x % 2, y % 2);
    }
  }

  /** Counting the shifts that bring a power of two to zero. */
  method Log2(l: nat) returns (n: nat)
    requires Power(l)
    ensures IsPower(l, n)
  {
    ghost var k: nat :| IsPower(l, k);
    var m: int, i: int := l, -1;
    ghost var left := k;
    while m != 0
      invariant -1 <= i <= k
      invariant if m == 0 then i == k else i + 1 <= k && m == Pow2(k - (i + 1))
      decreases m
    {
      if i + 1 < k { assert Pow2(k - (i + 1)) == 2 * Pow2(k - (i + 2)); }
      m := m / 2;
      i := i + 1;
    }
    n := i;
  }

  /** The shift a multiplication or division by `2^n` becomes. */
  function Shifting(op: Op): Op {
    if op == Mul then Op.Shl else if op == PDiv then Op.Sar else Op.Shr
  }

  lemma Reduced(op: Op, x: nat, y: nat, t: Type, n: nat)
    requires TypeOk(t) && Legit(op, t) && op in {Mul, PDiv, UDiv} && x < Pow2(t.w) && y < Pow2(t.w)
    requires Defined(op, x, y, t.w) && y == Pow2(n) && (!t.unsigned ==> y < Pow2(t.w - 1))
    ensures n < Pow2(t.w) && Machine(op, x, y, t.w) == Machine(Shifting(op), x, n, t.w)
  {
    hide Pow2, Low, Bitwise;
    CountFits(n, t.w);
    if op == PDiv {
      SignedPower(n, t.w);
      ExactQuotient(Signed(x, t.w), Pow2(n));
    }
  }

  lemma {:induction false} CountFits(n: nat, w: nat)
    requires Pow2(n) < Pow2(w)
    ensures n < Pow2(w)
  {
    Exceeds(n);
  }

  lemma {:induction false} Exceeds(n: nat)
    ensures n < Pow2(n)
    decreases n
  {
    if n > 0 { Exceeds(n - 1); }
  }

  lemma SignedPower(n: nat, w: nat)
    requires w > 0 && Pow2(n) < Pow2(w - 1)
    ensures Pow2(n) < Pow2(w) && Signed(Pow2(n), w) == Pow2(n)
  {
  }

  /** An exact quotient is the same towards zero and downwards. */
  lemma ExactQuotient(x: int, y: nat)
    requires y > 0 && Abs(x) % y == 0
    ensures Quotient(x, y) == x / y
  {
    if x < 0 {
      var q := (-x) / y;
      assert -x == q * y;
      MulDiff(0, q, y);
      DivUnique(x, -q, 0, y);
    }
  }

  // ----- the code -----

  /** An operand: a constant held in 64 bits, the address of a symbol or a local with a
      constant added to it, or a value in a register. */
  datatype Arg = Known(h: nat) | Place | Reg

  /** What becomes of the two: a constant, the first operand alone or with more added to its
      constant, or an operation on them, perhaps exchanged and perhaps with the second
      replaced by a count. */
  datatype Out = Const(h: nat) | First(swapped: bool) | Moved(swapped: bool, more: int) | Run(op: Op, swapped: bool, count: Count)

  datatype Count = Same | By(n: nat)

  /** What the outcome is worth when the operands are `x` and `y`. */
  function Worth(out: Out, x: nat, y: nat, w: nat): int
    requires w > 0 && x < Pow2(w) && y < Pow2(w) && (out.Run? && out.count.By? ==> out.count.n < Pow2(w))
  {
    match out
    case Const(h) => Low(h, w)
    case First(swapped) => if swapped then y else x
    case Moved(swapped, more) => Low((if swapped then y else x) + more, w)
    case Run(op, swapped, count) =>
      var a, b := if swapped then y else x, if swapped then x else y;
      Machine(op, a, if count.By? then count.n else b, w)
  }

  predicate Fits(a: Arg, x: nat, t: Type)
    requires TypeOk(t) && x < Pow2(t.w)
  {
    a.Known? ==> a.h == Held(x, t)
  }

  /** A constant that some value of the type is held as. */
  ghost predicate ArgOk(a: Arg, t: Type)
    requires TypeOk(t)
  {
    a.Known? ==> exists x: nat :: x < Pow2(t.w) && a.h == Held(x, t)
  }

  lemma ArgBound(a: Arg, t: Type)
    requires TypeOk(t) && ArgOk(a, t)
    ensures a.Known? ==> a.h < Pow2(64)
  {
    hide Pow2, Held;
    if a.Known? {
      var x: nat :| x < Pow2(t.w) && a.h == Held(x, t);
      HeldIs(x, t);
    }
  }

  predicate CountOk(out: Out, w: nat) { out.Run? && out.count.By? ==> out.count.n < Pow2(w) }

  /** The outcome is worth the operation for all operands that the arguments stand for. */
  ghost predicate Works(out: Out, op: Op, v1: Arg, v2: Arg, t: Type)
    requires TypeOk(t) && CountOk(out, t.w)
  {
    forall x: nat, y: nat ::
      x < Pow2(t.w) && y < Pow2(t.w) && Fits(v1, x, t) && Fits(v2, y, t) && Defined(op, x, y, t.w) ==>
        Worth(out, x, y, t.w) == Machine(op, x, y, t.w)
  }

  predicate DivByZero(op: Op, v2: Arg) { op in {Div, Mod, UDiv, UMod, PDiv} && v2 == Known(0) }

  predicate MayReduce(op: Op) { op in {Mul, PDiv, UDiv} }

  /** The choice when one operand is a constant that is not neutral. */
  ghost predicate Chosen(op: Op, a: Arg, h: nat, swapped: bool, out: Out)
    requires h < Pow2(64)
  {
    if MayReduce(op) && Signed(h, 64) > 0 && Power(h) then out.Run? && out.op == Shifting(op) && out.count.By?
    else if a.Place? && (op == Add || op == Sub) then out == Moved(swapped, Amount(op, h))
    else out == Run(op, swapped, Same)
  }

  /** What is added to the constant of an address. */
  function Amount(op: Op, h: nat): int
    requires h < Pow2(64)
  {
    if op == Sub then 0 - Signed(h, 64) else Signed(h, 64)
  }

  /** Adding the held constant to an address, or subtracting it, is the operation. */
  lemma AmountRight(op: Op, x: nat, y: nat, t: Type)
    requires TypeOk(t) && x < Pow2(t.w) && y < Pow2(t.w) && (op == Add || op == Sub)
    ensures Held(y, t) < Pow2(64) && Low(x + Amount(op, Held(y, t)), t.w) == Machine(op, x, y, t.w)
  {
    hide Pow2, Held, Signed;
    HeldIs(y, t);
    var s := Signed(Held(y, t), 64);
    LowSmall(y, t.w);
    assert Low(s, t.w) == y;
    Congruent(s, y, x, Pow2(t.w));
  }

  /** Where no code is wanted the first operand stands for the result of an operation. */
  predicate Stands(out: Out, full: Out, noCode: bool) {
    out == if noCode && full.Run? then First(full.swapped) else full
  }

  /** `gen_opic`: whatever the operands turn out to be, the outcome is worth the operation. It
      fails exactly on a division by zero where a constant is wanted. */
  method GenOpic(op: Op, v1: Arg, v2: Arg, t: Type, constWanted: bool, noCode: bool) returns (ok: bool, out: Out)
    requires TypeOk(t) && Legit(op, t) && ArgOk(v1, t) && ArgOk(v2, t)
    ensures ok <==> !(v1.Known? && DivByZero(op, v2) && constWanted)
    ensures ok ==> exists full :: CountOk(full, t.w) && Works(full, op, v1, v2, t) && Stands(out, full, noCode)
    ensures ok && v1.Known? && DivByZero(op, v2) ==> Stands(out, Run(op, false, Same), noCode)
    ensures ok && v1.Known? && v2.Known? && !DivByZero(op, v2) ==> out.Const?
    ensures ok && !v1.Known? && v2.Known? && IsNeutral(op, v2.h) ==> out == First(false)
    ensures ok && !v1.Known? && v2.Known? && !IsNeutral(op, v2.h) ==>
              v2.h < Pow2(64) && exists full :: Chosen(op, v1, v2.h, false, full) && Stands(out, full, noCode)
  {
    hide Pow2, Works, IsNeutral, Chosen, ArgOk;
    if v1.Known? && DivByZero(op, v2) && constWanted { return false, Run(op, false, Same); }
    var full := Choose(op, v1, v2, t);
    ok, out := true, if noCode && full.Run? then First(full.swapped) else full;
    assert Stands(out, full, noCode);
  }

  method Choose(op: Op, v1: Arg, v2: Arg, t: Type) returns (out: Out)
    requires TypeOk(t) && Legit(op, t) && ArgOk(v1, t) && ArgOk(v2, t)
    ensures CountOk(out, t.w) && Works(out, op, v1, v2, t)
    ensures v1.Known? && v2.Known? ==> if DivByZero(op, v2) then out == Run(op, false, Same) else out.Const?
    ensures !v1.Known? && v2.Known? && IsNeutral(op, v2.h) ==> out == First(false)
    ensures !v1.Known? && v2.Known? && !IsNeutral(op, v2.h) ==> v2.h < Pow2(64) && Chosen(op, v1, v2.h, false, out)
  {
    hide Pow2, Held, Machine, Low, Defined, Bitwise, Signed, Power, Works, IsNeutral;
    ArgBound(v1, t);
    ArgBound(v2, t);
    if v1.Known? && v2.Known? {
      if DivByZero(op, v2) {
        PlainWorks(op, v1, v2, t);
        return Run(op, false, Same);
      }
      ConstWorks(op, v1.h, v2.h, t);
      return Const(Machine(op, v1.h, v2.h, 64));
    }
    if v1.Known? && op in {Add, Op.And, Op.Xor, Op.Or, Mul} {
      out := OneConstant(op, v2, v1, true, t);
    } else {
      out := OneConstant(op, v1, v2, false, t);
    }
  }

  lemma PlainWorks(op: Op, v1: Arg, v2: Arg, t: Type)
    requires TypeOk(t)
    ensures Works(Run(op, false, Same), op, v1, v2, t)
  {
    hide Pow2, Machine, Held, Defined;
  }

  lemma ConstWorks(op: Op, h1: nat, h2: nat, t: Type)
    requires TypeOk(t) && Legit(op, t) && h1 < Pow2(64) && h2 < Pow2(64)
    ensures Works(Const(Machine(op, h1, h2, 64)), op, Known(h1), Known(h2), t)
  {
    hide Pow2, Machine, Held, Defined, Low;
    forall x: nat, y: nat | x < Pow2(t.w) && y < Pow2(t.w) && h1 == Held(x, t) && h2 == Held(y, t) && Defined(op, x, y, t.w)
      ensures Low(Machine(op, h1, h2, 64), t.w) == Machine(op, x, y, t.w)
    {
      FoldRefines(op, x, y, t);
    }
  }

  /** What works for the operands in their order, when they have been exchanged or not. */
  lemma ExchangedWorks(op: Op, a: Arg, b: Arg, out: Out, swapped: bool, t: Type)
    requires TypeOk(t) && CountOk(out, t.w) && !out.Const? && out.swapped == swapped
    requires swapped ==> op in {Add, Op.And, Op.Or, Op.Xor, Mul}
    requires forall p: nat, q: nat :: p < Pow2(t.w) && q < Pow2(t.w) && Fits(a, p, t) && Fits(b, q, t) && Defined(op, p, q, t.w) ==>
               Machine(op, p, q, t.w) ==
               if out.First? then p else if out.Moved? then Low(p + out.more, t.w)
               else Machine(out.op, p, if out.count.By? then out.count.n else q, t.w)
    ensures Works(out, op, if swapped then b else a, if swapped then a else b, t)
  {
    hide Pow2, Machine, Held, Defined;
    forall x: nat, y: nat | x < Pow2(t.w) && y < Pow2(t.w) && Fits(if swapped then b else a, x, t) && Fits(if swapped then a else b, y, t)
                            && Defined(op, x, y, t.w)
      ensures Worth(out, x, y, t.w) == Machine(op, x, y, t.w)
    {
      if swapped {
        Commutes(op, x, y, t.w);
        DefinedSwapped(op, x, y, y, x, t.w);
      }
    }
  }

  /** The case of at most one constant, which is `b`; `a` and `b` have been exchanged if
      `swapped`. */
  method OneConstant(op: Op, a: Arg, b: Arg, swapped: bool, t: Type) returns (out: Out)
    requires TypeOk(t) && Legit(op, t) && ArgOk(b, t)
    requires swapped ==> op in {Add, Op.And, Op.Or, Op.Xor, Mul}
    ensures CountOk(out, t.w) && Works(out, op, if swapped then b else a, if swapped then a else b, t)
    ensures b.Known? && IsNeutral(op, b.h) ==> out == First(swapped)
    ensures b.Known? && !IsNeutral(op, b.h) ==> b.h < Pow2(64) && Chosen(op, a, b.h, swapped, out)
  {
    hide Pow2, Held, Machine, Low, Defined, Bitwise, Signed, Power, Works, IsNeutral;
    ArgBound(b, t);
    out := Run(op, swapped, Same);
    if b.Known? {
      if IsNeutral(op, b.h) {
        out := First(swapped);
        forall p: nat, q: nat | p < Pow2(t.w) && q < Pow2(t.w) && Fits(b, q, t) ensures Machine(op, p, q, t.w) == p {
          Neutral(op, p, q, t);
        }
      } else if MayReduce(op) {
        var n := PowerOf(b.h);
        if n >= 0 {
          out := Run(Shifting(op), swapped, By(n));
          CountBound(b, t, n);
          forall p: nat, q: nat | p < Pow2(t.w) && q < Pow2(t.w) && Fits(b, q, t) && Defined(op, p, q, t.w)
            ensures Machine(op, p, q, t.w) == Machine(Shifting(op), p, n, t.w)
          {
            HeldPositive(q, t);
            Reduced(op, p, q, t, n);
          }
        }
      } else if (op == Add || op == Sub) && a.Place? {
        out := Moved(swapped, Amount(op, b.h));
        forall p: nat, q: nat | p < Pow2(t.w) && q < Pow2(t.w) && Fits(b, q, t)
          ensures Machine(op, p, q, t.w) == Low(p + Amount(op, b.h), t.w)
        {
          AmountRight(op, p, q, t);
        }
      }
    }
    ExchangedWorks(op, a, b, out, swapped, t);
  }

  lemma CountBound(b: Arg, t: Type, n: nat)
    requires TypeOk(t) && ArgOk(b, t) && b.Known? && b.h < Pow2(64) && b.h == Pow2(n) && Signed(b.h, 64) > 0
    ensures n < Pow2(t.w)
  {
    hide Pow2, Held, Signed;
    var x: nat :| x < Pow2(t.w) && b.h == Held(x, t);
    HeldPositive(x, t);
    CountFits(n, t.w);
  }

  lemma DefinedSwapped(op: Op, x: nat, y: nat, p: nat, q: nat, w: nat)
    requires w > 0 && x < Pow2(w) && y < Pow2(w) && Defined(op, x, y, w)
    requires (p == x && q == y) || (p == y && q == x && op in {Add, Op.And, Op.Xor, Op.Or, Mul})
    ensures Defined(op, p, q, w)
  {
  }

  /** The exponent of a positive power of two, -1 for anything else. */
  method PowerOf(h: nat) returns (n: int)
    requires h < Pow2(64)
    ensures n >= -1
    ensures n >= 0 ==> h == Pow2(n) && Signed(h, 64) > 0 && Power(h)
    ensures n < 0 ==> Signed(h, 64) <= 0 || !Power(h)
  {
    hide Pow2, Bitwise;
    n := -1;
    if Signed(h, 64) > 0 {
      PowerTest(h, 64);
      if Bitwise(BitOp.And, h, h - 1, 64) == 0 {
        n := Log2(h);
        assert IsPower(h, n);
      }
    }
  }
}
