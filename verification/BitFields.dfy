/** Access to bit-fields: a store masks and shifts the source into the unit, a load shifts
    the field out of it. Units are words of `n` bits, 32 or 64. */
module BitFields {
  import opened Arith
  import opened Words

  /** A field of `width` bits at `pos` in a word of `n`. */
  predicate FieldOk(pos: nat, width: nat, n: nat) { 0 < width < n && pos + width <= n }

  /** What is below the field, in it, and above it. */
  datatype Parts = Parts(low: nat, mid: nat, high: nat)

  predicate PartsOk(x: Parts, pos: nat, width: nat, n: nat)
    requires FieldOk(pos, width, n)
  {
    x.low < Pow2(pos) && x.mid < Pow2(width) && x.high < Pow2(n - pos - width)
  }

  function Join(x: Parts, pos: nat, width: nat): nat { Glue(x.low, Glue(x.mid, x.high, width), pos) }

  function Take(w: nat, pos: nat, width: nat): Parts {
    GlueSplit(w, pos);
    GlueSplit(w / Pow2(pos), width);
    Parts(w % Pow2(pos), w / Pow2(pos) % Pow2(width), w / Pow2(pos) / Pow2(width))
  }

  /** Every word is made of its three parts. */
  lemma TakeJoin(w: nat, pos: nat, width: nat, n: nat)
    requires FieldOk(pos, width, n) && w < Pow2(n)
    ensures PartsOk(Take(w, pos, width), pos, width, n) && Join(Take(w, pos, width), pos, width) == w
  {
    hide Pow2, Glue;
    GlueSplit(w, pos);
    UpperBelow(w, pos, n - pos);
    var v := w / Pow2(pos);
    GlueSplit(v, width);
    UpperBelow(v, width, n - pos - width);
  }

  lemma JoinBounds(x: Parts, pos: nat, width: nat, n: nat)
    requires FieldOk(pos, width, n) && PartsOk(x, pos, width, n)
    ensures Glue(x.mid, x.high, width) < Pow2(n - pos) && Join(x, pos, width) < Pow2(n)
  {
    hide Pow2, Glue;
    GlueBounds(x.mid, x.high, width, n - pos - width);
    GlueBounds(x.low, Glue(x.mid, x.high, width), pos, n - pos);
  }

  lemma JoinTake(x: Parts, pos: nat, width: nat, n: nat)
    requires FieldOk(pos, width, n) && PartsOk(x, pos, width, n)
    ensures Take(Join(x, pos, width), pos, width) == x
  {
    hide Pow2, Glue;
    GlueParts(x.low, Glue(x.mid, x.high, width), pos);
    GlueParts(x.mid, x.high, width);
  }

  // ----- the operations -----

  /** A bitwise operation works on the parts. */
  lemma PartsWise(op: BitOp, x: Parts, y: Parts, pos: nat, width: nat, n: nat)
    requires FieldOk(pos, width, n) && PartsOk(x, pos, width, n) && PartsOk(y, pos, width, n)
    ensures Bitwise(op, Join(x, pos, width), Join(y, pos, width), n) ==
            Join(Parts(Bitwise(op, x.low, y.low, pos), Bitwise(op, x.mid, y.mid, width), Bitwise(op, x.high, y.high, n - pos - width)), pos, width)
  {
    hide Pow2, Bitwise, Glue;
    BitwiseSplit(op, x.low, Glue(x.mid, x.high, width), y.low, Glue(y.mid, y.high, width), pos, n - pos);
    BitwiseSplit(op, x.mid, x.high, y.mid, y.high, width, n - pos - width);
  }

  /** `(1 << width) - 1`. */
  function Mask(width: nat): nat { Pow2(width) - 1 }

  /** `~(((1 << width) - 1) << pos)`. */
  function Hole(pos: nat, width: nat, n: nat): int { Pow2(n) - 1 - Mask(width) * Pow2(pos) }

  lemma HoleParts(pos: nat, width: nat, n: nat)
    requires FieldOk(pos, width, n)
    ensures Hole(pos, width, n) == Join(Parts(Pow2(pos) - 1, 0, Pow2(n - pos - width) - 1), pos, width)
  {
    hide Pow2;
    var p, q, r := Pow2(pos), Pow2(width), Pow2(n - pos - width);
    GlueOnes(pos, n - pos);
    GlueOnes(width, n - pos - width);
    var upper := Glue(0, r - 1, width);
    assert Glue(q - 1, r - 1, width) == (q - 1) + upper;
    Distribute(p, q - 1, upper);
    MulCommutes(q - 1, p);
  }

  /** What `vstore` leaves in the unit. A source cast to `_Bool` is not masked. */
  function Stored(unit: nat, src: nat, pos: nat, width: nat, n: nat, isBool: bool): nat
    requires FieldOk(pos, width, n) && unit < Pow2(n) && src < Pow2(n) && (isBool ==> src < 2)
  {
    HoleParts(pos, width, n);
    var shifted := Shl(if isBool then src else Bitwise(And, src, Mask(width), n), pos, n);
    Bitwise(Or, Bitwise(And, unit, Hole(pos, width, n), n), shifted, n)
  }

  /** The mask keeps the low bits. */
  lemma Masked(src: nat, width: nat, n: nat)
    requires width <= n && src < Pow2(n)
    ensures 0 <= src % Pow2(width) < Pow2(width) && Bitwise(And, src, Mask(width), n) == src % Pow2(width)
  {
    hide Pow2, Bitwise, Glue;
    GlueSplit(src, width);
    var d, r := src / Pow2(width), src % Pow2(width);
    GlueNone(Mask(width), width);
    BitwiseSplit(And, r, d, Mask(width), 0, width, n - width);
    AndOnes(r, width);
    AndZero(d, n - width);
    GlueNone(r, width);
  }

  lemma SmallEnough(src: nat, width: nat)
    requires src < 2 && width > 0
    ensures src % Pow2(width) == src
  {
    assert Pow2(width) == 2 * Pow2(width - 1);
    ModSmall(src, Pow2(width));
  }

  lemma ShiftedParts(m: nat, pos: nat, width: nat, n: nat)
    requires FieldOk(pos, width, n) && m < Pow2(width)
    ensures Shl(m, pos, n) == Join(Parts(0, m, 0), pos, width)
  {
    hide Pow2, Glue;
    GlueNone(m, width);
    GlueShift(m, pos);
    JoinBounds(Parts(0, m, 0), pos, width, n);
    ModSmall(Glue(0, m, pos), Pow2(n));
  }

  /** A store changes the field to the source's low bits and no other bit of the unit. */
  lemma StoreExact(unit: nat, src: nat, pos: nat, width: nat, n: nat, isBool: bool)
    requires FieldOk(pos, width, n) && unit < Pow2(n) && src < Pow2(n) && (isBool ==> src < 2)
    ensures var was := Take(unit, pos, width);
            && PartsOk(was, pos, width, n) && 0 <= src % Pow2(width) < Pow2(width)
            && Stored(unit, src, pos, width, n, isBool) == Join(Parts(was.low, src % Pow2(width), was.high), pos, width)
  {
    hide Pow2, Bitwise, Shl, Join, Take;
    Masked(src, width, n);
    var p, r := Pow2(pos), Pow2(n - pos - width);
    var was, m := Take(unit, pos, width), src % Pow2(width);
    TakeJoin(unit, pos, width, n);
    if isBool { SmallEnough(src, width); }
    HoleParts(pos, width, n);
    ShiftedParts(m, pos, width, n);
    PartsWise(And, was, Parts(p - 1, 0, r - 1), pos, width, n);
    AndOnes(was.low, pos);
    AndZero(was.mid, width);
    AndOnes(was.high, n - pos - width);
    PartsWise(Or, Parts(was.low, 0, was.high), Parts(0, m, 0), pos, width, n);
    OrZero(was.low, pos);
    OrZero(m, width);
    OrZero(was.high, n - pos - width);
  }

  /** What `gv` brings into a register: the field shifted to the top and down again. */
  function Loaded(w: nat, pos: nat, width: nat, n: nat, unsigned: bool): nat
    requires FieldOk(pos, width, n) && w < Pow2(n)
  {
    var up := Shl(w, n - (pos + width), n);
    if unsigned then Shr(up, n - width) else Sar(up, n - width, n)
  }

  /** Shifting up drops what is above the field. */
  lemma ShiftedUp(x: Parts, pos: nat, width: nat, n: nat)
    requires FieldOk(pos, width, n) && PartsOk(x, pos, width, n)
    ensures var k := n - (pos + width);
            Glue(0, x.low, k) < Pow2(n - width) && Shl(Join(x, pos, width), k, n) == Glue(Glue(0, x.low, k), x.mid, n - width)
  {
    hide Pow2, Glue;
    var k := n - (pos + width);
    var a := Glue(x.low, x.mid, pos);
    GlueAssoc(x.low, x.mid, x.high, pos, width);
    GlueShift(Join(x, pos, width), k);
    GlueAssoc(0, a, x.high, k, pos + width);
    GlueBounds(x.low, x.mid, pos, width);
    GlueBounds(0, a, k, pos + width);
    GlueParts(Glue(0, a, k), x.high, n);
    GlueAssoc(0, x.low, x.mid, k, pos);
    GlueBounds(0, x.low, k, pos);
  }

  /** A load yields the field, extended with zeros or with its sign. */
  lemma LoadExact(w: nat, pos: nat, width: nat, n: nat, unsigned: bool)
    requires FieldOk(pos, width, n) && w < Pow2(n)
    ensures var mid := Take(w, pos, width).mid;
            && mid < Pow2(width)
            && Loaded(w, pos, width, n, unsigned) == if unsigned then mid else Low(Signed(mid, width), n)
  {
    hide Pow2, Shl, Join, Take, Signed, Glue;
    var x := Take(w, pos, width);
    TakeJoin(w, pos, width, n);
    ShiftedUp(x, pos, width, n);
    var l := Glue(0, x.low, n - (pos + width));
    GlueParts(l, x.mid, n - width);
    SignedUp(x.mid, l, width, n);
  }

  /** A field at the top of a word carries its sign there. */
  lemma SignedUp(mid: nat, l: nat, width: nat, n: nat)
    requires 0 < width < n && mid < Pow2(width) && l < Pow2(n - width)
    ensures Glue(l, mid, n - width) < Pow2(n)
    ensures Signed(Glue(l, mid, n - width), n) / Pow2(n - width) == Signed(mid, width)
  {
    hide Pow2, Glue;
    var k := n - width;
    var p, q, w := Pow2(k), Pow2(width), Glue(l, mid, k);
    GlueBounds(l, mid, k, width);
    TopHalf(l, mid, k, width);
    assert w == mid * p + l by { GlueIs(l, mid, k); }
    if mid >= Pow2(width - 1) {
      MulDiff(mid, q, p);
      Pow2Add(k, width);
      MulCommutes(p, q);
      DivUnique(w - Pow2(n), mid - q, l, p);
    } else {
      DivUnique(w, mid, l, p);
    }
  }

  lemma GlueIs(l: nat, h: nat, k: nat)
    ensures Glue(l, h, k) == h * Pow2(k) + l
  {
    MulCommutes(Pow2(k), h);
  }

  /** The top bit of the word is the top bit of its upper part. */
  lemma TopHalf(l: nat, mid: nat, k: nat, width: nat)
    requires l < Pow2(k) && width > 0
    ensures Glue(l, mid, k) < Pow2(k + width - 1) <==> mid < Pow2(width - 1)
  {
    hide Pow2, Glue;
    if mid < Pow2(width - 1) {
      GlueBounds(l, mid, k, width - 1);
    } else {
      GlueParts(l, mid, k);
      if Glue(l, mid, k) < Pow2(k + (width - 1)) { UpperBelow(Glue(l, mid, k), k, width - 1); }
    }
  }

  /** What is stored is read back, cut to the field's width. */
  lemma ReadBack(unit: nat, src: nat, pos: nat, width: nat, n: nat, isBool: bool, unsigned: bool)
    requires FieldOk(pos, width, n) && unit < Pow2(n) && src < Pow2(n) && (isBool ==> src < 2)
    ensures Stored(unit, src, pos, width, n, isBool) < Pow2(n)
    ensures var cut := Low(src, width);
            Loaded(Stored(unit, src, pos, width, n, isBool), pos, width, n, unsigned) ==
            if unsigned then cut else Low(Signed(cut, width), n)
  {
    hide Pow2, Stored, Loaded, Join, Take, Signed;
    var was, now := Take(unit, pos, width), Stored(unit, src, pos, width, n, isBool);
    StoreExact(unit, src, pos, width, n, isBool);
    var x := Parts(was.low, src % Pow2(width), was.high);
    JoinBounds(x, pos, width, n);
    JoinTake(x, pos, width, n);
    LoadExact(now, pos, width, n, unsigned);
  }

  // ----- the rest of the unit -----

  function BitAt(w: nat, b: nat): nat {
    GlueSplit(w, b);
    w / Pow2(b) % 2
  }

  lemma LowBits(l: nat, v: nat, pos: nat, b: nat)
    requires b < pos
    ensures BitAt(Glue(l, v, pos), b) == BitAt(l, b)
  {
    hide Pow2, Glue;
    GlueSplit(l, b);
    var y, x := l / Pow2(b), l % Pow2(b);
    GlueAssoc(x, y, v, b, pos - b);
    GlueParts(x, Glue(y, v, pos - b), b);
    HalfOf(y, v, pos - b);
  }

  lemma HighBits(l: nat, h: nat, k: nat, b: nat)
    requires l < Pow2(k) && k <= b
    ensures BitAt(Glue(l, h, k), b) == BitAt(h, b - k)
  {
    hide Pow2, Glue;
    GlueSplit(h, b - k);
    var d, e := h / Pow2(b - k), h % Pow2(b - k);
    GlueAssoc(l, e, d, k, b - k);
    GlueBounds(l, e, k, b - k);
    GlueParts(Glue(l, e, k), d, b);
  }

  /** No bit outside the field changes. */
  lemma OthersKept(unit: nat, src: nat, pos: nat, width: nat, n: nat, isBool: bool, b: nat)
    requires FieldOk(pos, width, n) && unit < Pow2(n) && src < Pow2(n) && (isBool ==> src < 2)
    requires b < pos || pos + width <= b
    ensures BitAt(Stored(unit, src, pos, width, n, isBool), b) == BitAt(unit, b)
  {
    hide Pow2, Stored, Take, BitAt, Glue;
    StoreExact(unit, src, pos, width, n, isBool);
    TakeJoin(unit, pos, width, n);
    var was, m := Take(unit, pos, width), src % Pow2(width);
    var u, v := Glue(m, was.high, width), Glue(was.mid, was.high, width);
    if b < pos {
      LowBits(was.low, u, pos, b);
      LowBits(was.low, v, pos, b);
    } else {
      HighBits(was.low, u, pos, b);
      HighBits(was.low, v, pos, b);
      HighBits(m, was.high, width, b - pos);
      HighBits(was.mid, was.high, width, b - pos);
    }
  }

  /** A load depends on no bit from `b` on: a unit narrower than the register may be extended
      either way, and a store into it may be cut to its width. */
  lemma LoadLocal(low: nat, h1: nat, h2: nat, b: nat, pos: nat, width: nat, n: nat, unsigned: bool)
    requires FieldOk(pos, width, n) && pos + width <= b <= n && low < Pow2(b) && h1 < Pow2(n - b) && h2 < Pow2(n - b)
    ensures Glue(low, h1, b) < Pow2(n) && Glue(low, h2, b) < Pow2(n)
    ensures Loaded(Glue(low, h1, b), pos, width, n, unsigned) == Loaded(Glue(low, h2, b), pos, width, n, unsigned)
  {
    hide Pow2, Loaded, Take, Signed, Glue;
    GlueBounds(low, h1, b, n - b);
    GlueBounds(low, h2, b, n - b);
    MidLocal(low, h1, b, pos, width);
    MidLocal(low, h2, b, pos, width);
    LoadExact(Glue(low, h1, b), pos, width, n, unsigned);
    LoadExact(Glue(low, h2, b), pos, width, n, unsigned);
  }

  lemma MidLocal(low: nat, h: nat, b: nat, pos: nat, width: nat)
    requires pos + width <= b
    ensures Take(Glue(low, h, b), pos, width).mid == Take(low, pos, width).mid
  {
    hide Pow2, Glue;
    GlueSplit(low, pos);
    var d, e := low / Pow2(pos), low % Pow2(pos);
    GlueAssoc(e, d, h, pos, b - pos);
    GlueParts(e, Glue(d, h, b - pos), pos);
    GlueSplit(d, width);
    var u, m := d / Pow2(width), d % Pow2(width);
    GlueAssoc(m, u, h, width, b - pos - width);
    GlueParts(m, Glue(u, h, b - pos - width), width);
  }
}
