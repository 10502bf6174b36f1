/** Alignment and powers of two. */
module Arith {
  lemma MulAtLeast(k: int, a: int)
    requires a > 0 && k >= 1
    ensures k * a >= a
  {
  }

  lemma MulAtMost(k: int, a: int)
    requires a > 0 && k <= -1
    ensures k * a <= -a
  {
  }

  /** Division with remainder is unique. */
  lemma DivUnique(x: int, q: int, r: int, a: int)
    requires a > 0 && x == q * a + r && 0 <= r < a
    ensures x / a == q && x % a == r
  {
    var d, m := x / a, x % a;
    assert x == d * a + m;
    assert (q - d) * a == m - r;
    if q - d >= 1 { MulAtLeast(q - d, a); }
    if q - d <= -1 { MulAtMost(q - d, a); }
  }

  lemma ModMul(q: int, a: int)
    requires a > 0
    ensures q * a % a == 0
  {
    DivUnique(q * a, q, 0, a);
  }

  /** `(x + a - 1) & -a`: the first multiple of `a` from `x` on. */
  function AlignUp(x: int, a: int): (r: int)
    requires a > 0
    ensures x <= r < x + a && r % a == 0
  {
    var q := (x + (a - 1)) / a;
    ModMul(q, a);
    q * a
  }

  predicate PowerOf2(n: int) { n == 1 || (n > 1 && n % 2 == 0 && PowerOf2(n / 2)) }

  lemma MultipleTrans(x: int, a: int, b: int)
    requires a > 0 && b > 0 && x % a == 0 && a % b == 0
    ensures x % b == 0
  {
    var q, m := x / a, a / b;
    assert x == q * a && a == m * b;
    MulAssoc(q, m, b);
    ModMul(q * m, b);
  }

  lemma MulAssoc(a: int, b: int, c: int)
    ensures a * (b * c) == (a * b) * c
  {
  }

  /** A multiple of `a` is where it should be already. */
  lemma AlignedStays(x: int, a: int)
    requires a > 0 && x % a == 0
    ensures AlignUp(x, a) == x
  {
    var q := x / a;
    assert x == q * a;
    DivUnique(x + (a - 1), q, a - 1, a);
  }

  lemma ModAdd(x: int, k: int, a: int)
    requires a > 0
    ensures (x + k * a) % a == x % a
  {
    assert x + k * a == (x / a + k) * a + x % a;
    DivUnique(x + k * a, x / a + k, x % a, a);
  }

  lemma ModSmall(x: int, a: int)
    requires 0 <= x < a
    ensures x % a == x && x / a == 0
  {
    DivUnique(x, 0, x, a);
  }

  lemma DivLess(x: nat, a: nat)
    requires a > 0
    ensures 0 <= x / a <= x
  {
    var q, r := x / a, x % a;
    assert x == q * a + r;
    if q <= -1 {
      MulAtMost(q, a);
    } else if a > 1 {
      MulAtLeast(a - 1, q + 1);
      assert q * a == q * (a - 1) + q;
    }
  }

  lemma MulCommutes(a: int, b: int)
    ensures a * b == b * a
  {
  }

  lemma MulDiff(p: int, q: int, a: int)
    ensures (p - q) * a == p * a - q * a
  {
  }

  lemma DivMono(x: int, y: int, a: int)
    requires a > 0 && x <= y
    ensures x / a <= y / a
  {
    MulDiff(x / a, y / a, a);
    if x / a - y / a >= 1 { MulAtLeast(x / a - y / a, a); }
  }
}
