/** Facts about Euclidean division by a positive modulus. */
module Arith {

  lemma MulAtLeast(d: int, m: int)
    requires d >= 1 && m > 0
    ensures d * m >= m
  {
    assert d * m == (d - 1) * m + m;
  }

  /** Quotient and remainder are the only ones. */
  lemma ModUnique(x: int, m: int, q: int, r: int)
    requires m > 0 && 0 <= r < m && x == q * m + r
    ensures x % m == r && x / m == q
  {
    var d := q - x / m;
    assert x == (x / m) * m + x % m;
    assert d * m == q * m - (x / m) * m;
    assert d * m == x % m - r;
    if d >= 1 {
      MulAtLeast(d, m);
    } else if d <= -1 {
      MulAtLeast(-d, m);
    }
  }

  /** Adding a multiple of the modulus keeps the remainder. */
  lemma ModMultiple(a: int, k: int, m: int)
    requires m > 0
    ensures (k * m + a) % m == a % m
  {
    var q := a / m;
    assert a == q * m + a % m;
    assert k * m + a == (k + q) * m + a % m;
    ModUnique(k * m + a, m, k + q, a % m);
  }

  /** A multiple of the modulus leaves no remainder. */
  lemma MultipleModZero(c: int, m: int)
    requires m > 0
    ensures (c * m) % m == 0
  {
    ModUnique(c * m, m, c, 0);
  }
}
