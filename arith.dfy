/** Small facts of non-linear arithmetic that the solver does not find on its
    own, stated once and used by the normaliser's shape reasoning. */
module Arith {

  /** Real division undone by multiplication. */
  lemma DivTimes(a: real, d: real)
    requires d != 0.0
    ensures (a / d) * d == a
  {
  }

  /** Multiplying by a positive real keeps the sign. */
  lemma ProductSign(x: real, d: real)
    requires 0.0 < d
    ensures (0.0 < x * d <==> 0.0 < x) && (0.0 <= x * d <==> 0.0 <= x) && (x * d == 0.0 <==> x == 0.0)
  {
  }

  /** A quotient whose dividend is at least its positive divisor is at least 1. */
  lemma QuotientAtLeastOne(a: real, d: real)
    requires 0.0 < d <= a
    ensures a / d >= 1.0
  {
    var q := a / d;
    DivTimes(a, d);
    assert (q - 1.0) * d == a - d;
    ProductSign(q - 1.0, d);
  }

  lemma MulMonotone(a: nat, b: nat, k: nat)
    requires a <= b
    ensures a * k <= b * k
  {
  }

  /** A positive factor can be cancelled from a strict inequality. */
  lemma MulStrict(x: int, y: int, d: nat)
    requires 0 < d && x * d < y * d
    ensures x < y
  {
    assert (y - x) * d > 0;
  }

  /** Integer division by a positive divisor is monotone in the dividend. */
  lemma DivMonotone(a: nat, b: nat, d: nat)
    requires 0 < d && a <= b
    ensures a / d <= b / d
  {
    var qa, qb := a / d, b / d;
    assert qa * d <= a;
    assert b < (qb + 1) * d;
    MulStrict(qa, qb + 1, d);
  }

  /** Dividing a multiple of `m` by `m`. */
  lemma DivCancel(x: nat, m: nat)
    requires 0 < m
    ensures (m * x) / m == x && (x * m) / m == x
  {
    DivExact(x * m, x, m);
    assert m * x == x * m;
  }

  /** A product `x * m` divided by `m` gives back `x`. */
  lemma DivExact(p: int, x: int, m: nat)
    requires 0 < m && p == x * m
    ensures p / m == x
  {
    var q, r := p / m, p % m;
    assert p == q * m + r;
    assert (x - q) * m == r;
    MulStrict(x - q, 1, m);
    MulStrict(-1, x - q, m);
  }
}
