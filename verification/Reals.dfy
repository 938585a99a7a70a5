/** Facts about products and quotients of reals. */
module Reals {
  lemma ProductNonNegative(x: real, y: real)
    requires x >= 0.0 && y >= 0.0
    ensures x * y >= 0.0
  {
  }

  lemma PositiveProduct(x: real, y: real)
    requires x > 0.0 && y > 0.0
    ensures x * y > 0.0
  {
  }

  lemma SquareNonNegative(x: real)
    ensures x * x >= 0.0
  {
  }

  lemma QuotientTimes(x: real, y: real)
    requires y != 0.0
    ensures x / y * y == x
  {
  }

  lemma QuotientOfSame(x: real)
    requires x != 0.0
    ensures x / x == 1.0
  {
  }

  lemma QuotientBound(d: real, m: real)
    requires m > 0.0 && -m <= d <= m
    ensures -1.0 <= d / m <= 1.0
  {
  }

  lemma QuotientNonNegative(p: real, t: real)
    requires p >= 0.0 && t > 0.0
    ensures p / t >= 0.0
  {
  }

  /** A quotient is the number that, times the divisor, gives the dividend. */
  lemma QuotientIs(x: real, y: real, q: real)
    requires y != 0.0 && q * y == x
    ensures x / y == q
  {
  }
}
