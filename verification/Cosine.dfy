/** The cosine similarity of the in-memory vector store, over exact reals. */
module Cosine {
  import opened Reals

  type Vector = seq<real>

  function Times(x: real, y: real): real { x * y }

  function Dot(a: Vector, b: Vector): real
    requires |a| == |b|
  {
    if a == [] then 0.0 else Dot(a[..|a| - 1], b[..|b| - 1]) + Times(a[|a| - 1], b[|b| - 1])
  }

  function SquaredNorm(a: Vector): real { Dot(a, a) }

  /** Vectors of different length, empty ones and zero ones have similarity zero. */
  function Similarity(sqrt: real -> real, a: Vector, b: Vector): real {
    if |a| != |b| || a == [] then 0.0
    else if SquaredNorm(a) == 0.0 || SquaredNorm(b) == 0.0 then 0.0
    else if sqrt(SquaredNorm(a)) * sqrt(SquaredNorm(b)) == 0.0 then 0.0 // no such case for a square root
    else Dot(a, b) / (sqrt(SquaredNorm(a)) * sqrt(SquaredNorm(b)))
  }

  /** The function takes the square root of this number. */
  ghost predicate IsRoot(sqrt: real -> real, x: real) {
    sqrt(x) >= 0.0 && sqrt(x) * sqrt(x) == x
  }

  // ----- The Cauchy-Schwarz inequality -----

  lemma {:induction false} SquaredNormNonNegative(a: Vector)
    ensures SquaredNorm(a) >= 0.0
  {
    if a != [] {
      SquaredNormNonNegative(a[..|a| - 1]);
      SquareNonNegative(a[|a| - 1]);
    }
  }

  /** Squares of non-negative numbers compare as the numbers do. */
  lemma SquaresCompare(x: real, y: real)
    requires y >= 0.0 && x * x <= y * y
    ensures -y <= x <= y
  {
    if x > y {
      assert x * x - y * y == (x - y) * (x + y);
      PositiveProduct(x - y, x + y);
      assert false;
    }
    if x < -y {
      assert x * x - y * y == (-x - y) * (-x + y);
      PositiveProduct(-x - y, -x + y);
      assert false;
    }
  }

  lemma MulMonotone(x: real, y: real, k: real)
    requires x <= y && k >= 0.0
    ensures x * k <= y * k
  {
    ProductNonNegative(y - x, k);
  }

  /** The mixed term of the step: from d^2 <= p*q follows 2*d*x*y <= p*y^2 + q*x^2. */
  lemma MixedTerm(d: real, p: real, q: real, x: real, y: real)
    requires p >= 0.0 && q >= 0.0 && d * d <= p * q
    ensures 2.0 * (d * (x * y)) <= p * (y * y) + q * (x * x)
  {
    var u, v := p * (y * y), q * (x * x);
    var m := d * (x * y);
    SquareNonNegative(x);
    SquareNonNegative(y);
    ProductNonNegative(p, y * y);
    ProductNonNegative(q, x * x);
    var w := (x * y) * (x * y);
    SquareNonNegative(x * y);
    MulMonotone(d * d, p * q, w);
    MixedSquares(d, p, q, x, y);
    SquareNonNegative(u - v);
    Expand(u, v);
    SquaresCompare(2.0 * m, u + v);
  }

  lemma MixedSquares(d: real, p: real, q: real, x: real, y: real)
    ensures (d * d) * ((x * y) * (x * y)) == (d * (x * y)) * (d * (x * y))
    ensures (p * q) * ((x * y) * (x * y)) == (p * (y * y)) * (q * (x * x))
  {
  }

  lemma Expand(u: real, v: real)
    ensures (u + v) * (u + v) == (u - v) * (u - v) + 4.0 * (u * v)
  {
  }

  lemma StepExpand(d: real, p: real, q: real, x: real, y: real)
    ensures (d + x * y) * (d + x * y) == d * d + 2.0 * (d * (x * y)) + (x * y) * (x * y)
    ensures (p + x * x) * (q + y * y) == p * q + (p * (y * y) + q * (x * x)) + (x * y) * (x * y)
  {
  }

  lemma {:induction false} CauchySchwarz(a: Vector, b: Vector)
    requires |a| == |b|
    ensures Dot(a, b) * Dot(a, b) <= SquaredNorm(a) * SquaredNorm(b)
  {
    if a != [] {
      var p, q, x, y := a[..|a| - 1], b[..|b| - 1], a[|a| - 1], b[|b| - 1];
      CauchySchwarz(p, q);
      SquaredNormNonNegative(p);
      SquaredNormNonNegative(q);
      MixedTerm(Dot(p, q), SquaredNorm(p), SquaredNorm(q), x, y);
      StepExpand(Dot(p, q), SquaredNorm(p), SquaredNorm(q), x, y);
    }
  }

  // ----- The similarity -----

  lemma {:induction false} DotCommutes(a: Vector, b: Vector)
    requires |a| == |b|
    ensures Dot(a, b) == Dot(b, a)
  {
    if a != [] {
      DotCommutes(a[..|a| - 1], b[..|b| - 1]);
    }
  }

  lemma RootPositive(sqrt: real -> real, x: real)
    requires IsRoot(sqrt, x) && x > 0.0
    ensures sqrt(x) > 0.0
  {
  }

  lemma SwapSquares(r: real, s: real)
    ensures (r * s) * (r * s) == (r * r) * (s * s)
  {
  }

  /** The similarity lies between -1 and 1 and does not depend on the order of its
      arguments. */
  lemma SimilarityBounds(sqrt: real -> real, a: Vector, b: Vector)
    requires IsRoot(sqrt, SquaredNorm(a)) && IsRoot(sqrt, SquaredNorm(b))
    ensures -1.0 <= Similarity(sqrt, a, b) <= 1.0
    ensures Similarity(sqrt, a, b) == Similarity(sqrt, b, a)
  {
    if |a| == |b| && a != [] && SquaredNorm(a) != 0.0 && SquaredNorm(b) != 0.0 {
      var r, s := sqrt(SquaredNorm(a)), sqrt(SquaredNorm(b));
      SquaredNormNonNegative(a);
      SquaredNormNonNegative(b);
      RootPositive(sqrt, SquaredNorm(a));
      RootPositive(sqrt, SquaredNorm(b));
      PositiveProduct(r, s);
      CauchySchwarz(a, b);
      SwapSquares(r, s);
      SquaresCompare(Dot(a, b), r * s);
      QuotientBound(Dot(a, b), r * s);
      DotCommutes(a, b);
    }
  }

  /** A vector with a non-zero norm is fully similar to itself. */
  lemma SelfSimilarity(sqrt: real -> real, a: Vector)
    requires IsRoot(sqrt, SquaredNorm(a)) && SquaredNorm(a) != 0.0
    ensures Similarity(sqrt, a, a) == 1.0
  {
    QuotientOfSame(SquaredNorm(a));
  }

  ghost predicate IsZero(a: Vector) { forall i :: 0 <= i < |a| ==> a[i] == 0.0 }

  /** A norm is zero exactly for the zero vector, so the zero cases are the zero vectors. */
  lemma {:induction false} ZeroNormIsZeroVector(a: Vector)
    ensures SquaredNorm(a) == 0.0 <==> IsZero(a)
  {
    if a != [] {
      var front, last := a[..|a| - 1], a[|a| - 1];
      ZeroNormIsZeroVector(front);
      SquaredNormNonNegative(front);
      ZeroExtends(a);
      ZeroSum(SquaredNorm(front), last);
    }
  }

  lemma ZeroSum(n: real, x: real)
    requires n >= 0.0
    ensures n + x * x == 0.0 <==> n == 0.0 && x == 0.0
  {
    if x != 0.0 {
      PositiveStep(n, x, x);
    }
  }

  lemma PositiveStep(n: real, x: real, y: real)
    requires n >= 0.0 && ((x > 0.0 && y > 0.0) || (x < 0.0 && y < 0.0))
    ensures n + x * y > 0.0
  {
    if x > 0.0 {
      PositiveProduct(x, y);
    } else {
      PositiveProduct(-x, -y);
    }
  }

  lemma ZeroExtends(a: Vector)
    requires a != []
    ensures IsZero(a) <==> IsZero(a[..|a| - 1]) && a[|a| - 1] == 0.0
  {
    assert a == a[..|a| - 1] + [a[|a| - 1]];
  }

  // ----- Scaling -----

  function Scale(k: real, a: Vector): (r: Vector)
    ensures |r| == |a|
  {
    if a == [] then [] else Scale(k, a[..|a| - 1]) + [k * a[|a| - 1]]
  }

  lemma {:induction false} DotScale(k: real, a: Vector, b: Vector)
    requires |a| == |b|
    ensures Dot(Scale(k, a), b) == k * Dot(a, b)
  {
    if a != [] {
      var p, q, x, y := a[..|a| - 1], b[..|b| - 1], a[|a| - 1], b[|b| - 1];
      DotScale(k, p, q);
      DotPush(Scale(k, p), q, k * x, y);
      assert b == q + [y];
      Distribute(k, Dot(p, q), Dot(Scale(k, p), q), x, y);
    }
  }

  lemma DotPush(a: Vector, b: Vector, x: real, y: real)
    requires |a| == |b|
    ensures Dot(a + [x], b + [y]) == Dot(a, b) + Times(x, y)
  {
    assert (a + [x])[..|a|] == a && (b + [y])[..|b|] == b;
  }

  lemma Distribute(k: real, d: real, scaled: real, x: real, y: real)
    requires scaled == k * d
    ensures scaled + (k * x) * y == k * (d + x * y)
  {
  }

  lemma {:induction false} NormScale(k: real, a: Vector)
    ensures SquaredNorm(Scale(k, a)) == (k * k) * SquaredNorm(a)
  {
    DotScale(k, a, Scale(k, a));
    DotCommutes(a, Scale(k, a));
    DotScale(k, a, a);
  }

  lemma RootScales(r: real, s: real, k: real)
    requires k > 0.0 && r >= 0.0 && s >= 0.0 && r * r == (k * k) * (s * s)
    ensures r == k * s
  {
    SwapSquares(k, s);
    ProductNonNegative(k, s);
    SquaresCompare(r, k * s);
    SquaresCompare(k * s, r);
  }

  /** The similarity of two vectors that are not zero, by the roots of their norms. */
  lemma SimilarityIs(sqrt: real -> real, a: Vector, b: Vector, r: real, s: real)
    requires |a| == |b| && a != [] && SquaredNorm(a) != 0.0 && SquaredNorm(b) != 0.0
    requires r == sqrt(SquaredNorm(a)) > 0.0 && s == sqrt(SquaredNorm(b)) > 0.0
    ensures r * s > 0.0 && Similarity(sqrt, a, b) == Dot(a, b) / (r * s)
  {
    PositiveProduct(r, s);
  }

  lemma SimilarityZero(sqrt: real -> real, a: Vector, b: Vector)
    requires |a| != |b| || a == [] || SquaredNorm(a) == 0.0 || SquaredNorm(b) == 0.0
    ensures Similarity(sqrt, a, b) == 0.0
  {
  }

  /** Only the direction of the query counts: a positive factor changes no score. */
  lemma SimilarityIgnoresScale(sqrt: real -> real, k: real, a: Vector, b: Vector)
    requires k > 0.0
    requires IsRoot(sqrt, SquaredNorm(a)) && IsRoot(sqrt, SquaredNorm(b)) && IsRoot(sqrt, SquaredNorm(Scale(k, a)))
    ensures Similarity(sqrt, Scale(k, a), b) == Similarity(sqrt, a, b)
  {
    NormScale(k, a);
    if |a| == |b| && a != [] && SquaredNorm(a) != 0.0 && SquaredNorm(b) != 0.0 {
      var r, s, t := sqrt(SquaredNorm(a)), sqrt(SquaredNorm(b)), sqrt(SquaredNorm(Scale(k, a)));
      SquaredNormNonNegative(a);
      SquaredNormNonNegative(b);
      RootPositive(sqrt, SquaredNorm(a));
      RootPositive(sqrt, SquaredNorm(b));
      RootOfScaled(k, SquaredNorm(a), SquaredNorm(Scale(k, a)), r, t);
      SimilarityIs(sqrt, a, b, r, s);
      SimilarityIs(sqrt, Scale(k, a), b, t, s);
      DotScale(k, a, b);
      CancelFactor(k, Dot(a, b), Dot(Scale(k, a), b), r, t, s);
    } else {
      ZeroScales(k, SquaredNorm(a));
      SimilarityZero(sqrt, a, b);
      SimilarityZero(sqrt, Scale(k, a), b);
    }
  }

  lemma ZeroScales(k: real, n: real)
    ensures n == 0.0 ==> (k * k) * n == 0.0
  {
  }

  lemma RootOfScaled(k: real, n: real, scaled: real, r: real, t: real)
    requires k > 0.0 && n > 0.0 && r > 0.0 && r * r == n && t >= 0.0 && t * t == scaled == (k * k) * n
    ensures t == k * r && t > 0.0 && scaled > 0.0
  {
    RootScales(t, r, k);
    PositiveProduct(k, r);
    PositiveProduct(k, k);
    PositiveProduct(k * k, n);
  }

  lemma CancelFactor(k: real, d: real, scaled: real, r: real, t: real, s: real)
    requires k > 0.0 && r * s > 0.0 && t * s > 0.0 && scaled == k * d && t == k * r
    ensures scaled / (t * s) == d / (r * s)
  {
    var m := r * s;
    assert t * s == k * m;
    QuotientTimes(d, m);
    TimesSwapped(d / m, k, m);
    QuotientIs(scaled, t * s, d / m);
  }

  lemma TimesSwapped(q: real, k: real, m: real)
    ensures q * (k * m) == k * (q * m)
  {
  }
}
