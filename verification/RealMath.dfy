/** Facts about products and quotients of reals that the solver needs spelled out. */
module RealMath {
  lemma ProductNonNegative(a: real, b: real)
    requires a >= 0.0 && b >= 0.0
    ensures a * b >= 0.0
  {
  }

  lemma Scaled(x: real, a: real, b: real)
    requires x >= 0.0 && a <= b
    ensures x * a <= x * b
  {
    ProductNonNegative(x, b - a);
    assert x * b - x * a == x * (b - a);
  }

  lemma Signs(a: real, b: real)
    requires b > 0.0
    ensures a >= 0.0 <==> a * b >= 0.0
    ensures a > 0.0 <==> a * b > 0.0
  {
  }

  lemma QuotientIs(x: real, d: real, q: real)
    requires d > 0.0 && q * d == x
    ensures x / d == q
  {
    assert x / d * d == x;
    Signs(x / d - q, d);
    Signs(q - x / d, d);
    assert (x / d - q) * d == x / d * d - q * d;
    assert (q - x / d) * d == q * d - x / d * d;
  }
}
