/** Inequalities between products and quotients of reals, stated one at a time. */
module RealArithmetic {

  lemma Product(a: real, b: real)
    requires a >= 0.0 && b >= 0.0
    ensures a * b >= 0.0
  {
  }

  lemma Scale(a: real, b: real, m: real)
    requires a >= b && m >= 0.0
    ensures a * m >= b * m
  {
  }

  lemma StrictScale(a: real, b: real, m: real)
    requires a > b && m > 0.0
    ensures a * m > b * m
  {
  }

  lemma Quotient(x: real, d: real)
    requires d > 0.0
    ensures x / d * d == x
    ensures x >= 0.0 ==> x / d >= 0.0
    ensures x > 0.0 ==> x / d > 0.0
    ensures x <= d ==> x / d <= 1.0
    ensures x < d ==> x / d < 1.0
  {
  }

  lemma QuotientOrder(x: real, small: real, large: real)
    requires x >= 0.0 && 0.0 < small <= large
    ensures x / large <= x / small
  {
    Quotient(x, large);
    Quotient(x, small);
    ProductOrder(x / large, x / small, small, large);
  }

  /** Of two factorings of one product, the one with the larger second factor has the smaller first factor. */
  lemma ProductOrder(p: real, q: real, small: real, large: real)
    requires q >= 0.0 && 0.0 < small <= large && p * large == q * small
    ensures p <= q
  {
    Scale(large, small, q);
    if p > q { StrictScale(p, q, large); }
  }

  lemma ScaledCompare(q: real, k: real, d: real)
    requires d > 0.0
    ensures q >= k <==> q * d >= k * d
    ensures q <= k <==> q * d <= k * d
  {
    if q > k { StrictScale(q, k, d); }
    if q < k { StrictScale(k, q, d); }
  }

  lemma QuotientCompare(x: real, d: real, k: real)
    requires d > 0.0
    ensures x / d >= k <==> x >= k * d
    ensures x / d <= k <==> x <= k * d
  {
    Quotient(x, d);
    ScaledCompare(x / d, k, d);
  }

  lemma QuotientSum(a: real, b: real, d: real)
    requires d != 0.0
    ensures a / d + b / d == (a + b) / d
  {
  }

  /** Rounding to three decimals, half away from zero, for non-negative arguments. */
  function Round3(x: real): real { (x * 1000.0 + 0.5).Floor as real / 1000.0 }

  lemma RoundingError(x: real)
    ensures -0.0005 <= Round3(x) - x <= 0.0005
    ensures (Round3(x) * 1000.0).Floor as real == Round3(x) * 1000.0
  {
    var n := (x * 1000.0 + 0.5).Floor;
    assert n as real <= x * 1000.0 + 0.5 < n as real + 1.0;
    assert Round3(x) * 1000.0 == n as real;
  }

  lemma FloorMonotone(a: real, b: real)
    requires a <= b
    ensures a.Floor <= b.Floor
  {
  }

  lemma Round3Monotone(x: real, y: real)
    requires x <= y
    ensures Round3(x) <= Round3(y)
  {
    FloorMonotone(x * 1000.0 + 0.5, y * 1000.0 + 0.5);
    var a, b := (x * 1000.0 + 0.5).Floor as real, (y * 1000.0 + 0.5).Floor as real;
    assert a / 1000.0 <= b / 1000.0;
  }
}
