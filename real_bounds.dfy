/** Bounds on products, quotients and weighted sums of non-negative reals, kept apart from
    the ranking model so that each proof sees only real arithmetic. */
module RealBounds {
  lemma MulAtMost(w: real, x: real)
    requires w >= 0.0 && 0.0 <= x <= 1.0
    ensures 0.0 <= w * x <= w
  {
    assert w * (1.0 - x) >= 0.0;
  }

  /** The product as a value of its own, so that callers reason about it linearly. */
  lemma Product(w: real, x: real) returns (p: real)
    requires w >= 0.0 && 0.0 <= x <= 1.0
    ensures p == w * x
    ensures 0.0 <= p <= w
  {
    p := w * x;
    MulAtMost(w, x);
  }

  lemma DivAtMost(a: real, b: real, c: real)
    requires 0.0 <= a <= b && c > 0.0
    ensures 0.0 <= a / c <= b / c
  {
    assert b / c - a / c == (b - a) / c;
  }

  /** A part over a positive whole lies in [0, 1]. */
  lemma RatioBounds(n: real, d: real)
    requires 0.0 <= n <= d && d > 0.0
    ensures 0.0 <= n / d <= 1.0
  {
    DivAtMost(n, d, d);
  }

  /** A part scaled by 1/k over a positive whole lies in [0, 1/k]. */
  lemma ScaledRatioBounds(n: real, d: real, k: real)
    requires 0.0 <= n <= d && d > 0.0 && k > 0.0
    ensures 0.0 <= (n / k) / d <= 1.0 / k
  {
    DivAtMost(n / k, d / k, d);
    assert (d / k) / d == 1.0 / k;
  }

  /** `a * x + b * y + c * z`: three values weighted by three weights. */
  function WeightedSum(a: real, x: real, b: real, y: real, c: real, z: real): real {
    a * x + b * y + c * z
  }

  /** Weights that are non-negative and sum to at most 1, applied to values in [0, 1],
      give a sum in [0, 1]. */
  lemma WeightedSumBounds(a: real, x: real, b: real, y: real, c: real, z: real)
    requires a >= 0.0 && b >= 0.0 && c >= 0.0
    requires a + b + c <= 1.0
    requires 0.0 <= x <= 1.0 && 0.0 <= y <= 1.0 && 0.0 <= z <= 1.0
    ensures 0.0 <= WeightedSum(a, x, b, y, c, z) <= 1.0
  {
    var p := Product(a, x);
    var q := Product(b, y);
    var r := Product(c, z);
    AddBounds(p, q, r, a, b, c);
  }

  lemma AddBounds(p: real, q: real, r: real, a: real, b: real, c: real)
    requires 0.0 <= p <= a && 0.0 <= q <= b && 0.0 <= r <= c
    ensures 0.0 <= p + q + r <= a + b + c
  {
  }
}
