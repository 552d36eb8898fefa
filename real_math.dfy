/** Real-number helpers for Python's `min`, `max` and `int()` on floats. */
module RealMath {
  function Min(a: real, b: real): (m: real)
    ensures m <= a && m <= b && (m == a || m == b)
  {
    if a <= b then a else b
  }

  function Max(a: real, b: real): (m: real)
    ensures m >= a && m >= b && (m == a || m == b)
  {
    if a <= b then b else a
  }

  /** Python's `int(x)` on a float: truncation toward zero. */
  function Trunc(x: real): (n: int)
    ensures x >= 0.0 ==> n == x.Floor
    ensures x <= 0.0 ==> n == -((-x).Floor)
  {
    if x >= 0.0 then x.Floor else -((-x).Floor)
  }

  lemma FloorMono(a: real, b: real)
    requires a <= b
    ensures a.Floor <= b.Floor
  {
  }

  /** Dividing by a positive number keeps the order. */
  lemma RatioMono(a: real, b: real, d: real)
    requires a <= b && d > 0.0
    ensures a / d <= b / d
  {
    assert b / d - a / d == (b - a) / d;
  }

  /** Scaling a non-negative fraction by a count and rounding down keeps the order. */
  lemma ScaledFloorMono(n: nat, p1: real, p2: real)
    requires p1 <= p2
    ensures (n as real * p1).Floor <= (n as real * p2).Floor
  {
    assert n as real * p1 <= n as real * p2;
    FloorMono(n as real * p1, n as real * p2);
  }

  /** A fraction of a non-negative amount lies between nothing and the whole. */
  lemma ScaleFraction(n: real, p: real)
    requires n >= 0.0 && 0.0 <= p <= 1.0
    ensures 0.0 <= n * p <= n
  {
    assert n * p <= n * 1.0;
  }

  /** A ratio is at least one when the numerator reaches the positive denominator. */
  lemma RatioAtLeastOne(t: real, d: real)
    requires d > 0.0 && t >= d
    ensures t / d >= 1.0
  {
    assert t / d * d == t;
  }

  /** Less than the whole of a positive amount, when the fraction is below one. */
  lemma ScaleFractionBelow(n: real, p: real)
    requires n > 0.0 && 0.0 <= p < 1.0
    ensures n * p < n
  {
    assert n - n * p == n * (1.0 - p);
  }

  /** A ratio lies in `[0, 1)` when the numerator lies in `[0, d)`. */
  lemma RatioBelowOne(t: real, d: real)
    requires 0.0 <= t < d
    ensures 0.0 <= t / d < 1.0
  {
    assert t / d * d == t;
  }
}
