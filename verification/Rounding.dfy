/**
 `ROUND_HALF_UP` as Python's decimal defines it: to the nearest integer, ties away from zero.
 Decimal arithmetic is taken as exact; a decimal is a numerator over a positive denominator.
 */
module Rounding {
  function HalfUp(n: int, d: int): int
    requires d > 0
  {
    if n >= 0 then (2 * n + d) / (2 * d) else -((-2 * n + d) / (2 * d))
  }

  /** `r` is the integer nearest to `n / d`, and the one further from zero when two are. */
  predicate IsHalfUp(n: int, d: int, r: int)
    requires d > 0
  {
    if n >= 0 then -d < 2 * (r * d - n) <= d else -d <= 2 * (r * d - n) < d
  }

  lemma ProductStrictlyBetween(d: int, q: int)
    requires d > 0 && -d < q * d < d
    ensures q == 0
  {
    if q >= 1 { MulLe(1, q, d); }
    if q <= -1 { MulLe(q, -1, d); }
  }

  lemma HalfUpNearest(n: int, d: int)
    requires d > 0
    ensures IsHalfUp(n, d, HalfUp(n, d))
  {
    var m := if n >= 0 then 2 * n + d else -2 * n + d;
    var q := m / (2 * d);
    assert m == q * (2 * d) + m % (2 * d);
    assert q * (2 * d) == 2 * (q * d);
    assert (-q) * d == -(q * d);
  }

  /** The rounding is exactly the integer the definition describes. */
  lemma HalfUpExact(n: int, d: int, r: int)
    requires d > 0
    ensures r == HalfUp(n, d) <==> IsHalfUp(n, d, r)
  {
    HalfUpNearest(n, d);
    if IsHalfUp(n, d, r) {
      var s := HalfUp(n, d);
      assert (r - s) * d == r * d - s * d;
      ProductStrictlyBetween(d, r - s);
    }
  }

  lemma MulLe(a: int, b: int, d: int)
    requires d >= 0 && a <= b
    ensures a * d <= b * d
  {
    assert (b - a) * d >= 0;
    assert (b - a) * d == b * d - a * d;
  }

  /** Rounding never reorders two quotients, whatever their denominators. */
  lemma HalfUpMonotone(n1: int, d1: int, n2: int, d2: int)
    requires d1 > 0 && d2 > 0 && n1 * d2 <= n2 * d1
    ensures HalfUp(n1, d1) <= HalfUp(n2, d2)
  {
    HalfUpNearest(n1, d1);
    HalfUpNearest(n2, d2);
    RoundedApart(n1, d1, HalfUp(n1, d1), n2, d2, HalfUp(n2, d2));
  }

  /** Two roundings a unit apart pin both quotients to the midpoint, from opposite sides. */
  lemma RoundedApart(n1: int, d1: int, r1: int, n2: int, d2: int, r2: int)
    requires d1 > 0 && d2 > 0 && n1 * d2 <= n2 * d1
    requires IsHalfUp(n1, d1, r1) && IsHalfUp(n2, d2, r2)
    ensures r1 <= r2
  {
    var D := d1 * d2;
    assert D > 0 by { MulLe(1, d1, d2); }
    // 2 r1 D <= 2 n1 d2 + D and 2 n2 d1 <= 2 r2 D + D, strictly on one side
    Cleared(n1, d1, r1, d2);
    Cleared(n2, d2, r2, d1);
    assert d1 * d2 == d2 * d1;
    if r1 > r2 {
      MulLe(r2 + 1, r1, D);
      assert (r2 + 1) * D == r2 * D + D;
      assert 2 * (r1 * D - n1 * d2) == D && 2 * (r2 * D - n2 * d1) == -D;
      assert n1 * d2 == n2 * d1;
      if n1 < 0 {
        if n2 >= 0 { MulLe(0, n2, d1); MulLe(n1, -1, d2); }
        assert false;
      } else {
        if n2 < 0 { MulLe(n2, -1, d1); MulLe(0, n1, d2); }
        assert false;
      }
    }
  }

  lemma Cleared(n: int, d: int, r: int, k: int)
    requires d > 0 && k > 0 && IsHalfUp(n, d, r)
    ensures -(d * k) <= 2 * (r * (d * k) - n * k) <= d * k
    ensures n >= 0 ==> -(d * k) < 2 * (r * (d * k) - n * k)
    ensures n < 0 ==> 2 * (r * (d * k) - n * k) < d * k
  {
    var e := 2 * (r * d - n);
    assert r * (d * k) == (r * d) * k;
    assert e * k == 2 * ((r * d) * k - n * k);
    MulLe(-d, e, k);
    MulLe(e, d, k);
    assert (-d) * k == -(d * k);
    if n >= 0 { MulLe(-d + 1, e, k); assert (-d + 1) * k == -(d * k) + k; }
    if n < 0 { MulLe(e, d - 1, k); assert (d - 1) * k == d * k - k; }
  }

  /** A non-negative quotient rounds to at most `q` exactly when it lies below `q + 1/2`. */
  lemma HalfUpAtMost(n: int, d: int, q: int)
    requires n >= 0 && d > 0
    ensures HalfUp(n, d) <= q <==> 2 * n < (2 * q + 1) * d
  {
    var r := HalfUp(n, d);
    HalfUpNearest(n, d);
    assert (2 * q + 1) * d == 2 * (q * d) + d;
    if r <= q { MulLe(r, q, d); }
    if r >= q + 1 { MulLe(q + 1, r, d); assert (q + 1) * d == q * d + d; }
  }

  lemma HalfUpNonNegative(n: int, d: int)
    requires n >= 0 && d > 0
    ensures HalfUp(n, d) >= 0
  {
    HalfUpMonotone(0, 1, n, d);
  }

  lemma HalfUpWhole(q: int, d: int)
    requires d > 0
    ensures HalfUp(q * d, d) == q
  {
    if q < 0 { MulLe(q, -1, d); } else { MulLe(0, q, d); }
    HalfUpExact(q * d, d, q);
  }
}
