/**
 Python's default decimal context: results keep 28 significant digits, ties to even. Values are
 non-negative; a sign is the caller's, since the rounding is symmetric.
 */
module DecimalContext {
  import opened Prelude
  import opened Rounding

  /** The smallest coefficient of 28 digits. */
  const TOP := 1_000_000_000_000_000_000_000_000_000

  /** `num / den`, the denominator a power of ten. */
  datatype Decimal = Decimal(num: nat, den: nat)

  function Value(x: Decimal): real
    requires x.den > 0
  {
    x.num as real / x.den as real
  }

  function HalfEven(n: nat, d: nat): nat
    requires d > 0
  {
    var q, r := n / d, n % d;
    if 2 * r < d || (2 * r == d && q % 2 == 0) then q else q + 1
  }

  /** A quotient below 28 integer digits: scaled up until the coefficient has 28. */
  function ScaledUp(n: nat, d: nat): (x: Decimal)
    requires 0 < n < 10 * (d * TOP)
    ensures x.den > 0
    decreases 10 * (d * TOP) - n
  {
    if n < d * TOP then
      var x := ScaledUp(10 * n, d);
      Decimal(x.num, 10 * x.den)
    else Decimal(HalfEven(n, d), 1)
  }

  /** A quotient of 28 integer digits or more: scaled down until the coefficient has 28. */
  function ScaledDown(n: nat, d: nat): (x: Decimal)
    requires d > 0 && n >= d * TOP
    ensures x.den == 1
    decreases n - d * TOP
  {
    if n >= 10 * (d * TOP) then
      assert (10 * d) * TOP == 10 * (d * TOP);
      var x := ScaledDown(n, 10 * d);
      Decimal(10 * x.num, x.den)
    else Decimal(HalfEven(n, d), 1)
  }

  /** A product of integers, rounded only beyond 28 digits. */
  function Product(n: nat): nat {
    if n < 10 * TOP then n else ScaledDown(n, 1).num
  }

  /** `Decimal(n) / Decimal(d)`, which is also how any other result `n / d` is rounded. */
  function Quotient(n: nat, d: nat): (x: Decimal)
    requires d > 0
    ensures x.den > 0
  {
    if n == 0 then Decimal(0, 1) else if n < 10 * (d * TOP) then ScaledUp(n, d) else ScaledDown(n, d)
  }

  // ---------------------------------------------------------------- how far off it is

  lemma HalfEvenNear(n: nat, d: nat)
    requires d > 0
    ensures 2 * Abs(HalfEven(n, d) * d - n) <= d
  {
    var q, r := n / d, n % d;
    assert n == q * d + r;
    assert (q + 1) * d == q * d + d;
  }

  /** `x` differs from `n / d` by at most half a unit of the 28th digit. */
  predicate Near(x: Decimal, n: nat, d: nat) {
    x.den > 0 && 2 * TOP * Abs(x.num * d - n * x.den) <= n * x.den
  }

  lemma NearAtScale(n: nat, d: nat)
    requires d > 0 && n >= d * TOP
    ensures Near(Decimal(HalfEven(n, d), 1), n, d)
  {
    HalfEvenNear(n, d);
    var e := Abs(HalfEven(n, d) * d - n);
    MulLe(2 * e, d, TOP);
    assert (2 * e) * TOP == 2 * TOP * e;
  }

  lemma NearScaledDown(x: Decimal, n: nat, d: nat)
    requires Near(x, n, 10 * d)
    ensures Near(Decimal(10 * x.num, x.den), n, d)
  {
    assert x.num * (10 * d) == (10 * x.num) * d;
  }

  lemma {:induction false} ScaledUpNear(n: nat, d: nat)
    requires 0 < n < 10 * (d * TOP)
    ensures Near(ScaledUp(n, d), n, d)
    decreases 10 * (d * TOP) - n
  {
    if n < d * TOP {
      ScaledUpNear(10 * n, d);
      var x := ScaledUp(10 * n, d);
      assert (10 * n) * x.den == n * (10 * x.den);
    } else {
      NearAtScale(n, d);
    }
  }

  lemma {:induction false} ScaledDownNear(n: nat, d: nat)
    requires d > 0 && n >= d * TOP
    ensures Near(ScaledDown(n, d), n, d)
    decreases n - d * TOP
  {
    if n >= 10 * (d * TOP) {
      assert (10 * d) * TOP == 10 * (d * TOP);
      ScaledDownNear(n, 10 * d);
      NearScaledDown(ScaledDown(n, 10 * d), n, d);
    } else {
      NearAtScale(n, d);
    }
  }

  lemma QuotientNear(n: nat, d: nat)
    requires d > 0
    ensures Near(Quotient(n, d), n, d)
  {
    if n == 0 {
    } else if n < 10 * (d * TOP) {
      ScaledUpNear(n, d);
    } else {
      ScaledDownNear(n, d);
    }
  }

  // ---------------------------------------------------------------- what it is exactly

  /** `r` is the integer nearest to `n / d`, and the even one of two. */
  predicate IsHalfEven(n: nat, d: nat, r: nat) {
    2 * Abs(r * d - n) <= d && (2 * Abs(r * d - n) == d ==> r % 2 == 0)
  }

  lemma HalfEvenRounds(n: nat, d: nat)
    requires d > 0
    ensures IsHalfEven(n, d, HalfEven(n, d))
  {
    var q, r := n / d, n % d;
    assert n == q * d + r;
    assert (q + 1) * d == q * d + d;
  }

  /** The rounding is exactly the integer the definition describes. */
  lemma HalfEvenExact(n: nat, d: nat, r: nat)
    requires d > 0
    ensures r == HalfEven(n, d) <==> IsHalfEven(n, d, r)
  {
    var s := HalfEven(n, d);
    HalfEvenRounds(n, d);
    if IsHalfEven(n, d, r) {
      if r > s { Apart(n, d, s, r); }
      if r < s { Apart(n, d, r, s); }
    }
  }

  lemma Apart(n: nat, d: nat, r: nat, s: nat)
    requires d > 0 && r < s && IsHalfEven(n, d, r)
    ensures !IsHalfEven(n, d, s)
  {
    MulLe(r + 1, s, d);
    assert (r + 1) * d == r * d + d && (r + 2) * d == r * d + 2 * d;
    if s > r + 1 { MulLe(r + 2, s, d); }
  }

  /** The quotient has 28 digits: at `k` places after the point the exact one has 28 before it. */
  predicate UpAt(x: Decimal, n: nat, d: nat, k: nat) {
    d * TOP <= n * Power(k) < 10 * (d * TOP) && x.den == Power(k) && IsHalfEven(n * Power(k), d, x.num)
  }

  /** Its last `k` places before the point are dropped. */
  predicate DownAt(x: Decimal, n: nat, d: nat, k: nat) {
    && (d * Power(k)) * TOP <= n < 10 * ((d * Power(k)) * TOP)
    && x.den == 1 && x.num % Power(k) == 0 && IsHalfEven(n, d * Power(k), x.num / Power(k))
  }

  lemma {:induction false} ScaledUpExactly(n: nat, d: nat) returns (k: nat)
    requires 0 < n < 10 * (d * TOP)
    ensures UpAt(ScaledUp(n, d), n, d, k)
    decreases 10 * (d * TOP) - n
  {
    if n < d * TOP {
      k := ScaledUpExactly(10 * n, d);
      TenfoldUp(ScaledUp(10 * n, d), n, d, k);
      k := k + 1;
    } else {
      k := 0;
      assert n * Power(0) == n;
      HalfEvenRounds(n, d);
    }
  }

  lemma TenfoldUp(x: Decimal, n: nat, d: nat, k: nat)
    requires UpAt(x, 10 * n, d, k)
    ensures UpAt(Decimal(x.num, 10 * x.den), n, d, k + 1)
  {
    assert (10 * n) * Power(k) == n * Power(k + 1);
  }

  lemma {:induction false} ScaledDownExactly(n: nat, d: nat) returns (k: nat)
    requires d > 0 && n >= d * TOP
    ensures DownAt(ScaledDown(n, d), n, d, k)
    decreases n - d * TOP
  {
    if n >= 10 * (d * TOP) {
      assert (10 * d) * TOP == 10 * (d * TOP);
      k := ScaledDownExactly(n, 10 * d);
      TenfoldDown(ScaledDown(n, 10 * d), n, d, k);
      k := k + 1;
    } else {
      k := 0;
      HalfEvenRounds(n, d);
    }
  }

  lemma TenfoldDown(x: Decimal, n: nat, d: nat, k: nat)
    requires DownAt(x, n, 10 * d, k)
    ensures DownAt(Decimal(10 * x.num, x.den), n, d, k + 1)
  {
    var p := Power(k);
    assert (10 * d) * p == d * Power(k + 1);
    var c := x.num / p;
    assert x.num == c * p;
    assert 10 * x.num == c * Power(k + 1);
    MultipleDivides(c, Power(k + 1));
  }

  lemma MultipleDivides(c: nat, p: nat)
    requires p > 0
    ensures c * p % p == 0 && c * p / p == c
  {
    var q, r := c * p / p, c * p % p;
    assert c * p == q * p + r;
    assert (c - q) * p == r;
    if c > q { MulLe(1, c - q, p); }
    if c < q { MulLe(c - q, -1, p); }
  }

  /** A decimal quotient is the exact one at 28 significant digits, ties to even. */
  lemma QuotientExactly(n: nat, d: nat)
    requires n > 0 && d > 0
    ensures exists k :: UpAt(Quotient(n, d), n, d, k) || DownAt(Quotient(n, d), n, d, k)
  {
    var k;
    if n < 10 * (d * TOP) {
      k := ScaledUpExactly(n, d);
    } else {
      k := ScaledDownExactly(n, d);
    }
    assert UpAt(Quotient(n, d), n, d, k) || DownAt(Quotient(n, d), n, d, k);
  }

  /** A product keeps as many digits as a quotient by one. */
  lemma ProductIsQuotient(n: nat)
    ensures Quotient(n, 1).num == Product(n) * Quotient(n, 1).den
  {
    if n < 10 * TOP { QuotientWhole(n, 1); }
  }

  lemma HalfEvenWhole(q: nat, d: nat)
    requires d > 0
    ensures HalfEven(q * d, d) == q
  {
    HalfEvenNear(q * d, d);
    var h := HalfEven(q * d, d);
    assert (q + 1) * d == q * d + d && (q - 1) * d == q * d - d;
    if h > q { MulLe(q + 1, h, d); }
    if h < q { MulLe(h, q - 1, d); }
  }

  /** A whole quotient of at most 28 digits is exact. */
  lemma {:induction false} QuotientWhole(q: nat, d: nat)
    requires d > 0 && q < 10 * TOP
    ensures var x := Quotient(q * d, d); x.den > 0 && x.num == q * x.den
  {
    if q > 0 {
      MulLe(1, q, d);
      MulLe(q + 1, 10 * TOP, d);
      assert (q + 1) * d == q * d + d && (10 * TOP) * d == 10 * (d * TOP);
      ScaledUpWhole(q, d);
    }
  }

  lemma {:induction false} ScaledUpWhole(q: nat, d: nat)
    requires d > 0 && 0 < q * d < 10 * (d * TOP)
    ensures var x := ScaledUp(q * d, d); x.den > 0 && x.num == q * x.den
    decreases 10 * (d * TOP) - q * d
  {
    if q * d < d * TOP {
      assert 10 * (q * d) == (10 * q) * d;
      ScaledUpWhole(10 * q, d);
    } else {
      HalfEvenWhole(q, d);
    }
  }

  // ---------------------------------------------------------------- closed forms

  /** The quotient at a known scale. */
  lemma {:induction false} AtScale(n: nat, d: nat, k: nat)
    requires 0 < n && d * TOP <= n * Power(k) < 10 * (d * TOP)
    ensures n < 10 * (d * TOP) && Quotient(n, d) == Decimal(HalfEven(n * Power(k), d), Power(k))
  {
    MulLe(1, Power(k), n);
    ScaledUpAt(n, d, k);
  }

  lemma {:induction false} ScaledUpAt(n: nat, d: nat, k: nat)
    requires 0 < n < 10 * (d * TOP) && d * TOP <= n * Power(k) < 10 * (d * TOP)
    ensures ScaledUp(n, d) == Decimal(HalfEven(n * Power(k), d), Power(k))
    decreases k
  {
    if k > 0 {
      assert (10 * n) * Power(k - 1) == n * Power(k);
      MulLe(1, Power(k - 1), 10 * n);
      ScaledUpAt(10 * n, d, k - 1);
    }
  }

  lemma {:induction false} PowerAdds(a: nat, b: nat)
    ensures Power(a + b) == Power(a) * Power(b)
  {
    if a > 0 {
      PowerAdds(a - 1, b);
      assert 10 * (Power(a - 1) * Power(b)) == Power(a) * Power(b);
    }
  }

  lemma PowerTop()
    ensures Power(27) == TOP && Power(28) == 10 * TOP
  {
    assert Power(1) == 10 && Power(2) == 100 && Power(3) == 1000;
    PowerAdds(3, 3);
    PowerAdds(6, 3);
    PowerAdds(9, 9);
    PowerAdds(18, 9);
  }
}
