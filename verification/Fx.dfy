/** Payout conversion arithmetic (app/domain/fx.py) and the legs it posts (app/domain/rules/payouts.py). */
module Fx {
  import opened Prelude
  import opened Chart
  import opened Rounding

  /** A positive exact decimal. */
  datatype Rate = Rate(num: int, den: int)

  predicate Positive(r: Rate) {
    r.num > 0 && r.den > 0
  }

  const RATE_SCALE := 10_000_000_000

  /** A rate recorded to ten decimal places, as `units` of the last place. */
  function OnGrid(units: int): Rate {
    Rate(units, RATE_SCALE)
  }

  datatype FxError = NoRate(currency: Currency) | MarkupOutOfRange | NotPositive | SameCurrency | TooSmall

  /** Units of `to` per one `from` through the provider's base, quantised to the grid. */
  function CrossRate(rates: map<Currency, Rate>, from: Currency, to: Currency): Result<int, FxError>
    requires forall c :: c in rates ==> Positive(rates[c])
  {
    if from !in rates then Err(NoRate(from))
    else if to !in rates then Err(NoRate(to))
    else if from == to then Ok(RATE_SCALE)
    else CrossUnits(rates[to], rates[from])
  }

  function CrossUnits(to: Rate, from: Rate): Result<int, FxError>
    requires Positive(to) && Positive(from)
  {
    MulLe(1, to.den, from.num);
    Ok(HalfUp(to.num * from.den * RATE_SCALE, to.den * from.num))
  }

  /** The rate a payout converts at, in grid units: the mid-rate less the markup. */
  function MarkedDown(mid: Rate, bps: int): Result<int, FxError>
    requires mid.den > 0
  {
    if bps < 0 || bps >= BPS then Err(MarkupOutOfRange)
    else Ok(HalfUp(mid.num * (BPS - bps) * RATE_SCALE, mid.den * BPS))
  }

  function Up(from: Currency, to: Currency): int {
    if Exponent(to) > Exponent(from) then 100 else 1
  }

  function Down(from: Currency, to: Currency): int {
    if Exponent(to) < Exponent(from) then 100 else 1
  }

  /** Minor units of `from` in minor units of `to`: the exponent shift, then one rounding. */
  function Convert(amount: int, from: Currency, to: Currency, rate: Rate): int
    requires rate.den > 0
  {
    HalfUp(amount * rate.num * Up(from, to), rate.den * Down(from, to))
  }

  datatype Conversion = Conversion(
    source: int, from: Currency, target: int, to: Currency, rate: int, midTarget: int)

  function Spread(c: Conversion): int {
    c.midTarget - c.target
  }

  function Quote(amount: int, from: Currency, to: Currency, mid: Rate, bps: int): Result<Conversion, FxError>
    requires mid.den > 0
  {
    if amount <= 0 then Err(NotPositive)
    else if from == to then Err(SameCurrency)
    else
      match MarkedDown(mid, bps)
      case Err(e) => Err(e)
      case Ok(rate) =>
        var target := Convert(amount, from, to, OnGrid(rate));
        if target <= 0 then Err(TooSmall)
        else Ok(Conversion(amount, from, target, to, rate, Convert(amount, from, to, mid)))
  }

  // ---------------------------------------------------------------- never more than the mid amount

  /** The recorded rate is no better than the mid-rate. */
  predicate NoBetter(rate: int, mid: Rate) {
    rate * mid.den <= mid.num * RATE_SCALE
  }

  lemma ConvertMonotone(amount: int, from: Currency, to: Currency, rate: int, mid: Rate)
    requires amount >= 0 && mid.den > 0 && NoBetter(rate, mid)
    ensures Convert(amount, from, to, OnGrid(rate)) <= Convert(amount, from, to, mid)
  {
    var u, v := Up(from, to), Down(from, to);
    var k := amount * u * v;
    assert k >= 0 by { MulLe(0, amount, u); MulLe(0, amount * u, v); }
    MulLe(rate * mid.den, mid.num * RATE_SCALE, k);
    calc {
      (amount * rate * u) * (mid.den * v);
      (rate * mid.den) * k;
    }
    calc {
      (amount * mid.num * u) * (RATE_SCALE * v);
      (mid.num * RATE_SCALE) * k;
    }
    HalfUpMonotone(amount * rate * u, RATE_SCALE * v, amount * mid.num * u, mid.den * v);
  }

  /** An amount both rates convert without rounding. */
  lemma ConvertWhole(from: Currency, to: Currency, rate: int, mid: Rate)
    requires mid.den > 0
    ensures var amount := RATE_SCALE * mid.den * Down(from, to);
            && amount > 0
            && Convert(amount, from, to, OnGrid(rate)) == rate * mid.den * Up(from, to)
            && Convert(amount, from, to, mid) == mid.num * RATE_SCALE * Up(from, to)
  {
    var u, v := Up(from, to), Down(from, to);
    var amount := RATE_SCALE * mid.den * v;
    calc {
      amount * rate * u;
      (rate * mid.den * u) * (RATE_SCALE * v);
    }
    HalfUpWhole(rate * mid.den * u, RATE_SCALE * v);
    calc {
      amount * mid.num * u;
      (mid.num * RATE_SCALE * u) * (mid.den * v);
    }
    HalfUpWhole(mid.num * RATE_SCALE * u, mid.den * v);
  }

  /** The mid-rate cut off, not rounded, at the grid. */
  function GridFloor(mid: Rate): int
    requires mid.den > 0
  {
    mid.num * RATE_SCALE / mid.den
  }

  /** The marked-down mid-rate lies below the midpoint above the last grid rate that mid reaches. */
  predicate MarkupCovers(mid: Rate, bps: int)
    requires mid.den > 0
  {
    2 * (mid.num * (BPS - bps) * RATE_SCALE) < (2 * GridFloor(mid) + 1) * (mid.den * BPS)
  }

  lemma NoBetterFloor(rate: int, mid: Rate)
    requires mid.den > 0
    ensures NoBetter(rate, mid) <==> rate <= GridFloor(mid)
  {
    var x, q := mid.num * RATE_SCALE, GridFloor(mid);
    assert x == q * mid.den + x % mid.den;
    if rate <= q { MulLe(rate, q, mid.den); }
    if rate >= q + 1 { MulLe(q + 1, rate, mid.den); assert (q + 1) * mid.den == q * mid.den + mid.den; }
  }

  /** Whether the recorded rate stays within mid is decided by the mid-rate and the markup alone. */
  lemma MarkupCoversExactly(mid: Rate, bps: int)
    requires mid.num >= 0 && mid.den > 0 && 0 <= bps < BPS
    ensures NoBetter(MarkedDown(mid, bps).value, mid) <==> MarkupCovers(mid, bps)
  {
    var n, d := mid.num * (BPS - bps) * RATE_SCALE, mid.den * BPS;
    MulLe(0, mid.num, BPS - bps);
    MulLe(0, mid.num * (BPS - bps), RATE_SCALE);
    NoBetterFloor(HalfUp(n, d), mid);
    HalfUpAtMost(n, d, GridFloor(mid));
  }

  /** A mid-rate that beats the grid rate shows on an amount neither converts with a remainder. */
  lemma BetterRateOverpays(from: Currency, to: Currency, rate: int, mid: Rate)
    requires mid.num >= 0 && mid.den > 0 && !NoBetter(rate, mid)
    ensures var amount := RATE_SCALE * mid.den * Down(from, to);
            && amount > 0 && Convert(amount, from, to, OnGrid(rate)) > 0
            && Convert(amount, from, to, OnGrid(rate)) > Convert(amount, from, to, mid)
  {
    ConvertWhole(from, to, rate, mid);
    MulLe(mid.num * RATE_SCALE + 1, rate * mid.den, Up(from, to));
    MulLe(0, mid.num * RATE_SCALE, Up(from, to));
    assert (mid.num * RATE_SCALE + 1) * Up(from, to) == mid.num * RATE_SCALE * Up(from, to) + Up(from, to);
  }

  /**
   Of the quotes at one mid-rate and markup none has a negative spread, whatever the amount, exactly
   when the markup covers what rounding to the grid can add.
   */
  lemma SpreadSign(from: Currency, to: Currency, mid: Rate, bps: int)
    requires Positive(mid) && 0 <= bps < BPS && from != to
    ensures (forall amount :: Quote(amount, from, to, mid, bps).Ok? ==>
               Spread(Quote(amount, from, to, mid, bps).value) >= 0)
            <==> MarkupCovers(mid, bps)
  {
    var rate := MarkedDown(mid, bps).value;
    MarkupCoversExactly(mid, bps);
    if NoBetter(rate, mid) {
      forall amount | Quote(amount, from, to, mid, bps).Ok?
        ensures Spread(Quote(amount, from, to, mid, bps).value) >= 0
      {
        ConvertMonotone(amount, from, to, rate, mid);
      }
    } else {
      BetterRateOverpays(from, to, rate, mid);
      var amount := RATE_SCALE * mid.den * Down(from, to);
      assert Quote(amount, from, to, mid, bps).Ok? && Spread(Quote(amount, from, to, mid, bps).value) < 0;
    }
  }

  /** Off the grid the markup can round the rate up past mid: 0.00000000005 at no markup. */
  lemma OffGridQuoteOverpays()
    ensures var mid := Rate(5, 100_000_000_000);
            && MarkedDown(mid, 0) == Ok(1) && !NoBetter(1, mid)
            && Quote(100_000_000_000, USD, EUR, mid, 0).Ok?
            && Spread(Quote(100_000_000_000, USD, EUR, mid, 0).value) < 0
  {
    var mid := Rate(5, 100_000_000_000);
    HalfUpExact(5 * BPS * RATE_SCALE, 100_000_000_000 * BPS, 1);
    HalfUpWhole(10, RATE_SCALE);
    HalfUpWhole(5, 100_000_000_000);
    assert Convert(100_000_000_000, USD, EUR, OnGrid(1)) == 10;
    assert Convert(100_000_000_000, USD, EUR, mid) == 5;
  }

  /** On the grid every markup covers, none at all included. */
  lemma GridCovers(units: int, bps: int)
    requires units >= 0 && 0 <= bps < BPS
    ensures MarkupCovers(OnGrid(units), bps) && GridFloor(OnGrid(units)) == units
  {
    assert units * RATE_SCALE / RATE_SCALE == units;
    MulLe(BPS - bps, BPS, units);
    assert units * (BPS - bps) <= units * BPS;
  }

  /** A mid-rate on the grid, which is all `CrossRate` produces, is never beaten. */
  lemma GridRateNoBetter(units: int, bps: int)
    requires units >= 0 && 0 <= bps < BPS
    ensures MarkedDown(OnGrid(units), bps).Ok?
    ensures 0 <= MarkedDown(OnGrid(units), bps).value <= units
    ensures NoBetter(MarkedDown(OnGrid(units), bps).value, OnGrid(units))
  {
    var rate := MarkedDown(OnGrid(units), bps).value;
    GridCovers(units, bps);
    MarkupCoversExactly(OnGrid(units), bps);
    NoBetterFloor(rate, OnGrid(units));
    MulLe(0, units, BPS - bps);
    MulLe(0, units * (BPS - bps), RATE_SCALE);
    HalfUpNonNegative(units * (BPS - bps) * RATE_SCALE, RATE_SCALE * BPS);
  }

  lemma CrossRateOnGrid(rates: map<Currency, Rate>, from: Currency, to: Currency)
    requires forall c :: c in rates ==> Positive(rates[c])
    ensures CrossRate(rates, from, to).Ok? <==> from in rates && to in rates
    ensures CrossRate(rates, from, to).Ok? ==> CrossRate(rates, from, to).value >= 0
  {
    if from in rates && to in rates && from != to {
      var t, f := rates[to], rates[from];
      MulLe(1, t.den, f.num);
      MulLe(0, t.num, f.den);
      var n, d := t.num * f.den * RATE_SCALE, t.den * f.num;
      HalfUpMonotone(0, d, n, d) by { MulLe(0, n, d); }
      HalfUpWhole(0, d);
    }
  }

  /**
   The cross rate is `rates[to]` over `rates[from]`, to the nearest ten-billionth: what one unit of
   `from` buys of `to`.
   */
  lemma CrossRateNearest(rates: map<Currency, Rate>, from: Currency, to: Currency)
    requires forall c :: c in rates ==> Positive(rates[c])
    ensures from !in rates ==> CrossRate(rates, from, to) == Err(NoRate(from))
    ensures from in rates && to !in rates ==> CrossRate(rates, from, to) == Err(NoRate(to))
    ensures from in rates && from == to ==> CrossRate(rates, from, to) == Ok(10_000_000_000)
    ensures from in rates && to in rates && from != to ==>
              && CrossRate(rates, from, to).Ok?
              && var r, bought, paid := CrossRate(rates, from, to).value, rates[to], rates[from];
                 2 * Abs(r * (bought.den * paid.num) - bought.num * paid.den * 10_000_000_000) <= bought.den * paid.num
  {
    if from in rates && to in rates && from != to {
      MulLe(1, rates[to].den, rates[from].num);
      HalfUpNearest(rates[to].num * rates[from].den * RATE_SCALE, rates[to].den * rates[from].num);
    }
  }

  /** A conversion is the nearest unit to the amount at the rate, shifted by the difference of the exponents. */
  lemma ConvertNearest(amount: int, from: Currency, to: Currency, rate: Rate, r: int)
    requires rate.den > 0
    ensures r == Convert(amount, from, to, rate) <==>
              IsHalfUp(amount * rate.num * Power(Exponent(to)), rate.den * Power(Exponent(from)), r)
  {
    assert Power(0) == 1 && Power(1) == 10 && Power(2) == 100;
    var n, d := amount * rate.num, rate.den;
    HalfUpExact(n * Up(from, to), d * Down(from, to), r);
    HalfUpExact(n * Power(Exponent(to)), d * Power(Exponent(from)), r);
    if Exponent(from) == Exponent(to) {
      SameQuotient(n, d, Power(Exponent(to)));
      assert n * 1 == n && d * 1 == d;
    }
  }

  /** Rounding looks at the quotient only. */
  lemma SameQuotient(n: int, d: int, k: int)
    requires d > 0 && k > 0
    ensures d * k > 0 && HalfUp(n * k, d * k) == HalfUp(n, d)
  {
    MulLe(1, k, d);
    assert (n * k) * d == n * (d * k);
    HalfUpMonotone(n, d, n * k, d * k);
    HalfUpMonotone(n * k, d * k, n, d);
  }

  /** Ten dollars at 151.20 are 1512 yen, and back at one over that rate they are a thousand cents. */
  lemma ConvertExamples()
    ensures Convert(1000, USD, JPY, Rate(15120, 100)) == 1512
    ensures Convert(1512, JPY, USD, Rate(100, 15120)) == 1000
  {
    HalfUpWhole(1512, 100 * 100);
    HalfUpWhole(1000, 15120);
    assert Convert(1000, USD, JPY, Rate(15120, 100)) == HalfUp(1512 * (100 * 100), 100 * 100);
    assert Convert(1512, JPY, USD, Rate(100, 15120)) == HalfUp(1000 * 15120, 15120);
  }

  /** A quote goes through exactly on a positive amount, two currencies, a markup in range and a unit to pay. */
  lemma QuoteExactly(amount: int, from: Currency, to: Currency, mid: Rate, bps: int)
    requires mid.den > 0
    ensures Quote(amount, from, to, mid, bps).Ok? <==>
              && amount > 0 && from != to && 0 <= bps < 10_000
              && Convert(amount, from, to, OnGrid(MarkedDown(mid, bps).value)) > 0
    ensures Quote(amount, from, to, mid, bps).Ok? ==>
              var q := Quote(amount, from, to, mid, bps).value;
              && q.source == amount && q.from == from && q.to == to
              && IsHalfUp(mid.num * (10_000 - bps) * 10_000_000_000, mid.den * 10_000, q.rate)
              && q.target == Convert(amount, from, to, OnGrid(q.rate))
              && q.midTarget == Convert(amount, from, to, mid)
              && Spread(q) == q.midTarget - q.target
    ensures amount <= 0 ==> Quote(amount, from, to, mid, bps) == Err(NotPositive)
    ensures amount > 0 && from == to ==> Quote(amount, from, to, mid, bps) == Err(SameCurrency)
    ensures amount > 0 && from != to ==>
              (Quote(amount, from, to, mid, bps) == Err(MarkupOutOfRange) <==> bps < 0 || bps >= 10_000)
    ensures Quote(amount, from, to, mid, bps).Err? && amount > 0 && from != to && 0 <= bps < 10_000 ==>
              Quote(amount, from, to, mid, bps) == Err(TooSmall)
  {
    if 0 <= bps < BPS {
      HalfUpNearest(mid.num * (BPS - bps) * RATE_SCALE, mid.den * BPS);
    }
  }

  // ---------------------------------------------------------------- legs

  /** Balance side, source currency: Dr `merchant_payable` / Cr `fx_clearing`. */
  function SourceLines(amount: int): seq<Line> {
    [Line(MerchantPayable, Debit, amount), Line(FxClearing, Credit, amount)]
  }

  /** Bank side, target currency: Dr `fx_clearing` / Cr `cash` and, unless it is zero, `fx_revenue`. */
  function TargetLines(mid: int, payout: int, spread: int): seq<Line> {
    [Line(FxClearing, Debit, mid), Line(Cash, Credit, payout)]
    + if spread == 0 then [] else [Line(FxRevenue, Credit, spread)]
  }

  lemma PairSides(a: Line, b: Line, d: Direction)
    ensures Side([a, b], d) == (if a.direction == d then a.amount else 0) + (if b.direction == d then b.amount else 0)
  {
    SideSnoc([], a, d);
    SideSnoc([a], b, d);
    assert [a] + [b] == [a, b] && [] + [a] == [a];
  }

  lemma SourceLinesPostable(amount: int)
    requires amount > 0
    ensures Postable(SourceLines(amount))
  {
    PairSides(Line(MerchantPayable, Debit, amount), Line(FxClearing, Credit, amount), Debit);
    PairSides(Line(MerchantPayable, Debit, amount), Line(FxClearing, Credit, amount), Credit);
  }

  /** What the rule checks before building is also what makes the legs balance. */
  lemma TargetLinesPostable(mid: int, payout: int, spread: int)
    requires payout > 0 && spread >= 0
    ensures Postable(TargetLines(mid, payout, spread)) <==> mid == payout + spread
  {
    var lines := TargetLines(mid, payout, spread);
    var pair, last := [Line(FxClearing, Debit, mid), Line(Cash, Credit, payout)], Line(FxRevenue, Credit, spread);
    PairSides(pair[0], pair[1], Debit);
    PairSides(pair[0], pair[1], Credit);
    SideSnoc(pair, last, Debit);
    SideSnoc(pair, last, Credit);
    assert lines == if spread == 0 then pair else pair + [last];
    assert lines[0].amount == mid;
  }

  /**
   A quote built on a cross rate pays out something, never more than the mid amount, at a rate
   that reproduces the amount, and its legs balance in both currencies.
   */
  lemma QuoteSound(rates: map<Currency, Rate>, amount: int, from: Currency, to: Currency, bps: int)
    requires forall c :: c in rates ==> Positive(rates[c])
    requires CrossRate(rates, from, to).Ok?
    requires Quote(amount, from, to, OnGrid(CrossRate(rates, from, to).value), bps).Ok?
    ensures var q := Quote(amount, from, to, OnGrid(CrossRate(rates, from, to).value), bps).value;
            && 0 < q.target <= q.midTarget && Spread(q) >= 0
            && 0 < q.rate <= CrossRate(rates, from, to).value
            && Convert(q.source, q.from, q.to, OnGrid(q.rate)) == q.target
            && Postable(SourceLines(q.source))
            && Postable(TargetLines(q.target + Spread(q), q.target, Spread(q)))
  {
    var units := CrossRate(rates, from, to).value;
    CrossRateOnGrid(rates, from, to);
    QuoteOnGrid(amount, from, to, units, bps);
  }

  lemma ZeroRate(amount: int, from: Currency, to: Currency)
    ensures Convert(amount, from, to, OnGrid(0)) == 0
  {
    assert amount * 0 * Up(from, to) == 0 * (RATE_SCALE * Down(from, to));
    HalfUpWhole(0, RATE_SCALE * Down(from, to));
  }

  lemma QuoteOnGrid(amount: int, from: Currency, to: Currency, units: int, bps: int)
    requires units >= 0 && Quote(amount, from, to, OnGrid(units), bps).Ok?
    ensures var q := Quote(amount, from, to, OnGrid(units), bps).value;
            && 0 < q.target <= q.midTarget && Spread(q) >= 0
            && 0 < q.rate <= units
            && Convert(q.source, q.from, q.to, OnGrid(q.rate)) == q.target
            && Postable(SourceLines(q.source))
            && Postable(TargetLines(q.target + Spread(q), q.target, Spread(q)))
  {
    var q := Quote(amount, from, to, OnGrid(units), bps).value;
    GridRateNoBetter(units, bps);
    ConvertMonotone(amount, from, to, q.rate, OnGrid(units));
    ZeroRate(amount, from, to);
    SourceLinesPostable(q.source);
    TargetLinesPostable(q.target + Spread(q), q.target, Spread(q));
  }
}
