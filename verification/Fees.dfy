/** Fee arithmetic at the minor unit (app/domain/fees.py, app/domain/money.py). */
module Fees {
  import opened Prelude
  import opened Rounding

  datatype FeeError = NegativeBps | NegativeFixed | NoComponents | DuplicateNames

  // ---------------------------------------------------------------- the platform fee

  function ApplyBps(amount: int, bps: int): Result<int, FeeError> {
    if bps < 0 then Err(NegativeBps) else Ok(HalfUp(amount * bps, BPS))
  }

  function ComputePlatformFee(gross: int, bps: int, fixedMinor: int): Result<int, FeeError> {
    if fixedMinor < 0 then Err(NegativeFixed)
    else match ApplyBps(gross, bps)
         case Err(e) => Err(e)
         case Ok(variable) => Ok(Min(variable + fixedMinor, gross))
  }

  function NetOfFee(gross: int, fee: int): int {
    if fee > gross then 0 else gross - fee
  }

  /** Rounded to four decimals first, in ten-thousandths, and to the minor unit second. */
  function LegacyBlendedFee(gross: int): int {
    var raw := gross * 290 * BPS;
    var truncated := HalfUp(raw, BPS);
    Min(HalfUp(truncated, BPS) + 30, gross)
  }

  /** The legacy calculation's extra rounding never shows. */
  lemma LegacyIsBlended(gross: int)
    ensures ComputePlatformFee(gross, 290, 30) == Ok(LegacyBlendedFee(gross))
  {
    HalfUpWhole(gross * 290, BPS);
  }

  /**
   The fee is refused for a negative part, the fixed one first; otherwise it is the nearest unit to the
   basis-point share, ties away from zero, plus the fixed part, and never more than the gross.
   */
  lemma PlatformFeeExactly(gross: int, bps: int, fixedMinor: int, v: int)
    requires IsHalfUp(gross * bps, 10_000, v)
    ensures ComputePlatformFee(gross, bps, fixedMinor)
            == if fixedMinor < 0 then Err(NegativeFixed)
               else if bps < 0 then Err(NegativeBps)
               else if v + fixedMinor <= gross then Ok(v + fixedMinor) else Ok(gross)
  {
    HalfUpExact(gross * bps, 10_000, v);
  }

  /** A fee is a part of its gross exactly when the gross is not negative, and gross is always fee plus net. */
  lemma FeeWithinGross(gross: int, bps: int, fixedMinor: int)
    requires ComputePlatformFee(gross, bps, fixedMinor).Ok?
    ensures var fee := ComputePlatformFee(gross, bps, fixedMinor).value;
            && (0 <= fee <= gross <==> 0 <= gross)
            && NetOfFee(gross, fee) + fee == gross && NetOfFee(gross, fee) >= 0
    ensures forall fee :: NetOfFee(gross, fee) == Max(0, gross - fee)
  {
    if gross >= 0 {
      MulLe(0, gross, bps);
      HalfUpNonNegative(gross * bps, BPS);
    }
  }

  // ---------------------------------------------------------------- apportioning

  datatype Component = Component(name: string, bps: int, fixedMinor: int)

  datatype Breakdown = Breakdown(total: int, components: map<string, int>, remainder: int)

  const MARKUP := "platform_markup"

  /** A component's exact amount, in ten-thousandths of a minor unit. */
  function Exact(gross: int, c: Component): int {
    gross * c.bps + c.fixedMinor * BPS
  }

  function Own(gross: int, c: Component): int {
    HalfUp(Exact(gross, c), BPS)
  }

  function ExactTotal(gross: int, cs: seq<Component>): int {
    if cs == [] then 0 else ExactTotal(gross, cs[..|cs| - 1]) + Exact(gross, cs[|cs| - 1])
  }

  function OwnTotal(gross: int, cs: seq<Component>): int {
    if cs == [] then 0 else OwnTotal(gross, cs[..|cs| - 1]) + Own(gross, cs[|cs| - 1])
  }

  predicate DistinctNames(cs: seq<Component>) {
    forall i, j :: 0 <= i < j < |cs| ==> cs[i].name != cs[j].name
  }

  ghost predicate Named(cs: seq<Component>, parts: map<string, int>) {
    && (forall i :: 0 <= i < |cs| ==> cs[i].name in parts)
    && (forall name :: name in parts ==> exists i :: 0 <= i < |cs| && cs[i].name == name)
  }

  /** What the components receive, in their own order. */
  function Paid(cs: seq<Component>, parts: map<string, int>): int
    requires forall i :: 0 <= i < |cs| ==> cs[i].name in parts
  {
    if cs == [] then 0 else Paid(cs[..|cs| - 1], parts) + parts[cs[|cs| - 1].name]
  }

  /** The position of the markup component, or the last one. */
  function Sink(cs: seq<Component>): (k: nat)
    requires cs != []
    ensures k < |cs| && ((exists i :: 0 <= i < |cs| && cs[i].name == MARKUP) <==> cs[k].name == MARKUP)
    ensures cs[k].name != MARKUP ==> k == |cs| - 1
  {
    if cs[|cs| - 1].name == MARKUP || |cs| == 1 then |cs| - 1
    else
      var earlier := Sink(cs[..|cs| - 1]);
      if cs[earlier].name == MARKUP then earlier else |cs| - 1
  }

  lemma {:induction false} PaidOwn(gross: int, cs: seq<Component>, parts: map<string, int>)
    requires OwnParts(gross, cs, parts)
    ensures Paid(cs, parts) == OwnTotal(gross, cs)
  {
    if cs != [] { PaidOwn(gross, cs[..|cs| - 1], parts); }
  }

  lemma {:induction false} PaidUpdate(cs: seq<Component>, parts: map<string, int>, k: nat, v: int)
    requires DistinctNames(cs) && k < |cs| && forall i :: 0 <= i < |cs| ==> cs[i].name in parts
    ensures Paid(cs, parts[cs[k].name := v]) == Paid(cs, parts) - parts[cs[k].name] + v
  {
    var init, last := cs[..|cs| - 1], |cs| - 1;
    if k == last {
      PaidElsewhere(init, parts, cs[k].name, v);
    } else {
      PaidUpdate(init, parts, k, v);
    }
  }

  lemma {:induction false} PaidElsewhere(cs: seq<Component>, parts: map<string, int>, name: string, v: int)
    requires forall i :: 0 <= i < |cs| ==> cs[i].name in parts && cs[i].name != name
    ensures Paid(cs, parts[name := v]) == Paid(cs, parts)
  {
    if cs != [] { PaidElsewhere(cs[..|cs| - 1], parts, name, v); }
  }

  /** Errors add up to at most half a unit each, and reach that only on the side of zero that allows it. */
  lemma {:induction false} ErrorsBounded(gross: int, cs: seq<Component>)
    ensures var e := 2 * (OwnTotal(gross, cs) * BPS - ExactTotal(gross, cs));
            && -|cs| * BPS <= e <= |cs| * BPS
            && (e == |cs| * BPS ==> ExactTotal(gross, cs) >= 0)
            && (e == -|cs| * BPS && cs != [] ==> ExactTotal(gross, cs) < 0)
  {
    if cs != [] {
      ErrorsBounded(gross, cs[..|cs| - 1]);
      HalfUpNearest(Exact(gross, cs[|cs| - 1]), BPS);
    }
  }

  /** The remainder is at most half a unit per component. */
  lemma RemainderBounded(gross: int, cs: seq<Component>)
    requires cs != []
    ensures 2 * Abs(HalfUp(ExactTotal(gross, cs), BPS) - OwnTotal(gross, cs)) <= |cs|
  {
    ErrorsBounded(gross, cs);
    HalfUpNearest(ExactTotal(gross, cs), BPS);
  }

  predicate OwnParts(gross: int, cs: seq<Component>, parts: map<string, int>) {
    forall i :: 0 <= i < |cs| ==> cs[i].name in parts && parts[cs[i].name] == Own(gross, cs[i])
  }

  lemma OwnMore(gross: int, cs: seq<Component>, i: nat, parts: map<string, int>)
    requires DistinctNames(cs) && i < |cs| && OwnParts(gross, cs[..i], parts)
    ensures OwnParts(gross, cs[..i + 1], parts[cs[i].name := Own(gross, cs[i])])
  {
    var own := Own(gross, cs[i]);
    forall j | 0 <= j < i + 1
      ensures cs[j].name in parts[cs[i].name := own] && parts[cs[i].name := own][cs[j].name] == Own(gross, cs[j])
    {
      if j < i {
        assert cs[..i][j] == cs[j] && cs[j].name != cs[i].name;
      }
    }
  }

  /** Each component rounded on its own, and the exact total. */
  method RoundParts(gross: int, cs: seq<Component>) returns (exactTotal: int, parts: map<string, int>)
    requires DistinctNames(cs)
    ensures exactTotal == ExactTotal(gross, cs)
    ensures Named(cs, parts) && OwnParts(gross, cs, parts)
  {
    exactTotal, parts := 0, map[];
    for i := 0 to |cs|
      invariant exactTotal == ExactTotal(gross, cs[..i])
      invariant Named(cs[..i], parts)
      invariant OwnParts(gross, cs[..i], parts)
    {
      assert cs[..i + 1][..i] == cs[..i];
      var part := Own(gross, cs[i]);
      NamedMore(cs, i, parts, part);
      OwnMore(gross, cs, i, parts);
      exactTotal := exactTotal + Exact(gross, cs[i]);
      parts := parts[cs[i].name := part];
    }
    assert cs[..|cs|] == cs;
  }

  /** The breakdown's law: parts and remainder, all in terms of each component's own rounding. */
  ghost predicate Reconciled(gross: int, cs: seq<Component>, b: Breakdown)
    requires cs != []
  {
    && Named(cs, b.components)
    && b.total == HalfUp(ExactTotal(gross, cs), BPS) && b.total == Paid(cs, b.components)
    && (forall i :: 0 <= i < |cs| ==>
          b.components[cs[i].name] == Own(gross, cs[i]) + if i == Sink(cs) then b.remainder else 0)
    && 2 * Abs(b.remainder) <= |cs|
  }

  /** Moving the remainder to position `k` leaves every other component as it was. */
  lemma OnlySinkMoves(gross: int, cs: seq<Component>, parts: map<string, int>, k: nat, remainder: int)
    requires DistinctNames(cs) && k < |cs| && OwnParts(gross, cs, parts)
    ensures var after := parts[cs[k].name := parts[cs[k].name] + remainder];
            forall i :: 0 <= i < |cs| ==>
              cs[i].name in after && after[cs[i].name] == Own(gross, cs[i]) + if i == k then remainder else 0
  {
    var after := parts[cs[k].name := parts[cs[k].name] + remainder];
    forall i | 0 <= i < |cs|
      ensures cs[i].name in after && after[cs[i].name] == Own(gross, cs[i]) + if i == k then remainder else 0
    {
      assert i == k || cs[i].name != cs[k].name;
    }
  }

  lemma NamedSame(cs: seq<Component>, parts: map<string, int>, k: nat, v: int)
    requires Named(cs, parts) && k < |cs|
    ensures Named(cs, parts[cs[k].name := v])
  {
  }

  lemma SinkReconciles(gross: int, cs: seq<Component>, parts: map<string, int>, k: nat, total: int, remainder: int)
    requires DistinctNames(cs) && Named(cs, parts) && k < |cs| && k == Sink(cs)
    requires OwnParts(gross, cs, parts)
    requires total == HalfUp(ExactTotal(gross, cs), BPS) && remainder == total - Paid(cs, parts)
    requires 2 * Abs(remainder) <= |cs|
    ensures Reconciled(gross, cs, Breakdown(total, parts[cs[k].name := parts[cs[k].name] + remainder], remainder))
  {
    var v := parts[cs[k].name] + remainder;
    OnlySinkMoves(gross, cs, parts, k, remainder);
    NamedSame(cs, parts, k, v);
    assert Paid(cs, parts[cs[k].name := v]) == total by { PaidUpdate(cs, parts, k, v); }
  }

  /**
   The parts add up to the rounded total; every part but the sink's is its own rounding, and the
   sink differs from its own by the remainder, at most half a unit per component.
   */
  method ApportionFee(gross: int, cs: seq<Component>) returns (r: Result<Breakdown, FeeError>)
    ensures cs == [] ==> r == Err(NoComponents)
    ensures cs != [] && !DistinctNames(cs) ==> r == Err(DuplicateNames)
    ensures cs != [] && DistinctNames(cs) ==> r.Ok? && Reconciled(gross, cs, r.value)
  {
    if cs == [] {
      return Err(NoComponents);
    }
    if !DistinctNames(cs) {
      return Err(DuplicateNames);
    }
    var exactTotal, parts := RoundParts(gross, cs);
    var total := HalfUp(exactTotal, BPS);
    var remainder := total - Paid(cs, parts);
    var sink := Sink(cs);
    PaidOwn(gross, cs, parts);
    RemainderBounded(gross, cs);
    SinkReconciles(gross, cs, parts, sink, total, remainder);
    parts := parts[cs[sink].name := parts[cs[sink].name] + remainder];
    r := Ok(Breakdown(total, parts, remainder));
  }

  lemma NamedMore(cs: seq<Component>, i: nat, parts: map<string, int>, v: int)
    requires i < |cs| && Named(cs[..i], parts)
    ensures Named(cs[..i + 1], parts[cs[i].name := v])
  {
    var all, after := cs[..i + 1], parts[cs[i].name := v];
    forall name | name in after ensures exists j :: 0 <= j < |all| && all[j].name == name {
      if name == cs[i].name {
        assert all[i].name == name;
      } else {
        var j :| 0 <= j < |cs[..i]| && cs[..i][j].name == name;
        assert all[j].name == name;
      }
    }
  }

  // ---------------------------------------------------------------- interchange plus

  function InterchangePlus(markupBps: int, markupFixed: int, interchange: int, schemeFee: int): seq<Component> {
    [Component("interchange", 0, interchange), Component("scheme_fee", 0, schemeFee),
     Component(MARKUP, markupBps, markupFixed)]
  }

  /** Midway between two whole units. */
  predicate Tie(n: int, d: int)
    requires d > 0
  {
    2 * (n % d) == d
  }

  /** A rounding is off by half a unit exactly on a tie. */
  lemma TieExactly(n: int, d: int)
    requires d > 0
    ensures 2 * (HalfUp(n, d) * d - n) in {d, -d} <==> Tie(n, d)
  {
    var r, q, m := HalfUp(n, d), n / d, n % d;
    HalfUpNearest(n, d);
    assert n == q * d + m;
    NextToFloor(r, q, m, d);
    assert (q + 1) * d == q * d + d;
  }

  lemma NextToFloor(r: int, q: int, m: int, d: int)
    requires 0 <= m < d && -d <= 2 * (r * d - (q * d + m)) <= d
    ensures r == q || r == q + 1
  {
    assert (q + 2) * d == q * d + 2 * d && (q - 1) * d == q * d - d;
    if r >= q + 2 { MulLe(q + 2, r, d); }
    if r <= q - 1 { MulLe(r, q - 1, d); }
  }

  /** Half a unit of error is allowed upwards from zero and downwards below it. */
  predicate ErrorAllowed(n: int, d: int, e: int) {
    if n >= 0 then -d < e <= d else -d <= e < d
  }

  lemma ShiftedError(n: int, k: int, d: int, r: int)
    requires d > 0
    ensures IsHalfUp(n + k * d, d, r + k) <==> ErrorAllowed(n + k * d, d, 2 * (r * d - n))
  {
    assert (r + k) * d == r * d + k * d;
  }

  /** Rounding commutes with whole units unless a tie changes sides of zero. */
  lemma HalfUpShift(n: int, k: int, d: int)
    requires d > 0
    ensures HalfUp(n + k * d, d) == HalfUp(n, d) + k <==> !Tie(n, d) || (n >= 0 <==> n + k * d >= 0)
  {
    HalfUpExact(n + k * d, d, HalfUp(n, d) + k);
    ShiftedError(n, k, d, HalfUp(n, d));
    ErrorBySide(n, n + k * d, d);
  }

  lemma ErrorBySide(n: int, m: int, d: int)
    requires d > 0
    ensures ErrorAllowed(m, d, 2 * (HalfUp(n, d) * d - n)) <==> !Tie(n, d) || (n >= 0 <==> m >= 0)
  {
    HalfUpNearest(n, d);
    TieExactly(n, d);
  }

  lemma TotalsSnoc(gross: int, cs: seq<Component>, c: Component)
    ensures ExactTotal(gross, cs + [c]) == ExactTotal(gross, cs) + Exact(gross, c)
    ensures OwnTotal(gross, cs + [c]) == OwnTotal(gross, cs) + Own(gross, c)
  {
    var all := cs + [c];
    assert all[..|cs|] == cs && all[|cs|] == c;
  }

  lemma OneTotal(gross: int, a: Component)
    ensures ExactTotal(gross, [a]) == Exact(gross, a) && OwnTotal(gross, [a]) == Own(gross, a)
  {
    TotalsSnoc(gross, [], a);
    assert [] + [a] == [a];
  }

  lemma ThreeTotals(gross: int, a: Component, b: Component, c: Component, cs: seq<Component>)
    requires cs == [a] + [b] + [c]
    ensures ExactTotal(gross, cs) == Exact(gross, a) + Exact(gross, b) + Exact(gross, c)
    ensures OwnTotal(gross, cs) == Own(gross, a) + Own(gross, b) + Own(gross, c)
  {
    OneTotal(gross, a);
    TotalsSnoc(gross, [a], b);
    TotalsSnoc(gross, [a] + [b], c);
  }

  /** A zero-rate component is its fixed part, with nothing to round. */
  lemma FixedOnly(gross: int, name: string, fixedMinor: int)
    ensures Exact(gross, Component(name, 0, fixedMinor)) == fixedMinor * BPS
    ensures Own(gross, Component(name, 0, fixedMinor)) == fixedMinor
  {
    HalfUpWhole(fixedMinor, BPS);
  }

  lemma PlusTotals(gross: int, markupBps: int, markupFixed: int, interchange: int, schemeFee: int)
    ensures var cs := InterchangePlus(markupBps, markupFixed, interchange, schemeFee);
            var markup := Exact(gross, cs[2]);
            && ExactTotal(gross, cs) == markup + (interchange + schemeFee) * BPS
            && OwnTotal(gross, cs) == HalfUp(markup, BPS) + interchange + schemeFee
            && DistinctNames(cs) && Sink(cs) == 2
  {
    var cs := InterchangePlus(markupBps, markupFixed, interchange, schemeFee);
    assert cs == [cs[0]] + [cs[1]] + [cs[2]];
    ThreeTotals(gross, cs[0], cs[1], cs[2], cs);
    FixedOnly(gross, "interchange", interchange);
    FixedOnly(gross, "scheme_fee", schemeFee);
  }

  /**
   For the interchange-plus list nothing is left over, unless the markup is a tie and the pass-through
   amounts push the total across zero; with no negative input that cannot be.
   */
  lemma PlusRemainder(gross: int, markupBps: int, markupFixed: int, interchange: int, schemeFee: int)
    ensures var cs := InterchangePlus(markupBps, markupFixed, interchange, schemeFee);
            var markup, total := Exact(gross, cs[2]), ExactTotal(gross, cs);
            && (HalfUp(total, BPS) - OwnTotal(gross, cs) == 0 <==> !Tie(markup, BPS) || (markup >= 0 <==> total >= 0))
            && (gross >= 0 && markupBps >= 0 && markupFixed >= 0 && interchange >= 0 && schemeFee >= 0 ==>
                  HalfUp(total, BPS) == OwnTotal(gross, cs))
  {
    var cs := InterchangePlus(markupBps, markupFixed, interchange, schemeFee);
    PlusTotals(gross, markupBps, markupFixed, interchange, schemeFee);
    HalfUpShift(Exact(gross, cs[2]), interchange + schemeFee, BPS);
    if gross >= 0 && markupBps >= 0 { MulLe(0, gross, markupBps); }
  }

  /**
   An interchange-plus fee passes interchange and scheme fee on as they are, and the markup gets the rest
   of the total, which is the nearest unit to the exact sum.
   */
  lemma PlusParts(gross: int, markupBps: int, markupFixed: int, interchange: int, schemeFee: int, fee: Breakdown)
    requires Reconciled(gross, InterchangePlus(markupBps, markupFixed, interchange, schemeFee), fee)
    ensures fee.components == map["interchange" := interchange, "scheme_fee" := schemeFee,
                                  "platform_markup" := fee.total - interchange - schemeFee]
    ensures IsHalfUp(gross * markupBps + (markupFixed + interchange + schemeFee) * 10_000, 10_000, fee.total)
  {
    var cs := InterchangePlus(markupBps, markupFixed, interchange, schemeFee);
    PlusTotals(gross, markupBps, markupFixed, interchange, schemeFee);
    FixedOnly(gross, "interchange", interchange);
    FixedOnly(gross, "scheme_fee", schemeFee);
    HalfUpNearest(ExactTotal(gross, cs), BPS);
    assert cs[0].name in fee.components && cs[1].name in fee.components && cs[2].name in fee.components;
    forall name | name in fee.components ensures name in {"interchange", "scheme_fee", "platform_markup"} {
      var i :| 0 <= i < |cs| && cs[i].name == name;
    }
    PaidThree(cs, fee.components);
  }

  lemma PaidThree(cs: seq<Component>, parts: map<string, int>)
    requires |cs| == 3 && forall i :: 0 <= i < |cs| ==> cs[i].name in parts
    ensures Paid(cs, parts) == parts[cs[0].name] + parts[cs[1].name] + parts[cs[2].name]
  {
    assert cs[..2][..1] == cs[..1] && cs[..1][..0] == [];
    assert Paid(cs[..1], parts) == parts[cs[0].name];
    assert Paid(cs[..2], parts) == parts[cs[0].name] + parts[cs[1].name];
  }

  /** Half a unit of markup and a negative interchange: parts of 1 and -1, and a total of -1. */
  lemma PlusLeavesRemainder()
    ensures var cs := InterchangePlus(5000, 0, -1, 0);
            HalfUp(ExactTotal(1, cs), BPS) == -1 && OwnTotal(1, cs) == 0
  {
    PlusTotals(1, 5000, 0, -1, 0);
    HalfUpExact(5000, BPS, 1);
    HalfUpExact(-5000, BPS, -1);
  }
}
