/**
 Sharing an amount out in proportion to weights (app/domain/money.py): exact quotas, their floors,
 and which positions get the units the floors leave over.
 */
module Allocation {
  import opened Prelude
  import Rounding

  datatype AllocationError = NonPositiveWeights | NonPositiveParts

  function Sum(s: seq<int>): int {
    if s == [] then 0 else Sum(s[..|s| - 1]) + s[|s| - 1]
  }

  /** The floor of the exact quota `total * w / W`, and what the floor leaves, in W-ths. */
  function Floor(total: int, weights: seq<int>, i: nat): int
    requires i < |weights| && Sum(weights) > 0
  {
    (total * weights[i]) / Sum(weights)
  }

  function Fraction(total: int, weights: seq<int>, i: nat): (f: nat)
    requires i < |weights| && Sum(weights) > 0
    ensures f < Sum(weights) && total * weights[i] == Floor(total, weights, i) * Sum(weights) + f
  {
    (total * weights[i]) % Sum(weights)
  }

  function Fractions(total: int, weights: seq<int>): seq<int>
    requires Sum(weights) > 0
  {
    seq(|weights|, i requires 0 <= i < |weights| => Fraction(total, weights, i))
  }

  function Floors(total: int, weights: seq<int>): seq<int>
    requires Sum(weights) > 0
  {
    seq(|weights|, i requires 0 <= i < |weights| => Floor(total, weights, i))
  }

  function Shortfall(total: int, weights: seq<int>): int
    requires Sum(weights) > 0
  {
    total - Sum(Floors(total, weights))
  }

  /** No smaller fraction, and of equal weights the earlier position. */
  predicate Outranks(fractions: seq<int>, weights: seq<int>, i: nat, j: nat)
    requires i < |fractions| == |weights| && j < |fractions|
  {
    fractions[i] > fractions[j] || (fractions[i] == fractions[j] && (weights[i] == weights[j] ==> i < j))
  }

  /** Every share is its floor or one more, and whoever got one more outranks whoever did not. */
  ghost predicate FairBy(floors: seq<int>, fractions: seq<int>, weights: seq<int>, shares: seq<int>) {
    && |shares| == |floors| == |fractions| == |weights|
    && (forall i :: 0 <= i < |shares| ==> shares[i] == floors[i] || shares[i] == floors[i] + 1)
    && (forall i: nat, j: nat {:trigger Outranks(fractions, weights, i, j)} :: i < |shares| && j < |shares| ==>
          shares[i] > floors[i] && shares[j] == floors[j] ==> Outranks(fractions, weights, i, j))
  }

  ghost predicate Fair(total: int, weights: seq<int>, shares: seq<int>)
    requires Sum(weights) > 0
  {
    FairBy(Floors(total, weights), Fractions(total, weights), weights, shares)
  }

  // ---------------------------------------------------------------- sums

  lemma {:induction false} SumUpdate(s: seq<int>, i: nat, v: int)
    requires i < |s|
    ensures Sum(s[i := v]) == Sum(s) - s[i] + v
  {
    var last := |s| - 1;
    if i == last {
      assert s[i := v][..last] == s[..last];
    } else {
      SumUpdate(s[..last], i, v);
      assert s[i := v][..last] == s[..last][i := v];
    }
  }

  lemma {:induction false} SumLess(a: seq<int>, b: seq<int>)
    requires |a| == |b| && forall i :: 0 <= i < |a| ==> a[i] <= b[i]
    ensures Sum(a) <= Sum(b)
    ensures (exists i :: 0 <= i < |a| && a[i] < b[i]) ==> Sum(a) < Sum(b)
  {
    if a != [] {
      var last := |a| - 1;
      SumLess(a[..last], b[..last]);
      if i :| 0 <= i < |a| && a[i] < b[i] {
        if i < last { assert a[..last][i] < b[..last][i]; }
      }
    }
  }

  /** `sum (k*a[i] + b[i]) == k * sum a + sum b`. */
  lemma {:induction false} SumLinear(a: seq<int>, b: seq<int>, c: seq<int>, k: int)
    requires |a| == |b| == |c| && forall i :: 0 <= i < |a| ==> c[i] == a[i] * k + b[i]
    ensures Sum(c) == Sum(a) * k + Sum(b)
  {
    if a != [] {
      var last := |a| - 1;
      SumLinear(a[..last], b[..last], c[..last], k);
      assert (Sum(a[..last]) + a[last]) * k == Sum(a[..last]) * k + a[last] * k;
    }
  }

  lemma {:induction false} SumConst(n: nat, v: int)
    ensures Sum(seq(n, _ => v)) == n * v
  {
    if n > 0 {
      SumConst(n - 1, v);
      assert seq(n, _ => v)[..n - 1] == seq(n - 1, _ => v);
      assert n * v == (n - 1) * v + v;
    }
  }

  /** What the floors leave of the total is the fractions' sum, in whole units. */
  lemma ShortfallTimesWeight(total: int, weights: seq<int>)
    requires Sum(weights) > 0
    ensures (total - Sum(Floors(total, weights))) * Sum(weights) == Sum(Fractions(total, weights))
  {
    var W, floors, fractions := Sum(weights), Floors(total, weights), Fractions(total, weights);
    var products := seq(|weights|, i requires 0 <= i < |weights| => total * weights[i]);
    var zeros := seq(|weights|, _ => 0);
    SumConst(|weights|, 0);
    SumLinear(weights, zeros, products, total);
    SumLinear(floors, fractions, products, W);
    assert (total - Sum(floors)) * W == total * W - Sum(floors) * W;
  }

  lemma BetweenMultiples(s: int, n: int, w: int)
    requires w > 0 && 0 <= s * w < n * w
    ensures 0 <= s < n
  {
    if s < 0 { Rounding.MulLe(s, -1, w); }
    if s >= n { Rounding.MulLe(n, s, w); }
  }

  lemma SumWithin(fractions: seq<int>, w: int)
    requires fractions != [] && forall i :: 0 <= i < |fractions| ==> 0 <= fractions[i] < w
    ensures 0 <= Sum(fractions) < |fractions| * w
  {
    var n := |fractions|;
    SumConst(n, 0);
    SumLess(seq(n, _ => 0), fractions);
    SumConst(n, w);
    assert fractions[0] < seq(n, _ => w)[0];
    SumLess(fractions, seq(n, _ => w));
  }

  lemma FractionsBounded(total: int, weights: seq<int>)
    requires Sum(weights) > 0
    ensures weights != [] && |Fractions(total, weights)| == |weights|
    ensures forall i :: 0 <= i < |weights| ==> 0 <= Fractions(total, weights)[i] < Sum(weights)
  {
  }

  lemma ShortfallBetween(shortfall: int, fractions: seq<int>, w: int)
    requires fractions != [] && w > 0 && shortfall * w == Sum(fractions)
    requires forall i :: 0 <= i < |fractions| ==> 0 <= fractions[i] < w
    ensures 0 <= shortfall < |fractions|
  {
    SumWithin(fractions, w);
    BetweenMultiples(shortfall, |fractions|, w);
  }

  /** The shortfall is a number of positions to raise: never negative, never all of them. */
  lemma ShortfallInRange(total: int, weights: seq<int>)
    requires Sum(weights) > 0
    ensures 0 <= total - Sum(Floors(total, weights)) < |weights|
  {
    ShortfallTimesWeight(total, weights);
    FractionsBounded(total, weights);
    ShortfallBetween(total - Sum(Floors(total, weights)), Fractions(total, weights), Sum(weights));
  }

  /** Larger key first; of equal keys, the earlier position first. */
  predicate Before(keys: seq<real>, i: nat, j: nat)
    requires i < |keys| && j < |keys|
  {
    keys[i] > keys[j] || (keys[i] == keys[j] && i < j)
  }

  // ---------------------------------------------------------------- the order

  /** `sorted(range(n), key=..., reverse=True)`: reverse keeps equal keys in their order. */
  function Inserted(order: seq<nat>, keys: seq<real>, k: nat): seq<nat>
    requires k < |keys| && forall a :: 0 <= a < |order| ==> order[a] < |keys|
  {
    if order == [] then [k]
    else
      var last := order[|order| - 1];
      if keys[last] >= keys[k] then order + [k]
      else Inserted(order[..|order| - 1], keys, k) + [last]
  }

  function Order(keys: seq<real>, n: nat): (order: seq<nat>)
    requires n <= |keys|
    ensures |order| == n && forall a :: 0 <= a < n ==> order[a] < n
  {
    if n == 0 then []
    else
      var init := Order(keys, n - 1);
      InsertedHas(init, keys, n - 1);
      Inserted(init, keys, n - 1)
  }

  predicate Ordered(order: seq<nat>, keys: seq<real>)
    requires forall a :: 0 <= a < |order| ==> order[a] < |keys|
  {
    forall a, b :: 0 <= a < b < |order| ==> Before(keys, order[a], order[b])
  }

  lemma {:induction false} InsertedHas(order: seq<nat>, keys: seq<real>, k: nat)
    requires k < |keys| && forall a :: 0 <= a < |order| ==> order[a] < |keys|
    ensures |Inserted(order, keys, k)| == |order| + 1
    ensures forall x :: x in Inserted(order, keys, k) <==> x == k || x in order
    ensures forall a :: 0 <= a < |order| + 1 ==>
              Inserted(order, keys, k)[a] == k || Inserted(order, keys, k)[a] in order
  {
    if order != [] {
      InsertedHas(order[..|order| - 1], keys, k);
      assert order == order[..|order| - 1] + [order[|order| - 1]];
    }
  }

  lemma {:induction false} InsertedOrdered(order: seq<nat>, keys: seq<real>, k: nat)
    requires k < |keys| && forall a :: 0 <= a < |order| ==> order[a] < k
    requires Ordered(order, keys)
    ensures var r := Inserted(order, keys, k);
            (forall a :: 0 <= a < |r| ==> r[a] < |keys|) && Ordered(r, keys)
  {
    InsertedHas(order, keys, k);
    if order != [] {
      var init, last := order[..|order| - 1], order[|order| - 1];
      if keys[last] < keys[k] {
        InsertedOrdered(init, keys, k);
        InsertedHas(init, keys, k);
        forall a | 0 <= a < |Inserted(init, keys, k)|
          ensures Before(keys, Inserted(init, keys, k)[a], last)
        {
          var x := Inserted(init, keys, k)[a];
          if x != k {
            var b :| 0 <= b < |init| && init[b] == x;
            assert Before(keys, order[b], order[|order| - 1]);
          }
        }
      } else {
        forall a | 0 <= a < |order| ensures Before(keys, order[a], k) {
          if a < |order| - 1 { assert Before(keys, order[a], order[|order| - 1]); }
        }
      }
    }
  }

  lemma {:induction false} OrderSorts(keys: seq<real>, n: nat)
    requires n <= |keys|
    ensures Ordered(Order(keys, n), keys)
  {
    if n > 0 {
      OrderSorts(keys, n - 1);
      InsertedOrdered(Order(keys, n - 1), keys, n - 1);
    }
  }

  lemma {:induction false} OrderCovers(keys: seq<real>, n: nat)
    requires n <= |keys|
    ensures forall x: nat :: x < n ==> x in Order(keys, n)
  {
    if n > 0 {
      OrderCovers(keys, n - 1);
      InsertedHas(Order(keys, n - 1), keys, n - 1);
    }
  }

  // ---------------------------------------------------------------- raising the first of an order

  /** One more for each of the first `k` positions of the order. */
  function RaisedBy(floors: seq<int>, order: seq<nat>, k: nat): seq<int>
    requires k <= |order|
  {
    seq(|floors|, i requires 0 <= i < |floors| => floors[i] + if i in order[..k] then 1 else 0)
  }

  lemma NotYet(keys: seq<real>, k: nat)
    requires k < |keys|
    ensures var order := Order(keys, |keys|); order[k] !in order[..k]
  {
    var order := Order(keys, |keys|);
    OrderSorts(keys, |keys|);
    forall a | 0 <= a < k ensures order[..k][a] != order[k] {
      assert Before(keys, order[a], order[k]);
    }
  }

  lemma RaisedNext(floors: seq<int>, keys: seq<real>, k: nat)
    requires |floors| == |keys| && k < |keys|
    ensures var order := Order(keys, |keys|);
            var before := RaisedBy(floors, order, k);
            RaisedBy(floors, order, k + 1) == before[order[k] := before[order[k]] + 1]
  {
    NotYet(keys, k);
    RaisedOneMore(floors, Order(keys, |keys|), k);
  }

  lemma RaisedOneMore(floors: seq<int>, order: seq<nat>, k: nat)
    requires k < |order| && order[k] < |floors| && order[k] !in order[..k]
    ensures var before := RaisedBy(floors, order, k);
            RaisedBy(floors, order, k + 1) == before[order[k] := before[order[k]] + 1]
  {
    assert order[..k + 1] == order[..k] + [order[k]];
  }

  lemma {:induction false} RaisedSum(floors: seq<int>, keys: seq<real>, k: nat)
    requires |floors| == |keys| && k <= |keys|
    ensures Sum(RaisedBy(floors, Order(keys, |keys|), k)) == Sum(floors) + k
  {
    var order := Order(keys, |keys|);
    if k == 0 {
      assert RaisedBy(floors, order, 0) == floors;
    } else {
      RaisedSum(floors, keys, k - 1);
      RaisedNext(floors, keys, k - 1);
      var before := RaisedBy(floors, order, k - 1);
      SumUpdate(before, order[k - 1], before[order[k - 1]] + 1);
    }
  }

  /** Whoever is raised comes before whoever is not. */
  lemma RaisedBefore(floors: seq<int>, keys: seq<real>, k: nat, i: nat, j: nat)
    requires |floors| == |keys| && k <= |keys| && i < |keys| && j < |keys|
    requires var shares := RaisedBy(floors, Order(keys, |keys|), k); shares[i] > floors[i] && shares[j] == floors[j]
    ensures Before(keys, i, j)
  {
    OrderSorts(keys, |keys|);
    OrderCovers(keys, |keys|);
    var order := Order(keys, |keys|);
    RaisedMeans(floors, order, k, i);
    RaisedMeans(floors, order, k, j);
    FirstBefore(keys, order, k, i, j);
  }

  lemma RaisedMeans(floors: seq<int>, order: seq<nat>, k: nat, i: nat)
    requires k <= |order| && i < |floors|
    ensures RaisedBy(floors, order, k)[i] > floors[i] <==> i in order[..k]
    ensures RaisedBy(floors, order, k)[i] == floors[i] <==> i !in order[..k]
  {
  }

  lemma FirstBefore(keys: seq<real>, order: seq<nat>, k: nat, i: nat, j: nat)
    requires forall a :: 0 <= a < |order| ==> order[a] < |keys|
    requires Ordered(order, keys) && k <= |order| && i in order[..k] && j in order && j !in order[..k]
    ensures i < |keys| && j < |keys| && Before(keys, i, j)
  {
    var a :| 0 <= a < k && order[..k][a] == i;
    assert order == order[..k] + order[k..];
    var b :| 0 <= b < |order| - k && order[k..][b] == j;
    assert Before(keys, order[a], order[k + b]);
  }

  /** Keys that never put a smaller fraction first and do not tell equal weights apart. */
  ghost predicate Refines(keys: seq<real>, fractions: seq<int>, weights: seq<int>) {
    && |keys| == |fractions| == |weights|
    && (forall i, j :: 0 <= i < |keys| && 0 <= j < |keys| && fractions[i] > fractions[j] ==> keys[i] > keys[j])
    && (forall i, j :: 0 <= i < |keys| && 0 <= j < |keys| && weights[i] == weights[j] ==> keys[i] == keys[j])
  }

  /** Raising by such keys is fair and gives out exactly the total. */
  lemma KeyedFair(total: int, weights: seq<int>, keys: seq<real>)
    requires Sum(weights) > 0 && Refines(keys, Fractions(total, weights), weights)
    ensures 0 <= Shortfall(total, weights) < |weights|
    ensures var shares := RaisedBy(Floors(total, weights), Order(keys, |keys|), Shortfall(total, weights));
            Fair(total, weights, shares) && Sum(shares) == total
  {
    ShortfallInRange(total, weights);
    var floors, k := Floors(total, weights), Shortfall(total, weights);
    RaisedSum(floors, keys, k);
    KeyedFairBy(floors, Fractions(total, weights), weights, keys, k);
  }

  lemma KeyedFairBy(floors: seq<int>, fractions: seq<int>, weights: seq<int>, keys: seq<real>, k: nat)
    requires |floors| == |keys| && k <= |keys| && Refines(keys, fractions, weights)
    ensures FairBy(floors, fractions, weights, RaisedBy(floors, Order(keys, |keys|), k))
  {
    var shares := RaisedBy(floors, Order(keys, |keys|), k);
    forall i: nat, j: nat | i < |shares| && j < |shares| && shares[i] > floors[i] && shares[j] == floors[j]
      ensures Outranks(fractions, weights, i, j)
    {
      RaisedBefore(floors, keys, k, i, j);
    }
  }

  // ---------------------------------------------------------------- when only one allocation is fair

  /** How many fractions exceed `f`, and how many reach it, as 0/1 sequences. */
  function Above(fractions: seq<int>, f: int): seq<int> {
    seq(|fractions|, i requires 0 <= i < |fractions| => if fractions[i] > f then 1 else 0)
  }

  function Reaching(fractions: seq<int>, f: int): seq<int> {
    seq(|fractions|, i requires 0 <= i < |fractions| => if fractions[i] >= f then 1 else 0)
  }

  function Raises(floors: seq<int>, shares: seq<int>): seq<int>
    requires |floors| == |shares|
  {
    seq(|shares|, i requires 0 <= i < |shares| => shares[i] - floors[i])
  }

  lemma {:induction false} RaisesSum(floors: seq<int>, shares: seq<int>)
    requires |floors| == |shares|
    ensures Sum(Raises(floors, shares)) == Sum(shares) - Sum(floors)
  {
    if shares != [] {
      var last := |shares| - 1;
      RaisesSum(floors[..last], shares[..last]);
      assert Raises(floors, shares)[..last] == Raises(floors[..last], shares[..last]);
    }
  }

  /** Some, but not all, of the positions at fraction `f` can be raised. */
  predicate Straddles(fractions: seq<int>, f: int, shortfall: int) {
    Sum(Above(fractions, f)) < shortfall < Sum(Reaching(fractions, f))
  }

  /** Two different weights leave the same fraction, right where the units run out. */
  ghost predicate TieAcrossCut(total: int, weights: seq<int>)
    requires Sum(weights) > 0
  {
    exists i, j :: TiedAt(Fractions(total, weights), weights, Shortfall(total, weights), i, j)
  }

  predicate TiedAt(fractions: seq<int>, weights: seq<int>, shortfall: int, i: int, j: int) {
    && 0 <= i < |fractions| && 0 <= j < |fractions| && |fractions| == |weights|
    && fractions[i] == fractions[j] && weights[i] != weights[j] && Straddles(fractions, fractions[i], shortfall)
  }

  /** A raised and an unraised position at one fraction mean the units run out there. */
  lemma SplitStraddles(floors: seq<int>, fractions: seq<int>, weights: seq<int>, shares: seq<int>, i: nat, j: nat)
    requires FairBy(floors, fractions, weights, shares) && i < |shares| && j < |shares|
    requires shares[i] > floors[i] && shares[j] == floors[j] && fractions[i] == fractions[j]
    ensures Straddles(fractions, fractions[i], Sum(shares) - Sum(floors))
  {
    var f, raises := fractions[i], Raises(floors, shares);
    RaisesSum(floors, shares);
    forall k: nat | k < |shares| ensures Above(fractions, f)[k] <= raises[k] <= Reaching(fractions, f)[k] {
      assert shares[k] > floors[k] || Outranks(fractions, weights, i, k);
      assert shares[k] == floors[k] || Outranks(fractions, weights, k, j);
    }
    assert Above(fractions, f)[i] < raises[i] && raises[j] < Reaching(fractions, f)[j];
    SumLess(Above(fractions, f), raises);
    SumLess(raises, Reaching(fractions, f));
  }

  /** Where the units run out at fraction `f`, some position there is raised and some is not. */
  lemma StraddlesSplit(floors: seq<int>, fractions: seq<int>, weights: seq<int>, shares: seq<int>, f: int)
    requires FairBy(floors, fractions, weights, shares) && Straddles(fractions, f, Sum(shares) - Sum(floors))
    ensures exists i :: 0 <= i < |shares| && fractions[i] == f && shares[i] > floors[i]
    ensures exists j :: 0 <= j < |shares| && fractions[j] == f && shares[j] == floors[j]
  {
    var raises, above, reaching := Raises(floors, shares), Above(fractions, f), Reaching(fractions, f);
    RaisesSum(floors, shares);
    if forall k: nat :: k < |shares| ==> raises[k] <= above[k] { SumLess(raises, above); }
    var i: nat :| i < |shares| && raises[i] > above[i];
    if forall k: nat :: k < |shares| ==> reaching[k] <= raises[k] { SumLess(reaching, raises); }
    var j: nat :| j < |shares| && reaching[j] > raises[j];
    // `i` is raised without exceeding `f`, `j` reaches `f` without being raised
    assert Outranks(fractions, weights, i, j);
  }

  /** Rank by fraction, ties by the weight itself or by its opposite. */
  function TieKeys(fractions: seq<int>, weights: seq<int>, bound: int, up: bool): seq<real>
    requires |fractions| == |weights|
  {
    seq(|weights|, i requires 0 <= i < |weights| =>
      (fractions[i] * bound + if up then weights[i] else -weights[i]) as real)
  }

  lemma TieKeysRefine(fractions: seq<int>, weights: seq<int>, bound: int, up: bool)
    requires |fractions| == |weights| && forall i, j :: 0 <= i < |weights| && 0 <= j < |weights| ==>
                                           weights[i] - weights[j] < bound
    requires forall i, j :: 0 <= i < |weights| && 0 <= j < |weights| && weights[i] == weights[j] ==>
               fractions[i] == fractions[j]
    ensures Refines(TieKeys(fractions, weights, bound, up), fractions, weights)
  {
    forall i, j | 0 <= i < |weights| && 0 <= j < |weights| && fractions[i] > fractions[j]
      ensures TieKeys(fractions, weights, bound, up)[i] > TieKeys(fractions, weights, bound, up)[j]
    {
      assert weights[i] - weights[i] < bound && weights[i] - weights[j] < bound && weights[j] - weights[i] < bound;
      Rounding.MulLe(fractions[j] + 1, fractions[i], bound);
      assert (fractions[j] + 1) * bound == fractions[j] * bound + bound;
    }
  }

  lemma {:induction false} WeightsBounded(weights: seq<int>) returns (bound: int)
    ensures forall i, j :: 0 <= i < |weights| && 0 <= j < |weights| ==> weights[i] - weights[j] < bound
  {
    var m := MaxAbs(weights);
    bound := 2 * m + 1;
  }

  lemma {:induction false} MaxAbs(weights: seq<int>) returns (m: nat)
    ensures forall i :: 0 <= i < |weights| ==> Abs(weights[i]) <= m
  {
    m := 0;
    if weights != [] {
      var init := MaxAbs(weights[..|weights| - 1]);
      m := Max(init, Abs(weights[|weights| - 1]));
      assert weights == weights[..|weights| - 1] + [weights[|weights| - 1]];
    }
  }

  /** Preferring heavy weights and preferring light ones differ exactly because the tied weights do. */
  lemma TwoFair(total: int, weights: seq<int>)
    requires Sum(weights) > 0 && TieAcrossCut(total, weights)
    ensures exists a, b :: Fair(total, weights, a) && Fair(total, weights, b) && Sum(a) == total == Sum(b) && a != b
  {
    var floors, fractions, k := Floors(total, weights), Fractions(total, weights), Shortfall(total, weights);
    var i, j :| TiedAt(fractions, weights, k, i, j);
    var bound := WeightsBounded(weights);
    SameFractions(total, weights);
    var up, down := TieKeys(fractions, weights, bound, true), TieKeys(fractions, weights, bound, false);
    TieKeysRefine(fractions, weights, bound, true);
    TieKeysRefine(fractions, weights, bound, false);
    KeyedFair(total, weights, up);
    KeyedFair(total, weights, down);
    var a, b := RaisedBy(floors, Order(up, |up|), k), RaisedBy(floors, Order(down, |down|), k);
    if a == b {
      SameRaised(floors, fractions, weights, bound, k, i, j);
    }
  }

  lemma SameFractions(total: int, weights: seq<int>)
    requires Sum(weights) > 0
    ensures forall i, j :: 0 <= i < |weights| && 0 <= j < |weights| && weights[i] == weights[j] ==>
              Fractions(total, weights)[i] == Fractions(total, weights)[j]
  {
  }

  /** If both preferences raise the same positions, all weights at a straddled fraction are equal. */
  lemma SameRaised(floors: seq<int>, fractions: seq<int>, weights: seq<int>, bound: int, k: nat, i: int, j: int)
    requires |floors| == |fractions| == |weights| && k <= |weights|
    requires var up, down := TieKeys(fractions, weights, bound, true), TieKeys(fractions, weights, bound, false);
             && RaisedBy(floors, Order(up, |up|), k) == RaisedBy(floors, Order(down, |down|), k)
             && Refines(up, fractions, weights)
    requires 0 <= i < |weights| && 0 <= j < |weights| && fractions[i] == fractions[j]
    requires Straddles(fractions, fractions[i], k)
    ensures weights[i] == weights[j]
  {
    var up, down := TieKeys(fractions, weights, bound, true), TieKeys(fractions, weights, bound, false);
    var shares, f := RaisedBy(floors, Order(up, |up|), k), fractions[i];
    KeyedFairBy(floors, fractions, weights, up, k);
    RaisedSum(floors, up, k);
    StraddlesSplit(floors, fractions, weights, shares, f);
    var r: nat :| r < |shares| && fractions[r] == f && shares[r] > floors[r];
    var u: nat :| u < |shares| && fractions[u] == f && shares[u] == floors[u];
    forall x: nat, y: nat | x < |shares| && y < |shares| && fractions[x] == f && fractions[y] == f
      && shares[x] > floors[x] && shares[y] == floors[y]
      ensures weights[x] == weights[y]
    {
      RaisedBefore(floors, up, k, x, y);
      RaisedBefore(floors, down, k, x, y);
    }
    assert forall x: nat :: x < |shares| && fractions[x] == f ==> weights[x] == weights[r] || weights[x] == weights[u];
  }

  /** The fair allocation of a total is the only one exactly when no two different weights tie across the cut. */
  lemma FairUnique(total: int, weights: seq<int>)
    requires Sum(weights) > 0
    ensures (forall a, b :: Fair(total, weights, a) && Fair(total, weights, b) && Sum(a) == total == Sum(b) ==> a == b)
            <==> !TieAcrossCut(total, weights)
  {
    if TieAcrossCut(total, weights) {
      TwoFair(total, weights);
    } else {
      forall a, b | Fair(total, weights, a) && Fair(total, weights, b) && Sum(a) == total == Sum(b) ensures a == b {
        NoneMore(total, weights, a, b);
        NoneMore(total, weights, b, a);
      }
    }
  }

  lemma NoneMore(total: int, weights: seq<int>, a: seq<int>, b: seq<int>)
    requires Sum(weights) > 0 && Fair(total, weights, a) && Fair(total, weights, b) && Sum(a) == total == Sum(b)
    requires !TieAcrossCut(total, weights)
    ensures forall i :: 0 <= i < |a| ==> a[i] <= b[i]
  {
    NoneMoreBy(Floors(total, weights), Fractions(total, weights), weights, a, b, Shortfall(total, weights));
  }

  lemma NoneMoreBy(
    floors: seq<int>, fractions: seq<int>, weights: seq<int>, a: seq<int>, b: seq<int>, shortfall: int)
    requires FairBy(floors, fractions, weights, a) && FairBy(floors, fractions, weights, b)
    requires Sum(a) - Sum(floors) == shortfall == Sum(b) - Sum(floors)
    requires forall i, j :: !TiedAt(fractions, weights, shortfall, i, j)
    ensures forall i :: 0 <= i < |a| ==> a[i] <= b[i]
  {
    if i: nat :| i < |a| && a[i] > b[i] {
      var j := Traded(a, b, i);
      Exchanged(floors, fractions, weights, a, b, i, j);
    }
  }

  lemma Traded(a: seq<int>, b: seq<int>, i: nat) returns (j: nat)
    requires |a| == |b| && i < |a| && a[i] > b[i] && Sum(a) == Sum(b)
    ensures j < |a| && b[j] > a[j]
  {
    if k: nat :| k < |a| && b[k] > a[k] {
      j := k;
    } else {
      SumLess(b, a);
    }
  }

  /** Two fair allocations that trade `i` for `j` have them tied, with different weights, at the cut. */
  lemma Exchanged(floors: seq<int>, fractions: seq<int>, weights: seq<int>, a: seq<int>, b: seq<int>, i: nat, j: nat)
    requires FairBy(floors, fractions, weights, a) && FairBy(floors, fractions, weights, b)
    requires i < |a| && j < |a| && a[i] > b[i] && b[j] > a[j]
    ensures TiedAt(fractions, weights, Sum(a) - Sum(floors), i, j)
  {
    assert Outranks(fractions, weights, i, j) && Outranks(fractions, weights, j, i);
    SplitStraddles(floors, fractions, weights, a, i, j);
  }

  // ---------------------------------------------------------------- floors and ceilings

  /** A weight `w` for every position raised. */
  function Scaled(floors: seq<int>, shares: seq<int>, w: int): seq<int>
    requires |floors| == |shares|
  {
    seq(|shares|, j requires 0 <= j < |shares| => if shares[j] == floors[j] then 0 else w)
  }

  lemma {:induction false} RaisesScaled(floors: seq<int>, shares: seq<int>, w: int)
    requires |floors| == |shares| && forall i :: 0 <= i < |shares| ==>
               shares[i] == floors[i] || shares[i] == floors[i] + 1
    ensures Sum(Scaled(floors, shares, w)) == (Sum(shares) - Sum(floors)) * w
  {
    if shares != [] {
      var last := |shares| - 1;
      RaisesScaled(floors[..last], shares[..last], w);
      assert Scaled(floors, shares, w)[..last] == Scaled(floors[..last], shares[..last], w);
      var before := Sum(shares[..last]) - Sum(floors[..last]);
      assert (before + 1) * w == before * w + w;
    }
  }

  /** If a zero fraction was raised, every fraction left unraised is zero too. */
  lemma ScaledCovers(floors: seq<int>, fractions: seq<int>, weights: seq<int>, shares: seq<int>, w: int, i: nat)
    requires FairBy(floors, fractions, weights, shares) && i < |shares| && shares[i] > floors[i] && fractions[i] == 0
    requires forall j :: 0 <= j < |fractions| ==> 0 <= fractions[j] < w
    ensures Sum(fractions) < Sum(Scaled(floors, shares, w))
  {
    var scaled := Scaled(floors, shares, w);
    forall j: nat | j < |shares| ensures fractions[j] <= scaled[j] {
      assert shares[j] > floors[j] || Outranks(fractions, weights, i, j);
    }
    assert fractions[i] < scaled[i];
    SumLess(fractions, scaled);
  }

  /** Raising a whole quota would give out more than there is. */
  lemma WholeQuotaRaised(
    floors: seq<int>, fractions: seq<int>, weights: seq<int>, shares: seq<int>, w: int, shortfall: int, i: nat)
    requires FairBy(floors, fractions, weights, shares) && w > 0 && shortfall * w == Sum(fractions)
    requires forall j :: 0 <= j < |fractions| ==> 0 <= fractions[j] < w
    requires i < |shares| && shares[i] > floors[i] && fractions[i] == 0
    ensures Sum(shares) > Sum(floors) + shortfall
  {
    ScaledCovers(floors, fractions, weights, shares, w, i);
    RaisesScaled(floors, shares, w);
    LessByFactor(shortfall, Sum(shares) - Sum(floors), w);
  }

  lemma LessByFactor(a: int, b: int, w: int)
    requires w > 0 && a * w < b * w
    ensures a < b
  {
    if b <= a { Rounding.MulLe(b, a, w); }
  }

  /** A share is raised only when its quota is not whole, so it is the quota's floor or its ceiling. */
  lemma FloorOrCeiling(total: int, weights: seq<int>, shares: seq<int>, i: nat)
    requires Sum(weights) > 0 && Fair(total, weights, shares) && Sum(shares) == total && i < |shares|
    ensures shares[i] == Floor(total, weights, i) ||
            (shares[i] == Floor(total, weights, i) + 1 && Fraction(total, weights, i) > 0)
  {
    var floors, fractions := Floors(total, weights), Fractions(total, weights);
    ShortfallTimesWeight(total, weights);
    if shares[i] > floors[i] && fractions[i] == 0 {
      WholeQuotaRaised(floors, fractions, weights, shares, Sum(weights), total - Sum(floors), i);
    }
  }

  lemma ZeroWeightGetsZero(total: int, weights: seq<int>, shares: seq<int>, i: nat)
    requires Sum(weights) > 0 && Fair(total, weights, shares) && Sum(shares) == total && i < |shares|
    requires weights[i] == 0
    ensures shares[i] == 0
  {
    FloorOrCeiling(total, weights, shares, i);
    assert total * weights[i] == 0;
  }

  // ---------------------------------------------------------------- even splits

  function SplitEvenly(total: int, parts: int): Result<seq<int>, AllocationError> {
    if parts <= 0 then Err(NonPositiveParts)
    else Ok(seq(parts, i requires 0 <= i < parts => total / parts + if i < total % parts then 1 else 0))
  }

  lemma {:induction false} SumFirstRaised(n: nat, m: int, base: int)
    requires 0 <= m
    ensures Sum(seq(n, i requires 0 <= i < n => base + if i < m then 1 else 0)) == n * base + Min(n, m)
  {
    if n > 0 {
      SumFirstRaised(n - 1, m, base);
      var all := seq(n, i requires 0 <= i < n => base + if i < m then 1 else 0);
      assert all[..n - 1] == seq(n - 1, i requires 0 <= i < n - 1 => base + if i < m then 1 else 0);
      assert n * base == (n - 1) * base + base;
    }
  }

  /** The slices add up, differ by at most one unit, and are the equal-weights allocation, negative totals included. */
  lemma EvenIsEqualWeights(total: int, parts: nat)
    requires parts > 0
    ensures var shares, ones := SplitEvenly(total, parts).value, seq(parts, _ => 1);
            Sum(shares) == total && Sum(ones) == parts && Fair(total, ones, shares)
    ensures forall i, j :: 0 <= i <= j < parts ==>
              0 <= SplitEvenly(total, parts).value[i] - SplitEvenly(total, parts).value[j] <= 1
    ensures forall none :: none <= 0 ==> SplitEvenly(total, none) == Err(NonPositiveParts)
  {
    var ones := seq(parts, _ => 1);
    SumConst(parts, 1);
    SumFirstRaised(parts, total % parts, total / parts);
    assert parts * (total / parts) + total % parts == total;
    forall i: nat | i < parts
      ensures Floor(total, ones, i) == total / parts && Fraction(total, ones, i) == total % parts
    {
      assert total * ones[i] == total;
    }
  }

  /** Equal weights never tie across the cut with a different one, so the even split is the only fair allocation. */
  lemma EvenIsOnlyFair(total: int, parts: nat, shares: seq<int>)
    requires parts > 0 && Sum(seq(parts, _ => 1)) == parts
    requires Fair(total, seq(parts, _ => 1), shares) && Sum(shares) == total
    ensures Ok(shares) == SplitEvenly(total, parts)
  {
    EvenIsEqualWeights(total, parts);
    FairUnique(total, seq(parts, _ => 1));
  }
}
