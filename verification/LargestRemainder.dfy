/**
 `allocate_remainder` as the code runs it (app/domain/money.py): quotas and sort keys are decimals of
 28 significant digits, so two equal fractions can get different keys, and amounts near 10^27 can get
 wrong floors.
 */
module LargestRemainder {
  import opened Prelude
  import opened Rounding
  import opened DecimalContext
  import opened Allocation

  // ---------------------------------------------------------------- the code's floors and keys

  function Signed(negative: bool, n: nat): int {
    if negative then 0 - n else n
  }

  /** The coefficient, with its sign, and the scale of the quota whose product is `p`. */
  function Quota(p: int, sum: nat): (r: (int, nat))
    requires sum > 0
    ensures r.1 > 0
  {
    var x := Quotient(Product(Abs(p)), sum);
    (Signed(p < 0, x.num), x.den)
  }

  function CodeFloor(p: int, sum: nat): int
    requires sum > 0
  {
    var (v, den) := Quota(p, sum);
    v / den
  }

  /** `exact[i] - floors[i]`, rounded like every other result. */
  function CodeKey(p: int, sum: nat): real
    requires sum > 0
  {
    var (v, den) := Quota(p, sum);
    Value(Quotient(v % den, den))
  }

  function CodeFloors(total: int, weights: seq<int>): seq<int>
    requires Sum(weights) > 0
  {
    seq(|weights|, i requires 0 <= i < |weights| => CodeFloor(total * weights[i], Sum(weights)))
  }

  function CodeKeys(total: int, weights: seq<int>): seq<real>
    requires Sum(weights) > 0
  {
    seq(|weights|, i requires 0 <= i < |weights| => CodeKey(total * weights[i], Sum(weights)))
  }

  /** How many elements the slice `order[:k]` of a list of `n` has. */
  function Sliced(n: nat, k: int): (m: nat)
    ensures m <= n
  {
    if k < 0 then Max(0, n + k) else Min(n, k)
  }

  // ---------------------------------------------------------------- small enough for 28 digits

  /** Every product, and the weights' sum with it, stays below 10^27. */
  predicate Small(total: int, weights: seq<int>) {
    forall i :: 0 <= i < |weights| ==> Abs(total * weights[i]) + Sum(weights) < TOP
  }

  /** The quotient's coefficient is off by less than half a unit per W-th. */
  lemma QuotaNear(p: int, w: nat)
    requires w > 0 && Abs(p) < TOP
    ensures var x := Quotient(Abs(p), w); Near(x, Abs(p), w)
    ensures p % w == 0 ==> var x := Quotient(Abs(p), w); Signed(p < 0, x.num) == (p / w) * x.den
  {
    QuotientNear(Abs(p), w);
    if p % w == 0 {
      var q := p / w;
      assert p == q * w;
      WholeAbs(q, w, p);
      QuotientWhole(Abs(q), w);
      var x := Quotient(Abs(p), w);
      assert (-Abs(q)) * x.den == -(Abs(q) * x.den);
    }
  }

  lemma WholeAbs(q: int, w: nat, p: int)
    requires w > 0 && p == q * w
    ensures Abs(p) == Abs(q) * w && Abs(q) <= Abs(p) && (p < 0 <==> q < 0)
  {
    if q < 0 { MulLe(q, -1, w); MulLe(1, w, -q); } else { MulLe(0, q, w); MulLe(1, w, q); }
  }

  lemma Halved(t: nat, e: nat, bound: nat)
    requires e > 0 && bound < TOP && 2 * TOP * t <= bound * e
    ensures 2 * t < e
  {
    MulLe(bound, TOP - 1, e);
    assert (TOP - 1) * e == TOP * e - e;
    if 2 * t >= e { MulLe(e, 2 * t, TOP); }
  }

  lemma BetweenFloors(v: int, e: nat, w: nat, f: int, g: nat)
    requires 0 < g < w && e > 0 && 2 * Abs(v * w - ((f * e) * w + g * e)) < e
    ensures f * e <= v < f * e + e
  {
    var base := f * e;
    MulLe(1, g, e);
    MulLe(g, w - 1, e);
    assert (w - 1) * e == w * e - e;
    assert (base + e) * w == base * w + w * e;
    if v < base { MulLe(v, base, w); }
    if v >= base + e { MulLe(base + e, v, w); }
  }

  /** A coefficient that close to a quota that is not whole has the quota's floor, and a remainder as close. */
  lemma FloorOfNear(p: int, w: nat, v: int, e: nat)
    requires w > 0 && e > 0 && Abs(p) < TOP && p % w > 0 && 2 * TOP * Abs(v * w - p * e) <= Abs(p) * e
    ensures v / e == p / w && 2 * TOP * Abs((v % e) * w - (p % w) * e) <= Abs(p) * e
  {
    var f, g := p / w, p % w;
    assert p * e == (f * e) * w + g * e by { Distributed(p, f, g, w, e); }
    Halved(Abs(v * w - p * e), e, Abs(p));
    BetweenFloors(v, e, w, f, g);
    DividesOnce(v, e, f);
    assert (v - f * e) * w == v * w - (f * e) * w;
  }

  lemma Distributed(p: int, f: int, g: int, w: int, e: int)
    requires p == f * w + g
    ensures p * e == (f * e) * w + g * e
  {
    assert (f * w) * e == (f * e) * w;
  }

  lemma DividesOnce(v: int, e: nat, f: int)
    requires e > 0 && f * e <= v < f * e + e
    ensures v / e == f && v % e == v - f * e
  {
    var q, m := v / e, v % e;
    assert v == q * e + m;
    if q < f { MulLe(q + 1, f, e); }
    if q > f { MulLe(f + 1, q, e); }
  }

  /** Rounding the remainder to a key once more still leaves less than half a W-th of error. */
  lemma KeyOfNear(m: nat, e: nat, g: nat, w: nat, bound: nat, k: Decimal)
    requires w > 0 && e > 0 && m < e && bound + w < TOP && Near(k, m, e)
    requires 2 * TOP * Abs(m * w - g * e) <= bound * e
    ensures 2 * Abs(k.num * w - g * k.den) < k.den
  {
    var a, b := k.num, k.den;
    CrossTerms(a, b, w, g, e, m);
    AbsProducts(a * w - g * b, e, a * e - m * b, w, m * w - g * e, b);
    MulLe(m, e, b);
    NearTerms(Abs(a * w - g * b), Abs(a * e - m * b), Abs(m * w - g * e), e, b, w, bound);
  }

  lemma CrossTerms(a: int, b: int, w: int, g: int, e: int, m: int)
    ensures (a * w - g * b) * e == (a * e - m * b) * w + b * (m * w - g * e)
  {
    var x, y, z := a * w * e, g * b * e, m * b * w;
    assert (a * w - g * b) * e == x - y;
    assert (a * e - m * b) * w == x - z;
    assert b * (m * w - g * e) == z - y;
  }

  lemma NearTerms(x: nat, y: nat, z: nat, e: nat, b: nat, w: nat, bound: nat)
    requires e > 0 && b > 0 && bound + w < TOP && x * e <= y * w + z * b
    requires 2 * TOP * y <= e * b && 2 * TOP * z <= bound * e
    ensures 2 * x < b
  {
    ScaledTerm(y, w, e * b);
    Rescaled(z, b, bound, e);
    MulLe(1, e, b);
    Combined(x * e, y * w, z * b, e * b, w, bound);
    assert 2 * (x * e) == (2 * x) * e && e * b == b * e;
    LessByFactor(2 * x, b, e);
  }

  lemma ScaledTerm(y: nat, w: nat, c: nat)
    requires 2 * TOP * y <= c
    ensures 2 * TOP * (y * w) <= c * w
  {
    MulLe(2 * TOP * y, c, w);
    assert (2 * TOP * y) * w == 2 * TOP * (y * w);
  }

  lemma Rescaled(z: nat, b: nat, bound: nat, e: nat)
    requires 2 * TOP * z <= bound * e
    ensures 2 * TOP * (z * b) <= (e * b) * bound
  {
    ScaledTerm(z, b, bound * e);
    assert (bound * e) * b == (e * b) * bound;
  }

  lemma AbsProducts(p: int, e: nat, q: int, w: nat, r: int, b: nat)
    requires p * e == q * w + b * r
    ensures Abs(p) * e <= Abs(q) * w + Abs(r) * b
  {
    MulLe(q, Abs(q), w);
    MulLe(-Abs(q), q, w);
    MulLe(r, Abs(r), b);
    MulLe(-Abs(r), r, b);
    assert (-Abs(q)) * w == -(Abs(q) * w) && (-Abs(r)) * b == -(Abs(r) * b);
    assert p < 0 ==> Abs(p) * e == -(p * e);
  }

  lemma Combined(x: nat, y: nat, z: nat, c: nat, w: nat, bound: nat)
    requires c > 0 && bound + w < TOP && x <= y + z
    requires 2 * TOP * y <= c * w && 2 * TOP * z <= c * bound
    ensures 2 * x < c
  {
    MulLe(w + bound, TOP - 1, c);
    Sums(c, w, bound);
    Below(x, c);
  }

  lemma Sums(c: int, w: int, bound: int)
    ensures (w + bound) * c == c * w + c * bound && (TOP - 1) * c == TOP * c - c
  {
  }

  lemma Below(x: nat, c: nat)
    requires c > 0 && 2 * TOP * x <= TOP * c - c
    ensures 2 * x < c
  {
    if 2 * x >= c { MulLe(c, 2 * x, TOP); }
  }

  lemma HalfInReals(k: Decimal, w: nat, g: nat)
    requires k.den > 0 && 2 * Abs(k.num * w - g * k.den) < k.den
    ensures KeyNear(Value(k), w, g)
  {
    RealProduct(k.num, w);
    RealProduct(g, k.den);
    DoubledBetween(k.num * w - g * k.den, k.den);
    HalfOfReals(k.num as real, k.den as real, w as real, g as real);
  }

  lemma RealProduct(a: int, b: int)
    ensures (a * b) as real == a as real * b as real
  {
  }

  lemma DoubledBetween(t: int, b: int)
    requires 2 * Abs(t) < b
    ensures -(b as real) < 2.0 * t as real < b as real
  {
  }

  lemma HalfOfReals(a: real, b: real, w: real, g: real)
    requires b > 0.0 && -b < 2.0 * (a * w - g * b) < b
    ensures -0.5 < a / b * w - g < 0.5
  {
    var v := a / b;
    var x := v * w - g;
    assert v * b == a;
    assert (v * w) * b == (v * b) * w;
    assert x * b == a * w - g * b;
    if x >= 0.5 { RealMulLe(0.5, x, b); }
    if x <= -0.5 { RealMulLe(x, -0.5, b); }
  }

  lemma RealMulLe(x: real, y: real, w: real)
    requires x <= y && w >= 0.0
    ensures x * w <= y * w
  {
    assert (y - x) * w >= 0.0;
  }

  /** The key is the fraction, in W-ths, to within half a W-th. */
  predicate KeyNear(key: real, sum: nat, g: int) {
    -0.5 < key * sum as real - g as real < 0.5
  }

  lemma WholeQuota(p: int, sum: nat)
    requires sum > 0 && Abs(p) + sum < TOP && p % sum == 0
    ensures CodeFloor(p, sum) == p / sum && KeyNear(CodeKey(p, sum), sum, 0)
  {
    var (v, den) := Quota(p, sum);
    QuotaNear(p, sum);
    DividesOnce(v, den, p / sum);
    assert Value(Quotient(0, den)) == 0.0;
  }

  lemma SignedNear(p: int, sum: nat)
    requires sum > 0 && Abs(p) < TOP
    ensures var (v, den) := Quota(p, sum); 2 * TOP * Abs(v * sum - p * den) <= Abs(p) * den
  {
    var (v, den) := Quota(p, sum);
    var num := Quotient(Abs(p), sum).num;
    QuotaNear(p, sum);
    if p < 0 {
      assert v * sum == -(num * sum) && p * den == -(Abs(p) * den);
    }
  }

  lemma BrokenQuota(p: int, sum: nat)
    requires sum > 0 && Abs(p) + sum < TOP && p % sum > 0
    ensures CodeFloor(p, sum) == p / sum && KeyNear(CodeKey(p, sum), sum, p % sum)
  {
    var (v, den) := Quota(p, sum);
    SignedNear(p, sum);
    FloorOfNear(p, sum, v, den);
    QuotientNear(v % den, den);
    KeyOfNear(v % den, den, p % sum, sum, Abs(p), Quotient(v % den, den));
    HalfInReals(Quotient(v % den, den), sum, p % sum);
  }

  lemma CodeNear(p: int, sum: nat)
    requires sum > 0 && Abs(p) + sum < TOP
    ensures CodeFloor(p, sum) == p / sum && KeyNear(CodeKey(p, sum), sum, p % sum)
  {
    if p % sum == 0 { WholeQuota(p, sum); } else { BrokenQuota(p, sum); }
  }

  lemma KeysApart(x: real, y: real, sum: nat, g: int, h: int)
    requires sum > 0 && KeyNear(x, sum, g) && KeyNear(y, sum, h) && g > h
    ensures x > y
  {
    assert g as real >= h as real + 1.0;
    if x <= y { RealMulLe(x, y, sum as real); }
  }

  /** Below 10^27 the code's floors are the floors, and its keys never put a smaller fraction first. */
  lemma SmallIsExact(total: int, weights: seq<int>)
    requires Sum(weights) > 0 && Small(total, weights)
    ensures CodeFloors(total, weights) == Floors(total, weights)
    ensures Refines(CodeKeys(total, weights), Fractions(total, weights), weights)
  {
    var sum, keys, fractions := Sum(weights), CodeKeys(total, weights), Fractions(total, weights);
    forall i | 0 <= i < |weights|
      ensures CodeFloors(total, weights)[i] == Floors(total, weights)[i] && KeyNear(keys[i], sum, fractions[i])
    {
      CodeNear(total * weights[i], sum);
    }
    forall i, j | 0 <= i < |keys| && 0 <= j < |keys| && fractions[i] > fractions[j] ensures keys[i] > keys[j] {
      KeysApart(keys[i], keys[j], sum, fractions[i], fractions[j]);
    }
  }

  // ---------------------------------------------------------------- the operation

  /** The loop over `order[:shortfall]`. */
  method RaiseFirst(floors: seq<int>, keys: seq<real>, count: nat) returns (shares: seq<int>)
    requires |floors| == |keys| && count <= |keys|
    ensures shares == RaisedBy(floors, Order(keys, |keys|), count) && Sum(shares) == Sum(floors) + count
  {
    var order := Order(keys, |keys|);
    shares := floors;
    assert RaisedBy(floors, order, 0) == floors;
    for k := 0 to count
      invariant shares == RaisedBy(floors, order, k)
    {
      RaisedNext(floors, keys, k);
      shares := shares[order[k] := shares[order[k]] + 1];
    }
    RaisedSum(floors, keys, count);
  }

  /**
   Refused exactly without a positive weight sum. Otherwise the shares add up to the total exactly
   when what the computed floors leave is a number of positions; below 10^27 they always do, and the
   allocation is fair.
   */
  method AllocateRemainder(total: int, weights: seq<int>) returns (r: Result<seq<int>, AllocationError>)
    ensures r.Err? <==> Sum(weights) <= 0
    ensures r.Err? ==> r == Err(NonPositiveWeights)
    ensures r.Ok? ==> (Sum(r.value) == total <==> 0 <= total - Sum(CodeFloors(total, weights)) <= |weights|)
    ensures r.Ok? && Small(total, weights) ==> Sum(r.value) == total && Fair(total, weights, r.value)
    ensures r.Ok? ==> var keys := CodeKeys(total, weights);
              r.value == RaisedBy(CodeFloors(total, weights), Order(keys, |keys|),
                                  Sliced(|weights|, total - Sum(CodeFloors(total, weights))))
  {
    if Sum(weights) <= 0 {
      return Err(NonPositiveWeights);
    }
    var floors, keys := CodeFloors(total, weights), CodeKeys(total, weights);
    var shortfall := total - Sum(floors);
    var shares := RaiseFirst(floors, keys, Sliced(|weights|, shortfall));
    if Small(total, weights) {
      SmallIsExact(total, weights);
      KeyedFair(total, weights, keys);
    }
    r := Ok(shares);
  }

  lemma OnesSmall(total: int, parts: nat)
    requires Abs(total) + parts < TOP && Sum(seq(parts, _ => 1)) == parts
    ensures Small(total, seq(parts, _ => 1))
  {
    var ones := seq(parts, _ => 1);
    forall i | 0 <= i < |ones| ensures Abs(total * ones[i]) + Sum(ones) < TOP {
      assert total * ones[i] == total;
    }
  }

  /** Below 10^27 allocating by equal weights is splitting evenly. */
  method AllocateEqually(total: int, parts: nat) returns (shares: seq<int>)
    requires parts > 0
    ensures Abs(total) + parts < TOP ==> Ok(shares) == SplitEvenly(total, parts)
  {
    var ones := seq(parts, _ => 1);
    SumConst(parts, 1);
    var r := AllocateRemainder(total, ones);
    if Abs(total) + parts < TOP {
      OnesSmall(total, parts);
      EvenIsOnlyFair(total, parts, r.value);
    }
    shares := r.value;
  }

  // ---------------------------------------------------------------- where 28 digits show

  /** The key of a remainder of at most 28 digits after the point is that remainder. */
  lemma KeyOfDigits(m: nat, den: nat, digits: nat)
    requires den > 0 && TOP <= digits < 10 * TOP && m * Power(28) == digits * den
    ensures Value(Quotient(m, den)) == digits as real / Power(28) as real
  {
    PowerTop();
    MulLe(TOP, digits, den);
    MulLe(digits + 1, 10 * TOP, den);
    assert (digits + 1) * den == digits * den + den && (10 * TOP) * den == 10 * (den * TOP);
    assert digits * den > 0;
    assert m != 0;
    AtScale(m, den, 28);
    HalfEvenWhole(digits, den);
  }

  const THREES := 333_333_333_333_333_333_333_333_333

  /** One and a third: 27 threes are left for the key. */
  lemma FourThirds()
    ensures CodeFloor(8, 6) == 1 && CodeKey(8, 6) == (10 * THREES) as real / Power(28) as real
  {
    PowerTop();
    AtScale(8, 6, 27);
    assert HalfEven(8 * TOP, 6) == TOP + THREES;
    assert Quota(8, 6) == (TOP + THREES, TOP);
    DividesOnce(TOP + THREES, TOP, 1);
    KeyOfDigits(THREES, TOP, 10 * THREES);
  }

  /** A third: 28 of them. */
  lemma OneThird()
    ensures CodeFloor(2, 6) == 0 && CodeKey(2, 6) == (10 * THREES + 3) as real / Power(28) as real
  {
    PowerTop();
    AtScale(2, 6, 28);
    assert HalfEven(20 * TOP, 6) == 10 * THREES + 3;
    assert Quota(2, 6) == (10 * THREES + 3, 10 * TOP);
    DividesOnce(10 * THREES + 3, 10 * TOP, 0);
    KeyOfDigits(10 * THREES + 3, 10 * TOP, 10 * THREES + 3);
  }

  const TIED := [4, 1, 1]

  lemma TiedSum()
    ensures Sum(TIED) == 6
  {
    assert TIED[..2] == [4, 1] && [4, 1][..1] == [4] && [4][..0] == [];
    assert Sum([4]) == 4 && Sum([4, 1]) == 5;
  }

  lemma TiedOrder(keys: seq<real>)
    requires |keys| == 3 && keys[0] < keys[1] == keys[2]
    ensures Order(keys, 3) == [1, 2, 0]
  {
    assert Order(keys, 0) == [] && Order(keys, 1) == [0];
    assert [0][..0] == [] && Inserted([0], keys, 1) == [1, 0];
    assert Order(keys, 2) == [1, 0];
    assert [1, 0][..1] == [1] && Inserted([1], keys, 2) == [1, 2];
  }

  /**
   Two units over weights 4, 1 and 1: all three fractions are a third, but the first key has one digit
   less and sorts last, so the earliest of the tied positions goes without.
   */
  lemma TieByDigits()
    ensures Sum(TIED) == 6 && Small(2, TIED)
    ensures CodeFloors(2, TIED) == [1, 0, 0] && Fractions(2, TIED) == [2, 2, 2]
    ensures var keys := CodeKeys(2, TIED); RaisedBy(CodeFloors(2, TIED), Order(keys, |keys|), 1) == [1, 1, 0]
    ensures TieAcrossCut(2, TIED)
  {
    TiedSum();
    TiedCut();
    TiedFloors();
    TiedKeys();
    TiedOrder(CodeKeys(2, TIED));
    assert [1, 2, 0][..1] == [1];
  }

  lemma TiedCut()
    requires Sum(TIED) == 6
    ensures TieAcrossCut(2, TIED)
  {
    var fractions := Fractions(2, TIED);
    TiedFloors();
    SmallIsExact(2, TIED);
    assert [1, 0, 0][..2] == [1, 0] && [1, 0][..1] == [1] && [1][..0] == [];
    assert Sum([1]) == 1 && Sum([1, 0]) == 1 && Sum([1, 0, 0]) == 1;
    SumConst(3, 0);
    SumConst(3, 1);
    assert Above(fractions, 2) == seq(3, _ => 0) && Reaching(fractions, 2) == seq(3, _ => 1);
    assert TiedAt(fractions, TIED, Shortfall(2, TIED), 0, 1);
  }

  lemma TiedFloors()
    requires Sum(TIED) == 6
    ensures CodeFloors(2, TIED) == [1, 0, 0] && Fractions(2, TIED) == [2, 2, 2]
  {
    FourThirds();
    OneThird();
    var floors, fractions := CodeFloors(2, TIED), Fractions(2, TIED);
    assert floors[0] == CodeFloor(8, 6) && floors[1] == CodeFloor(2, 6) && floors[2] == CodeFloor(2, 6);
    assert fractions[0] == 8 % 6 && fractions[1] == 2 % 6 && fractions[2] == 2 % 6;
  }

  lemma TiedKeys()
    requires Sum(TIED) == 6
    ensures var keys := CodeKeys(2, TIED); |keys| == 3 && keys[0] < keys[1] == keys[2]
  {
    var keys := CodeKeys(2, TIED);
    FourThirds();
    OneThird();
    assert keys[0] == CodeKey(8, 6) && keys[1] == CodeKey(2, 6) && keys[2] == CodeKey(2, 6);
    Closer((10 * THREES) as real, (10 * THREES + 3) as real, Power(28) as real);
  }

  lemma Closer(a: real, b: real, d: real)
    requires d > 0.0 && a < b
    ensures a / d < b / d
  {
    var x, y := a / d, b / d;
    assert x * d == a && y * d == b;
    if x >= y { RealMulLe(y, x, d); }
  }

  const HUGE := 20 * TOP
  const ONES := [1, 1, 1]

  lemma HugeFloor()
    ensures CodeFloor(HUGE, 3) == 6 * TOP + 2 * THREES + 1
  {
    var q := 6 * TOP + 2 * THREES + 1;
    assert Product(HUGE) == HUGE by {
      assert HalfEven(HUGE, 10) == 2 * TOP;
      assert ScaledDown(HUGE, 10) == Decimal(2 * TOP, 1);
    }
    assert HalfEven(HUGE, 3) == q;
    assert Quotient(HUGE, 3) == Decimal(q, 1);
    DividesOnce(q, 1, q);
  }

  /** Beyond 28 digits the floors can exceed the total; the negative slice then raises two of three more. */
  lemma HugeOverpays()
    ensures Sum(ONES) == 3 && HUGE - Sum(CodeFloors(HUGE, ONES)) == -1
    ensures var keys := CodeKeys(HUGE, ONES);
            Sum(RaisedBy(CodeFloors(HUGE, ONES), Order(keys, |keys|), Sliced(3, -1))) == HUGE + 3
  {
    assert ONES == seq(3, _ => 1);
    SumConst(3, 1);
    var q, keys := 6 * TOP + 2 * THREES + 1, CodeKeys(HUGE, ONES);
    HugeFloor();
    assert CodeFloors(HUGE, ONES) == seq(3, _ => q);
    SumConst(3, q);
    RaisedSum(CodeFloors(HUGE, ONES), keys, 2);
  }
}
