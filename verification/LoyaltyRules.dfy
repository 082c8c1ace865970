/** One store's loyalty rules and the points they give: percents in 1/100, money in kopecks, rate in 1/10000. */
module LoyaltyRules {
  import opened Amounts
  import opened Money

  datatype Rules = Rules(
    mechanic: string, accrualPercent: int, minPurchase: int, minBalance: int, maxRedeemPercent: int, rate: int)

  /** LoyaltyConfig.Validate together with the column widths the put handler checks. */
  predicate InRange(r: Rules) {
    && r.mechanic != ""
    && 0 <= r.accrualPercent <= 10_000 && 0 <= r.minPurchase < 100_000_000_000_000_000_000
    && 0 <= r.minBalance && 0 <= r.maxRedeemPercent <= 10_000 && 0 < r.rate < 10_000_000_000
  }

  /** The only mechanic mechanicbuild.Build knows. */
  const MECHANIC: string := "points"

  predicate ValidRules(r: Rules) {
    InRange(r) && r.mechanic == MECHANIC
  }

  /** points.Mechanic on the amount as sent, whatever decimals it has: floored after rounding to 16 places. */
  function AccrualPoints(r: Rules, a: Amount): int
    requires ValidRules(r)
  {
    if a.units < r.minPurchase * a.per then 0
    else Wrap64(FloorOfQuotient(a.units * r.accrualPercent, 1_000_000 * a.per))
  }

  /** Redeem's cap on the amount as sent: one rounded division by 100, a second one by the rate. */
  function CapOf(a: Amount, percent: nat, rate: nat): int
    requires rate > 0
  {
    var portion := DivRound(a.units * percent, 1_000_000 * a.per);
    Wrap64(FloorOfQuotient(portion * 10_000, PLACES * rate))
  }

  /** The requested points, cut to the cap when the rules set one. */
  function CappedPoints(r: Rules, a: Amount, requested: int): int
    requires ValidRules(r)
  {
    if r.maxRedeemPercent > 0 && r.rate > 0 then
      var cap := CapOf(a, r.maxRedeemPercent, r.rate);
      if requested > cap then cap else requested
    else requested
  }

  // ---- Accrual ----

  lemma AmountBelow(a: Amount)
    ensures a.units < 100_000_000_000_000_000_000 * a.per
  {
    RoundedExactly(a.units, a.per, Stored(a));
    MulLe(Stored(a) + 1, 100_000_000_000_000_000_000, a.per);
    assert (Stored(a) + 1) * a.per == Stored(a) * a.per + a.per;
    assert 2 * Stored(a) * a.per == 2 * (Stored(a) * a.per);
  }

  lemma NoWrap(units: nat, per: nat, percent: nat)
    requires per > 0 && units < 100_000_000_000_000_000_000 * per && percent <= 10_000
    ensures units * percent / (1_000_000 * per) < 1_000_000_000_000_000_000
  {
    MulLe(percent, 10_000, units);
    assert units * percent == percent * units;
    DivAtLeast(units * percent, 1_000_000 * per, 1_000_000_000_000_000_000);
  }

  /**
   An accrual is never negative and never wraps; it is the floored share of the purchase, or one point more when
   that share is too close below a whole number for 16 places.
   */
  lemma AccrualPointsExact(r: Rules, a: Amount)
    requires ValidRules(r)
    ensures var n, d := a.units * r.accrualPercent, 1_000_000 * a.per;
            AccrualPoints(r, a) ==
            if a.units < r.minPurchase * a.per then 0
            else if d < 2 * PLACES * (d - n % d) then n / d
            else n / d + 1
    ensures AccrualPoints(r, a) >= 0
  {
    AmountBelow(a);
    NoWrap(a.units, a.per, r.accrualPercent);
    MulLe(0, r.accrualPercent, a.units);
    FloorOfQuotientExactly(a.units * r.accrualPercent, 1_000_000 * a.per);
  }

  lemma WholeQuotient(k: nat, percent: nat, per: nat)
    requires per > 0
    ensures DivRound(k * per * percent, 1_000_000 * per) == DivRound(k * percent, 1_000_000)
  {
    DivRoundScale(k * percent, 1_000_000, per);
    assert k * per * percent == k * percent * per;
  }

  /** In whole kopecks it is the exact floor of the stored amount's share. */
  lemma WholeAccrual(r: Rules, a: Amount)
    requires ValidRules(r) && Whole(a)
    ensures AccrualPoints(r, a) == StoredPoints(r, Stored(a))
  {
    WholeIs(a);
    WholeQuotient(Stored(a), r.accrualPercent, a.per);
    SameMultiple(Stored(a), r.minPurchase, a.per);
    AccruedExact(Stored(a), r.accrualPercent, r.minPurchase);
  }

  lemma FloorAtLeast(n: nat, d: nat, j: nat)
    requires d > 0
    ensures FloorOfQuotient(n, d) >= j <==> j * d <= n || 2 * PLACES * (j * d - n) <= d
  {
    var q, r := n / d, n % d;
    assert n == q * d + r;
    FloorOfQuotientExactly(n, d);
    if j <= q {
      MulLe(j, q, d);
    } else {
      assert (q + 1) * d == q * d + d;
      MulLe(q + 1, j, d);
      if j > q + 1 {
        MulLe(q + 2, j, d);
        assert (q + 2) * d == q * d + 2 * d;
      }
    }
  }

  /** What the mechanic would give for the stored amount. */
  function StoredPoints(r: Rules, kopecks: Kopecks): int
    requires ValidRules(r)
  {
    if kopecks < r.minPurchase then 0 else kopecks * r.accrualPercent / 1_000_000
  }

  /**
   Whether an amount as sent earns what it would as stored, in terms of the gap rounding closed and the part of a
   point the stored amount leaves: a sale lifted over the minimum purchase must be worth nothing, any other may
   neither lose the last point nor gain another, each within what 16 places resolve.
   */
  predicate EarnsAsStored(r: Rules, a: Amount)
    requires ValidRules(r)
  {
    var kopecks, part := Stored(a), Stored(a) * r.accrualPercent % 1_000_000;
    var lost := (kopecks * a.per - a.units) * r.accrualPercent;
    || kopecks < r.minPurchase
    || (if a.units < r.minPurchase * a.per then kopecks * r.accrualPercent < 1_000_000
        else LosesNothing(lost, part, a.per))
  }

  /** An amount that is stored below a whole number of kopecks was sent below it. */
  lemma SentBelow(a: Amount, kopecks: nat)
    requires Stored(a) < kopecks
    ensures a.units < kopecks * a.per
  {
    RoundedExactly(a.units, a.per, Stored(a));
    MulLe(Stored(a) + 1, kopecks, a.per);
    assert (Stored(a) + 1) * a.per == Stored(a) * a.per + a.per;
    assert 2 * Stored(a) * a.per == 2 * (Stored(a) * a.per);
  }

  /** The stored amount earns part/1000000 above whole points; sending less by `lost` keeps them and adds none. */
  predicate LosesNothing(lost: int, part: nat, per: nat) {
    && (lost <= part * per || 2 * PLACES * (lost - part * per) <= 1_000_000 * per)
    && 2 * PLACES * ((1_000_000 - part) * per + lost) > 1_000_000 * per
  }

  lemma SameFloor(n: nat, d: nat, k: nat, above: int)
    requires d > 0 && n == k * d + above
    ensures FloorOfQuotient(n, d) == k <==>
            (0 <= above || 2 * PLACES * (0 - above) <= d) && 2 * PLACES * (d - above) > d
  {
    FloorAtLeast(n, d, k);
    FloorAtLeast(n, d, k + 1);
    assert (k + 1) * d == k * d + d;
  }

  /** The sent amount against the stored one: n/d of the former is k whole points plus `above`. */
  lemma SentAgainstStored(units: nat, per: nat, percent: nat, kopecks: nat, k: nat, part: nat)
    requires kopecks * percent == k * 1_000_000 + part
    ensures units * percent == k * (1_000_000 * per) + (part * per - (kopecks * per - units) * percent)
  {
    assert (kopecks * per - units) * percent == kopecks * per * percent - units * percent;
    assert kopecks * per * percent == kopecks * percent * per;
    assert (k * 1_000_000 + part) * per == k * (1_000_000 * per) + part * per;
  }

  lemma SameFloorOfStored(units: nat, per: nat, percent: nat, kopecks: nat)
    requires per > 0
    ensures FloorOfQuotient(units * percent, 1_000_000 * per) == kopecks * percent / 1_000_000 <==>
            LosesNothing((kopecks * per - units) * percent, kopecks * percent % 1_000_000, per)
  {
    var k, part := kopecks * percent / 1_000_000, kopecks * percent % 1_000_000;
    var lost := (kopecks * per - units) * percent;
    SentAgainstStored(units, per, percent, kopecks, k, part);
    MulLe(0, percent, units);
    SameFloor(units * percent, 1_000_000 * per, k, part * per - lost);
    assert (1_000_000 - part) * per == 1_000_000 * per - part * per;
  }

  /** Exactly when a sale's row alone tells what the sale earned. */
  lemma EarnsAsStoredExactly(r: Rules, a: Amount)
    requires ValidRules(r)
    ensures AccrualPoints(r, a) == StoredPoints(r, Stored(a)) <==> EarnsAsStored(r, a)
  {
    if Stored(a) < r.minPurchase {
      SentBelow(a, r.minPurchase);
    } else if a.units >= r.minPurchase * a.per {
      SameFloorOfStored(a.units, a.per, r.accrualPercent, Stored(a));
      NeverWraps(r, a);
    }
  }

  lemma NeverWraps(r: Rules, a: Amount)
    requires ValidRules(r) && a.units >= r.minPurchase * a.per
    ensures AccrualPoints(r, a) == FloorOfQuotient(a.units * r.accrualPercent, 1_000_000 * a.per)
  {
    AmountBelow(a);
    NoWrap(a.units, a.per, r.accrualPercent);
    MulLe(0, r.accrualPercent, a.units);
    FloorOfQuotientExactly(a.units * r.accrualPercent, 1_000_000 * a.per);
  }

  // ---- The redeem cap ----

  lemma WholeCap(a: Amount, percent: nat, rate: nat)
    requires Whole(a) && rate > 0
    ensures CapOf(a, percent, rate) == RedeemCap(Stored(a), percent, rate)
  {
    WholeIs(a);
    WholeQuotient(Stored(a), percent, a.per);
  }

  lemma RoundAtLeast(n: nat, d: nat, j: int)
    requires d > 0
    ensures DivRound(n, d) >= j <==> 2 * n * PLACES + d >= 2 * (j * d)
  {
    var x := n * PLACES;
    var q, r := x / d, x % d;
    assert x == q * d + r;
    if j <= q {
      MulLe(j, q, d);
    } else {
      assert (q + 1) * d == q * d + d;
      if j > q + 1 {
        MulLe(q + 2, j, d);
        assert (q + 2) * d == q * d + 2 * d;
      }
    }
  }

  /** The two rounded divisions of the cap reach j points exactly when the first quotient reaches this. */
  function Threshold(rate: nat, j: nat): int {
    j * rate * 1_000_000_000_000 - rate / 20_000
  }

  lemma SecondDivision(portion: nat, rate: nat, j: nat)
    requires rate > 0
    ensures FloorOfQuotient(portion * 10_000, PLACES * rate) >= j <==> portion >= Threshold(rate, j)
  {
    FloorAtLeast(portion * 10_000, PLACES * rate, j);
    assert j * (PLACES * rate) == j * rate * 1_000_000_000_000 * 10_000;
  }

  /** n/d, the cap before rounding, has d = 100 * rate * per; the two divisions reach j like this. */
  lemma CapAtLeast(n: nat, per: nat, rate: nat, j: nat)
    requires per > 0 && rate > 0
    ensures FloorOfQuotient(DivRound(n, 1_000_000 * per) * 10_000, PLACES * rate) >= j <==>
            2 * n * PLACES + 1_000_000 * per >= 2 * (Threshold(rate, j) * (1_000_000 * per))
  {
    SecondDivision(DivRound(n, 1_000_000 * per), rate, j);
    RoundAtLeast(n, 1_000_000 * per, Threshold(rate, j));
  }

  /** j points at d each, in the units of Threshold. */
  lemma InThresholdUnits(per: nat, rate: nat, j: nat)
    ensures j * rate * 1_000_000_000_000 * (1_000_000 * per) == j * (100 * (rate * per)) * PLACES
  {
    assert j * rate * per == j * (rate * per);
  }

  /** Rounding never loses a point: the cap is at least the k points that fit and at most one more. */
  lemma CapNearFloor(n: nat, per: nat, rate: nat, d: nat, k: nat)
    requires per > 0 && rate > 0 && d == 100 * (rate * per) && k * d <= n < (k + 1) * d
    ensures k <= FloorOfQuotient(DivRound(n, 1_000_000 * per) * 10_000, PLACES * rate) < k + 2
  {
    ReachesFloor(n, per, rate, k, d);
    CapAtLeast(n, per, rate, k);
    MissesTwoMore(n, per, rate, k, d);
    CapAtLeast(n, per, rate, k + 2);
  }

  lemma ReachesFloor(n: nat, per: nat, rate: nat, k: nat, d: nat)
    requires per > 0 && d == 100 * (rate * per) && k * d <= n
    ensures 2 * n * PLACES + 1_000_000 * per >= 2 * (Threshold(rate, k) * (1_000_000 * per))
  {
    InThresholdUnits(per, rate, k);
    MulLe(Threshold(rate, k), k * rate * 1_000_000_000_000, 1_000_000 * per);
  }

  lemma MissesTwoMore(n: nat, per: nat, rate: nat, k: nat, d: nat)
    requires per > 0 && rate > 0 && d == 100 * (rate * per) && n < (k + 1) * d
    ensures 2 * n * PLACES + 1_000_000 * per < 2 * (Threshold(rate, k + 2) * (1_000_000 * per))
  {
    InThresholdUnits(per, rate, k + 1);
    assert (k + 2) * rate == (k + 1) * rate + rate;
    MulLe((k + 1) * rate * 1_000_000_000_000 + 1, Threshold(rate, k + 2), 1_000_000 * per);
    assert ((k + 1) * rate * 1_000_000_000_000 + 1) * (1_000_000 * per)
        == (k + 1) * rate * 1_000_000_000_000 * (1_000_000 * per) + 1_000_000 * per;
  }

  /** Whether rounding lifts a cap of k points and a fraction to the next point. */
  predicate Lifted(n: nat, per: nat, rate: nat, k: nat) {
    2 * n * PLACES + 1_000_000 * per >= 2 * (Threshold(rate, k + 1) * (1_000_000 * per))
  }

  lemma CapIs(n: nat, per: nat, rate: nat, d: nat, k: nat)
    requires per > 0 && rate > 0 && d == 100 * (rate * per) && k * d <= n < (k + 1) * d
    ensures FloorOfQuotient(DivRound(n, 1_000_000 * per) * 10_000, PLACES * rate) ==
            if Lifted(n, per, rate, k) then k + 1 else k
  {
    CapNearFloor(n, per, rate, d, k);
    CapAtLeast(n, per, rate, k + 1);
  }

  /** For every amount: the cap is the k points that fit or, exactly when lifted, one more, as int64 holds it. */
  lemma CapExactly(a: Amount, percent: nat, rate: nat, d: nat, k: nat)
    requires rate > 0 && d == 100 * (rate * a.per) && k * d <= a.units * percent < (k + 1) * d
    ensures CapOf(a, percent, rate) == Wrap64(if Lifted(a.units * percent, a.per, rate, k) then k + 1 else k)
  {
    MulLe(0, percent, a.units);
    CapIs(a.units * percent, a.per, rate, d, k);
  }

  /** A cap that fits int64 is the exact floor if and only if it is not lifted. */
  lemma CapIsFloorExactly(a: Amount, percent: nat, rate: nat, d: nat, k: nat)
    requires rate > 0 && d == 100 * (rate * a.per) && k * d <= a.units * percent < (k + 1) * d && k < INT64_LIMIT
    ensures CapOf(a, percent, rate) == k <==> !Lifted(a.units * percent, a.per, rate, k)
  {
    CapExactly(a, percent, rate, d, k);
    WrappedFloor(k);
  }

  lemma WrappedFloor(k: nat)
    requires k < INT64_LIMIT
    ensures Wrap64(k) == k != Wrap64(k + 1)
  {
  }

  lemma LargestWithin(n: nat, d: nat, requested: nat, k: nat, points: nat)
    requires k * d <= n < (k + 1) * d
    ensures points <= (if requested > k then k else requested) <==> points <= requested && points * d <= n
  {
    if points <= k {
      MulLe(points, k, d);
    } else {
      MulLe(k + 1, points, d);
    }
  }

  /** While the k points that fit are within int64 and not lifted, a redemption is the largest asked for and allowed. */
  lemma CappedPointsLargest(r: Rules, a: Amount, requested: nat, d: nat, k: nat, points: nat)
    requires ValidRules(r) && r.maxRedeemPercent > 0 && d == 100 * (r.rate * a.per)
    requires k * d <= a.units * r.maxRedeemPercent < (k + 1) * d
    requires k < INT64_LIMIT && !Lifted(a.units * r.maxRedeemPercent, a.per, r.rate, k)
    ensures points <= CappedPoints(r, a, requested) <==>
            points <= requested && points * d <= a.units * r.maxRedeemPercent
  {
    CapIsFloorExactly(a, r.maxRedeemPercent, r.rate, d, k);
    MulLe(0, r.maxRedeemPercent, a.units);
    LargestWithin(a.units * r.maxRedeemPercent, d, requested, k, points);
  }

  /** In whole kopecks only int64 can spoil it. */
  lemma WholeCappedPointsLargest(r: Rules, a: Amount, requested: nat, k: nat)
    requires ValidRules(r) && r.maxRedeemPercent > 0 && Whole(a)
    requires Stored(a) * r.maxRedeemPercent / (100 * r.rate) < INT64_LIMIT
    ensures k <= CappedPoints(r, a, requested)
       <==> k <= requested && k * r.rate * 100 <= Stored(a) * r.maxRedeemPercent
  {
    WholeCap(a, r.maxRedeemPercent, r.rate);
    RedeemCapLargest(Stored(a), r.maxRedeemPercent, r.rate, k);
  }
}
