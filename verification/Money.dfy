/**
 Exact integer reading of the decimal arithmetic: amounts in kopecks, percents in 1/100 of a
 percent, exchange rates in 1/10000. A decimal division rounds half up at 16 decimal places, so
 flooring its result is not obviously the floor of the true quotient.
 */
module Money {

  /** 10^16: one unit in the last place a decimal division keeps. */
  const PLACES: nat := 10_000_000_000_000_000

  const INT64_LIMIT: nat := 0x8000_0000_0000_0000

  /** Low 64 bits of x read as a signed integer. */
  function Wrap64(x: int): (r: int)
    ensures 0 - INT64_LIMIT <= r < INT64_LIMIT
    ensures r == x <==> 0 - INT64_LIMIT <= x < INT64_LIMIT
  {
    (x + INT64_LIMIT) % (2 * INT64_LIMIT) - INT64_LIMIT
  }

  function Min(a: int, b: int): int {
    if a < b then a else b
  }

  /** n/d rounded half up to 16 places, in units of the last place. */
  function DivRound(n: nat, d: nat): nat
    requires d > 0
  {
    var q := n * PLACES / d;
    if 2 * (n * PLACES % d) >= d then q + 1 else q
  }

  function FloorOfQuotient(n: nat, d: nat): nat
    requires d > 0
  {
    DivRound(n, d) / PLACES
  }

  lemma MulLe(x: int, y: int, d: nat)
    requires x <= y
    ensures x * d <= y * d
  {
  }

  lemma QuotientUnique(d: nat, q: int, r: int, q': int, r': int)
    requires 0 <= r < d && 0 <= r' < d && q * d + r == q' * d + r'
    ensures q == q' && r == r'
  {
    if q > q' {
      MulLe(q' + 1, q, d);
    } else if q < q' {
      MulLe(q + 1, q', d);
    }
  }

  lemma DivModUnique(n: int, d: nat, q: int, r: int)
    requires d > 0 && n == q * d + r && 0 <= r < d
    ensures n / d == q && n % d == r
  {
    QuotientUnique(d, q, r, n / d, n % d);
  }

  /** x/d >= k exactly when x >= k*d. */
  lemma DivAtLeast(x: nat, d: nat, k: nat)
    requires d > 0
    ensures x / d >= k <==> x >= k * d
  {
    var q, r := x / d, x % d;
    assert x == q * d + r;
    if q >= k {
      assert q * d >= k * d;
    } else {
      assert (q + 1) * d <= k * d;
    }
  }

  /** Rounding up carries the quotient to the next integer exactly when the remainder is that close to d. */
  lemma FloorOfQuotientExactly(n: nat, d: nat)
    requires d > 0
    ensures FloorOfQuotient(n, d) == if d < 2 * PLACES * (d - n % d) then n / d else n / d + 1
  {
    var a, b := n / d, n % d;
    var q, r := b * PLACES / d, b * PLACES % d;
    RoundingSplits(n, d, a, b, q, r);
    RoundsToNext(d, b, q, r);
    var up := if 2 * r >= d then 1 else 0;
    assert DivRound(n, d) == a * PLACES + q + up;
    if q + up == PLACES {
      DivModUnique(DivRound(n, d), PLACES, a + 1, 0);
    } else {
      DivModUnique(DivRound(n, d), PLACES, a, q + up);
    }
  }

  lemma RoundingSplits(n: nat, d: nat, a: nat, b: nat, q: nat, r: nat)
    requires n == a * d + b && b < d && b * PLACES == q * d + r && r < d
    ensures n * PLACES / d == a * PLACES + q && n * PLACES % d == r
  {
    assert n * PLACES == a * d * PLACES + b * PLACES;
    assert a * d * PLACES == a * PLACES * d;
    assert (a * PLACES + q) * d == a * PLACES * d + q * d;
    DivModUnique(n * PLACES, d, a * PLACES + q, r);
  }

  lemma RoundsToNext(d: nat, b: nat, q: nat, r: nat)
    requires b < d && b * PLACES == q * d + r && r < d
    ensures q < PLACES
    ensures q == PLACES - 1 && 2 * r >= d <==> d >= 2 * PLACES * (d - b)
  {
    if q >= PLACES {
      MulLe(PLACES, q, d);
    }
    var gap := d * PLACES - b * PLACES;
    assert gap == PLACES * (d - b);
    assert (PLACES - 1) * d == PLACES * d - d;
    if q < PLACES - 1 {
      MulLe(q + 1, PLACES - 1, d);
      assert (q + 1) * d == q * d + d;
    }
  }

  /** Every divisor below 2*10^16 is safe, whatever the dividend; from there on n = d - 1 comes out as 1. */
  lemma FloorOfQuotientSafeDivisors(d: nat)
    requires d > 0
    ensures d < 2 * PLACES <==> forall n: nat :: FloorOfQuotient(n, d) == n / d
  {
    forall n: nat | d < 2 * PLACES
      ensures FloorOfQuotient(n, d) == n / d
    {
      FloorOfQuotientExactly(n, d);
      assert 2 * PLACES * (d - n % d) >= 2 * PLACES;
    }
    if d >= 2 * PLACES {
      FloorOfQuotientExactly(d - 1, d);
      DivModUnique(d - 1, d, 0, d - 1);
      assert FloorOfQuotient(d - 1, d) != (d - 1) / d;
    }
  }

  lemma DivRoundMonotone(m: nat, n: nat, d: nat)
    requires d > 0 && m <= n
    ensures DivRound(m, d) <= DivRound(n, d)
  {
    var x, y := m * PLACES, n * PLACES;
    DivAtLeast(y, d, x / d);
    assert x == (x / d) * d + x % d;
    assert y == (y / d) * d + y % d;
    assert y / d >= x / d;
  }

  lemma DivMonotone(x: nat, y: nat, d: nat)
    requires d > 0 && x <= y
    ensures x / d <= y / d
  {
    DivAtLeast(y, d, x / d);
    assert x == (x / d) * d + x % d;
  }

  // ---- Refund share ----

  /** Points reversed once `refunded` of `amount` is refunded on an original worth `points`. */
  function Share(points: nat, refunded: nat, amount: nat): nat {
    if refunded == amount then points
    else if amount > 0 then FloorOfQuotient(points * refunded, amount)
    else 0
  }

  lemma FloorOfWhole(k: nat, d: nat)
    requires d > 0
    ensures FloorOfQuotient(k * d, d) == k
  {
    DivModUnique(k * d, d, k, 0);
    FloorOfQuotientExactly(k * d, d);
  }

  lemma FloorOfQuotientMonotone(m: nat, n: nat, d: nat)
    requires d > 0 && m <= n
    ensures FloorOfQuotient(m, d) <= FloorOfQuotient(n, d)
  {
    DivRoundMonotone(m, n, d);
    DivMonotone(DivRound(m, d), DivRound(n, d), PLACES);
  }

  lemma ShareAtMost(points: nat, t: nat, amount: nat)
    requires t <= amount && amount > 0
    ensures Share(points, t, amount) <= points && Share(points, 0, amount) == 0
  {
    MulLe(t, amount, points);
    FloorOfQuotientMonotone(points * t, points * amount, amount);
    FloorOfWhole(points, amount);
    FloorOfWhole(0, amount);
  }

  /** However the refunds are split, the reversed points only grow and never exceed the original's. */
  lemma ShareMonotone(points: nat, t1: nat, t2: nat, amount: nat)
    requires t1 <= t2 <= amount && amount > 0
    ensures Share(points, 0, amount) == 0
    ensures Share(points, t1, amount) <= Share(points, t2, amount) <= points
  {
    ShareAtMost(points, t1, amount);
    ShareAtMost(points, t2, amount);
    MulLe(t1, t2, points);
    FloorOfQuotientMonotone(points * t1, points * t2, amount);
  }

  /** The share is the exact floor precisely while the original amount is below 2*10^14 rubles. */
  lemma ShareIsFloor(amount: nat)
    requires amount > 0
    ensures amount < 2 * PLACES
       <==> forall points: nat, t: nat | t <= amount :: Share(points, t, amount) == points * t / amount
  {
    forall points: nat, t: nat | t <= amount && amount < 2 * PLACES
      ensures Share(points, t, amount) == points * t / amount
    {
      FloorOfQuotientSafeDivisors(amount);
      DivModUnique(points * amount, amount, points, 0);
    }
    if amount >= 2 * PLACES {
      FloorOfQuotientExactly(amount - 1, amount);
      DivModUnique(amount - 1, amount, 0, amount - 1);
      assert Share(1, amount - 1, amount) == 1;
      assert 1 * (amount - 1) / amount == 0;
    }
  }

  // ---- Accrual and the redeem cap ----

  /** points.Mechanic: amount * percent / 100, floored, or nothing below the minimum purchase. */
  function Accrued(amount: nat, percent: nat, minPurchase: nat): int {
    if amount < minPurchase then 0 else Wrap64(FloorOfQuotient(amount * percent, 1_000_000))
  }

  /** Redeem's cap: amount * percent / 100 is one division, then / rate is a second one. */
  function RedeemCap(amount: nat, percent: nat, rate: nat): int
    requires rate > 0
  {
    var portion := DivRound(amount * percent, 1_000_000);
    Wrap64(FloorOfQuotient(portion * 10_000, PLACES * rate))
  }

  /** Within NUMERIC(20,2) amounts and percents up to 100 an accrual is the exact floor and never wraps. */
  lemma AccruedExact(amount: nat, percent: nat, minPurchase: nat)
    requires amount < 100_000_000_000_000_000_000 && percent <= 10_000
    ensures Accrued(amount, percent, minPurchase)
         == if amount < minPurchase then 0 else amount * percent / 1_000_000
    ensures 0 <= Accrued(amount, percent, minPurchase)
  {
    FloorOfQuotientSafeDivisors(1_000_000);
    assert amount * percent <= amount * 10_000;
    DivAtLeast(amount * percent, 1_000_000, INT64_LIMIT);
  }

  lemma PortionExact(amount: nat, percent: nat)
    ensures DivRound(amount * percent, 1_000_000) == amount * percent * 10_000_000_000
  {
    var n := amount * percent;
    assert n * PLACES == (n * 10_000_000_000) * 1_000_000;
    DivModUnique(n * PLACES, 1_000_000, n * 10_000_000_000, 0);
  }

  /** DivRound depends on the quotient only, not on how it is written. */
  lemma Spread(q: int, d: int, r: int, k: int)
    ensures (q * d + r) * k == q * (d * k) + r * k
  {
    assert q * d * k == q * (d * k);
  }

  lemma MulLess(r: nat, d: nat, k: nat)
    requires r < d && k > 0
    ensures 0 <= r * k < d * k
  {
    assert (r + 1) * k == r * k + k;
    MulLe(r + 1, d, k);
  }

  lemma ScaledDivision(x: nat, d: nat, k: nat)
    requires d > 0 && k > 0
    ensures d * k > 0 && x * k / (d * k) == x / d && x * k % (d * k) == x % d * k
  {
    MulLess(x % d, d, k);
    Spread(x / d, d, x % d, k);
    DivModUnique(x * k, d * k, x / d, x % d * k);
  }

  lemma HalfScales(r: nat, d: nat, k: nat)
    requires k > 0
    ensures 2 * (r * k) >= d * k <==> 2 * r >= d
  {
    if 2 * r >= d {
      MulLe(d, 2 * r, k);
    } else {
      MulLe(2 * r + 1, d, k);
    }
    assert 2 * r * k == 2 * (r * k);
  }

  lemma DivRoundScale(n: nat, d: nat, k: nat)
    requires d > 0 && k > 0
    ensures d * k > 0 && DivRound(n * k, d * k) == DivRound(n, d)
  {
    ScaledDivision(n * PLACES, d, k);
    HalfScales(n * PLACES % d, d, k);
    assert n * k * PLACES == n * PLACES * k;
  }

  /** For every rate NUMERIC(10,4) admits the two rounded divisions give the true floor; only int64 can spoil it. */
  lemma RedeemCapExact(amount: nat, percent: nat, rate: nat)
    requires 0 < rate < 10_000_000_000
    ensures RedeemCap(amount, percent, rate) == Wrap64(amount * percent / (100 * rate))
    ensures RedeemCap(amount, percent, rate) == amount * percent / (100 * rate)
       <==> amount * percent / (100 * rate) < INT64_LIMIT
  {
    var n := amount * percent;
    PortionExact(amount, percent);
    var k: nat := 100_000_000_000_000;
    assert n * 10_000_000_000 * 10_000 == n * k;
    assert PLACES * rate == 100 * rate * k;
    DivRoundScale(n, 100 * rate, k);
    FloorOfQuotientSafeDivisors(100 * rate);
    assert FloorOfQuotient(n, 100 * rate) == n / (100 * rate);
  }

  /** The cap is the largest number of points whose value stays within the allowed part of the purchase. */
  lemma RedeemCapLargest(amount: nat, percent: nat, rate: nat, k: nat)
    requires 0 < rate < 10_000_000_000
    requires amount * percent / (100 * rate) < INT64_LIMIT
    ensures k <= RedeemCap(amount, percent, rate) <==> k * rate * 100 <= amount * percent
  {
    RedeemCapExact(amount, percent, rate);
    DivAtLeast(amount * percent, 100 * rate, k);
    assert k * (100 * rate) == k * rate * 100;
  }
}
