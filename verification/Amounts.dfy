/** Amounts as requests carry them, with any number of decimals, and as a NUMERIC(20,2) column rounds them. */
module Amounts {
  import opened Money

  /** A stored amount in kopecks. */
  type Kopecks = x: int | 0 <= x < 100_000_000_000_000_000_000

  /** units / per kopecks. */
  datatype Raw = Raw(units: nat, per: nat)

  /** To the nearest kopeck, half a kopeck up. */
  function Rounded(units: nat, per: nat): nat
    requires per > 0
  {
    (2 * units + per) / (2 * per)
  }

  /** What the handlers accept and the column holds: a positive amount, with or without a fraction of a kopeck. */
  type Amount = a: Raw |
    a.units > 0 && a.per > 0 && Rounded(a.units, a.per) < 100_000_000_000_000_000_000 witness Raw(1, 1)

  function Stored(a: Amount): Kopecks {
    Rounded(a.units, a.per)
  }

  predicate Whole(a: Amount) {
    a.units % a.per == 0
  }

  /** A refunded total in units of the refund that is added to it. */
  function Total(refunded: nat, a: Amount): nat {
    refunded * a.per + a.units
  }

  lemma RoundedExactly(units: nat, per: nat, k: nat)
    requires per > 0
    ensures Rounded(units, per) == k <==> 2 * k * per <= 2 * units + per < 2 * k * per + 2 * per
  {
    var q, r := (2 * units + per) / (2 * per), (2 * units + per) % (2 * per);
    if 2 * k * per <= 2 * units + per < 2 * k * per + 2 * per {
      DivModUnique(2 * units + per, 2 * per, k, 2 * units + per - 2 * k * per);
    }
    assert q == k ==> q * (2 * per) == 2 * k * per;
  }

  /** An amount of k kopecks more rounds to k more. */
  lemma RoundedTotal(refunded: nat, a: Amount)
    ensures Rounded(Total(refunded, a), a.per) == refunded + Stored(a)
  {
    RoundedExactly(a.units, a.per, Stored(a));
    assert 2 * (refunded + Stored(a)) * a.per == 2 * refunded * a.per + 2 * Stored(a) * a.per;
    RoundedExactly(Total(refunded, a), a.per, refunded + Stored(a));
  }

  /** Rounding does not cross a whole number of kopecks. */
  lemma RoundedAtMost(units: nat, per: nat, kopecks: nat)
    requires per > 0 && units <= kopecks * per
    ensures Rounded(units, per) <= kopecks
  {
    DivMonotone(2 * units + per, 2 * (kopecks * per) + per, 2 * per);
    DivModUnique(2 * (kopecks * per) + per, 2 * per, kopecks, per);
  }

  /** Half a kopeck is the least that is stored as something. */
  lemma StoredAsSomething(a: Amount)
    ensures Stored(a) > 0 <==> 2 * a.units >= a.per
  {
    RoundedExactly(a.units, a.per, 0);
  }

  lemma WholeIs(a: Amount)
    ensures Whole(a) <==> a.units == Stored(a) * a.per
  {
    var k := a.units / a.per;
    if Whole(a) {
      assert a.units == k * a.per;
      RoundedExactly(a.units, a.per, k);
    } else if a.units == Stored(a) * a.per {
      DivModUnique(a.units, a.per, Stored(a), 0);
    }
  }

  // ---- Shares at different precisions ----

  lemma ShareScale(points: nat, t: nat, d: nat, k: nat)
    requires k > 0
    ensures Share(points, t * k, d * k) == Share(points, t, d)
  {
    if t != d {
      if t < d {
        MulLess(t, d, k);
      } else {
        MulLess(d, t, k);
      }
      if d > 0 {
        DivRoundScale(points * t, d, k);
        assert points * (t * k) == points * t * k;
      }
    }
  }

  /** A smaller part reverses no more, whatever precision each is written in. */
  lemma ShareLe(points: nat, t: nat, d: nat, s: nat, e: nat)
    requires d > 0 && e > 0 && t <= d && s <= e && t * e <= s * d
    ensures Share(points, t, d) <= Share(points, s, e) <= points
  {
    ShareScale(points, t, d, e);
    ShareScale(points, s, e, d);
    MulLe(s, e, d);
    MulLess(0, d, e);
    assert d * e == e * d;
    ShareMonotone(points, t * e, s * d, d * e);
    ShareMonotone(points, s, s, e);
  }

  /** A total of t against m half kopecks of the same original. */
  lemma ShareBelow(points: nat, t: nat, per: nat, m: nat, amount: nat)
    requires per > 0 && amount > 0 && t <= amount * per && m <= 2 * amount && 2 * t <= m * per
    ensures Share(points, t, amount * per) <= Share(points, m, 2 * amount)
  {
    MulLess(0, amount, per);
    MulLe(2 * t, m * per, amount);
    assert t * (2 * amount) == 2 * t * amount;
    assert m * (amount * per) == m * per * amount;
    ShareLe(points, t, amount * per, m, 2 * amount);
  }

  lemma ShareAbove(points: nat, t: nat, per: nat, m: nat, amount: nat)
    requires per > 0 && amount > 0 && t <= amount * per && m <= 2 * amount && m * per <= 2 * t
    ensures Share(points, m, 2 * amount) <= Share(points, t, amount * per)
  {
    MulLess(0, amount, per);
    MulLe(m * per, 2 * t, amount);
    assert t * (2 * amount) == 2 * t * amount;
    assert m * (amount * per) == m * per * amount;
    ShareLe(points, m, 2 * amount, t, amount * per);
  }

  /** A refund that still fits leaves the total below the original. */
  lemma TotalBelow(refunded: nat, a: Amount, amount: nat)
    requires Total(refunded, a) <= amount * a.per
    ensures refunded < amount
  {
    if refunded >= amount {
      MulLe(amount, refunded, a.per);
    }
  }

  lemma WholeTotal(refunded: nat, a: Amount)
    requires Whole(a)
    ensures Stored(a) > 0 && Total(refunded, a) == (refunded + Stored(a)) * a.per
  {
    WholeIs(a);
  }

  lemma SameMultiple(x: nat, y: nat, k: nat)
    requires k > 0
    ensures x * k == y * k <==> x == y
    ensures x * k <= y * k <==> x <= y
  {
    if x < y {
      MulLess(x, y, k);
    } else if y < x {
      MulLess(y, x, k);
    }
  }

  /** Part t of d reverses all the points exactly when it is all of d or too close to it for 16 places. */
  lemma ShareIsAll(points: nat, t: nat, d: nat)
    requires d > 0 && t <= d
    ensures Share(points, t, d) == points <==> t == d || points == 0 || 2 * PLACES * (points * (d - t)) <= d
  {
    var gap := points * (d - t);
    assert points * t == points * d - gap;
    if points == 0 {
      FloorOfWhole(0, d);
    } else if t < d {
      MulLess(0, d - t, points);
      MulLe(0, t, points);
      if gap <= d {
        NearlyAll(points, d, gap);
      } else {
        FarFromAll(points, d, gap);
      }
    }
  }

  lemma NearlyAll(points: nat, d: nat, gap: nat)
    requires 0 < gap <= d && points > 0 && gap <= points * d
    ensures FloorOfQuotient(points * d - gap, d) == points <==> 2 * PLACES * gap <= d
  {
    assert (points - 1) * d == points * d - d;
    DivModUnique(points * d - gap, d, points - 1, d - gap);
    FloorOfQuotientExactly(points * d - gap, d);
  }

  lemma FarFromAll(points: nat, d: nat, gap: nat)
    requires 0 < d < gap <= points * d
    ensures FloorOfQuotient(points * d - gap, d) < points
  {
    assert points > 0;
    assert (points - 1) * d == points * d - d;
    DivAtLeast(points * d - gap, d, points - 1);
    FloorOfQuotientExactly(points * d - gap, d);
  }
}
