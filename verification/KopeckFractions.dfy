/** Refunds below a kopeck: points left on an original that is closed, and points a later refund takes back. */
module KopeckFractions {
  import opened Rows
  import opened Amounts
  import opened Ledger
  import opened LedgerSafety
  import Money

  const POLICY: Policy := Policy(0, 0)

  lemma ShareIs(points: nat, t: nat, d: nat, quotient: nat, remainder: nat)
    requires t < d < 2 * Money.PLACES && points * t == quotient * d + remainder && remainder < d
    ensures Money.Share(points, t, d) == quotient
  {
    Money.DivModUnique(points * t, d, quotient, remainder);
    Money.FloorOfQuotientSafeDivisors(d);
    assert Money.FloorOfQuotient(points * t, d) == points * t / d;
  }

  // ---- A point left behind ----

  const PURCHASE: Request := AccrueReq(1, 1, "s", Raw(10_000, 1), 10, "", Some(1), None)
  const NEARLY: Request := RefundReq(1, "r", Raw(9_999_600, 1_000), "", 0)

  /**
   100.00 worth 10 points, 99.996 refunded: the books say 100.00 is refunded, 9 points are, no further refund is
   admitted and no later request changes it.
   */
  lemma PointLeftBehind(later: seq<Step>, amount: Amount, ext: string)
    ensures var db := Reached([Step(PURCHASE, 0)] + [Step(NEARLY, 1)], POLICY);
            && |db.rows| == 2 && db.rows[0].delta == 10 && db.rows[0].amount == db.rows[0].refundedAmount == 10_000
            && db.rows[0].refundedPoints == 9 && !db.rows[1].fully
            && OriginalCheck(db.rows, RefundReq(1, ext, amount, "", 0)) == Some(OverRefund)
            && |Run(db, later, POLICY).rows| >= 1 && Run(db, later, POLICY).rows[0] == db.rows[0]
  {
    OneSale(Step(PURCHASE, 0), POLICY);
    var original := RowFor(PURCHASE, None, 0, 10);
    RoundedExactly(9_999_600, 1_000, 10_000);
    ShareIs(10, 9_999_600, 10_000_000, 9, 9_996_000);
    assert Cumulative(original, NEARLY.amount) == 9;
    OneRefund([Step(PURCHASE, 0)], Step(NEARLY, 1), POLICY);
    RunSnoc(EMPTY, [Step(PURCHASE, 0)], Step(NEARLY, 1), POLICY);
    ClosedForGood(Reached([Step(PURCHASE, 0)] + [Step(NEARLY, 1)], POLICY), later, POLICY, 0);
  }

  // ---- Points taken back ----

  predicate Earns(req: Request) {
    req.AccrueReq? && req.store == 1 && req.client == 1 && req.points == 10_000
  }

  predicate Spending(req: Request) {
    && req.RedeemReq? && req.store == 1 && req.client == 1 && req.amount == Raw(100, 1) && req.debit == 10_000
    && req.minBalance == 0
  }

  /** A refund of that many tenths of a kopeck. */
  predicate GivesTenths(req: Request, ext: string, tenths: nat) {
    req.RefundReq? && req.id == 1 && req.store == 1 && req.ext == ext && req.amount == Raw(tenths, 10)
  }

  /** 10000 points of client 1 spent on 1.00, `reversed` of them given back by refunds too small for the books. */
  predicate SpentRow(r: Row, reversed: nat) {
    && r.kind == Redeem && r.store == 1 && r.client == 1 && r.amount == 100 && r.delta == -10_000
    && r.refundedAmount == 0 && r.refundedPoints == reversed
  }

  predicate AfterSpending(db: Db, reversed: nat) {
    && |db.rows| >= 2 && SpentRow(db.rows[1], reversed) && BalanceOf(db, 1) == reversed
    && !Taken(db.rows, 1, Refund, "r")
  }

  lemma Spends(db: Db, req: Request, now: int)
    requires |db.rows| == 1 && db.rows[0].kind == Accrual && BalanceOf(db, 1) == 10_000 && Spending(req)
    ensures var next := After(db, req, now, POLICY);
            |next.rows| == 2 && AfterSpending(next, 0) && next.rows[0].kind == Accrual
  {
  }

  /** A refund of a redeem that brings its reversed points to c. */
  lemma RedeemRefunded(db: Db, req: Request, now: int, c: nat)
    requires req.RefundReq? && OriginalCheck(db.rows, req) == None && db.rows[req.id].kind == Redeem
    requires !Taken(db.rows, req.store, Refund, req.ext) && Cumulative(db.rows[req.id], req.amount) == c
    requires BalanceOf(db, db.rows[req.id].client) + c - db.rows[req.id].refundedPoints >= 0
    ensures var o, next := db.rows[req.id], After(db, req, now, POLICY);
            && |next.rows| == |db.rows| + 1
            && next.rows[req.id] == WithTotals(o, req.amount) && next.rows[req.id].refundedPoints == c
            && (forall i | 0 <= i < |db.rows| && i != req.id :: next.rows[i] == db.rows[i])
            && next.rows[|db.rows|].kind == Refund && next.rows[|db.rows|].ext == req.ext
            && next.rows[|db.rows|].delta == c - o.refundedPoints
            && BalanceOf(next, o.client) == BalanceOf(db, o.client) + c - o.refundedPoints
  {
  }

  /** A fraction below half a kopeck, first on its original in the books, brings the points given back to `quotient`. */
  lemma FractionGivesBack(o: Row, a: Amount, quotient: nat, remainder: nat)
    requires o.refundedAmount == 0 && a.units < o.amount * a.per < 2 * Money.PLACES && 2 * a.units < a.per
    requires Abs(o.delta) * a.units == quotient * (o.amount * a.per) + remainder && remainder < o.amount * a.per
    ensures Cumulative(o, a) == quotient && WithTotals(o, a) == o.(refundedPoints := quotient)
  {
    ShareIs(Abs(o.delta), a.units, o.amount * a.per, quotient, remainder);
    RoundedExactly(a.units, a.per, 0);
  }

  lemma FractionRefunded(db: Db, req: Request, now: int, ext: string, tenths: nat, reversed: nat)
    requires AfterSpending(db, reversed) && 0 < tenths < 5 && GivesTenths(req, ext, tenths)
    requires !Taken(db.rows, 1, Refund, ext)
    ensures var next := After(db, req, now, POLICY);
            && |next.rows| == |db.rows| + 1 && SpentRow(next.rows[1], 10 * tenths) && BalanceOf(next, 1) == 10 * tenths
            && next.rows[|db.rows|].kind == Refund && next.rows[|db.rows|].delta == 10 * tenths - reversed
            && next.rows[|db.rows|].ext == ext
            && (forall i | 0 <= i < |db.rows| && i != 1 :: next.rows[i] == db.rows[i])
  {
    FractionGivesBack(db.rows[1], req.amount, 10 * tenths, 0);
    RedeemRefunded(db, req, now, 10 * tenths);
  }

  lemma EarnAndSpend(earn: Step, spend: Step)
    requires Earns(earn.req) && Spending(spend.req)
    ensures var db := Reached([earn] + [spend], POLICY);
            |db.rows| == 2 && AfterSpending(db, 0) && db.rows[0].kind == Accrual
  {
    OneSale(earn, POLICY);
    RunSnoc(EMPTY, [earn], spend, POLICY);
    Spends(Reached([earn], POLICY), spend.req, spend.now);
  }

  lemma RefundStage(steps: seq<Step>, refund: Step, ext: string, tenths: nat, reversed: nat)
    requires AfterSpending(Reached(steps, POLICY), reversed) && 0 < tenths < 5 && GivesTenths(refund.req, ext, tenths)
    requires !Taken(Reached(steps, POLICY).rows, 1, Refund, ext)
    ensures var rows, db := Reached(steps, POLICY).rows, Reached(steps + [refund], POLICY);
            && |db.rows| == |rows| + 1 && SpentRow(db.rows[1], 10 * tenths) && BalanceOf(db, 1) == 10 * tenths
            && db.rows[|rows|].kind == Refund && db.rows[|rows|].delta == 10 * tenths - reversed
            && db.rows[|rows|].ext == ext && (forall i | 0 <= i < |rows| && i != 1 :: db.rows[i] == rows[i])
  {
    RunSnoc(EMPTY, steps, refund, POLICY);
    FractionRefunded(Reached(steps, POLICY), refund.req, refund.now, ext, tenths, reversed);
  }

  /** 10000 points spent on 1.00; 0.004 of it refunded gives 40 back, a further 0.001 takes 30 of them again. */
  lemma PointsTakenBack(earn: Step, spend: Step, larger: Step, smaller: Step)
    requires Earns(earn.req) && Spending(spend.req)
    requires GivesTenths(larger.req, "q", 4) && GivesTenths(smaller.req, "r", 1)
    ensures var db := Reached([earn] + [spend] + [larger] + [smaller], POLICY);
            && |db.rows| == 4 && SpentRow(db.rows[1], 10) && BalanceOf(db, 1) == 10
            && db.rows[2].delta == 40 && db.rows[3].delta == -30
  {
    var two := [earn] + [spend];
    var three := two + [larger];
    EarnAndSpend(earn, spend);
    NoRefundYet(Reached(two, POLICY).rows, "q");
    RefundStage(two, larger, "q", 4, 0);
    OneOtherRefund(Reached(three, POLICY).rows);
    RefundStage(three, smaller, "r", 1, 40);
  }

  lemma NoRefundYet(rows: seq<Row>, ext: string)
    requires |rows| == 2 && rows[0].kind == Accrual && rows[1].kind == Redeem
    ensures !Taken(rows, 1, Refund, ext)
  {
  }

  lemma OneOtherRefund(rows: seq<Row>)
    requires |rows| == 3 && rows[0].kind == Accrual && rows[1].kind == Redeem && rows[2].ext == "q"
    ensures !Taken(rows, 1, Refund, "r")
  {
  }
}
