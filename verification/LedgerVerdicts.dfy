/** What the ledger answers to a redemption and to a refund, in terms of the rows alone, in every reachable state. */
module LedgerVerdicts {
  import opened Rows
  import opened Amounts
  import opened Ledger
  import opened LedgerSafety

  // ---- The redemption limit ----

  /** Some redemptions of the client begun after `since` leave no room for `debit` more points. */
  ghost predicate NoRoom(rows: seq<Row>, client: int, since: int, debit: int, limit: int) {
    exists until :: Sum(rows, RedeemedWithin(client, since, until)) + debit > limit
  }

  lemma {:induction false} Latest(rows: seq<Row>) returns (until: int)
    ensures forall r | r in rows :: r.createdAt <= until
  {
    until := 0;
    if rows != [] {
      var last := rows[|rows| - 1];
      until := Latest(rows[..|rows| - 1]);
      until := if last.createdAt > until then last.createdAt else until;
      assert forall r | r in rows :: r == last || r in rows[..|rows| - 1];
    }
  }

  /** All redemptions since a moment are those up to the latest, and any earlier end leaves out only debits. */
  lemma SinceIsWithinLatest(rows: seq<Row>, client: int, since: int, debit: int, limit: int)
    requires RowsOk(rows)
    ensures Sum(rows, RedeemedSince(client, since)) + debit > limit <==> NoRoom(rows, client, since, debit, limit)
  {
    var until := Latest(rows);
    SumEq(rows, RedeemedSince(client, since), RedeemedWithin(client, since, until));
    RedeemsDebit(rows);
    forall u
      ensures Sum(rows, RedeemedWithin(client, since, u)) <= Sum(rows, RedeemedSince(client, since))
    {
      SumLe(rows, RedeemedWithin(client, since, u), RedeemedSince(client, since));
    }
  }

  /**
   A redemption is stopped by the limit exactly if it is on, the balance is high enough and the window has no room;
   by the balance exactly if that is below the minimum or, with room, below the debit; and else only by its key.
   */
  lemma RedemptionVerdict(steps: seq<Step>, policy: Policy, req: Request, now: int)
    requires req.RedeemReq?
    ensures var db := Reached(steps, policy);
            var balance, verdict := BalanceOf(db, req.client), Checks(db, req, now, policy);
            var full := policy.dailyLimit > 0
                        && NoRoom(db.rows, req.client, now - policy.window, req.debit, policy.dailyLimit);
            var short := balance < req.minBalance || (!full && balance < req.debit);
            && (verdict == Some(DailyLimitExceeded) <==> balance >= req.minBalance && full)
            && (verdict == Some(InsufficientBalance) <==> short)
            && (verdict == Some(Conflict) <==> !short && !full && Taken(db.rows, req.store, Redeem, req.ext))
            && (verdict == None <==> !short && !full && !Taken(db.rows, req.store, Redeem, req.ext))
  {
    var db := Reached(steps, policy);
    ReachedInv(steps, policy);
    VerdictOf(db, policy, req, now);
    SinceIsWithinLatest(db.rows, req.client, now - policy.window, req.debit, policy.dailyLimit);
  }

  /** The checks of a redemption in their order. */
  lemma VerdictOf(db: Db, policy: Policy, req: Request, now: int)
    requires req.RedeemReq?
    ensures Checks(db, req, now, policy) ==
            if BalanceOf(db, req.client) < req.minBalance then Some(InsufficientBalance)
            else if policy.dailyLimit > 0
                    && Sum(db.rows, RedeemedSince(req.client, now - policy.window)) + req.debit > policy.dailyLimit
              then Some(DailyLimitExceeded)
            else if BalanceOf(db, req.client) < req.debit then Some(InsufficientBalance)
            else if Taken(db.rows, req.store, Redeem, req.ext) then Some(Conflict)
            else None
  {
  }

  /** Redemptions that began a window ago or earlier do not count. */
  lemma OldRedemptionsDoNotCount(steps: seq<Step>, policy: Policy, req: Request, now: int)
    requires req.RedeemReq? && !Taken(Reached(steps, policy).rows, req.store, Redeem, req.ext)
    requires BalanceOf(Reached(steps, policy), req.client) >= req.minBalance
    requires BalanceOf(Reached(steps, policy), req.client) >= req.debit
    requires policy.dailyLimit > 0 ==> req.debit <= policy.dailyLimit
    requires forall r | r in Reached(steps, policy).rows ::
      r.client == req.client && r.kind == Redeem ==> r.createdAt <= now - policy.window
    ensures Checks(Reached(steps, policy), req, now, policy) == None
  {
    RedemptionVerdict(steps, policy, req, now);
    var rows, since := Reached(steps, policy).rows, now - policy.window;
    forall until
      ensures Sum(rows, RedeemedWithin(req.client, since, until)) == 0
    {
      forall i | 0 <= i < |rows|
        ensures RedeemedWithin(req.client, since, until)(rows[i]) == 0
      {
        assert rows[i] in rows;
      }
      SumTail(rows, 0, RedeemedWithin(req.client, since, until));
    }
  }

  /** A single recent redemption counts in full. */
  lemma RecentRedemptionCounts(steps: seq<Step>, policy: Policy, req: Request, now: int, r: Row)
    requires req.RedeemReq? && policy.dailyLimit > 0 && r in Reached(steps, policy).rows
    requires r.client == req.client && r.kind == Redeem && r.createdAt > now - policy.window
    requires req.debit - r.delta > policy.dailyLimit
    ensures var verdict := Checks(Reached(steps, policy), req, now, policy);
            verdict == Some(DailyLimitExceeded) || verdict == Some(InsufficientBalance)
  {
    var rows, since := Reached(steps, policy).rows, now - policy.window;
    RedemptionVerdict(steps, policy, req, now);
    ReachedInv(steps, policy);
    RedeemsDebit(rows);
    SumAtLeast(rows, RedeemedWithin(req.client, since, r.createdAt), r);
  }

  lemma {:induction false} SumAtLeast(rows: seq<Row>, weight: Row -> int, r: Row)
    requires r in rows && forall o | o in rows :: weight(o) >= 0
    ensures Sum(rows, weight) >= weight(r)
  {
    var init, last := rows[..|rows| - 1], rows[|rows| - 1];
    assert forall o | o in init :: o in rows;
    if r in init {
      SumAtLeast(init, weight, r);
    } else {
      assert r == last;
      SumLe(init, (o: Row) => 0, weight);
      SumTail(init, 0, (o: Row) => 0);
    }
  }

  // ---- Refunds ----

  /** The stages of a refund's verdict, each in terms of the rows: what is found, what is left, what is owed. */
  lemma RefundVerdict(steps: seq<Step>, policy: Policy, req: Request, now: int)
    requires req.RefundReq?
    ensures var db := Reached(steps, policy);
            var rows, verdict := db.rows, Checks(db, req, now, policy);
            var found := req.id < |rows| && rows[req.id].store == req.store;
            && (verdict == Some(NotFound) <==> !found)
            && (verdict == Some(CannotRefundRefund) <==> found && rows[req.id].kind == Refund)
            && (verdict == Some(OverRefund) <==>
                  found && rows[req.id].kind != Refund
                  && Sum(rows, AmountAgainst(req.id)) * req.amount.per + req.amount.units
                     > rows[req.id].amount * req.amount.per)
            && (verdict == Some(Conflict) ==> Taken(rows, req.store, Refund, req.ext))
            && (verdict == None ==> !Taken(rows, req.store, Refund, req.ext))
            && (verdict == Some(InsufficientBalance) ==> found && rows[req.id].kind == Redeem)
            && verdict != Some(DailyLimitExceeded)
  {
    ReachedInv(steps, policy);
    if req.id < |Reached(steps, policy).rows| {
      assert TotalsOk(Reached(steps, policy).rows, req.id);
    }
  }
}
