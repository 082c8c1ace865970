/**
 Clients in debt: how they get there, which of their requests the balance guard rejects although nothing else is wrong
 with them, and what such a rejection does to a register that waits for it.
 */
module LedgerDebt {
  import opened Rows
  import opened Amounts
  import opened Ledger
  import opened LedgerSafety
  import opened Replay
  import Money
  import OfflineQueue

  // ---- Which requests the guard rejects ----

  ghost predicate InDebtByRefund(rows: seq<Row>, client: int) {
    exists i :: IsLastRow(rows, client, i) && i >= 0 && RefundsAccrual(rows, i)
  }

  lemma DebtByRefund(steps: seq<Step>, policy: Policy, client: int)
    requires BalanceOf(Reached(steps, policy), client) < 0
    ensures InDebtByRefund(Reached(steps, policy).rows, client)
  {
    var i := DebtComesFromAccrualRefund(steps, policy, client);
  }

  /** A new sale is rejected exactly when its points do not clear a debt, which only the refund of an accrual makes. */
  lemma SaleRejectedExactly(steps: seq<Step>, policy: Policy, req: Request, now: int)
    requires req.AccrueReq?
    ensures var db := Reached(steps, policy);
            && (Checks(db, req, now, policy) == Some(InsufficientBalance) <==>
                BalanceOf(db, req.client) + req.points < 0)
            && (Checks(db, req, now, policy) == None <==>
                BalanceOf(db, req.client) + req.points >= 0 && !Taken(db.rows, req.store, Accrual, req.ext))
            && (Checks(db, req, now, policy) == Some(InsufficientBalance) ==> InDebtByRefund(db.rows, req.client))
  {
    var db := Reached(steps, policy);
    if BalanceOf(db, req.client) + req.points < 0 {
      DebtByRefund(steps, policy, req.client);
    }
  }

  /** So is the refund of a redeem, exactly when the points it gives back do not clear the debt. */
  lemma RedeemRefundRejectedExactly(steps: seq<Step>, policy: Policy, req: Request, now: int)
    requires req.RefundReq? && OriginalCheck(Reached(steps, policy).rows, req) == None
    requires Reached(steps, policy).rows[req.id].kind == Redeem
    ensures var db := Reached(steps, policy);
            var o := db.rows[req.id];
            var returned := Cumulative(o, req.amount) - o.refundedPoints;
            && (Checks(db, req, now, policy) == Some(InsufficientBalance) <==> BalanceOf(db, o.client) + returned < 0)
            && (Stored(req.amount) > 0 ==> returned >= 0)
            && (Checks(db, req, now, policy) == Some(InsufficientBalance) && returned >= 0 ==>
                  InDebtByRefund(db.rows, o.client))
  {
    var db := Reached(steps, policy);
    var o := db.rows[req.id];
    ReachedInv(steps, policy);
    assert RowOk(db.rows, req.id);
    TotalsGrow(o, req.amount);
    if BalanceOf(db, o.client) < 0 {
      DebtByRefund(steps, policy, o.client);
    }
  }

  // ---- Such a run ----

  const POLICY: Policy := Policy(0, 0)
  const HUNDRED: Amount := Raw(10_000, 1)
  const SALE: Request := AccrueReq(1, 1, "s", HUNDRED, 10, "", Some(1), None)
  const SPEND: Request := RedeemReq(1, 1, "p", HUNDRED, 10, "", Some(1), 0)
  const RETURN: Request := RefundReq(1, "r", HUNDRED, "", 0)
  const HISTORY: seq<Step> := [Step(SALE, 0), Step(SPEND, 1), Step(RETURN, 2)]

  lemma Sold()
    ensures var db := Reached([Step(SALE, 0)], POLICY);
            && |db.rows| == 1 && db.rows[0] == RowFor(SALE, None, 0, 10) && BalanceOf(db, 1) == 10
  {
    OneSale(Step(SALE, 0), POLICY);
  }

  lemma Spent()
    ensures var db := Reached([Step(SALE, 0), Step(SPEND, 1)], POLICY);
            && |db.rows| == 2 && db.rows[0] == RowFor(SALE, None, 0, 10) && db.rows[1] == RowFor(SPEND, None, 1, 0)
            && BalanceOf(db, 1) == 0
  {
    Sold();
    RunSnoc(EMPTY, [Step(SALE, 0)], Step(SPEND, 1), POLICY);
    assert [Step(SALE, 0)] + [Step(SPEND, 1)] == [Step(SALE, 0), Step(SPEND, 1)];
  }

  lemma Returned()
    ensures var db := Reached(HISTORY, POLICY);
            |db.rows| == 3 && db.rows[1] == RowFor(SPEND, None, 1, 0) && BalanceOf(db, 1) == -10
  {
    Spent();
    RunSnoc(EMPTY, [Step(SALE, 0), Step(SPEND, 1)], Step(RETURN, 2), POLICY);
    assert [Step(SALE, 0), Step(SPEND, 1)] + [Step(RETURN, 2)] == HISTORY;
  }

  /**
   A sale worth 10 points, all of them spent, the sale returned: the client owes 10. The next sale, worth 5, and the
   return of half the redemption are both rejected.
   */
  lemma DebtIsReached()
    ensures var db := Reached(HISTORY, POLICY);
            && BalanceOf(db, 1) == -10
            && Checks(db, AccrueReq(1, 1, "t", HUNDRED, 5, "", Some(1), None), 3, POLICY) == Some(InsufficientBalance)
            && Checks(db, RefundReq(1, "q", Raw(5_000, 1), "", 1), 3, POLICY) == Some(InsufficientBalance)
  {
    Returned();
    var half := Raw(5_000, 1);
    var spent := RowFor(SPEND, None, 1, 0);
    Money.ShareIsFloor(10_000);
    assert Cumulative(spent, half) == Money.Share(10, 5_000, 10_000) == 5;
  }

  // ---- What it costs the register ----

  /** handleAccrueTransaction: only an idempotency conflict has a status of its own. */
  function SaleStatus(reply: Reply<Accrued>): int {
    match reply
    case Ok(_) => 200
    case Err(IdempotencyConflict) => 409
    case _ => 500
  }

  /** handleRefundTransaction. */
  function RefundStatus(reply: Reply<Reversed>): int {
    match reply
    case Ok(_) => 200
    case Err(AmbiguousOriginal) => 400
    case Err(IdempotencyConflict) => 409
    case Err(Rejected(CannotRefundRefund)) => 400
    case Err(Rejected(NotFound)) => 404
    case Err(Rejected(OverRefund)) => 422
    case Err(Rejected(InsufficientBalance)) => 422
    case _ => 500
  }

  /** 429 and 5xx are retried, every other status is an answer. */
  function LinkOf(status: int): OfflineQueue.Link {
    if status == 429 || status >= 500 then OfflineQueue.Busy else OfflineQueue.Answered(200 <= status < 300)
  }

  /** How an attempt at a new sale ends that finds the ledger after these steps. */
  function SaleLink(steps: seq<Step>, policy: Policy, req: Request, now: int): OfflineQueue.Link
    requires req.AccrueReq?
  {
    var db := Reached(steps, policy);
    match Checks(db, req, now, policy)
    case None => LinkOf(SaleStatus(Ok(Accrued(req.client, req.points, BalanceOf(db, req.client) + req.points, false))))
    case Some(error) => LinkOf(SaleStatus(Err(Rejected(error))))
  }

  /** A new sale fails transiently exactly while the debt lasts; a refund rejected for it is answered and dropped. */
  lemma DebtIsTransientForSales(steps: seq<Step>, policy: Policy, req: Request, now: int)
    requires req.AccrueReq? && !Taken(Reached(steps, policy).rows, req.store, Accrual, req.ext)
    ensures SaleLink(steps, policy, req, now) ==
            if BalanceOf(Reached(steps, policy), req.client) + req.points < 0 then OfflineQueue.Busy
            else OfflineQueue.Answered(true)
    ensures LinkOf(RefundStatus(Err(Rejected(InsufficientBalance)))) == OfflineQueue.Answered(false)
  {
    SaleRejectedExactly(steps, policy, req, now);
  }

  /** The request an attempt at this sale makes of the ledger; its points follow the rules live at that attempt. */
  predicate AttemptAt(req: Request, store: int, client: int, op: OfflineQueue.Op) {
    && op.SaleOp? && op.amount > 0 && req.AccrueReq? && req.store == store && req.client == client && req.ext == op.id
    && req.amount.units == op.amount && req.amount.per == 1
  }

  /** An attempt that finds the ledger after these steps with the client in debt beyond the points of the sale. */
  ghost predicate DebtAt(link: OfflineQueue.Link, steps: seq<Step>, now: int, req: Request, policy: Policy, store: int,
                         client: int, op: OfflineQueue.Op) {
    && AttemptAt(req, store, client, op) && link == SaleLink(steps, policy, req, now)
    && BalanceOf(Reached(steps, policy), client) + req.points < 0
  }

  /** Every attempt is lost or meets the debt, whatever the ledger and the rules did in between. */
  ghost predicate MeetsDebt(links: seq<OfflineQueue.Link>, policy: Policy, store: int, client: int,
                            op: OfflineQueue.Op) {
    forall k | 0 <= k < |links| ::
      links[k].RequestLost? || exists steps, now, req :: DebtAt(links[k], steps, now, req, policy, store, client, op)
  }

  lemma DebtIsSilent(links: seq<OfflineQueue.Link>, policy: Policy, store: int, client: int, op: OfflineQueue.Op)
    requires MeetsDebt(links, policy, store, client, op)
    ensures OfflineQueue.Silent(links)
  {
    forall k | 0 <= k < |links| && !links[k].RequestLost?
      ensures links[k].Busy?
    {
      var steps, now, req :| DebtAt(links[k], steps, now, req, policy, store, client, op);
      SaleRejectedExactly(steps, policy, req, now);
    }
  }

  /** As long as the sale at the head of the queue meets the debt, the register queues everything behind it. */
  lemma {:induction false} DebtBlocksTheRegister(s: OfflineQueue.Till, commands: seq<OfflineQueue.Command>,
                                                 policy: Policy, store: int, client: int)
    requires s.queue != [] && s.queue[0].SaleOp?
    requires forall i | 0 <= i < |commands| ::
      MeetsDebt(OfflineQueue.Links(commands[i].drain.plan, 0), policy, store, client, s.queue[0])
    ensures OfflineQueue.Exec(s, commands) ==
            OfflineQueue.Till(s.made + OfflineQueue.Rung(commands), s.queue + OfflineQueue.Rung(commands), s.server)
  {
    forall i | 0 <= i < |commands|
      ensures OfflineQueue.Silent(OfflineQueue.Links(commands[i].drain.plan, 0))
    {
      DebtIsSilent(OfflineQueue.Links(commands[i].drain.plan, 0), policy, store, client, s.queue[0]);
    }
    OfflineQueue.HeadBlocksTheRegister(s, commands);
  }
}
