/**
 The points ledger: Post, PostRefund and PostRedeemChecked as atomic steps on the database, the
 repository that performs them statement by statement, and the runs made of such steps.
 */
module Ledger {
  import opened Rows
  import opened Amounts
  import Money

  datatype Template = PointsCredited | PointsDebited | RefundAdjusted | AppInvite

  /** An outbox entry: who is told, with which text, about how many points. */
  datatype Notice = Notice(client: int, template: Template, points: int)

  datatype Db = Db(balances: map<int, int>, rows: seq<Row>, outbox: map<string, Notice>)

  const EMPTY: Db := Db(map[], [], map[])

  /** The redemption limit over a rolling window; a limit of zero or less switches it off. */
  datatype Policy = Policy(dailyLimit: int, window: nat)

  type Points = x: int | x > 0 witness 1

  /** What the loyalty service asks of the ledger, with the notification it attaches left to Notices. */
  datatype Request =
    | AccrueReq(store: int, client: int, ext: string, amount: Amount, points: nat, fingerprint: string,
                rule: Option<int>, invite: Option<string>)
    | RedeemReq(store: int, client: int, ext: string, amount: Amount, debit: Points, fingerprint: string,
                rule: Option<int>, minBalance: int)
    | RefundReq(store: int, ext: string, amount: Amount, fingerprint: string, id: nat)

  datatype Error =
    | NotFound | CannotRefundRefund | OverRefund | InsufficientBalance | DailyLimitExceeded | Conflict

  datatype Outcome = Committed(db: Db) | Failed(error: Error)

  // ---- The checks, in the order the statements make them ----

  function BalanceOf(db: Db, client: int): int {
    if client in db.balances then db.balances[client] else 0
  }

  predicate HasKey(r: Row, store: int, kind: Kind, ext: string) {
    r.store == store && r.kind == kind && r.ext == ext
  }

  predicate Taken(rows: seq<Row>, store: int, kind: Kind, ext: string) {
    exists i | 0 <= i < |rows| :: HasKey(rows[i], store, kind, ext)
  }

  function KindOf(req: Request): Kind {
    match req
    case AccrueReq(_, _, _, _, _, _, _, _) => Accrual
    case RedeemReq(_, _, _, _, _, _, _, _) => Redeem
    case RefundReq(_, _, _, _, _) => Refund
  }

  /** The original row as a refund finds it: of the same store, not a refund, with enough left to refund. */
  function OriginalCheck(rows: seq<Row>, req: Request): Option<Error> {
    if !req.RefundReq? then None
    else if req.id >= |rows| || rows[req.id].store != req.store then Some(NotFound)
    else if rows[req.id].kind == Refund then Some(CannotRefundRefund)
    else if Total(rows[req.id].refundedAmount, req.amount) > rows[req.id].amount * req.amount.per then Some(OverRefund)
    else None
  }

  /** Eligibility of a redemption, read under the balance lock. */
  function LimitCheck(points: int, rows: seq<Row>, req: Request, now: int, policy: Policy): Option<Error> {
    if !req.RedeemReq? then None
    else if points < req.minBalance then Some(InsufficientBalance)
    else if policy.dailyLimit > 0
            && Sum(rows, RedeemedSince(req.client, now - policy.window)) + req.debit > policy.dailyLimit
      then Some(DailyLimitExceeded)
    else None
  }

  /** refunded_points of the original once `amount` more is refunded, computed before any rounding. */
  function Cumulative(original: Row, amount: Amount): nat {
    Money.Share(Abs(original.delta), Total(original.refundedAmount, amount), original.amount * amount.per)
  }

  predicate Refers(rows: seq<Row>, req: Request) {
    req.RefundReq? ==> req.id < |rows|
  }

  /** The original row a refund works on, as it reads it under the lock; no other request has one. */
  function Target(rows: seq<Row>, req: Request): (target: Option<Row>)
    ensures Refers(rows, req) ==> Suits(req, target)
  {
    if req.RefundReq? && req.id < |rows| then Some(rows[req.id]) else None
  }

  predicate Suits(req: Request, target: Option<Row>) {
    req.RefundReq? <==> target.Some?
  }

  function ClientFor(req: Request, target: Option<Row>): int
    requires Suits(req, target)
  {
    if req.RefundReq? then target.value.client else req.client
  }

  function DeltaFor(req: Request, target: Option<Row>): int
    requires Suits(req, target)
  {
    match req
    case AccrueReq(_, _, _, _, points, _, _, _) => points
    case RedeemReq(_, _, _, _, debit, _, _, _) => 0 - debit
    case RefundReq(_, _, amount, _, _) =>
      var share := Cumulative(target.value, amount) - target.value.refundedPoints;
      if target.value.kind == Accrual then -share else share
  }

  /** Only the refund of an accrual may leave the balance negative. */
  predicate GuardedFor(req: Request, target: Option<Row>)
    requires Suits(req, target)
  {
    req.RefundReq? ==> target.value.kind != Accrual
  }

  function ClientOf(rows: seq<Row>, req: Request): int
    requires Refers(rows, req)
  {
    ClientFor(req, Target(rows, req))
  }

  function Delta(rows: seq<Row>, req: Request): int
    requires Refers(rows, req)
  {
    DeltaFor(req, Target(rows, req))
  }

  predicate Guarded(rows: seq<Row>, req: Request)
    requires Refers(rows, req)
  {
    GuardedFor(req, Target(rows, req))
  }

  /** What the statements all three operations end with can reject. */
  function SettleError(db: Db, req: Request, target: Option<Row>): Option<Error>
    requires Suits(req, target)
  {
    if GuardedFor(req, target) && BalanceOf(db, ClientFor(req, target)) + DeltaFor(req, target) < 0
      then Some(InsufficientBalance)
    else if Taken(db.rows, req.store, KindOf(req), req.ext) then Some(Conflict)
    else None
  }

  function Checks(db: Db, req: Request, now: int, policy: Policy): Option<Error> {
    var original := OriginalCheck(db.rows, req);
    if original.Some? then original else
    var points := BalanceOf(db, ClientOf(db.rows, req));
    var limit := LimitCheck(points, db.rows, req, now, policy);
    if limit.Some? then limit else SettleError(db, req, Target(db.rows, req))
  }

  // ---- What a committed request writes ----

  function RowFor(req: Request, target: Option<Row>, now: int, balance: int): (row: Row)
    requires Suits(req, target)
    ensures HasKey(row, req.store, KindOf(req), req.ext)
    ensures row.client == ClientFor(req, target) && row.delta == DeltaFor(req, target) && row.balanceAfter == balance
  {
    match req
    case AccrueReq(store, client, ext, amount, points, fingerprint, rule, _) =>
      Row(store, client, ext, Stored(amount), Accrual, points, balance, fingerprint, now, rule, None, 0, 0, 0, false)
    case RedeemReq(store, client, ext, amount, debit, fingerprint, rule, _) =>
      Row(store, client, ext, Stored(amount), Redeem, 0 - debit, balance, fingerprint, now, rule, None, 0, 0, 0, false)
    case RefundReq(store, ext, amount, fingerprint, id) =>
      var original := target.value;
      var total := Total(original.refundedAmount, amount);
      Row(store, original.client, ext, Stored(amount), Refund, DeltaFor(req, target), balance, fingerprint, now, None,
          Some(id), 0, 0, Rounded(total, amount.per), total == original.amount * amount.per)
  }

  function NewRow(rows: seq<Row>, req: Request, now: int, balance: int): Row
    requires Refers(rows, req)
  {
    RowFor(req, Target(rows, req), now, balance)
  }

  function WithTotals(original: Row, amount: Amount): Row {
    original.(refundedAmount := Rounded(Total(original.refundedAmount, amount), amount.per),
              refundedPoints := Cumulative(original, amount))
  }

  function Touched(rows: seq<Row>, req: Request): seq<Row>
    requires Refers(rows, req)
  {
    if req.RefundReq? then rows[req.id := WithTotals(rows[req.id], req.amount)] else rows
  }

  function NoticesFor(req: Request, target: Option<Row>): seq<(string, Notice)>
    requires Suits(req, target)
  {
    var key := DedupeKey(req.store, KindOf(req), req.ext);
    match req
    case AccrueReq(_, client, _, _, points, _, _, invite) =>
      (if points > 0 then [(key, Notice(client, PointsCredited, points))] else [])
      + (if invite.Some? then [(InviteKey(invite.value), Notice(client, AppInvite, 0))] else [])
    case RedeemReq(_, client, _, _, debit, _, _, _) => [(key, Notice(client, PointsDebited, debit))]
    case RefundReq(_, _, _, _, _) =>
      [(key, Notice(target.value.client, RefundAdjusted, DeltaFor(req, target)))]
  }

  function Notices(rows: seq<Row>, req: Request): seq<(string, Notice)>
    requires Refers(rows, req)
  {
    NoticesFor(req, Target(rows, req))
  }

  /** INSERT ... ON CONFLICT (dedupe_key) DO NOTHING. */
  function InsertNotice(outbox: map<string, Notice>, entry: (string, Notice)): map<string, Notice> {
    if entry.0 in outbox then outbox else outbox[entry.0 := entry.1]
  }

  function Enqueue(outbox: map<string, Notice>, entries: seq<(string, Notice)>): map<string, Notice> {
    if entries == [] then outbox
    else InsertNotice(Enqueue(outbox, entries[..|entries| - 1]), entries[|entries| - 1])
  }

  /** The rows after a commit that leaves the client with `balance` points. */
  function Posted(rows: seq<Row>, req: Request, now: int, balance: int): seq<Row>
    requires Refers(rows, req)
  {
    Touched(rows, req) + [NewRow(rows, req, now, balance)]
  }

  function NewBalance(db: Db, req: Request): int
    requires Refers(db.rows, req)
  {
    BalanceOf(db, ClientOf(db.rows, req)) + Delta(db.rows, req)
  }

  function Commit(db: Db, req: Request, now: int): Db
    requires Refers(db.rows, req)
  {
    Db(db.balances[ClientOf(db.rows, req) := NewBalance(db, req)],
       Posted(db.rows, req, now, NewBalance(db, req)),
       Enqueue(db.outbox, Notices(db.rows, req)))
  }

  /** One database transaction, run without interference; now is the time it began. */
  function Apply(db: Db, req: Request, now: int, policy: Policy): Outcome {
    var error := Checks(db, req, now, policy);
    if error.Some? then Failed(error.value) else Committed(Commit(db, req, now))
  }

  /** A rejected request leaves no trace. */
  function After(db: Db, req: Request, now: int, policy: Policy): Db {
    match Apply(db, req, now, policy)
    case Committed(next) => next
    case Failed(_) => db
  }

  datatype Step = Step(req: Request, now: int)

  function Run(db: Db, steps: seq<Step>, policy: Policy): Db {
    if steps == [] then db
    else
      var last := steps[|steps| - 1];
      After(Run(db, steps[..|steps| - 1], policy), last.req, last.now, policy)
  }

  /** What those statements write, from the state `db` the transaction's own earlier ones left. */
  function Settled(db: Db, req: Request, target: Option<Row>, now: int): Db
    requires Suits(req, target)
  {
    Settling(db, ClientFor(req, target), DeltaFor(req, target), RowFor(req, target, now, 0), NoticesFor(req, target))
  }

  /** A row gets the balance its own change makes. */
  function Settling(db: Db, client: int, delta: int, row: Row, entries: seq<(string, Notice)>): Db {
    var points := BalanceOf(db, client) + delta;
    Db(db.balances[client := points], db.rows + [row.(balanceAfter := points)], Enqueue(db.outbox, entries))
  }

  /** An accrual runs no other statements. */
  lemma AccrueOnlySettles(db: Db, req: Request, now: int, policy: Policy)
    requires req.AccrueReq?
    ensures Checks(db, req, now, policy) == SettleError(db, req, None)
    ensures After(db, req, now, policy) ==
            if SettleError(db, req, None) == None then Settled(db, req, None, now) else db
  {
    assert Target(db.rows, req) == None;
  }

  /** A redemption within its limits runs them too, once its balance row exists. */
  lemma RedeemOnlySettles(db: Db, req: Request, now: int, policy: Policy, ensured: Db)
    requires req.RedeemReq? && LimitCheck(BalanceOf(db, req.client), db.rows, req, now, policy) == None
    requires ensured == db || ensured == db.(balances := db.balances[req.client := BalanceOf(db, req.client)])
    ensures Checks(db, req, now, policy) == SettleError(ensured, req, None)
    ensures After(db, req, now, policy) ==
            if SettleError(ensured, req, None) == None then Settled(ensured, req, None, now) else db
  {
    assert Target(db.rows, req) == None;
  }

  // ---- The repository ----

  /** LedgerRepository over the three tables; a method that returns an error has rolled its changes back. */
  class LedgerRepository {
    var balances: map<int, int>
    var rows: seq<Row>
    var outbox: map<string, Notice>
    const policy: Policy

    function State(): Db
      reads this
    {
      Db(balances, rows, outbox)
    }

    constructor (policy: Policy)
      ensures State() == EMPTY && this.policy == policy
    {
      balances, rows, outbox := map[], [], map[];
      this.policy := policy;
    }

    method Rollback(saved: Db)
      modifies this
      ensures State() == saved
    {
      balances, rows, outbox := saved.balances, saved.rows, saved.outbox;
    }

    method InsertOutboxEntry(entry: (string, Notice))
      modifies this`outbox
      ensures outbox == InsertNotice(old(outbox), entry)
    {
      if entry.0 !in outbox {
        outbox := outbox[entry.0 := entry.1];
      }
    }

    method InsertOutboxEntries(entries: seq<(string, Notice)>)
      modifies this`outbox
      ensures outbox == Enqueue(old(outbox), entries)
    {
      for i := 0 to |entries|
        invariant outbox == Enqueue(old(outbox), entries[..i])
      {
        assert entries[..i + 1][..i] == entries[..i];
        InsertOutboxEntry(entries[i]);
      }
      assert entries[..|entries|] == entries;
    }

    method EnsureBalanceRow(client: int)
      modifies this`balances
      ensures balances == if client in old(balances) then old(balances) else old(balances)[client := 0]
    {
      if client !in balances {
        balances := balances[client := 0];
      }
    }

    /** UPDATE balances ... AND points + delta >= 0, the last condition only when guarded. */
    method AdjustBalance(client: int, delta: int, guarded: bool) returns (updated: bool)
      requires client in balances
      modifies this`balances
      ensures updated <==> !guarded || old(balances)[client] + delta >= 0
      ensures balances == if updated then old(balances)[client := old(balances)[client] + delta] else old(balances)
    {
      updated := !guarded || balances[client] + delta >= 0;
      if updated {
        balances := balances[client := balances[client] + delta];
      }
    }

    method ChangeBalance(client: int, delta: int, guarded: bool) returns (updated: bool)
      modifies this`balances
      ensures var points := BalanceOf(old(State()), client) + delta;
              && (updated <==> !guarded || points >= 0)
              && (updated ==> balances == old(balances)[client := points])
    {
      EnsureBalanceRow(client);
      updated := AdjustBalance(client, delta, guarded);
    }

    /** INSERT INTO transactions, refused by the unique index on store, kind and external id. */
    method InsertRow(row: Row) returns (inserted: bool)
      modifies this`rows
      ensures inserted <==> !Taken(old(rows), row.store, row.kind, row.ext)
      ensures rows == if inserted then old(rows) + [row] else old(rows)
    {
      inserted := true;
      for i := 0 to |rows|
        invariant inserted <==> !Taken(rows[..i], row.store, row.kind, row.ext)
      {
        assert rows[..i + 1] == rows[..i] + [rows[i]];
        assert forall k | 0 <= k <= i :: rows[..i + 1][k] == rows[k];
        assert forall k | 0 <= k < i :: rows[..i][k] == rows[k];
        if HasKey(rows[i], row.store, row.kind, row.ext) {
          inserted := false;
        }
      }
      assert rows[..|rows|] == rows;
      if inserted {
        rows := rows + [row];
      }
    }

    /** Guarded balance change, unique row, outbox entries; any error restores the saved tables. */
    method Write(client: int, delta: int, guarded: bool, row: Row, entries: seq<(string, Notice)>, saved: Db)
      returns (error: Option<Error>)
      modifies this
      ensures error == if guarded && BalanceOf(old(State()), client) + delta < 0 then Some(InsufficientBalance)
                       else if Taken(old(rows), row.store, row.kind, row.ext) then Some(Conflict)
                       else None
      ensures error == None ==> State() == Settling(old(State()), client, delta, row, entries)
      ensures error != None ==> State() == saved
    {
      var updated := ChangeBalance(client, delta, guarded);
      if !updated {
        Rollback(saved);
        return Some(InsufficientBalance);
      }
      var inserted := InsertRow(row.(balanceAfter := balances[client]));
      if !inserted {
        Rollback(saved);
        return Some(Conflict);
      }
      InsertOutboxEntries(entries);
      error := None;
    }

    /** The statements all three operations end with; target is the refund's original as locked. */
    method Settle(req: Request, target: Option<Row>, now: int, saved: Db) returns (error: Option<Error>)
      requires Suits(req, target)
      modifies this
      ensures error == SettleError(old(State()), req, target)
      ensures error == None ==> State() == Settled(old(State()), req, target, now)
      ensures error != None ==> State() == saved
    {
      error := Write(ClientFor(req, target), DeltaFor(req, target), GuardedFor(req, target),
                     RowFor(req, target, now, 0), NoticesFor(req, target), saved);
    }

    method Post(req: Request, now: int) returns (error: Option<Error>)
      requires req.AccrueReq?
      modifies this
      ensures error == Checks(old(State()), req, now, policy)
      ensures State() == After(old(State()), req, now, policy)
    {
      AccrueOnlySettles(State(), req, now, policy);
      error := Settle(req, None, now, State());
    }

    method PostRedeemChecked(req: Request, now: int) returns (error: Option<Error>)
      requires req.RedeemReq?
      modifies this
      ensures error == Checks(old(State()), req, now, policy)
      ensures State() == After(old(State()), req, now, policy)
    {
      var saved := State();
      EnsureBalanceRow(req.client);
      if balances[req.client] < req.minBalance {
        Rollback(saved);
        return Some(InsufficientBalance);
      }
      if policy.dailyLimit > 0 {
        var redeemed := Sum(rows, RedeemedSince(req.client, now - policy.window));
        if redeemed + req.debit > policy.dailyLimit {
          Rollback(saved);
          return Some(DailyLimitExceeded);
        }
      }
      RedeemOnlySettles(saved, req, now, policy, State());
      error := Settle(req, None, now, saved);
    }

    /** Locks and screens the original, then records the new totals on it. */
    method UpdateOriginal(req: Request) returns (error: Option<Error>, target: Option<Row>)
      requires req.RefundReq?
      modifies this`rows
      ensures error == OriginalCheck(old(rows), req)
      ensures error == None ==> target == Target(old(rows), req)
      ensures rows == if error == None then Touched(old(rows), req) else old(rows)
    {
      target := None;
      if req.id >= |rows| || rows[req.id].store != req.store {
        return Some(NotFound), None;
      }
      var original := rows[req.id];
      if original.kind == Refund {
        return Some(CannotRefundRefund), None;
      }
      var total := Total(original.refundedAmount, req.amount);
      if total > original.amount * req.amount.per {
        return Some(OverRefund), None;
      }
      var cumulative := Money.Share(Abs(original.delta), total, original.amount * req.amount.per);
      rows := rows[req.id := original.(refundedAmount := Rounded(total, req.amount.per), refundedPoints := cumulative)];
      return None, Some(original);
    }

    method PostRefund(req: Request, now: int) returns (error: Option<Error>)
      requires req.RefundReq?
      modifies this
      ensures error == Checks(old(State()), req, now, policy)
      ensures State() == After(old(State()), req, now, policy)
    {
      var saved := State();
      var target;
      error, target := UpdateOriginal(req);
      if error == None {
        TakenTouched(saved.rows, req, req.store, Refund, req.ext);
        error := Settle(req, target, now, saved);
      }
    }
  }

  /** The totals a refund updates are no part of any row's key. */
  lemma TakenTouched(rows: seq<Row>, req: Request, store: int, kind: Kind, ext: string)
    requires Refers(rows, req)
    ensures Taken(Touched(rows, req), store, kind, ext) <==> Taken(rows, store, kind, ext)
  {
    var touched := Touched(rows, req);
    assert forall i | 0 <= i < |rows| ::
        HasKey(touched[i], store, kind, ext) == HasKey(rows[i], store, kind, ext);
  }
}
