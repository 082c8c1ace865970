/**
 The same three operations as Postgres runs them: any number of open transactions, each executing its
 next statement at READ COMMITTED, waiting for row and unique-key locks it keeps until it ends.
 */
module LedgerLocks {
  import opened Rows
  import opened Ledger
  import opened LedgerSafety

  /** What a transaction can hold: a ledger row, a balance row, an inserted ledger key, an inserted dedupe key. */
  datatype Lock =
    | OriginalLock(id: nat)
    | BalanceLock(client: int)
    | KeyLock(store: int, kind: Kind, ext: string)
    | NoticeLock(key: string)

  /** The statement a transaction executes next; after its last notice it commits. */
  datatype At = AtOriginal | AtEnsure | AtLock | AtWindow | AtAdjust | AtInsert | AtNotice(k: nat)

  /**
   An open transaction and what it has read or written so far: the refund's original as locked, the
   client's points after its UPDATE, the notices it inserted.
   */
  datatype Tx = Tx(req: Request, now: int, at: At, target: Option<Row>, points: int, added: map<string, Notice>)

  /** An answered request: it committed when error is None. */
  datatype Answer = Answer(step: Step, error: Option<Error>)

  datatype Sys = Sys(db: Db, txs: map<int, Tx>, locks: map<Lock, int>, answers: seq<Answer>)

  const START: Sys := Sys(EMPTY, map[], map[], [])

  /** Begin a transaction, let one execute its next statement, or lose one (crash, timeout, lost connection). */
  datatype Action = Begin(tid: int, req: Request, now: int) | Advance(tid: int) | Kill(tid: int)

  // ---- One statement ----

  predicate HasClient(tx: Tx) {
    Suits(tx.req, tx.target)
  }

  function TxKey(tx: Tx): Lock {
    KeyLock(tx.req.store, KindOf(tx.req), tx.req.ext)
  }

  /** The lock the next statement needs; an original that is not there is not locked. */
  function Wanted(db: Db, tx: Tx): Option<Lock> {
    if tx.at == AtOriginal then
      if tx.req.RefundReq? && tx.req.id < |db.rows| && db.rows[tx.req.id].store == tx.req.store
      then Some(OriginalLock(tx.req.id)) else None
    else if !HasClient(tx) || tx.at == AtWindow then None
    else if tx.at == AtInsert then Some(TxKey(tx))
    else if tx.at.AtNotice? then
      var notices := NoticesFor(tx.req, tx.target);
      if tx.at.k < |notices| then Some(NoticeLock(notices[tx.at.k].0)) else None
    else
      var client := ClientFor(tx.req, tx.target);
      if tx.at == AtEnsure && client in db.balances then None else Some(BalanceLock(client))
  }

  predicate Blocked(sys: Sys, tid: int)
    requires tid in sys.txs
  {
    var wanted := Wanted(sys.db, sys.txs[tid]);
    wanted.Some? && wanted.value in sys.locks && sys.locks[wanted.value] != tid
  }

  function Release(locks: map<Lock, int>, tid: int): map<Lock, int> {
    map l | l in locks && locks[l] != tid :: locks[l]
  }

  function Close(sys: Sys, tid: int): Sys {
    sys.(txs := sys.txs - {tid}, locks := Release(sys.locks, tid))
  }

  function Reject(sys: Sys, tid: int, error: Error): Sys
    requires tid in sys.txs
  {
    var tx := sys.txs[tid];
    Close(sys, tid).(answers := sys.answers + [Answer(Step(tx.req, tx.now), Some(error))])
  }

  /** The statement ran: its lock, if any, is kept. */
  function Proceed(sys: Sys, tid: int, tx: Tx): Sys
    requires tid in sys.txs
  {
    var wanted := Wanted(sys.db, sys.txs[tid]);
    sys.(txs := sys.txs[tid := tx],
         locks := if wanted.Some? then sys.locks[wanted.value := tid] else sys.locks)
  }

  /** UPDATE transactions SET ... WHERE id: no row, no change. */
  function UpdateRow(rows: seq<Row>, req: Request, target: Option<Row>): seq<Row> {
    if req.RefundReq? && target.Some? && req.id < |rows|
    then rows[req.id := WithTotals(target.value, req.amount)] else rows
  }

  /** COMMIT makes the transaction's own writes, computed from what it had read, visible at once. */
  function Written(db: Db, tx: Tx): Db
    requires HasClient(tx)
  {
    Db(db.balances[ClientFor(tx.req, tx.target) := tx.points],
       UpdateRow(db.rows, tx.req, tx.target) + [RowFor(tx.req, tx.target, tx.now, tx.points)],
       db.outbox + tx.added)
  }

  function CommitTx(sys: Sys, tid: int): Sys
    requires tid in sys.txs && HasClient(sys.txs[tid])
  {
    var tx := sys.txs[tid];
    Close(sys, tid).(db := Written(sys.db, tx),
                     answers := sys.answers + [Answer(Step(tx.req, tx.now), None)])
  }

  function LockOriginal(sys: Sys, tid: int): Sys
    requires tid in sys.txs
  {
    var tx := sys.txs[tid];
    var error := OriginalCheck(sys.db.rows, tx.req);
    if error.Some? then Reject(sys, tid, error.value)
    else Proceed(sys, tid, tx.(at := AtEnsure, target := Target(sys.db.rows, tx.req)))
  }

  function LockBalance(sys: Sys, tid: int): Sys
    requires tid in sys.txs && sys.txs[tid].req.RedeemReq?
  {
    var tx := sys.txs[tid];
    if BalanceOf(sys.db, tx.req.client) < tx.req.minBalance then Reject(sys, tid, InsufficientBalance)
    else Proceed(sys, tid, tx.(at := AtWindow))
  }

  function SumWindow(sys: Sys, tid: int, policy: Policy): Sys
    requires tid in sys.txs && sys.txs[tid].req.RedeemReq?
  {
    var tx := sys.txs[tid];
    if policy.dailyLimit > 0
       && Sum(sys.db.rows, RedeemedSince(tx.req.client, tx.now - policy.window)) + tx.req.debit > policy.dailyLimit
    then Reject(sys, tid, DailyLimitExceeded)
    else Proceed(sys, tid, tx.(at := AtAdjust))
  }

  function UpdateBalance(sys: Sys, tid: int): Sys
    requires tid in sys.txs && HasClient(sys.txs[tid])
  {
    var tx := sys.txs[tid];
    var points := BalanceOf(sys.db, ClientFor(tx.req, tx.target)) + DeltaFor(tx.req, tx.target);
    if GuardedFor(tx.req, tx.target) && points < 0 then Reject(sys, tid, InsufficientBalance)
    else Proceed(sys, tid, tx.(at := AtInsert, points := points))
  }

  function InsertLedgerRow(sys: Sys, tid: int): Sys
    requires tid in sys.txs
  {
    var tx := sys.txs[tid];
    if Taken(sys.db.rows, tx.req.store, KindOf(tx.req), tx.req.ext) then Reject(sys, tid, Conflict)
    else Proceed(sys, tid, tx.(at := AtNotice(0)))
  }

  function InsertNoticeRow(sys: Sys, tid: int, k: nat): Sys
    requires tid in sys.txs && HasClient(sys.txs[tid])
  {
    var tx := sys.txs[tid];
    var notices := NoticesFor(tx.req, tx.target);
    if k >= |notices| then CommitTx(sys, tid)
    else if notices[k].0 in sys.db.outbox || notices[k].0 in tx.added
    then sys.(txs := sys.txs[tid := tx.(at := AtNotice(k + 1))])
    else Proceed(sys, tid, tx.(at := AtNotice(k + 1), added := tx.added[notices[k].0 := notices[k].1]))
  }

  function Execute(sys: Sys, tid: int, policy: Policy): Sys
    requires tid in sys.txs && (sys.txs[tid].at == AtOriginal || HasClient(sys.txs[tid]))
    requires sys.txs[tid].at in {AtLock, AtWindow} ==> sys.txs[tid].req.RedeemReq?
  {
    var tx := sys.txs[tid];
    match tx.at
    case AtOriginal => LockOriginal(sys, tid)
    case AtEnsure => Proceed(sys, tid, tx.(at := if tx.req.RedeemReq? then AtLock else AtAdjust))
    case AtLock => LockBalance(sys, tid)
    case AtWindow => SumWindow(sys, tid, policy)
    case AtAdjust => UpdateBalance(sys, tid)
    case AtInsert => InsertLedgerRow(sys, tid)
    case AtNotice(k) => InsertNoticeRow(sys, tid, k)
  }

  function Opened(req: Request, now: int): Tx {
    Tx(req, now, if req.RefundReq? then AtOriginal else AtEnsure, None, 0, map[])
  }

  /** A transaction can only be at statements its own operation has. */
  predicate Runnable(tx: Tx) {
    && (tx.at == AtOriginal || HasClient(tx))
    && (tx.at == AtOriginal ==> tx.req.RefundReq?)
    && (tx.at == AtLock || tx.at == AtWindow ==> tx.req.RedeemReq?)
  }

  function Next(sys: Sys, action: Action, policy: Policy): Sys {
    match action
    case Begin(tid, req, now) =>
      if tid in sys.txs then sys else sys.(txs := sys.txs[tid := Opened(req, now)])
    case Kill(tid) => Close(sys, tid)
    case Advance(tid) =>
      if tid !in sys.txs || !Runnable(sys.txs[tid]) || Blocked(sys, tid) then sys else Execute(sys, tid, policy)
  }

  function Exec(actions: seq<Action>, policy: Policy): Sys {
    if actions == [] then START
    else Next(Exec(actions[..|actions| - 1], policy), actions[|actions| - 1], policy)
  }

  // ---- The invariant ----

  ghost predicate Held(sys: Sys, lock: Lock, tid: int) {
    lock in sys.locks && sys.locks[lock] == tid
  }

  /** A refund past its first statement holds the original, and its copy is still the committed row. */
  ghost predicate TargetOk(sys: Sys, tid: int)
    requires tid in sys.txs
  {
    var tx := sys.txs[tid];
    tx.at != AtOriginal ==>
      && OriginalCheck(sys.db.rows, tx.req) == None
      && tx.target == Target(sys.db.rows, tx.req)
      && (tx.req.RefundReq? ==> Held(sys, OriginalLock(tx.req.id), tid))
  }

  predicate LocksBalance(tx: Tx) {
    tx.at == AtWindow || (tx.at == AtAdjust && tx.req.RedeemReq?) || tx.at == AtInsert || tx.at.AtNotice?
  }

  /** What the transaction read under its balance lock still holds. */
  ghost predicate BalanceOk(sys: Sys, tid: int, policy: Policy)
    requires tid in sys.txs && TargetOk(sys, tid)
  {
    var tx := sys.txs[tid];
    LocksBalance(tx) ==>
      && Held(sys, BalanceLock(ClientOf(sys.db.rows, tx.req)), tid)
      && var points := BalanceOf(sys.db, ClientOf(sys.db.rows, tx.req));
         && (tx.at == AtWindow ==> tx.req.RedeemReq? && points >= tx.req.minBalance)
         && (tx.at != AtWindow ==> LimitCheck(points, sys.db.rows, tx.req, tx.now, policy) == None)
         && (tx.at == AtInsert || tx.at.AtNotice? ==>
               && tx.points == NewBalance(sys.db, tx.req)
               && (Guarded(sys.db.rows, tx.req) ==> tx.points >= 0))
  }

  ghost predicate KeyOk(sys: Sys, tid: int)
    requires tid in sys.txs
  {
    var tx := sys.txs[tid];
    tx.at.AtNotice? ==>
      Held(sys, TxKey(tx), tid) && !Taken(sys.db.rows, tx.req.store, KindOf(tx.req), tx.req.ext)
  }

  /** The first k notices are in the outbox already or inserted under the key's lock, which keeps others out. */
  ghost predicate Inserted(outbox: map<string, Notice>, notices: seq<(string, Notice)>, k: nat,
                           added: map<string, Notice>) {
    && k <= |notices|
    && (forall i | 0 <= i < k :: notices[i].0 in outbox
          || (notices[i].0 in added && added[notices[i].0] == notices[i].1))
    && (forall key | key in added :: key !in outbox && exists i :: 0 <= i < k && notices[i].0 == key)
  }

  ghost predicate NoticesOk(sys: Sys, tid: int)
    requires tid in sys.txs && TargetOk(sys, tid)
  {
    var tx := sys.txs[tid];
    && (!tx.at.AtNotice? ==> tx.added == map[])
    && (tx.at.AtNotice? ==>
          && Inserted(sys.db.outbox, Notices(sys.db.rows, tx.req), tx.at.k, tx.added)
          && forall key | key in tx.added :: Held(sys, NoticeLock(key), tid))
  }

  ghost predicate TxOk(sys: Sys, tid: int, policy: Policy)
    requires tid in sys.txs
  {
    && Runnable(sys.txs[tid]) && TargetOk(sys, tid)
    && BalanceOk(sys, tid, policy) && KeyOk(sys, tid) && NoticesOk(sys, tid)
  }

  ghost predicate TxsOk(sys: Sys, policy: Policy) {
    forall tid | tid in sys.txs :: TxOk(sys, tid, policy)
  }

  // ---- Lock order ----

  /** Every operation takes its locks in this order. */
  function Rank(lock: Lock): nat {
    match lock
    case OriginalLock(_) => 0
    case BalanceLock(_) => 1
    case KeyLock(_, _, _) => 2
    case NoticeLock(key) => if IsInviteKey(key) then 4 else 3
  }

  function NoticeStage(req: Request, target: Option<Row>, k: nat): nat
    requires Suits(req, target)
  {
    if k < |NoticesFor(req, target)| then Rank(NoticeLock(NoticesFor(req, target)[k].0)) else 5
  }

  /** Rank of the lock the transaction is at, or past all of them. */
  function Stage(tx: Tx): nat {
    match tx.at
    case AtOriginal => 0
    case AtInsert => 2
    case AtNotice(k) => if HasClient(tx) then NoticeStage(tx.req, tx.target, k) else 5
    case _ => 1
  }

  /** A lock belongs to an open transaction that is past it, or at the balance row it already locked. */
  ghost predicate LockOk(sys: Sys, lock: Lock)
    requires lock in sys.locks
  {
    && sys.locks[lock] in sys.txs
    && var tx := sys.txs[sys.locks[lock]];
       && HasClient(tx)
       && (Rank(lock) < Stage(tx) || (Stage(tx) == 1 && lock == BalanceLock(ClientFor(tx.req, tx.target))))
  }

  ghost predicate LocksOk(sys: Sys) {
    forall lock | lock in sys.locks :: LockOk(sys, lock)
  }

  // ---- Refinement ----

  function Steps(answers: seq<Answer>): (steps: seq<Step>)
    ensures |steps| == |answers|
    ensures forall i | 0 <= i < |answers| :: steps[i] == answers[i].step
  {
    if answers == [] then []
    else Steps(answers[..|answers| - 1]) + [answers[|answers| - 1].step]
  }

  /** Run one after the other in the order they were answered, the requests give these answers. */
  ghost predicate Explains(answers: seq<Answer>, policy: Policy) {
    forall i | 0 <= i < |answers| ::
      answers[i].error ==
      Checks(Reached(Steps(answers[..i]), policy), answers[i].step.req, answers[i].step.now, policy)
  }

  ghost predicate SysInv(sys: Sys, policy: Policy) {
    && TxsOk(sys, policy) && LocksOk(sys)
    && sys.db == Reached(Steps(sys.answers), policy)
    && Explains(sys.answers, policy)
  }
}
