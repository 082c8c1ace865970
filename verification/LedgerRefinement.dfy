/** Every interleaving of the statements equals the atomic requests in the order they were answered. */
module LedgerRefinement {
  import opened Rows
  import opened Ledger
  import opened LedgerSafety
  import opened LedgerLocks

  // ---- What the locks make of the statement about to run ----

  lemma TargetMeans(sys: Sys, tid: int)
    requires tid in sys.txs && TargetOk(sys, tid) && sys.txs[tid].at != AtOriginal
    ensures var tx := sys.txs[tid];
            && Refers(sys.db.rows, tx.req) && HasClient(tx)
            && ClientFor(tx.req, tx.target) == ClientOf(sys.db.rows, tx.req)
            && DeltaFor(tx.req, tx.target) == Delta(sys.db.rows, tx.req)
            && GuardedFor(tx.req, tx.target) == Guarded(sys.db.rows, tx.req)
            && NoticesFor(tx.req, tx.target) == Notices(sys.db.rows, tx.req)
  {
  }

  ghost predicate DistinctKeys(entries: seq<(string, Notice)>) {
    forall i, j | 0 <= i < j < |entries| :: entries[i].0 != entries[j].0
  }

  lemma NoticesDistinct(req: Request, target: Option<Row>)
    requires Suits(req, target)
    ensures DistinctKeys(NoticesFor(req, target)) && |NoticesFor(req, target)| <= 2
  {
    if req.AccrueReq? && req.invite.Some? {
      DedupeKeyNotInvite(req.store, Accrual, req.ext, req.invite.value);
    }
  }

  lemma {:induction false} EnqueueKeys(outbox: map<string, Notice>, entries: seq<(string, Notice)>)
    requires DistinctKeys(entries)
    ensures forall key :: key in Enqueue(outbox, entries) <==>
              key in outbox || exists i :: 0 <= i < |entries| && entries[i].0 == key
    ensures forall key | key in outbox :: Enqueue(outbox, entries)[key] == outbox[key]
    ensures forall i | 0 <= i < |entries| && entries[i].0 !in outbox ::
              Enqueue(outbox, entries)[entries[i].0] == entries[i].1
  {
    if entries != [] {
      var init := entries[..|entries| - 1];
      assert forall i | 0 <= i < |init| :: init[i] == entries[i];
      EnqueueKeys(outbox, init);
    }
  }

  lemma InsertedIsEnqueue(outbox: map<string, Notice>, entries: seq<(string, Notice)>, added: map<string, Notice>)
    requires DistinctKeys(entries) && Inserted(outbox, entries, |entries|, added)
    ensures outbox + added == Enqueue(outbox, entries)
  {
    EnqueueKeys(outbox, entries);
    var queued := Enqueue(outbox, entries);
    forall key
      ensures key in outbox + added <==> key in queued
      ensures key in queued ==> (outbox + added)[key] == queued[key]
    {
      if key in queued && key !in outbox {
        var i :| 0 <= i < |entries| && entries[i].0 == key;
        assert key in added;
      }
    }
  }

  /** The transaction has run its last statement but the commit. */
  predicate AtCommit(tx: Tx) {
    HasClient(tx) && tx.at.AtNotice? && tx.at.k >= |NoticesFor(tx.req, tx.target)|
  }

  /** A transaction past its last notice writes exactly what the atomic request would write now. */
  lemma CommitsAtomically(sys: Sys, tid: int, policy: Policy)
    requires tid in sys.txs && TxOk(sys, tid, policy)
    requires AtCommit(sys.txs[tid])
    ensures var tx := sys.txs[tid];
            && Checks(sys.db, tx.req, tx.now, policy) == None
            && Written(sys.db, tx) == Commit(sys.db, tx.req, tx.now)
  {
    var tx := sys.txs[tid];
    TargetMeans(sys, tid);
    NoticesDistinct(tx.req, tx.target);
    InsertedIsEnqueue(sys.db.outbox, NoticesFor(tx.req, tx.target), tx.added);
    assert UpdateRow(sys.db.rows, tx.req, tx.target) == Touched(sys.db.rows, tx.req);
  }

  /** The error the next statement would report, if it reports one. */
  ghost function StatementError(sys: Sys, tid: int, policy: Policy): Option<Error>
    requires tid in sys.txs && TxOk(sys, tid, policy)
  {
    var tx := sys.txs[tid];
    match tx.at
    case AtOriginal => OriginalCheck(sys.db.rows, tx.req)
    case AtLock =>
      if BalanceOf(sys.db, tx.req.client) < tx.req.minBalance then Some(InsufficientBalance) else None
    case AtWindow => LimitCheck(BalanceOf(sys.db, tx.req.client), sys.db.rows, tx.req, tx.now, policy)
    case AtAdjust =>
      if Guarded(sys.db.rows, tx.req) && NewBalance(sys.db, tx.req) < 0 then Some(InsufficientBalance) else None
    case AtInsert =>
      if Taken(sys.db.rows, tx.req.store, KindOf(tx.req), tx.req.ext) then Some(Conflict) else None
    case _ => None
  }

  /** A statement that rejects reports the error the atomic request would report now. */
  lemma RejectsAtomically(sys: Sys, tid: int, policy: Policy)
    requires tid in sys.txs && TxOk(sys, tid, policy) && StatementError(sys, tid, policy).Some?
    ensures Checks(sys.db, sys.txs[tid].req, sys.txs[tid].now, policy) == StatementError(sys, tid, policy)
  {
    var tx := sys.txs[tid];
    if tx.at != AtOriginal {
      TargetMeans(sys, tid);
    }
  }

  /** Executing a statement commits, rejects with its error, or just moves on. */
  lemma StatementEffect(sys: Sys, tid: int, policy: Policy)
    requires tid in sys.txs && TxOk(sys, tid, policy)
    ensures var next, error := Execute(sys, tid, policy), StatementError(sys, tid, policy);
            if error.Some? then next == Reject(sys, tid, error.value)
            else if AtCommit(sys.txs[tid]) then next == CommitTx(sys, tid)
            else next.db == sys.db && next.answers == sys.answers && next.txs.Keys == sys.txs.Keys
  {
    var tx := sys.txs[tid];
    if tx.at == AtOriginal {
      assert Execute(sys, tid, policy) == LockOriginal(sys, tid);
    } else {
      TargetMeans(sys, tid);
      match tx.at
      case AtWindow => assert Execute(sys, tid, policy) == SumWindow(sys, tid, policy);
      case AtAdjust => assert Execute(sys, tid, policy) == UpdateBalance(sys, tid);
      case AtNotice(k) => assert Execute(sys, tid, policy) == InsertNoticeRow(sys, tid, k);
      case _ =>
    }
  }

  ghost predicate KeepsLocks(sys: Sys, next: Sys, tid: int) {
    forall lock | Held(sys, lock, tid) :: Held(next, lock, tid)
  }

  // ---- The statement's own transaction ----

  lemma LocksItsOriginal(sys: Sys, tid: int, policy: Policy)
    requires tid in sys.txs && TxOk(sys, tid, policy) && StatementError(sys, tid, policy) == None
    requires sys.txs[tid].at == AtOriginal || sys.txs[tid].at == AtEnsure
    ensures tid in Execute(sys, tid, policy).txs && TxOk(Execute(sys, tid, policy), tid, policy)
  {
    if sys.txs[tid].at == AtOriginal {
      assert Execute(sys, tid, policy) == LockOriginal(sys, tid);
    } else {
      TargetMeans(sys, tid);
    }
  }

  lemma PassesTheLimit(sys: Sys, tid: int, policy: Policy)
    requires tid in sys.txs && TxOk(sys, tid, policy) && StatementError(sys, tid, policy) == None
    requires sys.txs[tid].at == AtLock || sys.txs[tid].at == AtWindow
    ensures tid in Execute(sys, tid, policy).txs && TxOk(Execute(sys, tid, policy), tid, policy)
  {
    TargetMeans(sys, tid);
    if sys.txs[tid].at == AtLock {
      assert Execute(sys, tid, policy) == LockBalance(sys, tid);
    } else {
      assert Execute(sys, tid, policy) == SumWindow(sys, tid, policy);
    }
  }

  lemma AdjustsTheBalance(sys: Sys, tid: int, policy: Policy)
    requires tid in sys.txs && TxOk(sys, tid, policy) && StatementError(sys, tid, policy) == None
    requires sys.txs[tid].at == AtAdjust
    ensures tid in Execute(sys, tid, policy).txs && TxOk(Execute(sys, tid, policy), tid, policy)
  {
    TargetMeans(sys, tid);
    assert Execute(sys, tid, policy) == UpdateBalance(sys, tid);
  }

  lemma InsertsItsRow(sys: Sys, tid: int, policy: Policy)
    requires tid in sys.txs && TxOk(sys, tid, policy) && StatementError(sys, tid, policy) == None
    requires sys.txs[tid].at == AtInsert
    ensures tid in Execute(sys, tid, policy).txs && TxOk(Execute(sys, tid, policy), tid, policy)
  {
    TargetMeans(sys, tid);
    assert Execute(sys, tid, policy) == InsertLedgerRow(sys, tid);
  }

  lemma InsertedNext(outbox: map<string, Notice>, notices: seq<(string, Notice)>, k: nat, added: map<string, Notice>)
    requires DistinctKeys(notices) && k < |notices| && Inserted(outbox, notices, k, added)
    ensures notices[k].0 !in added
    ensures notices[k].0 in outbox ==> Inserted(outbox, notices, k + 1, added)
    ensures notices[k].0 !in outbox ==> Inserted(outbox, notices, k + 1, added[notices[k].0 := notices[k].1])
  {
  }

  /** The next notice is inserted under its key's lock, or its key is there already. */
  lemma NoticeStep(sys: Sys, tid: int)
    requires tid in sys.txs && HasClient(sys.txs[tid]) && sys.txs[tid].at.AtNotice?
    requires sys.txs[tid].at.k < |NoticesFor(sys.txs[tid].req, sys.txs[tid].target)|
    ensures var tx, next := sys.txs[tid], InsertNoticeRow(sys, tid, sys.txs[tid].at.k);
            var entry := NoticesFor(tx.req, tx.target)[tx.at.k];
            var skip := entry.0 in sys.db.outbox || entry.0 in tx.added;
            && next.db == sys.db && tid in next.txs && KeepsLocks(sys, next, tid)
            && next.txs[tid] == tx.(at := AtNotice(tx.at.k + 1),
                                    added := if skip then tx.added else tx.added[entry.0 := entry.1])
            && (!skip ==> Held(next, NoticeLock(entry.0), tid))
  {
  }

  lemma SameReads(sys: Sys, next: Sys, tid: int, policy: Policy)
    requires tid in sys.txs && tid in next.txs && next.db == sys.db && KeepsLocks(sys, next, tid)
    requires TxOk(sys, tid, policy) && sys.txs[tid].at.AtNotice?
    requires next.txs[tid].at.AtNotice?
    requires next.txs[tid] == sys.txs[tid].(at := next.txs[tid].at, added := next.txs[tid].added)
    ensures Runnable(next.txs[tid]) && TargetOk(next, tid) && BalanceOk(next, tid, policy) && KeyOk(next, tid)
  {
    TargetMeans(sys, tid);
  }

  lemma InsertsNotice(sys: Sys, tid: int, policy: Policy)
    requires tid in sys.txs && TxOk(sys, tid, policy) && sys.txs[tid].at.AtNotice?
    requires sys.txs[tid].at.k < |NoticesFor(sys.txs[tid].req, sys.txs[tid].target)|
    ensures tid in Execute(sys, tid, policy).txs && TxOk(Execute(sys, tid, policy), tid, policy)
  {
    TargetMeans(sys, tid);
    var tx, next := sys.txs[tid], Execute(sys, tid, policy);
    NoticesDistinct(tx.req, tx.target);
    InsertedNext(sys.db.outbox, NoticesFor(tx.req, tx.target), tx.at.k, tx.added);
    NoticeStep(sys, tid);
    SameReads(sys, next, tid, policy);
    assert NoticesOk(next, tid);
  }

  // ---- Everybody else ----

  lemma SameDbKeeps(sys: Sys, next: Sys, tid: int, policy: Policy)
    requires tid in sys.txs && tid in next.txs && next.txs[tid] == sys.txs[tid] && next.db == sys.db
    requires TxOk(sys, tid, policy) && KeepsLocks(sys, next, tid)
    ensures TxOk(next, tid, policy)
  {
  }

  lemma TargetUndisturbed(rows: seq<Row>, req: Request, other: Request, now: int, balance: int)
    requires OriginalCheck(rows, req) == None && Refers(rows, other)
    requires req.RefundReq? && other.RefundReq? ==> req.id != other.id
    ensures OriginalCheck(Posted(rows, other, now, balance), req) == None
    ensures Target(Posted(rows, other, now, balance), req) == Target(rows, req)
  {
  }

  lemma LimitUndisturbed(rows: seq<Row>, points: int, req: Request, at: int, policy: Policy,
                         other: Request, now: int, balance: int)
    requires Refers(rows, other) && Refers(rows, req) && ClientOf(rows, req) != ClientOf(rows, other)
    ensures LimitCheck(points, Posted(rows, other, now, balance), req, at, policy)
         == LimitCheck(points, rows, req, at, policy)
  {
    if req.RedeemReq? {
      SumPosted(rows, other, now, balance, RedeemedSince(req.client, at - policy.window));
    }
  }

  lemma TakenUndisturbed(rows: seq<Row>, other: Request, now: int, balance: int, store: int, kind: Kind, ext: string)
    requires Refers(rows, other) && !Taken(rows, store, kind, ext)
    requires !(store == other.store && kind == KindOf(other) && ext == other.ext)
    ensures !Taken(Posted(rows, other, now, balance), store, kind, ext)
  {
    TakenTouched(rows, other, store, kind, ext);
    var posted := Posted(rows, other, now, balance);
    forall i | 0 <= i < |posted|
      ensures !HasKey(posted[i], store, kind, ext)
    {
      if i < |rows| {
        assert posted[i] == Touched(rows, other)[i];
      }
    }
  }

  lemma OutboxUndisturbed(before: map<string, Notice>, after: map<string, Notice>,
                          notices: seq<(string, Notice)>, k: nat, added: map<string, Notice>)
    requires Inserted(before, notices, k, added) && before.Keys <= after.Keys
    requires forall key | key in added :: key !in after
    ensures Inserted(after, notices, k, added)
  {
  }

  /** A commit by another transaction changes nothing this one has read under its locks. */
  lemma CommitKeepsOther(sys: Sys, tid: int, other: int, policy: Policy)
    requires tid != other && tid in sys.txs && other in sys.txs
    requires TxOk(sys, tid, policy) && TxOk(sys, other, policy)
    requires AtCommit(sys.txs[other])
    ensures TxOk(CommitTx(sys, other), tid, policy)
  {
    var next := CommitTx(sys, other);
    var tx, done := sys.txs[tid], sys.txs[other];
    TargetMeans(sys, other);
    CommitsAtomically(sys, other, policy);
    assert next.db == Commit(sys.db, done.req, done.now);
    if tx.at != AtOriginal {
      TargetMeans(sys, tid);
      TargetUndisturbed(sys.db.rows, tx.req, done.req, done.now, done.points);
      assert TargetOk(next, tid);
      OtherBalance(sys, tid, other, policy);
      OtherKeys(sys, tid, other, policy);
    }
  }

  lemma OtherBalance(sys: Sys, tid: int, other: int, policy: Policy)
    requires tid != other && tid in sys.txs && other in sys.txs
    requires TxOk(sys, tid, policy) && TxOk(sys, other, policy)
    requires sys.txs[other].at.AtNotice? && sys.txs[tid].at != AtOriginal
    requires CommitTx(sys, other).db == Commit(sys.db, sys.txs[other].req, sys.txs[other].now)
    requires TargetOk(CommitTx(sys, other), tid)
    ensures BalanceOk(CommitTx(sys, other), tid, policy)
  {
    var tx, done := sys.txs[tid], sys.txs[other];
    if LocksBalance(tx) {
      var client := ClientOf(sys.db.rows, tx.req);
      assert Held(sys, BalanceLock(client), tid);
      assert Held(sys, BalanceLock(ClientOf(sys.db.rows, done.req)), other);
      LimitUndisturbed(sys.db.rows, BalanceOf(sys.db, client), tx.req, tx.now, policy, done.req, done.now, done.points);
    }
  }

  lemma OtherKeys(sys: Sys, tid: int, other: int, policy: Policy)
    requires tid != other && tid in sys.txs && other in sys.txs
    requires TxOk(sys, tid, policy) && TxOk(sys, other, policy)
    requires sys.txs[other].at.AtNotice? && sys.txs[tid].at != AtOriginal
    requires CommitTx(sys, other).db == Commit(sys.db, sys.txs[other].req, sys.txs[other].now)
    requires TargetOk(CommitTx(sys, other), tid)
    ensures KeyOk(CommitTx(sys, other), tid) && NoticesOk(CommitTx(sys, other), tid)
  {
    var tx, done := sys.txs[tid], sys.txs[other];
    if tx.at.AtNotice? {
      assert Held(sys, TxKey(tx), tid) && Held(sys, TxKey(done), other);
      TakenUndisturbed(sys.db.rows, done.req, done.now, done.points, tx.req.store, KindOf(tx.req), tx.req.ext);
      var after := CommitTx(sys, other).db.outbox;
      forall key | key in tx.added
        ensures key !in after
      {
        assert Held(sys, NoticeLock(key), tid);
        assert key in done.added ==> Held(sys, NoticeLock(key), other);
      }
      OutboxUndisturbed(sys.db.outbox, after, Notices(sys.db.rows, tx.req), tx.at.k, tx.added);
    }
  }

  lemma OthersKept(sys: Sys, tid: int, policy: Policy, other: int)
    requires tid in sys.txs && Runnable(sys.txs[tid]) && !Blocked(sys, tid)
    requires other in sys.txs && other != tid
    ensures var next := Execute(sys, tid, policy);
            other in next.txs && next.txs[other] == sys.txs[other] && KeepsLocks(sys, next, other)
  {
  }

  lemma ExecuteKeepsTxs(sys: Sys, tid: int, policy: Policy)
    requires TxsOk(sys, policy) && tid in sys.txs && !Blocked(sys, tid)
    ensures TxsOk(Execute(sys, tid, policy), policy)
  {
    var next := Execute(sys, tid, policy);
    var tx := sys.txs[tid];
    assert TxOk(sys, tid, policy);
    StatementEffect(sys, tid, policy);
    forall t | t in next.txs
      ensures TxOk(next, t, policy)
    {
      if t == tid {
        match tx.at
        case AtNotice(_) => InsertsNotice(sys, tid, policy);
        case AtInsert => InsertsItsRow(sys, tid, policy);
        case AtAdjust => AdjustsTheBalance(sys, tid, policy);
        case AtLock | AtWindow => PassesTheLimit(sys, tid, policy);
        case AtOriginal | AtEnsure => LocksItsOriginal(sys, tid, policy);
      } else {
        assert TxOk(sys, t, policy);
        OthersKept(sys, tid, policy, t);
        if next.db == sys.db {
          SameDbKeeps(sys, next, t, policy);
        } else {
          CommitKeepsOther(sys, t, tid, policy);
        }
      }
    }
  }

  // ---- Locks are taken in order ----

  lemma InviteRank(invite: string)
    ensures Rank(NoticeLock(InviteKey(invite))) == 4
  {
    assert InviteKey(invite)[..7] == "invite:";
  }

  lemma NoticeRanks(req: Request, target: Option<Row>, k: nat)
    requires Suits(req, target)
    ensures 3 <= NoticeStage(req, target, k)
    ensures k < |NoticesFor(req, target)| ==> NoticeStage(req, target, k) < NoticeStage(req, target, k + 1)
  {
    LedgerKeyIsNoInvite(req.store, KindOf(req), req.ext);
    if req.AccrueReq? && req.invite.Some? {
      InviteRank(req.invite.value);
      assert |NoticesFor(req, target)| <= 2;
    }
  }

  lemma WantedRank(db: Db, tx: Tx)
    requires Runnable(tx) && Wanted(db, tx).Some?
    ensures Rank(Wanted(db, tx).value) == Stage(tx)
    ensures Stage(tx) == 1 ==> HasClient(tx) && Wanted(db, tx).value == BalanceLock(ClientFor(tx.req, tx.target))
  {
    if tx.at.AtNotice? {
      NoticeRanks(tx.req, tx.target, tx.at.k);
    }
  }

  /** One statement later a transaction is at the same or a later statement of the same request. */
  lemma Moved(sys: Sys, tid: int, policy: Policy)
    requires tid in sys.txs && Runnable(sys.txs[tid]) && tid in Execute(sys, tid, policy).txs
    ensures var tx, moved := sys.txs[tid], Execute(sys, tid, policy).txs[tid];
            && HasClient(moved) && moved.req == tx.req && (tx.at != AtOriginal ==> moved.target == tx.target)
            && moved.at == match tx.at
               case AtOriginal => AtEnsure
               case AtEnsure => if tx.req.RedeemReq? then AtLock else AtAdjust
               case AtLock => AtWindow
               case AtWindow => AtAdjust
               case AtAdjust => AtInsert
               case AtInsert => AtNotice(0)
               case AtNotice(k) => AtNotice(k + 1)
    ensures sys.txs[tid].at.AtNotice? ==>
              sys.txs[tid].at.k < |NoticesFor(sys.txs[tid].req, sys.txs[tid].target)|
  {
  }

  lemma StageGrows(sys: Sys, tid: int, policy: Policy)
    requires tid in sys.txs && Runnable(sys.txs[tid]) && tid in Execute(sys, tid, policy).txs
    ensures var tx, moved := sys.txs[tid], Execute(sys, tid, policy).txs[tid];
            && HasClient(moved)
            && (Stage(tx) < Stage(moved) || Stage(tx) == Stage(moved) == 1)
            && (tx.at != AtOriginal ==> moved.req == tx.req && moved.target == tx.target)
  {
    Moved(sys, tid, policy);
    var tx, moved := sys.txs[tid], Execute(sys, tid, policy).txs[tid];
    if tx.at.AtNotice? {
      NoticeRanks(tx.req, tx.target, tx.at.k);
    } else if moved.at.AtNotice? {
      NoticeRanks(moved.req, moved.target, 0);
    }
  }

  lemma LocksAfter(sys: Sys, tid: int, policy: Policy, lock: Lock)
    requires tid in sys.txs && Runnable(sys.txs[tid]) && !Blocked(sys, tid)
    requires lock in Execute(sys, tid, policy).locks
    ensures var next := Execute(sys, tid, policy);
            if next.locks[lock] == tid
            then tid in next.txs && (Held(sys, lock, tid) || Wanted(sys.db, sys.txs[tid]) == Some(lock))
            else lock in sys.locks && sys.locks[lock] == next.locks[lock]
  {
  }

  lemma ExecuteKeepsLocks(sys: Sys, tid: int, policy: Policy)
    requires LocksOk(sys) && tid in sys.txs && Runnable(sys.txs[tid]) && !Blocked(sys, tid)
    ensures LocksOk(Execute(sys, tid, policy))
  {
    var next := Execute(sys, tid, policy);
    forall lock | lock in next.locks
      ensures LockOk(next, lock)
    {
      LocksAfter(sys, tid, policy, lock);
      if next.locks[lock] == tid {
        StageGrows(sys, tid, policy);
        if Held(sys, lock, tid) {
          assert LockOk(sys, lock);
        } else {
          WantedRank(sys.db, sys.txs[tid]);
        }
      } else {
        assert LockOk(sys, lock);
        OthersKept(sys, tid, policy, next.locks[lock]);
      }
    }
  }

  // ---- Refinement ----

  lemma AnswerExplained(answers: seq<Answer>, answer: Answer, policy: Policy)
    requires Explains(answers, policy)
    requires var db := Reached(Steps(answers), policy);
             answer.error == Checks(db, answer.step.req, answer.step.now, policy)
    ensures Explains(answers + [answer], policy)
    ensures Reached(Steps(answers + [answer]), policy)
         == After(Reached(Steps(answers), policy), answer.step.req, answer.step.now, policy)
  {
    var all := answers + [answer];
    assert all[..|answers|] == answers;
    assert Steps(all)[..|answers|] == Steps(answers);
    forall i | 0 <= i < |all|
      ensures all[i].error == Checks(Reached(Steps(all[..i]), policy), all[i].step.req, all[i].step.now, policy)
    {
      if i < |answers| {
        assert all[..i] == answers[..i];
      }
    }
  }

  lemma AdvanceInv(sys: Sys, tid: int, policy: Policy)
    requires SysInv(sys, policy) && tid in sys.txs && !Blocked(sys, tid)
    ensures SysInv(Execute(sys, tid, policy), policy)
  {
    assert TxOk(sys, tid, policy);
    ExecuteKeepsTxs(sys, tid, policy);
    ExecuteKeepsLocks(sys, tid, policy);
    StatementEffect(sys, tid, policy);
    var tx, error := sys.txs[tid], StatementError(sys, tid, policy);
    var answer := Answer(Step(tx.req, tx.now), error);
    if error.Some? {
      RejectsAtomically(sys, tid, policy);
      AnswerExplained(sys.answers, answer, policy);
    } else if AtCommit(tx) {
      CommitsAtomically(sys, tid, policy);
      AnswerExplained(sys.answers, answer, policy);
    }
  }

  lemma CloseInv(sys: Sys, tid: int, policy: Policy)
    requires SysInv(sys, policy)
    ensures SysInv(Close(sys, tid), policy)
  {
    var next := Close(sys, tid);
    forall t | t in next.txs
      ensures TxOk(next, t, policy)
    {
      assert TxOk(sys, t, policy);
      SameDbKeeps(sys, next, t, policy);
    }
    forall lock | lock in next.locks
      ensures LockOk(next, lock)
    {
      assert LockOk(sys, lock);
    }
  }

  lemma OpenedOk(sys: Sys, tid: int, policy: Policy)
    requires tid in sys.txs && exists req, now :: sys.txs[tid] == Opened(req, now)
    ensures TxOk(sys, tid, policy)
  {
  }

  lemma BeginInv(sys: Sys, tid: int, req: Request, now: int, policy: Policy)
    requires SysInv(sys, policy) && tid !in sys.txs
    ensures SysInv(sys.(txs := sys.txs[tid := Opened(req, now)]), policy)
  {
    var next := sys.(txs := sys.txs[tid := Opened(req, now)]);
    forall t | t in next.txs
      ensures TxOk(next, t, policy)
    {
      if t != tid {
        assert TxOk(sys, t, policy);
        SameDbKeeps(sys, next, t, policy);
      } else {
        OpenedOk(next, tid, policy);
      }
    }
    forall lock | lock in next.locks
      ensures LockOk(next, lock)
    {
      assert LockOk(sys, lock);
    }
  }

  lemma {:induction false} ExecInv(actions: seq<Action>, policy: Policy)
    ensures SysInv(Exec(actions, policy), policy)
  {
    if actions != [] {
      var sys, action := Exec(actions[..|actions| - 1], policy), actions[|actions| - 1];
      ExecInv(actions[..|actions| - 1], policy);
      match action
      case Begin(tid, req, now) =>
        if tid !in sys.txs {
          BeginInv(sys, tid, req, now, policy);
        }
      case Kill(tid) => CloseInv(sys, tid, policy);
      case Advance(tid) =>
        if tid in sys.txs && !Blocked(sys, tid) {
          AdvanceInv(sys, tid, policy);
        }
    }
  }

  /**
   Whatever the interleaving, waiting and losses, the committed tables are those of running the answered
   requests one at a time in the order they were answered, each with the answer it got; a transaction that
   was lost or is still open has left nothing.
   */
  lemma Serializable(actions: seq<Action>, policy: Policy)
    ensures var sys := Exec(actions, policy);
            && sys.db == Reached(Steps(sys.answers), policy)
            && forall i | 0 <= i < |sys.answers| ::
                 sys.answers[i].error ==
                 Checks(Reached(Steps(sys.answers[..i]), policy),
                        sys.answers[i].step.req, sys.answers[i].step.now, policy)
  {
    ExecInv(actions, policy);
  }

  /** The limit holds under concurrency although a redemption is dated by when its transaction began. */
  lemma RollingLimitUnderConcurrency(actions: seq<Action>, policy: Policy, client: int, s: int)
    requires policy.dailyLimit > 0
    ensures Sum(Exec(actions, policy).db.rows, RedeemedWithin(client, s, s + policy.window)) <= policy.dailyLimit
  {
    Serializable(actions, policy);
    RollingLimit(Steps(Exec(actions, policy).answers), policy, client, s);
  }

  // ---- No deadlock ----

  lemma {:induction false} HighestStage(txs: map<int, Tx>, among: set<int>, some: int) returns (top: int)
    requires some in among && among <= txs.Keys
    ensures top in among && forall t | t in among :: Stage(txs[t]) <= Stage(txs[top])
    decreases |among|
  {
    top := some;
    var rest := among - {some};
    assert forall t | t in among :: t == some || t in rest;
    if another :| another in rest {
      var best := HighestStage(txs, rest, another);
      if Stage(txs[best]) > Stage(txs[top]) {
        top := best;
      }
    }
  }

  /** While any transaction is open, some open one can execute its next statement: waiting never closes a circle. */
  lemma NoDeadlock(actions: seq<Action>, policy: Policy, open: int) returns (free: int)
    requires open in Exec(actions, policy).txs
    ensures free in Exec(actions, policy).txs && Runnable(Exec(actions, policy).txs[free])
    ensures !Blocked(Exec(actions, policy), free)
    ensures Next(Exec(actions, policy), Advance(free), policy) == Execute(Exec(actions, policy), free, policy)
  {
    var sys := Exec(actions, policy);
    ExecInv(actions, policy);
    free := HighestStage(sys.txs, sys.txs.Keys, open);
    assert TxOk(sys, free, policy);
    if Blocked(sys, free) {
      var lock := Wanted(sys.db, sys.txs[free]).value;
      WantedRank(sys.db, sys.txs[free]);
      assert LockOk(sys, lock);
      free := sys.locks[lock];
      assert TxOk(sys, free, policy);
      if Wanted(sys.db, sys.txs[free]).Some? {
        WantedRank(sys.db, sys.txs[free]);
      }
    }
  }
}
