/** The notification outbox: leased claims by any number of workers, retries and dead letters. */
module OutboxWorker {
  import opened Backoff
  import opened Money

  datatype Status = Pending | Processing | Delivered | DeadLetter

  datatype Entry = Entry(status: Status, attempts: nat, nextAttempt: int)

  /** lease and timeout in one unit of time; a poll claims at most `batch` entries. */
  datatype Config = Config(lease: int, timeout: int, batch: nat, maxAttempts: nat, base: int, max: int)

  predicate Open(e: Entry) {
    e.status == Pending || e.status == Processing
  }

  predicate Due(e: Entry, now: int) {
    Open(e) && e.nextAttempt <= now
  }

  function Claimed(e: Entry, now: int, lease: int): Entry {
    e.(status := Processing, nextAttempt := now + lease)
  }

  /** What deliver does to the row of an entry it was handed with `attempts`: the marks are not conditional. */
  function Marked(e: Entry, attempts: nat, sent: bool, now: int, cfg: Config): Entry {
    if sent then e.(status := Delivered)
    else if attempts + 1 >= cfg.maxAttempts then e.(status := DeadLetter, attempts := e.attempts + 1)
    else Entry(Pending, e.attempts + 1, now + BackoffFor(cfg.base, cfg.max, attempts + 1))
  }

  // ---- The repository and one worker's poll ----

  function Claimable(rows: map<int, Entry>, now: int, locked: set<int>): set<int> {
    set id | id in rows && Due(rows[id], now) && id !in locked
  }

  ghost predicate NotAfter(rows: map<int, Entry>, id: int, other: int) {
    id in rows && other in rows && rows[id].nextAttempt <= rows[other].nextAttempt
  }

  /** No entry of the batch is due later than id. */
  ghost predicate NoneLater(rows: map<int, Entry>, batch: seq<int>, id: int) {
    forall i | 0 <= i < |batch| :: NotAfter(rows, batch[i], id)
  }

  ghost predicate OldestFirst(rows: map<int, Entry>, batch: seq<int>) {
    forall i, j | 0 <= i < j < |batch| :: batch[i] != batch[j] && NotAfter(rows, batch[i], batch[j])
  }

  lemma SomeMember(s: set<int>)
    requires |s| > 0
    ensures exists x :: x in s
  {
    assert (forall x :: x !in s) ==> s == {};
  }

  lemma OldestNext(rows: map<int, Entry>, batch: seq<int>, id: int)
    requires OldestFirst(rows, batch) && NoneLater(rows, batch, id) && id !in batch && id in rows
    ensures OldestFirst(rows, batch + [id])
    ensures forall other | NotAfter(rows, id, other) && NoneLater(rows, batch, other) ::
              NoneLater(rows, batch + [id], other)
  {
  }

  /** What a poll makes of an entry: delivered if sent, dead after the last attempt, else due after the backoff. */
  ghost predicate Settled(before: Entry, after: Entry, claimed: bool, sent: bool, now: int, cfg: Config) {
    if !claimed then after == before
    else if sent then after.status == Delivered && after.attempts == before.attempts
    else
      && after.attempts == before.attempts + 1
      && (if after.attempts >= cfg.maxAttempts then after.status == DeadLetter
          else
            && after.status == Pending
            && (cfg.max > 0 && SafeBase(cfg.base, cfg.max) ==>
                  after.nextAttempt == now + Min(cfg.base * Pow2(before.attempts), cfg.max)))
  }

  lemma MarkedSettles(e: Entry, sent: bool, now: int, cfg: Config)
    ensures Settled(e, Marked(Claimed(e, now, cfg.lease), e.attempts, sent, now, cfg), true, sent, now, cfg)
  {
    if cfg.max > 0 && SafeBase(cfg.base, cfg.max) {
      SafeBackoff(cfg.base, cfg.max, e.attempts + 1);
    }
  }

  class NotificationOutbox {
    var rows: map<int, Entry>

    constructor ()
      ensures rows == map[]
    {
      rows := map[];
    }

    /** Some earliest entry among ids. */
    method Oldest(ids: set<int>) returns (oldest: int)
      requires |ids| > 0 && ids <= rows.Keys
      ensures oldest in ids
      ensures forall id | id in ids :: rows[oldest].nextAttempt <= rows[id].nextAttempt
    {
      SomeMember(ids);
      oldest :| oldest in ids;
      var rest := ids - {oldest};
      while |rest| > 0
        invariant rest <= ids && oldest in ids
        invariant forall id | id in ids - rest :: rows[oldest].nextAttempt <= rows[id].nextAttempt
        decreases rest
      {
        SomeMember(rest);
        var id :| id in rest;
        if rows[id].nextAttempt < rows[oldest].nextAttempt {
          oldest := id;
        }
        rest := rest - {id};
      }
    }

    /** The `limit` oldest due entries another claim has not locked, oldest first, leased to the caller. */
    method ClaimBatch(limit: nat, now: int, lease: int, locked: set<int>) returns (batch: seq<int>)
      modifies this
      ensures |batch| <= limit && OldestFirst(old(rows), batch)
      ensures forall id | id in batch :: id in Claimable(old(rows), now, locked)
      ensures |batch| == limit || forall id | id in Claimable(old(rows), now, locked) :: id in batch
      ensures forall id :: id in Claimable(old(rows), now, locked) <==>
                && id in old(rows) && id !in locked && old(rows)[id].nextAttempt <= now
                && old(rows)[id].status != Delivered && old(rows)[id].status != DeadLetter
      ensures forall id | id in batch ::
                id in rows && rows[id] == Entry(Processing, old(rows)[id].attempts, now + lease)
      ensures forall id | id in Claimable(old(rows), now, locked) && id !in batch :: NoneLater(old(rows), batch, id)
      ensures rows == map id | id in old(rows) ::
                if id in batch then Claimed(old(rows)[id], now, lease) else old(rows)[id]
    {
      var due := Claimable(rows, now, locked);
      var rest := due;
      batch := [];
      while |batch| < limit && |rest| > 0
        invariant rest <= due && |batch| <= limit && rows == old(rows)
        invariant forall id :: id in batch <==> id in due && id !in rest
        invariant OldestFirst(rows, batch)
        invariant forall id | id in rest :: NoneLater(rows, batch, id)
        decreases rest
      {
        var id := Oldest(rest);
        OldestNext(rows, batch, id);
        batch := batch + [id];
        rest := rest - {id};
      }
      rows := map id | id in rows :: if id in batch then Claimed(rows[id], now, lease) else rows[id];
    }

    method MarkDelivered(id: int)
      modifies this
      ensures rows == if id in old(rows) then old(rows)[id := old(rows)[id].(status := Delivered)] else old(rows)
    {
      if id in rows {
        rows := rows[id := rows[id].(status := Delivered)];
      }
    }

    method MarkFailed(id: int, next: int)
      modifies this
      ensures rows == if id in old(rows) then old(rows)[id := Entry(Pending, old(rows)[id].attempts + 1, next)]
                      else old(rows)
    {
      if id in rows {
        rows := rows[id := Entry(Pending, rows[id].attempts + 1, next)];
      }
    }

    method MarkDeadLetter(id: int)
      modifies this
      ensures rows == if id in old(rows)
                      then old(rows)[id := old(rows)[id].(status := DeadLetter, attempts := old(rows)[id].attempts + 1)]
                      else old(rows)
    {
      if id in rows {
        rows := rows[id := rows[id].(status := DeadLetter, attempts := rows[id].attempts + 1)];
      }
    }

    /** deliver: resolve one claimed entry according to whether sending it worked. */
    method Deliver(id: int, attempts: nat, sent: bool, now: int, cfg: Config)
      requires id in rows
      modifies this
      ensures rows == old(rows)[id := Marked(old(rows)[id], attempts, sent, now, cfg)]
      ensures var e := old(rows)[id];
              && (sent ==> rows[id] == e.(status := Delivered))
              && (!sent && attempts + 1 < cfg.maxAttempts ==>
                    rows[id].status == Pending && rows[id].attempts == e.attempts + 1)
              && (!sent && attempts + 1 < cfg.maxAttempts && cfg.max > 0 && SafeBase(cfg.base, cfg.max) ==>
                    rows[id].nextAttempt == now + Min(cfg.base * Pow2(attempts), cfg.max))
              && (!sent && attempts + 1 >= cfg.maxAttempts ==>
                    rows[id] == e.(status := DeadLetter, attempts := e.attempts + 1))
    {
      if cfg.max > 0 && SafeBase(cfg.base, cfg.max) {
        SafeBackoff(cfg.base, cfg.max, attempts + 1);
      }
      if sent {
        MarkDelivered(id);
        return;
      }
      if attempts + 1 >= cfg.maxAttempts {
        MarkDeadLetter(id);
        return;
      }
      MarkFailed(id, now + BackoffFor(cfg.base, cfg.max, attempts + 1));
    }

    /** pollOnce without interference: the claimed batch is resolved, everything else is untouched. */
    method PollOnce(now: int, cfg: Config, sends: int -> bool) returns (batch: seq<int>)
      modifies this
      ensures |batch| <= cfg.batch && OldestFirst(old(rows), batch)
      ensures forall id | id in batch :: id in Claimable(old(rows), now, {})
      ensures |batch| == cfg.batch || forall id | id in Claimable(old(rows), now, {}) :: id in batch
      ensures rows == map id | id in old(rows) ::
                if id in batch
                then Marked(Claimed(old(rows)[id], now, cfg.lease), old(rows)[id].attempts, sends(id), now, cfg)
                else old(rows)[id]
      ensures rows.Keys == old(rows).Keys && forall id | id in old(rows) ::
                Settled(old(rows)[id], rows[id], id in batch, sends(id), now, cfg)
    {
      forall e: Entry, sent: bool
        ensures Settled(e, Marked(Claimed(e, now, cfg.lease), e.attempts, sent, now, cfg), true, sent, now, cfg)
      {
        MarkedSettles(e, sent, now, cfg);
      }
      batch := ClaimBatch(cfg.batch, now, cfg.lease, {});
      ghost var claimed := rows;
      for i := 0 to |batch|
        invariant rows == map id | id in claimed ::
                    if id in batch[..i] then Marked(claimed[id], claimed[id].attempts, sends(id), now, cfg)
                    else claimed[id]
      {
        var id := batch[i];
        assert batch[..i + 1] == batch[..i] + [id];
        assert id in batch && id in claimed && id !in batch[..i];
        Deliver(id, rows[id].attempts, sends(id), now, cfg);
      }
      assert batch[..|batch|] == batch;
    }
  }

  // ---- Many workers ----

  /** A poll has one deadline for everything it does; it holds the entries it claimed with their attempts then. */
  datatype Poll = Poll(deadline: int, claimed: bool, holding: map<int, nat>)

  datatype Sys = Sys(now: int, rows: map<int, Entry>, polls: map<int, Poll>)

  datatype Action =
    | Tick(elapsed: nat)
    | Enqueue(id: int)
    | StartPoll(worker: int)
    | Claim(worker: int, ids: set<int>)
    | Mark(worker: int, id: int, sent: bool)
    | Drop(worker: int, id: int)   // a mark that never reached the database
    | EndPoll(worker: int)         // done, or crashed

  const START: Sys := Sys(0, map[], map[])

  /** The worker may still act on the entry: it holds it and its poll is not past the deadline. */
  predicate Holds(sys: Sys, worker: int, id: int) {
    worker in sys.polls && id in sys.polls[worker].holding && sys.now <= sys.polls[worker].deadline
  }

  predicate CanClaim(sys: Sys, worker: int, ids: set<int>, cfg: Config) {
    && worker in sys.polls && !sys.polls[worker].claimed && sys.now <= sys.polls[worker].deadline
    && |ids| <= cfg.batch && forall id | id in ids :: id in sys.rows && Due(sys.rows[id], sys.now)
  }

  function Let(sys: Sys, worker: int, id: int): Sys
    requires worker in sys.polls
  {
    var poll := sys.polls[worker];
    sys.(polls := sys.polls[worker := poll.(holding := poll.holding - {id})])
  }

  function Next(sys: Sys, action: Action, cfg: Config): Sys {
    match action
    case Tick(elapsed) => sys.(now := sys.now + elapsed)
    case Enqueue(id) => if id in sys.rows then sys else sys.(rows := sys.rows[id := Entry(Pending, 0, sys.now)])
    case StartPoll(worker) =>
      if worker in sys.polls then sys
      else sys.(polls := sys.polls[worker := Poll(sys.now + cfg.timeout, false, map[])])
    case Claim(worker, ids) =>
      if !CanClaim(sys, worker, ids, cfg) then sys
      else
        sys.(rows := map id | id in sys.rows ::
               if id in ids then Claimed(sys.rows[id], sys.now, cfg.lease) else sys.rows[id],
             polls := sys.polls[worker := sys.polls[worker].(claimed := true,
               holding := map id | id in sys.rows && id in ids :: sys.rows[id].attempts)])
    case Mark(worker, id, sent) =>
      if !Holds(sys, worker, id) || id !in sys.rows then sys
      else
        Let(sys, worker, id).(rows :=
          sys.rows[id := Marked(sys.rows[id], sys.polls[worker].holding[id], sent, sys.now, cfg)])
    case Drop(worker, id) => if worker in sys.polls then Let(sys, worker, id) else sys
    case EndPoll(worker) => sys.(polls := sys.polls - {worker})
  }

  function Exec(sys: Sys, actions: seq<Action>, cfg: Config): Sys {
    if actions == [] then sys else Next(Exec(sys, actions[..|actions| - 1], cfg), actions[|actions| - 1], cfg)
  }

  /** A held entry is processing, unchanged since the claim, and leased beyond its holder's deadline. */
  ghost predicate HeldOk(sys: Sys, worker: int, id: int) {
    Holds(sys, worker, id) ==>
      && id in sys.rows && sys.rows[id].status == Processing
      && sys.rows[id].attempts == sys.polls[worker].holding[id]
      && sys.rows[id].nextAttempt > sys.polls[worker].deadline
  }

  ghost predicate EntryOk(e: Entry, cfg: Config) {
    && (Open(e) ==> e.attempts < cfg.maxAttempts)
    && (e.status == DeadLetter ==> e.attempts == cfg.maxAttempts)
    && (e.status == Delivered ==> e.attempts < cfg.maxAttempts)
  }

  ghost predicate SysOk(sys: Sys, cfg: Config) {
    && (forall id | id in sys.rows :: EntryOk(sys.rows[id], cfg))
    && (forall w, id :: HeldOk(sys, w, id))
    && (forall w, v, id | Holds(sys, w, id) && Holds(sys, v, id) :: w == v)
    && (forall w | w in sys.polls :: sys.polls[w].deadline <= sys.now + cfg.timeout)
    && (forall w | w in sys.polls && !sys.polls[w].claimed :: sys.polls[w].holding == map[])
  }

  /** Terminal entries never change again. */
  ghost predicate TerminalKept(before: map<int, Entry>, after: map<int, Entry>) {
    forall id | id in before :: id in after && (!Open(before[id]) ==> after[id] == before[id])
  }

  lemma ClaimKeeps(sys: Sys, worker: int, ids: set<int>, cfg: Config)
    requires SysOk(sys, cfg) && cfg.timeout < cfg.lease
    ensures SysOk(Next(sys, Claim(worker, ids), cfg), cfg)
    ensures TerminalKept(sys.rows, Next(sys, Claim(worker, ids), cfg).rows)
  {
    var next := Next(sys, Claim(worker, ids), cfg);
    if CanClaim(sys, worker, ids, cfg) {
      forall w, id
        ensures HeldOk(next, w, id) && (Holds(next, w, id) && id in ids ==> w == worker)
        ensures Holds(next, w, id) && id !in ids ==> Holds(sys, w, id)
      {
        assert HeldOk(sys, w, id);
      }
    }
  }

  lemma MarkKeeps(sys: Sys, worker: int, id: int, sent: bool, cfg: Config)
    requires SysOk(sys, cfg) && cfg.maxAttempts > 0
    ensures SysOk(Next(sys, Mark(worker, id, sent), cfg), cfg)
    ensures TerminalKept(sys.rows, Next(sys, Mark(worker, id, sent), cfg).rows)
  {
    var next := Next(sys, Mark(worker, id, sent), cfg);
    if Holds(sys, worker, id) {
      assert HeldOk(sys, worker, id);
      forall w, i
        ensures Holds(next, w, i) ==> Holds(sys, w, i) && i != id
        ensures HeldOk(next, w, i)
      {
        assert HeldOk(sys, w, i);
        assert Holds(next, w, i) ==> Holds(sys, w, i);
        assert Holds(sys, w, id) ==> w == worker;
      }
    }
  }

  /** Time passing and new entries disturb nobody's holding. */
  lemma RowsGrowKeeps(sys: Sys, action: Action, cfg: Config)
    requires SysOk(sys, cfg) && cfg.maxAttempts > 0 && (action.Tick? || action.Enqueue?)
    ensures SysOk(Next(sys, action, cfg), cfg) && TerminalKept(sys.rows, Next(sys, action, cfg).rows)
  {
    var next := Next(sys, action, cfg);
    assert next.polls == sys.polls;
    forall w, id
      ensures Holds(next, w, id) ==> Holds(sys, w, id)
      ensures HeldOk(next, w, id)
    {
      assert HeldOk(sys, w, id);
    }
  }

  /** Polls that begin, let go or end hold no more than before. */
  lemma PollsShrinkKeeps(sys: Sys, action: Action, cfg: Config)
    requires SysOk(sys, cfg) && (action.StartPoll? || action.Drop? || action.EndPoll?)
    ensures SysOk(Next(sys, action, cfg), cfg) && TerminalKept(sys.rows, Next(sys, action, cfg).rows)
  {
    var next := Next(sys, action, cfg);
    assert next.rows == sys.rows && next.now == sys.now;
    forall w, id
      ensures Holds(next, w, id) ==> Holds(sys, w, id) && next.polls[w].deadline == sys.polls[w].deadline
      ensures HeldOk(next, w, id)
    {
      assert HeldOk(sys, w, id);
    }
  }

  lemma NextKeeps(sys: Sys, action: Action, cfg: Config)
    requires SysOk(sys, cfg) && cfg.timeout < cfg.lease && cfg.maxAttempts > 0
    ensures SysOk(Next(sys, action, cfg), cfg) && TerminalKept(sys.rows, Next(sys, action, cfg).rows)
  {
    match action
    case Claim(worker, ids) => ClaimKeeps(sys, worker, ids, cfg);
    case Mark(worker, id, sent) => MarkKeeps(sys, worker, id, sent, cfg);
    case Tick(_) => RowsGrowKeeps(sys, action, cfg);
    case Enqueue(_) => RowsGrowKeeps(sys, action, cfg);
    case _ => PollsShrinkKeeps(sys, action, cfg);
  }

  /**
   With a lease longer than a poll may last, however many workers poll, crash and lose marks: nobody acts
   on an entry another one holds, delivered and dead-lettered entries are final, and an entry is dead-lettered
   after exactly maxAttempts counted attempts.
   */
  lemma {:induction false} LeasesAreExclusive(sys: Sys, actions: seq<Action>, cfg: Config)
    requires SysOk(sys, cfg) && cfg.timeout < cfg.lease && cfg.maxAttempts > 0
    ensures SysOk(Exec(sys, actions, cfg), cfg)
    ensures TerminalKept(sys.rows, Exec(sys, actions, cfg).rows)
  {
    if actions != [] {
      var before := Exec(sys, actions[..|actions| - 1], cfg);
      LeasesAreExclusive(sys, actions[..|actions| - 1], cfg);
      NextKeeps(before, actions[|actions| - 1], cfg);
    }
  }

  /** Nothing is due later than a lease or a backoff from now, and no poll lasts longer than its timeout. */
  ghost predicate InReach(sys: Sys, reach: int, cfg: Config) {
    && (forall id | id in sys.rows && Open(sys.rows[id]) :: sys.rows[id].nextAttempt <= sys.now + reach)
    && (forall w | w in sys.polls :: sys.polls[w].deadline <= sys.now + cfg.timeout)
  }

  lemma {:induction false} StaysInReach(actions: seq<Action>, reach: nat, cfg: Config)
    requires cfg.lease <= reach && cfg.max <= reach
    ensures InReach(Exec(START, actions, cfg), reach, cfg)
  {
    if actions != [] {
      StaysInReach(actions[..|actions| - 1], reach, cfg);
    }
  }

  /** Whatever crashed or was lost: a lease, a poll and a backoff later an open entry is free and can be claimed. */
  lemma NeverStranded(actions: seq<Action>, elapsed: nat, cfg: Config, id: int)
    requires cfg.lease <= elapsed && cfg.max <= elapsed && cfg.timeout < elapsed
    ensures var sys, end := Exec(START, actions, cfg), Exec(START, actions + [Tick(elapsed)], cfg);
            && (id in sys.rows && Open(sys.rows[id]) ==> id in Claimable(end.rows, end.now, {}))
            && forall w :: !Holds(end, w, id)
  {
    StaysInReach(actions, elapsed, cfg);
    assert (actions + [Tick(elapsed)])[..|actions|] == actions;
  }

  /** The n-th action marks the entry as sent or failed, by a worker that holds it. */
  ghost predicate MarksHeld(actions: seq<Action>, n: int, id: int, sent: bool, cfg: Config) {
    && 0 <= n < |actions| && actions[n].Mark? && actions[n].id == id && actions[n].sent == sent
    && Holds(Exec(START, actions[..n], cfg), actions[n].worker, id)
  }

  lemma MarksHeldEarlier(actions: seq<Action>, n: int, id: int, sent: bool, cfg: Config)
    requires actions != [] && n < |actions| - 1
    ensures MarksHeld(actions, n, id, sent, cfg) <==> MarksHeld(actions[..|actions| - 1], n, id, sent, cfg)
  {
    assert n >= 0 ==> actions[..|actions| - 1][..n] == actions[..n];
  }

  predicate IsDelivered(sys: Sys, id: int) {
    id in sys.rows && sys.rows[id].status == Delivered
  }

  /** One action delivers an entry exactly if it marks it sent while held; otherwise it stays as delivered as it was. */
  lemma DeliveredByOne(sys: Sys, action: Action, id: int, cfg: Config)
    requires SysOk(sys, cfg) && cfg.timeout < cfg.lease && cfg.maxAttempts > 0
    ensures IsDelivered(Next(sys, action, cfg), id) <==>
            || IsDelivered(sys, id)
            || (action.Mark? && action.id == id && action.sent && Holds(sys, action.worker, id))
  {
    NextKeeps(sys, action, cfg);
    if action.Mark? && Holds(sys, action.worker, action.id) {
      assert HeldOk(sys, action.worker, action.id);
    }
  }

  /** On every run an entry is delivered exactly if a mark of a successful send reached it from its holder. */
  lemma {:induction false} DeliveredExactly(actions: seq<Action>, cfg: Config, id: int)
    requires cfg.timeout < cfg.lease && cfg.maxAttempts > 0
    ensures IsDelivered(Exec(START, actions, cfg), id) <==> exists n :: MarksHeld(actions, n, id, true, cfg)
  {
    if actions != [] {
      var last := |actions| - 1;
      DeliveredExactly(actions[..last], cfg, id);
      LeasesAreExclusive(START, actions[..last], cfg);
      DeliveredByOne(Exec(START, actions[..last], cfg), actions[last], id, cfg);
      forall n | n < last
        ensures MarksHeld(actions, n, id, true, cfg) <==> MarksHeld(actions[..last], n, id, true, cfg)
      {
        MarksHeldEarlier(actions, n, id, true, cfg);
      }
      assert MarksHeld(actions, last, id, true, cfg) <==>
          actions[last].Mark? && actions[last].id == id && actions[last].sent
          && Holds(Exec(START, actions[..last], cfg), actions[last].worker, id);
    }
  }

  /** How many marks of a failed send reached the entry from its holder. */
  ghost function Failures(actions: seq<Action>, id: int, cfg: Config): nat {
    if actions == [] then 0
    else
      Failures(actions[..|actions| - 1], id, cfg)
      + (if MarksHeld(actions, |actions| - 1, id, false, cfg) then 1 else 0)
  }

  /** An entry's attempts are its failed sends, and the maxAttempts-th makes it a dead letter. */
  lemma {:induction false} AttemptsAreFailures(actions: seq<Action>, cfg: Config, id: int)
    requires cfg.timeout < cfg.lease && cfg.maxAttempts > 0 && id in Exec(START, actions, cfg).rows
    ensures Exec(START, actions, cfg).rows[id].attempts == Failures(actions, id, cfg)
    ensures Exec(START, actions, cfg).rows[id].status == DeadLetter <==> Failures(actions, id, cfg) == cfg.maxAttempts
  {
    LeasesAreExclusive(START, actions, cfg);
    var last := |actions| - 1;
    var before := Exec(START, actions[..last], cfg);
    LeasesAreExclusive(START, actions[..last], cfg);
    if id in before.rows {
      AttemptsAreFailures(actions[..last], cfg, id);
      AttemptsByOne(before, actions[last], id, cfg);
    } else {
      NeverMarked(actions[..last], id, cfg);
      NobodyHolds(before, id, cfg);
    }
  }

  lemma NobodyHolds(sys: Sys, id: int, cfg: Config)
    requires SysOk(sys, cfg) && id !in sys.rows
    ensures forall w :: !Holds(sys, w, id)
  {
    forall w
      ensures !Holds(sys, w, id)
    {
      assert HeldOk(sys, w, id);
    }
  }

  lemma AttemptsByOne(sys: Sys, action: Action, id: int, cfg: Config)
    requires SysOk(sys, cfg) && id in sys.rows
    ensures var next := Next(sys, action, cfg);
            && id in next.rows
            && next.rows[id].attempts == sys.rows[id].attempts
               + (if action.Mark? && action.id == id && !action.sent && Holds(sys, action.worker, id) then 1 else 0)
  {
  }

  lemma {:induction false} NeverMarked(actions: seq<Action>, id: int, cfg: Config)
    requires cfg.timeout < cfg.lease && cfg.maxAttempts > 0 && id !in Exec(START, actions, cfg).rows
    ensures Failures(actions, id, cfg) == 0
  {
    if actions != [] {
      var last := |actions| - 1;
      var before := Exec(START, actions[..last], cfg);
      LeasesAreExclusive(START, actions[..last], cfg);
      NextKeeps(before, actions[last], cfg);
      NeverMarked(actions[..last], id, cfg);
      NobodyHolds(before, id, cfg);
    }
  }

  ghost predicate TwoHolders(sys: Sys) {
    exists w, v, id :: w != v && Holds(sys, w, id) && Holds(sys, v, id)
  }

  lemma ExecSnoc(sys: Sys, actions: seq<Action>, action: Action, cfg: Config)
    ensures Exec(sys, actions + [action], cfg) == Next(Exec(sys, actions, cfg), action, cfg)
  {
    assert (actions + [action])[..|actions|] == actions;
  }

  lemma FirstClaim(cfg: Config)
    requires cfg.batch > 0 && cfg.timeout >= 0
    ensures Next(Next(Next(START, Enqueue(7), cfg), StartPoll(1), cfg), Claim(1, {7}), cfg)
         == Sys(0, map[7 := Entry(Processing, 0, cfg.lease)], map[1 := Poll(cfg.timeout, true, map[7 := 0])])
  {
    var sys := Next(Next(START, Enqueue(7), cfg), StartPoll(1), cfg);
    assert sys == Sys(0, map[7 := Entry(Pending, 0, 0)], map[1 := Poll(cfg.timeout, false, map[])]);
    assert CanClaim(sys, 1, {7}, cfg);
    var next := Next(sys, Claim(1, {7}), cfg);
    assert next.rows == map[7 := Entry(Processing, 0, cfg.lease)];
    assert next.polls[1].holding == map[7 := 0];
  }

  lemma SecondClaim(cfg: Config, sys: Sys)
    requires cfg.batch > 0 && 0 <= cfg.lease <= cfg.timeout
    requires sys == Sys(0, map[7 := Entry(Processing, 0, cfg.lease)], map[1 := Poll(cfg.timeout, true, map[7 := 0])])
    ensures TwoHolders(Next(Next(Next(sys, Tick(cfg.lease), cfg), StartPoll(2), cfg), Claim(2, {7}), cfg))
  {
    var late := Next(Next(sys, Tick(cfg.lease), cfg), StartPoll(2), cfg);
    assert CanClaim(late, 2, {7}, cfg);
    var both := Next(late, Claim(2, {7}), cfg);
    assert Holds(both, 1, 7) && Holds(both, 2, 7);
  }

  /** A poll that may outlast its lease: a second worker claims the entry while the first still acts on it. */
  lemma OverlongPoll(cfg: Config) returns (actions: seq<Action>)
    requires 0 <= cfg.lease <= cfg.timeout && cfg.batch > 0
    ensures TwoHolders(Exec(START, actions, cfg))
  {
    actions := [Enqueue(7)] + [StartPoll(1)];
    ExecSnoc(START, [], Enqueue(7), cfg);
    ExecSnoc(START, [Enqueue(7)], StartPoll(1), cfg);
    ExecSnoc(START, actions, Claim(1, {7}), cfg);
    assert [] + [Enqueue(7)] == [Enqueue(7)];
    actions := actions + [Claim(1, {7})];
    FirstClaim(cfg);
    SecondClaim(cfg, Exec(START, actions, cfg));
    ExecSnoc(START, actions, Tick(cfg.lease), cfg);
    ExecSnoc(START, actions + [Tick(cfg.lease)], StartPoll(2), cfg);
    ExecSnoc(START, actions + [Tick(cfg.lease)] + [StartPoll(2)], Claim(2, {7}), cfg);
    actions := actions + [Tick(cfg.lease)] + [StartPoll(2)] + [Claim(2, {7})];
  }

  ghost predicate Exclusive(actions: seq<Action>, cfg: Config) {
    !TwoHolders(Exec(START, actions, cfg))
  }

  /** Exclusive claims on every run are exactly what a lease longer than the poll timeout buys. */
  lemma ExclusiveExactlyWhenLeaseIsLonger(cfg: Config)
    requires cfg.lease >= 0 && cfg.timeout >= 0 && cfg.batch > 0 && cfg.maxAttempts > 0
    ensures cfg.timeout < cfg.lease <==> forall actions :: Exclusive(actions, cfg)
  {
    if cfg.timeout < cfg.lease {
      forall actions
        ensures Exclusive(actions, cfg)
      {
        LeasesAreExclusive(START, actions, cfg);
      }
    } else {
      var actions := OverlongPoll(cfg);
      assert !Exclusive(actions, cfg);
    }
  }
}
