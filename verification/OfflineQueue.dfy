/** The register's offline queue: sales and refunds reach an idempotent server in till order, over a link that loses. */
module OfflineQueue {
  import opened Rows

  datatype Op =
    | SaleOp(id: string, phone: string, amount: int)
    | RefundOp(id: string, original: string, kind: Option<Kind>, amount: int)

  /** What the server keeps one transaction per: its type and the till's transaction id. */
  datatype Key = Key(refund: bool, id: string)

  function KeyOf(op: Op): Key {
    Key(op.RefundOp?, op.id)
  }

  // ---- The server: its first verdict on an operation is its last ----

  /** accepted holds operations in the order of their first acceptance. */
  datatype Server = Server(accepted: seq<Op>, refused: set<Op>)

  datatype Outcome = Done(replayed: bool) | Rejected | Transient

  datatype Sent = Sent(server: Server, outcome: Outcome)

  predicate KeyTaken(accepted: seq<Op>, key: Key) {
    exists i | 0 <= i < |accepted| :: KeyOf(accepted[i]) == key
  }

  /** An answer the register sees is the server's standing verdict. */
  predicate Truthful(sent: Sent, op: Op) {
    && (sent.outcome.Done? ==> op in sent.server.accepted)
    && (sent.outcome.Rejected? ==> op in sent.server.refused)
  }

  /** A known operation gets its old verdict, one that reuses an id is refused, a new one is judged by the server. */
  function Process(server: Server, op: Op, accepts: bool): (sent: Sent)
    ensures Truthful(sent, op)
  {
    if op in server.accepted then Sent(server, Done(true))
    else if op in server.refused || KeyTaken(server.accepted, KeyOf(op)) || !accepts
    then Sent(server.(refused := server.refused + {op}), Rejected)
    else Sent(server.(accepted := server.accepted + [op]), Done(false))
  }

  // ---- The link ----

  /**
   What becomes of one attempt. Busy is a 429 or 5xx without effect; ResponseLost covers every failure behind the
   server's decision, an unreadable body included. `accepts` is the server's verdict on an operation it has not seen.
   */
  datatype Link = RequestLost | Busy | ResponseLost(accepts: bool) | Answered(accepts: bool)

  const ATTEMPTS: nat := 3

  function Try(server: Server, op: Op, link: Link): Sent {
    match link
    case RequestLost => Sent(server, Transient)
    case Busy => Sent(server, Transient)
    case ResponseLost(accepts) => Sent(Process(server, op, accepts).server, Transient)
    case Answered(accepts) => Process(server, op, accepts)
  }

  /** Attempts from `attempt` on, while they fail transiently; the context is cancelled behind the last link. */
  function Retry(server: Server, op: Op, links: seq<Link>, attempt: nat): (sent: Sent)
    ensures Truthful(sent, op)
    decreases ATTEMPTS - attempt
  {
    if attempt >= ATTEMPTS || attempt >= |links| then Sent(server, Transient)
    else
      var first := Try(server, op, links[attempt]);
      if first.outcome == Transient then Retry(first.server, op, links, attempt + 1) else first
  }

  function Deliver(server: Server, op: Op, links: seq<Link>): Sent {
    Retry(server, op, links, 0)
  }

  // ---- One replay pass ----

  datatype Tally = Tally(delivered: nat, replayed: nat, rejected: nat, left: nat)

  datatype Pass = Pass(server: Server, tally: Tally)

  function Links(plan: seq<seq<Link>>, i: nat): seq<Link> {
    if i < |plan| then plan[i] else []
  }

  function Counted(tally: Tally, outcome: Outcome): Tally {
    match outcome
    case Done(true) => tally.(replayed := tally.replayed + 1)
    case Done(false) => tally.(delivered := tally.delivered + 1)
    case Rejected => tally.(rejected := tally.rejected + 1)
    case Transient => tally
  }

  /** From operation i on, in order, up to the first transient failure; plan has the links of each delivery. */
  function Replay(server: Server, ops: seq<Op>, i: nat, plan: seq<seq<Link>>): (pass: Pass)
    requires i <= |ops|
    ensures pass.tally.delivered + pass.tally.replayed + pass.tally.rejected + pass.tally.left == |ops| - i
    decreases |ops| - i
  {
    if i == |ops| then Pass(server, Tally(0, 0, 0, 0))
    else
      var sent := Deliver(server, ops[i], Links(plan, i));
      if sent.outcome == Transient then Pass(sent.server, Tally(0, 0, 0, |ops| - i))
      else
        var pass := Replay(sent.server, ops, i + 1, plan);
        pass.(tally := Counted(pass.tally, sent.outcome))
  }

  /** A pass behind the operations tallied so far. */
  function Ahead(tally: Tally, rest: Pass): Pass {
    rest.(tally := Tally(tally.delivered + rest.tally.delivered, tally.replayed + rest.tally.replayed,
                         tally.rejected + rest.tally.rejected, tally.left + rest.tally.left))
  }

  lemma AheadStep(tally: Tally, server: Server, ops: seq<Op>, i: nat, plan: seq<seq<Link>>, sent: Sent)
    requires i < |ops| && tally.left == 0 && sent == Deliver(server, ops[i], Links(plan, i))
    ensures Ahead(tally, Replay(server, ops, i, plan)) ==
            if sent.outcome == Transient then Pass(sent.server, tally.(left := |ops| - i))
            else Ahead(Counted(tally, sent.outcome), Replay(sent.server, ops, i + 1, plan))
  {
  }

  // ---- The register's commands ----

  /** made is every sale and refund made at the till, in order. */
  datatype Till = Till(made: seq<Op>, queue: seq<Op>, server: Server)

  const START: Till := Till([], [], Server([], {}))

  /**
   loads and saves tell whether reading and rewriting the queue file works. A crash ends the command during its replay;
   the file then holds either what it held or what was left, and nothing new was made.
   */
  datatype Drain = Drain(loads: bool, plan: seq<seq<Link>>, saves: bool)

  datatype Command =
    | Checkout(op: Op, offline: bool, drain: Drain, links: seq<Link>)
    | ReplayNow(drain: Drain)
    | CrashedReplay(drain: Drain)

  /** The operations a pass did not get to, the newest of the queue. */
  function Left(queue: seq<Op>, tally: Tally): (left: seq<Op>)
    requires tally.left <= |queue|
    ensures |left| == tally.left
  {
    seq(tally.left, k requires 0 <= k < tally.left => queue[|queue| - tally.left + k])
  }

  /** A failed save leaves the file as it was. */
  function Drained(s: Till, drain: Drain): Till {
    if !drain.loads || s.queue == [] then s
    else
      var pass := Replay(s.server, s.queue, 0, drain.plan);
      s.(server := pass.server, queue := if drain.saves then Left(s.queue, pass.tally) else s.queue)
  }

  /** Online means the queue could be read, everything in it was settled, and the file is empty again. */
  predicate Online(s: Till, drain: Drain) {
    && drain.loads
    && (s.queue == [] || (drain.saves && Replay(s.server, s.queue, 0, drain.plan).tally.left == 0))
  }

  function Enqueued(s: Till, op: Op): Till {
    s.(made := s.made + [op], queue := s.queue + [op])
  }

  function SentLive(s: Till, op: Op, links: seq<Link>): Till {
    var sent := Deliver(s.server, op, links);
    var after := s.(server := sent.server);
    if sent.outcome == Transient then Enqueued(after, op) else after.(made := s.made + [op])
  }

  function Next(s: Till, command: Command): Till {
    match command
    case Checkout(op, offline, drain, links) =>
      if offline then Enqueued(s, op)
      else if Online(s, drain) then SentLive(Drained(s, drain), op, links)
      else Enqueued(Drained(s, drain), op)
    case ReplayNow(drain) => Drained(s, drain)
    case CrashedReplay(drain) => Drained(s, drain)
  }

  function Exec(s: Till, commands: seq<Command>): Till {
    if commands == [] then s else Next(Exec(s, commands[..|commands| - 1]), commands[|commands| - 1])
  }

  // ---- In order, effectively once ----

  /** The first occurrences of the operations that were not refused. */
  function FirstOf(ops: seq<Op>, refused: set<Op>): seq<Op> {
    if ops == [] then []
    else
      var before, op := ops[..|ops| - 1], ops[|ops| - 1];
      if op in refused || op in before then FirstOf(before, refused) else FirstOf(before, refused) + [op]
  }

  predicate DistinctKeys(ops: seq<Op>) {
    forall i, j | 0 <= i < j < |ops| :: KeyOf(ops[i]) != KeyOf(ops[j])
  }

  /** The server has settled the first n operations made and heard of no other. */
  predicate Settled(made: seq<Op>, server: Server, n: nat) {
    && n <= |made|
    && server.accepted == FirstOf(made[..n], server.refused)
    && (forall op | op in server.refused :: op in made[..n])
    && DistinctKeys(server.accepted)
  }

  predicate QueueIsNewest(s: Till) {
    var older := |s.made| - |s.queue|;
    older >= 0 && forall i | older <= i < |s.made| :: s.made[i] == s.queue[i - older]
  }

  /** The queue is the newest operations made, and all older ones are settled. */
  predicate FrontierAt(s: Till, n: nat) {
    && QueueIsNewest(s)
    && |s.made| - |s.queue| <= n
    && Settled(s.made, s.server, n)
  }

  ghost predicate Ok(s: Till) {
    exists n: nat :: FrontierAt(s, n)
  }

  lemma {:induction false} FirstOfHas(ops: seq<Op>, refused: set<Op>, op: Op)
    ensures op in FirstOf(ops, refused) <==> op in ops && op !in refused
  {
    if ops != [] {
      FirstOfHas(ops[..|ops| - 1], refused, op);
      assert ops == ops[..|ops| - 1] + [ops[|ops| - 1]];
    }
  }

  lemma {:induction false} RefusingAnother(ops: seq<Op>, refused: set<Op>, op: Op)
    requires op !in ops
    ensures FirstOf(ops, refused + {op}) == FirstOf(ops, refused)
  {
    if ops != [] {
      assert ops[|ops| - 1] in ops;
      RefusingAnother(ops[..|ops| - 1], refused, op);
    }
  }

  /** The server processing operation i, with everything before it settled, settles it too. */
  lemma ProcessSettles(made: seq<Op>, server: Server, n: nat, i: nat, accepts: bool)
    requires i <= n && i < |made| && Settled(made, server, n)
    ensures Settled(made, Process(server, made[i], accepts).server, if i < n then n else n + 1)
  {
    var op := made[i];
    FirstOfHas(made[..n], server.refused, op);
    if i < n {
      assert op in made[..n];
      assert Process(server, op, accepts).server.refused == server.refused;
    } else {
      assert made[..n + 1][..n] == made[..n];
      RefusingAnotherOrSame(made[..n], server.refused, op);
    }
  }

  lemma RefusingAnotherOrSame(ops: seq<Op>, refused: set<Op>, op: Op)
    ensures op !in ops || op in refused ==> FirstOf(ops, refused + {op}) == FirstOf(ops, refused)
  {
    if op !in ops {
      RefusingAnother(ops, refused, op);
    } else if op in refused {
      assert refused + {op} == refused;
    }
  }

  lemma {:induction false} RetrySettles(made: seq<Op>, server: Server, n: nat, i: nat, links: seq<Link>, attempt: nat)
    returns (m: nat)
    requires i <= n && i < |made| && Settled(made, server, n)
    ensures var sent := Retry(server, made[i], links, attempt);
            n <= m && Settled(made, sent.server, m) && (sent.outcome != Transient ==> i < m)
    decreases ATTEMPTS - attempt
  {
    if attempt >= ATTEMPTS || attempt >= |links| {
      return n;
    }
    var link := links[attempt];
    var first := Try(server, made[i], link);
    if link.ResponseLost? || link.Answered? {
      ProcessSettles(made, server, n, i, link.accepts);
      m := if i < n then n else n + 1;
    } else {
      m := n;
    }
    if first.outcome == Transient {
      m := RetrySettles(made, first.server, m, i, links, attempt + 1);
    }
  }

  /** Delivering operation i of the queue settles it unless the link fails. */
  lemma DeliverSettles(s: Till, server: Server, n: nat, i: nat, links: seq<Link>) returns (m: nat)
    requires QueueIsNewest(s) && i < |s.queue| && |s.made| - |s.queue| + i <= n && Settled(s.made, server, n)
    ensures n <= m && Settled(s.made, Deliver(server, s.queue[i], links).server, m)
    ensures Deliver(server, s.queue[i], links).outcome != Transient ==> |s.made| - |s.queue| + i < m
  {
    var at := |s.made| - |s.queue| + i;
    assert s.queue[i] == s.made[at];
    m := RetrySettles(s.made, server, n, at, links, 0);
  }

  lemma {:induction false} ReplaySettles(s: Till, server: Server, n: nat, i: nat, plan: seq<seq<Link>>) returns (m: nat)
    requires QueueIsNewest(s) && i <= |s.queue| && |s.made| - |s.queue| + i <= n && Settled(s.made, server, n)
    ensures n <= m && |s.made| - Replay(server, s.queue, i, plan).tally.left <= m
    ensures Settled(s.made, Replay(server, s.queue, i, plan).server, m)
    decreases |s.queue| - i
  {
    m := n;
    if i < |s.queue| {
      var sent := Deliver(server, s.queue[i], Links(plan, i));
      m := DeliverSettles(s, server, n, i, Links(plan, i));
      if sent.outcome != Transient {
        m := ReplaySettles(s, sent.server, m, i + 1, plan);
      }
    }
  }

  lemma LeftIsNewest(s: Till, tally: Tally)
    requires QueueIsNewest(s) && tally.left <= |s.queue|
    ensures QueueIsNewest(s.(queue := Left(s.queue, tally)))
  {
  }

  lemma Frontier(made: seq<Op>, queue: seq<Op>, server: Server, n: nat)
    requires QueueIsNewest(Till(made, queue, server)) && |made| - |queue| <= n && Settled(made, server, n)
    ensures Ok(Till(made, queue, server))
  {
    assert FrontierAt(Till(made, queue, server), n);
  }

  lemma SavedFrontier(s: Till, pass: Pass, n: nat)
    requires QueueIsNewest(s) && pass.tally.left <= |s.queue|
    requires |s.made| - pass.tally.left <= n && Settled(s.made, pass.server, n)
    ensures Ok(Till(s.made, Left(s.queue, pass.tally), pass.server))
  {
    LeftIsNewest(s, pass.tally);
    Frontier(s.made, Left(s.queue, pass.tally), pass.server, n);
  }

  lemma DrainKeeps(s: Till, drain: Drain)
    requires Ok(s)
    ensures Ok(Drained(s, drain)) && Drained(s, drain).made == s.made
  {
    var n: nat :| FrontierAt(s, n);
    if drain.loads && s.queue != [] {
      var m := ReplaySettles(s, s.server, n, 0, drain.plan);
      var pass := Replay(s.server, s.queue, 0, drain.plan);
      if drain.saves {
        SavedFrontier(s, pass, m);
      } else {
        Frontier(s.made, s.queue, pass.server, m);
      }
    }
  }

  lemma EnqueueKeeps(s: Till, op: Op)
    requires Ok(s)
    ensures Ok(Enqueued(s, op))
  {
    var n: nat :| FrontierAt(s, n);
    assert (s.made + [op])[..n] == s.made[..n];
    assert FrontierAt(Enqueued(s, op), n);
  }

  lemma LiveKeeps(s: Till, op: Op, links: seq<Link>)
    requires Ok(s) && s.queue == []
    ensures Ok(SentLive(s, op, links))
  {
    var n: nat :| FrontierAt(s, n);
    var made := s.made + [op];
    assert made[..n] == s.made[..n] && made[n] == op;
    var m := RetrySettles(made, s.server, n, n, links, 0);
    assert FrontierAt(SentLive(s, op, links), m);
  }

  lemma {:induction false} RunKeeps(s: Till, commands: seq<Command>)
    requires Ok(s)
    ensures Ok(Exec(s, commands))
  {
    if commands != [] {
      var before, command := Exec(s, commands[..|commands| - 1]), commands[|commands| - 1];
      RunKeeps(s, commands[..|commands| - 1]);
      match command
      case Checkout(op, offline, drain, links) =>
        DrainKeeps(before, drain);
        if offline {
          EnqueueKeeps(before, op);
        } else if Online(before, drain) {
          LiveKeeps(Drained(before, drain), op, links);
        } else {
          EnqueueKeeps(Drained(before, drain), op);
        }
      case ReplayNow(drain) => DrainKeeps(before, drain);
      case CrashedReplay(drain) => DrainKeeps(before, drain);
    }
  }

  lemma Starts()
    ensures Ok(START)
  {
    assert FrontierAt(START, 0);
  }

  // ---- What it means ----

  /** Where an operation was made first. */
  function MadeAt(made: seq<Op>, op: Op): (at: nat)
    requires op in made
    ensures at < |made| && made[at] == op && op !in made[..at]
  {
    if op in made[..|made| - 1] then MadeAt(made[..|made| - 1], op) else |made| - 1
  }

  lemma {:induction false} FirstOfIsInOrder(ops: seq<Op>, refused: set<Op>, i: nat, j: nat)
    requires i < j < |FirstOf(ops, refused)|
    ensures var firsts := FirstOf(ops, refused);
            firsts[i] in ops && firsts[j] in ops && MadeAt(ops, firsts[i]) < MadeAt(ops, firsts[j])
  {
    var before, firsts := ops[..|ops| - 1], FirstOf(ops, refused);
    FirstOfHas(ops, refused, firsts[i]);
    FirstOfHas(ops, refused, firsts[j]);
    assert firsts[i] in firsts && firsts[j] in firsts;
    FirstOfHas(before, refused, firsts[i]);
    if j < |FirstOf(before, refused)| {
      FirstOfHas(before, refused, firsts[j]);
      assert FirstOf(before, refused)[i] in FirstOf(before, refused);
      assert FirstOf(before, refused)[j] in FirstOf(before, refused);
      FirstOfIsInOrder(before, refused, i, j);
    } else {
      assert FirstOf(before, refused)[i] in FirstOf(before, refused);
    }
  }

  lemma {:induction false} MadeAtInPrefix(made: seq<Op>, n: nat, op: Op)
    requires n <= |made| && op in made[..n]
    ensures op in made && MadeAt(made, op) == MadeAt(made[..n], op)
  {
    if n < |made| {
      var before := made[..|made| - 1];
      assert before[..n] == made[..n];
      MadeAtInPrefix(before, n, op);
    } else {
      assert made[..n] == made;
    }
  }

  predicate AcceptedInOrder(s: Till) {
    var accepted := s.server.accepted;
    forall i, j | 0 <= i < j < |accepted| && accepted[i] in s.made && accepted[j] in s.made ::
      MadeAt(s.made, accepted[i]) < MadeAt(s.made, accepted[j])
  }

  lemma InOrder(s: Till, n: nat)
    requires FrontierAt(s, n)
    ensures AcceptedInOrder(s)
  {
    var accepted := s.server.accepted;
    forall i, j | 0 <= i < j < |accepted| && accepted[i] in s.made && accepted[j] in s.made
      ensures MadeAt(s.made, accepted[i]) < MadeAt(s.made, accepted[j])
    {
      FirstOfIsInOrder(s.made[..n], s.server.refused, i, j);
      MadeAtInPrefix(s.made, n, accepted[i]);
      MadeAtInPrefix(s.made, n, accepted[j]);
    }
  }

  lemma NothingMissing(s: Till, n: nat)
    requires FrontierAt(s, n)
    ensures forall op | op in s.server.accepted :: op in s.made && op !in s.server.refused
    ensures forall op | op in s.made :: op in s.server.accepted || op in s.server.refused || op in s.queue
  {
    forall op
      ensures op in s.server.accepted <==> op in s.made[..n] && op !in s.server.refused
    {
      FirstOfHas(s.made[..n], s.server.refused, op);
    }
    forall op | op in s.made
      ensures op in s.made[..n] || op in s.queue
    {
      var at := MadeAt(s.made, op);
      assert at < n ==> s.made[..n][at] == op;
      assert at >= n ==> s.queue[at - (|s.made| - |s.queue|)] == op;
    }
  }

  /**
   After any commands over any link: acceptances are in till order, at most one per transaction id, and every operation
   made is accepted, refused or still queued, never both of the first two.
   */
  lemma EffectivelyOnceInOrder(commands: seq<Command>)
    ensures var s := Exec(START, commands);
            && DistinctKeys(s.server.accepted) && AcceptedInOrder(s)
            && (forall op | op in s.server.accepted :: op in s.made && op !in s.server.refused)
            && (forall op | op in s.made :: op in s.server.accepted || op in s.server.refused || op in s.queue)
  {
    var s := Exec(START, commands);
    Starts();
    RunKeeps(START, commands);
    var n: nat :| FrontierAt(s, n);
    InOrder(s, n);
    NothingMissing(s, n);
  }

  // ---- What a link must do ----

  /** Some attempt from `attempt` on, among the first three, brings an answer. */
  predicate Answers(links: seq<Link>, attempt: nat) {
    exists k | attempt <= k < ATTEMPTS && k < |links| :: links[k].Answered?
  }

  /** A delivery fails transiently exactly when none of its first three attempts is answered. */
  lemma {:induction false} DeliversExactly(server: Server, op: Op, links: seq<Link>, attempt: nat)
    ensures Retry(server, op, links, attempt).outcome != Transient <==> Answers(links, attempt)
    decreases ATTEMPTS - attempt
  {
    if attempt < ATTEMPTS && attempt < |links| {
      DeliversExactly(Try(server, op, links[attempt]).server, op, links, attempt + 1);
      assert Answers(links, attempt) <==> links[attempt].Answered? || Answers(links, attempt + 1);
    }
  }

  /** A pass leaves exactly what is queued from its first unanswered operation on. */
  lemma {:induction false} LeftExactly(server: Server, ops: seq<Op>, i: nat, plan: seq<seq<Link>>, stop: nat)
    requires i <= stop <= |ops|
    requires forall k: nat | i <= k < stop :: Answers(Links(plan, k), 0)
    requires stop < |ops| ==> !Answers(Links(plan, stop), 0)
    ensures Replay(server, ops, i, plan).tally.left == |ops| - stop
    decreases stop - i
  {
    if i < |ops| {
      DeliversExactly(server, ops[i], Links(plan, i), 0);
      if i < stop {
        LeftExactly(Deliver(server, ops[i], Links(plan, i)).server, ops, i + 1, plan, stop);
      }
    }
  }

  function FirstUnanswered(plan: seq<seq<Link>>, n: nat, i: nat): (stop: nat)
    requires i <= n
    ensures i <= stop <= n && (forall k: nat | i <= k < stop :: Answers(Links(plan, k), 0))
    ensures stop < n ==> !Answers(Links(plan, stop), 0)
    decreases n - i
  {
    if i == n || !Answers(Links(plan, i), 0) then i else FirstUnanswered(plan, n, i + 1)
  }

  /** An unanswered operation at the head leaves the whole queue, and nothing else counts. */
  lemma HeadLeavesAll(server: Server, ops: seq<Op>, plan: seq<seq<Link>>)
    requires ops != []
    ensures Replay(server, ops, 0, plan).tally == Tally(0, 0, 0, |ops|) <==> !Answers(Links(plan, 0), 0)
  {
    var stop := FirstUnanswered(plan, |ops|, 0);
    LeftExactly(server, ops, 0, plan, stop);
  }

  /** A replay empties the queue exactly when the file works and every operation is answered; then all is settled. */
  lemma DrainsExactly(commands: seq<Command>, drain: Drain)
    ensures var before, s := Exec(START, commands), Exec(START, commands + [ReplayNow(drain)]);
            && s.made == before.made
            && (s.queue == [] <==>
                before.queue == []
                || (drain.loads && drain.saves
                    && forall i: nat | i < |before.queue| :: Answers(Links(drain.plan, i), 0)))
            && (s.queue == [] ==> forall op | op in s.made :: op in s.server.accepted || op in s.server.refused)
  {
    var before := Exec(START, commands);
    var all := commands + [ReplayNow(drain)];
    assert all[..|all| - 1] == commands;
    var stop := FirstUnanswered(drain.plan, |before.queue|, 0);
    LeftExactly(before.server, before.queue, 0, drain.plan, stop);
    EffectivelyOnceInOrder(all);
  }

  // ---- An operation the server keeps failing ----

  /** Every attempt is lost or answered 429 or 5xx. */
  predicate Silent(links: seq<Link>) {
    forall k | 0 <= k < |links| :: links[k].RequestLost? || links[k].Busy?
  }

  lemma {:induction false} SilentRetry(server: Server, op: Op, links: seq<Link>, attempt: nat)
    requires Silent(links)
    ensures Retry(server, op, links, attempt) == Sent(server, Transient)
    decreases ATTEMPTS - attempt
  {
    if attempt < ATTEMPTS && attempt < |links| {
      SilentRetry(server, op, links, attempt + 1);
    }
  }

  /** What the commands add to the till. */
  function Rung(commands: seq<Command>): seq<Op> {
    if commands == [] then []
    else
      var last := commands[|commands| - 1];
      Rung(commands[..|commands| - 1]) + (if last.Checkout? then [last.op] else [])
  }

  lemma SilentDrain(s: Till, drain: Drain)
    requires s.queue != [] && Silent(Links(drain.plan, 0))
    ensures Drained(s, drain) == s && !Online(s, drain)
  {
    SilentRetry(s.server, s.queue[0], Links(drain.plan, 0), 0);
  }

  /** While the head of the queue keeps failing, everything rung up queues behind it and the server hears of nothing. */
  lemma {:induction false} HeadBlocksTheRegister(s: Till, commands: seq<Command>)
    requires s.queue != []
    requires forall i | 0 <= i < |commands| :: Silent(Links(commands[i].drain.plan, 0))
    ensures Exec(s, commands) == Till(s.made + Rung(commands), s.queue + Rung(commands), s.server)
  {
    if commands == [] {
      assert s.made + [] == s.made && s.queue + [] == s.queue;
    } else {
      var n := |commands| - 1;
      var before := Exec(s, commands[..n]);
      HeadBlocksTheRegister(s, commands[..n]);
      assert before.queue[0] == s.queue[0];
      SilentDrain(before, commands[n].drain);
    }
  }

  // ---- The attempts a register makes ----

  type Trace = seq<(Op, Link)>

  /** The server after these attempts. */
  function Tried(server: Server, trace: Trace): Server {
    if trace == [] then server
    else
      var last := trace[|trace| - 1];
      Try(Tried(server, trace[..|trace| - 1]), last.0, last.1).server
  }

  lemma {:induction false} TriedAppend(server: Server, first: Trace, second: Trace)
    ensures Tried(server, first + second) == Tried(Tried(server, first), second)
  {
    if second == [] {
      assert first + second == first;
    } else {
      var init := second[..|second| - 1];
      TriedAppend(server, first, init);
      assert (first + second)[..|first + second| - 1] == first + init;
    }
  }

  lemma TriedOne(server: Server, op: Op, link: Link)
    ensures Tried(server, [(op, link)]) == Try(server, op, link).server
  {
    assert [(op, link)][..0] == [];
  }

  function RetryTrace(server: Server, op: Op, links: seq<Link>, attempt: nat): Trace
    decreases ATTEMPTS - attempt
  {
    if attempt >= ATTEMPTS || attempt >= |links| then []
    else
      var first := Try(server, op, links[attempt]);
      [(op, links[attempt])]
      + (if first.outcome == Transient then RetryTrace(first.server, op, links, attempt + 1) else [])
  }

  lemma {:induction false} RetryIsItsTrace(server: Server, op: Op, links: seq<Link>, attempt: nat)
    ensures Retry(server, op, links, attempt).server == Tried(server, RetryTrace(server, op, links, attempt))
    decreases ATTEMPTS - attempt
  {
    if attempt < ATTEMPTS && attempt < |links| {
      var first := Try(server, op, links[attempt]);
      var rest := if first.outcome == Transient then RetryTrace(first.server, op, links, attempt + 1) else [];
      TriedOne(server, op, links[attempt]);
      TriedAppend(server, [(op, links[attempt])], rest);
      if first.outcome == Transient {
        RetryIsItsTrace(first.server, op, links, attempt + 1);
      }
    }
  }

  function ReplayTrace(server: Server, ops: seq<Op>, i: nat, plan: seq<seq<Link>>): Trace
    requires i <= |ops|
    decreases |ops| - i
  {
    if i == |ops| then []
    else
      var sent := Deliver(server, ops[i], Links(plan, i));
      RetryTrace(server, ops[i], Links(plan, i), 0)
      + (if sent.outcome == Transient then [] else ReplayTrace(sent.server, ops, i + 1, plan))
  }

  lemma {:induction false} ReplayIsItsTrace(server: Server, ops: seq<Op>, i: nat, plan: seq<seq<Link>>)
    requires i <= |ops|
    ensures Replay(server, ops, i, plan).server == Tried(server, ReplayTrace(server, ops, i, plan))
    decreases |ops| - i
  {
    if i < |ops| {
      var sent := Deliver(server, ops[i], Links(plan, i));
      var first := RetryTrace(server, ops[i], Links(plan, i), 0);
      RetryIsItsTrace(server, ops[i], Links(plan, i), 0);
      TriedAppend(server, first, if sent.outcome == Transient then [] else ReplayTrace(sent.server, ops, i + 1, plan));
      if sent.outcome != Transient {
        ReplayIsItsTrace(sent.server, ops, i + 1, plan);
      }
    }
  }

  function DrainTrace(s: Till, drain: Drain): Trace {
    if !drain.loads || s.queue == [] then [] else ReplayTrace(s.server, s.queue, 0, drain.plan)
  }

  function NextTrace(s: Till, command: Command): Trace {
    match command
    case Checkout(op, offline, drain, links) =>
      if offline then []
      else
        DrainTrace(s, drain)
        + (if Online(s, drain) then RetryTrace(Drained(s, drain).server, op, links, 0) else [])
    case ReplayNow(drain) => DrainTrace(s, drain)
    case CrashedReplay(drain) => DrainTrace(s, drain)
  }

  function ExecTrace(s: Till, commands: seq<Command>): Trace {
    if commands == [] then []
    else
      var before := commands[..|commands| - 1];
      ExecTrace(s, before) + NextTrace(Exec(s, before), commands[|commands| - 1])
  }

  lemma DrainIsItsTrace(s: Till, drain: Drain)
    ensures Drained(s, drain).server == Tried(s.server, DrainTrace(s, drain))
  {
    ReplayIsItsTrace(s.server, s.queue, 0, drain.plan);
  }

  lemma NextIsItsTrace(s: Till, command: Command)
    ensures Next(s, command).server == Tried(s.server, NextTrace(s, command))
  {
    var drained := Drained(s, command.drain);
    DrainIsItsTrace(s, command.drain);
    if command.Checkout? && !command.offline {
      var live := if Online(s, command.drain) then RetryTrace(drained.server, command.op, command.links, 0) else [];
      TriedAppend(s.server, DrainTrace(s, command.drain), live);
      RetryIsItsTrace(drained.server, command.op, command.links, 0);
    }
  }

  /** All a run does to the server is what its attempts do, in their order. */
  lemma {:induction false} RunIsItsTrace(s: Till, commands: seq<Command>)
    ensures Exec(s, commands).server == Tried(s.server, ExecTrace(s, commands))
  {
    if commands != [] {
      var before := commands[..|commands| - 1];
      RunIsItsTrace(s, before);
      NextIsItsTrace(Exec(s, before), commands[|commands| - 1]);
      TriedAppend(s.server, ExecTrace(s, before), NextTrace(Exec(s, before), commands[|commands| - 1]));
    }
  }

  // ---- What a pass counts ----

  /** Answered attempts at operations the server had not accepted, and has now. */
  function FirstAcceptances(server: Server, trace: Trace): nat {
    if trace == [] then 0
    else
      var last := trace[|trace| - 1];
      var before := Tried(server, trace[..|trace| - 1]);
      FirstAcceptances(server, trace[..|trace| - 1])
      + (if last.1.Answered? && last.0 !in before.accepted && last.0 in Try(before, last.0, last.1).server.accepted
         then 1 else 0)
  }

  /** Answered attempts at operations the server had accepted before. */
  function Repeats(server: Server, trace: Trace): nat {
    if trace == [] then 0
    else
      var last := trace[|trace| - 1];
      Repeats(server, trace[..|trace| - 1])
      + (if last.1.Answered? && last.0 in Tried(server, trace[..|trace| - 1]).accepted then 1 else 0)
  }

  lemma {:induction false} CountsAppend(server: Server, first: Trace, second: Trace)
    ensures FirstAcceptances(server, first + second) ==
            FirstAcceptances(server, first) + FirstAcceptances(Tried(server, first), second)
    ensures Repeats(server, first + second) == Repeats(server, first) + Repeats(Tried(server, first), second)
  {
    if second == [] {
      assert first + second == first;
    } else {
      var init := second[..|second| - 1];
      CountsAppend(server, first, init);
      TriedAppend(server, first, init);
      assert (first + second)[..|first + second| - 1] == first + init;
    }
  }

  lemma CountsOne(server: Server, op: Op, link: Link)
    ensures FirstAcceptances(server, [(op, link)]) ==
            if link.Answered? && op !in server.accepted && op in Try(server, op, link).server.accepted then 1 else 0
    ensures Repeats(server, [(op, link)]) == if link.Answered? && op in server.accepted then 1 else 0
  {
    assert [(op, link)][..0] == [];
  }

  /** A delivery counts as delivered, replayed, rejected or left by its one answered attempt, if it has one. */
  lemma {:induction false} RetryCounts(server: Server, op: Op, links: seq<Link>, attempt: nat)
    ensures var sent, trace := Retry(server, op, links, attempt), RetryTrace(server, op, links, attempt);
            && FirstAcceptances(server, trace) == (if sent.outcome == Done(false) then 1 else 0)
            && Repeats(server, trace) == (if sent.outcome == Done(true) then 1 else 0)
    decreases ATTEMPTS - attempt
  {
    if attempt < ATTEMPTS && attempt < |links| {
      var first := Try(server, op, links[attempt]);
      CountsOne(server, op, links[attempt]);
      TriedOne(server, op, links[attempt]);
      if first.outcome == Transient {
        RetryCounts(first.server, op, links, attempt + 1);
        CountsAppend(server, [(op, links[attempt])], RetryTrace(first.server, op, links, attempt + 1));
      } else {
        assert [(op, links[attempt])] + [] == [(op, links[attempt])];
        AnswerCounts(server, op, links[attempt]);
      }
    }
  }

  /** A first answer is Done(false) exactly if it accepts, Done(true) exactly if the server had accepted. */
  lemma AnswerCounts(server: Server, op: Op, link: Link)
    requires Try(server, op, link).outcome != Transient
    ensures link.Answered?
    ensures Try(server, op, link).outcome == Done(false) <==>
            op !in server.accepted && op in Try(server, op, link).server.accepted
    ensures Try(server, op, link).outcome == Done(true) <==> op in server.accepted
  {
  }

  /** Delivered are first acceptances the register heard of, replayed are acceptances it heard of again. */
  lemma {:induction false} ReplayCounts(server: Server, ops: seq<Op>, i: nat, plan: seq<seq<Link>>)
    requires i <= |ops|
    ensures var tally, trace := Replay(server, ops, i, plan).tally, ReplayTrace(server, ops, i, plan);
            && tally.delivered == FirstAcceptances(server, trace) && tally.replayed == Repeats(server, trace)
            && tally.rejected == |ops| - i - tally.left - tally.delivered - tally.replayed
    decreases |ops| - i
  {
    if i < |ops| {
      var sent := Deliver(server, ops[i], Links(plan, i));
      var first := RetryTrace(server, ops[i], Links(plan, i), 0);
      RetryCounts(server, ops[i], Links(plan, i), 0);
      RetryIsItsTrace(server, ops[i], Links(plan, i), 0);
      if sent.outcome == Transient {
        assert first + [] == first;
      } else {
        ReplayCounts(sent.server, ops, i + 1, plan);
        CountsAppend(server, first, ReplayTrace(sent.server, ops, i + 1, plan));
      }
    }
  }

  /** Online: the file was read, and it was empty or could be emptied with every operation answered. */
  lemma OnlineExactly(s: Till, drain: Drain)
    ensures Online(s, drain) <==>
            && drain.loads
            && (s.queue == []
                || (drain.saves && forall i: nat | i < |s.queue| :: Answers(Links(drain.plan, i), 0)))
  {
    LeftExactly(s.server, s.queue, 0, drain.plan, FirstUnanswered(drain.plan, |s.queue|, 0));
  }

  // ---- The register ----

  datatype Shown = Answer(outcome: Outcome) | Queued

  class Register {
    var queue: seq<Op>
    var server: Server
    ghost var made: seq<Op>

    ghost function State(): Till
      reads this
    {
      Till(made, queue, server)
    }

    constructor ()
      ensures State() == START
    {
      queue, server, made := [], Server([], {}), [];
    }

    method Once(op: Op, link: Link) returns (outcome: Outcome)
      modifies this`server
      ensures Sent(server, outcome) == Try(old(server), op, link)
    {
      if link.RequestLost? || link.Busy? {
        return Transient;
      }
      var sent := Process(server, op, link.accepts);
      server := sent.server;
      return if link.ResponseLost? then Transient else sent.outcome;
    }

    method Do(op: Op, links: seq<Link>) returns (outcome: Outcome)
      modifies this`server
      ensures Sent(server, outcome) == Deliver(old(server), op, links)
    {
      outcome := Transient;
      ghost var whole := Retry(server, op, links, 0);
      for attempt := 0 to ATTEMPTS
        invariant outcome == Transient && whole == Retry(server, op, links, attempt)
      {
        if attempt >= |links| {
          return;
        }
        outcome := Once(op, links[attempt]);
        if outcome != Transient {
          return;
        }
      }
    }

    /** A save that fails leaves the file as it was. */
    method Save(ops: seq<Op>, works: bool)
      modifies this`queue
      ensures queue == if works then ops else old(queue)
    {
      if works {
        queue := ops;
      }
    }

    /** Sends the operations in order and stops at the first transient failure. */
    method SendInOrder(ops: seq<Op>, plan: seq<seq<Link>>) returns (tally: Tally)
      modifies this`server
      ensures Pass(server, tally) == Replay(old(server), ops, 0, plan)
    {
      tally := Tally(0, 0, 0, 0);
      ghost var whole := Replay(server, ops, 0, plan);
      for i := 0 to |ops|
        invariant tally.left == 0 && whole == Ahead(tally, Replay(server, ops, i, plan))
      {
        ghost var before := server;
        var outcome := Do(ops[i], Links(plan, i));
        AheadStep(tally, before, ops, i, plan, Sent(server, outcome));
        if outcome == Transient {
          return tally.(left := |ops| - i);
        }
        tally := Counted(tally, outcome);
      }
    }

    /** ok is false when the pass stopped early or its result could not be saved. */
    method ReplayQueue(plan: seq<seq<Link>>, saves: bool) returns (tally: Tally, ok: bool)
      modifies this`server, this`queue
      ensures Pass(server, tally) == Replay(old(server), old(queue), 0, plan)
      ensures queue == if saves then Left(old(queue), tally) else old(queue)
      ensures ok <==> saves && tally.left == 0
    {
      tally := SendInOrder(queue, plan);
      Save(Left(queue, tally), saves);
      return tally, saves && tally.left == 0;
    }

    method DrainFirst(drain: Drain) returns (online: bool)
      modifies this`server, this`queue
      ensures State() == Drained(old(State()), drain) && online == Online(old(State()), drain)
    {
      if !drain.loads || queue == [] {
        return drain.loads;
      }
      var tally;
      tally, online := ReplayQueue(drain.plan, drain.saves);
    }

    method Enqueue(op: Op)
      modifies this
      ensures State() == Enqueued(old(State()), op)
    {
      queue, made := queue + [op], made + [op];
    }

    /** checkoutSale, and the sending half of runRefund. */
    method Checkout(op: Op, offline: bool, drain: Drain, links: seq<Link>) returns (shown: Shown)
      modifies this
      ensures State() == Next(old(State()), Command.Checkout(op, offline, drain, links))
      ensures shown == Queued <==> |queue| > 0 && made == old(made) + [op] && queue[|queue| - 1] == op
      ensures shown != Queued ==> queue == [] && shown.outcome != Transient && Truthful(Sent(server, shown.outcome), op)
      ensures shown != Queued <==>
                && !offline && drain.loads && Answers(links, 0)
                && (old(queue) == []
                    || (drain.saves && forall i: nat | i < |old(queue)| :: Answers(Links(drain.plan, i), 0)))
      ensures made == old(made) + [op]
    {
      OnlineExactly(State(), drain);
      DeliversExactly(Drained(State(), drain).server, op, links, 0);
      if !offline {
        var online := DrainFirst(drain);
        if online {
          var outcome := Do(op, links);
          if outcome != Transient {
            made := made + [op];
            return Answer(outcome);
          }
        }
      }
      Enqueue(op);
      return Queued;
    }

    method Crash(drain: Drain)
      modifies this`server, this`queue
      ensures State() == Next(old(State()), CrashedReplay(drain))
    {
      var _ := DrainFirst(drain);
    }
  }
}
