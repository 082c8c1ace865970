/**
 LoyaltyService: Accrue, Redeem and Refund as the till calls them. Between any two of a call's
 statements other requests run; their effects are given as an arbitrary list of events.
 */
module Loyalty {
  import opened Rows
  import opened Amounts
  import opened Ledger
  import opened LedgerSafety
  import opened LedgerVerdicts
  import opened LoyaltyRules
  import opened Replay

  /** A store's live rules and their version. */
  datatype Live = Live(rules: Rules, version: int)

  /** What other requests do meanwhile. */
  datatype Event =
    | Registered(store: int, phone: string)
    | Configured(store: int, live: Live)
    | Requested(req: Request, now: int)

  /** The events of the successive gaps of one call. */
  type Gaps = seq<seq<Event>>

  function StepsOf(events: seq<Event>): seq<Step> {
    if events == [] then []
    else
      var init := StepsOf(events[..|events| - 1]);
      match events[|events| - 1]
      case Requested(req, now) => init + [Step(req, now)]
      case _ => init
  }

  /** Every request among the events reaches the ledger, in its place. */
  lemma {:induction false} RequestsAreTaken(before: seq<Event>, req: Request, now: int, after: seq<Event>)
    ensures StepsOf(before + [Requested(req, now)] + after) == StepsOf(before) + [Step(req, now)] + StepsOf(after)
  {
    var events := before + [Requested(req, now)] + after;
    if after == [] {
      assert events[..|events| - 1] == before;
    } else {
      var init := after[..|after| - 1];
      assert events[..|events| - 1] == before + [Requested(req, now)] + init;
      RequestsAreTaken(before, req, now, init);
    }
  }

  lemma OneMore(db: Db, events: seq<Event>, i: nat, policy: Policy)
    requires i < |events|
    ensures Run(db, StepsOf(events[..i + 1]), policy) ==
            Run(Run(db, StepsOf(events[..i]), policy), StepsOf([events[i]]), policy)
  {
    assert events[..i + 1][..i] == events[..i];
    match events[i] {
      case Requested(req, now) =>
        RunSnoc(db, StepsOf(events[..i]), Step(req, now), policy);
        RunSnoc(Run(db, StepsOf(events[..i]), policy), [], Step(req, now), policy);
      case _ =>
    }
  }

  function Gap(gaps: Gaps, i: nat): seq<Event> {
    if i < |gaps| then gaps[i] else []
  }

  /** The ledger request of an accrual; without rules the sale is recorded at 0 points and no version. */
  function BuildAccrual(store: int, client: int, ext: string, amount: Amount, live: Option<Live>,
                        invite: Option<string>)
    : Request
    requires live.Some? ==> ValidRules(live.value.rules)
  {
    if live.None? then AccrueReq(store, client, ext, amount, 0, AccrualFingerprint(client, amount), None, invite)
    else
      AccrualPointsExact(live.value.rules, amount);
      AccrueReq(store, client, ext, amount, AccrualPoints(live.value.rules, amount),
                AccrualFingerprint(client, amount), Some(live.value.version), invite)
  }

  /** The ledger request of a redemption, or None when the unlocked balance already rules it out. */
  function BuildRedemption(store: int, client: int, ext: string, amount: Amount, requested: Points, live: Live,
                           balance: int)
    : Option<Request>
    requires ValidRules(live.rules)
  {
    var points := CappedPoints(live.rules, amount, requested);
    if balance < live.rules.minBalance || points <= 0 || balance < points then None
    else Some(RedeemReq(store, client, ext, amount, points, RedeemFingerprint(client, amount, requested),
                        Some(live.version), live.rules.minBalance))
  }

  /** n points fit the share of the purchase they may pay, and are all that was asked for or the most that fit. */
  predicate LargestAllowed(rules: Rules, kopecks: Kopecks, requested: Points, n: int) {
    && n <= requested && n * rules.rate * 100 <= kopecks * rules.maxRedeemPercent
    && (n == requested || (n + 1) * rules.rate * 100 > kopecks * rules.maxRedeemPercent)
  }

  /** What a redemption takes: what is asked for, with a cap at most that; in whole kopecks the most allowed. */
  predicate Debit(rules: Rules, amount: Amount, requested: Points, n: int)
    requires ValidRules(rules)
  {
    if rules.maxRedeemPercent == 0 then n == requested
    else
      && n == (if requested < CapOf(amount, rules.maxRedeemPercent, rules.rate) then requested
               else CapOf(amount, rules.maxRedeemPercent, rules.rate))
      && (Whole(amount) && Stored(amount) * rules.maxRedeemPercent / (100 * rules.rate) < Money.INT64_LIMIT ==>
            LargestAllowed(rules, Stored(amount), requested, n))
  }

  lemma TakesTheDebit(rules: Rules, amount: Amount, requested: Points)
    requires ValidRules(rules)
    ensures Debit(rules, amount, requested, CappedPoints(rules, amount, requested))
  {
    if rules.maxRedeemPercent > 0 && Whole(amount)
       && Stored(amount) * rules.maxRedeemPercent / (100 * rules.rate) < Money.INT64_LIMIT {
      WholeCapIsLargest(rules, amount, requested);
    }
  }

  lemma WholeCapIsLargest(rules: Rules, amount: Amount, requested: Points)
    requires ValidRules(rules) && rules.maxRedeemPercent > 0 && Whole(amount)
    requires Stored(amount) * rules.maxRedeemPercent / (100 * rules.rate) < Money.INT64_LIMIT
    ensures LargestAllowed(rules, Stored(amount), requested, CappedPoints(rules, amount, requested))
  {
    var n := CappedPoints(rules, amount, requested);
    Money.MulLe(0, rules.maxRedeemPercent, Stored(amount));
    WholeCappedPointsLargest(rules, amount, requested, 0);
    assert n >= 0;
    WholeCappedPointsLargest(rules, amount, requested, n);
    WholeCappedPointsLargest(rules, amount, requested, n + 1);
  }

  /** The row behind a reply: it carries the request's fingerprint and the reply's numbers. */
  ghost predicate Backs(rows: seq<Row>, i: int, store: int, kind: Kind, ext: string, fingerprint: string,
                        delta: int, balance: int) {
    && 0 <= i < |rows| && HasKey(rows[i], store, kind, ext) && rows[i].fingerprint == fingerprint
    && rows[i].delta == delta && rows[i].balanceAfter == balance
  }

  /** Every store's rules that were ever live. */
  type Seen = set<(int, Live)>

  /** A new accrual row follows rules that were live, or none if the store had none. */
  ghost predicate EarnedUnder(row: Row, amount: Amount, live: Option<Live>, seen: Seen, hadRules: bool) {
    row.amount == Stored(amount) &&
    if live.None? then !hadRules && row.delta == 0 && row.rule == None
    else
      && (row.store, live.value) in seen && ValidRules(live.value.rules)
      && row.delta == AccrualPoints(live.value.rules, amount) && row.rule == Some(live.value.version)
  }

  /** A new redeem row takes the capped points under rules that were live. */
  ghost predicate SpentUnder(row: Row, amount: Amount, requested: Points, live: Live, seen: Seen) {
    && row.amount == Stored(amount) && (row.store, live) in seen && ValidRules(live.rules)
    && row.delta == 0 - CappedPoints(live.rules, amount, requested) < 0 && row.rule == Some(live.version)
  }

  /** In plain terms: a debit is what is asked for, or the cap, in whole kopecks the largest amount allowed. */
  lemma SpentExactly(row: Row, amount: Amount, requested: Points, live: Live, seen: Seen)
    ensures SpentUnder(row, amount, requested, live, seen) <==>
            && row.amount == Stored(amount) && (row.store, live) in seen && ValidRules(live.rules)
            && row.delta < 0 && Debit(live.rules, amount, requested, 0 - row.delta) && row.rule == Some(live.version)
  {
    if ValidRules(live.rules) {
      TakesTheDebit(live.rules, amount, requested);
    }
  }

  // ---- Why a request was rejected ----

  /** The ledger took this very request as its n-th and found this error. */
  ghost predicate RefusedAt(log: seq<Step>, n: int, policy: Policy, store: int, kind: Kind, ext: string,
                            fingerprint: string, error: Error) {
    && 0 <= n < |log| && HasRequestKey(log[n].req, store, kind, ext, fingerprint)
    && Checks(Reached(log[..n], policy), log[n].req, log[n].now, policy) == Some(error)
  }

  predicate HasRequestKey(req: Request, store: int, kind: Kind, ext: string, fingerprint: string) {
    req.store == store && KindOf(req) == kind && req.ext == ext && req.fingerprint == fingerprint
  }

  ghost predicate Refused(log: seq<Step>, since: nat, policy: Policy, store: int, kind: Kind, ext: string,
                          fingerprint: string, error: Error) {
    exists n :: since <= n && RefusedAt(log, n, policy, store, kind, ext, fingerprint, error)
  }

  lemma RefusedStays(before: seq<Step>, after: seq<Step>, since: nat, earlier: nat, policy: Policy, store: int,
                     kind: Kind, ext: string, fingerprint: string, error: Error)
    requires before <= after && earlier <= since
    requires Refused(before, since, policy, store, kind, ext, fingerprint, error)
    ensures Refused(after, earlier, policy, store, kind, ext, fingerprint, error)
  {
    var n :| since <= n && RefusedAt(before, n, policy, store, kind, ext, fingerprint, error);
    assert after[..n] == before[..n];
    assert RefusedAt(after, n, policy, store, kind, ext, fingerprint, error);
  }

  /** Below the minimum, nothing allowed, or less than what the redemption takes. */
  ghost predicate TooLittle(rules: Rules, amount: Amount, requested: Points, balance: int)
    requires ValidRules(rules)
  {
    balance < rules.minBalance || exists n :: Debit(rules, amount, requested, n) && (n <= 0 || balance < n)
  }

  /** Undisturbed, a redemption that the balance, the minimum and the limit allow takes its debit. */
  ghost predicate Redeems(db: Db, live: Live, client: int, amount: Amount, requested: Points, now: int, policy: Policy,
                          reply: Reply<Redeemed>) {
    var balance := BalanceOf(db, client);
    ValidRules(live.rules) &&
    forall n | Debit(live.rules, amount, requested, n) ::
      && n > 0 && balance >= live.rules.minBalance && balance >= n
      && (policy.dailyLimit > 0 ==> !NoRoom(db.rows, client, now - policy.window, n, policy.dailyLimit)) ==>
        reply == Ok(Redeemed(n, balance - n, false))
  }

  /** A post that the ledger's checks let through is answered with its debit and what is left. */
  ghost predicate Served(db: Db, req: Request, now: int, policy: Policy, reply: Reply<Redeemed>) {
    req.RedeemReq? && Checks(db, req, now, policy) == None ==>
      reply == Ok(Redeemed(req.debit, BalanceOf(db, req.client) - req.debit, false))
  }

  /** Undisturbed, what was built is what is due, and the ledger's verdict on it decides. */
  lemma RedeemsBuilt(db: Db, log: seq<Step>, live: Live, store: int, client: int, ext: string, amount: Amount,
                     requested: Points, now: int, policy: Policy, reply: Reply<Redeemed>)
    requires ValidRules(live.rules) && db == Reached(log, policy) && !Taken(db.rows, store, Redeem, ext)
    requires var built := BuildRedemption(store, client, ext, amount, requested, live, BalanceOf(db, client));
             built.Some? ==> Served(db, built.value, now, policy, reply)
    ensures Redeems(db, live, client, amount, requested, now, policy, reply)
  {
    TakesTheDebit(live.rules, amount, requested);
    var balance := BalanceOf(db, client);
    var built := BuildRedemption(store, client, ext, amount, requested, live, balance);
    if built.Some? {
      RedemptionVerdict(log, policy, built.value, now);
    }
  }

  /** A redemption is built exactly if the balance is not too little for it. */
  lemma BuiltExactly(store: int, client: int, ext: string, amount: Amount, requested: Points, live: Live, balance: int)
    requires ValidRules(live.rules)
    ensures BuildRedemption(store, client, ext, amount, requested, live, balance) == None <==>
            TooLittle(live.rules, amount, requested, balance)
  {
    TakesTheDebit(live.rules, amount, requested);
  }

  /** After n requests the client's balance did not allow the redemption under these rules. */
  ghost predicate ShortAt(log: seq<Step>, n: nat, policy: Policy, store: int, client: int, ext: string, amount: Amount,
                          requested: Points, live: Live) {
    && n <= |log| && ValidRules(live.rules)
    && var balance := BalanceOf(Reached(log[..n], policy), client);
       BuildRedemption(store, client, ext, amount, requested, live, balance) == None
  }

  /** In plain terms: the balance is below the minimum, or nothing may be taken, or more than there is. */
  lemma ShortExactly(log: seq<Step>, n: nat, policy: Policy, store: int, client: int, ext: string, amount: Amount,
                     requested: Points, live: Live)
    requires n <= |log| && ValidRules(live.rules)
    ensures ShortAt(log, n, policy, store, client, ext, amount, requested, live) <==>
            TooLittle(live.rules, amount, requested, BalanceOf(Reached(log[..n], policy), client))
  {
    BuiltExactly(store, client, ext, amount, requested, live, BalanceOf(Reached(log[..n], policy), client));
  }

  ghost predicate Short(log: seq<Step>, since: nat, policy: Policy, store: int, client: int, ext: string,
                        amount: Amount, requested: Points, seen: Seen) {
    exists n: nat, live :: since <= n && (store, live) in seen
      && ShortAt(log, n, policy, store, client, ext, amount, requested, live)
  }

  lemma ShortNow(log: seq<Step>, since: nat, policy: Policy, store: int, client: int, ext: string, amount: Amount,
                 requested: Points, live: Live, seen: Seen)
    requires since <= |log| && (store, live) in seen && ValidRules(live.rules)
    requires var balance := BalanceOf(Reached(log, policy), client);
             BuildRedemption(store, client, ext, amount, requested, live, balance) == None
    ensures Short(log, since, policy, store, client, ext, amount, requested, seen)
  {
    assert log[..|log|] == log;
    assert ShortAt(log, |log|, policy, store, client, ext, amount, requested, live);
  }

  // ---- Truthful replies ----

  /** A truthful reply to a sale: never nothing, and a result only with the row that backs it. */
  ghost predicate AnswersSale(rows: seq<Row>, since: nat, clients: Clients, store: int, ext: string, phone: string,
                              amount: Amount, seen: Seen, hadRules: bool, reply: Reply<Accrued>) {
    match reply
    case Nothing => false
    case Err(error) =>
      error.Rejected? || reply == ReplayedAccrue(rows, clients, store, ext, phone, amount)
    case Ok(r) =>
      && (store, phone) in clients
      && exists i :: Backs(rows, i, store, Accrual, ext, AccrualFingerprint(clients[(store, phone)], amount),
                           r.points, r.balance)
           && rows[i].client == r.client
           && (!r.replayed ==> i >= since && exists live :: EarnedUnder(rows[i], amount, live, seen, hadRules))
  }

  lemma ReplayAnswersSale(rows: seq<Row>, since: nat, clients: Clients, store: int, ext: string, phone: string,
                          amount: Amount, seen: Seen, hadRules: bool)
    requires Taken(rows, store, Accrual, ext)
    ensures AnswersSale(rows, since, clients, store, ext, phone, amount, seen, hadRules,
                        ReplayedAccrue(rows, clients, store, ext, phone, amount))
  {
    var i := Lookup(rows, store, Accrual, ext).value;
    assert (store, phone) in clients && rows[i].fingerprint == AccrualFingerprint(clients[(store, phone)], amount) ==>
        Backs(rows, i, store, Accrual, ext, AccrualFingerprint(clients[(store, phone)], amount),
              rows[i].delta, rows[i].balanceAfter);
  }

  /** Of the invites in the outbox only this one is new. */
  ghost predicate OnlyNewInvite(before: map<string, Notice>, after: map<string, Notice>, invite: Option<string>) {
    forall key | key in after && key !in before && IsInviteKey(key) :: invite.Some? && key == InviteKey(invite.value)
  }

  ghost predicate Debits(rows: seq<Row>, i: int, store: int, ext: string, fingerprint: string, points: int,
                         balance: int) {
    Backs(rows, i, store, Redeem, ext, fingerprint, 0 - points, balance)
  }

  ghost predicate AnswersRedemption(rows: seq<Row>, since: nat, store: int, ext: string, client: int, amount: Amount,
                                    requested: Points, seen: Seen, reply: Reply<Redeemed>) {
    match reply
    case Nothing => false
    case Err(error) =>
      error.Rejected? || error == UnknownClient || reply == ReplayedRedeem(rows, store, ext, client, amount, requested)
    case Ok(r) =>
      exists i :: Debits(rows, i, store, ext, RedeemFingerprint(client, amount, requested), r.points, r.balance)
        && (!r.replayed ==> i >= since && exists live :: SpentUnder(rows[i], amount, requested, live, seen))
  }

  lemma ReplayAnswersRedemption(rows: seq<Row>, since: nat, store: int, ext: string, client: int, amount: Amount,
                                requested: Points, seen: Seen)
    requires Taken(rows, store, Redeem, ext)
    ensures AnswersRedemption(rows, since, store, ext, client, amount, requested, seen,
                              ReplayedRedeem(rows, store, ext, client, amount, requested))
  {
    var i := Lookup(rows, store, Redeem, ext).value;
    assert rows[i].fingerprint == RedeemFingerprint(client, amount, requested) ==>
        Debits(rows, i, store, ext, RedeemFingerprint(client, amount, requested), 0 - rows[i].delta,
               rows[i].balanceAfter);
  }

  /** Row id is one the refund request may mean. */
  ghost predicate Named(rows: seq<Row>, id: int, store: int, ext: string, kind: Option<Kind>) {
    && 0 <= id < |rows| && rows[id].store == store && rows[id].ext == ext
    && (if kind.Some? then rows[id].kind == kind.value else rows[id].kind != Refund)
  }

  ghost predicate RefundBacked(rows: seq<Row>, since: nat, store: int, ext: string, id: nat, amount: Amount,
                               reply: Reply<Reversed>) {
    match reply
    case Nothing => false
    case Err(error) => error.Rejected? || reply == ReplayedRefund(rows, store, ext, id, amount)
    case Ok(r) =>
      exists i :: Backs(rows, i, store, Refund, ext, RefundFingerprint(id, amount), r.points, r.balance)
        && rows[i].client == r.client && (!r.replayed ==> i >= since && rows[i].original == Some(id))
  }

  /** A truthful reply to a refund of one of the rows the request may mean. */
  ghost predicate AnswersRefund(rows: seq<Row>, since: nat, store: int, ext: string, originalExt: string,
                                kind: Option<Kind>, amount: Amount, reply: Reply<Reversed>) {
    || (reply.Err? && (reply.error.Rejected? || reply.error == AmbiguousOriginal))
    || exists id ::
         Named(rows, id, store, originalExt, kind) && RefundBacked(rows, since, store, ext, id, amount, reply)
  }

  lemma ReplayAnswersRefund(rows: seq<Row>, since: nat, store: int, ext: string, id: nat, amount: Amount)
    requires Taken(rows, store, Refund, ext)
    ensures RefundBacked(rows, since, store, ext, id, amount, ReplayedRefund(rows, store, ext, id, amount))
  {
    var i := Lookup(rows, store, Refund, ext).value;
    assert rows[i].fingerprint == RefundFingerprint(id, amount) ==>
        Backs(rows, i, store, Refund, ext, RefundFingerprint(id, amount), rows[i].delta, rows[i].balanceAfter);
  }

  lemma NamedStays(before: seq<Row>, after: seq<Row>, id: int, store: int, ext: string, kind: Option<Kind>)
    requires Extends(before, after) && Named(before, id, store, ext, kind)
    ensures Named(after, id, store, ext, kind)
  {
    assert SameFacts(before[id], after[id]);
  }

  /** A registration or a valid configuration among the events had its effect. */
  predicate Took(event: Event, clients: Clients, configured: set<int>, seen: Seen) {
    match event
    case Registered(store, phone) => (store, phone) in clients
    case Configured(store, live) => ValidRules(live.rules) ==> store in configured && (store, live) in seen
    case Requested(_, _) => true
  }

  class LoyaltyService {
    var clients: Clients
    var configs: map<int, Live>
    var nextClient: int
    const ledger: LedgerRepository
    ghost var log: seq<Step>  // every request the ledger has taken
    ghost var seen: Seen

    ghost predicate Valid()
      reads this, ledger
    {
      && ledger.State() == Reached(log, ledger.policy)
      && (forall store | store in configs :: ValidRules(configs[store].rules) && (store, configs[store]) in seen)
    }

    /** Clients, rules ever live and stores with rules are only ever added. */
    twostate predicate Grown()
      reads this
    {
      && ClientsExtend(old(clients), clients) && old(seen) <= seen && old(configs).Keys <= configs.Keys
      && old(log) <= log
    }

    twostate predicate Same()
      reads this, ledger
    {
      ledger.State() == old(ledger.State()) && clients == old(clients) && configs == old(configs)
    }

    constructor (policy: Policy)
      ensures Valid() && fresh(ledger) && ledger.policy == policy && ledger.State() == EMPTY && clients == map[]
    {
      ledger := new LedgerRepository(policy);
      clients, configs, nextClient, log, seen := map[], map[], 0, [], {};
    }

    method Register(store: int, phone: string)
      requires Valid()
      modifies this
      ensures Valid() && Grown() && (store, phone) in clients
    {
      if (store, phone) !in clients {
        clients := clients[(store, phone) := nextClient];
        nextClient := nextClient + 1;
      }
    }

    method Submit(req: Request, now: int) returns (error: Option<Error>)
      requires Valid()
      modifies this`log, ledger
      ensures Valid() && error == Checks(old(ledger.State()), req, now, ledger.policy)
      ensures ledger.State() == After(old(ledger.State()), req, now, ledger.policy)
      ensures log == old(log) + [Step(req, now)]
    {
      match req {
        case AccrueReq(_, _, _, _, _, _, _, _) => error := ledger.Post(req, now);
        case RedeemReq(_, _, _, _, _, _, _, _) => error := ledger.PostRedeemChecked(req, now);
        case RefundReq(_, _, _, _, _) => error := ledger.PostRefund(req, now);
      }
      RunSnoc(EMPTY, log, Step(req, now), ledger.policy);
      log := log + [Step(req, now)];
    }

    /** One event of others: a client appears, rules change to other valid ones, or the ledger takes a request. */
    method Happens(event: Event)
      requires Valid()
      modifies this, ledger
      ensures Valid() && Grown() && Took(event, clients, configs.Keys, seen)
      ensures ledger.State() == Run(old(ledger.State()), StepsOf([event]), ledger.policy)
    {
      match event {
        case Registered(store, phone) => Register(store, phone);
        case Configured(store, live) =>
          if ValidRules(live.rules) {
            configs := configs[store := live];
            seen := seen + {(store, live)};
          }
        case Requested(req, now) =>
          RunSnoc(ledger.State(), [], Step(req, now), ledger.policy);
          var _ := Submit(req, now);
      }
    }

    method Others(events: seq<Event>)
      requires Valid()
      modifies this, ledger
      ensures Valid() && Grown()
      ensures ledger.State() == Run(old(ledger.State()), StepsOf(events), ledger.policy)
      ensures events == [] ==> Same()
      ensures forall i | 0 <= i < |events| :: Took(events[i], clients, configs.Keys, seen)
    {
      ghost var before := ledger.State();
      for i := 0 to |events|
        invariant Valid() && Grown()
        invariant ledger.State() == Run(before, StepsOf(events[..i]), ledger.policy)
        invariant i == 0 ==> Same()
        invariant forall k | 0 <= k < i :: Took(events[k], clients, configs.Keys, seen)
      {
        Happens(events[i]);
        OneMore(before, events, i, ledger.policy);
      }
      assert events[..|events|] == events;
    }

    // ---- Accrue ----

    /** GetByExternalID, then GetByPhone; `between` runs in the gap. */
    method CheckAccrueReplay(store: int, ext: string, phone: string, amount: Amount, between: seq<Event>)
      returns (reply: Reply<Accrued>)
      requires Valid()
      modifies this, ledger
      ensures Valid() && Grown()
      ensures ledger.State() == if Taken(old(ledger.rows), store, Accrual, ext)
                                then Run(old(ledger.State()), StepsOf(between), ledger.policy)
                                else old(ledger.State())
      ensures reply == if Taken(old(ledger.rows), store, Accrual, ext)
                       then ReplayedAccrue(ledger.rows, clients, store, ext, phone, amount) else Nothing
      ensures Taken(old(ledger.rows), store, Accrual, ext) ==> Taken(ledger.rows, store, Accrual, ext)
      ensures between == [] || !Taken(old(ledger.rows), store, Accrual, ext) ==> Same()
    {
      var found := Lookup(ledger.rows, store, Accrual, ext);
      if found == None {
        return Nothing;
      }
      ghost var before := ledger.State();
      var existing := ledger.rows[found.value];
      Others(between);
      RunExtends(before, StepsOf(between), ledger.policy);
      LookupStable(before.rows, ledger.rows, store, Accrual, ext);
      TakenStays(before.rows, ledger.rows, store, Accrual, ext);
      assert SameFacts(existing, ledger.rows[found.value]);
      if (store, phone) !in clients || existing.fingerprint != AccrualFingerprint(clients[(store, phone)], amount) {
        return Err(IdempotencyConflict);
      }
      return Ok(Accrued(existing.client, existing.delta, existing.balanceAfter, true));
    }

    /** GetByPhone, and Create when it finds nobody; a registration lost to another request is re-read. */
    method ResolveOrCreateClient(store: int, phone: string, between: seq<Event>) returns (client: int, created: bool)
      requires Valid()
      modifies this, ledger
      ensures Valid() && Grown()
      ensures (store, phone) in clients && clients[(store, phone)] == client
      ensures created ==> (store, phone) !in old(clients)
      ensures between == [] ==> (created <==> (store, phone) !in old(clients)) && ledger.State() == old(ledger.State())
      ensures Extends(old(ledger.rows), ledger.rows)
    {
      if (store, phone) in clients {
        return clients[(store, phone)], false;
      }
      ghost var before := ledger.State();
      Others(between);
      RunExtends(before, StepsOf(between), ledger.policy);
      created := (store, phone) !in clients;
      Register(store, phone);
      client := clients[(store, phone)];
    }

    /** Others run; the ledger's rows are still there afterwards. */
    method Pause(events: seq<Event>)
      requires Valid()
      modifies this, ledger
      ensures Valid() && Grown() && Extends(old(ledger.rows), ledger.rows)
      ensures events == [] ==> Same()
    {
      ghost var before := ledger.State();
      Others(events);
      RunExtends(before, StepsOf(events), ledger.policy);
    }

    /** Posts a built request; on success its row is the last one, on conflict its key is taken. */
    method PostRequest(req: Request, now: int) returns (error: Option<Error>)
      requires Valid()
      modifies this`log, ledger
      ensures Valid() && Extends(old(ledger.rows), ledger.rows)
      ensures error == Checks(old(ledger.State()), req, now, ledger.policy)
      ensures error == None ==> |ledger.rows| == |old(ledger.rows)| + 1 && Refers(old(ledger.rows), req)
      ensures error == None ==>
                ledger.rows[|old(ledger.rows)|] ==
                NewRow(old(ledger.rows), req, now, NewBalance(old(ledger.State()), req))
      ensures error == Some(Conflict) ==> Taken(ledger.rows, req.store, KindOf(req), req.ext)
      ensures old(log) <= log
      ensures error.Some? ==>
                Refused(log, |old(log)|, ledger.policy, req.store, KindOf(req), req.ext, req.fingerprint, error.value)
      ensures error == None && req.AccrueReq? && req.invite.Some? ==> InviteKey(req.invite.value) in ledger.outbox
      ensures OnlyNewInvite(old(ledger.outbox), ledger.outbox, if req.AccrueReq? then req.invite else None)
    {
      ghost var before, n := ledger.State(), |log|;
      error := Submit(req, now);
      AfterExtends(before, req, now, ledger.policy);
      if error == None {
        InvitesAfter(before, req, now, ledger.policy);
      }
      assert log[..n] == old(log);
      assert error.Some? ==>
          RefusedAt(log, n, ledger.policy, req.store, KindOf(req), req.ext, req.fingerprint, error.value);
    }

    /** The post itself, and the second look when another copy of the request won. */
    method FinishAccrue(req: Request, phone: string, live: Option<Live>, now: int, ghost since: nat,
                        ghost hadRules: bool, gaps: Gaps)
      returns (reply: Reply<Accrued>)
      requires Valid() && req.AccrueReq? && since <= |ledger.rows|
      requires (req.store, phone) in clients && clients[(req.store, phone)] == req.client
      requires req.fingerprint == AccrualFingerprint(req.client, req.amount)
      requires EarnedUnder(RowFor(req, None, 0, 0), req.amount, live, seen, hadRules)
      modifies this, ledger
      ensures Valid() && Grown()
      ensures AnswersSale(ledger.rows, since, clients, req.store, req.ext, phone, req.amount, seen, hadRules, reply)
      ensures reply.Err? && reply.error.Rejected? ==>
                Refused(log, |old(log)|, ledger.policy, req.store, Accrual, req.ext, req.fingerprint, reply.error.error)
      ensures reply.Ok? && !reply.result.replayed && req.invite.Some? ==> InviteKey(req.invite.value) in ledger.outbox
      ensures gaps == [] ==> OnlyNewInvite(old(ledger.outbox), ledger.outbox, req.invite)
    {
      var end := |ledger.rows|;
      var error := PostRequest(req, now);
      if error == Some(Conflict) {
        ghost var rows := ledger.rows;
        Pause(Gap(gaps, 5));
        TakenStays(rows, ledger.rows, req.store, Accrual, req.ext);
        reply := CheckAccrueReplay(req.store, req.ext, phone, req.amount, Gap(gaps, 6));
        ReplayAnswersSale(ledger.rows, since, clients, req.store, req.ext, phone, req.amount, seen, hadRules);
      } else if error.Some? {
        reply := Err(Rejected(error.value));
      } else {
        var row := ledger.rows[end];
        reply := Ok(Accrued(req.client, row.delta, row.balanceAfter, false));
        assert EarnedUnder(row, req.amount, live, seen, hadRules);
        assert Backs(ledger.rows, end, req.store, Accrual, req.ext, req.fingerprint, row.delta, row.balanceAfter);
      }
    }

    /** Resolves the client and reads the rules, with others running around every read. */
    method PrepareAccrual(store: int, ext: string, phone: string, amount: Amount, mayInvite: bool, gaps: Gaps)
      returns (req: Request, live: Option<Live>, ghost created: bool)
      requires Valid()
      modifies this, ledger
      ensures Valid() && Grown() && Extends(old(ledger.rows), ledger.rows)
      ensures req.AccrueReq? && req.store == store && req.ext == ext && req.amount == amount
      ensures (store, phone) in clients && clients[(store, phone)] == req.client
      ensures req.fingerprint == AccrualFingerprint(req.client, amount)
      ensures EarnedUnder(RowFor(req, None, 0, 0), amount, live, seen, store in old(configs))
      ensures req.invite == if created && mayInvite then Some(phone) else None
      ensures created ==> (store, phone) !in old(clients)
      ensures gaps == [] ==>
                (created <==> (store, phone) !in old(clients)) && ledger.State() == old(ledger.State())
    {
      ghost var rows := ledger.rows;
      Pause(Gap(gaps, 1));
      ghost var rows1 := ledger.rows;
      var client, registered := ResolveOrCreateClient(store, phone, Gap(gaps, 2));
      created := registered;
      ghost var rows2 := ledger.rows;
      ExtendsTransitive(rows, rows1, rows2);
      Pause(Gap(gaps, 3));
      ghost var rows3 := ledger.rows;
      ExtendsTransitive(rows, rows2, rows3);
      live := if store in configs then Some(configs[store]) else None;
      var invite := if registered && mayInvite then Some(phone) else None;
      req := BuildAccrual(store, client, ext, amount, live, invite);
      Pause(Gap(gaps, 4));
      ExtendsTransitive(rows, rows3, ledger.rows);
    }

    /** `created` tells whether this call registered the client. */
    method Accrue(store: int, ext: string, phone: string, amount: Amount, mayInvite: bool, now: int, gaps: Gaps)
      returns (reply: Reply<Accrued>, ghost created: bool)
      requires Valid()
      modifies this, ledger
      ensures Valid() && Grown()
      ensures Taken(old(ledger.rows), store, Accrual, ext) ==>
                && ledger.State() == Run(old(ledger.State()), StepsOf(Gap(gaps, 0)), ledger.policy)
                && reply == ReplayedAccrue(ledger.rows, clients, store, ext, phone, amount)
      ensures AnswersSale(ledger.rows, |old(ledger.rows)|, clients, store, ext, phone, amount, seen,
                          store in old(configs), reply)
      ensures reply.Err? && reply.error.Rejected? ==>
                && (store, phone) in clients
                && Refused(log, |old(log)|, ledger.policy, store, Accrual, ext,
                           AccrualFingerprint(clients[(store, phone)], amount), reply.error.error)
      ensures created ==> (store, phone) !in old(clients) && (store, phone) in clients
      ensures gaps == [] && !Taken(old(ledger.rows), store, Accrual, ext) ==>
                (created <==> (store, phone) !in old(clients))
      ensures reply.Ok? && !reply.result.replayed && created && mayInvite ==> InviteKey(phone) in ledger.outbox
      ensures gaps == [] ==>
                OnlyNewInvite(old(ledger.outbox), ledger.outbox, if created && mayInvite then Some(phone) else None)
    {
      ghost var since, hadRules, logged := |ledger.rows|, store in configs, |log|;
      created := false;
      reply := CheckAccrueReplay(store, ext, phone, amount, Gap(gaps, 0));
      if reply != Nothing {
        ReplayAnswersSale(ledger.rows, since, clients, store, ext, phone, amount, seen, hadRules);
        return reply, created;
      }
      reply, created := AccrueAnew(store, ext, phone, amount, mayInvite, now, since, logged, hadRules, gaps);
    }

    /** The sale once its key was seen free. */
    method AccrueAnew(store: int, ext: string, phone: string, amount: Amount, mayInvite: bool, now: int,
                      ghost since: nat, ghost logged: nat, ghost hadRules: bool, gaps: Gaps)
      returns (reply: Reply<Accrued>, ghost created: bool)
      requires Valid() && since <= |ledger.rows| && logged <= |log| && hadRules == (store in configs)
      modifies this, ledger
      ensures Valid() && Grown()
      ensures AnswersSale(ledger.rows, since, clients, store, ext, phone, amount, seen, hadRules, reply)
      ensures reply.Err? && reply.error.Rejected? ==>
                && (store, phone) in clients
                && Refused(log, logged, ledger.policy, store, Accrual, ext,
                           AccrualFingerprint(clients[(store, phone)], amount), reply.error.error)
      ensures created ==> (store, phone) !in old(clients) && (store, phone) in clients
      ensures gaps == [] ==> (created <==> (store, phone) !in old(clients))
      ensures reply.Ok? && !reply.result.replayed && created && mayInvite ==> InviteKey(phone) in ledger.outbox
      ensures gaps == [] ==>
                OnlyNewInvite(old(ledger.outbox), ledger.outbox, if created && mayInvite then Some(phone) else None)
    {
      ghost var outbox := ledger.outbox;
      var req, live, registered := PrepareAccrual(store, ext, phone, amount, mayInvite, gaps);
      assert gaps == [] ==> ledger.outbox == outbox;
      ghost var prepared := |log|;
      created := registered;
      reply := FinishAccrue(req, phone, live, now, since, hadRules, gaps);
      if reply.Err? && reply.error.Rejected? {
        RefusedStays(log, log, prepared, logged, ledger.policy, store, Accrual, ext, req.fingerprint,
                     reply.error.error);
      }
    }

    // ---- Redeem ----

    predicate Serves(store: int, client: int)
      reads this
    {
      exists key | key in clients :: key.0 == store && clients[key] == client
    }

    /** The second look when another copy of the redemption won. */
    method LookAgain(req: Request, requested: Points, ghost since: nat, gaps: Gaps) returns (reply: Reply<Redeemed>)
      requires Valid() && req.RedeemReq? && since <= |ledger.rows|
      requires Taken(ledger.rows, req.store, Kind.Redeem, req.ext)
      modifies this, ledger
      ensures Valid() && Grown()
      ensures AnswersRedemption(ledger.rows, since, req.store, req.ext, req.client, req.amount, requested, seen, reply)
      ensures reply.Ok? || reply == Err(IdempotencyConflict)
    {
      ghost var rows := ledger.rows;
      Pause(Gap(gaps, 4));
      TakenStays(rows, ledger.rows, req.store, Kind.Redeem, req.ext);
      reply := ReplayedRedeem(ledger.rows, req.store, req.ext, req.client, req.amount, requested);
      ReplayAnswersRedemption(ledger.rows, since, req.store, req.ext, req.client, req.amount, requested, seen);
    }

    method FinishRedeem(req: Request, requested: Points, live: Live, now: int, ghost since: nat, gaps: Gaps)
      returns (reply: Reply<Redeemed>)
      requires Valid() && req.RedeemReq? && since <= |ledger.rows|
      requires SpentUnder(RowFor(req, None, 0, 0), req.amount, requested, live, seen)
      requires req.fingerprint == RedeemFingerprint(req.client, req.amount, requested)
      modifies this, ledger
      ensures Valid() && Grown()
      ensures AnswersRedemption(ledger.rows, since, req.store, req.ext, req.client, req.amount, requested, seen, reply)
      ensures reply != Err(UnknownClient)
      ensures reply.Err? && reply.error.Rejected? ==>
                Refused(log, |old(log)|, ledger.policy, req.store, Kind.Redeem, req.ext, req.fingerprint,
                        reply.error.error)
      ensures Served(old(ledger.State()), req, now, ledger.policy, reply)
    {
      ghost var before := ledger.State();
      var end := |ledger.rows|;
      var error := PostRequest(req, now);
      if error == Some(Conflict) {
        reply := LookAgain(req, requested, since, gaps);
      } else if error.Some? {
        reply := Err(Rejected(error.value));
      } else {
        var row := ledger.rows[end];
        reply := Ok(Redeemed(0 - row.delta, row.balanceAfter, false));
        assert row.delta == 0 - req.debit && row.balanceAfter == BalanceOf(before, req.client) - req.debit;
        assert Served(before, req, now, ledger.policy, reply);
        assert SpentUnder(row, req.amount, requested, live, seen);
        assert Debits(ledger.rows, end, req.store, req.ext, req.fingerprint, 0 - row.delta, row.balanceAfter);
      }
    }

    /** GetByExternalID, with others running before it. */
    method CheckRedeemReplay(store: int, ext: string, client: int, requested: Points, amount: Amount,
                             ghost since: nat, between: seq<Event>)
      returns (reply: Reply<Redeemed>)
      requires Valid() && since == |ledger.rows|
      modifies this, ledger
      ensures Valid() && Grown() && Extends(old(ledger.rows), ledger.rows)
      ensures ledger.State() == Run(old(ledger.State()), StepsOf(between), ledger.policy)
      ensures between == [] ==> Same()
      ensures reply == ReplayedRedeem(ledger.rows, store, ext, client, amount, requested)
      ensures Taken(old(ledger.rows), store, Kind.Redeem, ext) ==> reply != Nothing
      ensures reply == Nothing <==> !Taken(ledger.rows, store, Kind.Redeem, ext)
      ensures reply != Nothing ==> reply.Ok? || reply == Err(IdempotencyConflict)
      ensures reply != Nothing ==>
                AnswersRedemption(ledger.rows, since, store, ext, client, amount, requested, seen, reply)
    {
      ghost var before := ledger.State();
      Others(between);
      RunExtends(before, StepsOf(between), ledger.policy);
      reply := ReplayedRedeem(ledger.rows, store, ext, client, amount, requested);
      if Taken(before.rows, store, Kind.Redeem, ext) {
        TakenStays(before.rows, ledger.rows, store, Kind.Redeem, ext);
      }
      if reply != Nothing {
        ReplayAnswersRedemption(ledger.rows, since, store, ext, client, amount, requested, seen);
      }
    }

    method Redeem(store: int, ext: string, client: int, requested: Points, amount: Amount, now: int, gaps: Gaps)
      returns (reply: Reply<Redeemed>)
      requires Valid()
      modifies this, ledger
      ensures Valid() && Grown()
      ensures !old(Serves(store, client)) ==> reply == Err(UnknownClient) && ledger.State() == old(ledger.State())
      ensures old(Serves(store, client)) && Taken(old(ledger.rows), store, Kind.Redeem, ext) ==>
                && ledger.State() == Run(old(ledger.State()), StepsOf(Gap(gaps, 0)), ledger.policy)
                && reply == ReplayedRedeem(ledger.rows, store, ext, client, amount, requested)
      ensures AnswersRedemption(ledger.rows, |old(ledger.rows)|, store, ext, client, amount, requested, seen, reply)
      ensures reply == Err(UnknownClient) <==> !old(Serves(store, client))
      ensures reply == Err(UnknownClient) <==>
                forall key | key in old(clients) && key.0 == store :: old(clients)[key] != client
      ensures reply.Err? && reply.error.Rejected? ==>
                || (reply.error.error == InsufficientBalance
                    && (store !in old(configs)
                        || Short(log, |old(log)|, ledger.policy, store, client, ext, amount, requested, seen)))
                || Refused(log, |old(log)|, ledger.policy, store, Kind.Redeem, ext,
                           RedeemFingerprint(client, amount, requested), reply.error.error)
      ensures gaps == [] && old(Serves(store, client)) && store in old(configs)
              && !Taken(old(ledger.rows), store, Kind.Redeem, ext) ==>
                Redeems(old(ledger.State()), old(configs)[store], client, amount, requested, now, ledger.policy, reply)
    {
      ghost var before, logged, live := ledger.State(), |log|, configs;
      if !Serves(store, client) {
        return Err(UnknownClient);
      }
      reply := CheckRedeemReplay(store, ext, client, requested, amount, |before.rows|, Gap(gaps, 0));
      if reply != Nothing {
        return reply;
      }
      ghost var steps, plan := log, None;
      reply, plan := RedeemAnew(store, ext, client, requested, amount, now, |before.rows|, logged, gaps);
      if gaps == [] && store in live {
        RedeemsBuilt(before, steps, live[store], store, client, ext, amount, requested, now, ledger.policy, reply);
      }
    }

    method RedeemAnew(store: int, ext: string, client: int, requested: Points, amount: Amount, now: int,
                      ghost since: nat, ghost logged: nat, gaps: Gaps)
      returns (reply: Reply<Redeemed>, ghost plan: Option<Request>)
      requires Valid() && since <= |ledger.rows| && logged <= |log|
      modifies this, ledger
      ensures Valid() && Grown()
      ensures AnswersRedemption(ledger.rows, since, store, ext, client, amount, requested, seen, reply)
      ensures reply != Err(UnknownClient)
      ensures reply.Err? && reply.error.Rejected? ==>
                || (reply.error.error == InsufficientBalance
                    && (store !in old(configs)
                        || Short(log, logged, ledger.policy, store, client, ext, amount, requested, seen)))
                || Refused(log, logged, ledger.policy, store, Kind.Redeem, ext,
                           RedeemFingerprint(client, amount, requested), reply.error.error)
      ensures gaps == [] && store in old(configs) ==>
                && ValidRules(old(configs)[store].rules)
                && plan == BuildRedemption(store, client, ext, amount, requested, old(configs)[store],
                                           BalanceOf(old(ledger.State()), client))
      ensures gaps == [] && plan.Some? ==>
                Served(old(ledger.State()), plan.value, now, ledger.policy, reply)
    {
      var built, live := PrepareRedemption(store, ext, client, requested, amount, logged, gaps);
      plan := built;
      if built == None {
        return Err(Rejected(InsufficientBalance)), plan;
      }
      ghost var prepared := |log|;
      reply := FinishRedeem(built.value, requested, live.value, now, since, gaps);
      if reply.Err? && reply.error.Rejected? {
        RefusedStays(log, log, prepared, logged, ledger.policy, store, Kind.Redeem, ext, built.value.fingerprint,
                     reply.error.error);
      }
    }

    /** Reads the rules and the balance, with others running around each read; None rejects without a post. */
    method PrepareRedemption(store: int, ext: string, client: int, requested: Points, amount: Amount,
                             ghost logged: nat, gaps: Gaps)
      returns (built: Option<Request>, live: Option<Live>)
      requires Valid() && logged <= |log|
      modifies this, ledger
      ensures Valid() && Grown() && Extends(old(ledger.rows), ledger.rows)
      ensures live == None ==> store !in old(configs) && built == None
      ensures live.Some? && built == None ==>
                Short(log, logged, ledger.policy, store, client, ext, amount, requested, seen)
      ensures built.Some? ==>
                && live.Some? && built.value.RedeemReq? && built.value.store == store && built.value.ext == ext
                && built.value.client == client && built.value.amount == amount
                && built.value.fingerprint == RedeemFingerprint(client, amount, requested)
                && SpentUnder(RowFor(built.value, None, 0, 0), amount, requested, live.value, seen)
      ensures gaps == [] ==> Same()
      ensures gaps == [] && store in old(configs) ==>
                && live == Some(old(configs)[store]) && ValidRules(live.value.rules)
                && built == BuildRedemption(store, client, ext, amount, requested, live.value,
                                            BalanceOf(old(ledger.State()), client))
    {
      ghost var rows := ledger.rows;
      Pause(Gap(gaps, 1));
      if store !in configs {
        return None, None;
      }
      ghost var rows1 := ledger.rows;
      live := Some(configs[store]);
      Pause(Gap(gaps, 2));
      ghost var rows2 := ledger.rows;
      ExtendsTransitive(rows, rows1, rows2);
      var balance := BalanceOf(ledger.State(), client);
      built := BuildRedemption(store, client, ext, amount, requested, live.value, balance);
      if built == None {
        ShortNow(log, logged, ledger.policy, store, client, ext, amount, requested, live.value, seen);
      } else {
        Pause(Gap(gaps, 3));
        ExtendsTransitive(rows, rows2, ledger.rows);
      }
    }

    // ---- Refund ----

    /** resolveOriginalTransaction: one read by kind, or one read per kind with others in between. */
    method Resolve(store: int, ext: string, kind: Option<Kind>, between: seq<Event>) returns (found: Resolution)
      requires Valid()
      modifies this, ledger
      ensures Valid() && Grown() && Extends(old(ledger.rows), ledger.rows)
      ensures found.Original? ==> Named(ledger.rows, found.id, store, ext, kind)
      ensures found.Missing? ==> ResolveOriginal(old(ledger.rows), store, ext, kind) == Missing
      ensures found.Ambiguous? ==> ResolveOriginal(ledger.rows, store, ext, kind) == Ambiguous
    {
      if kind.Some? {
        var row := Lookup(ledger.rows, store, kind.value, ext);
        return if row.Some? then Original(row.value) else Missing;
      }
      var accrual := Lookup(ledger.rows, store, Accrual, ext);
      ghost var rows := ledger.rows;
      Pause(between);
      var redeem := Lookup(ledger.rows, store, Kind.Redeem, ext);
      if accrual.Some? {
        NamedStays(rows, ledger.rows, accrual.value, store, ext, kind);
        TakenStays(rows, ledger.rows, store, Accrual, ext);
      }
      if Taken(rows, store, Kind.Redeem, ext) {
        TakenStays(rows, ledger.rows, store, Kind.Redeem, ext);
      }
      found := if accrual.Some? && redeem.Some? then Ambiguous
               else if accrual.Some? then Original(accrual.value)
               else if redeem.Some? then Original(redeem.value)
               else Missing;
    }

    method FinishRefund(req: Request, now: int, ghost since: nat, gaps: Gaps) returns (reply: Reply<Reversed>)
      requires Valid() && req.RefundReq? && since <= |ledger.rows|
      requires req.fingerprint == RefundFingerprint(req.id, req.amount)
      modifies this, ledger
      ensures Valid() && Grown() && Extends(old(ledger.rows), ledger.rows)
      ensures RefundBacked(ledger.rows, since, req.store, req.ext, req.id, req.amount, reply)
      ensures reply.Err? && reply.error.Rejected? ==>
                Refused(log, |old(log)|, ledger.policy, req.store, Kind.Refund, req.ext, req.fingerprint,
                        reply.error.error)
    {
      ghost var before := ledger.rows;
      var end := |ledger.rows|;
      var error := PostRequest(req, now);
      if error == Some(Conflict) {
        ghost var rows := ledger.rows;
        Pause(Gap(gaps, 3));
        ExtendsTransitive(before, rows, ledger.rows);
        TakenStays(rows, ledger.rows, req.store, Kind.Refund, req.ext);
        reply := ReplayedRefund(ledger.rows, req.store, req.ext, req.id, req.amount);
        ReplayAnswersRefund(ledger.rows, since, req.store, req.ext, req.id, req.amount);
      } else if error.Some? {
        reply := Err(Rejected(error.value));
      } else {
        var row := ledger.rows[end];
        reply := Ok(Reversed(row.client, row.delta, row.balanceAfter, false));
        assert Backs(ledger.rows, end, req.store, Kind.Refund, req.ext, req.fingerprint, row.delta, row.balanceAfter);
      }
    }

    method RefundRow(store: int, ext: string, id: nat, amount: Amount, now: int, ghost since: nat, gaps: Gaps)
      returns (reply: Reply<Reversed>)
      requires Valid() && since <= |ledger.rows|
      modifies this, ledger
      ensures Valid() && Grown() && Extends(old(ledger.rows), ledger.rows)
      ensures RefundBacked(ledger.rows, since, store, ext, id, amount, reply)
      ensures reply.Err? && reply.error.Rejected? ==>
                Refused(log, |old(log)|, ledger.policy, store, Kind.Refund, ext, RefundFingerprint(id, amount),
                        reply.error.error)
    {
      ghost var rows, logged := ledger.rows, |log|;
      Pause(Gap(gaps, 1));
      reply := ReplayedRefund(ledger.rows, store, ext, id, amount);
      if reply != Nothing {
        ReplayAnswersRefund(ledger.rows, since, store, ext, id, amount);
        return reply;
      }
      ghost var rows1 := ledger.rows;
      Pause(Gap(gaps, 2));
      ghost var rows2 := ledger.rows;
      ExtendsTransitive(rows, rows1, rows2);
      ghost var prepared := |log|;
      reply := FinishRefund(RefundReq(store, ext, amount, RefundFingerprint(id, amount), id), now, since, gaps);
      ExtendsTransitive(rows, rows2, ledger.rows);
      if reply.Err? && reply.error.Rejected? {
        RefusedStays(log, log, prepared, logged, ledger.policy, store, Kind.Refund, ext, RefundFingerprint(id, amount),
                     reply.error.error);
      }
    }

    method Refund(store: int, ext: string, originalExt: string, kind: Option<Kind>, amount: Amount, now: int,
                  gaps: Gaps)
      returns (reply: Reply<Reversed>)
      requires Valid()
      modifies this, ledger
      ensures Valid() && Grown()
      ensures AnswersRefund(ledger.rows, |old(ledger.rows)|, store, ext, originalExt, kind, amount, reply)
      ensures reply == Err(AmbiguousOriginal) ==> ResolveOriginal(ledger.rows, store, originalExt, kind) == Ambiguous
      ensures reply.Err? && reply.error.Rejected? ==>
                || (reply.error.error == NotFound
                    && ResolveOriginal(old(ledger.rows), store, originalExt, kind) == Missing)
                || exists id: nat :: Named(ledger.rows, id, store, originalExt, kind)
                     && Refused(log, |old(log)|, ledger.policy, store, Kind.Refund, ext, RefundFingerprint(id, amount),
                                reply.error.error)
    {
      ghost var since, logged := |ledger.rows|, |log|;
      var found := Resolve(store, originalExt, kind, Gap(gaps, 0));
      match found {
        case Missing => reply := Err(Rejected(NotFound));
        case Ambiguous => reply := Err(AmbiguousOriginal);
        case Original(id) =>
          ghost var rows, resolved := ledger.rows, |log|;
          reply := RefundRow(store, ext, id, amount, now, since, gaps);
          NamedStays(rows, ledger.rows, id, store, originalExt, kind);
          if reply.Err? && reply.error.Rejected? {
            RefusedStays(log, log, resolved, logged, ledger.policy, store, Kind.Refund, ext,
                         RefundFingerprint(id, amount), reply.error.error);
          }
      }
    }
  }
}
