/** Ledger rows against the rules history: rules are read at one time and the row is posted at a later one. */
module RuleVersions {
  import opened Rows
  import opened Amounts
  import opened Ledger
  import opened LoyaltyRules
  import opened Loyalty
  import opened Money
  import LedgerSafety
  import ConfigHistory

  /** The rules table with its writers, the ledger, and ledger requests built but not posted yet. */
  datatype World = World(rules: ConfigHistory.Sys, db: Db, built: map<int, Request>)

  const START: World := World(ConfigHistory.Sys(ConfigHistory.NO_RULES, map[]), EMPTY, map[])

  datatype Action =
    | Rule(action: ConfigHistory.Action)
    | BuildSale(id: int, client: int, ext: string, amount: Amount, invite: Option<string>)
    | BuildSpend(id: int, client: int, ext: string, amount: Amount, requested: Points, balance: int)
    | PostBuilt(id: int, now: int)
    | PostRefund(store: int, ext: string, amount: Amount, fingerprint: string, original: nat, now: int)

  function LiveRules(w: World, store: int): Option<Live> {
    if store in w.rules.table.live then Some(w.rules.table.live[store]) else None
  }

  /** home gives the one store a client belongs to. */
  function Next(w: World, home: int -> int, action: Action, policy: Policy): World {
    match action
    case Rule(a) => w.(rules := ConfigHistory.Next(w.rules, a))
    case BuildSale(id, client, ext, amount, invite) =>
      var live := LiveRules(w, home(client));
      if id in w.built || (live.Some? && !ValidRules(live.value.rules)) then w
      else w.(built := w.built[id := BuildAccrual(home(client), client, ext, amount, live, invite)])
    case BuildSpend(id, client, ext, amount, requested, balance) =>
      var live := LiveRules(w, home(client));
      if id in w.built || live.None? || !ValidRules(live.value.rules) then w
      else
        var req := BuildRedemption(home(client), client, ext, amount, requested, live.value, balance);
        if req.None? then w else w.(built := w.built[id := req.value])
    case PostBuilt(id, now) =>
      if id !in w.built then w
      else w.(db := After(w.db, w.built[id], now, policy), built := w.built - {id})
    case PostRefund(store, ext, amount, fingerprint, original, now) =>
      w.(db := After(w.db, RefundReq(store, ext, amount, fingerprint, original), now, policy))
  }

  function Exec(home: int -> int, actions: seq<Action>, policy: Policy): World {
    if actions == [] then START
    else Next(Exec(home, actions[..|actions| - 1], policy), home, actions[|actions| - 1], policy)
  }

  /** A sale as it was sent: its client, its id and its amount. */
  type Sale = (int, string, Amount)

  function Sales(actions: seq<Action>): set<Sale> {
    if actions == [] then {}
    else
      var last := actions[|actions| - 1];
      Sales(actions[..|actions| - 1]) + (if last.BuildSale? then {(last.client, last.ext, last.amount)} else {})
  }

  /** Sent as `a`, an accrual is what its version's rules give for a; without a version it is worth nothing. */
  ghost predicate FollowsAs(t: ConfigHistory.Table, home: int -> int, r: Row, a: Amount, sold: set<Sale>) {
    && r.store == home(r.client)
    && (r.kind != Refund ==>
          && (r.rule.Some? ==>
                && (r.store, r.rule.value) in t.history && ValidRules(t.history[(r.store, r.rule.value)])
                && (r.kind == Accrual ==> r.delta == AccrualPoints(t.history[(r.store, r.rule.value)], a)))
          && (r.rule.None? ==> r.kind == Accrual && r.delta == 0))
    && (r.kind == Accrual ==> r.amount == Stored(a) && (r.client, r.ext, a) in sold)
  }

  ghost predicate Follows(t: ConfigHistory.Table, home: int -> int, r: Row, sold: set<Sale>) {
    exists a: Amount :: FollowsAs(t, home, r, a, sold)
  }

  ghost predicate BuiltOk(t: ConfigHistory.Table, home: int -> int, req: Request, sold: set<Sale>) {
    !req.RefundReq? && FollowsAs(t, home, RowFor(req, None, 0, 0), req.amount, sold)
  }

  ghost predicate WorldOk(w: World, home: int -> int, policy: Policy, sold: set<Sale>) {
    && ConfigHistory.SysOk(w.rules) && LedgerSafety.Inv(w.db, policy)
    && (forall id | id in w.built :: BuiltOk(w.rules.table, home, w.built[id], sold))
    && (forall i | 0 <= i < |w.db.rows| :: Follows(w.rules.table, home, w.db.rows[i], sold))
  }

  lemma FollowsStable(before: ConfigHistory.Table, after: ConfigHistory.Table, home: int -> int, r: Row,
                      sold: set<Sale>)
    requires ConfigHistory.AppendOnly(before, after) && Follows(before, home, r, sold)
    ensures Follows(after, home, r, sold)
  {
    var a: Amount :| FollowsAs(before, home, r, a, sold);
    assert FollowsAs(after, home, r, a, sold);
  }

  lemma RuleKeeps(w: World, home: int -> int, action: ConfigHistory.Action, policy: Policy, sold: set<Sale>)
    requires WorldOk(w, home, policy, sold)
    ensures WorldOk(Next(w, home, Rule(action), policy), home, policy, sold)
  {
    ConfigHistory.NextKeeps(w.rules, action);
    var next := Next(w, home, Rule(action), policy);
    forall i | 0 <= i < |w.db.rows|
      ensures Follows(next.rules.table, home, w.db.rows[i], sold)
    {
      FollowsStable(w.rules.table, next.rules.table, home, w.db.rows[i], sold);
    }
    assert forall id | id in w.built :: BuiltOk(w.rules.table, home, w.built[id], sold);
  }

  lemma LiveIsInHistory(t: ConfigHistory.Table, store: int)
    requires ConfigHistory.TableOk(t) && store in t.live
    ensures (store, t.live[store].version) in t.history
    ensures t.history[(store, t.live[store].version)] == t.live[store].rules && ValidRules(t.live[store].rules)
  {
    assert ConfigHistory.StoreOk(t, store);
  }

  lemma SaleBuiltOk(t: ConfigHistory.Table, home: int -> int, client: int, ext: string, amount: Amount,
                    live: Option<Live>, invite: Option<string>, sold: set<Sale>)
    requires ConfigHistory.TableOk(t) && (client, ext, amount) in sold
    requires live == if home(client) in t.live then Some(t.live[home(client)]) else None
    requires live.Some? ==> ValidRules(live.value.rules)
    ensures BuiltOk(t, home, BuildAccrual(home(client), client, ext, amount, live, invite), sold)
  {
    if live.Some? {
      LiveIsInHistory(t, home(client));
    }
  }

  lemma SpendBuiltOk(t: ConfigHistory.Table, home: int -> int, client: int, ext: string, amount: Amount,
                     requested: Points, balance: int, sold: set<Sale>)
    requires ConfigHistory.TableOk(t) && home(client) in t.live && ValidRules(t.live[home(client)].rules)
    requires BuildRedemption(home(client), client, ext, amount, requested, t.live[home(client)], balance).Some?
    ensures var req := BuildRedemption(home(client), client, ext, amount, requested, t.live[home(client)], balance);
            BuiltOk(t, home, req.value, sold)
  {
    LiveIsInHistory(t, home(client));
  }

  lemma BuildKeeps(w: World, home: int -> int, action: Action, policy: Policy, sold: set<Sale>)
    requires WorldOk(w, home, policy, sold) && (action.BuildSale? || action.BuildSpend?)
    requires action.BuildSale? ==> (action.client, action.ext, action.amount) in sold
    ensures WorldOk(Next(w, home, action, policy), home, policy, sold)
  {
    var t := w.rules.table;
    match action
    case BuildSale(id, client, ext, amount, invite) =>
      var live := LiveRules(w, home(client));
      if live.Some? {
        LiveIsInHistory(t, home(client));
      }
      SaleBuiltOk(t, home, client, ext, amount, live, invite, sold);
    case BuildSpend(id, client, ext, amount, requested, balance) =>
      if home(client) in t.live {
        LiveIsInHistory(t, home(client));
        if BuildRedemption(home(client), client, ext, amount, requested, t.live[home(client)], balance).Some? {
          SpendBuiltOk(t, home, client, ext, amount, requested, balance, sold);
        }
      }
    case _ =>
  }

  lemma OldRowFollows(t: ConfigHistory.Table, home: int -> int, rows: seq<Row>, req: Request, i: nat, sold: set<Sale>)
    requires Refers(rows, req) && i < |rows| && Follows(t, home, rows[i], sold)
    ensures Follows(t, home, Touched(rows, req)[i], sold)
  {
    var a: Amount :| FollowsAs(t, home, rows[i], a, sold);
    assert FollowsAs(t, home, Touched(rows, req)[i], a, sold);
  }

  lemma NewRowFollows(t: ConfigHistory.Table, home: int -> int, rows: seq<Row>, req: Request, now: int, balance: int,
                      sold: set<Sale>)
    requires Refers(rows, req)
    requires if req.RefundReq? then OriginalCheck(rows, req) == None && Follows(t, home, rows[req.id], sold)
             else BuiltOk(t, home, req, sold)
    ensures Follows(t, home, NewRow(rows, req, now, balance), sold)
  {
    if req.RefundReq? {
      var a: Amount :| FollowsAs(t, home, rows[req.id], a, sold);
      assert FollowsAs(t, home, NewRow(rows, req, now, balance), a, sold);
    } else {
      assert FollowsAs(t, home, NewRow(rows, req, now, balance), req.amount, sold);
    }
  }

  /** A post keeps what old rows follow and adds a row that follows the rules its request was built from. */
  lemma PostKeeps(w: World, home: int -> int, req: Request, now: int, policy: Policy, sold: set<Sale>)
    requires WorldOk(w, home, policy, sold) && (BuiltOk(w.rules.table, home, req, sold) || req.RefundReq?)
    ensures WorldOk(w.(db := After(w.db, req, now, policy)), home, policy, sold)
  {
    if LedgerSafety.Admitted(w.db, req, now, policy) {
      LedgerSafety.InvKept(w.db, req, now, policy);
      var t, before, balance := w.rules.table, w.db.rows, NewBalance(w.db, req);
      assert req.RefundReq? ==> Follows(t, home, before[req.id], sold);
      NewRowFollows(t, home, before, req, now, balance, sold);
      forall i | 0 <= i < |before|
        ensures Follows(t, home, Touched(before, req)[i], sold)
      {
        assert Follows(t, home, before[i], sold);
        OldRowFollows(t, home, before, req, i, sold);
      }
    }
  }

  lemma NextKeeps(w: World, home: int -> int, action: Action, policy: Policy, sold: set<Sale>)
    requires WorldOk(w, home, policy, sold)
    requires action.BuildSale? ==> (action.client, action.ext, action.amount) in sold
    ensures WorldOk(Next(w, home, action, policy), home, policy, sold)
  {
    match action
    case Rule(a) => RuleKeeps(w, home, a, policy, sold);
    case PostBuilt(id, now) =>
      if id in w.built {
        PostKeeps(w, home, w.built[id], now, policy, sold);
      }
    case PostRefund(store, ext, amount, fingerprint, original, now) =>
      PostKeeps(w, home, RefundReq(store, ext, amount, fingerprint, original), now, policy, sold);
    case _ => BuildKeeps(w, home, action, policy, sold);
  }

  lemma MoreSold(w: World, home: int -> int, policy: Policy, sold: set<Sale>, more: set<Sale>)
    requires WorldOk(w, home, policy, sold) && sold <= more
    ensures WorldOk(w, home, policy, more)
  {
    forall i | 0 <= i < |w.db.rows|
      ensures Follows(w.rules.table, home, w.db.rows[i], more)
    {
      assert Follows(w.rules.table, home, w.db.rows[i], sold);
      var a: Amount :| FollowsAs(w.rules.table, home, w.db.rows[i], a, sold);
      assert FollowsAs(w.rules.table, home, w.db.rows[i], a, more);
    }
    assert forall id | id in w.built :: BuiltOk(w.rules.table, home, w.built[id], sold);
  }

  lemma {:induction false} ExecOk(home: int -> int, actions: seq<Action>, policy: Policy)
    ensures WorldOk(Exec(home, actions, policy), home, policy, Sales(actions))
  {
    if actions == [] {
      LedgerSafety.InvEmpty(policy);
    } else {
      var before := actions[..|actions| - 1];
      ExecOk(home, before, policy);
      MoreSold(Exec(home, before, policy), home, policy, Sales(before), Sales(actions));
      NextKeeps(Exec(home, before, policy), home, actions[|actions| - 1], policy, Sales(actions));
    }
  }

  lemma {:induction false} SaleWasSent(actions: seq<Action>, sale: Sale) returns (n: nat)
    requires sale in Sales(actions)
    ensures n < |actions| && actions[n].BuildSale? && (actions[n].client, actions[n].ext, actions[n].amount) == sale
  {
    var last := |actions| - 1;
    if sale in Sales(actions[..last]) {
      n := SaleWasSent(actions[..last], sale);
    } else {
      n := last;
    }
  }

  /** Row r came from the n-th action, and the row alone tells what it earned exactly when EarnsAsStored says so. */
  ghost predicate EarnedBySale(actions: seq<Action>, n: int, r: Row, rules: Rules)
    requires ValidRules(rules)
  {
    && 0 <= n < |actions| && actions[n].BuildSale? && actions[n].client == r.client && actions[n].ext == r.ext
    && Stored(actions[n].amount) == r.amount && r.delta == AccrualPoints(rules, actions[n].amount)
    && (r.delta == StoredPoints(rules, r.amount) <==> EarnsAsStored(rules, actions[n].amount))
  }

  /**
   Every past accrual is what the history entry its row names gives for the amount its sale was sent with, whatever
   was written since, and for the row's own amount exactly when EarnsAsStored says so; in whole kopecks it always does.
   */
  lemma AccrualReconstructible(home: int -> int, actions: seq<Action>, policy: Policy, i: nat)
    requires i < |Exec(home, actions, policy).db.rows| && Exec(home, actions, policy).db.rows[i].kind == Accrual
    ensures var w := Exec(home, actions, policy);
            var r := w.db.rows[i];
            if r.rule.None? then r.delta == 0
            else
              && (r.store, r.rule.value) in w.rules.table.history
              && var rules := w.rules.table.history[(r.store, r.rule.value)];
                 && ValidRules(rules)
                 && exists n :: EarnedBySale(actions, n, r, rules)
                      && (Whole(actions[n].amount) ==> r.delta == StoredPoints(rules, r.amount))
  {
    ExecOk(home, actions, policy);
    var w := Exec(home, actions, policy);
    var r := w.db.rows[i];
    assert Follows(w.rules.table, home, r, Sales(actions));
    if r.rule.Some? {
      var a: Amount :| FollowsAs(w.rules.table, home, r, a, Sales(actions));
      var n := SaleWasSent(actions, (r.client, r.ext, a));
      var rules := w.rules.table.history[(r.store, r.rule.value)];
      EarnsAsStoredExactly(rules, a);
      if Whole(a) {
        WholeAccrual(rules, a);
      }
      assert EarnedBySale(actions, n, r, rules);
    }
  }

  // ---- A sale whose row does not tell ----

  const ONE_PERCENT: Rules := Rules(MECHANIC, 100, 0, 0, 0, 1)

  lemma OnePercentOf(a: Amount, quotient: nat, remainder: nat)
    requires 1_000_000 * a.per > remainder && a.units * 100 == quotient * (1_000_000 * a.per) + remainder
    requires 1_000_000 * a.per < 2 * PLACES
    ensures AccrualPoints(ONE_PERCENT, a) == quotient
  {
    AccrualPointsExact(ONE_PERCENT, a);
    DivModUnique(a.units * 100, 1_000_000 * a.per, quotient, remainder);
  }

  lemma ExecSnoc(home: int -> int, actions: seq<Action>, action: Action, policy: Policy)
    ensures Exec(home, actions + [action], policy) == Next(Exec(home, actions, policy), home, action, policy)
  {
    assert (actions + [action])[..|actions|] == actions;
  }

  /** Store 1 has these rules as version 1, and nothing else has happened. */
  predicate OnlyRules(w: World, rules: Rules) {
    && w.rules.table.live == map[1 := Live(rules, 1)] && w.rules.table.history == map[(1, 1) := rules]
    && w.db == EMPTY && w.built == map[]
  }

  function SaveRules(rules: Rules): seq<Action> {
    [] + [Rule(ConfigHistory.OpenPut(1, 1, rules, None))] + [Rule(ConfigHistory.ReadVersion(1))]
    + [Rule(ConfigHistory.Write(1))]
  }

  /** Nothing has happened but that these rules are about to be written, after a read of this version. */
  predicate OnlyWriter(w: World, rules: Rules, read: Option<int>) {
    && w.rules == ConfigHistory.Sys(ConfigHistory.Table(map[], map[]),
                                    map[1 := ConfigHistory.Writer(1, rules, None, None, read)])
    && w.db == EMPTY && w.built == map[]
  }

  lemma Reads(home: int -> int, w: World, rules: Rules, policy: Policy)
    requires ValidRules(rules) && OnlyWriter(w, rules, None)
    ensures OnlyWriter(Next(w, home, Rule(ConfigHistory.ReadVersion(1)), policy), rules, Some(0))
  {
  }

  lemma Writes(home: int -> int, w: World, rules: Rules, policy: Policy)
    requires ValidRules(rules) && OnlyWriter(w, rules, Some(0))
    ensures OnlyRules(Next(w, home, Rule(ConfigHistory.Write(1)), policy), rules)
  {
  }

  lemma RulesSaved(home: int -> int, rules: Rules, policy: Policy)
    requires ValidRules(rules)
    ensures OnlyRules(Exec(home, SaveRules(rules), policy), rules)
  {
    var open, read := Rule(ConfigHistory.OpenPut(1, 1, rules, None)), Rule(ConfigHistory.ReadVersion(1));
    ExecSnoc(home, [], open, policy);
    ExecSnoc(home, [] + [open], read, policy);
    ExecSnoc(home, [] + [open] + [read], Rule(ConfigHistory.Write(1)), policy);
    Reads(home, Exec(home, [] + [open], policy), rules, policy);
    Writes(home, Exec(home, [] + [open] + [read], policy), rules, policy);
  }

  lemma SalePosted(home: int -> int, w: World, rules: Rules, sale: Action, policy: Policy)
    requires OnlyRules(w, rules) && ValidRules(rules) && sale.BuildSale? && home(sale.client) == 1
    ensures var end := Next(Next(w, home, sale, policy), home, PostBuilt(sale.id, 0), policy);
            && |end.db.rows| == 1 && end.db.rows[0].kind == Accrual && end.db.rows[0].rule == Some(1)
            && end.db.rows[0].amount == Stored(sale.amount) && end.db.rows[0].delta == AccrualPoints(rules, sale.amount)
            && end.rules == w.rules
  {
    AccrualPointsExact(rules, sale.amount);
    var built := Next(w, home, sale, policy);
    var req := BuildAccrual(1, sale.client, sale.ext, sale.amount, Some(Live(rules, 1)), sale.invite);
    assert built.built == map[sale.id := req];
    assert After(EMPTY, req, 0, policy) == Commit(EMPTY, req, 0);
  }

  /** A run: 99.999 at 1% becomes a row of 100.00 worth nothing, while its version gives 100.00 a point. */
  lemma SubKopeckSale(home: int -> int, policy: Policy, sale: Action)
    requires sale.BuildSale? && home(sale.client) == 1 && sale.amount == Raw(99_999, 10)
    ensures var w := Exec(home, SaveRules(ONE_PERCENT) + [sale] + [PostBuilt(sale.id, 0)], policy);
            && |w.db.rows| == 1 && w.db.rows[0].kind == Accrual && w.db.rows[0].rule == Some(1)
            && w.rules.table.history == map[(1, 1) := ONE_PERCENT]
            && w.db.rows[0].amount == 10_000 && w.db.rows[0].delta == 0 && StoredPoints(ONE_PERCENT, 10_000) == 1
            && !EarnsAsStored(ONE_PERCENT, sale.amount)
  {
    RoundedExactly(99_999, 10, 10_000);
    OnePercentOf(Raw(99_999, 10), 0, 9_999_900);
    EarnsAsStoredExactly(ONE_PERCENT, sale.amount);
    var saved := SaveRules(ONE_PERCENT);
    RulesSaved(home, ONE_PERCENT, policy);
    ExecSnoc(home, saved, sale, policy);
    ExecSnoc(home, saved + [sale], PostBuilt(sale.id, 0), policy);
    SalePosted(home, Exec(home, saved, policy), ONE_PERCENT, sale, policy);
  }

  lemma NoEntries(t: ConfigHistory.Table, store: int, v: int)
    requires ConfigHistory.TableOk(t) && store !in t.live
    ensures (store, v) !in t.history
  {
    assert ConfigHistory.StoreOk(t, store);
  }

  lemma OriginalWorthNothing(t: ConfigHistory.Table, home: int -> int, r: Row, sold: set<Sale>)
    requires ConfigHistory.TableOk(t) && Follows(t, home, r, sold) && r.kind != Refund && r.store !in t.live
    ensures r.delta == 0
  {
    if r.rule.Some? {
      NoEntries(t, r.store, r.rule.value);
    }
  }

  lemma RowWorthNothing(w: World, home: int -> int, policy: Policy, i: nat, sold: set<Sale>)
    requires WorldOk(w, home, policy, sold) && i < |w.db.rows|
    requires w.db.rows[i].store !in w.rules.table.live
    ensures w.db.rows[i].delta == 0
  {
    var rows := w.db.rows;
    assert Follows(w.rules.table, home, rows[i], sold) && LedgerSafety.RowOk(rows, i);
    var o := if rows[i].kind == Refund then rows[i].original.value else i;
    assert Follows(w.rules.table, home, rows[o], sold) && LedgerSafety.RowOk(rows, o);
    OriginalWorthNothing(w.rules.table, home, rows[o], sold);
  }

  /** No rules ever saved, nothing to redeem: all rows of the store and all its clients' balances are zero. */
  lemma NoRulesNoPoints(home: int -> int, actions: seq<Action>, policy: Policy, client: int)
    requires home(client) !in Exec(home, actions, policy).rules.table.live
    ensures BalanceOf(Exec(home, actions, policy).db, client) == 0
    ensures forall r | r in Exec(home, actions, policy).db.rows && r.store == home(client) :: r.delta == 0
  {
    ExecOk(home, actions, policy);
    var w := Exec(home, actions, policy);
    forall i | 0 <= i < |w.db.rows|
      ensures DeltaOf(client)(w.db.rows[i]) == 0 && (w.db.rows[i].store == home(client) ==> w.db.rows[i].delta == 0)
    {
      assert Follows(w.rules.table, home, w.db.rows[i], Sales(actions));
      if w.db.rows[i].store == home(client) {
        RowWorthNothing(w, home, policy, i, Sales(actions));
      }
    }
    SumTail(w.db.rows, 0, DeltaOf(client));
    assert BalanceOf(w.db, client) == Sum(w.db.rows, DeltaOf(client));
  }
}
