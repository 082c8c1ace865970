/**
 Accrue and Refund as the server a register sends its queue to: which answers the register gets from the ledger of one
 store, and that they are those of an idempotent server whose first verdict is its last, but for three exceptions.
 */
module RegisterServer {
  import opened Rows
  import opened Amounts
  import opened Ledger
  import opened LedgerSafety
  import opened LoyaltyRules
  import opened Replay
  import opened Loyalty
  import opened LedgerDebt
  import OfflineQueue

  type Op = OfflineQueue.Op
  type Server = OfflineQueue.Server

  /** One store's ledger, clients and live rules. */
  datatype Shop = Shop(store: int, policy: Policy, db: Db, clients: Clients, live: Option<Live>)

  ghost predicate ShopOk(shop: Shop) {
    Inv(shop.db, shop.policy) && (shop.live.Some? ==> ValidRules(shop.live.value.rules))
  }

  /** What the register lets through: a positive amount of whole kopecks, and no refund of a refund. */
  predicate Sendable(op: Op) {
    0 < op.amount < 100_000_000_000_000_000_000 && (op.RefundOp? ==> op.kind != Some(Refund))
  }

  function AmountOf(op: Op): Amount
    requires Sendable(op)
  {
    Raw(op.amount, 1)
  }

  function RowKind(op: Op): Kind {
    if op.SaleOp? then Accrual else Refund
  }

  // ---- Serving an operation, without interference ----

  datatype Served = Served(shop: Shop, status: int)

  function Client(shop: Shop, op: Op, newId: int): int
    requires op.SaleOp?
  {
    if (shop.store, op.phone) in shop.clients then shop.clients[(shop.store, op.phone)] else newId
  }

  function SaleRequest(shop: Shop, op: Op, newId: int): Request
    requires op.SaleOp? && Sendable(op) && (shop.live.Some? ==> ValidRules(shop.live.value.rules))
  {
    BuildAccrual(shop.store, Client(shop, op, newId), op.id, AmountOf(op), shop.live, None)
  }

  function Registered(shop: Shop, op: Op, newId: int): Shop
    requires op.SaleOp?
  {
    shop.(clients := shop.clients[(shop.store, op.phone) := Client(shop, op, newId)])
  }

  /** handleAccrueTransaction over Accrue; newId is the id a client not yet registered gets. */
  function ServeSale(shop: Shop, op: Op, newId: int, now: int): Served
    requires op.SaleOp? && Sendable(op) && (shop.live.Some? ==> ValidRules(shop.live.value.rules))
  {
    var replay := ReplayedAccrue(shop.db.rows, shop.clients, shop.store, op.id, op.phone, AmountOf(op));
    if replay != Nothing then Served(shop, SaleStatus(replay))
    else
      var req, next := SaleRequest(shop, op, newId), Registered(shop, op, newId);
      match Checks(shop.db, req, now, shop.policy)
      case Some(error) => Served(next, SaleStatus(Err(Rejected(error))))
      case None =>
        var balance := NewBalance(shop.db, req);
        Served(next.(db := Commit(shop.db, req, now)), SaleStatus(Ok(Accrued(req.client, req.points, balance, false))))
  }

  function RefundRequest(shop: Shop, op: Op, id: nat): Request
    requires op.RefundOp? && Sendable(op)
  {
    RefundReq(shop.store, op.id, AmountOf(op), RefundFingerprint(id, AmountOf(op)), id)
  }

  function Resolved(shop: Shop, op: Op): Resolution
    requires op.RefundOp?
  {
    ResolveOriginal(shop.db.rows, shop.store, op.original, op.kind)
  }

  function RefundReply(shop: Shop, op: Op, now: int): Reply<Reversed>
    requires op.RefundOp? && Sendable(op)
  {
    match Resolved(shop, op)
    case Missing => Err(Rejected(NotFound))
    case Ambiguous => Err(AmbiguousOriginal)
    case Original(id) =>
      var replay := ReplayedRefund(shop.db.rows, shop.store, op.id, id, AmountOf(op));
      if replay != Nothing then replay
      else
        var req := RefundRequest(shop, op, id);
        match Checks(shop.db, req, now, shop.policy)
        case Some(error) => Err(Rejected(error))
        case None =>
          Ok(Reversed(ClientOf(shop.db.rows, req), Delta(shop.db.rows, req), NewBalance(shop.db, req), false))
  }

  /** handleRefundTransaction over Refund. */
  function ServeRefund(shop: Shop, op: Op, now: int): Served
    requires op.RefundOp? && Sendable(op)
  {
    var reply := RefundReply(shop, op, now);
    var next :=
      if reply.Ok? && !reply.result.replayed && Resolved(shop, op).Original?
      then shop.(db := After(shop.db, RefundRequest(shop, op, Resolved(shop, op).id), now, shop.policy))
      else shop;
    Served(next, RefundStatus(reply))
  }

  function Serve(shop: Shop, op: Op, newId: int, now: int): Served
    requires Sendable(op) && (shop.live.Some? ==> ValidRules(shop.live.value.rules))
  {
    if op.SaleOp? then ServeSale(shop, op, newId, now) else ServeRefund(shop, op, now)
  }

  // ---- What stands behind the register's picture of its server ----

  /** The register's operations: each can be sent, and an id names one operation. */
  ghost predicate Distinct(ours: set<Op>) {
    && (forall op | op in ours :: Sendable(op))
    && (forall o, p | o in ours && p in ours && OfflineQueue.KeyOf(o) == OfflineQueue.KeyOf(p) :: o == p)
  }

  predicate HasRow(shop: Shop, op: Op) {
    Taken(shop.db.rows, shop.store, RowKind(op), op.id)
  }

  function RowOf(shop: Shop, op: Op): (i: nat)
    requires HasRow(shop, op)
    ensures i < |shop.db.rows| && HasKey(shop.db.rows[i], shop.store, RowKind(op), op.id)
  {
    Lookup(shop.db.rows, shop.store, RowKind(op), op.id).value
  }

  ghost predicate RefundsNamed(shop: Shop, op: Op, id: nat)
    requires op.RefundOp? && Sendable(op) && HasRow(shop, op)
  {
    && Named(shop.db.rows, id, shop.store, op.original, op.kind)
    && shop.db.rows[RowOf(shop, op)].fingerprint == RefundFingerprint(id, AmountOf(op))
  }

  /** An accepted operation has its row, with the fingerprint the operation will be compared with. */
  ghost predicate Backed(shop: Shop, op: Op) {
    Sendable(op) && HasRow(shop, op) &&
    if op.SaleOp? then
      && (shop.store, op.phone) in shop.clients
      && shop.db.rows[RowOf(shop, op)].fingerprint ==
         AccrualFingerprint(shop.clients[(shop.store, op.phone)], AmountOf(op))
    else exists id: nat :: RefundsNamed(shop, op, id)
  }

  /** A refund that stays refused: its reference is ambiguous, or too much of its original is refunded already. */
  ghost predicate Barred(shop: Shop, op: Op) {
    op.RefundOp? && Sendable(op) && !HasRow(shop, op) &&
    match Resolved(shop, op)
    case Ambiguous => true
    case Missing => false
    case Original(id) =>
      Total(shop.db.rows[id].refundedAmount, AmountOf(op)) > shop.db.rows[id].amount * AmountOf(op).per
  }

  /** Accepted means posted, in that order; refused means barred; nothing of ours is posted otherwise. */
  ghost predicate Stands(shop: Shop, server: Server, ours: set<Op>) {
    && ShopOk(shop) && Distinct(ours)
    && (forall op | op in server.accepted :: op in ours && Backed(shop, op))
    && (forall op | op in server.refused :: op in ours && Barred(shop, op))
    && (forall op | op in ours && HasRow(shop, op) :: op in server.accepted)
    && InRowOrder(shop, server.accepted)
  }

  ghost predicate InRowOrder(shop: Shop, ops: seq<Op>) {
    forall i, j | 0 <= i < j < |ops| && HasRow(shop, ops[i]) && HasRow(shop, ops[j]) ::
      RowOf(shop, ops[i]) < RowOf(shop, ops[j])
  }

  // ---- Other requests in between ----

  /** One request at the ledger, anybody's. */
  function Taking(shop: Shop, req: Request, now: int): Shop {
    shop.(db := After(shop.db, req, now, shop.policy))
  }

  predicate RequestOf(shop: Shop, req: Request, op: Op) {
    req.store == shop.store && KindOf(req) == RowKind(op) && req.ext == op.id
  }

  /** Rows are only added, by this request, and refunded totals only grow. */
  ghost predicate Grew(before: Shop, after: Shop, req: Request) {
    && after == before.(db := after.db) && ShopOk(before) && ShopOk(after) && Extends(before.db.rows, after.db.rows)
    && (forall i | |before.db.rows| <= i < |after.db.rows| ::
          HasKey(after.db.rows[i], req.store, KindOf(req), req.ext))
    && (forall i | 0 <= i < |before.db.rows| ::
          after.db.rows[i].refundedAmount >= before.db.rows[i].refundedAmount)
  }

  lemma TakingGrows(shop: Shop, req: Request, now: int)
    requires ShopOk(shop)
    ensures Grew(shop, Taking(shop, req, now), req)
  {
    AfterExtends(shop.db, req, now, shop.policy);
    if Admitted(shop.db, req, now, shop.policy) {
      InvKept(shop.db, req, now, shop.policy);
      if req.RefundReq? {
        assert RowOk(shop.db.rows, req.id);
        TotalsGrow(shop.db.rows[req.id], req.amount);
      }
    }
  }

  /** Only a request of its own key gives an operation a row, and none takes or moves one. */
  lemma RowsAfter(before: Shop, after: Shop, req: Request, op: Op)
    requires Grew(before, after, req)
    ensures HasRow(before, op) ==> HasRow(after, op) && RowOf(after, op) == RowOf(before, op)
    ensures HasRow(after, op) && !HasRow(before, op) ==> RequestOf(before, req, op)
  {
    if HasRow(before, op) {
      TakenStays(before.db.rows, after.db.rows, before.store, RowKind(op), op.id);
      LookupStable(before.db.rows, after.db.rows, before.store, RowKind(op), op.id);
    } else {
      SameKeys(before.db.rows, after.db.rows, before.store, RowKind(op), op.id);
    }
  }

  lemma SameKeys(before: seq<Row>, after: seq<Row>, store: int, kind: Kind, ext: string)
    requires Extends(before, after)
    ensures forall i | 0 <= i < |before| :: HasKey(after[i], store, kind, ext) == HasKey(before[i], store, kind, ext)
  {
    forall i | 0 <= i < |before|
      ensures HasKey(after[i], store, kind, ext) == HasKey(before[i], store, kind, ext)
    {
      assert SameFacts(before[i], after[i]);
    }
  }

  lemma BackedAfter(before: Shop, after: Shop, req: Request, op: Op)
    requires Grew(before, after, req) && Backed(before, op)
    ensures Backed(after, op)
  {
    RowsAfter(before, after, req, op);
    assert SameFacts(before.db.rows[RowOf(before, op)], after.db.rows[RowOf(before, op)]);
    if op.RefundOp? {
      var id: nat :| RefundsNamed(before, op, id);
      NamedStays(before.db.rows, after.db.rows, id, before.store, op.original, op.kind);
      assert RefundsNamed(after, op, id);
    }
  }

  /** A resolved reference stays or turns ambiguous, an ambiguous one stays ambiguous. */
  lemma ResolvedAfter(before: seq<Row>, after: seq<Row>, store: int, ext: string, kind: Option<Kind>)
    requires Extends(before, after)
    ensures var was, now := ResolveOriginal(before, store, ext, kind), ResolveOriginal(after, store, ext, kind);
            && (was == Ambiguous ==> now == Ambiguous)
            && (was.Original? ==> now == was || now == Ambiguous)
  {
    var first := if kind.Some? then kind.value else Accrual;
    if Taken(before, store, first, ext) {
      TakenStays(before, after, store, first, ext);
      LookupStable(before, after, store, first, ext);
    }
    if Taken(before, store, Redeem, ext) {
      TakenStays(before, after, store, Redeem, ext);
      LookupStable(before, after, store, Redeem, ext);
    }
  }

  lemma BarredAfter(before: Shop, after: Shop, req: Request, op: Op)
    requires Grew(before, after, req) && Barred(before, op) && !RequestOf(before, req, op)
    ensures Barred(after, op)
  {
    RowsAfter(before, after, req, op);
    ResolvedAfter(before.db.rows, after.db.rows, before.store, op.original, op.kind);
    if Resolved(before, op).Original? {
      assert SameFacts(before.db.rows[Resolved(before, op).id], after.db.rows[Resolved(before, op).id]);
    }
  }

  /** What any request leaves standing that is no refused operation's. */
  lemma StandingAfter(before: Shop, after: Shop, server: Server, ours: set<Op>, req: Request)
    requires Stands(before, server, ours) && Grew(before, after, req)
    requires forall op | op in server.refused :: !RequestOf(before, req, op)
    ensures forall op | op in server.accepted :: Backed(after, op) && RowOf(after, op) == RowOf(before, op)
    ensures forall op | op in server.refused :: Barred(after, op)
    ensures forall op | op in ours && HasRow(after, op) :: op in server.accepted || RequestOf(before, req, op)
  {
    forall op | op in server.accepted
      ensures Backed(after, op) && RowOf(after, op) == RowOf(before, op)
    {
      BackedAfter(before, after, req, op);
      RowsAfter(before, after, req, op);
    }
    forall op | op in server.refused
      ensures Barred(after, op)
    {
      BarredAfter(before, after, req, op);
    }
    forall op | op in ours && HasRow(after, op)
      ensures op in server.accepted || RequestOf(before, req, op)
    {
      RowsAfter(before, after, req, op);
    }
  }

  /** Rows that do not move stay in order. */
  lemma OrderKept(before: Shop, after: Shop, ops: seq<Op>)
    requires InRowOrder(before, ops)
    requires forall o | o in ops :: HasRow(before, o) && HasRow(after, o) && RowOf(after, o) == RowOf(before, o)
    ensures InRowOrder(after, ops)
  {
    forall i, j | 0 <= i < j < |ops| && HasRow(after, ops[i]) && HasRow(after, ops[j])
      ensures RowOf(after, ops[i]) < RowOf(after, ops[j])
    {
      assert ops[i] in ops && ops[j] in ops;
    }
  }

  /** A request that is none of the register's leaves its picture of the server true. */
  lemma OthersKeepStanding(shop: Shop, server: Server, ours: set<Op>, req: Request, now: int)
    requires Stands(shop, server, ours) && forall op | op in ours :: !RequestOf(shop, req, op)
    ensures Stands(Taking(shop, req, now), server, ours)
  {
    TakingGrows(shop, req, now);
    StandingAfter(shop, Taking(shop, req, now), server, ours, req);
    OrderKept(shop, Taking(shop, req, now), server.accepted);
  }

  // ---- One of the register's operations arrives ----

  /** The answer LinkOf makes of the status, and what the register's picture of the server becomes. */
  function Heard(server: Server, op: Op, status: int): OfflineQueue.Sent {
    OfflineQueue.Try(server, op, LinkOf(status))
  }

  lemma HeardMeans(server: Server, op: Op, status: int)
    requires 200 <= status < 300 || 400 <= status
    ensures status >= 500 ==> Heard(server, op, status) == OfflineQueue.Sent(server, OfflineQueue.Transient)
    ensures status == 200 && op in server.accepted ==>
              Heard(server, op, status) == OfflineQueue.Sent(server, OfflineQueue.Done(true))
    ensures status == 200 && op !in server.accepted && op !in server.refused
            && !OfflineQueue.KeyTaken(server.accepted, OfflineQueue.KeyOf(op)) ==>
              Heard(server, op, status) ==
              OfflineQueue.Sent(server.(accepted := server.accepted + [op]), OfflineQueue.Done(false))
    ensures 400 <= status < 429 && op !in server.accepted ==>
              Heard(server, op, status) ==
              OfflineQueue.Sent(server.(refused := server.refused + {op}), OfflineQueue.Rejected)
  {
  }

  lemma NoKeyTaken(shop: Shop, server: Server, ours: set<Op>, op: Op)
    requires Stands(shop, server, ours) && op in ours && op !in server.accepted
    ensures !OfflineQueue.KeyTaken(server.accepted, OfflineQueue.KeyOf(op)) && !HasRow(shop, op)
  {
    forall i | 0 <= i < |server.accepted|
      ensures OfflineQueue.KeyOf(server.accepted[i]) != OfflineQueue.KeyOf(op)
    {
      assert server.accepted[i] in server.accepted;
    }
  }

  /** Behind all accepted operations, one whose row is new. */
  lemma OrderExtends(before: Shop, after: Shop, ops: seq<Op>, op: Op)
    requires InRowOrder(after, ops) && HasRow(after, op) && RowOf(after, op) >= |before.db.rows|
    requires forall o | o in ops :: HasRow(before, o) && HasRow(after, o) && RowOf(after, o) == RowOf(before, o)
    ensures InRowOrder(after, ops + [op])
  {
    var all := ops + [op];
    forall i, j | 0 <= i < j < |all| && HasRow(after, all[i]) && HasRow(after, all[j])
      ensures RowOf(after, all[i]) < RowOf(after, all[j])
    {
      assert all[i] == ops[i] && all[i] in ops;
      assert RowOf(before, all[i]) < |before.db.rows|;
    }
  }

  /** An own request that gave its operation a row puts it behind all accepted ones. */
  lemma GrownAccepts(before: Shop, after: Shop, server: Server, ours: set<Op>, op: Op, req: Request)
    requires Stands(before, server, ours) && Grew(before, after, req) && RequestOf(before, req, op)
    requires op in ours && op !in server.accepted && op !in server.refused && Backed(after, op)
    ensures Stands(after, server.(accepted := server.accepted + [op]), ours)
  {
    OwnRequest(before, server, ours, op, req);
    StandingAfter(before, after, server, ours, req);
    OrderKept(before, after, server.accepted);
    NoKeyTaken(before, server, ours, op);
    RowIsLater(before, after, op);
    OrderExtends(before, after, server.accepted, op);
    assert forall o | o in server.accepted + [op] :: o in server.accepted || o == op;
  }

  lemma RowIsLater(before: Shop, after: Shop, op: Op)
    requires Extends(before.db.rows, after.db.rows) && before.store == after.store
    requires !HasRow(before, op) && HasRow(after, op)
    ensures RowOf(after, op) >= |before.db.rows|
  {
    SameKeys(before.db.rows, after.db.rows, before.store, RowKind(op), op.id);
  }

  lemma CommitAccepts(shop: Shop, server: Server, ours: set<Op>, op: Op, req: Request, now: int)
    requires Stands(shop, server, ours) && op in ours && op !in server.accepted && op !in server.refused
    requires RequestOf(shop, req, op) && Backed(Taking(shop, req, now), op)
    ensures Stands(Taking(shop, req, now), server.(accepted := server.accepted + [op]), ours)
  {
    TakingGrows(shop, req, now);
    GrownAccepts(shop, Taking(shop, req, now), server, ours, op, req);
  }

  lemma OwnRequest(shop: Shop, server: Server, ours: set<Op>, op: Op, req: Request)
    requires Stands(shop, server, ours) && op in ours && RequestOf(shop, req, op)
    ensures forall o | o in ours && RequestOf(shop, req, o) :: o == op
  {
    forall o | o in ours && RequestOf(shop, req, o)
      ensures o == op
    {
      assert OfflineQueue.KeyOf(o) == OfflineQueue.KeyOf(op);
    }
  }

  lemma Commits(shop: Shop, req: Request, now: int)
    requires Checks(shop.db, req, now, shop.policy) == None
    ensures var after := Taking(shop, req, now);
            && |after.db.rows| == |shop.db.rows| + 1
            && after.db.rows[|shop.db.rows|] == NewRow(shop.db.rows, req, now, NewBalance(shop.db, req))
  {
  }

  lemma RowIsNew(shop: Shop, req: Request, now: int, op: Op)
    requires ShopOk(shop) && RequestOf(shop, req, op) && Checks(shop.db, req, now, shop.policy) == None
    ensures var after := Taking(shop, req, now);
            && |after.db.rows| == |shop.db.rows| + 1
            && after.db.rows[|shop.db.rows|] == NewRow(shop.db.rows, req, now, NewBalance(shop.db, req))
            && HasRow(after, op) && RowOf(after, op) == |shop.db.rows|
  {
    TakingGrows(shop, req, now);
    Commits(shop, req, now);
    LookupIs(Taking(shop, req, now).db.rows, |shop.db.rows|, shop.store, RowKind(op), op.id);
  }

  // ---- A sale ----

  lemma SaleAgain(shop: Shop, op: Op, newId: int, now: int)
    requires ShopOk(shop) && Backed(shop, op) && op.SaleOp?
    ensures Serve(shop, op, newId, now) == Served(shop, 200)
  {
  }

  /** Registering a phone disturbs nothing. */
  lemma RegisteringKeeps(shop: Shop, server: Server, ours: set<Op>, op: Op, newId: int)
    requires Stands(shop, server, ours) && op.SaleOp?
    ensures Stands(Registered(shop, op, newId), server, ours)
  {
    var next := Registered(shop, op, newId);
    forall o | o in server.accepted
      ensures Backed(next, o)
    {
      if o.RefundOp? {
        var id: nat :| RefundsNamed(shop, o, id);
        assert RefundsNamed(next, o, id);
      }
    }
    forall o | o in server.refused
      ensures Barred(next, o)
    {
      assert Barred(shop, o);
    }
  }

  /** What a new sale asks of the ledger, and that only a debt refuses it. */
  lemma NewSaleAsks(shop: Shop, server: Server, ours: set<Op>, op: Op, newId: int, now: int)
    requires Stands(shop, server, ours) && op in ours && op.SaleOp? && op !in server.accepted
    ensures op !in server.refused
    ensures ReplayedAccrue(shop.db.rows, shop.clients, shop.store, op.id, op.phone, AmountOf(op)) == Nothing
    ensures var req := SaleRequest(shop, op, newId);
            && RequestOf(shop, req, op) && req.AccrueReq? && req.client == Client(shop, op, newId)
            && req.fingerprint == AccrualFingerprint(req.client, AmountOf(op))
            && Checks(shop.db, req, now, shop.policy) ==
               (if BalanceOf(shop.db, req.client) + req.points < 0 then Some(InsufficientBalance) else None)
  {
    NoKeyTaken(shop, server, ours, op);
    assert op in server.refused ==> Barred(shop, op);
  }

  /** A new sale is answered 5xx and left alone while the client's debt lasts, and accepted otherwise. */
  lemma NewSale(shop: Shop, server: Server, ours: set<Op>, op: Op, newId: int, now: int)
    requires Stands(shop, server, ours) && op in ours && op.SaleOp? && op !in server.accepted
    ensures var served := Serve(shop, op, newId, now);
            && Stands(served.shop, Heard(server, op, served.status).server, ours)
            && var balance := BalanceOf(shop.db, Client(shop, op, newId));
               served.status == (if balance + SaleRequest(shop, op, newId).points < 0 then 500 else 200)
  {
    var next, req := Registered(shop, op, newId), SaleRequest(shop, op, newId);
    NewSaleAsks(shop, server, ours, op, newId, now);
    RegisteringKeeps(shop, server, ours, op, newId);
    if BalanceOf(shop.db, req.client) + req.points >= 0 {
      SaleAccepted(shop, server, ours, op, newId, now);
    } else {
      SaleInDebt(shop, op, newId, now);
      HeardMeans(server, op, 500);
    }
  }

  lemma SaleAccepted(shop: Shop, server: Server, ours: set<Op>, op: Op, newId: int, now: int)
    requires Stands(shop, server, ours) && op in ours && op.SaleOp? && op !in server.accepted && op !in server.refused
    requires Stands(Registered(shop, op, newId), server, ours)
    requires RequestOf(shop, SaleRequest(shop, op, newId), op)
    requires SaleRequest(shop, op, newId).fingerprint == AccrualFingerprint(Client(shop, op, newId), AmountOf(op))
    requires ReplayedAccrue(shop.db.rows, shop.clients, shop.store, op.id, op.phone, AmountOf(op)) == Nothing
    requires Checks(shop.db, SaleRequest(shop, op, newId), now, shop.policy) == None
    ensures var served := Serve(shop, op, newId, now);
            served.status == 200 && Stands(served.shop, Heard(server, op, 200).server, ours)
  {
    var next, req := Registered(shop, op, newId), SaleRequest(shop, op, newId);
    SaleBacked(next, op, req, now);
    CommitAccepts(next, server, ours, op, req, now);
    SaleCommitted(shop, op, newId, now);
    NoKeyTaken(shop, server, ours, op);
    HeardMeans(server, op, 200);
  }

  lemma SaleCommitted(shop: Shop, op: Op, newId: int, now: int)
    requires ShopOk(shop) && Sendable(op) && op.SaleOp?
    requires ReplayedAccrue(shop.db.rows, shop.clients, shop.store, op.id, op.phone, AmountOf(op)) == Nothing
    requires Checks(shop.db, SaleRequest(shop, op, newId), now, shop.policy) == None
    ensures Serve(shop, op, newId, now) ==
            Served(Taking(Registered(shop, op, newId), SaleRequest(shop, op, newId), now), 200)
  {
  }

  lemma SaleInDebt(shop: Shop, op: Op, newId: int, now: int)
    requires ShopOk(shop) && Sendable(op) && op.SaleOp?
    requires ReplayedAccrue(shop.db.rows, shop.clients, shop.store, op.id, op.phone, AmountOf(op)) == Nothing
    requires Checks(shop.db, SaleRequest(shop, op, newId), now, shop.policy) == Some(InsufficientBalance)
    ensures Serve(shop, op, newId, now) == Served(Registered(shop, op, newId), 500)
  {
  }

  lemma SaleBacked(shop: Shop, op: Op, req: Request, now: int)
    requires ShopOk(shop) && op.SaleOp? && Sendable(op) && RequestOf(shop, req, op)
    requires (shop.store, op.phone) in shop.clients && Checks(shop.db, req, now, shop.policy) == None
    requires req.fingerprint == AccrualFingerprint(shop.clients[(shop.store, op.phone)], AmountOf(op))
    ensures Backed(Taking(shop, req, now), op)
  {
    RowIsNew(shop, req, now, op);
  }

  // ---- A refund ----

  /** The reference of an accepted refund still names the same original, or is ambiguous by now. */
  lemma StillNamed(shop: Shop, op: Op, id: nat)
    requires ShopOk(shop) && op.RefundOp? && Sendable(op) && Named(shop.db.rows, id, shop.store, op.original, op.kind)
    ensures Resolved(shop, op) == Original(id) || Resolved(shop, op) == Ambiguous
  {
    var kind := shop.db.rows[id].kind;
    LookupIs(shop.db.rows, id, shop.store, kind, op.original);
  }

  lemma RefundAgain(shop: Shop, op: Op, newId: int, now: int)
    requires ShopOk(shop) && Backed(shop, op) && op.RefundOp?
    ensures Serve(shop, op, newId, now) == Served(shop, if Resolved(shop, op) == Ambiguous then 400 else 200)
  {
    var id: nat :| RefundsNamed(shop, op, id);
    StillNamed(shop, op, id);
  }

  lemma BarredAgain(shop: Shop, op: Op, newId: int, now: int)
    requires ShopOk(shop) && Barred(shop, op)
    ensures Serve(shop, op, newId, now).shop == shop && 400 <= Serve(shop, op, newId, now).status < 429
  {
    match Resolved(shop, op)
    case Ambiguous =>
    case Original(id) => NewRefundAsks(shop, op, id, now);
  }

  lemma OriginalFound(shop: Shop, op: Op, id: nat)
    requires op.RefundOp? && Sendable(op) && Resolved(shop, op) == Original(id)
    ensures id < |shop.db.rows| && shop.db.rows[id].store == shop.store && shop.db.rows[id].kind != Refund
    ensures Named(shop.db.rows, id, shop.store, op.original, op.kind)
  {
  }

  /** The refusals that need not be final. */
  predicate MayChange(reply: Reply<Reversed>) {
    reply == Err(Rejected(NotFound)) || reply == Err(Rejected(InsufficientBalance))
  }

  /** Which checks a new refund of an original it found can fail. */
  lemma NewRefundAsks(shop: Shop, op: Op, id: nat, now: int)
    requires ShopOk(shop) && op.RefundOp? && Sendable(op) && !HasRow(shop, op) && Resolved(shop, op) == Original(id)
    ensures var req, reply := RefundRequest(shop, op, id), RefundReply(shop, op, now);
            var error := Checks(shop.db, req, now, shop.policy);
            && RequestOf(shop, req, op)
            && (error == None || error == Some(OverRefund) || error == Some(InsufficientBalance))
            && (error == Some(OverRefund) <==> Barred(shop, op))
            && ServeRefund(shop, op, now) ==
               (if error == None then Served(Taking(shop, req, now), 200) else Served(shop, 422))
            && (reply == Err(Rejected(InsufficientBalance)) <==> error == Some(InsufficientBalance))
  {
    OriginalFound(shop, op, id);
  }

  /** A new refund is accepted or stays refused, unless it is refused for now. */
  lemma NewRefund(shop: Shop, server: Server, ours: set<Op>, op: Op, newId: int, now: int)
    requires Stands(shop, server, ours) && op in ours && op.RefundOp? && op !in server.accepted && op !in server.refused
    requires !MayChange(RefundReply(shop, op, now))
    ensures var served := Serve(shop, op, newId, now);
            && Stands(served.shop, Heard(server, op, served.status).server, ours)
            && (served.status == 200 || served.status == 400 || served.status == 422)
  {
    NoKeyTaken(shop, server, ours, op);
    match Resolved(shop, op)
    case Ambiguous => RefundBarred(shop, server, ours, op, 400);
    case Original(id) => RefundOfOriginal(shop, server, ours, op, id, now);
  }

  lemma RefundBarred(shop: Shop, server: Server, ours: set<Op>, op: Op, status: int)
    requires Stands(shop, server, ours) && op in ours && op !in server.accepted && Barred(shop, op)
    requires 400 <= status < 429
    ensures Stands(shop, Heard(server, op, status).server, ours)
  {
    RefusedStands(shop, server, ours, op);
    HeardMeans(server, op, status);
  }

  lemma RefundOfOriginal(shop: Shop, server: Server, ours: set<Op>, op: Op, id: nat, now: int)
    requires Stands(shop, server, ours) && op in ours && op.RefundOp? && op !in server.accepted && op !in server.refused
    requires Resolved(shop, op) == Original(id) && !MayChange(RefundReply(shop, op, now))
    ensures var served := ServeRefund(shop, op, now);
            && Stands(served.shop, Heard(server, op, served.status).server, ours)
            && (served.status == 200 || served.status == 422)
  {
    NoKeyTaken(shop, server, ours, op);
    NewRefundAsks(shop, op, id, now);
    if Checks(shop.db, RefundRequest(shop, op, id), now, shop.policy) == None {
      RefundAccepted(shop, server, ours, op, id, now);
    } else {
      RefundBarred(shop, server, ours, op, 422);
    }
  }

  lemma RefundAccepted(shop: Shop, server: Server, ours: set<Op>, op: Op, id: nat, now: int)
    requires Stands(shop, server, ours) && op in ours && op.RefundOp? && op !in server.accepted && op !in server.refused
    requires Resolved(shop, op) == Original(id) && RequestOf(shop, RefundRequest(shop, op, id), op)
    requires Checks(shop.db, RefundRequest(shop, op, id), now, shop.policy) == None
    ensures Stands(Taking(shop, RefundRequest(shop, op, id), now), Heard(server, op, 200).server, ours)
  {
    var req := RefundRequest(shop, op, id);
    RefundBackedNow(shop, op, id, req, now);
    CommitAccepts(shop, server, ours, op, req, now);
    NoKeyTaken(shop, server, ours, op);
    HeardMeans(server, op, 200);
  }

  lemma RefundBackedNow(shop: Shop, op: Op, id: nat, req: Request, now: int)
    requires ShopOk(shop) && op.RefundOp? && Sendable(op) && Resolved(shop, op) == Original(id)
    requires req == RefundRequest(shop, op, id) && Checks(shop.db, req, now, shop.policy) == None
    ensures Backed(Taking(shop, req, now), op)
  {
    var after := Taking(shop, req, now);
    RowIsNew(shop, req, now, op);
    OriginalFound(shop, op, id);
    TakingGrows(shop, req, now);
    NamedStays(shop.db.rows, after.db.rows, id, shop.store, op.original, op.kind);
    assert RefundsNamed(after, op, id);
  }

  lemma RefusedStands(shop: Shop, server: Server, ours: set<Op>, op: Op)
    requires Stands(shop, server, ours) && op in ours && Barred(shop, op)
    ensures Stands(shop, server.(refused := server.refused + {op}), ours)
  {
  }

  // ---- Any operation, any time ----

  /**
   The three answers an idempotent server would not give: two refusals that need not be final, and the refusal of an
   accepted refund whose untyped reference has become ambiguous.
   */
  predicate Exceptional(shop: Shop, server: Server, op: Op, now: int)
    requires Sendable(op)
  {
    op.RefundOp? &&
      (MayChange(RefundReply(shop, op, now))
       || (op in server.accepted && RefundReply(shop, op, now) == Err(AmbiguousOriginal)))
  }

  /** Whatever else the ledger answers fits the register's picture of its server, before and after. */
  lemma Arrives(shop: Shop, server: Server, ours: set<Op>, op: Op, newId: int, now: int)
    requires Stands(shop, server, ours) && op in ours && !Exceptional(shop, server, op, now)
    ensures var served := Serve(shop, op, newId, now);
            var heard := Heard(server, op, served.status);
            && Stands(served.shop, heard.server, ours)
            && (served.status == 200 <==> heard.outcome == OfflineQueue.Done(op in server.accepted))
            && (400 <= served.status < 429 <==> heard.outcome == OfflineQueue.Rejected)
            && (served.status >= 500 <==> heard.outcome == OfflineQueue.Transient)
  {
    HeardMeans(server, op, Serve(shop, op, newId, now).status);
    if op in server.accepted {
      if op.SaleOp? {
        SaleAgain(shop, op, newId, now);
      } else {
        RefundAgain(shop, op, newId, now);
      }
    } else if op in server.refused {
      BarredAgain(shop, op, newId, now);
      assert server.refused + {op} == server.refused;
    } else if op.SaleOp? {
      NoKeyTaken(shop, server, ours, op);
      NewSale(shop, server, ours, op, newId, now);
    } else {
      NoKeyTaken(shop, server, ours, op);
      NewRefund(shop, server, ours, op, newId, now);
    }
  }

  // ---- The register and its shop together ----

  datatype Fault = NotSent | Unanswered | Through

  /** An attempt of the register, or what happens to the shop otherwise. */
  datatype Event =
    | Attempt(op: Op, fault: Fault, newId: int, now: int)
    | Foreign(req: Request, now: int)
    | Configure(rules: Live)
    | Join(phone: string, client: int)

  datatype Joint = Joint(shop: Shop, server: Server)

  ghost predicate Regular(j: Joint, ours: set<Op>, event: Event) {
    match event
    case Attempt(op, fault, _, now) =>
      op in ours && Sendable(op) && (fault != NotSent ==> !Exceptional(j.shop, j.server, op, now))
    case Foreign(req, _) => forall op | op in ours :: !RequestOf(j.shop, req, op)
    case Configure(rules) => ValidRules(rules.rules)
    case Join(phone, _) => (j.shop.store, phone) !in j.shop.clients
  }

  /** The link this attempt finds, as the ledger's answer and the fault make it. */
  ghost function LinkAt(shop: Shop, event: Event): OfflineQueue.Link
    requires event.Attempt? && Sendable(event.op) && ShopOk(shop)
  {
    var link := LinkOf(Serve(shop, event.op, event.newId, event.now).status);
    match event.fault
    case NotSent => OfflineQueue.RequestLost
    case Through => link
    case Unanswered => if link.Answered? then OfflineQueue.ResponseLost(link.accepts) else link
  }

  ghost function NextShop(shop: Shop, event: Event): Shop
    requires ShopOk(shop) && (event.Attempt? ==> Sendable(event.op))
  {
    match event
    case Attempt(op, fault, newId, now) => if fault == NotSent then shop else Serve(shop, op, newId, now).shop
    case Foreign(req, now) => Taking(shop, req, now)
    case Configure(rules) => shop.(live := Some(rules))
    case Join(phone, client) => shop.(clients := shop.clients[(shop.store, phone) := client])
  }

  ghost function NextServer(j: Joint, event: Event): Server
    requires ShopOk(j.shop) && (event.Attempt? ==> Sendable(event.op))
  {
    if event.Attempt? then OfflineQueue.Try(j.server, event.op, LinkAt(j.shop, event)).server else j.server
  }

  /** A phone registered, or rules changed, disturbs nothing. */
  lemma ChangeKeeps(shop: Shop, next: Shop, server: Server, ours: set<Op>)
    requires Stands(shop, server, ours) && ShopOk(next)
    requires next == shop.(clients := next.clients, live := next.live) && ClientsExtend(shop.clients, next.clients)
    ensures Stands(next, server, ours)
  {
    forall o | o in server.accepted
      ensures Backed(next, o)
    {
      if o.RefundOp? {
        var id: nat :| RefundsNamed(shop, o, id);
        assert RefundsNamed(next, o, id);
      }
    }
    forall o | o in server.refused
      ensures Barred(next, o)
    {
      assert Barred(shop, o);
    }
  }

  lemma AttemptKeeps(j: Joint, ours: set<Op>, event: Event)
    requires Stands(j.shop, j.server, ours) && event.Attempt? && Regular(j, ours, event)
    ensures Stands(NextShop(j.shop, event), NextServer(j, event), ours)
  {
    if event.fault != NotSent {
      Arrives(j.shop, j.server, ours, event.op, event.newId, event.now);
    }
  }

  lemma EventKeeps(j: Joint, ours: set<Op>, event: Event)
    requires Stands(j.shop, j.server, ours) && Regular(j, ours, event)
    ensures Stands(NextShop(j.shop, event), NextServer(j, event), ours)
  {
    match event
    case Attempt(_, _, _, _) => AttemptKeeps(j, ours, event);
    case Foreign(req, now) => OthersKeepStanding(j.shop, j.server, ours, req, now);
    case Configure(rules) => ChangeKeeps(j.shop, NextShop(j.shop, event), j.server, ours);
    case Join(phone, client) => ChangeKeeps(j.shop, NextShop(j.shop, event), j.server, ours);
  }

  /** A run of regular events, from j to k, in which the register makes these attempts. */
  ghost predicate Runs(j: Joint, ours: set<Op>, events: seq<Event>, k: Joint, trace: OfflineQueue.Trace)
    decreases |events|
  {
    if events == [] then k == j && trace == []
    else
      var last := events[|events| - 1];
      exists mid: Joint, before: OfflineQueue.Trace ::
        && Runs(j, ours, events[..|events| - 1], mid, before) && EndsWith(mid, ours, last, k, before, trace)
  }

  ghost predicate EndsWith(mid: Joint, ours: set<Op>, last: Event, k: Joint, before: OfflineQueue.Trace,
                           trace: OfflineQueue.Trace) {
    && Regular(mid, ours, last) && ShopOk(mid.shop) && k == Joint(NextShop(mid.shop, last), NextServer(mid, last))
    && trace == (if last.Attempt? then before + [(last.op, LinkAt(mid.shop, last))] else before)
  }

  /**
   Accrue and Refund are the register's server on every regular run, whatever others do: the server the register
   pictures is the one its attempts make, and it stands for the ledger.
   */
  lemma {:induction false} LoyaltyIsTheServer(j: Joint, ours: set<Op>, events: seq<Event>, k: Joint,
                                              trace: OfflineQueue.Trace)
    requires Stands(j.shop, j.server, ours) && Runs(j, ours, events, k, trace)
    ensures Stands(k.shop, k.server, ours) && k.server == OfflineQueue.Tried(j.server, trace)
    decreases |events|
  {
    if events != [] {
      var last := events[|events| - 1];
      var mid: Joint, before: OfflineQueue.Trace :|
        Runs(j, ours, events[..|events| - 1], mid, before) && EndsWith(mid, ours, last, k, before, trace);
      LoyaltyIsTheServer(j, ours, events[..|events| - 1], mid, before);
      EventKeeps(mid, ours, last);
      if last.Attempt? {
        OfflineQueue.TriedAppend(j.server, before, [(last.op, LinkAt(mid.shop, last))]);
        OfflineQueue.TriedOne(mid.server, last.op, LinkAt(mid.shop, last));
      }
    }
  }

  /**
   The register's commands against the shop: what it made has a row in the ledger, or is refused for good, or is still
   queued; and the rows are in till order.
   */
  lemma RowsInTillOrder(shop: Shop, ours: set<Op>, commands: seq<OfflineQueue.Command>, events: seq<Event>, k: Joint)
    requires Stands(shop, OfflineQueue.START.server, ours)
    requires Runs(Joint(shop, OfflineQueue.START.server), ours, events, k,
                  OfflineQueue.ExecTrace(OfflineQueue.START, commands))
    requires forall op | op in OfflineQueue.Exec(OfflineQueue.START, commands).made :: op in ours
    ensures var s := OfflineQueue.Exec(OfflineQueue.START, commands);
            && (forall op | op in s.made :: HasRow(k.shop, op) || Barred(k.shop, op) || op in s.queue)
            && (forall o, p | o in s.made && p in s.made && HasRow(k.shop, o) && HasRow(k.shop, p)
                  && OfflineQueue.MadeAt(s.made, o) < OfflineQueue.MadeAt(s.made, p) ::
                  RowOf(k.shop, o) < RowOf(k.shop, p))
  {
    var s := OfflineQueue.Exec(OfflineQueue.START, commands);
    var trace := OfflineQueue.ExecTrace(OfflineQueue.START, commands);
    LoyaltyIsTheServer(Joint(shop, OfflineQueue.START.server), ours, events, k, trace);
    OfflineQueue.RunIsItsTrace(OfflineQueue.START, commands);
    OfflineQueue.EffectivelyOnceInOrder(commands);
    forall o, p | o in s.made && p in s.made && HasRow(k.shop, o) && HasRow(k.shop, p)
        && OfflineQueue.MadeAt(s.made, o) < OfflineQueue.MadeAt(s.made, p)
      ensures RowOf(k.shop, o) < RowOf(k.shop, p)
    {
      MadeBefore(s, k.shop, ours, o, p);
    }
  }

  lemma MadeBefore(s: OfflineQueue.Till, shop: Shop, ours: set<Op>, o: Op, p: Op)
    requires Stands(shop, s.server, ours) && OfflineQueue.AcceptedInOrder(s)
    requires o in s.made && p in s.made && o in ours && p in ours && HasRow(shop, o) && HasRow(shop, p)
    requires OfflineQueue.MadeAt(s.made, o) < OfflineQueue.MadeAt(s.made, p)
    ensures RowOf(shop, o) < RowOf(shop, p)
  {
    var accepted := s.server.accepted;
    assert o in accepted && p in accepted;
    var i :| 0 <= i < |accepted| && accepted[i] == o;
    var j :| 0 <= j < |accepted| && accepted[j] == p;
    assert i < j || j < i || i == j;
  }

  // ---- The exceptions are real ----

  lemma SaleAppends(shop: Shop, sale: Request, now: int)
    requires sale.AccrueReq? && Checks(shop.db, sale, now, shop.policy) == None
    ensures var after := Taking(shop, sale, now);
            && |after.db.rows| == |shop.db.rows| + 1 && after.db.rows[..|shop.db.rows|] == shop.db.rows
            && BalanceOf(after.db, sale.client) == BalanceOf(shop.db, sale.client) + sale.points
            && var row := after.db.rows[|shop.db.rows|];
               && HasKey(row, sale.store, Accrual, sale.ext)
               && row.amount == Stored(sale.amount) && row.refundedAmount == 0
  {
  }

  lemma OriginalPosted(shop: Shop, op: Op, sale: Request, now: int)
    requires ShopOk(shop) && op.RefundOp? && Sendable(op) && !HasRow(shop, op) && Resolved(shop, op) == Missing
    requires op.kind == None || op.kind == Some(Accrual)
    requires sale.AccrueReq? && sale.store == shop.store && sale.ext == op.original && sale.amount == AmountOf(op)
    requires Checks(shop.db, sale, now, shop.policy) == None
    ensures var after, id := Taking(shop, sale, now), |shop.db.rows|;
            && ShopOk(after) && Resolved(after, op) == Original(id) && !HasRow(after, op)
            && after.db.rows[id].kind == Accrual && after.db.rows[id].amount == op.amount
            && after.db.rows[id].refundedAmount == 0
  {
    TakingGrows(shop, sale, now);
    SaleAppends(shop, sale, now);
    OriginalFoundIn(shop, Taking(shop, sale, now), op, sale);
  }

  lemma OriginalFoundIn(before: Shop, after: Shop, op: Op, sale: Request)
    requires op.RefundOp? && !HasRow(before, op) && Resolved(before, op) == Missing
    requires Grew(before, after, sale) && sale.AccrueReq? && sale.store == before.store && sale.ext == op.original
    requires op.kind == None || op.kind == Some(Accrual)
    requires |after.db.rows| > |before.db.rows|
    requires HasKey(after.db.rows[|before.db.rows|], after.store, Accrual, op.original)
    ensures Resolved(after, op) == Original(|before.db.rows|) && !HasRow(after, op)
  {
    LookupIs(after.db.rows, |before.db.rows|, after.store, Accrual, op.original);
    SameKeys(before.db.rows, after.db.rows, before.store, Redeem, op.original);
    RowsAfter(before, after, sale, op);
    assert op.kind == None ==> !Taken(before.db.rows, before.store, Redeem, op.original);
  }

  lemma FullRefundOfSale(shop: Shop, op: Op, id: nat, now: int)
    requires ShopOk(shop) && op.RefundOp? && Sendable(op) && !HasRow(shop, op) && Resolved(shop, op) == Original(id)
    requires shop.db.rows[id].kind == Accrual && shop.db.rows[id].amount == op.amount
    requires shop.db.rows[id].refundedAmount == 0
    ensures RefundReply(shop, op, now).Ok?
  {
    NewRefundAsks(shop, op, id, now);
    assert !Barred(shop, op);
  }

  /** A refund refused because its sale was not posted yet is accepted once it is. */
  lemma NotFoundIsNotFinal(shop: Shop, op: Op, sale: Request, before: int, later: int)
    requires ShopOk(shop) && op.RefundOp? && Sendable(op) && !HasRow(shop, op) && Resolved(shop, op) == Missing
    requires op.kind == None || op.kind == Some(Accrual)
    requires sale.AccrueReq? && sale.store == shop.store && sale.ext == op.original && sale.amount == AmountOf(op)
    requires Checks(shop.db, sale, before, shop.policy) == None
    ensures RefundReply(shop, op, before) == Err(Rejected(NotFound))
    ensures RefundReply(Taking(shop, sale, before), op, later).Ok?
  {
    OriginalPosted(shop, op, sale, before);
    FullRefundOfSale(Taking(shop, sale, before), op, |shop.db.rows|, later);
  }

  /** A refund refused for a debt is accepted once another sale has cleared it. */
  lemma DebtIsNotFinal(shop: Shop, op: Op, id: nat, sale: Request, before: int, later: int)
    requires ShopOk(shop) && op.RefundOp? && Sendable(op) && !HasRow(shop, op) && Resolved(shop, op) == Original(id)
    requires RefundReply(shop, op, before) == Err(Rejected(InsufficientBalance))
    requires sale.AccrueReq? && sale.ext != op.original && sale.client == shop.db.rows[id].client
    requires Checks(shop.db, sale, before, shop.policy) == None
    requires BalanceOf(shop.db, sale.client) + sale.points + Delta(shop.db.rows, RefundRequest(shop, op, id)) >= 0
    ensures RefundReply(Taking(shop, sale, before), op, later).Ok?
  {
    var after := Taking(shop, sale, before);
    TakingGrows(shop, sale, before);
    NewRefundAsks(shop, op, id, before);
    OtherSale(shop, sale, before, op);
    SaleAppends(shop, sale, before);
    OriginalFound(shop, op, id);
    assert after.db.rows[id] == after.db.rows[..|shop.db.rows|][id] == shop.db.rows[id];
    NewRefundAsks(after, op, id, later);
  }

  /** A sale of another id changes neither the reference nor the key of a refund. */
  lemma OtherSale(shop: Shop, sale: Request, now: int, op: Op)
    requires ShopOk(shop) && op.RefundOp? && !HasRow(shop, op) && Resolved(shop, op).Original?
    requires sale.AccrueReq? && sale.ext != op.original && Checks(shop.db, sale, now, shop.policy) == None
    ensures Resolved(Taking(shop, sale, now), op) == Resolved(shop, op) && !HasRow(Taking(shop, sale, now), op)
  {
    var after := Taking(shop, sale, now);
    TakingGrows(shop, sale, now);
    RowsAfter(shop, after, sale, op);
    ResolvedAfter(shop.db.rows, after.db.rows, shop.store, op.original, op.kind);
    SameKeys(shop.db.rows, after.db.rows, shop.store, Accrual, op.original);
    SameKeys(shop.db.rows, after.db.rows, shop.store, Redeem, op.original);
  }

  /** An accepted refund of an untyped reference is refused once the other kind has the id too. */
  lemma AmbiguityIsReal(shop: Shop, op: Op, newId: int, now: int)
    requires ShopOk(shop) && op.RefundOp? && Backed(shop, op) && op.kind == None
    requires Taken(shop.db.rows, shop.store, Accrual, op.original)
    requires Taken(shop.db.rows, shop.store, Redeem, op.original)
    ensures RefundReply(shop, op, now) == Err(AmbiguousOriginal) && Serve(shop, op, newId, now) == Served(shop, 400)
  {
    RefundAgain(shop, op, newId, now);
  }
}
