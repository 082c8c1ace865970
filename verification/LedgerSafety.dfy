/** What every committed request keeps, and what therefore holds of every run of the ledger. */
module LedgerSafety {
  import opened Text
  import opened Rows
  import opened Amounts
  import opened Ledger
  import Money

  // ---- The invariant ----

  /**
   The points reversed are the share of a total within half a kopeck of the stored one, which is all that is known
   of it: each refund is computed from the amount as sent and then rounded.
   */
  ghost predicate ShareOk(r: Row) {
    && (r.refundedAmount < r.amount ==>
          r.refundedPoints <= Money.Share(Abs(r.delta), 2 * r.refundedAmount + 1, 2 * r.amount))
    && (r.refundedAmount > 0 ==>
          Money.Share(Abs(r.delta), 2 * r.refundedAmount - 1, 2 * r.amount) <= r.refundedPoints)
  }

  ghost predicate OriginalOk(r: Row) {
    && r.original == None && r.refundedAmount <= r.amount && r.refundedPoints <= Abs(r.delta) && ShareOk(r)
    && (if r.kind == Accrual then r.delta >= 0 else r.delta < 0)
  }

  /** A refund row names an earlier accrual or redeem of the same client and store and undoes part of it. */
  ghost predicate RefundOk(rows: seq<Row>, i: nat)
    requires i < |rows|
  {
    var r := rows[i];
    && r.original.Some? && r.original.value < i && r.refundedAmount == 0 && r.refundedPoints == 0
    && var o := rows[r.original.value];
       && o.kind != Refund && o.client == r.client && o.store == r.store
       && (r.amount > 0 ==> if o.kind == Accrual then r.delta <= 0 else r.delta >= 0) && Abs(r.delta) <= Abs(o.delta)
       && r.cumulative <= o.amount && (r.fully ==> r.cumulative == o.amount)
  }

  ghost predicate RowOk(rows: seq<Row>, i: nat)
    requires i < |rows|
  {
    if rows[i].kind == Refund then RefundOk(rows, i) else OriginalOk(rows[i])
  }

  ghost predicate RowsOk(rows: seq<Row>) {
    forall i | 0 <= i < |rows| :: RowOk(rows, i)
  }

  ghost predicate KeysUnique(rows: seq<Row>) {
    forall i, j | 0 <= i < j < |rows| :: !HasKey(rows[i], rows[j].store, rows[j].kind, rows[j].ext)
  }

  /** The running totals on an original are the sums over the refund rows that name it. */
  ghost predicate TotalsOk(rows: seq<Row>, j: nat)
    requires j < |rows|
  {
    rows[j].kind != Refund ==>
      && rows[j].refundedAmount == Sum(rows, AmountAgainst(j))
      && rows[j].refundedPoints == Sum(rows, PointsAgainst(j, rows[j].kind))
  }

  /** Some refund of row j found the total it made, as sent, to be all of the original. */
  ghost predicate Completed(rows: seq<Row>, j: nat) {
    exists i | 0 <= i < |rows| :: rows[i].kind == Refund && rows[i].original == Some(j) && rows[i].fully
  }

  ghost predicate CompletedOk(rows: seq<Row>, j: nat)
    requires j < |rows|
  {
    Completed(rows, j) ==> rows[j].refundedAmount == rows[j].amount && rows[j].refundedPoints == Abs(rows[j].delta)
  }

  /** What a row reported when it was posted: the client's balance then, and the refund total then. */
  ghost predicate SnapshotOk(rows: seq<Row>, i: nat)
    requires i < |rows|
  {
    var r := rows[i];
    && r.balanceAfter == Sum(rows[..i + 1], DeltaOf(r.client))
    && (r.kind == Refund && r.original.Some? ==>
          r.cumulative == Sum(rows[..i + 1], AmountAgainst(r.original.value)))
  }

  ghost predicate RefundsAccrual(rows: seq<Row>, i: nat)
    requires i < |rows|
  {
    && rows[i].kind == Refund && rows[i].original.Some? && rows[i].original.value < |rows|
    && rows[rows[i].original.value].kind == Accrual
  }

  ghost predicate DebtOk(rows: seq<Row>, i: nat)
    requires i < |rows|
  {
    rows[i].balanceAfter < 0 ==> RefundsAccrual(rows, i)
  }

  ghost predicate NetOk(rows: seq<Row>, client: int) {
    && Sum(rows, DeltaOf(client)) == Sum(rows, NetOf(client))
    && Sum(rows, ReturnedTo(rows, client)) == Sum(rows, RedeemTotals(client))
  }

  ghost predicate BalancesOk(db: Db) {
    forall c :: BalanceOf(db, c) == Sum(db.rows, DeltaOf(c))
  }

  ghost predicate RowHistoryOk(rows: seq<Row>) {
    && RowsOk(rows) && KeysUnique(rows)
    && (forall j | 0 <= j < |rows| :: TotalsOk(rows, j))
    && (forall j | 0 <= j < |rows| :: CompletedOk(rows, j))
    && (forall i | 0 <= i < |rows| :: SnapshotOk(rows, i))
    && (forall i | 0 <= i < |rows| :: DebtOk(rows, i))
    && (forall c :: NetOk(rows, c))
  }

  // ---- One commit, seen by a sum ----

  ghost predicate Admitted(db: Db, req: Request, now: int, policy: Policy) {
    Checks(db, req, now, policy) == None
  }

  ghost function TouchGain(rows: seq<Row>, req: Request, weight: Row -> int): int
    requires Refers(rows, req)
  {
    if req.RefundReq? then weight(WithTotals(rows[req.id], req.amount)) - weight(rows[req.id]) else 0
  }

  lemma SumPosted(rows: seq<Row>, req: Request, now: int, balance: int, weight: Row -> int)
    requires Refers(rows, req)
    ensures Sum(Posted(rows, req, now, balance), weight)
         == Sum(rows, weight) + TouchGain(rows, req, weight) + weight(NewRow(rows, req, now, balance))
  {
    SumAppend(Touched(rows, req), NewRow(rows, req, now, balance), weight);
    if req.RefundReq? {
      SumUpdate(rows, req.id, WithTotals(rows[req.id], req.amount), weight);
    }
  }

  lemma PrefixPosted(rows: seq<Row>, req: Request, now: int, balance: int, k: nat, weight: Row -> int)
    requires Refers(rows, req) && k <= |rows| && TouchGain(rows, req, weight) == 0
    ensures Sum(Posted(rows, req, now, balance)[..k], weight) == Sum(rows[..k], weight)
  {
    assert Posted(rows, req, now, balance)[..k] == Touched(rows, req)[..k];
    if req.RefundReq? {
      SumUnseen(rows, req.id, WithTotals(rows[req.id], req.amount), k, weight);
    }
  }

  // ---- Each part of the invariant is kept ----

  /** What an admitted refund does to its original; it takes back points only if it is stored as nothing. */
  lemma TotalsGrow(original: Row, amount: Amount)
    requires OriginalOk(original) && Total(original.refundedAmount, amount) <= original.amount * amount.per
    ensures original.refundedAmount < original.amount
    ensures OriginalOk(WithTotals(original, amount))
    ensures WithTotals(original, amount).refundedAmount == original.refundedAmount + Stored(amount)
    ensures Stored(amount) > 0 ==> original.refundedPoints <= Cumulative(original, amount)
  {
    TotalBelow(original.refundedAmount, amount, original.amount);
    RoundedTotal(original.refundedAmount, amount);
    CumulativeAtMost(original, amount);
    NewShareOk(original, amount, Total(original.refundedAmount, amount), original.refundedAmount + Stored(amount));
    if Stored(amount) > 0 {
      SharesGrow(original, amount);
    }
  }

  lemma CumulativeAtMost(original: Row, amount: Amount)
    requires original.amount > 0 && Total(original.refundedAmount, amount) <= original.amount * amount.per
    ensures Cumulative(original, amount) <= Abs(original.delta)
    ensures Rounded(Total(original.refundedAmount, amount), amount.per) <= original.amount
  {
    var total := Total(original.refundedAmount, amount);
    RoundedAtMost(total, amount.per, original.amount);
    Money.MulLess(0, original.amount, amount.per);
    Money.ShareMonotone(Abs(original.delta), total, total, original.amount * amount.per);
  }

  lemma SharesGrow(original: Row, amount: Amount)
    requires original.refundedAmount < original.amount && ShareOk(original) && Stored(amount) > 0
    requires Total(original.refundedAmount, amount) <= original.amount * amount.per
    ensures original.refundedPoints <= Cumulative(original, amount)
  {
    var half := 2 * original.refundedAmount + 1;
    StoredAsSomething(amount);
    assert half * amount.per == 2 * (original.refundedAmount * amount.per) + amount.per;
    ShareAbove(Abs(original.delta), Total(original.refundedAmount, amount), amount.per, half, original.amount);
  }

  lemma NewShareOk(original: Row, amount: Amount, total: nat, after: nat)
    requires total == Total(original.refundedAmount, amount) <= original.amount * amount.per
    requires after == Rounded(total, amount.per) <= original.amount && original.amount > 0
    ensures ShareOk(WithTotals(original, amount))
  {
    var points := Abs(original.delta);
    RoundedExactly(total, amount.per, after);
    assert (2 * after + 1) * amount.per == 2 * after * amount.per + amount.per;
    if after < original.amount {
      ShareBelow(points, total, amount.per, 2 * after + 1, original.amount);
    }
    if after > 0 {
      assert (2 * after - 1) * amount.per == 2 * after * amount.per - amount.per;
      ShareAbove(points, total, amount.per, 2 * after - 1, original.amount);
    }
  }

  lemma RowsOkKept(rows: seq<Row>, req: Request, now: int, balance: int)
    requires RowsOk(rows) && OriginalCheck(rows, req) == None
    ensures RowsOk(Posted(rows, req, now, balance))
  {
    var posted := Posted(rows, req, now, balance);
    if req.RefundReq? {
      assert RowOk(rows, req.id);
      TotalsGrow(rows[req.id], req.amount);
      FullyMeans(rows[req.id], req.amount);
    }
    forall i | 0 <= i < |posted|
      ensures RowOk(posted, i)
    {
      if i < |rows| {
        assert RowOk(rows, i);
      }
    }
  }

  lemma FullyMeans(original: Row, amount: Amount)
    ensures Total(original.refundedAmount, amount) == original.amount * amount.per ==>
              && WithTotals(original, amount).refundedAmount == original.amount
              && Cumulative(original, amount) == Abs(original.delta)
  {
    if Total(original.refundedAmount, amount) == original.amount * amount.per {
      assert 2 * original.amount * amount.per == 2 * (original.amount * amount.per);
      RoundedExactly(Total(original.refundedAmount, amount), amount.per, original.amount);
    }
  }

  lemma KeysUniqueKept(rows: seq<Row>, req: Request, now: int, balance: int)
    requires KeysUnique(rows) && Refers(rows, req) && !Taken(rows, req.store, KindOf(req), req.ext)
    ensures KeysUnique(Posted(rows, req, now, balance))
  {
    var posted := Posted(rows, req, now, balance);
    forall i, j | 0 <= i < j < |posted|
      ensures !HasKey(posted[i], posted[j].store, posted[j].kind, posted[j].ext)
    {
      assert !HasKey(rows[i], req.store, KindOf(req), req.ext);
    }
  }

  lemma NothingRefersBeyond(rows: seq<Row>, kind: Kind)
    requires RowsOk(rows)
    ensures Sum(rows, AmountAgainst(|rows|)) == 0 && Sum(rows, PointsAgainst(|rows|, kind)) == 0
  {
    forall i | 0 <= i < |rows|
      ensures AmountAgainst(|rows|)(rows[i]) == 0 && PointsAgainst(|rows|, kind)(rows[i]) == 0
    {
      assert RowOk(rows, i);
    }
    SumTail(rows, 0, AmountAgainst(|rows|));
    SumTail(rows, 0, PointsAgainst(|rows|, kind));
  }

  lemma TotalsOkKept(rows: seq<Row>, req: Request, now: int, balance: int, j: nat)
    requires RowsOk(rows) && OriginalCheck(rows, req) == None && j <= |rows|
    requires j < |rows| ==> TotalsOk(rows, j)
    ensures TotalsOk(Posted(rows, req, now, balance), j)
  {
    var kind := Posted(rows, req, now, balance)[j].kind;
    SumPosted(rows, req, now, balance, AmountAgainst(j));
    SumPosted(rows, req, now, balance, PointsAgainst(j, kind));
    if j == |rows| {
      NothingRefersBeyond(rows, kind);
    } else if req.RefundReq? {
      assert RowOk(rows, req.id);
      TotalsGrow(rows[req.id], req.amount);
    }
  }

  /** A completed original admits no further refund, so it stays as it is. */
  lemma CompletedOkKept(rows: seq<Row>, req: Request, now: int, balance: int, j: nat)
    requires RowsOk(rows) && OriginalCheck(rows, req) == None && j <= |rows|
    requires j < |rows| ==> CompletedOk(rows, j)
    ensures CompletedOk(Posted(rows, req, now, balance), j)
  {
    var posted := Posted(rows, req, now, balance);
    if req.RefundReq? {
      TotalBelow(rows[req.id].refundedAmount, req.amount, rows[req.id].amount);
    }
    if Completed(posted, j) {
      var i :| 0 <= i < |posted| && posted[i].kind == Refund && posted[i].original == Some(j) && posted[i].fully;
      if i < |rows| {
        assert RowOk(rows, i);
        assert rows[i].kind == Refund && rows[i].original == Some(j) && rows[i].fully;
      } else {
        FullyMeans(rows[req.id], req.amount);
      }
    }
  }

  lemma SnapshotOkKept(rows: seq<Row>, req: Request, now: int, balance: int, i: nat)
    requires RowsOk(rows) && OriginalCheck(rows, req) == None && i < |rows| && SnapshotOk(rows, i)
    ensures SnapshotOk(Posted(rows, req, now, balance), i)
  {
    var posted := Posted(rows, req, now, balance);
    var delta := DeltaOf(rows[i].client);
    assert TouchGain(rows, req, delta) == 0;
    PrefixPosted(rows, req, now, balance, i + 1, delta);
    if rows[i].kind == Refund {
      assert RowOk(rows, i);
      var against := AmountAgainst(rows[i].original.value);
      assert TouchGain(rows, req, against) == 0;
      PrefixPosted(rows, req, now, balance, i + 1, against);
    }
  }

  lemma SnapshotOkNew(rows: seq<Row>, req: Request, now: int, balance: int)
    requires RowsOk(rows) && OriginalCheck(rows, req) == None
    requires req.RefundReq? ==> TotalsOk(rows, req.id)
    requires balance == Sum(rows, DeltaOf(ClientOf(rows, req))) + Delta(rows, req)
    ensures SnapshotOk(Posted(rows, req, now, balance), |rows|)
  {
    var posted := Posted(rows, req, now, balance);
    assert posted[..|rows| + 1] == posted;
    SumPosted(rows, req, now, balance, DeltaOf(ClientOf(rows, req)));
    if req.RefundReq? {
      RoundedTotal(rows[req.id].refundedAmount, req.amount);
      SumPosted(rows, req, now, balance, AmountAgainst(req.id));
    }
  }

  lemma NetOkKept(rows: seq<Row>, req: Request, now: int, balance: int, client: int)
    requires RowsOk(rows) && OriginalCheck(rows, req) == None && NetOk(rows, client)
    ensures NetOk(Posted(rows, req, now, balance), client)
  {
    SumPosted(rows, req, now, balance, DeltaOf(client));
    SumPosted(rows, req, now, balance, NetOf(client));
    SumPosted(rows, req, now, balance, RedeemTotals(client));
    ReturnedPosted(rows, req, now, balance, client);
    if req.RefundReq? {
      assert RowOk(rows, req.id);
    }
  }

  lemma ReturnedPosted(rows: seq<Row>, req: Request, now: int, balance: int, client: int)
    requires RowsOk(rows) && OriginalCheck(rows, req) == None
    ensures var posted := Posted(rows, req, now, balance);
            Sum(posted, ReturnedTo(posted, client)) ==
            Sum(rows, ReturnedTo(rows, client)) + ReturnedTo(rows, client)(NewRow(rows, req, now, balance))
  {
    var posted := Posted(rows, req, now, balance);
    SumPosted(rows, req, now, balance, ReturnedTo(posted, client));
    forall r | r in rows
      ensures ReturnedTo(posted, client)(r) == ReturnedTo(rows, client)(r)
    {
      var i :| 0 <= i < |rows| && rows[i] == r;
      assert RowOk(rows, i);
    }
    SumEq(rows, ReturnedTo(posted, client), ReturnedTo(rows, client));
  }

  lemma DebtOkKept(rows: seq<Row>, req: Request, now: int, balance: int, i: nat)
    requires OriginalCheck(rows, req) == None && i <= |rows|
    requires i < |rows| ==> DebtOk(rows, i)
    requires Guarded(rows, req) ==> balance >= 0
    ensures DebtOk(Posted(rows, req, now, balance), i)
  {
  }

  lemma BalancesOkKept(db: Db, req: Request, now: int)
    requires BalancesOk(db) && OriginalCheck(db.rows, req) == None
    ensures BalancesOk(Commit(db, req, now))
  {
    var next := Commit(db, req, now);
    forall c
      ensures BalanceOf(next, c) == Sum(next.rows, DeltaOf(c))
    {
      assert BalanceOf(db, c) == Sum(db.rows, DeltaOf(c));
      SumPosted(db.rows, req, now, NewBalance(db, req), DeltaOf(c));
    }
  }

  lemma RowHistoryOkKept(rows: seq<Row>, req: Request, now: int, balance: int)
    requires RowHistoryOk(rows) && OriginalCheck(rows, req) == None
    requires !Taken(rows, req.store, KindOf(req), req.ext)
    requires balance == Sum(rows, DeltaOf(ClientOf(rows, req))) + Delta(rows, req)
    requires Guarded(rows, req) ==> balance >= 0
    ensures RowHistoryOk(Posted(rows, req, now, balance))
  {
    var posted := Posted(rows, req, now, balance);
    RowsOkKept(rows, req, now, balance);
    KeysUniqueKept(rows, req, now, balance);
    forall i | 0 <= i < |posted|
      ensures TotalsOk(posted, i) && CompletedOk(posted, i) && SnapshotOk(posted, i) && DebtOk(posted, i)
    {
      TotalsOkKept(rows, req, now, balance, i);
      CompletedOkKept(rows, req, now, balance, i);
      if i < |rows| {
        SnapshotOkKept(rows, req, now, balance, i);
      } else {
        SnapshotOkNew(rows, req, now, balance);
      }
      DebtOkKept(rows, req, now, balance, i);
    }
    forall c
      ensures NetOk(posted, c)
    {
      NetOkKept(rows, req, now, balance, c);
    }
  }

  // ---- The rolling limit ----

  ghost predicate WindowOk(rows: seq<Row>, policy: Policy, client: int, after: int) {
    Sum(rows, RedeemedWithin(client, after, after + policy.window)) <= policy.dailyLimit
  }

  ghost predicate WithinLimit(rows: seq<Row>, policy: Policy) {
    policy.dailyLimit > 0 ==> forall c: int, s: int :: WindowOk(rows, policy, c, s)
  }

  lemma RedeemsDebit(rows: seq<Row>)
    requires RowsOk(rows)
    ensures forall r | r in rows && r.kind == Redeem :: r.delta < 0
  {
    forall r | r in rows && r.kind == Redeem
      ensures r.delta < 0
    {
      var i :| 0 <= i < |rows| && rows[i] == r;
      assert RowOk(rows, i);
    }
  }

  /** A request that began at t counts every committed redemption after t - window, even one that began after t. */
  lemma WindowOkKept(db: Db, req: Request, now: int, balance: int, policy: Policy, c: int, s: int)
    requires RowsOk(db.rows) && Admitted(db, req, now, policy)
    requires policy.dailyLimit > 0 && WindowOk(db.rows, policy, c, s)
    ensures WindowOk(Posted(db.rows, req, now, balance), policy, c, s)
  {
    var within := RedeemedWithin(c, s, s + policy.window);
    SumPosted(db.rows, req, now, balance, within);
    if req.RedeemReq? && req.client == c && s < now <= s + policy.window {
      RedeemsDebit(db.rows);
      SumLe(db.rows, within, RedeemedSince(c, now - policy.window));
    }
  }

  // ---- The outbox ----

  predicate Notifies(r: Row) {
    r.kind != Accrual || r.delta > 0
  }

  function KeyOf(r: Row): string {
    DedupeKey(r.store, r.kind, r.ext)
  }

  function NoticeOf(r: Row): Notice {
    match r.kind
    case Accrual => Notice(r.client, PointsCredited, r.delta)
    case Redeem => Notice(r.client, PointsDebited, 0 - r.delta)
    case Refund => Notice(r.client, RefundAdjusted, r.delta)
  }

  predicate IsInviteKey(key: string) {
    |key| >= 7 && key[..7] == "invite:"
  }

  ghost predicate Announces(rows: seq<Row>, i: int, key: string) {
    0 <= i < |rows| && Notifies(rows[i]) && KeyOf(rows[i]) == key
  }

  ghost predicate Announced(db: Db, i: nat)
    requires i < |db.rows|
  {
    Notifies(db.rows[i]) ==>
      KeyOf(db.rows[i]) in db.outbox && db.outbox[KeyOf(db.rows[i])] == NoticeOf(db.rows[i])
  }

  ghost predicate OutboxOk(db: Db) {
    && (forall i | 0 <= i < |db.rows| :: Announced(db, i))
    && (forall key | key in db.outbox :: IsInviteKey(key) || exists i :: Announces(db.rows, i, key))
  }

  lemma LedgerKeyIsNoInvite(store: int, kind: Kind, ext: string)
    ensures !IsInviteKey(DedupeKey(store, kind, ext))
  {
    var key := DedupeKey(store, kind, ext);
    IntChars(store);
    assert key[0] == Int(store)[0];
    assert |key| >= 7 ==> key[..7][0] == key[0];
  }

  lemma SameKey(r: Row, store: int, kind: Kind, ext: string)
    ensures KeyOf(r) == DedupeKey(store, kind, ext) <==> HasKey(r, store, kind, ext)
  {
    if KeyOf(r) == DedupeKey(store, kind, ext) {
      DedupeKeyInjective(r.store, r.kind, r.ext, store, kind, ext);
    }
  }

  /** ON CONFLICT DO NOTHING never drops a ledger notification: its key is always new. */
  lemma LedgerKeyIsFresh(db: Db, req: Request)
    requires OutboxOk(db) && !Taken(db.rows, req.store, KindOf(req), req.ext)
    ensures DedupeKey(req.store, KindOf(req), req.ext) !in db.outbox
  {
    var key := DedupeKey(req.store, KindOf(req), req.ext);
    LedgerKeyIsNoInvite(req.store, KindOf(req), req.ext);
    forall i | 0 <= i < |db.rows|
      ensures KeyOf(db.rows[i]) == key <==> HasKey(db.rows[i], req.store, KindOf(req), req.ext)
    {
      SameKey(db.rows[i], req.store, KindOf(req), req.ext);
    }
    assert !exists i :: Announces(db.rows, i, key);
  }

  /** What a commit may do to the outbox: keep every entry, announce the new row, add at most invites. */
  ghost predicate Announcing(before: map<string, Notice>, after: map<string, Notice>, row: Row) {
    && (forall key | key in before :: key in after && after[key] == before[key])
    && (forall key | key in after && key !in before ::
          (Notifies(row) && key == KeyOf(row)) || IsInviteKey(key))
    && (Notifies(row) ==> KeyOf(row) in after && after[KeyOf(row)] == NoticeOf(row))
  }

  lemma EnqueuePair(outbox: map<string, Notice>, first: (string, Notice), second: (string, Notice))
    ensures Enqueue(outbox, [first]) == InsertNotice(outbox, first)
    ensures Enqueue(outbox, [first, second]) == InsertNotice(InsertNotice(outbox, first), second)
  {
    assert [first][..0] == [];
    assert [first, second][..1] == [first];
  }

  lemma InviteAnnounces(before: map<string, Notice>, invite: (string, Notice), row: Row)
    requires !Notifies(row) && IsInviteKey(invite.0)
    ensures Announcing(before, InsertNotice(before, invite), row)
  {
  }

  lemma RowAnnounces(before: map<string, Notice>, row: Row, invite: (string, Notice))
    requires Notifies(row) && KeyOf(row) !in before && IsInviteKey(invite.0)
    ensures Announcing(before, InsertNotice(before, (KeyOf(row), NoticeOf(row))), row)
    ensures Announcing(before, InsertNotice(InsertNotice(before, (KeyOf(row), NoticeOf(row))), invite), row)
  {
  }

  lemma NoticesAnnounce(db: Db, req: Request, now: int, balance: int)
    requires Refers(db.rows, req) && DedupeKey(req.store, KindOf(req), req.ext) !in db.outbox
    ensures Announcing(db.outbox, Enqueue(db.outbox, Notices(db.rows, req)), NewRow(db.rows, req, now, balance))
  {
    var row := NewRow(db.rows, req, now, balance);
    var first := (KeyOf(row), NoticeOf(row));
    var phone := if req.AccrueReq? && req.invite.Some? then req.invite.value else "";
    var invite := (InviteKey(phone), Notice(row.client, AppInvite, 0));
    assert invite.0[..7] == "invite:";
    EnqueuePair(db.outbox, first, invite);
    EnqueuePair(db.outbox, invite, invite);
    if Notifies(row) {
      RowAnnounces(db.outbox, row, invite);
    } else {
      InviteAnnounces(db.outbox, invite, row);
    }
  }

  /** An accrual that commits adds the invite it carries, and no commit adds any other. */
  lemma InvitesAfter(db: Db, req: Request, now: int, policy: Policy)
    requires Checks(db, req, now, policy) == None
    ensures var after := After(db, req, now, policy).outbox;
            && (req.AccrueReq? && req.invite.Some? ==> InviteKey(req.invite.value) in after)
            && (forall key | key in after && key !in db.outbox && IsInviteKey(key) ::
                  req.AccrueReq? && req.invite.Some? && key == InviteKey(req.invite.value))
  {
    var entries := Notices(db.rows, req);
    LedgerKeyIsNoInvite(req.store, KindOf(req), req.ext);
    var key := DedupeKey(req.store, KindOf(req), req.ext);
    assert forall i | 0 <= i < |entries| ::
        entries[i].0 == key || (req.AccrueReq? && req.invite.Some? && entries[i].0 == InviteKey(req.invite.value));
    EnqueueAdds(db.outbox, entries);
    if req.AccrueReq? && req.invite.Some? {
      assert entries[|entries| - 1].0 == InviteKey(req.invite.value);
    }
  }

  lemma {:induction false} EnqueueAdds(outbox: map<string, Notice>, entries: seq<(string, Notice)>)
    ensures forall i | 0 <= i < |entries| :: entries[i].0 in Enqueue(outbox, entries)
    ensures forall key | key in Enqueue(outbox, entries) && key !in outbox ::
              exists i :: 0 <= i < |entries| && entries[i].0 == key
    ensures forall key | key in outbox :: key in Enqueue(outbox, entries)
  {
    if entries != [] {
      var init := entries[..|entries| - 1];
      EnqueueAdds(outbox, init);
      assert forall i | 0 <= i < |init| :: init[i] == entries[i];
    }
  }

  /** Rows before a commit announce after it what they announced before. */
  ghost predicate SameAnnouncements(before: seq<Row>, after: seq<Row>) {
    && |after| == |before| + 1
    && forall i | 0 <= i < |before| ::
         && Notifies(after[i]) == Notifies(before[i]) && KeyOf(after[i]) == KeyOf(before[i])
         && NoticeOf(after[i]) == NoticeOf(before[i])
  }

  lemma PostedAnnouncesTheSame(rows: seq<Row>, req: Request, now: int, balance: int)
    requires Refers(rows, req)
    ensures SameAnnouncements(rows, Posted(rows, req, now, balance))
  {
  }

  lemma AnnouncedKept(before: Db, after: Db, i: nat)
    requires OutboxOk(before) && SameAnnouncements(before.rows, after.rows) && i < |after.rows|
    requires Announcing(before.outbox, after.outbox, after.rows[|before.rows|])
    ensures Announced(after, i)
  {
    if i < |before.rows| {
      assert Announced(before, i);
    }
  }

  lemma EntryKept(before: Db, after: Db, key: string)
    requires OutboxOk(before) && SameAnnouncements(before.rows, after.rows)
    requires Announcing(before.outbox, after.outbox, after.rows[|before.rows|])
    requires key in after.outbox && !IsInviteKey(key)
    ensures exists i :: Announces(after.rows, i, key)
  {
    if key in before.outbox {
      var i :| Announces(before.rows, i, key);
      assert Announces(after.rows, i, key);
    } else {
      assert Announces(after.rows, |before.rows|, key);
    }
  }

  lemma OutboxOkKept(db: Db, req: Request, now: int)
    requires OutboxOk(db) && Refers(db.rows, req) && !Taken(db.rows, req.store, KindOf(req), req.ext)
    ensures OutboxOk(Commit(db, req, now))
  {
    LedgerKeyIsFresh(db, req);
    NoticesAnnounce(db, req, now, NewBalance(db, req));
    PostedAnnouncesTheSame(db.rows, req, now, NewBalance(db, req));
    var next := Commit(db, req, now);
    forall i | 0 <= i < |next.rows|
      ensures Announced(next, i)
    {
      AnnouncedKept(db, next, i);
    }
    forall key | key in next.outbox && !IsInviteKey(key)
      ensures exists i :: Announces(next.rows, i, key)
    {
      EntryKept(db, next, key);
    }
  }

  // ---- Every run ----

  ghost predicate Inv(db: Db, policy: Policy) {
    RowHistoryOk(db.rows) && BalancesOk(db) && WithinLimit(db.rows, policy) && OutboxOk(db)
  }

  lemma InvEmpty(policy: Policy)
    ensures Inv(EMPTY, policy)
  {
  }

  lemma AdmittedMeans(db: Db, req: Request, now: int, policy: Policy)
    requires Admitted(db, req, now, policy) && BalancesOk(db)
    ensures OriginalCheck(db.rows, req) == None
    ensures NewBalance(db, req) == Sum(db.rows, DeltaOf(ClientOf(db.rows, req))) + Delta(db.rows, req)
    ensures Guarded(db.rows, req) ==> NewBalance(db, req) >= 0
    ensures !Taken(db.rows, req.store, KindOf(req), req.ext)
  {
    assert BalanceOf(db, ClientOf(db.rows, req)) == Sum(db.rows, DeltaOf(ClientOf(db.rows, req)));
  }

  lemma InvKept(db: Db, req: Request, now: int, policy: Policy)
    requires Inv(db, policy) && Admitted(db, req, now, policy)
    ensures Inv(Commit(db, req, now), policy)
  {
    AdmittedMeans(db, req, now, policy);
    var balance := NewBalance(db, req);
    RowHistoryOkKept(db.rows, req, now, balance);
    BalancesOkKept(db, req, now);
    OutboxOkKept(db, req, now);
    forall c: int, s: int | policy.dailyLimit > 0
      ensures WindowOk(Posted(db.rows, req, now, balance), policy, c, s)
    {
      WindowOkKept(db, req, now, balance, policy, c, s);
    }
  }

  lemma {:induction false} RunInv(db: Db, steps: seq<Step>, policy: Policy)
    requires Inv(db, policy)
    ensures Inv(Run(db, steps, policy), policy)
  {
    if steps != [] {
      var n := |steps| - 1;
      RunInv(db, steps[..n], policy);
      var before := Run(db, steps[..n], policy);
      if Admitted(before, steps[n].req, steps[n].now, policy) {
        InvKept(before, steps[n].req, steps[n].now, policy);
      }
    }
  }

  /** The state after any sequence of requests, starting from an empty database. */
  function Reached(steps: seq<Step>, policy: Policy): Db {
    Run(EMPTY, steps, policy)
  }

  lemma ReachedInv(steps: seq<Step>, policy: Policy)
    ensures Inv(Reached(steps, policy), policy)
  {
    InvEmpty(policy);
    RunInv(EMPTY, steps, policy);
  }

  /** Balances, the balance each row reported, and the refund totals are all sums over the rows. */
  lemma Conservation(steps: seq<Step>, policy: Policy, client: int, i: nat)
    requires i < |Reached(steps, policy).rows|
    ensures var db := Reached(steps, policy);
            && BalanceOf(db, client) == Sum(db.rows, DeltaOf(client))
            && db.rows[i].balanceAfter == Sum(db.rows[..i + 1], DeltaOf(db.rows[i].client))
            && (db.rows[i].kind != Refund ==>
                  && db.rows[i].refundedAmount == Sum(db.rows, AmountAgainst(i))
                  && db.rows[i].refundedPoints == Sum(db.rows, PointsAgainst(i, db.rows[i].kind)))
  {
    ReachedInv(steps, policy);
    var db := Reached(steps, policy);
    assert TotalsOk(db.rows, i) && SnapshotOk(db.rows, i);
  }

  // ---- Requests in whole kopecks ----

  ghost predicate WholeSteps(steps: seq<Step>) {
    forall i | 0 <= i < |steps| :: Whole(steps[i].req.amount)
  }

  /** Without fractions of a kopeck the stored totals are the ones computed with. */
  ghost predicate WholeRowOk(rows: seq<Row>, i: nat)
    requires i < |rows|
  {
    var r := rows[i];
    && r.amount > 0
    && (if r.kind == Refund
        then r.original.Some? && r.original.value < |rows| && r.fully == (r.cumulative == rows[r.original.value].amount)
        else r.refundedPoints == Money.Share(Abs(r.delta), r.refundedAmount, r.amount))
  }

  ghost predicate WholeRows(rows: seq<Row>) {
    forall i | 0 <= i < |rows| :: WholeRowOk(rows, i)
  }

  lemma WholeShare(original: Row, amount: Amount)
    requires Whole(amount) && Total(original.refundedAmount, amount) <= original.amount * amount.per
    ensures var after := WithTotals(original, amount);
            && after.refundedAmount == original.refundedAmount + Stored(amount)
            && after.refundedPoints == Money.Share(Abs(original.delta), after.refundedAmount, original.amount)
            && (Total(original.refundedAmount, amount) == original.amount * amount.per <==>
                after.refundedAmount == original.amount)
  {
    var after := original.refundedAmount + Stored(amount);
    RoundedTotal(original.refundedAmount, amount);
    WholeTotal(original.refundedAmount, amount);
    ShareScale(Abs(original.delta), after, original.amount, amount.per);
    SameMultiple(after, original.amount, amount.per);
  }

  lemma UnrefundedShare(points: nat, amount: nat)
    requires amount > 0
    ensures Money.Share(points, 0, amount) == 0
  {
    Money.ShareMonotone(points, 0, 0, amount);
  }

  lemma WholeRowsKept(rows: seq<Row>, req: Request, now: int, balance: int)
    requires RowsOk(rows) && WholeRows(rows) && OriginalCheck(rows, req) == None && Whole(req.amount)
    ensures WholeRows(Posted(rows, req, now, balance))
  {
    var posted := Posted(rows, req, now, balance);
    WholeTotal(0, req.amount);
    UnrefundedShare(Abs(Delta(rows, req)), Stored(req.amount));
    if req.RefundReq? {
      WholeShare(rows[req.id], req.amount);
    }
    forall i | 0 <= i < |posted|
      ensures WholeRowOk(posted, i)
    {
      if i < |rows| {
        assert RowOk(rows, i) && WholeRowOk(rows, i);
      }
    }
  }

  lemma {:induction false} WholeRun(steps: seq<Step>, policy: Policy)
    requires WholeSteps(steps)
    ensures WholeRows(Reached(steps, policy).rows)
  {
    if steps != [] {
      var n := |steps| - 1;
      var before := Reached(steps[..n], policy);
      WholeRun(steps[..n], policy);
      ReachedInv(steps[..n], policy);
      if Admitted(before, steps[n].req, steps[n].now, policy) {
        WholeRowsKept(before.rows, steps[n].req, steps[n].now, NewBalance(before, steps[n].req));
      }
    }
  }

  // ---- Proportional refunds ----

  /**
   However refunds are split, T stored of A reverse the share of a total within half a kopeck of T, and all points
   once a refund completes the original. In whole kopecks it is the share of T itself, at T = A all of it.
   */
  lemma ProportionalRefund(steps: seq<Step>, policy: Policy, j: nat)
    requires j < |Reached(steps, policy).rows| && Reached(steps, policy).rows[j].kind != Refund
    ensures var rows := Reached(steps, policy).rows;
            var total, reversed := Sum(rows, AmountAgainst(j)), Sum(rows, PointsAgainst(j, rows[j].kind));
            var points, amount := Abs(rows[j].delta), rows[j].amount;
            && 0 <= total <= amount && 0 <= reversed <= points
            && (total < amount ==> reversed <= Money.Share(points, 2 * total + 1, 2 * amount))
            && (total > 0 ==> Money.Share(points, 2 * total - 1, 2 * amount) <= reversed)
            && (Completed(rows, j) ==> total == amount && reversed == points)
            && (WholeSteps(steps) ==>
                  && reversed == Money.Share(points, total, amount) && (total == amount ==> reversed == points)
                  && (0 < amount < 2 * Money.PLACES ==> reversed == points * total / amount))
  {
    ReachedInv(steps, policy);
    var rows := Reached(steps, policy).rows;
    assert RowOk(rows, j) && TotalsOk(rows, j) && CompletedOk(rows, j);
    if WholeSteps(steps) {
      WholeRun(steps, policy);
      assert WholeRowOk(rows, j);
      Money.ShareIsFloor(rows[j].amount);
    }
  }

  /**
   A refund that leaves `gap` of the original, in its own units, closes it in the books exactly when the gap is at
   most half a kopeck, and reverses all its points exactly when there is no gap or one too small for 16 places.
   In between the original is closed with points left on it.
   */
  lemma ClosesExactly(original: Row, amount: Amount)
    requires original.delta != 0 && Total(original.refundedAmount, amount) <= original.amount * amount.per
    ensures var gap := original.amount * amount.per - Total(original.refundedAmount, amount);
            var after := WithTotals(original, amount);
            && (after.refundedAmount == original.amount <==> 2 * gap <= amount.per)
            && (after.refundedPoints == Abs(original.delta) <==>
                gap == 0 || 2 * Money.PLACES * (Abs(original.delta) * gap) <= original.amount * amount.per)
            && (Whole(amount) ==> (after.refundedAmount == original.amount <==> gap == 0))
  {
    var total := Total(original.refundedAmount, amount);
    TotalBelow(original.refundedAmount, amount, original.amount);
    Money.MulLess(0, original.amount, amount.per);
    assert 2 * original.amount * amount.per == 2 * (original.amount * amount.per);
    RoundedExactly(total, amount.per, original.amount);
    ShareIsAll(Abs(original.delta), total, original.amount * amount.per);
    if Whole(amount) {
      WholeShare(original, amount);
    }
  }

  /** An original closed in the books admits no more refunds, so what was not reversed by then never is. */
  lemma {:induction false} ClosedForGood(db: Db, later: seq<Step>, policy: Policy, j: nat)
    requires j < |db.rows| && db.rows[j].refundedAmount == db.rows[j].amount
    ensures j < |Run(db, later, policy).rows| && Run(db, later, policy).rows[j] == db.rows[j]
  {
    if later != [] {
      var n := |later| - 1;
      var before, req := Run(db, later[..n], policy), later[n].req;
      ClosedForGood(db, later[..n], policy, j);
      assert req.RefundReq? && req.id == j ==>
          Total(before.rows[j].refundedAmount, req.amount) > before.rows[j].amount * req.amount.per;
    }
  }

  /**
   A refund row stored with an amount reverses a non-negative share of an earlier row of the same client and store,
   and is marked as completing it only if it does, in whole kopecks exactly if it does.
   */
  lemma RefundReverses(steps: seq<Step>, policy: Policy, i: nat)
    requires i < |Reached(steps, policy).rows| && Reached(steps, policy).rows[i].kind == Refund
    ensures var rows := Reached(steps, policy).rows;
            && rows[i].original.Some? && rows[i].original.value < i
            && var o := rows[rows[i].original.value];
               && o.client == rows[i].client && o.store == rows[i].store && o.kind != Refund
               && (rows[i].amount > 0 && o.kind == Accrual ==> rows[i].delta <= 0)
               && (rows[i].amount > 0 && o.kind == Redeem ==> rows[i].delta >= 0)
               && rows[i].cumulative == Sum(rows[..i + 1], AmountAgainst(rows[i].original.value)) <= o.amount
               && (rows[i].fully ==> rows[i].cumulative == o.amount)
               && (WholeSteps(steps) ==> rows[i].amount > 0 && rows[i].fully == (rows[i].cumulative == o.amount))
  {
    ReachedInv(steps, policy);
    var rows := Reached(steps, policy).rows;
    assert RowOk(rows, i) && SnapshotOk(rows, i);
    if WholeSteps(steps) {
      WholeRun(steps, policy);
      assert WholeRowOk(rows, i);
    }
  }

  /** A refund of this amount takes back none of the points reversed before. */
  ghost predicate TakesNoneBack(steps: seq<Step>, policy: Policy, id: nat, amount: Amount) {
    var rows := Reached(steps, policy).rows;
    id < |rows| && rows[id].kind != Refund && Total(rows[id].refundedAmount, amount) <= rows[id].amount * amount.per ==>
      rows[id].refundedPoints <= Cumulative(rows[id], amount)
  }

  lemma RunSnoc(db: Db, steps: seq<Step>, step: Step, policy: Policy)
    ensures Run(db, steps + [step], policy) == After(Run(db, steps, policy), step.req, step.now, policy)
  {
    assert (steps + [step])[..|steps|] == steps;
  }

  lemma OneSale(sale: Step, policy: Policy)
    requires sale.req.AccrueReq?
    ensures Reached([sale], policy) == Commit(EMPTY, sale.req, sale.now)
  {
    RunSnoc(EMPTY, [], sale, policy);
    assert [] + [sale] == [sale];
  }

  lemma OneRefund(steps: seq<Step>, refund: Step, policy: Policy)
    requires refund.req.RefundReq? && Checks(Reached(steps, policy), refund.req, refund.now, policy) == None
    ensures refund.req.id < |Reached(steps, policy).rows| < |Reached(steps + [refund], policy).rows|
    ensures Reached(steps + [refund], policy).rows[refund.req.id] ==
            WithTotals(Reached(steps, policy).rows[refund.req.id], refund.req.amount)
  {
    RunSnoc(EMPTY, steps, refund, policy);
  }

  lemma UnevenShares(units: nat, per: nat)
    requires 2 * units < per
    ensures Money.Share(8 * per, units, per) < Money.Share(8 * per, 2 * units + per, 4 * per)
  {
    assert 8 * per * (2 * units + per) == 2 * (2 * units + per) * (4 * per);
    Money.FloorOfWhole(2 * (2 * units + per), 4 * per);
    assert 8 * per * units == 8 * units * per;
    Money.FloorOfWhole(8 * units, per);
  }

  /** A sale of one kopeck on its own, not refunded so far. */
  predicate OneKopeckSale(db: Db, store: int, points: nat) {
    && |db.rows| == 1 && db.rows[0].kind == Accrual && db.rows[0].store == store && db.rows[0].amount == 1
    && db.rows[0].delta == points && db.rows[0].refundedAmount == 0
  }

  lemma SaleOfOneKopeck(sale: Step, policy: Policy)
    requires sale.req.AccrueReq? && sale.req.amount == Raw(1, 1)
    ensures OneKopeckSale(Reached([sale], policy), sale.req.store, sale.req.points)
  {
    OneSale(sale, policy);
  }

  lemma FractionAdmitted(db: Db, points: nat, req: Request, now: int, policy: Policy)
    requires req.RefundReq? && req.id == 0 && OneKopeckSale(db, req.store, points) && req.amount.units <= req.amount.per
    ensures Checks(db, req, now, policy) == None
  {
  }

  /** The smaller of two fractions of the kopeck refunded last would take points back. */
  lemma SmallerTakesBack(o: Row, amount: Amount, larger: Amount)
    requires 2 * amount.units < amount.per && larger == Raw(2 * amount.units + amount.per, 4 * amount.per)
    requires o.amount == 1 && o.delta == 8 * amount.per && o.refundedAmount == 0
    ensures WithTotals(o, larger).refundedAmount == 0
    ensures Cumulative(WithTotals(o, larger), amount) < WithTotals(o, larger).refundedPoints
  {
    RoundedExactly(larger.units, larger.per, 0);
    UnevenShares(amount.units, amount.per);
  }

  /** Two fractions of the one kopeck of a sale worth 8*per points: the larger first, then the smaller. */
  lemma SmallerAfterLarger(amount: Amount, larger: Amount, sale: Step, refund: Step, policy: Policy)
    requires 2 * amount.units < amount.per && larger == Raw(2 * amount.units + amount.per, 4 * amount.per)
    requires sale.req.AccrueReq? && sale.req.amount == Raw(1, 1) && sale.req.points == 8 * amount.per
    requires refund.req.RefundReq? && refund.req.id == 0 && refund.req.store == sale.req.store
    requires refund.req.amount == larger
    ensures !TakesNoneBack([sale] + [refund], policy, 0, amount)
  {
    SaleOfOneKopeck(sale, policy);
    var sold := Reached([sale], policy);
    FractionAdmitted(sold, 8 * amount.per, refund.req, refund.now, policy);
    OneRefund([sale], refund, policy);
    SmallerTakesBack(sold.rows[0], amount, larger);
  }

  /** Which refunds can never take points back: exactly those of half a kopeck and more. */
  lemma TakesNoneBackExactly(amount: Amount)
    ensures (forall steps, policy, id: nat :: TakesNoneBack(steps, policy, id, amount)) <==>
            2 * amount.units >= amount.per
  {
    if 2 * amount.units >= amount.per {
      forall steps, policy, id: nat
        ensures TakesNoneBack(steps, policy, id, amount)
      {
        ReachedInv(steps, policy);
        var rows := Reached(steps, policy).rows;
        if id < |rows| && rows[id].kind != Refund
           && Total(rows[id].refundedAmount, amount) <= rows[id].amount * amount.per {
          assert RowOk(rows, id);
          StoredAsSomething(amount);
          TotalsGrow(rows[id], amount);
        }
      }
    } else {
      var larger := Raw(2 * amount.units + amount.per, 4 * amount.per);
      RoundedExactly(larger.units, larger.per, 0);
      var sale := Step(AccrueReq(1, 1, "s", Raw(1, 1), 8 * amount.per, "", None, None), 0);
      var refund := Step(RefundReq(1, "r", larger, "", 0), 0);
      SmallerAfterLarger(amount, larger, sale, refund, Policy(0, 0));
      assert !TakesNoneBack([sale] + [refund], Policy(0, 0), 0, amount);
    }
  }

  /** A client never owes more than the points it redeemed and did not get back. */
  lemma DebtBounded(steps: seq<Step>, policy: Policy, client: int)
    ensures var db := Reached(steps, policy);
            BalanceOf(db, client) >= -(Sum(db.rows, RedeemedBy(client)) - Sum(db.rows, ReturnedTo(db.rows, client)))
  {
    ReachedInv(steps, policy);
    var db := Reached(steps, policy);
    assert BalanceOf(db, client) == Sum(db.rows, DeltaOf(client));
    assert NetOk(db.rows, client);
    var owed := (r: Row) => RedeemTotals(client)(r) - RedeemedBy(client)(r);
    SumDifference(db.rows, RedeemTotals(client), RedeemedBy(client), owed);
    RowsOwe(db.rows, client, owed);
    SumLe(db.rows, owed, NetOf(client));
  }

  lemma RowsOwe(rows: seq<Row>, client: int, owed: Row -> int)
    requires RowsOk(rows)
    requires forall r :: owed(r) == RedeemTotals(client)(r) - RedeemedBy(client)(r)
    ensures forall r | r in rows :: owed(r) <= NetOf(client)(r)
  {
    forall r | r in rows
      ensures owed(r) <= NetOf(client)(r)
    {
      var i :| 0 <= i < |rows| && rows[i] == r;
      assert RowOk(rows, i);
    }
  }

  lemma {:induction false} SumDifference(rows: seq<Row>, u: Row -> int, v: Row -> int, w: Row -> int)
    requires forall r :: w(r) == u(r) - v(r)
    ensures Sum(rows, w) == Sum(rows, u) - Sum(rows, v)
  {
    if rows != [] {
      SumDifference(rows[..|rows| - 1], u, v, w);
    }
  }

  ghost predicate IsLastRow(rows: seq<Row>, client: int, i: int) {
    && 0 <= i < |rows| && rows[i].client == client
    && forall k | i < k < |rows| :: rows[k].client != client
  }

  lemma {:induction false} LastRow(rows: seq<Row>, client: int)
    requires Sum(rows, DeltaOf(client)) != 0
    ensures exists i :: IsLastRow(rows, client, i)
  {
    var n := |rows| - 1;
    if rows[n].client == client {
      assert IsLastRow(rows, client, n);
    } else {
      LastRow(rows[..n], client);
      var i :| IsLastRow(rows[..n], client, i);
      assert IsLastRow(rows, client, i);
    }
  }

  /** A negative balance is always the doing of the client's last row, and that row refunds an accrual. */
  lemma DebtComesFromAccrualRefund(steps: seq<Step>, policy: Policy, client: int) returns (i: nat)
    requires BalanceOf(Reached(steps, policy), client) < 0
    ensures IsLastRow(Reached(steps, policy).rows, client, i) && RefundsAccrual(Reached(steps, policy).rows, i)
  {
    ReachedInv(steps, policy);
    var db := Reached(steps, policy);
    assert BalanceOf(db, client) == Sum(db.rows, DeltaOf(client));
    LastRow(db.rows, client);
    i :| IsLastRow(db.rows, client, i);
    SumTail(db.rows, i + 1, DeltaOf(client));
    assert SnapshotOk(db.rows, i) && DebtOk(db.rows, i);
  }

  /** Nothing is left of an original: a refund completed it, or it was refunded in full in whole kopecks. */
  ghost predicate NothingLeft(steps: seq<Step>, policy: Policy, j: nat) {
    var rows := Reached(steps, policy).rows;
    j < |rows| &&
      (rows[j].delta == 0 || Completed(rows, j) || (WholeSteps(steps) && rows[j].refundedAmount == rows[j].amount))
  }

  /** A client of all of whose sales and redemptions nothing is left is back at zero. */
  lemma FullyRefundedIsZero(steps: seq<Step>, policy: Policy, client: int)
    requires forall j | 0 <= j < |Reached(steps, policy).rows| ::
      Reached(steps, policy).rows[j].client == client && Reached(steps, policy).rows[j].kind != Refund ==>
        NothingLeft(steps, policy, j)
    ensures BalanceOf(Reached(steps, policy), client) == 0
  {
    ReachedInv(steps, policy);
    if WholeSteps(steps) {
      WholeRun(steps, policy);
    }
    var db := Reached(steps, policy);
    assert BalanceOf(db, client) == Sum(db.rows, DeltaOf(client));
    assert NetOk(db.rows, client);
    forall i | 0 <= i < |db.rows|
      ensures NetOf(client)(db.rows[i]) == 0
    {
      assert RowOk(db.rows, i) && CompletedOk(db.rows, i);
      assert WholeSteps(steps) ==> WholeRowOk(db.rows, i);
    }
    SumTail(db.rows, 0, NetOf(client));
  }

  /** Redemptions that began in any interval (s, s + window] stay within the limit. */
  lemma RollingLimit(steps: seq<Step>, policy: Policy, client: int, s: int)
    requires policy.dailyLimit > 0
    ensures Sum(Reached(steps, policy).rows, RedeemedWithin(client, s, s + policy.window)) <= policy.dailyLimit
  {
    ReachedInv(steps, policy);
    assert WindowOk(Reached(steps, policy).rows, policy, client, s);
  }

  /** At most one row per store, kind and external id. */
  lemma AtMostOneRow(steps: seq<Step>, policy: Policy, i: nat, j: nat)
    requires i < |Reached(steps, policy).rows| && j < |Reached(steps, policy).rows|
    requires KeyOf(Reached(steps, policy).rows[i]) == KeyOf(Reached(steps, policy).rows[j])
    ensures i == j
  {
    ReachedInv(steps, policy);
    var rows := Reached(steps, policy).rows;
    SameKey(rows[i], rows[j].store, rows[j].kind, rows[j].ext);
    SameKey(rows[j], rows[i].store, rows[i].kind, rows[i].ext);
  }

  /** The outbox holds the notice of every notifying row under that row's key, and besides them only invites. */
  lemma NoticesMatchRows(steps: seq<Step>, policy: Policy)
    ensures var db := Reached(steps, policy);
            && (forall i | 0 <= i < |db.rows| :: Announced(db, i))
            && (forall key | key in db.outbox && !IsInviteKey(key) ::
                  exists i :: Announces(db.rows, i, key) && forall j | Announces(db.rows, j, key) :: j == i)
  {
    ReachedInv(steps, policy);
    var db := Reached(steps, policy);
    forall key | key in db.outbox && !IsInviteKey(key)
      ensures exists i :: Announces(db.rows, i, key) && forall j | Announces(db.rows, j, key) :: j == i
    {
      var i :| Announces(db.rows, i, key);
      forall j | Announces(db.rows, j, key)
        ensures j == i
      {
        AtMostOneRow(steps, policy, i, j);
      }
    }
  }
}
