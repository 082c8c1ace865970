/** Fingerprints and replay detection: what a repeated request finds once its first copy has committed. */
module Replay {
  import opened Text
  import opened Rows
  import opened Amounts
  import opened Ledger
  import opened LedgerSafety

  // ---- Fingerprints ----

  // StringFixed(2) prints an amount as the column rounds it.

  function AccrualFingerprint(client: int, amount: Amount): string {
    "client=" + (Int(client) + ";" + ("amount=" + Fixed2(Stored(amount))))
  }

  function RedeemFingerprint(client: int, amount: Amount, points: int): string {
    "client=" + (Int(client) + ";" + ("amount=" + (Fixed2(Stored(amount)) + ";" + ("points=" + Int(points)))))
  }

  function RefundFingerprint(id: nat, amount: Amount): string {
    "original=" + (Int(id) + ";" + ("amount=" + Fixed2(Stored(amount))))
  }

  lemma AfterPrefix(p: string, x: string, y: string)
    requires p + x == p + y
    ensures x == y
  {
    assert (p + x)[|p|..] == x && (p + y)[|p|..] == y;
  }

  lemma AccrualFingerprintInjective(c: int, a: Amount, c': int, a': Amount)
    ensures AccrualFingerprint(c, a) == AccrualFingerprint(c', a') <==> c == c' && Stored(a) == Stored(a')
  {
    if AccrualFingerprint(c, a) == AccrualFingerprint(c', a') {
      var x, y := "amount=" + Fixed2(Stored(a)), "amount=" + Fixed2(Stored(a'));
      AfterPrefix("client=", Int(c) + ";" + x, Int(c') + ";" + y);
      IntChars(c);
      IntChars(c');
      CutUnique(Int(c), Int(c'), ';', x, y);
      IntInjective(c, c');
      AfterPrefix("amount=", Fixed2(Stored(a)), Fixed2(Stored(a')));
      Fixed2Injective(Stored(a), Stored(a'));
    }
  }

  lemma RedeemFingerprintInjective(c: int, a: Amount, p: int, c': int, a': Amount, p': int)
    ensures RedeemFingerprint(c, a, p) == RedeemFingerprint(c', a', p') <==>
            c == c' && Stored(a) == Stored(a') && p == p'
  {
    if RedeemFingerprint(c, a, p) == RedeemFingerprint(c', a', p') {
      var u, v := "points=" + Int(p), "points=" + Int(p');
      var x, y := "amount=" + (Fixed2(Stored(a)) + ";" + u), "amount=" + (Fixed2(Stored(a')) + ";" + v);
      AfterPrefix("client=", Int(c) + ";" + x, Int(c') + ";" + y);
      IntChars(c);
      IntChars(c');
      CutUnique(Int(c), Int(c'), ';', x, y);
      IntInjective(c, c');
      AfterPrefix("amount=", Fixed2(Stored(a)) + ";" + u, Fixed2(Stored(a')) + ";" + v);
      Fixed2Charset(Stored(a), ';');
      Fixed2Charset(Stored(a'), ';');
      CutUnique(Fixed2(Stored(a)), Fixed2(Stored(a')), ';', u, v);
      Fixed2Injective(Stored(a), Stored(a'));
      AfterPrefix("points=", Int(p), Int(p'));
      IntInjective(p, p');
    }
  }

  lemma RefundFingerprintInjective(i: nat, a: Amount, i': nat, a': Amount)
    ensures RefundFingerprint(i, a) == RefundFingerprint(i', a') <==> i == i' && Stored(a) == Stored(a')
  {
    if RefundFingerprint(i, a) == RefundFingerprint(i', a') {
      var x, y := "amount=" + Fixed2(Stored(a)), "amount=" + Fixed2(Stored(a'));
      AfterPrefix("original=", Int(i) + ";" + x, Int(i') + ";" + y);
      IntChars(i);
      IntChars(i');
      CutUnique(Int(i), Int(i'), ';', x, y);
      IntInjective(i, i');
      AfterPrefix("amount=", Fixed2(Stored(a)), Fixed2(Stored(a')));
      Fixed2Injective(Stored(a), Stored(a'));
    }
  }

  // ---- Rows never change but for their refund totals ----

  predicate SameFacts(before: Row, after: Row) {
    after == before.(refundedAmount := after.refundedAmount, refundedPoints := after.refundedPoints)
  }

  ghost predicate Extends(before: seq<Row>, after: seq<Row>) {
    |before| <= |after| && forall i | 0 <= i < |before| :: SameFacts(before[i], after[i])
  }

  lemma AfterExtends(db: Db, req: Request, now: int, policy: Policy)
    ensures Extends(db.rows, After(db, req, now, policy).rows)
  {
  }

  lemma ExtendsTransitive(a: seq<Row>, b: seq<Row>, c: seq<Row>)
    requires Extends(a, b) && Extends(b, c)
    ensures Extends(a, c)
  {
    forall i | 0 <= i < |a|
      ensures SameFacts(a[i], c[i])
    {
      assert SameFacts(a[i], b[i]) && SameFacts(b[i], c[i]);
    }
  }

  lemma {:induction false} RunExtends(db: Db, steps: seq<Step>, policy: Policy)
    ensures Extends(db.rows, Run(db, steps, policy).rows)
  {
    if steps != [] {
      var n := |steps| - 1;
      var before := Run(db, steps[..n], policy);
      RunExtends(db, steps[..n], policy);
      AfterExtends(before, steps[n].req, steps[n].now, policy);
      ExtendsTransitive(db.rows, before.rows, Run(db, steps, policy).rows);
    }
  }

  lemma TakenStays(before: seq<Row>, after: seq<Row>, store: int, kind: Kind, ext: string)
    requires Extends(before, after) && Taken(before, store, kind, ext)
    ensures Taken(after, store, kind, ext)
  {
    var i :| 0 <= i < |before| && HasKey(before[i], store, kind, ext);
    assert SameFacts(before[i], after[i]);
    assert HasKey(after[i], store, kind, ext);
  }

  /** GetByExternalID: the row with this key. */
  function Lookup(rows: seq<Row>, store: int, kind: Kind, ext: string): (found: Option<nat>)
    ensures found.Some? ==> found.value < |rows| && HasKey(rows[found.value], store, kind, ext)
    ensures found.None? <==> !Taken(rows, store, kind, ext)
  {
    if rows == [] then None
    else
      var n := |rows| - 1;
      var earlier := Lookup(rows[..n], store, kind, ext);
      assert forall i | 0 <= i < n :: rows[..n][i] == rows[i];
      if earlier.Some? then earlier else if HasKey(rows[n], store, kind, ext) then Some(n) else None
  }

  lemma {:induction false} LookupPrefix(rows: seq<Row>, k: nat, store: int, kind: Kind, ext: string)
    requires k <= |rows| && Taken(rows[..k], store, kind, ext)
    ensures Lookup(rows, store, kind, ext) == Lookup(rows[..k], store, kind, ext)
  {
    if k == |rows| {
      assert rows[..k] == rows;
    } else {
      var init := rows[..|rows| - 1];
      assert init[..k] == rows[..k];
      LookupPrefix(init, k, store, kind, ext);
    }
  }

  lemma {:induction false} LookupSameKeys(a: seq<Row>, b: seq<Row>, store: int, kind: Kind, ext: string)
    requires |a| == |b| && forall i | 0 <= i < |a| :: SameFacts(a[i], b[i])
    ensures Lookup(a, store, kind, ext) == Lookup(b, store, kind, ext)
  {
    if a != [] {
      var n := |a| - 1;
      assert SameFacts(a[n], b[n]);
      LookupSameKeys(a[..n], b[..n], store, kind, ext);
    }
  }

  lemma LookupStable(before: seq<Row>, after: seq<Row>, store: int, kind: Kind, ext: string)
    requires Extends(before, after) && Taken(before, store, kind, ext)
    ensures Lookup(after, store, kind, ext) == Lookup(before, store, kind, ext)
  {
    var same := after[..|before|];
    assert Extends(before, same);
    LookupSameKeys(before, same, store, kind, ext);
    TakenStays(before, same, store, kind, ext);
    LookupPrefix(after, |before|, store, kind, ext);
  }

  // ---- Replay checks ----

  /** A reply to the till; Nothing is a nil result without an error, which no caller may get. */
  datatype Reply<R> = Ok(result: R) | Err(error: ServiceError) | Nothing

  datatype ServiceError = Rejected(error: Error) | IdempotencyConflict | UnknownClient | AmbiguousOriginal

  datatype Accrued = Accrued(client: int, points: int, balance: int, replayed: bool)
  datatype Redeemed = Redeemed(points: int, balance: int, replayed: bool)
  datatype Reversed = Reversed(client: int, points: int, balance: int, replayed: bool)

  type Clients = map<(int, string), int>

  /** Clients are registered once per store and phone and never change. */
  ghost predicate ClientsExtend(before: Clients, after: Clients) {
    forall key | key in before :: key in after && after[key] == before[key]
  }

  function ReplayedAccrue(rows: seq<Row>, clients: Clients, store: int, ext: string, phone: string, amount: Amount)
    : Reply<Accrued>
  {
    var found := Lookup(rows, store, Accrual, ext);
    if found.None? then Nothing
    else
      var row := rows[found.value];
      if (store, phone) !in clients || row.fingerprint != AccrualFingerprint(clients[(store, phone)], amount)
      then Err(IdempotencyConflict)
      else Ok(Accrued(row.client, row.delta, row.balanceAfter, true))
  }

  function ReplayedRedeem(rows: seq<Row>, store: int, ext: string, client: int, amount: Amount, points: int)
    : Reply<Redeemed>
  {
    var found := Lookup(rows, store, Redeem, ext);
    if found.None? then Nothing
    else
      var row := rows[found.value];
      if row.fingerprint != RedeemFingerprint(client, amount, points) then Err(IdempotencyConflict)
      else Ok(Redeemed(0 - row.delta, row.balanceAfter, true))
  }

  function ReplayedRefund(rows: seq<Row>, store: int, ext: string, id: nat, amount: Amount): Reply<Reversed> {
    var found := Lookup(rows, store, Refund, ext);
    if found.None? then Nothing
    else
      var row := rows[found.value];
      if row.fingerprint != RefundFingerprint(id, amount) then Err(IdempotencyConflict)
      else Ok(Reversed(row.client, row.delta, row.balanceAfter, true))
  }

  lemma LookupIs(rows: seq<Row>, i: nat, store: int, kind: Kind, ext: string)
    requires KeysUnique(rows) && i < |rows| && HasKey(rows[i], store, kind, ext)
    ensures Lookup(rows, store, kind, ext) == Some(i)
  {
    var j := Lookup(rows, store, kind, ext).value;
    assert HasKey(rows[j], store, kind, ext);
  }

  /**
   Once row i has committed, whatever is posted afterwards: a sale sent again under its id gets the stored
   client, points and balance exactly when phone and amount are the original's, and a conflict otherwise.
   */
  lemma SaleReplays(db: Db, later: seq<Step>, policy: Policy, i: nat, client: int, paid: Amount,
                    clients: Clients, phone: string, amount: Amount)
    requires KeysUnique(db.rows) && i < |db.rows| && db.rows[i].kind == Accrual
    requires db.rows[i].fingerprint == AccrualFingerprint(client, paid)
    ensures var row := db.rows[i];
            ReplayedAccrue(Run(db, later, policy).rows, clients, row.store, row.ext, phone, amount) ==
            if (row.store, phone) in clients && clients[(row.store, phone)] == client && Stored(amount) == Stored(paid)
            then Ok(Accrued(row.client, row.delta, row.balanceAfter, true)) else Err(IdempotencyConflict)
  {
    var row := db.rows[i];
    var now := Run(db, later, policy).rows;
    RunExtends(db, later, policy);
    LookupIs(db.rows, i, row.store, Accrual, row.ext);
    LookupStable(db.rows, now, row.store, Accrual, row.ext);
    assert SameFacts(row, now[i]);
    if (row.store, phone) in clients {
      AccrualFingerprintInjective(client, paid, clients[(row.store, phone)], amount);
    }
  }

  lemma RedemptionReplays(db: Db, later: seq<Step>, policy: Policy, i: nat, client: int, paid: Amount, asked: int,
                          c: int, amount: Amount, points: int)
    requires KeysUnique(db.rows) && i < |db.rows| && db.rows[i].kind == Redeem
    requires db.rows[i].fingerprint == RedeemFingerprint(client, paid, asked)
    ensures var row := db.rows[i];
            ReplayedRedeem(Run(db, later, policy).rows, row.store, row.ext, c, amount, points) ==
            if c == client && Stored(amount) == Stored(paid) && points == asked
            then Ok(Redeemed(0 - row.delta, row.balanceAfter, true)) else Err(IdempotencyConflict)
  {
    var row := db.rows[i];
    var now := Run(db, later, policy).rows;
    RunExtends(db, later, policy);
    LookupIs(db.rows, i, row.store, Redeem, row.ext);
    LookupStable(db.rows, now, row.store, Redeem, row.ext);
    assert SameFacts(row, now[i]);
    RedeemFingerprintInjective(client, paid, asked, c, amount, points);
  }

  /** For a refund this holds as long as the request still names the same original row. */
  lemma RefundReplays(db: Db, later: seq<Step>, policy: Policy, i: nat, original: nat, paid: Amount,
                      id: nat, amount: Amount)
    requires KeysUnique(db.rows) && i < |db.rows| && db.rows[i].kind == Refund
    requires db.rows[i].fingerprint == RefundFingerprint(original, paid)
    ensures var row := db.rows[i];
            ReplayedRefund(Run(db, later, policy).rows, row.store, row.ext, id, amount) ==
            if id == original && Stored(amount) == Stored(paid)
            then Ok(Reversed(row.client, row.delta, row.balanceAfter, true)) else Err(IdempotencyConflict)
  {
    var row := db.rows[i];
    var now := Run(db, later, policy).rows;
    RunExtends(db, later, policy);
    LookupIs(db.rows, i, row.store, Refund, row.ext);
    LookupStable(db.rows, now, row.store, Refund, row.ext);
    assert SameFacts(row, now[i]);
    RefundFingerprintInjective(original, paid, id, amount);
  }

  // ---- Which row a refund names ----

  datatype Resolution = Original(id: nat) | Missing | Ambiguous

  /** A refund may leave the original's kind open when one external id serves at most one row. */
  function ResolveOriginal(rows: seq<Row>, store: int, ext: string, kind: Option<Kind>): Resolution {
    if kind.Some? then
      var found := Lookup(rows, store, kind.value, ext);
      if found.Some? then Original(found.value) else Missing
    else
      var accrual := Lookup(rows, store, Accrual, ext);
      var redeem := Lookup(rows, store, Redeem, ext);
      if accrual.Some? && redeem.Some? then Ambiguous
      else if accrual.Some? then Original(accrual.value)
      else if redeem.Some? then Original(redeem.value)
      else Missing
  }

  /** A refund that names a kind means that one, any other an accrual or a redemption. */
  predicate MayMean(asked: Option<Kind>, k: Kind) {
    if asked.Some? then k == asked.value else k != Refund
  }

  /** The one row the request may mean; missing if there is none, ambiguous if there are two. */
  lemma ResolutionExactly(rows: seq<Row>, store: int, ext: string, kind: Option<Kind>)
    ensures var found := ResolveOriginal(rows, store, ext, kind);
            && (found == Missing <==> forall k | MayMean(kind, k) :: !Taken(rows, store, k, ext))
            && (found == Ambiguous <==>
                  kind == None && Taken(rows, store, Accrual, ext) && Taken(rows, store, Redeem, ext))
            && (found.Original? ==>
                  && found.id < |rows| && rows[found.id].store == store && rows[found.id].ext == ext
                  && MayMean(kind, rows[found.id].kind))
  {
    assert MayMean(None, Accrual) && MayMean(None, Redeem);
  }

  /** A resolved reference stays, except that an open one turns ambiguous once the other kind uses the id too. */
  lemma ResolutionStable(db: Db, later: seq<Step>, policy: Policy, store: int, ext: string, kind: Option<Kind>)
    requires ResolveOriginal(db.rows, store, ext, kind).Original?
    ensures var before := ResolveOriginal(db.rows, store, ext, kind);
            var now := Run(db, later, policy).rows;
            ResolveOriginal(now, store, ext, kind) ==
            if kind == None && Taken(now, store, Accrual, ext) && Taken(now, store, Redeem, ext)
            then Ambiguous else before
  {
    var now := Run(db, later, policy).rows;
    RunExtends(db, later, policy);
    if kind.Some? {
      LookupStable(db.rows, now, store, kind.value, ext);
    } else if Taken(db.rows, store, Accrual, ext) {
      LookupStable(db.rows, now, store, Accrual, ext);
    } else {
      LookupStable(db.rows, now, store, Redeem, ext);
    }
  }
}
