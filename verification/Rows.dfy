/** Ledger rows and sums over them. */
module Rows {
  import opened Text
  import opened Amounts

  datatype Option<T> = None | Some(value: T)

  datatype Kind = Accrual | Redeem | Refund

  /**
   A row of the transactions table; its id is its position. refundedAmount and refundedPoints are the
   running totals kept on an accrual or redeem; cumulative and fully are a refund's own snapshot of them.
   */
  datatype Row = Row(
    store: int, client: int, ext: string, amount: Kopecks, kind: Kind, delta: int, balanceAfter: int,
    fingerprint: string, createdAt: int, rule: Option<int>,
    original: Option<nat>, refundedAmount: nat, refundedPoints: nat, cumulative: nat, fully: bool)

  function Sum(rows: seq<Row>, weight: Row -> int): int {
    if rows == [] then 0 else Sum(rows[..|rows| - 1], weight) + weight(rows[|rows| - 1])
  }

  lemma SumAppend(rows: seq<Row>, r: Row, weight: Row -> int)
    ensures Sum(rows + [r], weight) == Sum(rows, weight) + weight(r)
  {
    assert (rows + [r])[..|rows|] == rows;
  }

  lemma {:induction false} SumUpdate(rows: seq<Row>, i: nat, r: Row, weight: Row -> int)
    requires i < |rows|
    ensures Sum(rows[i := r], weight) == Sum(rows, weight) - weight(rows[i]) + weight(r)
  {
    var n := |rows| - 1;
    if i == n {
      assert rows[i := r][..n] == rows[..n];
    } else {
      assert rows[i := r][..n] == rows[..n][i := r];
      SumUpdate(rows[..n], i, r, weight);
    }
  }

  /** The same on a prefix, for a change the weight cannot see. */
  lemma SumUnseen(rows: seq<Row>, i: nat, r: Row, k: nat, weight: Row -> int)
    requires i < |rows| && k <= |rows| && weight(r) == weight(rows[i])
    ensures Sum(rows[i := r][..k], weight) == Sum(rows[..k], weight)
  {
    if i < k {
      assert rows[i := r][..k] == rows[..k][i := r];
      SumUpdate(rows[..k], i, r, weight);
    } else {
      assert rows[i := r][..k] == rows[..k];
    }
  }

  lemma {:induction false} SumLe(rows: seq<Row>, low: Row -> int, high: Row -> int)
    requires forall r | r in rows :: low(r) <= high(r)
    ensures Sum(rows, low) <= Sum(rows, high)
  {
    if rows != [] {
      assert rows[|rows| - 1] in rows;
      assert forall r | r in rows[..|rows| - 1] :: r in rows;
      SumLe(rows[..|rows| - 1], low, high);
    }
  }

  lemma SumEq(rows: seq<Row>, u: Row -> int, v: Row -> int)
    requires forall r | r in rows :: u(r) == v(r)
    ensures Sum(rows, u) == Sum(rows, v)
  {
    SumLe(rows, u, v);
    SumLe(rows, v, u);
  }

  lemma {:induction false} SumTail(rows: seq<Row>, k: nat, weight: Row -> int)
    requires k <= |rows| && forall i | k <= i < |rows| :: weight(rows[i]) == 0
    ensures Sum(rows, weight) == Sum(rows[..k], weight)
  {
    if k == |rows| {
      assert rows[..k] == rows;
    } else {
      var init := rows[..|rows| - 1];
      SumTail(init, k, weight);
      assert init[..k] == rows[..k];
    }
  }

  // ---- Weights ----

  function Abs(x: int): nat {
    if x < 0 then -x else x
  }

  function DeltaOf(client: int): Row -> int {
    (r: Row) => if r.client == client then r.delta else 0
  }

  /** What an accrual or redeem still contributes once its refunds are taken off. */
  function NetOf(client: int): Row -> int {
    (r: Row) =>
      if r.client != client || r.kind == Refund then 0
      else if r.kind == Accrual then r.delta - r.refundedPoints
      else r.delta + r.refundedPoints
  }

  function AmountAgainst(original: nat): Row -> int {
    (r: Row) => if r.kind == Refund && r.original == Some(original) then r.amount else 0
  }

  /** Points the refunds of an original of this kind reversed: taken back from an accrual, given back to a redeem. */
  function PointsAgainst(original: nat, kind: Kind): Row -> int {
    (r: Row) =>
      if r.kind != Refund || r.original != Some(original) then 0 else if kind == Accrual then -r.delta else r.delta
  }

  function RedeemedBy(client: int): Row -> int {
    (r: Row) => if r.client == client && r.kind == Redeem then -r.delta else 0
  }

  predicate RefundsKind(rows: seq<Row>, r: Row, kind: Kind) {
    r.kind == Refund && r.original.Some? && r.original.value < |rows| && rows[r.original.value].kind == kind
  }

  /** Points the refunds of redeems gave back. */
  function ReturnedTo(rows: seq<Row>, client: int): Row -> int {
    (r: Row) => if r.client == client && RefundsKind(rows, r, Redeem) then r.delta else 0
  }

  function RedeemTotals(client: int): Row -> int {
    (r: Row) => if r.client == client && r.kind == Redeem then r.refundedPoints else 0
  }

  function RedeemedSince(client: int, after: int): Row -> int {
    (r: Row) => if r.client == client && r.kind == Redeem && r.createdAt > after then -r.delta else 0
  }

  function RedeemedWithin(client: int, after: int, until: int): Row -> int {
    (r: Row) => if r.client == client && r.kind == Redeem && after < r.createdAt <= until then -r.delta else 0
  }

  // ---- Keys ----

  function KindName(kind: Kind): (s: string)
    ensures ':' !in s
  {
    match kind
    case Accrual => "accrual"
    case Redeem => "redeem"
    case Refund => "refund"
  }

  /** outboxDedupeKey: the ledger's idempotency key as text. */
  function DedupeKey(store: int, kind: Kind, ext: string): string {
    Int(store) + ":" + (KindName(kind) + ":" + ext)
  }

  function InviteKey(phone: string): string {
    "invite:" + phone
  }

  lemma DedupeKeyInjective(s: int, k: Kind, e: string, s': int, k': Kind, e': string)
    requires DedupeKey(s, k, e) == DedupeKey(s', k', e')
    ensures s == s' && k == k' && e == e'
  {
    IntChars(s);
    IntChars(s');
    CutUnique(Int(s), Int(s'), ':', KindName(k) + ":" + e, KindName(k') + ":" + e');
    IntInjective(s, s');
    CutUnique(KindName(k), KindName(k'), ':', e, e');
    assert KindName(k)[0..3] == KindName(k')[0..3];
    assert |KindName(Accrual)| == 7 && |KindName(Redeem)| == 6 && |KindName(Refund)| == 6;
    assert KindName(Redeem)[2] != KindName(Refund)[2];
  }

  lemma DedupeKeyNotInvite(store: int, kind: Kind, ext: string, phone: string)
    ensures DedupeKey(store, kind, ext) != InviteKey(phone)
  {
    IntChars(store);
    assert DedupeKey(store, kind, ext)[0] == Int(store)[0];
    assert InviteKey(phone)[0] == 'i';
  }
}
