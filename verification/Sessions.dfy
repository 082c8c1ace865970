/** Refresh-token sessions: rotation, logout and the answer to a reused token. A session's id is its position. */
module Sessions {
  import opened Rows

  datatype Session = Session(account: int, hash: int, expiresAt: int, revokedAt: Option<int>, replacedBy: Option<nat>)

  predicate Live(session: Session) {
    session.revokedAt.None?
  }

  function Find(rows: seq<Session>, hash: int): (found: Option<nat>)
    ensures found.Some? ==> found.value < |rows| && rows[found.value].hash == hash
    ensures found.None? ==> forall i | 0 <= i < |rows| :: rows[i].hash != hash
  {
    if rows == [] then None
    else if rows[|rows| - 1].hash == hash then Some(|rows| - 1)
    else Find(rows[..|rows| - 1], hash)
  }

  // ---- The four statements, each atomic ----

  datatype Claimed = Rotated(id: nat) | Reused(account: int) | Missing | Clash

  /** A revoked token is reported as reused even when it has also expired. */
  function ClaimAnswer(rows: seq<Session>, oldHash: int, newHash: int, now: int): (answer: Claimed)
    ensures answer.Rotated? ==> answer.id < |rows| && rows[answer.id].hash == oldHash && Live(rows[answer.id])
  {
    match Find(rows, oldHash)
    case None => Missing
    case Some(i) =>
      if !Live(rows[i]) then Reused(rows[i].account)
      else if now > rows[i].expiresAt then Missing
      else if Find(rows, newHash).Some? then Clash
      else Rotated(i)
  }

  function ClaimRows(rows: seq<Session>, oldHash: int, newHash: int, expiresAt: int, now: int): seq<Session> {
    match ClaimAnswer(rows, oldHash, newHash, now)
    case Rotated(i) =>
      rows[i := rows[i].(revokedAt := Some(now), replacedBy := Some(|rows|))]
      + [Session(rows[i].account, newHash, expiresAt, None, None)]
    case _ => rows
  }

  function CreateRows(rows: seq<Session>, account: int, hash: int, expiresAt: int): seq<Session> {
    if Find(rows, hash).Some? then rows else rows + [Session(account, hash, expiresAt, None, None)]
  }

  function RevokeRows(rows: seq<Session>, id: nat, now: int): seq<Session> {
    if id < |rows| && Live(rows[id]) then rows[id := rows[id].(revokedAt := Some(now))] else rows
  }

  function Revoked(session: Session, account: int, now: int): Session {
    if session.account == account && Live(session) then session.(revokedAt := Some(now)) else session
  }

  /** The UPDATE reaches the rows in its snapshot, the first `visible`, and re-reads each under its lock. */
  function RevokeAllRows(rows: seq<Session>, account: int, visible: nat, now: int): seq<Session> {
    seq(|rows|, i requires 0 <= i < |rows| => if i < visible then Revoked(rows[i], account, now) else rows[i])
  }

  datatype Action =
    | Create(account: int, hash: int, expiresAt: int)
    | Claim(oldHash: int, newHash: int, expiresAt: int, now: int)
    | Revoke(id: nat, now: int)
    | RevokeAll(account: int, visible: nat, now: int)

  function Next(rows: seq<Session>, action: Action): seq<Session> {
    match action
    case Create(account, hash, expiresAt) => CreateRows(rows, account, hash, expiresAt)
    case Claim(oldHash, newHash, expiresAt, now) => ClaimRows(rows, oldHash, newHash, expiresAt, now)
    case Revoke(id, now) => RevokeRows(rows, id, now)
    case RevokeAll(account, visible, now) => RevokeAllRows(rows, account, visible, now)
  }

  function Exec(rows: seq<Session>, actions: seq<Action>): seq<Session> {
    if actions == [] then rows else Next(Exec(rows, actions[..|actions| - 1]), actions[|actions| - 1])
  }

  // ---- What every run keeps ----

  /** A replaced session is revoked, and its replacement is a newer session of the same account. */
  predicate EdgeOk(rows: seq<Session>, i: nat)
    requires i < |rows|
  {
    rows[i].replacedBy.Some? ==>
      && i < rows[i].replacedBy.value < |rows|
      && rows[rows[i].replacedBy.value].account == rows[i].account
      && !Live(rows[i])
  }

  ghost predicate Ok(rows: seq<Session>) {
    && (forall i: nat | i < |rows| :: EdgeOk(rows, i))
    && (forall i, j | 0 <= i < j < |rows| :: rows[i].hash != rows[j].hash)
    && (forall i, j | 0 <= i < j < |rows| && rows[i].replacedBy.Some? :: rows[i].replacedBy != rows[j].replacedBy)
  }

  predicate Aged(before: Session, after: Session) {
    && after.account == before.account && after.hash == before.hash && after.expiresAt == before.expiresAt
    && (!Live(before) ==> after == before)
  }

  /** Sessions are only added, and a revoked one never changes again. */
  ghost predicate Later(before: seq<Session>, after: seq<Session>) {
    |before| <= |after| && forall i | 0 <= i < |before| :: Aged(before[i], after[i])
  }

  lemma NextKeeps(rows: seq<Session>, action: Action)
    requires Ok(rows)
    ensures Ok(Next(rows, action)) && Later(rows, Next(rows, action))
  {
    var next := Next(rows, action);
    forall i, j | 0 <= i < j < |next| && next[i].replacedBy.Some?
      ensures next[i].replacedBy != next[j].replacedBy
    {
      assert EdgeOk(rows, i) && (j < |rows| ==> EdgeOk(rows, j));
    }
    forall i: nat | i < |next|
      ensures EdgeOk(next, i)
    {
      if i < |rows| {
        assert EdgeOk(rows, i);
      }
    }
  }

  lemma {:induction false} RunKeeps(rows: seq<Session>, actions: seq<Action>)
    requires Ok(rows)
    ensures Ok(Exec(rows, actions)) && Later(rows, Exec(rows, actions))
  {
    if actions != [] {
      RunKeeps(rows, actions[..|actions| - 1]);
      NextKeeps(Exec(rows, actions[..|actions| - 1]), actions[|actions| - 1]);
    }
  }

  lemma FindIsUnique(rows: seq<Session>, i: nat)
    requires Ok(rows) && i < |rows|
    ensures Find(rows, rows[i].hash) == Some(i)
  {
    var found := Find(rows, rows[i].hash).value;
    assert found == i || found < i || i < found;
  }

  /** Once revoked, by rotation or by logout, a token is answered as reused ever after. */
  lemma RevokedTokenIsReused(rows: seq<Session>, actions: seq<Action>, i: nat, newHash: int, now: int)
    requires Ok(rows) && i < |rows| && !Live(rows[i])
    ensures ClaimAnswer(Exec(rows, actions), rows[i].hash, newHash, now) == Reused(rows[i].account)
  {
    RunKeeps(rows, actions);
    assert Aged(rows[i], Exec(rows, actions)[i]);
    FindIsUnique(Exec(rows, actions), i);
  }

  /** Of two refreshes with one token, at most one ever rotates it. */
  lemma RotatedOnce(rows: seq<Session>, hash: int, newHash: int, expiresAt: int, now: int,
                    actions: seq<Action>, otherHash: int, later: int)
    requires Ok(rows) && ClaimAnswer(rows, hash, newHash, now).Rotated?
    ensures ClaimAnswer(Exec(ClaimRows(rows, hash, newHash, expiresAt, now), actions), hash, otherHash, later).Reused?
  {
    var i := ClaimAnswer(rows, hash, newHash, now).id;
    NextKeeps(rows, Claim(hash, newHash, expiresAt, now));
    RevokedTokenIsReused(ClaimRows(rows, hash, newHash, expiresAt, now), actions, i, otherHash, later);
  }

  // ---- The sessions that descend from one login ----

  ghost predicate Precedes(rows: seq<Session>, p: int, i: nat) {
    0 <= p < |rows| && rows[p].replacedBy == Some(i)
  }

  /** The session whose rotations led to session i. */
  ghost function Login(rows: seq<Session>, i: nat): (login: nat)
    requires Ok(rows) && i < |rows|
    ensures login <= i && rows[login].account == rows[i].account
    ensures !exists p :: Precedes(rows, p, login)
    decreases i
  {
    if exists p :: Precedes(rows, p, i) then
      var p :| Precedes(rows, p, i);
      assert EdgeOk(rows, p);
      Login(rows, p)
    else i
  }

  /** Where the rotations of session i ended. */
  function Latest(rows: seq<Session>, i: nat): (latest: nat)
    requires i < |rows|
    ensures latest < |rows|
    decreases |rows| - i
  {
    match rows[i].replacedBy
    case Some(j) => if i < j < |rows| then Latest(rows, j) else i
    case None => i
  }

  lemma {:induction false} LatestOfLogin(rows: seq<Session>, i: nat)
    requires Ok(rows) && i < |rows|
    ensures Latest(rows, Login(rows, i)) == Latest(rows, i)
    decreases i
  {
    if exists p :: Precedes(rows, p, i) {
      var p :| Precedes(rows, p, i) && Login(rows, i) == Login(rows, p);
      assert EdgeOk(rows, p);
      LatestOfLogin(rows, p);
    }
  }

  /** Among the descendants of one login, only the newest can be live. */
  lemma OneLiveSessionPerLogin(rows: seq<Session>, i: nat, j: nat)
    requires Ok(rows) && i < |rows| && j < |rows| && Login(rows, i) == Login(rows, j) && Live(rows[i])
    ensures Latest(rows, Login(rows, i)) == i
    ensures Live(rows[j]) ==> i == j
  {
    LatestOfLogin(rows, i);
    LatestOfLogin(rows, j);
    assert EdgeOk(rows, i) && EdgeOk(rows, j);
  }

  lemma SameEdgesSameLogin(before: seq<Session>, after: seq<Session>, i: nat)
    requires Ok(before) && Ok(after) && i < |before| <= |after|
    requires forall k: nat, p | k <= i :: Precedes(before, p, k) <==> Precedes(after, p, k)
    ensures Login(after, i) == Login(before, i)
    decreases i
  {
    if exists p :: Precedes(before, p, i) {
      var p :| Precedes(before, p, i) && Login(before, i) == Login(before, p);
      assert Precedes(after, p, i) && EdgeOk(before, p);
      forall q | Precedes(after, q, i)
        ensures q == p
      {
      }
      SameEdgesSameLogin(before, after, p);
    }
  }

  /** A step never moves a session to another login, and a rotation continues the login of the token presented. */
  lemma LoginStays(rows: seq<Session>, action: Action, i: nat)
    requires Ok(rows) && i < |rows|
    ensures Ok(Next(rows, action)) && i < |Next(rows, action)| && Login(Next(rows, action), i) == Login(rows, i)
    ensures action.Claim? && ClaimAnswer(rows, action.oldHash, action.newHash, action.now) == Rotated(i) ==>
              |Next(rows, action)| == |rows| + 1 && Login(Next(rows, action), |rows|) == Login(rows, i)
  {
    var next := Next(rows, action);
    NextKeeps(rows, action);
    forall k: nat, p | k <= i
      ensures Precedes(rows, p, k) <==> Precedes(next, p, k)
    {
      if 0 <= p < |rows| {
        assert EdgeOk(rows, p);
      }
    }
    SameEdgesSameLogin(rows, next, i);
    if action.Claim? && ClaimAnswer(rows, action.oldHash, action.newHash, action.now) == Rotated(i) {
      assert Precedes(next, i, |rows|);
      forall q | Precedes(next, q, |rows|)
        ensures q == i
      {
      }
    }
  }

  // ---- Revoking everything ----

  ghost predicate NoneLive(rows: seq<Session>, account: int, visible: nat) {
    forall i | 0 <= i < |rows| && i < visible && rows[i].account == account :: !Live(rows[i])
  }

  /** What a RevokeAllForAccount saw stays revoked for good; only what its snapshot missed can be live behind it. */
  lemma RevokeAllHolds(rows: seq<Session>, account: int, visible: nat, now: int, actions: seq<Action>)
    requires Ok(rows) && visible <= |rows|
    ensures NoneLive(Exec(RevokeAllRows(rows, account, visible, now), actions), account, visible)
    ensures NoneLive(RevokeAllRows(rows, account, visible, now), account, |rows|) <==>
            forall i | visible <= i < |rows| && rows[i].account == account :: !Live(rows[i])
  {
    var done := RevokeAllRows(rows, account, visible, now);
    NextKeeps(rows, RevokeAll(account, visible, now));
    RunKeeps(done, actions);
    forall i | 0 <= i < visible && done[i].account == account
      ensures !Live(Exec(done, actions)[i])
    {
      assert Aged(done[i], Exec(done, actions)[i]);
    }
    forall i | visible <= i < |rows|
      ensures done[i] == rows[i]
    {
    }
  }

  const ROTATED: seq<Session> := [Session(1, 10, 99, Some(5), Some(1)), Session(1, 11, 99, None, None)]

  lemma LoginThenRotation()
    ensures Exec([], [Create(1, 10, 99), Claim(10, 11, 99, 5)]) == ROTATED && Ok(ROTATED)
  {
    var first, claim := Create(1, 10, 99), Claim(10, 11, 99, 5);
    assert [first, claim][..1] == [first] && [first][..0] == [];
    var one := [Session(1, 10, 99, None, None)];
    assert Exec([], []) == [] && Exec([], [first]) == one;
    assert one[..0] == [] && Find(one, 10) == Some(0) && Find(one, 11) == None;
    assert EdgeOk(ROTATED, 0) && EdgeOk(ROTATED, 1);
  }

  /** A rotation in flight when a reused token is answered outlives the answer. */
  lemma RotationInFlightSurvives()
    ensures Exec([], [Create(1, 10, 99), Claim(10, 11, 99, 5)]) == ROTATED && Ok(ROTATED)
    ensures ClaimAnswer(ROTATED, 10, 13, 6) == Reused(1)
    ensures var moved := ClaimRows(ROTATED, 11, 12, 99, 6);
            |moved| == 3 && Live(RevokeAllRows(moved, 1, |ROTATED|, 7)[2])
  {
    LoginThenRotation();
    assert ROTATED[..1] == [ROTATED[0]] && [ROTATED[0]][..0] == [];
    assert Find([ROTATED[0]], 12) == None;
    assert Find(ROTATED, 10) == Some(0) && Find(ROTATED, 11) == Some(1) && Find(ROTATED, 12) == None;
  }

  /** The table after others ran `gap`, a RevokeAllForAccount took its snapshot, others ran `inFlight`, and it wrote. */
  function Purged(rows: seq<Session>, account: int, gap: seq<Action>, inFlight: seq<Action>, works: bool,
                  now: int): seq<Session> {
    var visible := Exec(rows, gap);
    var moved := Exec(visible, inFlight);
    if works then RevokeAllRows(moved, account, |visible|, now) else moved
  }

  lemma PurgedKeeps(rows: seq<Session>, account: int, gap: seq<Action>, inFlight: seq<Action>, works: bool, now: int)
    requires Ok(rows)
    ensures var purged := Purged(rows, account, gap, inFlight, works, now);
            && Ok(purged) && Later(rows, purged) && (works ==> NoneLive(purged, account, |rows|))
  {
    var visible := Exec(rows, gap);
    var moved := Exec(visible, inFlight);
    RunKeeps(rows, gap);
    RunKeeps(visible, inFlight);
    LaterIsTransitive(rows, visible, moved);
    if works {
      var purged := RevokeAllRows(moved, account, |visible|, now);
      NextKeeps(moved, RevokeAll(account, |visible|, now));
      LaterIsTransitive(rows, moved, purged);
      RevokeAllHolds(moved, account, |visible|, now, []);
    }
  }

  lemma LaterIsTransitive(a: seq<Session>, b: seq<Session>, c: seq<Session>)
    requires Later(a, b) && Later(b, c)
    ensures Later(a, c)
  {
    forall i | 0 <= i < |a|
      ensures Aged(a[i], c[i])
    {
      assert Aged(a[i], b[i]) && Aged(b[i], c[i]);
    }
  }

  // ---- The service ----

  /** Session i is revoked and replaced by one new session of its account; nothing else changes. */
  predicate Replaces(before: seq<Session>, after: seq<Session>, i: nat, newHash: int, expiresAt: int, now: int) {
    && i < |before| && before[i].revokedAt == None && now <= before[i].expiresAt
    && |after| == |before| + 1
    && after[i] == before[i].(revokedAt := Some(now), replacedBy := Some(|before|))
    && after[|before|] == Session(before[i].account, newHash, expiresAt, None, None)
    && forall k | 0 <= k < |before| && k != i :: after[k] == before[k]
  }

  /** The token is that of a session neither revoked nor expired. */
  predicate Usable(rows: seq<Session>, hash: int, now: int) {
    exists i | 0 <= i < |rows| :: rows[i].hash == hash && rows[i].revokedAt == None && now <= rows[i].expiresAt
  }

  predicate TokenRevoked(rows: seq<Session>, hash: int) {
    exists i | 0 <= i < |rows| :: rows[i].hash == hash && rows[i].revokedAt.Some?
  }

  predicate HashTaken(rows: seq<Session>, hash: int) {
    exists i | 0 <= i < |rows| :: rows[i].hash == hash
  }

  /** The answer to a presented token in terms of the rows alone. */
  lemma AnswersExactly(rows: seq<Session>, oldHash: int, newHash: int, now: int)
    requires Ok(rows)
    ensures var answer := ClaimAnswer(rows, oldHash, newHash, now);
            && (answer.Rotated? <==> Usable(rows, oldHash, now) && !HashTaken(rows, newHash))
            && (answer == Clash <==> Usable(rows, oldHash, now) && HashTaken(rows, newHash))
            && (answer.Reused? <==> TokenRevoked(rows, oldHash))
            && (answer == Missing <==> !Usable(rows, oldHash, now) && !TokenRevoked(rows, oldHash))
  {
    forall i | 0 <= i < |rows| && rows[i].hash == oldHash
      ensures Find(rows, oldHash) == Some(i)
    {
      FindIsUnique(rows, i);
    }
  }

  // ---- When tokens are rotated ----

  /** A session was replaced no later than it expired. */
  predicate InTime(session: Session) {
    session.replacedBy.Some? ==> session.revokedAt.Some? && session.revokedAt.value <= session.expiresAt
  }

  /** On every run no session is replaced after its expiry. */
  lemma {:induction false} ReplacedInTime(actions: seq<Action>, i: nat)
    requires i < |Exec([], actions)|
    ensures InTime(Exec([], actions)[i])
  {
    var last := |actions| - 1;
    var before := Exec([], actions[..last]);
    RunKeeps([], actions[..last]);
    if i < |before| {
      ReplacedInTime(actions[..last], i);
      AnswersAt(before, actions[last]);
    }
  }

  lemma AnswersAt(rows: seq<Session>, action: Action)
    requires Ok(rows)
    ensures action.Claim? && ClaimAnswer(rows, action.oldHash, action.newHash, action.now).Rotated? ==>
              Usable(rows, action.oldHash, action.now)
    ensures Ok(Next(rows, action)) && Later(rows, Next(rows, action))
  {
    NextKeeps(rows, action);
    if action.Claim? {
      AnswersExactly(rows, action.oldHash, action.newHash, action.now);
    }
  }

  datatype AccountRead = Unreadable | Active | Inactive
  datatype Refreshed = Tokens(hash: int) | Invalid | Blocked | Failed

  class CustomerAuthService {
    var rows: seq<Session>

    ghost predicate Valid()
      reads this
    {
      Ok(rows)
    }

    constructor ()
      ensures Valid() && rows == []
    {
      rows := [];
    }

    method Others(actions: seq<Action>)
      requires Valid()
      modifies this
      ensures Valid() && rows == Exec(old(rows), actions)
    {
      for i := 0 to |actions|
        invariant Valid() && rows == Exec(old(rows), actions[..i])
      {
        assert actions[..i + 1][..i] == actions[..i];
        NextKeeps(rows, actions[i]);
        match actions[i] {
          case Create(account, hash, expiresAt) => var _ := IssueTokens(account, hash, expiresAt);
          case Claim(oldHash, newHash, expiresAt, now) =>
            var _ := ClaimForRotation(oldHash, newHash, expiresAt, now);
          case Revoke(id, now) => RevokeSession(id, now);
          case RevokeAll(account, visible, now) => RevokeAllForAccount(account, visible, now);
        }
      }
      assert actions[..|actions|] == actions;
    }

    method Lookup(hash: int) returns (found: Option<nat>)
      ensures found == Find(rows, hash)
    {
      var i := |rows|;
      assert rows[..i] == rows;
      while i > 0
        invariant 0 <= i <= |rows| && Find(rows, hash) == Find(rows[..i], hash)
      {
        i := i - 1;
        assert rows[..i + 1][..i] == rows[..i];
        if rows[i].hash == hash {
          return Some(i);
        }
      }
      return None;
    }

    method IssueTokens(account: int, hash: int, expiresAt: int) returns (ok: bool)
      modifies this
      ensures ok <==> forall i | 0 <= i < |old(rows)| :: old(rows)[i].hash != hash
      ensures rows == if ok then old(rows) + [Session(account, hash, expiresAt, None, None)] else old(rows)
      ensures rows == CreateRows(old(rows), account, hash, expiresAt)
    {
      var taken := Lookup(hash);
      ok := taken.None?;
      if ok {
        rows := rows + [Session(account, hash, expiresAt, None, None)];
      }
    }

    method ClaimForRotation(oldHash: int, newHash: int, expiresAt: int, now: int) returns (answer: Claimed)
      modifies this
      ensures answer == ClaimAnswer(old(rows), oldHash, newHash, now)
      ensures rows == ClaimRows(old(rows), oldHash, newHash, expiresAt, now)
      ensures !answer.Rotated? ==> rows == old(rows)
      ensures answer.Rotated? ==> Replaces(old(rows), rows, answer.id, newHash, expiresAt, now)
    {
      var found := Lookup(oldHash);
      if found.None? {
        return Missing;
      }
      var session := rows[found.value];
      if session.revokedAt.Some? {
        return Reused(session.account);
      }
      if now > session.expiresAt {
        return Missing;
      }
      var taken := Lookup(newHash);
      if taken.Some? {
        return Clash;
      }
      var replacement := |rows|;
      rows := rows + [Session(session.account, newHash, expiresAt, None, None)];
      rows := rows[found.value := session.(revokedAt := Some(now), replacedBy := Some(replacement))];
      return Rotated(found.value);
    }

    method RevokeSession(id: nat, now: int)
      modifies this
      ensures rows == RevokeRows(old(rows), id, now)
      ensures |rows| == |old(rows)| && forall i | 0 <= i < |rows| ::
                rows[i] == if i == id && old(rows)[i].revokedAt == None then old(rows)[i].(revokedAt := Some(now))
                           else old(rows)[i]
    {
      if id < |rows| && rows[id].revokedAt.None? {
        rows := rows[id := rows[id].(revokedAt := Some(now))];
      }
    }

    method RevokeAllForAccount(account: int, visible: nat, now: int)
      modifies this
      ensures rows == RevokeAllRows(old(rows), account, visible, now)
      ensures |rows| == |old(rows)| && forall i | 0 <= i < |rows| ::
                rows[i] ==
                if i < visible && old(rows)[i].account == account && old(rows)[i].revokedAt == None
                then old(rows)[i].(revokedAt := Some(now)) else old(rows)[i]
    {
      var i := 0;
      while i < |rows| && i < visible
        invariant 0 <= i <= |rows| == |old(rows)|
        invariant rows == RevokeAllRows(old(rows), account, if i < visible then i else visible, now)
      {
        if rows[i].account == account && rows[i].revokedAt.None? {
          rows := rows[i := rows[i].(revokedAt := Some(now))];
        }
        i := i + 1;
      }
    }

    /** A failed revocation is only logged. */
    method Purge(account: int, gap: seq<Action>, inFlight: seq<Action>, works: bool, now: int)
      requires Valid()
      modifies this
      ensures Valid() && rows == Purged(old(rows), account, gap, inFlight, works, now)
      ensures Later(old(rows), rows) && (works ==> NoneLive(rows, account, |old(rows)|))
    {
      PurgedKeeps(rows, account, gap, inFlight, works, now);
      Others(gap);
      var visible := |rows|;
      Others(inFlight);
      if works {
        RevokeAllForAccount(account, visible, now);
      }
    }

    /**
     Tokens go only to the presenter of a live, unexpired token of an active account, and spend it. A reused token or
     a blocked account costs the account every session it had.
     */
    method Refresh(oldHash: int, newHash: int, expiresAt: int, now: int, read: AccountRead, works: bool,
                   gap: seq<Action>, inFlight: seq<Action>) returns (result: Refreshed)
      requires Valid()
      modifies this
      ensures Valid() && Later(old(rows), rows)
      ensures result.Tokens? <==> ClaimAnswer(old(rows), oldHash, newHash, now).Rotated? && read == Active
      ensures result == Invalid <==> ClaimAnswer(old(rows), oldHash, newHash, now).Reused?
                                     || ClaimAnswer(old(rows), oldHash, newHash, now) == Missing
      ensures result.Tokens? ==> result.hash == newHash
      ensures result.Tokens? <==>
                read == Active && Usable(old(rows), oldHash, now) && !HashTaken(old(rows), newHash)
      ensures result == Invalid <==> !Usable(old(rows), oldHash, now)
      ensures Usable(old(rows), oldHash, now) && !HashTaken(old(rows), newHash) ==>
                |rows| > |old(rows)| && rows[|old(rows)|].hash == newHash && rows[|old(rows)|].expiresAt == expiresAt
      ensures !Usable(old(rows), oldHash, now) && !TokenRevoked(old(rows), oldHash) ==> rows == Exec(old(rows), gap)
      ensures match ClaimAnswer(old(rows), oldHash, newHash, now)
              case Rotated(i) =>
                && ClaimRows(old(rows), oldHash, newHash, expiresAt, now)[i] == rows[i]
                && |rows| > |old(rows)| && rows[i].replacedBy == Some(|old(rows)|)
                && rows[|old(rows)|].hash == newHash && rows[|old(rows)|].account == rows[i].account
                && (read == Inactive ==> result == Blocked)
                && (read == Inactive && works ==> NoneLive(rows, rows[i].account, |old(rows)| + 1))
                && (read == Unreadable ==> result == Failed)
              case Reused(account) => works ==> NoneLive(rows, account, |old(rows)|)
              case Missing => rows == Exec(old(rows), gap)
              case Clash => result == Failed && rows == Exec(old(rows), gap)
    {
      NextKeeps(rows, Claim(oldHash, newHash, expiresAt, now));
      AnswersExactly(rows, oldHash, newHash, now);
      var answer := ClaimForRotation(oldHash, newHash, expiresAt, now);
      ghost var claimed := rows;
      RunKeeps(rows, gap);
      LaterIsTransitive(old(rows), rows, Exec(rows, gap));
      match answer {
        case Reused(account) =>
          Purge(account, gap, inFlight, works, now);
          return Invalid;
        case Missing =>
          Others(gap);
          return Invalid;
        case Clash =>
          Others(gap);
          return Failed;
        case Rotated(i) =>
          assert !Live(claimed[i]);
          if read == Inactive {
            Purge(rows[i].account, gap, inFlight, works, now);
            LaterIsTransitive(old(rows), claimed, rows);
          } else {
            Others(gap);
          }
          assert Aged(claimed[i], rows[i]) && Aged(claimed[|claimed| - 1], rows[|claimed| - 1]);
          return match read case Unreadable => Failed case Inactive => Blocked case Active => Tokens(newHash);
      }
    }

    /** Logging out twice, or with an unknown token, changes nothing more. */
    method Logout(hash: int, now: int, gap: seq<Action>)
      requires Valid()
      modifies this
      ensures Valid() && Later(old(rows), rows)
      ensures match Find(old(rows), hash)
              case None => rows == old(rows)
              case Some(i) => rows == RevokeRows(Exec(old(rows), gap), i, now) && i < |rows| && !Live(rows[i])
    {
      var found := Lookup(hash);
      if found.Some? {
        RunKeeps(rows, gap);
        Others(gap);
        NextKeeps(rows, Revoke(found.value, now));
        LaterIsTransitive(old(rows), rows, RevokeRows(rows, found.value, now));
        RevokeSession(found.value, now);
      }
    }

    method LogoutAll(account: int, now: int, inFlight: seq<Action>)
      requires Valid()
      modifies this
      ensures Valid() && NoneLive(rows, account, |old(rows)|)
      ensures rows == Purged(old(rows), account, [], inFlight, true, now)
    {
      Purge(account, [], inFlight, true, now);
    }
  }
}
