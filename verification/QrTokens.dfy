/** One-time QR tokens: claim, then finalize or release, with expiring keys, crashes and lost replies. Times in ms. */
module QrTokens {

  /** A Redis key with its value and the time it disappears. */
  datatype Key = Key(account: int, expireAt: int)

  /** qr:token and qr:claim keys by token hash. */
  datatype Keys = Keys(active: map<int, Key>, claims: map<int, Key>)

  const CLAIM_TTL: int := 30_000

  /** Redis keeps a key through the millisecond of its expiry. */
  predicate Present(keys: map<int, Key>, hash: int, now: int) {
    hash in keys && now <= keys[hash].expireAt
  }

  function ClaimKeys(k: Keys, hash: int, now: int): Keys {
    if !Present(k.active, hash, now) then k
    else Keys(k.active - {hash}, k.claims[hash := Key(k.active[hash].account, now + CLAIM_TTL)])
  }

  function FinalizeKeys(k: Keys, hash: int): Keys {
    k.(claims := k.claims - {hash})
  }

  /** Back to active for whatever time the claim had left, in its very last millisecond for a whole claim TTL. */
  function ReleaseKeys(k: Keys, hash: int, now: int): Keys {
    if !Present(k.claims, hash, now) then k
    else
      var left := k.claims[hash].expireAt - now;
      var ttl := if left <= 0 then CLAIM_TTL else left;
      Keys(k.active[hash := Key(k.claims[hash].account, now + ttl)], k.claims - {hash})
  }

  // ---- The store and the service ----

  /** What ResolveQR's database reads find. */
  datatype AccountRead = NoAccount | AccountError | Blocked | Usable
  datatype Reads = Reads(account: AccountRead, clientOk: bool, balanceOk: bool)

  datatype Ending = Consumed(success: bool) | Released

  /** Which way a resolve that holds the claim ends: only an infrastructure failure gives the token back. */
  function EndingOf(found: Reads): Ending {
    match found.account
    case NoAccount => Consumed(false)
    case AccountError => Released
    case Blocked => Consumed(false)
    case Usable => if found.clientOk && found.balanceOk then Consumed(true) else Released
  }

  function End(k: Keys, hash: int, ending: Ending, now: int): Keys {
    if ending.Released? then ReleaseKeys(k, hash, now) else FinalizeKeys(k, hash)
  }

  datatype IssueResult = Issued | CoolingDown | IssueFailed
  datatype Resolved = Identified(account: int) | Gone | Failed

  class QrService {
    var keys: Keys
    var cooldowns: map<int, int>  // end of the issue cooldown by account
    var finalized: nat
    var released: nat

    constructor ()
      ensures keys == Keys(map[], map[]) && cooldowns == map[]
    {
      keys, cooldowns, finalized, released := Keys(map[], map[]), map[], 0, 0;
    }

    /**
     A cooldown of zero or less is not enforced. When storing the token fails, the cooldown stays: the deferred
     release looks at an inner error that is nil by then.
     */
    method Issue(account: int, hash: int, now: int, ttl: int, cooldown: int, stored: bool) returns (result: IssueResult)
      modifies this`keys, this`cooldowns
      ensures result == CoolingDown <==> cooldown > 0 && account in old(cooldowns) && now <= old(cooldowns)[account]
      ensures result == Issued <==> stored && result != CoolingDown
      ensures result == Issued ==> keys == old(keys).(active := old(keys).active[hash := Key(account, now + ttl)])
      ensures result != Issued ==> keys == old(keys)
      ensures cooldowns == if result != CoolingDown && cooldown > 0 then old(cooldowns)[account := now + cooldown]
                           else old(cooldowns)
    {
      if cooldown > 0 {
        if account in cooldowns && now <= cooldowns[account] {
          return CoolingDown;
        }
        cooldowns := cooldowns[account := now + cooldown];
      }
      if !stored {
        return IssueFailed;
      }
      keys := keys.(active := keys.active[hash := Key(account, now + ttl)]);
      return Issued;
    }

    method Claim(hash: int, now: int) returns (ok: bool, account: int)
      modifies this`keys
      ensures ok <==> Present(old(keys).active, hash, now)
      ensures ok ==> account == old(keys).active[hash].account
      ensures keys == ClaimKeys(old(keys), hash, now)
    {
      if !Present(keys.active, hash, now) {
        return false, 0;
      }
      account := keys.active[hash].account;
      keys := Keys(keys.active - {hash}, keys.claims[hash := Key(account, now + CLAIM_TTL)]);
      ok := true;
    }

    method Finalize(hash: int)
      modifies this`keys, this`finalized
      ensures keys == FinalizeKeys(old(keys), hash) && finalized == old(finalized) + 1
    {
      keys := keys.(claims := keys.claims - {hash});
      finalized := finalized + 1;
    }

    method Release(hash: int, now: int)
      modifies this`keys, this`released
      ensures keys == ReleaseKeys(old(keys), hash, now) && released == old(released) + 1
    {
      released := released + 1;
      if Present(keys.claims, hash, now) {
        var key := keys.claims[hash];
        var ttl := key.expireAt - now;
        if ttl <= 0 {
          ttl := CLAIM_TTL;
        }
        keys := Keys(keys.active[hash := Key(key.account, now + ttl)], keys.claims - {hash});
      }
    }

    /** Every path behind a successful claim ends in exactly one of finalize and release. */
    method ResolveQr(hash: int, found: Reads, claimedAt: int, endedAt: int) returns (result: Resolved)
      modifies this`keys, this`finalized, this`released
      ensures var held := Present(old(keys).active, hash, claimedAt);
              && (finalized - old(finalized)) + (released - old(released)) == (if held then 1 else 0)
              && finalized >= old(finalized) && released >= old(released)
              && (released > old(released) <==> held && EndingOf(found).Released?)
              && result == (if !held then Gone
                            else match EndingOf(found)
                              case Released => Failed
                              case Consumed(success) =>
                                if success then Identified(old(keys).active[hash].account) else Gone)
              && keys == (if !held then old(keys)
                          else End(ClaimKeys(old(keys), hash, claimedAt), hash, EndingOf(found), endedAt))
      ensures var held := hash in old(keys).active && claimedAt <= old(keys).active[hash].expireAt;
              var answered := found.account == Usable && found.clientOk && found.balanceOk;
              && (result.Identified? <==> held && answered)
              && (result.Identified? ==> result.account == old(keys).active[hash].account)
              && (result == Gone <==> !held || found.account == NoAccount || found.account == Blocked)
              && (released > old(released) <==>
                    held && (found.account == AccountError || (found.account == Usable && !answered)))
              && (held && released == old(released) ==> hash !in keys.active && hash !in keys.claims)
              && (released > old(released) && claimedAt <= endedAt <= claimedAt + 30_000 ==>
                    && hash in keys.active && endedAt <= keys.active[hash].expireAt
                    && keys.active[hash].account == old(keys).active[hash].account)
              && (forall other | other != hash ::
                    && (other in keys.active <==> other in old(keys).active)
                    && (other in keys.active ==> keys.active[other] == old(keys).active[other]))
    {
      var ok, account := Claim(hash, claimedAt);
      if !ok {
        return Gone;
      }
      if found.account == NoAccount {
        Finalize(hash);
        return Gone;
      }
      if found.account == AccountError {
        Release(hash, endedAt);
        return Failed;
      }
      if found.account == Blocked {
        Finalize(hash);
        return Gone;
      }
      if !found.clientOk {
        Release(hash, endedAt);
        return Failed;
      }
      if !found.balanceOk {
        Release(hash, endedAt);
        return Failed;
      }
      Finalize(hash);
      return Identified(account);
    }
  }

  // ---- Many resolvers ----

  /**
   issued: the account each token was issued to; until: the end of its issue TTL; claimed and
   released: its last claim and release; holders: the token each running resolve holds; wins: successes.
   */
  datatype Sys = Sys(
    now: int, keys: Keys, issued: map<int, int>, until: map<int, int>, claimed: map<int, int>,
    released: map<int, int>, holders: map<int, int>, wins: map<int, nat>)

  const START: Sys := Sys(0, Keys(map[], map[]), map[], map[], map[], map[], map[], map[])

  /** Issue takes an unused random hash; lost means the command failed or never ran; a crashed resolve just stops. */
  datatype Action =
    | Tick(elapsed: nat)
    | Issue(hash: int, account: int, ttl: int)
    | Claim(resolver: int, hash: int)
    | ClaimUnanswered(hash: int)
    | Finish(resolver: int, found: Reads, lost: bool)
    | Crash(resolver: int)

  function WinsOf(sys: Sys, hash: int): nat {
    if hash in sys.wins then sys.wins[hash] else 0
  }

  function Next(sys: Sys, action: Action): Sys {
    match action
    case Tick(elapsed) => sys.(now := sys.now + elapsed)
    case Issue(hash, account, ttl) =>
      if hash in sys.issued then sys
      else sys.(issued := sys.issued[hash := account], until := sys.until[hash := sys.now + ttl],
                keys := sys.keys.(active := sys.keys.active[hash := Key(account, sys.now + ttl)]))
    case Claim(resolver, hash) =>
      if resolver in sys.holders || !Present(sys.keys.active, hash, sys.now) then sys
      else sys.(keys := ClaimKeys(sys.keys, hash, sys.now), claimed := sys.claimed[hash := sys.now],
                holders := sys.holders[resolver := hash])
    case ClaimUnanswered(hash) =>
      if !Present(sys.keys.active, hash, sys.now) then sys
      else sys.(keys := ClaimKeys(sys.keys, hash, sys.now), claimed := sys.claimed[hash := sys.now])
    case Finish(resolver, found, lost) =>
      if resolver !in sys.holders then sys
      else
        var hash, ending := sys.holders[resolver], EndingOf(found);
        sys.(holders := sys.holders - {resolver},
             released := if !lost && ending.Released? && Present(sys.keys.claims, hash, sys.now)
                         then sys.released[hash := sys.now] else sys.released,
             keys := if lost then sys.keys else End(sys.keys, hash, ending, sys.now),
             wins := if ending == Consumed(true) then sys.wins[hash := WinsOf(sys, hash) + 1] else sys.wins)
    case Crash(resolver) => sys.(holders := sys.holders - {resolver})
  }

  function Exec(sys: Sys, actions: seq<Action>): Sys {
    if actions == [] then sys else Next(Exec(sys, actions[..|actions| - 1]), actions[|actions| - 1])
  }

  predicate Held(sys: Sys, resolver: int, hash: int) {
    resolver in sys.holders && sys.holders[resolver] == hash
  }

  predicate Names(keys: map<int, Key>, issued: map<int, int>, hash: int) {
    hash in keys ==> hash in issued && keys[hash].account == issued[hash]
  }

  /** While held, and once won, a token has no active key; a won token is held by nobody and was won once. */
  ghost predicate TokenOk(sys: Sys, hash: int) {
    && Names(sys.keys.active, sys.issued, hash) && Names(sys.keys.claims, sys.issued, hash)
    && (hash in sys.keys.active ==> WinsOf(sys, hash) == 0)
    && (hash in sys.keys.active ==> forall r :: !Held(sys, r, hash))
    && (forall r | Held(sys, r, hash) :: hash in sys.issued && WinsOf(sys, hash) == 0)
    && (forall r, q | Held(sys, r, hash) && Held(sys, q, hash) :: r == q)
    && (hash in sys.wins ==> hash in sys.issued)
    && WinsOf(sys, hash) <= 1
  }

  ghost predicate SysOk(sys: Sys) {
    forall hash :: TokenOk(sys, hash)
  }

  lemma ClaimKeeps(sys: Sys, action: Action, hash: int)
    requires TokenOk(sys, hash) && (action.Claim? || action.ClaimUnanswered?)
    ensures TokenOk(Next(sys, action), hash) && WinsOf(Next(sys, action), hash) == WinsOf(sys, hash)
  {
    var next := Next(sys, action);
    assert forall r | Held(next, r, hash) :: Held(sys, r, hash) || action == Claim(r, hash);
  }

  lemma FinishKeeps(sys: Sys, action: Action, hash: int)
    requires TokenOk(sys, hash) && action.Finish?
    ensures TokenOk(Next(sys, action), hash) && WinsOf(sys, hash) <= WinsOf(Next(sys, action), hash)
  {
    var next := Next(sys, action);
    assert forall r | Held(next, r, hash) :: Held(sys, r, hash);
    if action.resolver in sys.holders {
      assert Held(sys, action.resolver, sys.holders[action.resolver]);
    }
  }

  lemma NextKeeps(sys: Sys, action: Action, hash: int)
    requires SysOk(sys)
    ensures TokenOk(Next(sys, action), hash)
    ensures WinsOf(sys, hash) <= WinsOf(Next(sys, action), hash)
  {
    assert TokenOk(sys, hash);
    match action
    case Claim(_, _) => ClaimKeeps(sys, action, hash);
    case ClaimUnanswered(_) => ClaimKeeps(sys, action, hash);
    case Finish(_, _, _) => FinishKeeps(sys, action, hash);
    case _ =>
      var next := Next(sys, action);
      assert forall r | Held(next, r, hash) :: Held(sys, r, hash);
  }

  /** Under every interleaving, expiry, crash and lost command: one holder and one success per token, then inactive. */
  lemma {:induction false} OneTimeUse(sys: Sys, actions: seq<Action>)
    requires SysOk(sys)
    ensures SysOk(Exec(sys, actions))
    ensures forall hash :: WinsOf(sys, hash) <= WinsOf(Exec(sys, actions), hash)
  {
    if actions != [] {
      var before := Exec(sys, actions[..|actions| - 1]);
      OneTimeUse(sys, actions[..|actions| - 1]);
      forall hash
        ensures TokenOk(Exec(sys, actions), hash) && WinsOf(sys, hash) <= WinsOf(Exec(sys, actions), hash)
      {
        NextKeeps(before, actions[|actions| - 1], hash);
      }
    }
  }

  /** A token resolved once is never active, held or resolved again. */
  lemma ResolvedIsSpent(actions: seq<Action>, later: seq<Action>, hash: int)
    requires WinsOf(Exec(START, actions), hash) > 0
    ensures var end := Exec(Exec(START, actions), later);
            && WinsOf(end, hash) == 1 && hash !in end.keys.active && forall r :: !Held(end, r, hash)
  {
    OneTimeUse(START, actions);
    OneTimeUse(Exec(START, actions), later);
    assert TokenOk(Exec(Exec(START, actions), later), hash);
  }

  /** Issued, and in nobody's reach: neither active nor held. */
  ghost predicate Spent(sys: Sys, hash: int) {
    hash in sys.issued && hash !in sys.keys.active && forall r :: !Held(sys, r, hash)
  }

  lemma SpentStays(sys: Sys, action: Action, hash: int)
    requires Spent(sys, hash)
    ensures Spent(Next(sys, action), hash)
  {
    if action.Finish? && action.resolver in sys.holders {
      assert Held(sys, action.resolver, sys.holders[action.resolver]);
    }
    assert forall r | Held(Next(sys, action), r, hash) :: Held(sys, r, hash) || action == Claim(r, hash);
  }

  lemma {:induction false} SpentForGood(sys: Sys, actions: seq<Action>, hash: int)
    requires Spent(sys, hash)
    ensures Spent(Exec(sys, actions), hash)
  {
    if actions != [] {
      SpentForGood(sys, actions[..|actions| - 1], hash);
      SpentStays(Exec(sys, actions[..|actions| - 1]), actions[|actions| - 1], hash);
    }
  }

  /**
   A resolve that found everything, or no account, or a blocked one, ends its token for good, even if the command was
   lost; one that met a fault gives it back while its claim lasts, unless the command was lost.
   */
  lemma FinishedTokens(actions: seq<Action>, resolver: int, hash: int, found: Reads, lost: bool, later: seq<Action>)
    requires Held(Exec(START, actions), resolver, hash)
    ensures var sys := Exec(START, actions);
            var end := Next(sys, Finish(resolver, found, lost));
            var fault := found.account == AccountError
                         || (found.account == Usable && !(found.clientOk && found.balanceOk));
            && (!fault ==> Spent(Exec(end, later), hash))
            && (fault && !lost && hash in sys.keys.claims && sys.now <= sys.keys.claims[hash].expireAt ==>
                  hash in end.keys.active && sys.now <= end.keys.active[hash].expireAt && WinsOf(end, hash) == 0)
  {
    var sys := Exec(START, actions);
    OneTimeUse(START, actions);
    assert TokenOk(sys, hash);
    var end := Next(sys, Finish(resolver, found, lost));
    assert forall r | Held(end, r, hash) :: Held(sys, r, hash) && r != resolver;
    if found.account == NoAccount || found.account == Blocked
       || (found.account == Usable && found.clientOk && found.balanceOk) {
      SpentForGood(end, later, hash);
    }
  }

  /** An uninterrupted resolve is what QrService.ResolveQr does to the keys. */
  lemma ResolveInTheMachine(sys: Sys, resolver: int, hash: int, elapsed: nat, found: Reads)
    requires SysOk(sys) && resolver !in sys.holders && Present(sys.keys.active, hash, sys.now)
    ensures var end := Exec(sys, [Claim(resolver, hash), Tick(elapsed), Finish(resolver, found, false)]);
            && end.keys == End(ClaimKeys(sys.keys, hash, sys.now), hash, EndingOf(found), sys.now + elapsed)
            && end.holders == sys.holders
            && WinsOf(end, hash) == (if EndingOf(found) == Consumed(true) then 1 else 0)
            && hash in sys.issued && sys.keys.active[hash].account == sys.issued[hash]
  {
    assert TokenOk(sys, hash);
    var claim, tick, finish := Claim(resolver, hash), Tick(elapsed), Finish(resolver, found, false);
    assert [claim, tick, finish][..2] == [claim, tick];
    assert [claim, tick][..1] == [claim];
    assert [claim][..0] == [];
    assert Exec(sys, [claim]) == Next(sys, claim);
    assert Exec(sys, [claim, tick]) == Next(Next(sys, claim), tick);
    assert Exec(sys, [claim, tick, finish]) == Next(Next(Next(sys, claim), tick), finish);
    assert sys.holders[resolver := hash] - {resolver} == sys.holders;
  }

  // ---- How long a token lives ----

  /** The issue TTL, or the last claim's end; a release in the claim's last millisecond starts another claim TTL. */
  function EndOfLife(sys: Sys, hash: int): int
    requires hash in sys.until
  {
    if hash !in sys.claimed then sys.until[hash]
    else if hash in sys.released && sys.released[hash] == sys.claimed[hash] + CLAIM_TTL
      then sys.claimed[hash] + 2 * CLAIM_TTL
    else sys.claimed[hash] + CLAIM_TTL
  }

  ghost predicate ExpiryOk(sys: Sys, hash: int) {
    && (hash in sys.issued <==> hash in sys.until)
    && (hash in sys.claimed ==> sys.claimed[hash] <= sys.now && hash in sys.issued)
    && (hash in sys.released ==> sys.released[hash] <= sys.now)
    && (hash in sys.keys.claims ==>
          && hash in sys.claimed && sys.keys.claims[hash].expireAt == sys.claimed[hash] + CLAIM_TTL
          && (hash in sys.released ==> sys.released[hash] <= sys.claimed[hash]))
    && (hash in sys.keys.active ==> hash in sys.until && sys.keys.active[hash].expireAt == EndOfLife(sys, hash))
  }

  lemma NextKeepsExpiry(sys: Sys, action: Action, hash: int)
    requires ExpiryOk(sys, hash)
    ensures ExpiryOk(Next(sys, action), hash)
  {
  }

  lemma {:induction false} ExpiryKept(sys: Sys, actions: seq<Action>, hash: int)
    requires ExpiryOk(sys, hash)
    ensures ExpiryOk(Exec(sys, actions), hash)
  {
    if actions != [] {
      ExpiryKept(sys, actions[..|actions| - 1], hash);
      NextKeepsExpiry(Exec(sys, actions[..|actions| - 1]), actions[|actions| - 1], hash);
    }
  }

  /** On every run a token that can be claimed dies at its EndOfLife, past its issue TTL exactly by a late claim. */
  lemma OutlivesItsTtlExactly(actions: seq<Action>, hash: int)
    ensures var sys := Exec(START, actions);
            && (hash in sys.keys.active ==>
                  hash in sys.until && sys.keys.active[hash].expireAt == EndOfLife(sys, hash))
            && (Present(sys.keys.active, hash, sys.now) ==>
                  && sys.now <= EndOfLife(sys, hash)
                  && (sys.now > sys.until[hash] ==> hash in sys.claimed)
                  && (sys.keys.active[hash].expireAt > sys.until[hash] <==>
                      hash in sys.claimed && EndOfLife(sys, hash) > sys.until[hash]))
  {
    ExpiryKept(START, actions, hash);
  }

  const FAULT: Reads := Reads(AccountError, false, false)

  lemma ExecSnoc(sys: Sys, actions: seq<Action>, action: Action)
    ensures Exec(sys, actions + [action]) == Next(Exec(sys, actions), action)
  {
    assert (actions + [action])[..|actions|] == actions;
  }

  /** Just released at the moment of its claim, with resolver 1 free. */
  predicate Renewed(sys: Sys, hash: int) {
    && hash in sys.keys.active && sys.keys.active[hash].expireAt == sys.now + CLAIM_TTL && 1 !in sys.holders
    && WinsOf(sys, hash) == 0
  }

  lemma ClaimAndRelease(sys: Sys, hash: int)
    requires Present(sys.keys.active, hash, sys.now) && 1 !in sys.holders && WinsOf(sys, hash) == 0
    ensures var next := Next(Next(sys, Claim(1, hash)), Finish(1, FAULT, false));
            Renewed(next, hash) && next.now == sys.now && next.until == sys.until
  {
    var claimed := Next(sys, Claim(1, hash));
    assert claimed.keys.claims[hash].expireAt - sys.now == CLAIM_TTL;
  }

  /** Waiting, claiming and failing, n times over. */
  function Rounds(hash: int, wait: nat, n: nat): seq<Action> {
    if n == 0 then [] else Rounds(hash, wait, n - 1) + [Tick(wait)] + [Claim(1, hash)] + [Finish(1, FAULT, false)]
  }

  lemma RoundRenews(sys: Sys, hash: int, wait: nat)
    requires wait < CLAIM_TTL && Renewed(sys, hash)
    ensures var end := Next(Next(Next(sys, Tick(wait)), Claim(1, hash)), Finish(1, FAULT, false));
            Renewed(end, hash) && end.now == sys.now + wait && end.until == sys.until
  {
    ClaimAndRelease(Next(sys, Tick(wait)), hash);
  }

  lemma ExecRound(sys: Sys, before: seq<Action>, hash: int, wait: nat)
    ensures Exec(sys, before + [Tick(wait)] + [Claim(1, hash)] + [Finish(1, FAULT, false)]) ==
            Next(Next(Next(Exec(sys, before), Tick(wait)), Claim(1, hash)), Finish(1, FAULT, false))
  {
    ExecSnoc(sys, before, Tick(wait));
    ExecSnoc(sys, before + [Tick(wait)], Claim(1, hash));
    ExecSnoc(sys, before + [Tick(wait)] + [Claim(1, hash)], Finish(1, FAULT, false));
  }

  lemma {:induction false} RoundsRenew(sys: Sys, hash: int, wait: nat, n: nat)
    requires wait < CLAIM_TTL && Renewed(sys, hash)
    ensures var end := Exec(sys, Rounds(hash, wait, n));
            Renewed(end, hash) && end.now == sys.now + n * wait && end.until == sys.until
  {
    if n > 0 {
      var before := Rounds(hash, wait, n - 1);
      RoundsRenew(sys, hash, wait, n - 1);
      RoundRenews(Exec(sys, before), hash, wait);
      ExecRound(sys, before, hash, wait);
      assert (n - 1) * wait + wait == n * wait;
    }
  }

  lemma {:induction false} ExecAppend(sys: Sys, first: seq<Action>, second: seq<Action>)
    ensures Exec(sys, first + second) == Exec(Exec(sys, first), second)
  {
    if second == [] {
      assert first + second == first;
    } else {
      var init := second[..|second| - 1];
      ExecAppend(sys, first, init);
      assert (first + second)[..|first + second| - 1] == first + init;
    }
  }

  /** A token issued for one millisecond, claimed and released every half minute, can be claimed for any time. */
  lemma UsableForever(hash: int, rounds: nat) returns (actions: seq<Action>)
    ensures var sys := Exec(START, actions);
            && hash in sys.until && sys.until[hash] == 1 && sys.now == rounds * (CLAIM_TTL - 1)
            && Present(sys.keys.active, hash, sys.now) && WinsOf(sys, hash) == 0
  {
    var first := [] + [Issue(hash, 1, 1)];
    var released := first + [Claim(1, hash)] + [Finish(1, FAULT, false)];
    ExecSnoc(START, [], Issue(hash, 1, 1));
    ExecSnoc(START, first, Claim(1, hash));
    ExecSnoc(START, first + [Claim(1, hash)], Finish(1, FAULT, false));
    ClaimAndRelease(Exec(START, first), hash);
    RoundsRenew(Exec(START, released), hash, CLAIM_TTL - 1, rounds);
    ExecAppend(START, released, Rounds(hash, CLAIM_TTL - 1, rounds));
    actions := released + Rounds(hash, CLAIM_TTL - 1, rounds);
  }

  /** Issued for a second, claimed just before its end, released: 29 s later it can still be claimed. */
  lemma OutlivesItsTtl()
    ensures var sys := Exec(START, [Issue(7, 1, 1_000)] + [Tick(999)] + [Claim(1, 7)] + [Finish(1, FAULT, false)]
                                   + [Tick(29_000)]);
            sys.until == map[7 := 1_000] && sys.now == 29_999 && Present(sys.keys.active, 7, sys.now)
  {
    var a := [Issue(7, 1, 1_000)];
    var b := a + [Tick(999)];
    var c := b + [Claim(1, 7)];
    var d := c + [Finish(1, FAULT, false)];
    assert [] + a == a;
    ExecSnoc(START, [], Issue(7, 1, 1_000));
    ExecSnoc(START, a, Tick(999));
    ExecSnoc(START, b, Claim(1, 7));
    ExecSnoc(START, c, Finish(1, FAULT, false));
    ExecSnoc(START, d, Tick(29_000));
    ClaimAndRelease(Exec(START, b), 7);
  }

  /**
   A release makes the token active again until the moment its claim would have expired, whatever its issue TTL was; at
   that very moment for another claim TTL, and after it not at all.
   */
  lemma ReleaseAfterClaimRestores(k: Keys, hash: int, claimedAt: int, releasedAt: int)
    requires Present(k.active, hash, claimedAt) && claimedAt <= releasedAt
    ensures var claimed := ClaimKeys(k, hash, claimedAt);
            var back := ReleaseKeys(claimed, hash, releasedAt);
            var end := claimedAt + CLAIM_TTL;
            if releasedAt > end then back == claimed
            else
              && back.claims == k.claims - {hash}
              && var revived := Key(k.active[hash].account, if releasedAt < end then end else end + CLAIM_TTL);
                 back.active == k.active[hash := revived]
  {
    var claimed := ClaimKeys(k, hash, claimedAt);
    if releasedAt <= claimedAt + CLAIM_TTL {
      assert claimed.claims[hash].expireAt == claimedAt + CLAIM_TTL;
      assert ReleaseKeys(claimed, hash, releasedAt).claims == k.claims - {hash};
    }
  }
}
