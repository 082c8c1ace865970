/** Fixed-window counters kept in Redis, for the HTTP limiter and for one-time codes. Times in ms. */
module FixedWindows {
  import opened Rows
  import opened Money

  /** A counter key; without a TTL it never disappears. */
  datatype Key = Key(count: nat, expireAt: Option<int>)

  datatype Script = Http | Otp

  /** The TTL a script gives a new key: the OTP store passes whole seconds, cut towards zero. */
  function Life(script: Script, window: int): int {
    if script == Http then window
    else if window >= 0 then window / 1000 * 1000
    else -((-window) / 1000 * 1000)
  }

  /** Redis keeps a key through the millisecond of its expiry. */
  predicate Present(key: Option<Key>, now: int) {
    key.Some? && (key.value.expireAt.Some? ==> now <= key.value.expireAt.value)
  }

  function Incremented(key: Option<Key>, now: int): Key {
    if Present(key, now) then key.value.(count := key.value.count + 1) else Key(1, None)
  }

  /** The HTTP script gives a TTL to any key without one, the OTP script only to a new key. */
  predicate SetsExpiry(script: Script, key: Key) {
    if script == Http then key.expireAt.None? else key.count == 1
  }

  /** Expiring a key now or in the past deletes it. */
  function Hit(script: Script, key: Option<Key>, life: int, now: int): Option<Key> {
    var counted := Incremented(key, now);
    if !SetsExpiry(script, counted) then Some(counted)
    else if life <= 0 then None
    else Some(counted.(expireAt := Some(now + life)))
  }

  /** The scripts differ only on a key that has no TTL, which neither of them ever leaves behind. */
  lemma ScriptsAgree(key: Option<Key>, life: int, now: int)
    requires Present(key, now) ==> key.value.count > 0
    ensures Hit(Http, key, life, now) == Hit(Otp, key, life, now) <==> (Present(key, now) ==> key.value.expireAt.Some?)
    ensures Hit(Http, key, life, now).Some? ==> Hit(Http, key, life, now).value.expireAt.Some?
  {
  }

  // ---- One key over a run of requests ----

  predicate Sorted(times: seq<int>) {
    forall i, j | 0 <= i < j < |times| :: times[i] <= times[j]
  }

  function After(script: Script, life: int, times: seq<int>): Option<Key> {
    if times == [] then None
    else Hit(script, After(script, life, times[..|times| - 1]), life, times[|times| - 1])
  }

  /** Whether the last request was within the limit. */
  predicate Allowed(script: Script, life: int, limit: int, times: seq<int>)
    requires times != []
  {
    Incremented(After(script, life, times[..|times| - 1]), times[|times| - 1]).count <= limit
  }

  /** How many requests were admitted from lo to hi, both included. */
  function Admitted(script: Script, life: int, limit: int, times: seq<int>, lo: int, hi: int): nat {
    if times == [] then 0
    else
      Admitted(script, life, limit, times[..|times| - 1], lo, hi)
      + (if lo <= times[|times| - 1] <= hi && Allowed(script, life, limit, times) then 1 else 0)
  }

  function Cap(limit: int): nat {
    if limit < 0 then 0 else limit
  }

  lemma {:induction false} NoneAfterTheLast(script: Script, life: int, limit: int, times: seq<int>, lo: int, hi: int)
    requires forall i | 0 <= i < |times| :: times[i] < lo
    ensures Admitted(script, life, limit, times, lo, hi) == 0
  {
    if times != [] {
      NoneAfterTheLast(script, life, limit, times[..|times| - 1], lo, hi);
    }
  }

  /** The key always dates from the current life, which began at one of the requests. */
  lemma {:induction false} KeyOfTheLife(script: Script, life: int, times: seq<int>)
    requires life > 0 && Sorted(times) && times != []
    ensures var key := After(script, life, times);
            && key.Some? && key.value.count > 0 && key.value.expireAt.Some?
            && key.value.expireAt.value - life <= times[|times| - 1] <= key.value.expireAt.value
  {
    if |times| > 1 {
      KeyOfTheLife(script, life, times[..|times| - 1]);
    }
  }

  function Start(script: Script, life: int, times: seq<int>): int
    requires life > 0 && Sorted(times) && times != []
  {
    KeyOfTheLife(script, life, times);
    After(script, life, times).value.expireAt.value - life
  }

  function Count(script: Script, life: int, times: seq<int>): nat
    requires life > 0 && Sorted(times) && times != []
  {
    KeyOfTheLife(script, life, times);
    After(script, life, times).value.count
  }

  /** How a request changes the current life: it joins it, or begins the next one. */
  lemma Joins(script: Script, life: int, times: seq<int>, limit: int)
    requires life > 0 && Sorted(times) && |times| > 1
    ensures Sorted(times[..|times| - 1])
    ensures var before, last := times[..|times| - 1], times[|times| - 1];
            var start, count := Start(script, life, before), Count(script, life, before);
            && start <= Start(script, life, times)
            && (if last <= start + life
                then Start(script, life, times) == start && Count(script, life, times) == count + 1
                else Start(script, life, times) == last && Count(script, life, times) == 1)
            && (Allowed(script, life, limit, times) <==> Count(script, life, times) <= limit)
  {
    KeyOfTheLife(script, life, times[..|times| - 1]);
  }

  /** One life admits exactly its first `limit` requests. */
  lemma {:induction false} OneLife(script: Script, life: int, limit: int, times: seq<int>, hi: int)
    requires life > 0 && Sorted(times) && times != [] && times[|times| - 1] <= hi
    ensures Admitted(script, life, limit, times, Start(script, life, times), hi) ==
            Min(Count(script, life, times), Cap(limit))
  {
    var before, last := times[..|times| - 1], times[|times| - 1];
    if before == [] {
      assert Admitted(script, life, limit, before, last, hi) == 0;
    } else {
      Joins(script, life, times, limit);
      KeyOfTheLife(script, life, before);
      if last <= Start(script, life, before) + life {
        OneLife(script, life, limit, before, hi);
      } else {
        NoneAfterTheLast(script, life, limit, before, last, hi);
      }
    }
  }

  /** Looking back no more than one life before the current life began finds at most one more life. */
  lemma {:induction false} TwoLives(script: Script, life: int, limit: int, times: seq<int>, lo: int, hi: int)
    requires life > 0 && Sorted(times) && times != []
    ensures lo >= Start(script, life, times) ==>
              Admitted(script, life, limit, times, lo, hi) <= Min(Count(script, life, times), Cap(limit))
    ensures lo >= Start(script, life, times) - life - 1 ==>
              Admitted(script, life, limit, times, lo, hi) <= Min(Count(script, life, times), Cap(limit)) + Cap(limit)
  {
    var before, last := times[..|times| - 1], times[|times| - 1];
    if before == [] {
      assert Admitted(script, life, limit, before, lo, hi) == 0;
    } else {
      Joins(script, life, times, limit);
      KeyOfTheLife(script, life, before);
      TwoLives(script, life, limit, before, lo, hi);
      if last > Start(script, life, before) + life && lo >= last {
        NoneAfterTheLast(script, life, limit, before, lo, hi);
      }
    }
  }

  /** Any span of one key life, both ends and one millisecond more included, admits at most twice the limit. */
  lemma {:induction false} SpanOfOneLife(script: Script, life: int, limit: int, times: seq<int>, lo: int)
    requires life > 0 && Sorted(times)
    ensures Admitted(script, life, limit, times, lo, lo + life + 1) <= 2 * Cap(limit)
  {
    if times != [] {
      if times[|times| - 1] > lo + life + 1 {
        SpanOfOneLife(script, life, limit, times[..|times| - 1], lo);
      } else {
        KeyOfTheLife(script, life, times);
        TwoLives(script, life, limit, times, lo, lo + life + 1);
      }
    }
  }

  // ---- Exactly when the configured window keeps the bound ----

  predicate SpanBounded(script: Script, window: int, limit: int, times: seq<int>, lo: int) {
    Admitted(script, Life(script, window), limit, times, lo, lo + window) <= 2 * Cap(limit)
  }

  ghost predicate SpansBounded(script: Script, window: int, limit: int) {
    forall times, lo | Sorted(times) :: SpanBounded(script, window, limit, times, lo)
  }

  function Burst(n: nat, now: int): seq<int> {
    seq(n, i => now)
  }

  /** One more admitted request of the current life. */
  lemma OneMore(script: Script, life: int, limit: int, times: seq<int>, now: int, lo: int, hi: int)
    requires life > 0 && Sorted(times) && times != [] && lo <= now <= hi
    requires times[|times| - 1] <= now <= Start(script, life, times) + life && Count(script, life, times) < limit
    ensures Sorted(times + [now]) && Start(script, life, times + [now]) == Start(script, life, times)
    ensures Count(script, life, times + [now]) == Count(script, life, times) + 1
    ensures Admitted(script, life, limit, times + [now], lo, hi) == Admitted(script, life, limit, times, lo, hi) + 1
  {
    var all := times + [now];
    assert all[..|all| - 1] == times;
    Joins(script, life, all, limit);
  }

  /** A burst at one moment inside a life. */
  lemma {:induction false} BurstInLife(script: Script, life: int, limit: int, times: seq<int>, n: nat, now: int,
                                       lo: int, hi: int)
    requires life > 0 && Sorted(times) && times != [] && lo <= now <= hi
    requires times[|times| - 1] <= now <= Start(script, life, times) + life
    requires Count(script, life, times) + n <= limit
    ensures Sorted(times + Burst(n, now)) && times + Burst(n, now) != []
    ensures Start(script, life, times + Burst(n, now)) == Start(script, life, times)
    ensures Count(script, life, times + Burst(n, now)) == Count(script, life, times) + n
    ensures Admitted(script, life, limit, times + Burst(n, now), lo, hi) ==
            Admitted(script, life, limit, times, lo, hi) + n
  {
    if n == 0 {
      assert times + Burst(n, now) == times;
    } else {
      var shorter := times + Burst(n - 1, now);
      BurstInLife(script, life, limit, times, n - 1, now, lo, hi);
      assert times + Burst(n, now) == shorter + [now];
      OneMore(script, life, limit, shorter, now, lo, hi);
    }
  }

  /** A burst of `limit` requests that begins a life is admitted whole. */
  lemma FullLife(script: Script, life: int, limit: int, times: seq<int>, now: int, lo: int, hi: int)
    returns (all: seq<int>)
    requires life > 0 && Sorted(times) && times != [] && lo <= now <= hi && limit > 0
    requires now > Start(script, life, times) + life
    ensures Sorted(all) && all != [] && Start(script, life, all) == now
    ensures Admitted(script, life, limit, all, lo, hi) == Admitted(script, life, limit, times, lo, hi) + limit
  {
    var one := times + [now];
    KeyOfTheLife(script, life, times);
    assert one[..|one| - 1] == times;
    Joins(script, life, one, limit);
    BurstInLife(script, life, limit, one, limit - 1, now, lo, hi);
    all := one + Burst(limit - 1, now);
  }

  lemma FirstRequest(script: Script, life: int)
    requires life > 0
    ensures Start(script, life, [0]) == 0 && Count(script, life, [0]) == 1
  {
    assert [0][..0] == [] && After(script, life, []) == None;
  }

  /** A life whose last millisecond sees all its requests but one. */
  lemma LateLife(script: Script, life: int, limit: int, hi: int) returns (times: seq<int>)
    requires life > 0 && limit > 1 && hi >= life
    ensures Sorted(times) && times != [] && Start(script, life, times) == 0
    ensures Admitted(script, life, limit, times, life, hi) >= limit - 1
  {
    FirstRequest(script, life);
    var first := [0];
    BurstInLife(script, life, limit, first, limit - 1, life, life, hi);
    times := first + Burst(limit - 1, life);
  }

  /** The end of a life, all of the next and the start of a third fit in a span two milliseconds longer than a life. */
  lemma ThreeLives(script: Script, life: int, limit: int, span: int) returns (times: seq<int>)
    requires 0 < life < span - 1 && limit > 1
    ensures Sorted(times) && Admitted(script, life, limit, times, life, life + span) > 2 * limit
  {
    var hi := life + span;
    var late := LateLife(script, life, limit, hi);
    var full := FullLife(script, life, limit, late, life + 1, life, hi);
    times := FullLife(script, life, limit, full, 2 * life + 2, life, hi);
  }

  /** A window below the script's unit limits nothing. */
  lemma {:induction false} NoLifeNoLimit(script: Script, life: int, limit: int, n: nat, now: int, hi: int)
    requires life <= 0 && limit > 0 && now <= hi
    ensures After(script, life, Burst(n, now)).None?
    ensures Admitted(script, life, limit, Burst(n, now), now, hi) == n
  {
    if n > 0 {
      NoLifeNoLimit(script, life, limit, n - 1, now, hi);
      assert Burst(n, now)[..n - 1] == Burst(n - 1, now);
    }
  }

  lemma {:induction false} ShorterSpan(script: Script, life: int, limit: int, times: seq<int>, lo: int, hi: int,
                                       later: int)
    requires hi <= later
    ensures Admitted(script, life, limit, times, lo, hi) <= Admitted(script, life, limit, times, lo, later)
  {
    if times != [] {
      ShorterSpan(script, life, limit, times[..|times| - 1], lo, hi, later);
    }
  }

  lemma {:induction false} LimitZero(script: Script, life: int, limit: int, times: seq<int>, lo: int, hi: int)
    requires limit <= 0
    ensures Admitted(script, life, limit, times, lo, hi) == 0
  {
    if times != [] {
      LimitZero(script, life, limit, times[..|times| - 1], lo, hi);
      assert Incremented(After(script, life, times[..|times| - 1]), times[|times| - 1]).count > 0;
    }
  }

  /** At a limit of one only the requests that begin a life are admitted, and those are a life apart. */
  lemma {:induction false} LimitOne(script: Script, life: int, times: seq<int>, lo: int, hi: int)
    requires life > 0 && Sorted(times) && times != []
    ensures lo > Start(script, life, times) ==> Admitted(script, life, 1, times, lo, hi) == 0
    ensures lo > Start(script, life, times) - life ==> Admitted(script, life, 1, times, lo, hi) <= 1
    ensures lo > Start(script, life, times) - 2 * life ==> Admitted(script, life, 1, times, lo, hi) <= 2
  {
    var before, last := times[..|times| - 1], times[|times| - 1];
    if before == [] {
      assert Admitted(script, life, 1, before, lo, hi) == 0;
    } else {
      Joins(script, life, times, 1);
      KeyOfTheLife(script, life, before);
      LimitOne(script, life, before, lo, hi);
    }
  }

  lemma {:induction false} SpanAtLimitOne(script: Script, life: int, times: seq<int>, lo: int, span: nat)
    requires life > 0 && Sorted(times) && span < 2 * life
    ensures Admitted(script, life, 1, times, lo, lo + span) <= 2
  {
    if times != [] {
      if times[|times| - 1] > lo + span {
        SpanAtLimitOne(script, life, times[..|times| - 1], lo, span);
      } else {
        KeyOfTheLife(script, life, times);
        LimitOne(script, life, times, lo, lo + span);
      }
    }
  }

  lemma BoundFails(script: Script, window: nat, limit: int)
    requires limit > 0 && (Life(script, window) <= 0 || (limit > 1 && Life(script, window) < window - 1))
    ensures !SpansBounded(script, window, limit)
  {
    var life := Life(script, window);
    if life <= 0 {
      NoLifeNoLimit(script, life, limit, 2 * limit + 1, 0, window);
      assert Sorted(Burst(2 * limit + 1, 0)) && !SpanBounded(script, window, limit, Burst(2 * limit + 1, 0), 0);
    } else {
      var times := ThreeLives(script, life, limit, window);
      assert !SpanBounded(script, window, limit, times, life);
    }
  }

  /**
   A configured window admits at most twice its limit exactly when its key gets a life, at most a millisecond shorter
   than the window: the OTP store cuts it to whole seconds, which only a limit of one or none survives.
   */
  lemma WindowKeepsItsBoundExactly(script: Script, window: nat, limit: int)
    ensures SpansBounded(script, window, limit) <==>
            limit <= 0 || (Life(script, window) > 0 && (limit == 1 || Life(script, window) >= window - 1))
  {
    var life := Life(script, window);
    assert life <= window < life + 1000;
    assert life > 0 ==> window < 2 * life;
    if limit > 0 && (life <= 0 || (limit > 1 && life < window - 1)) {
      BoundFails(script, window, limit);
    } else {
      forall times, lo | Sorted(times)
        ensures SpanBounded(script, window, limit, times, lo)
      {
        if limit <= 0 {
          LimitZero(script, life, limit, times, lo, lo + window);
        } else if limit == 1 {
          SpanAtLimitOne(script, life, times, lo, window);
        } else {
          SpanOfOneLife(script, life, limit, times, lo);
          ShorterSpan(script, life, limit, times, lo, lo + window, lo + life + 1);
        }
      }
    }
  }

  /** In plain terms: the HTTP limiter needs a positive window, the OTP store whole seconds but for a millisecond. */
  lemma WindowsThatKeepTheBound(window: nat, limit: int)
    requires limit > 1
    ensures SpansBounded(Http, window, limit) <==> window > 0
    ensures SpansBounded(Otp, window, limit) <==> window >= 1_000 && window % 1_000 <= 1
  {
    WindowKeepsItsBoundExactly(Http, window, limit);
    WindowKeepsItsBoundExactly(Otp, window, limit);
  }

  // ---- The HTTP limiter ----

  class Limiter {
    var keys: map<string, Key>

    constructor ()
      ensures keys == map[]
    {
      keys := map[];
    }

    function KeyOf(name: string): Option<Key>
      reads this
    {
      if name in keys then Some(keys[name]) else None
    }

    /** Each key counts for itself; a rejected caller is told when its key expires. */
    method Allow(name: string, limit: int, window: int, now: int) returns (allowed: bool, retryAfter: int)
      modifies this
      ensures allowed <==> Incremented(old(KeyOf(name)), now).count <= limit
      ensures KeyOf(name) == Hit(Http, old(KeyOf(name)), window, now)
      ensures forall other | other != name :: KeyOf(other) == old(KeyOf(other))
      ensures allowed ==> retryAfter == 0
      ensures !allowed && KeyOf(name).Some? && KeyOf(name).value.expireAt.Some? ==>
                now + retryAfter == KeyOf(name).value.expireAt.value
      ensures !allowed && KeyOf(name) == None ==> retryAfter == window
    {
      var counter := Key(1, None);
      if name in keys && !(keys[name].expireAt.Some? && keys[name].expireAt.value < now) {
        counter := keys[name].(count := keys[name].count + 1);
      }
      var ttl;
      keys := keys[name := counter];
      if counter.expireAt.None? {
        ttl := window;
        if window <= 0 {
          keys := keys - {name};
        } else {
          keys := keys[name := counter.(expireAt := Some(now + window))];
        }
      } else {
        ttl := counter.expireAt.value - now;
      }
      if counter.count > limit {
        return false, ttl;
      }
      return true, 0;
    }
  }
}
