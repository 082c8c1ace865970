/** One-time codes: two request counters, and challenges that bound how many guesses are compared. Times in ms. */
module OtpChallenges {
  import opened Rows
  import opened FixedWindows

  datatype Challenge = Challenge(hash: int, attempts: nat, expireAt: int)

  datatype Answer = Accepted | NotFound | Wrong | Locked

  datatype Guess = Guess(hash: int, now: int)

  predicate Pending(challenge: Option<Challenge>, now: int) {
    challenge.Some? && now <= challenge.value.expireAt
  }

  function AnswerTo(challenge: Option<Challenge>, guess: Guess, maxAttempts: int): Answer {
    if !Pending(challenge, guess.now) then NotFound
    else if challenge.value.attempts >= maxAttempts then Locked
    else if challenge.value.hash == guess.hash then Accepted
    else if challenge.value.attempts + 1 >= maxAttempts then Locked
    else Wrong
  }

  /** Only a wrong answer leaves the challenge in place, one attempt older. */
  function AfterGuess(challenge: Option<Challenge>, guess: Guess, maxAttempts: int): Option<Challenge> {
    if AnswerTo(challenge, guess, maxAttempts) == Wrong
    then Some(challenge.value.(attempts := challenge.value.attempts + 1))
    else None
  }

  /** Whether the stored hash is compared with the guess. */
  predicate Compared(challenge: Option<Challenge>, guess: Guess, maxAttempts: int) {
    Pending(challenge, guess.now) && challenge.value.attempts < maxAttempts
  }

  // ---- All guesses at one challenge, until the next one replaces it ----

  function Left(hash: int, expireAt: int, guesses: seq<Guess>, maxAttempts: int): Option<Challenge> {
    if guesses == [] then Some(Challenge(hash, 0, expireAt))
    else
      var last := |guesses| - 1;
      AfterGuess(Left(hash, expireAt, guesses[..last], maxAttempts), guesses[last], maxAttempts)
  }

  function LastAnswer(hash: int, expireAt: int, guesses: seq<Guess>, maxAttempts: int): Answer
    requires guesses != []
  {
    var last := |guesses| - 1;
    AnswerTo(Left(hash, expireAt, guesses[..last], maxAttempts), guesses[last], maxAttempts)
  }

  function Count(hash: int, expireAt: int, guesses: seq<Guess>, maxAttempts: int): nat {
    if guesses == [] then 0
    else
      var last := |guesses| - 1;
      Count(hash, expireAt, guesses[..last], maxAttempts)
      + (if Compared(Left(hash, expireAt, guesses[..last], maxAttempts), guesses[last], maxAttempts) then 1 else 0)
  }

  predicate InOrder(guesses: seq<Guess>) {
    forall i, j | 0 <= i < j < |guesses| :: guesses[i].now <= guesses[j].now
  }

  /** Every guess so far was wrong, in time, and short of the last attempt. */
  predicate StillOpen(hash: int, expireAt: int, guesses: seq<Guess>, maxAttempts: int) {
    && (forall i | 0 <= i < |guesses| :: guesses[i].hash != hash && guesses[i].now <= expireAt)
    && (guesses != [] ==> |guesses| < maxAttempts)
  }

  lemma {:induction false} LeftExactly(hash: int, expireAt: int, guesses: seq<Guess>, maxAttempts: int)
    ensures Left(hash, expireAt, guesses, maxAttempts) ==
            if StillOpen(hash, expireAt, guesses, maxAttempts) then Some(Challenge(hash, |guesses|, expireAt)) else None
  {
    if guesses != [] {
      var last := |guesses| - 1;
      LeftExactly(hash, expireAt, guesses[..last], maxAttempts);
      if StillOpen(hash, expireAt, guesses, maxAttempts) {
        assert StillOpen(hash, expireAt, guesses[..last], maxAttempts);
      }
    }
  }

  /** A code is accepted exactly for the first right guess, in time and within the first maxAttempts guesses. */
  lemma AcceptedExactly(hash: int, expireAt: int, guesses: seq<Guess>, maxAttempts: int)
    requires guesses != [] && InOrder(guesses)
    ensures LastAnswer(hash, expireAt, guesses, maxAttempts) == Accepted <==>
            && guesses[|guesses| - 1].hash == hash && guesses[|guesses| - 1].now <= expireAt
            && (forall i | 0 <= i < |guesses| - 1 :: guesses[i].hash != hash)
            && |guesses| <= maxAttempts
  {
    LeftExactly(hash, expireAt, guesses[..|guesses| - 1], maxAttempts);
  }

  /** A guess is wrong exactly if it and all before it are, in time and short of maxAttempts. */
  lemma WrongExactly(hash: int, expireAt: int, guesses: seq<Guess>, maxAttempts: int)
    requires guesses != [] && InOrder(guesses)
    ensures LastAnswer(hash, expireAt, guesses, maxAttempts) == Wrong <==>
            && guesses[|guesses| - 1].now <= expireAt && |guesses| < maxAttempts
            && (forall i | 0 <= i < |guesses| :: guesses[i].hash != hash)
  {
    LeftExactly(hash, expireAt, guesses[..|guesses| - 1], maxAttempts);
  }

  /** The maxAttempts-th wrong guess locks the challenge, and without any attempts allowed the first guess does. */
  lemma LockedExactly(hash: int, expireAt: int, guesses: seq<Guess>, maxAttempts: int)
    requires guesses != [] && InOrder(guesses)
    ensures LastAnswer(hash, expireAt, guesses, maxAttempts) == Locked <==>
            && guesses[|guesses| - 1].now <= expireAt
            && (if maxAttempts <= 0 then |guesses| == 1
                else |guesses| == maxAttempts && forall i | 0 <= i < |guesses| :: guesses[i].hash != hash)
  {
    LeftExactly(hash, expireAt, guesses[..|guesses| - 1], maxAttempts);
  }

  /** Whatever is guessed, a challenge is compared at most maxAttempts times and accepted at most once. */
  lemma {:induction false} GuessesAreBounded(hash: int, expireAt: int, guesses: seq<Guess>, maxAttempts: int)
    ensures Count(hash, expireAt, guesses, maxAttempts) <= Cap(maxAttempts)
    ensures StillOpen(hash, expireAt, guesses, maxAttempts) ==>
              Count(hash, expireAt, guesses, maxAttempts) == |guesses|
  {
    if guesses != [] {
      var before := guesses[..|guesses| - 1];
      GuessesAreBounded(hash, expireAt, before, maxAttempts);
      LeftExactly(hash, expireAt, before, maxAttempts);
      if StillOpen(hash, expireAt, guesses, maxAttempts) {
        assert StillOpen(hash, expireAt, before, maxAttempts);
      }
    }
  }

  /** Once accepted or locked out, a code is not found until the next one is stored. */
  lemma {:induction false} ClosedStaysClosed(hash: int, expireAt: int, guesses: seq<Guess>, more: seq<Guess>,
                                             maxAttempts: int)
    requires Left(hash, expireAt, guesses, maxAttempts) == None && more != []
    ensures LastAnswer(hash, expireAt, guesses + more, maxAttempts) == NotFound
    ensures Left(hash, expireAt, guesses + more, maxAttempts) == None
  {
    var all := guesses + more;
    var before := more[..|more| - 1];
    assert all[..|all| - 1] == guesses + before;
    if before == [] {
      assert guesses + before == guesses;
    } else {
      ClosedStaysClosed(hash, expireAt, guesses, before, maxAttempts);
    }
  }

  // ---- The store ----

  class OtpStore {
    const window: int
    const codeTtl: int
    const maxAttempts: int
    const maxPerPhone: int
    const maxPerIp: int
    var phones: map<string, Key>
    var ips: map<string, Key>
    var challenges: map<string, Challenge>

    constructor (window: int, codeTtl: int, maxAttempts: int, maxPerPhone: int, maxPerIp: int)
      ensures phones == map[] && ips == map[] && challenges == map[]
      ensures this.window == window && this.codeTtl == codeTtl && this.maxAttempts == maxAttempts
      ensures this.maxPerPhone == maxPerPhone && this.maxPerIp == maxPerIp
    {
      this.window, this.codeTtl, this.maxAttempts := window, codeTtl, maxAttempts;
      this.maxPerPhone, this.maxPerIp := maxPerPhone, maxPerIp;
      phones, ips, challenges := map[], map[], map[];
    }

    function Counter(keys: map<string, Key>, name: string): Option<Key> {
      if name in keys then Some(keys[name]) else None
    }

    function ChallengeOf(phone: string): Option<Challenge>
      reads this
    {
      if phone in challenges then Some(challenges[phone]) else None
    }

    method IncrWithWindow(keys: map<string, Key>, name: string, now: int) returns (n: nat, next: map<string, Key>)
      ensures n == Incremented(Counter(keys, name), now).count
      ensures Counter(next, name) == Hit(Otp, Counter(keys, name), Life(Otp, window), now)
      ensures forall other | other != name :: Counter(next, other) == Counter(keys, other)
    {
      var counter := Key(1, None);
      if name in keys && !(keys[name].expireAt.Some? && keys[name].expireAt.value < now) {
        counter := keys[name].(count := keys[name].count + 1);
      }
      n, next := counter.count, keys[name := counter];
      if n == 1 {
        if Life(Otp, window) <= 0 {
          next := next - {name};
        } else {
          next := next[name := counter.(expireAt := Some(now + Life(Otp, window)))];
        }
      }
    }

    /** Both counters count every request, whichever of them rejects it. */
    method CheckRateLimit(phone: string, ip: string, now: int) returns (allowed: bool)
      modifies this`phones, this`ips
      ensures allowed <==> Incremented(Counter(old(phones), phone), now).count <= maxPerPhone
                           && Incremented(Counter(old(ips), ip), now).count <= maxPerIp
      ensures Counter(phones, phone) == Hit(Otp, Counter(old(phones), phone), Life(Otp, window), now)
      ensures Counter(ips, ip) == Hit(Otp, Counter(old(ips), ip), Life(Otp, window), now)
      ensures forall other | other != phone :: Counter(phones, other) == Counter(old(phones), other)
      ensures forall other | other != ip :: Counter(ips, other) == Counter(old(ips), other)
    {
      var byPhone, byIp;
      byPhone, phones := IncrWithWindow(phones, phone, now);
      byIp, ips := IncrWithWindow(ips, ip, now);
      return !(byPhone > maxPerPhone || byIp > maxPerIp);
    }

    /** A new code replaces the old one and its attempts. */
    method Store(phone: string, hash: int, now: int)
      modifies this`challenges
      ensures codeTtl > 0 ==> ChallengeOf(phone) == Left(hash, now + codeTtl, [], maxAttempts)
      ensures codeTtl <= 0 ==> ChallengeOf(phone) == None
      ensures forall other | other != phone :: ChallengeOf(other) == old(ChallengeOf(other))
    {
      challenges := challenges[phone := Challenge(hash, 0, now + codeTtl)];
      if codeTtl <= 0 {
        challenges := challenges - {phone};
      }
    }

    /** A correct code, a lockout or an expired challenge leaves none; a wrong code leaves one attempt less. */
    method Verify(phone: string, guess: Guess) returns (answer: Answer)
      modifies this`challenges
      ensures answer == AnswerTo(old(ChallengeOf(phone)), guess, maxAttempts)
      ensures ChallengeOf(phone) == AfterGuess(old(ChallengeOf(phone)), guess, maxAttempts)
      ensures forall other | other != phone :: ChallengeOf(other) == old(ChallengeOf(other))
    {
      if phone !in challenges {
        return NotFound;
      }
      var challenge := challenges[phone];
      if challenge.expireAt < guess.now {
        challenges := challenges - {phone};
        return NotFound;
      }
      if challenge.attempts >= maxAttempts {
        challenges := challenges - {phone};
        return Locked;
      }
      if challenge.hash == guess.hash {
        challenges := challenges - {phone};
        return Accepted;
      }
      if challenge.attempts + 1 >= maxAttempts {
        challenges := challenges - {phone};
        return Locked;
      }
      challenges := challenges[phone := challenge.(attempts := challenge.attempts + 1)];
      return Wrong;
    }
  }
}
