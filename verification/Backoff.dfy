/** The retry delay: an int64 shift that may wrap, and the test that catches it. */
module Backoff {
  import opened Money

  function Pow2(n: nat): (p: nat)
    ensures p > 0
  {
    if n == 0 then 1 else 2 * Pow2(n - 1)
  }

  /** base << (attempts - 1) in 64 bits, replaced by max when it is above max or not positive. */
  function BackoffFor(base: int, max: int, attempts: nat): int
    requires attempts > 0
  {
    var shifted := Wrap64(base * Pow2(attempts - 1));
    if shifted > max || shifted <= 0 then max else shifted
  }

  lemma {:induction false} Pow2Add(m: nat, n: nat)
    ensures Pow2(m + n) == Pow2(m) * Pow2(n)
  {
    if m > 0 {
      Pow2Add(m - 1, n);
    }
  }

  lemma Pow2Sixteen()
    ensures Pow2(16) == 0x1_0000
  {
    assert Pow2(4) == 16;
    Pow2Add(4, 4);
    Pow2Add(8, 8);
  }

  lemma Pow2Limit()
    ensures Pow2(64) == 2 * INT64_LIMIT
  {
    Pow2Sixteen();
    Pow2Add(16, 16);
    Pow2Add(32, 32);
    assert Pow2(32) == 0x1_0000_0000;
  }

  /** Wrapping subtracts a multiple of 2^64. */
  lemma Wrapped(x: int) returns (c: int)
    ensures Wrap64(x) == x - c * (2 * INT64_LIMIT)
  {
    c := (x + INT64_LIMIT) / (2 * INT64_LIMIT);
  }

  /** A positive multiple of p is at least p. */
  lemma PositiveMultiple(a: int, p: nat)
    requires a * p > 0
    ensures a * p >= p
  {
    if a >= 1 {
      MulLe(1, a, p);
    } else {
      MulLe(a, 0, p);
    }
  }

  /** A multiple of a power of two stays one when it wraps. */
  lemma WrappedMultiple(m: int, p: nat, q: nat)
    requires p * q == 2 * INT64_LIMIT
    ensures Wrap64(m * p) <= 0 || Wrap64(m * p) >= p
  {
    var c := Wrapped(m * p);
    var a := m - c * q;
    assert a * p == m * p - c * q * p;
    assert c * q * p == c * (p * q);
    if a * p > 0 {
      PositiveMultiple(a, p);
    }
  }

  lemma WrappedShift(m: nat, n: nat)
    ensures Wrap64(m * Pow2(n)) <= 0 || Wrap64(m * Pow2(n)) >= Pow2(n)
  {
    Pow2Limit();
    if n <= 64 {
      Pow2Add(n, 64 - n);
      WrappedMultiple(m, Pow2(n), Pow2(64 - n));
    } else {
      ShiftedOut(m, n);
    }
  }

  /** A shift by more than 64 wraps to zero. */
  lemma ShiftedOut(m: nat, n: nat)
    requires n > 64
    ensures Wrap64(m * Pow2(n)) == 0
  {
    Pow2Limit();
    Pow2Add(n - 64, 64);
    WrapOfMultiple(m * Pow2(n - 64));
    assert m * Pow2(n - 64) * Pow2(64) == m * (Pow2(n - 64) * Pow2(64));
  }

  lemma WrapOfMultiple(m: nat)
    ensures Wrap64(m * (2 * INT64_LIMIT)) == 0
  {
    DivModUnique(m * (2 * INT64_LIMIT) + INT64_LIMIT, 2 * INT64_LIMIT, m, INT64_LIMIT);
  }

  lemma FactorAtLeast(m: nat, p: nat, max: nat)
    requires m > 0 && m * p >= m * max
    ensures p >= max && m * p >= p
  {
    if p < max {
      MulLe(p + 1, max, m);
    }
    MulLe(1, m, p);
  }

  /** The test repairs every shift whose true value is at least max or fits int64. */
  lemma TestRepairs(x: nat, p: nat, max: nat)
    requires max > 0 && x > 0
    requires Wrap64(x) <= 0 || Wrap64(x) >= p
    requires x < INT64_LIMIT || (max <= p && max <= x)
    ensures (if Wrap64(x) > max || Wrap64(x) <= 0 then max else Wrap64(x)) == Min(x, max)
  {
  }

  /**
   For a base of m times a power of two, the delay is min(base * 2^(attempts-1), max) for every number of
   attempts, as long as m * max fits 63 bits.
   */
  lemma BackoffIsCappedDoubling(m: nat, z: nat, max: nat, attempts: nat)
    requires attempts > 0 && m > 0 && max > 0 && m * max <= INT64_LIMIT
    ensures BackoffFor(m * Pow2(z), max, attempts) == Min(m * Pow2(z) * Pow2(attempts - 1), max)
  {
    var p := Pow2(z + (attempts - 1));
    Pow2Add(z, attempts - 1);
    var x := m * p;
    assert m * Pow2(z) * Pow2(attempts - 1) == x;
    WrappedShift(m, z + (attempts - 1));
    if x >= INT64_LIMIT {
      FactorAtLeast(m, p, max);
    }
    TestRepairs(x, p, max);
  }

  /** The worker's 5 s base and 5 min cap, in nanoseconds. */
  lemma WorkerBackoff(attempts: nat)
    requires attempts > 0
    ensures BackoffFor(5_000_000_000, 300_000_000_000, attempts)
         == Min(5_000_000_000 * Pow2(attempts - 1), 300_000_000_000)
  {
    assert Pow2(9) == 512;
    assert 9_765_625 * 512 == 5_000_000_000;
    BackoffIsCappedDoubling(9_765_625, 9, 300_000_000_000, attempts);
  }

  predicate IsMultiple(base: int, m: nat, z: nat) {
    base == m * Pow2(z)
  }

  /** m times a power of two, with m small enough for max. */
  ghost predicate SafeBase(base: int, max: nat) {
    exists m: nat, z: nat :: IsMultiple(base, m, z) && m > 0 && m * max <= INT64_LIMIT
  }

  lemma SafeBackoff(base: int, max: nat, attempts: nat)
    requires SafeBase(base, max) && max > 0 && attempts > 0
    ensures BackoffFor(base, max, attempts) == Min(base * Pow2(attempts - 1), max)
  {
    var m: nat, z: nat :| IsMultiple(base, m, z) && m > 0 && m * max <= INT64_LIMIT;
    BackoffIsCappedDoubling(m, z, max, attempts);
  }
}
