/** The token bucket of golang.org/x/time/rate, with real-valued time and tokens.
    A bucket starts full, refills at `rate` up to `burst`, pays one token for an
    admission, and is left as it was by a denial. */
module TokenBucket {

  datatype Bucket = Bucket(rate: real, burst: nat, tokens: real, last: real)

  function Min(x: real, y: real): real {
    if x <= y then x else y
  }

  /** A bucket as the limiter library creates it: full, and never used. */
  function Fresh(rate: real, burst: nat): Bucket {
    Bucket(rate, burst, burst as real, 0.0)
  }

  /** Tokens earned from one clock reading to another, before any cap. */
  function Earned(rate: real, from: real, to: real): real {
    rate * (to - from)
  }

  /** Tokens at `now`. A clock reading before the last use adds nothing. */
  function Available(b: Bucket, now: real): real {
    Min(b.burst as real, b.tokens + (if now < b.last then 0.0 else Earned(b.rate, b.last, now)))
  }

  predicate CanTake(b: Bucket, now: real) {
    Available(b, now) >= 1.0
  }

  function Take(b: Bucket, now: real): Bucket {
    if CanTake(b, now) then b.(tokens := Available(b, now) - 1.0, last := now) else b
  }

  /** What holds of every bucket in use, at every clock reading from `clock` on. */
  predicate Sound(b: Bucket, clock: real) {
    b.rate >= 0.0 && 0.0 <= b.tokens <= b.burst as real && b.last <= clock
  }

  predicate FullAt(b: Bucket, now: real) {
    Available(b, now) == b.burst as real
  }

  /** `idle` seconds are enough to fill the bucket from empty. */
  predicate RefilledBy(b: Bucket, idle: real) {
    b.rate * idle >= b.burst as real
  }

  lemma EarnedNonnegative(rate: real, from: real, to: real)
    requires rate >= 0.0 && from <= to
    ensures Earned(rate, from, to) >= 0.0
  {}

  lemma EarnedSplits(rate: real, from: real, mid: real, to: real)
    ensures Earned(rate, from, to) == Earned(rate, from, mid) + Earned(rate, mid, to)
  {}

  /** Waiting from `clock` to `now` adds exactly what is earned, up to the cap. */
  lemma Refill(b: Bucket, clock: real, now: real)
    requires Sound(b, clock) && clock <= now
    ensures Available(b, now) == Min(b.burst as real, Available(b, clock) + Earned(b.rate, clock, now))
    ensures 0.0 <= Available(b, clock) <= Available(b, now)
  {
    EarnedNonnegative(b.rate, b.last, clock);
    EarnedNonnegative(b.rate, clock, now);
    EarnedSplits(b.rate, b.last, clock, now);
  }

  /** Paying for an admission costs exactly one token; a denial costs nothing. */
  lemma TakeCosts(b: Bucket, clock: real, now: real)
    requires Sound(b, clock) && clock <= now
    ensures Sound(Take(b, now), now)
    ensures Available(Take(b, now), now) == Available(b, now) - (if CanTake(b, now) then 1.0 else 0.0)
  {
    Refill(b, clock, now);
  }

  /** A bucket left alone for `burst / rate` is full again, however it was used before. */
  lemma IdleRefills(b: Bucket, idle: real, now: real)
    requires Sound(b, now) && idle <= now - b.last
    requires RefilledBy(b, idle)
    ensures FullAt(b, now)
  {
    EarnedSplits(b.rate, b.last, now - idle, now);
    EarnedNonnegative(b.rate, b.last, now - idle);
  }
}
