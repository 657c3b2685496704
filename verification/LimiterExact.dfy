/** Exactly when evictions are visible, for every configuration: LimiterTightness shows the runs
    that see them; here no other configuration has one. */
module LimiterExact {
  import opened TokenBucket
  import opened LimiterSpec
  import opened LimiterTransparency
  import opened LimiterWindow
  import opened LimiterTightness

  /** What is known of the never-dropped bucket `b` since `since`, when it was full: at most `n`
      tokens were taken, and the global bucket paid for each of them. */
  predicate History(g: Bucket, b: Bucket, n: nat, since: real, clock: real) {
    && since <= clock
    && Available(b, clock) >= Min(b.burst as real, b.burst as real - n as real + Earned(b.rate, since, clock))
    && g.burst as real - Available(g, clock) >= n as real - Earned(g.rate, since, clock)
  }

  /** A bucket `a` of the limiter and its never-dropped twin `b`. Either they hold the same, and
      the history began before the record was last seen; or an eviction parted them, and it began
      longer than `idle` ago. */
  predicate PairBy(g: Bucket, a: Bucket, b: Bucket, stored: bool, seen: real, idle: real, clock: real,
                   n: nat, since: real)
  {
    && a.rate == b.rate && a.burst == b.burst && Sound(a, clock) && Sound(b, clock)
    && Available(a, clock) >= Available(b, clock) && History(g, b, n, since, clock)
    && ((Available(a, clock) == Available(b, clock) && (stored ==> since <= seen && b.last <= seen))
        || (clock - since > idle && !RefilledBy(b, idle)))
  }

  ghost predicate Pair(g: Bucket, a: Bucket, b: Bucket, stored: bool, seen: real, idle: real, clock: real) {
    exists n: nat, since: real :: PairBy(g, a, b, stored, seen, idle, clock, n, since)
  }

  lemma HistoryLater(g: Bucket, b: Bucket, n: nat, since: real, clock: real, now: real)
    requires Sound(g, clock) && Sound(b, clock) && clock <= now && History(g, b, n, since, clock)
    ensures History(g, b, n, since, now)
  {
    hide Available, Earned;
    Refill(g, clock, now);
    Refill(b, clock, now);
    EarnedSplits(g.rate, since, clock, now);
    EarnedSplits(b.rate, since, clock, now);
    EarnedNonnegative(g.rate, clock, now);
    EarnedNonnegative(b.rate, clock, now);
  }

  lemma AvailableAtMost(b: Bucket, now: real)
    ensures Available(b, now) <= b.burst as real
  {}

  lemma EarnedNow(rate: real, now: real)
    ensures Earned(rate, now, now) == 0.0
  {}

  lemma HistoryFull(g: Bucket, b: Bucket, clock: real)
    requires FullAt(b, clock)
    ensures History(g, b, 0, clock, clock)
  {
    hide Available, Earned;
    AvailableAtMost(g, clock);
    EarnedNow(g.rate, clock);
    EarnedNow(b.rate, clock);
  }

  /** The global bucket pays for a call of another bucket. */
  lemma HistoryOther(g: Bucket, b: Bucket, n: nat, since: real, now: real)
    requires Sound(g, now) && History(g, b, n, since, now)
    ensures History(Take(g, now), b, n, since, now)
  {
    hide Available, Earned;
    TakeCosts(g, now, now);
  }

  /** Both pay; a bucket that is full by then starts a new history. */
  lemma HistoryOwn(g: Bucket, b: Bucket, n: nat, since: real, now: real) returns (n': nat, since': real)
    requires Sound(g, now) && Sound(b, now) && History(g, b, n, since, now) && CanTake(g, now) && CanTake(b, now)
    ensures History(Take(g, now), Take(b, now), n', since', now)
    ensures (since' == since || (FullAt(b, now) && since' == now))
  {
    hide Available, Earned;
    TakeCosts(g, now, now);
    TakeCosts(b, now, now);
    AvailableAtMost(b, now);
    AvailableAtMost(g, now);
    if n as real >= Earned(b.rate, since, now) {
      n', since' := n + 1, since;
    } else {
      n', since' := 1, now;
      EarnedNow(g.rate, now);
      EarnedNow(b.rate, now);
    }
  }

  lemma PairLater(g: Bucket, a: Bucket, b: Bucket, stored: bool, seen: real, idle: real, clock: real, now: real)
    requires Sound(g, clock) && clock <= now && Pair(g, a, b, stored, seen, idle, clock)
    ensures Pair(g, a, b, stored, seen, idle, now)
  {
    hide Available, Earned, History;
    var n: nat, since: real :| PairBy(g, a, b, stored, seen, idle, clock, n, since);
    HistoryLater(g, b, n, since, clock, now);
    HistoryBegan(g, b, n, since, clock);
    Refill(a, clock, now);
    Refill(b, clock, now);
    assert PairBy(g, a, b, stored, seen, idle, now, n, since);
  }

  lemma HistoryBegan(g: Bucket, b: Bucket, n: nat, since: real, clock: real)
    requires History(g, b, n, since, clock)
    ensures since <= clock
  {}

  /** The record is touched, by whatever call. */
  lemma PairTouched(g: Bucket, a: Bucket, b: Bucket, stored: bool, seen: real, idle: real, now: real)
    requires Pair(g, a, b, stored, seen, idle, now)
    ensures Pair(g, a, b, true, now, idle, now)
  {
    hide Available, Earned, History;
    var n: nat, since: real :| PairBy(g, a, b, stored, seen, idle, now, n, since);
    HistoryBegan(g, b, n, since, now);
    assert PairBy(g, a, b, true, now, idle, now, n, since);
  }

  lemma PairOther(g: Bucket, a: Bucket, b: Bucket, stored: bool, seen: real, idle: real, now: real)
    requires Sound(g, now) && Pair(g, a, b, stored, seen, idle, now)
    ensures Pair(Take(g, now), a, b, stored, seen, idle, now)
  {
    hide Available, Earned, History;
    var n: nat, since: real :| PairBy(g, a, b, stored, seen, idle, now, n, since);
    HistoryOther(g, b, n, since, now);
    assert PairBy(Take(g, now), a, b, stored, seen, idle, now, n, since);
  }

  /** A bucket that has run out while the global one has not: more tokens are gone than it earned
      back, and the global bucket could pay for them. */
  lemma RunOutMeans(g: Bucket, b: Bucket, n: nat, since: real, now: real)
    requires b.burst >= 1 && History(g, b, n, since, now) && CanTake(g, now) && !CanTake(b, now)
    ensures (n - b.burst + 1) as real > b.rate * (now - since)
    ensures g.burst >= 1 && n as real <= g.burst as real - 1.0 + g.rate * (now - since)
  {
    hide Available;
    AvailableAtMost(g, now);
  }

  lemma BurstPositive(b: Bucket, idle: real)
    requires b.rate >= 0.0 && idle >= 0.0 && !RefilledBy(b, idle)
    ensures b.burst >= 1 && b.rate * idle < b.burst as real
  {
    EarnedNonnegative(b.rate, 0.0, idle);
  }

  lemma MoreThanEarned(r: real, idle: real, y: real, k: int)
    requires r >= 0.0 && 0.0 <= idle <= y && k as real > r * y
    ensures k >= FewestAfter(r, idle) && k > 0
  {
    EarnedNonnegative(r, 0.0, idle);
    assert r * idle <= r * y by { EarnedNonnegative(r, idle, y); EarnedSplits(r, 0.0, idle, y); }
  }

  /** Where the limiter cannot tell, a bucket that was parted from its twin by an eviction does
      not run out before the global one does. */
  lemma NotRunOut(g: Bucket, b: Bucket, n: nat, since: real, idle: real, now: real)
    requires g.rate >= 0.0 && b.rate >= 0.0 && History(g, b, n, since, now) && 0.0 <= idle < now - since
    requires !RefilledBy(b, idle) && !Telling(g.rate, g.burst, b.rate, b.burst, idle)
    requires CanTake(g, now)
    ensures CanTake(b, now)
  {
    hide Available, History, CanTake, Telling, FewestAfter;
    BurstPositive(b, idle);
    if !CanTake(b, now) {
      RunOutMeans(g, b, n, since, now);
      MoreThanEarned(b.rate, idle, now - since, n - b.burst + 1);
      CannotTell(g.rate, g.burst, b.rate, b.burst, idle, now - since, n);
      assert false;
    }
  }

  lemma ScaledAtMost(a: real, x: real, y: real)
    requires a >= 0.0 && x <= y
    ensures a * x <= a * y
  {
    assert a * y - a * x == a * (y - x);
  }

  lemma Regroup(r: real, spare: real, R: real, y: real)
    ensures r * (spare + R * y) == r * spare + R * (r * y)
  {
    assert r * (R * y) == R * (r * y);
  }

  lemma Difference(k: real, r: real, R: real)
    ensures (r - R) * k == r * k - R * k
  {}

  /** A global bucket that is refilled, no faster than the bucket. */
  lemma SlowCannotTell(R: real, r: real, spare: real, y: real, k: real, fewest: real)
    requires 0.0 < R <= r && r * y < k && k <= spare + R * y && fewest <= k
    ensures r * spare > fewest * (r - R)
  {
    var earned := r * y;
    ScaledAtMost(r, k, spare + R * y);
    Regroup(r, spare, R, y);
    ScaledLess(R, earned, k);
    ScaledAtMost(r - R, fewest, k);
    Difference(k, r, R);
  }

  /** The arithmetic of NotRunOut. */
  lemma CannotTell(R: real, G: nat, r: real, b: nat, idle: real, y: real, n: nat)
    requires 0.0 <= r && 0.0 <= R && 0.0 <= idle < y && G >= 1
    requires (n - b + 1) as real > r * y && n - b + 1 >= FewestAfter(r, idle)
    requires n as real <= G as real - 1.0 + R * y
    ensures Telling(R, G, r, b, idle)
  {
    hide FewestAfter;
    if R == 0.0 {
      assert R * y == 0.0;
    } else if R <= r {
      SlowCannotTell(R, r, G as real - b as real, y, (n - b + 1) as real, FewestAfter(r, idle) as real);
    }
  }

  /** Both twins answer the same call of theirs alike when the global bucket pays, and stay a pair. */
  lemma PairOwn(g: Bucket, a: Bucket, b: Bucket, stored: bool, seen: real, idle: real, now: real)
    requires Sound(g, now) && 0.0 <= idle && Pair(g, a, b, stored, seen, idle, now)
    requires b.rate >= 0.0 && (RefilledBy(b, idle) || !Telling(g.rate, g.burst, b.rate, b.burst, idle))
    ensures Admits(g, a, now) == Admits(g, b, now)
    ensures Pair(Take(g, now), ChargeOwn(g, a, now), ChargeOwn(g, b, now), true, now, idle, now)
  {
    hide Available, Earned, History, Telling;
    var n: nat, since: real :| PairBy(g, a, b, stored, seen, idle, now, n, since);
    HistoryBegan(g, b, n, since, now);
    TakeCosts(a, now, now);
    TakeCosts(b, now, now);
    if CanTake(g, now) && CanTake(b, now) {
      AvailableAtMost(a, now);
      var n', since' := HistoryOwn(g, b, n, since, now);
      assert PairBy(Take(g, now), Take(a, now), Take(b, now), true, now, idle, now, n', since');
    } else {
      if CanTake(g, now) && now - since > idle && !RefilledBy(b, idle) {
        NotRunOut(g, b, n, since, idle, now);
      }
      HistoryOther(g, b, n, since, now);
      assert PairBy(Take(g, now), a, b, true, now, idle, now, n, since);
    }
  }

  /** An eviction replaces `a` by a full bucket. */
  lemma PairEvicted(g: Bucket, a: Bucket, b: Bucket, seen: real, idle: real, now: real)
    requires Sound(g, now) && 0.0 <= idle && 0.0 <= now && Pair(g, a, b, true, seen, idle, now) && now - seen > idle
    ensures Pair(g, Fresh(a.rate, a.burst), b, false, 0.0, idle, now)
  {
    hide Available, Earned, History;
    var full := Fresh(a.rate, a.burst);
    var n: nat, since: real :| PairBy(g, a, b, true, seen, idle, now, n, since);
    FreshFull(a.rate, a.burst, now);
    AvailableAtMost(b, now);
    if now - since > idle && !RefilledBy(b, idle) {
      assert PairBy(g, full, b, false, 0.0, idle, now, n, since);
    } else {
      assert RefilledBy(b, idle);
      IdleRefills(b, idle, now);
      HistoryFull(g, b, now);
      assert PairBy(g, full, b, false, 0.0, idle, now, 0, now);
    }
  }

  lemma PairFresh(g: Bucket, b: Bucket, idle: real, now: real)
    requires b.rate >= 0.0 && 0.0 <= now && b == Fresh(b.rate, b.burst)
    ensures Pair(g, b, b, false, 0.0, idle, now)
  {
    hide Available, Earned, History;
    FreshFull(b.rate, b.burst, now);
    HistoryFull(g, b, now);
    assert PairBy(g, b, b, false, 0.0, idle, now, 0, now);
  }

  function SeenAt(s: State, uid: int): real {
    if uid in s.users then s.users[uid].lastSeen else 0.0
  }

  /** A bucket of the limiter and of the simple limiter are a pair. */
  ghost predicate KeyPaired(cfg: Config, s: State, i: Ideal, key: Key, idle: real, clock: real)
    requires key != Global
  {
    && BucketOf(i, key).rate == KeyRate(cfg, key) && BucketOf(i, key).burst == KeyBurst(cfg, key)
    && Pair(s.global, Found(cfg, s, key), BucketOf(i, key), key.uid in s.users, SeenAt(s, key.uid), idle, clock)
  }

  ghost predicate Paired(cfg: Config, s: State, i: Ideal, idle: real, clock: real) {
    && 0.0 <= clock && s.global == i.global && Sound(s.global, clock)
    && s.global.rate == cfg.globalRate && s.global.burst == cfg.globalBurst
    && forall key | key != Global :: KeyPaired(cfg, s, i, key, idle, clock)
  }

  /** What a call does to its own bucket, in both limiters. */
  lemma OwnEffect(cfg: Config, s: State, i: Ideal, key: Key, now: real)
    requires key != Global && s.global == i.global
    ensures var call := CallOf(key, now); var s', i' := Next(cfg, s, call), IdealNext(i, call);
      && Decision(cfg, s, call) == Admits(s.global, Found(cfg, s, key), now)
      && IdealDecision(i, call) == Admits(s.global, BucketOf(i, key), now)
      && s'.global == i'.global == Take(s.global, now)
      && Found(cfg, s', key) == ChargeOwn(s.global, Found(cfg, s, key), now)
      && BucketOf(i', key) == ChargeOwn(s.global, BucketOf(i, key), now)
      && key.uid in s'.users && SeenAt(s', key.uid) == now
  {
    hide Take, CanTake, Admits, ChargeOwn;
  }

  /** What a call does to the other buckets: nothing, but their user may be touched. */
  lemma OtherEffect(cfg: Config, s: State, i: Ideal, call: Call, key: Key)
    requires key != Global && !call.Cleanup? && s.global == i.global && call != CallOf(key, call.now)
    ensures var s', i' := Next(cfg, s, call), IdealNext(i, call);
      && s'.global == i'.global == Take(s.global, call.now)
      && Found(cfg, s', key) == Found(cfg, s, key) && BucketOf(i', key) == BucketOf(i, key)
      && (if call.uid == key.uid then key.uid in s'.users && SeenAt(s', key.uid) == call.now
          else (key.uid in s'.users <==> key.uid in s.users) && SeenAt(s', key.uid) == SeenAt(s, key.uid))
  {
    hide Take, CanTake, Admits, ChargeOwn;
  }

  lemma TakeKeepsLimits(b: Bucket, now: real)
    ensures Take(b, now).rate == b.rate && Take(b, now).burst == b.burst
  {}

  lemma OwnStep(cfg: Config, s: State, i: Ideal, key: Key, idle: real, now: real)
    requires WellFormed(cfg) && key != Global && 0.0 <= idle && !Shows(cfg, key, idle)
    requires s.global == i.global && Sound(s.global, now)
    requires s.global.rate == cfg.globalRate && s.global.burst == cfg.globalBurst
    requires KeyPaired(cfg, s, i, key, idle, now)
    ensures var call := CallOf(key, now);
      Decision(cfg, s, call) == IdealDecision(i, call)
      && KeyPaired(cfg, Next(cfg, s, call), IdealNext(i, call), key, idle, now)
  {
    hide Found, Next, IdealNext, Decision, IdealDecision, BucketOf;
    hide Take, Admits, Pair, Telling, KeyRate, KeyBurst, Sound;
    OwnEffect(cfg, s, i, key, now);
    RateNonnegative(cfg, key);
    var b := BucketOf(i, key);
    PairOwn(s.global, Found(cfg, s, key), b, key.uid in s.users, SeenAt(s, key.uid), idle, now);
    TakeKeepsLimits(b, now);
  }

  lemma OtherStep(cfg: Config, s: State, i: Ideal, call: Call, key: Key, idle: real)
    requires key != Global && !call.Cleanup? && s.global == i.global && call != CallOf(key, call.now)
    requires Sound(s.global, call.now) && KeyPaired(cfg, s, i, key, idle, call.now)
    ensures KeyPaired(cfg, Next(cfg, s, call), IdealNext(i, call), key, idle, call.now)
  {
    hide Found, Next, IdealNext, BucketOf, Take, Pair, KeyRate, KeyBurst, SeenAt, Sound, CallOf;
    OtherEffect(cfg, s, i, call, key);
    var a, b, stored, seen := Found(cfg, s, key), BucketOf(i, key), key.uid in s.users, SeenAt(s, key.uid);
    PairOther(s.global, a, b, stored, seen, idle, call.now);
    PairTouched(Take(s.global, call.now), a, b, stored, seen, idle, call.now);
  }

  lemma SweepStep(cfg: Config, s: State, i: Ideal, key: Key, idle: real, now: real)
    requires WellFormed(cfg) && key != Global && 0.0 <= idle && 0.0 <= now && Sound(s.global, now)
    requires KeyPaired(cfg, s, i, key, idle, now)
    ensures KeyPaired(cfg, Next(cfg, s, Cleanup(idle, now)), i, key, idle, now)
  {
    hide Pair, Sound;
    var s' := Next(cfg, s, Cleanup(idle, now));
    if key.uid in s.users && Idle(s.users[key.uid], idle, now) {
      PairLimits(s.global, Found(cfg, s, key), BucketOf(i, key), true, SeenAt(s, key.uid), idle, now);
      PairEvicted(s.global, Found(cfg, s, key), BucketOf(i, key), SeenAt(s, key.uid), idle, now);
      NewIsFresh(cfg, s', key);
    }
  }

  lemma PairLimits(g: Bucket, a: Bucket, b: Bucket, stored: bool, seen: real, idle: real, clock: real)
    requires Pair(g, a, b, stored, seen, idle, clock)
    ensures a.rate == b.rate && a.burst == b.burst
  {}

  /** The bucket a call is about. */
  function KeyOf(call: Call): Key
    requires !call.Cleanup?
  {
    if call.Allow? then General(call.uid) else Command(call.uid, call.command)
  }

  lemma StepPaired(cfg: Config, s: State, i: Ideal, call: Call, idle: real, clock: real)
    requires WellFormed(cfg) && 0.0 <= idle && (forall key :: !Shows(cfg, key, idle))
    requires Paired(cfg, s, i, idle, clock) && clock <= call.now && (call.Cleanup? ==> call.maxIdle == idle)
    ensures Decision(cfg, s, call) == IdealDecision(i, call)
    ensures Paired(cfg, Next(cfg, s, call), IdealNext(i, call), idle, call.now)
  {
    hide Shows, Pair, Found, BucketOf, KeyRate, KeyBurst, Take, Available, SeenAt;
    TakeCosts(s.global, clock, call.now);
    TakeKeepsLimits(s.global, call.now);
    forall key | key != Global ensures KeyPaired(cfg, Next(cfg, s, call), IdealNext(i, call), key, idle, call.now) {
      KeyLater(cfg, s, i, key, idle, clock, call.now);
      if call.Cleanup? {
        SweepStep(cfg, s, i, key, idle, call.now);
      } else if call == CallOf(key, call.now) {
        OwnStep(cfg, s, i, key, idle, call.now);
      } else {
        OtherStep(cfg, s, i, call, key, idle);
      }
    }
    if !call.Cleanup? {
      KeyLater(cfg, s, i, KeyOf(call), idle, clock, call.now);
      OwnStep(cfg, s, i, KeyOf(call), idle, call.now);
      OwnEffect(cfg, s, i, KeyOf(call), call.now);
    }
  }

  lemma KeyLater(cfg: Config, s: State, i: Ideal, key: Key, idle: real, clock: real, now: real)
    requires key != Global && Sound(s.global, clock) && clock <= now && KeyPaired(cfg, s, i, key, idle, clock)
    ensures KeyPaired(cfg, s, i, key, idle, now) && Sound(s.global, now)
  {
    hide Pair, Found, BucketOf, KeyRate, KeyBurst, SeenAt;
    PairLater(s.global, Found(cfg, s, key), BucketOf(i, key), key.uid in s.users, SeenAt(s, key.uid), idle, clock, now);
  }

  lemma InitPaired(cfg: Config, idle: real)
    requires WellFormed(cfg)
    ensures Paired(cfg, Init(cfg), IdealInit(cfg), idle, 0.0)
  {
    hide Pair;
    var s, i := Init(cfg), IdealInit(cfg);
    forall key | key != Global ensures KeyPaired(cfg, s, i, key, idle, 0.0) {
      NewIsFresh(cfg, s, key);
      KeyLimits(cfg, key);
      PairFresh(s.global, BucketOf(i, key), idle, 0.0);
    }
  }

  lemma {:induction false} PairedRunsAgree(cfg: Config, s: State, i: Ideal, calls: seq<Call>, idle: real, clock: real)
    requires WellFormed(cfg) && 0.0 <= idle && (forall key :: !Shows(cfg, key, idle))
    requires Paired(cfg, s, i, idle, clock) && Ordered(calls, clock) && CleansWith(calls, idle)
    ensures Decisions(cfg, s, calls) == IdealDecisions(i, calls)
    decreases |calls|
  {
    hide Paired, Decision, IdealDecision, Next, IdealNext, Shows;
    if calls != [] {
      StepPaired(cfg, s, i, calls[0], idle, clock);
      PairedRunsAgree(cfg, Next(cfg, s, calls[0]), IdealNext(i, calls[0]), calls[1..], idle, calls[0].now);
    }
  }

  /** Main result, for every configuration: eviction after `maxIdle` changes no decision of any run
      if and only if the global bucket lets no bucket be seen that `maxIdle` does not refill. */
  lemma InvisibleIff(cfg: Config, maxIdle: real)
    requires WellFormed(cfg) && 0.0 <= maxIdle
    ensures (forall key :: !Shows(cfg, key, maxIdle))
      <==> forall calls | Ordered(calls, 0.0) && CleansWith(calls, maxIdle) ::
        Decisions(cfg, Init(cfg), calls) == IdealDecisions(IdealInit(cfg), calls)
  {
    hide Shows, Decisions, IdealDecisions, Ordered;
    if forall key :: !Shows(cfg, key, maxIdle) {
      forall calls | Ordered(calls, 0.0) && CleansWith(calls, maxIdle)
        ensures Decisions(cfg, Init(cfg), calls) == IdealDecisions(IdealInit(cfg), calls)
      {
        InitPaired(cfg, maxIdle);
        PairedRunsAgree(cfg, Init(cfg), IdealInit(cfg), calls, maxIdle, 0.0);
      }
    } else {
      var key :| Shows(cfg, key, maxIdle);
      var calls := ShortIdleIsVisible(cfg, key, maxIdle);
      assert CleansWith(calls, maxIdle);
    }
  }

  /** Where the global bucket outruns every user's buckets, as a limiter for many users has it, only
      the refilling counts. */
  lemma InvisibleIffRefilled(cfg: Config, maxIdle: real)
    requires WellFormed(cfg) && 0.0 <= maxIdle
    requires cfg.globalBurst >= 1 && forall key | key != Global :: cfg.globalRate > KeyRate(cfg, key)
    ensures Covers(cfg, maxIdle)
      <==> forall calls | Ordered(calls, 0.0) && CleansWith(calls, maxIdle) ::
        Decisions(cfg, Init(cfg), calls) == IdealDecisions(IdealInit(cfg), calls)
  {
    InvisibleIff(cfg, maxIdle);
    CoversIff(cfg, maxIdle);
  }

  lemma CoversIff(cfg: Config, maxIdle: real)
    requires WellFormed(cfg) && 0.0 <= maxIdle
    requires cfg.globalBurst >= 1 && forall key | key != Global :: cfg.globalRate > KeyRate(cfg, key)
    ensures Covers(cfg, maxIdle) <==> forall key :: !Shows(cfg, key, maxIdle)
  {
    if forall key :: !Shows(cfg, key, maxIdle) {
      assert !Shows(cfg, General(0), maxIdle);
      forall c <- cfg.commandRate ensures RefilledBy(NewCommand(cfg, c), maxIdle) {
        assert !Shows(cfg, Command(0, c), maxIdle);
      }
    }
  }
}
