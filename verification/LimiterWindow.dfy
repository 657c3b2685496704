/** Rate bounds over whole runs. They are proved on the ideal limiter, one bucket at a
    time, and carried to the real one by LimiterTransparency. */
module LimiterWindow {
  import opened TokenBucket
  import opened LimiterSpec
  import opened LimiterTransparency

  /** One of the buckets, and the calls it is there to bound. */
  datatype Key = Global | General(uid: int) | Command(uid: int, command: string)

  predicate Concerns(call: Call, key: Key) {
    match key
    case Global => !call.Cleanup?
    case General(uid) => call.Allow? && call.uid == uid
    case Command(uid, command) => call.AllowCommand? && call.uid == uid && call.command == command
  }

  function BucketOf(i: Ideal, key: Key): Bucket {
    match key
    case Global => i.global
    case General(uid) => i.general(uid)
    case Command(uid, command) => i.command(uid, command)
  }

  function KeyRate(cfg: Config, key: Key): real {
    BucketOf(IdealInit(cfg), key).rate
  }

  function KeyBurst(cfg: Config, key: Key): nat {
    BucketOf(IdealInit(cfg), key).burst
  }

  /** Calls of `key` admitted with a clock reading in [from, to]. */
  function AdmittedIn(calls: seq<Call>, decisions: seq<bool>, key: Key, from: real, to: real): nat
    requires |calls| == |decisions|
    decreases |calls|
  {
    if calls == [] then 0
    else (if decisions[0] && Concerns(calls[0], key) && from <= calls[0].now <= to then 1 else 0)
         + AdmittedIn(calls[1..], decisions[1..], key, from, to)
  }

  /** An admission costs the call's buckets a token each, and no call adds tokens. */
  lemma StepCosts(i: Ideal, call: Call, key: Key, clock: real)
    requires Sound(BucketOf(i, key), clock) && Sound(i.global, clock) && clock <= call.now
    ensures var b, b' := BucketOf(i, key), BucketOf(IdealNext(i, call), key);
      && Sound(b', call.now) && b'.rate == b.rate && b'.burst == b.burst
      && Available(b', call.now)
         <= Available(b, call.now) - (if IdealDecision(i, call) && Concerns(call, key) then 1.0 else 0.0)
    ensures Sound(IdealNext(i, call).global, call.now)
  {
    TakeCosts(BucketOf(i, key), clock, call.now);
    TakeCosts(i.global, clock, call.now);
    Refill(BucketOf(i, key), clock, call.now);
  }

  lemma AdmittedUnfold(i: Ideal, calls: seq<Call>, key: Key, from: real, to: real)
    requires calls != []
    ensures var call := calls[0];
      AdmittedIn(calls, IdealDecisions(i, calls), key, from, to)
      == (if IdealDecision(i, call) && Concerns(call, key) && from <= call.now <= to then 1 else 0)
         + AdmittedIn(calls[1..], IdealDecisions(IdealNext(i, call), calls[1..]), key, from, to)
  {
    assert IdealDecisions(i, calls)[1..] == IdealDecisions(IdealNext(i, calls[0]), calls[1..]);
  }

  /** From `clock` on, with `v` tokens there, at most v + rate * (to - clock) are admitted by `to`. */
  lemma {:induction false} AdmittedFrom(i: Ideal, calls: seq<Call>, key: Key, clock: real, from: real, to: real)
    requires Sound(BucketOf(i, key), clock) && Sound(i.global, clock) && Ordered(calls, clock)
    ensures var b, n := BucketOf(i, key), AdmittedIn(calls, IdealDecisions(i, calls), key, from, to);
      if clock <= to then n as real <= Available(b, clock) + Earned(b.rate, clock, to) else n == 0
    decreases |calls|
  {
    hide Available, Earned;
    var b := BucketOf(i, key);
    Refill(b, clock, clock);
    if clock <= to { EarnedNonnegative(b.rate, clock, to); }
    if calls != [] {
      var call := calls[0];
      StepCosts(i, call, key, clock);
      AdmittedUnfold(i, calls, key, from, to);
      AdmittedFrom(IdealNext(i, call), calls[1..], key, call.now, from, to);
      if call.now <= to {
        Refill(b, clock, call.now);
        EarnedSplits(b.rate, clock, call.now, to);
      }
    }
  }

  /** Any window: at most burst + rate * length, whatever happened before it. */
  lemma {:induction false} AdmittedWithin(i: Ideal, calls: seq<Call>, key: Key, clock: real, from: real, to: real)
    requires Sound(BucketOf(i, key), clock) && Sound(i.global, clock) && Ordered(calls, clock)
    requires from <= to
    ensures var b, n := BucketOf(i, key), AdmittedIn(calls, IdealDecisions(i, calls), key, from, to);
      n as real <= b.burst as real + Earned(b.rate, from, to)
    decreases |calls|
  {
    hide Available, Earned;
    var b := BucketOf(i, key);
    EarnedNonnegative(b.rate, from, to);
    if calls != [] {
      var call := calls[0];
      if call.now < from {
        StepCosts(i, call, key, clock);
        AdmittedUnfold(i, calls, key, from, to);
        AdmittedWithin(IdealNext(i, call), calls[1..], key, call.now, from, to);
      } else {
        Refill(b, clock, call.now);
        StepCosts(i, call, key, clock);
        assert Sound(b, call.now) && Sound(i.global, call.now) && Ordered(calls, call.now);
        AdmittedFrom(i, calls, key, call.now, from, to);
        EarnedSplits(b.rate, from, call.now, to);
        EarnedNonnegative(b.rate, from, call.now);
      }
    }
  }

  lemma IdealStartSound(cfg: Config, key: Key)
    requires WellFormed(cfg)
    ensures Sound(BucketOf(IdealInit(cfg), key), 0.0)
  {}

  /** Main result: the window bound for every bucket, over every run with evictions. */
  lemma WindowBound(cfg: Config, calls: seq<Call>, key: Key, from: real, to: real)
    requires WellFormed(cfg) && Ordered(calls, 0.0) && CleanupsCover(cfg, calls) && from <= to
    ensures AdmittedIn(calls, Decisions(cfg, Init(cfg), calls), key, from, to) as real
         <= KeyBurst(cfg, key) as real + Earned(KeyRate(cfg, key), from, to)
  {
    hide Available, Earned;
    EvictionInvisible(cfg, calls);
    IdealStartSound(cfg, key);
    IdealStartSound(cfg, Global);
    AdmittedWithin(IdealInit(cfg), calls, key, 0.0, from, to);
  }

  /** Calls of `key` come far enough apart for one token to be earned in between. */
  predicate Spaced(calls: seq<Call>, key: Key, rate: real) {
    forall j, k | 0 <= j < k < |calls| && Concerns(calls[j], key) && Concerns(calls[k], key) ::
      Earned(rate, calls[j].now, calls[k].now) >= 1.0
  }

  /** Along the run from `s`, a call of `key` the global bucket lets through is admitted. */
  predicate OnlyGlobalDenies(cfg: Config, s: State, calls: seq<Call>, key: Key)
    decreases |calls|
  {
    calls == [] ||
    (&& (Concerns(calls[0], key) && CanTake(s.global, calls[0].now) ==> Decision(cfg, s, calls[0]))
     && OnlyGlobalDenies(cfg, Next(cfg, s, calls[0]), calls[1..], key))
  }

  lemma {:induction false} SpacedAdmitted(cfg: Config, s: State, i: Ideal, calls: seq<Call>, key: Key, clock: real)
    requires WellFormed(cfg) && Related(cfg, s, i, clock) && Ordered(calls, clock) && CleanupsCover(cfg, calls)
    requires key != Global && Sound(BucketOf(i, key), clock)
    requires BucketOf(i, key).burst >= 1 && Spaced(calls, key, BucketOf(i, key).rate)
    requires forall k | 0 <= k < |calls| && Concerns(calls[k], key) ::
      Available(BucketOf(i, key), calls[k].now) >= 1.0
    ensures OnlyGlobalDenies(cfg, s, calls, key)
    decreases |calls|
  {
    hide Available, Earned;
    if calls != [] {
      var call, rest := calls[0], calls[1..];
      var b, b' := BucketOf(i, key), BucketOf(IdealNext(i, call), key);
      StepRelated(cfg, s, i, call, clock);
      StepCosts(i, call, key, clock);
      forall k | 0 <= k < |rest| && Concerns(rest[k], key) ensures Available(b', rest[k].now) >= 1.0 {
        assert rest[k] == calls[k + 1];
        if Concerns(call, key) {
          OrderedFrom(rest, call.now, k);
          Refill(b', call.now, rest[k].now);
        }
      }
      assert Spaced(rest, key, b.rate) by {
        forall j, k | 0 <= j < k < |rest| && Concerns(rest[j], key) && Concerns(rest[k], key)
          ensures Earned(b.rate, rest[j].now, rest[k].now) >= 1.0
        {
          assert rest[j] == calls[j + 1] && rest[k] == calls[k + 1];
        }
      }
      SpacedAdmitted(cfg, Next(cfg, s, call), IdealNext(i, call), rest, key, call.now);
    }
  }

  lemma {:induction false} OrderedFrom(calls: seq<Call>, clock: real, k: nat)
    requires Ordered(calls, clock) && k < |calls|
    ensures clock <= calls[k].now
    decreases |calls|
  {
    if k > 0 { OrderedFrom(calls[1..], calls[0].now, k - 1); }
  }

  /** Main result: a user who spaces the calls of one bucket by 1/rate is never denied by it. */
  lemma SpacedNeverDeniedByOwn(cfg: Config, calls: seq<Call>, key: Key)
    requires WellFormed(cfg) && Ordered(calls, 0.0) && CleanupsCover(cfg, calls)
    requires key != Global && KeyBurst(cfg, key) >= 1 && Spaced(calls, key, KeyRate(cfg, key))
    ensures OnlyGlobalDenies(cfg, Init(cfg), calls, key)
  {
    var i := IdealInit(cfg);
    InitRelated(cfg, 0.0);
    IdealStartSound(cfg, key);
    forall k | 0 <= k < |calls| && Concerns(calls[k], key)
      ensures Available(BucketOf(i, key), calls[k].now) >= 1.0
    {
      OrderedFrom(calls, 0.0, k);
      Refill(BucketOf(i, key), 0.0, calls[k].now);
    }
    SpacedAdmitted(cfg, Init(cfg), i, calls, key, 0.0);
  }
}
