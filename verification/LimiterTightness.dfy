/** The refill condition of LimiterTransparency is needed: if `maxIdle` is too short for any
    one bucket of a user, and the global bucket lets enough through to tell, some run is decided
    differently because of an eviction. */
module LimiterTightness {
  import opened TokenBucket
  import opened LimiterSpec
  import opened LimiterTransparency
  import opened LimiterWindow

  /** A call of a user's bucket `key`. */
  function CallOf(key: Key, now: real): Call
    requires key != Global
  {
    match key
    case General(uid) => Allow(uid, now)
    case Command(uid, command) => AllowCommand(uid, command, now)
  }

  /** The bucket `key` would find, as a new or a stored record has it. */
  function Found(cfg: Config, s: State, key: Key): Bucket
    requires key != Global
  {
    match key
    case General(uid) => GeneralOf(cfg, s, uid)
    case Command(uid, command) => CommandOf(cfg, s, uid, command)
  }

  /** The fewest whole tokens that are more than `idle` seconds earn. */
  function FewestAfter(rate: real, idle: real): nat
    requires rate >= 0.0 && idle >= 0.0
  {
    EarnedNonnegative(rate, 0.0, idle);
    (rate * idle).Floor + 1
  }

  /** Whether a global bucket of rate `R` and burst `G` lets enough calls through to tell a bucket
      of rate `r` and burst `b` from a fresh one after `idle` seconds: it outruns the bucket, or it
      can pay for the whole bucket and, later, for more tokens than the bucket earns back. */
  predicate Telling(R: real, G: nat, r: real, b: nat, idle: real)
    requires r >= 0.0 && idle >= 0.0
  {
    if R > r then G >= 1
    else if R == 0.0 then G >= b + FewestAfter(r, idle)
    else r * (G as real - b as real) > FewestAfter(r, idle) as real * (r - R)
  }

  /** `maxIdle` does not refill the bucket, and the global bucket lets that be seen. */
  predicate Shows(cfg: Config, key: Key, maxIdle: real)
    requires WellFormed(cfg) && maxIdle >= 0.0
  {
    && key != Global
    && !RefilledBy(Fresh(KeyRate(cfg, key), KeyBurst(cfg, key)), maxIdle)
    && (RateNonnegative(cfg, key);
        Telling(cfg.globalRate, cfg.globalBurst, KeyRate(cfg, key), KeyBurst(cfg, key), maxIdle))
  }

  lemma RateNonnegative(cfg: Config, key: Key)
    requires WellFormed(cfg)
    ensures KeyRate(cfg, key) >= 0.0
  {}

  /** `n` calls of one bucket, `gap` seconds apart. */
  function Drip(key: Key, start: real, gap: real, n: nat): seq<Call>
    requires key != Global
    decreases n
  {
    if n == 0 then [] else [CallOf(key, start)] + Drip(key, start + gap, gap, n - 1)
  }

  /** When the last of them comes. */
  function LastAt(start: real, gap: real, n: nat): real
    decreases n
  {
    if n <= 1 then start else LastAt(start + gap, gap, n - 1)
  }

  lemma {:induction false} LastAtIs(start: real, gap: real, n: nat)
    requires n >= 1
    ensures LastAt(start, gap, n) == start + (n - 1) as real * gap
    decreases n
  {
    if n > 1 {
      LastAtIs(start + gap, gap, n - 1);
      assert (n - 1) as real * gap == gap + (n - 2) as real * gap;
    }
  }

  /** A bucket with `a` tokens pays for `n` takes that come `gap` seconds apart. */
  predicate Lasts(b: Bucket, a: real, gap: real, n: nat)
    decreases n
  {
    n == 0 || (a >= 1.0 && Lasts(b, Min(b.burst as real, a - 1.0 + Earned(b.rate, 0.0, gap)), gap, n - 1))
  }

  lemma {:induction false} LastsMore(b: Bucket, a: real, a': real, gap: real, n: nat)
    requires a <= a' && Lasts(b, a, gap, n)
    ensures Lasts(b, a', gap, n)
    decreases n
  {
    hide Earned;
    if n > 0 {
      var e := Earned(b.rate, 0.0, gap);
      LastsMore(b, Min(b.burst as real, a - 1.0 + e), Min(b.burst as real, a' - 1.0 + e), gap, n - 1);
    }
  }

  /** Takes at one moment cost a token each. */
  lemma {:induction false} LastsBurst(b: Bucket, a: real, n: nat)
    requires n as real <= a <= b.burst as real
    ensures Lasts(b, a, 0.0, n)
    decreases n
  {
    if n > 0 { LastsBurst(b, a - 1.0, n - 1); }
  }

  /** A bucket that earns a token between takes never runs out. */
  lemma {:induction false} LastsForever(b: Bucket, a: real, gap: real, n: nat)
    requires a >= 1.0 && b.burst >= 1 && Earned(b.rate, 0.0, gap) >= 1.0
    ensures Lasts(b, a, gap, n)
    decreases n
  {
    hide Earned;
    if n > 0 { LastsForever(b, Min(b.burst as real, a - 1.0 + Earned(b.rate, 0.0, gap)), gap, n - 1); }
  }

  /** A bucket that earns less than a token between takes lasts until the tokens are gone. */
  lemma {:induction false} LastsWhile(b: Bucket, a: real, gap: real, n: nat)
    requires 0.0 <= Earned(b.rate, 0.0, gap) <= 1.0 && a <= b.burst as real
    requires n > 0 ==> a + (n - 1) as real * Earned(b.rate, 0.0, gap) >= n as real
    ensures Lasts(b, a, gap, n)
    decreases n
  {
    hide Earned;
    if n > 0 {
      var e := Earned(b.rate, 0.0, gap);
      assert (n - 1) as real * e <= (n - 1) as real;
      if n > 1 { assert (n - 1) as real * e == e + (n - 2) as real * e; }
      LastsWhile(b, a - 1.0 + e, gap, n - 1);
    }
  }

  lemma OrderedCons(call: Call, rest: seq<Call>, clock: real)
    requires clock <= call.now && Ordered(rest, call.now)
    ensures Ordered([call] + rest, clock)
  {
    assert ([call] + rest)[1..] == rest;
  }

  lemma OrderedEarlier(calls: seq<Call>, clock: real, later: real)
    requires clock <= later && Ordered(calls, later)
    ensures Ordered(calls, clock)
  {}

  lemma {:induction false} DripOrdered(key: Key, start: real, gap: real, n: nat, rest: seq<Call>, clock: real)
    requires key != Global && clock <= start && gap >= 0.0 && n > 0 && Ordered(rest, LastAt(start, gap, n))
    ensures Ordered(Drip(key, start, gap, n) + rest, clock)
    decreases n
  {
    var tail := Drip(key, start + gap, gap, n - 1) + rest;
    assert Drip(key, start, gap, n) + rest == [CallOf(key, start)] + tail;
    if n == 1 {
      assert tail == rest;
    } else {
      DripOrdered(key, start + gap, gap, n - 1, rest, start);
    }
    OrderedCons(CallOf(key, start), tail, clock);
  }

  /** One call both buckets can pay for. */
  lemma PaidCall(cfg: Config, s: State, key: Key, now: real)
    requires key != Global && Sound(s.global, now) && Sound(Found(cfg, s, key), now)
    requires Available(s.global, now) >= 1.0 && Available(Found(cfg, s, key), now) >= 1.0
    ensures var s1 := Next(cfg, s, CallOf(key, now));
      && Decision(cfg, s, CallOf(key, now))
      && s1.global == Take(s.global, now) && Found(cfg, s1, key) == Take(Found(cfg, s, key), now)
      && key.uid in s1.users && s1.users[key.uid].lastSeen == now
  {
    hide Available, Take;
  }

  /** A take, and what there is `gap` seconds later. */
  lemma Pays(b: Bucket, now: real, gap: real)
    requires Sound(b, now) && Available(b, now) >= 1.0 && gap >= 0.0
    ensures var b' := Take(b, now);
      && Sound(b', now) && Sound(b', now + gap) && b'.rate == b.rate && b'.burst == b.burst
      && Available(b', now) == Available(b, now) - 1.0
      && Available(b', now + gap) == Min(b.burst as real, Available(b, now) - 1.0 + Earned(b.rate, 0.0, gap))
  {
    hide Available;
    TakeCosts(b, now, now);
    Refill(Take(b, now), now, now + gap);
    assert Earned(b.rate, now, now + gap) == Earned(b.rate, 0.0, gap);
  }

  /** The first call of a run, when it is admitted. */
  lemma AdmittedFirst(cfg: Config, s: State, key: Key, now: real, rest: seq<Call>, to: real)
    requires key != Global && 0.0 <= now <= to && Decision(cfg, s, CallOf(key, now))
    ensures var calls := [CallOf(key, now)] + rest;
      AdmittedIn(calls, Decisions(cfg, s, calls), key, 0.0, to)
      == 1 + AdmittedIn(rest, Decisions(cfg, Next(cfg, s, CallOf(key, now)), rest), key, 0.0, to)
  {
    hide Decision, Next;
    var calls := [CallOf(key, now)] + rest;
    assert calls[1..] == rest && Concerns(calls[0], key);
    assert Decisions(cfg, s, calls)[1..] == Decisions(cfg, Next(cfg, s, calls[0]), rest);
  }

  /** Both buckets can pay for calls of `key` that come `gap` apart from `start` on. */
  predicate BothLast(cfg: Config, s: State, key: Key, start: real, gap: real, n: nat)
    requires key != Global
  {
    var own := Found(cfg, s, key);
    && Sound(s.global, start) && Sound(own, start)
    && Lasts(s.global, Available(s.global, start), gap, n) && Lasts(own, Available(own, start), gap, n)
  }

  lemma BothLastNext(cfg: Config, s: State, key: Key, start: real, gap: real, n: nat)
    requires key != Global && gap >= 0.0 && n > 0 && BothLast(cfg, s, key, start, gap, n)
    ensures var s1 := Next(cfg, s, CallOf(key, start));
      && Decision(cfg, s, CallOf(key, start)) && BothLast(cfg, s1, key, start + gap, gap, n - 1)
      && Sound(s1.global, start) && s1.global.rate == s.global.rate && s1.global.burst == s.global.burst
      && Available(s1.global, start) == Available(s.global, start) - 1.0
      && Available(s1.global, start + gap) >= Available(s1.global, start)
      && key.uid in s1.users && s1.users[key.uid].lastSeen == start
  {
    hide Available, Earned, Take, Found, Next, Decision;
    PaidCall(cfg, s, key, start);
    Pays(s.global, start, gap);
    Pays(Found(cfg, s, key), start, gap);
    Refill(Take(s.global, start), start, start + gap);
    SameLasts(s.global, Take(s.global, start), Available(Take(s.global, start), start + gap), gap, n - 1);
    SameLasts(Found(cfg, s, key), Take(Found(cfg, s, key), start),
              Available(Take(Found(cfg, s, key), start), start + gap), gap, n - 1);
  }

  lemma {:induction false} SameLasts(b: Bucket, b': Bucket, a: real, gap: real, n: nat)
    requires b.rate == b'.rate && b.burst == b'.burst && Lasts(b, a, gap, n)
    ensures Lasts(b', a, gap, n)
    decreases n
  {
    hide Earned;
    if n > 0 { SameLasts(b, b', Min(b.burst as real, a - 1.0 + Earned(b.rate, 0.0, gap)), gap, n - 1); }
  }

  /** Calls that both buckets can pay for are admitted, every one of them. */
  lemma {:induction false} DripAdmitted(cfg: Config, s: State, key: Key, start: real, gap: real, n: nat,
                                        rest: seq<Call>, to: real)
    requires key != Global && 0.0 <= start && gap >= 0.0 && n > 0 && LastAt(start, gap, n) <= to
    requires BothLast(cfg, s, key, start, gap, n)
    ensures var calls, end := Drip(key, start, gap, n) + rest, LastAt(start, gap, n);
      var s' := Final(cfg, s, Drip(key, start, gap, n));
      && start <= end
      && AdmittedIn(calls, Decisions(cfg, s, calls), key, 0.0, to)
         == n + AdmittedIn(rest, Decisions(cfg, s', rest), key, 0.0, to)
      && Sound(s'.global, end) && s'.global.rate == s.global.rate && s'.global.burst == s.global.burst
      && Available(s'.global, end) >= Available(s.global, start) - n as real
      && key.uid in s'.users && s'.users[key.uid].lastSeen == end
    decreases n
  {
    hide Available, Earned, Next, Decision, Found, Sound, Take, BothLast;
    var s1, more := Next(cfg, s, CallOf(key, start)), Drip(key, start + gap, gap, n - 1);
    BothLastNext(cfg, s, key, start, gap, n);
    var calls := Drip(key, start, gap, n);
    assert calls + rest == [CallOf(key, start)] + (more + rest);
    assert calls[0] == CallOf(key, start) && calls[1..] == more;
    if n == 1 {
      assert more + rest == rest;
    } else {
      DripAdmitted(cfg, s1, key, start + gap, gap, n - 1, rest, to);
    }
    AdmittedFirst(cfg, s, key, start, more + rest, to);
  }

  lemma FreshFull(rate: real, burst: nat, now: real)
    requires rate >= 0.0 && 0.0 <= now
    ensures Sound(Fresh(rate, burst), now) && Available(Fresh(rate, burst), now) == burst as real
  {
    EarnedNonnegative(rate, 0.0, now);
  }

  lemma NewIsFresh(cfg: Config, s: State, key: Key)
    requires WellFormed(cfg) && key != Global && key.uid !in s.users
    ensures Found(cfg, s, key) == Fresh(KeyRate(cfg, key), KeyBurst(cfg, key)) && KeyRate(cfg, key) >= 0.0
  {}

  /** A run that takes `n` tokens, idles until it is evicted at `now`, and takes `m` more. */
  datatype Plan = Plan(n: nat, gap: real, now: real, m: nat, gap': real)

  /** When a plan's first and second part end. */
  function FirstEnd(p: Plan): real {
    LastAt(0.0, p.gap, p.n)
  }

  function End(p: Plan): real {
    LastAt(p.now, p.gap', p.m)
  }

  function Witness(key: Key, maxIdle: real, p: Plan): seq<Call>
    requires key != Global
  {
    Drip(key, 0.0, p.gap, p.n) + ([Cleanup(maxIdle, p.now)] + Drip(key, p.now, p.gap', p.m))
  }

  /** What the global bucket has left, at least, when the plan's second part begins. */
  function LeftOver(cfg: Config, p: Plan): real {
    var left := cfg.globalBurst as real - p.n as real;
    Min(cfg.globalBurst as real, (if left >= 0.0 then left else 0.0) + Earned(cfg.globalRate, FirstEnd(p), p.now))
  }

  /** A plan both buckets can pay for, with the eviction in between. */
  predicate Affordable(cfg: Config, key: Key, maxIdle: real, p: Plan)
    requires key != Global
  {
    var g, own := Fresh(cfg.globalRate, cfg.globalBurst), Fresh(KeyRate(cfg, key), KeyBurst(cfg, key));
    && p.n > 0 && p.m > 0 && p.gap >= 0.0 && p.gap' >= 0.0 && 0.0 <= FirstEnd(p) && p.now - FirstEnd(p) > maxIdle >= 0.0
    && Lasts(g, g.burst as real, p.gap, p.n) && Lasts(own, own.burst as real, p.gap, p.n)
    && Lasts(g, LeftOver(cfg, p), p.gap', p.m) && Lasts(own, own.burst as real, p.gap', p.m)
  }

  lemma {:induction false} LastAtLater(start: real, gap: real, n: nat)
    requires gap >= 0.0
    ensures LastAt(start, gap, n) >= start
    decreases n
  {
    if n > 1 { LastAtLater(start + gap, gap, n - 1); }
  }

  lemma StartLasts(cfg: Config, key: Key, maxIdle: real, p: Plan)
    requires WellFormed(cfg) && key != Global && Affordable(cfg, key, maxIdle, p)
    ensures BothLast(cfg, Init(cfg), key, 0.0, p.gap, p.n)
    ensures Available(Init(cfg).global, 0.0) == cfg.globalBurst as real
  {
    hide Available, Earned, Lasts, KeyBurst, KeyRate, Found;
    FreshFull(cfg.globalRate, cfg.globalBurst, 0.0);
    NewIsFresh(cfg, Init(cfg), key);
    FreshFull(KeyRate(cfg, key), KeyBurst(cfg, key), 0.0);
  }

  /** The state after the eviction. */
  lemma EvictedLasts(cfg: Config, s: State, key: Key, maxIdle: real, p: Plan)
    requires WellFormed(cfg) && key != Global && Affordable(cfg, key, maxIdle, p)
    requires Sound(s.global, FirstEnd(p)) && s.global.rate == cfg.globalRate && s.global.burst == cfg.globalBurst
    requires Available(s.global, FirstEnd(p)) >= cfg.globalBurst as real - p.n as real
    requires key.uid in s.users && s.users[key.uid].lastSeen == FirstEnd(p)
    ensures BothLast(cfg, Next(cfg, s, Cleanup(maxIdle, p.now)), key, p.now, p.gap', p.m)
  {
    hide Available, Earned, Lasts, KeyBurst, KeyRate, Found;
    var s2 := Next(cfg, s, Cleanup(maxIdle, p.now));
    assert Idle(s.users[key.uid], maxIdle, p.now);
    NewIsFresh(cfg, s2, key);
    FreshFull(KeyRate(cfg, key), KeyBurst(cfg, key), p.now);
    Refill(s.global, FirstEnd(p), p.now);
    var g := Fresh(cfg.globalRate, cfg.globalBurst);
    LastsMore(g, LeftOver(cfg, p), Available(s.global, p.now), p.gap', p.m);
    SameLasts(g, s.global, Available(s.global, p.now), p.gap', p.m);
  }

  /** The witness is admitted whole. */
  lemma WitnessAdmitted(cfg: Config, key: Key, maxIdle: real, p: Plan)
    requires WellFormed(cfg) && key != Global && Affordable(cfg, key, maxIdle, p)
    ensures var calls := Witness(key, maxIdle, p);
      AdmittedIn(calls, Decisions(cfg, Init(cfg), calls), key, 0.0, End(p)) == p.n + p.m
  {
    hide Available, Earned, KeyBurst, KeyRate, Found, Decision, Sound, BothLast, Lasts, LastAt, Drip;
    var s0, second := Init(cfg), Drip(key, p.now, p.gap', p.m);
    StartLasts(cfg, key, maxIdle, p);
    LastAtLater(p.now, p.gap', p.m);
    DripAdmitted(cfg, s0, key, 0.0, p.gap, p.n, [Cleanup(maxIdle, p.now)] + second, End(p));
    var s1 := Final(cfg, s0, Drip(key, 0.0, p.gap, p.n));
    EvictedLasts(cfg, s1, key, maxIdle, p);
    var s2 := Next(cfg, s1, Cleanup(maxIdle, p.now));
    DripAdmitted(cfg, s2, key, p.now, p.gap', p.m, [], End(p));
    assert second + [] == second;
    AdmittedAfterCleanup(cfg, s1, key, maxIdle, p.now, second, End(p));
  }

  lemma AdmittedAfterCleanup(cfg: Config, s: State, key: Key, maxIdle: real, now: real, rest: seq<Call>, to: real)
    ensures var calls, s' := [Cleanup(maxIdle, now)] + rest, Next(cfg, s, Cleanup(maxIdle, now));
      AdmittedIn(calls, Decisions(cfg, s, calls), key, 0.0, to)
      == AdmittedIn(rest, Decisions(cfg, s', rest), key, 0.0, to)
  {
    hide Next, Decision;
    var calls := [Cleanup(maxIdle, now)] + rest;
    assert calls[1..] == rest && !Concerns(calls[0], key);
    assert Decisions(cfg, s, calls)[1..] == Decisions(cfg, Next(cfg, s, calls[0]), rest);
  }

  /** Main result: a plan that takes more tokens than a bucket has over its time is decided
      differently because of the eviction. */
  lemma EvictionVisible(cfg: Config, key: Key, maxIdle: real, p: Plan)
    requires WellFormed(cfg) && key != Global && Affordable(cfg, key, maxIdle, p)
    requires (p.n + p.m) as real > KeyBurst(cfg, key) as real + Earned(KeyRate(cfg, key), 0.0, End(p))
    ensures var calls := Witness(key, maxIdle, p);
      Ordered(calls, 0.0) && Decisions(cfg, Init(cfg), calls) != IdealDecisions(IdealInit(cfg), calls)
  {
    hide Available, Earned, Lasts, LastAt, Drip, KeyBurst, KeyRate;
    var calls, second := Witness(key, maxIdle, p), Drip(key, p.now, p.gap', p.m);
    WitnessAdmitted(cfg, key, maxIdle, p);
    LastAtLater(p.now, p.gap', p.m);
    assert second + [] == second;
    DripOrdered(key, p.now, p.gap', p.m, [], p.now);
    OrderedCons(Cleanup(maxIdle, p.now), second, FirstEnd(p));
    DripOrdered(key, 0.0, p.gap, p.n, [Cleanup(maxIdle, p.now)] + second, 0.0);
    KeyLimits(cfg, key);
    IdealStartSound(cfg, key);
    IdealStartSound(cfg, Global);
    AdmittedWithin(IdealInit(cfg), calls, key, 0.0, 0.0, End(p));
  }

  lemma KeyLimits(cfg: Config, key: Key)
    ensures BucketOf(IdealInit(cfg), key).rate == KeyRate(cfg, key)
    ensures BucketOf(IdealInit(cfg), key).burst == KeyBurst(cfg, key)
  {}

  /** A wait between `idle` and the time `k` tokens take, long enough for the global bucket to get
      from `spare` tokens to `k`. */
  lemma WaitBetween(R: real, spare: real, r: real, k: real, idle: real) returns (now: real)
    requires 0.0 <= R <= r && 0.0 < r && 0.0 <= idle && r * idle < k
    requires if R == 0.0 then spare >= k else r * spare > k * (r - R)
    ensures idle < now && r * now < k <= spare + R * now
  {
    var full := Quotient(k, r);
    ScaledLess(r, idle, full);
    var from := idle;
    if R > 0.0 {
      var paid := Quotient(k - spare, R);
      PaidBeforeFull(R, spare, r, k, full, paid);
      if idle < paid { from := paid; }
    }
    now := (from + full) / 2.0;
    ScaledLess(r, now, full);
    PaidByThen(R, spare, k, now);
  }

  lemma PaidByThen(R: real, spare: real, k: real, now: real)
    requires R >= 0.0 && (if R == 0.0 then spare >= k else (k - spare) / R <= now)
    ensures k <= spare + R * now
  {
    if R > 0.0 {
      var paid := Quotient(k - spare, R);
      ScaledLess(R, now, paid);
    } else {
      NoRate(R, now);
    }
  }

  /** For a global bucket that does not outrun the bucket, a wait longer than `idle` that earns the
      bucket fewer than FewestAfter(r, idle) tokens, and the global one as many. */
  lemma BurstWait(R: real, G: nat, r: real, b: nat, idle: real) returns (now: real)
    requires 0.0 <= R <= r && 0.0 <= idle && r * idle < b as real && Telling(R, G, r, b, idle)
    ensures idle < now && FewestAfter(r, idle) <= b <= G
    ensures Earned(r, 0.0, now) < FewestAfter(r, idle) as real <= G as real - b as real + Earned(R, 0.0, now)
  {
    var k, spare := FewestAfter(r, idle), G as real - b as real;
    EarnedNonnegative(r, 0.0, idle);
    if r == 0.0 {
      now := idle + 1.0;
      NoRate(r, now);
      NoRate(R, now);
    } else {
      SpareAbove(R, spare, r, k as real);
      now := WaitBetween(R, spare, r, k as real, idle);
    }
  }

  lemma SpareAbove(R: real, spare: real, r: real, k: real)
    requires 0.0 <= R <= r && 0.0 < r && k > 0.0
    requires if R == 0.0 then spare >= k else r * spare > k * (r - R)
    ensures spare > 0.0
  {
    ScaledLess(r, 0.0, spare);
    assert k * (r - R) >= 0.0;
  }

  lemma ScaledLess(r: real, x: real, y: real)
    requires r > 0.0
    ensures r * x < r * y <==> x < y
  {
    assert r * y - r * x == r * (y - x);
  }

  lemma PaidBeforeFull(R: real, spare: real, r: real, k: real, full: real, paid: real)
    requires 0.0 < R && 0.0 < r && r * full == k && R * paid == k - spare && r * spare > k * (r - R)
    ensures paid < full
  {
    var w := R * r;
    Positive(R, r);
    assert w * paid == r * k - r * spare by {
      Commute(R, r);
      Reassociate(r, R, paid);
      Distribute(r, k, spare);
    }
    assert w * full == R * k by { Reassociate(R, r, full); }
    Distribute(k, r, R);
    Commute(k, r);
    Commute(k, R);
    ScaledLess(w, paid, full);
  }

  /** For a global bucket that does not outrun the bucket: the whole bucket at once, and later more
      than the wait earned back. */
  lemma BurstPlan(cfg: Config, key: Key, maxIdle: real) returns (p: Plan)
    requires WellFormed(cfg) && maxIdle >= 0.0 && Shows(cfg, key, maxIdle) && cfg.globalRate <= KeyRate(cfg, key)
    ensures Affordable(cfg, key, maxIdle, p)
    ensures (p.n + p.m) as real > KeyBurst(cfg, key) as real + Earned(KeyRate(cfg, key), 0.0, End(p))
  {
    hide Earned, KeyBurst, KeyRate;
    var r, b := KeyRate(cfg, key), KeyBurst(cfg, key);
    RateNonnegative(cfg, key);
    var now := BurstWait(cfg.globalRate, cfg.globalBurst, r, b, maxIdle);
    p := Plan(b, 0.0, now, FewestAfter(r, maxIdle), 0.0);
    LastAtIs(0.0, 0.0, b);
    LastAtIs(now, 0.0, p.m);
    assert FirstEnd(p) == 0.0 && End(p) == now;
    var g, own := Fresh(cfg.globalRate, cfg.globalBurst), Fresh(r, b);
    EarnedNonnegative(cfg.globalRate, 0.0, now);
    LastsBurst(g, g.burst as real, b);
    LastsBurst(own, b as real, b);
    LastsBurst(own, b as real, p.m);
    LastsBurst(g, LeftOver(cfg, p), p.m);
  }

  lemma Quotient(x: real, y: real) returns (z: real)
    requires y > 0.0
    ensures y * z == x && z == x / y
    ensures x >= 0.0 ==> z >= 0.0
  {
    z := x / y;
    ScaledLess(y, z, 0.0);
  }

  /** Calls so far apart that the bucket drains to its last token while the global one refills. */
  lemma DripGap(R: real, r: real, b: nat) returns (n: nat, gap: real)
    requires 0.0 <= r < R && b >= 1
    ensures n >= 1 && gap >= 0.0 && R * gap >= 1.0 && 0.0 <= r * gap <= 1.0
    ensures (n - 1) as real * (r * gap) == n as real - b as real
  {
    if r == 0.0 {
      n := b;
      gap := Quotient(1.0, R);
      NoRate(r, gap);
    } else {
      var q := EnoughSteps(R, r);
      var rho := Quotient((q - 1) as real, q as real);
      ScaledLess(q as real, rho, 1.0);
      gap := Quotient(rho, r);
      n := 1 + (b - 1) * q;
      GapLong(R, r, q as real, gap, rho);
      Steps(b - 1, q, rho);
    }
  }

  lemma NoRate(r: real, x: real)
    requires r == 0.0
    ensures r * x == 0.0
  {}

  lemma Steps(m: nat, q: nat, rho: real)
    requires q >= 1 && q as real * rho == (q - 1) as real
    ensures (m * q) as real * rho == (m * q) as real - m as real
  {
    RealProduct(m, q);
    Reassociate(m as real, q as real, rho);
    Distribute(m as real, q as real, 1.0);
  }

  lemma RealProduct(m: nat, q: nat)
    ensures (m * q) as real == m as real * q as real
  {}

  lemma Reassociate(x: real, y: real, z: real)
    ensures (x * y) * z == x * (y * z)
  {}

  lemma Distribute(x: real, y: real, z: real)
    ensures x * (y - z) == x * y - x * z
  {}

  lemma EnoughSteps(R: real, r: real) returns (q: nat)
    requires 0.0 <= r < R
    ensures q >= 1 && q as real * R - q as real * r > R
  {
    var rest := R - r;
    var d := Quotient(R, rest);
    q := NextWhole(d);
    var steps := q as real;
    ScaledLess(rest, d, steps);
    Commute(rest, steps);
    Distribute(steps, R, r);
  }

  lemma NextWhole(d: real) returns (q: nat)
    requires d >= 0.0
    ensures q >= 1 && q as real > d
  {
    q := d.Floor + 1;
  }

  lemma Positive(x: real, y: real)
    requires x > 0.0 && y > 0.0
    ensures x * y > 0.0
  {}

  lemma Commute(x: real, y: real)
    ensures x * y == y * x
  {}

  lemma GapWeight(R: real, r: real, q: real, gap: real, rho: real)
    requires r * gap == rho && q * rho == q - 1.0
    ensures (q * r) * (R * gap) == q * R - R
  {
    var earned := R * gap;
    Reassociate(q, r, earned);
    Swap(r, R, gap);
    var product := R * rho;
    assert r * earned == product;
    Swap(q, R, rho);
    Distribute(R, q, 1.0);
    Commute(R, q);
  }

  lemma GapLong(R: real, r: real, q: real, gap: real, rho: real)
    requires 0.0 < r < R && q >= 1.0 && r * gap == rho && q * rho == q - 1.0 && q * R - q * r > R
    ensures R * gap >= 1.0
  {
    Positive(q, r);
    GapWeight(R, r, q, gap, rho);
    AboveOne(q * r, R * gap);
  }

  lemma AboveOne(w: real, x: real)
    requires w > 0.0 && w * x > w
    ensures x > 1.0
  {
    ScaledLess(w, 1.0, x);
  }

  lemma Swap(x: real, y: real, z: real)
    ensures x * (y * z) == y * (x * z)
  {
    Reassociate(x, y, z);
    Reassociate(y, x, z);
    Commute(x, y);
  }

  /** For a global bucket that outruns the bucket: calls that drain it, a wait, and the same again. */
  lemma DripPlan(cfg: Config, key: Key, maxIdle: real) returns (p: Plan)
    requires WellFormed(cfg) && maxIdle >= 0.0 && Shows(cfg, key, maxIdle) && cfg.globalRate > KeyRate(cfg, key)
    ensures Affordable(cfg, key, maxIdle, p)
    ensures (p.n + p.m) as real > KeyBurst(cfg, key) as real + Earned(KeyRate(cfg, key), 0.0, End(p))
  {
    hide KeyBurst, KeyRate, Lasts, LastAt, Earned, Telling;
    var r, b, R := KeyRate(cfg, key), KeyBurst(cfg, key), cfg.globalRate;
    OutrunMeans(cfg, key, maxIdle);
    var n, gap := DripGap(R, r, b);
    var wait := DripWait(R, r, b, maxIdle);
    var last := (n - 1) as real * gap;
    assert last >= 0.0;
    LastAtIs(0.0, gap, n);
    LastAtIs(last + wait, gap, n);
    p := Plan(n, gap, last + wait, n, gap);
    var g, own := Fresh(R, cfg.globalBurst), Fresh(r, b);
    EarnedIs(R, gap, last, wait);
    EarnedIs(r, gap, last, wait);
    LastsForever(g, g.burst as real, gap, n);
    LastsForever(g, LeftOver(cfg, p), gap, n);
    LastsWhile(own, b as real, gap, n);
    DrainedTwice(r, b, n, gap, last, wait);
  }

  lemma OutrunMeans(cfg: Config, key: Key, maxIdle: real)
    requires WellFormed(cfg) && maxIdle >= 0.0 && Shows(cfg, key, maxIdle) && cfg.globalRate > KeyRate(cfg, key)
    ensures key != Global && cfg.globalBurst >= 1 && KeyBurst(cfg, key) >= 1
    ensures 0.0 <= KeyRate(cfg, key) && KeyRate(cfg, key) * maxIdle < KeyBurst(cfg, key) as real
  {
    hide KeyBurst, KeyRate;
    RateNonnegative(cfg, key);
    EarnedNonnegative(KeyRate(cfg, key), 0.0, maxIdle);
  }

  lemma EarnedIs(rate: real, gap: real, last: real, wait: real)
    ensures Earned(rate, 0.0, gap) == rate * gap && Earned(rate, last, last + wait) == rate * wait
  {}

  lemma DripWait(R: real, r: real, b: nat, idle: real) returns (wait: real)
    requires 0.0 <= r < R && b >= 1 && 0.0 <= idle && r * idle < b as real
    ensures wait > idle && wait > 0.0 && R * wait >= 1.0 && r * wait < b as real
  {
    var one := Quotient(1.0, R);
    ScaledLess(R, 0.0, one);
    if r == 0.0 {
      wait := idle + one;
      NoRate(r, wait);
      ScaledLess(R, one, wait);
    } else {
      var full := Quotient(b as real, r);
      ScaledLess(r, idle, full);
      ScaledLess(one, r, R);
      Commute(one, r);
      Commute(one, R);
      ScaledLess(r, one, full);
      wait := ((if idle < one then one else idle) + full) / 2.0;
      ScaledLess(r, wait, full);
      ScaledLess(R, one, wait);
    }
  }

  lemma DrainedTwice(r: real, b: nat, n: nat, gap: real, last: real, wait: real)
    requires (n - 1) as real * (r * gap) == n as real - b as real && last == (n - 1) as real * gap
    requires r * wait < b as real
    ensures (n + n) as real > b as real + Earned(r, 0.0, last + wait + last)
  {
    Swap(r, (n - 1) as real, gap);
    Distribute(r, last + wait + last, last + wait);
    Distribute(r, last + wait, last);
  }

  /** The runs in which every cleanup uses `maxIdle`. */
  predicate CleansWith(calls: seq<Call>, maxIdle: real) {
    forall k | 0 <= k < |calls| && calls[k].Cleanup? :: calls[k].maxIdle == maxIdle
  }

  lemma {:induction false} DripCalls(key: Key, start: real, gap: real, n: nat)
    requires key != Global
    ensures forall c <- Drip(key, start, gap, n) :: !c.Cleanup?
    decreases n
  {
    if n > 0 { DripCalls(key, start + gap, gap, n - 1); }
  }

  /** Main result: whenever the global bucket lets a bucket that is not refilled be seen, some run
      sees it. */
  lemma ShortIdleIsVisible(cfg: Config, key: Key, maxIdle: real) returns (calls: seq<Call>)
    requires WellFormed(cfg) && maxIdle >= 0.0 && Shows(cfg, key, maxIdle)
    ensures Ordered(calls, 0.0) && CleansWith(calls, maxIdle)
    ensures Decisions(cfg, Init(cfg), calls) != IdealDecisions(IdealInit(cfg), calls)
  {
    hide Shows, Affordable, KeyBurst, KeyRate, End, Drip, Ordered;
    var p;
    if cfg.globalRate <= KeyRate(cfg, key) {
      p := BurstPlan(cfg, key, maxIdle);
    } else {
      p := DripPlan(cfg, key, maxIdle);
    }
    ShowsUser(cfg, key, maxIdle);
    EvictionVisible(cfg, key, maxIdle, p);
    calls := Witness(key, maxIdle, p);
    DripCalls(key, 0.0, p.gap, p.n);
    DripCalls(key, p.now, p.gap', p.m);
    forall k | 0 <= k < |calls| && calls[k].Cleanup? ensures calls[k].maxIdle == maxIdle {
      assert calls[k] in calls;
    }
  }

  lemma ShowsUser(cfg: Config, key: Key, maxIdle: real)
    requires WellFormed(cfg) && maxIdle >= 0.0 && Shows(cfg, key, maxIdle)
    ensures key != Global
  {}

  /** A global bucket can hide everything: with burst zero nothing is admitted, and eviction after
      any idle time is invisible. */
  lemma {:induction false} NothingAdmitted(cfg: Config, s: State, i: Ideal, calls: seq<Call>)
    requires s.global == i.global && s.global.burst == 0
    ensures Decisions(cfg, s, calls) == IdealDecisions(i, calls)
    ensures forall k | 0 <= k < |calls| && !calls[k].Cleanup? :: !Decisions(cfg, s, calls)[k]
    decreases |calls|
  {
    if calls != [] {
      NothingAdmitted(cfg, Next(cfg, s, calls[0]), IdealNext(i, calls[0]), calls[1..]);
    }
  }
}
