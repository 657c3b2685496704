/** Lazy creation and eviction are invisible: the limiter decides every call as one in
    which all buckets existed, full, from the start and none was ever dropped. */
module LimiterTransparency {
  import opened TokenBucket
  import opened LimiterSpec

  /** The simple limiter: total tables of buckets, nothing created, nothing deleted. */
  datatype Ideal = Ideal(global: Bucket, general: int -> Bucket, command: (int, string) -> Bucket)

  function IdealInit(cfg: Config): Ideal {
    Ideal(Fresh(cfg.globalRate, cfg.globalBurst),
          (uid: int) => NewGeneral(cfg),
          (uid: int, c: string) => NewCommand(cfg, c))
  }

  predicate IdealDecision(i: Ideal, call: Call) {
    match call
    case Allow(uid, now) => Admits(i.global, i.general(uid), now)
    case AllowCommand(uid, command, now) => Admits(i.global, i.command(uid, command), now)
    case Cleanup(_, _) => true
  }

  function IdealNext(i: Ideal, call: Call): Ideal {
    match call
    case Allow(uid, now) =>
      var own := ChargeOwn(i.global, i.general(uid), now);
      Ideal(Take(i.global, now), (u: int) => if u == uid then own else i.general(u), i.command)
    case AllowCommand(uid, command, now) =>
      var own := ChargeOwn(i.global, i.command(uid, command), now);
      Ideal(Take(i.global, now), i.general,
            (u: int, c: string) => if u == uid && c == command then own else i.command(u, c))
    case Cleanup(_, _) => i
  }

  function IdealDecisions(i: Ideal, calls: seq<Call>): (ds: seq<bool>)
    ensures |ds| == |calls|
    decreases |calls|
  {
    if calls == [] then [] else [IdealDecision(i, calls[0])] + IdealDecisions(IdealNext(i, calls[0]), calls[1..])
  }

  /** Two buckets that answer alike from `clock` on: the same, or both full. */
  predicate Agree(a: Bucket, b: Bucket, clock: real) {
    && a.rate == b.rate && a.burst == b.burst
    && Sound(a, clock) && Sound(b, clock)
    && (a == b || (FullAt(a, clock) && FullAt(b, clock)))
  }

  /** Every stored bucket was last used no later than its user was last seen. */
  predicate UsesSeen(user: User) {
    && user.general.last <= user.lastSeen
    && forall c <- user.commands :: user.commands[c].last <= user.lastSeen
  }

  /** What `uid` holds, or would get, agrees with the ideal buckets. */
  ghost predicate UserRelated(cfg: Config, s: State, i: Ideal, uid: int, clock: real) {
    && Agree(GeneralOf(cfg, s, uid), i.general(uid), clock)
    && (forall c :: Agree(CommandOf(cfg, s, uid, c), i.command(uid, c), clock))
    && i.general(uid).rate == cfg.defaultRate && i.general(uid).burst == cfg.defaultBurst
    && (forall c :: i.command(uid, c).rate == NewCommand(cfg, c).rate
                    && i.command(uid, c).burst == NewCommand(cfg, c).burst)
    && (uid in s.users ==> UsesSeen(s.users[uid]))
  }

  ghost predicate Related(cfg: Config, s: State, i: Ideal, clock: real) {
    && 0.0 <= clock && s.global == i.global && Sound(s.global, clock)
    && forall uid :: UserRelated(cfg, s, i, uid, clock)
  }

  lemma AgreeLater(a: Bucket, b: Bucket, clock: real, now: real)
    requires Agree(a, b, clock) && clock <= now
    ensures Agree(a, b, now) && Available(a, now) == Available(b, now)
  {
    Refill(a, clock, now);
    Refill(b, clock, now);
  }

  lemma ChargeAgrees(global: Bucket, a: Bucket, b: Bucket, now: real)
    requires Agree(a, b, now)
    ensures Admits(global, a, now) == Admits(global, b, now)
    ensures Agree(ChargeOwn(global, a, now), ChargeOwn(global, b, now), now)
  {
    AgreeLater(a, b, now, now);
    TakeCosts(a, now, now);
    TakeCosts(b, now, now);
  }

  lemma InitRelated(cfg: Config, clock: real)
    requires WellFormed(cfg) && 0.0 <= clock
    ensures Related(cfg, Init(cfg), IdealInit(cfg), clock)
  {}

  lemma UserLater(cfg: Config, s: State, i: Ideal, uid: int, clock: real, now: real)
    requires UserRelated(cfg, s, i, uid, clock) && clock <= now
    ensures UserRelated(cfg, s, i, uid, now)
  {
    AgreeLater(GeneralOf(cfg, s, uid), i.general(uid), clock, now);
    forall c ensures Agree(CommandOf(cfg, s, uid, c), i.command(uid, c), now) {
      AgreeLater(CommandOf(cfg, s, uid, c), i.command(uid, c), clock, now);
    }
  }

  /** Charging a user's general bucket, when the record is touched at the same moment. */
  lemma UserAllowed(cfg: Config, s: State, i: Ideal, uid: int, now: real)
    requires s.global == i.global && UserRelated(cfg, s, i, uid, now)
    ensures Decision(cfg, s, Allow(uid, now)) == IdealDecision(i, Allow(uid, now))
    ensures UserRelated(cfg, Next(cfg, s, Allow(uid, now)), IdealNext(i, Allow(uid, now)), uid, now)
  {
    var s', i' := Next(cfg, s, Allow(uid, now)), IdealNext(i, Allow(uid, now));
    ChargeAgrees(s.global, GeneralOf(cfg, s, uid), i.general(uid), now);
    forall c ensures Agree(CommandOf(cfg, s', uid, c), i'.command(uid, c), now) {
      assert CommandOf(cfg, s', uid, c) == CommandOf(cfg, s, uid, c);
    }
    CommandsSeen(cfg, s, i, uid, now);
  }

  lemma CommandsSeen(cfg: Config, s: State, i: Ideal, uid: int, now: real)
    requires UserRelated(cfg, s, i, uid, now)
    ensures UsesSeen(Touch(cfg, s, uid, now))
  {
    var user := Touch(cfg, s, uid, now);
    forall c <- user.commands ensures user.commands[c].last <= user.lastSeen {
      assert Agree(CommandOf(cfg, s, uid, c), i.command(uid, c), now);
    }
  }

  lemma UserCommandAllowed(cfg: Config, s: State, i: Ideal, uid: int, command: string, now: real)
    requires s.global == i.global && UserRelated(cfg, s, i, uid, now)
    ensures var call := AllowCommand(uid, command, now);
      && Decision(cfg, s, call) == IdealDecision(i, call)
      && UserRelated(cfg, Next(cfg, s, call), IdealNext(i, call), uid, now)
  {
    var call := AllowCommand(uid, command, now);
    var s', i' := Next(cfg, s, call), IdealNext(i, call);
    ChargeAgrees(s.global, CommandOf(cfg, s, uid, command), i.command(uid, command), now);
    forall c ensures Agree(CommandOf(cfg, s', uid, c), i'.command(uid, c), now) {
      assert Agree(CommandOf(cfg, s, uid, c), i.command(uid, c), now);
      assert c != command ==> CommandOf(cfg, s', uid, c) == CommandOf(cfg, s, uid, c);
    }
    CommandsSeen(cfg, s, i, uid, now);
  }

  lemma IdleAgreesFull(a: Bucket, b: Bucket, lastSeen: real, maxIdle: real, now: real)
    requires Agree(a, b, now) && a.last <= lastSeen && now - lastSeen > maxIdle
    requires RefilledBy(a, maxIdle)
    ensures FullAt(b, now)
  {
    IdleRefills(a, maxIdle, now);
    AgreeLater(a, b, now, now);
  }

  /** The heart of the matter: a record that may be dropped holds only full buckets. */
  lemma EvictedGeneralFull(cfg: Config, s: State, i: Ideal, uid: int, maxIdle: real, now: real)
    requires UserRelated(cfg, s, i, uid, now) && Covers(cfg, maxIdle)
    requires uid in s.users && Idle(s.users[uid], maxIdle, now)
    ensures FullAt(i.general(uid), now)
  {
    hide Available, Earned, Sound;
    IdleAgreesFull(s.users[uid].general, i.general(uid), s.users[uid].lastSeen, maxIdle, now);
  }

  lemma EvictedCommandFull(cfg: Config, s: State, i: Ideal, uid: int, c: string, maxIdle: real, now: real)
    requires UserRelated(cfg, s, i, uid, now) && Covers(cfg, maxIdle)
    requires uid in s.users && Idle(s.users[uid], maxIdle, now) && c in s.users[uid].commands
    ensures FullAt(i.command(uid, c), now)
  {
    hide Available, Earned, Sound;
    assert Agree(CommandOf(cfg, s, uid, c), i.command(uid, c), now);
    assert i.command(uid, c).rate == NewCommand(cfg, c).rate;
    assert RefilledBy(NewCommand(cfg, c), maxIdle);
    IdleAgreesFull(s.users[uid].commands[c], i.command(uid, c), s.users[uid].lastSeen, maxIdle, now);
  }

  lemma {:induction false} UserSwept(cfg: Config, s: State, i: Ideal, uid: int, maxIdle: real, now: real)
    requires WellFormed(cfg) && 0.0 <= now
    requires UserRelated(cfg, s, i, uid, now) && Covers(cfg, maxIdle)
    ensures UserRelated(cfg, Next(cfg, s, Cleanup(maxIdle, now)), i, uid, now)
  {
    var s' := Next(cfg, s, Cleanup(maxIdle, now));
    var evicted := uid in s.users && Idle(s.users[uid], maxIdle, now);
    if evicted {
      EvictedGeneralFull(cfg, s, i, uid, maxIdle, now);
    }
    forall c ensures Agree(CommandOf(cfg, s', uid, c), i.command(uid, c), now) {
      assert Agree(CommandOf(cfg, s, uid, c), i.command(uid, c), now);
      if evicted && c in s.users[uid].commands {
        EvictedCommandFull(cfg, s, i, uid, c, maxIdle, now);
      }
    }
  }

  /** Every call keeps the two limiters in step and gets the same answer from both. */
  lemma StepRelated(cfg: Config, s: State, i: Ideal, call: Call, clock: real)
    requires WellFormed(cfg) && Related(cfg, s, i, clock) && clock <= call.now
    requires call.Cleanup? ==> Covers(cfg, call.maxIdle)
    ensures Decision(cfg, s, call) == IdealDecision(i, call)
    ensures Related(cfg, Next(cfg, s, call), IdealNext(i, call), call.now)
  {
    TakeCosts(s.global, clock, call.now);
    forall uid ensures UserRelated(cfg, Next(cfg, s, call), IdealNext(i, call), uid, call.now) {
      assert UserRelated(cfg, s, i, uid, clock);
      UserLater(cfg, s, i, uid, clock, call.now);
      match call {
        case Allow(u, now) => if u == uid { UserAllowed(cfg, s, i, uid, now); }
        case AllowCommand(u, command, now) => if u == uid { UserCommandAllowed(cfg, s, i, uid, command, now); }
        case Cleanup(maxIdle, now) => UserSwept(cfg, s, i, uid, maxIdle, now);
      }
    }
    if !call.Cleanup? {
      assert UserRelated(cfg, s, i, call.uid, clock);
      UserLater(cfg, s, i, call.uid, clock, call.now);
      if call.Allow? {
        UserAllowed(cfg, s, i, call.uid, call.now);
      } else {
        UserCommandAllowed(cfg, s, i, call.uid, call.command, call.now);
      }
    }
  }

  lemma {:induction false} RelatedRunsAgree(cfg: Config, s: State, i: Ideal, calls: seq<Call>, clock: real)
    requires WellFormed(cfg) && Related(cfg, s, i, clock)
    requires Ordered(calls, clock) && CleanupsCover(cfg, calls)
    ensures Decisions(cfg, s, calls) == IdealDecisions(i, calls)
    decreases |calls|
  {
    if calls != [] {
      StepRelated(cfg, s, i, calls[0], clock);
      RelatedRunsAgree(cfg, Next(cfg, s, calls[0]), IdealNext(i, calls[0]), calls[1..], calls[0].now);
    }
  }

  /** Main result: for every configuration and every run whose cleanups wait long
      enough to refill each bucket, eviction and lazy creation change no decision. */
  lemma EvictionInvisible(cfg: Config, calls: seq<Call>)
    requires WellFormed(cfg) && Ordered(calls, 0.0) && CleanupsCover(cfg, calls)
    ensures Decisions(cfg, Init(cfg), calls) == IdealDecisions(IdealInit(cfg), calls)
  {
    InitRelated(cfg, 0.0);
    RelatedRunsAgree(cfg, Init(cfg), IdealInit(cfg), calls, 0.0);
  }
}
