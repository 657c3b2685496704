/** The rate limiter of internal/ratelimit/limiter.go as a state machine on values:
    one global bucket, and per user a general bucket and one bucket a command, all
    created on first use and dropped with the user record once it idles. Calls are
    serialised and read the clock once. */
module LimiterSpec {
  import opened TokenBucket

  datatype Config = Config(
    globalRate: real, globalBurst: nat,
    defaultRate: real, defaultBurst: nat,
    commandRate: map<string, real>, commandBurst: map<string, nat>)

  datatype User = User(general: Bucket, commands: map<string, Bucket>, lastSeen: real)

  datatype State = State(global: Bucket, users: map<int, User>, denied: nat)

  datatype Call =
    | Allow(uid: int, now: real)
    | AllowCommand(uid: int, command: string, now: real)
    | Cleanup(maxIdle: real, now: real)

  predicate WellFormed(cfg: Config) {
    && cfg.globalRate >= 0.0 && cfg.defaultRate >= 0.0
    && forall c <- cfg.commandRate :: cfg.commandRate[c] >= 0.0
  }

  function Init(cfg: Config): State {
    State(Fresh(cfg.globalRate, cfg.globalBurst), map[], 0)
  }

  function NewGeneral(cfg: Config): Bucket {
    Fresh(cfg.defaultRate, cfg.defaultBurst)
  }

  /** A command missing from either table gets the default limit. */
  function NewCommand(cfg: Config, command: string): Bucket {
    if command in cfg.commandRate && command in cfg.commandBurst
    then Fresh(cfg.commandRate[command], cfg.commandBurst[command])
    else Fresh(cfg.defaultRate, cfg.defaultBurst)
  }

  /** The record of `uid`, created if missing, with its last use set to `now`. */
  function Touch(cfg: Config, s: State, uid: int, now: real): User {
    if uid in s.users then s.users[uid].(lastSeen := now) else User(NewGeneral(cfg), map[], now)
  }

  function CommandBucket(cfg: Config, user: User, command: string): Bucket {
    if command in user.commands then user.commands[command] else NewCommand(cfg, command)
  }

  /** The bucket a call would find, stored or about to be created. */
  function GeneralOf(cfg: Config, s: State, uid: int): Bucket {
    if uid in s.users then s.users[uid].general else NewGeneral(cfg)
  }

  function CommandOf(cfg: Config, s: State, uid: int, command: string): Bucket {
    if uid in s.users then CommandBucket(cfg, s.users[uid], command) else NewCommand(cfg, command)
  }

  /** The global bucket is charged first; `own` is asked only when the global one pays. */
  function ChargeOwn(global: Bucket, own: Bucket, now: real): Bucket {
    if CanTake(global, now) then Take(own, now) else own
  }

  predicate Admits(global: Bucket, own: Bucket, now: real) {
    CanTake(global, now) && CanTake(own, now)
  }

  predicate Idle(user: User, maxIdle: real, now: real) {
    now - user.lastSeen > maxIdle
  }

  function Sweep(users: map<int, User>, maxIdle: real, now: real): map<int, User> {
    map uid | uid in users && !Idle(users[uid], maxIdle, now) :: users[uid]
  }

  /** The decision on a call; a cleanup decides nothing and counts as true. */
  predicate Decision(cfg: Config, s: State, call: Call) {
    match call
    case Allow(uid, now) => Admits(s.global, Touch(cfg, s, uid, now).general, now)
    case AllowCommand(uid, command, now) =>
      Admits(s.global, CommandBucket(cfg, Touch(cfg, s, uid, now), command), now)
    case Cleanup(_, _) => true
  }

  function Next(cfg: Config, s: State, call: Call): State {
    var denied := if Decision(cfg, s, call) then s.denied else s.denied + 1;
    match call
    case Allow(uid, now) =>
      var user := Touch(cfg, s, uid, now);
      State(Take(s.global, now),
            s.users[uid := user.(general := ChargeOwn(s.global, user.general, now))],
            denied)
    case AllowCommand(uid, command, now) =>
      var user := Touch(cfg, s, uid, now);
      var own := ChargeOwn(s.global, CommandBucket(cfg, user, command), now);
      State(Take(s.global, now), s.users[uid := user.(commands := user.commands[command := own])], denied)
    case Cleanup(maxIdle, now) => s.(users := Sweep(s.users, maxIdle, now))
  }

  /** The bucket besides the global one that a call is about: the stored one, or a full one of the
      limit it would be created with. */
  function OwnBucket(cfg: Config, s: State, call: Call): Bucket
    requires !call.Cleanup?
  {
    match call
    case Allow(uid, _) =>
      if uid in s.users then s.users[uid].general else Fresh(cfg.defaultRate, cfg.defaultBurst)
    case AllowCommand(uid, c, _) =>
      if uid in s.users && c in s.users[uid].commands then s.users[uid].commands[c]
      else if c in cfg.commandRate && c in cfg.commandBurst then Fresh(cfg.commandRate[c], cfg.commandBurst[c])
      else Fresh(cfg.defaultRate, cfg.defaultBurst)
  }

  /** A token taken, if there is one. */
  predicate Paid(before: Bucket, after: Bucket, now: real, asked: bool) {
    if asked && Available(before, now) >= 1.0
    then after == Bucket(before.rate, before.burst, Available(before, now) - 1.0, now)
    else after == before
  }

  /** What a call does, in tokens: the global bucket pays whenever it can, the own bucket only when
      both can, and a denial is counted. The user is seen, admitted or not, and no one else is touched. */
  lemma CallPays(cfg: Config, s: State, call: Call)
    requires !call.Cleanup?
    ensures var own := OwnBucket(cfg, s, call);
      var s' := Next(cfg, s, call);
      var now := call.now;
      && (Decision(cfg, s, call) <==> Available(s.global, now) >= 1.0 && Available(own, now) >= 1.0)
      && Paid(s.global, s'.global, now, true)
      && call.uid in s'.users && s'.users[call.uid].lastSeen == now
      && (call.AllowCommand? ==> call.command in s'.users[call.uid].commands)
      && Paid(own, OwnBucket(cfg, s', call), now, Available(s.global, now) >= 1.0)
      && s'.denied == s.denied + (if Available(s.global, now) >= 1.0 && Available(own, now) >= 1.0 then 0 else 1)
      && (forall u | u != call.uid :: u in s'.users <==> u in s.users)
      && (forall u | u != call.uid && u in s.users :: s'.users[u] == s.users[u])
  {
    hide Available;
  }

  /** And none of the user's other buckets is touched. */
  lemma OtherBucketsStay(cfg: Config, s: State, call: Call, c: string)
    requires !call.Cleanup? && call.uid in s.users
    ensures var user := s.users[call.uid];
      var user' := Next(cfg, s, call).users[call.uid];
      && (call.AllowCommand? ==> user'.general == user.general)
      && (!(call.AllowCommand? && call.command == c) ==>
            && (c in user'.commands <==> c in user.commands)
            && (c in user.commands ==> user'.commands[c] == user.commands[c]))
  {}

  /** A cleanup drops the records idle for longer than `maxIdle`, and only those. */
  lemma CleanupDrops(cfg: Config, s: State, maxIdle: real, now: real)
    ensures var s' := Next(cfg, s, Cleanup(maxIdle, now));
      && s'.global == s.global && s'.denied == s.denied
      && (forall u :: u in s'.users <==> u in s.users && now - s.users[u].lastSeen <= maxIdle)
      && (forall u <- s'.users :: s'.users[u] == s.users[u])
  {}

  /** AllowCommand in the order the code works: touch, find or create, charge. */
  lemma AllowCommandEffect(cfg: Config, s: State, uid: int, command: string, now: real)
    ensures var user := Touch(cfg, s, uid, now);
      var limiter := CommandBucket(cfg, user, command);
      var own := ChargeOwn(s.global, limiter, now);
      var call := AllowCommand(uid, command, now);
      && Decision(cfg, s, call) == Admits(s.global, limiter, now)
      && Next(cfg, s, call)
         == State(Take(s.global, now),
                  s.users[uid := user][uid := user.(commands := user.commands[command := own])],
                  s.denied + if Decision(cfg, s, call) then 0 else 1)
  {
    hide Available, Take, CanTake;
    var user := Touch(cfg, s, uid, now);
    var own := ChargeOwn(s.global, CommandBucket(cfg, user, command), now);
    var user' := user.(commands := user.commands[command := own]);
    assert s.users[uid := user][uid := user'] == s.users[uid := user'];
  }

  function Decisions(cfg: Config, s: State, calls: seq<Call>): (ds: seq<bool>)
    ensures |ds| == |calls|
    decreases |calls|
  {
    if calls == [] then []
    else [Decision(cfg, s, calls[0])] + Decisions(cfg, Next(cfg, s, calls[0]), calls[1..])
  }

  function Final(cfg: Config, s: State, calls: seq<Call>): State
    decreases |calls|
  {
    if calls == [] then s else Final(cfg, Next(cfg, s, calls[0]), calls[1..])
  }

  /** Clock readings start at `clock` and never go back. */
  predicate Ordered(calls: seq<Call>, clock: real) {
    calls == [] || (clock <= calls[0].now && Ordered(calls[1..], calls[0].now))
  }

  /** `maxIdle` seconds refill every bucket a user can have. */
  predicate Covers(cfg: Config, maxIdle: real) {
    && RefilledBy(NewGeneral(cfg), maxIdle)
    && forall c <- cfg.commandRate :: RefilledBy(NewCommand(cfg, c), maxIdle)
  }

  predicate CleanupsCover(cfg: Config, calls: seq<Call>) {
    forall k | 0 <= k < |calls| && calls[k].Cleanup? :: Covers(cfg, calls[k].maxIdle)
  }
}
