/** How internal/bot/bot.go drives the limiter and the metrics: what each delivered update
    charges, and what the dashboard's counters say about it afterwards. */
module Bot {
  import opened TokenBucket
  import opened LimiterSpec
  import opened LimiterWindow
  import Wiring = LimiterWiring
  import Limits = RateLimiter
  import Monitor = Metrics

  datatype Option<T> = None | Some(value: T)

  /** `command` is the command word of the text, as extractCommand reads it. */
  datatype Message = Message(from: int, command: string)

  /** A callback query carries the sender only. */
  datatype Update = Update(callback: Option<int>, message: Option<Message>)

  /** Which registered handler gets an update: the default one, a command behind the limit
      named `limit`, or a command without one (/getfid). */
  datatype Delivery = Default(update: Update) | Limited(limit: string, update: Update) | Direct(update: Update)

  /** The limiter and the counters, as values; `times` says when each entry of `log` was recorded. */
  datatype Books = Books(limiter: State, log: seq<string>, times: seq<Monitor.Time>, rateDenied: nat)

  /** The limiter counts the clock in seconds. */
  function Seconds(at: Monitor.Time): real {
    at as real / 1_000_000_000.0
  }

  /** The limiter call an update causes. Without a command handler the default handler
      returns first; the command handlers still charge the limiter. */
  function Charge(handler: bool, d: Delivery, at: Monitor.Time): Option<Call> {
    match d
    case Default(u) =>
      if !handler then None
      else if u.callback.Some? then Some(Allow(u.callback.value, Seconds(at)))
      else if u.message.Some? then Some(Allow(u.message.value.from, Seconds(at)))
      else None
    case Limited(limit, u) =>
      if u.message.Some? then Some(AllowCommand(u.message.value.from, limit, Seconds(at))) else None
    case Direct(_) => None
  }

  /** What is recorded about an update that nothing holds back. */
  function Entry(handler: bool, d: Delivery): seq<string> {
    if !handler then []
    else if d.Default? then
      (if d.update.callback.Some? then ["callback"] else if d.update.message.Some? then ["message"] else [])
    else if d.update.message.Some? then [d.update.message.value.command]
    else []
  }

  function Record(b: Books, entry: seq<string>, at: Monitor.Time): Books {
    b.(log := b.log + entry, times := b.times + if entry == [] then [] else [at])
  }

  function Handle(cfg: Config, handler: bool, b: Books, d: Delivery, at: Monitor.Time): Books {
    match Charge(handler, d, at)
    case None => Record(b, Entry(handler, d), at)
    case Some(call) =>
      var b' := b.(limiter := Next(cfg, b.limiter, call));
      if Decision(cfg, b.limiter, call) then Record(b', Entry(handler, d), at)
      else b'.(rateDenied := b.rateDenied + 1)
  }

  /** A run: updates handled one at a time, and sweeps of the limiter in between. */
  datatype Step = Deliver(d: Delivery, at: Monitor.Time) | Clean(maxIdle: real, at: Monitor.Time)

  function After(cfg: Config, handler: bool, b: Books, steps: seq<Step>): Books
    decreases |steps|
  {
    if steps == [] then b else After(cfg, handler, StepBooks(cfg, handler, b, steps[0]), steps[1..])
  }

  function StepBooks(cfg: Config, handler: bool, b: Books, step: Step): Books {
    match step
    case Deliver(d, at) => Handle(cfg, handler, b, d, at)
    case Clean(maxIdle, at) => b.(limiter := Next(cfg, b.limiter, Cleanup(maxIdle, Seconds(at))))
  }

  /** The limiter calls of a run. */
  function StepCalls(handler: bool, step: Step): seq<Call> {
    match step
    case Deliver(d, at) =>
      var charge := Charge(handler, d, at);
      if charge.Some? then [charge.value] else []
    case Clean(maxIdle, at) => [Cleanup(maxIdle, Seconds(at))]
  }

  function Calls(handler: bool, steps: seq<Step>): seq<Call> {
    if steps == [] then [] else StepCalls(handler, steps[0]) + Calls(handler, steps[1..])
  }

  /** Clock readings start at `clock` and never go back. */
  predicate StepsOrdered(steps: seq<Step>, clock: Monitor.Time) {
    steps == [] || (clock <= steps[0].at && StepsOrdered(steps[1..], steps[0].at))
  }

  /** Recorded requests that passed the limiter with a clock reading in [from, to]. */
  function PassedIn(cfg: Config, handler: bool, b: Books, steps: seq<Step>, from: real, to: real): nat
    decreases |steps|
  {
    if steps == [] then 0
    else
      var after := StepBooks(cfg, handler, b, steps[0]);
      (if StepCalls(handler, steps[0]) != [] && |after.log| > |b.log| && from <= Seconds(steps[0].at) <= to then 1
       else 0)
      + PassedIn(cfg, handler, after, steps[1..], from, to)
  }

  /** Messages with a command that has no limit. */
  function Unlimited(steps: seq<Step>): nat {
    if steps == [] then 0
    else (if steps[0].Deliver? && steps[0].d.Direct? && steps[0].d.update.message.Some? then 1 else 0)
         + Unlimited(steps[1..])
  }

  /** Limiter calls answered with `answer`; sweeps are not asked. */
  function Answered(calls: seq<Call>, decisions: seq<bool>, answer: bool): nat
    requires |calls| == |decisions|
    decreases |calls|
  {
    if calls == [] then 0
    else (if !calls[0].Cleanup? && decisions[0] == answer then 1 else 0)
         + Answered(calls[1..], decisions[1..], answer)
  }

  /** One step, its limiter call, and the books. */
  lemma StepBalance(cfg: Config, handler: bool, b: Books, step: Step)
    ensures var calls, after := StepCalls(handler, step), StepBooks(cfg, handler, b, step);
      && |calls| <= 1
      && after.limiter == Final(cfg, b.limiter, calls)
      && after.rateDenied == b.rateDenied + Answered(calls, Decisions(cfg, b.limiter, calls), false)
      && after.limiter.denied == b.limiter.denied + Answered(calls, Decisions(cfg, b.limiter, calls), false)
      && |after.log| == |b.log| + if handler
           then Answered(calls, Decisions(cfg, b.limiter, calls), true) + Unlimited([step]) else 0
  {
    var calls := StepCalls(handler, step);
    assert calls != [] ==> calls[1..] == [];
  }

  lemma FrontCall(cfg: Config, s: State, front: seq<Call>, rest: seq<Call>)
    requires |front| <= 1
    ensures Decisions(cfg, s, front + rest) == Decisions(cfg, s, front) + Decisions(cfg, Final(cfg, s, front), rest)
    ensures Final(cfg, s, front + rest) == Final(cfg, Final(cfg, s, front), rest)
    ensures forall answer ::
      Answered(front + rest, Decisions(cfg, s, front + rest), answer)
      == Answered(front, Decisions(cfg, s, front), answer)
         + Answered(rest, Decisions(cfg, Final(cfg, s, front), rest), answer)
  {
    if front == [] {
      assert front + rest == rest;
    } else {
      assert (front + rest)[1..] == rest && front[1..] == [];
      var ds := Decisions(cfg, s, front + rest);
      assert ds[1..] == Decisions(cfg, Next(cfg, s, front[0]), rest);
    }
  }

  lemma {:induction false} BalanceFrom(cfg: Config, handler: bool, b: Books, steps: seq<Step>)
    ensures var calls, after := Calls(handler, steps), After(cfg, handler, b, steps);
      var decisions := Decisions(cfg, b.limiter, calls);
      && after.limiter == Final(cfg, b.limiter, calls)
      && after.rateDenied == b.rateDenied + Answered(calls, decisions, false)
      && after.limiter.denied == b.limiter.denied + Answered(calls, decisions, false)
      && |after.log| == |b.log| + if handler then Answered(calls, decisions, true) + Unlimited(steps) else 0
    decreases |steps|
  {
    hide Decision, Next, Charge, Handle, Record, Seconds;
    if steps != [] {
      var b' := StepBooks(cfg, handler, b, steps[0]);
      StepBalance(cfg, handler, b, steps[0]);
      assert [steps[0]][1..] == [];
      BalanceFrom(cfg, handler, b', steps[1..]);
      FrontCall(cfg, b.limiter, StepCalls(handler, steps[0]), Calls(handler, steps[1..]));
    }
  }

  function Start(cfg: Config): Books {
    Books(Init(cfg), [], [], 0)
  }

  /** Main result: the dashboard's denials are the limiter's, and every update the limiter was
      asked about shows up once, as a request or as a denial; unlimited commands add the rest. */
  lemma BooksBalance(cfg: Config, handler: bool, steps: seq<Step>)
    ensures var calls, after := Calls(handler, steps), After(cfg, handler, Start(cfg), steps);
      var decisions := Decisions(cfg, Init(cfg), calls);
      && after.rateDenied == after.limiter.denied == Answered(calls, decisions, false)
      && |after.log| == if handler then Answered(calls, decisions, true) + Unlimited(steps) else 0
  {
    BalanceFrom(cfg, handler, Start(cfg), steps);
  }

  lemma {:induction false} CallsOrdered(handler: bool, steps: seq<Step>, clock: Monitor.Time)
    requires StepsOrdered(steps, clock)
    ensures Ordered(Calls(handler, steps), Seconds(clock))
  {
    if steps != [] {
      CallsOrdered(handler, steps[1..], steps[0].at);
      var front, rest := StepCalls(handler, steps[0]), Calls(handler, steps[1..]);
      if front == [] {
        assert front + rest == rest;
      } else {
        assert (front + rest)[1..] == rest;
      }
    }
  }

  /** One step: a limited request adds to the log exactly when the limiter lets it through. */
  lemma StepPasses(cfg: Config, b: Books, step: Step)
    ensures var front, after := StepCalls(true, step), StepBooks(cfg, true, b, step);
      && |front| <= 1 && (front == [] ==> after.limiter == b.limiter)
      && (front != [] ==>
            && front[0].now == Seconds(step.at) && after.limiter == Next(cfg, b.limiter, front[0])
            && (|after.log| > |b.log| <==> Decision(cfg, b.limiter, front[0]) && Concerns(front[0], Global)))
  {
    hide Decision, Next, Seconds;
  }

  /** With a handler wired, a request is recorded exactly when the limiter lets it through. */
  lemma {:induction false} PassedIsAdmitted(cfg: Config, b: Books, steps: seq<Step>, from: real, to: real)
    ensures var calls := Calls(true, steps);
      PassedIn(cfg, true, b, steps, from, to)
      == AdmittedIn(calls, Decisions(cfg, b.limiter, calls), Global, from, to)
    decreases |steps|
  {
    hide Decision, Next, Seconds, StepCalls, StepBooks, Concerns;
    if steps != [] {
      var step, b' := steps[0], StepBooks(cfg, true, b, steps[0]);
      var front, rest := StepCalls(true, step), Calls(true, steps[1..]);
      StepPasses(cfg, b, step);
      PassedIsAdmitted(cfg, b', steps[1..], from, to);
      if front == [] {
        assert front + rest == rest;
      } else {
        assert (front + rest)[1..] == rest;
        assert Decisions(cfg, b.limiter, front + rest)[1..] == Decisions(cfg, b'.limiter, rest);
      }
    }
  }

  /** A run of the wired bot: the clock is past the zero time, sweeps use the wired idle time. */
  predicate WiredSteps(steps: seq<Step>) {
    StepsOrdered(steps, 1) && forall s <- steps | s.Clean? :: s.maxIdle == Wiring.MAX_IDLE
  }

  lemma {:induction false} CallsCleanWith(handler: bool, steps: seq<Step>)
    requires forall s <- steps | s.Clean? :: s.maxIdle == Wiring.MAX_IDLE
    ensures forall c <- Calls(handler, steps) | c.Cleanup? :: c.maxIdle == Wiring.MAX_IDLE
  {
    if steps != [] {
      assert steps[0] in steps;
      CallsCleanWith(handler, steps[1..]);
    }
  }

  /** Main result: whatever arrives, the limited requests that reach a handler in any window
      stay within the global limit. */
  lemma HandledWithinGlobalLimit(steps: seq<Step>, from: real, to: real)
    requires WiredSteps(steps) && from <= to
    ensures PassedIn(Wiring.WIRED, true, Start(Wiring.WIRED), steps, from, to) as real <= 200.0 + 100.0 * (to - from)
  {
    var calls := Calls(true, steps);
    PassedIsAdmitted(Wiring.WIRED, Start(Wiring.WIRED), steps, from, to);
    RunIsWired(steps);
    Wiring.WiredWindow(calls, 0, "", from, to);
  }

  /** A callback or a message of user `uid` that gets to the default handler. */
  predicate IsDefaultOf(step: Step, uid: int) {
    && step.Deliver? && step.d.Default?
    && (step.d.update.callback == Some(uid)
        || (step.d.update.callback.None? && step.d.update.message.Some? && step.d.update.message.value.from == uid))
  }

  /** A message of user `uid` that gets to the handler behind the limit named `limit`. */
  predicate IsLimitedOf(step: Step, uid: int, limit: string) {
    && step.Deliver? && step.d.Limited? && step.d.limit == limit
    && step.d.update.message.Some? && step.d.update.message.value.from == uid
  }

  /** Whether a step is one of those the bucket `key` of a user is there to bound. */
  predicate IsOf(step: Step, key: Key) {
    match key
    case Global => false
    case General(uid) => IsDefaultOf(step, uid)
    case Command(uid, command) => IsLimitedOf(step, uid, command)
  }

  /** Deliveries of that kind that are recorded with a clock reading in [from, to]. */
  function RecordedOf(cfg: Config, b: Books, steps: seq<Step>, key: Key, from: real, to: real): nat
    decreases |steps|
  {
    if steps == [] then 0
    else
      var after := StepBooks(cfg, true, b, steps[0]);
      (if IsOf(steps[0], key) && |after.log| > |b.log| && from <= Seconds(steps[0].at) <= to then 1 else 0)
      + RecordedOf(cfg, after, steps[1..], key, from, to)
  }

  /** A delivery of a kind asks the bucket of that kind, and no other delivery does. */
  lemma StepAsks(step: Step, key: Key)
    requires key != Global
    ensures var front := StepCalls(true, step);
      |front| <= 1 && (IsOf(step, key) <==> front != [] && Concerns(front[0], key))
  {
    hide Seconds;
  }

  lemma {:induction false} RecordedIsAdmitted(cfg: Config, b: Books, steps: seq<Step>, key: Key, from: real, to: real)
    requires key != Global
    ensures var calls := Calls(true, steps);
      RecordedOf(cfg, b, steps, key, from, to)
      == AdmittedIn(calls, Decisions(cfg, b.limiter, calls), key, from, to)
    decreases |steps|
  {
    hide Decision, Next, Seconds, StepCalls, StepBooks, Concerns, IsOf;
    if steps != [] {
      var step, b' := steps[0], StepBooks(cfg, true, b, steps[0]);
      var front, rest := StepCalls(true, step), Calls(true, steps[1..]);
      StepPasses(cfg, b, step);
      StepAsks(step, key);
      RecordedIsAdmitted(cfg, b', steps[1..], key, from, to);
      if front == [] {
        assert front + rest == rest;
      } else {
        AsksGlobal(front[0], key);
        assert (front + rest)[1..] == rest;
        assert Decisions(cfg, b.limiter, front + rest)[1..] == Decisions(cfg, b'.limiter, rest);
      }
    }
  }

  lemma AsksGlobal(call: Call, key: Key)
    ensures Concerns(call, key) ==> Concerns(call, Global)
  {}

  lemma RunIsWired(steps: seq<Step>)
    requires WiredSteps(steps)
    ensures Wiring.WiredRun(Calls(true, steps))
  {
    var calls := Calls(true, steps);
    CallsOrdered(true, steps, 1);
    CallsCleanWith(true, steps);
    assert forall k | 0 <= k < |calls| && calls[k].Cleanup? :: calls[k].maxIdle == Wiring.MAX_IDLE by {
      assert forall k | 0 <= k < |calls| :: calls[k] in calls;
    }
  }

  /** Main result: of what one user sends, at most 5 + t / 2 callbacks and messages, and at most
      2 + 5 t / 60 of each limited command, are recorded in any window of t seconds. */
  lemma {:induction false} HandledWithinUserLimits(steps: seq<Step>, uid: int, limit: string, from: real, to: real)
    requires WiredSteps(steps) && from <= to
    ensures RecordedOf(Wiring.WIRED, Start(Wiring.WIRED), steps, General(uid), from, to) as real
      <= 5.0 + 0.5 * (to - from)
    ensures limit == "/start" || limit == "/about" || limit == "/info" ==>
      RecordedOf(Wiring.WIRED, Start(Wiring.WIRED), steps, Command(uid, limit), from, to) as real
      <= 2.0 + 5.0 / 60.0 * (to - from)
  {
    RunIsWired(steps);
    RecordedIsAdmitted(Wiring.WIRED, Start(Wiring.WIRED), steps, General(uid), from, to);
    RecordedIsAdmitted(Wiring.WIRED, Start(Wiring.WIRED), steps, Command(uid, limit), from, to);
    Wiring.WiredWindow(Calls(true, steps), uid, limit, from, to);
  }

  /** `gap` seconds or more between any two deliveries of a kind. */
  predicate StepsApart(steps: seq<Step>, key: Key, gap: real) {
    forall j, k | 0 <= j < k < |steps| && IsOf(steps[j], key) && IsOf(steps[k], key) ::
      Seconds(steps[k].at) - Seconds(steps[j].at) >= gap
  }

  /** Along a run, a delivery of a kind that the global bucket lets through is recorded, and so not
      counted as denied. */
  predicate OnlyGlobalRefuses(cfg: Config, b: Books, steps: seq<Step>, key: Key)
    decreases |steps|
  {
    steps == [] ||
    (var after := StepBooks(cfg, true, b, steps[0]);
     && (IsOf(steps[0], key) && CanTake(b.limiter.global, Seconds(steps[0].at)) ==>
           |after.log| == |b.log| + 1 && after.rateDenied == b.rateDenied)
     && OnlyGlobalRefuses(cfg, after, steps[1..], key))
  }

  /** A call of a run comes from a delivery of the kind, at the same time. */
  lemma {:induction false} CallFromStep(steps: seq<Step>, key: Key, k: nat) returns (m: nat)
    requires key != Global && k < |Calls(true, steps)| && Concerns(Calls(true, steps)[k], key)
    ensures m < |steps| && IsOf(steps[m], key) && Calls(true, steps)[k].now == Seconds(steps[m].at)
    decreases |steps|
  {
    hide StepCalls, IsOf, Seconds, Concerns;
    var front := StepCalls(true, steps[0]);
    StepAsks(steps[0], key);
    StepPasses(Wiring.WIRED, Start(Wiring.WIRED), steps[0]);
    if k < |front| {
      m := 0;
    } else {
      m := CallFromStep(steps[1..], key, k - |front|);
      m := m + 1;
    }
  }

  lemma {:induction false} CallsApart(steps: seq<Step>, key: Key, gap: real)
    requires key != Global && StepsApart(steps, key, gap)
    ensures Wiring.Apart(Calls(true, steps), key, gap)
    decreases |steps|
  {
    hide StepCalls, IsOf, Seconds, Concerns;
    if steps != [] {
      var front, rest, calls := StepCalls(true, steps[0]), Calls(true, steps[1..]), Calls(true, steps);
      StepAsks(steps[0], key);
      StepPasses(Wiring.WIRED, Start(Wiring.WIRED), steps[0]);
      assert forall j | 0 <= j < |steps[1..]| :: steps[1..][j] == steps[j + 1];
      CallsApart(steps[1..], key, gap);
      forall j, k | 0 <= j < k < |calls| && Concerns(calls[j], key) && Concerns(calls[k], key)
        ensures calls[k].now - calls[j].now >= gap
      {
        if j < |front| {
          var m := CallFromStep(steps[1..], key, k - |front|);
          assert steps[m + 1] == steps[1..][m];
        } else {
          assert calls[j] == rest[j - |front|] && calls[k] == rest[k - |front|];
        }
      }
    }
  }

  lemma {:induction false} RefusalsLifted(cfg: Config, b: Books, steps: seq<Step>, key: Key)
    requires key != Global && OnlyGlobalDenies(cfg, b.limiter, Calls(true, steps), key)
    ensures OnlyGlobalRefuses(cfg, b, steps, key)
    decreases |steps|
  {
    hide Decision, Next, Seconds, StepCalls, StepBooks, Concerns, IsOf, CanTake;
    if steps != [] {
      var b', front, rest := StepBooks(cfg, true, b, steps[0]), StepCalls(true, steps[0]), Calls(true, steps[1..]);
      StepAsks(steps[0], key);
      StepPasses(cfg, b, steps[0]);
      StepCounts(cfg, b, steps[0]);
      if front == [] {
        assert front + rest == rest;
      } else {
        AsksGlobal(front[0], key);
        assert (front + rest)[1..] == rest && (front + rest)[0] == front[0];
      }
      RefusalsLifted(cfg, b', steps[1..], key);
    }
  }

  /** One step: what is let through is recorded and not denied, and the other way round. */
  lemma StepCounts(cfg: Config, b: Books, step: Step)
    ensures var front, after := StepCalls(true, step), StepBooks(cfg, true, b, step);
      front != [] && Concerns(front[0], Global) ==>
        if Decision(cfg, b.limiter, front[0]) then |after.log| == |b.log| + 1 && after.rateDenied == b.rateDenied
        else after.log == b.log && after.rateDenied == b.rateDenied + 1
  {
    hide Decision, Next, Seconds;
  }

  /** Main result: messages of one user 2 s apart, or limited commands 12 s apart, are counted as
      denied only when the global bucket denies them. */
  lemma PatientUsersHandled(steps: seq<Step>, uid: int, limit: string)
    requires WiredSteps(steps)
    ensures StepsApart(steps, General(uid), 2.0) ==>
      OnlyGlobalRefuses(Wiring.WIRED, Start(Wiring.WIRED), steps, General(uid))
    ensures limit in {"/start", "/about", "/info"} && StepsApart(steps, Command(uid, limit), 12.0) ==>
      OnlyGlobalRefuses(Wiring.WIRED, Start(Wiring.WIRED), steps, Command(uid, limit))
  {
    hide OnlyGlobalRefuses, OnlyGlobalDenies, StepsApart;
    RunIsWired(steps);
    Wiring.WiredPatience(Calls(true, steps), uid, limit);
    if StepsApart(steps, General(uid), 2.0) {
      CallsApart(steps, General(uid), 2.0);
      RefusalsLifted(Wiring.WIRED, Start(Wiring.WIRED), steps, General(uid));
    }
    if limit in {"/start", "/about", "/info"} && StepsApart(steps, Command(uid, limit), 12.0) {
      CallsApart(steps, Command(uid, limit), 12.0);
      RefusalsLifted(Wiring.WIRED, Start(Wiring.WIRED), steps, Command(uid, limit));
    }
  }

  /** Which handler is registered for a command; `help` shares the limit of `start`. */
  function Registered(pattern: string, u: Update): Option<Delivery> {
    if pattern == "start" || pattern == "help" then Some(Limited("/start", u))
    else if pattern == "about" then Some(Limited("/about", u))
    else if pattern == "info" then Some(Limited("/info", u))
    else if pattern == "getfid" then Some(Direct(u))
    else None
  }

  /** Every registered command counts against one of the three limits, except getfid, which is
      recorded whenever it comes; nothing a limit does not let through is recorded under its name. */
  lemma RegisteredIs(cfg: Config, b: Books, pattern: string, m: Message, at: Monitor.Time)
    requires Registered(pattern, Update(None, Some(m))).Some?
    ensures var step := Deliver(Registered(pattern, Update(None, Some(m))).value, at);
      var after := StepBooks(cfg, true, b, step);
      && (pattern == "getfid" ==> after.limiter == b.limiter && after.log == b.log + [m.command])
      && (pattern == "start" || pattern == "help" ==> IsLimitedOf(step, m.from, "/start"))
      && (pattern == "about" ==> IsLimitedOf(step, m.from, "/about"))
      && (pattern == "info" ==> IsLimitedOf(step, m.from, "/info"))
      && (after.log == b.log || after.log == b.log + [m.command])
  {
    hide Next, Decision;
  }

  /** Without a command handler a limited command still charges its own limit, and records nothing
      but a denial. */
  lemma WithoutHandler(cfg: Config, b: Books, limit: string, m: Message, at: Monitor.Time)
    ensures var after := StepBooks(cfg, false, b, Deliver(Limited(limit, Update(None, Some(m))), at));
      && after.limiter == Next(cfg, b.limiter, AllowCommand(m.from, limit, Seconds(at)))
      && after.log == b.log && after.times == b.times && b.rateDenied <= after.rateDenied <= b.rateDenied + 1
  {
    hide Next, Decision;
  }

  /** What the default handler records: the kind of update, never its text. */
  lemma DefaultRecords(cfg: Config, handler: bool, b: Books, u: Update, at: Monitor.Time)
    ensures var after := StepBooks(cfg, handler, b, Deliver(Default(u), at));
      && (!handler || (u.callback.None? && u.message.None?) ==> after == b)
      && (u.callback.Some? ==> after.log == b.log || after.log == b.log + ["callback"])
      && (u.callback.None? ==> after.log == b.log || after.log == b.log + ["message"])
  {
    hide Next, Decision;
  }

  lemma {:induction false} AfterMore(cfg: Config, handler: bool, b: Books, steps: seq<Step>, step: Step)
    ensures After(cfg, handler, b, steps + [step]) == StepBooks(cfg, handler, After(cfg, handler, b, steps), step)
    decreases |steps|
  {
    hide StepBooks;
    if steps == [] {
      assert [] + [step] == [step] && [step][1..] == [];
    } else {
      assert (steps + [step])[1..] == steps[1..] + [step];
      AfterMore(cfg, handler, StepBooks(cfg, handler, b, steps[0]), steps[1..], step);
    }
  }

  function Clock(steps: seq<Step>): Monitor.Time {
    if steps == [] then 1 else steps[|steps| - 1].at
  }

  lemma {:induction false} ClockAtLeast(steps: seq<Step>, clock: Monitor.Time)
    requires StepsOrdered(steps, clock) && steps != []
    ensures clock <= Clock(steps)
  {
    if |steps| > 1 { ClockAtLeast(steps[1..], steps[0].at); }
  }

  lemma {:induction false} OrderedMore(steps: seq<Step>, step: Step, clock: Monitor.Time)
    requires StepsOrdered(steps, clock) && clock <= step.at && (steps != [] ==> Clock(steps) <= step.at)
    ensures StepsOrdered(steps + [step], clock)
  {
    if steps == [] {
      assert [] + [step] == [step] && [step][1..] == [];
    } else {
      assert (steps + [step])[1..] == steps[1..] + [step];
      ClockAtLeast(steps, steps[0].at);
      OrderedMore(steps[1..], step, steps[0].at);
    }
  }

  /** Requests recorded along a run at `since` or later. */
  function RecordedSince(cfg: Config, handler: bool, b: Books, steps: seq<Step>, since: Monitor.Time): nat
    decreases |steps|
  {
    if steps == [] then 0
    else
      var after := StepBooks(cfg, handler, b, steps[0]);
      (if |after.log| > |b.log| && steps[0].at >= since then 1 else 0)
      + RecordedSince(cfg, handler, after, steps[1..], since)
  }

  /** Times that never go back, none of them the zero time, none after `clock`. */
  predicate Timely(times: seq<Monitor.Time>, clock: Monitor.Time) {
    Monitor.NonDecreasing(times) && forall k | 0 <= k < |times| :: 0 < times[k] <= clock
  }

  lemma RecordTimes(b: Books, entry: seq<string>, at: Monitor.Time, clock: Monitor.Time, since: Monitor.Time)
    requires 0 < clock <= at && Timely(b.times, clock)
    ensures Timely(Record(b, entry, at).times, at)
    ensures Monitor.CountIn(Record(b, entry, at).times, since)
         == Monitor.CountIn(b.times, since) + if entry != [] && at >= since then 1 else 0
  {
    hide Monitor.CountIn;
    if entry == [] {
      assert b.times + [] == b.times;
    } else {
      Monitor.CountSplits(b.times, [at], since);
      Monitor.CountOne(at, since);
    }
  }

  lemma StepTimes(cfg: Config, handler: bool, b: Books, step: Step, clock: Monitor.Time, since: Monitor.Time)
    requires 0 < clock <= step.at && Timely(b.times, clock)
    ensures var after := StepBooks(cfg, handler, b, step);
      && Timely(after.times, step.at)
      && Monitor.CountIn(after.times, since)
         == Monitor.CountIn(b.times, since) + if |after.log| > |b.log| && step.at >= since then 1 else 0
  {
    hide Decision, Next, Charge, Monitor.CountIn;
    if step.Deliver? { RecordTimes(b, Entry(handler, step.d), step.at, clock, since); }
  }

  lemma {:induction false} RunTimes(cfg: Config, handler: bool, b: Books, steps: seq<Step>,
                                    clock: Monitor.Time, since: Monitor.Time)
    requires 0 < clock && StepsOrdered(steps, clock) && Timely(b.times, clock)
    ensures var times := After(cfg, handler, b, steps).times;
      && Monitor.NonDecreasing(times) && (forall k | 0 <= k < |times| :: times[k] != 0)
      && Monitor.CountIn(times, since)
         == Monitor.CountIn(b.times, since) + RecordedSince(cfg, handler, b, steps, since)
    decreases |steps|
  {
    hide StepBooks;
    if steps != [] {
      StepTimes(cfg, handler, b, steps[0], clock, since);
      RunTimes(cfg, handler, StepBooks(cfg, handler, b, steps[0]), steps[1..], steps[0].at, since);
    }
  }

  /** The rate a snapshot shows for a history of requests. */
  function Shown(times: seq<Monitor.Time>, at: Monitor.Time): nat {
    Monitor.CountIn(Monitor.Window(times, Monitor.RING_SIZE), at - Monitor.MINUTE)
  }

  /** Main result: over every run the rate shown is the number of requests recorded in the last
      minute, as far as the ring goes. */
  lemma DashboardRate(cfg: Config, handler: bool, steps: seq<Step>, at: Monitor.Time)
    requires StepsOrdered(steps, 1)
    ensures var recorded := RecordedSince(cfg, handler, Start(cfg), steps, at - Monitor.MINUTE);
      Shown(After(cfg, handler, Start(cfg), steps).times, at)
      == if recorded <= Monitor.RING_SIZE then recorded else Monitor.RING_SIZE
  {
    RunTimes(cfg, handler, Start(cfg), steps, 1, at - Monitor.MINUTE);
    Monitor.SlidingWindow(After(cfg, handler, Start(cfg), steps).times, Monitor.RING_SIZE, at - Monitor.MINUTE);
  }

  class App {
    const limiter: Limits.RateLimiter
    const metrics: Monitor.Metrics
    /** Whether a command handler was wired. */
    const handler: bool
    /** Every update handled and every sweep, in order. */
    ghost var run: seq<Step>

    /** Limiter and metrics as Run and registerCommandHandlers set them up. */
    constructor (handler: bool)
      ensures Valid() && run == [] && this.handler == handler
    {
      this.handler, run := handler, [];
      limiter := new Limits.RateLimiter(100.0, 200);
      metrics := new Monitor.Metrics();
      new;
      hide Limits.RateLimiter.Valid, Monitor.Metrics.Valid;
      RegisterLimits(limiter);
    }

    /** The limits registerCommandHandlers sets. */
    static method RegisterLimits(limiter: Limits.RateLimiter)
      requires limiter.Valid() && limiter.Settings() == Config(100.0, 200, 30.0 / 60.0, 5, map[], map[])
      modifies limiter`commandRate, limiter`commandBurst
      ensures limiter.Valid() && limiter.state == old(limiter.state) && limiter.Settings() == Wiring.WIRED
    {
      hide Limits.RateLimiter.Valid;
      limiter.SetCommandRate("/start", 5.0 / 60.0, 2);
      limiter.SetCommandRate("/about", 5.0 / 60.0, 2);
      limiter.SetCommandRate("/info", 5.0 / 60.0, 2);
    }

    /** The objects are consistent, and wired as they should be. */
    ghost predicate Wired()
      reads limiter, limiter.users.Values, metrics, metrics.recentRequests, metrics.recentRequests.times
    {
      limiter.Valid() && metrics.Valid() && limiter.Settings() == Wiring.WIRED
    }

    ghost function Value(): Books
      reads limiter, metrics, metrics.recentRequests
    {
      Books(limiter.state, metrics.log, metrics.recentRequests.history, metrics.rateDenied)
    }

    /** The objects hold what the run so far leads to. */
    ghost predicate Valid()
      reads this, limiter, limiter.users.Values, metrics, metrics.recentRequests, metrics.recentRequests.times
    {
      Wired() && WiredSteps(run) && Value() == After(Wiring.WIRED, handler, Start(Wiring.WIRED), run)
    }

    method RouteCommand(update: Update, at: Monitor.Time)
      requires Wired()
      modifies metrics, metrics.recentRequests, metrics.recentRequests.times
      ensures Wired() && Value() == Record(old(Value()), Entry(handler, Direct(update)), at)
    {
      hide Limits.RateLimiter.Valid, Monitor.Metrics.Valid;
      if update.message.None? || !handler {
        return;
      }
      metrics.RecordRequest(update.message.value.command, at);
    }

    method DefaultHandler(update: Update, at: Monitor.Time)
      requires Wired()
      modifies limiter, limiter.users.Values, metrics, metrics.recentRequests, metrics.recentRequests.times
      ensures Wired() && Value() == Handle(Wiring.WIRED, handler, old(Value()), Default(update), at)
    {
      hide Decision, Next, Seconds, Limits.RateLimiter.Valid, Monitor.Metrics.Valid;
      if !handler {
        return;
      }
      if update.callback.Some? {
        var ok := limiter.Allow(update.callback.value, Seconds(at));
        if !ok {
          metrics.RecordRateDenied();
          return;
        }
        metrics.RecordRequest("callback", at);
        return;
      }
      if update.message.None? {
        return;
      }
      var ok := limiter.Allow(update.message.value.from, Seconds(at));
      if !ok {
        metrics.RecordRateDenied();
        return;
      }
      metrics.RecordRequest("message", at);
    }

    method WithRateLimit(limit: string, update: Update, at: Monitor.Time)
      requires Wired()
      modifies limiter, limiter.users.Values, metrics, metrics.recentRequests, metrics.recentRequests.times
      ensures Wired() && Value() == Handle(Wiring.WIRED, handler, old(Value()), Limited(limit, update), at)
    {
      hide Decision, Next, Seconds, Limits.RateLimiter.Valid, Monitor.Metrics.Valid;
      if update.message.None? {
        return;
      }
      var ok := limiter.AllowCommand(update.message.value.from, limit, Seconds(at));
      if !ok {
        metrics.RecordRateDenied();
        return;
      }
      RouteCommand(update, at);
    }

    /** The registered handler gets the update; the clock does not go back. */
    method Dispatch(d: Delivery, at: Monitor.Time)
      requires Valid() && Clock(run) <= at
      modifies this, limiter, limiter.users.Values, metrics, metrics.recentRequests, metrics.recentRequests.times
      ensures Valid() && run == old(run) + [Deliver(d, at)]
    {
      hide Wired, After, Handle, Seconds;
      match d {
        case Default(update) => DefaultHandler(update, at);
        case Limited(limit, update) => WithRateLimit(limit, update, at);
        case Direct(update) => RouteCommand(update, at);
      }
      DirectIsHandled(handler, old(Value()), d, at);
      Extend(run, handler, Deliver(d, at));
      run := run + [Deliver(d, at)];
    }

    /** The limiter's periodic sweep. */
    method CleanupLimiter(at: Monitor.Time)
      requires Valid() && Clock(run) <= at
      modifies this, limiter, limiter.users.Values
      ensures Valid() && run == old(run) + [Clean(Wiring.MAX_IDLE, at)]
    {
      hide After, Handle, Seconds, Next, Limits.RateLimiter.Valid, Monitor.Metrics.Valid;
      var _ := limiter.CleanupStale(Wiring.MAX_IDLE, Seconds(at));
      Extend(run, handler, Clean(Wiring.MAX_IDLE, at));
      run := run + [Clean(Wiring.MAX_IDLE, at)];
    }

    /** What the dashboard shows of a run. */
    method Dashboard(at: Monitor.Time) returns (s: Monitor.Snapshot)
      requires Valid()
      ensures var after := After(Wiring.WIRED, handler, Start(Wiring.WIRED), run);
        var recorded := RecordedSince(Wiring.WIRED, handler, Start(Wiring.WIRED), run, at - Monitor.MINUTE);
        && s.totalRequests == |after.log| && s.rateDenied == after.rateDenied
        && s.requestsPerMin == if recorded <= Monitor.RING_SIZE then recorded else Monitor.RING_SIZE
    {
      hide After, RecordedSince;
      s := metrics.TakeSnapshot(at);
      DashboardRate(Wiring.WIRED, handler, run, at);
    }
  }

  lemma DirectIsHandled(handler: bool, b: Books, d: Delivery, at: Monitor.Time)
    ensures d.Direct? ==> Handle(Wiring.WIRED, handler, b, d, at) == Record(b, Entry(handler, d), at)
  {}

  /** One more step keeps a run a run. */
  lemma Extend(run: seq<Step>, handler: bool, step: Step)
    requires WiredSteps(run) && Clock(run) <= step.at && (step.Clean? ==> step.maxIdle == Wiring.MAX_IDLE)
    ensures WiredSteps(run + [step])
    ensures var start := Start(Wiring.WIRED);
      After(Wiring.WIRED, handler, start, run + [step])
      == StepBooks(Wiring.WIRED, handler, After(Wiring.WIRED, handler, start, run), step)
  {
    hide After, StepBooks;
    AfterMore(Wiring.WIRED, handler, Start(Wiring.WIRED), run, step);
    if run != [] { ClockAtLeast(run, 1); }
    OrderedMore(run, step, 1);
  }

  /** Messages of users k, k + 1, ..., n - 1, a hundredth of a second apart. */
  function Flood(k: nat, n: nat): seq<Step>
    decreases n - k
  {
    if k >= n then []
    else [Deliver(Default(Update(None, Some(Message(k, "")))), FloodAt(k))] + Flood(k + 1, n)
  }

  function FloodAt(k: nat): Monitor.Time {
    (k + 1) * 10_000_000
  }

  lemma {:induction false} FloodPasses(b: Books, k: nat, n: nat, since: Monitor.Time)
    requires k <= n && since <= FloodAt(k)
    requires var g, now := b.limiter.global, Seconds(FloodAt(k));
      Sound(g, now) && g.rate == 100.0 && g.burst == 200 && Available(g, now) >= 1.0
    requires forall u | u >= k :: u !in b.limiter.users
    ensures StepsOrdered(Flood(k, n), FloodAt(k))
    ensures RecordedSince(Wiring.WIRED, true, b, Flood(k, n), since) == n - k
    decreases n - k
  {
    hide Available, Earned;
    if k < n {
      var now, next := Seconds(FloodAt(k)), Seconds(FloodAt(k + 1));
      var steps, g := Flood(k, n), b.limiter.global;
      var after := StepBooks(Wiring.WIRED, true, b, steps[0]);
      assert steps[1..] == Flood(k + 1, n);
      FreshPays(now);
      TakeCosts(g, now, now);
      Refill(Take(g, now), now, next);
      HundredthEarns(now, next);
      assert after.limiter == Next(Wiring.WIRED, b.limiter, Allow(k, now));
      FloodPasses(after, k + 1, n, since);
    }
  }

  lemma FreshPays(now: real)
    requires 0.0 <= now
    ensures CanTake(NewGeneral(Wiring.WIRED), now)
  {
    EarnedNonnegative(0.5, 0.0, now);
  }

  lemma HundredthEarns(now: real, next: real)
    requires next == now + 1.0 / 100.0
    ensures Earned(100.0, now, next) == 1.0
  {}

  /** The limits allow more requests in a minute than the ring holds: here 3601 are handled within
      37 seconds, and the dashboard shows 3600 of them. */
  lemma DashboardFallsShort()
    ensures var steps, at := Flood(0, 3601), FloodAt(3601);
      var start := Start(Wiring.WIRED);
      && WiredSteps(steps)
      && RecordedSince(Wiring.WIRED, true, start, steps, at - 60_000_000_000) == 3601
      && Shown(After(Wiring.WIRED, true, start, steps).times, at) == 3600
  {
    hide Available, Earned, Sound, Shown, RecordedSince, After;
    var steps, at, start := Flood(0, 3601), FloodAt(3601), Start(Wiring.WIRED);
    FullAtFirst();
    FloodPasses(start, 0, 3601, at - Monitor.MINUTE);
    FloodOnlyDelivers(0, 3601);
    FloodStarts(3601);
    DashboardRate(Wiring.WIRED, true, steps, at);
  }

  lemma FullAtFirst()
    ensures var g, now := Init(Wiring.WIRED).global, Seconds(FloodAt(0)); Sound(g, now) && Available(g, now) >= 1.0
  {
    EarnedNonnegative(100.0, 0.0, Seconds(FloodAt(0)));
  }

  lemma FloodStarts(n: nat)
    requires StepsOrdered(Flood(0, n), FloodAt(0))
    ensures StepsOrdered(Flood(0, n), 1)
  {}

  lemma {:induction false} FloodOnlyDelivers(k: nat, n: nat)
    ensures forall s <- Flood(k, n) :: s.Deliver?
    decreases n - k
  {
    if k < n { FloodOnlyDelivers(k + 1, n); }
  }
}
