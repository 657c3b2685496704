/** The limits the bot is wired with (internal/bot/bot.go), in seconds. */
module LimiterWiring {
  import opened TokenBucket
  import opened LimiterSpec
  import opened LimiterTransparency
  import opened LimiterWindow
  import opened LimiterTightness
  import opened LimiterExact

  const MAX_IDLE: real := 1800.0

  const COMMANDS: set<string> := {"/start", "/about", "/info"}

  const WIRED: Config := Config(
    100.0, 200, 30.0 / 60.0, 5,
    map c: string | c in COMMANDS :: 5.0 / 60.0,
    map c: string | c in COMMANDS :: 2)

  /** A run of the wired bot: the clock moves forward, cleanups use the wired idle time. */
  predicate WiredRun(calls: seq<Call>) {
    Ordered(calls, 0.0) && CleansWith(calls, MAX_IDLE)
  }

  function WiredDecisions(calls: seq<Call>): (ds: seq<bool>)
    ensures |ds| == |calls|
  {
    Decisions(WIRED, Init(WIRED), calls)
  }

  /** The limits as documented: 100 a second with a burst of 200 in all, 30 a minute with a burst
      of 5 for messages and commands without a limit of their own, 5 a minute with a burst of 2
      for each of three commands. */
  lemma WiredLimits(uid: int, command: string)
    ensures KeyRate(WIRED, Global) == 100.0 && KeyBurst(WIRED, Global) == 200
    ensures KeyRate(WIRED, General(uid)) == 0.5 && KeyBurst(WIRED, General(uid)) == 5
    ensures if command == "/start" || command == "/about" || command == "/info"
            then KeyRate(WIRED, Command(uid, command)) == 5.0 / 60.0 && KeyBurst(WIRED, Command(uid, command)) == 2
            else KeyRate(WIRED, Command(uid, command)) == 0.5 && KeyBurst(WIRED, Command(uid, command)) == 5
    ensures MAX_IDLE == 30.0 * 60.0
  {}

  lemma WiredCovers()
    ensures WellFormed(WIRED) && Covers(WIRED, MAX_IDLE)
  {}

  /** In the wired bot evictions are never seen. */
  lemma WiredEvictionInvisible(calls: seq<Call>)
    requires WiredRun(calls)
    ensures WiredDecisions(calls) == IdealDecisions(IdealInit(WIRED), calls)
  {
    WiredCovers();
    EvictionInvisible(WIRED, calls);
  }

  /** The documented limits, over every run and every window. */
  lemma WiredWindow(calls: seq<Call>, uid: int, command: string, from: real, to: real)
    requires WiredRun(calls) && from <= to
    ensures AdmittedIn(calls, WiredDecisions(calls), Global, from, to) as real <= 200.0 + 100.0 * (to - from)
    ensures AdmittedIn(calls, WiredDecisions(calls), General(uid), from, to) as real <= 5.0 + 0.5 * (to - from)
    ensures command == "/start" || command == "/about" || command == "/info" ==>
      AdmittedIn(calls, WiredDecisions(calls), Command(uid, command), from, to) as real
      <= 2.0 + 5.0 / 60.0 * (to - from)
  {
    hide Available;
    WiredCovers();
    WindowBound(WIRED, calls, Global, from, to);
    WindowBound(WIRED, calls, General(uid), from, to);
    WindowBound(WIRED, calls, Command(uid, command), from, to);
  }

  /** `gap` seconds or more between any two calls of one bucket. */
  predicate Apart(calls: seq<Call>, key: Key, gap: real) {
    forall j, k | 0 <= j < k < |calls| && Concerns(calls[j], key) && Concerns(calls[k], key) ::
      calls[k].now - calls[j].now >= gap
  }

  /** One message every 2 s, or one command every 12 s, is never denied by the user's own limit. */
  lemma WiredPatience(calls: seq<Call>, uid: int, command: string)
    requires WiredRun(calls)
    ensures Apart(calls, General(uid), 2.0) ==>
      OnlyGlobalDenies(WIRED, Init(WIRED), calls, General(uid))
    ensures Apart(calls, Command(uid, command), 12.0) && command in {"/start", "/about", "/info"} ==>
      OnlyGlobalDenies(WIRED, Init(WIRED), calls, Command(uid, command))
  {
    WiredCovers();
    if Apart(calls, General(uid), 2.0) {
      SpacedNeverDeniedByOwn(WIRED, calls, General(uid));
    }
    if Apart(calls, Command(uid, command), 12.0) && command in COMMANDS {
      SpacedNeverDeniedByOwn(WIRED, calls, Command(uid, command));
    }
  }

  lemma WiredCoversIff(maxIdle: real)
    ensures Covers(WIRED, maxIdle) <==> maxIdle >= 24.0
  {
    if Covers(WIRED, maxIdle) {
      assert "/info" in COMMANDS && "/info" in WIRED.commandRate;
      assert RefilledBy(NewCommand(WIRED, "/info"), maxIdle);
    }
  }

  /** With the wired limits, 24 seconds of idling are enough for evictions to go unseen, and
      anything less is not: the 30 minutes in use have much to spare. */
  lemma WiredTight(maxIdle: real)
    requires 0.0 <= maxIdle
    ensures maxIdle >= 24.0
      <==> forall calls | Ordered(calls, 0.0) && CleansWith(calls, maxIdle) ::
        Decisions(WIRED, Init(WIRED), calls) == IdealDecisions(IdealInit(WIRED), calls)
  {
    WiredCovers();
    WiredCoversIff(maxIdle);
    InvisibleIffRefilled(WIRED, maxIdle);
  }
}
