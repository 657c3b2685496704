# Verification of x_sticker_bot

A Dafny model of the stateful parts of the Telegram sticker bot, and proofs about them:

- **Rate limiter** (`TokenBucket`, `LimiterSpec`, `RateLimiter`, `LimiterTransparency`, `LimiterWindow`,
  `LimiterTightness`, `LimiterExact`, `LimiterWiring`): buckets that are created on first use and dropped when a user
  idles decide every call as if all buckets had always existed, exactly when the idle time refills them or the global
  limit hides the difference; and what the limits then mean over any window of any run.
- **Bot wiring** (`Bot`): what each update charges, and what the counters say afterwards.
- **Volume splitter and archives** (`Volumes`, `Archive`): the greedy split is lossless, optimal among order-preserving
  splits and within twice the optimum of any packing; an archive is written whole or not at all.
- **Tasks** (`Counting`, `Admission`, `FanOut`, `TaskSystem`): admission and the worker fan-out as interleaved atomic
  steps, with safety over every interleaving and a measure that shrinks with every step.
- **Names** (`Text`, `Paths`, `Naming`, `SetPipeline`): the files and archives of a set never collide, and what the
  workers leave is archived, from the join to the disk.
- **Downloads** (`Download`): the bounded retry loop and the capped copy.
- **Metrics** (`Metrics`): the ring buffer against the full history of requests.
- **Storage** (`Sets`, `TempDirs`, `Dates`, `UsageTable`): managed directories over runs of create, clean, purge and the
  tasks' own writes; the usage table against the log of events.

`dafny verify dfyconfig.toml` checks everything. Code that updates objects or loops in the source is a class or a
method here, proved against a function on values; what the source promises is then proved about that function.
Goroutines that interleave are state machines whose steps are the atomic operations of the Go code.

## Assumptions

- `golang.org/x/time/rate` is not part of the repository. A bucket starts full, refills at its rate up to its burst,
  pays one token for an admission and is left alone by a denial; time and tokens are real numbers.
- Limiter calls are serialised, each reads the clock once, and the clock never goes back. The tables filled by
  `SetCommandRate` do not change once calls arrive. Limiter and metrics share the reading taken for an update.
- Users are told apart by the text stored for them: two users with the same 12-character hash count as one.
- What the network, the file system, the clock and the random source answer is a parameter of the operation.

## Where code and documentation differ

- `FCompressVol` says "volumes of up to 50MB"; a volume that reaches 50,000,000 bytes is already too big (the test is
  `>=`, and MB is 1000 * 1000). A file at or above the limit is archived all the same, in a volume that is too big
  (`Volumes.OversizedVolume`); the volumes stay below the limit if and only if all files do (`Volumes.AllBelowIff`).
- `QueryDaily` says "the last N days"; the filter keeps today and the N days before it, N + 1 dates. It compares dates
  as text, which goes wrong between 9999-12-31 and 10000-01-01 (`Dates.LongYears`). Two dates compare rightly if and
  only if their years are printed equally wide or the narrower year is at most the leading digits of the wider one
  (`Dates.TextOrderIff`), and the query is right about a date under the same condition
  (`UsageTable.QueryKeepsDaysIff`, `UsageTable.NewestFirstIff`; it fails in `UsageTable.TurnOfTheMillennium`).
- `CountSince` says it counts the entries recorded since a time; it does so if and only if no more than the ring's
  size were recorded (`Metrics.RateExactIff`). The wired limits allow more in a minute: the dashboard can show 3600
  where 3601 requests were handled (`Bot.DashboardFallsShort`).
- "One active download per user" holds for the bodies of the tasks, not for the slots: the user is released before the
  slot, so the tasks of one user can come to hold any number of the 20 slots, all of them included, and then every
  other user is turned away (`Admission.OneUserTakesSlots`, `Admission.OthersRefused`). A task gives its user a second
  slot if and only if a slot is free and an earlier task of the user has yet to give its own back
  (`Admission.SecondSlotIff`).
- "At most once per 2 seconds" holds for progress updates until one shows the total (`FanOut.ThrottleSpan`). From there
  on updates are not spaced at all: up to 4 can show the total at the same time (`FanOut.TotalShownAtOnce`), and never
  more than 4 show it (`FanOut.TotalShownAtMost`).
- `CreateUserDir` accepts any user id, but a directory made for a negative one is not a managed directory and cannot
  be cleaned (`TempDirs.CreateThenClean`). The bot only passes 0.
- A `Retry-After` above 9,223,372,036 seconds overflows the duration and is not waited out
  (`Download.RetryAfterHonoured`); up to 18,446,744,073 seconds it is no wait at all (`Download.OverflowIsNoWait`).
- A failing `FCompress` leaves no archive only if removing the half-written file succeeds; a failed copy in
  `downloadTelegramFile` leaves the part that arrived. It drops the error of closing the file, so a path can come back
  for a file that lost what was written (`Download.DownloadTelegramFile`).

## Model

| member | source | states |
|---|---|---|
| `TokenBucket.Refill` | internal/ratelimit/limiter.go:68-77 | waiting adds exactly what is earned, up to the cap, whatever was spent before |
| `TokenBucket.TakeCosts` | internal/ratelimit/limiter.go:68-77 | an admission costs exactly one token, a denial nothing |
| `TokenBucket.IdleRefills` | internal/ratelimit/limiter.go:122 | a bucket untouched for burst / rate seconds is full again |
| `LimiterSpec.CallPays` | internal/ratelimit/limiter.go:62-113 | a call is admitted exactly if the global bucket and its own can each pay a token; the global one pays whenever it can, the own one only then; the user is marked as seen, a denial is counted, every other user stays as it was |
| `LimiterSpec.OtherBucketsStay` | internal/ratelimit/limiter.go:62-113 | of the caller, every bucket but the one asked for stays as it was |
| `LimiterSpec.CleanupDrops` | internal/ratelimit/limiter.go:116-133 | a sweep keeps exactly the records idle for at most the limit, and changes none of them |
| `RateLimiter.RateLimiter.constructor` | internal/ratelimit/limiter.go:31-39 | a new limiter has a full global bucket, no users, and 30 a minute with burst 5 as default |
| `RateLimiter.RateLimiter.SetCommandRate` | internal/ratelimit/limiter.go:42-45 | sets rate and burst of one command, and touches no bucket |
| `RateLimiter.RateLimiter.GetOrCreateUser` | internal/ratelimit/limiter.go:48-65 | the record found is the stored one or a fresh full one, marked as seen now; all other records stay |
| `RateLimiter.RateLimiter.Allow` | internal/ratelimit/limiter.go:62-79 | decision and new limiter are those of the state machine: global bucket first, own bucket only if that pays, denials counted |
| `RateLimiter.RateLimiter.AllowCommand` | internal/ratelimit/limiter.go:83-113 | the same for a command's bucket, created with the command's limit or the default |
| `RateLimiter.RateLimiter.DropIfStale` | internal/ratelimit/limiter.go:119-127 | a record goes if and only if it idled for longer than the limit; the others stay |
| `RateLimiter.RateLimiter.DropStale` | internal/ratelimit/limiter.go:118-129 | deleting during the range drops exactly the records idle for longer than the limit, and counts them |
| `RateLimiter.RateLimiter.CleanupStale` | internal/ratelimit/limiter.go:116-133 | the sweep is the cleanup step of the state machine, and `cleaned` is the number of records gone |
| `LimiterTransparency.EvictedGeneralFull` | internal/ratelimit/limiter.go:119-127 | when a record may be dropped, the general bucket that was never dropped is full |
| `LimiterTransparency.EvictedCommandFull` | internal/ratelimit/limiter.go:119-127 | the same for each command bucket of the record |
| `LimiterTransparency.StepRelated` | internal/ratelimit/limiter.go:62-133 | every call gets the same answer from the limiter and from one whose buckets have always existed, and keeps the two in step |
| `LimiterTransparency.EvictionInvisible` | internal/ratelimit/limiter.go:48-133 | over every run, lazy creation and eviction change no decision, if each idle time refills every bucket |
| `LimiterTightness.WitnessAdmitted` | internal/ratelimit/limiter.go:48-133 | a run that takes tokens, idles until it is evicted and takes more is admitted whole, if the global bucket and a fresh bucket can each pay for the calls |
| `LimiterTightness.EvictionVisible` | internal/ratelimit/limiter.go:116-133 | if such a run takes more than the bucket holds and earns in that time, it is decided differently because of the eviction |
| `LimiterTightness.ShortIdleIsVisible` | internal/ratelimit/limiter.go:116-133 | there is such a run for every bucket that the idle time does not refill and the global bucket lets be seen: a burst before and after, or, where the global bucket is the faster one, calls that drain it |
| `LimiterExact.NotRunOut` | internal/ratelimit/limiter.go:68-77 | where the global bucket cannot tell, a bucket parted from its twin by an eviction never runs out before the global one |
| `LimiterExact.StepPaired` | internal/ratelimit/limiter.go:62-133 | there every call is decided alike with and without evictions, refilled or not |
| `LimiterExact.InvisibleIff` | internal/ratelimit/limiter.go:48-133 | for every configuration, eviction after an idle time changes no decision of any run if and only if the global bucket lets no bucket be seen that the time does not refill; the condition compares the two rates, the two bursts and the idle time |
| `LimiterExact.InvisibleIffRefilled` | internal/ratelimit/limiter.go:48-133 | with a global bucket faster than every user's, that is if and only if the time refills every bucket a user can have |
| `LimiterTightness.NothingAdmitted` | internal/ratelimit/limiter.go:68-77 | with a global burst of zero no call is ever admitted, with or without evictions |
| `LimiterWindow.WindowBound` | internal/ratelimit/limiter.go:62-113 | for the global bucket and every bucket of every user, admissions in any window are at most burst + rate * length, evictions included |
| `LimiterWindow.SpacedNeverDeniedByOwn` | internal/ratelimit/limiter.go:62-113 | calls at least 1 / rate apart are denied by the global bucket only |
| `LimiterWiring.WiredLimits` | internal/bot/bot.go:72-194 | 100 a second with burst 200 in all, 30 a minute with burst 5 a user, and 5 a minute with burst 2 for /start, /about and /info and for no other command; idle for 30 minutes |
| `LimiterWiring.WiredEvictionInvisible` | internal/bot/bot.go:103 | with the 30 minutes the bot uses, evictions are never seen |
| `LimiterWiring.WiredWindow` | internal/bot/bot.go:72 | in any window of t seconds: 200 + 100 t calls in all, 5 + t / 2 messages a user, 2 + 5 t / 60 of a limited command a user |
| `LimiterWiring.WiredPatience` | internal/bot/bot.go:192-194 | a message every 2 s, or a command every 12 s, is never denied by the user's own limit |
| `LimiterWiring.WiredTight` | internal/bot/bot.go:103 | with the wired limits evictions are unseen over all runs if and only if users idle for at least 24 seconds first |
| `Bot.App.constructor` | internal/bot/bot.go:69-72 | limiter and metrics start as wired, with nothing handled |
| `Bot.App.RegisterLimits` | internal/bot/bot.go:191-194 | the three command limits make up the wired configuration and touch no bucket |
| `Bot.RegisteredIs` | internal/bot/bot.go:196-202 | what each registered pattern does: getfid is recorded without asking the limiter; start and help share the /start limit, about and info have their own; what is recorded is the command sent |
| `Bot.WithoutHandler` | internal/bot/bot.go:258-275 | without a handler a limited command still charges its own limit, and records nothing |
| `Bot.DefaultRecords` | internal/bot/bot.go:226-255 | a callback is recorded as "callback" even beside a message, any other message as "message"; an update with neither, or without a handler, changes nothing |
| `Bot.App.RouteCommand` | internal/bot/bot.go:205-223 | a command message is recorded under its command with its time, if there is a handler |
| `Bot.App.DefaultHandler` | internal/bot/bot.go:226-255 | a callback or a message asks the general limit once and is recorded or counted as denied; without a handler nothing happens |
| `Bot.App.WithRateLimit` | internal/bot/bot.go:258-275 | a limited command charges its own limit, with or without a handler, and only then is routed: limiter and books end up as the run extended by it, which `HandledWithinUserLimits` bounds command by command |
| `Bot.App.Dispatch` | internal/bot/bot.go:196-202 | after any number of updates limiter and metrics hold exactly what the run of updates and sweeps leads to |
| `Bot.App.CleanupLimiter` | internal/bot/bot.go:100-103 | a sweep keeps them so |
| `Bot.App.Dashboard` | internal/monitor/metrics.go:64-96 | the snapshot of any run shows all its requests and denials, and as rate the requests recorded in the last minute, at most 3600 |
| `Bot.BooksBalance` | internal/bot/bot.go:205-275 | over every run the metrics' denials are the limiter's, and every update the limiter was asked about shows up exactly once, as a request or as a denial |
| `Bot.PassedIsAdmitted` | internal/bot/bot.go:226-275 | a limited request is recorded exactly when the limiter admits it, in every window |
| `Bot.HandledWithinGlobalLimit` | internal/bot/bot.go:72 | limited requests that reach a handler in any window of t seconds number at most 200 + 100 t |
| `Bot.HandledWithinUserLimits` | internal/bot/bot.go:191-275 | over every run, of one user at most 5 + t / 2 messages and callbacks are recorded in any window of t seconds, and at most 2 + 5 t / 60 commands under each of "/start", "/about" and "/info" |
| `Bot.PatientUsersHandled` | internal/bot/bot.go:191-275 | over every run, a user whose messages are 2 s apart, or whose commands under one of those limits are 12 s apart, is denied only when the global bucket denies |
| `Bot.DashboardRate` | internal/monitor/metrics.go:74 | over every run the rate shown is min(3600, requests recorded in the last minute) |
| `Bot.DashboardFallsShort` | internal/monitor/metrics.go:37-42 | a run within the wired limits with 3601 requests in the last minute, of which the dashboard shows 3600 |
| `Volumes.SplitVolumes` | internal/sticker/util.go:175-193 | the loop loses and reorders nothing, leaves no volume empty, and cuts only before a file that would fill a volume already holding bytes |
| `Volumes.StatableIs` | internal/sticker/util.go:178-184 | the files split are those whose size can be read, in order, each with its own size |
| `Volumes.GreedyStaysAhead` | internal/sticker/util.go:185-192 | after k volumes the loop has placed at least as many files as any other order-preserving split |
| `Volumes.GreedyOptimal` | internal/sticker/util.go:185-192 | no order-preserving split into volumes the loop would accept has fewer of them |
| `Volumes.GreedyFewestVolumes` | internal/sticker/util.go:175-193 | no order-preserving split into runs below 50,000,000 bytes has fewer volumes |
| `Volumes.GreedyUnique` | internal/sticker/util.go:178-193 | the three properties of the split determine it |
| `Volumes.OversizedShape` | internal/sticker/util.go:187 | a volume at or above the limit is empty files and then one file that alone reaches it |
| `Volumes.AllBelowIff` | internal/sticker/util.go:167-193 | all volumes are below the limit if and only if all files are |
| `Volumes.OversizedVolume` | internal/sticker/util.go:187 | one file that reaches the limit makes a volume that does |
| `Volumes.PairsFill` | internal/sticker/util.go:187 | two neighbouring volumes hold at least the limit, so all volumes hold at least half their number times it |
| `Volumes.GreedyWithinTwice` | internal/sticker/util.go:185-192 | at most 2 m - 1 volumes when any m bins below the limit can hold the files, in any order |
| `Volumes.TwiceIsReached` | internal/sticker/util.go:185-192 | for every m below the limit, files that fit m bins and make 2 m - 1 volumes |
| `Archive.Store.HasDuplicate` | internal/sticker/util.go:116-123 | the name check finds a repeated base name if and only if there is one |
| `Archive.Store.WriteMembers` | internal/sticker/util.go:146-164 | all members are written, in order, if and only if every input can be opened, copied and closed; otherwise it stops at the first that cannot, with the error of what failed |
| `Archive.Store.FCompress` | internal/sticker/util.go:115-165 | success exactly when no last name is repeated and nothing fails; the target then holds one member an input, in order, named by its last component and with the content the input had, no name twice; each error has its own cause; a repeated name or a failed create changes nothing, any other error leaves no archive unless removing it fails |
| `Archive.Store.FCompressVol` | internal/sticker/util.go:169-211 | success writes one finished archive a volume, each made of its inputs as the disk then held them; an error at volume k returns exactly the archives before it, names its cause, and leaves at its target what a failed archive leaves |
| `Archive.ChainHolds` | internal/sticker/util.go:146-210 | each archive, when it is finished, holds its volume: one member a file, by its last component, with what the disk then had |
| `Archive.ChainRan` | internal/sticker/util.go:195-210 | if no volume path is among the inputs, the archives returned are all made of the inputs as the call found them, and nothing else on disk changed |
| `Archive.OutcomeOf` | internal/sticker/util.go:195-210 | the call succeeds if and only if every volume can be archived, and reports a repeated name if and only if the volume it stopped at has one |
| `Archive.ReturnedComplete` | internal/sticker/util.go:195-210 | every archive returned, by a call that failed too, is finished and holds what the disk held |
| `Archive.CompleteHolds` | internal/sticker/util.go:146-164 | a complete archive of inputs with different names holds each under its last component |
| `Archive.ReturnedHold` | internal/sticker/util.go:167-210 | without targets among the inputs, every returned archive still holds its volume at the end, with the contents from before the call |
| `Archive.ContentsAre` | internal/sticker/util.go:178-210 | the members of all the archives, one archive after the other, are the stat-able files in order |
| `Text.DecRoundTrip` | internal/command/download.go:186 | a printed number reads back as itself |
| `Text.DecPrefixInjective` | internal/command/download.go:186 | a number and the text after it can be read off a name |
| `Naming.SetNamesDistinct` | internal/command/download.go:186-205 | files of different stickers of a set, converted or not, never share a base name, whatever extension the server gives |
| `Naming.ExtIs` | internal/command/download.go:437 | the extension is what follows the last dot of the last element, with the dot, and empty without one |
| `Naming.LastElementIs` | internal/command/download.go:437 | the remote path counts by its last element only |
| `Naming.FileNames` | internal/command/download.go:186-205 | sticker idx of a set is the file set_{idx+1}.ext of the work directory, and its conversion that name with .gif or .png after it |
| `Naming.ArchiveNames` | internal/command/download.go:234-235 | the archives are set_original.zip and set_converted.zip, or numbered _001, _002, ... when there are several volumes |
| `Naming.ArchiveIsNoFile` | internal/command/download.go:234-244 | no archive volume of a set has the path of a file of the set |
| `Naming.VolumeNamesDistinct` | internal/sticker/util.go:197-202 | the volumes of one archive have different names |
| `Naming.ArchivesDiffer` | internal/command/download.go:234-235 | the two archives of a set never share a volume path |
| `Naming.AnimationArchiveApart` | internal/command/download.go:374-389 | the archive of an animation never has the path of its GIF |
| `SetPipeline.SetAlwaysArchivable` | internal/command/download.go:176-249 | for every interleaving, every failure and every split, no volume of a set repeats a name and no archive path is one of its inputs |
| `SetPipeline.ArchiveSet` | internal/command/download.go:231-249 | after any join, archiving the originals and then the converted files: neither call fails for a repeated name, each succeeds if and only if every volume can be archived, the first call's archives are still complete after the second, no file of the set is touched, and a call that succeeds has archived its stat-able files in order; each returned archive holds the files of its volume under their own names, as they were |
| `Admission.AdmissionSafe` | internal/command/download.go:29-53 | over every interleaving: a user is marked exactly while one goroutine owns the mark, bodies of one user never overlap, used slots are holders and at most 20, the final receive never blocks |
| `Admission.NothingLeaks` | internal/command/download.go:46-49 | when all goroutines are done no user is marked and no slot is taken |
| `Admission.AdmissionProgress` | internal/command/download.go:29-53 | no goroutine is ever stuck, and every step shortens what is left |
| `Admission.AnswerIsRan` | internal/command/download.go:29-52 | over every schedule a task that has ended answers true exactly if its body was called |
| `Admission.TurnedAwayIff` | internal/command/download.go:31-44 | a task is turned away exactly if its user is marked or all 20 slots are taken |
| `Admission.SlotsOfUser` | internal/command/download.go:36-49 | in every reachable state a user's slots are that of the task that has the user marked, if it got one, and one for each earlier task that has yet to give its slot back |
| `Admission.SecondSlotIff` | internal/command/download.go:37-44 | at the select a task gives its user a further slot beside one already held if and only if a slot is free and an earlier task of the user has not given its own back |
| `Admission.OneUserTakesSlots` | internal/command/download.go:46-49 | for every m up to 20, a schedule that leaves one user with m slots |
| `Admission.OthersRefused` | internal/command/download.go:37-44 | with all 20 slots in one user's hands, a task of any other user is turned away |
| `FanOut.StepKeepsInv` | internal/command/download.go:157-215 | every atomic step keeps semaphore, counter, lock, both lists and the throttle in agreement with where the workers are |
| `FanOut.JoinResult` | internal/command/download.go:216-229 | after the join everything is counted, the lists are aligned, hold each fetched sticker once and no other, and the partial notice is sent iff some but not all downloads failed; which file each entry is, `ListedAsAnswered` says |
| `FanOut.ListedAsAnswered` | internal/command/download.go:186-210 | over every schedule each listed sticker has the remote path its own download returned, and its converted entry is the original exactly if its own conversion failed, else a GIF if it is animated and a PNG if not |
| `FanOut.NoticeAsAnswered` | internal/command/download.go:216-229 | after the join a sticker is listed exactly if its download answered, and the notice is that nothing, everything or so many of the total was downloaded |
| `FanOut.FanOutShrinks` | internal/command/download.go:179-216 | every step of every worker brings the join nearer |
| `FanOut.FanOutNeverStuck` | internal/command/download.go:176-216 | until the join some worker can take a step |
| `FanOut.AtMostFour` | internal/command/download.go:176-184 | over every schedule at most four workers download or convert at once |
| `FanOut.UpdateIffDue` | internal/command/download.go:164-173 | an update is shown exactly if it shows the total or 2000 ms have passed, and no other worker was faster |
| `FanOut.ThrottleSpan` | internal/command/download.go:164-173 | before an update shows the total, m updates that won their swap span at least 2000 (m - 1) ms, and none shows more than the total |
| `FanOut.TotalShownAtMost` | internal/command/download.go:163-173 | over every schedule at most 4 updates show the total |
| `FanOut.TotalShownAtOnce` | internal/command/download.go:163-173 | for every set of up to 4 stickers, a schedule in which as many updates show the total at one and the same time |
| `TaskSystem.WorkBound` | internal/command/download.go:36-215 | over all tasks and all interleavings at most 4 * 20 stickers are downloaded or converted at once |
| `Download.DownloadTelegramFile` | internal/command/download.go:431-503 | at most three requests, none if the file cannot be located; a path comes back if and only if the first reply that is not throttled is a 200 whose body is within the cap and is copied whole, and the file then is the body if and only if closing it does not fail, an error the code drops; a break beyond what the limited read asks for changes nothing; a reply with a positive Retry-After that fits is waited out for just that many seconds, any other for 1, 2 and 4, so 0, 1, 3 or 7 seconds in all when no reply has one |
| `Download.Save` | internal/command/download.go:482-502 | what becomes of a reply: the status, the create, the copy and the cap are checked in this order, with the error and the file each leaves |
| `Download.BackoffTotal` | internal/command/download.go:457 | k throttled replies without a positive Retry-After cost 2^k - 1 seconds |
| `Download.BackoffAtMost` | internal/command/download.go:406-409 | a call without a positive Retry-After never waits more than 7 seconds |
| `Download.RetryAfterHonoured` | internal/command/download.go:458-462 | a Retry-After is waited out if and only if it fits an int64 of nanoseconds |
| `Download.OverflowIsNoWait` | internal/command/download.go:458-462 | from there up to twice as long, a Retry-After is not waited out at all |
| `Metrics.RingBuffer.Add` | internal/monitor/metrics.go:131-136 | the buffer goes on holding the last entries of its history, in ring order |
| `Metrics.RingBuffer.CountSince` | internal/monitor/metrics.go:139-150 | the count is that of the last min(n, size) entries of the history not before the time |
| `Metrics.SlidingWindow` | internal/monitor/metrics.go:139-150 | with a clock that never goes back the count is the true one, capped at the size |
| `Metrics.RateExactIff` | internal/monitor/metrics.go:138-150 | the count is the true one if and only if no more than the size were added since |
| `Metrics.Metrics.RecordRequest` | internal/monitor/metrics.go:45-51 | total, ring and per-command counters keep telling the story of one log of requests |
| `Metrics.Metrics.RecordError` | internal/monitor/metrics.go:54-56 | counts one error and keeps the rest of the books |
| `Metrics.Metrics.RecordRateDenied` | internal/monitor/metrics.go:59-61 | counts one denial and keeps the rest of the books |
| `Metrics.Metrics.TakeSnapshot` | internal/monitor/metrics.go:64-96 | the snapshot reports the logged requests, each command as often as logged, errors as a percentage, and the ring's last minute |
| `Paths.EscapesIffOutside` | internal/storage/tempfile.go:136-144 | the text test on the relative path rejects exactly what is not at or below the base, names that begin with two dots included |
| `Paths.AbsOfRender` | internal/storage/tempfile.go:131 | a printed clean path reads back as itself from any working directory |
| `Paths.AbsMore` | internal/storage/tempfile.go:131 | one component more: a name goes down, ".." goes up and stays at the root, "." and nothing stay |
| `Paths.AbsOne` | internal/storage/tempfile.go:131 | the same for a path of one component, from the working directory |
| `Paths.SideStep` | internal/storage/tempfile.go:131 | the base, then "..", then a name is the base's sibling, below the base only if it is the base itself |
| `TempDirs.SafeIffBelow` | internal/storage/tempfile.go:130-147 | `SafePath` accepts if and only if the base's components start the cleaned path's |
| `TempDirs.NameManagedIff` | internal/storage/tempfile.go:14-43 | the printed directory name matches the pattern if and only if the user id is not negative |
| `TempDirs.ManagedIff` | internal/storage/tempfile.go:14 | the recogniser accepts exactly digits, an underscore and sixteen lower-case hexadecimal digits |
| `TempDirs.DirNameInjective` | internal/storage/tempfile.go:43 | different users or random bytes give different names |
| `TempDirs.TempManager.CreateUserDir` | internal/storage/tempfile.go:37-52 | creates a directory exactly when nothing has its name and the system lets it, and changes nothing otherwise |
| `TempDirs.TempManager.CleanUserDir` | internal/storage/tempfile.go:56-125 | removes the tree at the path if and only if it is a managed directory directly below the base, and nothing else; otherwise nothing changes; a path outside the base is refused as such |
| `TempDirs.TempManager.PurgeOutdated` | internal/storage/tempfile.go:72-107 | the loop removes what the purge of all entries removes, and returns how many directories went, whatever fails on the way |
| `TempDirs.CleanPurge` | internal/storage/tempfile.go:72-107 | without failures exactly the managed directories older than the cutoff go, with all they hold, and the count is theirs |
| `TempDirs.PurgeWithFaults` | internal/storage/tempfile.go:80-100 | a directory whose Info fails stays whole; one whose removal stops keeps just what the removal leaves; neither is counted, and one that goes is |
| `TempDirs.OnlyManagedRemoved` | internal/storage/tempfile.go:37-125 | over every run of create, clean, purge and the tasks' own writes with any failures, a path not at or below a managed directory is never changed or removed |
| `TempDirs.OthersStay` | internal/storage/tempfile.go:72-125 | over every run a file, a link or a directory with another name in the base stays, with all it holds |
| `TempDirs.NeverShared` | internal/storage/tempfile.go:46-48 | two creations only ever yield the same directory if it was cleaned or purged in between |
| `TempDirs.InUseStays` | internal/storage/tempfile.go:72-107 | over every run whose purges go for older directories, whose writes come later and whose clean-ups name others, a managed directory stays |
| `TempDirs.LiveForADay` | internal/bot/bot.go:98 | with the wired age no purge takes a task's directory within 24 hours of its creation |
| `TempDirs.PurgedIff` | internal/storage/tempfile.go:78-100 | a purge without faults takes a managed directory if and only if its own time is more than the age ago, live or not |
| `TempDirs.CreateThenClean` | internal/storage/tempfile.go:37-68 | what was created passes the clean-up's test, from any working directory, if and only if the user id is not negative |
| `Dates.TextOrderIsDateOrder` | internal/storage/stats.go:106-115 | for years of four digits, dates compare as text the way they compare as dates |
| `Dates.TextOrderIff` | internal/storage/stats.go:106-117 | any two dates compare as text the way they compare as dates if and only if their years are printed equally wide or the narrower is at most the leading digits of the wider |
| `Dates.LongYears` | internal/storage/stats.go:106-117 | the first day of the year 10000 sorts before the day before it; two days of 10000, or one of 1000 and one of 10000, have comparable years |
| `Dates.DaysDiffer` | internal/storage/stats.go:106 | counting back gives an earlier date each time |
| `Dates.DayBeforeNumber` | internal/storage/stats.go:106 | one day back lowers the day number, counted without a leap-year test, by exactly one |
| `Dates.DaysBackNumber` | internal/storage/stats.go:106 | n days back lower the day number by n |
| `Dates.DateOfNumber` | internal/storage/stats.go:106 | every day number in range is that of a date |
| `Dates.NumberOrderIff` | internal/storage/stats.go:106 | day numbers order the dates, and no two dates share one |
| `Dates.LeapDayText` | internal/storage/stats.go:106 | 2024-02-29 is a date and is printed so |
| `Dates.DateTextInjective` | internal/storage/stats.go:90 | different dates are printed differently |
| `Dates.FilterKeepsDays` | internal/storage/stats.go:106-115 | of the dates up to today the filter keeps exactly today and the n days before it |
| `UsageTable.Stats.RecordEvent` | internal/storage/stats.go:89-102 | the table goes on being that of the log with the event added, with one row a key; a failed statement changes nothing |
| `UsageTable.Stats.Find` | internal/storage/stats.go:75-76 | the row with the key is found, or none has it |
| `UsageTable.UpsertAt` | internal/storage/stats.go:94-96 | the upsert adds one to the first row with the key, or appends a row with count one |
| `UsageTable.TableRefinesLog` | internal/storage/stats.go:67-102 | keys are unique, exactly the logged keys have a row, and the sum of counts over any kind of key is the number of logged events of that kind |
| `UsageTable.DailyMatchesLog` | internal/storage/stats.go:105-132 | each logged date from the given one on is reported once, newest first, with its distinct users and its "download_single", "download_set" and "info" events counted in the log |
| `UsageTable.TotalsMatchLog` | internal/storage/stats.go:135-144 | the all-time totals are the distinct users of the log and its single and set downloads |
| `UsageTable.DownloadsAddUp` | internal/storage/stats.go:135-144 | total downloads are the single and set downloads of all dates added up |
| `UsageTable.UsersAtMostDaily` | internal/storage/stats.go:135-144 | total users are at most the daily users added up, and equal if and only if no user came back on another day |
| `UsageTable.QueryKeepsDaysIff` | internal/storage/stats.go:104-117 | of the dates up to today, a query for n days is right about a date if and only if the date is not logged or its year compares with that of the first day asked for |
| `UsageTable.TurnOfTheMillennium` | internal/storage/stats.go:104-117 | on 10000-01-01 a query for one day does not report that day, logged as it is |
| `UsageTable.QueryKeepsDays` | internal/storage/stats.go:104-117 | before the year 10000 a query for n days reports, of the dates up to today, exactly the logged ones among the last n + 1 |
| `UsageTable.QueryKeepsNumbers` | internal/storage/stats.go:104-117 | the same by day number: of the dates up to today, exactly the logged ones at most n days back |
| `UsageTable.NewestFirstIff` | internal/storage/stats.go:115-117 | of two reported dates the first is the newer if and only if their years compare |

## Left out

- Telegram calls, HTTP transport, message texts, the dashboard and its routes: input, output and presentation.
- The conversion tools (ffmpeg, ImageMagick, gifsicle, bsdtar, lottie_to_png): only the name of a conversion's output
  and whether it worked are modelled.
- ZIP bytes, gzip, SQLite, SHA-256 and the random source: archives are lists of members, the table is a sequence of
  rows, a user is the text stored for it.
- `findTGLink`, polling health, configuration, `extractCommand`, `formatUptime`, `matchFilter`: each is read off one
  branch, or rests on a library that is not in the repository.
- Limiter calls that race: a record that is evicted while another goroutine still charges it is not modelled; calls
  are serialised.
- Rounding of floating-point tokens and rates, and int64 overflow of sizes and counters.
- Buckets are values in the limiter's and the users' fields rather than shared `rate.Limiter` objects, so aliasing of
  a bucket is not modelled. Ranges over Go maps visit the keys in any order, one by one.
- Task admission and the worker fan-out are state machines over values, one step an atomic operation: the model does
  not capture memory below that, such as what a data race would do.
- A worker that panics, which ends the whole program.
- Archive.Store.FCompress: an archive among its own inputs is read as an archive that lacks something; how much of
  itself it would hold is not modelled. The bot's own calls never do this (`SetPipeline.ArchiveSet`,
  `Naming.AnimationArchiveApart`).
- TempDirs.OnlyManagedRemoved: other programs that change the tree between operations, and the modification time of
  the base directory itself, are not modelled.
- Volumes.TwiceIsReached: stops at m = 49,999,999 bins, where the small files would no longer fit one bin.
- The interval timers that start the sweeps, and the deletion of a task's directory when the task ends: a run may do
  either at any time.
