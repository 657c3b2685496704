/** The worker fan-out of downloadStickerSet (internal/command/download.go) as interleaved
    atomic steps: one goroutine a sticker, at most four at work, two lists under one lock,
    and a progress message throttled by compare-and-swap. */
module FanOut {
  import opened Counting
  import opened Naming

  const WORKERS: nat := 4
  const THROTTLE_MS: int := 2000

  /** Where a worker is: about to do the step the name says. `ok`: its sticker was fetched. */
  datatype Pc =
    | Acquire                                    // sem <- struct{}{}
    | Fetch                                      // downloadTelegramFile
    | Convert(remote: string)                    // ToGif or ToPng
    | Lock(remote: string, conv: Conversion)     // mu.Lock
    | AppendOriginal(remote: string, conv: Conversion)
    | AppendConverted(remote: string, conv: Conversion)
    | Unlock(remote: string, conv: Conversion)   // mu.Unlock
    | Count(ok: bool)                            // completed.Add(1)
    | LoadDone(ok: bool)                         // completed.Load
    | ReadClock(ok: bool, done: nat)             // time.Now
    | LoadLast(ok: bool, done: nat, now: int)    // lastProgressUpdate.Load
    | Swap(ok: bool, done: nat, now: int, seen: int)  // the test and CompareAndSwap
    | Release(ok: bool)                          // deferred <-sem
    | Done(ok: bool)                             // deferred wg.Done

  /** A file in one of the lists: which sticker, its remote path, how it was converted. */
  datatype Entry = Entry(idx: nat, remote: string, conv: Conversion)

  /** A progress update that won its swap: the count shown, and the swap itself. */
  datatype Update = Update(done: nat, replaced: int, value: int)

  datatype Holder = Nobody | Worker(w: nat)

  datatype State = State(
    animated: seq<bool>, workers: seq<Pc>, sem: nat, mu: Holder,
    originals: seq<Entry>, converted: seq<Entry>,
    completed: nat, last: int, updates: seq<Update>)

  /** What the world answers at a step that asks it. */
  datatype Answer = Nothing | Fetched(remote: string) | FetchFailed | ConvertResult(good: bool) | Clock(now: int)

  datatype Act = Act(w: nat, answer: Answer)

  predicate Init(s: State) {
    && |s.workers| == |s.animated| && (forall w | 0 <= w < |s.workers| :: s.workers[w] == Acquire)
    && s.sem == 0 && s.mu == Nobody && s.originals == [] && s.converted == []
    && s.completed == 0 && s.last == 0 && s.updates == []
  }

  /** Only the two acquisitions can wait. */
  predicate Enabled(s: State, a: Act) {
    && a.w < |s.workers| == |s.animated|
    && match s.workers[a.w]
       case Acquire => s.sem < WORKERS
       case Fetch => a.answer.Fetched? || a.answer.FetchFailed?
       case Convert(_) => a.answer.ConvertResult?
       case Lock(_, _) => s.mu == Nobody
       case ReadClock(_, _) => a.answer.Clock?
       case Release(_) => s.sem > 0
       case Done(_) => false
       case _ => true
  }

  function ConversionOf(animated: bool, good: bool): Conversion {
    if !good then Original else if animated then Gif else Png
  }

  /** The test of throttledProgress, and the swap. */
  predicate Wins(s: State, done: nat, now: int, seen: int) {
    (done == |s.workers| || now - seen >= THROTTLE_MS) && s.last == seen
  }

  function NextPc(s: State, a: Act): Pc
    requires Enabled(s, a)
  {
    match s.workers[a.w]
    case Acquire => Fetch
    case Fetch => if a.answer.FetchFailed? then Count(false) else Convert(a.answer.remote)
    case Convert(r) => Lock(r, ConversionOf(s.animated[a.w], a.answer.good))
    case Lock(r, c) => AppendOriginal(r, c)
    case AppendOriginal(r, c) => AppendConverted(r, c)
    case AppendConverted(r, c) => Unlock(r, c)
    case Unlock(_, _) => Count(true)
    case Count(ok) => LoadDone(ok)
    case LoadDone(ok) => ReadClock(ok, s.completed)
    case ReadClock(ok, done) => LoadLast(ok, done, a.answer.now)
    case LoadLast(ok, done, now) => Swap(ok, done, now, s.last)
    case Swap(ok, _, _, _) => Release(ok)
    case Release(ok) => Done(ok)
    case Done(ok) => Done(ok)
  }

  function Step(s: State, a: Act): State
    requires Enabled(s, a)
  {
    var t := s.(workers := s.workers[a.w := NextPc(s, a)]);
    match s.workers[a.w]
    case Acquire => t.(sem := s.sem + 1)
    case Lock(_, _) => t.(mu := Worker(a.w))
    case AppendOriginal(r, _) => t.(originals := s.originals + [Entry(a.w, r, Original)])
    case AppendConverted(r, c) => t.(converted := s.converted + [Entry(a.w, r, c)])
    case Unlock(_, _) => t.(mu := Nobody)
    case Count(_) => t.(completed := s.completed + 1)
    case Swap(_, done, now, seen) =>
      if Wins(s, done, now, seen) then t.(last := now, updates := s.updates + [Update(done, seen, now)]) else t
    case Release(_) => t.(sem := s.sem - 1)
    case _ => t
  }

  predicate Schedule(s: State, acts: seq<Act>)
    decreases |acts|
  {
    acts == [] || (Enabled(s, acts[0]) && Schedule(Step(s, acts[0]), acts[1..]))
  }

  function After(s: State, acts: seq<Act>): State
    requires Schedule(s, acts)
    decreases |acts|
  {
    if acts == [] then s else After(Step(s, acts[0]), acts[1..])
  }

  function HoldsSem(pc: Pc): nat {
    if pc.Acquire? || pc.Done? then 0 else 1
  }

  function Counted(pc: Pc): nat {
    if pc.LoadDone? || pc.ReadClock? || pc.LoadLast? || pc.Swap? || pc.Release? || pc.Done? then 1 else 0
  }

  /** The worker's sticker is in the list of originals. */
  function Listed(pc: Pc): nat {
    match pc
    case AppendConverted(_, _) => 1
    case Unlock(_, _) => 1
    case Count(ok) => if ok then 1 else 0
    case LoadDone(ok) => if ok then 1 else 0
    case ReadClock(ok, _) => if ok then 1 else 0
    case LoadLast(ok, _, _) => if ok then 1 else 0
    case Swap(ok, _, _, _) => if ok then 1 else 0
    case Release(ok) => if ok then 1 else 0
    case Done(ok) => if ok then 1 else 0
    case _ => 0
  }

  predicate InLock(pc: Pc) {
    pc.AppendOriginal? || pc.AppendConverted? || pc.Unlock?
  }

  /** Semaphore and counter agree with where the workers are. */
  predicate Books(s: State) {
    && |s.workers| == |s.animated|
    && s.sem == Sum(s.workers, HoldsSem) <= WORKERS
    && s.completed == Sum(s.workers, Counted)
    && |s.originals| == Sum(s.workers, Listed)
  }

  predicate Mutex(s: State) {
    && (s.mu.Worker? ==> s.mu.w < |s.workers| && InLock(s.workers[s.mu.w]))
    && (forall w | 0 <= w < |s.workers| && InLock(s.workers[w]) :: s.mu == Worker(w))
  }

  /** A worker stands between its two appends. */
  predicate HalfAppended(s: State) {
    s.mu.Worker? && s.mu.w < |s.workers| && s.workers[s.mu.w].AppendConverted?
  }

  /** Position k of both lists comes from one sticker, and each sticker comes once. */
  predicate Lists(s: State) {
    && |s.originals| == |s.converted| + (if HalfAppended(s) then 1 else 0)
    && (HalfAppended(s) ==>
          s.originals[|s.converted|] == Entry(s.mu.w, s.workers[s.mu.w].remote, Original))
    && (forall k | 0 <= k < |s.originals| ::
          s.originals[k].idx < |s.workers| && s.originals[k].conv == Original
          && Listed(s.workers[s.originals[k].idx]) == 1)
    && (forall k | 0 <= k < |s.converted| ::
          s.converted[k].idx == s.originals[k].idx && s.converted[k].remote == s.originals[k].remote)
    && (forall j, k | 0 <= j < k < |s.originals| :: s.originals[j].idx != s.originals[k].idx)
  }

  /** Values in flight were read from a counter that only grows. */
  predicate DoneInFlight(pc: Pc, completed: nat) {
    match pc
    case ReadClock(_, done) => done <= completed
    case LoadLast(_, done, _) => done <= completed
    case Swap(_, done, _, _) => done <= completed
    case _ => true
  }

  /** The stored time before update `k`: the one the update before it wrote. */
  function Stored(updates: seq<Update>, k: nat): int
    requires k <= |updates|
  {
    if k == 0 then 0 else updates[k - 1].value
  }

  predicate Chained(updates: seq<Update>, total: nat) {
    && (forall k | 0 <= k < |updates| :: updates[k].replaced == Stored(updates, k))
    && (forall k | 0 <= k < |updates| ::
          updates[k].done <= total
          && (updates[k].done == total || updates[k].value - updates[k].replaced >= THROTTLE_MS))
  }

  predicate Throttled(s: State) {
    && s.completed <= |s.workers|
    && (forall w | 0 <= w < |s.workers| :: DoneInFlight(s.workers[w], s.completed))
    && s.last == Stored(s.updates, |s.updates|)
    && Chained(s.updates, |s.workers|)
  }

  /** Some position of the lists belongs to worker `w`. */
  predicate HasEntry(s: State, w: nat) {
    exists k :: 0 <= k < |s.originals| && s.originals[k].idx == w
  }

  /** How a sticker may end up: unchanged, or as what its kind is converted to. */
  predicate Fits(animated: bool, conv: Conversion) {
    conv == Original || conv == if animated then Gif else Png
  }

  predicate PcFits(animated: bool, pc: Pc) {
    match pc
    case Lock(_, conv) => Fits(animated, conv)
    case AppendOriginal(_, conv) => Fits(animated, conv)
    case AppendConverted(_, conv) => Fits(animated, conv)
    case Unlock(_, conv) => Fits(animated, conv)
    case _ => true
  }

  /** Every fetched sticker is listed once its worker says so, in the form its kind calls for. */
  predicate Complete(s: State) {
    && |s.workers| == |s.animated|
    && (forall w: nat | w < |s.workers| && Listed(s.workers[w]) == 1 :: HasEntry(s, w))
    && (forall w | 0 <= w < |s.workers| :: PcFits(s.animated[w], s.workers[w]))
    && (forall k | 0 <= k < |s.converted| ::
          s.converted[k].idx < |s.animated| && Fits(s.animated[s.converted[k].idx], s.converted[k].conv))
  }

  /** A worker that may still win a swap with the total. */
  function AtTotal(total: nat): Pc -> nat {
    (pc: Pc) => match pc
      case LoadDone(_) => 1
      case ReadClock(_, done) => if done == total then 1 else 0
      case LoadLast(_, done, _) => if done == total then 1 else 0
      case Swap(_, done, _, _) => if done == total then 1 else 0
      case _ => 0
  }

  function ShowsTotal(total: nat): Update -> nat {
    (u: Update) => if u.done == total then 1 else 0
  }

  /** Updates with the total come from workers that were at work when the count was complete. */
  predicate FewTotals(s: State) {
    var total := |s.workers|;
    Sum(s.updates, ShowsTotal(total)) + (if s.completed == total then Sum(s.workers, AtTotal(total)) else 0)
      <= (if s.completed == total then WORKERS else 0)
  }

  predicate Inv(s: State) {
    Books(s) && Mutex(s) && Lists(s) && Throttled(s) && Complete(s) && FewTotals(s)
  }

  lemma {:induction false} SumAtMostLength(ws: seq<Pc>, f: Pc -> nat)
    requires forall k | 0 <= k < |ws| :: f(ws[k]) <= 1
    ensures Sum(ws, f) <= |ws|
  {
    if ws != [] { SumAtMostLength(ws[1..], f); }
  }

  lemma BooksKept(s: State, a: Act)
    requires Books(s) && Enabled(s, a)
    ensures Books(Step(s, a))
  {
    hide Sum, Wins;
    SumUpdate(s.workers, HoldsSem, a.w, NextPc(s, a));
    SumUpdate(s.workers, Counted, a.w, NextPc(s, a));
    SumUpdate(s.workers, Listed, a.w, NextPc(s, a));
    SumAtLeast(s.workers, HoldsSem, a.w);
  }

  lemma MutexKept(s: State, a: Act)
    requires Mutex(s) && Enabled(s, a)
    ensures Mutex(Step(s, a))
  {}

  /** Steps that touch neither list nor the lock. */
  lemma ListsUntouched(s: State, a: Act)
    requires Mutex(s) && Lists(s) && Enabled(s, a)
    requires !InLock(s.workers[a.w]) && !s.workers[a.w].Lock?
    ensures Lists(Step(s, a))
  {}

  lemma ListsKept(s: State, a: Act)
    requires Mutex(s) && Lists(s) && Enabled(s, a)
    ensures Lists(Step(s, a))
  {
    if !InLock(s.workers[a.w]) && !s.workers[a.w].Lock? {
      ListsUntouched(s, a);
    } else {
      assert s.mu == (if s.workers[a.w].Lock? then Nobody else Worker(a.w));
    }
  }

  lemma ChainExtended(updates: seq<Update>, total: nat, u: Update)
    requires Chained(updates, total) && u.done <= total
    requires u.replaced == Stored(updates, |updates|)
    requires u.done == total || u.value - u.replaced >= THROTTLE_MS
    ensures Chained(updates + [u], total)
  {
    var more := updates + [u];
    forall k | 0 <= k < |more| ensures more[k].replaced == Stored(more, k) {
      assert Stored(more, k) == Stored(updates, k);
    }
  }

  lemma ThrottledKept(s: State, a: Act)
    requires Books(s) && Throttled(s) && Enabled(s, a)
    ensures Throttled(Step(s, a))
  {
    BooksKept(s, a);
    var s', pc := Step(s, a), s.workers[a.w];
    SumAtMostLength(s'.workers, Counted);
    if pc.Swap? && Wins(s, pc.done, pc.now, pc.seen) {
      ChainExtended(s.updates, |s.workers|, Update(pc.done, pc.seen, pc.now));
    }
  }

  lemma FormsKept(s: State, a: Act)
    requires Complete(s) && Enabled(s, a)
    ensures var s' := Step(s, a);
      && (forall w | 0 <= w < |s'.workers| :: PcFits(s'.animated[w], s'.workers[w]))
      && (forall k | 0 <= k < |s'.converted| ::
            s'.converted[k].idx < |s'.animated| && Fits(s'.animated[s'.converted[k].idx], s'.converted[k].conv))
  {
    hide HasEntry, Wins;
  }

  lemma CompleteKept(s: State, a: Act)
    requires Complete(s) && Enabled(s, a)
    ensures Complete(Step(s, a))
  {
    hide Wins;
    var s' := Step(s, a);
    FormsKept(s, a);
    forall w: nat | w < |s'.workers| && Listed(s'.workers[w]) == 1 ensures HasEntry(s', w) {
      if w == a.w && s.workers[w].AppendOriginal? {
        assert s'.originals[|s.originals|].idx == w;
      } else {
        assert HasEntry(s, w);
        var k :| 0 <= k < |s.originals| && s.originals[k].idx == w;
        assert s'.originals[k].idx == w;
      }
    }
  }

  lemma AtTotalHoldsSem(s: State)
    requires Books(s)
    ensures Sum(s.workers, AtTotal(|s.workers|)) <= WORKERS
  {
    SumBounded(s.workers, AtTotal(|s.workers|), s.workers, HoldsSem, 1);
  }

  /** Once all are counted nobody is about to count. */
  lemma AllCounted(s: State, w: nat)
    requires Books(s) && s.completed == |s.workers| && w < |s.workers|
    ensures Counted(s.workers[w]) == 1
  {
    if Counted(s.workers[w]) == 0 {
      SumUpdate(s.workers, Counted, w, Done(false));
      SumAtMostLength(s.workers[w := Done(false)], Counted);
    }
  }

  lemma InFlight(s: State, w: nat)
    requires Throttled(s) && w < |s.workers|
    ensures s.completed <= |s.workers| && DoneInFlight(s.workers[w], s.completed)
  {}

  lemma FewTotalsKept(s: State, a: Act)
    requires Books(s) && Throttled(s) && FewTotals(s) && Enabled(s, a)
    ensures FewTotals(Step(s, a))
  {
    hide Books, Throttled, Sum, Wins;
    var s', total, pc := Step(s, a), |s.workers|, s.workers[a.w];
    BooksKept(s, a);
    ThrottledKept(s, a);
    InFlight(s, a.w);
    InFlight(s', a.w);
    SumUpdate(s.workers, AtTotal(total), a.w, NextPc(s, a));
    if s'.completed == total {
      AtTotalHoldsSem(s');
      if s.completed == total { AllCounted(s, a.w); }
    }
    if |s'.updates| > |s.updates| {
      SumAppend(s.updates, ShowsTotal(total), s'.updates[|s.updates|]);
    }
  }

  lemma StepKeepsInv(s: State, a: Act)
    requires Inv(s) && Enabled(s, a)
    ensures Inv(Step(s, a))
  {
    hide Books, Mutex, Lists, Throttled, Complete, FewTotals;
    CompleteKept(s, a);
    FewTotalsKept(s, a);
    BooksKept(s, a);
    MutexKept(s, a);
    ListsKept(s, a);
    ThrottledKept(s, a);
  }

  lemma InitInv(s: State)
    requires Init(s)
    ensures Inv(s)
  {
    SumZero(s.workers, HoldsSem);
    SumZero(s.workers, Counted);
    SumZero(s.workers, Listed);
  }

  /** Every interleaving, every set of failures and every clock keep the invariants. */
  lemma {:induction false} RunKeepsInv(s: State, acts: seq<Act>)
    requires Inv(s) && Schedule(s, acts)
    ensures Inv(After(s, acts))
    ensures After(s, acts).animated == s.animated
    decreases |acts|
  {
    if acts != [] {
      StepKeepsInv(s, acts[0]);
      RunKeepsInv(Step(s, acts[0]), acts[1..]);
    }
  }

  predicate Joined(s: State) {
    forall w | 0 <= w < |s.workers| :: s.workers[w].Done?
  }

  function Fetched(pc: Pc): nat {
    if pc.Done? && pc.ok then 1 else 0
  }

  /** What the user is told after the join, by the number of originals. */
  datatype Notice = NothingDownloaded | Partial(got: nat, total: nat) | AllDownloaded

  function NoticeFor(s: State): Notice {
    if |s.originals| == 0 then NothingDownloaded
    else if |s.originals| < |s.workers| then Partial(|s.originals|, |s.workers|)
    else AllDownloaded
  }

  lemma {:induction false} SameSum(ws: seq<Pc>)
    requires forall w | 0 <= w < |ws| :: ws[w].Done?
    ensures Sum(ws, Listed) == Sum(ws, Fetched) && Sum(ws, Counted) == |ws| && Sum(ws, HoldsSem) == 0
    ensures Sum(ws, Fetched) == |ws| <==> forall w | 0 <= w < |ws| :: ws[w].ok
    ensures Sum(ws, Fetched) == 0 <==> forall w | 0 <= w < |ws| :: !ws[w].ok
    ensures Sum(ws, Fetched) <= |ws|
  {
    if ws != [] {
      SameSum(ws[1..]);
      assert forall w | 0 < w < |ws| :: ws[w] == ws[1..][w - 1];
    }
  }

  lemma AllFetchedListed(s: State)
    requires Complete(s) && Joined(s)
    ensures forall w: nat | w < |s.workers| && s.workers[w].ok :: HasEntry(s, w)
    ensures forall k | 0 <= k < |s.converted| ::
      s.converted[k].idx < |s.animated| && Fits(s.animated[s.converted[k].idx], s.converted[k].conv)
  {
    hide HasEntry, Fits;
  }

  /** Main result, after wg.Wait: everything counted, the lists aligned and free of repeats,
      every fetched sticker in them, and the right notice. */
  lemma JoinResult(s0: State, acts: seq<Act>)
    requires Init(s0) && Schedule(s0, acts) && Joined(After(s0, acts))
    ensures var s := After(s0, acts);
      && s.completed == |s.workers| == |s0.workers| && s.sem == 0 && s.mu == Nobody
      && |s.originals| == |s.converted| == Sum(s.workers, Fetched)
      && (forall k | 0 <= k < |s.originals| ::
            s.originals[k].idx == s.converted[k].idx < |s.workers| && s.originals[k].remote == s.converted[k].remote
            && s.originals[k].conv == Original && s.workers[s.originals[k].idx].ok)
      && (forall k | 0 <= k < |s.converted| ::
            s.converted[k].idx < |s0.animated| && Fits(s0.animated[s.converted[k].idx], s.converted[k].conv))
      && (forall w: nat | w < |s.workers| && s.workers[w].ok :: HasEntry(s, w))
      && (forall j, k | 0 <= j < k < |s.originals| :: s.originals[j].idx != s.originals[k].idx)
      && (NoticeFor(s).Partial? <==>
            && (exists w :: 0 <= w < |s.workers| && s.workers[w].ok)
            && (exists w :: 0 <= w < |s.workers| && !s.workers[w].ok))
  {
    hide Throttled, Complete, Fits, HasEntry, FewTotals;
    InitInv(s0);
    RunKeepsInv(s0, acts);
    SameSum(After(s0, acts).workers);
    AllFetchedListed(After(s0, acts));
  }

  /** What worker `w` was answered when it fetched its sticker, and when it converted it. */
  function FetchAnswer(s: State, acts: seq<Act>, w: nat): Answer
    requires Schedule(s, acts)
    decreases |acts|
  {
    if acts == [] then Nothing
    else if acts[0].w == w && s.workers[w].Fetch? then acts[0].answer
    else FetchAnswer(Step(s, acts[0]), acts[1..], w)
  }

  function ConvertAnswer(s: State, acts: seq<Act>, w: nat): Answer
    requires Schedule(s, acts)
    decreases |acts|
  {
    if acts == [] then Nothing
    else if acts[0].w == w && s.workers[w].Convert? then acts[0].answer
    else ConvertAnswer(Step(s, acts[0]), acts[1..], w)
  }

  /** The form of a sticker after the tool's answer: the GIF or the PNG the tool wrote, or the
      sticker as it came when the tool failed. */
  predicate FormAsAnswered(animated: bool, answer: Answer, conv: Conversion) {
    && answer.ConvertResult?
    && (conv == Original <==> !answer.good)
    && (conv == Gif <==> answer.good && animated)
    && (conv == Png <==> answer.good && !animated)
  }

  /** What worker `w`, from where it stands, will list as `e`. */
  predicate WillList(s: State, acts: seq<Act>, w: nat, e: Entry)
    requires Schedule(s, acts)
  {
    && w < |s.workers| == |s.animated|
    && match s.workers[w]
       case Acquire => FetchAnswer(s, acts, w) == Answer.Fetched(e.remote)
                       && FormAsAnswered(s.animated[w], ConvertAnswer(s, acts, w), e.conv)
       case Fetch => FetchAnswer(s, acts, w) == Answer.Fetched(e.remote)
                     && FormAsAnswered(s.animated[w], ConvertAnswer(s, acts, w), e.conv)
       case Convert(r) => r == e.remote && FormAsAnswered(s.animated[w], ConvertAnswer(s, acts, w), e.conv)
       case Lock(r, c) => r == e.remote && c == e.conv
       case AppendOriginal(r, c) => r == e.remote && c == e.conv
       case AppendConverted(r, c) => r == e.remote && c == e.conv
       case _ => false
  }

  lemma WillListBefore(s: State, acts: seq<Act>, w: nat, e: Entry)
    requires acts != [] && Schedule(s, acts) && WillList(Step(s, acts[0]), acts[1..], w, e)
    ensures WillList(s, acts, w, e)
  {
    hide Wins;
    if acts[0].w != w {
      assert Step(s, acts[0]).workers[w] == s.workers[w];
    }
  }

  lemma ListsNow(s: State, acts: seq<Act>)
    requires acts != [] && Schedule(s, acts)
    ensures var s1 := Step(s, acts[0]);
      if s.workers[acts[0].w].AppendConverted?
      then |s1.converted| == |s.converted| + 1 && s1.converted[..|s.converted|] == s.converted
           && s1.converted[|s.converted|].idx == acts[0].w
           && WillList(s, acts, acts[0].w, s1.converted[|s.converted|])
      else s1.converted == s.converted
  {
    hide Wins;
  }

  lemma {:induction false} ListedFrom(s: State, acts: seq<Act>)
    requires Schedule(s, acts)
    ensures var c := After(s, acts).converted;
      && s.converted <= c && forall k | |s.converted| <= k < |c| :: WillList(s, acts, c[k].idx, c[k])
    decreases |acts|
  {
    hide WillList, Step, Enabled;
    if acts != [] {
      var s1, c := Step(s, acts[0]), After(s, acts).converted;
      ListsNow(s, acts);
      ListedFrom(s1, acts[1..]);
      forall k | |s.converted| <= k < |c| ensures WillList(s, acts, c[k].idx, c[k]) {
        if k >= |s1.converted| { WillListBefore(s, acts, c[k].idx, c[k]); }
      }
    }
  }

  /** Main result: over every schedule each listed sticker is the one its worker was told of, in the
      form the tool's answer calls for. */
  lemma ListedAsAnswered(s0: State, acts: seq<Act>, k: nat)
    requires Init(s0) && Schedule(s0, acts) && k < |After(s0, acts).converted|
    ensures var e := After(s0, acts).converted[k];
      && e.idx < |s0.animated| && FetchAnswer(s0, acts, e.idx) == Answer.Fetched(e.remote)
      && ConvertAnswer(s0, acts, e.idx).ConvertResult?
      && var good := ConvertAnswer(s0, acts, e.idx).good;
         e.conv == (if !good then Original else if s0.animated[e.idx] then Gif else Png)
  {
    hide Step, Enabled, Schedule, After, FetchAnswer, ConvertAnswer;
    ListedFrom(s0, acts);
  }

  /** What worker `w`, from where it stands, will say of its download. */
  predicate WillSay(s: State, acts: seq<Act>, w: nat, ok: bool)
    requires Schedule(s, acts) && w < |s.workers|
  {
    match s.workers[w]
    case Acquire => ok == FetchAnswer(s, acts, w).Fetched?
    case Fetch => ok == FetchAnswer(s, acts, w).Fetched?
    case Count(o) => o == ok
    case LoadDone(o) => o == ok
    case ReadClock(o, _) => o == ok
    case LoadLast(o, _, _) => o == ok
    case Swap(o, _, _, _) => o == ok
    case Release(o) => o == ok
    case Done(o) => o == ok
    case _ => ok
  }

  lemma WillSayBefore(s: State, acts: seq<Act>, w: nat, ok: bool)
    requires acts != [] && Schedule(s, acts) && w < |s.workers| == |Step(s, acts[0]).workers|
    requires WillSay(Step(s, acts[0]), acts[1..], w, ok)
    ensures WillSay(s, acts, w, ok)
  {
    hide Wins;
    if acts[0].w != w {
      assert Step(s, acts[0]).workers[w] == s.workers[w];
    }
  }

  lemma StepKeepsWorkers(s: State, a: Act)
    requires Enabled(s, a)
    ensures |Step(s, a).workers| == |s.workers|
  {}

  /** A worker ends with `ok` exactly when its download succeeded. */
  lemma {:induction false} OkAsAnswered(s: State, acts: seq<Act>, w: nat)
    requires Schedule(s, acts) && w < |s.workers|
    ensures |After(s, acts).workers| == |s.workers|
    ensures After(s, acts).workers[w].Done? ==> WillSay(s, acts, w, After(s, acts).workers[w].ok)
    decreases |acts|
  {
    if acts != [] {
      hide WillSay, Step, Enabled;
      StepKeepsWorkers(s, acts[0]);
      OkAsAnswered(Step(s, acts[0]), acts[1..], w);
      var end := After(s, acts).workers[w];
      if end.Done? { WillSayBefore(s, acts, w, end.ok); }
    }
  }

  /** Main result: after the join a sticker is listed if and only if its download succeeded, and the
      user is told how many of how many did: nothing, some or all. */
  lemma NoticeAsAnswered(s0: State, acts: seq<Act>)
    requires Init(s0) && Schedule(s0, acts) && Joined(After(s0, acts))
    ensures var s, total := After(s0, acts), |s0.workers|;
      && (forall w: nat | w < total :: HasEntry(s, w) <==> FetchAnswer(s0, acts, w).Fetched?)
      && (if forall w | 0 <= w < total :: !FetchAnswer(s0, acts, w).Fetched? then NoticeFor(s) == NothingDownloaded
          else if forall w | 0 <= w < total :: FetchAnswer(s0, acts, w).Fetched? then NoticeFor(s) == AllDownloaded
          else NoticeFor(s) == Partial(|s.originals|, total))
  {
    hide Schedule, After, FetchAnswer, Fits;
    JoinResult(s0, acts);
    var s := After(s0, acts);
    SameSum(s.workers);
    forall w: nat | w < |s0.workers|
      ensures |s.workers| == |s0.workers| && s.workers[w].ok == FetchAnswer(s0, acts, w).Fetched?
    {
      OkAsAnswered(s0, acts, w);
    }
  }

  /** Steps a worker still has to take, at most. */
  function StepsLeft(pc: Pc): nat {
    match pc
    case Acquire => 13
    case Fetch => 12
    case Convert(_) => 11
    case Lock(_, _) => 10
    case AppendOriginal(_, _) => 9
    case AppendConverted(_, _) => 8
    case Unlock(_, _) => 7
    case Count(_) => 6
    case LoadDone(_) => 5
    case ReadClock(_, _) => 4
    case LoadLast(_, _, _) => 3
    case Swap(_, _, _, _) => 2
    case Release(_) => 1
    case Done(_) => 0
  }

  /** An answer that lets a worker step, when it need not wait. */
  function AnswerFor(pc: Pc): Answer {
    if pc.Fetch? then FetchFailed
    else if pc.Convert? then ConvertResult(false)
    else if pc.ReadClock? then Clock(0)
    else Nothing
  }

  /** Every step brings the join nearer. */
  lemma FanOutShrinks(s: State, a: Act)
    requires Enabled(s, a)
    ensures Sum(Step(s, a).workers, StepsLeft) < Sum(s.workers, StepsLeft)
  {
    SumUpdate(s.workers, StepsLeft, a.w, NextPc(s, a));
  }

  /** Until the join some worker can step: the lock's holder, else one at work, else one that waits. */
  lemma FanOutNeverStuck(s: State) returns (w: nat)
    requires Inv(s) && !Joined(s)
    ensures Enabled(s, Act(w, if w < |s.workers| then AnswerFor(s.workers[w]) else Nothing))
  {
    hide Lists, Throttled, Complete, FewTotals;
    if s.mu.Worker? {
      w := s.mu.w;
    } else if s.sem > 0 {
      w := SumPositive(s.workers, HoldsSem);
    } else {
      w :| w < |s.workers| && !s.workers[w].Done?;
      SumAtLeast(s.workers, HoldsSem, w);
    }
  }

  /** Throttling: before an update shows the total, m updates span at least 2000 * (m - 1) ms,
      whatever the clock does, and no update ever shows more than the total. */
  lemma ThrottleSpan(s0: State, acts: seq<Act>, m: nat)
    requires Init(s0) && Schedule(s0, acts) && 0 < m <= |After(s0, acts).updates|
    requires forall k | 0 <= k < m :: After(s0, acts).updates[k].done != |s0.workers|
    ensures var u := After(s0, acts).updates;
      && u[m - 1].value - u[0].value >= THROTTLE_MS * (m - 1) && u[0].value >= THROTTLE_MS
      && (forall k | 0 <= k < |u| :: u[k].done <= |s0.workers|)
  {
    InitInv(s0);
    RunKeepsInv(s0, acts);
    var u := After(s0, acts).updates;
    assert Chained(u, |s0.workers|);
    assert u[0].replaced == 0;
    ChainSpan(u, |s0.workers|, m);
  }

  lemma {:induction false} ChainSpan(u: seq<Update>, total: nat, m: nat)
    requires Chained(u, total) && 0 < m <= |u| && forall k | 0 <= k < m :: u[k].done != total
    ensures u[m - 1].value - u[0].value >= THROTTLE_MS * (m - 1)
    decreases m
  {
    if m > 1 { ChainSpan(u, total, m - 1); }
  }

  /** The progress message is changed exactly when the worker's count is the total or 2 s have
      passed since the last change it saw, and nobody changed it since. */
  lemma UpdateIffDue(s: State, a: Act)
    requires Enabled(s, a) && s.workers[a.w].Swap?
    ensures var pc := s.workers[a.w];
      var s' := Step(s, a);
      if (pc.done == |s.workers| || pc.now - pc.seen >= 2000) && s.last == pc.seen
      then s'.updates == s.updates + [Update(pc.done, pc.seen, pc.now)] && s'.last == pc.now
      else s'.updates == s.updates && s'.last == s.last
  {}

  function Busy(pc: Pc): nat {
    if pc.Fetch? || pc.Convert? then 1 else 0
  }

  /** Over every schedule at most four stickers of a set are downloaded or converted at once. */
  lemma AtMostFour(s0: State, acts: seq<Act>)
    requires Init(s0) && Schedule(s0, acts)
    ensures Sum(After(s0, acts).workers, Busy) <= 4
  {
    hide Mutex, Lists, Throttled, Complete, FewTotals;
    InitInv(s0);
    RunKeepsInv(s0, acts);
    var ws := After(s0, acts).workers;
    SumBounded(ws, Busy, ws, HoldsSem, 1);
  }

  /** How far the throttle fails once the total is shown: over every schedule at most as many
      updates show it as there are workers at a time. */
  lemma TotalShownAtMost(s0: State, acts: seq<Act>)
    requires Init(s0) && Schedule(s0, acts)
    ensures Sum(After(s0, acts).updates, ShowsTotal(|s0.workers|)) <= WORKERS
  {
    hide Mutex, Lists, Throttled, Complete;
    InitInv(s0);
    RunKeepsInv(s0, acts);
  }

  lemma {:induction false} Append(s: State, a: seq<Act>, b: seq<Act>)
    requires Schedule(s, a) && Schedule(After(s, a), b)
    ensures Schedule(s, a + b) && After(s, a + b) == After(After(s, a), b)
    decreases |a|
  {
    hide Step, Enabled;
    if a == [] {
      assert a + b == b;
    } else {
      assert (a + b)[1..] == a[1..] + b;
      Append(Step(s, a[0]), a[1..], b);
    }
  }

  lemma First(s: State, a: Act, rest: seq<Act>)
    requires Enabled(s, a) && Schedule(Step(s, a), rest)
    ensures Schedule(s, [a] + rest) && After(s, [a] + rest) == After(Step(s, a), rest)
  {
    hide Step, Enabled;
    assert ([a] + rest)[1..] == rest;
  }

  /** A worker whose download fails, up to where its sticker is counted; and its progress update
      at the same clock reading as everyone else's. */
  function Fail(w: nat): seq<Act> {
    [Act(w, Nothing)] + ([Act(w, FetchFailed)] + ([Act(w, Nothing)] + []))
  }

  function Show(w: nat, now: int): seq<Act> {
    [Act(w, Nothing)] + ([Act(w, Clock(now))] + ([Act(w, Nothing)] + ([Act(w, Nothing)] + [])))
  }

  function Fails(k: nat, n: nat): seq<Act>
    decreases n - k
  {
    if k >= n then [] else Fail(k) + Fails(k + 1, n)
  }

  function Shows(k: nat, n: nat, now: int): seq<Act>
    decreases n - k
  {
    if k >= n then [] else Show(k, now) + Shows(k + 1, n, now)
  }

  /** The first `k` workers are counted, the first `j` of them have shown the total. */
  predicate Between(s: State, n: nat, j: nat, k: nat, now: int) {
    && |s.workers| == |s.animated| == n && j <= k <= n
    && (forall w | 0 <= w < n ::
          s.workers[w] == if w < j then Release(false) else if w < k then LoadDone(false) else Acquire)
    && s.sem == k && s.completed == k && s.mu == Nobody
    && |s.updates| == j && (j > 0 ==> s.last == now)
    && (forall i | 0 <= i < j :: s.updates[i].done == n && s.updates[i].value == now)
  }

  lemma FailOne(s: State, n: nat, k: nat, now: int)
    requires Between(s, n, 0, k, now) && k < n <= WORKERS
    ensures Schedule(s, Fail(k)) && Between(After(s, Fail(k)), n, 0, k + 1, now)
  {
    var s1 := Step(s, Act(k, Nothing));
    var s2 := Step(s1, Act(k, FetchFailed));
    First(s2, Act(k, Nothing), []);
    First(s1, Act(k, FetchFailed), [Act(k, Nothing)] + []);
    First(s, Act(k, Nothing), [Act(k, FetchFailed)] + ([Act(k, Nothing)] + []));
  }

  /** Reading the count, the clock and the stored time moves the worker on and nothing else. */
  lemma ReadStep(s: State, a: Act)
    requires Enabled(s, a)
    requires s.workers[a.w].LoadDone? || s.workers[a.w].ReadClock? || s.workers[a.w].LoadLast?
    ensures Step(s, a) == s.(workers := s.workers[a.w := NextPc(s, a)])
  {}

  lemma WinStep(s: State, a: Act)
    requires Enabled(s, a) && s.workers[a.w].Swap?
    requires var pc := s.workers[a.w]; Wins(s, pc.done, pc.now, pc.seen)
    ensures var pc := s.workers[a.w];
      Step(s, a) == s.(workers := s.workers[a.w := Release(pc.ok)], last := pc.now,
                       updates := s.updates + [Update(pc.done, pc.seen, pc.now)])
  {}

  lemma SetTwice(ws: seq<Pc>, j: nat, p: Pc, q: Pc)
    requires j < |ws|
    ensures ws[j := p][j := q] == ws[j := q]
  {}

  /** The four steps of an undisturbed update with the total. */
  lemma ShowEffect(s: State, j: nat, now: int)
    requires |s.workers| == |s.animated| == s.completed && j < |s.workers| && s.workers[j] == LoadDone(false)
    ensures Schedule(s, Show(j, now))
    ensures After(s, Show(j, now)) == s.(workers := s.workers[j := Release(false)], last := now,
                                         updates := s.updates + [Update(|s.workers|, s.last, now)])
  {
    hide Step, Schedule, After;
    var total, ws := |s.workers|, s.workers;
    var read, clocked := ReadClock(false, total), LoadLast(false, total, now);
    var swap := Swap(false, total, now, s.last);
    var s1, s2, s3 := s.(workers := ws[j := read]), s.(workers := ws[j := clocked]), s.(workers := ws[j := swap]);
    ReadStep(s, Act(j, Nothing));
    ReadStep(s1, Act(j, Clock(now)));
    SetTwice(ws, j, read, clocked);
    ReadStep(s2, Act(j, Nothing));
    SetTwice(ws, j, clocked, swap);
    WinStep(s3, Act(j, Nothing));
    SetTwice(ws, j, swap, Release(false));
    ShowIs(s, s1, s2, s3, j, now);
  }

  lemma ShowIs(s: State, s1: State, s2: State, s3: State, j: nat, now: int)
    requires Enabled(s, Act(j, Nothing)) && Step(s, Act(j, Nothing)) == s1
    requires Enabled(s1, Act(j, Clock(now))) && Step(s1, Act(j, Clock(now))) == s2
    requires Enabled(s2, Act(j, Nothing)) && Step(s2, Act(j, Nothing)) == s3 && Enabled(s3, Act(j, Nothing))
    ensures Schedule(s, Show(j, now)) && After(s, Show(j, now)) == Step(s3, Act(j, Nothing))
  {
    hide Step, Enabled;
    First(s3, Act(j, Nothing), []);
    First(s2, Act(j, Nothing), [Act(j, Nothing)] + []);
    First(s1, Act(j, Clock(now)), [Act(j, Nothing)] + ([Act(j, Nothing)] + []));
    First(s, Act(j, Nothing), [Act(j, Clock(now))] + ([Act(j, Nothing)] + ([Act(j, Nothing)] + [])));
  }

  lemma ShowOne(s: State, n: nat, j: nat, now: int)
    requires Between(s, n, j, n, now) && j < n
    ensures Schedule(s, Show(j, now)) && Between(After(s, Show(j, now)), n, j + 1, n, now)
  {
    hide Show, Schedule, After;
    ShowEffect(s, j, now);
  }

  lemma {:induction false} FailsRun(s: State, n: nat, k: nat, now: int)
    requires Between(s, n, 0, k, now) && k <= n <= WORKERS
    ensures Schedule(s, Fails(k, n)) && Between(After(s, Fails(k, n)), n, 0, n, now)
    decreases n - k
  {
    hide Step, Enabled, Between;
    if k < n {
      FailOne(s, n, k, now);
      FailsRun(After(s, Fail(k)), n, k + 1, now);
      Append(s, Fail(k), Fails(k + 1, n));
    }
  }

  lemma {:induction false} ShowsRun(s: State, n: nat, j: nat, now: int)
    requires Between(s, n, j, n, now) && j <= n
    ensures Schedule(s, Shows(j, n, now)) && Between(After(s, Shows(j, n, now)), n, n, n, now)
    decreases n - j
  {
    hide Step, Enabled, Between;
    if j < n {
      ShowOne(s, n, j, now);
      ShowsRun(After(s, Show(j, now)), n, j + 1, now);
      Append(s, Show(j, now), Shows(j + 1, n, now));
    }
  }

  /** And so many can, all within the same millisecond. */
  lemma TotalShownAtOnce(s0: State, now: int)
    requires Init(s0) && |s0.workers| <= WORKERS
    ensures var n := |s0.workers|; var acts := Fails(0, n) + Shows(0, n, now);
      && Schedule(s0, acts) && |After(s0, acts).updates| == n
      && forall i | 0 <= i < n :: After(s0, acts).updates[i].done == n && After(s0, acts).updates[i].value == now
  {
    hide Step, Enabled;
    var n := |s0.workers|;
    FailsRun(s0, n, 0, now);
    ShowsRun(After(s0, Fails(0, n)), n, 0, now);
    Append(s0, Fails(0, n), Shows(0, n, now));
  }
}
