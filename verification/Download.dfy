/** downloadTelegramFile (internal/command/download.go): a bounded retry loop over 429
    replies, a capped copy, and what is left on disk. Durations are int64 nanoseconds. */
module Download {

  const MAX_DOWNLOAD_BYTES: nat := 100 * 1024 * 1024
  const MAX_RETRIES: nat := 3
  const SECOND: int := 1_000_000_000
  const TOO_MANY_REQUESTS: nat := 429
  const OK: nat := 200

  type Bytes = seq<bv8>

  datatype Header = Absent | Seconds(n: int)

  /** The answer to one request; ConnectionError when there is none. A header that is not a number
      counts as absent. */
  datatype Reply = ConnectionError | Response(status: nat, body: Bytes, retryAfter: Header)

  /** How far the copy can get: the connection breaks after `n` bytes of the body, or the disk
      takes only `n` bytes. */
  datatype CopyFault = NoFault | ConnectionBreaks(n: nat) | DiskFull(n: nat)

  /** What the network, the clock and the disk do during one call. */
  datatype World = World(
    getFileFails: bool,         // Telegram does not tell where the file is
    replies: nat -> Reply,
    cancelled: nat -> bool,     // the context ends during the wait after this attempt
    createFails: bool,
    copy: CopyFault,
    closeFails: bool)           // seen by the deferred close only

  datatype Error = GetFile | Connection | Cancelled | Status(code: nat) | CreateFile | WriteFile | TooLarge

  datatype Result = Path | Failed(error: Error)

  /** The local file afterwards; Unsure when closing it failed and what was written may be lost. */
  datatype Local = NotCreated | Holds(data: Bytes) | Unsure | Removed

  function Min(a: int, b: int): int {
    if a <= b then a else b
  }

  /** int64 arithmetic wraps around. */
  function Wrap64(n: int): int {
    var m := n % 0x1_0000_0000_0000_0000;
    if m >= 0x8000_0000_0000_0000 then m - 0x1_0000_0000_0000_0000 else m
  }

  function Pow2(n: nat): nat {
    if n == 0 then 1 else 2 * Pow2(n - 1)
  }

  /** How long the loop waits after a throttled attempt; a negative duration is no wait. */
  function WaitAfter(attempt: nat, retryAfter: Header): int {
    var d := if retryAfter.Seconds? && retryAfter.n > 0 then Wrap64(retryAfter.n * SECOND) else Pow2(attempt) * SECOND;
    if d < 0 then 0 else d
  }

  predicate Throttled(r: Reply) {
    r.Response? && r.status == 429
  }

  /** Attempts before `k` were all throttled and waited out. */
  predicate WaitedOut(w: World, k: nat) {
    forall j: nat | j < k :: Throttled(w.replies(j)) && !w.cancelled(j)
  }

  function TotalWait(w: World, k: nat): int {
    if k == 0 then 0
    else TotalWait(w, k - 1)
         + match w.replies(k - 1)
           case Response(_, _, retryAfter) => WaitAfter(k - 1, retryAfter)
           case ConnectionError => 0
  }

  /** What the copy asks for: the body, but no more than one byte over the cap. */
  function Limited(body: Bytes): Bytes {
    body[..Min(|body|, MAX_DOWNLOAD_BYTES + 1)]
  }

  /** The bytes that reach the file, and whether the copy fails. A break that lies beyond what the
      limited read asks for is never met. */
  function Copied(body: Bytes, fault: CopyFault): (Bytes, bool) {
    match fault
    case NoFault => (Limited(body), false)
    case ConnectionBreaks(n) =>
      if Min(n, |body|) <= MAX_DOWNLOAD_BYTES then (body[..Min(n, |body|)], true) else (Limited(body), false)
    case DiskFull(n) =>
      if n < |Limited(body)| then (Limited(body)[..n], true) else (Limited(body), false)
  }

  /** The whole body gets to the file: it is within the cap, the connection holds, there is room. */
  predicate ArrivesWhole(body: Bytes, fault: CopyFault) {
    |body| <= 100 * 1024 * 1024 && !fault.ConnectionBreaks? && (fault.DiskFull? ==> |body| <= fault.n)
  }

  /** Reply `k` is a 200 whose body reaches the file whole. */
  predicate Delivers(w: World, k: nat) {
    var r := w.replies(k);
    r.Response? && r.status == 200 && ArrivesWhole(r.body, w.copy)
  }

  /** What the copy leaves behind, by how it ends. */
  lemma CopiedMeans(body: Bytes, fault: CopyFault)
    ensures var (written, failed) := Copied(body, fault);
      && (ArrivesWhole(body, fault) <==> !failed && |written| <= MAX_DOWNLOAD_BYTES)
      && (ArrivesWhole(body, fault) ==> written == body)
      && (failed <==> (fault.ConnectionBreaks? && Min(fault.n, |body|) <= 104_857_600)
                      || (fault.DiskFull? && fault.n < Min(|body|, 104_857_601)))
      && (failed ==> written == body[..Min(fault.n, |body|)])
      && (|written| > MAX_DOWNLOAD_BYTES ==> |body| > MAX_DOWNLOAD_BYTES)
  {}

  /** The file once the deferred close has run. */
  function Closed(w: World, data: Bytes): Local {
    if w.closeFails then Unsure else Holds(data)
  }

  /** What the call makes of the first reply that is not throttled: result and local file.
      The copy reads one byte more than the cap, so a body over it is seen to be over. */
  predicate Settles(w: World, r: Reply, result: Result, local: Local) {
    if r.ConnectionError? then result == Failed(Connection) && local == NotCreated
    else if r.status != 200 then result == Failed(Status(r.status)) && local == NotCreated
    else if w.createFails then result == Failed(CreateFile) && local == NotCreated
    else if ArrivesWhole(r.body, w.copy) then result == Path && local == Closed(w, r.body)
    else if (w.copy.ConnectionBreaks? && Min(w.copy.n, |r.body|) <= 104_857_600)
            || (w.copy.DiskFull? && w.copy.n < Min(|r.body|, 104_857_601)) then
      result == Failed(WriteFile)
      && local == Closed(w, r.body[..Min(w.copy.n, |r.body|)])
    else result == Failed(TooLarge) && local == Removed && |r.body| > MAX_DOWNLOAD_BYTES
  }

  function Total(pauses: seq<int>): int {
    if pauses == [] then 0 else Total(pauses[..|pauses| - 1]) + pauses[|pauses| - 1]
  }

  /** The pause after reply `k`: the seconds its header asks for, or 1, 2, 4 seconds when it has no
      positive number. What does not fit 64 bits of nanoseconds is not asked for here. */
  predicate PausesFor(pause: int, k: nat, retryAfter: Header) {
    if retryAfter.Seconds? && retryAfter.n > 0
    then retryAfter.n <= 9_223_372_036 ==> pause == retryAfter.n * 1_000_000_000
    else k < 3 && pause == [1_000_000_000, 2_000_000_000, 4_000_000_000][k]
  }

  lemma WaitMeans(k: nat, retryAfter: Header)
    requires k < 3
    ensures PausesFor(WaitAfter(k, retryAfter), k, retryAfter)
  {
    assert Pow2(0) == 1 && Pow2(1) == 2 && Pow2(2) == 4;
  }

  /** Longer headers overflow: up to twice as long they are not waited out at all. */
  lemma OverflowIsNoWait(k: nat, n: int)
    requires 9_223_372_036 < n <= 18_446_744_073
    ensures WaitAfter(k, Seconds(n)) == 0
  {}

  lemma TotalMore(pauses: seq<int>, p: int)
    ensures Total(pauses + [p]) == Total(pauses) + p
  {
    assert (pauses + [p])[..|pauses|] == pauses;
  }

  lemma TotalNothing(w: World)
    ensures Total([]) == 0 && Matches(w, [])
  {}

  /** The first `k` replies leave the pauses to the loop: no header, or no positive number in it. */
  predicate OwnPace(w: World, k: nat) {
    forall j: nat | j < k ::
      w.replies(j).Response? && (w.replies(j).retryAfter.Seconds? ==> w.replies(j).retryAfter.n <= 0)
  }

  /** One pause for each throttled reply. */
  predicate Matches(w: World, pauses: seq<int>) {
    forall k | 0 <= k < |pauses| :: w.replies(k).Response? && PausesFor(pauses[k], k, w.replies(k).retryAfter)
  }

  lemma MatchesMore(w: World, pauses: seq<int>, p: int)
    requires Matches(w, pauses) && w.replies(|pauses|).Response?
    requires PausesFor(p, |pauses|, w.replies(|pauses|).retryAfter)
    ensures Matches(w, pauses + [p])
  {
    hide PausesFor;
  }

  /** Pauses the loop chooses itself: 0, 1, 3 or 7 seconds in all. */
  lemma {:induction false} OwnPauses(pauses: seq<int>)
    requires |pauses| <= 3
    requires forall k | 0 <= k < |pauses| :: pauses[k] == [1_000_000_000, 2_000_000_000, 4_000_000_000][k]
    ensures Total(pauses) == [0, 1_000_000_000, 3_000_000_000, 7_000_000_000][|pauses|]
  {
    if pauses != [] { OwnPauses(pauses[..|pauses| - 1]); }
  }

  lemma OwnPaceTotal(w: World, pauses: seq<int>)
    requires |pauses| <= 3 && Matches(w, pauses) && OwnPace(w, |pauses|)
    ensures Total(pauses) == [0, 1_000_000_000, 3_000_000_000, 7_000_000_000][|pauses|]
  {
    OwnPauses(pauses);
  }

  /** What becomes of a reply once the loop is left. */
  method Save(w: World, resp: Reply) returns (result: Result, local: Local)
    requires resp.Response?
    ensures Settles(w, resp, result, local)
    ensures result == Path <==> resp.status == 200 && !w.createFails && ArrivesWhole(resp.body, w.copy)
    ensures result == Path ==> (local.Holds? <==> !w.closeFails)
  {
    hide Copied, ArrivesWhole;
    local := NotCreated;
    if resp.status != OK {
      result := Failed(Status(resp.status));
      return;
    }
    if w.createFails {
      result := Failed(CreateFile);
      return;
    }
    var (written, failed) := Copied(resp.body, w.copy);
    CopiedMeans(resp.body, w.copy);
    local := Closed(w, written);
    if failed {
      result := Failed(WriteFile);
      return;
    }
    if |written| > MAX_DOWNLOAD_BYTES {
      local := Removed;
      result := Failed(TooLarge);
      return;
    }
    result := Path;
  }

  /** `throttled` replies were waited out, for `pauses`; at most three requests are sent. A path comes
      back exactly when the next reply is a 200 within the cap that reaches the disk whole. */
  method DownloadTelegramFile(w: World)
    returns (result: Result, local: Local, requests: nat, throttled: nat, waited: int, pauses: seq<int>)
    ensures w.getFileFails ==> result == Failed(GetFile) && local == NotCreated && requests == throttled == 0
    ensures !w.getFileFails ==> requests == Min(throttled + 1, 3)
    ensures throttled <= 3 && WaitedOut(w, throttled) && waited == TotalWait(w, throttled)
    ensures |pauses| == throttled && waited == Total(pauses) && Matches(w, pauses)
    ensures OwnPace(w, throttled) ==> waited == [0, 1_000_000_000, 3_000_000_000, 7_000_000_000][throttled]
    ensures throttled == 3 ==> result == Failed(Status(429)) && local == NotCreated
    ensures !w.getFileFails && throttled < 3 && Throttled(w.replies(throttled)) ==>
      w.cancelled(throttled) && result == Failed(Cancelled) && local == NotCreated
    ensures !w.getFileFails && throttled < 3 && !Throttled(w.replies(throttled)) ==>
      Settles(w, w.replies(throttled), result, local)
    ensures result == Path ==> (local.Holds? <==> !w.closeFails)
    ensures result == Path
      <==> !w.getFileFails && !w.createFails && exists k: nat :: k < 3 && WaitedOut(w, k) && Delivers(w, k)
  {
    hide ArrivesWhole, WaitAfter, Total, Matches, OwnPace, PausesFor;
    TotalNothing(w);
    local, requests, throttled, waited, pauses := NotCreated, 0, 0, 0, [];
    if w.getFileFails {
      result := Failed(GetFile);
      return;
    }
    var resp := ConnectionError;
    while throttled < MAX_RETRIES
      invariant throttled <= 3 && requests == throttled && WaitedOut(w, throttled)
      invariant waited == TotalWait(w, throttled)
      invariant |pauses| == throttled && waited == Total(pauses) && Matches(w, pauses)
      invariant OwnPace(w, throttled) ==> waited == [0, 1_000_000_000, 3_000_000_000, 7_000_000_000][throttled]
      invariant throttled > 0 ==> Throttled(resp)
    {
      resp := w.replies(throttled);
      requests := requests + 1;
      if resp.ConnectionError? {
        result := Failed(Connection);
        return;
      }
      if resp.status == TOO_MANY_REQUESTS {
        if w.cancelled(throttled) {
          result := Failed(Cancelled);
          return;
        }
        var pause := WaitAfter(throttled, resp.retryAfter);
        WaitMeans(throttled, resp.retryAfter);
        TotalMore(pauses, pause);
        MatchesMore(w, pauses, pause);
        waited, pauses := waited + pause, pauses + [pause];
        throttled := throttled + 1;
        if OwnPace(w, throttled) { OwnPaceTotal(w, pauses); }
        continue;
      }
      break;
    }
    result, local := Save(w, resp);
  }

  /** Without a positive Retry-After, k throttled replies cost 2^k - 1 seconds in all. */
  lemma {:induction false} BackoffTotal(w: World, k: nat)
    requires OwnPace(w, k)
    ensures TotalWait(w, k) == (Pow2(k) - 1) * SECOND
  {
    if k > 0 { BackoffTotal(w, k - 1); }
  }

  /** The whole call never waits longer than 7 seconds of its own accord. */
  lemma BackoffAtMost(w: World, k: nat)
    requires k <= 3 && OwnPace(w, k)
    ensures TotalWait(w, k) <= 7 * SECOND
  {
    BackoffTotal(w, k);
    assert Pow2(0) == 1 && Pow2(1) == 2 && Pow2(2) == 4 && Pow2(3) == 8;
  }

  /** A Retry-After of n seconds is waited out exactly when n seconds fit an int64 of nanoseconds. */
  lemma RetryAfterHonoured(attempt: nat, n: int)
    requires 0 < n < 0x8000_0000_0000_0000
    ensures WaitAfter(attempt, Seconds(n)) == n * SECOND <==> n <= 9_223_372_036
  {}
}
