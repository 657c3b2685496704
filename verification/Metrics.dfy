/** The ring buffer and the counters of internal/monitor/metrics.go. A time is a number
    of nanoseconds since Go's zero time, so IsZero is `== 0`. */
module Metrics {

  type Time = int

  /** An entry that counts since `since`: written, and not before it. */
  predicate Counts(t: Time, since: Time) {
    t != 0 && t >= since
  }

  function CountIn(times: seq<Time>, since: Time): nat {
    if times == [] then 0 else (if Counts(times[0], since) then 1 else 0) + CountIn(times[1..], since)
  }

  /** The last `size` entries of a history, or all of it. */
  function Window(history: seq<Time>, size: nat): seq<Time> {
    if |history| <= size then history else history[|history| - size..]
  }

  lemma {:induction false} CountSplits(a: seq<Time>, b: seq<Time>, since: Time)
    ensures CountIn(a + b, since) == CountIn(a, since) + CountIn(b, since)
  {
    if a == [] {
      assert a + b == b;
    } else {
      assert (a + b)[1..] == a[1..] + b;
      CountSplits(a[1..], b, since);
    }
  }

  lemma CountOne(t: Time, since: Time)
    ensures CountIn([t], since) == if Counts(t, since) then 1 else 0
  {
    assert [t][1..] == [];
  }

  lemma {:induction false} CountNone(times: seq<Time>, since: Time)
    requires forall k | 0 <= k < |times| :: !Counts(times[k], since)
    ensures CountIn(times, since) == 0
  {
    if times != [] { CountNone(times[1..], since); }
  }

  lemma {:induction false} CountAll(times: seq<Time>, since: Time)
    requires forall k | 0 <= k < |times| :: Counts(times[k], since)
    ensures CountIn(times, since) == |times|
  {
    if times != [] { CountAll(times[1..], since); }
  }

  /** Slots against history: the written slots, oldest first, are the window; the others are zero. */
  ghost predicate Ring(slots: seq<Time>, pos: nat, history: seq<Time>) {
    && pos < |slots|
    && if |history| < |slots|
       then pos == |history| && slots[..pos] == history && forall k | pos <= k < |slots| :: slots[k] == 0
       else slots[pos..] + slots[..pos] == Window(history, |slots|)
  }

  lemma WrapAround(pos: nat, size: nat)
    requires pos < size
    ensures (pos + 1) % size == if pos + 1 == size then 0 else pos + 1
  {}

  lemma RingBound(slots: seq<Time>, pos: nat, history: seq<Time>)
    requires Ring(slots, pos, history)
    ensures pos < |slots|
  {}

  lemma AddToPartial(slots: seq<Time>, pos: nat, history: seq<Time>, t: Time)
    requires Ring(slots, pos, history) && |history| < |slots|
    ensures Ring(slots[pos := t], if pos + 1 == |slots| then 0 else pos + 1, history + [t])
  {
    assert slots[pos := t][..pos + 1] == slots[..pos] + [t];
  }

  lemma AddToFull(slots: seq<Time>, pos: nat, history: seq<Time>, t: Time)
    requires Ring(slots, pos, history) && |history| >= |slots|
    ensures Ring(slots[pos := t], if pos + 1 == |slots| then 0 else pos + 1, history + [t])
  {
    var after := slots[pos := t];
    assert Window(history + [t], |slots|) == Window(history, |slots|)[1..] + [t];
    assert (slots[pos..] + slots[..pos])[1..] == slots[pos + 1..] + slots[..pos];
    assert after[pos + 1..] == slots[pos + 1..] && after[..pos + 1] == slots[..pos] + [t];
    assert after[pos + 1..] + after[..pos + 1] == Window(history + [t], |slots|);
  }

  class RingBuffer {
    const times: array<Time>
    const size: nat
    var pos: nat
    /** Everything ever added. */
    ghost var history: seq<Time>

    ghost predicate Valid()
      reads this, times
    {
      size == times.Length && Ring(times[..], pos, history)
    }

    constructor (size: nat)
      requires size > 0
      ensures Valid() && history == [] && this.size == size && fresh(times)
    {
      times := new Time[size](_ => 0);
      this.size, pos, history := size, 0, [];
    }

    method Add(t: Time)
      requires Valid()
      modifies this, times
      ensures Valid() && history == old(history) + [t]
    {
      hide Ring;
      RingBound(times[..], pos, history);
      WrapAround(pos, size);
      if |history| < size {
        AddToPartial(times[..], pos, history, t);
      } else {
        AddToFull(times[..], pos, history, t);
      }
      ghost var before := times[..];
      times[pos] := t;
      assert times[..] == before[pos := t];
      pos := (pos + 1) % size;
      history := history + [t];
    }

    method CountSince(since: Time) returns (count: nat)
      requires Valid()
      ensures count == CountIn(Window(history, size), since)
    {
      count := 0;
      for i := 0 to times.Length
        invariant count == CountIn(times[..i], since)
      {
        assert times[..i + 1] == times[..i] + [times[i]];
        CountSplits(times[..i], [times[i]], since);
        if times[i] != 0 && !(times[i] < since) {
          count := count + 1;
        }
      }
      assert times[..times.Length] == times[..] == times[..pos] + times[pos..];
      CountSplits(times[..pos], times[pos..], since);
      CountSplits(times[pos..], times[..pos], since);
      if |history| < size {
        CountNone(times[pos..], since);
      }
    }
  }

  predicate NonDecreasing(history: seq<Time>) {
    forall j, k | 0 <= j < k < |history| :: history[j] <= history[k]
  }

  /** Main result: with a clock that never goes back, a count is exact until the window is full,
      and then it is the window. */
  lemma {:induction false} SlidingWindow(history: seq<Time>, size: nat, since: Time)
    requires NonDecreasing(history) && forall k | 0 <= k < |history| :: history[k] != 0
    ensures CountIn(Window(history, size), since)
         == if CountIn(history, since) <= size then CountIn(history, since) else size
    decreases |history|
  {
    var n := |history|;
    if n > size {
      var old_, recent := history[..n - size], history[n - size..];
      assert history == old_ + recent;
      CountSplits(old_, recent, since);
      if old_[n - size - 1] >= since {
        CountAll(recent, since);
      } else {
        CountNone(old_, since);
      }
      CountAtMost(recent, since);
    } else {
      CountAtMost(history, since);
    }
  }

  lemma {:induction false} CountAtMost(times: seq<Time>, since: Time)
    ensures CountIn(times, since) <= |times|
  {
    if times != [] { CountAtMost(times[1..], since); }
  }

  /** The rate on the dashboard is the true count of the last minute exactly while no more
      than `size` requests fall into it. */
  lemma RateExactIff(history: seq<Time>, size: nat, since: Time)
    requires NonDecreasing(history) && forall k | 0 <= k < |history| :: history[k] != 0
    ensures CountIn(Window(history, size), since) == CountIn(history, since) <==> CountIn(history, since) <= size
  {
    SlidingWindow(history, size, since);
  }

  lemma PercentOf(part: real, total: real)
    requires total > 0.0
    ensures part / total * 100.0 * total == 100.0 * part
  {
    assert part / total * total == part;
  }

  const RING_SIZE: nat := 3600
  const MINUTE: Time := 60 * 1_000_000_000

  datatype Snapshot = Snapshot(
    totalRequests: nat, requestsPerMin: nat, errorCount: nat, errorRate: real,
    commandCounts: map<string, nat>, rateDenied: nat)

  class Metrics {
    var totalRequests: nat
    var errorCount: nat
    var rateDenied: nat
    var commandCounts: map<string, nat>
    const recentRequests: RingBuffer
    /** Every request recorded: its command. */
    ghost var log: seq<string>

    /** The books: the total, the ring and the per-command counters tell the same story. */
    ghost predicate Valid()
      reads this, recentRequests, recentRequests.times
    {
      && recentRequests.Valid() && recentRequests.size == RING_SIZE
      && totalRequests == |log| == |recentRequests.history|
      && forall c :: multiset(log)[c] == if c in commandCounts then commandCounts[c] else 0
    }

    constructor ()
      ensures Valid() && log == [] && rateDenied == 0 && errorCount == 0 && commandCounts == map[]
      ensures fresh(recentRequests) && fresh(recentRequests.times)
    {
      totalRequests, errorCount, rateDenied, commandCounts, log := 0, 0, 0, map[], [];
      recentRequests := new RingBuffer(RING_SIZE);
    }

    method RecordRequest(command: string, now: Time)
      requires Valid()
      modifies this, recentRequests, recentRequests.times
      ensures Valid() && log == old(log) + [command]
      ensures recentRequests.history == old(recentRequests.history) + [now]
      ensures rateDenied == old(rateDenied) && errorCount == old(errorCount)
    {
      totalRequests := totalRequests + 1;
      recentRequests.Add(now);
      if command !in commandCounts {
        commandCounts := commandCounts[command := 0];
      }
      commandCounts := commandCounts[command := commandCounts[command] + 1];
      log := log + [command];
    }

    method RecordError()
      requires Valid()
      modifies `errorCount
      ensures Valid() && errorCount == old(errorCount) + 1
    {
      errorCount := errorCount + 1;
    }

    method RecordRateDenied()
      requires Valid()
      modifies `rateDenied
      ensures Valid() && rateDenied == old(rateDenied) + 1
    {
      rateDenied := rateDenied + 1;
    }

    method TakeSnapshot(now: Time) returns (s: Snapshot)
      requires Valid()
      ensures s.totalRequests == |log| && s.errorCount == errorCount && s.rateDenied == rateDenied
      ensures if log == [] then s.errorRate == 0.0 else s.errorRate * |log| as real == 100.0 * errorCount as real
      ensures s.requestsPerMin == CountIn(Window(recentRequests.history, RING_SIZE), now - MINUTE)
      ensures forall c :: multiset(log)[c] == if c in s.commandCounts then s.commandCounts[c] else 0
    {
      hide Ring, CountIn, Window;
      var errorRate := 0.0;
      if totalRequests > 0 {
        errorRate := errorCount as real / totalRequests as real * 100.0;
        PercentOf(errorCount as real, totalRequests as real);
      }
      var reqPerMin := recentRequests.CountSince(now - MINUTE);
      s := Snapshot(totalRequests, reqPerMin, errorCount, errorRate, commandCounts, rateDenied);
    }
  }
}
