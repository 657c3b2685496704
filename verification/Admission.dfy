/** tryRunTask (internal/command/download.go) as interleaved atomic steps: one task a
    user, at most MAX_GLOBAL_TASKS tasks in all. Any number of goroutines, any users. */
module Admission {
  import opened Counting

  const MAX_GLOBAL_TASKS: nat := 20

  /** Where a goroutine is: about to do the step the name says. */
  datatype Pc =
    | Claim            // LoadOrStore of the user
    | TrySlot          // the select on the semaphore
    | GiveUp           // no slot: delete the user again
    | Run              // inside fn
    | Delete           // deferred: delete the user
    | Free             // deferred: receive from the semaphore
    | Finished(ran: bool)

  datatype State = State(uids: seq<int>, pcs: seq<Pc>, userTasks: set<int>, slots: nat)

  predicate Init(s: State) {
    |s.pcs| == |s.uids| && (forall g | 0 <= g < |s.pcs| :: s.pcs[g] == Claim) && s.userTasks == {} && s.slots == 0
  }

  /** Goroutine `g` can take its next step. Only the last receive could ever block. */
  predicate Enabled(s: State, g: nat) {
    && g < |s.pcs| == |s.uids|
    && !s.pcs[g].Finished?
    && (s.pcs[g] == Free ==> s.slots > 0)
  }

  function Move(s: State, g: nat, pc: Pc): State
    requires g < |s.pcs|
  {
    s.(pcs := s.pcs[g := pc])
  }

  /** The step `g` takes. fn ends in the same way whether it returns or panics. */
  function Step(s: State, g: nat): State
    requires Enabled(s, g)
  {
    var uid := s.uids[g];
    match s.pcs[g]
    case Claim =>
      if uid in s.userTasks then Move(s, g, Finished(false))
      else Move(s, g, TrySlot).(userTasks := s.userTasks + {uid})
    case TrySlot =>
      if s.slots < MAX_GLOBAL_TASKS then Move(s, g, Run).(slots := s.slots + 1) else Move(s, g, GiveUp)
    case GiveUp => Move(s, g, Finished(false)).(userTasks := s.userTasks - {uid})
    case Run => Move(s, g, Delete)
    case Delete => Move(s, g, Free).(userTasks := s.userTasks - {uid})
    case Free => Move(s, g, Finished(true)).(slots := s.slots - 1)
    case Finished(_) => s
  }

  predicate OwnsUser(pc: Pc) {
    pc in {TrySlot, GiveUp, Run, Delete}
  }

  function SlotsHeld(pc: Pc): nat {
    if pc in {Run, Delete, Free} then 1 else 0
  }

  /** Goroutine `g` holds the claim on user `u`. */
  predicate Owns(s: State, g: nat, u: int) {
    g < |s.pcs| == |s.uids| && OwnsUser(s.pcs[g]) && s.uids[g] == u
  }

  /** A user is marked busy exactly while one goroutine, and only one, holds the claim. */
  ghost predicate OneOwner(s: State, u: int) {
    && (u in s.userTasks <==> exists g: nat :: Owns(s, g, u))
    && (forall g: nat, h: nat | Owns(s, g, u) && Owns(s, h, u) :: g == h)
  }

  ghost predicate Inv(s: State) {
    && |s.pcs| == |s.uids|
    && (forall u :: OneOwner(s, u))
    && s.slots == Sum(s.pcs, SlotsHeld) <= MAX_GLOBAL_TASKS
  }

  /** A schedule that only takes enabled steps. */
  predicate Schedule(s: State, order: seq<nat>)
    decreases |order|
  {
    order == [] || (Enabled(s, order[0]) && Schedule(Step(s, order[0]), order[1..]))
  }

  function After(s: State, order: seq<nat>): State
    requires Schedule(s, order)
    decreases |order|
  {
    if order == [] then s else After(Step(s, order[0]), order[1..])
  }

  /** Steps of a goroutine of another user leave the claim as it is. */
  lemma OtherUser(s: State, g: nat, u: int)
    requires OneOwner(s, u) && Enabled(s, g) && s.uids[g] != u
    ensures OneOwner(Step(s, g), u)
  {
    forall h: nat ensures Owns(Step(s, g), h, u) == Owns(s, h, u) {}
  }

  lemma OwnUser(s: State, g: nat)
    requires Enabled(s, g) && OneOwner(s, s.uids[g])
    ensures OneOwner(Step(s, g), s.uids[g])
  {
    var s', u := Step(s, g), s.uids[g];
    forall h: nat | h != g ensures Owns(s', h, u) == Owns(s, h, u) {}
    if OwnsUser(s'.pcs[g]) {
      assert Owns(s', g, u);
      assert Owns(s, g, u) || !exists h: nat :: Owns(s, h, u);
    } else if OwnsUser(s.pcs[g]) {
      assert Owns(s, g, u);
    } else {
      assert forall h: nat :: Owns(s', h, u) == Owns(s, h, u);
    }
  }

  lemma StepKeepsInv(s: State, g: nat)
    requires Inv(s) && Enabled(s, g)
    ensures Inv(Step(s, g))
  {
    hide OneOwner;
    var s' := Step(s, g);
    forall u ensures OneOwner(s', u) {
      if u == s.uids[g] { OwnUser(s, g); } else { OtherUser(s, g, u); }
    }
    SumUpdate(s.pcs, SlotsHeld, g, s'.pcs[g]);
    SumAtLeast(s.pcs, SlotsHeld, g);
  }

  lemma InitInv(s: State)
    requires Init(s)
    ensures Inv(s)
  {
    SumZero(s.pcs, SlotsHeld);
  }

  lemma {:induction false} RunKeepsInv(s: State, order: seq<nat>)
    requires Inv(s) && Schedule(s, order)
    ensures Inv(After(s, order))
    decreases |order|
  {
    if order != [] {
      StepKeepsInv(s, order[0]);
      RunKeepsInv(Step(s, order[0]), order[1..]);
    }
  }

  /** Safety over every interleaving: one task a user, at most twenty tasks, exact books. */
  lemma AdmissionSafe(s0: State, order: seq<nat>)
    requires Init(s0) && Schedule(s0, order)
    ensures var s := After(s0, order);
      && Inv(s) && s.slots <= 20
      // two bodies of one user never overlap
      && (forall g: nat, h: nat | g < |s.pcs| && h < |s.pcs| && s.pcs[g] == Run && s.pcs[h] == Run
                                  && s.uids[g] == s.uids[h] :: g == h)
      // the release receive never blocks
      && (forall g: nat | g < |s.pcs| && s.pcs[g] == Free :: s.slots > 0)
  {
    InitInv(s0);
    RunKeepsInv(s0, order);
    var s := After(s0, order);
    forall g: nat, h: nat | g < |s.pcs| && h < |s.pcs| && s.pcs[g] == Run && s.pcs[h] == Run && s.uids[g] == s.uids[h]
      ensures g == h
    {
      assert OneOwner(s, s.uids[g]) && Owns(s, g, s.uids[g]) && Owns(s, h, s.uids[g]);
    }
    forall g: nat | g < |s.pcs| && s.pcs[g] == Free ensures s.slots > 0 {
      SumAtLeast(s.pcs, SlotsHeld, g);
    }
  }

  /** fn of goroutine `g` was called along the way. */
  predicate Called(s: State, order: seq<nat>, g: nat)
    requires Schedule(s, order) && g < |s.pcs|
    decreases |order|
  {
    order != [] && ((order[0] == g && s.pcs[g] == Run) || Called(Step(s, order[0]), order[1..], g))
  }

  /** What goroutine `g`, from where it stands, will answer. */
  predicate WillAnswer(s: State, order: seq<nat>, g: nat, ran: bool)
    requires Schedule(s, order) && g < |s.pcs|
  {
    match s.pcs[g]
    case GiveUp => !ran && !Called(s, order, g)
    case Delete => ran
    case Free => ran
    case Finished(r) => r == ran && !Called(s, order, g)
    case _ => ran == Called(s, order, g)
  }

  lemma {:induction false} AnswerFrom(s: State, order: seq<nat>, g: nat)
    requires Schedule(s, order) && g < |s.pcs|
    ensures |After(s, order).pcs| == |s.pcs|
    ensures After(s, order).pcs[g].Finished? ==> WillAnswer(s, order, g, After(s, order).pcs[g].ran)
    decreases |order|
  {
    if order != [] { AnswerFrom(Step(s, order[0]), order[1..], g); }
  }

  /** Main result: tryRunTask answers true exactly when it called fn. */
  lemma AnswerIsRan(s0: State, order: seq<nat>, g: nat)
    requires Init(s0) && Schedule(s0, order) && g < |s0.pcs|
    ensures |After(s0, order).pcs| == |s0.pcs|
    ensures After(s0, order).pcs[g].Finished? ==> (After(s0, order).pcs[g].ran <==> Called(s0, order, g))
  {
    AnswerFrom(s0, order, g);
  }

  /** A task is turned away when its user is marked, or when all twenty slots are taken; otherwise
      it goes on. */
  lemma TurnedAwayIff(s: State, g: nat)
    requires |s.pcs| == |s.uids| && g < |s.pcs|
    ensures s.pcs[g] == Claim ==>
      Step(s, g).pcs[g] == if s.uids[g] in s.userTasks then Finished(false) else TrySlot
    ensures s.pcs[g] == TrySlot ==> Step(s, g).pcs[g] == if s.slots >= 20 then GiveUp else Run
  {}

  /** When every goroutine is done, nothing is held. */
  lemma NothingLeaks(s0: State, order: seq<nat>)
    requires Init(s0) && Schedule(s0, order)
    requires forall g | 0 <= g < |After(s0, order).pcs| :: After(s0, order).pcs[g].Finished?
    ensures After(s0, order).userTasks == {} && After(s0, order).slots == 0
  {
    AdmissionSafe(s0, order);
    var s := After(s0, order);
    SumZero(s.pcs, SlotsHeld);
    forall u ensures u !in s.userTasks {
      assert OneOwner(s, u);
    }
  }

  /** Steps a goroutine still has to take, at most. */
  function StepsLeft(pc: Pc): nat {
    match pc
    case Claim => 5
    case TrySlot => 4
    case GiveUp => 1
    case Run => 3
    case Delete => 2
    case Free => 1
    case Finished(_) => 0
  }

  /** No goroutine is ever stuck, and every step brings the end nearer. */
  lemma AdmissionProgress(s: State)
    requires Inv(s)
    ensures forall g: nat | g < |s.pcs| && !s.pcs[g].Finished? ::
      Enabled(s, g) && Sum(Step(s, g).pcs, StepsLeft) < Sum(s.pcs, StepsLeft)
  {
    forall g: nat | g < |s.pcs| && !s.pcs[g].Finished?
      ensures Enabled(s, g) && Sum(Step(s, g).pcs, StepsLeft) < Sum(s.pcs, StepsLeft)
    {
      SumAtLeast(s.pcs, SlotsHeld, g);
      SumUpdate(s.pcs, StepsLeft, g, Step(s, g).pcs[g]);
    }
  }

  /** A goroutine as one value, for counting those of one user. */
  datatype Task = Task(uid: int, pc: Pc)

  function Tasks(s: State): seq<Task>
    requires |s.pcs| == |s.uids|
  {
    seq(|s.pcs|, g requires 0 <= g < |s.pcs| => Task(s.uids[g], s.pcs[g]))
  }

  /** What one task adds to the slots of user `u`; to those with the user still marked, to those without. */
  function SlotOf(u: int): Task -> nat {
    (t: Task) => if t.uid == u then SlotsHeld(t.pc) else 0
  }

  function MarkedSlotOf(u: int): Task -> nat {
    (t: Task) => if t.uid == u && t.pc in {Run, Delete} then 1 else 0
  }

  function LeavingOf(u: int): Task -> nat {
    (t: Task) => if t.uid == u && t.pc == Free then 1 else 0
  }

  /** Slots held by the goroutines of user `u`, and those of them that only have to give one back. */
  function HeldBy(s: State, u: int): nat
    requires |s.pcs| == |s.uids|
  {
    Sum(Tasks(s), SlotOf(u))
  }

  function Leaving(s: State, u: int): nat
    requires |s.pcs| == |s.uids|
  {
    Sum(Tasks(s), LeavingOf(u))
  }

  /** The goroutine that has user `u` marked also holds a slot. */
  ghost predicate OwnerHasSlot(s: State, u: int) {
    exists g: nat :: Owns(s, g, u) && s.pcs[g] in {Run, Delete}
  }

  lemma {:induction false} HeldSplits(ts: seq<Task>, u: int)
    ensures Sum(ts, SlotOf(u)) == Sum(ts, MarkedSlotOf(u)) + Sum(ts, LeavingOf(u))
  {
    if ts != [] { HeldSplits(ts[1..], u); }
  }

  lemma MarkedSlots(s: State, u: int)
    requires Inv(s)
    ensures Sum(Tasks(s), MarkedSlotOf(u)) == if OwnerHasSlot(s, u) then 1 else 0
  {
    var ts := Tasks(s);
    assert OneOwner(s, u);
    if OwnerHasSlot(s, u) {
      var g: nat :| Owns(s, g, u) && s.pcs[g] in {Run, Delete};
      forall h | 0 <= h < |ts| && h != g ensures MarkedSlotOf(u)(ts[h]) == 0 {
        assert Owns(s, h, u) ==> h == g;
      }
      SumSingle(ts, MarkedSlotOf(u), g);
    } else {
      forall h | 0 <= h < |ts| ensures MarkedSlotOf(u)(ts[h]) == 0 {
        assert ts[h].uid == u && ts[h].pc in {Run, Delete} ==> Owns(s, h, u);
      }
      SumZero(ts, MarkedSlotOf(u));
    }
  }

  lemma SlotsSplit(s: State, u: int)
    requires Inv(s)
    ensures HeldBy(s, u) == (if OwnerHasSlot(s, u) then 1 else 0) + Leaving(s, u)
  {
    MarkedSlots(s, u);
    HeldSplits(Tasks(s), u);
  }

  /** Main result: in every reachable state, a user's slots are that of the task that has the
      user marked, if it got one, and one for each earlier task that has yet to give its slot back. */
  lemma SlotsOfUser(s0: State, order: seq<nat>, u: int)
    requires Init(s0) && Schedule(s0, order)
    ensures var s := After(s0, order);
      |s.pcs| == |s.uids| && HeldBy(s, u) == (if OwnerHasSlot(s, u) then 1 else 0) + Leaving(s, u)
  {
    InitInv(s0);
    RunKeepsInv(s0, order);
    SlotsSplit(After(s0, order), u);
  }

  /** Some task of user `u` has released the user and not yet its slot. */
  predicate SomeLeaving(s: State, u: int) {
    exists h :: 0 <= h < |s.pcs| == |s.uids| && s.uids[h] == u && s.pcs[h] == Free
  }

  lemma LeavingIff(s: State, u: int)
    requires |s.pcs| == |s.uids|
    ensures Leaving(s, u) > 0 <==> SomeLeaving(s, u)
  {
    var ts := Tasks(s);
    if SomeLeaving(s, u) {
      var h :| 0 <= h < |s.pcs| && s.uids[h] == u && s.pcs[h] == Free;
      SumAtLeast(ts, LeavingOf(u), h);
    } else {
      SumZero(ts, LeavingOf(u));
    }
  }

  /** What the select does to the user's slots. */
  lemma TrySlotAdds(s: State, g: nat)
    requires Inv(s) && g < |s.pcs| && s.pcs[g] == TrySlot
    ensures HeldBy(s, s.uids[g]) == Leaving(s, s.uids[g])
    ensures HeldBy(Step(s, g), s.uids[g]) == HeldBy(s, s.uids[g]) + if s.slots < MAX_GLOBAL_TASKS then 1 else 0
  {
    var u := s.uids[g];
    SlotsSplit(s, u);
    assert OneOwner(s, u) && Owns(s, g, u);
    var ts, after := Tasks(s), Task(u, Step(s, g).pcs[g]);
    assert Tasks(Step(s, g)) == ts[g := after];
    SumUpdate(ts, SlotOf(u), g, after);
  }

  /** Main result: at the select, a task gives its user a second slot if and only if a slot is
      free and an earlier task of the user has not given its slot back yet. */
  lemma SecondSlotIff(s0: State, order: seq<nat>, g: nat)
    requires Init(s0) && Schedule(s0, order)
    requires g < |After(s0, order).pcs| == |After(s0, order).uids| && After(s0, order).pcs[g] == TrySlot
    ensures var s := After(s0, order); var u := s.uids[g];
      HeldBy(Step(s, g), u) > HeldBy(s, u) >= 1 <==> s.slots < MAX_GLOBAL_TASKS && SomeLeaving(s, u)
  {
    hide Step, SomeLeaving;
    InitInv(s0);
    RunKeepsInv(s0, order);
    var s := After(s0, order);
    TrySlotAdds(s, g);
    LeavingIff(s, s.uids[g]);
  }

  /** The first `m` goroutines, one after the other, each up to where its user is released
      and its slot is not. */
  function Relay(k: nat, m: nat): seq<nat>
    decreases m - k
  {
    if k >= m then [] else [k, k, k, k] + Relay(k + 1, m)
  }

  /** All but the last step of the first `k` goroutines has been taken. */
  predicate Relayed(s0: State, s: State, k: nat) {
    && s.uids == s0.uids && |s.pcs| == |s0.pcs| == |s.uids| && k <= |s.pcs|
    && (forall g | 0 <= g < |s.pcs| :: s.pcs[g] == if g < k then Free else Claim)
    && s.userTasks == {} && s.slots == k
  }

  lemma {:induction false} Append(s: State, a: seq<nat>, b: seq<nat>)
    requires Schedule(s, a) && Schedule(After(s, a), b)
    ensures Schedule(s, a + b) && After(s, a + b) == After(After(s, a), b)
    decreases |a|
  {
    if a == [] {
      assert a + b == b;
    } else {
      assert (a + b)[1..] == a[1..] + b;
      Append(Step(s, a[0]), a[1..], b);
    }
  }

  lemma First(s: State, g: nat, rest: seq<nat>)
    requires Enabled(s, g) && Schedule(Step(s, g), rest)
    ensures Schedule(s, [g] + rest) && After(s, [g] + rest) == After(Step(s, g), rest)
  {
    hide Step, Enabled;
    assert ([g] + rest)[1..] == rest;
  }

  /** Three steps of one goroutine. */
  lemma Thrice(s: State, g: nat)
    requires Enabled(s, g) && Enabled(Step(s, g), g) && Enabled(Step(Step(s, g), g), g)
    ensures Schedule(s, [g, g, g]) && After(s, [g, g, g]) == Step(Step(Step(s, g), g), g)
  {
    hide Step, Enabled;
    var s1 := Step(s, g);
    var s2 := Step(s1, g);
    First(s2, g, []);
    First(s1, g, [g]);
    First(s, g, [g, g]);
    assert [g] + [] == [g] && [g] + [g] == [g, g] && [g] + [g, g] == [g, g, g];
  }

  lemma RelayOne(s0: State, s: State, k: nat)
    requires Relayed(s0, s, k) && k < |s.pcs| && k < MAX_GLOBAL_TASKS
    ensures Schedule(s, [k, k, k, k]) && Relayed(s0, After(s, [k, k, k, k]), k + 1)
  {
    Thrice(Step(s, k), k);
    First(s, k, [k, k, k]);
    assert [k] + [k, k, k] == [k, k, k, k];
  }

  lemma {:induction false} RelayRuns(s0: State, s: State, k: nat, m: nat)
    requires Relayed(s0, s, k) && k <= m <= |s.pcs| && m <= MAX_GLOBAL_TASKS
    ensures Schedule(s, Relay(k, m)) && Relayed(s0, After(s, Relay(k, m)), m)
    decreases m - k
  {
    if k < m {
      hide Step, Enabled;
      RelayOne(s0, s, k);
      RelayRuns(s0, After(s, [k, k, k, k]), k + 1, m);
      Append(s, [k, k, k, k], Relay(k + 1, m));
    }
  }

  /** Because the user is released before the slot, one user can come to hold any number of the
      slots, all of them included: the first `m` tasks are of one user and follow each other. */
  lemma OneUserTakesSlots(s0: State, m: nat, u: int)
    requires Init(s0) && m <= |s0.uids| && m <= MAX_GLOBAL_TASKS
    requires forall g | 0 <= g < |s0.uids| :: s0.uids[g] == u <==> g < m
    ensures Schedule(s0, Relay(0, m))
    ensures var s := After(s0, Relay(0, m)); |s.pcs| == |s.uids| && HeldBy(s, u) == s.slots == m
  {
    RelayRuns(s0, s0, 0, m);
    var s := After(s0, Relay(0, m));
    SumSame(Tasks(s), SlotOf(u), s.pcs, SlotsHeld);
    InitInv(s0);
    RunKeepsInv(s0, Relay(0, m));
  }

  /** With all the slots in one user's hands, a task of any other user is turned away. */
  lemma OthersRefused(s0: State, u: int, g: nat)
    requires Init(s0) && MAX_GLOBAL_TASKS <= g < |s0.uids|
    requires forall h | 0 <= h < |s0.uids| :: s0.uids[h] == u <==> h < MAX_GLOBAL_TASKS
    ensures var order := Relay(0, MAX_GLOBAL_TASKS) + [g, g, g];
      Schedule(s0, order) && g < |After(s0, order).pcs| && After(s0, order).pcs[g] == Finished(false)
  {
    RelayRuns(s0, s0, 0, MAX_GLOBAL_TASKS);
    var s := After(s0, Relay(0, MAX_GLOBAL_TASKS));
    RefusedWhenFull(s, g);
    Append(s0, Relay(0, MAX_GLOBAL_TASKS), [g, g, g]);
  }

  lemma RefusedWhenFull(s: State, g: nat)
    requires |s.pcs| == |s.uids| && g < |s.pcs| && s.pcs[g] == Claim && s.uids[g] !in s.userTasks
    requires s.slots == MAX_GLOBAL_TASKS
    ensures Schedule(s, [g, g, g])
    ensures |After(s, [g, g, g]).pcs| == |s.pcs| && After(s, [g, g, g]).pcs[g] == Finished(false)
  {
    Thrice(s, g);
  }
}
