/** Admission and fan-out together: what runs at once across all tasks. */
module TaskSystem {
  import opened Counting
  import A = Admission
  import F = FanOut

  /** What a task does inside fn: one download, or the workers of a set. */
  datatype Job = Single(busy: bool) | Set(fan: F.State)

  datatype State = State(admission: A.State, jobs: seq<Job>)

  /** A step of a goroutine through tryRunTask, of its one download, or of one of its workers. */
  datatype Act = Advance(g: nat) | Toggle(g: nat) | Work(g: nat, act: F.Act)

  predicate Init(s: State) {
    && A.Init(s.admission) && |s.jobs| == |s.admission.pcs|
    && forall g | 0 <= g < |s.jobs| :: Fresh(s.jobs[g])
  }

  predicate Fresh(job: Job) {
    if job.Set? then F.Init(job.fan) else !job.busy
  }

  /** fn may end: before its workers were started, or after wg.Wait. */
  predicate MayEnd(job: Job) {
    Fresh(job) || (job.Set? && F.Joined(job.fan))
  }

  predicate Enabled(s: State, a: Act) {
    && a.g < |s.jobs| == |s.admission.pcs|
    && match a
       case Advance(g) => A.Enabled(s.admission, g) && (s.admission.pcs[g] == A.Run ==> MayEnd(s.jobs[g]))
       case Toggle(g) => s.admission.pcs[g] == A.Run && s.jobs[g].Single?
       case Work(g, act) => s.admission.pcs[g] == A.Run && s.jobs[g].Set? && F.Enabled(s.jobs[g].fan, act)
  }

  function Step(s: State, a: Act): State
    requires Enabled(s, a)
  {
    match a
    case Advance(g) => s.(admission := A.Step(s.admission, g))
    case Toggle(g) => s.(jobs := s.jobs[g := Single(!s.jobs[g].busy)])
    case Work(g, act) => s.(jobs := s.jobs[g := Set(F.Step(s.jobs[g].fan, act))])
  }

  predicate Schedule(s: State, acts: seq<Act>)
    decreases |acts|
  {
    acts == [] || (Enabled(s, acts[0]) && Schedule(Step(s, acts[0]), acts[1..]))
  }

  function After(s: State, acts: seq<Act>): State
    requires Schedule(s, acts)
    decreases |acts|
  {
    if acts == [] then s else After(Step(s, acts[0]), acts[1..])
  }

  /** Workers of one task that are downloading or converting. */
  function Active(job: Job): nat {
    match job
    case Single(busy) => if busy then 1 else 0
    case Set(fan) => Sum(fan.workers, F.Busy)
  }

  ghost predicate JobInv(pc: A.Pc, job: Job) {
    && (job.Set? ==> F.Inv(job.fan))
    && (pc != A.Run ==> MayEnd(job))
  }

  ghost predicate Inv(s: State) {
    && A.Inv(s.admission) && |s.jobs| == |s.admission.pcs|
    && forall g | 0 <= g < |s.jobs| :: JobInv(s.admission.pcs[g], s.jobs[g])
  }

  lemma StepKeepsInv(s: State, a: Act)
    requires Inv(s) && Enabled(s, a)
    ensures Inv(Step(s, a))
  {
    hide F.Inv, A.Inv, MayEnd;
    var s' := Step(s, a);
    match a {
      case Advance(g) => A.StepKeepsInv(s.admission, g);
      case Toggle(g) =>
      case Work(g, act) => F.StepKeepsInv(s.jobs[g].fan, act);
    }
    forall g | 0 <= g < |s'.jobs| ensures JobInv(s'.admission.pcs[g], s'.jobs[g]) {
      assert JobInv(s.admission.pcs[g], s.jobs[g]);
    }
  }

  lemma InitInv(s: State)
    requires Init(s)
    ensures Inv(s)
  {
    A.InitInv(s.admission);
    forall g | 0 <= g < |s.jobs| ensures JobInv(s.admission.pcs[g], s.jobs[g]) {
      if s.jobs[g].Set? { F.InitInv(s.jobs[g].fan); }
    }
  }

  lemma {:induction false} RunKeepsInv(s: State, acts: seq<Act>)
    requires Inv(s) && Schedule(s, acts)
    ensures Inv(After(s, acts))
    decreases |acts|
  {
    if acts != [] {
      StepKeepsInv(s, acts[0]);
      RunKeepsInv(Step(s, acts[0]), acts[1..]);
    }
  }

  /** A task is active on at most four stickers, and only while it holds a slot. */
  lemma ActiveBound(pc: A.Pc, job: Job)
    requires JobInv(pc, job)
    ensures Active(job) <= F.WORKERS * A.SlotsHeld(pc)
  {
    if job.Set? {
      SumBounded(job.fan.workers, F.Busy, job.fan.workers, F.HoldsSem, 1);
      if MayEnd(job) { SumZero(job.fan.workers, F.Busy); }
    }
  }

  /** Main result: over every interleaving of all tasks and workers, at most 4 * 20
      stickers are being downloaded or converted at once. */
  lemma WorkBound(s0: State, acts: seq<Act>)
    requires Init(s0) && Schedule(s0, acts)
    ensures Sum(After(s0, acts).jobs, Active) <= F.WORKERS * After(s0, acts).admission.slots
    ensures Sum(After(s0, acts).jobs, Active) <= 80
  {
    InitInv(s0);
    RunKeepsInv(s0, acts);
    var s := After(s0, acts);
    forall g | 0 <= g < |s.jobs| ensures Active(s.jobs[g]) <= F.WORKERS * A.SlotsHeld(s.admission.pcs[g]) {
      ActiveBound(s.admission.pcs[g], s.jobs[g]);
    }
    SumBounded(s.jobs, Active, s.admission.pcs, A.SlotsHeld, F.WORKERS);
  }
}
