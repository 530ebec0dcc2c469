/** Every job asked for runs once: over whole runs of the pool of threads, what
    clients have asked for is what is queued, in the hands of a thread, or has
    been run. */
module WorkJobs {
  import opened Basics
  import opened Counting
  import opened WorkPool

  /** Who moves in a step, and what the environment decides. */
  type Step = (nat, Choice)

  ghost predicate IsRunOf(run: seq<Pool>, steps: seq<Step>) {
    && |run| == |steps| + 1 && Init(run[0])
    && forall i | 0 <= i < |steps| :: StepOf(run[i], run[i + 1], steps[i].0, steps[i].1)
  }

  lemma {:induction false} RunOfIsRun(run: seq<Pool>, steps: seq<Step>)
    requires IsRunOf(run, steps)
    ensures IsRun(run)
  {
    hide Init, StepOf;
    forall i | 0 <= i < |run| - 1 ensures Next(run[i], run[i + 1]) {
      assert StepOf(run[i], run[i + 1], steps[i].0, steps[i].1);
    }
  }

  // ----- what is asked for, in hand, and run

  /** The job a client schedules in a step. */
  function ScheduledBy(pc: PC, c: Choice): seq<Job> {
    if pc.Client? && c.call.Schedule? then [c.call.job] else []
  }

  /** A client starts a thread of its own for the job. */
  predicate AsksSingle(pc: PC, c: Choice, job: Job) {
    pc.Client? && c.call == StartSingle(job)
  }

  /** The thread, a pooled or a single one, calls the job in its next step. */
  predicate Runs(pc: PC, job: Job, single: bool) {
    pc == if single then SingleRun(job) else WorkerRun(job)
  }

  /** The thread has the job and has yet to run it. */
  predicate Holds(pc: PC, job: Job, single: bool) {
    if single then pc == SingleBegin(job) || pc == SingleRun(job)
    else pc == WorkerTake(Some(job)) || pc == WorkerRun(job)
  }

  function Holding(pcs: seq<PC>, job: Job, single: bool): nat {
    Count(pcs, pc => Holds(pc, job, single))
  }

  function Times(jobs: seq<Job>, job: Job): nat {
    Count(jobs, (j: Job) => j == job)
  }

  ghost function Scheduled(run: seq<Pool>, steps: seq<Step>, i: nat): seq<Job>
    requires IsRunOf(run, steps) && i < |run|
  {
    if i == 0 then []
    else
      StepAt(run, steps, i);
      Scheduled(run, steps, i - 1) + ScheduledBy(run[i - 1].pcs[steps[i - 1].0], steps[i - 1].1)
  }

  /** How often a client has started a thread of its own for the job. */
  ghost function SingleAsked(run: seq<Pool>, steps: seq<Step>, i: nat, job: Job): nat
    requires IsRunOf(run, steps) && i < |run|
  {
    if i == 0 then 0
    else
      StepAt(run, steps, i);
      SingleAsked(run, steps, i - 1, job) + One(AsksSingle(run[i - 1].pcs[steps[i - 1].0], steps[i - 1].1, job))
  }

  /** How often the job has been run. */
  ghost function TimesRun(run: seq<Pool>, steps: seq<Step>, i: nat, job: Job, single: bool): nat
    requires IsRunOf(run, steps) && i < |run|
  {
    if i == 0 then 0
    else
      StepAt(run, steps, i);
      TimesRun(run, steps, i - 1, job, single) + One(Runs(run[i - 1].pcs[steps[i - 1].0], job, single))
  }

  lemma {:induction false} StepAt(run: seq<Pool>, steps: seq<Step>, i: nat)
    requires IsRunOf(run, steps) && 0 < i < |run|
    ensures StepOf(run[i - 1], run[i], steps[i - 1].0, steps[i - 1].1)
  {
    assert StepOf(run[i - 1], run[i - 1 + 1], steps[i - 1].0, steps[i - 1].1);
  }

  // ----- one step

  lemma {:induction false} TimesConcat(a: seq<Job>, b: seq<Job>, job: Job)
    ensures Times(a + b, job) == Times(a, job) + Times(b, job)
  {
    CountConcat(a, b, (j: Job) => j == job);
  }

  lemma {:induction false} TimesOne(j: Job, job: Job)
    ensures Times([j], job) == One(j == job) && Times([], job) == 0
  {
    assert [j][1..] == [];
  }

  /** What a statement takes off the queue or is asked to start goes into the
      hands of one thread, and what it runs was in its hands. */
  lemma {:induction false} LocalJobs(f: Fields, pc: PC, c: Choice, job: Job)
    requires CanRun(f, pc)
    ensures var r := Local(f, pc, c);
            && r.0.queued == f.queued + ScheduledBy(pc, c)
            && Times(r.0.taken, job) - Times(f.taken, job)
               == One(Holds(r.1, job, false)) + One(r.2.Some? && Holds(r.2.value, job, false))
                  - One(Holds(pc, job, false)) + One(Runs(pc, job, false))
  {
    hide Times;
    if pc.WorkerPop? && f.queue != [] {
      TimesConcat(f.taken, [f.queue[0]], job);
      TimesOne(f.queue[0], job);
    }
  }

  lemma {:induction false} LocalSingles(f: Fields, pc: PC, c: Choice, job: Job)
    requires CanRun(f, pc)
    ensures var r := Local(f, pc, c);
            One(AsksSingle(pc, c, job))
            == One(Holds(r.1, job, true)) + One(r.2.Some? && Holds(r.2.value, job, true))
               - One(Holds(pc, job, true)) + One(Runs(pc, job, true))
  {
  }

  lemma {:induction false} HoldingMoves(s: Pool, t: nat, c: Choice, job: Job, single: bool)
    requires t < |s.pcs| && CanRun(s.f, s.pcs[t])
    ensures var r := Local(s.f, s.pcs[t], c);
            Holding(Exec(s, t, c).pcs, job, single)
            == Holding(s.pcs, job, single) - One(Holds(s.pcs[t], job, single)) + One(Holds(r.1, job, single))
               + One(r.2.Some? && Holds(r.2.value, job, single))
  {
    hide Local, Holds;
    var r := Local(s.f, s.pcs[t], c);
    CountExec(s.pcs, t, r.1, r.2, pc => Holds(pc, job, single));
  }

  lemma {:induction false} StepJobs(s: Pool, t: nat, c: Choice, job: Job)
    requires t < |s.pcs| && CanRun(s.f, s.pcs[t])
    ensures var s' := Exec(s, t, c);
            && s'.f.queued == s.f.queued + ScheduledBy(s.pcs[t], c)
            && Times(s'.f.taken, job) - Times(s.f.taken, job)
               == Holding(s'.pcs, job, false) - Holding(s.pcs, job, false) + One(Runs(s.pcs[t], job, false))
            && One(AsksSingle(s.pcs[t], c, job))
               == Holding(s'.pcs, job, true) - Holding(s.pcs, job, true) + One(Runs(s.pcs[t], job, true))
  {
    hide Local, Holds, Runs, AsksSingle, ScheduledBy, CanRun, Times, Holding;
    LocalJobs(s.f, s.pcs[t], c, job);
    LocalSingles(s.f, s.pcs[t], c, job);
    HoldingMoves(s, t, c, job, false);
    HoldingMoves(s, t, c, job, true);
  }

  /** Scheduling creates a pooled thread if and only if no more threads are idle
      than there were jobs queued, the new one included, when it was queued. */
  lemma {:induction false} CreatesExactly(run: seq<Pool>, steps: seq<Step>, i: nat, t: nat)
    requires IsRunOf(run, steps) && i + 1 < |run| && t == steps[i].0 && t < |run[i].pcs|
    ensures var s, s' := run[i], run[i + 1];
            && (s.pcs[t].Client? && steps[i].1.call.Schedule? ==> s'.pcs[t] == Decide(|s.f.queue| + 1))
            && (s.pcs[t].Decide? ==> s'.pcs[t] == if s.f.idle > s.pcs[t].pending then Post else Create)
            && |s'.pcs| == |s.pcs| + (if s.pcs[t].Create? || AsksSingleAny(s.pcs[t], steps[i].1) then 1 else 0)
            && (s.pcs[t].Create? ==> s'.pcs[|s.pcs|] == WorkerWait)
  {
    StepAt(run, steps, i + 1);
    RunOfIsRun(run, steps);
    RunKeepsInv(run, i);
    hide IsRun, IsRunOf, Count;
  }

  predicate AsksSingleAny(pc: PC, c: Choice) {
    pc.Client? && c.call.StartSingle?
  }

  // ----- whole runs

  lemma {:induction false} NothingHeld(pcs: seq<PC>, job: Job, single: bool)
    requires forall t | 0 <= t < |pcs| :: pcs[t] == Client
    ensures Holding(pcs, job, single) == 0
  {
    CountNone(pcs, pc => Holds(pc, job, single));
  }

  lemma {:induction false} JobsKept(run: seq<Pool>, steps: seq<Step>, i: nat, job: Job)
    requires IsRunOf(run, steps) && i < |run|
    ensures run[i].f.queued == Scheduled(run, steps, i)
    ensures Times(run[i].f.taken, job) == Holding(run[i].pcs, job, false) + TimesRun(run, steps, i, job, false)
    ensures SingleAsked(run, steps, i, job) == Holding(run[i].pcs, job, true) + TimesRun(run, steps, i, job, true)
  {
    hide Exec, Runs, AsksSingle, Holding, ScheduledBy;
    if i == 0 {
      NothingHeld(run[0].pcs, job, false);
      NothingHeld(run[0].pcs, job, true);
    } else {
      JobsKept(run, steps, i - 1, job);
      StepAt(run, steps, i);
      StepJobs(run[i - 1], steps[i - 1].0, steps[i - 1].1, job);
    }
  }

  /** In every state of every run: the jobs that clients have scheduled are, in
      this order, those that were taken and those that are queued; each job is
      queued, or with one thread that has yet to run it, or has been run, as
      often in all as it was scheduled; and each job that a client has started
      a thread of its own for is with such a thread, or has been run by one. */
  lemma {:induction false} EveryJobOnce(run: seq<Pool>, steps: seq<Step>, i: nat, job: Job)
    requires IsRunOf(run, steps) && i < |run|
    ensures Scheduled(run, steps, i) == run[i].f.taken + run[i].f.queue
    ensures Times(Scheduled(run, steps, i), job)
         == Times(run[i].f.queue, job) + Holding(run[i].pcs, job, false) + TimesRun(run, steps, i, job, false)
    ensures SingleAsked(run, steps, i, job) == Holding(run[i].pcs, job, true) + TimesRun(run, steps, i, job, true)
  {
    hide Holding, TimesRun, Scheduled, SingleAsked, Inv, IsRunOf, Times;
    RunOfIsRun(run, steps);
    EveryRunIsSafe(run, i);
    JobsKept(run, steps, i, job);
    TimesConcat(run[i].f.taken, run[i].f.queue, job);
  }
}
