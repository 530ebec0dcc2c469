/** Scheduling work onto pooled threads (src/memmgr/thread.c).

    Each critical section, semaphore operation and thread creation is one step
    of one actor; the pool starts with any number of clients and threads are
    added to it as they are created. Creating a thread always succeeds. */
module WorkPool {
  import opened Basics
  import opened Counting

  type Job = int

  datatype PC =
    | Client                       // outside the library
    // _Schedule, entered with the work already queued
    | Decide(pending: int)         // enough idle threads?
    | Create                       // counted one more: create it
    | Post
    // between _XplThreadWrap and _XplThreadWrapEnd
    | Wrapped
    // __xpl_thread__
    | WorkerWait
    | WorkerPop                    // woken
    | WorkerTake(work: Option<Job>)
    | WorkerRun(job: Job)
    | WorkerDone
    // __xpl_single_thread__
    | SingleBegin(job: Job)
    | SingleRun(job: Job)
    | SingleEnd
    | Dead

  /** The shared fields, and the jobs queued and taken so far. */
  datatype Fields = Fields(queue: seq<Job>, pending: int, tokens: nat,
                           total: int, idle: int, active: int, peak: int,
                           queued: seq<Job>, taken: seq<Job>)

  datatype Pool = Pool(f: Fields, pcs: seq<PC>)

  datatype Call = Schedule(job: Job) | StartSingle(job: Job) | Wrap

  /** What a client calls next, and whether a worker that has finished had
      waited for five seconds before. */
  datatype Choice = Choice(call: Call, waitedLong: bool)

  ghost predicate Init(s: Pool) {
    && s.f == Fields([], 0, 0, 0, 0, 0, 0, [], [])
    && forall t | 0 <= t < |s.pcs| :: s.pcs[t] == Client
  }

  predicate CanRun(f: Fields, pc: PC) {
    !pc.Dead? && (pc.WorkerWait? ==> f.tokens > 0)
  }

  function Activated(f: Fields): Fields {
    f.(active := f.active + 1, peak := if f.active + 1 > f.peak then f.active + 1 else f.peak)
  }

  /** One step of one actor: the new fields, its next statement, and the thread
      it has created, if any. */
  function Local(f: Fields, pc: PC, c: Choice): (Fields, PC, Option<PC>)
    requires CanRun(f, pc)
  {
    match pc
    case Client =>
      (match c.call
       case Schedule(job) =>
         (f.(queue := f.queue + [job], queued := f.queued + [job], pending := f.pending + 1), Decide(f.pending + 1),
             None)
       case StartSingle(job) => (f, Client, Some(SingleBegin(job)))
       case Wrap => (Activated(f), Wrapped, None))
    case Decide(pending) =>
      if pending >= f.idle then (f.(total := f.total + 1, idle := f.idle + 1), Create, None) else (f, Post, None)
    case Create => (f, Post, Some(WorkerWait))
    case Post => (f.(tokens := f.tokens + 1), Client, None)
    case Wrapped => (f.(active := f.active - 1), Client, None)
    case WorkerWait => (f.(tokens := f.tokens - 1), WorkerPop, None)
    case WorkerPop =>
      if f.queue == [] then (f, WorkerTake(None), None)
      else (f.(queue := f.queue[1..], taken := f.taken + [f.queue[0]], pending := f.pending - 1),
          WorkerTake(Some(f.queue[0])), None)
    case WorkerTake(work) =>
      if work.None? then (f.(total := f.total - 1), Dead, None)
      else (Activated(f.(idle := f.idle - 1)), WorkerRun(work.value), None)
    case WorkerRun(_) => (f, WorkerDone, None)
    case WorkerDone =>
      if c.waitedLong then (f.(active := f.active - 1, total := f.total - 1), Dead, None)
      else (f.(active := f.active - 1, idle := f.idle + 1), WorkerWait, None)
    case SingleBegin(job) => (Activated(f.(total := f.total + 1)), SingleRun(job), None)
    case SingleRun(_) => (f, SingleEnd, None)
    case SingleEnd => (f.(total := f.total - 1, active := f.active - 1), Dead, None)
  }

  function Spawned(o: Option<PC>): seq<PC> {
    if o.Some? then [o.value] else []
  }

  function Exec(s: Pool, t: nat, c: Choice): Pool
    requires t < |s.pcs| && CanRun(s.f, s.pcs[t])
  {
    var (f, pc, created) := Local(s.f, s.pcs[t], c);
    Pool(f, s.pcs[t := pc] + Spawned(created))
  }

  ghost predicate StepOf(s: Pool, s': Pool, t: nat, c: Choice) {
    t < |s.pcs| && CanRun(s.f, s.pcs[t]) && s' == Exec(s, t, c)
  }

  ghost predicate Next(s: Pool, s': Pool) {
    exists t: nat, c: Choice :: StepOf(s, s', t, c)
  }

  ghost predicate IsRun(run: seq<Pool>) {
    |run| > 0 && Init(run[0]) && forall i | 0 <= i < |run| - 1 :: Next(run[i], run[i + 1])
  }

  // ----- who counts as what

  /** Has queued an item and not yet posted for it. */
  predicate OwesPost(pc: PC) { pc.Decide? || pc.Create? || pc.Post? }

  predicate Woken(pc: PC) { pc.WorkerPop? }

  /** A pooled thread that `idle` counts, the one about to be created included. */
  predicate IsIdle(pc: PC) { pc.Create? || pc.WorkerWait? || pc.WorkerPop? || pc.WorkerTake? }

  predicate IsWrapped(pc: PC) { pc.Wrapped? }

  predicate IsActive(pc: PC) { pc.WorkerRun? || pc.WorkerDone? || pc.SingleRun? || pc.SingleEnd? || pc.Wrapped? }

  predicate IsThread(pc: PC) { IsIdle(pc) || (IsActive(pc) && !IsWrapped(pc)) }

  /** A pooled thread that will wait for work again unless it retires. */
  predicate IsWorker(pc: PC) { IsIdle(pc) || pc.WorkerRun? || pc.WorkerDone? }

  predicate PcInv(pc: PC) {
    && (pc.Decide? ==> pc.pending >= 1)
    && (pc.WorkerTake? ==> pc.work.Some?)
  }

  ghost predicate Inv(s: Pool) {
    && s.f.pending == |s.f.queue|
    && |s.f.queue| == s.f.tokens + Count(s.pcs, Woken) + Count(s.pcs, OwesPost)
    && s.f.idle == Count(s.pcs, IsIdle)
    && s.f.active == Count(s.pcs, IsActive)
    && s.f.total == Count(s.pcs, IsThread)
    && s.f.total + Count(s.pcs, IsWrapped) == s.f.idle + s.f.active
    && s.f.peak >= s.f.active
    && s.f.queued == s.f.taken + s.f.queue
    && (forall t | 0 <= t < |s.pcs| :: PcInv(s.pcs[t]))
  }

  // ----- counts over one step

  lemma {:induction false} CountExec(pcs: seq<PC>, t: nat, pc: PC, created: Option<PC>, p: PC -> bool)
    requires t < |pcs|
    ensures Count(pcs[t := pc] + Spawned(created), p)
         == Count(pcs, p) - One(p(pcs[t])) + One(p(pc)) + One(created.Some? && p(created.value))
  {
    CountMove(pcs, t, pc, Spawned(created), p);
  }

  /** What one step adds to a count. */
  function Moves(p: PC -> bool, pc: PC, r: (Fields, PC, Option<PC>)): int {
    One(p(r.1)) + One(r.2.Some? && p(r.2.value)) - One(p(pc))
  }

  lemma {:induction false} LocalQueue(f: Fields, pc: PC, c: Choice)
    requires CanRun(f, pc) && PcInv(pc) && f.pending == |f.queue| && f.queued == f.taken + f.queue
    requires pc.WorkerPop? ==> f.queue != []
    ensures var r := Local(f, pc, c);
            && r.0.pending == |r.0.queue| && r.0.queued == r.0.taken + r.0.queue
            && |r.0.queue| - |f.queue| == r.0.tokens - f.tokens + Moves(Woken, pc, r) + Moves(OwesPost, pc, r)
            && PcInv(r.1) && (r.2.Some? ==> PcInv(r.2.value))
  {
    var r := Local(f, pc, c);
    match pc
    case Client =>
      if c.call.Schedule? { assert f.taken + (f.queue + [c.call.job]) == f.taken + f.queue + [c.call.job]; }
    case WorkerPop => assert f.taken + f.queue == f.taken + [f.queue[0]] + f.queue[1..];
    case _ =>
  }

  lemma {:induction false} LocalStats(f: Fields, pc: PC, c: Choice)
    requires CanRun(f, pc) && PcInv(pc) && f.peak >= f.active
    ensures var r := Local(f, pc, c);
            && r.0.idle - f.idle == Moves(IsIdle, pc, r) && r.0.active - f.active == Moves(IsActive, pc, r)
            && r.0.total - f.total == Moves(IsThread, pc, r)
            && Moves(IsThread, pc, r) + Moves(IsWrapped, pc, r) == Moves(IsIdle, pc, r) + Moves(IsActive, pc, r)
            && r.0.peak == if r.0.active > f.peak then r.0.active else f.peak
  {
  }

  lemma {:induction false} InitInv(s: Pool)
    requires Init(s)
    ensures Inv(s)
  {
    CountNone(s.pcs, Woken);
    CountNone(s.pcs, OwesPost);
    CountNone(s.pcs, IsIdle);
    CountNone(s.pcs, IsActive);
    CountNone(s.pcs, IsThread);
    CountNone(s.pcs, IsWrapped);
  }

  /** A woken worker finds work. */
  lemma {:induction false} WokenFindsWork(s: Pool, t: nat)
    requires Inv(s) && t < |s.pcs| && s.pcs[t].WorkerPop?
    ensures s.f.queue != []
  {
    CountWitness(s.pcs, t, Woken);
  }

  lemma {:induction false} StepKeepsPcs(s: Pool, t: nat, c: Choice, u: nat)
    requires Inv(s) && t < |s.pcs| && CanRun(s.f, s.pcs[t]) && u < |Exec(s, t, c).pcs|
    ensures PcInv(Exec(s, t, c).pcs[u])
  {
    if s.pcs[t].WorkerPop? { WokenFindsWork(s, t); }
    assert PcInv(s.pcs[t]);
    LocalQueue(s.f, s.pcs[t], c);
    hide Local, PcInv, CanRun;
    assert u < |s.pcs| ==> PcInv(s.pcs[u]);
  }

  lemma {:induction false} StepKeepsInv(s: Pool, t: nat, c: Choice)
    requires Inv(s) && t < |s.pcs| && CanRun(s.f, s.pcs[t])
    ensures Inv(Exec(s, t, c))
  {
    var pc := s.pcs[t];
    if pc.WorkerPop? { WokenFindsWork(s, t); }
    assert PcInv(pc);
    LocalQueue(s.f, pc, c);
    LocalStats(s.f, pc, c);
    var r := Local(s.f, pc, c);
    CountExec(s.pcs, t, r.1, r.2, Woken);
    CountExec(s.pcs, t, r.1, r.2, OwesPost);
    CountExec(s.pcs, t, r.1, r.2, IsIdle);
    CountExec(s.pcs, t, r.1, r.2, IsActive);
    CountExec(s.pcs, t, r.1, r.2, IsThread);
    CountExec(s.pcs, t, r.1, r.2, IsWrapped);
    var s' := Exec(s, t, c);
    forall u | 0 <= u < |s'.pcs| ensures PcInv(s'.pcs[u]) {
      StepKeepsPcs(s, t, c, u);
    }
    hide Local, PcInv, Woken, OwesPost, IsIdle, IsActive, IsThread, IsWrapped;
  }

  // ----- safety of every run

  /** `pending` is the length of the queue, and each queued item has a token, a
      woken worker or a post still owed; the statistics count the threads they
      are meant to count and none is negative; every woken worker has work;
      and jobs are taken in the order in which they were queued. */
  ghost predicate Safe(s: Pool) {
    && s.f.pending == |s.f.queue| == s.f.tokens + Count(s.pcs, Woken) + Count(s.pcs, OwesPost)
    && s.f.idle == Count(s.pcs, IsIdle) && s.f.active == Count(s.pcs, IsActive) && s.f.total == Count(s.pcs, IsThread)
    && s.f.total + Count(s.pcs, IsWrapped) == s.f.idle + s.f.active
    && s.f.peak >= s.f.active
    && s.f.queued == s.f.taken + s.f.queue
    && (forall t | 0 <= t < |s.pcs| && s.pcs[t].WorkerTake? :: s.pcs[t].work.Some?)
    && (forall t | 0 <= t < |s.pcs| && s.pcs[t].WorkerPop? :: s.f.queue != [])
  }

  lemma {:induction false} RunKeepsInv(run: seq<Pool>, i: nat)
    requires IsRun(run) && i < |run|
    ensures Inv(run[i])
  {
    hide Inv, Init, Exec;
    if i == 0 {
      InitInv(run[0]);
    } else {
      RunKeepsInv(run, i - 1);
      assert Next(run[i - 1], run[i - 1 + 1]);
      var t: nat, c :| StepOf(run[i - 1], run[i], t, c);
      StepKeepsInv(run[i - 1], t, c);
    }
  }

  /** Every state of every run is safe, with any number of clients and however
      many threads come and go. */
  lemma {:induction false} EveryRunIsSafe(run: seq<Pool>, i: nat)
    requires IsRun(run) && i < |run|
    ensures Safe(run[i])
  {
    RunKeepsInv(run, i);
    forall t | 0 <= t < |run[i].pcs| && run[i].pcs[t].WorkerPop? ensures run[i].f.queue != [] {
      WokenFindsWork(run[i], t);
    }
  }

  ghost predicate IsMaximum(run: seq<Pool>, i: nat)
    requires i < |run|
  {
    && (forall j | 0 <= j <= i :: run[j].f.active <= run[i].f.peak)
    && exists j :: 0 <= j <= i && run[j].f.active == run[i].f.peak
  }

  /** `peak` is the largest number of active threads there has ever been. */
  lemma {:induction false} PeakIsMaximum(run: seq<Pool>, i: nat)
    requires IsRun(run) && i < |run|
    ensures IsMaximum(run, i)
  {
    hide Inv, Exec, Init, IsMaximum;
    if i == 0 {
      MaximumStarts(run);
    } else {
      PeakIsMaximum(run, i - 1);
      RunKeepsInv(run, i - 1);
      assert Next(run[i - 1], run[i - 1 + 1]);
      var t: nat, c :| StepOf(run[i - 1], run[i], t, c);
      PeakStep(run[i - 1], t, c);
      MaximumGrows(run, i);
    }
  }

  lemma {:induction false} MaximumStarts(run: seq<Pool>)
    requires |run| > 0 && Init(run[0])
    ensures IsMaximum(run, 0)
  {
    assert run[0].f.active == run[0].f.peak;
  }

  lemma {:induction false} MaximumGrows(run: seq<Pool>, i: nat)
    requires 0 < i < |run| && IsMaximum(run, i - 1)
    requires run[i].f.peak == if run[i].f.active > run[i - 1].f.peak then run[i].f.active else run[i - 1].f.peak
    ensures IsMaximum(run, i)
  {
    var j :| 0 <= j <= i - 1 && run[j].f.active == run[i - 1].f.peak;
    var at := if run[i].f.active > run[i - 1].f.peak then i else j;
    assert run[at].f.active == run[i].f.peak;
  }

  lemma {:induction false} PeakStep(s: Pool, t: nat, c: Choice)
    requires Inv(s) && t < |s.pcs| && CanRun(s.f, s.pcs[t])
    ensures var f := Exec(s, t, c).f; f.peak == if f.active > s.f.peak then f.active else s.f.peak
  {
    assert PcInv(s.pcs[t]);
    LocalStats(s.f, s.pcs[t], c);
  }
}
