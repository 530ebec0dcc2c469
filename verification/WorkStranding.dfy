/** Can an item that is queued be left with no thread to take it? It can: a
    worker that has waited for five seconds leaves after its next item, and
    nothing stops it if the queue is not empty then. */
module WorkStranding {
  import opened Basics
  import opened Counting
  import opened WorkPool

  predicate IsPost(pc: PC) { pc.Post? }

  /** An item is queued, every scheduler has returned, and there is no pooled
      thread to take it, nor one about to be created. */
  ghost predicate Stranded(s: Pool) {
    s.f.queue != [] && Count(s.pcs, OwesPost) == 0 && Count(s.pcs, IsWorker) == 0
  }

  /** The token of an item is posted, or about to be, and there is no pooled
      thread to take it. */
  ghost predicate Unattended(s: Pool) {
    Count(s.pcs, IsWorker) == 0 && s.f.tokens + Count(s.pcs, IsPost) > 0
  }

  /** Worker t retires. */
  predicate Retires(s: Pool, s': Pool, t: nat) {
    t < |s.pcs| && t < |s'.pcs| && s.pcs[t].WorkerDone? && s'.pcs[t].Dead?
  }

  ghost predicate SomeRetires(s: Pool, s': Pool) {
    exists t: nat :: Retires(s, s', t)
  }

  /** The last pooled thread retires although a token is posted or about to be. */
  ghost predicate LastWorkerLeaves(s: Pool, s': Pool) {
    SomeRetires(s, s') && Count(s.pcs, IsWorker) == 1 && s.f.tokens + Count(s.pcs, IsPost) > 0
  }

  // ----- one step

  lemma {:induction false} IdleIsWorker(pcs: seq<PC>)
    ensures Count(pcs, IsIdle) <= Count(pcs, IsWorker)
    ensures Count(pcs, Woken) <= Count(pcs, IsWorker)
    ensures Count(pcs, IsPost) <= Count(pcs, OwesPost)
  {
    if pcs != [] { IdleIsWorker(pcs[1..]); }
  }

  /** How the counts move in one step of actor t. */
  lemma {:induction false} StepCounts(s: Pool, t: nat, c: Choice)
    requires t < |s.pcs| && CanRun(s.f, s.pcs[t])
    ensures var s', pc := Exec(s, t, c), s.pcs[t];
            var r := Local(s.f, pc, c);
            && Count(s'.pcs, IsWorker) == Count(s.pcs, IsWorker) + Moves(IsWorker, pc, r)
            && Count(s'.pcs, IsPost) == Count(s.pcs, IsPost) + Moves(IsPost, pc, r)
    ensures IsWorker(s.pcs[t]) ==> Count(s.pcs, IsWorker) >= 1
    ensures IsPost(s.pcs[t]) ==> Count(s.pcs, IsPost) >= 1
  {
    var pc := s.pcs[t];
    var r := Local(s.f, pc, c);
    CountExec(s.pcs, t, r.1, r.2, IsWorker);
    CountExec(s.pcs, t, r.1, r.2, IsPost);
    if IsWorker(pc) { CountWitness(s.pcs, t, IsWorker); }
    if IsPost(pc) { CountWitness(s.pcs, t, IsPost); }
  }

  /** Only the actor that moves can retire. */
  lemma {:induction false} WhoRetires(s: Pool, t: nat, c: Choice)
    requires t < |s.pcs| && CanRun(s.f, s.pcs[t])
    ensures SomeRetires(s, Exec(s, t, c)) <==> s.pcs[t].WorkerDone? && c.waitedLong
  {
    var s' := Exec(s, t, c);
    if s.pcs[t].WorkerDone? && c.waitedLong {
      assert Retires(s, s', t);
    }
    if SomeRetires(s, s') {
      var u: nat :| Retires(s, s', u);
      assert u == t;
    }
  }

  /** Exactly the step in which the last pooled thread leaves a token behind
      makes an attended pool unattended: a scheduler that creates no thread has
      seen more idle ones than there are items. */
  lemma {:induction false} BecomesUnattendedExactly(s: Pool, t: nat, c: Choice)
    requires Inv(s) && t < |s.pcs| && CanRun(s.f, s.pcs[t]) && !Unattended(s)
    ensures Unattended(Exec(s, t, c)) <==> LastWorkerLeaves(s, Exec(s, t, c))
  {
    assert PcInv(s.pcs[t]);
    StepCounts(s, t, c);
    WhoRetires(s, t, c);
    IdleIsWorker(s.pcs);
    hide SomeRetires, Count;
  }

  /** And it stays so until a thread is created. */
  lemma {:induction false} StaysUnattended(s: Pool, t: nat, c: Choice)
    requires Inv(s) && t < |s.pcs| && CanRun(s.f, s.pcs[t]) && Unattended(s) && Count(Exec(s, t, c).pcs, IsWorker) == 0
    ensures Unattended(Exec(s, t, c))
  {
    StepCounts(s, t, c);
  }

  // ----- whole runs

  lemma {:induction false} LeftStep(run: seq<Pool>, i: nat)
    requires 0 < i < |run|
    ensures LastWorkerHasLeft(run, i) <==>
            && Count(run[i].pcs, IsWorker) == 0
            && (LastWorkerLeaves(run[i - 1], run[i]) || LastWorkerHasLeft(run, i - 1))
  {
    hide LastWorkerLeaves, Count;
    if LastWorkerHasLeft(run, i) {
      var j: nat :| LeftSince(run, j, i);
      if j < i - 1 { assert LeftSince(run, j, i - 1); }
    }
    if Count(run[i].pcs, IsWorker) == 0 {
      if LastWorkerLeaves(run[i - 1], run[i]) {
        assert run[i - 1 + 1] == run[i];
        assert LeftSince(run, i - 1, i);
      }
      if LastWorkerHasLeft(run, i - 1) {
        var j: nat :| LeftSince(run, j, i - 1);
        assert LeftSince(run, j, i);
      }
    }
  }

  /** At step j the last worker left, and none has been there since. */
  ghost predicate LeftSince(run: seq<Pool>, j: nat, i: nat) {
    && j < i < |run| && LastWorkerLeaves(run[j], run[j + 1])
    && forall k | j < k <= i :: Count(run[k].pcs, IsWorker) == 0
  }

  ghost predicate LastWorkerHasLeft(run: seq<Pool>, i: nat) {
    exists j: nat :: LeftSince(run, j, i)
  }

  lemma {:induction false} LastStep(run: seq<Pool>, i: nat) returns (t: nat, c: Choice)
    requires IsRun(run) && 0 < i < |run|
    ensures StepOf(run[i - 1], run[i], t, c)
  {
    assert Next(run[i - 1], run[i - 1 + 1]);
    t, c :| StepOf(run[i - 1], run[i], t, c);
  }

  lemma {:induction false} UnattendedExactly(run: seq<Pool>, i: nat)
    requires IsRun(run) && i < |run|
    ensures Unattended(run[i]) <==> LastWorkerHasLeft(run, i)
  {
    if i == 0 {
      CountNone(run[0].pcs, IsPost);
    } else {
      UnattendedStep(run, i);
      UnattendedExactly(run, i - 1);
      LeftStep(run, i);
    }
  }

  lemma {:induction false} UnattendedStep(run: seq<Pool>, i: nat)
    requires IsRun(run) && 0 < i < |run|
    ensures Unattended(run[i]) <==>
            && Count(run[i].pcs, IsWorker) == 0
            && (LastWorkerLeaves(run[i - 1], run[i]) || Unattended(run[i - 1]))
  {
    hide Inv, Exec, LastWorkerLeaves, IsRun, Count;
    RunKeepsInv(run, i - 1);
    var t, c := LastStep(run, i);
    if !Unattended(run[i - 1]) {
      BecomesUnattendedExactly(run[i - 1], t, c);
    } else if Count(run[i].pcs, IsWorker) == 0 {
      StaysUnattended(run[i - 1], t, c);
    }
  }

  /** In every state of every run in which all schedulers have returned: an item
      is stranded if and only if the last pooled thread once retired although a
      token was posted or about to be, and none has been there since. */
  lemma {:induction false} StrandedExactly(run: seq<Pool>, i: nat)
    requires IsRun(run) && i < |run| && Count(run[i].pcs, OwesPost) == 0
    ensures Stranded(run[i]) <==> LastWorkerHasLeft(run, i)
  {
    RunKeepsInv(run, i);
    UnattendedExactly(run, i);
    IdleIsWorker(run[i].pcs);
  }

  /** A worker retires although an item is queued. */
  ghost predicate RetiresFromWork(s: Pool, s': Pool) {
    SomeRetires(s, s') && s.f.queue != []
  }

  lemma {:induction false} LeavingIsFromWork(s: Pool, s': Pool)
    requires Inv(s)
    ensures LastWorkerLeaves(s, s') ==> RetiresFromWork(s, s')
  {
    IdleIsWorker(s.pcs);
  }

  /** So a run in which every worker that retires leaves an empty queue never
      strands an item. */
  lemma {:induction false} NeverStrandedByIdleRetiring(run: seq<Pool>, i: nat)
    requires IsRun(run) && i < |run| && forall j | 0 <= j < i :: !RetiresFromWork(run[j], run[j + 1])
    ensures !Unattended(run[i]) && !Stranded(run[i])
  {
    UnattendedExactly(run, i);
    RunKeepsInv(run, i);
    IdleIsWorker(run[i].pcs);
    forall j: nat ensures !LeftSince(run, j, i) {
      if j < i {
        RunKeepsInv(run, j);
        LeavingIsFromWork(run[j], run[j + 1]);
      }
    }
  }

  /** And in it, while an item is queued that has been posted for, some worker
      can take its next step: it is woken, can be woken, or is at work. */
  lemma {:induction false} SomeWorkerCanMove(run: seq<Pool>, i: nat) returns (u: nat)
    requires IsRun(run) && i < |run| && forall j | 0 <= j < i :: !RetiresFromWork(run[j], run[j + 1])
    requires |run[i].f.queue| > Count(run[i].pcs, OwesPost)
    ensures u < |run[i].pcs| && IsWorker(run[i].pcs[u]) && CanRun(run[i].f, run[i].pcs[u])
  {
    var s := run[i];
    RunKeepsInv(run, i);
    NeverStrandedByIdleRetiring(run, i);
    if Count(s.pcs, Woken) >= 1 {
      u := CountFind(s.pcs, Woken);
    } else {
      u := CountFind(s.pcs, IsWorker);
    }
  }

  // ----- a run that strands an item

  lemma {:induction false} StepTo(s: Pool, s': Pool, t: nat, c: Choice)
    requires t < |s.pcs| && CanRun(s.f, s.pcs[t])
    requires var e := Exec(s, t, c);
             && s'.pcs == e.pcs && s'.f.queue == e.f.queue && s'.f.queued == e.f.queued && s'.f.taken == e.f.taken
             && s'.f.(queue := [], queued := [], taken := []) == e.f.(queue := [], queued := [], taken := [])
    ensures Next(s, s')
  {
    assert s' == Exec(s, t, c);
    assert StepOf(s, s', t, c);
  }

  lemma {:induction false} PopTo(s: Pool, s': Pool, t: nat, job: Job)
    requires t < |s.pcs| && s.pcs[t].WorkerPop? && s.f.queue == [job] + s'.f.queue && s'.f.taken == s.f.taken + [job]
    requires s'.f == s.f.(queue := s'.f.queue, taken := s'.f.taken, pending := s.f.pending - 1)
    requires s'.pcs == s.pcs[t := WorkerTake(Some(job))]
    ensures Next(s, s')
  {
    assert s.f.queue[1..] == s'.f.queue;
    StepTo(s, s', t, Choice(Wrap, false));
  }

  /** Running on by some steps. */
  ghost predicate Leads(path: seq<Pool>) {
    |path| > 0 && forall i | 0 <= i < |path| - 1 :: Next(path[i], path[i + 1])
  }

  lemma {:induction false} RunOn(run: seq<Pool>, path: seq<Pool>)
    requires IsRun(run) && Leads(path) && run[|run| - 1] == path[0]
    ensures IsRun(run + path[1..]) && (run + path[1..])[|run| + |path| - 2] == path[|path| - 1]
  {
    var more := run + path[1..];
    forall i | 0 <= i < |more| - 1 ensures Next(more[i], more[i + 1]) {
      if i >= |run| - 1 {
        assert more[i] == path[i - |run| + 1] && more[i + 1] == path[i - |run| + 2];
      }
    }
  }

  const AT_START: Pool := Pool(Fields([], 0, 0, 0, 0, 0, 0, [], []), [Client])
  const ONE_WAITING: Pool := Pool(Fields([1], 1, 1, 1, 1, 0, 0, [1], []), [Client, WorkerWait])
  const TWO_WAITING: Pool := Pool(Fields([1, 2], 2, 2, 2, 2, 0, 0, [1, 2], []), [Client, WorkerWait, WorkerWait])
  const TWO_TAKEN: Pool := Pool(Fields([], 0, 0, 2, 2, 0, 0, [1, 2], [1, 2]),
      [Client, WorkerTake(Some(1)), WorkerTake(Some(2))])
  const THIRD_QUEUED: Pool := Pool(Fields([3], 1, 1, 2, 2, 0, 0, [1, 2, 3], [1, 2]),
      [Client, WorkerTake(Some(1)), WorkerTake(Some(2))])
  const LEFT_BEHIND: Pool := Pool(Fields([3], 1, 1, 0, 0, 0, 1, [1, 2, 3], [1, 2]), [Client, Dead, Dead])

  /** From here one item is queued and one worker is waiting. */
  lemma {:induction false} OneScheduled() returns (path: seq<Pool>)
    ensures Leads(path) && path[0] == AT_START && path[|path| - 1] == ONE_WAITING
  {
    var s1 := Pool(Fields([1], 1, 0, 0, 0, 0, 0, [1], []), [Decide(1)]);
    var s2 := Pool(Fields([1], 1, 0, 1, 1, 0, 0, [1], []), [Create]);
    var s3 := Pool(Fields([1], 1, 0, 1, 1, 0, 0, [1], []), [Post, WorkerWait]);
    StepTo(AT_START, s1, 0, Choice(Schedule(1), false));
    StepTo(s1, s2, 0, Choice(Wrap, false));
    StepTo(s2, s3, 0, Choice(Wrap, false));
    StepTo(s3, ONE_WAITING, 0, Choice(Wrap, false));
    hide Next;
    path := [AT_START, s1, s2, s3, ONE_WAITING];
  }

  /** From here a second item is queued and a second worker is waiting. */
  lemma {:induction false} SecondScheduled() returns (path: seq<Pool>)
    ensures Leads(path) && path[0] == ONE_WAITING && path[|path| - 1] == TWO_WAITING
  {
    var s5 := Pool(Fields([1, 2], 2, 1, 1, 1, 0, 0, [1, 2], []), [Decide(2), WorkerWait]);
    var s6 := Pool(Fields([1, 2], 2, 1, 2, 2, 0, 0, [1, 2], []), [Create, WorkerWait]);
    var s7 := Pool(Fields([1, 2], 2, 1, 2, 2, 0, 0, [1, 2], []), [Post, WorkerWait, WorkerWait]);
    StepTo(ONE_WAITING, s5, 0, Choice(Schedule(2), false));
    StepTo(s5, s6, 0, Choice(Wrap, false));
    StepTo(s6, s7, 0, Choice(Wrap, false));
    StepTo(s7, TWO_WAITING, 0, Choice(Wrap, false));
    hide Next;
    path := [ONE_WAITING, s5, s6, s7, TWO_WAITING];
  }

  /** From here both items are taken, and both workers still count as idle. */
  lemma {:induction false} BothTaken() returns (path: seq<Pool>)
    ensures Leads(path) && path[0] == TWO_WAITING && path[|path| - 1] == TWO_TAKEN
  {
    var s9 := Pool(Fields([1, 2], 2, 1, 2, 2, 0, 0, [1, 2], []), [Client, WorkerPop, WorkerWait]);
    var s10 := Pool(Fields([2], 1, 1, 2, 2, 0, 0, [1, 2], [1]), [Client, WorkerTake(Some(1)), WorkerWait]);
    var s11 := Pool(Fields([2], 1, 0, 2, 2, 0, 0, [1, 2], [1]), [Client, WorkerTake(Some(1)), WorkerPop]);
    StepTo(TWO_WAITING, s9, 1, Choice(Wrap, false));
    PopTo(s9, s10, 1, 1);
    StepTo(s10, s11, 2, Choice(Wrap, false));
    PopTo(s11, TWO_TAKEN, 2, 2);
    hide Next;
    path := [TWO_WAITING, s9, s10, s11, TWO_TAKEN];
  }

  /** From here a third item is queued, and no worker is created for it. */
  lemma {:induction false} ThirdScheduled() returns (path: seq<Pool>)
    ensures Leads(path) && path[0] == TWO_TAKEN && path[|path| - 1] == THIRD_QUEUED
  {
    var s13 := Pool(Fields([3], 1, 0, 2, 2, 0, 0, [1, 2, 3], [1, 2]),
        [Decide(1), WorkerTake(Some(1)), WorkerTake(Some(2))]);
    var s14 := Pool(Fields([3], 1, 0, 2, 2, 0, 0, [1, 2, 3], [1, 2]), [Post, WorkerTake(Some(1)), WorkerTake(Some(2))]);
    StepTo(TWO_TAKEN, s13, 0, Choice(Schedule(3), false));
    StepTo(s13, s14, 0, Choice(Wrap, false));
    StepTo(s14, THIRD_QUEUED, 0, Choice(Wrap, false));
    hide Next;
    path := [TWO_TAKEN, s13, s14, THIRD_QUEUED];
  }

  /** From here both workers run their items and retire. */
  lemma {:induction false} BothRetired() returns (path: seq<Pool>)
    ensures Leads(path) && path[0] == THIRD_QUEUED && path[|path| - 1] == LEFT_BEHIND
  {
    var s16 := Pool(Fields([3], 1, 1, 2, 1, 1, 1, [1, 2, 3], [1, 2]), [Client, WorkerRun(1), WorkerTake(Some(2))]);
    var s17 := Pool(Fields([3], 1, 1, 2, 1, 1, 1, [1, 2, 3], [1, 2]), [Client, WorkerDone, WorkerTake(Some(2))]);
    var s18 := Pool(Fields([3], 1, 1, 1, 1, 0, 1, [1, 2, 3], [1, 2]), [Client, Dead, WorkerTake(Some(2))]);
    var s19 := Pool(Fields([3], 1, 1, 1, 0, 1, 1, [1, 2, 3], [1, 2]), [Client, Dead, WorkerRun(2)]);
    var s20 := Pool(Fields([3], 1, 1, 1, 0, 1, 1, [1, 2, 3], [1, 2]), [Client, Dead, WorkerDone]);
    StepTo(THIRD_QUEUED, s16, 1, Choice(Wrap, false));
    StepTo(s16, s17, 1, Choice(Wrap, false));
    StepTo(s17, s18, 1, Choice(Wrap, true));
    StepTo(s18, s19, 2, Choice(Wrap, false));
    StepTo(s19, s20, 2, Choice(Wrap, false));
    StepTo(s20, LEFT_BEHIND, 2, Choice(Wrap, true));
    hide Next;
    path := [THIRD_QUEUED, s16, s17, s18, s19, s20, LEFT_BEHIND];
  }

  /** A run that leaves an item behind. Two workers have popped their items but
      still count as idle, so the scheduler of the third item creates none;
      then both find that they had waited long, and leave. The item is queued
      with a token posted, `idle` and `total` are zero, and no one comes. */
  lemma {:induction false} StrandingRun() returns (run: seq<Pool>)
    ensures IsRun(run) && Stranded(run[|run| - 1])
    ensures run[|run| - 1].f.tokens == 1 && run[|run| - 1].f.total == 0
  {
    var path := OneScheduled();
    run := [AT_START];
    assert Init(AT_START);
    hide Leads, IsRun;
    assert IsRun(run) by { StartIsRun(AT_START); }
    RunOn(run, path);
    run := run + path[1..];
    path := SecondScheduled();
    RunOn(run, path);
    run := run + path[1..];
    path := BothTaken();
    RunOn(run, path);
    run := run + path[1..];
    path := ThirdScheduled();
    RunOn(run, path);
    run := run + path[1..];
    path := BothRetired();
    RunOn(run, path);
    run := run + path[1..];
    assert run[|run| - 1] == LEFT_BEHIND;
    LeftBehindIsStranded();
  }

  lemma {:induction false} StartIsRun(s: Pool)
    requires Init(s)
    ensures IsRun([s])
  {
  }

  lemma {:induction false} LeftBehindIsStranded()
    ensures Stranded(LEFT_BEHIND)
  {
    CountNone(LEFT_BEHIND.pcs, OwesPost);
    CountNone(LEFT_BEHIND.pcs, IsWorker);
  }
}
