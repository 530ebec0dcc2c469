/** Progress of the readers/writer lock: a run can be deadlocked exactly when
    a post whose result the source ignores has failed on it, and a writer at
    the read/write token is let in as the readers leave. */
module RWLockProgress {
  import opened Counting
  import opened RWLock

  // ----- the tokens of the gate and of the reader mutex

  /** No token is lost. */
  ghost predicate Live(s: Lock) {
    && Inv(s)
    && s.f.gate + Count(s.pcs, HoldsGate) == 1
    && s.f.mutexRead + Count(s.pcs, HoldsMutex) == 1
  }

  /** Posts of the gate and of the reader mutex: the source ignores their results. */
  predicate PostsUnchecked(pc: PC) {
    pc.ReadUngate? || pc.ReadUnmutex? || pc.RelUndo? || pc.RelUnmutex? || pc.WRelGate?
  }

  predicate GoodChoice(pc: PC, c: Choice) {
    PostsUnchecked(pc) ==> c.postOk
  }

  /** A step on which no unchecked post fails. The two checked posts may fail,
      and are rolled back. */
  ghost predicate GoodNext(s: Lock, s': Lock) {
    exists t: nat, c: Choice :: StepOf(s, s', t, c) && GoodChoice(s.pcs[t], c)
  }

  lemma {:induction false} LocalTokens(f: Fields, pc: PC, c: Choice)
    requires CanRun(f, pc)
    ensures var (f', pc') := Local(f, pc, c);
            var gate := f'.gate + Posted(HoldsGate(pc')) - f.gate - Posted(HoldsGate(pc));
            var mutex := f'.mutexRead + Posted(HoldsMutex(pc')) - f.mutexRead - Posted(HoldsMutex(pc));
            gate <= 0 && mutex <= 0 && (gate == 0 && mutex == 0 <==> GoodChoice(pc, c))
  {
  }

  /** A step loses a token exactly when an unchecked post fails. */
  lemma {:induction false} StepLosesTokenExactly(s: Lock, t: nat, c: Choice)
    requires Inv(s) && Enabled(s, t)
    ensures Live(Exec(s, t, c)) <==> Live(s) && GoodChoice(s.pcs[t], c)
  {
    StepKeepsInv(s, t, c);
    LocalTokens(s.f, s.pcs[t], c);
    CountsMove(s.pcs, t, Local(s.f, s.pcs[t], c).1);
    hide Local, HoldsGate, HoldsMutex, Inv;
  }

  ghost predicate GoodUpTo(run: seq<Lock>, i: nat) {
    i < |run| && forall j | 0 <= j < i :: GoodNext(run[j], run[j + 1])
  }

  /** All tokens are there after i steps of a run exactly when none of these
      steps was a failed unchecked post, whatever checked posts failed. */
  lemma {:induction false} LiveExactly(run: seq<Lock>, i: nat)
    requires IsRun(run) && i < |run|
    ensures Live(run[i]) <==> GoodUpTo(run, i)
  {
    RunKeepsInv(run, i);
    if i == 0 {
      CountNone(run[0].pcs, HoldsGate);
      CountNone(run[0].pcs, HoldsMutex);
    } else {
      RunKeepsInv(run, i - 1);
      LiveExactly(run, i - 1);
      assert Next(run[i - 1], run[i - 1 + 1]);
      var t: nat, c: Choice :| StepOf(run[i - 1], run[i], t, c);
      StepLosesTokenExactly(run[i - 1], t, c);
      if GoodNext(run[i - 1], run[i]) {
        var u: nat, d: Choice :| StepOf(run[i - 1], run[i], u, d) && GoodChoice(run[i - 1].pcs[u], d);
        StepLosesTokenExactly(run[i - 1], u, d);
      }
      assert GoodUpTo(run, i) <==> GoodUpTo(run, i - 1) && GoodNext(run[i - 1], run[i - 1 + 1]);
    }
  }

  // ----- deadlock

  /** Some thread is in the middle of an operation, and no thread in the middle
      of one can take a step. */
  ghost predicate Deadlocked(s: Lock) {
    && (exists t :: 0 <= t < |s.pcs| && s.pcs[t] != Idle)
    && (forall t | 0 <= t < |s.pcs| && s.pcs[t] != Idle :: !CanRun(s.f, s.pcs[t]))
  }

  /** A path on which no unchecked post fails. */
  ghost predicate GoodPath(path: seq<Lock>) {
    |path| > 0 && forall i | 0 <= i < |path| - 1 :: GoodNext(path[i], path[i + 1])
  }

  ghost predicate CanDeadlock(s: Lock) {
    exists path: seq<Lock> :: GoodPath(path) && path[0] == s && Deadlocked(path[|path| - 1])
  }

  /** When the read/write token is out, some thread can move towards giving it back. */
  lemma {:induction false} TokenHolderMoves(s: Lock) returns (u: nat)
    requires Live(s) && s.f.mutexReadWrite == 0
    ensures Enabled(s, u) && !s.pcs[u].Idle? && !s.pcs[u].ReadGate? && !s.pcs[u].WriteGate? && !s.pcs[u].WriteWait?
    ensures !s.pcs[u].ReadFirst?
  {
    if Count(s.pcs, HoldsToken) >= 1 {
      u := CountFind(s.pcs, HoldsToken);
    } else {
      u := CountFind(s.pcs, InGroup);
      if s.pcs[u] == RelMutex && s.f.mutexRead == 0 {
        var v := CountFind(s.pcs, HoldsMutex);
        if s.pcs[v] == ReadFirst {
          FirstReaderFindsNoGroup(s, v);
          assert false;
        }
        u := v;
      }
    }
  }

  lemma {:induction false} LiveIsNotDeadlocked(s: Lock, t: nat) returns (u: nat)
    requires Live(s) && t < |s.pcs| && s.pcs[t] != Idle
    ensures Enabled(s, u) && s.pcs[u] != Idle
  {
    u := t;
    if s.f.mutexReadWrite == 0 {
      u := TokenHolderMoves(s);
    } else if (s.pcs[t].ReadGate? || s.pcs[t].WriteGate?) && s.f.gate == 0 {
      u := CountFind(s.pcs, HoldsGate);
    } else if (s.pcs[t].ReadMutex? || s.pcs[t].RelMutex?) && s.f.mutexRead == 0 {
      u := CountFind(s.pcs, HoldsMutex);
    }
  }

  /** No state reached without a failed unchecked post is deadlocked: if some
      thread is in the middle of an operation, some thread in the middle of one
      can take a step. */
  lemma {:induction false} NoDeadlock(run: seq<Lock>, i: nat, t: nat) returns (u: nat)
    requires IsRun(run) && GoodUpTo(run, i) && t < |run[i].pcs| && run[i].pcs[t] != Idle
    ensures Enabled(run[i], u) && run[i].pcs[u] != Idle
  {
    LiveExactly(run, i);
    u := LiveIsNotDeadlocked(run[i], t);
  }

  lemma {:induction false} GoodPathKeepsLive(path: seq<Lock>, i: nat)
    requires GoodPath(path) && Live(path[0]) && i < |path|
    ensures Live(path[i])
  {
    if i > 0 {
      GoodPathKeepsLive(path, i - 1);
      assert GoodNext(path[i - 1], path[i - 1 + 1]);
      var t: nat, c: Choice :| StepOf(path[i - 1], path[i], t, c) && GoodChoice(path[i - 1].pcs[t], c);
      StepLosesTokenExactly(path[i - 1], t, c);
    }
  }

  /** The token of the gate, or the one of the reader mutex, is nowhere. */
  ghost predicate Lost(s: Lock, gate: bool) {
    if gate then s.f.gate + Count(s.pcs, HoldsGate) == 0 else s.f.mutexRead + Count(s.pcs, HoldsMutex) == 0
  }

  /** How far a thread can still get without the lost token, if it asks for
      the lock for reading when it is idle. */
  function Ahead(gate: bool, pc: PC): nat {
    if gate then Remaining(pc) else AheadWithoutMutex(pc)
  }

  /** Steps a thread can still take while the gate is shut. */
  function Remaining(pc: PC): nat {
    match pc
    case Idle => 1
    case RelUnmutex => 2
    case RelSetMode => 3
    case RelPost => 4
    case RelTest => 5
    case RelUnregister => 6
    case RelMutex => 7
    case Reading => 8
    case RelUndo => 9
    case RelRollback => 10
    case ReadUnmutex => 9
    case ReadSetMode => 10
    case ReadFirst => 11
    case ReadTest => 12
    case ReadRegister => 13
    case ReadMutex => 14
    case _ => 0
  }

  function AheadWithoutMutex(pc: PC): nat {
    match pc
    case Reading => 1
    case ReadUngate => 1
    case ReadGate => 2
    case Idle => 3
    case WRelGate => 4
    case WRelPost => 5
    case Writing => 6
    case WriteSetMode => 7
    case WriteWait => 8
    case WriteGate => 9
    case _ => 0
  }

  lemma {:induction false} LocalGetsAhead(f: Fields, pc: PC, gate: bool)
    requires CanRun(f, pc)
    requires if gate then f.gate == 0 && !HoldsGate(pc) else f.mutexRead == 0 && !HoldsMutex(pc)
    ensures var (f', pc') := Local(f, pc, Choice(false, true));
            && Ahead(gate, pc') < Ahead(gate, pc)
            && (if gate then f'.gate == 0 && !HoldsGate(pc') else f'.mutexRead == 0 && !HoldsMutex(pc'))
  {
  }

  lemma {:induction false} LostStep(s: Lock, t: nat, gate: bool)
    requires Inv(s) && Lost(s, gate) && Enabled(s, t)
    ensures var s' := Exec(s, t, Choice(false, true));
            Lost(s', gate) && Total(s'.pcs, pc => Ahead(gate, pc)) < Total(s.pcs, pc => Ahead(gate, pc))
  {
    var c := Choice(false, true);
    CountsHere(s.pcs, t);
    LocalGetsAhead(s.f, s.pcs[t], gate);
    CountsMove(s.pcs, t, Local(s.f, s.pcs[t], c).1);
    TotalUpdate(s.pcs, t, Local(s.f, s.pcs[t], c).1, pc => Ahead(gate, pc));
  }

  /** Without the token the threads run into their waits one by one. */
  lemma {:induction false} LostRunsDry(s: Lock, gate: bool) returns (path: seq<Lock>)
    requires Inv(s) && Lost(s, gate) && |s.pcs| > 0
    ensures GoodPath(path) && path[0] == s && Deadlocked(path[|path| - 1])
    decreases Total(s.pcs, pc => Ahead(gate, pc))
  {
    if t: nat :| Enabled(s, t) {
      var c := Choice(false, true);
      StepKeepsInv(s, t, c);
      LostStep(s, t, gate);
      var rest := LostRunsDry(Exec(s, t, c), gate);
      path := [s] + rest;
      assert StepOf(s, rest[0], t, c) && GoodChoice(s.pcs[t], c);
      forall i | 0 <= i < |path| - 1
        ensures GoodNext(path[i], path[i + 1])
      {
        if i > 0 {
          assert GoodNext(rest[i - 1], rest[i - 1 + 1]);
        }
      }
    } else {
      path := [s];
      assert !Enabled(s, 0);
      forall t | 0 <= t < |s.pcs|
        ensures !CanRun(s.f, s.pcs[t])
      {
        assert !Enabled(s, t);
      }
    }
  }

  /** The exact condition: from a state of a run, steps without a further
      failed post can end in a deadlock if and only if an unchecked post has
      failed before. */
  lemma {:induction false} DeadlockExactly(run: seq<Lock>, i: nat)
    requires IsRun(run) && i < |run| && |run[i].pcs| > 0
    ensures CanDeadlock(run[i]) <==> !GoodUpTo(run, i)
  {
    var s := run[i];
    RunKeepsInv(run, i);
    LiveExactly(run, i);
    if Live(s) && CanDeadlock(s) {
      var path: seq<Lock> :| GoodPath(path) && path[0] == s && Deadlocked(path[|path| - 1]);
      GoodPathKeepsLive(path, |path| - 1);
      var last := path[|path| - 1];
      var t :| 0 <= t < |last.pcs| && last.pcs[t] != Idle;
      var u := LiveIsNotDeadlocked(last, t);
      assert false;
    }
    if !Live(s) {
      var path := LostRunsDry(s, s.f.gate + Count(s.pcs, HoldsGate) == 0);
    }
  }

  // ----- the waiting writer

  /** A step of a thread other than t, failed posts included. */
  ghost predicate OtherNext(s: Lock, s': Lock, t: nat) {
    exists u: nat, c: Choice :: u != t && StepOf(s, s', u, c)
  }

  /** In this step the last reader fails to post the read/write token: it
      stays inside, and its caller has to release the lock again. */
  predicate LeavesInVain(s: Lock, s': Lock) {
    exists u :: 0 <= u < |s.pcs| && u < |s'.pcs| && s.pcs[u] == RelPost && s'.pcs[u] == RelRollback
  }

  lemma {:induction false} LocalDrains(f: Fields, pc: PC, c: Choice)
    requires CanRun(f, pc) && f.gate == 0 && !HoldsGate(pc)
    ensures !pc.ReadGate? && !pc.WriteGate?
    ensures var pc' := Local(f, pc, c).1;
            Remaining(pc') < Remaining(pc) + (if pc == RelPost && pc' == RelRollback then 7 else 0)
  {
  }

  /** Behind a writer that holds the gate every step of any other thread uses
      up one of finitely many remaining steps, and no thread passes the gate;
      only a last reader's failed release gives seven steps back. */
  lemma {:induction false} WaitingWriterDrainsReaders(s: Lock, t: nat, u: nat, c: Choice)
    requires Inv(s) && t < |s.pcs| && s.pcs[t] == WriteWait && u != t && Enabled(s, u)
    ensures var s' := Exec(s, u, c);
            && Total(s'.pcs, Remaining) < Total(s.pcs, Remaining) + (if LeavesInVain(s, s') then 7 else 0)
            && s'.pcs[t] == WriteWait && !s.pcs[u].ReadGate? && !s.pcs[u].WriteGate?
  {
    CountsHere(s.pcs, t);
    CountAlone(s.pcs, t, u, HoldsGate);
    LocalDrains(s.f, s.pcs[u], c);
    TotalUpdate(s.pcs, u, Local(s.f, s.pcs[u], c).1, Remaining);
    assert s.pcs[u] == RelPost && Exec(s, u, c).pcs[u] == RelRollback ==> LeavesInVain(s, Exec(s, u, c));
  }

  /** A path on which the writer t stays at its wait for the token while the
      other threads take any steps, failed posts included. */
  ghost predicate WaitingPath(path: seq<Lock>, t: nat) {
    && |path| > 0 && Inv(path[0]) && t < |path[0].pcs| && path[0].pcs[t] == WriteWait
    && forall i | 0 <= i < |path| - 1 :: OtherNext(path[i], path[i + 1], t)
  }

  /** How many of the first i steps are failed releases of a last reader. */
  ghost function Failures(path: seq<Lock>, i: nat): nat
    requires i < |path|
  {
    if i == 0 then 0 else Failures(path, i - 1) + if LeavesInVain(path[i - 1], path[i]) then 1 else 0
  }

  lemma {:induction false} WaitingPathDrains(path: seq<Lock>, t: nat, i: nat)
    requires WaitingPath(path, t) && i < |path|
    ensures Inv(path[i]) && t < |path[i].pcs| && path[i].pcs[t] == WriteWait
    ensures Total(path[i].pcs, Remaining) + i <= Total(path[0].pcs, Remaining) + 7 * Failures(path, i)
  {
    if i > 0 {
      WaitingPathDrains(path, t, i - 1);
      assert OtherNext(path[i - 1], path[i - 1 + 1], t);
      var u: nat, c: Choice :| u != t && StepOf(path[i - 1], path[i], u, c);
      WaitingWriterDrainsReaders(path[i - 1], t, u, c);
      StepKeepsInv(path[i - 1], u, c);
    }
  }

  /** A writer at the token cannot be overtaken for ever: every path on which
      it does not move is no longer than the steps the others have left and
      seven for each failed release of a last reader. */
  lemma {:induction false} WriterWaitIsBounded(path: seq<Lock>, t: nat)
    requires WaitingPath(path, t)
    ensures |path| - 1 <= Total(path[0].pcs, Remaining) + 7 * Failures(path, |path| - 1)
  {
    WaitingPathDrains(path, t, |path| - 1);
  }

  lemma {:induction false} WaitingPathGrows(s: Lock, u: nat, c: Choice, rest: seq<Lock>, t: nat)
    requires Inv(s) && t < |s.pcs| && s.pcs[t] == WriteWait && u != t
    requires WaitingPath(rest, t) && GoodPath(rest) && StepOf(s, rest[0], u, c) && GoodChoice(s.pcs[u], c)
    ensures WaitingPath([s] + rest, t) && GoodPath([s] + rest)
  {
    var path := [s] + rest;
    hide Inv, StepOf, GoodChoice;
    assert OtherNext(s, rest[0], t);
    assert GoodNext(s, rest[0]);
    forall i | 0 <= i < |path| - 1
      ensures OtherNext(path[i], path[i + 1], t) && GoodNext(path[i], path[i + 1])
    {
      if i > 0 {
        assert OtherNext(rest[i - 1], rest[i - 1 + 1], t) && GoodNext(rest[i - 1], rest[i - 1 + 1]);
      }
    }
  }

  lemma {:induction false} WriterIsLetIn(s: Lock, t: nat) returns (path: seq<Lock>)
    requires Live(s) && t < |s.pcs| && s.pcs[t] == WriteWait
    ensures WaitingPath(path, t) && GoodPath(path) && path[0] == s
    ensures Enabled(path[|path| - 1], t)
    decreases Total(s.pcs, Remaining)
  {
    path := [s];
    if s.f.mutexReadWrite == 0 {
      var u := TokenHolderMoves(s);
      var c := Choice(false, true);
      StepLosesTokenExactly(s, u, c);
      WaitingWriterDrainsReaders(s, t, u, c);
      assert !LeavesInVain(s, Exec(s, u, c));
      var rest := WriterIsLetIn(Exec(s, u, c), t);
      WaitingPathGrows(s, u, c, rest, t);
      path := [s] + rest;
    }
  }

  /** And there is always a path that lets it in: from any state reached
      without a failed unchecked post the readers inside can leave. */
  lemma {:induction false} WriterGetsIn(run: seq<Lock>, i: nat, t: nat) returns (path: seq<Lock>)
    requires IsRun(run) && GoodUpTo(run, i) && t < |run[i].pcs| && run[i].pcs[t] == WriteWait
    ensures WaitingPath(path, t) && GoodPath(path) && path[0] == run[i]
    ensures Enabled(path[|path| - 1], t)
  {
    LiveExactly(run, i);
    path := WriterIsLetIn(run[i], t);
  }
}
