/** The field RWMode of the lock: what it says while a writer is inside. */
module RWLockMode {
  import opened Counting
  import opened RWLock

  /** Thread t stays inside as a writer along a path. */
  ghost predicate StaysWriting(path: seq<Lock>, t: nat) {
    && |path| > 0
    && (forall i | 0 <= i < |path| :: t < |path[i].pcs| && path[i].pcs[t] == Writing)
    && (forall i | 0 <= i < |path| - 1 :: Next(path[i], path[i + 1]))
  }

  ghost predicate ModeTurnsRead(s: Lock, t: nat) {
    exists path: seq<Lock> :: StaysWriting(path, t) && path[0] == s && path[|path| - 1].f.mode == READ
  }

  predicate LateReader(s: Lock) {
    exists u :: 0 <= u < |s.pcs| && s.pcs[u] == RelSetMode
  }

  /** The run goes on with one statement of thread t, with working posts. */
  lemma {:induction false} GoOn(run: seq<Lock>, t: nat, write: bool) returns (on: seq<Lock>)
    requires IsRun(run) && Enabled(run[|run| - 1], t)
    ensures IsRun(on) && on[0] == run[0]
    ensures on[|on| - 1] == Exec(run[|run| - 1], t, Choice(write, true))
  {
    var c := Choice(write, true);
    on := run + [Exec(run[|run| - 1], t, c)];
    assert StepOf(run[|run| - 1], on[|on| - 1], t, c);
    forall i | 0 <= i < |on| - 1
      ensures Next(on[i], on[i + 1])
    {
      if i < |run| - 1 {
        assert Next(run[i], run[i + 1]);
      }
    }
  }

  /** The first reader goes in. */
  lemma {:induction false} ReaderEnters(s: Lock, t: nat) returns (run: seq<Lock>)
    requires Init(s) && t < |s.pcs|
    ensures IsRun(run) && run[0] == s
    ensures run[|run| - 1] == Lock(Fields(1, 1, 0, 1, READ), s.pcs[t := Reading])
  {
    run := GoOn([s], t, false);
    run := GoOn(run, t, false);
    run := GoOn(run, t, false);
    run := GoOn(run, t, false);
    run := GoOn(run, t, false);
    assert run[|run| - 1] == Lock(Fields(1, 0, 1, 1, s.f.mode), s.pcs[t := ReadTest]);
    run := GoOn(run, t, false);
    run := GoOn(run, t, false);
    run := GoOn(run, t, false);
    run := GoOn(run, t, false);
  }

  /** It leaves, up to its write of the mode. */
  lemma {:induction false} ReaderLeaves(run: seq<Lock>, t: nat) returns (on: seq<Lock>)
    requires IsRun(run) && t < |run[0].pcs|
    requires run[|run| - 1] == Lock(Fields(1, 1, 0, 1, READ), run[0].pcs[t := Reading])
    ensures IsRun(on) && on[0] == run[0]
    ensures on[|on| - 1] == Lock(Fields(1, 0, 1, 0, READ), run[0].pcs[t := RelSetMode])
  {
    on := GoOn(run, t, false);
    on := GoOn(on, t, false);
    on := GoOn(on, t, false);
    on := GoOn(on, t, false);
    on := GoOn(on, t, false);
  }

  /** A writer goes in meanwhile. */
  lemma {:induction false} WriterEnters(run: seq<Lock>, t: nat, u: nat) returns (on: seq<Lock>)
    requires IsRun(run) && t < |run[0].pcs| && u < |run[0].pcs| && t != u && run[0].pcs[u] == Idle
    requires run[|run| - 1] == Lock(Fields(1, 0, 1, 0, READ), run[0].pcs[t := RelSetMode])
    ensures IsRun(on) && on[0] == run[0]
    ensures on[|on| - 1] == Lock(Fields(0, 0, 0, 0, WRITE), run[0].pcs[t := RelSetMode][u := Writing])
  {
    on := GoOn(run, u, true);
    on := GoOn(on, u, true);
    on := GoOn(on, u, true);
    on := GoOn(on, u, true);
  }

  /** The field RWMode can read READ while a writer is inside: any two threads
      get there from any initial state, the one a reader that stops before its
      last write of the mode and the other a writer. */
  lemma {:induction false} ModeCanLie(s: Lock, t: nat, u: nat) returns (run: seq<Lock>)
    requires Init(s) && t < |s.pcs| && u < |s.pcs| && t != u
    ensures IsRun(run) && run[0] == s
    ensures run[|run| - 1].pcs == s.pcs[t := RelUnmutex][u := Writing] && run[|run| - 1].f.mode == READ
  {
    run := ReaderEnters(s, t);
    run := ReaderLeaves(run, t);
    run := WriterEnters(run, t, u);
    run := GoOn(run, t, false);
  }

  lemma {:induction false} LocalKeepsMode(f: Fields, pc: PC, c: Choice)
    requires CanRun(f, pc) && !InGroup(pc) && pc != WriteSetMode && pc != RelSetMode
    ensures Local(f, pc, c).0.mode == f.mode && Local(f, pc, c).1 != RelSetMode
  {
  }

  lemma {:induction false} StepKeepsMode(s: Lock, t: nat, u: nat, c: Choice)
    requires Inv(s) && t < |s.pcs| && s.pcs[t] == Writing && !LateReader(s) && Enabled(s, u)
    ensures Exec(s, u, c).f.mode == s.f.mode && !LateReader(Exec(s, u, c))
  {
    CountsHere(s.pcs, t);
    CountsHere(s.pcs, u);
    if u != t {
      CountAlone(s.pcs, t, u, HoldsToken);
    }
    LocalKeepsMode(s.f, s.pcs[u], c);
    hide Local, Inv;
  }

  /** With no reader late, the mode keeps saying WRITE as long as the writer stays. */
  lemma {:induction false} ModeHolds(path: seq<Lock>, t: nat, i: nat)
    requires StaysWriting(path, t) && Inv(path[0]) && path[0].f.mode == WRITE && !LateReader(path[0]) && i < |path|
    ensures Inv(path[i]) && path[i].f.mode == WRITE && !LateReader(path[i])
  {
    if i > 0 {
      ModeHolds(path, t, i - 1);
      assert Next(path[i - 1], path[i - 1 + 1]);
      var u: nat, c: Choice :| StepOf(path[i - 1], path[i], u, c);
      StepKeepsMode(path[i - 1], t, u, c);
      StepKeepsInv(path[i - 1], u, c);
    }
  }

  /** The mode can turn to READ under a writer exactly when a releasing reader
      is still due to write it. */
  lemma {:induction false} ModeLiesExactlyWhen(s: Lock, t: nat)
    requires Inv(s) && t < |s.pcs| && s.pcs[t] == Writing && s.f.mode == WRITE
    ensures ModeTurnsRead(s, t) <==> LateReader(s)
  {
    if LateReader(s) {
      var u :| 0 <= u < |s.pcs| && s.pcs[u] == RelSetMode;
      var s' := Exec(s, u, Choice(false, true));
      assert StepOf(s, s', u, Choice(false, true));
      var path := [s, s'];
      assert StaysWriting(path, t) && path[0] == s && path[|path| - 1].f.mode == READ;
    }
    if ModeTurnsRead(s, t) && !LateReader(s) {
      var path: seq<Lock> :| StaysWriting(path, t) && path[0] == s && path[|path| - 1].f.mode == READ;
      ModeHolds(path, t, |path| - 1);
      assert false;
    }
  }
}
