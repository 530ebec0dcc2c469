/** What each call does to a thread's signals, over whole runs: what is queued
    is what the call was given, and a join returns only from a thread that has
    stopped. */
module SignalCalls {
  import opened Basics
  import opened SignalSlots
  import opened SignalQueue

  /** Who moves in a step, and what the environment decides. */
  type Step = (nat, Choice)

  ghost predicate IsRunOf(run: seq<Handle>, steps: seq<Step>) {
    && |run| == |steps| + 1 && Init(run[0])
    && forall i | 0 <= i < |steps| :: StepOf(run[i], run[i + 1], steps[i].0, steps[i].1)
  }

  lemma {:induction false} StepBefore(run: seq<Handle>, steps: seq<Step>, i: nat)
    requires IsRunOf(run, steps) && 0 < i < |run|
    ensures StepOf(run[i - 1], run[i], steps[i - 1].0, steps[i - 1].1)
  {
    assert StepOf(run[i - 1], run[i - 1 + 1], steps[i - 1].0, steps[i - 1].1);
  }

  /** The call that actor t made last. */
  ghost function LastCall(run: seq<Handle>, steps: seq<Step>, i: nat, t: nat): Option<Call>
    requires IsRunOf(run, steps) && i < |run|
  {
    if i == 0 then None
    else
      StepBefore(run, steps, i);
      if steps[i - 1].0 == t && run[i - 1].pcs[t].Idle? then Some(steps[i - 1].1.call)
      else LastCall(run, steps, i - 1, t)
  }

  /** What the actor is doing is what its last call asked for. */
  predicate Follows(pc: PC, call: Option<Call>) {
    match pc
    case Idle => true
    case SigLock(signal, context) => call == Some(CallSignal(signal, context)) && signal != 0
    case SigScan(signal, context) => call == Some(CallSignal(signal, context)) && signal != 0
    case SigUnlock => call.Some? && call.value.CallSignal?
    case SigPost => call.Some? && call.value.CallSignal?
    case SigFull => call.Some? && call.value.CallSignal?
    case CatchWait => call == Some(CallCatch)
    case CatchLock => call == Some(CallCatch)
    case CatchGet => call == Some(CallCatch)
    case CatchUnlock(_) => call == Some(CallCatch)
    case _ => call == Some(CallJoin)
  }

  lemma {:induction false} LocalFollows(f: Fields, pc: PC, c: Choice, call: Option<Call>)
    requires Shape(f.slots) && CanRun(f, pc, c) && Follows(pc, call)
    ensures Follows(Local(f, pc, c).1, if pc.Idle? then Some(c.call) else call)
  {
    hide Pushed, Popped;
  }

  lemma {:induction false} CallsAreFollowed(run: seq<Handle>, steps: seq<Step>, i: nat, u: nat)
    requires IsRunOf(run, steps) && i < |run| && u < |run[i].pcs|
    ensures Follows(run[i].pcs[u], LastCall(run, steps, i, u))
  {
    hide Local, CanRun;
    if i > 0 {
      StepBefore(run, steps, i);
      CallsAreFollowed(run, steps, i - 1, u);
      var s, t, c := run[i - 1], steps[i - 1].0, steps[i - 1].1;
      if u == t {
        LocalFollows(s.f, s.pcs[t], c, LastCall(run, steps, i - 1, t));
      }
    }
  }

  // ----- what is queued

  lemma {:induction false} LocalAccepts(f: Fields, pc: PC, c: Choice)
    requires Shape(f.slots) && CanRun(f, pc, c)
    ensures Local(f, pc, c).0.accepted ==
            f.accepted + if pc.SigScan? && FirstZero(f.slots.signals) < MAX_SIGNAL_STACK
                         then [(pc.signal, pc.context)] else []
  {
    hide Pushed, Popped;
  }

  /** A step queues a signal if and only if it is the scan of a signalling call
      that finds an empty slot, and the signal and context are the call's. */
  lemma {:induction false} AcceptsTheCall(run: seq<Handle>, steps: seq<Step>, i: nat)
    requires IsRunOf(run, steps) && 0 < i < |run|
    ensures var s, t := run[i - 1], steps[i - 1].0;
            var call := LastCall(run, steps, i - 1, t);
            && t < |s.pcs| && |Queue(s.f.slots)| == FirstZero(s.f.slots.signals)
            && (s.pcs[t].SigScan? ==> call.Some? && call.value.CallSignal? && call.value.signal != 0)
            && run[i].f.accepted == s.f.accepted +
               if s.pcs[t].SigScan? && |Queue(s.f.slots)| < MAX_SIGNAL_STACK
               then [(call.value.signal, call.value.context)] else []
  {
    hide Local, CanRun;
    StepBefore(run, steps, i);
    var s, t, c := run[i - 1], steps[i - 1].0, steps[i - 1].1;
    CallsAreFollowed(run, steps, i - 1, t);
    LocalAccepts(s.f, s.pcs[t], c);
  }

  // ----- joins

  lemma {:induction false} LocalJoins(f: Fields, pc: PC, c: Choice)
    requires Shape(f.slots) && CanRun(f, pc, c)
    ensures var (f', pc') := Local(f, pc, c);
            && (pc.JoinTest? ==> pc' == if f.running then JoinUnlock else JoinLeave)
            && (pc'.JoinLeave? ==> pc.JoinTest?)
            && f'.running == (f.running && !(pc.Idle? && c.call.StopRunning?))
            && f'.joins == f.joins + (if pc.JoinTest? && !f.running then 1 else 0)
  {
    hide Pushed, Popped;
  }

  /** The thread has stopped by step i. */
  ghost predicate Stopped(run: seq<Handle>, steps: seq<Step>, i: nat) {
    exists j :: 0 <= j < i && j < |steps| && j < |run| && steps[j].0 < |run[j].pcs| && run[j].pcs[steps[j].0].Idle?
                && steps[j].1.call.StopRunning?
  }

  lemma {:induction false} RunningUntilStopped(run: seq<Handle>, steps: seq<Step>, i: nat)
    requires IsRunOf(run, steps) && i < |run|
    ensures run[i].f.running <==> !Stopped(run, steps, i)
  {
    hide Local, CanRun;
    if i > 0 {
      StepBefore(run, steps, i);
      RunningUntilStopped(run, steps, i - 1);
      LocalJoins(run[i - 1].f, run[i - 1].pcs[steps[i - 1].0], steps[i - 1].1);
    }
  }

  lemma {:induction false} LeavesStopped(run: seq<Handle>, steps: seq<Step>, i: nat, t: nat)
    requires IsRunOf(run, steps) && i < |run| && t < |run[i].pcs| && run[i].pcs[t].JoinLeave?
    ensures !run[i].f.running
  {
    hide Local, CanRun;
    if i > 0 {
      StepBefore(run, steps, i);
      LocalJoins(run[i - 1].f, run[i - 1].pcs[steps[i - 1].0], steps[i - 1].1);
      if run[i - 1].pcs[t].JoinLeave? {
        LeavesStopped(run, steps, i - 1, t);
      }
    }
  }

  /** In every state of every run: a join that is about to return has been called
      and finds the thread stopped; and a join that tests goes on to return if
      and only if the thread has stopped by then, else it gives the token back. */
  lemma {:induction false} JoinReturnsExactly(run: seq<Handle>, steps: seq<Step>, i: nat, t: nat)
    requires IsRunOf(run, steps) && i < |run| && t < |run[i].pcs|
    ensures run[i].pcs[t].JoinLeave? ==> Stopped(run, steps, i) && LastCall(run, steps, i, t) == Some(CallJoin)
    ensures i + 1 < |run| && steps[i].0 == t && run[i].pcs[t].JoinTest? ==>
              run[i + 1].pcs[t] == if Stopped(run, steps, i) then JoinLeave else JoinUnlock
  {
    hide Local, CanRun, Stopped;
    RunningUntilStopped(run, steps, i);
    CallsAreFollowed(run, steps, i, t);
    if run[i].pcs[t].JoinLeave? {
      LeavesStopped(run, steps, i, t);
    }
    if i + 1 < |run| && steps[i].0 == t {
      StepBefore(run, steps, i + 1);
      LocalJoins(run[i].f, run[i].pcs[t], steps[i].1);
    }
  }
}
