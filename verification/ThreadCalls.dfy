/** Who gets a handle: over whole runs, a caller comes to hold the handle of a
    thread exactly if its call asked for it, and each thread runs in the group
    that its call named. */
module ThreadCalls {
  import opened Basics
  import opened ThreadHandles

  /** Who moves in a step, and with what call if it is a client. */
  type Step = (nat, Call)

  ghost predicate IsRunOf(run: seq<State>, steps: seq<Step>) {
    && |run| == |steps| + 1 && Init(run[0])
    && forall i | 0 <= i < |steps| :: StepOf(run[i], run[i + 1], steps[i].0, steps[i].1)
  }

  lemma {:induction false} StepAt(run: seq<State>, steps: seq<Step>, i: nat)
    requires IsRunOf(run, steps) && 0 < i < |run|
    ensures StepOf(run[i - 1], run[i], steps[i - 1].0, steps[i - 1].1)
  {
    assert StepOf(run[i - 1], run[i - 1 + 1], steps[i - 1].0, steps[i - 1].1);
  }

  /** The call that actor t made last. */
  ghost function LastCall(run: seq<State>, steps: seq<Step>, i: nat, t: nat): Option<Call>
    requires IsRunOf(run, steps) && i < |run|
  {
    if i == 0 then None
    else
      StepAt(run, steps, i);
      if steps[i - 1].0 == t && run[i - 1].pcs[t].Client? then Some(steps[i - 1].1)
      else LastCall(run, steps, i - 1, t)
  }

  /** A caller that passes the address of a handle wants it. */
  predicate Asks(call: Call, g: nat, kind: Kind) {
    call.g == g && if call.Wrap? then kind == Wrapped else kind == if call.want then Wanted else Plain
  }

  /** What the actor is doing is what its last call asked for. */
  predicate Follows(pc: PC, call: Option<Call>) {
    match pc
    case Take(g, kind) => call.Some? && Asks(call.value, g, kind)
    case Allocate(g, kind) => call.Some? && Asks(call.value, g, kind)
    case SetUp(_, g, kind) => call.Some? && Asks(call.value, g, kind)
    case LinkGroup(_, g, kind) => call.Some? && Asks(call.value, g, kind)
    case LinkList(_, g, kind) => call.Some? && Asks(call.value, g, kind)
    case Launch(_, g, kind) => call.Some? && Asks(call.value, g, kind) && kind != Wrapped
    case Holding(_) => call.Some? && call.value.Start? && call.value.want
    case DropHeld(_) => call.Some? && call.value.Start? && call.value.want
    case Running(_, g, wrap) => wrap ==> call == Some(Wrap(g))
    case UnlinkGroup(_, g, wrap) => wrap ==> call == Some(Wrap(g))
    case UnlinkList(_, wrap) => wrap ==> call.Some? && call.value.Wrap?
    case DropMain(_, wrap) => wrap ==> call.Some? && call.value.Wrap?
    case _ => true
  }

  lemma {:induction false} LocalFollows(f: Fields, pc: PC, c: Call, call: Option<Call>)
    requires CanRun(f, pc) && Follows(pc, call)
    ensures var (_, pc', more) := Local(f, pc, c);
            && Follows(pc', if pc.Client? then Some(c) else call)
            && forall k | 0 <= k < |more| :: Follows(more[k], None)
  {
  }

  /** In every state of every run each actor does what its last call asked for. */
  lemma {:induction false} CallsAreFollowed(run: seq<State>, steps: seq<Step>, i: nat, u: nat)
    requires IsRunOf(run, steps) && i < |run| && u < |run[i].pcs|
    ensures Follows(run[i].pcs[u], LastCall(run, steps, i, u))
  {
    hide Local, Follows, CanRun;
    if i == 0 {
      IdleFollows();
    } else {
      StepAt(run, steps, i);
      var s, t, c := run[i - 1], steps[i - 1].0, steps[i - 1].1;
      if u < |s.pcs| {
        CallsAreFollowed(run, steps, i - 1, u);
      } else {
        NoCallYet(run, steps, i - 1, u);
      }
      CallsAreFollowed(run, steps, i - 1, t);
      LocalFollows(s.f, s.pcs[t], c, LastCall(run, steps, i - 1, t));
    }
  }

  lemma {:induction false} IdleFollows()
    ensures Follows(Client, None)
  {
  }

  lemma {:induction false} NoCallYet(run: seq<State>, steps: seq<Step>, i: nat, u: nat)
    requires IsRunOf(run, steps) && i < |run| && u >= |run[i].pcs|
    ensures LastCall(run, steps, i, u) == None
  {
    hide Local, CanRun;
    if i > 0 {
      StepAt(run, steps, i);
      NoCallYet(run, steps, i - 1, u);
    }
  }

  /** Starting a thread gives the caller the handle if and only if the call
      asked for it, and the thread runs with that handle in the group named. */
  lemma {:induction false} StartGivesHandleExactly(run: seq<State>, steps: seq<Step>, i: nat)
    requires IsRunOf(run, steps) && 0 < i < |run|
    requires var t := steps[i - 1].0; t < |run[i - 1].pcs| && run[i - 1].pcs[t].Launch?
    ensures var t, h := steps[i - 1].0, run[i - 1].pcs[steps[i - 1].0].h;
            var call := LastCall(run, steps, i, t);
            && call.Some? && call.value.Start?
            && |run[i].pcs| == |run[i - 1].pcs| + 1
            && run[i].pcs[t] == (if call.value.want then Holding(h) else Client)
            && run[i].pcs[|run[i].pcs| - 1] == Running(h, call.value.g, false)
  {
    StepAt(run, steps, i);
    CallsAreFollowed(run, steps, i - 1, steps[i - 1].0);
  }
}
