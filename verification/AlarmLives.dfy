/** The life of one alarm over whole runs: how it comes into the list, what it
    keeps, and the only ways in which it leaves. */
module AlarmLives {
  import opened Basics
  import opened Alarms
  import opened AlarmRuns

  /** A run with the operation of each step. */
  ghost predicate IsRunOf(run: seq<State>, ops: seq<Op>) {
    && |run| == |ops| + 1 && Init(run[0])
    && forall i | 0 <= i < |ops| :: StepOf(run[i], run[i + 1], ops[i])
  }

  lemma {:induction false} RunOfIsRun(run: seq<State>, ops: seq<Op>)
    requires IsRunOf(run, ops)
    ensures IsRun(run)
  {
    hide Init, Exec, Enabled;
    forall i | 0 <= i < |run| - 1 ensures Next(run[i], run[i + 1]) {
      assert StepOf(run[i], run[i + 1], ops[i]);
    }
  }

  // ----- removal

  ghost predicate GoesBefore(alarms: seq<Alarm>, a: Alarm, b: Alarm) {
    exists p, q :: 0 <= p < q < |alarms| && alarms[p] == a && alarms[q] == b
  }

  /** What is left stands in the order it stood in. */
  ghost predicate InOrder(after: seq<Alarm>, before: seq<Alarm>) {
    forall i, j | 0 <= i < j < |after| :: GoesBefore(before, after[i], after[j])
  }

  lemma {:induction false} OrderGrows(after: seq<Alarm>, before: seq<Alarm>, a: Alarm)
    requires InOrder(after, before) && forall b | b in after :: b in before
    ensures InOrder(after, [a] + before) && InOrder([a] + after, [a] + before)
  {
    forall i, j | 0 <= i < j < |after| ensures GoesBefore([a] + before, after[i], after[j]) {
      assert GoesBefore(before, after[i], after[j]);
      var p, q :| 0 <= p < q < |before| && before[p] == after[i] && before[q] == after[j];
      assert ([a] + before)[p + 1] == after[i] && ([a] + before)[q + 1] == after[j];
    }
    forall i, j | 0 <= i < j < |[a] + after| ensures GoesBefore([a] + before, ([a] + after)[i], ([a] + after)[j]) {
      if i > 0 {
        assert GoesBefore([a] + before, after[i - 1], after[j - 1]);
      } else {
        assert after[j - 1] in before;
        var q :| 0 <= q < |before| && before[q] == after[j - 1];
        assert ([a] + before)[q + 1] == after[j - 1] && ([a] + before)[0] == a;
      }
    }
  }

  lemma {:induction false} WithoutHandleExactly(alarms: seq<Alarm>, handle: nat)
    ensures forall a :: a in WithoutHandle(alarms, handle) <==> a in alarms && a.handle != handle
    ensures InOrder(WithoutHandle(alarms, handle), alarms)
  {
    hide GoesBefore;
    if alarms != [] {
      WithoutHandleExactly(alarms[1..], handle);
      OrderGrows(WithoutHandle(alarms[1..], handle), alarms[1..], alarms[0]);
      assert [alarms[0]] + alarms[1..] == alarms;
    }
  }

  lemma {:induction false} WithoutExactly(alarms: seq<Alarm>, id: nat)
    requires UniqueIds(alarms)
    ensures forall a :: a in Without(alarms, id) <==> a in alarms && a.id != id
    ensures InOrder(Without(alarms, id), alarms)
  {
    hide GoesBefore;
    if alarms != [] {
      var rest := alarms[1..];
      assert [alarms[0]] + rest == alarms;
      if alarms[0].id == id {
        forall a | a in rest ensures a.id != id {
          var k :| 0 <= k < |rest| && rest[k] == a;
          assert alarms[k + 1] == a;
        }
        SameOrder(rest);
        OrderGrows(rest, rest, alarms[0]);
      } else {
        WithoutExactly(rest, id);
        OrderGrows(Without(rest, id), rest, alarms[0]);
      }
    }
  }

  lemma {:induction false} SameOrder(alarms: seq<Alarm>)
    ensures InOrder(alarms, alarms)
  {
  }

  lemma {:induction false} DropExactly(handles: seq<nat>, handle: nat)
    requires handle in handles
    ensures multiset(Drop(handles, handle)) == multiset(handles) - multiset{handle}
  {
    assert handles == [handles[0]] + handles[1..];
    if handles[0] != handle {
      DropExactly(handles[1..], handle);
    }
  }

  /** Shutting down a handle closes it and takes its alarms away. While another
      handle stays open all other alarms stay, in their order, and the signal
      stays armed; with the last handle everything goes. */
  lemma {:induction false} ShutdownKeepsOthers(s: State, handle: nat, at: int)
    requires Enabled(s, Shutdown(handle, at))
    ensures var s' := Exec(s, Shutdown(handle, at));
            && multiset(s'.handles) == multiset(s.handles) - multiset{handle}
            && (if s'.handles != [] then
                  && (forall a :: a in s'.alarms <==> a in s.alarms && a.handle != handle)
                  && InOrder(s'.alarms, s.alarms) && s'.armed == s.armed
                else s'.alarms == [] && s'.armed == None)
            && s'.log == s.log && s'.nextId == s.nextId
  {
    DropExactly(s.handles, handle);
    WithoutHandleExactly(s.alarms, handle);
  }

  /** Destroying an alarm takes it, and no other, away. */
  lemma {:induction false} DestroyKeepsOthers(s: State, id: nat, at: int)
    requires UniqueIds(s.alarms)
    ensures var s' := Exec(s, Destroy(id, at));
            && (forall a :: a in s'.alarms <==> a in s.alarms && a.id != id)
            && InOrder(s'.alarms, s.alarms) && s'.handles == s.handles && s'.log == s.log && s'.nextId == s.nextId
  {
    WithoutExactly(s.alarms, id);
  }

  // ----- how an alarm leaves

  predicate HasId(alarms: seq<Alarm>, id: nat) {
    exists k :: 0 <= k < |alarms| && alarms[k].id == id
  }

  /** The operation ends the life of alarm a: it fires as a one-shot, it is
      destroyed, its handle is shut down, or the last handle is. */
  predicate Ends(s: State, op: Op, a: Alarm) {
    match op
    case Tick(at, _) => s.handles != [] && a.last + a.delay <= at + 1 && a.repeat == 0
    case Destroy(id, _) => id == a.id
    case Shutdown(handle, _) => handle == a.handle || |s.handles| == 1
    case _ => false
  }

  lemma {:induction false} TickEnds(alarms: seq<Alarm>, now: int, a: Alarm)
    requires UniqueIds(alarms) && a in alarms
    ensures HasId(Remaining(alarms, now), a.id) <==> !(Due(a, now) && a.repeat == 0)
  {
    var left := Remaining(alarms, now);
    if k :| 0 <= k < |left| && left[k].id == a.id {
      var i := LeftFrom(alarms, now, left[k]);
      assert alarms[i] == a;
    }
    if !(Due(a, now) && a.repeat == 0) {
      var b := Kept(a, now)[0];
      var i :| 0 <= i < |alarms| && alarms[i] == a;
      assert b in Kept(alarms[i], now);
      RemainsExactly(alarms, now, b);
    }
  }

  lemma {:induction false} SameIdSameAlarm(alarms: seq<Alarm>, after: seq<Alarm>, a: Alarm)
    requires UniqueIds(alarms) && a in alarms && forall b | b in after :: b in alarms
    ensures HasId(after, a.id) <==> a in after
  {
    if k :| 0 <= k < |after| && after[k].id == a.id {
      assert after[k] in alarms;
    }
  }

  lemma {:induction false} LinkedStays(s: State, op: Op, a: Alarm)
    requires a in s.alarms && (op.Open? || op.Link? || op.Rearm?)
    ensures HasId(Exec(s, op).alarms, a.id)
  {
    var k :| 0 <= k < |s.alarms| && s.alarms[k] == a;
    assert Exec(s, op).alarms[if op.Link? then k + 1 else k] == a;
  }

  lemma {:induction false} LastHandle(handles: seq<nat>, handle: nat)
    requires handle in handles
    ensures Drop(handles, handle) == [] <==> |handles| == 1
  {
    DropExactly(handles, handle);
    assert |multiset(Drop(handles, handle))| == |handles| - 1;
  }

  lemma {:induction false} StepEndsExactly(s: State, op: Op, a: Alarm)
    requires AlarmsInv(s) && Enabled(s, op) && a in s.alarms
    ensures HasId(Exec(s, op).alarms, a.id) <==> !Ends(s, op, a)
  {
    hide Remaining, HasId, Without, WithoutHandle, Drop;
    var s' := Exec(s, op);
    match op
    case Tick(at, _) =>
      if s.handles != [] { TickEnds(s.alarms, at, a); } else { SameIdSameAlarm(s.alarms, s.alarms, a); }
    case Destroy(id, at) =>
      DestroyKeepsOthers(s, id, at);
      SameIdSameAlarm(s.alarms, s'.alarms, a);
    case Shutdown(handle, at) =>
      ShutdownKeepsOthers(s, handle, at);
      LastHandle(s.handles, handle);
      SameIdSameAlarm(s.alarms, s'.alarms, a);
    case _ => LinkedStays(s, op, a);
  }

  /** Over whole runs: an alarm leaves the list in a step if and only if it fires
      in it as a one-shot, is destroyed, or its handle or the last handle is
      shut down. */
  lemma {:induction false} LeavesExactly(run: seq<State>, ops: seq<Op>, i: nat, a: Alarm)
    requires IsRunOf(run, ops) && i < |ops| && a in run[i].alarms
    ensures HasId(run[i + 1].alarms, a.id) <==> !Ends(run[i], ops[i], a)
  {
    hide HasId, Ends, Init, AlarmsInv;
    RunOfIsRun(run, ops);
    RunKeepsInv(run, i);
    assert StepOf(run[i], run[i + 1], ops[i]);
    StepEndsExactly(run[i], ops[i], a);
  }

  // ----- what an alarm keeps

  predicate HasFired(log: seq<Fire>, id: nat) {
    exists k :: 0 <= k < |log| && log[k].id == id
  }

  predicate LastFiring(log: seq<Fire>, id: nat, k: nat) {
    k < |log| && log[k].id == id && forall m | k < m < |log| :: log[m].id != id
  }

  /** The alarm was created with this callback, interval and handle. Until it
      fires it has the delay and the start it was created with, and from then on
      its interval for a delay and its last firing for a start. */
  ghost predicate Terms(log: seq<Fire>, op: Op, a: Alarm) {
    && op.Link? && a.callback == op.callback && a.repeat == op.repeat && a.handle == op.handle
    && if HasFired(log, a.id) then
         a.delay == a.repeat && exists k: nat :: LastFiring(log, a.id, k) && log[k].at == a.last
       else a.delay == op.delay && a.last == op.started
  }

  lemma {:induction false} OtherFirings(log: seq<Fire>, more: seq<Fire>, op: Op, a: Alarm)
    requires Terms(log, op, a) && forall k | 0 <= k < |more| :: more[k].id != a.id
    ensures Terms(log + more, op, a)
  {
    var after := log + more;
    if k: nat :| LastFiring(log, a.id, k) && log[k].at == a.last {
      assert LastFiring(after, a.id, k) && after[k] == log[k];
    }
    if k :| 0 <= k < |log| && log[k].id == a.id {
      assert after[k].id == a.id;
    }
    if k :| 0 <= k < |after| && after[k].id == a.id {
      assert k < |log| && log[k].id == a.id;
    }
  }

  lemma {:induction false} RearmedTerms(log: seq<Fire>, more: seq<Fire>, op: Op, a: Alarm, now: int, k: nat)
    requires Terms(log, op, a) && k < |more| && more[k].id == a.id && more[k].at == now
    requires forall m | k < m < |more| :: more[m].id != a.id
    ensures Terms(log + more, op, Rearmed(a, now))
  {
    var after := log + more;
    assert after[|log| + k] == more[k];
    forall m | |log| + k < m < |after| ensures after[m].id != a.id {
      assert after[m] == more[m - |log|];
    }
    assert LastFiring(after, a.id, |log| + k);
  }

  /** Where the entry of a due alarm stands among those that a tick adds. */
  lemma {:induction false} EntryOf(alarms: seq<Alarm>, now: int, i: nat) returns (k: nat)
    requires UniqueIds(alarms) && i < |alarms| && Due(alarms[i], now)
    ensures var more := Entries(Started(alarms, now), now);
            && k < |more| && more[k].id == alarms[i].id && more[k].at == now
            && forall m | k < m < |more| :: more[m].id != alarms[i].id
  {
    var fired := Started(alarms, now);
    FiresExactlyTheDue(alarms, now, alarms[i]);
    ReversedHas(Fired(alarms, now), alarms[i]);
    FiredIdsAreUnique(alarms, now);
    ReversedKeepsUnique(Fired(alarms, now));
    k :| 0 <= k < |fired| && fired[k] == alarms[i];
  }

  lemma {:induction false} NoEntryOf(alarms: seq<Alarm>, now: int, i: nat, k: nat)
    requires UniqueIds(alarms) && i < |alarms| && !Due(alarms[i], now) && k < |Entries(Started(alarms, now), now)|
    ensures Entries(Started(alarms, now), now)[k].id != alarms[i].id
  {
    var j := EntryFrom(alarms, now, k);
  }

  lemma {:induction false} TickKeepsTerms(s: State, op: Op, creation: Op, b: Alarm) returns (a: Alarm)
    requires AlarmsInv(s) && Enabled(s, op) && op.Tick? && s.handles != [] && b in Exec(s, op).alarms
    ensures a in s.alarms && a.id == b.id && (Terms(s.log, creation, a) ==> Terms(Exec(s, op).log, creation, b))
  {
    hide Terms, Started, Remaining, NextDelay;
    var now := op.at;
    var more := Entries(Started(s.alarms, now), now);
    var i := LeftFrom(s.alarms, now, b);
    a := s.alarms[i];
    if Terms(s.log, creation, a) {
      if Due(a, now) {
        var k := EntryOf(s.alarms, now, i);
        RearmedTerms(s.log, more, creation, a, now, k);
      } else {
        forall k | 0 <= k < |more| ensures more[k].id != a.id {
          NoEntryOf(s.alarms, now, i, k);
        }
        OtherFirings(s.log, more, creation, a);
      }
    }
  }

  /** The step at which an alarm was created. */
  ghost predicate CreatedAt(run: seq<State>, ops: seq<Op>, j: nat, id: nat) {
    j < |ops| && j < |run| && ops[j].Link? && run[j].nextId == id
  }

  lemma {:induction false} KeptFrom(s: State, op: Op, b: Alarm)
    requires AlarmsInv(s) && Enabled(s, op) && b in Exec(s, op).alarms
    requires !op.Tick? || s.handles == []
    requires op.Link? ==> b.id != s.nextId
    ensures b in s.alarms && Exec(s, op).log == s.log
  {
    match op
    case Destroy(id, at) => WithoutExactly(s.alarms, id);
    case Shutdown(handle, at) => WithoutHandleExactly(s.alarms, handle);
    case _ =>
  }

  /** Over whole runs: every alarm in the list was created by one call, and has
      what that call and its own firings gave it. */
  lemma {:induction false} TermsAreKept(run: seq<State>, ops: seq<Op>, i: nat, a: Alarm) returns (j: nat)
    requires IsRunOf(run, ops) && i < |run| && a in run[i].alarms
    ensures j < i && CreatedAt(run, ops, j, a.id) && Terms(run[i].log, ops[j], a)
  {
    hide Terms, Exec, AlarmsInv, LogInv;
    j := 0;
    if i > 0 {
      var s, op := run[i - 1], ops[i - 1];
      assert StepOf(run[i - 1], run[i - 1 + 1], ops[i - 1]);
      RunOfIsRun(run, ops);
      RunKeepsInv(run, i - 1);
      if op.Tick? && s.handles != [] {
        var before := TickKeepsTerms(s, op, op, a);
        j := TermsAreKept(run, ops, i - 1, before);
        TickTerms(s, op, ops[j], before, a);
      } else if op.Link? && a.id == s.nextId {
        j := i - 1;
        NewTerms(s, op, a);
      } else {
        KeptFrom(s, op, a);
        j := TermsAreKept(run, ops, i - 1, a);
      }
    }
  }

  lemma {:induction false} TickTerms(s: State, op: Op, creation: Op, a: Alarm, b: Alarm)
    requires AlarmsInv(s) && Enabled(s, op) && op.Tick? && s.handles != [] && b in Exec(s, op).alarms
    requires a in s.alarms && a.id == b.id && Terms(s.log, creation, a)
    ensures Terms(Exec(s, op).log, creation, b)
  {
    hide Terms, Exec;
    var other := TickKeepsTerms(s, op, creation, b);
    SameIdSameAlarm(s.alarms, [other], a);
    assert other in [other] && [other][0].id == a.id;
  }

  lemma {:induction false} NewTerms(s: State, op: Op, a: Alarm)
    requires AlarmsInv(s) && LogInv(s) && Enabled(s, op) && op.Link? && a in Exec(s, op).alarms && a.id == s.nextId
    ensures Terms(Exec(s, op).log, op, a)
  {
    forall k | 0 <= k < |s.alarms| ensures s.alarms[k].id != a.id {
      assert Known(s.alarms[k], s);
    }
    assert Exec(s, op).alarms[1..] == s.alarms;
  }
}
