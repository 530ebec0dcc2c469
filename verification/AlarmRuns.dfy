/** Runs of the alarm scheduler: alarms come and go, ticks arrive early, late or
    uncalled for, and the clock never goes back. */
module AlarmRuns {
  import opened Alarms
  import opened Basics

  /** One firing: which alarm, when, and its interval. */
  datatype Fire = Fire(id: nat, at: int, repeat: int)

  /** `armed` is the time for which the kernel will send SIGALRM; `pending` are
      the alarms that are in the list and whose creator has yet to arm it. */
  datatype State = State(alarms: seq<Alarm>, handles: seq<nat>, armed: Option<int>, clock: int, nextId: nat,
      log: seq<Fire>, pending: set<nat>)

  /** XplAlarmCreate links the alarm under the lock, after reading the clock, and
      then arms without it. A tick is `ours` if it is the signal that was armed,
      and otherwise comes from elsewhere. */
  datatype Op =
    | Open(handle: nat)
    | Link(callback: int, delay: int, repeat: int, handle: nat, started: int, at: int)
    | Rearm(id: nat, at: int)
    | Destroy(id: nat, at: int)
    | Tick(at: int, ours: bool)
    | Shutdown(handle: nat, at: int)

  /** A call of alarm, which is made only for a delay that is not zero. */
  function Arm(armed: Option<int>, alarms: seq<Alarm>, now: int): Option<int> {
    var delay := NextDelay(alarms, now);
    if delay == 0 then armed else Some(now + delay)
  }

  function Without(alarms: seq<Alarm>, id: nat): seq<Alarm> {
    if alarms == [] then []
    else if alarms[0].id == id then alarms[1..]
    else [alarms[0]] + Without(alarms[1..], id)
  }

  function WithoutHandle(alarms: seq<Alarm>, handle: nat): seq<Alarm> {
    if alarms == [] then []
    else (if alarms[0].handle == handle then [] else [alarms[0]]) + WithoutHandle(alarms[1..], handle)
  }

  function Drop(handles: seq<nat>, handle: nat): seq<nat> {
    if handles == [] then []
    else if handles[0] == handle then handles[1..]
    else [handles[0]] + Drop(handles[1..], handle)
  }

  /** The chain is built by prepending, so the last to fire is started first. */
  function Started(alarms: seq<Alarm>, now: int): seq<Alarm> {
    Reversed(Fired(alarms, now))
  }

  function Entries(fired: seq<Alarm>, now: int): (r: seq<Fire>)
    ensures |r| == |fired| && forall i | 0 <= i < |fired| :: r[i] == Fire(fired[i].id, now, fired[i].repeat)
  {
    seq(|fired|, i requires 0 <= i < |fired| => Fire(fired[i].id, now, fired[i].repeat))
  }

  /** Time moves on, an alarm is created under an open handle, and the armed
      signal does not come early. */
  predicate Enabled(s: State, op: Op) {
    match op
    case Open(_) => true
    case Link(_, delay, repeat, handle, started, at) =>
      0 < started <= at && s.clock <= at && delay >= 0 && repeat >= 0 && handle in s.handles
    case Rearm(id, at) => s.clock <= at && id in s.pending
    case Destroy(_, at) => s.clock <= at
    case Tick(at, ours) => s.clock <= at && (ours ==> s.armed.Some? && s.armed.value <= at)
    case Shutdown(handle, at) => s.clock <= at && handle in s.handles
  }

  function Exec(s: State, op: Op): State {
    match op
    case Open(handle) => s.(handles := [handle] + s.handles)
    case Link(callback, delay, repeat, handle, started, at) =>
      var a := Alarm(s.nextId, callback, delay, repeat, started, handle);
      s.(alarms := [a] + s.alarms, nextId := s.nextId + 1, clock := at, pending := s.pending + {s.nextId})
    case Rearm(id, at) => s.(armed := Arm(s.armed, s.alarms, at), clock := at, pending := s.pending - {id})
    case Destroy(id, at) =>
      var alarms := Without(s.alarms, id);
      s.(alarms := alarms, armed := Arm(s.armed, alarms, at), clock := at)
    case Tick(at, ours) =>
      var armed := if ours then None else s.armed;
      if s.handles == [] then s.(armed := armed, clock := at)
      else
        var left := Remaining(s.alarms, at);
        s.(alarms := left, armed := Arm(armed, left, at), clock := at,
            log := s.log + Entries(Started(s.alarms, at), at))
    case Shutdown(handle, at) =>
      var handles := Drop(s.handles, handle);
      if handles == [] then s.(alarms := [], handles := [], armed := None, clock := at)
      else s.(alarms := WithoutHandle(s.alarms, handle), handles := handles, clock := at)
  }

  ghost predicate StepOf(s: State, s': State, op: Op) {
    Enabled(s, op) && s' == Exec(s, op)
  }

  ghost predicate Init(s: State) {
    s.alarms == [] && s.handles == [] && s.log == [] && s.pending == {} && s.clock > 0
  }

  ghost predicate Next(s: State, s': State) {
    exists op: Op :: StepOf(s, s', op)
  }

  ghost predicate IsRun(run: seq<State>) {
    |run| > 0 && Init(run[0]) && forall i | 0 <= i < |run| - 1 :: Next(run[i], run[i + 1])
  }

  // ----- the invariant

  predicate Known(a: Alarm, s: State) {
    a.id < s.nextId && a.handle in s.handles
  }

  /** The armed signal comes before the alarm's time, or, for an alarm that is
      late already, within a second. */
  predicate Covers(armed: Option<int>, clock: int, a: Alarm) {
    armed.Some? && (armed.value <= clock + 1 || armed.value <= NextTime(a, clock))
  }

  predicate Covered(s: State, a: Alarm) {
    a.id in s.pending || Covers(s.armed, s.clock, a)
  }

  /** An alarm that has fired before has been re-armed since. */
  predicate FiredBefore(a: Alarm, f: Fire) {
    a.id == f.id ==> a.repeat == f.repeat != 0 && a.delay == a.repeat && a.last >= f.at
  }

  /** Two firings of one alarm are its interval apart, less the second by which
      a tick may fire early. */
  predicate Spaced(f: Fire, g: Fire) {
    f.id == g.id ==> f.repeat != 0 && g.at >= f.at + f.repeat - 1
  }

  ghost predicate AlarmsInv(s: State) {
    && s.clock > 0 && AllSane(s.alarms, s.clock) && UniqueIds(s.alarms)
    && (forall i | 0 <= i < |s.alarms| :: Known(s.alarms[i], s))
    && (forall i | 0 <= i < |s.alarms| :: Covered(s, s.alarms[i]))
  }

  ghost predicate LogInv(s: State) {
    && (forall k | 0 <= k < |s.log| :: s.log[k].id < s.nextId)
    && (forall i, k | 0 <= i < |s.alarms| && 0 <= k < |s.log| :: FiredBefore(s.alarms[i], s.log[k]))
    && (forall j, k | 0 <= j < k < |s.log| :: Spaced(s.log[j], s.log[k]))
  }

  // ----- lists

  /** Every element of b is one of a. */
  predicate Within(b: seq<Alarm>, a: seq<Alarm>) {
    forall i | 0 <= i < |b| :: b[i] in a
  }

  lemma {:induction false} WithoutShape(alarms: seq<Alarm>, id: nat)
    requires UniqueIds(alarms)
    ensures UniqueIds(Without(alarms, id)) && Within(Without(alarms, id), alarms)
    ensures forall i | 0 <= i < |Without(alarms, id)| :: Without(alarms, id)[i].id != id
  {
    if alarms != [] && alarms[0].id != id {
      WithoutShape(alarms[1..], id);
      var rest := Without(alarms[1..], id);
      forall i | 0 <= i < |rest| ensures rest[i].id != alarms[0].id {
        assert rest[i] in alarms[1..];
        var k :| 0 <= k < |alarms[1..]| && alarms[1..][k] == rest[i];
        assert alarms[k + 1] == rest[i];
      }
    }
  }

  lemma {:induction false} WithoutHandleHas(alarms: seq<Alarm>, handle: nat)
    ensures Within(WithoutHandle(alarms, handle), alarms)
    ensures forall a | a in WithoutHandle(alarms, handle) :: a.handle != handle
  {
    if alarms != [] {
      WithoutHandleHas(alarms[1..], handle);
    }
  }

  lemma {:induction false} WithoutHandleShape(alarms: seq<Alarm>, handle: nat)
    requires UniqueIds(alarms)
    ensures UniqueIds(WithoutHandle(alarms, handle)) && Within(WithoutHandle(alarms, handle), alarms)
    ensures forall a | a in WithoutHandle(alarms, handle) :: a.handle != handle
  {
    WithoutHandleHas(alarms, handle);
    if alarms != [] {
      var rest := WithoutHandle(alarms[1..], handle);
      WithoutHandleShape(alarms[1..], handle);
      forall i | 0 <= i < |rest| ensures rest[i].id != alarms[0].id {
        assert rest[i] in alarms[1..];
        var k :| 0 <= k < |alarms[1..]| && alarms[1..][k] == rest[i];
        assert alarms[k + 1] == rest[i];
      }
    }
  }

  lemma {:induction false} DropKeeps(handles: seq<nat>, handle: nat, h: nat)
    requires h in handles && h != handle
    ensures h in Drop(handles, handle)
  {
    if handles[0] != handle && handles[0] != h {
      DropKeeps(handles[1..], handle, h);
    }
  }

  lemma {:induction false} ReversedKeepsUnique(alarms: seq<Alarm>)
    requires UniqueIds(alarms)
    ensures UniqueIds(Reversed(alarms))
  {
    if alarms != [] {
      var r := Reversed(alarms[1..]);
      ReversedKeepsUnique(alarms[1..]);
      forall i | 0 <= i < |r| ensures r[i].id != alarms[0].id {
        ReversedHas(alarms[1..], r[i]);
        assert r[i] in alarms[1..];
        var k :| 0 <= k < |alarms[1..]| && alarms[1..][k] == r[i];
        assert alarms[k + 1] == r[i];
      }
    }
  }

  // ----- arming

  /** What has just been armed covers every alarm. */
  lemma {:induction false} ArmCovers(armed: Option<int>, alarms: seq<Alarm>, now: int)
    ensures forall i | 0 <= i < |alarms| :: Covers(Arm(armed, alarms, now), now, alarms[i])
  {
    if alarms != [] {
      NextDelayIsMinimum(alarms, now);
      forall i | 0 <= i < |alarms| ensures Covers(Arm(armed, alarms, now), now, alarms[i]) {
        assert NextDelay(alarms, now) <= Wait(alarms[i], now);
      }
    }
  }

  // ----- one operation

  lemma {:induction false} LinkKeeps(s: State, op: Op)
    requires AlarmsInv(s) && LogInv(s) && Enabled(s, op) && op.Link?
    ensures AlarmsInv(Exec(s, op)) && LogInv(Exec(s, op))
  {
    var s' := Exec(s, op);
    var a := s'.alarms[0];
    forall i | 0 <= i < |s'.alarms|
      ensures Sane(s'.alarms[i], s'.clock) && Known(s'.alarms[i], s') && (i > 0 ==> s'.alarms[i].id != a.id)
      ensures Covered(s', s'.alarms[i])
    {
      if i > 0 {
        assert s'.alarms[i] == s.alarms[i - 1];
        assert Sane(s.alarms[i - 1], s.clock) && Known(s.alarms[i - 1], s) && Covered(s, s.alarms[i - 1]);
      }
    }
    forall i, j | 0 <= i < j < |s'.alarms| ensures s'.alarms[i].id != s'.alarms[j].id {
      if i > 0 { assert s'.alarms[i] == s.alarms[i - 1] && s'.alarms[j] == s.alarms[j - 1]; }
    }
    forall i, k | 0 <= i < |s'.alarms| && 0 <= k < |s'.log| ensures FiredBefore(s'.alarms[i], s'.log[k]) {
      if i > 0 { assert FiredBefore(s.alarms[i - 1], s.log[k]); }
    }
  }

  lemma {:induction false} RearmKeeps(s: State, op: Op)
    requires AlarmsInv(s) && LogInv(s) && Enabled(s, op) && op.Rearm?
    ensures AlarmsInv(Exec(s, op)) && LogInv(Exec(s, op))
  {
    var s' := Exec(s, op);
    ArmCovers(s.armed, s.alarms, op.at);
    forall i | 0 <= i < |s'.alarms|
      ensures Sane(s'.alarms[i], s'.clock) && Known(s'.alarms[i], s') && Covered(s', s'.alarms[i])
    {
      assert Sane(s.alarms[i], s.clock) && Known(s.alarms[i], s);
    }
    forall i, k | 0 <= i < |s'.alarms| && 0 <= k < |s'.log| ensures FiredBefore(s'.alarms[i], s'.log[k]) {
      assert FiredBefore(s.alarms[i], s.log[k]);
    }
  }

  /** Alarms that are only removed keep what the invariant says of each. */
  lemma {:induction false} FewerAlarms(s: State, s': State)
    requires AlarmsInv(s) && LogInv(s) && Within(s'.alarms, s.alarms) && UniqueIds(s'.alarms)
    requires s'.log == s.log && s'.nextId == s.nextId && s'.clock >= s.clock && s'.pending == s.pending
    requires forall i | 0 <= i < |s'.alarms| :: s'.alarms[i].handle in s'.handles
    requires s'.armed == s.armed || forall i | 0 <= i < |s'.alarms| :: Covers(s'.armed, s'.clock, s'.alarms[i])
    ensures AlarmsInv(s') && LogInv(s')
  {
    forall i | 0 <= i < |s'.alarms|
      ensures Sane(s'.alarms[i], s'.clock) && Known(s'.alarms[i], s') && Covered(s', s'.alarms[i])
    {
      assert s'.alarms[i] in s.alarms;
      var k :| 0 <= k < |s.alarms| && s.alarms[k] == s'.alarms[i];
      assert Sane(s.alarms[k], s.clock) && Known(s.alarms[k], s) && Covered(s, s.alarms[k]);
    }
    forall i, k | 0 <= i < |s'.alarms| && 0 <= k < |s'.log| ensures FiredBefore(s'.alarms[i], s'.log[k]) {
      assert s'.alarms[i] in s.alarms;
      var j :| 0 <= j < |s.alarms| && s.alarms[j] == s'.alarms[i];
      assert FiredBefore(s.alarms[j], s.log[k]);
    }
  }

  lemma {:induction false} RemovalKeeps(s: State, op: Op)
    requires AlarmsInv(s) && LogInv(s) && Enabled(s, op) && (op.Destroy? || op.Shutdown? || op.Open?)
    ensures AlarmsInv(Exec(s, op)) && LogInv(Exec(s, op))
  {
    var s' := Exec(s, op);
    match op
    case Open(handle) =>
      forall i | 0 <= i < |s.alarms| ensures s.alarms[i].handle in s'.handles { assert Known(s.alarms[i], s); }
      FewerAlarms(s, s');
    case Destroy(id, at) =>
      WithoutShape(s.alarms, id);
      ArmCovers(s.armed, s'.alarms, at);
      forall i | 0 <= i < |s'.alarms| ensures s'.alarms[i].handle in s'.handles {
        assert s'.alarms[i] in s.alarms;
        var k :| 0 <= k < |s.alarms| && s.alarms[k] == s'.alarms[i];
        assert Known(s.alarms[k], s);
      }
      FewerAlarms(s, s');
    case Shutdown(handle, at) =>
      WithoutHandleShape(s.alarms, handle);
      forall i | 0 <= i < |s'.alarms| ensures s'.alarms[i].handle in s'.handles {
        assert s'.alarms[i] in s.alarms;
        var k :| 0 <= k < |s.alarms| && s.alarms[k] == s'.alarms[i];
        assert Known(s.alarms[k], s);
        DropKeeps(s.handles, handle, s'.alarms[i].handle);
      }
      FewerAlarms(s, s');
  }

  /** Where an alarm that is left after a tick comes from. */
  lemma {:induction false} LeftFrom(alarms: seq<Alarm>, now: int, b: Alarm) returns (i: nat)
    requires b in Remaining(alarms, now)
    ensures i < |alarms| && b.id == alarms[i].id && b.repeat == alarms[i].repeat && b.handle == alarms[i].handle
    ensures if Due(alarms[i], now) then b == Rearmed(alarms[i], now) && b.repeat != 0 else b == alarms[i]
  {
    RemainsExactly(alarms, now, b);
    i :| 0 <= i < |alarms| && b in Kept(alarms[i], now);
  }

  /** Where an entry that a tick adds to the log comes from. */
  lemma {:induction false} EntryFrom(alarms: seq<Alarm>, now: int, k: nat) returns (i: nat)
    requires k < |Entries(Started(alarms, now), now)|
    ensures i < |alarms| && Due(alarms[i], now)
    ensures Entries(Started(alarms, now), now)[k] == Fire(alarms[i].id, now, alarms[i].repeat)
    ensures Started(alarms, now)[k] == alarms[i]
  {
    var a := Started(alarms, now)[k];
    ReversedHas(Fired(alarms, now), a);
    FiresExactlyTheDue(alarms, now, a);
    i :| 0 <= i < |alarms| && alarms[i] == a;
  }

  lemma {:induction false} TickKeepsAlarms(s: State, op: Op)
    requires AlarmsInv(s) && Enabled(s, op) && op.Tick? && s.handles != []
    ensures AlarmsInv(Exec(s, op))
  {
    var s', now := Exec(s, op), op.at;
    assert AllSane(s.alarms, now) by {
      forall i | 0 <= i < |s.alarms| ensures Sane(s.alarms[i], now) { assert Sane(s.alarms[i], s.clock); }
    }
    TickArmsForTheNext(s.alarms, now);
    RemainingIdsAreUnique(s.alarms, now);
    ArmCovers(if op.ours then None else s.armed, s'.alarms, now);
    forall j | 0 <= j < |s'.alarms| ensures Known(s'.alarms[j], s') {
      var i := LeftFrom(s.alarms, now, s'.alarms[j]);
      assert Known(s.alarms[i], s);
    }
  }

  /** After a tick every alarm left is re-armed past everything in the log. */
  lemma {:induction false} TickKeepsFiredBefore(s: State, op: Op, j: nat, k: nat)
    requires AlarmsInv(s) && LogInv(s) && Enabled(s, op) && op.Tick? && s.handles != []
    requires var s' := Exec(s, op); j < |s'.alarms| && k < |s'.log|
    ensures var s' := Exec(s, op); FiredBefore(s'.alarms[j], s'.log[k])
  {
    var s', now := Exec(s, op), op.at;
    var b, f := s'.alarms[j], s'.log[k];
    var i := LeftFrom(s.alarms, now, b);
    assert Sane(s.alarms[i], s.clock);
    if k < |s.log| {
      assert f == s.log[k] && FiredBefore(s.alarms[i], f);
    } else {
      var m := EntryFrom(s.alarms, now, k - |s.log|);
      assert b.id == f.id ==> m == i;
    }
  }

  lemma {:induction false} TickKeepsSpacing(s: State, op: Op, j: nat, k: nat)
    requires AlarmsInv(s) && LogInv(s) && Enabled(s, op) && op.Tick? && s.handles != []
    requires j < k < |Exec(s, op).log|
    ensures Spaced(Exec(s, op).log[j], Exec(s, op).log[k])
  {
    var now, n := op.at, |s.log|;
    if k < n {
      assert Spaced(s.log[j], s.log[k]);
    } else {
      var m := EntryFrom(s.alarms, now, k - n);
      if j < n {
        assert FiredBefore(s.alarms[m], s.log[j]);
      } else {
        var l := EntryFrom(s.alarms, now, j - n);
        FiredIdsAreUnique(s.alarms, now);
        ReversedKeepsUnique(Fired(s.alarms, now));
      }
    }
  }

  lemma {:induction false} AlarmsHaveHandles(s: State)
    requires AlarmsInv(s)
    ensures s.alarms != [] ==> s.handles != []
  {
    if s.alarms != [] { assert Known(s.alarms[0], s); }
  }

  lemma {:induction false} TickKeeps(s: State, op: Op)
    requires AlarmsInv(s) && LogInv(s) && Enabled(s, op) && op.Tick?
    ensures AlarmsInv(Exec(s, op)) && LogInv(Exec(s, op))
  {
    var s' := Exec(s, op);
    if s.handles == [] {
      AlarmsHaveHandles(s);
    } else {
      TickKeepsAlarms(s, op);
      forall j, k | 0 <= j < |s'.alarms| && 0 <= k < |s'.log| ensures FiredBefore(s'.alarms[j], s'.log[k]) {
        TickKeepsFiredBefore(s, op, j, k);
      }
      forall j, k | 0 <= j < k < |s'.log| ensures Spaced(s'.log[j], s'.log[k]) {
        TickKeepsSpacing(s, op, j, k);
      }
      forall k | 0 <= k < |s'.log| ensures s'.log[k].id < s'.nextId {
        if k >= |s.log| {
          var m := EntryFrom(s.alarms, op.at, k - |s.log|);
          assert Known(s.alarms[m], s);
        }
      }
    }
  }

  // ----- the main results

  lemma {:induction false} RunKeepsInv(run: seq<State>, i: nat)
    requires IsRun(run) && i < |run|
    ensures AlarmsInv(run[i]) && LogInv(run[i])
  {
    if i > 0 {
      RunKeepsInv(run, i - 1);
      hide AlarmsInv, LogInv, Exec, Enabled;
      assert Next(run[i - 1], run[i - 1 + 1]);
      var op :| StepOf(run[i - 1], run[i], op);
      match op
      case Link(_, _, _, _, _, _) => LinkKeeps(run[i - 1], op);
      case Rearm(_, _) => RearmKeeps(run[i - 1], op);
      case Tick(_, _) => TickKeeps(run[i - 1], op);
      case _ => RemovalKeeps(run[i - 1], op);
    }
  }

  /** No alarm is forgotten: in every state of every run, for every alarm whose
      creator has done its part, the signal is armed for no later than the
      alarm's time, or for within a second of now. */
  lemma {:induction false} NoAlarmIsForgotten(run: seq<State>, i: nat, a: Alarm)
    requires IsRun(run) && i < |run| && a in run[i].alarms && a.id !in run[i].pending
    ensures var s := run[i];
            s.armed.Some?
            && (s.armed.value <= s.clock + 1
                || s.armed.value <= a.last + (if a.delay != 0 then a.delay else a.repeat))
  {
    RunKeepsInv(run, i);
    var k :| 0 <= k < |run[i].alarms| && run[i].alarms[k] == a;
    assert Covered(run[i], run[i].alarms[k]) && Sane(run[i].alarms[k], run[i].clock);
  }

  /** Whoever arms next covers the alarms of all creators. */
  lemma {:induction false} RearmCoversAll(run: seq<State>, i: nat, op: Op, a: Alarm)
    requires IsRun(run) && i < |run| && op.Rearm? && Enabled(run[i], op) && a in run[i].alarms
    ensures Covers(Exec(run[i], op).armed, op.at, a)
  {
    ArmCovers(run[i].armed, run[i].alarms, op.at);
    var k :| 0 <= k < |run[i].alarms| && run[i].alarms[k] == a;
  }

  /** Over any run a one-shot alarm fires at most once, and two firings of a
      repeating one are its interval apart, less one second at most. */
  lemma {:induction false} FiringsAreSpaced(run: seq<State>, i: nat, j: nat, k: nat)
    requires IsRun(run) && i < |run| && j < k < |run[i].log| && run[i].log[j].id == run[i].log[k].id
    ensures run[i].log[j].repeat != 0 && run[i].log[k].at >= run[i].log[j].at + run[i].log[j].repeat - 1
  {
    RunKeepsInv(run, i);
    assert Spaced(run[i].log[j], run[i].log[k]);
  }

  /** In every state of every run the next tick fires an alarm more than a
      second early exactly when its delay is 0 and its interval is not over,
      and it is then the alarm's first firing. */
  lemma {:induction false} FiresEarlyExactly(run: seq<State>, i: nat, a: Alarm, at: int)
    requires IsRun(run) && i < |run| && a in run[i].alarms && run[i].clock <= at
    ensures a in Started(run[i].alarms, at) && NextTime(a, at) > at + 1 <==> a.delay == 0 && a.last + a.repeat > at + 1
    ensures a.delay == 0 ==> forall k | 0 <= k < |run[i].log| :: run[i].log[k].id != a.id
  {
    var s := run[i];
    RunKeepsInv(run, i);
    forall j | 0 <= j < |s.alarms| ensures Sane(s.alarms[j], at) {
      assert Sane(s.alarms[j], s.clock);
    }
    FiresAheadExactly(s.alarms, at, a);
    ReversedHas(Fired(s.alarms, at), a);
    var m :| 0 <= m < |s.alarms| && s.alarms[m] == a;
    forall k | 0 <= k < |s.log| ensures a.delay == 0 ==> s.log[k].id != a.id {
      assert FiredBefore(s.alarms[m], s.log[k]);
    }
  }

  /** It happens: an alarm created without a delay goes off in the same second,
      if any tick arrives then, though it is armed for a whole interval later. */
  lemma {:induction false} EarlyRun(repeat: int) returns (run: seq<State>)
    requires repeat > 1
    ensures IsRun(run) && run[|run| - 1].log == [Fire(0, 1, repeat)]
    ensures run[|run| - 2].armed == Some(1 + repeat)
  {
    var s := State([], [], None, 1, 0, [], {});
    var open, link, rearm, tick := Open(0), Link(0, 0, repeat, 0, 1, 1), Rearm(0, 1), Tick(1, false);
    var s1 := Exec(s, open);
    var s2 := Exec(s1, link);
    var s3 := Exec(s2, rearm);
    var s4 := Exec(s3, tick);
    var a := Alarm(0, 0, 0, repeat, 1, 0);
    assert s2.alarms == [a] && [a][..0] == [] && NextDelay([a], 1) == repeat;
    assert Fired([a], 1) == [a];
    assert [a][1..] == [] && Reversed([a]) == [a];
    run := [s, s1, s2, s3, s4];
    assert StepOf(s, s1, open) && StepOf(s1, s2, link) && StepOf(s2, s3, rearm) && StepOf(s3, s4, tick);
  }
}
