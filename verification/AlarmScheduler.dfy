/** The scheduler object of src/xpl/xplalarm.c: the list of alarms edited in
    place by each tick, and the loops that search and fold it. */
module AlarmScheduler {
  import opened Alarms
  import opened AlarmRuns
  import opened Basics

  lemma {:induction false} FiredConcat(a: seq<Alarm>, b: seq<Alarm>, now: int)
    ensures Fired(a + b, now) == Fired(a, now) + Fired(b, now)
  {
    hide Due;
    if a == [] {
      assert a + b == b;
    } else {
      assert (a + b)[1..] == a[1..] + b && (a + b)[0] == a[0];
      FiredConcat(a[1..], b, now);
      var first: seq<Alarm> := if Due(a[0], now) then [a[0]] else [];
      assert first + (Fired(a[1..], now) + Fired(b, now)) == first + Fired(a[1..], now) + Fired(b, now);
    }
  }

  lemma {:induction false} RemainingConcat(a: seq<Alarm>, b: seq<Alarm>, now: int)
    ensures Remaining(a + b, now) == Remaining(a, now) + Remaining(b, now)
  {
    if a == [] {
      assert a + b == b;
    } else {
      assert (a + b)[1..] == a[1..] + b;
      RemainingConcat(a[1..], b, now);
    }
  }

  lemma {:induction false} NothingDue(now: int)
    ensures Remaining([], now) == [] && Started([], now) == []
  {
  }

  /** One more alarm looked at by the tick. */
  lemma {:induction false} OneMore(was: seq<Alarm>, i: nat, now: int)
    requires i < |was|
    ensures Remaining(was[..i + 1], now) == Remaining(was[..i], now) + Kept(was[i], now)
    ensures Started(was[..i + 1], now) == (if Due(was[i], now) then [was[i]] else []) + Started(was[..i], now)
  {
    assert was[..i + 1] == was[..i] + [was[i]];
    RemainingConcat(was[..i], [was[i]], now);
    FiredConcat(was[..i], [was[i]], now);
    ReversedConcat(Fired(was[..i], now), Fired([was[i]], now));
    assert Fired([was[i]], now) == if Due(was[i], now) then [was[i]] else [];
    assert Reversed([was[i]]) == [was[i]];
    assert Kept(was[i], now) + [] == Kept(was[i], now);
    assert Remaining([was[i]], now) == Kept(was[i], now);
  }

  lemma {:induction false} WithoutAt(alarms: seq<Alarm>, k: nat)
    requires k < |alarms| && forall i | 0 <= i < k :: alarms[i].id != alarms[k].id
    ensures Without(alarms, alarms[k].id) == alarms[..k] + alarms[k + 1..]
  {
    if k > 0 {
      WithoutAt(alarms[1..], k - 1);
      assert [alarms[0]] + (alarms[1..][..k - 1] + alarms[1..][k..]) == alarms[..k] + alarms[k + 1..];
    }
  }

  lemma {:induction false} WithoutNone(alarms: seq<Alarm>, id: nat)
    requires forall i | 0 <= i < |alarms| :: alarms[i].id != id
    ensures Without(alarms, id) == alarms
  {
    if alarms != [] {
      WithoutNone(alarms[1..], id);
    }
  }

  lemma {:induction false} WithoutHandleConcat(a: seq<Alarm>, b: seq<Alarm>, handle: nat)
    ensures WithoutHandle(a + b, handle) == WithoutHandle(a, handle) + WithoutHandle(b, handle)
  {
    if a == [] {
      assert a + b == b;
    } else {
      assert (a + b)[1..] == a[1..] + b;
      WithoutHandleConcat(a[1..], b, handle);
    }
  }

  class Scheduler {
    var alarms: seq<Alarm>
    var handles: seq<nat>
    var armed: Option<int>
    var nextId: nat

    ghost var clock: int
    ghost var log: seq<Fire>
    /** Alarms whose creator has yet to arm the signal. */
    ghost var pending: set<nat>

    ghost function Value(): State
      reads this
    {
      State(alarms, handles, armed, clock, nextId, log, pending)
    }

    constructor (ghost now: int)
      requires now > 0
      ensures Init(Value()) && clock == now
    {
      alarms, handles, armed, nextId := [], [], None, 0;
      clock, log, pending := now, [], {};
    }

    /** XplAlarmPrepareNextTick: fold the list into the shortest wait, and arm
        the signal for it unless there is none. */
    method PrepareNextTick(now: int)
      modifies this`armed
      ensures armed == Arm(old(armed), alarms, now)
    {
      var delay := 0;
      var i := 0;
      while i < |alarms|
        invariant i <= |alarms| && delay == NextDelay(alarms[..i], now)
        modifies {}
      {
        var a := alarms[i];
        assert alarms[..i + 1][..i] == alarms[..i];
        var nextTime := if a.last != 0 then a.last else now;
        if a.delay != 0 {
          nextTime := nextTime + a.delay;
        } else if a.repeat != 0 {
          nextTime := nextTime + a.repeat;
        }
        if nextTime > now {
          var nextDelay := nextTime - now;
          if delay == 0 || nextDelay < delay {
            delay := nextDelay;
          }
        } else {
          delay := 1;
        }
        i := i + 1;
      }
      assert alarms[..i] == alarms;
      if delay != 0 {
        armed := Some(now + delay);
      }
    }

    /** _XplAlarmDestroy: unlink the alarm, wherever it is in the list. */
    method Remove(id: nat)
      modifies this`alarms
      ensures alarms == Without(old(alarms), id)
    {
      var k := 0;
      while k < |alarms| && alarms[k].id != id
        invariant k <= |alarms| && forall i | 0 <= i < k :: alarms[i].id != id
        modifies {}
      {
        k := k + 1;
      }
      if k < |alarms| {
        WithoutAt(alarms, k);
        alarms := alarms[..k] + alarms[k + 1..];
      } else {
        WithoutNone(alarms, id);
      }
    }

    /** _XplAlarmInit. */
    method Open(handle: nat)
      modifies this`handles
      ensures Value() == Exec(old(Value()), AlarmRuns.Open(handle))
    {
      handles := [handle] + handles;
    }

    /** _XplAlarmCreate up to the release of the lock. */
    method LinkAlarm(callback: int, delay: int, repeat: int, handle: nat, started: int, at: int) returns (id: nat)
      modifies this`alarms, this`nextId, this`clock, this`pending
      ensures Value() == Exec(old(Value()), Link(callback, delay, repeat, handle, started, at))
      ensures id == old(nextId)
    {
      id := nextId;
      alarms := [Alarm(id, callback, delay, repeat, started, handle)] + alarms;
      nextId := nextId + 1;
      pending := pending + {id};
      clock := at;
    }

    /** And after it. */
    method ArmAlarm(id: nat, at: int)
      modifies this`armed, this`clock, this`pending
      ensures Value() == Exec(old(Value()), Rearm(id, at))
    {
      PrepareNextTick(at);
      pending := pending - {id};
      clock := at;
    }

    /** _XplAlarmCreate with no other caller in between. */
    method Create(callback: int, delay: int, repeat: int, handle: nat, started: int, linked: int, at: int)
      returns (id: nat)
      modifies this
      ensures Value() ==
              Exec(Exec(old(Value()), Link(callback, delay, repeat, handle, started, linked)), Rearm(old(nextId), at))
      ensures id == old(nextId)
    {
      id := LinkAlarm(callback, delay, repeat, handle, started, linked);
      ArmAlarm(id, at);
    }

    /** XplAlarmDestroy. */
    method Destroy(id: nat, at: int)
      modifies this
      ensures Value() == Exec(old(Value()), AlarmRuns.Destroy(id, at))
    {
      Remove(id);
      PrepareNextTick(at);
      clock := at;
    }

    /** The first loop of XplAlarmSignal: what is due goes onto a chain, and is
        re-armed in the list or removed from it. */
    method Fire(at: int) returns (chain: seq<Alarm>)
      modifies this`alarms
      ensures alarms == Remaining(old(alarms), at) && chain == Started(old(alarms), at)
    {
      hide Remaining, Fired, Reversed, Started;
      NothingDue(at);
      chain := [];
      ghost var was := alarms;
      ghost var done := 0;
      var i := 0;
      assert alarms[..0] == [] && was[..0] == [];
      while i < |alarms|
        invariant done <= |was| && i <= |alarms|
        invariant alarms[..i] == Remaining(was[..done], at) && alarms[i..] == was[done..]
        invariant chain == Started(was[..done], at)
        decreases |was| - done
      {
        assert alarms[i] == was[done] && alarms[i + 1..] == was[done + 1..];
        OneMore(was, done, at);
        if alarms[i].last + alarms[i].delay > at + 1 {
          i := i + 1;
        } else {
          chain := [alarms[i]] + chain;
          if alarms[i].repeat == 0 {
            // _XplAlarmDestroy of the node at hand
            alarms := alarms[..i] + alarms[i + 1..];
          } else {
            alarms := alarms[i := alarms[i].(last := at, delay := alarms[i].repeat)];
            i := i + 1;
          }
        }
        done := done + 1;
      }
      assert was[..done] == was && alarms[..i] == alarms;
    }

    /** XplAlarmSignal on SIGALRM: fire what is due, arm for the next tick, and
        start the chain. `started` are the callbacks in the order in which they
        are started. */
    method Signal(at: int, ours: bool) returns (started: seq<int>)
      modifies this
      ensures Value() == Exec(old(Value()), Tick(at, ours))
      ensures |started| == if old(handles) == [] then 0 else |Started(old(alarms), at)|
      ensures old(handles) != [] ==> forall i | 0 <= i < |started| :: started[i] == Started(old(alarms), at)[i].callback
    {
      hide Remaining, NextDelay;
      started := [];
      if ours {
        armed := None;
      }
      if handles == [] {
        clock := at;
        return;
      }
      var chain := Fire(at);
      PrepareNextTick(at);
      clock := at;
      log := log + Entries(chain, at);
      var c := 0;
      while c < |chain|
        invariant c <= |chain| && |started| == c && forall k | 0 <= k < c :: started[k] == chain[k].callback
        modifies {}
      {
        started := started + [chain[c].callback];
        c := c + 1;
      }
    }

    /** XplAlarmShutdown of an open handle: remove the handle's alarms, and with
        the last handle everything else and the armed signal. */
    method Close(handle: nat, at: int)
      requires handle in handles
      modifies this
      ensures Value() == Exec(old(Value()), Shutdown(handle, at))
    {
      ghost var was := alarms;
      ghost var done := 0;
      var i := 0;
      assert alarms[..0] == [];
      while i < |alarms|
        invariant done <= |was| && i <= |alarms|
        invariant alarms[..i] == WithoutHandle(was[..done], handle) && alarms[i..] == was[done..]
        invariant handles == old(handles) && armed == old(armed) && nextId == old(nextId) && log == old(log)
                  && pending == old(pending)
        decreases |was| - done
      {
        assert alarms[i] == was[done] && alarms[i + 1..] == was[done + 1..];
        assert was[..done + 1] == was[..done] + [was[done]];
        WithoutHandleConcat(was[..done], [was[done]], handle);
        if alarms[i].handle == handle {
          alarms := alarms[..i] + alarms[i + 1..];
        } else {
          i := i + 1;
        }
        done := done + 1;
      }
      assert was[..done] == was && alarms[..i] == alarms;
      CloseHandle(handle);
      if handles == [] {
        while alarms != []
          invariant handles == [] && armed == old(armed) && nextId == old(nextId) && log == old(log)
                  && pending == old(pending)
          decreases |alarms|
        {
          alarms := alarms[1..];
        }
        armed := None;
      }
      clock := at;
    }

    /** The search that unlinks the handle itself. */
    method CloseHandle(handle: nat)
      modifies this`handles
      ensures handles == Drop(old(handles), handle)
    {
      var front: seq<nat> := [];
      var rest := handles;
      while rest != [] && rest[0] != handle
        invariant handles == old(handles) == front + rest && Drop(handles, handle) == front + Drop(rest, handle)
        decreases |rest|
        modifies {}
      {
        assert front + ([rest[0]] + Drop(rest[1..], handle)) == front + [rest[0]] + Drop(rest[1..], handle);
        assert front + rest == front + [rest[0]] + rest[1..];
        front, rest := front + [rest[0]], rest[1..];
      }
      if rest != [] {
        handles := front + rest[1..];
      }
    }
  }
}
