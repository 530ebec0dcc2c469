/** The alarm scheduler of src/xpl/xplalarm.c (the half that uses alarm and
    SIGALRM): which alarms a tick fires, what it leaves behind and for when the
    next tick is armed, over whole runs of the clock. */
module Alarms {
  /** An alarm; `id` stands for its address. */
  datatype Alarm = Alarm(id: nat, callback: int, delay: int, repeat: int, last: int, handle: nat)

  // ----- one tick

  function Deadline(a: Alarm): int {
    a.last + a.delay
  }

  predicate Due(a: Alarm, now: int) {
    Deadline(a) <= now + 1
  }

  function Rearmed(a: Alarm, now: int): Alarm {
    a.(last := now, delay := a.repeat)
  }

  /** The alarms that fire, in list order. */
  function Fired(alarms: seq<Alarm>, now: int): seq<Alarm> {
    if alarms == [] then []
    else (if Due(alarms[0], now) then [alarms[0]] else []) + Fired(alarms[1..], now)
  }

  /** What a tick makes of one alarm: kept, re-armed, or removed. */
  function Kept(a: Alarm, now: int): seq<Alarm> {
    if !Due(a, now) then [a] else if a.repeat != 0 then [Rearmed(a, now)] else []
  }

  function Remaining(alarms: seq<Alarm>, now: int): seq<Alarm> {
    if alarms == [] then [] else Kept(alarms[0], now) + Remaining(alarms[1..], now)
  }

  // ----- arming

  /** The time at which the next tick should find the alarm due. */
  function NextTime(a: Alarm, now: int): int {
    (if a.last != 0 then a.last else now) + (if a.delay != 0 then a.delay else a.repeat)
  }

  /** One second at least. */
  function Wait(a: Alarm, now: int): (w: int)
    ensures w >= 1
  {
    if NextTime(a, now) > now then NextTime(a, now) - now else 1
  }

  function Min(a: int, b: int): int {
    if b < a then b else a
  }

  /** The shortest wait, or 0 with no alarms. */
  function NextDelay(alarms: seq<Alarm>, now: int): (d: int)
    ensures d >= 0 && (d == 0 <==> alarms == [])
  {
    if alarms == [] then 0
    else
      var w, before := Wait(alarms[|alarms| - 1], now), NextDelay(alarms[..|alarms| - 1], now);
      if before == 0 then w else Min(before, w)
  }

  /** The armed delay is the least of the waits. */
  lemma {:induction false} NextDelayIsMinimum(alarms: seq<Alarm>, now: int)
    requires alarms != []
    ensures forall i | 0 <= i < |alarms| :: NextDelay(alarms, now) <= Wait(alarms[i], now)
    ensures exists i :: 0 <= i < |alarms| && NextDelay(alarms, now) == Wait(alarms[i], now)
  {
    var n := |alarms| - 1;
    if n > 0 {
      var front := alarms[..n];
      NextDelayIsMinimum(front, now);
      var k :| 0 <= k < |front| && NextDelay(front, now) == Wait(front[k], now);
      assert alarms[k] == front[k];
      forall i | 0 <= i < |alarms| ensures NextDelay(alarms, now) <= Wait(alarms[i], now) {
        if i < n { assert alarms[i] == front[i]; }
      }
      var best := if Wait(alarms[n], now) < NextDelay(front, now) then n else k;
      assert NextDelay(alarms, now) == Wait(alarms[best], now);
    } else {
      assert NextDelay(alarms, now) == Wait(alarms[0], now);
    }
  }

  // ----- what a tick does to each alarm

  predicate UniqueIds(alarms: seq<Alarm>) {
    forall i, j | 0 <= i < j < |alarms| :: alarms[i].id != alarms[j].id
  }

  /** A tick fires exactly the alarms whose deadline is at most one second away. */
  lemma {:induction false} FiresExactlyTheDue(alarms: seq<Alarm>, now: int, a: Alarm)
    ensures a in Fired(alarms, now) <==> a in alarms && a.last + a.delay <= now + 1
  {
    if alarms != [] {
      FiresExactlyTheDue(alarms[1..], now, a);
    }
  }

  lemma {:induction false} FiredIdsAreUnique(alarms: seq<Alarm>, now: int)
    requires UniqueIds(alarms)
    ensures UniqueIds(Fired(alarms, now))
  {
    if alarms != [] {
      var rest := Fired(alarms[1..], now);
      FiredIdsAreUnique(alarms[1..], now);
      forall i | 0 <= i < |rest| ensures rest[i].id != alarms[0].id {
        FiresExactlyTheDue(alarms[1..], now, rest[i]);
      }
    }
  }

  /** What is left: the alarms that were not due, as they were, and the due ones
      that repeat, re-armed from now on. */
  lemma {:induction false} RemainsExactly(alarms: seq<Alarm>, now: int, b: Alarm)
    ensures b in Remaining(alarms, now) <==> exists i :: 0 <= i < |alarms| && b in Kept(alarms[i], now)
  {
    if alarms != [] {
      var tail := alarms[1..];
      RemainsExactly(tail, now, b);
      if b in Remaining(tail, now) {
        var k :| 0 <= k < |tail| && b in Kept(tail[k], now);
        assert b in Kept(alarms[k + 1], now);
      }
      if i :| 0 <= i < |alarms| && b in Kept(alarms[i], now) {
        if i > 0 { assert b in Kept(tail[i - 1], now); }
      }
    }
  }

  /** Ids in the order of the list. */
  function Ids(alarms: seq<Alarm>): (ids: seq<nat>)
    ensures |ids| == |alarms| && forall i | 0 <= i < |alarms| :: ids[i] == alarms[i].id
  {
    seq(|alarms|, i requires 0 <= i < |alarms| => alarms[i].id)
  }

  /** The ids of those a tick removes are left out, the rest keep their order. */
  function KeptIds(alarms: seq<Alarm>, now: int): seq<nat> {
    if alarms == [] then []
    else (if Due(alarms[0], now) && alarms[0].repeat == 0 then [] else [alarms[0].id]) + KeptIds(alarms[1..], now)
  }

  lemma {:induction false} IdsConcat(a: seq<Alarm>, b: seq<Alarm>)
    ensures Ids(a + b) == Ids(a) + Ids(b)
  {
  }

  lemma {:induction false} OrderIsKept(alarms: seq<Alarm>, now: int)
    ensures Ids(Remaining(alarms, now)) == KeptIds(alarms, now)
  {
    if alarms != [] {
      var kept, rest := Kept(alarms[0], now), Remaining(alarms[1..], now);
      OrderIsKept(alarms[1..], now);
      IdsConcat(kept, rest);
      assert Ids(kept) == if Due(alarms[0], now) && alarms[0].repeat == 0 then [] else [alarms[0].id];
    }
  }

  lemma {:induction false} RemainingIdsAreUnique(alarms: seq<Alarm>, now: int)
    requires UniqueIds(alarms)
    ensures UniqueIds(Remaining(alarms, now))
  {
    if alarms != [] {
      var kept, rest := Kept(alarms[0], now), Remaining(alarms[1..], now);
      RemainingIdsAreUnique(alarms[1..], now);
      forall i | 0 <= i < |rest| ensures rest[i].id != alarms[0].id {
        RemainsExactly(alarms[1..], now, rest[i]);
        var k :| 0 <= k < |alarms[1..]| && rest[i] in Kept(alarms[1..][k], now);
        assert alarms[1..][k] == alarms[k + 1];
      }
    }
  }

  /** Delays and intervals are not negative, and the clock is past its origin
      and past every alarm's start. */
  predicate Sane(a: Alarm, now: int) {
    a.delay >= 0 && a.repeat >= 0 && 0 < a.last <= now
  }

  predicate AllSane(alarms: seq<Alarm>, now: int) {
    forall i | 0 <= i < |alarms| :: Sane(alarms[i], now)
  }

  lemma {:induction false} RemainingIsFuture(alarms: seq<Alarm>, now: int, b: Alarm)
    requires AllSane(alarms, now) && b in Remaining(alarms, now)
    ensures Sane(b, now) && Deadline(b) > now && NextTime(b, now) == Deadline(b)
    ensures Deadline(b) > now + 1 || (b.last == now && b.delay == b.repeat)
  {
    RemainsExactly(alarms, now, b);
    var i :| 0 <= i < |alarms| && b in Kept(alarms[i], now);
    assert Sane(alarms[i], now);
  }

  /** After a tick every deadline left is in the future, none that was due has
      survived except re-armed, and the delay that is armed is the least time
      to a deadline. */
  lemma {:induction false} TickArmsForTheNext(alarms: seq<Alarm>, now: int)
    requires AllSane(alarms, now)
    ensures var left := Remaining(alarms, now);
            && AllSane(left, now)
            && (forall i | 0 <= i < |left| :: Deadline(left[i]) > now)
            && (forall i | 0 <= i < |left| :: NextDelay(left, now) <= Deadline(left[i]) - now)
            && (left != [] ==> exists i :: 0 <= i < |left| && NextDelay(left, now) == Deadline(left[i]) - now)
  {
    var left := Remaining(alarms, now);
    forall i | 0 <= i < |left|
        ensures Sane(left[i], now) && Deadline(left[i]) > now && Wait(left[i], now) == Deadline(left[i]) - now {
      RemainingIsFuture(alarms, now, left[i]);
    }
    if left != [] {
      NextDelayIsMinimum(left, now);
      var k :| 0 <= k < |left| && NextDelay(left, now) == Wait(left[k], now);
      assert NextDelay(left, now) == Deadline(left[k]) - now;
    }
  }

  /** A tick fires an alarm more than the one second before the time it is armed
      for exactly when the alarm has no delay, which makes it due at once, and
      its interval, for which it is armed instead, is not over. */
  lemma {:induction false} FiresAheadExactly(alarms: seq<Alarm>, now: int, a: Alarm)
    requires AllSane(alarms, now) && a in alarms
    ensures a in Fired(alarms, now) && NextTime(a, now) > now + 1 <==> a.delay == 0 && a.last + a.repeat > now + 1
  {
    FiresExactlyTheDue(alarms, now, a);
    var i :| 0 <= i < |alarms| && alarms[i] == a;
    assert Sane(alarms[i], now);
  }
}
