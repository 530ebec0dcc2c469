/** What one request does to the shared slab pool when no other thread is at
    work: run to its end from any reachable pool that is at rest, an allocation
    takes the head of the first list that has a node, and grows the pool by one
    slab if there is none; and a node that is put back comes to the head of the
    list it was put back for. */
module SlabPoolSolo {
  import opened Basics
  import opened Counting
  import opened NodeLists
  import opened SlabPool
  import opened SlabPoolSteps
  import opened SlabPoolSafety

  /** Thread t alone takes the pool from one state to the other. */
  ghost predicate Solo(path: seq<Pool>, t: nat) {
    |path| > 0 && forall j | 0 <= j < |path| - 1 :: Moves(path[j], path[j + 1], t)
  }

  ghost predicate Moves(s: Pool, s': Pool, t: nat) {
    exists c: Choice :: StepOf(s, s', t, c)
  }

  ghost predicate Reaches(s: Pool, s': Pool, t: nat) {
    exists path: seq<Pool> :: Solo(path, t) && path[0] == s && path[|path| - 1] == s'
  }

  lemma {:induction false} ReachesSelf(s: Pool, t: nat)
    ensures Reaches(s, s, t)
  {
    assert Solo([s], t) && [s][0] == s;
  }

  lemma {:induction false} GoOn(s: Pool, m: Pool, s': Pool, t: nat, c: Choice)
    requires Reaches(s, m, t) && Enabled(m, t, c) && s' == Exec(m, t, c)
    ensures Reaches(s, s', t)
  {
    hide Exec, Enabled;
    var path: seq<Pool> :| Solo(path, t) && path[0] == s && path[|path| - 1] == m;
    var on := path + [s'];
    assert StepOf(m, s', t, c);
    forall j | 0 <= j < |on| - 1 ensures Moves(on[j], on[j + 1], t) {
      if j < |path| - 1 {
        assert Moves(path[j], path[j + 1], t);
      }
    }
    assert Solo(on, t) && on[0] == s && on[|on| - 1] == s';
  }

  lemma {:induction false} ReachesOn(s: Pool, m: Pool, s': Pool, t: nat)
    requires Reaches(s, m, t) && Reaches(m, s', t)
    ensures Reaches(s, s', t)
  {
    var p: seq<Pool> :| Solo(p, t) && p[0] == s && p[|p| - 1] == m;
    var q: seq<Pool> :| Solo(q, t) && q[0] == m && q[|q| - 1] == s';
    var path := p + q[1..];
    forall j | 0 <= j < |path| - 1 ensures Moves(path[j], path[j + 1], t) {
      if j < |p| - 1 {
        assert Moves(p[j], p[j + 1], t);
      } else {
        var k := j - (|p| - 1);
        assert path[j] == q[k] && path[j + 1] == q[k + 1];
        assert Moves(q[k], q[k + 1], t);
      }
    }
    assert Solo(path, t) && path[0] == s && path[|path| - 1] == s';
  }

  // ----- states on the way

  /** Thread t is at pc, all else as in s. */
  function At(s: Pool, t: nat, pc: PC): Pool
    requires t < |s.pcs|
  {
    s.(pcs := s.pcs[t := pc])
  }

  function On(s: Pool, i: nat, sl: Slab): Pool
    requires i < |s.slabs|
  {
    s.(slabs := s.slabs[i := sl])
  }

  const ANY: Choice := Choice(Get, true, 1)

  /** One statement on a slab. */
  lemma {:induction false} OnSlabStep(start: Pool, s: Pool, t: nat, i: nat, sl: Slab, pc: PC, sl': Slab, pc': PC)
    requires t < |s.pcs| && i < |s.slabs| && Site(pc) == Some(i) && HandedOut(pc).None?
    requires Reaches(start, At(On(s, i, sl), t, pc), t) && CanRun(At(On(s, i, sl), t, pc), pc, ANY)
    requires (NeedsNode(pc) ==> sl.HasNode(pc.n)) && sl' == OnSlab(sl, t, pc) && pc' == AfterSlab(sl, s.prepare, pc)
    ensures Reaches(start, At(On(s, i, sl'), t, pc'), t)
  {
    hide Reaches, OnSlab, AfterSlab, Site, HandedOut, CanRun;
    var m := At(On(s, i, sl), t, pc);
    assert m.slabs[i] == sl && m.pcs[t] == pc;
    SlabStatement(m, t, i);
    assert m.slabs[i := sl'] == s.slabs[i := sl'] && m.pcs[t := pc'] == s.pcs[t := pc'];
    GoOn(start, m, At(On(s, i, sl'), t, pc'), t, ANY);
  }

  lemma {:induction false} SlabStatement(m: Pool, t: nat, i: nat)
    requires Enabled(m, t, ANY) && Site(m.pcs[t]) == Some(i) && HandedOut(m.pcs[t]).None?
    ensures i < |m.slabs|
    ensures (NeedsNode(m.pcs[t]) ==> m.slabs[i].HasNode(m.pcs[t].n)) ==>
              Exec(m, t, ANY) == m.(slabs := m.slabs[i := OnSlab(m.slabs[i], t, m.pcs[t])],
                                    pcs := m.pcs[t := AfterSlab(m.slabs[i], m.prepare, m.pcs[t])])
  {
    hide OnSlab, AfterSlab;
  }

  lemma {:induction false} StartOn(s: Pool, t: nat, i: nat, pc: PC)
    requires t < |s.pcs| && i < |s.slabs|
    ensures At(On(s, i, s.slabs[i]), t, pc) == At(s, t, pc) && Reaches(At(s, t, pc), At(On(s, i, s.slabs[i]), t, pc), t)
  {
    hide Reaches;
    assert s.slabs[i := s.slabs[i]] == s.slabs;
    ReachesSelf(At(s, t, pc), t);
  }

  // ----- one list

  /** A list with no nodes is left as it was. */
  lemma {:induction false} PassList(s: Pool, t: nat, k: Which, i: nat)
    requires t < |s.pcs| && i < |s.slabs| && s.slabs[i].At(k).lock == None && s.slabs[i].At(k).count == 0
    ensures Reaches(At(s, t, Acq(k, i)), At(s, t, if k.Free? && s.prepare then Acq(Alloc, i) else ScanNext(i)), t)
  {
    hide Reaches, Exec, At, On;
    var start, sl := At(s, t, Acq(k, i)), s.slabs[i];
    var locked := sl.With(k, sl.At(k).(lock := Some(t)));
    StartOn(s, t, i, Acq(k, i));
    AtOn(s, t, i, sl, Acq(k, i));
    OnSlabStep(start, s, t, i, sl, Acq(k, i), locked, Test(k, i));
    AtOn(s, t, i, locked, Test(k, i));
    OnSlabStep(start, s, t, i, locked, Test(k, i), locked, Rel(k, i));
    AtOn(s, t, i, locked, Rel(k, i));
    var pc := if k.Free? && s.prepare then Acq(Alloc, i) else ScanNext(i);
    OnSlabStep(start, s, t, i, locked, Rel(k, i), sl, pc);
    StartOn(s, t, i, pc);
  }

  lemma {:induction false} AtOn(s: Pool, t: nat, i: nat, sl: Slab, pc: PC)
    requires t < |s.pcs| && i < |s.slabs|
    ensures var m := At(On(s, i, sl), t, pc);
            |m.pcs| == |s.pcs| && m.pcs[t] == pc && |m.slabs| == |s.slabs| && m.slabs[i] == sl && m.prepare == s.prepare
            && m.held == s.held && m.lock == s.lock
  {
  }

  /** The slab without the head of its list k, which goes out tagged and owned. */
  function TakenSlab(sl: Slab, k: Which, i: nat, n: nat): Slab
    requires sl.HasNode(n)
  {
    sl.With(k, List(None, sl.word[n], sl.At(k).count - 1))
      .(word := sl.word[n := SlabPtr(i)], owned := sl.owned[n := true])
  }

  /** A list whose lock is free and whose head is node n. */
  predicate Heads(sl: Slab, k: Which, i: nat, n: nat) {
    sl.At(k).lock == None && sl.At(k).count != 0 && sl.At(k).head == NodePtr(i, n) && sl.HasNode(n)
  }

  function Locked(sl: Slab, k: Which, t: nat): Slab {
    sl.With(k, sl.At(k).(lock := Some(t)))
  }

  /** Owned and counted off. */
  function CountedOff(sl: Slab, k: Which, t: nat, n: nat): Slab
    requires sl.HasNode(n)
  {
    sl.With(k, List(Some(t), sl.At(k).head, sl.At(k).count - 1)).(owned := sl.owned[n := true])
  }

  /** Unlinked and tagged as well: all but the release of the lock. */
  function InHandSlab(sl: Slab, k: Which, t: nat, i: nat, n: nat): Slab
    requires sl.HasNode(n)
  {
    TakenSlab(sl, k, i, n).With(k, List(Some(t), sl.word[n], sl.At(k).count - 1))
  }

  lemma {:induction false} FindHead(s: Pool, t: nat, k: Which, i: nat, n: nat)
    requires t < |s.pcs| && i < |s.slabs| && Heads(s.slabs[i], k, i, n)
    ensures Reaches(At(s, t, Acq(k, i)), At(On(s, i, Locked(s.slabs[i], k, t)), t, Own(k, i, n)), t)
  {
    hide Reaches, Exec, At, On;
    var start, sl := At(s, t, Acq(k, i)), s.slabs[i];
    var s1 := Locked(sl, k, t);
    StartOn(s, t, i, Acq(k, i));
    AtOn(s, t, i, sl, Acq(k, i));
    OnSlabStep(start, s, t, i, sl, Acq(k, i), s1, Test(k, i));
    AtOn(s, t, i, s1, Test(k, i));
    OnSlabStep(start, s, t, i, s1, Test(k, i), s1, Head(k, i));
    AtOn(s, t, i, s1, Head(k, i));
    OnSlabStep(start, s, t, i, s1, Head(k, i), s1, Own(k, i, n));
  }

  lemma {:induction false} CountOff(start: Pool, s: Pool, t: nat, k: Which, i: nat, n: nat)
    requires t < |s.pcs| && i < |s.slabs| && Heads(s.slabs[i], k, i, n)
    requires Reaches(start, At(On(s, i, Locked(s.slabs[i], k, t)), t, Own(k, i, n)), t)
    ensures Reaches(start, At(On(s, i, CountedOff(s.slabs[i], k, t, n)), t, Unlink(k, i, n)), t)
  {
    hide Reaches, Exec, At, On;
    var s1 := Locked(s.slabs[i], k, t);
    var s2 := s1.(owned := s1.owned[n := true]);
    AtOn(s, t, i, s1, Own(k, i, n));
    OnSlabStep(start, s, t, i, s1, Own(k, i, n), s2, Dec(k, i, n));
    AtOn(s, t, i, s2, Dec(k, i, n));
    OnSlabStep(start, s, t, i, s2, Dec(k, i, n), CountedOff(s.slabs[i], k, t, n), Unlink(k, i, n));
  }

  lemma {:induction false} UnlinkAndTag(start: Pool, s: Pool, t: nat, k: Which, i: nat, n: nat)
    requires t < |s.pcs| && i < |s.slabs| && Heads(s.slabs[i], k, i, n)
    requires Reaches(start, At(On(s, i, CountedOff(s.slabs[i], k, t, n)), t, Unlink(k, i, n)), t)
    ensures Reaches(start, At(On(s, i, InHandSlab(s.slabs[i], k, t, i, n)), t, RelGot(k, i, n)), t)
  {
    hide Reaches, Exec, At, On;
    var s3 := CountedOff(s.slabs[i], k, t, n);
    var s4 := s3.With(k, s3.At(k).(head := s3.word[n]));
    AtOn(s, t, i, s3, Unlink(k, i, n));
    OnSlabStep(start, s, t, i, s3, Unlink(k, i, n), s4, TagNode(k, i, n));
    AtOn(s, t, i, s4, TagNode(k, i, n));
    OnSlabStep(start, s, t, i, s4, TagNode(k, i, n), InHandSlab(s.slabs[i], k, t, i, n), RelGot(k, i, n));
  }

  /** The state after node n of slab i has been taken off list k and given to
      the caller. */
  function Taken(s: Pool, t: nat, k: Which, i: nat, n: nat): Pool
    requires t < |s.pcs| && i < |s.slabs| && s.slabs[i].HasNode(n)
  {
    At(On(s, i, TakenSlab(s.slabs[i], k, i, n)), t, Idle).(held := s.held + multiset{Node(i, n)})
  }

  lemma {:induction false} Release(start: Pool, s: Pool, t: nat, k: Which, i: nat, n: nat)
    requires t < |s.pcs| && i < |s.slabs| && Heads(s.slabs[i], k, i, n)
    requires Reaches(start, At(On(s, i, InHandSlab(s.slabs[i], k, t, i, n)), t, RelGot(k, i, n)), t)
    ensures k.Free? ==> Reaches(start, Taken(s, t, k, i, n), t)
    ensures k.Alloc? ==>
              Reaches(start, At(On(s, i, TakenSlab(s.slabs[i], k, i, n)), t, Prepare(i, n)), t)
  {
    hide Reaches;
    var m := At(On(s, i, InHandSlab(s.slabs[i], k, t, i, n)), t, RelGot(k, i, n));
    var sl := TakenSlab(s.slabs[i], k, i, n);
    assert m.slabs[i := sl] == s.slabs[i := sl];
    assert m.pcs[t := Idle] == s.pcs[t := Idle] && m.pcs[t := Prepare(i, n)] == s.pcs[t := Prepare(i, n)];
    GoOn(start, m, if k.Free? then Taken(s, t, k, i, n) else At(On(s, i, sl), t, Prepare(i, n)), t, ANY);
  }

  lemma {:induction false} PrepareAndGive(start: Pool, s: Pool, t: nat, i: nat, n: nat)
    requires t < |s.pcs| && i < |s.slabs| && s.slabs[i].HasNode(n)
    requires Reaches(start, At(On(s, i, TakenSlab(s.slabs[i], Alloc, i, n)), t, Prepare(i, n)), t)
    ensures Reaches(start, Taken(s, t, Alloc, i, n), t)
  {
    hide Reaches;
    var m := At(On(s, i, TakenSlab(s.slabs[i], Alloc, i, n)), t, Prepare(i, n));
    assert m.pcs[t := Idle] == s.pcs[t := Idle];
    GoOn(start, m, Taken(s, t, Alloc, i, n), t, ANY);
  }

  /** The node at the head of list k goes to the caller, by way of prepareCB if
      it was unprepared. */
  lemma {:induction false} TakeHead(s: Pool, t: nat, k: Which, i: nat, n: nat)
    requires t < |s.pcs| && i < |s.slabs| && Heads(s.slabs[i], k, i, n)
    ensures Reaches(At(s, t, Acq(k, i)), Taken(s, t, k, i, n), t)
    ensures k.Alloc? ==>
              Reaches(At(s, t, Acq(k, i)), At(On(s, i, TakenSlab(s.slabs[i], k, i, n)), t, Prepare(i, n)), t)
  {
    hide Reaches, At, On, TakenSlab, InHandSlab, CountedOff, Locked, Taken;
    var start := At(s, t, Acq(k, i));
    FindHead(s, t, k, i, n);
    CountOff(start, s, t, k, i, n);
    UnlinkAndTag(start, s, t, k, i, n);
    Release(start, s, t, k, i, n);
    if k.Alloc? {
      PrepareAndGive(start, s, t, i, n);
    }
  }

  // ----- a pool at rest

  ghost predicate AtRest(s: Pool) {
    forall t | 0 <= t < |s.pcs| :: s.pcs[t] == Idle
  }

  lemma {:induction false} RestOfPool(s: Pool, w: View)
    requires Inv(s, w) && AtRest(s)
    ensures |s.slabs| == |w| == Published(s) && s.lock == None && !s.growing
    ensures forall i | 0 <= i < |w| :: s.slabs[i].next == if i == 0 then None else Some(i - 1)
  {
    hide SlabsInv, ListClaim;
    CountNone(s.pcs, InGrowth);
  }

  lemma {:induction false} RestOfList(s: Pool, w: View, i: nat, k: Which)
    requires Inv(s, w) && AtRest(s) && i < |w|
    ensures |s.slabs| == |w| && s.slabs[i].At(k).lock == None && s.slabs[i].At(k).count == |w[i].At(k)|
    ensures w[i].At(k) != [] ==> Heads(s.slabs[i], k, i, w[i].At(k)[0])
  {
    NoLockHeld(s, w, i, k);
    SettledWhenUnlocked(s, w, i, k);
    hide Inv, AtRest;
    var ns := w[i].At(k);
    if ns != [] {
      ChainAt(i, s.slabs[i].word, s.slabs[i].At(k).head, ns, 0);
      assert ns[0] in ns;
    }
  }

  lemma {:induction false} NoLockHeld(s: Pool, w: View, i: nat, k: Which)
    requires Inv(s, w) && AtRest(s) && i < |w|
    ensures |s.slabs| == |w| && s.slabs[i].At(k).lock == None
  {
    hide SlabInv, PlaceInv, ListClaim, GrowInv;
    assert LockInv(s, i, k);
  }

  // ----- the scan

  predicate Offers(v: SlabView, prepare: bool) {
    v.free != [] || (prepare && v.alloc != [])
  }

  lemma {:induction false} PassSlab(s: Pool, w: View, t: nat, i: nat)
    requires Inv(s, w) && AtRest(s) && t < |s.pcs| && i < |w| && !Offers(w[i], s.prepare)
    ensures Reaches(At(s, t, Acq(Free, i)), At(s, t, Scan(if i == 0 then None else Some(i - 1))), t)
  {
    hide Inv, AtRest, Reaches, At;
    var start := At(s, t, Acq(Free, i));
    RestOfPool(s, w);
    RestOfList(s, w, i, Free);
    RestOfList(s, w, i, Alloc);
    PassList(s, t, Free, i);
    if s.prepare {
      PassList(s, t, Alloc, i);
      ReachesOn(start, At(s, t, Acq(Alloc, i)), At(s, t, ScanNext(i)), t);
    }
    NextSlab(start, s, t, i);
  }

  lemma {:induction false} NextSlab(start: Pool, s: Pool, t: nat, i: nat)
    requires t < |s.pcs| && i < |s.slabs| && Reaches(start, At(s, t, ScanNext(i)), t)
    ensures Reaches(start, At(s, t, Scan(s.slabs[i].next)), t)
  {
    hide Reaches, At, On, Exec;
    var sl := s.slabs[i];
    StartOn(s, t, i, ScanNext(i));
    AtOn(s, t, i, sl, ScanNext(i));
    OnSlabStep(start, s, t, i, sl, ScanNext(i), sl, Scan(sl.next));
    StartOn(s, t, i, Scan(sl.next));
  }

  /** Slabs with nothing to offer are passed over, from the newest down. */
  lemma {:induction false} ScanTo(s: Pool, w: View, t: nat, from: nat, to: nat)
    requires Inv(s, w) && AtRest(s) && t < |s.pcs| && to <= from < |w|
    requires forall j | to < j <= from :: !Offers(w[j], s.prepare)
    ensures Reaches(At(s, t, Acq(Free, from)), At(s, t, Acq(Free, to)), t)
    decreases from
  {
    hide Inv, AtRest, Reaches, At, Offers;
    if from == to {
      ReachesSelf(At(s, t, Acq(Free, from)), t);
    } else {
      PassSlab(s, w, t, from);
      ScanTo(s, w, t, from - 1, to);
      ReachesOn(At(s, t, Acq(Free, from)), At(s, t, Acq(Free, from - 1)), At(s, t, Acq(Free, to)), t);
    }
  }

  lemma {:induction false} ScanStarts(s: Pool, w: View, t: nat)
    requires Inv(s, w) && AtRest(s) && t < |s.pcs|
    ensures Reaches(s, At(s, t, if |w| == 0 then PoolAcq else Acq(Free, |w| - 1)), t)
  {
    hide Inv, Reaches, At;
    RestOfPool(s, w);
    ScanBegins(s, t);
  }

  lemma {:induction false} ScanBegins(s: Pool, t: nat)
    requires t < |s.pcs| && s.pcs[t] == Idle
    ensures Reaches(s, At(s, t, Scan(s.slabList)), t)
  {
    hide Reaches;
    ReachesSelf(s, t);
    GoOn(s, s, At(s, t, ScanTop), t, ANY);
    ScansFromTop(s, s, t);
  }

  /** With no slab that offers a node the scan ends at the growth of the pool. */
  lemma {:induction false} ScanEnds(s: Pool, w: View, t: nat)
    requires Inv(s, w) && AtRest(s) && t < |s.pcs|
    requires forall j | 0 <= j < |w| :: !Offers(w[j], s.prepare)
    ensures Reaches(s, At(s, t, PoolAcq), t)
  {
    hide Inv, AtRest, Reaches, At, Offers;
    ScanStarts(s, w, t);
    if |w| > 0 {
      ScanTo(s, w, t, |w| - 1, 0);
      PassSlab(s, w, t, 0);
      ReachesOn(s, At(s, t, Acq(Free, |w| - 1)), At(s, t, Acq(Free, 0)), t);
      ReachesOn(s, At(s, t, Acq(Free, 0)), At(s, t, PoolAcq), t);
    }
  }

  // ----- growth

  /** The pool with one more slab, which comes first in its list. */
  function Grown(s: Pool, nodes: nat): Pool
    requires nodes >= 1
  {
    var n := |s.slabs|;
    s.(slabs := s.slabs + [Carved(n, nodes, s.prepare).(next := s.slabList)], slabList := Some(n),
       slabCount := s.slabCount + 1)
  }

  lemma {:induction false} GrowStep(start: Pool, m: Pool, t: nat, pc: PC, m': Pool, pc': PC, nodes: nat)
    requires t < |m.pcs| && m'.pcs == m.pcs && Grows(pc) && Reaches(start, At(m, t, pc), t) && nodes >= 1
    requires CanRun(At(m, t, pc), pc, Choice(Get, true, nodes))
    requires OnPool(At(m, t, pc), t, pc, Choice(Get, true, nodes)) == (At(m', t, pc), pc')
    ensures Reaches(start, At(m', t, pc'), t)
  {
    hide Reaches, OnPool, Grows, CanRun;
    var c := Choice(Get, true, nodes);
    var a := At(m, t, pc);
    assert a.pcs[t := pc'] == m.pcs[t := pc'];
    GrowExec(a, t, c);
    GoOn(start, a, At(m', t, pc'), t, c);
  }

  lemma {:induction false} GrowBegins(s: Pool, t: nat, nodes: nat)
    requires t < |s.pcs| && s.lock == None && !s.growing && nodes >= 1
    ensures Reaches(At(s, t, PoolAcq), At(s.(growing := true), t, Carve), t)
  {
    hide Reaches, Carved, Exec, CanRun;
    var start, g := At(s, t, PoolAcq), s.(growing := true);
    ReachesSelf(start, t);
    CanGrow(s, t, PoolAcq, nodes);
    GrowStep(start, s, t, PoolAcq, s.(lock := Some(t)), PoolTest, nodes);
    CanGrow(s.(lock := Some(t)), t, PoolTest, nodes);
    GrowStep(start, s.(lock := Some(t)), t, PoolTest, s.(lock := Some(t)), GrowSet, nodes);
    CanGrow(s.(lock := Some(t)), t, GrowSet, nodes);
    GrowStep(start, s.(lock := Some(t)), t, GrowSet, g.(lock := Some(t)), GrowRel, nodes);
    CanGrow(g.(lock := Some(t)), t, GrowRel, nodes);
    GrowStep(start, g.(lock := Some(t)), t, GrowRel, g, Carve, nodes);
  }

  lemma {:induction false} CanGrow(m: Pool, t: nat, pc: PC, nodes: nat)
    requires t < |m.pcs| && nodes >= 1 && Grows(pc) && !pc.LinkSlab?
    requires pc.PoolAcq? || pc.PoolReacq? || pc.WaitAcq? ==> m.lock == None
    ensures CanRun(At(m, t, pc), pc, Choice(Get, true, nodes))
  {
  }

  lemma {:induction false} GrowLinks(start: Pool, s: Pool, t: nat, nodes: nat)
    requires t < |s.pcs| && s.lock == None && nodes >= 1
    requires Reaches(start, At(s.(growing := true), t, Carve), t)
    ensures var sl := Carved(|s.slabs|, nodes, s.prepare).(next := s.slabList);
            Reaches(start, At(s.(growing := true, slabs := s.slabs + [sl]), t, Publish(|s.slabs|)), t)
  {
    hide Reaches, Carved, Exec;
    var n, g := |s.slabs|, s.(growing := true);
    var sl := Carved(n, nodes, s.prepare);
    var carved := g.(slabs := s.slabs + [sl]);
    var linked := g.(slabs := s.slabs + [sl.(next := s.slabList)]);
    assert carved.slabs[n := sl.(next := s.slabList)] == linked.slabs;
    GrowStep(start, g, t, Carve, carved, LinkSlab(n), nodes);
    GrowStep(start, carved, t, LinkSlab(n), linked, Publish(n), nodes);
  }

  lemma {:induction false} GrowFinishes(start: Pool, s: Pool, t: nat, nodes: nat)
    requires t < |s.pcs| && s.lock == None && !s.growing && nodes >= 1
    requires var sl := Carved(|s.slabs|, nodes, s.prepare).(next := s.slabList);
             Reaches(start, At(s.(growing := true, slabs := s.slabs + [sl]), t, Publish(|s.slabs|)), t)
    ensures Reaches(start, At(Grown(s, nodes), t, ScanTop), t)
  {
    hide Reaches, Carved, Exec, CanRun;
    var n, grown := |s.slabs|, Grown(s, nodes);
    var m := grown.(growing := true);
    var linked := m.(slabList := s.slabList, slabCount := s.slabCount);
    CanGrow(linked, t, Publish(n), nodes);
    GrowStep(start, linked, t, Publish(n), m.(slabCount := s.slabCount), Bump, nodes);
    CanGrow(m.(slabCount := s.slabCount), t, Bump, nodes);
    GrowStep(start, m.(slabCount := s.slabCount), t, Bump, m, PoolReacq, nodes);
    CanGrow(m, t, PoolReacq, nodes);
    GrowStep(start, m, t, PoolReacq, m.(lock := Some(t)), GrowClear, nodes);
    CanGrow(m.(lock := Some(t)), t, GrowClear, nodes);
    GrowStep(start, m.(lock := Some(t)), t, GrowClear, grown.(lock := Some(t)), PoolRel, nodes);
    CanGrow(grown.(lock := Some(t)), t, PoolRel, nodes);
    GrowStep(start, grown.(lock := Some(t)), t, PoolRel, grown, ScanTop, nodes);
  }

  lemma {:induction false} ScansFromTop(start: Pool, s: Pool, t: nat)
    requires t < |s.pcs| && Reaches(start, At(s, t, ScanTop), t)
    ensures Reaches(start, At(s, t, Scan(s.slabList)), t)
  {
    hide Reaches;
    var m := At(s, t, ScanTop);
    assert m.pcs[t := Scan(s.slabList)] == s.pcs[t := Scan(s.slabList)];
    GoOn(start, m, At(s, t, Scan(s.slabList)), t, ANY);
  }

  lemma {:induction false} GrowAloneOnce(s: Pool, t: nat, nodes: nat)
    requires t < |s.pcs| && s.lock == None && !s.growing && nodes >= 1
    ensures Reaches(At(s, t, PoolAcq), At(Grown(s, nodes), t, Acq(Free, |s.slabs|)), t)
  {
    hide Reaches, Carved, At;
    var start := At(s, t, PoolAcq);
    GrowBegins(s, t, nodes);
    GrowLinks(start, s, t, nodes);
    GrowFinishes(start, s, t, nodes);
    ScansFromTop(start, Grown(s, nodes), t);
  }

  // ----- an allocation

  /** The newest slab below n that offers a node, if any. */
  function Newest(w: View, prepare: bool, n: nat): (o: Option<nat>)
    requires n <= |w|
    ensures o.Some? ==> o.value < n && Offers(w[o.value], prepare)
    ensures o.Some? ==> forall j | o.value < j < n :: !Offers(w[j], prepare)
    ensures o.None? ==> forall j | 0 <= j < n :: !Offers(w[j], prepare)
  {
    if n == 0 then None else if Offers(w[n - 1], prepare) then Some(n - 1) else Newest(w, prepare, n - 1)
  }

  /** Free nodes go before unprepared ones. */
  lemma {:induction false} TakeFromSlab(s: Pool, w: View, t: nat, i: nat) returns (k: Which, n: nat)
    requires Inv(s, w) && AtRest(s) && t < |s.pcs| && i < |w| && Offers(w[i], s.prepare)
    ensures k == (if w[i].free != [] then Free else Alloc) && w[i].At(k) != [] && n == w[i].At(k)[0]
    ensures i < |s.slabs| && s.slabs[i].HasNode(n)
    ensures Reaches(At(s, t, Acq(Free, i)), Taken(s, t, k, i, n), t)
    ensures k.Alloc? ==>
              s.prepare
              && Reaches(At(s, t, Acq(Free, i)), At(On(s, i, TakenSlab(s.slabs[i], k, i, n)), t, Prepare(i, n)), t)
  {
    hide Inv, AtRest, Reaches, At, Taken, TakenSlab;
    var start := At(s, t, Acq(Free, i));
    k := if w[i].free != [] then Free else Alloc;
    n := w[i].At(k)[0];
    RestOfList(s, w, i, Free);
    RestOfList(s, w, i, Alloc);
    TakeHead(s, t, k, i, n);
    if k.Alloc? {
      PassList(s, t, Free, i);
      ReachesOn(start, At(s, t, Acq(Alloc, i)), Taken(s, t, k, i, n), t);
      ReachesOn(start, At(s, t, Acq(Alloc, i)), At(On(s, i, TakenSlab(s.slabs[i], k, i, n)), t, Prepare(i, n)), t);
    }
  }

  /** An allocation with no other thread at work, where some slab has a node to
      offer: the newest such slab gives the head of its free list, or if that is
      empty the head of its unprepared list, which runs through prepareCB. */
  lemma {:induction false} GetAlone(s: Pool, w: View, t: nat, i: nat) returns (k: Which, n: nat)
    requires Inv(s, w) && AtRest(s) && t < |s.pcs| && Newest(w, s.prepare, |w|) == Some(i)
    ensures k == (if w[i].free != [] then Free else Alloc) && w[i].At(k) != [] && n == w[i].At(k)[0]
    ensures i < |s.slabs| && s.slabs[i].HasNode(n) && Reaches(s, Taken(s, t, k, i, n), t)
    ensures k.Alloc? ==>
              s.prepare && Reaches(s, At(On(s, i, TakenSlab(s.slabs[i], k, i, n)), t, Prepare(i, n)), t)
  {
    hide Inv, AtRest, Reaches, At, Taken, TakenSlab, Offers;
    ScanStarts(s, w, t);
    ScanTo(s, w, t, |w| - 1, i);
    ReachesOn(s, At(s, t, Acq(Free, |w| - 1)), At(s, t, Acq(Free, i)), t);
    k, n := TakeFromSlab(s, w, t, i);
    ReachesOn(s, At(s, t, Acq(Free, i)), Taken(s, t, k, i, n), t);
    if k.Alloc? {
      ReachesOn(s, At(s, t, Acq(Free, i)), At(On(s, i, TakenSlab(s.slabs[i], k, i, n)), t, Prepare(i, n)), t);
    }
  }

  lemma {:induction false} CarvedHeads(n: nat, nodes: nat, prepare: bool, next: Option<nat>)
    requires nodes >= 1
    ensures var sl, k := Carved(n, nodes, prepare).(next := next), if prepare then Alloc else Free;
            && Heads(sl, k, n, 0) && (prepare ==> sl.free.lock == None && sl.free.count == 0)
  {
  }

  /** Where no slab has one: one slab of any number of nodes is cut, and its
      first node is handed out. */
  lemma {:induction false} GetAloneGrows(s: Pool, w: View, t: nat, nodes: nat)
    requires Inv(s, w) && AtRest(s) && t < |s.pcs| && Newest(w, s.prepare, |w|) == None && nodes >= 1
    ensures var k, n, grown := if s.prepare then Alloc else Free, |s.slabs|, Grown(s, nodes);
            && |grown.slabs| == n + 1 && grown.slabs[n].HasNode(0) && Reaches(s, Taken(grown, t, k, n, 0), t)
            && (s.prepare ==> Reaches(s, At(On(grown, n, TakenSlab(grown.slabs[n], k, n, 0)), t, Prepare(n, 0)), t))
  {
    hide Inv, AtRest, Reaches, At, Taken, TakenSlab, Offers, Carved;
    var k, n, grown := if s.prepare then Alloc else Free, |s.slabs|, Grown(s, nodes);
    RestOfPool(s, w);
    ScanEnds(s, w, t);
    GrowAloneOnce(s, t, nodes);
    ReachesOn(s, At(s, t, PoolAcq), At(grown, t, Acq(Free, n)), t);
    CarvedHeads(n, nodes, s.prepare, s.slabList);
    if s.prepare {
      PassList(grown, t, Free, n);
      ReachesOn(s, At(grown, t, Acq(Free, n)), At(grown, t, Acq(Alloc, n)), t);
    }
    TakeHead(grown, t, k, n, 0);
    ReachesOn(s, At(grown, t, Acq(k, n)), Taken(grown, t, k, n, 0), t);
    if s.prepare {
      ReachesOn(s, At(grown, t, Acq(k, n)), At(On(grown, n, TakenSlab(grown.slabs[n], k, n, 0)), t, Prepare(n, 0)), t);
    }
  }

  // ----- putting a node back

  /** The slab with node n in front of list k, disowned. */
  function PutSlab(sl: Slab, k: Which, i: nat, n: nat): Slab
    requires sl.HasNode(n)
  {
    sl.With(k, List(None, NodePtr(i, n), sl.At(k).count + 1))
      .(word := sl.word[n := sl.At(k).head], owned := sl.owned[n := false])
  }

  lemma {:induction false} PutBegins(s: Pool, t: nat, k: Which, x: Node)
    requires t < |s.pcs| && s.pcs[t] == Idle && x in s.held
    ensures Reaches(s, At(s.(held := s.held - multiset{x}), t, ReadTag(k, x.slab, x.idx)), t)
  {
    hide Reaches;
    ReachesSelf(s, t);
    GoOn(s, s, At(s.(held := s.held - multiset{x}), t, ReadTag(k, x.slab, x.idx)), t, Choice(Put(k, x), true, 1));
  }

  lemma {:induction false} PutLinks(start: Pool, s: Pool, t: nat, k: Which, i: nat, n: nat)
    requires t < |s.pcs| && i < |s.slabs| && s.slabs[i].HasNode(n) && s.slabs[i].word[n] == SlabPtr(i)
    requires s.slabs[i].At(k).lock == None && Reaches(start, At(s, t, ReadTag(k, i, n)), t)
    ensures var sl := Locked(s.slabs[i], k, t);
            Reaches(start, At(On(s, i, sl.(owned := sl.owned[n := false])), t, PutNext(k, i, n)), t)
  {
    hide Reaches, Exec, At, On;
    var sl := s.slabs[i];
    var s1 := Locked(sl, k, t);
    StartOn(s, t, i, ReadTag(k, i, n));
    AtOn(s, t, i, sl, ReadTag(k, i, n));
    OnSlabStep(start, s, t, i, sl, ReadTag(k, i, n), sl, PutAcq(k, i, n));
    AtOn(s, t, i, sl, PutAcq(k, i, n));
    OnSlabStep(start, s, t, i, sl, PutAcq(k, i, n), s1, PutOwn(k, i, n));
    AtOn(s, t, i, s1, PutOwn(k, i, n));
    OnSlabStep(start, s, t, i, s1, PutOwn(k, i, n), s1.(owned := s1.owned[n := false]), PutNext(k, i, n));
  }

  /** In front of the list, but not counted. */
  function LinkedIn(sl: Slab, k: Which, t: nat, i: nat, n: nat): Slab
    requires sl.HasNode(n)
  {
    PutSlab(sl, k, i, n).With(k, List(Some(t), NodePtr(i, n), sl.At(k).count))
  }

  lemma {:induction false} PutInFront(start: Pool, s: Pool, t: nat, k: Which, i: nat, n: nat)
    requires t < |s.pcs| && i < |s.slabs| && s.slabs[i].HasNode(n)
    requires var sl := Locked(s.slabs[i], k, t);
             Reaches(start, At(On(s, i, sl.(owned := sl.owned[n := false])), t, PutNext(k, i, n)), t)
    ensures Reaches(start, At(On(s, i, LinkedIn(s.slabs[i], k, t, i, n)), t, PutCount(k, i)), t)
  {
    hide Reaches, Exec, At, On;
    var sl := s.slabs[i];
    var s2 := Locked(sl, k, t).(owned := sl.owned[n := false]);
    var s3 := s2.(word := s2.word[n := sl.At(k).head]);
    AtOn(s, t, i, s2, PutNext(k, i, n));
    OnSlabStep(start, s, t, i, s2, PutNext(k, i, n), s3, PutHead(k, i, n));
    AtOn(s, t, i, s3, PutHead(k, i, n));
    OnSlabStep(start, s, t, i, s3, PutHead(k, i, n), LinkedIn(sl, k, t, i, n), PutCount(k, i));
  }

  lemma {:induction false} PutFinishes(start: Pool, s: Pool, t: nat, k: Which, i: nat, n: nat)
    requires t < |s.pcs| && i < |s.slabs| && s.slabs[i].HasNode(n)
    requires Reaches(start, At(On(s, i, LinkedIn(s.slabs[i], k, t, i, n)), t, PutCount(k, i)), t)
    ensures Reaches(start, At(On(s, i, PutSlab(s.slabs[i], k, i, n)), t, Idle), t)
  {
    hide Reaches, Exec, At, On;
    var sl := s.slabs[i];
    var s4 := LinkedIn(sl, k, t, i, n);
    var s5 := s4.With(k, s4.At(k).(count := sl.At(k).count + 1));
    AtOn(s, t, i, s4, PutCount(k, i));
    OnSlabStep(start, s, t, i, s4, PutCount(k, i), s5, PutRel(k, i));
    AtOn(s, t, i, s5, PutRel(k, i));
    OnSlabStep(start, s, t, i, s5, PutRel(k, i), PutSlab(sl, k, i, n), Idle);
  }

  /** Freeing or discarding a held node with no other thread at work: it comes
      to the head of the free list, or of the unprepared list, of its slab. */
  lemma {:induction false} PutAlone(s: Pool, w: View, t: nat, k: Which, x: Node)
    requires Inv(s, w) && AtRest(s) && t < |s.pcs| && x in s.held
    ensures SlabExists(s, x.slab, x.idx)
    ensures var back := On(s, x.slab, PutSlab(s.slabs[x.slab], k, x.slab, x.idx)).(held := s.held - multiset{x});
            Reaches(s, back, t)
  {
    hide Inv, Reaches, At, PutSlab;
    HeldIsOut(s, w, x);
    RestOfList(s, w, x.slab, k);
    PutBegins(s, t, k, x);
    var m := s.(held := s.held - multiset{x});
    PutLinks(s, m, t, k, x.slab, x.idx);
    PutInFront(s, m, t, k, x.slab, x.idx);
    PutFinishes(s, m, t, k, x.slab, x.idx);
    IdleAgain(On(m, x.slab, PutSlab(s.slabs[x.slab], k, x.slab, x.idx)), t);
  }

  lemma {:induction false} IdleAgain(s: Pool, t: nat)
    requires t < |s.pcs| && s.pcs[t] == Idle
    ensures At(s, t, Idle) == s
  {
    assert s.pcs[t := Idle] == s.pcs;
  }
}
