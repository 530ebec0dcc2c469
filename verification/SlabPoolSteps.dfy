/** How the shared slab pool keeps its invariant.

    The invariant is stated over a view: for every slab, the contents of its
    two lists and the place of each node. It says of every list what holds at
    the stage at which a lock holder works on it, of every thread what it
    claims about the list and the node in its hands, and of the growth of the
    pool that one thread at most is at it.

    Each kind of statement is shown to keep it: one on a slab, one of the
    growth of the pool, one that hands a node over or takes one back, and one
    that touches no list. */
module SlabPoolSteps {
  import opened Basics
  import opened Counting
  import opened NodeLists
  import opened SlabPool

  // ----- where each node is

  datatype Place = InFree | InAlloc | Moving(t: nat) | Out

  function ListPlace(k: Which): Place {
    if k.Free? then InFree else InAlloc
  }

  /** The contents of a slab's two lists and the place of each of its nodes. */
  datatype SlabView = SlabView(free: seq<nat>, alloc: seq<nat>, place: seq<Place>) {
    function At(k: Which): seq<nat> {
      if k.Free? then free else alloc
    }

    function With(k: Which, ns: seq<nat>): SlabView {
      if k.Free? then this.(free := ns) else this.(alloc := ns)
    }
  }

  type View = seq<SlabView>

  // ----- what a program counter says

  /** The list whose lock the thread holds. */
  function HeldList(pc: PC): Option<(Which, nat)> {
    match pc
    case Test(k, i) => Some((k, i))
    case Head(k, i) => Some((k, i))
    case Own(k, i, _) => Some((k, i))
    case Dec(k, i, _) => Some((k, i))
    case Unlink(k, i, _) => Some((k, i))
    case TagNode(k, i, _) => Some((k, i))
    case RelGot(k, i, _) => Some((k, i))
    case Rel(k, i) => Some((k, i))
    case PutOwn(k, i, _) => Some((k, i))
    case PutNext(k, i, _) => Some((k, i))
    case PutHead(k, i, _) => Some((k, i))
    case PutCount(k, i) => Some((k, i))
    case PutRel(k, i) => Some((k, i))
    case _ => None
  }

  /** The node the thread has in its hands: off every list, not yet with a caller. */
  function InHand(pc: PC): Option<Node> {
    match pc
    case TagNode(_, i, n) => Some(Node(i, n))
    case RelGot(_, i, n) => Some(Node(i, n))
    case Prepare(i, n) => Some(Node(i, n))
    case ReadTag(_, i, n) => Some(Node(i, n))
    case PutAcq(_, i, n) => Some(Node(i, n))
    case PutOwn(_, i, n) => Some(Node(i, n))
    case PutNext(_, i, n) => Some(Node(i, n))
    case PutHead(_, i, n) => Some(Node(i, n))
    case _ => None
  }

  /** How far the holder of a list's lock is: nothing changed yet, about to
      take node n off the head, n marked as owned, n also counted off, or a
      node pushed but not yet counted. */
  datatype Stage = Quiet | Taking(n: nat) | Owned(n: nat) | Counted(n: nat) | Pushed

  function StageOf(pc: PC): Stage {
    match pc
    case Own(_, _, n) => Taking(n)
    case Dec(_, _, n) => Owned(n)
    case Unlink(_, _, n) => Counted(n)
    case PutCount(_, _) => Pushed
    case _ => Quiet
  }

  /** The stages of a slab's two lists. */
  datatype Stages = Stages(free: Stage, alloc: Stage) {
    function At(k: Which): Stage {
      if k.Free? then free else alloc
    }

    function With(k: Which, st: Stage): Stages {
      if k.Free? then this.(free := st) else this.(alloc := st)
    }
  }

  predicate InGrowth(pc: PC) {
    pc.GrowRel? || pc.Carve? || pc.LinkSlab? || pc.Publish? || pc.Bump? || pc.PoolReacq? || pc.GrowClear?
  }

  predicate HoldsPool(pc: PC) {
    pc.PoolTest? || pc.WaitTest? || pc.WaitRel? || pc.GrowSet? || pc.GrowRel? || pc.GrowClear? || pc.PoolRel?
  }

  /** The slabs that are linked into the pool's list. */
  function Published(s: Pool): nat {
    if s.slabList.Some? then s.slabList.value + 1 else 0
  }

  // ----- the invariant

  /** One list of slab i, at the given stage of its lock's holder. */
  ghost predicate ListInv(i: nat, sl: Slab, v: SlabView, k: Which, st: Stage) {
    var ns := v.At(k);
    && Chain(i, sl.word, sl.At(k).head, ns)
    && Distinct(ns)
    && (forall n: nat {:trigger n in ns} :: n in ns <==> n < |v.place| && v.place[n] == ListPlace(k))
    && sl.At(k).count == |ns| - (if st.Counted? || st.Pushed? then 1 else 0)
    && (st.Taking? || st.Owned? || st.Counted? ==> ns != [] && ns[0] == st.n)
    && (forall n | n in ns && n < |sl.owned| :: sl.owned[n] <==> (st.Owned? || st.Counted?) && st.n == n)
  }

  ghost predicate SlabInv(i: nat, sl: Slab, v: SlabView, st: Stages) {
    && |sl.word| == |sl.owned| == |v.place|
    && ListInv(i, sl, v, Free, st.free)
    && ListInv(i, sl, v, Alloc, st.alloc)
    && (forall n | 0 <= n < |v.place| && v.place[n] == Out :: sl.word[n] == SlabPtr(i) && sl.owned[n])
  }

  function HolderStage(s: Pool, l: List): Stage {
    if l.lock.Some? && l.lock.value < |s.pcs| then StageOf(s.pcs[l.lock.value]) else Quiet
  }

  function SlabStages(s: Pool, i: nat): Stages
    requires i < |s.slabs|
  {
    Stages(HolderStage(s, s.slabs[i].free), HolderStage(s, s.slabs[i].alloc))
  }

  ghost predicate LockInv(s: Pool, i: nat, k: Which)
    requires i < |s.slabs|
  {
    var l := s.slabs[i].At(k);
    l.lock.Some? ==> l.lock.value < |s.pcs| && HeldList(s.pcs[l.lock.value]) == Some((k, i))
  }

  /** The node in a thread's hands carries its slab's address and its pool
      except while it is being relinked. */
  predicate HandInv(i: nat, sl: Slab, n: nat, pc: PC)
    requires sl.HasNode(n)
  {
    && (!pc.TagNode? && !pc.PutNext? && !pc.PutHead? ==> sl.word[n] == SlabPtr(i))
    && (sl.owned[n] <==> !pc.PutNext? && !pc.PutHead?)
    && (pc.PutHead? ==> sl.word[n] == sl.At(pc.k).head)
  }

  /** A thread's claims on the lists and nodes it works with. */
  ghost predicate ListClaim(s: Pool, w: View, t: nat, pc: PC)
    requires |s.slabs| == |w|
  {
    && !pc.Crashed?
    && (HeldList(pc).Some? ==>
          var (k, i) := HeldList(pc).value;
          i < |s.slabs| && s.slabs[i].At(k).lock == Some(t))
    && (InHand(pc).Some? ==> HandClaim(s, w, t, pc, InHand(pc).value))
    && (Site(pc).Some? ==> Site(pc).value < Published(s))
  }

  ghost predicate HandClaim(s: Pool, w: View, t: nat, pc: PC, node: Node)
    requires |s.slabs| == |w|
  {
    && node.slab < |w| && node.slab < Published(s) && s.slabs[node.slab].HasNode(node.idx)
    && node.idx < |w[node.slab].place| && w[node.slab].place[node.idx] == Moving(t)
    && HandInv(node.slab, s.slabs[node.slab], node.idx, pc)
  }

  /** A thread's claims on the growth of the pool. */
  ghost predicate GrowClaim(s: Pool, t: nat, pc: PC) {
    && (HoldsPool(pc) ==> s.lock == Some(t))
    && (pc.GrowSet? ==> !s.growing)
    && (InGrowth(pc) ==>
          && s.slabCount == Published(s) - (if pc.Bump? then 1 else 0)
          && |s.slabs| == Published(s) + (if pc.LinkSlab? || pc.Publish? then 1 else 0))
    && (pc.LinkSlab? || pc.Publish? ==> pc.i == Published(s))
    && (pc.Publish? ==> pc.i < |s.slabs| && s.slabs[pc.i].next == s.slabList)
  }

  ghost predicate PlaceInv(s: Pool, w: View, i: nat)
    requires |s.slabs| == |w| && i < |w|
  {
    forall n | 0 <= n < |w[i].place| :: NodePlaceInv(s, w, i, n)
  }

  /** A node in transit is in its mover's hands; a node is held once if it is
      out and not at all otherwise. */
  ghost predicate NodePlaceInv(s: Pool, w: View, i: nat, n: nat)
    requires i < |w| && n < |w[i].place|
  {
    var p := w[i].place[n];
    && (p.Moving? ==> p.t < |s.pcs| && InHand(s.pcs[p.t]) == Some(Node(i, n)))
    && s.held[Node(i, n)] == if p.Out? then 1 else 0
  }

  /** Every slab is well formed and every node is in exactly one place. */
  ghost predicate SlabsInv(s: Pool, w: View)
    requires |s.slabs| == |w|
  {
    && (forall i | 0 <= i < |s.slabs| ::
          SlabInv(i, s.slabs[i], w[i], SlabStages(s, i)) && LockInv(s, i, Free) && LockInv(s, i, Alloc)
              && PlaceInv(s, w, i))
    && (forall x: Node | x in s.held :: HeldIn(s, w, x))
  }

  ghost predicate HeldIn(s: Pool, w: View, x: Node) {
    x.slab < |w| && x.slab < Published(s) && x.idx < |w[x.slab].place|
  }

  /** The chain of published slabs, and the counters when nobody grows the pool. */
  ghost predicate GrowShape(s: Pool) {
    && (!s.growing ==> Published(s) == |s.slabs| && s.slabCount == Published(s))
    && Published(s) <= |s.slabs| <= Published(s) + 1
    && forall j | 0 <= j < Published(s) :: s.slabs[j].next == if j == 0 then None else Some(j - 1)
  }

  /** At most one thread grows the pool; the published slabs link down to the first. */
  ghost predicate GrowInv(s: Pool) {
    && (forall t | 0 <= t < |s.pcs| :: GrowClaim(s, t, s.pcs[t]))
    && Count(s.pcs, InGrowth) == (if s.growing then 1 else 0)
    && GrowShape(s)
    && (s.lock.Some? ==> s.lock.value < |s.pcs| && HoldsPool(s.pcs[s.lock.value]))
  }

  ghost predicate Inv(s: Pool, w: View) {
    && |s.slabs| == |w|
    && SlabsInv(s, w)
    && (forall t | 0 <= t < |s.pcs| :: ListClaim(s, w, t, s.pcs[t]))
    && GrowInv(s)
  }

  // ----- one slab under one statement

  /** A list does not notice what happens to a node that is not on it. */
  lemma {:induction false} ListFrame(i: nat, sl: Slab, sl': Slab, v: SlabView, v': SlabView, k: Which, st: Stage,
      n: nat)
    requires ListInv(i, sl, v, k, st) && |sl.word| == |sl.owned| == |v.place| && n < |v.place|
    requires |sl'.word| == |sl.word| && sl'.word == sl.word[n := sl'.word[n]]
    requires |sl'.owned| == |sl.owned| && sl'.owned == sl.owned[n := sl'.owned[n]]
    requires |v'.place| == |v.place| && v'.place == v.place[n := v'.place[n]]
    requires sl'.At(k).head == sl.At(k).head && sl'.At(k).count == sl.At(k).count
    requires v'.At(k) == v.At(k) && v.place[n] != ListPlace(k) && v'.place[n] != ListPlace(k)
    ensures ListInv(i, sl', v', k, st)
  {
    ChainFrame(i, sl.word, sl.At(k).head, v.At(k), n, sl'.word[n]);
  }

  function Other(k: Which): Which {
    if k.Free? then Alloc else Free
  }

  /** A slab's invariant, list by list. */
  lemma {:induction false} SlabFromLists(i: nat, sl: Slab, v: SlabView, st: Stages, k: Which)
    requires |sl.word| == |sl.owned| == |v.place|
    requires ListInv(i, sl, v, k, st.At(k)) && ListInv(i, sl, v, Other(k), st.At(Other(k)))
    requires forall n | 0 <= n < |v.place| && v.place[n] == Out :: sl.word[n] == SlabPtr(i) && sl.owned[n]
    ensures SlabInv(i, sl, v, st)
  {
  }

  /** Taking or releasing a list's lock changes nothing else. */
  lemma {:induction false} SetLock(i: nat, sl: Slab, v: SlabView, st: Stages, k: Which, lock: Option<nat>)
    requires SlabInv(i, sl, v, st)
    ensures SlabInv(i, sl.With(k, sl.At(k).(lock := lock)), v, st)
  {
  }

  /** node = list: the head, once read, is the node to take. */
  lemma {:induction false} ReadHead(i: nat, sl: Slab, v: SlabView, st: Stages, k: Which)
    requires SlabInv(i, sl, v, st) && st.At(k) == Quiet
    ensures sl.At(k).head == Null
            || (sl.At(k).head.NodePtr? && sl.At(k).head.slab == i && sl.HasNode(sl.At(k).head.idx))
    ensures sl.At(k).head.NodePtr? ==> SlabInv(i, sl, v, st.With(k, Taking(sl.At(k).head.idx)))
    ensures sl.At(k).head == Null ==> sl.At(k).count == 0
  {
    var ns := v.At(k);
    if ns != [] {
      assert ns[0] in ns;
    }
  }

  /** node->pool = pool on the node being taken. */
  lemma {:induction false} MarkOwned(i: nat, sl: Slab, v: SlabView, st: Stages, k: Which, n: nat)
    requires SlabInv(i, sl, v, st) && st.At(k) == Taking(n)
    ensures sl.HasNode(n) && SlabInv(i, sl.(owned := sl.owned[n := true]), v, st.With(k, Owned(n)))
  {
    assert n in v.At(k);
    var sl' := sl.(owned := sl.owned[n := true]);
    assert n !in v.At(Other(k));
    ListFrame(i, sl, sl', v, v, Other(k), st.At(Other(k)), n);
    SlabFromLists(i, sl', v, st.With(k, Owned(n)), k);
  }

  /** nodes-- for the node being taken. */
  lemma {:induction false} CountOff(i: nat, sl: Slab, v: SlabView, st: Stages, k: Which, n: nat)
    requires SlabInv(i, sl, v, st) && st.At(k) == Owned(n)
    ensures sl.HasNode(n) && SlabInv(i, sl.With(k, sl.At(k).(count := sl.At(k).count - 1)), v, st.With(k, Counted(n)))
  {
    assert n in v.At(k);
  }

  function Unlinked(v: SlabView, t: nat, k: Which, n: nat): SlabView {
    if n < |v.place| && v.At(k) != [] then v.With(k, v.At(k)[1..]).(place := v.place[n := Moving(t)]) else v
  }

  /** list = node->next takes the node off. */
  lemma {:induction false} TakeOff(i: nat, sl: Slab, v: SlabView, st: Stages, t: nat, k: Which, n: nat)
    requires SlabInv(i, sl, v, st) && st.At(k) == Counted(n)
    ensures sl.HasNode(n) && sl.owned[n] && v.place[n] == ListPlace(k)
    ensures SlabInv(i, sl.With(k, sl.At(k).(head := sl.word[n])), Unlinked(v, t, k, n), st.With(k, Quiet))
  {
    var ns := v.At(k);
    assert n in ns;
    var sl', v' := sl.With(k, sl.At(k).(head := sl.word[n])), Unlinked(v, t, k, n);
    forall m: nat
      ensures m in ns[1..] <==> m < |v'.place| && v'.place[m] == ListPlace(k)
    {
      assert m in ns <==> m == ns[0] || m in ns[1..];
    }
    assert ListInv(i, sl', v', k, Quiet);
    assert n !in v.At(Other(k));
    ListFrame(i, sl, sl', v, v', Other(k), st.At(Other(k)), n);
    SlabFromLists(i, sl', v', st.With(k, Quiet), k);
  }

  /** A write to the union word of a node in a thread's hands. */
  lemma {:induction false} WriteWord(i: nat, sl: Slab, v: SlabView, st: Stages, n: nat, x: Word)
    requires SlabInv(i, sl, v, st) && n < |v.place| && v.place[n].Moving?
    ensures sl.HasNode(n) && SlabInv(i, sl.(word := sl.word[n := x]), v, st)
  {
    var sl' := sl.(word := sl.word[n := x]);
    ListFrame(i, sl, sl', v, v, Free, st.free, n);
    ListFrame(i, sl, sl', v, v, Alloc, st.alloc, n);
  }

  /** A write to the pool pointer of a node in a thread's hands. */
  lemma {:induction false} WriteOwned(i: nat, sl: Slab, v: SlabView, st: Stages, n: nat, o: bool)
    requires SlabInv(i, sl, v, st) && n < |v.place| && v.place[n].Moving?
    ensures sl.HasNode(n)
    ensures SlabInv(i, sl.(owned := sl.owned[n := o]), v, st)
  {
    var sl' := sl.(owned := sl.owned[n := o]);
    ListFrame(i, sl, sl', v, v, Free, st.free, n);
    ListFrame(i, sl, sl', v, v, Alloc, st.alloc, n);
  }

  /** A node changes hands between threads and callers. */
  lemma {:induction false} ChangeHands(i: nat, sl: Slab, v: SlabView, st: Stages, n: nat, p: Place)
    requires SlabInv(i, sl, v, st) && n < |v.place| && (v.place[n].Moving? || v.place[n].Out?)
    requires p.Moving? || (p.Out? && sl.word[n] == SlabPtr(i) && sl.owned[n])
    ensures SlabInv(i, sl, v.(place := v.place[n := p]), st)
  {
    var v' := v.(place := v.place[n := p]);
    ListFrame(i, sl, sl, v, v', Free, st.free, n);
    ListFrame(i, sl, sl, v, v', Alloc, st.alloc, n);
  }

  function PushedOn(v: SlabView, k: Which, n: nat): SlabView {
    if n < |v.place| then v.With(k, [n] + v.At(k)).(place := v.place[n := ListPlace(k)]) else v
  }

  /** list = node puts a relinked node in front. */
  lemma {:induction false} PushedList(i: nat, sl: Slab, v: SlabView, st: Stages, k: Which, n: nat)
    requires SlabInv(i, sl, v, st) && st.At(k) == Quiet && n < |v.place| && v.place[n].Moving?
    requires sl.word[n] == sl.At(k).head && !sl.owned[n] && n !in v.At(k)
    ensures ListInv(i, sl.With(k, sl.At(k).(head := NodePtr(i, n))), PushedOn(v, k, n), k, Pushed)
  {
    var ns, v' := v.At(k), PushedOn(v, k, n);
    assert ([n] + ns)[1..] == ns;
    forall m: nat
      ensures m in [n] + ns <==> m < |v'.place| && v'.place[m] == ListPlace(k)
    {
      assert m in [n] + ns <==> m == n || m in ns;
    }
  }

  lemma {:induction false} PushOn(i: nat, sl: Slab, v: SlabView, st: Stages, k: Which, n: nat)
    requires SlabInv(i, sl, v, st) && st.At(k) == Quiet && n < |v.place| && v.place[n].Moving?
    requires sl.word[n] == sl.At(k).head && !sl.owned[n]
    ensures SlabInv(i, sl.With(k, sl.At(k).(head := NodePtr(i, n))), PushedOn(v, k, n), st.With(k, Pushed))
  {
    var ns := v.At(k);
    var sl', v' := sl.With(k, sl.At(k).(head := NodePtr(i, n))), PushedOn(v, k, n);
    assert n !in ns && n !in v.At(Other(k));
    PushedList(i, sl, v, st, k, n);
    ListFrame(i, sl, sl', v, v', Other(k), st.At(Other(k)), n);
    SlabFromLists(i, sl', v', st.With(k, Pushed), k);
  }

  /** nodes++ for the node pushed. */
  lemma {:induction false} CountOn(i: nat, sl: Slab, v: SlabView, st: Stages, k: Which)
    requires SlabInv(i, sl, v, st) && st.At(k) == Pushed
    ensures SlabInv(i, sl.With(k, sl.At(k).(count := sl.At(k).count + 1)), v, st.With(k, Quiet))
  {
  }

  // ----- the pool under one statement on a slab

  predicate NeedsNode(pc: PC) {
    pc.Own? || pc.Dec? || pc.Unlink? || pc.TagNode? || pc.RelGot? || pc.ReadTag? || pc.PutOwn? || pc.PutNext?
        || pc.PutHead?
  }

  /** The statement's effect on the view. */
  function OnView(v: SlabView, t: nat, pc: PC): SlabView {
    match pc
    case Unlink(k, _, n) => Unlinked(v, t, k, n)
    case PutHead(k, _, n) => PushedOn(v, k, n)
    case RelGot(k, _, n) => if n < |v.place| && k.Free? then v.(place := v.place[n := Out]) else v
    case Prepare(_, n) => if n < |v.place| then v.(place := v.place[n := Out]) else v
    case _ => v
  }

  /** The stage of list k once the thread goes on to pc'. */
  function NextStage(k: Which, i: nat, pc': PC): Stage {
    if HeldList(pc') == Some((k, i)) then StageOf(pc') else Quiet
  }

  /** What a slab knows about a thread about to execute a statement on it. */
  ghost predicate Ready(i: nat, sl: Slab, v: SlabView, st: Stages, t: nat, pc: PC) {
    && Site(pc) == Some(i) && !pc.ScanNext? && !pc.ReadTag?
    && SlabInv(i, sl, v, st)
    && (HeldList(pc).Some? ==> st.At(pc.k) == StageOf(pc))
    && (pc.Acq? || pc.PutAcq? ==> st.At(pc.k) == Quiet)
    && (InHand(pc).Some? ==> pc.n < |v.place| && v.place[pc.n] == Moving(t) && HandInv(i, sl, pc.n, pc))
  }

  ghost predicate Done(i: nat, sl: Slab, v: SlabView, st: Stages, t: nat, pc: PC, pc': PC)
    requires Site(pc) == Some(i) && !pc.ScanNext? && !pc.ReadTag?
  {
    && (NeedsNode(pc) ==> sl.HasNode(pc.n))
    && SlabInv(i, OnSlab(sl, t, pc), OnView(v, t, pc), st.With(pc.k, NextStage(pc.k, i, pc')))
  }

  lemma {:induction false} SlabStepTake(i: nat, sl: Slab, v: SlabView, st: Stages, t: nat, prepare: bool, pc: PC)
    requires Ready(i, sl, v, st, t, pc)
            && (pc.Acq? || pc.Test? || pc.Head? || pc.Own? || pc.Dec? || pc.Unlink? || pc.Rel?)
    ensures Done(i, sl, v, st, t, pc, AfterSlab(sl, prepare, pc)) && !AfterSlab(sl, prepare, pc).Crashed?
  {
    hide SlabInv, ListInv;
    match pc
    case Acq(k, _) => SetLock(i, sl, v, st, k, Some(t));
    case Test(k, _) =>
    case Head(k, _) => ReadHead(i, sl, v, st, k);
    case Own(k, _, n) => MarkOwned(i, sl, v, st, k, n);
    case Dec(k, _, n) => CountOff(i, sl, v, st, k, n);
    case Unlink(k, _, n) => TakeOff(i, sl, v, st, t, k, n);
    case Rel(k, _) => SetLock(i, sl, v, st, k, None);
  }

  lemma {:induction false} SlabStepHand(i: nat, sl: Slab, v: SlabView, st: Stages, t: nat, prepare: bool, pc: PC)
    requires Ready(i, sl, v, st, t, pc) && (pc.TagNode? || pc.RelGot? || pc.PutAcq? || pc.PutOwn? || pc.PutNext?)
    ensures Done(i, sl, v, st, t, pc, AfterSlab(sl, prepare, pc)) && !AfterSlab(sl, prepare, pc).Crashed?
  {
    hide SlabInv, ListInv;
    match pc
    case TagNode(k, _, n) => WriteWord(i, sl, v, st, n, SlabPtr(i));
    case RelGot(k, _, n) =>
      SetLock(i, sl, v, st, k, None);
      ChangeHands(i, OnSlab(sl, t, pc), v, st, n, Out);
    case PutAcq(k, _, n) => SetLock(i, sl, v, st, k, Some(t));
    case PutOwn(k, _, n) => WriteOwned(i, sl, v, st, n, false);
    case PutNext(k, _, n) => WriteWord(i, sl, v, st, n, sl.At(k).head);
  }

  /** Every statement on a slab keeps the slab's invariant. */
  lemma {:induction false} SlabStep(i: nat, sl: Slab, v: SlabView, st: Stages, t: nat, prepare: bool, pc: PC)
    requires Ready(i, sl, v, st, t, pc)
    ensures Done(i, sl, v, st, t, pc, AfterSlab(sl, prepare, pc)) && !AfterSlab(sl, prepare, pc).Crashed?
  {
    hide SlabInv, ListInv;
    match pc
    case PutHead(k, _, n) => PushOn(i, sl, v, st, k, n);
    case PutCount(k, _) => CountOn(i, sl, v, st, k);
    case PutRel(k, _) => SetLock(i, sl, v, st, k, None);
    case TagNode(_, _, _) => SlabStepHand(i, sl, v, st, t, prepare, pc);
    case RelGot(_, _, _) => SlabStepHand(i, sl, v, st, t, prepare, pc);
    case PutAcq(_, _, _) => SlabStepHand(i, sl, v, st, t, prepare, pc);
    case PutOwn(_, _, _) => SlabStepHand(i, sl, v, st, t, prepare, pc);
    case PutNext(_, _, _) => SlabStepHand(i, sl, v, st, t, prepare, pc);
    case _ => SlabStepTake(i, sl, v, st, t, prepare, pc);
  }

  // ----- the whole pool under one statement

  function NewView(s: Pool, w: View, t: nat, c: Choice): View
    requires Enabled(s, t, c) && |s.slabs| == |w|
  {
    var pc := s.pcs[t];
    match pc
    case Idle =>
      if c.request.Put? && c.request.node.slab < |w| && c.request.node.idx < |w[c.request.node.slab].place| then
        var x := c.request.node;
        w[x.slab := w[x.slab].(place := w[x.slab].place[x.idx := Moving(t)])]
      else w
    case Prepare(i, _) => if i < |w| then w[i := OnView(w[i], t, pc)] else w
    case Carve => if c.memory then w + [FreshView(c.nodes, s.prepare)] else w
    case _ => if Site(pc).Some?
        && Site(pc).value < |w| then w[Site(pc).value := OnView(w[Site(pc).value], t, pc)] else w
  }

  function FreshView(nodes: nat, prepare: bool): SlabView {
    var all := seq(nodes, (l: nat) => l);
    SlabView(
      if prepare then [] else all,
      if prepare then all else [],
      seq(nodes, _ => if prepare then InAlloc else InFree))
  }

  /** A fresh slab is well formed: every node is on its one list, in order. */
  lemma {:induction false} FreshSlab(i: nat, nodes: nat, prepare: bool)
    requires nodes >= 1
    ensures SlabInv(i, Carved(i, nodes, prepare), FreshView(nodes, prepare), Stages(Quiet, Quiet))
  {
    var sl, v := Carved(i, nodes, prepare), FreshView(nodes, prepare);
    FreshChain(i, sl.word, 0, nodes);
    assert seq(nodes - 0, (l: nat) => 0 + l) == seq(nodes, (l: nat) => l);
    var k := if prepare then Alloc else Free;
    assert forall n: nat :: n in v.At(k) <==> n < nodes by {
      forall n: nat | n < nodes ensures n in v.At(k) {
        assert v.At(k)[n] == n;
      }
    }
    SlabFromLists(i, sl, v, Stages(Quiet, Quiet), k);
  }

  /** The statement leaves alone what it does not name. */
  lemma {:induction false} OnSlabFacts(sl: Slab, t: nat, pc: PC)
    requires Site(pc).Some? && (NeedsNode(pc) ==> sl.HasNode(pc.n))
    ensures var sl' := OnSlab(sl, t, pc);
            && sl'.next == sl.next && |sl'.word| == |sl.word| && |sl'.owned| == |sl.owned|
            && (forall k :: sl'.At(k).lock == NewLock(sl.At(k).lock, t, pc, k))
            && (forall k :: !(pc.Unlink? || pc.PutHead?) || pc.k != k ==> sl'.At(k).head == sl.At(k).head)
            && (forall n | 0 <= n < |sl.word|
                && !((pc.TagNode? || pc.PutNext?) && pc.n == n) :: sl'.word[n] == sl.word[n])
            && (forall n | 0 <= n < |sl.owned|
                && !((pc.Own? || pc.PutOwn?) && pc.n == n) :: sl'.owned[n] == sl.owned[n])
  {
  }

  function NewLock(was: Option<nat>, t: nat, pc: PC, k: Which): Option<nat> {
    if (pc.Acq? || pc.PutAcq?) && pc.k == k then Some(t)
    else if (pc.Rel? || pc.RelGot? || pc.PutRel?) && pc.k == k then None
    else was
  }

  lemma {:induction false} SiteReady(s: Pool, w: View, t: nat, c: Choice)
    requires Inv(s, w) && Enabled(s, t, c) && Site(s.pcs[t]).Some? && !s.pcs[t].ScanNext? && !s.pcs[t].ReadTag?
    ensures var i := Site(s.pcs[t]).value; Ready(i, s.slabs[i], w[i], SlabStages(s, i), t, s.pcs[t])
  {
    hide SlabInv, ListInv, PlaceInv, GrowClaim;
    var pc := s.pcs[t];
    assert ListClaim(s, w, t, pc);
  }

  /** How a statement moves a thread's hold on the list it works with. */
  lemma {:induction false} HoldMoves(sl: Slab, prepare: bool, t: nat, pc: PC, was: Option<nat>)
    requires Site(pc).Some? && !pc.ScanNext? && !pc.ReadTag? && !AfterSlab(sl, prepare, pc).Crashed?
    requires HeldList(pc).Some? ==> was == Some(t)
    requires pc.Acq? || pc.PutAcq? ==> was == None
    ensures HeldList(pc).Some? ==> HeldList(pc).value == (pc.k, Site(pc).value)
    ensures var pc' := AfterSlab(sl, prepare, pc);
            && (HeldList(pc').Some? ==> HeldList(pc').value == (pc.k, Site(pc).value))
            && (Site(pc').Some? ==> Site(pc') == Site(pc))
            && NewLock(was, t, pc, pc.k) == if HeldList(pc').Some? then Some(t) else None
  {
  }

  /** The lock of list k of slab j, and who holds it, after a statement on slab i. */
  lemma {:induction false} SiteLock(s: Pool, w: View, t: nat, c: Choice, j: nat, k: Which)
    requires Inv(s, w) && Enabled(s, t, c) && Site(s.pcs[t]).Some? && !Exec(s, t, c).pcs[t].Crashed? && j < |s.slabs|
    ensures var s', pc, i := Exec(s, t, c), s.pcs[t], Site(s.pcs[t]).value;
            && LockInv(s', j, k)
            && HolderStage(s', s'.slabs[j].At(k)) ==
               (if j != i || pc.ScanNext? || pc.ReadTag? || k != pc.k then HolderStage(s, s.slabs[j].At(k))
                else NextStage(k, i, AfterSlab(s.slabs[i], s.prepare, pc)))
  {
    hide SlabInv, ListInv, PlaceInv, GrowClaim, HandClaim, OnSlab, CanRun, AfterSlab, StageOf;
    var pc, i := s.pcs[t], Site(s.pcs[t]).value;
    assert ListClaim(s, w, t, pc) && LockInv(s, j, k);
    SiteNeeds(s, w, t, c);
    OnSlabFacts(s.slabs[i], t, pc);
    if !pc.ScanNext? && !pc.ReadTag? {
      HoldMoves(s.slabs[i], s.prepare, t, pc, s.slabs[i].At(pc.k).lock);
    }
  }

  lemma {:induction false} SiteNeeds(s: Pool, w: View, t: nat, c: Choice)
    requires Enabled(s, t, c) && Site(s.pcs[t]).Some?
    ensures var pc, i := s.pcs[t], Site(s.pcs[t]).value;
            && i < |s.slabs| && (NeedsNode(pc) ==> s.slabs[i].HasNode(pc.n))
            && (pc.Acq? || pc.PutAcq? ==> s.slabs[i].At(pc.k).lock == None)
  {
  }

  /** A node handed back carries its slab's address. */
  lemma {:induction false} TagNeverCrashes(s: Pool, w: View, t: nat, c: Choice)
    requires Inv(s, w) && Enabled(s, t, c) && s.pcs[t].ReadTag?
    ensures !Exec(s, t, c).pcs[t].Crashed?
  {
    hide SlabInv, ListInv, PlaceInv, GrowClaim;
    assert ListClaim(s, w, t, s.pcs[t]);
  }

  /** A thread that works on a slab meets only words that are links or null. */
  lemma {:induction false} SiteNeverCrashes(s: Pool, w: View, t: nat, c: Choice)
    requires Inv(s, w) && Enabled(s, t, c) && Site(s.pcs[t]).Some?
    ensures !Exec(s, t, c).pcs[t].Crashed?
  {
    var pc, i := s.pcs[t], Site(s.pcs[t]).value;
    hide SlabInv, ListInv, PlaceInv, GrowClaim, ListClaim;
    if pc.ReadTag? {
      TagNeverCrashes(s, w, t, c);
    } else if !pc.ScanNext? {
      SiteReady(s, w, t, c);
      SlabStep(i, s.slabs[i], w[i], SlabStages(s, i), t, s.prepare, pc);
      hide Ready, Done, Inv;
    }
  }

  /** Every slab keeps its invariant. */
  lemma {:induction false} SiteSlabs(s: Pool, w: View, t: nat, c: Choice, j: nat)
    requires Inv(s, w) && Enabled(s, t, c) && Site(s.pcs[t]).Some? && j < |s.slabs|
    ensures var s', w' := Exec(s, t, c), NewView(s, w, t, c);
            |w'| == |s'.slabs| && SlabInv(j, s'.slabs[j], w'[j], SlabStages(s', j)) && LockInv(s', j, Free)
                && LockInv(s', j, Alloc)
  {
    var pc, i := s.pcs[t], Site(s.pcs[t]).value;
    SiteNeverCrashes(s, w, t, c);
    SiteLock(s, w, t, c, j, Free);
    SiteLock(s, w, t, c, j, Alloc);
    hide SlabInv, ListInv, PlaceInv, GrowClaim, ListClaim, OnSlab, AfterSlab, StageOf, OnView, LockInv;
    assert SlabInv(j, s.slabs[j], w[j], SlabStages(s, j));
    if j == i && !pc.ScanNext? && !pc.ReadTag? {
      SiteReady(s, w, t, c);
      SlabStep(i, s.slabs[i], w[i], SlabStages(s, i), t, s.prepare, pc);
      assert SlabStages(Exec(s, t, c), i)
          == SlabStages(s, i).With(pc.k, NextStage(pc.k, i, AfterSlab(s.slabs[i], s.prepare, pc)));
    }
  }

  /** The node a statement writes to is on the locked list or in the thread's hands. */
  lemma {:induction false} WritesOwnNode(s: Pool, w: View, t: nat, c: Choice)
    requires Inv(s, w) && Enabled(s, t, c) && Site(s.pcs[t]).Some?
    requires var pc := s.pcs[t];
            pc.TagNode? || pc.PutNext? || pc.Own? || pc.PutOwn? || pc.Unlink? || pc.PutHead? || pc.RelGot?
    ensures var pc, i := s.pcs[t], Site(s.pcs[t]).value;
            pc.n < |w[i].place|
                && (w[i].place[pc.n] == Moving(t) || ((pc.Own? || pc.Unlink?) && w[i].place[pc.n] == ListPlace(pc.k)))
  {
    var pc, i := s.pcs[t], Site(s.pcs[t]).value;
    hide PlaceInv, GrowClaim, HandInv, Chain, Distinct;
    assert ListClaim(s, w, t, pc);
    if pc.Own? || pc.Unlink? {
      assert SlabInv(i, s.slabs[i], w[i], SlabStages(s, i));
      assert ListInv(i, s.slabs[i], w[i], pc.k, StageOf(pc));
      assert pc.n in w[i].At(pc.k);
    }
  }

  /** The view of a slab changes only at the statement's node. */
  lemma {:induction false} OnViewFacts(v: SlabView, t: nat, pc: PC)
    ensures var v' := OnView(v, t, pc);
            |v'.place| == |v.place| &&
            forall n | 0 <= n < |v.place| ::
              v'.place[n] == if pc.Unlink? && v.At(pc.k) != [] && n == pc.n then Moving(t)
                             else if pc.PutHead? && n == pc.n then ListPlace(pc.k)
                             else if ((pc.RelGot? && pc.k.Free?) || pc.Prepare?) && n == pc.n then Out
                             else v.place[n]
  {
  }

  lemma {:induction false} SiteOthersLock(s: Pool, w: View, t: nat, c: Choice, u: nat)
    requires Inv(s, w) && Enabled(s, t, c) && Site(s.pcs[t]).Some? && u < |s.pcs| && u != t && HeldList(s.pcs[u]).Some?
    ensures var (k, i) := HeldList(s.pcs[u]).value;
            && i < |s.slabs| && Exec(s, t, c).slabs[i].At(k).lock == Some(u)
            && (i == Site(s.pcs[t]).value ==>
                HeldList(s.pcs[t]) != Some((k, i)) && !((s.pcs[t].Unlink? || s.pcs[t].PutHead?) && s.pcs[t].k == k))
  {
    var pc, i := s.pcs[t], Site(s.pcs[t]).value;
    hide SlabInv, ListInv, PlaceInv, GrowClaim, OnSlab, AfterSlab, OnView, LockInv, CanRun, HandClaim;
    assert ListClaim(s, w, u, s.pcs[u]) && ListClaim(s, w, t, pc);
    SiteNeeds(s, w, t, c);
    OnSlabFacts(s.slabs[i], t, pc);
  }

  /** A statement leaves a node in another thread's hands alone. */
  lemma {:induction false} SiteKeepsNode(s: Pool, w: View, t: nat, c: Choice, m: nat)
    requires Inv(s, w) && Enabled(s, t, c) && Site(s.pcs[t]).Some?
    requires var i := Site(s.pcs[t]).value;
            i < |w| && m < |w[i].place| && w[i].place[m].Moving? && w[i].place[m].t != t && s.slabs[i].HasNode(m)
    ensures var pc, i := s.pcs[t], Site(s.pcs[t]).value;
            var sl, sl' := s.slabs[i], OnSlab(s.slabs[i], t, pc);
            && sl'.HasNode(m) && sl'.word[m] == sl.word[m] && sl'.owned[m] == sl.owned[m]
            && m < |OnView(w[i], t, pc).place| && OnView(w[i], t, pc).place[m] == w[i].place[m]
  {
    var pc, i := s.pcs[t], Site(s.pcs[t]).value;
    SiteNeeds(s, w, t, c);
    OnSlabFacts(s.slabs[i], t, pc);
    OnViewFacts(w[i], t, pc);
    if pc.TagNode? || pc.PutNext? || pc.Own? || pc.PutOwn? || pc.Unlink? || pc.PutHead? || pc.RelGot? {
      WritesOwnNode(s, w, t, c);
    }
  }

  /** The shape of a statement on a slab. */
  lemma {:induction false} SiteShape(s: Pool, w: View, t: nat, c: Choice)
    requires |s.slabs| == |w| && Enabled(s, t, c) && Site(s.pcs[t]).Some?
    ensures var s', w', pc, i := Exec(s, t, c), NewView(s, w, t, c), s.pcs[t], Site(s.pcs[t]).value;
            && i < |s.slabs| == |w|
            && (NeedsNode(pc) ==> s.slabs[i].HasNode(pc.n))
            && s'.slabs == s.slabs[i := OnSlab(s.slabs[i], t, pc)] && w' == w[i := OnView(w[i], t, pc)]
            && s'.pcs == s.pcs[t := AfterSlab(s.slabs[i], s.prepare, pc)]
            && s'.slabList == s.slabList && s'.slabCount == s.slabCount && s'.lock == s.lock && s'.growing == s.growing
            && s'.held == s.held + (if pc.RelGot? && pc.k.Free? then multiset{Node(i, pc.n)} else multiset{})
  {
    hide OnSlab, AfterSlab, OnView;
    SiteNeeds(s, w, t, c);
  }

  lemma {:induction false} SiteOthersHand(s: Pool, w: View, t: nat, c: Choice, u: nat, node: Node)
    requires Inv(s, w) && Enabled(s, t, c) && Site(s.pcs[t]).Some? && u < |s.pcs| && u != t
            && InHand(s.pcs[u]) == Some(node)
    ensures HandClaim(Exec(s, t, c), NewView(s, w, t, c), u, s.pcs[u], node)
  {
    var pc, i, pu := s.pcs[t], Site(s.pcs[t]).value, s.pcs[u];
    assert ListClaim(s, w, u, pu);
    assert HandClaim(s, w, u, pu, node);
    SiteShape(s, w, t, c);
    if node.slab == i {
      SiteKeepsNode(s, w, t, c, node.idx);
      if pu.PutHead? {
        SiteOthersLock(s, w, t, c, u);
        OnSlabFacts(s.slabs[i], t, pc);
      }
    }
    hide Exec, NewView, Inv, OnSlab, OnView, AfterSlab, ListClaim, Enabled;
  }

  /** Other threads' claims survive a statement on a slab. */
  lemma {:induction false} SiteOthers(s: Pool, w: View, t: nat, c: Choice, u: nat)
    requires Inv(s, w) && Enabled(s, t, c) && Site(s.pcs[t]).Some? && u < |s.pcs| && u != t
    ensures ListClaim(Exec(s, t, c), NewView(s, w, t, c), u, s.pcs[u])
  {
    var pu := s.pcs[u];
    if HeldList(pu).Some? {
      SiteOthersLock(s, w, t, c, u);
    }
    if InHand(pu).Some? {
      SiteOthersHand(s, w, t, c, u, InHand(pu).value);
    }
    hide SlabInv, ListInv, PlaceInv, GrowClaim, OnSlab, AfterSlab, OnView, LockInv, CanRun, HandClaim, InHand, HeldList;
    assert ListClaim(s, w, u, pu);
  }

  /** The node in the thread's hands after a statement is the one it named. */
  lemma {:induction false} HandPlace(i: nat, sl: Slab, v: SlabView, st: Stages, t: nat, prepare: bool, pc: PC)
    requires Ready(i, sl, v, st, t, pc) && InHand(AfterSlab(sl, prepare, pc)).Some?
    ensures InHand(AfterSlab(sl, prepare, pc)).value == Node(i, pc.n)
    ensures pc.n < |OnView(v, t, pc).place| && OnView(v, t, pc).place[pc.n] == Moving(t)
  {
    if pc.Unlink? {
      TakeOff(i, sl, v, st, t, pc.k, pc.n);
    }
    hide SlabInv, HandInv, OnSlab;
  }

  lemma {:induction false} HandWords(i: nat, sl: Slab, v: SlabView, st: Stages, t: nat, prepare: bool, pc: PC)
    requires Ready(i, sl, v, st, t, pc) && InHand(AfterSlab(sl, prepare, pc)).Some?
    ensures OnSlab(sl, t, pc).HasNode(pc.n) && HandInv(i, OnSlab(sl, t, pc), pc.n, AfterSlab(sl, prepare, pc))
  {
    if pc.Unlink? {
      TakeOff(i, sl, v, st, t, pc.k, pc.n);
    }
    hide SlabInv, ListInv, OnView, StageOf;
  }

  /** What a statement does to the claim on the node in the thread's hands. */
  lemma {:induction false} HandMoves(i: nat, sl: Slab, v: SlabView, st: Stages, t: nat, prepare: bool, pc: PC)
    requires Ready(i, sl, v, st, t, pc)
    ensures var pc' := AfterSlab(sl, prepare, pc);
            InHand(pc').Some? ==>
              && InHand(pc').value == Node(i, pc.n)
              && var sl', v' := OnSlab(sl, t, pc), OnView(v, t, pc);
                 sl'.HasNode(pc.n) && pc.n < |v'.place| && v'.place[pc.n] == Moving(t) && HandInv(i, sl', pc.n, pc')
  {
    if InHand(AfterSlab(sl, prepare, pc)).Some? {
      HandPlace(i, sl, v, st, t, prepare, pc);
      HandWords(i, sl, v, st, t, prepare, pc);
    }
    hide *;
  }

  lemma {:induction false} ClaimOf(s: Pool, w: View, t: nat)
    requires Inv(s, w) && t < |s.pcs|
    ensures |s.slabs| == |w| && ListClaim(s, w, t, s.pcs[t])
  {
    hide SlabsInv, ListClaim, GrowInv;
  }

  lemma {:induction false} SiteSelfOnSlab(s: Pool, w: View, t: nat, c: Choice)
    requires Inv(s, w) && Enabled(s, t, c) && Site(s.pcs[t]).Some? && !s.pcs[t].ReadTag? && !s.pcs[t].ScanNext?
    ensures var s', w' := Exec(s, t, c), NewView(s, w, t, c); ListClaim(s', w', t, s'.pcs[t])
  {
    hide Exec, NewView, Inv, OnSlab, OnView, Enabled, Ready, SlabInv, AfterSlab, InHand, HandInv;
    SiteBasics(s, w, t, c);
    SiteNeeds(s, w, t, c);
    var pc, i := s.pcs[t], Site(s.pcs[t]).value;
    SiteNeverCrashes(s, w, t, c);
    SiteShape(s, w, t, c);
    ClaimOf(s, w, t);
    SiteReady(s, w, t, c);
    HandMoves(i, s.slabs[i], w[i], SlabStages(s, i), t, s.prepare, pc);
    HoldMoves(s.slabs[i], s.prepare, t, pc, s.slabs[i].At(pc.k).lock);
    OnSlabFacts(s.slabs[i], t, pc);
  }

  /** A thread that holds nothing claims only that its slab is published. */
  lemma {:induction false} IdleClaim(s: Pool, w: View, t: nat, pc: PC)
    requires |s.slabs| == |w| && !pc.Crashed? && HeldList(pc).None? && InHand(pc).None?
    requires Site(pc).Some? ==> Site(pc).value < Published(s)
    ensures ListClaim(s, w, t, pc)
  {
  }

  lemma {:induction false} ScanSlab(s: Pool, w: View, t: nat)
    requires Inv(s, w) && t < |s.pcs| && s.pcs[t].ScanNext?
    ensures |s.slabs| == |w| && s.pcs[t].i < Published(s) <= |s.slabs|
    ensures s.slabs[s.pcs[t].i].next == if s.pcs[t].i == 0 then None else Some(s.pcs[t].i - 1)
  {
    assert ListClaim(s, w, t, s.pcs[t]);
    hide SlabInv, ListInv, PlaceInv, LockInv, GrowClaim, NodePlaceInv;
  }

  lemma {:induction false} ScanNextShape(s: Pool, w: View, t: nat, c: Choice)
    requires |s.slabs| == |w| && Enabled(s, t, c) && s.pcs[t].ScanNext?
    ensures var s' := Exec(s, t, c);
            && s'.pcs == s.pcs[t := Scan(s.slabs[s.pcs[t].i].next)] && |s'.slabs| == |s.slabs|
            && s'.slabList == s.slabList
            && |NewView(s, w, t, c)| == |w|
  {
    hide OnSlab, OnView;
  }

  /** Moving on to the next slab holds nothing and stays on published slabs. */
  lemma {:induction false} ScanClaim(s: Pool, s': Pool, w: View, t: nat, i: nat)
    requires |s'.slabs| == |w| && i < Published(s) && s'.slabList == s.slabList
    ensures ListClaim(s', w, t, Scan(if i == 0 then None else Some(i - 1)))
  {
    IdleClaim(s', w, t, Scan(if i == 0 then None else Some(i - 1)));
  }

  lemma {:induction false} IsThread(s: Pool, t: nat, c: Choice)
    requires Enabled(s, t, c)
    ensures t < |s.pcs|
  {
  }

  lemma {:induction false} SiteSelfScan(s: Pool, w: View, t: nat, c: Choice)
    requires Inv(s, w) && Enabled(s, t, c) && s.pcs[t].ScanNext?
    ensures var s', w' := Exec(s, t, c), NewView(s, w, t, c);
            |s'.slabs| == |w'| && t < |s'.pcs| && ListClaim(s', w', t, s'.pcs[t])
  {
    hide *;
    IsThread(s, t, c);
    ScanSlab(s, w, t);
    ScanNextShape(s, w, t, c);
    ScanClaim(s, Exec(s, t, c), NewView(s, w, t, c), t, s.pcs[t].i);
  }

  lemma {:induction false} TagShape(s: Pool, w: View, t: nat, c: Choice)
    requires |s.slabs| == |w| && Enabled(s, t, c) && s.pcs[t].ReadTag? && !Exec(s, t, c).pcs[t].Crashed?
    ensures var s', pc := Exec(s, t, c), s.pcs[t];
            && s'.pcs == s.pcs[t := PutAcq(pc.k, pc.i, pc.n)] && s'.slabs == s.slabs && s'.slabList == s.slabList
            && NewView(s, w, t, c) == w
  {
  }

  /** Reading the tag moves no word: the claim carries over. */
  lemma {:induction false} TagClaim(s: Pool, s': Pool, w: View, t: nat, pc: PC)
    requires |s.slabs| == |w| && pc.ReadTag? && ListClaim(s, w, t, pc)
    requires s'.slabs == s.slabs && s'.slabList == s.slabList
    ensures ListClaim(s', w, t, PutAcq(pc.k, pc.i, pc.n))
  {
  }

  lemma {:induction false} SiteSelfTag(s: Pool, w: View, t: nat, c: Choice)
    requires Inv(s, w) && Enabled(s, t, c) && s.pcs[t].ReadTag?
    ensures var s', w' := Exec(s, t, c), NewView(s, w, t, c);
            |s'.slabs| == |w'| && t < |s'.pcs| && ListClaim(s', w', t, s'.pcs[t])
  {
    assert |s.slabs| == |w| && t < |s.pcs|;
    assert ListClaim(s, w, t, s.pcs[t]);
    SiteNeverCrashes(s, w, t, c);
    hide Inv, ListClaim;
    TagShape(s, w, t, c);
    hide Exec, NewView, Enabled, CanRun;
    TagClaim(s, Exec(s, t, c), w, t, s.pcs[t]);
  }

  /** The thread's own claims after its statement on a slab. */
  lemma {:induction false} SiteSelf(s: Pool, w: View, t: nat, c: Choice)
    requires Inv(s, w) && Enabled(s, t, c) && Site(s.pcs[t]).Some?
    ensures var s', w' := Exec(s, t, c), NewView(s, w, t, c); ListClaim(s', w', t, s'.pcs[t])
  {
    assert t < |s.pcs| && |s.slabs| == |w| && |Exec(s, t, c).pcs| == |s.pcs|;
    assert |Exec(s, t, c).slabs| == |NewView(s, w, t, c)| by { SiteShape(s, w, t, c); }
    hide Exec, NewView, Inv, ListClaim, Enabled, CanRun;
    if s.pcs[t].ScanNext? {
      SiteSelfScan(s, w, t, c);
    } else if s.pcs[t].ReadTag? {
      SiteSelfTag(s, w, t, c);
    } else {
      SiteSelfOnSlab(s, w, t, c);
    }
  }

  /** Only three statements on a slab end a thread's hold on a node or begin one. */
  lemma {:induction false} HandStays(sl: Slab, prepare: bool, pc: PC)
    requires Site(pc).Some? && (pc.ReadTag? ==> sl.HasNode(pc.n)) && !AfterSlab(sl, prepare, pc).Crashed?
    requires InHand(pc).Some? && !pc.PutHead? && !(pc.RelGot? && pc.k.Free?)
    ensures InHand(AfterSlab(sl, prepare, pc)) == InHand(pc)
  {
  }

  lemma {:induction false} InHandIsSite(pc: PC)
    requires Site(pc).Some? && InHand(pc).Some?
    ensures InHand(pc).value == Node(Site(pc).value, pc.n)
  {
  }

  predicate MovesNode(pc: PC) {
    pc.Unlink? || pc.PutHead? || (pc.RelGot? && pc.k.Free?)
  }

  lemma {:induction false} PlaceOf(s: Pool, w: View, i: nat, n: nat)
    requires Inv(s, w) && i < |w| && n < |w[i].place|
    ensures NodePlaceInv(s, w, i, n)
  {
    hide SlabInv, LockInv, ListClaim, GrowInv, NodePlaceInv;
    assert PlaceInv(s, w, i);
  }

  lemma {:induction false} SiteBasics(s: Pool, w: View, t: nat, c: Choice)
    requires Inv(s, w) && Enabled(s, t, c) && Site(s.pcs[t]).Some?
    ensures t < |s.pcs| && Site(s.pcs[t]).value < |w| == |s.slabs|
  {
    hide SlabsInv, ListClaim, GrowInv;
    SiteNeeds(s, w, t, c);
  }

  /** Unlinking takes the head of a list that is not empty into the thread's hands. */
  lemma {:induction false} UnlinkTakes(s: Pool, w: View, t: nat, c: Choice)
    requires Inv(s, w) && Enabled(s, t, c) && Site(s.pcs[t]).Some? && s.pcs[t].Unlink?
    ensures var pc, i := s.pcs[t], Site(s.pcs[t]).value;
            && i < |w| && w[i].At(pc.k) != []
            && InHand(AfterSlab(s.slabs[i], s.prepare, pc)) == Some(Node(i, pc.n))
  {
    hide Inv, LockInv, ListClaim, GrowInv, PlaceInv;
    SiteBasics(s, w, t, c);
    var pc, i := s.pcs[t], Site(s.pcs[t]).value;
    SiteReady(s, w, t, c);
    assert ListInv(i, s.slabs[i], w[i], pc.k, StageOf(pc));
  }

  lemma {:induction false} UnlinkPlace(s: Pool, w: View, t: nat, c: Choice)
    requires Inv(s, w) && Enabled(s, t, c) && Site(s.pcs[t]).Some? && s.pcs[t].Unlink?
    ensures var s', w', pc, i := Exec(s, t, c), NewView(s, w, t, c), s.pcs[t], Site(s.pcs[t]).value;
            i < |w'| && pc.n < |w'[i].place| && NodePlaceInv(s', w', i, pc.n)
  {
    hide Exec, NewView, Inv, OnSlab, OnView, Enabled, AfterSlab, InHand;
    SiteBasics(s, w, t, c);
    var pc, i := s.pcs[t], Site(s.pcs[t]).value;
    SiteShape(s, w, t, c);
    OnViewFacts(w[i], t, pc);
    WritesOwnNode(s, w, t, c);
    PlaceOf(s, w, i, pc.n);
    UnlinkTakes(s, w, t, c);
  }

  lemma {:induction false} PutHeadPlace(s: Pool, w: View, t: nat, c: Choice)
    requires Inv(s, w) && Enabled(s, t, c) && Site(s.pcs[t]).Some? && s.pcs[t].PutHead?
    ensures var s', w', pc, i := Exec(s, t, c), NewView(s, w, t, c), s.pcs[t], Site(s.pcs[t]).value;
            i < |w'| && pc.n < |w'[i].place| && NodePlaceInv(s', w', i, pc.n)
  {
    hide Exec, NewView, Inv, OnSlab, OnView, Enabled, AfterSlab, InHand;
    SiteBasics(s, w, t, c);
    var pc, i := s.pcs[t], Site(s.pcs[t]).value;
    SiteShape(s, w, t, c);
    OnViewFacts(w[i], t, pc);
    WritesOwnNode(s, w, t, c);
    PlaceOf(s, w, i, pc.n);
  }

  lemma {:induction false} HandOutPlace(s: Pool, w: View, t: nat, c: Choice)
    requires Inv(s, w) && Enabled(s, t, c) && Site(s.pcs[t]).Some? && s.pcs[t].RelGot? && s.pcs[t].k.Free?
    ensures var s', w', pc, i := Exec(s, t, c), NewView(s, w, t, c), s.pcs[t], Site(s.pcs[t]).value;
            i < |w'| && pc.n < |w'[i].place| && NodePlaceInv(s', w', i, pc.n)
  {
    hide Exec, NewView, Inv, OnSlab, OnView, Enabled, AfterSlab, InHand;
    SiteBasics(s, w, t, c);
    var pc, i := s.pcs[t], Site(s.pcs[t]).value;
    SiteShape(s, w, t, c);
    OnViewFacts(w[i], t, pc);
    WritesOwnNode(s, w, t, c);
    PlaceOf(s, w, i, pc.n);
  }

  /** The node that a statement moves. */
  lemma {:induction false} SitePlaceMoved(s: Pool, w: View, t: nat, c: Choice)
    requires Inv(s, w) && Enabled(s, t, c) && Site(s.pcs[t]).Some? && MovesNode(s.pcs[t])
    ensures var s', w', pc, i := Exec(s, t, c), NewView(s, w, t, c), s.pcs[t], Site(s.pcs[t]).value;
            i < |w'| && pc.n < |w'[i].place| && NodePlaceInv(s', w', i, pc.n)
  {
    hide Exec, NewView, Inv, Enabled, Site, NodePlaceInv;
    SiteBasics(s, w, t, c);
    if s.pcs[t].Unlink? {
      UnlinkPlace(s, w, t, c);
    } else if s.pcs[t].PutHead? {
      PutHeadPlace(s, w, t, c);
    } else {
      HandOutPlace(s, w, t, c);
    }
  }

  /** Any other node. */
  lemma {:induction false} SitePlaceKept(s: Pool, w: View, t: nat, c: Choice, j: nat, m: nat)
    requires Inv(s, w) && Enabled(s, t, c) && Site(s.pcs[t]).Some? && j < |w| && m < |w[j].place|
    requires !(MovesNode(s.pcs[t]) && Some(j) == Site(s.pcs[t]) && m == s.pcs[t].n)
    ensures var s', w' := Exec(s, t, c), NewView(s, w, t, c);
            j < |w'| && m < |w'[j].place| && NodePlaceInv(s', w', j, m)
  {
    var pc, i := s.pcs[t], Site(s.pcs[t]).value;
    var s', w' := Exec(s, t, c), NewView(s, w, t, c);
    SiteNeverCrashes(s, w, t, c);
    SiteShape(s, w, t, c);
    OnViewFacts(w[i], t, pc);
    assert PlaceInv(s, w, j);
    assert NodePlaceInv(s, w, j, m);
    var p := w[j].place[m];
    assert w'[j].place[m] == p && s'.held[Node(j, m)] == s.held[Node(j, m)];
    if p.Moving? && p.t == t {
      InHandIsSite(pc);
      HandStays(s.slabs[i], s.prepare, pc);
    }
    hide Exec, NewView, Inv, SlabInv, OnSlab, OnView, Enabled, AfterSlab, ListClaim, InHand, HeldList, PlaceInv, Site;
  }

  lemma {:induction false} SiteHeld(s: Pool, w: View, t: nat, c: Choice, x: Node)
    requires Inv(s, w) && Enabled(s, t, c) && Site(s.pcs[t]).Some? && x in Exec(s, t, c).held
    ensures HeldIn(Exec(s, t, c), NewView(s, w, t, c), x)
  {
    var pc, i := s.pcs[t], Site(s.pcs[t]).value;
    SiteShape(s, w, t, c);
    OnViewFacts(w[i], t, pc);
    assert ListClaim(s, w, t, pc);
    if x in s.held {
      assert HeldIn(s, w, x);
    } else {
      WritesOwnNode(s, w, t, c);
    }
    hide Exec, NewView, OnView, Enabled, Inv;
  }

  lemma {:induction false} SiteSlabInv(s: Pool, w: View, t: nat, c: Choice, j: nat)
    requires Inv(s, w) && Enabled(s, t, c) && Site(s.pcs[t]).Some? && j < |w|
    ensures var s', w' := Exec(s, t, c), NewView(s, w, t, c);
            |s'.slabs| == |w'| == |w| && SlabInv(j, s'.slabs[j], w'[j], SlabStages(s', j)) && LockInv(s', j, Free)
                && LockInv(s', j, Alloc) && PlaceInv(s', w', j)
  {
    var s', w' := Exec(s, t, c), NewView(s, w, t, c);
    var i := Site(s.pcs[t]).value;
    SiteShape(s, w, t, c);
    OnViewFacts(w[i], t, s.pcs[t]);
    SiteSlabs(s, w, t, c, j);
    hide Exec, NewView, Inv, Enabled, SlabInv, LockInv, NodePlaceInv, OnView, OnSlab, AfterSlab, Site;
    forall m | 0 <= m < |w'[j].place|
      ensures NodePlaceInv(s', w', j, m)
    {
      if MovesNode(s.pcs[t]) && j == i && m == s.pcs[t].n {
        SitePlaceMoved(s, w, t, c);
      } else {
        SitePlaceKept(s, w, t, c, j, m);
      }
    }
  }

  lemma {:induction false} SiteSlabsInv(s: Pool, w: View, t: nat, c: Choice)
    requires Inv(s, w) && Enabled(s, t, c) && Site(s.pcs[t]).Some?
    ensures var s', w' := Exec(s, t, c), NewView(s, w, t, c);
            |s'.slabs| == |w'| && SlabsInv(s', w') && forall u | 0 <= u < |s'.pcs| :: ListClaim(s', w', u, s'.pcs[u])
  {
    hide Inv, SlabInv, LockInv, PlaceInv, ListClaim, OnView, OnSlab, AfterSlab, Exec, NewView, Enabled, Site;
    SiteBasics(s, w, t, c);
    SiteShape(s, w, t, c);
    var s', w' := Exec(s, t, c), NewView(s, w, t, c);
    forall j | 0 <= j < |s'.slabs|
      ensures SlabInv(j, s'.slabs[j], w'[j], SlabStages(s', j)) && LockInv(s', j, Free) && LockInv(s', j, Alloc)
              && PlaceInv(s', w', j)
    {
      SiteSlabInv(s, w, t, c, j);
    }
    forall x: Node | x in s'.held
      ensures HeldIn(s', w', x)
    {
      SiteHeld(s, w, t, c, x);
    }
    forall u | 0 <= u < |s'.pcs|
      ensures ListClaim(s', w', u, s'.pcs[u])
    {
      if u == t { SiteSelf(s, w, t, c); } else { SiteOthers(s, w, t, c, u); }
    }
  }

  // ----- growing the pool

  /** A statement that neither grows the pool nor touches its lock. */
  lemma {:induction false} GrowFrame(s: Pool, s': Pool, t: nat, pc': PC)
    requires GrowInv(s) && t < |s.pcs| && s'.pcs == s.pcs[t := pc']
    requires !InGrowth(s.pcs[t]) && !HoldsPool(s.pcs[t]) && !InGrowth(pc') && !HoldsPool(pc')
    requires s'.slabList == s.slabList && s'.slabCount == s.slabCount && s'.lock == s.lock && s'.growing == s.growing
    requires |s'.slabs| == |s.slabs| && forall j | 0 <= j < |s.slabs| :: s'.slabs[j].next == s.slabs[j].next
    ensures GrowInv(s')
  {
    CountUpdate(s.pcs, t, pc', InGrowth);
    forall u | 0 <= u < |s'.pcs|
      ensures GrowClaim(s', u, s'.pcs[u])
    {
      assert GrowClaim(s, u, s.pcs[u]);
    }
  }

  lemma {:induction false} GrowAlone(s: Pool, t: nat, u: nat)
    requires GrowInv(s) && t < |s.pcs| && u < |s.pcs| && t != u && InGrowth(s.pcs[t])
    ensures s.growing && !InGrowth(s.pcs[u])
  {
    CountWitness(s.pcs, t, InGrowth);
    if InGrowth(s.pcs[u]) {
      CountPair(s.pcs, if t < u then t else u, if t < u then u else t, InGrowth);
    }
  }

  /** A thread outside the growth phase changes at most the pool's lock; a
      thread changes the lock only while it is free or its own. */
  lemma {:induction false} GrowTouches(s: Pool, t: nat, pc: PC, c: Choice)
    requires Grows(pc) && CanRun(s, pc, c)
    ensures var (s', pc') := OnPool(s, t, pc, c);
            && (s'.lock == s.lock || s.lock == None || HoldsPool(pc))
            && (s'.growing == s.growing || HoldsPool(pc))
            && (!InGrowth(pc) ==> s'.slabs == s.slabs && s'.slabList == s.slabList && s'.slabCount == s.slabCount)
            && s'.held == s.held
  {
    hide Carved;
  }

  lemma {:induction false} GrowStepOther(s: Pool, t: nat, c: Choice, u: nat)
    requires GrowInv(s) && Enabled(s, t, c) && Grows(s.pcs[t]) && u < |s.pcs| && u != t
    ensures GrowClaim(Exec(s, t, c), u, s.pcs[u])
  {
    var pc, pu := s.pcs[t], s.pcs[u];
    assert GrowClaim(s, u, pu) && GrowClaim(s, t, pc);
    if InGrowth(pu) {
      GrowAlone(s, u, t);
    }
    GrowExec(s, t, c);
    GrowTouches(s, t, pc, c);
    hide OnPool, Grows, CanRun, GrowInv, Exec, Enabled;
  }

  /** The growth protocol on the pool's fields: the thread's own claims. */
  lemma {:induction false} GrowLocalClaim(s: Pool, t: nat, pc: PC, c: Choice)
    requires Grows(pc) && CanRun(s, pc, c) && GrowClaim(s, t, pc) && GrowShape(s) && (InGrowth(pc) ==> s.growing)
    ensures var (s', pc') := OnPool(s, t, pc, c); GrowClaim(s', t, pc')
  {
    hide Carved;
  }

  /** The growth protocol on the pool's fields: the chain of published slabs. */
  lemma {:induction false} GrowLocalShape(s: Pool, t: nat, pc: PC, c: Choice)
    requires Grows(pc) && CanRun(s, pc, c) && GrowClaim(s, t, pc) && GrowShape(s) && (InGrowth(pc) ==> s.growing)
    ensures GrowShape(OnPool(s, t, pc, c).0)
  {
    hide Carved;
  }

  lemma {:induction false} GrowAssemble(s: Pool, p: Pool, t: nat, pc': PC)
    requires GrowInv(s) && t < |s.pcs| && GrowShape(p)
    requires var s' := p.(pcs := s.pcs[t := pc']); forall u | 0 <= u < |s'.pcs| :: GrowClaim(s', u, s'.pcs[u])
    requires (if p.growing then 1 else 0) - (if s.growing then 1 else 0)
            == (if InGrowth(pc') then 1 else 0) - (if InGrowth(s.pcs[t]) then 1 else 0)
    requires (p.lock == Some(t) && HoldsPool(pc')) || p.lock == None
            || (p.lock == s.lock && !HoldsPool(s.pcs[t]) && !HoldsPool(pc'))
    ensures GrowInv(p.(pcs := s.pcs[t := pc']))
  {
    CountUpdate(s.pcs, t, pc', InGrowth);
    hide GrowClaim, InGrowth, HoldsPool;
  }

  lemma {:induction false} GrowExec(s: Pool, t: nat, c: Choice)
    requires Enabled(s, t, c) && Grows(s.pcs[t])
    ensures t < |s.pcs| && CanRun(s, s.pcs[t], c)
    ensures var (p, pc') := OnPool(s, t, s.pcs[t], c); Exec(s, t, c) == p.(pcs := s.pcs[t := pc'])
  {
    hide Carved;
  }

  lemma {:induction false} GrowFacts(s: Pool, t: nat)
    requires GrowInv(s) && t < |s.pcs|
    ensures GrowClaim(s, t, s.pcs[t]) && GrowShape(s) && (InGrowth(s.pcs[t]) ==> s.growing)
  {
    hide GrowClaim, GrowShape;
    if InGrowth(s.pcs[t]) {
      CountWitness(s.pcs, t, InGrowth);
    }
  }

  lemma {:induction false} GrowStep(s: Pool, t: nat, c: Choice)
    requires GrowInv(s) && Enabled(s, t, c) && Grows(s.pcs[t])
    ensures GrowInv(Exec(s, t, c))
  {
    hide *;
    IsThread(s, t, c);
    var s', pc := Exec(s, t, c), s.pcs[t];
    GrowExec(s, t, c);
    var (p, pc') := OnPool(s, t, pc, c);
    GrowFacts(s, t);
    GrowLocalClaim(s, t, pc, c);
    GrowLocalShape(s, t, pc, c);
    GrowFlag(s, t, pc, c);
    GrowLockHolder(s, t, pc, c);
    forall u | 0 <= u < |s'.pcs|
      ensures GrowClaim(s', u, s'.pcs[u])
    {
      if u != t {
        GrowStepOther(s, t, c, u);
      } else {
        GrowClaimIgnoresThreads(p, s', t, pc');
      }
    }
    GrowAssemble(s, p, t, pc');
  }

  lemma {:induction false} GrowClaimIgnoresThreads(p: Pool, s': Pool, t: nat, pc: PC)
    requires GrowClaim(p, t, pc) && s' == p.(pcs := s'.pcs)
    ensures GrowClaim(s', t, pc)
  {
  }

  /** The growing flag is up exactly while the thread is in the growth phase. */
  lemma {:induction false} GrowFlag(s: Pool, t: nat, pc: PC, c: Choice)
    requires Grows(pc) && CanRun(s, pc, c) && GrowClaim(s, t, pc) && (InGrowth(pc) ==> s.growing)
    ensures var (s', pc') := OnPool(s, t, pc, c);
            (if s'.growing then 1 else 0) - (if s.growing then 1 else 0)
                == (if InGrowth(pc') then 1 else 0) - (if InGrowth(pc) then 1 else 0)
  {
    hide Carved;
  }

  /** The pool's lock is held by a thread that knows it. */
  lemma {:induction false} GrowLockHolder(s: Pool, t: nat, pc: PC, c: Choice)
    requires Grows(pc) && CanRun(s, pc, c) && GrowClaim(s, t, pc)
    ensures var (s', pc') := OnPool(s, t, pc, c);
            (s'.lock == Some(t) && HoldsPool(pc')) || s'.lock == None
                || (s'.lock == s.lock && !HoldsPool(pc) && !HoldsPool(pc'))
  {
    hide Carved;
  }

  // ----- statements that touch no list

  /** A slab nobody has seen yet: unlocked, and every node on a list. */
  ghost predicate Untouched(j: nat, sl: Slab, v: SlabView) {
    && SlabInv(j, sl, v, Stages(Quiet, Quiet)) && sl.free.lock == None && sl.alloc.lock == None
    && forall n | 0 <= n < |v.place| :: v.place[n].InFree? || v.place[n].InAlloc?
  }

  /** The pool changes at most the links between slabs, and may gain untouched
      slabs; the thread holds no list and no node before and after. */
  ghost predicate QuietStep(s: Pool, w: View, s': Pool, w': View, t: nat, pc': PC) {
    && t < |s.pcs| && s'.pcs == s.pcs[t := pc'] && s'.held == s.held
    && |s.slabs| == |w| <= |w'| == |s'.slabs| && Published(s) <= Published(s')
    && (forall j | 0 <= j < |w| :: w'[j] == w[j] && s'.slabs[j] == s.slabs[j].(next := s'.slabs[j].next))
    && (forall j | |w| <= j < |w'| :: Untouched(j, s'.slabs[j], w'[j]))
    && HeldList(s.pcs[t]).None? && InHand(s.pcs[t]).None?
    && HeldList(pc').None? && InHand(pc').None? && !pc'.Crashed?
    && (Site(pc').Some? ==> Site(pc').value < Published(s'))
  }

  lemma {:induction false} QuietStages(s: Pool, w: View, s': Pool, w': View, t: nat, pc': PC, j: nat)
    requires Inv(s, w) && QuietStep(s, w, s', w', t, pc') && j < |w|
    ensures SlabStages(s', j) == SlabStages(s, j) && LockInv(s', j, Free) && LockInv(s', j, Alloc)
  {
    hide SlabInv, PlaceInv, ListClaim, GrowInv, StageOf, Untouched;
    assert LockInv(s, j, Free) && LockInv(s, j, Alloc);
    assert s'.slabs[j] == s.slabs[j].(next := s'.slabs[j].next);
  }

  lemma {:induction false} QuietSlab(s: Pool, w: View, s': Pool, w': View, t: nat, pc': PC, j: nat)
    requires Inv(s, w) && QuietStep(s, w, s', w', t, pc') && j < |w'|
    ensures SlabInv(j, s'.slabs[j], w'[j], SlabStages(s', j)) && LockInv(s', j, Free) && LockInv(s', j, Alloc)
  {
    if j < |w| {
      QuietStages(s, w, s', w', t, pc', j);
      assert SlabInv(j, s.slabs[j], w[j], SlabStages(s, j));
      assert s'.slabs[j] == s.slabs[j].(next := s'.slabs[j].next);
      NextIsFree(j, s.slabs[j], w[j], SlabStages(s, j), s'.slabs[j].next);
    } else {
      assert Untouched(j, s'.slabs[j], w'[j]);
    }
    hide SlabInv, QuietStep, LockInv, Inv;
  }

  /** Linking a slab into the pool changes nothing inside it. */
  lemma {:induction false} NextIsFree(i: nat, sl: Slab, v: SlabView, st: Stages, next: Option<nat>)
    requires SlabInv(i, sl, v, st)
    ensures SlabInv(i, sl.(next := next), v, st)
  {
    var sl' := sl.(next := next);
    assert ListInv(i, sl', v, Free, st.free);
    assert ListInv(i, sl', v, Alloc, st.alloc);
    hide ListInv;
  }

  lemma {:induction false} QuietPlace(s: Pool, w: View, s': Pool, w': View, t: nat, pc': PC, j: nat, m: nat)
    requires Inv(s, w) && QuietStep(s, w, s', w', t, pc') && j < |w'| && m < |w'[j].place|
    ensures NodePlaceInv(s', w', j, m)
  {
    if j < |w| {
      assert PlaceInv(s, w, j);
      assert NodePlaceInv(s, w, j, m);
    } else {
      assert Untouched(j, s'.slabs[j], w'[j]);
      assert Node(j, m) !in s.held;
    }
    hide Inv, SlabInv, Untouched;
  }

  lemma {:induction false} QuietClaim(s: Pool, w: View, s': Pool, w': View, t: nat, pc': PC, u: nat)
    requires Inv(s, w) && QuietStep(s, w, s', w', t, pc') && u < |s.pcs|
    ensures ListClaim(s', w', u, s'.pcs[u])
  {
    if u == t {
      IdleClaim(s', w', t, pc');
    } else {
      assert ListClaim(s, w, u, s.pcs[u]);
      QuietHand(s, w, s', w', t, pc', u);
      hide Inv, SlabInv, InHand, HandClaim, Untouched;
    }
  }

  lemma {:induction false} QuietHand(s: Pool, w: View, s': Pool, w': View, t: nat, pc': PC, u: nat)
    requires QuietStep(s, w, s', w', t, pc') && u < |s.pcs| && ListClaim(s, w, u, s.pcs[u])
    ensures InHand(s.pcs[u]).Some? ==> HandClaim(s', w', u, s.pcs[u], InHand(s.pcs[u]).value)
  {
    hide Untouched, Site, HeldList, InHand;
  }

  lemma {:induction false} QuietKeeps(s: Pool, w: View, s': Pool, w': View, t: nat, pc': PC)
    requires Inv(s, w) && QuietStep(s, w, s', w', t, pc')
    ensures |s'.slabs| == |w'| && SlabsInv(s', w') && forall u | 0 <= u < |s'.pcs| :: ListClaim(s', w', u, s'.pcs[u])
  {
    hide SlabInv, LockInv, NodePlaceInv, ListClaim, Untouched;
    forall j | 0 <= j < |s'.slabs|
      ensures SlabInv(j, s'.slabs[j], w'[j], SlabStages(s', j)) && LockInv(s', j, Free) && LockInv(s', j, Alloc)
              && PlaceInv(s', w', j)
    {
      QuietSlab(s, w, s', w', t, pc', j);
      forall m | 0 <= m < |w'[j].place| ensures NodePlaceInv(s', w', j, m) {
        QuietPlace(s, w, s', w', t, pc', j, m);
      }
    }
    forall u | 0 <= u < |s'.pcs| ensures ListClaim(s', w', u, s'.pcs[u]) {
      QuietClaim(s, w, s', w', t, pc', u);
    }
    forall x: Node | x in s'.held ensures HeldIn(s', w', x) {
      assert HeldIn(s, w, x);
    }
  }

  // ----- handing a node to its caller and taking one back

  /** The thread hands over the node in its hands, or takes a held node back. */
  ghost predicate PassStep(s: Pool, w: View, s': Pool, t: nat, pc': PC, x: Node, p: Place)
    requires |s.slabs| == |w|
  {
    && t < |s.pcs| && s'.slabs == s.slabs && s'.slabList == s.slabList && s'.pcs == s.pcs[t := pc']
    && x.slab < |w| && x.slab < Published(s) && x.idx < |w[x.slab].place| && s.slabs[x.slab].HasNode(x.idx)
    && s.slabs[x.slab].word[x.idx] == SlabPtr(x.slab) && s.slabs[x.slab].owned[x.idx]
    && HeldList(s.pcs[t]).None? && HeldList(pc').None?
    && if p.Out? then
         && InHand(s.pcs[t]) == Some(x) && w[x.slab].place[x.idx] == Moving(t)
         && pc' == Idle && s'.held == s.held + multiset{x}
       else
         && s.pcs[t] == Idle && w[x.slab].place[x.idx] == Out && p == Moving(t)
         && pc'.ReadTag? && pc'.i == x.slab && pc'.n == x.idx && x in s.held && s'.held == s.held - multiset{x}
  }

  function PassView(w: View, x: Node, p: Place): View
    requires x.slab < |w| && x.idx < |w[x.slab].place|
  {
    w[x.slab := w[x.slab].(place := w[x.slab].place[x.idx := p])]
  }

  lemma {:induction false} PassSlab(s: Pool, w: View, s': Pool, t: nat, pc': PC, x: Node, p: Place, j: nat)
    requires Inv(s, w) && PassStep(s, w, s', t, pc', x, p) && j < |w|
    ensures SlabInv(j, s'.slabs[j], PassView(w, x, p)[j], SlabStages(s', j)) && LockInv(s', j, Free)
            && LockInv(s', j, Alloc)
  {
    assert LockInv(s, j, Free) && LockInv(s, j, Alloc);
    assert SlabInv(j, s.slabs[j], w[j], SlabStages(s, j));
    assert SlabStages(s', j) == SlabStages(s, j);
    if j == x.slab {
      ChangeHands(j, s.slabs[j], w[j], SlabStages(s, j), x.idx, p);
    }
    hide SlabInv, Inv, InHand, StageOf;
  }

  lemma {:induction false} PassPlace(s: Pool, w: View, s': Pool, t: nat, pc': PC, x: Node, p: Place, j: nat, m: nat)
    requires Inv(s, w) && PassStep(s, w, s', t, pc', x, p) && j < |w| && m < |w[j].place|
    ensures m < |PassView(w, x, p)[j].place| && NodePlaceInv(s', PassView(w, x, p), j, m)
  {
    assert PlaceInv(s, w, j);
    assert NodePlaceInv(s, w, j, m);
    var q := w[j].place[m];
    assert q.Moving? && q.t == t ==> InHand(s.pcs[t]) == Some(Node(j, m));
    assert !p.Out? ==> InHand(pc') == Some(x) && InHand(s.pcs[t]).None?;
    hide Inv, SlabInv, HeldList, InHand, SlabPool.Exec, PlaceInv;
    if Node(j, m) == x {
      assert PassView(w, x, p)[j].place[m] == p;
    } else {
      assert PassView(w, x, p)[j].place[m] == q && s'.held[Node(j, m)] == s.held[Node(j, m)];
    }
  }

  lemma {:induction false} PassOther(s: Pool, w: View, s': Pool, t: nat, pc': PC, x: Node, p: Place, u: nat)
    requires |s.slabs| == |w| && PassStep(s, w, s', t, pc', x, p) && u < |s.pcs| && u != t
            && ListClaim(s, w, u, s.pcs[u])
    ensures ListClaim(s', PassView(w, x, p), u, s'.pcs[u])
  {
    var w', pu := PassView(w, x, p), s.pcs[u];
    if InHand(pu).Some? {
      var y := InHand(pu).value;
      assert HandClaim(s, w, u, pu, y);
      hide InHand, HeldList, Site, HandInv;
      assert HandClaim(s', w', u, pu, y);
    }
    hide InHand, HandClaim, HeldList, Site, PassView;
  }

  lemma {:induction false} PassSelf(s: Pool, w: View, s': Pool, t: nat, pc': PC, x: Node, p: Place)
    requires |s.slabs| == |w| && PassStep(s, w, s', t, pc', x, p)
    ensures ListClaim(s', PassView(w, x, p), t, s'.pcs[t])
  {
    var w' := PassView(w, x, p);
    if p.Out? {
      IdleClaim(s', w', t, Idle);
    } else {
      assert HandClaim(s', w', t, pc', x);
      hide HandClaim, PassView;
    }
  }

  lemma {:induction false} PassClaim(s: Pool, w: View, s': Pool, t: nat, pc': PC, x: Node, p: Place, u: nat)
    requires Inv(s, w) && PassStep(s, w, s', t, pc', x, p) && u < |s.pcs|
    ensures ListClaim(s', PassView(w, x, p), u, s'.pcs[u])
  {
    hide SlabsInv, GrowInv, ListClaim, PassView;
    if u == t {
      PassSelf(s, w, s', t, pc', x, p);
    } else {
      assert ListClaim(s, w, u, s.pcs[u]);
      PassOther(s, w, s', t, pc', x, p, u);
    }
  }

  lemma {:induction false} PassKeeps(s: Pool, w: View, s': Pool, t: nat, pc': PC, x: Node, p: Place)
    requires Inv(s, w) && PassStep(s, w, s', t, pc', x, p)
    ensures var w' := PassView(w, x, p);
            |s'.slabs| == |w'| && SlabsInv(s', w') && forall u | 0 <= u < |s'.pcs| :: ListClaim(s', w', u, s'.pcs[u])
  {
    hide SlabInv, LockInv, NodePlaceInv, ListClaim, HeldList, InHand;
    var w' := PassView(w, x, p);
    forall j | 0 <= j < |s'.slabs|
      ensures SlabInv(j, s'.slabs[j], w'[j], SlabStages(s', j)) && LockInv(s', j, Free) && LockInv(s', j, Alloc)
              && PlaceInv(s', w', j)
    {
      PassSlab(s, w, s', t, pc', x, p, j);
      forall m | 0 <= m < |w'[j].place| ensures NodePlaceInv(s', w', j, m) {
        PassPlace(s, w, s', t, pc', x, p, j, m);
      }
    }
    forall u | 0 <= u < |s'.pcs| ensures ListClaim(s', w', u, s'.pcs[u]) {
      PassClaim(s, w, s', t, pc', x, p, u);
    }
    forall y: Node | y in s'.held ensures HeldIn(s', w', y) {
      if y in s.held { assert HeldIn(s, w, y); }
    }
  }

  // ----- every step keeps the invariant

  /** A statement on a slab leads neither into nor out of the growth protocol's
      critical phases, and leaves the links between slabs alone. */
  lemma {:induction false} SiteAvoidsGrowth(s: Pool, w: View, t: nat, c: Choice)
    requires |s.slabs| == |w| && Enabled(s, t, c) && Site(s.pcs[t]).Some?
    ensures var s', pc := Exec(s, t, c), s.pcs[t];
            && s'.pcs == s.pcs[t := s'.pcs[t]] && !InGrowth(pc) && !HoldsPool(pc) && !InGrowth(s'.pcs[t])
            && !HoldsPool(s'.pcs[t])
            && |s'.slabs| == |s.slabs| && forall j | 0 <= j < |s.slabs| :: s'.slabs[j].next == s.slabs[j].next
  {
    hide Exec, NewView, OnSlab, OnView;
    SiteShape(s, w, t, c);
    OnSlabFacts(s.slabs[Site(s.pcs[t]).value], t, s.pcs[t]);
  }

  lemma {:induction false} StepSite(s: Pool, w: View, t: nat, c: Choice)
    requires Inv(s, w) && Enabled(s, t, c) && Site(s.pcs[t]).Some?
    ensures Inv(Exec(s, t, c), NewView(s, w, t, c))
  {
    SiteSlabsInv(s, w, t, c);
    SiteShape(s, w, t, c);
    SiteAvoidsGrowth(s, w, t, c);
    hide SlabsInv, ListClaim, GrowInv, Exec, NewView, OnSlab, OnView, AfterSlab, Enabled, Site, InGrowth, HoldsPool;
    GrowFrame(s, Exec(s, t, c), t, Exec(s, t, c).pcs[t]);
  }

  lemma {:induction false} GrowView(s: Pool, w: View, t: nat, c: Choice)
    requires |s.slabs| == |w| && Enabled(s, t, c) && Grows(s.pcs[t])
    ensures NewView(s, w, t, c) == if s.pcs[t].Carve? && c.memory then w + [FreshView(c.nodes, s.prepare)] else w
  {
    hide FreshView, OnView;
  }

  lemma {:induction false} GrowHoldsNothing(s: Pool, t: nat, pc: PC, c: Choice)
    requires Grows(pc) && CanRun(s, pc, c)
    ensures HeldList(pc).None? && InHand(pc).None? && Site(pc).None?
    ensures var pc' := OnPool(s, t, pc, c).1;
            HeldList(pc').None? && InHand(pc').None? && Site(pc').None? && !pc'.Crashed?
  {
    GrowGoesOn(s, t, pc, c);
    GrowingHoldsNothing(pc);
    GrowingHoldsNothing(OnPool(s, t, pc, c).1);
    hide *;
  }

  lemma {:induction false} GrowingHoldsNothing(pc: PC)
    requires Grows(pc) || pc.ScanTop?
    ensures HeldList(pc).None? && InHand(pc).None? && Site(pc).None? && !pc.Crashed?
  {
  }

  lemma {:induction false} GrowGoesOn(s: Pool, t: nat, pc: PC, c: Choice)
    requires Grows(pc) && CanRun(s, pc, c)
    ensures var pc' := OnPool(s, t, pc, c).1; Grows(pc') || pc'.ScanTop?
  {
    hide Carved;
  }

  /** The shape of a growth statement. */
  lemma {:induction false} GrowMoves(s: Pool, w: View, t: nat, c: Choice)
    requires |s.slabs| == |w| && Enabled(s, t, c) && Grows(s.pcs[t])
    ensures var s', (p, pc') := Exec(s, t, c), OnPool(s, t, s.pcs[t], c);
            && s' == p.(pcs := s.pcs[t := pc']) && p.held == s.held
            && HeldList(s.pcs[t]).None? && InHand(s.pcs[t]).None? && HeldList(pc').None? && InHand(pc').None?
            && Site(pc').None? && !pc'.Crashed?
            && NewView(s, w, t, c) == if s.pcs[t].Carve? && c.memory then w + [FreshView(c.nodes, s.prepare)] else w
  {
    GrowView(s, w, t, c);
    GrowHoldsNothing(s, t, s.pcs[t], c);
    GrowTouches(s, t, s.pcs[t], c);
    hide Carved, FreshView, OnPool, NewView, InHand, HeldList;
  }

  lemma {:induction false} GrowSlabs(s: Pool, t: nat, c: Choice)
    requires t < |s.pcs| && GrowClaim(s, t, s.pcs[t]) && Enabled(s, t, c) && Grows(s.pcs[t])
    ensures var p := OnPool(s, t, s.pcs[t], c).0;
            && Published(s) <= Published(p)
            && |p.slabs| == |s.slabs| + (if s.pcs[t].Carve? && c.memory then 1 else 0)
            && (forall j | 0 <= j < |s.slabs| :: p.slabs[j] == s.slabs[j].(next := p.slabs[j].next))
            && (s.pcs[t].Carve? && c.memory ==> p.slabs[|s.slabs|] == Carved(|s.slabs|, c.nodes, s.prepare))
  {
    hide Carved;
  }

  lemma {:induction false} FreshIsUntouched(i: nat, nodes: nat, prepare: bool)
    requires nodes >= 1
    ensures Untouched(i, Carved(i, nodes, prepare), FreshView(nodes, prepare))
  {
    FreshSlab(i, nodes, prepare);
    hide SlabInv;
  }

  lemma {:induction false} CarvesNodes(s: Pool, t: nat, c: Choice)
    requires Enabled(s, t, c)
    ensures t < |s.pcs| && (s.pcs[t].Carve? ==> c.nodes >= 1)
  {
  }

  lemma {:induction false} GrowIsQuiet(s: Pool, w: View, t: nat, c: Choice)
    requires |s.slabs| == |w| && t < |s.pcs| && GrowClaim(s, t, s.pcs[t]) && Enabled(s, t, c) && Grows(s.pcs[t])
    ensures QuietStep(s, w, Exec(s, t, c), NewView(s, w, t, c), t, Exec(s, t, c).pcs[t])
  {
    hide Untouched, Carved, FreshView, Exec, NewView, OnPool, GrowClaim, InHand, HeldList, Site, Enabled, Grows;
    CarvesNodes(s, t, c);
    GrowMoves(s, w, t, c);
    GrowSlabs(s, t, c);
    if s.pcs[t].Carve? && c.memory {
      FreshIsUntouched(|s.slabs|, c.nodes, s.prepare);
    }
  }

  lemma {:induction false} StepGrow(s: Pool, w: View, t: nat, c: Choice)
    requires Inv(s, w) && Enabled(s, t, c) && Grows(s.pcs[t])
    ensures Inv(Exec(s, t, c), NewView(s, w, t, c))
  {
    assert GrowClaim(s, t, s.pcs[t]);
    GrowStep(s, t, c);
    GrowIsQuiet(s, w, t, c);
    hide SlabInv, GrowInv, Exec, NewView, QuietStep, SlabsInv, ListClaim;
    QuietKeeps(s, w, Exec(s, t, c), NewView(s, w, t, c), t, Exec(s, t, c).pcs[t]);
  }

  lemma {:induction false} PassOutShape(s: Pool, w: View, t: nat, c: Choice)
    requires Enabled(s, t, c) && s.pcs[t].Prepare? && |s.slabs| == |w|
    ensures var x := Node(s.pcs[t].i, s.pcs[t].n);
            Exec(s, t, c) == s.(held := s.held + multiset{x}, pcs := s.pcs[t := Idle])
    ensures var pc := s.pcs[t];
            pc.i < |w| && pc.n < |w[pc.i].place| ==> NewView(s, w, t, c) == PassView(w, Node(pc.i, pc.n), Out)
  {
  }

  lemma {:induction false} PassOut(s: Pool, w: View, t: nat, c: Choice)
    requires Inv(s, w) && Enabled(s, t, c) && s.pcs[t].Prepare?
    ensures var pc, s' := s.pcs[t], Exec(s, t, c); var x := Node(pc.i, pc.n);
            s'.pcs[t] == Idle && PassStep(s, w, s', t, Idle, x, Out) && NewView(s, w, t, c) == PassView(w, x, Out)
            && s'.slabCount == s.slabCount && s'.lock == s.lock && s'.growing == s.growing
  {
    hide GrowInv, SlabsInv;
    assert ListClaim(s, w, t, s.pcs[t]);
    assert HandClaim(s, w, t, s.pcs[t], Node(s.pcs[t].i, s.pcs[t].n));
    PassOutShape(s, w, t, c);
    hide Inv, SlabInv, Exec, NewView, ListClaim, Enabled, CanRun;
  }

  lemma {:induction false} PassInShape(s: Pool, w: View, t: nat, c: Choice)
    requires Enabled(s, t, c) && s.pcs[t].Idle? && c.request.Put? && |s.slabs| == |w|
    ensures var x := c.request.node;
            Exec(s, t, c) == s.(held := s.held - multiset{x}, pcs := s.pcs[t := ReadTag(c.request.k, x.slab, x.idx)])
    ensures var x := c.request.node;
            x.slab < |w| && x.idx < |w[x.slab].place| ==> NewView(s, w, t, c) == PassView(w, x, Moving(t))
  {
  }

  lemma {:induction false} PassIn(s: Pool, w: View, t: nat, c: Choice)
    requires Inv(s, w) && Enabled(s, t, c) && s.pcs[t].Idle? && c.request.Put?
    ensures var x, s' := c.request.node, Exec(s, t, c);
            s'.pcs[t].ReadTag? && PassStep(s, w, s', t, s'.pcs[t], x, Moving(t))
                && NewView(s, w, t, c) == PassView(w, x, Moving(t))
            && s'.slabCount == s.slabCount && s'.lock == s.lock && s'.growing == s.growing
  {
    var x := c.request.node;
    HeldIsOut(s, w, x);
    hide Inv;
    PassInShape(s, w, t, c);
    TakenBack(s, w, t, c.request.k, x);
    hide Exec, NewView, PassStep, PassView;
  }

  lemma {:induction false} TakenBack(s: Pool, w: View, t: nat, k: Which, x: Node)
    requires |s.slabs| == |w| && t < |s.pcs| && s.pcs[t] == Idle && x in s.held
    requires x.slab < |w| && x.slab < Published(s) && x.idx < |w[x.slab].place| && w[x.slab].place[x.idx] == Out
    requires s.slabs[x.slab].HasNode(x.idx) && s.slabs[x.slab].word[x.idx] == SlabPtr(x.slab)
            && s.slabs[x.slab].owned[x.idx]
    ensures var pc' := ReadTag(k, x.slab, x.idx);
            PassStep(s, w, s.(held := s.held - multiset{x}, pcs := s.pcs[t := pc']), t, pc', x, Moving(t))
  {
  }

  lemma {:induction false} StepPass(s: Pool, w: View, t: nat, c: Choice, x: Node, p: Place)
    requires Inv(s, w) && Enabled(s, t, c) && PassStep(s, w, Exec(s, t, c), t, Exec(s, t, c).pcs[t], x, p)
    requires s.pcs[t].Prepare? || s.pcs[t].Idle?
    requires var s', pc' := Exec(s, t, c), Exec(s, t, c).pcs[t];
            (pc'.Idle? || pc'.ReadTag?) && s'.slabCount == s.slabCount && s'.lock == s.lock && s'.growing == s.growing
    ensures Inv(Exec(s, t, c), PassView(w, x, p))
  {
    hide SlabInv, SlabsInv, ListClaim, GrowClaim, GrowInv, Exec, InHand, HeldList, PassView, Site, CanRun;
    var s' := Exec(s, t, c);
    PassKeeps(s, w, s', t, s'.pcs[t], x, p);
    GrowFrame(s, s', t, s'.pcs[t]);
  }

  /** What a caller holds is a node of a published slab, out and tagged. */
  lemma {:induction false} HeldIsOut(s: Pool, w: View, x: Node)
    requires Inv(s, w) && x in s.held
    ensures x.slab < |w| == |s.slabs| && x.slab < Published(s) && x.idx < |w[x.slab].place|
            && w[x.slab].place[x.idx] == Out && s.held[x] == 1
    ensures s.slabs[x.slab].HasNode(x.idx) && s.slabs[x.slab].word[x.idx] == SlabPtr(x.slab)
            && s.slabs[x.slab].owned[x.idx]
  {
    assert HeldIn(s, w, x);
    assert PlaceInv(s, w, x.slab);
    assert NodePlaceInv(s, w, x.slab, x.idx);
    assert SlabInv(x.slab, s.slabs[x.slab], w[x.slab], SlabStages(s, x.slab));
    hide ListInv, GrowInv, ListClaim;
  }

  lemma {:induction false} ScanStarts(s: Pool, w: View, t: nat, c: Choice)
    requires |s.slabs| == |w| && Enabled(s, t, c) && (s.pcs[t].ScanTop? || (s.pcs[t].Idle? && c.request.Get?))
    ensures var s' := Exec(s, t, c);
            && s' == s.(pcs := s.pcs[t := s'.pcs[t]]) && (s'.pcs[t].ScanTop? || s'.pcs[t].Acq? || s'.pcs[t].PoolAcq?)
            && QuietStep(s, w, s', w, t, s'.pcs[t]) && NewView(s, w, t, c) == w
  {
  }

  lemma {:induction false} InvParts(s: Pool, w: View)
    requires Inv(s, w)
    ensures |s.slabs| == |w| && GrowInv(s)
  {
    hide SlabsInv, ListClaim, GrowInv;
  }

  lemma {:induction false} InvFrom(s: Pool, w: View)
    requires |s.slabs| == |w| && SlabsInv(s, w) && GrowInv(s)
    requires forall t | 0 <= t < |s.pcs| :: ListClaim(s, w, t, s.pcs[t])
    ensures Inv(s, w)
  {
    hide SlabsInv, ListClaim, GrowInv;
  }

  /** A scan begins in a state like the one before but for one program counter. */
  lemma {:induction false} ScanGrowth(s: Pool, s': Pool, t: nat)
    requires GrowInv(s) && t < |s.pcs| && t < |s'.pcs| && s' == s.(pcs := s.pcs[t := s'.pcs[t]])
    requires s.pcs[t].ScanTop? || s.pcs[t].Idle?
    requires s'.pcs[t].ScanTop? || s'.pcs[t].Acq? || s'.pcs[t].PoolAcq?
    ensures GrowInv(s')
  {
    GrowFrame(s, s', t, s'.pcs[t]);
  }

  lemma {:induction false} StepScan(s: Pool, w: View, t: nat, c: Choice)
    requires Inv(s, w) && Enabled(s, t, c) && (s.pcs[t].ScanTop? || (s.pcs[t].Idle? && c.request.Get?))
    ensures Inv(Exec(s, t, c), NewView(s, w, t, c))
  {
    hide *;
    var s' := Exec(s, t, c);
    IsThread(s, t, c);
    InvParts(s, w);
    ScanStarts(s, w, t, c);
    QuietKeeps(s, w, s', w, t, s'.pcs[t]);
    ScanGrowth(s, s', t);
    InvFrom(s', w);
  }

  /** One step keeps the invariant. */
  lemma {:induction false} StepKeepsInv(s: Pool, w: View, t: nat, c: Choice)
    requires Inv(s, w) && Enabled(s, t, c)
    ensures Inv(Exec(s, t, c), NewView(s, w, t, c))
  {
    var pc := s.pcs[t];
    if Site(pc).Some? {
      StepSite(s, w, t, c);
    } else if Grows(pc) {
      StepGrow(s, w, t, c);
    } else if pc.Prepare? {
      PassOut(s, w, t, c);
      hide Inv, PassStep;
      StepPass(s, w, t, c, Node(pc.i, pc.n), Out);
    } else if pc.Idle? && c.request.Put? {
      PassIn(s, w, t, c);
      hide Inv, PassStep;
      StepPass(s, w, t, c, c.request.node, Moving(t));
    } else {
      hide Inv;
      StepScan(s, w, t, c);
    }
  }

  lemma {:induction false} InitInv(s: Pool)
    requires Init(s)
    ensures Inv(s, [])
  {
    CountNone(s.pcs, InGrowth);
  }

  lemma {:induction false} RunKeepsInv(run: seq<Pool>, i: nat) returns (w: View)
    requires IsRun(run) && i < |run|
    ensures Inv(run[i], w)
  {
    if i == 0 {
      InitInv(run[0]);
      w := [];
    } else {
      var v := RunKeepsInv(run, i - 1);
      assert Next(run[i - 1], run[i - 1 + 1]);
      var t: nat, c: Choice :| StepOf(run[i - 1], run[i], t, c);
      hide Inv, Exec, NewView;
      StepKeepsInv(run[i - 1], v, t, c);
      w := NewView(run[i - 1], v, t, c);
    }
  }
}
