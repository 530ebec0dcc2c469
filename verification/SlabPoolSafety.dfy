/** Safety of the shared slab pool over every interleaving: no node is ever
    handed out twice, the lists are well formed and exactly counted, and the
    unlocked scan of the slabs only meets finished slabs. */
module SlabPoolSafety {
  import opened Basics
  import opened Counting
  import opened NodeLists
  import opened SlabPool
  import opened SlabPoolSteps

  // ----- what the invariant means

  /** The threads that have node x in their hands. */
  function Carriers(s: Pool, x: Node): set<nat> {
    set t: nat | t < |s.pcs| && InHand(s.pcs[t]) == Some(x)
  }

  /** Every node is in exactly one place: on one of its slab's lists, with one
      caller, or in the hands of one thread. */
  ghost predicate OnePlace(s: Pool, v: SlabView, x: Node) {
    (if x.idx in v.free then 1 else 0) + (if x.idx in v.alloc then 1 else 0) + s.held[x] + |Carriers(s, x)| == 1
  }

  /** A list whose lock is free is linked, counted and disowned exactly. */
  ghost predicate Settled(i: nat, sl: Slab, v: SlabView, k: Which) {
    && Chain(i, sl.word, sl.At(k).head, v.At(k)) && Distinct(v.At(k))
    && sl.At(k).count == |v.At(k)|
    && forall n | n in v.At(k) :: sl.HasNode(n) && !sl.owned[n] && !sl.word[n].SlabPtr?
  }

  /** From slab i the links lead through every older slab to the end. */
  predicate WalksDown(s: Pool, i: nat) {
    i < |s.slabs| && (if i == 0 then s.slabs[i].next == None else s.slabs[i].next == Some(i - 1) && WalksDown(s, i - 1))
  }

  /** What holds of every reachable pool, for some contents of its lists. */
  ghost predicate Safe(s: Pool, w: View) {
    && |s.slabs| == |w|
    && (forall i, n: nat | 0 <= i < |w| && n < |s.slabs[i].word| :: OnePlace(s, w[i], Node(i, n)))
    && (forall i, k: Which | 0 <= i < |w| && s.slabs[i].At(k).lock == None :: Settled(i, s.slabs[i], w[i], k))
    && (forall x | x in s.held ::
          s.held[x] == 1 && SlabExists(s, x.slab, x.idx) && s.slabs[x.slab].word[x.idx] == SlabPtr(x.slab)
              && s.slabs[x.slab].owned[x.idx])
    && (forall t | 0 <= t < |s.pcs| ::
          !s.pcs[t].Crashed? && (Site(s.pcs[t]).Some? ==> WalksDown(s, Site(s.pcs[t]).value)))
    && Count(s.pcs, InGrowth) <= 1
  }

  lemma {:induction false} SettledWhenUnlocked(s: Pool, w: View, i: nat, k: Which)
    requires Inv(s, w) && i < |w| && s.slabs[i].At(k).lock == None
    ensures Settled(i, s.slabs[i], w[i], k)
  {
    var sl, v := s.slabs[i], w[i];
    assert SlabInv(i, sl, v, SlabStages(s, i));
    assert ListInv(i, sl, v, k, Quiet);
    forall n | n in v.At(k)
      ensures sl.HasNode(n) && !sl.owned[n] && !sl.word[n].SlabPtr?
    {
      ChainWords(i, sl.word, sl.At(k).head, v.At(k), n);
    }
    hide Inv, SlabInv, Chain;
  }

  lemma {:induction false} NodeInOnePlace(s: Pool, w: View, i: nat, n: nat)
    requires Inv(s, w) && i < |w| && n < |s.slabs[i].word|
    ensures OnePlace(s, w[i], Node(i, n))
  {
    var x, v := Node(i, n), w[i];
    assert SlabInv(i, s.slabs[i], v, SlabStages(s, i));
    assert PlaceInv(s, w, i);
    assert NodePlaceInv(s, w, i, n);
    forall t | t in Carriers(s, x)
      ensures v.place[n] == Moving(t)
    {
      assert ListClaim(s, w, t, s.pcs[t]);
      assert HandClaim(s, w, t, s.pcs[t], x);
    }
    if v.place[n].Moving? {
      assert Carriers(s, x) == {v.place[n].t};
    } else {
      assert Carriers(s, x) == {};
    }
    hide Inv, Chain, Distinct;
  }

  lemma {:induction false} LinksWalkDown(s: Pool, i: nat)
    requires GrowShape(s) && i < Published(s)
    ensures WalksDown(s, i)
  {
    if i > 0 {
      LinksWalkDown(s, i - 1);
    }
  }

  lemma {:induction false} ThreadIsSafe(s: Pool, w: View, t: nat)
    requires Inv(s, w) && t < |s.pcs|
    ensures !s.pcs[t].Crashed? && (Site(s.pcs[t]).Some? ==> WalksDown(s, Site(s.pcs[t]).value))
  {
    assert ListClaim(s, w, t, s.pcs[t]);
    hide SlabsInv, GrowClaim;
    if Site(s.pcs[t]).Some? {
      LinksWalkDown(s, Site(s.pcs[t]).value);
    }
  }

  lemma {:induction false} InvIsSafe(s: Pool, w: View)
    requires Inv(s, w)
    ensures Safe(s, w)
  {
    hide SlabsInv, ListClaim, OnePlace, Settled, WalksDown, GrowClaim, GrowShape, Site, InHand, HeldList;
    assert |s.slabs| == |w| && Count(s.pcs, InGrowth) <= 1;
    hide Inv;
    forall i, n: nat | 0 <= i < |w| && n < |s.slabs[i].word| ensures OnePlace(s, w[i], Node(i, n)) {
      NodeInOnePlace(s, w, i, n);
    }
    forall i, k: Which | 0 <= i < |w| && s.slabs[i].At(k).lock == None ensures Settled(i, s.slabs[i], w[i], k) {
      SettledWhenUnlocked(s, w, i, k);
    }
    forall x | x in s.held
      ensures s.held[x] == 1 && SlabExists(s, x.slab, x.idx) && s.slabs[x.slab].word[x.idx] == SlabPtr(x.slab)
              && s.slabs[x.slab].owned[x.idx]
    {
      HeldIsOut(s, w, x);
    }
    forall t | 0 <= t < |s.pcs|
      ensures !s.pcs[t].Crashed? && (Site(s.pcs[t]).Some? ==> WalksDown(s, Site(s.pcs[t]).value))
    {
      ThreadIsSafe(s, w, t);
    }
  }

  /** Main result: over every interleaving of every run, no node is handed out
      twice or lost, unlocked lists are exact, at most one thread grows the
      pool, and every unlocked scan is on a finished slab. */
  lemma {:induction false} EveryRunIsSafe(run: seq<Pool>, i: nat) returns (w: View)
    requires IsRun(run) && i < |run|
    ensures Safe(run[i], w)
  {
    w := RunKeepsInv(run, i);
    InvIsSafe(run[i], w);
  }
}
