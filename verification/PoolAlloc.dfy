/** Handing out one node of a pool with no other thread at work, as _PoolAlloc
    of src/memmgr/slab.c does it: scan the slabs, and cut a new one when none
    has a node to offer. */
module PoolAlloc {

  /** The two lists of a slab with their counters. A counter may be less than
      its list is long, zero, or negative: handing out chunks counts off nodes
      that stay on the list. */
  datatype Slab = Slab(free: seq<nat>, freeNodes: int, unprepared: seq<nat>, unpreparedNodes: int)

  predicate OffersFree(s: Slab) {
    s.freeNodes != 0 && s.free != []
  }

  /** The unprepared list is looked at only in a pool that prepares nodes. */
  predicate Offers(s: Slab, prepares: bool) {
    OffersFree(s) || (prepares && s.unpreparedNodes != 0 && s.unprepared != [])
  }

  /** The first slab with a node to offer; the number of slabs if none has. */
  function FirstOffer(slabs: seq<Slab>, prepares: bool): (i: nat)
    ensures i <= |slabs| && (i < |slabs| ==> Offers(slabs[i], prepares))
            && forall j | 0 <= j < i :: !Offers(slabs[j], prepares)
  {
    if slabs == [] || Offers(slabs[0], prepares) then 0 else 1 + FirstOffer(slabs[1..], prepares)
  }

  /** The node was in front of the free list, or of the unprepared list if no
      free node is offered. It is off that list, whose counter is one less, and
      the other list is as it was. */
  predicate TakesOff(before: Slab, after: Slab, node: nat) {
    if OffersFree(before) then
      && [node] + after.free == before.free && after.freeNodes == before.freeNodes - 1
      && after.unprepared == before.unprepared && after.unpreparedNodes == before.unpreparedNodes
    else
      && [node] + after.unprepared == before.unprepared && after.unpreparedNodes == before.unpreparedNodes - 1
      && after.free == before.free && after.freeNodes == before.freeNodes
  }

  /** The node comes off slab k, and all other slabs are as they were. */
  predicate TakenFrom(before: seq<Slab>, after: seq<Slab>, k: nat, node: nat) {
    && k < |before| == |after| && TakesOff(before[k], after[k], node)
    && forall j | 0 <= j < |before| && j != k :: after[j] == before[j]
  }

  /** A slab as _NewSlab leaves it. */
  function NewSlab(nodes: nat, prepares: bool): Slab
  {
    var all := seq(nodes, (i: nat) => i);
    if prepares then Slab([], 0, all, nodes) else Slab(all, nodes, [], 0)
  }

  /** The first growth that is granted. */
  function FirstGrant(grants: nat -> bool, from: nat, known: nat): (k: nat)
    requires from <= known && grants(known)
    ensures from <= k <= known && grants(k) && forall j | from <= j < k :: !grants(j)
    decreases known - from
  {
    if grants(from) then from else FirstGrant(grants, from + 1, known)
  }

  lemma {:induction false} NewSlabOffers(nodes: nat, prepares: bool)
    requires nodes >= 1
    ensures var s := NewSlab(nodes, prepares);
            && Offers(s, prepares) && (OffersFree(s) <==> !prepares)
            && (s.free != [] ==> s.free[0] == 0) && (s.unprepared != [] ==> s.unprepared[0] == 0)
  {
  }

  lemma {:induction false} FirstOfferIs(slabs: seq<Slab>, prepares: bool, i: nat)
    requires i <= |slabs| && (i < |slabs| ==> Offers(slabs[i], prepares))
            && forall j | 0 <= j < i :: !Offers(slabs[j], prepares)
    ensures FirstOffer(slabs, prepares) == i
  {
  }

  // ----- allocation after allocation

  /** A node, with its slab counted from the oldest, which never moves. */
  type Handle = (nat, nat)

  /** One allocation: off a slab there is, or off a slab cut for it. */
  predicate Allocates(before: seq<Slab>, after: seq<Slab>, prepares: bool, nodes: nat, at: Handle) {
    && |before| <= |after| <= |before| + 1 && at.0 < |after|
    && var mid := if |after| == |before| then before else [NewSlab(nodes, prepares)] + before;
       TakenFrom(mid, after, |after| - 1 - at.0, at.1)
  }

  predicate OnSlab(s: Slab, n: nat) {
    n in s.free || n in s.unprepared
  }

  predicate Distinct(ns: seq<nat>) {
    forall i, j | 0 <= i < j < |ns| :: ns[i] != ns[j]
  }

  /** Each node is on one list of its slab, once, or not on any. */
  predicate EachOnce(s: Slab) {
    Distinct(s.free) && Distinct(s.unprepared) && forall n | n in s.free :: n !in s.unprepared
  }

  predicate AllOnce(slabs: seq<Slab>) {
    forall i | 0 <= i < |slabs| :: EachOnce(slabs[i])
  }

  /** Slab j counted from the oldest. */
  function Nth(slabs: seq<Slab>, j: nat): Slab
    requires j < |slabs|
  {
    slabs[|slabs| - 1 - j]
  }

  predicate Listed(slabs: seq<Slab>, x: Handle) {
    x.0 < |slabs| && OnSlab(Nth(slabs, x.0), x.1)
  }

  lemma {:induction false} TakenIsGone(before: Slab, after: Slab, node: nat)
    requires EachOnce(before) && TakesOff(before, after, node)
    ensures EachOnce(after) && OnSlab(before, node) && !OnSlab(after, node)
    ensures forall n | n != node :: OnSlab(after, n) <==> OnSlab(before, n)
  {
    var was, now := if OffersFree(before) then before.free else before.unprepared,
        if OffersFree(before) then after.free else after.unprepared;
    assert was[0] == node && was[1..] == now;
    assert forall n :: n in was <==> n == node || n in now;
    assert forall i | 0 <= i < |now| :: now[i] == was[i + 1];
  }

  lemma {:induction false} NewSlabOnce(nodes: nat, prepares: bool)
    ensures EachOnce(NewSlab(nodes, prepares))
    ensures forall n: nat :: OnSlab(NewSlab(nodes, prepares), n) <==> n < nodes
  {
    var all := seq(nodes, (i: nat) => i);
    forall n: nat ensures n in all <==> n < nodes {
      if n < nodes { assert all[n] == n; }
    }
  }

  lemma {:induction false} TakenOnce(before: seq<Slab>, after: seq<Slab>, at: Handle)
    requires AllOnce(before) && at.0 < |before| && TakenFrom(before, after, |before| - 1 - at.0, at.1)
    ensures AllOnce(after) && Listed(before, at) && !Listed(after, at)
    ensures forall x: Handle | x != at :: Listed(after, x) <==> Listed(before, x)
  {
    hide EachOnce, OnSlab, TakesOff;
    TakenIsGone(Nth(before, at.0), Nth(after, at.0), at.1);
    forall x: Handle | x != at ensures Listed(after, x) <==> Listed(before, x) {
      if x.0 < |before| && x.0 != at.0 {
        assert Nth(after, x.0) == Nth(before, x.0);
      }
    }
  }

  lemma {:induction false} OneSlabMore(s: Slab, slabs: seq<Slab>)
    requires EachOnce(s) && AllOnce(slabs)
    ensures AllOnce([s] + slabs)
    ensures forall x: Handle :: Listed([s] + slabs, x) <==> if x.0 == |slabs| then OnSlab(s, x.1) else Listed(slabs, x)
  {
    hide EachOnce, OnSlab;
    forall x: Handle
      ensures Listed([s] + slabs, x) <==> if x.0 == |slabs| then OnSlab(s, x.1) else Listed(slabs, x)
    {
      if x.0 < |slabs| {
        assert Nth([s] + slabs, x.0) == Nth(slabs, x.0);
      }
    }
  }

  /** An allocation takes its node, and no other, off the lists; a slab that is
      cut brings each of its nodes once. */
  lemma {:induction false} AllocateOnce(before: seq<Slab>, after: seq<Slab>, prepares: bool, nodes: nat, at: Handle)
    requires AllOnce(before) && Allocates(before, after, prepares, nodes, at)
    ensures AllOnce(after) && !Listed(after, at) && (at.0 >= |before| || Listed(before, at))
    ensures forall x: Handle | x != at ::
              Listed(after, x) <==> Listed(before, x) || (x.0 == |before| < |after| && x.1 < nodes)
  {
    hide EachOnce, OnSlab, NewSlab, TakenFrom, AllOnce, Listed;
    NewSlabOnce(nodes, prepares);
    if |after| == |before| {
      TakenOnce(before, after, at);
    } else {
      OneSlabMore(NewSlab(nodes, prepares), before);
      TakenOnce([NewSlab(nodes, prepares)] + before, after, at);
      NotListed(before);
    }
  }

  lemma {:induction false} NotListed(slabs: seq<Slab>)
    ensures forall x: Handle | x.0 >= |slabs| :: !Listed(slabs, x)
  {
  }

  /** Allocations with nothing given back in between. */
  ghost predicate IsRun(run: seq<seq<Slab>>, ats: seq<Handle>, prepares: bool, nodes: nat) {
    && |run| == |ats| + 1
    && forall i | 0 <= i < |ats| :: Allocates(run[i], run[i + 1], prepares, nodes, ats[i])
  }

  lemma {:induction false} StaysOff(run: seq<seq<Slab>>, ats: seq<Handle>, prepares: bool, nodes: nat, j: nat, k: nat)
    requires IsRun(run, ats, prepares, nodes) && AllOnce(run[0]) && j < k < |run|
    ensures AllOnce(run[j]) && AllOnce(run[k]) && ats[j].0 < |run[k]| && !Listed(run[k], ats[j])
    decreases k
  {
    hide AllOnce, Allocates, Listed;
    if k == j + 1 {
      if j > 0 {
        StaysOff(run, ats, prepares, nodes, j - 1, j);
      }
      TakesOffRun(run, ats, prepares, nodes, j);
    } else {
      StaysOff(run, ats, prepares, nodes, j, k - 1);
      TakesOffRun(run, ats, prepares, nodes, k - 1);
    }
  }

  lemma {:induction false} TakesOffRun(run: seq<seq<Slab>>, ats: seq<Handle>, prepares: bool, nodes: nat, k: nat)
    requires IsRun(run, ats, prepares, nodes) && k < |ats| && AllOnce(run[k])
    ensures AllOnce(run[k + 1]) && ats[k].0 < |run[k + 1]| && |run[k]| <= |run[k + 1]| && !Listed(run[k + 1], ats[k])
    ensures ats[k].0 >= |run[k]| || Listed(run[k], ats[k])
    ensures forall x: Handle | x.0 < |run[k]| && !Listed(run[k], x) :: !Listed(run[k + 1], x)
  {
    AllocateOnce(run[k], run[k + 1], prepares, nodes, ats[k]);
    hide AllOnce, Listed, TakenFrom;
  }

  /** No node is handed out twice: from any pool in which each node is on one
      list once, over any number of allocations. */
  lemma {:induction false} NoNodeTwice(run: seq<seq<Slab>>, ats: seq<Handle>, prepares: bool, nodes: nat, j: nat,
      k: nat)
    requires IsRun(run, ats, prepares, nodes) && AllOnce(run[0]) && j < k < |ats|
    ensures ats[j] != ats[k]
  {
    StaysOff(run, ats, prepares, nodes, j, k);
    TakesOffRun(run, ats, prepares, nodes, k);
  }

  class Pool {
    const prepares: bool

    /** The nodes a slab of this pool is cut into. */
    const nodesPerSlab: nat

    var slabs: seq<Slab>

    /** The nodes prepared so far, as slab counted from the oldest and node. */
    var prepared: seq<(nat, nat)>

    constructor (prepares: bool, nodesPerSlab: nat)
      ensures slabs == [] && prepared == [] && this.prepares == prepares && this.nodesPerSlab == nodesPerSlab
    {
      this.prepares, this.nodesPerSlab := prepares, nodesPerSlab;
      slabs, prepared := [], [];
    }

    /** One scan of the slabs: a node off the free list, or off the unprepared
        list and then prepared, of the first slab that offers one. */
    method Scan() returns (found: bool, slab: nat, node: nat)
      modifies this
      ensures slab == FirstOffer(old(slabs), prepares) && found == (slab < |old(slabs)|)
      ensures found ==> TakenFrom(old(slabs), slabs, slab, node)
      ensures found ==>
              prepared == old(prepared) + if OffersFree(old(slabs)[slab]) then [] else [(|slabs| - 1 - slab, node)]
      ensures !found ==> slabs == old(slabs) && prepared == old(prepared)
    {
      found, slab, node := false, 0, 0;
      while slab < |slabs|
        invariant slab <= |slabs| && slabs == old(slabs) && prepared == old(prepared) && !found
        invariant forall j | 0 <= j < slab :: !Offers(slabs[j], prepares)
      {
        var s := slabs[slab];
        if s.freeNodes != 0 && s.free != [] {
          FirstOfferIs(slabs, prepares, slab);
          node := s.free[0];
          slabs := slabs[slab := s.(free := s.free[1..], freeNodes := s.freeNodes - 1)];
          return true, slab, node;
        }
        if prepares {
          if s.unpreparedNodes != 0 && s.unprepared != [] {
            FirstOfferIs(slabs, prepares, slab);
            node := s.unprepared[0];
            slabs := slabs[slab := s.(unprepared := s.unprepared[1..], unpreparedNodes := s.unpreparedNodes - 1)];
            prepared := prepared + [(|slabs| - 1 - slab, node)];
            return true, slab, node;
          }
        }
        slab := slab + 1;
      }
      FirstOfferIs(slabs, prepares, slab);
    }

    /** _PoolAlloc for one node. `grants` says which attempts to map a slab
        succeed, and `known` names one that does. The node comes from the first
        slab that offers one, in one pass; or no slab does, and then it is the
        first node of the one slab that is cut, in the pass after the first
        attempt that succeeds: two passes in all if that is the first attempt. */
    method PoolAlloc(grants: nat -> bool, ghost known: nat) returns (slab: nat, node: nat, passes: nat)
      requires nodesPerSlab >= 1 && grants(known)
      modifies this
      ensures var i := FirstOffer(old(slabs), prepares);
              if i < |old(slabs)| then
                && passes == 1 && slab == i && TakenFrom(old(slabs), slabs, slab, node)
                && prepared == old(prepared) + if OffersFree(old(slabs)[i]) then [] else [(|slabs| - 1 - slab, node)]
              else
                && passes == FirstGrant(grants, 0, known) + 2 && slab == 0 && node == 0
                && TakenFrom([NewSlab(nodesPerSlab, prepares)] + old(slabs), slabs, 0, 0)
                && prepared == old(prepared) + if prepares then [(|slabs| - 1, 0)] else []
      ensures Allocates(old(slabs), slabs, prepares, nodesPerSlab, (|slabs| - 1 - slab, node))
    {
      passes := 0;
      NewSlabOffers(nodesPerSlab, prepares);
      ghost var first := FirstOffer(slabs, prepares);
      ghost var granted := false;
      while true
        invariant !granted ==>
                slabs == old(slabs) && prepared == old(prepared) && (passes > 0 ==> first == |slabs|)
                && (first == |slabs| ==> passes <= FirstGrant(grants, 0, known))
        invariant granted ==>
                first == |old(slabs)| && slabs == [NewSlab(nodesPerSlab, prepares)] + old(slabs)
                && prepared == old(prepared) && passes == FirstGrant(grants, 0, known) + 1
        decreases known + 2 - passes
      {
        var found;
        found, slab, node := Scan();
        passes := passes + 1;
        if found {
          return;
        }
        if grants(passes - 1) {
          slabs := [NewSlab(nodesPerSlab, prepares)] + slabs;
          granted := true;
        }
      }
    }
  }
}
