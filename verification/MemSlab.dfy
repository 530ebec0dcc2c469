/** One slab as the allocator updates it in place: _NewSlab, _GetNode,
    _PoolFree, _PoolDiscard, chunk hand-out (MMPoolGetChunk, MMChunkGet,
    FreeChunkCB) and the teardown in _FreeSlab, from src/memmgr/slab.c. */
module MemSlabs {
  import opened Basics
  import opened NodeLists
  import opened SlabLayout
  import opened SlabRequests

  /** A list head and its counter. */
  datatype MemList = MemList(list: Word, nodes: int)

  /** A chunk remembers the list its nodes go back to and its unfinished nodes. */
  datatype Chunk = Chunk(kind: NodeType, nodeList: Word)

  /** The list that each chunk is labelled with. */
  function Kinds(chunks: map<nat, Chunk>): map<nat, NodeType> {
    map c | c in chunks :: chunks[c].kind
  }

  lemma {:induction false} KindsChange(chunks: map<nat, Chunk>, c: nat, chunk: Chunk)
    ensures Kinds(chunks[c := chunk]) == Kinds(chunks)[c := chunk.kind]
    ensures Kinds(chunks - {c}) == Kinds(chunks) - {c}
    ensures c in chunks && chunks[c].kind == chunk.kind ==> Kinds(chunks[c := chunk]) == Kinds(chunks)
  {
  }

  /** The first n nodes that are out, in address order. */
  function Outstanding(place: seq<Place>, n: nat): seq<nat>
    requires n <= |place|
  {
    if n == 0 then []
    else Outstanding(place, n - 1) + (if place[n - 1] == Out then [n - 1] else [])
  }

  function FreedAll(ns: seq<nat>): seq<Event> {
    if ns == [] then [] else [Freed(ns[0])] + FreedAll(ns[1..])
  }

  function DestroyedAll(ns: seq<nat>): seq<Event> {
    if ns == [] then [] else [Destroyed(ns[0])] + DestroyedAll(ns[1..])
  }

  /** The callbacks a teardown owes: freeCB for every outstanding node, then
      destroyCB for these and the free ones. */
  function TeardownEvents(cb: Callbacks, place: seq<Place>, free: seq<nat>): seq<Event> {
    var outs := Outstanding(place, |place|);
    (if cb.free then FreedAll(outs) else []) + (if cb.destroy then DestroyedAll(Reversed(outs) + free) else [])
  }

  lemma {:induction false} FreedAllAppend(ns: seq<nat>, n: nat)
    ensures FreedAll(ns + [n]) == FreedAll(ns) + [Freed(n)]
  {
    if ns == [] {
      assert [] + [n] == [n] && [n][1..] == [];
    } else {
      assert (ns + [n])[1..] == ns[1..] + [n];
      FreedAllAppend(ns[1..], n);
    }
  }

  lemma {:induction false} DestroyedAllAppend(ns: seq<nat>, n: nat)
    ensures DestroyedAll(ns + [n]) == DestroyedAll(ns) + [Destroyed(n)]
  {
    if ns == [] {
      assert [] + [n] == [n] && [n][1..] == [];
    } else {
      assert (ns + [n])[1..] == ns[1..] + [n];
      DestroyedAllAppend(ns[1..], n);
    }
  }

  lemma {:induction false} ReversedAppend(s: seq<nat>, n: nat)
    ensures Reversed(s + [n]) == [n] + Reversed(s)
  {
    if s == [] {
      assert [] + [n] == [n] && [n][1..] == [];
    } else {
      assert (s + [n])[1..] == s[1..] + [n];
      ReversedAppend(s[1..], n);
    }
  }

  lemma {:induction false} ReversedMembers(s: seq<nat>)
    ensures multiset(Reversed(s)) == multiset(s)
  {
    if s != [] {
      ReversedMembers(s[1..]);
      assert s == [s[0]] + s[1..];
    }
  }

  lemma {:induction false} NothingOutstanding(place: seq<Place>, free: seq<nat>)
    ensures Outstanding(place, 0) == []
    ensures Reversed(Outstanding(place, 0)) + free == free && FreedAll(Outstanding(place, 0)) == []
  {
  }

  lemma {:induction false} OutstandingBelow(place: seq<Place>, n: nat, k: nat)
    requires n <= |place| && k in Outstanding(place, n)
    ensures k < n
  {
    if k in Outstanding(place, n - 1) {
      OutstandingBelow(place, n - 1, k);
    }
  }

  lemma {:induction false} OutstandingMembers(place: seq<Place>, n: nat, k: nat)
    requires n <= |place|
    ensures multiset(Outstanding(place, n))[k] == if k < n && place[k] == Out then 1 else 0
  {
    hide Outstanding;
    if n == 0 {
      NothingOutstanding(place, []);
    } else {
      OutstandingMembers(place, n - 1, k);
      var before, last := Outstanding(place, n - 1), if place[n - 1] == Out then [n - 1] else [];
      OutstandingSplits(place, n);
      AppendCounts(before, last, k);
    }
  }

  lemma {:induction false} OutstandingSplits(place: seq<Place>, n: nat)
    requires 0 < n <= |place|
    ensures Outstanding(place, n) == Outstanding(place, n - 1) + if place[n - 1] == Out then [n - 1] else []
  {
  }

  lemma {:induction false} AppendCounts(a: seq<nat>, b: seq<nat>, k: nat)
    ensures multiset(a + b)[k] == multiset(a)[k] + multiset(b)[k]
    ensures |b| <= 1 ==> multiset(b)[k] == if b != [] && b[0] == k then 1 else 0
  {
    if |b| == 1 {
      assert b == [b[0]];
    }
  }

  lemma {:induction false} FreedCounts(ns: seq<nat>, n: nat)
    ensures multiset(FreedAll(ns))[Freed(n)] == Occurrences(ns, n) && multiset(FreedAll(ns))[Destroyed(n)] == 0
  {
    if ns != [] {
      FreedCounts(ns[1..], n);
      assert multiset(FreedAll(ns)) == multiset([Freed(ns[0])]) + multiset(FreedAll(ns[1..]));
      assert ns == [ns[0]] + ns[1..];
    }
  }

  lemma {:induction false} DestroyedCounts(ns: seq<nat>, n: nat)
    ensures multiset(DestroyedAll(ns))[Destroyed(n)] == Occurrences(ns, n) && multiset(DestroyedAll(ns))[Freed(n)] == 0
  {
    if ns != [] {
      DestroyedCounts(ns[1..], n);
      assert multiset(DestroyedAll(ns)) == multiset([Destroyed(ns[0])]) + multiset(DestroyedAll(ns[1..]));
      assert ns == [ns[0]] + ns[1..];
    }
  }

  lemma {:induction false} EventCounts(ns: seq<nat>, n: nat)
    ensures multiset(FreedAll(ns))[Freed(n)] == Occurrences(ns, n) == multiset(DestroyedAll(ns))[Destroyed(n)]
    ensures multiset(FreedAll(ns))[Destroyed(n)] == 0 == multiset(DestroyedAll(ns))[Freed(n)]
  {
    FreedCounts(ns, n);
    DestroyedCounts(ns, n);
  }

  /** Every outstanding node gets freeCB exactly once, every outstanding or
      free-listed node gets destroyCB exactly once, and unprepared nodes get
      neither. */
  lemma {:induction false} TeardownExactlyOnce(i: nat, cb: Callbacks, l: Layout, n: nat)
    requires Conserved(i, l) && OnFree in l.lists && n < |l.place|
    ensures var events := multiset(TeardownEvents(cb, l.place, l.lists[OnFree]));
            && events[Freed(n)] == (if cb.free && l.place[n] == Out then 1 else 0)
            && events[Destroyed(n)] == (if cb.destroy && (l.place[n] == Out || l.place[n] == OnFree) then 1 else 0)
  {
    hide Conserved, Outstanding, Reversed, FreedAll, DestroyedAll;
    var outs, free := Outstanding(l.place, |l.place|), l.lists[OnFree];
    OutstandingMembers(l.place, |l.place|, n);
    ReversedMembers(outs);
    NodeOccursOnce(i, l, n);
    assert multiset(Reversed(outs) + free) == multiset(Reversed(outs)) + multiset(free);
    EventCounts(outs, n);
    EventCounts(Reversed(outs) + free, n);
  }

  // ----- the order of the callbacks at teardown

  lemma {:induction false} EventsAt(ns: seq<nat>)
    ensures |FreedAll(ns)| == |ns| == |DestroyedAll(ns)|
    ensures forall i | 0 <= i < |ns| :: FreedAll(ns)[i] == Freed(ns[i]) && DestroyedAll(ns)[i] == Destroyed(ns[i])
  {
    if ns != [] {
      EventsAt(ns[1..]);
    }
  }

  lemma {:induction false} OutstandingAscends(place: seq<Place>, n: nat)
    requires n <= |place|
    ensures forall i | 0 <= i < |Outstanding(place, n)| ::
              Outstanding(place, n)[i] < n && place[Outstanding(place, n)[i]] == Out
    ensures forall i, j | 0 <= i < j < |Outstanding(place, n)| :: Outstanding(place, n)[i] < Outstanding(place, n)[j]
  {
    if n > 0 {
      OutstandingAscends(place, n - 1);
    }
  }

  lemma {:induction false} ReversedAt(s: seq<nat>)
    ensures |Reversed(s)| == |s| && forall i | 0 <= i < |s| :: Reversed(s)[i] == s[|s| - 1 - i]
  {
    if s != [] {
      ReversedAt(s[1..]);
    }
  }

  ghost predicate GoesBefore(ns: seq<nat>, m: nat, n: nat) {
    exists p, q :: 0 <= p < q < |ns| && ns[p] == m && ns[q] == n
  }

  /** No node is freed after any is destroyed, and nodes are freed in address
      order. Of two nodes that are destroyed, an outstanding one goes before a
      free one; outstanding ones go from the last address to the first, and
      free ones in the order of their list. */
  ghost predicate InOrder(place: seq<Place>, free: seq<nat>, first: Event, second: Event) {
    && (first.Destroyed? ==> !second.Freed?)
    && (first.Freed? && second.Freed? ==> first.n < second.n)
    && (first.Destroyed? && second.Destroyed? ==>
          && first.n < |place| && second.n < |place|
          && (place[second.n] == Out ==> place[first.n] == Out && first.n > second.n)
          && (place[first.n] != Out ==> GoesBefore(free, first.n, second.n)))
  }

  /** What a teardown with these nodes outstanding and free adds to the log. */
  ghost predicate TornDown(cb: Callbacks, place: seq<Place>, free: seq<nat>, events: seq<Event>) {
    && (forall j, k | 0 <= j < k < |events| :: InOrder(place, free, events[j], events[k]))
    && (forall n | 0 <= n < |place| ::
          && multiset(events)[Freed(n)] == (if cb.free && place[n] == Out then 1 else 0)
          && multiset(events)[Destroyed(n)] == (if cb.destroy && (place[n] == Out || place[n] == OnFree) then 1 else 0))
    && (forall k | 0 <= k < |events| :: !events[k].Prepared? && events[k].n < |place|)
  }

  /** The nodes that are destroyed, in their order. */
  lemma {:induction false} DestroyedOrder(i: nat, l: Layout, j: nat, k: nat)
    requires Conserved(i, l) && OnFree in l.lists
    requires j < k < |Reversed(Outstanding(l.place, |l.place|)) + l.lists[OnFree]|
    ensures var ns := Reversed(Outstanding(l.place, |l.place|)) + l.lists[OnFree];
            InOrder(l.place, l.lists[OnFree], Destroyed(ns[j]), Destroyed(ns[k]))
  {
    var outs, free := Outstanding(l.place, |l.place|), l.lists[OnFree];
    var ns := Reversed(outs) + free;
    OutstandingAscends(l.place, |l.place|);
    ReversedAt(outs);
    NodeOfTeardown(i, l, j);
    NodeOfTeardown(i, l, k);
    hide Conserved, Outstanding, Reversed;
    if j >= |outs| {
      assert free[j - |outs|] == ns[j] && free[k - |outs|] == ns[k];
    }
  }

  lemma {:induction false} NodeOfTeardown(i: nat, l: Layout, j: nat)
    requires Conserved(i, l) && OnFree in l.lists
    requires j < |Reversed(Outstanding(l.place, |l.place|)) + l.lists[OnFree]|
    ensures var outs := Outstanding(l.place, |l.place|); var n := (Reversed(outs) + l.lists[OnFree])[j];
            && |Reversed(outs)| == |outs|
            && n < |l.place| && l.place[n] == if j < |outs| then Out else OnFree
  {
    hide Conserved, Outstanding, Reversed;
    var outs, free := Outstanding(l.place, |l.place|), l.lists[OnFree];
    OutstandingAscends(l.place, |l.place|);
    ReversedAt(outs);
    if j >= |outs| {
      MemberPlace(i, l, OnFree, free[j - |outs|]);
    }
  }

  lemma {:induction false} TeardownOrder(i: nat, cb: Callbacks, l: Layout, j: nat, k: nat)
    requires Conserved(i, l) && OnFree in l.lists && j < k < |TeardownEvents(cb, l.place, l.lists[OnFree])|
    ensures var events := TeardownEvents(cb, l.place, l.lists[OnFree]);
            InOrder(l.place, l.lists[OnFree], events[j], events[k])
  {
    hide Conserved, Outstanding, Reversed, FreedAll, DestroyedAll;
    var outs, free := Outstanding(l.place, |l.place|), l.lists[OnFree];
    var ns := Reversed(outs) + free;
    EventsAt(outs);
    EventsAt(ns);
    OutstandingAscends(l.place, |l.place|);
    var first := if cb.free then |outs| else 0;
    if j >= first {
      DestroyedOrder(i, l, j - first, k - first);
    }
  }

  lemma {:induction false} TeardownNodes(i: nat, cb: Callbacks, l: Layout, k: nat)
    requires Conserved(i, l) && OnFree in l.lists && k < |TeardownEvents(cb, l.place, l.lists[OnFree])|
    ensures var e := TeardownEvents(cb, l.place, l.lists[OnFree])[k]; !e.Prepared? && e.n < |l.place|
  {
    hide Conserved, Outstanding, Reversed, FreedAll, DestroyedAll;
    var outs, free := Outstanding(l.place, |l.place|), l.lists[OnFree];
    EventsAt(outs);
    EventsAt(Reversed(outs) + free);
    OutstandingAscends(l.place, |l.place|);
    var first := if cb.free then |outs| else 0;
    if k >= first {
      NodeOfTeardown(i, l, k - first);
    }
  }

  lemma {:induction false} TeardownIsTornDown(i: nat, cb: Callbacks, l: Layout)
    requires Conserved(i, l) && OnFree in l.lists
    ensures TornDown(cb, l.place, l.lists[OnFree], TeardownEvents(cb, l.place, l.lists[OnFree]))
  {
    hide Conserved, TeardownEvents, InOrder;
    var free := l.lists[OnFree];
    var events := TeardownEvents(cb, l.place, free);
    forall j, k | 0 <= j < k < |events| ensures InOrder(l.place, free, events[j], events[k]) {
      TeardownOrder(i, cb, l, j, k);
    }
    forall n | 0 <= n < |l.place|
      ensures multiset(events)[Freed(n)] == (if cb.free && l.place[n] == Out then 1 else 0)
      ensures multiset(events)[Destroyed(n)] ==
              (if cb.destroy && (l.place[n] == Out || l.place[n] == OnFree) then 1 else 0)
    {
      TeardownExactlyOnce(i, cb, l, n);
    }
    forall k | 0 <= k < |events| ensures !events[k].Prepared? && events[k].n < |l.place| {
      TeardownNodes(i, cb, l, k);
    }
  }

  /** The layout describes the words, the two list heads and the chunks. */
  ghost predicate Describes(word: seq<Word>, free: MemList, alloc: MemList, chunks: map<nat, Chunk>, l: Layout) {
    && l.word == word
    && OnFree in l.heads && l.heads[OnFree] == free.list
    && OnAlloc in l.heads && l.heads[OnAlloc] == alloc.list
    && (forall c | c in chunks :: InChunk(c) in l.heads && l.heads[InChunk(c)] == chunks[c].nodeList)
    && (forall p | p in l.heads :: p == OnFree || p == OnAlloc || (p.InChunk? && p.c in chunks))
  }

  /** Conservation, counters that never exceed their lists, and every node that
      is out or in a chunk owned by the pool. */
  ghost predicate WellShaped(i: nat, word: seq<Word>, owned: seq<bool>, free: MemList, alloc: MemList,
      chunks: map<nat, Chunk>, nextChunk: nat, l: Layout) {
    && |word| == |owned| == |l.place| > 0
    && Describes(word, free, alloc, chunks, l)
    && Conserved(i, l)
    && l.heads.Keys == l.lists.Keys && OnFree in l.lists && OnAlloc in l.lists
    && free.nodes <= |l.lists[OnFree]|
    && alloc.nodes <= |l.lists[OnAlloc]|
    && (forall n | 0 <= n < |l.place| && (l.place[n] == Out || l.place[n].InChunk?) :: owned[n])
    && (forall c | c in chunks :: chunks[c].kind == NODE_TYPE_FREE && c < nextChunk)
  }

  lemma {:induction false} CutShape(i: nat, word: seq<Word>, owned: seq<bool>, free: MemList, alloc: MemList,
      chunks: map<nat, Chunk>, next: nat, l: Layout,
                 p: Place, j: nat, own: seq<bool>, count: int)
    requires WellShaped(i, word, owned, free, alloc, chunks, next, l) && (p == OnFree || p == OnAlloc)
            && 0 < j <= |l.lists[p]|
    requires count <= |l.lists[p]| - j
    requires |own| == |owned| && (forall n | 0 <= n < |own| && owned[n] :: own[n])
            && (forall n | n in l.lists[p][..j] && n < |own| :: own[n])
    ensures l.lists[p][j - 1] < |word|
    ensures var ml, l' := MemList(LinkAt(i, l.lists[p], j), count), Cut(l, i, p, j, next);
            WellShaped(i, word[l.lists[p][j - 1] := Null], own, if p == OnFree then ml else free,
                if p == OnFree then alloc else ml,
                       chunks[next := Chunk(NODE_TYPE_FREE, l.heads[p])], next + 1, l')
  {
    hide Conserved;
    CutConserves(i, l, p, j, next);
  }

  lemma {:induction false} PushShape(i: nat, word: seq<Word>, owned: seq<bool>, free: MemList, alloc: MemList,
      chunks: map<nat, Chunk>, next: nat, l: Layout,
                  p: Place, n: nat)
    requires WellShaped(i, word, owned, free, alloc, chunks, next, l) && (p == OnFree || p == OnAlloc)
    requires n < |l.place| && l.place[n] == Out
    ensures var was := if p == OnFree then free else alloc;
            var ml, l' := MemList(NodePtr(i, n), was.nodes + 1), Pushed(l, i, p, n);
            WellShaped(i, word[n := was.list], owned[n := false], if p == OnFree then ml else free,
                if p == OnFree then alloc else ml, chunks, next, l')
  {
    hide Conserved;
    PushConserves(i, l, p, n);
  }

  lemma {:induction false} ChunkPopShape(i: nat, word: seq<Word>, owned: seq<bool>, free: MemList, alloc: MemList,
      chunks: map<nat, Chunk>, next: nat, l: Layout,
                      c: nat)
    requires WellShaped(i, word, owned, free, alloc, chunks, next, l) && c in chunks
    ensures InChunk(c) in l.lists && l.heads[InChunk(c)] == chunks[c].nodeList == LinkAt(i, l.lists[InChunk(c)], 0)
    ensures l.lists[InChunk(c)] != [] ==>
              var n, l' := l.lists[InChunk(c)][0], Popped(l, i, InChunk(c));
              && n < |word|
              && WellShaped(i, word[n := SlabPtr(i)], owned, free, alloc, chunks[c := Chunk(chunks[c].kind, word[n])],
                  next, l')
  {
    hide Conserved;
    HeadOfList(i, l, InChunk(c));
    if l.lists[InChunk(c)] != [] {
      PopConserves(i, l, InChunk(c));
    }
  }

  lemma {:induction false} JoinShape(i: nat, word: seq<Word>, owned: seq<bool>, free: MemList, alloc: MemList,
      chunks: map<nat, Chunk>, next: nat, l: Layout,
                  p: Place, c: nat)
    requires WellShaped(i, word, owned, free, alloc, chunks, next, l) && (p == OnFree || p == OnAlloc)
    requires c in chunks && l.lists[InChunk(c)] != []
    ensures var ms := l.lists[InChunk(c)];
            var was := if p == OnFree then free else alloc;
            var ml := MemList(chunks[c].nodeList, was.nodes + |ms|);
            && ms[|ms| - 1] < |word|
            && WellShaped(i, word[ms[|ms| - 1] := was.list], owned, if p == OnFree then ml else free,
                if p == OnFree then alloc else ml,
                          chunks - {c}, next, Joined(l, i, p, c))
  {
    hide Conserved;
    JoinConserves(i, l, p, c);
  }

  lemma {:induction false} DropShape(i: nat, word: seq<Word>, owned: seq<bool>, free: MemList, alloc: MemList,
      chunks: map<nat, Chunk>, next: nat, l: Layout,
                  c: nat)
    requires WellShaped(i, word, owned, free, alloc, chunks, next, l) && c in chunks && l.lists[InChunk(c)] == []
    ensures WellShaped(i, word, owned, free, alloc, chunks - {c}, next,
            l.(heads := l.heads - {InChunk(c)}, lists := l.lists - {InChunk(c)}))
  {
    hide Conserved;
    DropConserves(i, l, c);
  }

  /** One node of the teardown scan: the union word tells whether it is out,
      and an outstanding node goes in front of the list. */
  lemma {:induction false} TeardownStep(i: nat, l: Layout, w: seq<Word>, list: Word, k: nat)
    requires Conserved(i, l) && OnFree in l.lists && |w| == |l.place| && k < |w|
    requires Chain(i, w, list, Reversed(Outstanding(l.place, k)) + l.lists[OnFree])
    requires w[k] == l.word[k]
    ensures w[k] == SlabPtr(i) <==> l.place[k] == Out
    ensures l.place[k] != Out ==> Outstanding(l.place, k + 1) == Outstanding(l.place, k)
    ensures l.place[k] == Out ==>
              && FreedAll(Outstanding(l.place, k + 1)) == FreedAll(Outstanding(l.place, k)) + [Freed(k)]
              && Chain(i, w[k := list], NodePtr(i, k), Reversed(Outstanding(l.place, k + 1)) + l.lists[OnFree])
  {
    TagTells(i, l, k);
    if l.place[k] == Out {
      NotListed(i, l, OnFree, k);
      TeardownPush(i, l.place, l.lists[OnFree], w, list, k);
    }
    hide Conserved, Reversed, Chain;
  }

  lemma {:induction false} OutstandingGrows(place: seq<Place>, k: nat)
    requires k < |place| && place[k] == Out
    ensures Outstanding(place, k + 1) == Outstanding(place, k) + [k] && k !in Outstanding(place, k)
    ensures Reversed(Outstanding(place, k + 1)) == [k] + Reversed(Outstanding(place, k))
    ensures k !in Reversed(Outstanding(place, k))
  {
    var outs := Outstanding(place, k);
    if k in outs { OutstandingBelow(place, k, k); }
    ReversedHas(outs, k);
    ReversedAppend(outs, k);
    hide Reversed;
  }

  lemma {:induction false} TeardownPush(i: nat, place: seq<Place>, free: seq<nat>, w: seq<Word>, list: Word, k: nat)
    requires k < |w| == |place| && place[k] == Out && k !in free
    requires Chain(i, w, list, Reversed(Outstanding(place, k)) + free)
    ensures FreedAll(Outstanding(place, k + 1)) == FreedAll(Outstanding(place, k)) + [Freed(k)]
    ensures Chain(i, w[k := list], NodePtr(i, k), Reversed(Outstanding(place, k + 1)) + free)
  {
    var outs := Outstanding(place, k);
    OutstandingGrows(place, k);
    FreedAllAppend(outs, k);
    hide Outstanding, Reversed, Chain;
    assert [k] + Reversed(outs) + free == [k] + (Reversed(outs) + free);
    PushChain(i, w, list, Reversed(outs) + free, k);
  }

  lemma {:induction false} TagTells(i: nat, l: Layout, k: nat)
    requires Conserved(i, l) && k < |l.place|
    ensures k < |l.word| && (l.word[k] == SlabPtr(i) <==> l.place[k] == Out)
  {
    NodeOccursOnce(i, l, k);
    OutIsTagged(i, l, k);
  }

  lemma {:induction false} PushChain(i: nat, w: seq<Word>, list: Word, ns: seq<nat>, k: nat)
    requires Chain(i, w, list, ns) && k < |w| && k !in ns
    ensures Chain(i, w[k := list], NodePtr(i, k), [k] + ns)
  {
    ChainFrame(i, w, list, ns, k, list);
    assert ([k] + ns)[1..] == ns;
  }

  lemma {:induction false} CutOffNodes(l: Layout, i: nat, p: Place, j: nat, c: nat)
    requires p in l.lists && p in l.heads && 0 < j <= |l.lists[p]| && l.lists[p][j - 1] < |l.word| && p != InChunk(c)
    ensures InChunk(c) in Cut(l, i, p, j, c).lists && Cut(l, i, p, j, c).lists[InChunk(c)] == l.lists[p][..j]
  {
  }

  /** A node that is off the list of unprepared nodes. */
  lemma {:induction false} TrackedOf(i: nat, cb: Callbacks, s: State, n: nat)
    requires Ok(i, cb, s) && n < |s.l.place| && s.l.place[n] != OnAlloc
    ensures cb.prepare ==> (n in ReadyAfter(s.history) <==> n !in ChunkedAfter(s.history))
  {
    assert cb.prepare ==> Tracked(s.l.place[n], n, s.history);
  }

  class MemSlab {
    const id: nat
    const cb: Callbacks
    /** The memory of the nodes: the union word and whether the pool pointer is set. */
    var word: seq<Word>
    var owned: seq<bool>
    var freeList: MemList
    var allocList: MemList
    var chunks: map<nat, Chunk>
    var nextChunk: nat
    var log: seq<Event>

    /** Where every node is; `Valid` ties it to the fields above. */
    ghost var l: Layout
    /** The callbacks, and when nodes went on or off the list of unprepared
        nodes without one. */
    ghost var history: seq<Step>

    ghost predicate Shape()
      reads this`word, this`owned, this`freeList, this`allocList, this`chunks, this`nextChunk, this`l
    {
      WellShaped(id, word, owned, freeList, allocList, chunks, nextChunk, l)
    }

    ghost function View(): State
      reads this
    {
      State(l, freeList.nodes, allocList.nodes, Kinds(chunks), nextChunk, history)
    }

    ghost predicate Valid()
      reads this
    {
      Shape() && Ok(id, cb, View()) && log == LogOf(history)
    }

    /** _NewSlab: the nodes are linked in address order onto one list. */
    constructor (id: nat, nodes: nat, cb: Callbacks)
      requires nodes > 0
      ensures Valid()
      ensures this.id == id && this.cb == cb && |word| == nodes && log == [] && chunks == map[]
      ensures View() == Carved(id, nodes, cb)
      ensures l == if cb.prepare then Fresh(id, nodes, OnAlloc, OnFree) else Fresh(id, nodes, OnFree, OnAlloc)
      ensures freeList.nodes == (if cb.prepare then 0 else nodes)
              && allocList.nodes == (if cb.prepare then nodes else 0)
      ensures forall k | 0 <= k < nodes :: word[k] == if k + 1 < nodes then NodePtr(id, k + 1) else Null
      ensures (if cb.prepare then allocList else freeList).list == NodePtr(id, 0)
    {
      this.id, this.cb := id, cb;
      freeList := if cb.prepare then MemList(Null, 0) else MemList(NodePtr(id, 0), nodes);
      allocList := if cb.prepare then MemList(NodePtr(id, 0), nodes) else MemList(Null, 0);
      chunks, nextChunk, log := map[], 0, [];
      var w := [];
      for k := 0 to nodes
        invariant |w| == k && forall j | 0 <= j < k :: w[j] == NodePtr(id, j + 1)
      {
        w := w + [NodePtr(id, k + 1)];
      }
      w := w[nodes - 1 := Null];
      word, owned := w, seq(nodes, _ => false);
      ghost var p, other := if cb.prepare then OnAlloc else OnFree, if cb.prepare then OnFree else OnAlloc;
      l, history := Fresh(id, nodes, p, other), [];
      new;
      FreshConserves(id, nodes, p, other);
      assert word == l.word;
      assert View() == Carved(id, nodes, cb);
      hide Conserved, Ok, Carved;
    }

    function ListAt(p: Place): MemList
      reads this
    {
      if p == OnFree then freeList else allocList
    }

    /** nodes-- and list = node->next for the node at the head of a list, which
        then carries its slab's address: _GetNode for one node. */
    method GetNode(p: Place) returns (got: bool, n: nat)
      requires Shape() && (p == OnFree || p == OnAlloc)
      modifies this`word, this`owned, this`freeList, this`allocList, this`l
      ensures Shape()
      ensures got <==> old(ListAt(p).nodes) != 0 && old(l).lists[p] != []
      ensures got ==>
              n == old(l).lists[p][0] < |old(l).word| && l == Popped(old(l), id, p)
              && ListAt(p).nodes == old(ListAt(p).nodes) - 1 && n < |l.place| && l.place[n] == Out
      ensures if p == OnFree then allocList == old(allocList) else freeList == old(freeList)
      ensures !got ==> l == old(l) && ListAt(p) == old(ListAt(p))
    {
      hide Conserved;
      var nodeList := ListAt(p);
      HeadOfList(id, l, p);
      if nodeList.nodes == 0 || nodeList.list.Null? {
        return false, 0;
      }
      got, n := true, nodeList.list.idx;
      PopConserves(id, l, p);
      owned := owned[n := true];
      nodeList := MemList(word[n], nodeList.nodes - 1);
      if p == OnFree {
        freeList := nodeList;
      } else {
        allocList := nodeList;
      }
      word := word[n := SlabPtr(id)];
      l := Popped(l, id, p);
    }

    ghost predicate Available(p: Place)
      reads this
      requires p in l.lists
    {
      ListAt(p).nodes != 0 && l.lists[p] != []
    }

    lemma {:induction false} Facts()
      requires Valid()
      ensures |l.word| == |l.place| > 0 && OnFree in l.lists && OnAlloc in l.lists
      ensures OnFree in l.heads && OnAlloc in l.heads
      ensures Offers(View(), OnFree) == Available(OnFree) && Offers(View(), OnAlloc) == Available(OnAlloc)
      ensures Kinds(chunks).Keys == chunks.Keys
    {
      hide Conserved, Tracks, LogOf;
    }

    lemma {:induction false} ChunkFacts(c: nat)
      requires Valid() && c in chunks
      ensures InChunk(c) in l.lists && InChunk(c) in l.heads && chunks[c].kind == NODE_TYPE_FREE == Kinds(chunks)[c]
    {
      hide Conserved, Tracks, LogOf;
    }

    /** _PoolAlloc on this slab: a prepared node if there is one, else an
        unprepared one, which is prepared on the way out. */
    method Get() returns (got: bool, n: nat)
      requires Valid()
      modifies this
      ensures Valid() && View() == AfterGet(id, cb, old(View()))
      ensures got <==> old(Available(OnFree)) || (cb.prepare && old(Available(OnAlloc)))
      ensures got ==> n == old(l).lists[if old(Available(OnFree)) then OnFree else OnAlloc][0]
      ensures log == old(log) + if got && !old(Available(OnFree)) then [Prepared(n)] else []
      ensures got && cb.prepare ==> (n in ReadyAfter(history) <==> n !in ChunkedAfter(history))
    {
      hide Conserved, Ok, Kept, Listed, Labelled, Tracks, LogOf, ReadyAfter, ChunkedAfter, Shape, WellShaped, Kinds;
      hide Popped, AfterGet;
      ghost var s := View();
      Facts();
      got, n := GetNode(OnFree);
      if got {
        GetFreeIs(id, cb, s, View());
      } else if cb.prepare {
        got, n := GetNode(OnAlloc);
        if got {
          log := log + [Prepared(n)];
          history := history + [Ran(Prepared(n))];
          GetAllocIs(id, cb, s, View());
        }
      }
      if got {
        TrackedOf(id, cb, View(), n);
      } else {
        GetNoneIs(id, cb, s);
      }
    }

    /** The walk of _GetNode in chunk mode: it marks and counts off `nodes`
        nodes, or all there are, and stops on the last of them. */
    method WalkChunk(p: Place, nodes: nat) returns (cur: Word, prev: nat, count: int, own: seq<bool>, ghost j: nat)
      requires Shape() && (p == OnFree || p == OnAlloc) && nodes >= 2 && l.lists[p] != []
      ensures j == Capped(nodes - 1, |l.lists[p]|)
      ensures cur == LinkAt(id, l.lists[p], j) && prev == l.lists[p][j - 1]
      ensures count == ListAt(p).nodes - Capped(nodes, |l.lists[p]|)
      ensures |own| == |owned| && (forall n | 0 <= n < |own| && owned[n] :: own[n])
      ensures forall n | n in l.lists[p][..j] && n < |own| :: own[n]
    {
      hide Conserved;
      HeadOfList(id, l, p);
      var left := nodes;
      cur, prev, count, own, j := ListAt(p).list, 0, ListAt(p).nodes, owned, 0;
      ghost var ns := l.lists[p];
      while cur.NodePtr?
        invariant 0 <= j <= |ns| && j < nodes && left == nodes - j
        invariant |own| == |word|
        invariant cur == LinkAt(id, ns, j)
        invariant j > 0 ==> prev == ns[j - 1]
        invariant count == ListAt(p).nodes - j
        invariant forall n | 0 <= n < |own| && owned[n] :: own[n]
        invariant forall k | 0 <= k < j :: ns[k] < |own| && own[ns[k]]
        decreases nodes - j
      {
        ChainOfList(id, l, p, j);
        own := own[cur.idx := true];
        count := count - 1;
        left := left - 1;
        if left == 0 {
          break;
        }
        prev := cur.idx;
        cur := word[cur.idx];
        j := j + 1;
      }
    }

    /** Chunk mode of _GetNode: the node the walk stopped on stays on the list
        although it was counted off. */
    method TakeChunk(p: Place, nodes: nat) returns (got: bool, c: nat)
      requires Valid() && (p == OnFree || p == OnAlloc) && nodes >= 2
      modifies this`word, this`owned, this`freeList, this`allocList, this`chunks, this`nextChunk, this`l, this`history
      ensures Valid()
      ensures got <==> old(Available(p))
      ensures View() == if got then AfterCut(id, old(View()), p, nodes) else old(View())
      ensures got ==> c == old(nextChunk) && c in chunks
      ensures got ==> ChunkNodes(c) == old(l).lists[p][..Capped(nodes - 1, |old(l).lists[p]|)]
    {
      hide Conserved, Ok, Kept, Listed, Labelled, Tracks, LogOf, ReadyAfter, ChunkedAfter, Shape, WellShaped, Kinds;
      hide Cut, AfterCut;
      ghost var s := View();
      Facts();
      ghost var j := Capped(nodes - 1, |l.lists[p]|);
      got, c := CutChunk(p, nodes);
      if got {
        history := history + (if p == OnFree then [] else [CutOff(s.l.lists[p][..j])]);
        KindsChange(old(chunks), c, chunks[c]);
        CutIs(id, cb, s, View(), p, nodes, j);
        CutOffNodes(s.l, id, p, j, c);
      }
    }

    method CutChunk(p: Place, nodes: nat) returns (got: bool, c: nat)
      requires Shape() && (p == OnFree || p == OnAlloc) && nodes >= 2
      modifies this`word, this`owned, this`freeList, this`allocList, this`chunks, this`nextChunk, this`l
      ensures Shape()
      ensures got <==> old(Available(p))
      ensures got ==>
                var len := |old(l).lists[p]|;
                var j := Capped(nodes - 1, len);
                && c == old(nextChunk) && chunks == old(chunks)[c := Chunk(NODE_TYPE_FREE, old(l).heads[p])]
                && nextChunk == c + 1
                && old(l).lists[p][j - 1] < |old(l).word| && l == Cut(old(l), id, p, j, c)
                && ListAt(p).nodes == old(ListAt(p)).nodes - Capped(nodes, len)
      ensures if p == OnFree then allocList == old(allocList) else freeList == old(freeList)
      ensures !got ==>
              l == old(l) && ListAt(p) == old(ListAt(p)) && chunks == old(chunks) && nextChunk == old(nextChunk)
    {
      hide Conserved;
      var nodeList := ListAt(p);
      HeadOfList(id, l, p);
      if nodeList.nodes == 0 || nodeList.list.Null? {
        return false, 0;
      }
      got, c := true, nextChunk;
      ghost var j: nat;
      var cur, prev, count, own;
      cur, prev, count, own, j := WalkChunk(p, nodes);
      assert count <= |l.lists[p]| - j;
      CutShape(id, word, owned, freeList, allocList, chunks, nextChunk, l, p, j, own, count);
      hide WellShaped, Cut;
      owned := own;
      word := word[prev := Null];
      if p == OnFree {
        freeList := MemList(cur, count);
      } else {
        allocList := MemList(cur, count);
      }
      chunks, nextChunk := chunks[c := Chunk(NODE_TYPE_FREE, nodeList.list)], nextChunk + 1;
      l := Cut(l, id, p, j, c);
    }

    /** MMPoolGetChunk on this slab: from the prepared nodes if there are any,
        else from the unprepared ones, which stay unprepared. */
    method GetChunk(nodes: nat) returns (got: bool, c: nat)
      requires Valid() && nodes >= 2
      modifies this
      ensures Valid() && log == old(log) && View() == AfterGetChunk(id, cb, old(View()), nodes)
      ensures got <==> old(Available(OnFree)) || (cb.prepare && old(Available(OnAlloc)))
      ensures got ==> c == old(nextChunk) && c in chunks
      ensures got ==>
              var nodesOfList := old(l).lists[if old(Available(OnFree)) then OnFree else OnAlloc];
              ChunkNodes(c) == nodesOfList[..Capped(nodes - 1, |nodesOfList|)]
    {
      hide Conserved, Ok, Kept, Listed, Labelled, Tracks, LogOf, ReadyAfter, ChunkedAfter, Shape, WellShaped, Kinds;
      hide AfterCut, Cut;
      Facts();
      got, c := TakeChunk(OnFree, nodes);
      if !got && cb.prepare {
        got, c := TakeChunk(OnAlloc, nodes);
      }
    }

    /** A node that was out goes in front of a list. */
    method PutNode(p: Place, n: nat)
      requires Shape() && (p == OnFree || p == OnAlloc) && n < |l.place| && l.place[n] == Out
      modifies this`word, this`owned, this`freeList, this`allocList, this`l
      ensures Shape() && n < |old(l).word| && l == Pushed(old(l), id, p, n)
      ensures freeList.nodes == old(freeList.nodes) + (if p == OnFree then 1 else 0)
      ensures allocList.nodes == old(allocList.nodes) + (if p == OnAlloc then 1 else 0)
      ensures if p == OnFree then allocList == old(allocList) else freeList == old(freeList)
    {
      hide Conserved;
      PushShape(id, word, owned, freeList, allocList, chunks, nextChunk, l, p, n);
      var nodeList := MemList(NodePtr(id, n), ListAt(p).nodes + 1);
      owned := owned[n := false];
      word := word[n := ListAt(p).list];
      if p == OnFree {
        freeList := nodeList;
      } else {
        allocList := nodeList;
      }
      l := Pushed(l, id, p, n);
    }

    /** _PoolFree: freeCB, then the node goes in front of the free list. */
    method PoolFree(n: nat)
      requires Valid() && n < |l.place| && l.place[n] == Out
      modifies this
      ensures Valid() && View() == AfterFree(id, cb, old(View()), n)
      ensures log == old(log) + Maybe(cb.free, Freed(n))
    {
      hide Conserved, Ok, Kept, Listed, Labelled, Tracks, LogOf, ReadyAfter, ChunkedAfter, Shape, WellShaped, Kinds;
      hide Pushed, AfterFree;
      ghost var s := View();
      Facts();
      log := log + Maybe(cb.free, Freed(n));
      history := history + Maybe(cb.free, Ran(Freed(n)));
      PutNode(OnFree, n);
      FreeIs(id, cb, s, View(), n);
    }

    /** _PoolDiscard: the node goes in front of the list of unprepared nodes. */
    method PoolDiscard(n: nat)
      requires Valid() && n < |l.place| && l.place[n] == Out
      modifies this
      ensures Valid() && View() == AfterDiscard(id, old(View()), n)
      ensures history == old(history) + [Unprepared(n)] && log == old(log)
    {
      hide Conserved, Ok, Kept, Listed, Labelled, Tracks, LogOf, ReadyAfter, ChunkedAfter, Shape, WellShaped, Kinds;
      hide Pushed, AfterDiscard;
      ghost var s := View();
      Facts();
      PutNode(OnAlloc, n);
      history := history + [Unprepared(n)];
      DiscardIs(id, cb, s, View(), n);
    }

    /** MMChunkGet: the next node of an unfinished chunk. */
    method NextOfChunk(c: nat) returns (got: bool, n: nat)
      requires Valid() && c in chunks
      modifies this
      ensures Valid() && View() == AfterChunkGet(id, cb, old(View()), c) && log == old(log)
      ensures got <==> old(ChunkNodes(c)) != []
      ensures got ==> n == old(ChunkNodes(c))[0]
      ensures got && cb.prepare ==> (n in ReadyAfter(history) <==> n !in ChunkedAfter(history))
    {
      hide Conserved, Ok, Kept, Listed, Labelled, Tracks, LogOf, ReadyAfter, ChunkedAfter, Shape, WellShaped, Kinds;
      hide Popped, AfterChunkGet;
      ghost var s := View();
      Facts();
      ChunkFacts(c);
      got, n := PopChunk(c);
      ChunkGetIs(id, cb, s, View(), c);
      if got {
        TrackedOf(id, cb, View(), n);
        var prepares := chunks[c].kind == NODE_TYPE_ALLOC && cb.prepare;
        log := if prepares then log + [Prepared(n)] else log;
        history := if prepares then history + [Ran(Prepared(n))] else history;
      }
    }

    method PopChunk(c: nat) returns (got: bool, n: nat)
      requires Shape() && c in chunks
      modifies this`word, this`chunks, this`l
      ensures Shape() && Kinds(chunks) == old(Kinds(chunks)) && chunks.Keys == old(chunks.Keys)
      ensures chunks[c].kind == old(chunks[c]).kind
      ensures got <==> old(l).lists[InChunk(c)] != []
      ensures got ==>
              n == old(l).lists[InChunk(c)][0] < |old(l).word| && l == Popped(old(l), id, InChunk(c))
              && n < |l.place| && l.place[n] == Out
      ensures !got ==> l == old(l) && chunks == old(chunks)
    {
      hide Conserved;
      ChunkPopShape(id, word, owned, freeList, allocList, chunks, nextChunk, l, c);
      if chunks[c].nodeList.Null? {
        return false, 0;
      }
      got, n := true, chunks[c].nodeList.idx;
      HeadOfList(id, l, InChunk(c));
      KindsChange(chunks, c, Chunk(chunks[c].kind, word[n]));
      chunks := chunks[c := Chunk(chunks[c].kind, word[n])];
      word := word[n := SlabPtr(id)];
      l := Popped(l, id, InChunk(c));
    }

    ghost function ChunkNodes(c: nat): seq<nat>
      reads this
    {
      if InChunk(c) in l.lists then l.lists[InChunk(c)] else []
    }

    /** FreeChunkCB: the unfinished nodes of the chunk go back in front of the
        list the chunk is labelled with. */
    method FreeChunk(c: nat)
      requires Valid() && c in chunks
      modifies this
      ensures Valid() && View() == AfterFreeChunk(id, old(View()), c) && log == old(log)
      ensures c !in chunks && GivenBack(id, old(l), OnFree, c, l)
    {
      hide Conserved, Ok, Kept, Listed, Labelled, Tracks, LogOf, ReadyAfter, ChunkedAfter, Shape, WellShaped, Kinds;
      hide GivenBack, AfterFreeChunk;
      ghost var s := View();
      Facts();
      ChunkFacts(c);
      KindsChange(chunks, c, chunks[c]);
      GiveBack(c);
      FreeChunkIs(id, cb, s, View(), c);
    }

    method GiveBack(c: nat)
      requires Shape() && c in chunks
      modifies this`word, this`freeList, this`allocList, this`chunks, this`l
      ensures Shape() && chunks == old(chunks) - {c} && GivenBack(id, old(l), OnFree, c, l)
      ensures freeList.nodes == old(freeList.nodes) + |old(ChunkNodes(c))| && allocList == old(allocList)
    {
      hide Conserved;
      ChunkPopShape(id, word, owned, freeList, allocList, chunks, nextChunk, l, c);
      if chunks[c].nodeList.NodePtr? {
        SpliceBack(c);
      } else {
        DropShape(id, word, owned, freeList, allocList, chunks, nextChunk, l, c);
        hide WellShaped;
        l := l.(heads := l.heads - {InChunk(c)}, lists := l.lists - {InChunk(c)});
        chunks := chunks - {c};
      }
    }

    method SpliceBack(c: nat)
      requires Shape() && c in chunks && chunks[c].nodeList.NodePtr?
      modifies this`word, this`freeList, this`allocList, this`chunks, this`l
      ensures Shape() && chunks == old(chunks) - {c} && GivenBack(id, old(l), OnFree, c, l)
      ensures freeList.nodes == old(freeList.nodes) + |old(ChunkNodes(c))| && allocList == old(allocList)
    {
      hide Conserved;
      var last, nodes := ChunkEnd(c);
      var p := if chunks[c].kind == NODE_TYPE_FREE then OnFree else OnAlloc;
      assert p == OnFree;
      JoinShape(id, word, owned, freeList, allocList, chunks, nextChunk, l, p, c);
      hide WellShaped, Joined;
      word := word[last := ListAt(p).list];
      var joined := MemList(chunks[c].nodeList, ListAt(p).nodes + nodes);
      freeList, allocList := if p == OnFree then joined else freeList, if p == OnFree then allocList else joined;
      l := Joined(l, id, p, c);
      chunks := chunks - {c};
    }

    /** The walk to the end of a chunk's nodes, counting them. */
    method ChunkEnd(c: nat) returns (last: nat, nodes: nat)
      requires Shape() && c in chunks && chunks[c].nodeList.NodePtr?
      ensures InChunk(c) in l.lists && l.lists[InChunk(c)] != []
      ensures nodes == |l.lists[InChunk(c)]| && last == l.lists[InChunk(c)][nodes - 1]
    {
      hide Conserved;
      HeadOfList(id, l, InChunk(c));
      ghost var ms := l.lists[InChunk(c)];
      last, nodes := chunks[c].nodeList.idx, 1;
      ChainOfList(id, l, InChunk(c), 0);
      while word[last].NodePtr?
        invariant 1 <= nodes <= |ms| && last == ms[nodes - 1] && last < |word| && word[last] == LinkAt(id, ms, nodes)
        decreases |ms| - nodes
      {
        last := word[last].idx;
        nodes := nodes + 1;
        ChainOfList(id, l, InChunk(c), nodes - 1);
      }
    }

    /** _FreeSlab, with every chunk given back before: outstanding nodes are
        told apart by the union word, freed, and pushed on the free list, which
        is then destroyed node by node. The memory goes back to the system. */
    method FreeSlab()
      requires Valid() && chunks == map[]
      modifies this
      ensures log == old(log) + TeardownEvents(cb, old(l).place, old(l).lists[OnFree])
      ensures TornDown(cb, old(l).place, old(l).lists[OnFree], log[|old(log)|..])
    {
      hide Conserved, TornDown, Outstanding, Reversed, FreedAll, DestroyedAll;
      ghost var free, was := l.lists[OnFree], log;
      assert Chain(id, word, freeList.list, free) by { ListChain(id, l, OnFree); }
      var w, list, events := word, freeList.list, log;
      NothingOutstanding(l.place, free);
      hide WellShaped, Chain;
      for k := 0 to |word|
        invariant |w| == |word|
        invariant Chain(id, w, list, Reversed(Outstanding(l.place, k)) + free)
        invariant forall m | k <= m < |w| :: w[m] == word[m]
        invariant events == was + (if cb.free then FreedAll(Outstanding(l.place, k)) else [])
        modifies {}
      {
        TeardownStep(id, l, w, list, k);
        if w[k] == SlabPtr(id) {
          if cb.free {
            events := events + [Freed(k)];
          }
          w := w[k := list];
          list := NodePtr(id, k);
        }
      }
      word, freeList, log := w, MemList(list, freeList.nodes), events;
      if cb.destroy {
        DestroyList(Reversed(Outstanding(l.place, |l.place|)) + free);
      }
      TeardownIsTornDown(id, cb, l);
      assert log[|was|..] == TeardownEvents(cb, l.place, free);
    }

    /** destroyCB for every node of the free list, in list order. */
    method DestroyList(ghost ns: seq<nat>)
      requires Chain(id, word, freeList.list, ns)
      modifies this`log
      ensures log == old(log) + DestroyedAll(ns)
    {
      var node := freeList.list;
      ghost var j := 0;
      if ns != [] { ChainAt(id, word, node, ns, 0); }
      while node.NodePtr?
        invariant 0 <= j <= |ns| && node == LinkAt(id, ns, j)
        invariant log == old(log) + DestroyedAll(ns[..j])
        decreases |ns| - j
      {
        ChainAt(id, word, freeList.list, ns, j);
        var next := word[node.idx];
        log := log + [Destroyed(node.idx)];
        DestroyedAllAppend(ns[..j], ns[j]);
        assert ns[..j] + [ns[j]] == ns[..j + 1];
        node := next;
        j := j + 1;
      }
      assert ns[..j] == ns;
    }

    /** Any sequence of requests, with those a disciplined client does not make
        skipped. */
    method Serve(requests: seq<Request>)
      requires Valid()
      modifies this
      ensures Valid() && View() == ExecAll(id, cb, old(View()), requests)
    {
      hide Conserved, Ok, Kept, Listed, Labelled, Tracks, LogOf, ReadyAfter, ChunkedAfter, Shape, WellShaped, Kinds;
      hide Exec;
      for r := 0 to |requests|
        invariant Valid() && View() == ExecAll(id, cb, old(View()), requests[..r])
      {
        assert requests[..r + 1][..r] == requests[..r];
        ServeOne(requests[r]);
      }
      assert requests[..|requests|] == requests;
    }

    method ServeOne(request: Request)
      requires Valid()
      modifies this
      ensures Valid() && View() == Exec(id, cb, old(View()), request)
    {
      hide Conserved, Ok, Kept, Listed, Labelled, Tracks, LogOf, ReadyAfter, ChunkedAfter, Shape, WellShaped, Kinds;
      hide AfterGet, AfterFree, AfterDiscard, AfterGetChunk, AfterChunkGet, AfterFreeChunk;
      Facts();
      match request
      case Get => var _, _ := Get();
      case Free(n) => if IsOut(n) { PoolFree(n); }
      case Discard(n) => if IsOut(n) { PoolDiscard(n); }
      case GetChunk(nodes) => if nodes >= 2 { var _, _ := GetChunk(nodes); }
      case ChunkGet(c) => if c in chunks { var _, _ := NextOfChunk(c); }
      case FreeChunk(c) => if c in chunks { FreeChunk(c); }
    }

    /** A node is out exactly if it carries the slab's address. */
    predicate IsOut(n: nat)
      reads this
      requires Valid()
      ensures IsOut(n) <==> n < |l.place| && l.place[n] == Out
    {
      if n < |word| then
        NodeOccursOnce(id, l, n);
        OutIsTagged(id, l, n);
        word[n] == SlabPtr(id)
      else false
    }
  }
}
