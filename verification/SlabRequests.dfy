/** What requests do to one slab: the layout of its nodes, the counters of its
    two lists, its chunks, and the history of callbacks. Every sequence of
    requests conserves the nodes, and the history tells which nodes have been
    prepared. Modelled on src/memmgr/slab.c. */
module SlabRequests {
  import opened NodeLists
  import opened SlabLayout

  datatype NodeType = NODE_TYPE_FREE | NODE_TYPE_ALLOC

  /** The client callbacks. */
  datatype Event = Prepared(n: nat) | Freed(n: nat) | Destroyed(n: nat)

  datatype Callbacks = Callbacks(prepare: bool, free: bool, destroy: bool)

  datatype Request = Get | Free(n: nat) | Discard(n: nat) | GetChunk(nodes: nat) | ChunkGet(c: nat) | FreeChunk(c: nat)

  /** What the history records: a callback ran, a node went on the list of
      unprepared nodes, or a chunk was cut off that list. */
  datatype Step = Ran(e: Event) | Unprepared(n: nat) | CutOff(ns: seq<nat>)

  /** One slab; a chunk is known by the list its nodes are to go back to. */
  datatype State = State(l: Layout, free: int, alloc: int, kinds: map<nat, NodeType>, next: nat, history: seq<Step>)

  // ----- the history

  /** The callbacks that ran, in order. */
  function LogOf(history: seq<Step>): seq<Event> {
    if history == [] then []
    else
      var before, last := LogOf(history[..|history| - 1]), history[|history| - 1];
      if last.Ran? then before + [last.e] else before
  }

  /** The nodes prepared since they last went on the list of unprepared nodes. */
  function ReadyAfter(history: seq<Step>): set<nat> {
    if history == [] then {}
    else
      var before, last := ReadyAfter(history[..|history| - 1]), history[|history| - 1];
      match last
      case Ran(Prepared(n)) => before + {n}
      case Unprepared(n) => before - {n}
      case _ => before
  }

  /** The nodes that left the list of unprepared nodes in a chunk, the last time
      that they left it. */
  function ChunkedAfter(history: seq<Step>): set<nat> {
    if history == [] then {}
    else
      var before, last := ChunkedAfter(history[..|history| - 1]), history[|history| - 1];
      match last
      case CutOff(ns) => before + set n | n in ns
      case Unprepared(n) => before - {n}
      case _ => before
  }

  lemma {:induction false} HistoryGrows(history: seq<Step>, last: Step)
    ensures LogOf(history + [last]) == if last.Ran? then LogOf(history) + [last.e] else LogOf(history)
    ensures ReadyAfter(history + [last]) ==
            (match last
             case Ran(Prepared(n)) => ReadyAfter(history) + {n}
             case Unprepared(n) => ReadyAfter(history) - {n}
             case _ => ReadyAfter(history))
    ensures ChunkedAfter(history + [last]) ==
            (match last
             case CutOff(ns) => ChunkedAfter(history) + set n | n in ns
             case Unprepared(n) => ChunkedAfter(history) - {n}
             case _ => ChunkedAfter(history))
  {
    assert (history + [last])[..|history|] == history;
  }

  function Maybe<T>(b: bool, x: T): seq<T> {
    if b then [x] else []
  }

  /** A callback that the pool may not have. */
  lemma {:induction false} CallbackGrows(history: seq<Step>, has: bool, e: Event)
    ensures LogOf(history + Maybe(has, Ran(e))) == LogOf(history) + Maybe(has, e)
    ensures !has ==> history + Maybe(has, Ran(e)) == history
  {
    HistoryGrows(history, Ran(e));
    assert history + [] == history;
    hide LogOf;
  }

  /** At step k node n was prepared, and it has not gone back since. */
  predicate PreparedAt(history: seq<Step>, n: nat, k: nat) {
    k < |history| && history[k] == Ran(Prepared(n)) && forall j | k < j < |history| :: history[j] != Unprepared(n)
  }

  /** A node is ready exactly when its prepareCB has run after the last time it
      went on the list of unprepared nodes. */
  lemma {:induction false} ReadyExactly(history: seq<Step>, n: nat)
    ensures n in ReadyAfter(history) <==> exists k: nat :: PreparedAt(history, n, k)
  {
    if history != [] {
      var m := |history| - 1;
      var before := history[..m];
      ReadyExactly(before, n);
      if k: nat :| PreparedAt(before, n, k) && history[m] != Unprepared(n) {
        assert PreparedAt(history, n, k);
      }
      if history[m] == Ran(Prepared(n)) {
        assert PreparedAt(history, n, m);
      }
      if k: nat :| PreparedAt(history, n, k) {
        assert k < m ==> PreparedAt(before, n, k);
      }
    }
  }

  /** At step k node n was cut off in a chunk, and it has not gone back since. */
  predicate ChunkedAt(history: seq<Step>, n: nat, k: nat) {
    && k < |history| && history[k].CutOff? && n in history[k].ns
    && forall j | k < j < |history| :: history[j] != Unprepared(n)
  }

  lemma {:induction false} ChunkedExactly(history: seq<Step>, n: nat)
    ensures n in ChunkedAfter(history) <==> exists k: nat :: ChunkedAt(history, n, k)
  {
    if history != [] {
      var m := |history| - 1;
      var before, last := history[..m], history[m];
      ChunkedExactly(before, n);
      if k: nat :| ChunkedAt(before, n, k) && last != Unprepared(n) {
        assert ChunkedAt(history, n, k);
      }
      if last.CutOff? && n in last.ns {
        assert ChunkedAt(history, n, m);
      }
      if k: nat :| ChunkedAt(history, n, k) {
        assert k < m ==> ChunkedAt(before, n, k);
      }
    }
  }

  // ----- what holds between requests

  /** Every node in one place, counters that never exceed their lists, and
      chunks with a list each. */
  ghost predicate Kept(i: nat, s: State) {
    && Conserved(i, s.l)
    && |s.l.word| == |s.l.place| > 0
    && Listed(s.l, s.kinds.Keys, s.next)
    && s.free <= |s.l.lists[OnFree]|
    && s.alloc <= |s.l.lists[OnAlloc]|
  }

  predicate Listed(l: Layout, chunks: set<nat>, next: nat) {
    && l.heads.Keys == l.lists.Keys && OnFree in l.lists && OnAlloc in l.lists
    && (forall p | p in l.lists :: p == OnFree || p == OnAlloc || (p.InChunk? && p.c in chunks))
    && (forall c | c in chunks :: InChunk(c) in l.lists && c < next)
  }

  /** No chunk is to go back to the list of unprepared nodes. */
  predicate Labelled(kinds: map<nat, NodeType>) {
    forall c | c in kinds :: kinds[c] == NODE_TYPE_FREE
  }

  /** In a pool that prepares nodes, a node off the list of unprepared ones has
      been prepared since it left that list unless it left it in a chunk. */
  predicate Tracked(place: Place, n: nat, history: seq<Step>) {
    var ready, chunked := n in ReadyAfter(history), n in ChunkedAfter(history);
    if place == OnAlloc then !ready && !chunked else ready == !chunked
  }

  predicate Tracks(cb: Callbacks, place: seq<Place>, history: seq<Step>) {
    cb.prepare ==> forall n | 0 <= n < |place| :: Tracked(place[n], n, history)
  }

  ghost predicate Ok(i: nat, cb: Callbacks, s: State) {
    Kept(i, s) && Labelled(s.kinds) && Tracks(cb, s.l.place, s.history)
  }

  // ----- the requests

  function Counter(s: State, p: Place): int {
    if p == OnFree then s.free else s.alloc
  }

  predicate Offers(s: State, p: Place)
    requires p in s.l.lists
  {
    Counter(s, p) != 0 && s.l.lists[p] != []
  }

  function Capped(nodes: nat, len: nat): nat {
    if nodes < len then nodes else len
  }

  ghost function AfterGet(i: nat, cb: Callbacks, s: State): State
    requires Kept(i, s)
  {
    HeadOfList(i, s.l, OnFree);
    HeadOfList(i, s.l, OnAlloc);
    if Offers(s, OnFree) then s.(l := Popped(s.l, i, OnFree), free := s.free - 1)
    else if cb.prepare && Offers(s, OnAlloc) then
      s.(l := Popped(s.l, i, OnAlloc), alloc := s.alloc - 1,
         history := s.history + [Ran(Prepared(s.l.lists[OnAlloc][0]))])
    else s
  }

  ghost function AfterFree(i: nat, cb: Callbacks, s: State, n: nat): State
    requires Kept(i, s) && n < |s.l.place|
  {
    s.(l := Pushed(s.l, i, OnFree, n), free := s.free + 1,
       history := s.history + Maybe(cb.free, Ran(Freed(n))))
  }

  ghost function AfterDiscard(i: nat, s: State, n: nat): State
    requires Kept(i, s) && n < |s.l.place|
  {
    s.(l := Pushed(s.l, i, OnAlloc, n), alloc := s.alloc + 1, history := s.history + [Unprepared(n)])
  }

  /** Chunk mode counts off one node more than it takes. */
  ghost function AfterCut(i: nat, s: State, p: Place, nodes: nat): State
    requires Kept(i, s) && (p == OnFree || p == OnAlloc) && nodes >= 2 && Offers(s, p)
  {
    var ns := s.l.lists[p];
    var j := Capped(nodes - 1, |ns|);
    ChainOfList(i, s.l, p, j - 1);
    var count := Counter(s, p) - Capped(nodes, |ns|);
    s.(l := Cut(s.l, i, p, j, s.next), free := if p == OnFree then count else s.free,
       alloc := if p == OnFree then s.alloc else count,
       kinds := s.kinds[s.next := NODE_TYPE_FREE], next := s.next + 1,
       history := s.history + if p == OnFree then [] else [CutOff(ns[..j])])
  }

  ghost function AfterGetChunk(i: nat, cb: Callbacks, s: State, nodes: nat): State
    requires Kept(i, s) && nodes >= 2
  {
    if Offers(s, OnFree) then AfterCut(i, s, OnFree, nodes)
    else if cb.prepare && Offers(s, OnAlloc) then AfterCut(i, s, OnAlloc, nodes)
    else s
  }

  ghost function AfterChunkGet(i: nat, cb: Callbacks, s: State, c: nat): State
    requires Kept(i, s) && c in s.kinds
  {
    HeadOfList(i, s.l, InChunk(c));
    if s.l.lists[InChunk(c)] == [] then s
    else
      var prepares := s.kinds[c] == NODE_TYPE_ALLOC && cb.prepare;
      s.(l := Popped(s.l, i, InChunk(c)),
         history := s.history + Maybe(prepares, Ran(Prepared(s.l.lists[InChunk(c)][0]))))
  }

  ghost function AfterFreeChunk(i: nat, s: State, c: nat): State
    requires Kept(i, s) && c in s.kinds
  {
    var p, ms := if s.kinds[c] == NODE_TYPE_FREE then OnFree else OnAlloc, s.l.lists[InChunk(c)];
    if ms == [] then
      s.(l := s.l.(heads := s.l.heads - {InChunk(c)}, lists := s.l.lists - {InChunk(c)}), kinds := s.kinds - {c})
    else
      ChainOfList(i, s.l, InChunk(c), |ms| - 1);
      s.(l := Joined(s.l, i, p, c), free := if p == OnFree then s.free + |ms| else s.free,
         alloc := if p == OnFree then s.alloc else s.alloc + |ms|, kinds := s.kinds - {c})
  }

  // ----- what the requests do to the history

  /** A node may move, as long as neither place is the unprepared list. */
  lemma {:induction false} MoveTracks(cb: Callbacks, place: seq<Place>, n: nat, p: Place, history: seq<Step>)
    requires Tracks(cb, place, history) && n < |place| && place[n] != OnAlloc && p != OnAlloc
    ensures Tracks(cb, place[n := p], history)
  {
    hide ReadyAfter, ChunkedAfter;
    var place' := place[n := p];
    forall m | 0 <= m < |place|
      ensures cb.prepare ==> Tracked(place'[m], m, history)
    {
      assert cb.prepare ==> Tracked(place[m], m, history);
    }
  }

  lemma {:induction false} FreeTracks(cb: Callbacks, place: seq<Place>, n: nat, history: seq<Step>)
    requires Tracks(cb, place, history) && n < |place| && place[n] != OnAlloc
    ensures Tracks(cb, place[n := OnFree], history + Maybe(cb.free, Ran(Freed(n))))
  {
    MoveTracks(cb, place, n, OnFree, history);
    HistoryGrows(history, Ran(Freed(n)));
    assert history + [] == history;
    hide ReadyAfter, ChunkedAfter;
  }

  lemma {:induction false} PrepareTracks(cb: Callbacks, place: seq<Place>, n: nat, history: seq<Step>)
    requires Tracks(cb, place, history) && n < |place| && place[n] == OnAlloc
    ensures Tracks(cb, place[n := Out], history + [Ran(Prepared(n))])
  {
    HistoryGrows(history, Ran(Prepared(n)));
    hide ReadyAfter, ChunkedAfter;
    var place' := place[n := Out];
    forall m | 0 <= m < |place|
      ensures cb.prepare ==> Tracked(place'[m], m, history + [Ran(Prepared(n))])
    {
      assert cb.prepare ==> Tracked(place[m], m, history);
    }
  }

  lemma {:induction false} DiscardTracks(cb: Callbacks, place: seq<Place>, n: nat, history: seq<Step>)
    requires Tracks(cb, place, history) && n < |place|
    ensures Tracks(cb, place[n := OnAlloc], history + [Unprepared(n)])
  {
    HistoryGrows(history, Unprepared(n));
    hide ReadyAfter, ChunkedAfter;
    var place' := place[n := OnAlloc];
    forall m | 0 <= m < |place|
      ensures cb.prepare ==> Tracked(place'[m], m, history + [Unprepared(n)])
    {
      assert cb.prepare ==> Tracked(place[m], m, history);
    }
  }

  /** A whole chunk moves. */
  lemma {:induction false} ChunkTracks(cb: Callbacks, place: seq<Place>, place': seq<Place>, history: seq<Step>)
    requires Tracks(cb, place, history) && |place'| == |place|
    requires forall n | 0 <= n < |place| :: place'[n] == place[n] || (place[n] != OnAlloc && place'[n] != OnAlloc)
    ensures Tracks(cb, place', history)
  {
    hide ReadyAfter, ChunkedAfter;
    forall m | 0 <= m < |place|
      ensures cb.prepare ==> Tracked(place'[m], m, history)
    {
      assert cb.prepare ==> Tracked(place[m], m, history);
    }
  }

  lemma {:induction false} CutOffTracks(cb: Callbacks, place: seq<Place>, place': seq<Place>, ns: seq<nat>,
      history: seq<Step>)
    requires Tracks(cb, place, history) && |place'| == |place|
    requires forall n | 0 <= n < |place| ::
               if n in ns then place[n] == OnAlloc && place'[n] != OnAlloc else place'[n] == place[n]
    ensures Tracks(cb, place', history + [CutOff(ns)])
  {
    HistoryGrows(history, CutOff(ns));
    hide ReadyAfter, ChunkedAfter;
    forall m | 0 <= m < |place|
      ensures cb.prepare ==> Tracked(place'[m], m, history + [CutOff(ns)])
    {
      assert cb.prepare ==> Tracked(place[m], m, history);
    }
  }

  // ----- each request keeps what holds

  lemma {:induction false} PopFacts(i: nat, s: State, p: Place)
    requires Kept(i, s) && p in s.l.lists && s.l.lists[p] != []
    ensures var n := s.l.lists[p][0];
            && n < |s.l.word| && n < |s.l.place| && s.l.place[n] == p && Conserved(i, Popped(s.l, i, p))
            && Listed(Popped(s.l, i, p), s.kinds.Keys, s.next)
  {
    hide Conserved;
    HeadOfList(i, s.l, p);
    PopConserves(i, s.l, p);
  }

  lemma {:induction false} GetKeeps(i: nat, cb: Callbacks, s: State)
    requires Ok(i, cb, s)
    ensures Ok(i, cb, AfterGet(i, cb, s)) && |AfterGet(i, cb, s).l.place| == |s.l.place|
  {
    assert OnFree in s.l.lists && OnAlloc in s.l.lists;
    hide Conserved, Tracks, Labelled, Listed;
    if s.l.lists[OnFree] != [] {
      PopFacts(i, s, OnFree);
      MoveTracks(cb, s.l.place, s.l.lists[OnFree][0], Out, s.history);
    }
    if s.l.lists[OnAlloc] != [] {
      PopFacts(i, s, OnAlloc);
      PrepareTracks(cb, s.l.place, s.l.lists[OnAlloc][0], s.history);
    }
  }

  lemma {:induction false} PushFacts(i: nat, s: State, p: Place, n: nat)
    requires Kept(i, s) && (p == OnFree || p == OnAlloc) && n < |s.l.place| && s.l.place[n] == Out
    ensures Conserved(i, Pushed(s.l, i, p, n)) && Listed(Pushed(s.l, i, p, n), s.kinds.Keys, s.next)
  {
    PushConserves(i, s.l, p, n);
    hide Conserved;
  }

  lemma {:induction false} FreeKeeps(i: nat, cb: Callbacks, s: State, n: nat)
    requires Ok(i, cb, s) && n < |s.l.place| && s.l.place[n] == Out
    ensures Ok(i, cb, AfterFree(i, cb, s, n)) && |AfterFree(i, cb, s, n).l.place| == |s.l.place|
  {
    PushFacts(i, s, OnFree, n);
    FreeTracks(cb, s.l.place, n, s.history);
    hide Conserved, Tracks, Labelled, Listed;
  }

  lemma {:induction false} DiscardKeeps(i: nat, cb: Callbacks, s: State, n: nat)
    requires Ok(i, cb, s) && n < |s.l.place| && s.l.place[n] == Out
    ensures Ok(i, cb, AfterDiscard(i, s, n)) && |AfterDiscard(i, s, n).l.place| == |s.l.place|
  {
    PushFacts(i, s, OnAlloc, n);
    DiscardTracks(cb, s.l.place, n, s.history);
    hide Conserved, Tracks, Labelled, Listed;
  }

  lemma {:induction false} CutListed(l: Layout, i: nat, chunks: set<nat>, next: nat, p: Place, j: nat)
    requires Listed(l, chunks, next) && (p == OnFree || p == OnAlloc)
    requires 0 < j <= |l.lists[p]| && l.lists[p][j - 1] < |l.word|
    ensures Listed(Cut(l, i, p, j, next), chunks + {next}, next + 1)
  {
    var l' := Cut(l, i, p, j, next);
    assert l'.lists.Keys == l.lists.Keys + {InChunk(next)} && l'.heads.Keys == l'.lists.Keys;
    hide Cut;
  }

  lemma {:induction false} CutFacts(i: nat, s: State, p: Place, j: nat)
    requires Kept(i, s) && (p == OnFree || p == OnAlloc) && 0 < j <= |s.l.lists[p]|
    ensures s.l.lists[p][j - 1] < |s.l.word|
    ensures var l' := Cut(s.l, i, p, j, s.next);
            && Conserved(i, l') && |l'.word| == |l'.place| == |s.l.place|
            && Listed(l', s.kinds.Keys + {s.next}, s.next + 1)
  {
    assert InChunk(s.next) !in s.l.lists;
    CutConserves(i, s.l, p, j, s.next);
    CutListed(s.l, i, s.kinds.Keys, s.next, p, j);
    hide Conserved, Listed;
  }

  lemma {:induction false} CutPlaces(i: nat, s: State, p: Place, j: nat)
    requires Kept(i, s) && (p == OnFree || p == OnAlloc) && 0 < j <= |s.l.lists[p]|
    ensures s.l.lists[p][j - 1] < |s.l.word| && |Cut(s.l, i, p, j, s.next).place| == |s.l.place|
    ensures forall n | 0 <= n < |s.l.place| ::
              Cut(s.l, i, p, j, s.next).place[n] == if n in s.l.lists[p][..j] then InChunk(s.next) else s.l.place[n]
    ensures forall n | n in s.l.lists[p][..j] :: n < |s.l.place| && s.l.place[n] == p
  {
    ChainOfList(i, s.l, p, j - 1);
    forall n | n in s.l.lists[p][..j]
      ensures n < |s.l.place| && s.l.place[n] == p
    {
      MemberPlace(i, s.l, p, n);
    }
    hide Conserved;
  }

  /** The new state, field by field. */
  lemma {:induction false} CutFields(i: nat, s: State, p: Place, nodes: nat)
    requires Kept(i, s) && (p == OnFree || p == OnAlloc) && nodes >= 2 && Offers(s, p)
    ensures |s.l.place| > 0 && p in s.l.lists
    ensures var j, s' := Capped(nodes - 1, |s.l.lists[p]|), AfterCut(i, s, p, nodes);
            && 0 < j <= |s.l.lists[p]| && s.l.lists[p][j - 1] < |s.l.word| && s'.l == Cut(s.l, i, p, j, s.next)
            && s'.kinds == s.kinds[s.next := NODE_TYPE_FREE] && s'.next == s.next + 1
            && s'.history == s.history + (if p == OnFree then [] else [CutOff(s.l.lists[p][..j])])
  {
    ChainOfList(i, s.l, p, Capped(nodes - 1, |s.l.lists[p]|) - 1);
    hide Conserved, Cut;
  }

  lemma {:induction false} CutCounts(i: nat, s: State, p: Place, nodes: nat)
    requires Kept(i, s) && (p == OnFree || p == OnAlloc) && nodes >= 2 && Offers(s, p)
    ensures var s' := AfterCut(i, s, p, nodes);
            && OnFree in s'.l.lists && s'.free <= |s'.l.lists[OnFree]|
            && OnAlloc in s'.l.lists && s'.alloc <= |s'.l.lists[OnAlloc]|
  {
    CutFields(i, s, p, nodes);
    hide Conserved;
  }

  lemma {:induction false} KeptIs(i: nat, s: State, chunks: set<nat>)
    requires Conserved(i, s.l) && |s.l.word| == |s.l.place| > 0 && Listed(s.l, chunks, s.next) && chunks == s.kinds.Keys
    requires OnFree in s.l.lists && s.free <= |s.l.lists[OnFree]|
    requires OnAlloc in s.l.lists && s.alloc <= |s.l.lists[OnAlloc]|
    ensures Kept(i, s)
  {
    hide Conserved, Listed;
  }

  lemma {:induction false} CutKept(i: nat, s: State, p: Place, nodes: nat)
    requires Kept(i, s) && (p == OnFree || p == OnAlloc) && nodes >= 2 && Offers(s, p)
    ensures Kept(i, AfterCut(i, s, p, nodes)) && |AfterCut(i, s, p, nodes).l.place| == |s.l.place|
    ensures AfterCut(i, s, p, nodes).kinds == s.kinds[s.next := NODE_TYPE_FREE]
  {
    hide AfterCut, Capped, Cut, Conserved, Listed, Kept;
    CutFields(i, s, p, nodes);
    CutCounts(i, s, p, nodes);
    CutFacts(i, s, p, Capped(nodes - 1, |s.l.lists[p]|));
    KeptIs(i, AfterCut(i, s, p, nodes), s.kinds.Keys + {s.next});
  }

  lemma {:induction false} CutTracks(i: nat, cb: Callbacks, s: State, p: Place, nodes: nat)
    requires Ok(i, cb, s) && (p == OnFree || p == OnAlloc) && nodes >= 2 && Offers(s, p)
    ensures var s' := AfterCut(i, s, p, nodes); Tracks(cb, s'.l.place, s'.history)
  {
    var j, s' := Capped(nodes - 1, |s.l.lists[p]|), AfterCut(i, s, p, nodes);
    CutFields(i, s, p, nodes);
    CutPlaces(i, s, p, j);
    hide AfterCut, Cut, Conserved, Tracks, Listed;
    if p == OnFree {
      ChunkTracks(cb, s.l.place, s'.l.place, s.history);
      assert s.history + [] == s.history;
    } else {
      CutOffTracks(cb, s.l.place, s'.l.place, s.l.lists[p][..j], s.history);
    }
  }

  lemma {:induction false} CutKeeps(i: nat, cb: Callbacks, s: State, p: Place, nodes: nat)
    requires Ok(i, cb, s) && (p == OnFree || p == OnAlloc) && nodes >= 2 && Offers(s, p)
    ensures Ok(i, cb, AfterCut(i, s, p, nodes)) && |AfterCut(i, s, p, nodes).l.place| == |s.l.place|
  {
    CutKept(i, s, p, nodes);
    CutTracks(i, cb, s, p, nodes);
    hide Kept, AfterCut, Tracks;
  }

  lemma {:induction false} GetChunkKeeps(i: nat, cb: Callbacks, s: State, nodes: nat)
    requires Ok(i, cb, s) && nodes >= 2
    ensures Ok(i, cb, AfterGetChunk(i, cb, s, nodes))
    ensures |AfterGetChunk(i, cb, s, nodes).l.place| == |s.l.place|
  {
    if Offers(s, OnFree) {
      CutKeeps(i, cb, s, OnFree, nodes);
    } else if cb.prepare && Offers(s, OnAlloc) {
      CutKeeps(i, cb, s, OnAlloc, nodes);
    }
    hide Ok, Kept, AfterCut;
  }

  lemma {:induction false} ChunkGetKeeps(i: nat, cb: Callbacks, s: State, c: nat)
    requires Ok(i, cb, s) && c in s.kinds
    ensures Ok(i, cb, AfterChunkGet(i, cb, s, c)) && |AfterChunkGet(i, cb, s, c).l.place| == |s.l.place|
  {
    assert s.kinds[c] == NODE_TYPE_FREE && s.history + [] == s.history;
    if s.l.lists[InChunk(c)] != [] {
      PopFacts(i, s, InChunk(c));
      MoveTracks(cb, s.l.place, s.l.lists[InChunk(c)][0], Out, s.history);
    }
    hide Conserved, Tracks, Labelled, Listed;
  }

  lemma {:induction false} DropFacts(i: nat, s: State, c: nat)
    requires Kept(i, s) && c in s.kinds && s.l.lists[InChunk(c)] == []
    ensures var l' := s.l.(heads := s.l.heads - {InChunk(c)}, lists := s.l.lists - {InChunk(c)});
            Conserved(i, l') && Listed(l', s.kinds.Keys - {c}, s.next)
  {
    DropConserves(i, s.l, c);
    hide Conserved;
  }

  lemma {:induction false} JoinFacts(i: nat, s: State, c: nat)
    requires Kept(i, s) && c in s.kinds && s.l.lists[InChunk(c)] != []
    ensures var ms := s.l.lists[InChunk(c)]; ms[|ms| - 1] < |s.l.word|
    ensures var l' := Joined(s.l, i, OnFree, c);
            && Conserved(i, l') && Listed(l', s.kinds.Keys - {c}, s.next) && |l'.word| == |l'.place| == |s.l.place|
            && l'.lists[OnFree] == s.l.lists[InChunk(c)] + s.l.lists[OnFree] && l'.lists[OnAlloc] == s.l.lists[OnAlloc]
    ensures forall n | 0 <= n < |s.l.place| ::
              Joined(s.l, i, OnFree, c).place[n] == if s.l.place[n] == InChunk(c) then OnFree else s.l.place[n]
  {
    JoinConserves(i, s.l, OnFree, c);
    hide Conserved;
  }

  lemma {:induction false} DropKeeps(i: nat, cb: Callbacks, s: State, c: nat)
    requires Ok(i, cb, s) && c in s.kinds && s.l.lists[InChunk(c)] == []
    ensures Ok(i, cb, AfterFreeChunk(i, s, c)) && |AfterFreeChunk(i, s, c).l.place| == |s.l.place|
  {
    DropFacts(i, s, c);
    assert (s.kinds - {c}).Keys == s.kinds.Keys - {c};
    hide Conserved, Tracks, Listed;
  }

  lemma {:induction false} JoinKeeps(i: nat, cb: Callbacks, s: State, c: nat)
    requires Ok(i, cb, s) && c in s.kinds && s.l.lists[InChunk(c)] != []
    ensures Ok(i, cb, AfterFreeChunk(i, s, c)) && |AfterFreeChunk(i, s, c).l.place| == |s.l.place|
  {
    JoinFacts(i, s, c);
    var s' := AfterFreeChunk(i, s, c);
    assert s.kinds[c] == NODE_TYPE_FREE && s'.kinds == s.kinds - {c} && s'.kinds.Keys == s.kinds.Keys - {c};
    assert s'.l == Joined(s.l, i, OnFree, c) && s'.history == s.history;
    ChunkTracks(cb, s.l.place, s'.l.place, s.history);
    hide Conserved, Tracks, Listed, Joined;
  }

  lemma {:induction false} FreeChunkKeeps(i: nat, cb: Callbacks, s: State, c: nat)
    requires Ok(i, cb, s) && c in s.kinds
    ensures Ok(i, cb, AfterFreeChunk(i, s, c)) && |AfterFreeChunk(i, s, c).l.place| == |s.l.place|
  {
    assert InChunk(c) in s.l.lists;
    if s.l.lists[InChunk(c)] == [] {
      DropKeeps(i, cb, s, c);
    } else {
      JoinKeeps(i, cb, s, c);
    }
    hide Ok, Kept, AfterFreeChunk;
  }

  // ----- recognizing the new state by its fields

  lemma {:induction false} GetFreeIs(i: nat, cb: Callbacks, s: State, s': State)
    requires Ok(i, cb, s) && Offers(s, OnFree) && s.l.lists[OnFree][0] < |s.l.word| == |s.l.place|
    requires s'.l == Popped(s.l, i, OnFree) && s'.free == s.free - 1 && s'.alloc == s.alloc
    requires s'.kinds == s.kinds && s'.next == s.next && s'.history == s.history
    ensures s' == AfterGet(i, cb, s) && Ok(i, cb, s')
  {
    GetKeeps(i, cb, s);
    hide Conserved, Tracks, Ok;
  }

  lemma {:induction false} GetNoneIs(i: nat, cb: Callbacks, s: State)
    requires Ok(i, cb, s) && !Offers(s, OnFree) && !(cb.prepare && Offers(s, OnAlloc))
    ensures AfterGet(i, cb, s) == s
  {
    hide Conserved, Tracks;
  }

  lemma {:induction false} GetAllocIs(i: nat, cb: Callbacks, s: State, s': State)
    requires Ok(i, cb, s) && !Offers(s, OnFree) && cb.prepare && Offers(s, OnAlloc)
    requires s.l.lists[OnAlloc][0] < |s.l.word| == |s.l.place|
    requires s'.l == Popped(s.l, i, OnAlloc) && s'.free == s.free && s'.alloc == s.alloc - 1
    requires s'.kinds == s.kinds && s'.next == s.next
    requires s'.history == s.history + [Ran(Prepared(s.l.lists[OnAlloc][0]))]
    ensures s' == AfterGet(i, cb, s) && Ok(i, cb, s')
    ensures LogOf(s'.history) == LogOf(s.history) + [Prepared(s.l.lists[OnAlloc][0])]
  {
    GetKeeps(i, cb, s);
    HistoryGrows(s.history, Ran(Prepared(s.l.lists[OnAlloc][0])));
    hide Conserved, Tracks, Ok;
  }

  lemma {:induction false} FreeIs(i: nat, cb: Callbacks, s: State, s': State, n: nat)
    requires Ok(i, cb, s) && n < |s.l.place| == |s.l.word| && s.l.place[n] == Out
    requires s'.l == Pushed(s.l, i, OnFree, n) && s'.free == s.free + 1 && s'.alloc == s.alloc
    requires s'.kinds == s.kinds && s'.next == s.next
    requires s'.history == s.history + Maybe(cb.free, Ran(Freed(n)))
    ensures s' == AfterFree(i, cb, s, n) && Ok(i, cb, s')
    ensures LogOf(s'.history) == LogOf(s.history) + Maybe(cb.free, Freed(n))
  {
    FreeKeeps(i, cb, s, n);
    CallbackGrows(s.history, cb.free, Freed(n));
    hide Conserved, Tracks, Ok, LogOf, Maybe, Pushed;
  }

  lemma {:induction false} DiscardIs(i: nat, cb: Callbacks, s: State, s': State, n: nat)
    requires Ok(i, cb, s) && n < |s.l.place| == |s.l.word| && s.l.place[n] == Out
    requires s'.l == Pushed(s.l, i, OnAlloc, n) && s'.free == s.free && s'.alloc == s.alloc + 1
    requires s'.kinds == s.kinds && s'.next == s.next && s'.history == s.history + [Unprepared(n)]
    ensures s' == AfterDiscard(i, s, n) && Ok(i, cb, s') && LogOf(s'.history) == LogOf(s.history)
  {
    DiscardKeeps(i, cb, s, n);
    HistoryGrows(s.history, Unprepared(n));
    hide Conserved, Tracks, Ok;
  }

  lemma {:induction false} CutIs(i: nat, cb: Callbacks, s: State, s': State, p: Place, nodes: nat, j: nat)
    requires Ok(i, cb, s) && (p == OnFree || p == OnAlloc) && nodes >= 2 && Offers(s, p)
    requires 0 < j == Capped(nodes - 1, |s.l.lists[p]|) && s.l.lists[p][j - 1] < |s.l.word|
    requires s'.l == Cut(s.l, i, p, j, s.next)
    requires Counter(s', p) == Counter(s, p) - Capped(nodes, |s.l.lists[p]|)
    requires if p == OnFree then s'.alloc == s.alloc else s'.free == s.free
    requires s'.kinds == s.kinds[s.next := NODE_TYPE_FREE] && s'.next == s.next + 1
    requires s'.history == s.history + if p == OnFree then [] else [CutOff(s.l.lists[p][..j])]
    ensures s' == AfterCut(i, s, p, nodes) && Ok(i, cb, s') && LogOf(s'.history) == LogOf(s.history)
  {
    CutKeeps(i, cb, s, p, nodes);
    CutFields(i, s, p, nodes);
    HistoryGrows(s.history, CutOff(s.l.lists[p][..j]));
    assert s.history + [] == s.history;
    hide Conserved, Tracks, Ok, Cut, Kept, LogOf;
  }

  lemma {:induction false} ChunkGetIs(i: nat, cb: Callbacks, s: State, s': State, c: nat)
    requires Ok(i, cb, s) && c in s.kinds
    requires s.l.lists[InChunk(c)] == [] ==> s' == s
    requires s.l.lists[InChunk(c)] != [] ==>
               s.l.lists[InChunk(c)][0] < |s.l.word| == |s.l.place| && s' == s.(l := Popped(s.l, i, InChunk(c)))
    ensures s' == AfterChunkGet(i, cb, s, c) && Ok(i, cb, s')
  {
    ChunkGetKeeps(i, cb, s, c);
    assert s.kinds[c] == NODE_TYPE_FREE && s.history + [] == s.history;
    hide Conserved, Tracks, Ok;
  }

  lemma {:induction false} FreeChunkIs(i: nat, cb: Callbacks, s: State, s': State, c: nat)
    requires Ok(i, cb, s) && c in s.kinds && GivenBack(i, s.l, OnFree, c, s'.l)
    requires s'.free == s.free + |s.l.lists[InChunk(c)]| && s'.alloc == s.alloc
    requires s'.kinds == s.kinds - {c} && s'.next == s.next && s'.history == s.history
    ensures s' == AfterFreeChunk(i, s, c) && Ok(i, cb, s')
  {
    FreeChunkKeeps(i, cb, s, c);
    assert s.kinds[c] == NODE_TYPE_FREE;
    hide Conserved, Tracks, Ok;
  }

  // ----- any sequence of requests

  /** One request; those a disciplined client does not make are skipped. */
  ghost function Exec(i: nat, cb: Callbacks, s: State, r: Request): (s': State)
    requires Ok(i, cb, s)
    ensures Ok(i, cb, s') && |s'.l.place| == |s.l.place|
  {
    match r
    case Get => GetKeeps(i, cb, s); AfterGet(i, cb, s)
    case Free(n) => if n < |s.l.place| && s.l.place[n] == Out then FreeKeeps(i, cb, s, n); AfterFree(i, cb, s, n) else s
    case Discard(n) =>
      if n < |s.l.place| && s.l.place[n] == Out then DiscardKeeps(i, cb, s, n); AfterDiscard(i, s, n) else s
    case GetChunk(nodes) => if nodes >= 2 then GetChunkKeeps(i, cb, s, nodes); AfterGetChunk(i, cb, s, nodes) else s
    case ChunkGet(c) => if c in s.kinds then ChunkGetKeeps(i, cb, s, c); AfterChunkGet(i, cb, s, c) else s
    case FreeChunk(c) => if c in s.kinds then FreeChunkKeeps(i, cb, s, c); AfterFreeChunk(i, s, c) else s
  }

  ghost function ExecAll(i: nat, cb: Callbacks, s: State, requests: seq<Request>): (s': State)
    requires Ok(i, cb, s)
    ensures Ok(i, cb, s') && |s'.l.place| == |s.l.place|
  {
    if requests == [] then s
    else
      var n := |requests| - 1;
      Exec(i, cb, ExecAll(i, cb, s, requests[..n]), requests[n])
  }

  /** A slab as it is carved. */
  ghost function Carved(i: nat, nodes: nat, cb: Callbacks): (s: State)
    requires nodes > 0
    ensures Ok(i, cb, s) && |s.l.place| == nodes
  {
    FreshConserves(i, nodes, OnAlloc, OnFree);
    FreshConserves(i, nodes, OnFree, OnAlloc);
    hide Conserved;
    State(if cb.prepare then Fresh(i, nodes, OnAlloc, OnFree) else Fresh(i, nodes, OnFree, OnAlloc),
          if cb.prepare then 0 else nodes, if cb.prepare then nodes else 0, map[], 0, [])
  }

  /** After any sequence of requests no node is lost, added or on two lists, a
      node is out exactly if it is tagged, the counters do not exceed the lists,
      and every chunk is labelled with the free list. */
  lemma {:induction false} RequestsConserve(i: nat, cb: Callbacks, s: State, requests: seq<Request>, n: nat)
    requires Ok(i, cb, s) && n < |s.l.place|
    ensures var s' := ExecAll(i, cb, s, requests);
            && |s'.l.place| == |s.l.place| && Conserved(i, s'.l)
            && (forall p | p in s'.l.lists :: Occurrences(s'.l.lists[p], n) == if p == s'.l.place[n] then 1 else 0)
            && (s'.l.place[n] == Out <==> s'.l.word[n] == SlabPtr(i))
            && OnFree in s'.l.lists && s'.free <= |s'.l.lists[OnFree]|
            && OnAlloc in s'.l.lists && s'.alloc <= |s'.l.lists[OnAlloc]|
            && forall c | c in s'.kinds :: s'.kinds[c] == NODE_TYPE_FREE
  {
    var s' := ExecAll(i, cb, s, requests);
    NodeOccursOnce(i, s'.l, n);
    OutIsTagged(i, s'.l, n);
    hide Conserved;
  }

  /** After any sequence of requests to a slab of a pool that prepares nodes: a
      node that is not unprepared has run through prepareCB since it left the
      list of unprepared nodes if and only if it did not leave it in a chunk. */
  lemma {:induction false} ReadyUnlessChunked(i: nat, cb: Callbacks, s: State, requests: seq<Request>, n: nat)
    requires Ok(i, cb, s) && cb.prepare && n < |s.l.place|
    ensures var s' := ExecAll(i, cb, s, requests);
            s'.l.place[n] != OnAlloc ==>
              ((exists k: nat :: PreparedAt(s'.history, n, k)) <==> !exists k: nat :: ChunkedAt(s'.history, n, k))
  {
    var s' := ExecAll(i, cb, s, requests);
    ReadyExactly(s'.history, n);
    ChunkedExactly(s'.history, n);
    assert Tracked(s'.l.place[n], n, s'.history);
  }

  lemma {:induction false} FirstChunk(i: nat, nodes: nat, cb: Callbacks)
    requires nodes > 0 && cb.prepare
    ensures var s := Exec(i, cb, Carved(i, nodes, cb), GetChunk(2));
            && 0 in s.kinds && InChunk(0) in s.l.lists && s.l.lists[InChunk(0)] == [0] && s.history == [CutOff([0])]
  {
    var l := Carved(i, nodes, cb).l;
    assert l.lists[OnAlloc][..1] == [0] && l.lists[OnAlloc][0] == 0;
    hide Conserved, Tracks;
  }

  /** The failing case: the first chunk of any such slab is cut off the list of
      unprepared nodes but labelled free, so its nodes go out unprepared. */
  lemma {:induction false} ChunkGoesOutUnprepared(i: nat, nodes: nat, cb: Callbacks)
    requires nodes > 0 && cb.prepare
    ensures var s := ExecAll(i, cb, Carved(i, nodes, cb), [GetChunk(2), ChunkGet(0)]);
            |s.l.place| == nodes && s.l.place[0] == Out && LogOf(s.history) == []
  {
    var requests := [GetChunk(2), ChunkGet(0)];
    FirstChunk(i, nodes, cb);
    assert requests[..1] == [GetChunk(2)] && [GetChunk(2)][..0] == [];
    var s := Exec(i, cb, Carved(i, nodes, cb), GetChunk(2));
    assert ExecAll(i, cb, Carved(i, nodes, cb), requests[..1]) == s;
    hide Exec, Kept, Conserved, Tracks, Ok;
    SecondGet(i, cb, s);
  }

  lemma {:induction false} SecondGet(i: nat, cb: Callbacks, s: State)
    requires Ok(i, cb, s) && 0 in s.kinds && InChunk(0) in s.l.lists && s.l.lists[InChunk(0)] == [0]
    requires s.history == [CutOff([0])]
    ensures var s' := Exec(i, cb, s, ChunkGet(0));
            0 < |s.l.place| == |s'.l.place| && s'.l.place[0] == Out && LogOf(s'.history) == []
  {
    hide Kept, Tracks, Labelled, Exec, AfterChunkGet;
    GetOfChunk(i, cb, s, 0);
    HistoryGrows([], CutOff([0]));
    assert [] + [CutOff([0])] == s.history;
  }

  lemma {:induction false} GetOfChunk(i: nat, cb: Callbacks, s: State, c: nat)
    requires Ok(i, cb, s) && c in s.kinds && InChunk(c) in s.l.lists && s.l.lists[InChunk(c)] != []
    ensures var s' := Exec(i, cb, s, ChunkGet(c));
            && s.l.lists[InChunk(c)][0] < |s'.l.place| == |s.l.place|
            && s'.l.place[s.l.lists[InChunk(c)][0]] == Out && s'.history == s.history
  {
    HeadOfList(i, s.l, InChunk(c));
    assert s.kinds[c] == NODE_TYPE_FREE;
    hide Conserved, Tracks, Ok, Listed, Labelled;
    CallbackGrows(s.history, false, Prepared(s.l.lists[InChunk(c)][0]));
    hide Maybe;
    ExecOfChunkGet(i, cb, s, c);
    hide Exec;
  }

  lemma {:induction false} ExecOfChunkGet(i: nat, cb: Callbacks, s: State, c: nat)
    requires Ok(i, cb, s) && c in s.kinds
    ensures Exec(i, cb, s, ChunkGet(c)) == AfterChunkGet(i, cb, s, c)
  {
    hide Conserved, Tracks, Labelled, Listed, AfterChunkGet;
  }
}
