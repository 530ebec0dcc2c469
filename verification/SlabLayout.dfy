/** Where the nodes of one slab are: on its free list, on its list of
    unprepared nodes, in a chunk, or out with the consumer. The lemmas say how
    each list splice of src/memmgr/slab.c moves nodes between these places. */
module SlabLayout {
  import opened NodeLists

  datatype Place = OnFree | OnAlloc | InChunk(c: nat) | Out

  /** The union words of the nodes, the place of each node, the head pointer
      of every list and the nodes on it. */
  datatype Layout = Layout(word: seq<Word>, place: seq<Place>, heads: map<Place, Word>, lists: map<Place, seq<nat>>)

  ghost predicate ListOk(i: nat, l: Layout, p: Place)
    requires p in l.lists && p in l.heads
  {
    && Chain(i, l.word, l.heads[p], l.lists[p])
    && Distinct(l.lists[p])
    && forall n: nat {:trigger n in l.lists[p]} :: n in l.lists[p] <==> n < |l.place| && l.place[n] == p
  }

  /** Every list is linked properly; a node is on the list of its place and on
      no other; a node that is out carries its slab's address. */
  ghost predicate Conserved(i: nat, l: Layout) {
    && |l.word| == |l.place|
    && l.heads.Keys == l.lists.Keys
    && Out !in l.lists
    && (forall n | 0 <= n < |l.place| :: l.place[n] in l.lists || l.place[n] == Out)
    && (forall p | p in l.lists :: ListOk(i, l, p))
    && (forall n | 0 <= n < |l.place| && l.place[n] == Out :: l.word[n] == SlabPtr(i))
  }

  // ----- carving a slab

  /** All nodes linked in address order on list p, the other list empty. */
  function Fresh(i: nat, nodes: nat, p: Place, other: Place): Layout {
    Layout(
      seq(nodes, (l: nat) => if l + 1 < nodes then NodePtr(i, l + 1) else Null),
      seq(nodes, _ => p),
      map[other := Null, p := NodePtr(i, 0)],
      map[other := [], p := seq(nodes, (l: nat) => l)])
  }

  lemma {:induction false} FreshConserves(i: nat, nodes: nat, p: Place, other: Place)
    requires nodes > 0 && p != other && p != Out && other != Out
    ensures Conserved(i, Fresh(i, nodes, p, other))
  {
    var l := Fresh(i, nodes, p, other);
    FreshChain(i, l.word, 0, nodes);
    assert seq(nodes - 0, (k: nat) => 0 + k) == l.lists[p];
    forall n: nat
      ensures n in l.lists[p] <==> n < nodes
    {
      if n < nodes { assert l.lists[p][n] == n; }
    }
    assert ListOk(i, l, p) && ListOk(i, l, other);
  }

  // ----- taking the head off

  function Popped(l: Layout, i: nat, p: Place): Layout
    requires p in l.lists && l.lists[p] != [] && l.lists[p][0] < |l.word| && l.lists[p][0] < |l.place|
  {
    var n := l.lists[p][0];
    Layout(l.word[n := SlabPtr(i)], l.place[n := Out], l.heads[p := l.word[n]], l.lists[p := l.lists[p][1..]])
  }

  /** A nonempty list is one whose head pointer is a node. */
  lemma {:induction false} HeadOfList(i: nat, l: Layout, p: Place)
    requires Conserved(i, l) && p in l.lists
    ensures l.heads[p] == LinkAt(i, l.lists[p], 0)
    ensures l.lists[p] != [] ==> l.lists[p][0] < |l.word| && l.place[l.lists[p][0]] == p
  {
    assert ListOk(i, l, p);
    if l.lists[p] != [] {
      assert l.lists[p][0] in l.lists[p];
    }
  }

  /** The links of a list lead from node to node. */
  lemma {:induction false} ChainOfList(i: nat, l: Layout, p: Place, j: nat)
    requires Conserved(i, l) && p in l.lists && j < |l.lists[p]|
    ensures l.lists[p][j] < |l.word| && l.word[l.lists[p][j]] == LinkAt(i, l.lists[p], j + 1)
  {
    assert ListOk(i, l, p);
    ChainAt(i, l.word, l.heads[p], l.lists[p], j);
  }

  lemma {:induction false} ListChain(i: nat, l: Layout, p: Place)
    requires Conserved(i, l) && p in l.lists
    ensures p in l.heads && Chain(i, l.word, l.heads[p], l.lists[p])
  {
    assert ListOk(i, l, p);
  }

  lemma {:induction false} NotListed(i: nat, l: Layout, p: Place, n: nat)
    requires Conserved(i, l) && p in l.lists && n < |l.place| && l.place[n] != p
    ensures n !in l.lists[p]
  {
    assert ListOk(i, l, p);
  }

  lemma {:induction false} OutIsTagged(i: nat, l: Layout, n: nat)
    requires Conserved(i, l) && n < |l.place|
    ensures n < |l.word| && (l.place[n] == Out <==> l.place[n] !in l.lists)
  {
  }

  lemma {:induction false} MemberPlace(i: nat, l: Layout, p: Place, n: nat)
    requires Conserved(i, l) && p in l.lists && n in l.lists[p]
    ensures n < |l.place| && l.place[n] == p
  {
    assert ListOk(i, l, p);
  }

  lemma {:induction false} OtherList(i: nat, l: Layout, l': Layout, n: nat, q: Place)
    requires q in l.lists && q in l.heads && ListOk(i, l, q) && |l.word| == |l.place| && n < |l.word| && l.place[n] != q
    requires q in l'.lists && q in l'.heads && l'.lists[q] == l.lists[q] && l'.heads[q] == l.heads[q]
    requires |l'.word| == |l.word| == |l'.place| && l'.word == l.word[n := l'.word[n]]
            && l'.place == l.place[n := l'.place[n]] && l'.place[n] != q
    ensures ListOk(i, l', q)
  {
    ChainFrame(i, l.word, l.heads[q], l.lists[q], n, l'.word[n]);
  }

  lemma {:induction false} PopConserves(i: nat, l: Layout, p: Place)
    requires Conserved(i, l) && p in l.lists && l.lists[p] != []
    ensures l.lists[p][0] < |l.word| && Conserved(i, Popped(l, i, p))
  {
    HeadOfList(i, l, p);
    var n, ns := l.lists[p][0], l.lists[p];
    var l' := Popped(l, i, p);
    forall q | q in l'.lists
      ensures ListOk(i, l', q)
    {
      assert ListOk(i, l, q);
      if q != p {
        OtherList(i, l, l', n, q);
      } else {
        assert forall m :: m in ns <==> m == n || m in ns[1..];
        ChainFrame(i, l.word, l.word[n], ns[1..], n, SlabPtr(i));
      }
    }
  }

  // ----- putting a node in front

  function Pushed(l: Layout, i: nat, p: Place, n: nat): Layout
    requires p in l.lists && p in l.heads && n < |l.word| && n < |l.place|
  {
    Layout(l.word[n := l.heads[p]], l.place[n := p], l.heads[p := NodePtr(i, n)], l.lists[p := [n] + l.lists[p]])
  }

  lemma {:induction false} PushConserves(i: nat, l: Layout, p: Place, n: nat)
    requires Conserved(i, l) && p in l.lists && n < |l.place| && l.place[n] == Out
    ensures Conserved(i, Pushed(l, i, p, n))
  {
    var l', ns := Pushed(l, i, p, n), l.lists[p];
    forall q | q in l'.lists
      ensures ListOk(i, l', q)
    {
      assert ListOk(i, l, q);
      if q != p {
        OtherList(i, l, l', n, q);
      } else {
        assert n !in ns;
        assert ([n] + ns)[1..] == ns;
        assert forall m :: m in [n] + ns <==> m == n || m in ns;
        ChainFrame(i, l.word, l.heads[p], ns, n, l.heads[p]);
      }
    }
  }

  // ----- cutting a chunk off the front

  /** The first j nodes of list p become chunk c. */
  function Cut(l: Layout, i: nat, p: Place, j: nat, c: nat): Layout
    requires p in l.lists && p in l.heads && 0 < j <= |l.lists[p]| && l.lists[p][j - 1] < |l.word|
  {
    var ns := l.lists[p];
    Layout(
      l.word[ns[j - 1] := Null],
      seq(|l.place|, (n: nat) requires n < |l.place| => if n in ns[..j] then InChunk(c) else l.place[n]),
      l.heads[InChunk(c) := l.heads[p]][p := LinkAt(i, ns, j)],
      l.lists[InChunk(c) := ns[..j]][p := ns[j..]])
  }

  lemma {:induction false} SplitMembers(ns: seq<nat>, j: nat)
    requires j <= |ns| && Distinct(ns)
    ensures Distinct(ns[..j]) && Distinct(ns[j..])
    ensures forall n :: n in ns <==> n in ns[..j] || n in ns[j..]
    ensures forall n | n in ns[..j] :: n !in ns[j..]
  {
    assert ns == ns[..j] + ns[j..];
  }

  lemma {:induction false} CutConserves(i: nat, l: Layout, p: Place, j: nat, c: nat)
    requires Conserved(i, l) && p in l.lists && InChunk(c) !in l.lists && 0 < j <= |l.lists[p]|
    ensures l.lists[p][j - 1] < |l.word| && Conserved(i, Cut(l, i, p, j, c))
  {
    var ns := l.lists[p];
    assert ListOk(i, l, p);
    ChainCut(i, l.word, l.heads[p], ns, j);
    SplitMembers(ns, j);
    assert ns[j - 1] in ns;
    var l' := Cut(l, i, p, j, c);
    assert ListOk(i, l', InChunk(c));
    assert ListOk(i, l', p);
    forall q | q in l'.lists
      ensures ListOk(i, l', q)
    {
      if q != p && q != InChunk(c) {
        assert ListOk(i, l, q);
        ChainFrame(i, l.word, l.heads[q], l.lists[q], ns[j - 1], Null);
      }
    }
  }

  // ----- giving a chunk back to a list

  /** All of chunk c goes in front of list p. */
  function Joined(l: Layout, i: nat, p: Place, c: nat): Layout
    requires p in l.lists && p in l.heads && InChunk(c) in l.lists && InChunk(c) in l.heads
    requires l.lists[InChunk(c)] != [] && l.lists[InChunk(c)][|l.lists[InChunk(c)]| - 1] < |l.word|
  {
    var ms := l.lists[InChunk(c)];
    Layout(
      l.word[ms[|ms| - 1] := l.heads[p]],
      seq(|l.place|, (n: nat) requires n < |l.place| => if l.place[n] == InChunk(c) then p else l.place[n]),
      l.heads[p := l.heads[InChunk(c)]] - {InChunk(c)},
      l.lists[p := ms + l.lists[p]] - {InChunk(c)})
  }

  lemma {:induction false} JoinMembers(ms: seq<nat>, ns: seq<nat>)
    requires Distinct(ms) && Distinct(ns) && forall n | n in ms :: n !in ns
    ensures Distinct(ms + ns)
    ensures forall n :: n in ms + ns <==> n in ms || n in ns
  {
    forall a, b | 0 <= a < b < |ms + ns|
      ensures (ms + ns)[a] != (ms + ns)[b]
    {
      if a < |ms| <= b {
        assert (ms + ns)[a] in ms && (ms + ns)[b] in ns;
      }
    }
  }

  lemma {:induction false} JoinConserves(i: nat, l: Layout, p: Place, c: nat)
    requires Conserved(i, l) && p in l.lists && InChunk(c) in l.lists && p != InChunk(c) && l.lists[InChunk(c)] != []
    ensures var ms := l.lists[InChunk(c)]; ms[|ms| - 1] < |l.word| && Conserved(i, Joined(l, i, p, c))
  {
    var ms, ns := l.lists[InChunk(c)], l.lists[p];
    assert ListOk(i, l, p) && ListOk(i, l, InChunk(c));
    var last := ms[|ms| - 1];
    assert last in ms;
    ChainJoin(i, l.word, l.heads[InChunk(c)], ms, l.heads[p], ns);
    var l' := Joined(l, i, p, c);
    JoinMembers(ms, ns);
    assert ListOk(i, l', p);
    forall q | q in l'.lists
      ensures ListOk(i, l', q)
    {
      if q != p {
        assert ListOk(i, l, q);
        ChainFrame(i, l.word, l.heads[q], l.lists[q], last, l.heads[p]);
      }
    }
  }

  /** Only the nodes of the chunk change places. */
  lemma {:induction false} JoinPlaces(i: nat, l: Layout, p: Place, c: nat)
    requires Conserved(i, l) && p in l.lists && InChunk(c) in l.lists && p != InChunk(c) && l.lists[InChunk(c)] != []
    requires l.lists[InChunk(c)][|l.lists[InChunk(c)]| - 1] < |l.word|
    ensures |Joined(l, i, p, c).place| == |l.place|
    ensures forall n | 0 <= n < |l.place| ::
            Joined(l, i, p, c).place[n] == if l.place[n] == InChunk(c) then p else l.place[n]
  {
  }

  /** An empty chunk disappears without a trace. */
  lemma {:induction false} DropConserves(i: nat, l: Layout, c: nat)
    requires Conserved(i, l) && InChunk(c) in l.lists && l.lists[InChunk(c)] == []
    ensures Conserved(i, l.(heads := l.heads - {InChunk(c)}, lists := l.lists - {InChunk(c)}))
  {
    var l' := l.(heads := l.heads - {InChunk(c)}, lists := l.lists - {InChunk(c)});
    assert ListOk(i, l, InChunk(c));
    forall n | 0 <= n < |l.place|
      ensures l.place[n] != InChunk(c)
    {
      assert n !in l.lists[InChunk(c)];
    }
    forall q | q in l'.lists
      ensures ListOk(i, l', q)
    {
      assert ListOk(i, l, q);
    }
  }

  /** Chunk c is gone and its nodes, if any, are in front of list p. */
  ghost predicate GivenBack(i: nat, l: Layout, p: Place, c: nat, l': Layout) {
    && InChunk(c) in l.lists && InChunk(c) in l.heads && p in l.lists && p in l.heads
    && var ms := l.lists[InChunk(c)];
       if ms == [] then l' == l.(heads := l.heads - {InChunk(c)}, lists := l.lists - {InChunk(c)})
       else ms[|ms| - 1] < |l.word| && l' == Joined(l, i, p, c)
  }

  // ----- what conservation means

  /** The number of times node n occurs on list ns. */
  function Occurrences(ns: seq<nat>, n: nat): nat {
    multiset(ns)[n]
  }

  lemma {:induction false} OccursOnce(ns: seq<nat>, n: nat)
    requires Distinct(ns)
    ensures Occurrences(ns, n) == if n in ns then 1 else 0
  {
    if ns != [] {
      OccursOnce(ns[1..], n);
      assert ns == [ns[0]] + ns[1..];
      assert n == ns[0] ==> n !in ns[1..];
    }
  }

  /** No node is lost, duplicated or on two lists: each is out and on no list,
      or on exactly one list, once. */
  lemma {:induction false} NodeOccursOnce(i: nat, l: Layout, n: nat)
    requires Conserved(i, l) && n < |l.place|
    ensures forall p | p in l.lists :: Occurrences(l.lists[p], n) == if p == l.place[n] then 1 else 0
    ensures l.place[n] in l.lists <==> l.word[n] != SlabPtr(i)
  {
    forall p | p in l.lists
      ensures Occurrences(l.lists[p], n) == if p == l.place[n] then 1 else 0
    {
      assert ListOk(i, l, p);
      OccursOnce(l.lists[p], n);
    }
    if l.place[n] in l.lists {
      assert ListOk(i, l, l.place[n]);
      ChainWords(i, l.word, l.heads[l.place[n]], l.lists[l.place[n]], n);
    }
  }
}
