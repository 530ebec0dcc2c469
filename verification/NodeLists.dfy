/** The intrusive lists of a slab. The first word of a node is a union: it
    holds the address of the next node while the node is on a list and the
    address of its slab while the node is out with the consumer
    (src/memmgr/slab.h:46-54). Node n of slab i is `NodePtr(i, n)`. */
module NodeLists {

  datatype Word = Null | NodePtr(slab: nat, idx: nat) | SlabPtr(slab: nat)

  /** The nodes `ns` of slab i are linked from `head` in this order. */
  ghost predicate Chain(i: nat, word: seq<Word>, head: Word, ns: seq<nat>)
    decreases |ns|
  {
    if ns == [] then head == Null
    else head == NodePtr(i, ns[0]) && ns[0] < |word| && Chain(i, word, word[ns[0]], ns[1..])
  }

  predicate Distinct(ns: seq<nat>) {
    forall a, b | 0 <= a < b < |ns| :: ns[a] != ns[b]
  }

  lemma {:induction false} ChainFrame(i: nat, word: seq<Word>, head: Word, ns: seq<nat>, n: nat, x: Word)
    requires Chain(i, word, head, ns) && n !in ns && n < |word|
    ensures Chain(i, word[n := x], head, ns)
    decreases |ns|
  {
    if ns != [] {
      assert ns[0] in ns;
      ChainFrame(i, word, word[ns[0]], ns[1..], n, x);
    }
  }

  /** A list holds list links only, never a slab's address. */
  lemma {:induction false} ChainWords(i: nat, word: seq<Word>, head: Word, ns: seq<nat>, n: nat)
    requires Chain(i, word, head, ns) && n in ns
    ensures n < |word| && !word[n].SlabPtr?
    decreases |ns|
  {
    if n != ns[0] {
      ChainWords(i, word, word[ns[0]], ns[1..], n);
    }
  }

  /** Where the links lead. */
  function LinkAt(i: nat, ns: seq<nat>, j: nat): Word {
    if j < |ns| then NodePtr(i, ns[j]) else Null
  }

  lemma {:induction false} ChainAt(i: nat, word: seq<Word>, head: Word, ns: seq<nat>, j: nat)
    requires Chain(i, word, head, ns) && j < |ns|
    ensures ns[j] < |word| && word[ns[j]] == LinkAt(i, ns, j + 1) && head == LinkAt(i, ns, 0)
    decreases |ns|
  {
    if j > 0 {
      ChainAt(i, word, word[ns[0]], ns[1..], j - 1);
    } else if |ns| > 1 {
      assert Chain(i, word, word[ns[0]], ns[1..]);
    }
  }

  /** A list that ends has no cycle. */
  lemma {:induction false} ChainIsAcyclic(i: nat, word: seq<Word>, head: Word, ns: seq<nat>)
    requires Chain(i, word, head, ns)
    ensures Distinct(ns)
    decreases |ns|
  {
    if ns != [] {
      ChainIsAcyclic(i, word, word[ns[0]], ns[1..]);
      forall b | 0 < b < |ns|
        ensures ns[0] != ns[b]
      {
        if ns[0] == ns[b] {
          ChainSuffix(i, word, head, ns, b);
          ChainsAgree(i, word, head, ns, ns[b..]);
        }
      }
    }
  }

  lemma {:induction false} ChainSuffix(i: nat, word: seq<Word>, head: Word, ns: seq<nat>, b: nat)
    requires Chain(i, word, head, ns) && b < |ns|
    ensures Chain(i, word, NodePtr(i, ns[b]), ns[b..])
    decreases |ns|
  {
    if b == 0 {
      assert ns[0..] == ns;
    } else {
      ChainSuffix(i, word, word[ns[0]], ns[1..], b - 1);
      assert ns[1..][b - 1..] == ns[b..];
    }
  }

  /** The head determines the whole list. */
  lemma {:induction false} ChainsAgree(i: nat, word: seq<Word>, head: Word, ns: seq<nat>, ms: seq<nat>)
    requires Chain(i, word, head, ns) && Chain(i, word, head, ms)
    ensures ns == ms
    decreases |ns|
  {
    if ns != [] {
      ChainsAgree(i, word, word[ns[0]], ns[1..], ms[1..]);
    }
  }

  /** Ending a list at its j-th link cuts it in two. */
  lemma {:induction false} ChainCut(i: nat, word: seq<Word>, head: Word, ns: seq<nat>, j: nat)
    requires Chain(i, word, head, ns) && Distinct(ns) && 0 < j <= |ns|
    ensures ns[j - 1] < |word|
    ensures Chain(i, word[ns[j - 1] := Null], head, ns[..j])
    ensures Chain(i, word[ns[j - 1] := Null], LinkAt(i, ns, j), ns[j..])
    decreases |ns|
  {
    var rest := ns[1..];
    if j == 1 {
      ChainFrame(i, word, word[ns[0]], rest, ns[0], Null);
      assert ns[..1][1..] == [];
    } else {
      ChainCut(i, word, word[ns[0]], rest, j - 1);
      assert rest[j - 2] == ns[j - 1];
      assert ns[..j][1..] == rest[..j - 1] && rest[j - 1..] == ns[j..];
    }
  }

  /** Linking the end of one list to the head of another joins them. */
  lemma {:induction false} ChainJoin(i: nat, word: seq<Word>, head: Word, ns: seq<nat>, head2: Word, ms: seq<nat>)
    requires Chain(i, word, head, ns) && Chain(i, word, head2, ms) && ns != [] && Distinct(ns)
    requires forall n | n in ns :: n !in ms
    ensures ns[|ns| - 1] < |word|
    ensures Chain(i, word[ns[|ns| - 1] := head2], head, ns + ms)
    decreases |ns|
  {
    var rest := ns[1..];
    assert (ns + ms)[1..] == rest + ms;
    assert ns[|ns| - 1] in ns;
    if rest == [] {
      assert rest + ms == ms;
      ChainFrame(i, word, head2, ms, ns[0], head2);
    } else {
      ChainJoin(i, word, word[ns[0]], rest, head2, ms);
      assert rest[|rest| - 1] == ns[|ns| - 1] && ns[0] != ns[|ns| - 1];
    }
  }

  /** The links of a freshly carved slab. */
  lemma {:induction false} FreshChain(i: nat, word: seq<Word>, from: nat, nodes: nat)
    requires from < nodes == |word|
    requires forall l: nat | l < nodes :: word[l] == if l + 1 < nodes then NodePtr(i, l + 1) else Null
    ensures Chain(i, word, NodePtr(i, from), seq(nodes - from, (l: nat) => from + l))
    decreases nodes - from
  {
    var ns := seq(nodes - from, (l: nat) => from + l);
    if from + 1 < nodes {
      FreshChain(i, word, from + 1, nodes);
      assert ns[1..] == seq(nodes - from - 1, (l: nat) => from + 1 + l);
    } else {
      assert ns[1..] == [];
    }
  }
}
