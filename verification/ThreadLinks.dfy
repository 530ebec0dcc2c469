/** The two lists of thread handles that share one link field in
    src/memmgr/thread.c: the global list of running threads and the cache of
    free handles. */
module ThreadLinks {

  /** The list without the first occurrence of x. */
  function Unlinked<T(==)>(list: seq<T>, x: T): seq<T> {
    if list == [] then []
    else if list[0] == x then list[1..]
    else [list[0]] + Unlinked(list[1..], x)
  }

  lemma {:induction false} UnlinkedAt<T>(list: seq<T>, x: T, k: nat)
    requires k < |list| && list[k] == x && forall i | 0 <= i < k :: list[i] != x
    ensures Unlinked(list, x) == list[..k] + list[k + 1..]
  {
    if k > 0 {
      UnlinkedAt(list[1..], x, k - 1);
      assert [list[0]] + (list[1..][..k - 1] + list[1..][k..]) == list[..k] + list[k + 1..];
    }
  }

  class Thread {
    var globalNext: Thread?

    constructor ()
    {
      globalNext := null;
    }
  }

  /** The nodes are distinct and linked in this order, and the last link is
      null. */
  ghost predicate IsChain(head: Thread?, nodes: seq<Thread>)
    reads nodes
  {
    && (forall i, j | 0 <= i < j < |nodes| :: nodes[i] != nodes[j])
    && head == (if nodes == [] then null else nodes[0])
    && (forall i | 0 <= i < |nodes| - 1 :: nodes[i].globalNext == nodes[i + 1])
    && (nodes != [] ==> nodes[|nodes| - 1].globalNext == null)
  }

  /** Cutting the k-th node out, by copying its link into the link before it. */
  lemma {:induction false} ChainCut(head: Thread?, was: seq<Thread>, k: nat)
    requires k < |was| && forall i, j | 0 <= i < j < |was| :: was[i] != was[j]
    requires forall i | 0 <= i < |was| - 1 && i != k - 1 :: was[i].globalNext == was[i + 1]
    requires (k > 0 ==> was[k - 1].globalNext == was[k].globalNext) && (k < |was| - 1 || was[k].globalNext == null)
    requires k < |was| - 1 ==> was[|was| - 1].globalNext == null
    requires head == if k > 0 then was[0] else was[k].globalNext
    ensures IsChain(head, was[..k] + was[k + 1..])
  {
    var nodes := was[..k] + was[k + 1..];
    assert forall i | 0 <= i < |nodes| :: nodes[i] == was[if i < k then i else i + 1];
  }

  class Lists {
    var threadList: Thread?
    var freeThreads: Thread?
    var threads: int

    ghost var running: seq<Thread>
    ghost var cached: seq<Thread>

    /** No handle is on both lists, or the shared link would tie them together. */
    ghost predicate Valid()
      reads this, running, cached
    {
      && IsChain(threadList, running)
      && IsChain(freeThreads, cached)
      && (forall i, j | 0 <= i < |running| && 0 <= j < |cached| :: running[i] != cached[j])
      && threads == |running|
    }

    constructor ()
      ensures Valid() && running == [] && cached == []
    {
      threadList, freeThreads, threads, running, cached := null, null, 0, [], [];
    }

    /** The second critical section of _LinkThread. */
    method Link(t: Thread)
      requires Valid() && t !in running && t !in cached
      modifies this, t
      ensures Valid() && running == [t] + old(running) && cached == old(cached)
    {
      t.globalNext := threadList;
      threadList := t;
      threads := threads + 1;
      running := [t] + running;
    }

    /** The search: the node before t, or null if t is the first, and how many
        links were followed. */
    method Before(t: Thread) returns (before: Thread?, k: nat)
      requires Valid() && t in running
      ensures k < |running| && running[k] == t && before == (if k == 0 then null else running[k - 1])
      ensures Unlinked(running, t) == running[..k] + running[k + 1..]
    {
      before := null;
      var at := threadList;
      k := 0;
      while at != t
        invariant k < |running| && at == running[k] && before == (if k == 0 then null else running[k - 1])
        invariant forall i | 0 <= i < k :: running[i] != t
        decreases |running| - k
      {
        before := at;
        at := at.globalNext;
        k := k + 1;
      }
      UnlinkedAt(running, t, k);
    }

    /** The search and the assignment through the link in _XplThreadDestroy. */
    method Unlink(t: Thread)
      requires Valid() && t in running
      modifies this, running
      ensures Valid() && running == Unlinked(old(running), t) && cached == old(cached)
      ensures t !in running
    {
      hide Unlinked;
      var before, k := Before(t);
      ghost var was, rest := running, cached;
      if before == null {
        threadList := t.globalNext;
      } else {
        before.globalNext := t.globalNext;
      }
      threads := threads - 1;
      assert IsChain(freeThreads, rest);
      ChainCut(threadList, was, k);
      running := was[..k] + was[k + 1..];
      hide IsChain;
      assert forall i | 0 <= i < |running| :: running[i] == was[if i < k then i else i + 1];
    }

    /** The end of _XplThreadFree on the last reference. */
    method Cache(t: Thread)
      requires Valid() && t !in running && t !in cached
      modifies this, t
      ensures Valid() && cached == [t] + old(cached) && running == old(running)
    {
      t.globalNext := freeThreads;
      freeThreads := t;
      cached := [t] + cached;
    }

    /** The start of _XplThreadStart: the first cached handle, if any. */
    method Take() returns (t: Thread?)
      requires Valid()
      modifies this
      ensures Valid() && running == old(running)
      ensures if old(cached) == [] then t == null && cached == []
              else t != null && [t] + cached == old(cached) && t !in cached && t !in running
    {
      t := freeThreads;
      if t != null {
        freeThreads := t.globalNext;
        ghost var was := cached;
        cached := cached[1..];
        assert forall i | 0 <= i < |cached| :: cached[i] == was[i + 1];
        assert was[0] == t;
      }
    }
  }
}
