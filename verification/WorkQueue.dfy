/** The queue of scheduled work in src/memmgr/thread.c: a linked list with a
    pointer to the link where the next item goes. */
module WorkQueue {

  class Work {
    var next: Work?
    const job: int

    constructor (job: int)
      ensures this.job == job && next == null
    {
      this.job := job;
      next := null;
    }
  }

  class Queue {
    var list: Work?

    /** The node whose next link is the tail; null when the tail is the head
        link itself. */
    var tail: Work?

    var pending: int

    ghost var nodes: seq<Work>

    ghost predicate Valid()
      reads this, nodes
    {
      && (forall i, j | 0 <= i < j < |nodes| :: nodes[i] != nodes[j])
      && (forall i | 0 <= i < |nodes| - 1 :: nodes[i].next == nodes[i + 1])
      && list == (if nodes == [] then null else nodes[0])
      && tail == (if nodes == [] then null else nodes[|nodes| - 1])
      && (nodes != [] ==> nodes[|nodes| - 1].next == null)
      && pending == |nodes|
    }

    /** The jobs waiting, oldest first. */
    ghost function Jobs(): (s: seq<int>)
      reads this, nodes
      ensures |s| == |nodes|
    {
      seq(|nodes|, i requires 0 <= i < |nodes| reads this, nodes => nodes[i].job)
    }

    constructor ()
      ensures Valid() && Jobs() == [] && nodes == []
    {
      list, tail, pending, nodes := null, null, 0, [];
    }

    /** The first critical section of _Schedule: link the item in at the tail
        and report how many are now pending. */
    method Enqueue(work: Work) returns (waiting: int)
      requires Valid() && work !in nodes && work.next == null
      modifies this, tail
      ensures Valid() && nodes == old(nodes) + [work]
      ensures Jobs() == old(Jobs()) + [work.job] && waiting == |Jobs()|
    {
      if tail == null {
        list := work;
      } else {
        tail.next := work;
      }
      tail := work;
      pending := pending + 1;
      waiting := pending;
      nodes := nodes + [work];
    }

    /** The critical section of a worker that has been woken: unlink the first
        item if there is one; an emptied queue gets its tail back. */
    method Dequeue() returns (work: Work?)
      requires Valid()
      modifies this
      ensures Valid()
      ensures if old(Jobs()) == [] then work == null && Jobs() == [] && nodes == old(nodes)
              else work != null && [work] + nodes == old(nodes) && [work.job] + Jobs() == old(Jobs())
    {
      work := list;
      if work != null {
        pending := pending - 1;
        list := work.next;
        if list == null {
          tail := null;
        }
        ghost var was := nodes;
        nodes := nodes[1..];
        assert forall i | 0 <= i < |nodes| :: nodes[i] == was[i + 1];
      }
    }
  }
}
