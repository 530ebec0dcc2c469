/** A slab pool shared by any number of threads: _GetNode (for one node),
    _PoolAlloc, _PoolFree, _PoolDiscard and the growing of the pool in
    _PoolAlloc/_NewSlab, from src/memmgr/slab.c.

    A step of the machine executes one statement of one thread. Inside a
    critical section every access to shared memory is a step of its own;
    reads of `pool->slabList` and `slab->next` take no lock, as in the source.
    Carving a new slab touches memory no other thread can reach, so it is one
    step up to the two statements that publish the slab. */
module SlabPool {
  import opened Basics
  import opened NodeLists

  datatype Node = Node(slab: nat, idx: nat)

  /** Which list of a slab: prepared nodes or unprepared ones. */
  datatype Which = Free | Alloc

  datatype List = List(lock: Option<nat>, head: Word, count: int)

  /** `word[n]` and `owned[n]` are the union word of node n and whether its
      pool pointer is set. */
  datatype Slab = Slab(next: Option<nat>, word: seq<Word>, owned: seq<bool>, free: List, alloc: List) {
    function At(k: Which): List {
      if k.Free? then free else alloc
    }

    function With(k: Which, l: List): Slab {
      if k.Free? then this.(free := l) else this.(alloc := l)
    }

    predicate HasNode(n: nat) {
      n < |word| && n < |owned|
    }
  }

  /** The next statement of a thread, with its local variables. */
  datatype PC =
    | Idle
    // _PoolAlloc: the scan of the slabs
    | ScanTop
    | Acq(k: Which, i: nat)               // acquire the list lock
    | Test(k: Which, i: nat)              // any nodes?
    | Head(k: Which, i: nat)              // node = list
    | Own(k: Which, i: nat, n: nat)       // node->pool = pool
    | Dec(k: Which, i: nat, n: nat)       // nodes--
    | Unlink(k: Which, i: nat, n: nat)    // list = node->next
    | TagNode(k: Which, i: nat, n: nat)   // node->slab = slab
    | RelGot(k: Which, i: nat, n: nat)    // release with a node in hand
    | Prepare(i: nat, n: nat)             // prepareCB
    | Rel(k: Which, i: nat)               // release without a node
    | ScanNext(i: nat)                    // slab = slab->next
    // _PoolFree and _PoolDiscard
    | ReadTag(k: Which, i: nat, n: nat)   // slab = node->slab, freeCB
    | PutAcq(k: Which, i: nat, n: nat)
    | PutOwn(k: Which, i: nat, n: nat)    // node->pool = NULL
    | PutNext(k: Which, i: nat, n: nat)   // node->next = list
    | PutHead(k: Which, i: nat, n: nat)   // list = node
    | PutCount(k: Which, i: nat)          // nodes++
    | PutRel(k: Which, i: nat)
    // _PoolAlloc: growing the pool
    | PoolAcq
    | PoolTest
    | WaitTest | WaitRel | WaitAcq
    | GrowSet | GrowRel
    | Carve                               // _NewSlab up to linking
    | LinkSlab(i: nat)                    // slab->next = pool->slabList
    | Publish(i: nat)                     // pool->slabList = slab
    | Bump                                // pool->slabs++
    | PoolReacq | GrowClear
    | PoolRel
    // a node handed back did not carry its slab's address
    | Crashed

  /** `held` records what the callers hold, with multiplicity. */
  datatype Pool = Pool(
    prepare: bool,
    slabs: seq<Slab>,
    slabList: Option<nat>,
    slabCount: int,
    lock: Option<nat>,
    growing: bool,
    held: multiset<Node>,
    pcs: seq<PC>)

  datatype Request = Get | Put(k: Which, node: Node)

  /** What the environment decides in one step: the request of an idle thread,
      and whether the system has memory for a slab and for how many nodes. */
  datatype Choice = Choice(request: Request, memory: bool, nodes: nat)

  ghost predicate Init(s: Pool) {
    && s.slabs == [] && s.slabList == None && s.slabCount == 0 && s.lock == None && !s.growing && s.held == multiset{}
    && forall t | 0 <= t < |s.pcs| :: s.pcs[t] == Idle
  }

  predicate SlabExists(s: Pool, i: nat, n: nat) {
    i < |s.slabs| && s.slabs[i].HasNode(n)
  }

  /** A thread can move unless it waits for a lock; client discipline: only
      held nodes are put back, and a slab has at least one node. */
  predicate CanRun(s: Pool, pc: PC, c: Choice) {
    match pc
    case Idle => c.request.Put? ==> c.request.node in s.held
    case Acq(k, i) => i < |s.slabs| && s.slabs[i].At(k).lock == None
    case Test(k, i) => i < |s.slabs|
    case Head(k, i) => i < |s.slabs|
    case Own(k, i, n) => SlabExists(s, i, n)
    case Dec(k, i, n) => SlabExists(s, i, n)
    case Unlink(k, i, n) => SlabExists(s, i, n)
    case TagNode(k, i, n) => SlabExists(s, i, n)
    case RelGot(k, i, n) => SlabExists(s, i, n)
    case Rel(k, i) => i < |s.slabs|
    case ScanNext(i) => i < |s.slabs|
    case ReadTag(k, i, n) => SlabExists(s, i, n)
    case PutAcq(k, i, n) => SlabExists(s, i, n) && s.slabs[i].At(k).lock == None
    case PutOwn(k, i, n) => SlabExists(s, i, n)
    case PutNext(k, i, n) => SlabExists(s, i, n)
    case PutHead(k, i, n) => SlabExists(s, i, n)
    case PutCount(k, i) => i < |s.slabs|
    case PutRel(k, i) => i < |s.slabs|
    case PoolAcq => s.lock == None
    case WaitAcq => s.lock == None
    case PoolReacq => s.lock == None
    case Carve => c.nodes >= 1
    case LinkSlab(i) => i < |s.slabs|
    case Crashed => false
    case _ => true
  }

  predicate Enabled(s: Pool, t: nat, c: Choice) {
    t < |s.pcs| && CanRun(s, s.pcs[t], c)
  }

  /** A fresh slab: every node links to its successor and the last to nothing;
      all of them are on one list. */
  function Carved(i: nat, nodes: nat, prepare: bool): Slab
    requires nodes >= 1
  {
    var full, empty := List(None, NodePtr(i, 0), nodes), List(None, Null, 0);
    Slab(
      None,
      seq(nodes, (l: nat) => if l + 1 < nodes then NodePtr(i, l + 1) else Null),
      seq(nodes, _ => false),
      if prepare then empty else full,
      if prepare then full else empty)
  }

  /** The statement at `pc` as an update of slab i, for the statements that
      touch exactly one slab. */
  function OnSlab(sl: Slab, t: nat, pc: PC): Slab
    requires pc.Own? || pc.Dec? || pc.Unlink? || pc.TagNode? || pc.RelGot? ==> sl.HasNode(pc.n)
    requires pc.PutOwn? || pc.PutNext? || pc.PutHead? ==> sl.HasNode(pc.n)
  {
    match pc
    case Acq(k, _) => sl.With(k, sl.At(k).(lock := Some(t)))
    case Own(_, _, n) => sl.(owned := sl.owned[n := true])
    case Dec(k, _, _) => sl.With(k, sl.At(k).(count := sl.At(k).count - 1))
    case Unlink(k, _, n) => sl.With(k, sl.At(k).(head := sl.word[n]))
    case TagNode(_, i, n) => sl.(word := sl.word[n := SlabPtr(i)])
    case RelGot(k, _, _) => sl.With(k, sl.At(k).(lock := None))
    case Rel(k, _) => sl.With(k, sl.At(k).(lock := None))
    case PutAcq(k, _, _) => sl.With(k, sl.At(k).(lock := Some(t)))
    case PutOwn(_, _, n) => sl.(owned := sl.owned[n := false])
    case PutNext(k, _, n) => sl.(word := sl.word[n := sl.At(k).head])
    case PutHead(k, i, n) => sl.With(k, sl.At(k).(head := NodePtr(i, n)))
    case PutCount(k, _) => sl.With(k, sl.At(k).(count := sl.At(k).count + 1))
    case PutRel(k, _) => sl.With(k, sl.At(k).(lock := None))
    case _ => sl
  }

  /** The slab the statement at `pc` works on. */
  function Site(pc: PC): Option<nat> {
    match pc
    case Acq(_, i) => Some(i)
    case Test(_, i) => Some(i)
    case Head(_, i) => Some(i)
    case Own(_, i, _) => Some(i)
    case Dec(_, i, _) => Some(i)
    case Unlink(_, i, _) => Some(i)
    case TagNode(_, i, _) => Some(i)
    case RelGot(_, i, _) => Some(i)
    case Rel(_, i) => Some(i)
    case ScanNext(i) => Some(i)
    case ReadTag(_, i, _) => Some(i)
    case PutAcq(_, i, _) => Some(i)
    case PutOwn(_, i, _) => Some(i)
    case PutNext(_, i, _) => Some(i)
    case PutHead(_, i, _) => Some(i)
    case PutCount(_, i) => Some(i)
    case PutRel(_, i) => Some(i)
    case _ => None
  }

  function Scan(from: Option<nat>): PC {
    if from.Some? then Acq(Free, from.value) else PoolAcq
  }

  /** Where the thread goes after a statement on slab `sl`. */
  function AfterSlab(sl: Slab, prepare: bool, pc: PC): PC
    requires Site(pc).Some?
    requires pc.ReadTag? ==> sl.HasNode(pc.n)
  {
    match pc
    case Acq(k, i) => Test(k, i)
    case Test(k, i) => if sl.At(k).count != 0 then Head(k, i) else Rel(k, i)
    case Head(k, i) =>
      (match sl.At(k).head
       case Null => Rel(k, i)
       case NodePtr(j, n) => if j == i && sl.HasNode(n) then Own(k, i, n) else Crashed
       case SlabPtr(_) => Crashed)
    case Own(k, i, n) => Dec(k, i, n)
    case Dec(k, i, n) => Unlink(k, i, n)
    case Unlink(k, i, n) => TagNode(k, i, n)
    case TagNode(k, i, n) => RelGot(k, i, n)
    case RelGot(k, i, n) => if k.Alloc? then Prepare(i, n) else Idle
    case Rel(k, i) => if k.Free? && prepare then Acq(Alloc, i) else ScanNext(i)
    case ScanNext(i) => Scan(sl.next)
    case ReadTag(k, i, n) => if sl.word[n] == SlabPtr(i) then PutAcq(k, i, n) else Crashed
    case PutAcq(k, i, n) => PutOwn(k, i, n)
    case PutOwn(k, i, n) => PutNext(k, i, n)
    case PutNext(k, i, n) => PutHead(k, i, n)
    case PutHead(k, i, n) => PutCount(k, i)
    case PutCount(k, i) => PutRel(k, i)
    case _ => Idle
  }

  /** The node that the statement at `pc` hands to its caller. */
  function HandedOut(pc: PC): Option<Node> {
    match pc
    case RelGot(k, i, n) => if k.Free? then Some(Node(i, n)) else None
    case Prepare(i, n) => Some(Node(i, n))
    case _ => None
  }

  /** The statements of the growth protocol. */
  predicate Grows(pc: PC) {
    pc.PoolAcq? || pc.PoolTest? || pc.WaitTest? || pc.WaitRel? || pc.WaitAcq? || pc.GrowSet? || pc.GrowRel? || pc.Carve?
    || pc.LinkSlab? || pc.Publish? || pc.Bump? || pc.PoolReacq? || pc.GrowClear? || pc.PoolRel?
  }

  /** One statement of the growth protocol: the pool's new fields (its program
      counters aside) and the next statement. */
  function OnPool(s: Pool, t: nat, pc: PC, c: Choice): (Pool, PC)
    requires Grows(pc) && CanRun(s, pc, c)
  {
    match pc
    case PoolAcq => (s.(lock := Some(t)), PoolTest)
    case PoolTest => (s, if s.growing then WaitTest else GrowSet)
    case WaitTest => (s, if s.growing then WaitRel else PoolRel)
    case WaitRel => (s.(lock := None), WaitAcq)
    case WaitAcq => (s.(lock := Some(t)), WaitTest)
    case GrowSet => (s.(growing := true), GrowRel)
    case GrowRel => (s.(lock := None), Carve)
    case Carve =>
      if c.memory then (s.(slabs := s.slabs + [Carved(|s.slabs|, c.nodes, s.prepare)]), LinkSlab(|s.slabs|))
      else (s, PoolReacq)
    case LinkSlab(i) => (s.(slabs := s.slabs[i := s.slabs[i].(next := s.slabList)]), Publish(i))
    case Publish(i) => (s.(slabList := Some(i)), Bump)
    case Bump => (s.(slabCount := s.slabCount + 1), PoolReacq)
    case PoolReacq => (s.(lock := Some(t)), GrowClear)
    case GrowClear => (s.(growing := false), PoolRel)
    case PoolRel => (s.(lock := None), ScanTop)
  }

  /** The statement of thread t. */
  function Exec(s: Pool, t: nat, c: Choice): Pool
    requires Enabled(s, t, c)
  {
    var pc := s.pcs[t];
    var held := if HandedOut(pc).Some? then s.held + multiset{HandedOut(pc).value} else s.held;
    if Site(pc).Some? then
      var i := Site(pc).value;
      s.(slabs := s.slabs[i := OnSlab(s.slabs[i], t, pc)], held := held,
         pcs := s.pcs[t := AfterSlab(s.slabs[i], s.prepare, pc)])
    else if Grows(pc) then
      var (s', pc') := OnPool(s, t, pc, c);
      s'.(pcs := s.pcs[t := pc'])
    else
      match pc
      case Idle =>
        (match c.request
         case Get => s.(pcs := s.pcs[t := ScanTop])
         case Put(k, node) => s.(held := s.held - multiset{node}, pcs := s.pcs[t := ReadTag(k, node.slab, node.idx)]))
      case ScanTop => s.(pcs := s.pcs[t := Scan(s.slabList)])
      case Prepare(_, _) => s.(held := held, pcs := s.pcs[t := Idle])
      case _ => s
  }

  ghost predicate StepOf(s: Pool, s': Pool, t: nat, c: Choice) {
    Enabled(s, t, c) && s' == Exec(s, t, c)
  }

  ghost predicate Next(s: Pool, s': Pool) {
    exists t: nat, c: Choice :: StepOf(s, s', t, c)
  }

  ghost predicate IsRun(run: seq<Pool>) {
    |run| > 0 && Init(run[0]) && forall i | 0 <= i < |run| - 1 :: Next(run[i], run[i + 1])
  }
}
