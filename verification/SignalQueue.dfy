/** Signalling, catching and joining one thread handle concurrently
    (src/memmgr/thread.c). A program counter names the statement an actor
    executes next; the slots are touched only under the mutex of the signal
    lock, so a scan or a shift of them is one step. */
module SignalQueue {
  import opened Basics
  import opened Counting
  import opened SignalSlots

  datatype PC =
    | Idle
    // XplThreadSignal
    | SigLock(signal: int, context: int)
    | SigScan(signal: int, context: int)
    | SigUnlock              // stored: unlock, then post
    | SigPost
    | SigFull                // no empty slot: unlock and fail
    // XplThreadCatch
    | CatchWait
    | CatchLock              // holds a token
    | CatchGet
    | CatchUnlock(caught: Entry)
    // XplThreadJoin
    | JoinWait
    | JoinLock               // holds a token
    | JoinTest
    | JoinUnlock             // still running: unlock, then post the token back
    | JoinPost
    | JoinLeave              // not running: unlock and return, keeping the token

  /** The shared fields, and what has gone in and out so far. `joins` counts
      the joins that returned, `lost` the posts that failed. */
  datatype Fields = Fields(slots: Slots, tokens: nat, locked: bool, running: bool,
                           accepted: seq<Entry>, delivered: seq<Entry>, joins: nat, lost: nat)

  datatype Handle = Handle(f: Fields, pcs: seq<PC>)

  datatype Call = CallSignal(signal: int, context: int) | CallCatch | CallJoin | StopRunning

  /** The environment picks an idle actor's next call, whether a wait runs out
      of time, and whether a post succeeds. */
  datatype Choice = Choice(call: Call, timeout: bool, postOk: bool)

  ghost predicate Init(s: Handle) {
    && s.f == Fields(EMPTY, 0, false, true, [], [], 0, 0)
    && forall t | 0 <= t < |s.pcs| :: s.pcs[t] == Idle
  }

  predicate CanRun(f: Fields, pc: PC, c: Choice) {
    match pc
    case CatchWait => c.timeout || f.tokens > 0
    case JoinWait => c.timeout || f.tokens > 0
    case SigLock(_, _) => !f.locked
    case CatchLock => !f.locked
    case JoinLock => !f.locked
    case _ => true
  }

  function Post(f: Fields, ok: bool): Fields {
    if ok then f.(tokens := f.tokens + 1) else f.(lost := f.lost + 1)
  }

  function Wait(f: Fields, c: Choice, got: PC): (Fields, PC)
    requires c.timeout || f.tokens > 0
  {
    if c.timeout then (f, Idle) else (f.(tokens := f.tokens - 1), got)
  }

  function Scan(f: Fields, entry: Entry): (Fields, PC)
    requires Shape(f.slots)
  {
    if FirstZero(f.slots.signals) < MAX_SIGNAL_STACK
    then (f.(slots := Pushed(f.slots, entry.0, entry.1), accepted := f.accepted + [entry]), SigUnlock)
    else (f, SigFull)
  }

  /** _GetSignal; an empty first slot gives signal 0. */
  function Get(f: Fields): (Fields, PC)
    requires Shape(f.slots)
  {
    if f.slots.signals[0] == 0 then (f, CatchUnlock((0, 0)))
    else
      var entry := (f.slots.signals[0], f.slots.contexts[0]);
      (f.(slots := Popped(f.slots), delivered := f.delivered + [entry]), CatchUnlock(entry))
  }

  function Local(f: Fields, pc: PC, c: Choice): (Fields, PC)
    requires Shape(f.slots) && CanRun(f, pc, c)
  {
    match pc
    case Idle =>
      (match c.call
       case CallSignal(signal, context) => (f, if signal == 0 then Idle else SigLock(signal, context))
       case CallCatch => (f, CatchWait)
       case CallJoin => (f, JoinWait)
       case StopRunning => (f.(running := false), Idle))
    case SigLock(signal, context) => (f.(locked := true), SigScan(signal, context))
    case SigScan(signal, context) => Scan(f, (signal, context))
    case SigUnlock => (f.(locked := false), SigPost)
    case SigPost => (Post(f, c.postOk), Idle)
    case SigFull => (f.(locked := false), Idle)
    case CatchWait => Wait(f, c, CatchLock)
    case CatchLock => (f.(locked := true), CatchGet)
    case CatchGet => Get(f)
    case CatchUnlock(_) => (f.(locked := false), Idle)
    case JoinWait => Wait(f, c, JoinLock)
    case JoinLock => (f.(locked := true), JoinTest)
    case JoinTest => if f.running then (f, JoinUnlock) else (f.(joins := f.joins + 1), JoinLeave)
    case JoinUnlock => (f.(locked := false), JoinPost)
    case JoinPost => (Post(f, c.postOk), JoinWait)
    case JoinLeave => (f.(locked := false), Idle)
  }

  ghost predicate StepOf(s: Handle, s': Handle, t: nat, c: Choice) {
    && t < |s.pcs| && Shape(s.f.slots) && CanRun(s.f, s.pcs[t], c)
    && s' == Handle(Local(s.f, s.pcs[t], c).0, s.pcs[t := Local(s.f, s.pcs[t], c).1])
  }

  ghost predicate Next(s: Handle, s': Handle) {
    exists t: nat, c: Choice :: StepOf(s, s', t, c)
  }

  /** A run: any interleaving of any number of actors. */
  ghost predicate IsRun(run: seq<Handle>) {
    |run| > 0 && Init(run[0]) && forall i | 0 <= i < |run| - 1 :: Next(run[i], run[i + 1])
  }

  // ----- what an actor holds

  predicate HoldsMutex(pc: PC) {
    pc.SigScan? || pc.SigUnlock? || pc.SigFull? || pc.CatchGet? || pc.CatchUnlock? || pc.JoinTest? || pc.JoinUnlock?
        || pc.JoinLeave?
  }

  predicate HoldsToken(pc: PC) {
    pc.CatchLock? || pc.CatchGet? || pc.JoinLock? || pc.JoinTest?
  }

  predicate OwesPost(pc: PC) {
    pc.SigUnlock? || pc.SigPost? || pc.JoinUnlock? || pc.JoinPost?
  }

  // ----- the invariant

  predicate PcInv(f: Fields, pc: PC) {
    && (pc.SigLock? || pc.SigScan? ==> pc.signal != 0)
    && (pc.CatchUnlock? ==> pc.caught.0 != 0 && f.delivered != [] && f.delivered[|f.delivered| - 1] == pc.caught)
  }

  ghost predicate TokensBalance(s: Handle)
    requires Shape(s.f.slots)
  {
    |Queue(s.f.slots)| == s.f.tokens + Count(s.pcs, HoldsToken) + Count(s.pcs, OwesPost) + s.f.joins + s.f.lost
  }

  predicate InOrder(f: Fields)
    requires Shape(f.slots)
  {
    f.accepted == f.delivered + Queue(f.slots)
  }

  ghost predicate Inv(s: Handle) {
    && Valid(s.f.slots)
    && One(s.f.locked) == Count(s.pcs, HoldsMutex)
    && TokensBalance(s)
    && InOrder(s.f)
    && (forall t | 0 <= t < |s.pcs| :: PcInv(s.f, s.pcs[t]))
  }

  /** What holds in every state: the nonzero slots form a prefix; every queued
      signal has its token, in the semaphore, in some actor's hands or still to
      be posted, apart from those whose token a join has kept or a post has
      lost; what was accepted is what was delivered, in order, followed by what
      is queued; no catch sees signal 0, and each sees the signal delivered
      last; and one actor at most touches the slots. */
  ghost predicate Safe(s: Handle) {
    && Valid(s.f.slots)
    && TokensBalance(s)
    && InOrder(s.f)
    && (forall t | 0 <= t < |s.pcs| && s.pcs[t].CatchUnlock? ::
          s.pcs[t].caught.0 != 0 && s.f.delivered != [] && s.pcs[t].caught == s.f.delivered[|s.f.delivered| - 1])
    && (forall t, u | 0 <= t < u < |s.pcs| && HoldsMutex(s.pcs[t]) :: !HoldsMutex(s.pcs[u]))
  }

  lemma {:induction false} InitInv(s: Handle)
    requires Init(s)
    ensures Inv(s)
  {
    EmptyIsEmpty();
    CountNone(s.pcs, HoldsMutex);
    CountNone(s.pcs, HoldsToken);
    CountNone(s.pcs, OwesPost);
  }

  // ----- one statement

  lemma {:induction false} LocalTokens(f: Fields, pc: PC, c: Choice)
    requires Shape(f.slots) && CanRun(f, pc, c) && !pc.SigScan? && !pc.CatchGet?
    ensures var (f', pc') := Local(f, pc, c);
            && f'.slots == f.slots && f'.accepted == f.accepted && f'.delivered == f.delivered
            && f'.tokens + f'.joins + f'.lost + One(HoldsToken(pc')) + One(OwesPost(pc'))
               == f.tokens + f.joins + f.lost + One(HoldsToken(pc)) + One(OwesPost(pc))
  {
    hide Shape, Pushed, Popped;
  }

  lemma {:induction false} ScanAccepts(f: Fields, entry: Entry)
    requires Valid(f.slots) && entry.0 != 0 && InOrder(f)
    ensures var (f', pc') := Scan(f, entry);
            && Valid(f'.slots) && InOrder(f') && f'.delivered == f.delivered
            && f' == f.(slots := f'.slots, accepted := f'.accepted)
            && (if |Queue(f.slots)| < MAX_SIGNAL_STACK
                then pc' == SigUnlock && Queue(f'.slots) == Queue(f.slots) + [entry]
                else pc' == SigFull && f' == f)
  {
    PushAppends(f.slots, entry.0, entry.1);
    assert f.delivered + (Queue(f.slots) + [entry]) == f.delivered + Queue(f.slots) + [entry];
  }

  lemma {:induction false} GetDelivers(f: Fields)
    requires Valid(f.slots) && Queue(f.slots) != [] && InOrder(f)
    ensures var (f', pc') := Get(f);
            var entry := Queue(f.slots)[0];
            && Valid(f'.slots) && InOrder(f') && entry.0 != 0
            && f' == f.(slots := f'.slots, delivered := f.delivered + [entry])
            && pc' == CatchUnlock(entry) && Queue(f'.slots) == Queue(f.slots)[1..]
  {
    PopDropsHead(f.slots);
    var q := Queue(f.slots);
    assert f.delivered + q == f.delivered + [q[0]] + q[1..];
  }

  /** What one statement does to the queue, the tokens and the log, given that
      a catcher under the lock finds the queue nonempty. */
  lemma {:induction false} LocalBalance(f: Fields, pc: PC, c: Choice)
    requires Valid(f.slots) && CanRun(f, pc, c) && PcInv(f, pc) && InOrder(f)
    requires pc.CatchGet? ==> Queue(f.slots) != []
    ensures var (f', pc') := Local(f, pc, c);
            && Valid(f'.slots) && PcInv(f', pc') && InOrder(f')
            && |Queue(f'.slots)| - |Queue(f.slots)|
               == f'.tokens - f.tokens + One(HoldsToken(pc')) - One(HoldsToken(pc))
                + One(OwesPost(pc')) - One(OwesPost(pc)) + f'.joins - f.joins + f'.lost - f.lost
            && (f'.delivered == f.delivered || pc.CatchGet?)
  {
    if pc.SigScan? {
      ScanAccepts(f, (pc.signal, pc.context));
    } else if pc.CatchGet? {
      GetDelivers(f);
    } else {
      LocalTokens(f, pc, c);
    }
    hide Scan, Get, Valid, Queue, Pushed, Popped;
  }

  lemma {:induction false} LocalLock(f: Fields, pc: PC, c: Choice)
    requires Shape(f.slots) && CanRun(f, pc, c) && (HoldsMutex(pc) ==> f.locked)
    ensures var (f', pc') := Local(f, pc, c);
            One(f'.locked) - One(f.locked) == One(HoldsMutex(pc')) - One(HoldsMutex(pc))
  {
    hide Shape, Pushed, Popped;
  }

  /** An actor that holds a token finds a signal queued. */
  lemma {:induction false} TokenHasSignal(s: Handle, t: nat)
    requires Inv(s) && t < |s.pcs| && HoldsToken(s.pcs[t])
    ensures Queue(s.f.slots) != []
  {
    CountWitness(s.pcs, t, HoldsToken);
  }

  lemma {:induction false} OthersKeepPcInv(s: Handle, s': Handle, t: nat, c: Choice, u: nat)
    requires Inv(s) && StepOf(s, s', t, c) && u < |s.pcs| && u != t
    ensures PcInv(s'.f, s'.pcs[u])
  {
    assert PcInv(s.f, s.pcs[u]) && s'.pcs[u] == s.pcs[u];
    if s.pcs[t].CatchGet? {
      CountAlone(s.pcs, t, u, HoldsMutex);
    } else {
      if HoldsToken(s.pcs[t]) { TokenHasSignal(s, t); }
      LocalBalance(s.f, s.pcs[t], c);
    }
    hide Local, Valid, Inv;
  }

  lemma {:induction false} StepKeepsInv(s: Handle, s': Handle, t: nat, c: Choice)
    requires Inv(s) && StepOf(s, s', t, c)
    ensures Inv(s')
  {
    var pc := s.pcs[t];
    var pc' := Local(s.f, pc, c).1;
    if HoldsMutex(pc) { CountWitness(s.pcs, t, HoldsMutex); }
    if HoldsToken(pc) { TokenHasSignal(s, t); }
    CountUpdate(s.pcs, t, pc', HoldsMutex);
    CountUpdate(s.pcs, t, pc', HoldsToken);
    CountUpdate(s.pcs, t, pc', OwesPost);
    LocalBalance(s.f, pc, c);
    LocalLock(s.f, pc, c);
    forall u | 0 <= u < |s.pcs| ensures PcInv(s'.f, s'.pcs[u]) {
      if u != t { OthersKeepPcInv(s, s', t, c, u); }
    }
    hide Local, Valid, HoldsMutex, HoldsToken, OwesPost, PcInv, InOrder, Queue;
  }

  lemma {:induction false} InvIsSafe(s: Handle)
    requires Inv(s)
    ensures Safe(s)
  {
    forall t, u | 0 <= t < u < |s.pcs| && HoldsMutex(s.pcs[t]) ensures !HoldsMutex(s.pcs[u]) {
      CountAlone(s.pcs, t, u, HoldsMutex);
    }
    assert forall t | 0 <= t < |s.pcs| :: PcInv(s.f, s.pcs[t]);
    hide HoldsMutex, Valid, TokensBalance, InOrder;
  }

  // ----- the main results

  lemma {:induction false} RunKeepsInv(run: seq<Handle>, i: nat)
    requires IsRun(run) && i < |run|
    ensures Inv(run[i])
  {
    hide Inv, Init, StepOf;
    if i == 0 {
      InitInv(run[0]);
    } else {
      RunKeepsInv(run, i - 1);
      assert Next(run[i - 1], run[i - 1 + 1]);
      var t: nat, c :| StepOf(run[i - 1], run[i], t, c);
      StepKeepsInv(run[i - 1], run[i], t, c);
    }
  }

  /** Every state of every run of any number of actors is safe. */
  lemma {:induction false} EveryRunIsSafe(run: seq<Handle>, i: nat)
    requires IsRun(run) && i < |run|
    ensures Safe(run[i])
  {
    RunKeepsInv(run, i);
    InvIsSafe(run[i]);
  }

  /** A signal that arrives when all slots are taken is rejected and changes
      nothing; otherwise it is queued last. */
  lemma {:induction false} FullQueueRejects(run: seq<Handle>, i: nat, t: nat)
    requires IsRun(run) && i < |run| && t < |run[i].pcs| && run[i].pcs[t].SigScan?
    ensures Shape(run[i].f.slots)
    ensures var f, pc := run[i].f, run[i].pcs[t];
            var (f', pc') := Scan(f, (pc.signal, pc.context));
            if |Queue(f.slots)| == MAX_SIGNAL_STACK then f' == f && pc' == SigFull
            else Valid(f'.slots) && Queue(f'.slots) == Queue(f.slots) + [(pc.signal, pc.context)] && pc' == SigUnlock
  {
    RunKeepsInv(run, i);
    assert PcInv(run[i].f, run[i].pcs[t]);
    ScanAccepts(run[i].f, (run[i].pcs[t].signal, run[i].pcs[t].context));
  }

  /** Signals are delivered in the order in which they were accepted. */
  lemma {:induction false} DeliveredInOrder(run: seq<Handle>, i: nat)
    requires IsRun(run) && i < |run|
    ensures run[i].f.delivered <= run[i].f.accepted
  {
    RunKeepsInv(run, i);
  }

  /** When no call is under way, exactly as many queued signals are out of
      reach, with no token to catch them by, as joins have returned and posts
      have failed. */
  lemma {:induction false} StrandedExactly(run: seq<Handle>, i: nat)
    requires IsRun(run) && i < |run| && forall t | 0 <= t < |run[i].pcs| :: run[i].pcs[t] == Idle
    ensures Shape(run[i].f.slots) && |Queue(run[i].f.slots)| - run[i].f.tokens == run[i].f.joins + run[i].f.lost
  {
    RunKeepsInv(run, i);
    CountNone(run[i].pcs, HoldsToken);
    CountNone(run[i].pcs, OwesPost);
  }
}
