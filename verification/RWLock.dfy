/** The readers/writer lock of src/xpl/rwlock.c.

    A call of one of the four operations is broken into the statements that
    touch shared state; `PC` names the statement a thread executes next. A
    step of the machine executes one statement of one thread. The number of
    threads is arbitrary. */
module RWLock {
  import opened Counting

  datatype Mode = READ | WRITE

  datatype PC =
    | Idle
    // XplRWReadLockAcquire
    | ReadGate          // wait for the gate
    | ReadUngate        // post the gate
    | ReadMutex         // wait for the reader mutex
    | ReadRegister      // count this reader
    | ReadTest          // is this the first reader?
    | ReadFirst         // the first reader waits for the read/write token
    | ReadSetMode
    | ReadUnmutex       // post the reader mutex
    | Reading           // the caller holds the lock for reading
    // XplRWReadLockRelease
    | RelMutex
    | RelUnregister
    | RelTest           // was this the last reader?
    | RelPost           // the last reader posts the read/write token
    | RelRollback       // the post failed: count the reader again
    | RelUndo           // and post the reader mutex
    | RelSetMode
    | RelUnmutex
    // XplRWWriteLockAcquire
    | WriteGate
    | WriteWait
    | WriteSetMode
    | Writing           // the caller holds the lock for writing
    // XplRWWriteLockRelease
    | WRelPost
    | WRelGate

  /** The shared fields of the lock. */
  datatype Fields = Fields(gate: nat, mutexRead: nat, mutexReadWrite: nat, readers: int, mode: Mode)

  /** The lock and the program counter of every thread. */
  datatype Lock = Lock(f: Fields, pcs: seq<PC>)

  /** What the environment decides in one step: which lock an idle thread asks
      for, and whether a semaphore post succeeds. */
  datatype Choice = Choice(write: bool, postOk: bool)

  ghost predicate Init(s: Lock) {
    && s.f.gate == s.f.mutexRead == s.f.mutexReadWrite == 1
    && s.f.readers == 0
    && forall t | 0 <= t < |s.pcs| :: s.pcs[t] == Idle
  }

  /** A thread is blocked only at a wait whose semaphore is zero. */
  predicate CanRun(f: Fields, pc: PC) {
    match pc
    case ReadGate => f.gate > 0
    case WriteGate => f.gate > 0
    case ReadMutex => f.mutexRead > 0
    case RelMutex => f.mutexRead > 0
    case ReadFirst => f.mutexReadWrite > 0
    case WriteWait => f.mutexReadWrite > 0
    case _ => true
  }

  predicate Enabled(s: Lock, t: nat) {
    t < |s.pcs| && CanRun(s.f, s.pcs[t])
  }

  function Posted(ok: bool): nat {
    if ok then 1 else 0
  }

  /** One statement of one thread: the new fields and the next statement. Only
      two posts have their result checked by the source: the last reader's and
      the releasing writer's post of the read/write token. A failed unchecked
      post loses the token. */
  function Local(f: Fields, pc: PC, c: Choice): (Fields, PC)
    requires CanRun(f, pc)
  {
    match pc
    case Idle => (f, if c.write then WriteGate else ReadGate)
    case ReadGate => (f.(gate := f.gate - 1), ReadUngate)
    case ReadUngate => (f.(gate := f.gate + Posted(c.postOk)), ReadMutex)
    case ReadMutex => (f.(mutexRead := f.mutexRead - 1), ReadRegister)
    case ReadRegister => (f.(readers := f.readers + 1), ReadTest)
    case ReadTest => (f, if f.readers == 1 then ReadFirst else ReadSetMode)
    case ReadFirst => (f.(mutexReadWrite := f.mutexReadWrite - 1), ReadSetMode)
    case ReadSetMode => (f.(mode := READ), ReadUnmutex)
    case ReadUnmutex => (f.(mutexRead := f.mutexRead + Posted(c.postOk)), Reading)
    case Reading => (f, RelMutex)
    case RelMutex => (f.(mutexRead := f.mutexRead - 1), RelUnregister)
    case RelUnregister => (f.(readers := f.readers - 1), RelTest)
    case RelTest => (f, if f.readers == 0 then RelPost else RelSetMode)
    case RelPost =>
      if c.postOk then (f.(mutexReadWrite := f.mutexReadWrite + 1), RelSetMode) else (f, RelRollback)
    case RelRollback => (f.(readers := f.readers + 1), RelUndo)
    case RelUndo => (f.(mutexRead := f.mutexRead + Posted(c.postOk)), Reading)
    case RelSetMode => (f.(mode := READ), RelUnmutex)
    case RelUnmutex => (f.(mutexRead := f.mutexRead + Posted(c.postOk)), Idle)
    case WriteGate => (f.(gate := f.gate - 1), WriteWait)
    case WriteWait => (f.(mutexReadWrite := f.mutexReadWrite - 1), WriteSetMode)
    case WriteSetMode => (f.(mode := WRITE), Writing)
    case Writing => (f, WRelPost)
    case WRelPost =>
      if c.postOk then (f.(mutexReadWrite := f.mutexReadWrite + 1), WRelGate) else (f, Writing)
    case WRelGate => (f.(gate := f.gate + Posted(c.postOk)), Idle)
  }

  function Exec(s: Lock, t: nat, c: Choice): Lock
    requires Enabled(s, t)
  {
    var (f, pc) := Local(s.f, s.pcs[t], c);
    Lock(f, s.pcs[t := pc])
  }

  ghost predicate StepOf(s: Lock, s': Lock, t: nat, c: Choice) {
    Enabled(s, t) && s' == Exec(s, t, c)
  }

  ghost predicate Next(s: Lock, s': Lock) {
    exists t: nat, c: Choice :: StepOf(s, s', t, c)
  }

  /** A run: an initial state followed by any interleaving of steps. */
  ghost predicate IsRun(run: seq<Lock>) {
    |run| > 0 && Init(run[0]) && forall i | 0 <= i < |run| - 1 :: Next(run[i], run[i + 1])
  }

  // ----- who holds what, read off the program counters

  predicate HoldsGate(pc: PC) {
    pc.ReadUngate? || pc.WriteWait? || pc.WriteSetMode? || pc.Writing? || pc.WRelPost? || pc.WRelGate?
  }

  predicate HoldsMutex(pc: PC) {
    pc.ReadRegister? || pc.ReadTest? || pc.ReadFirst? || pc.ReadSetMode? || pc.ReadUnmutex? || pc.RelUnregister?
        || pc.RelTest? || pc.RelPost? || pc.RelRollback? || pc.RelUndo? || pc.RelSetMode? || pc.RelUnmutex?
  }

  /** A reader that the field RWReaders counts. */
  predicate Registered(pc: PC) {
    pc.ReadTest? || pc.ReadFirst? || pc.ReadSetMode? || pc.ReadUnmutex? || pc.Reading? || pc.RelMutex?
        || pc.RelUnregister? || pc.RelUndo?
  }

  /** A reader under whose feet the group of readers owns the read/write token. */
  predicate InGroup(pc: PC) {
    pc.ReadSetMode? || pc.ReadUnmutex? || pc.Reading? || pc.RelMutex? || pc.RelUnregister? || pc.RelTest? || pc.RelPost?
        || pc.RelRollback? || pc.RelUndo?
  }

  predicate HoldsToken(pc: PC) {
    pc.WriteSetMode? || pc.Writing? || pc.WRelPost?
  }

  predicate Inside(pc: PC) {
    pc.Reading? || pc.Writing?
  }

  function GroupToken(s: Lock): (n: nat)
  {
    if Count(s.pcs, InGroup) > 0 then 1 else 0
  }

  // ----- safety

  /** The inductive invariant of all runs, lost tokens included. */
  ghost predicate Inv(s: Lock) {
    && s.f.gate + Count(s.pcs, HoldsGate) <= 1
    && s.f.mutexRead + Count(s.pcs, HoldsMutex) <= 1
    && s.f.mutexReadWrite + Count(s.pcs, HoldsToken) + GroupToken(s) == 1
    && s.f.readers == Count(s.pcs, Registered)
    && (forall t | 0 <= t < |s.pcs| :: PcInv(s, s.pcs[t]))
  }

  predicate PcInv(s: Lock, pc: PC) {
    && (pc.ReadFirst? ==> s.f.readers == 1)
    && (pc.RelPost? || pc.RelRollback? ==> s.f.readers == 0)
    && (InGroup(pc) && !pc.ReadSetMode? ==> s.f.mode == READ)
  }

  /** What a client of the lock may rely on in one state. */
  ghost predicate Safe(s: Lock) {
    && (forall t, u | 0 <= t < |s.pcs| && 0 <= u < |s.pcs| && t != u && s.pcs[t] == Writing :: !Inside(s.pcs[u]))
    && (forall t | 0 <= t < |s.pcs| && s.pcs[t] == Reading :: s.f.mode == READ)
    && s.f.readers == Count(s.pcs, Registered)
    && s.f.gate <= 1 && s.f.mutexRead <= 1 && s.f.mutexReadWrite <= 1
  }

  lemma {:induction false} InitInv(s: Lock)
    requires Init(s)
    ensures Inv(s)
  {
    CountNone(s.pcs, HoldsGate);
    CountNone(s.pcs, HoldsMutex);
    CountNone(s.pcs, HoldsToken);
    CountNone(s.pcs, InGroup);
    CountNone(s.pcs, Registered);
  }

  /** How every count moves when one thread moves. */
  lemma {:induction false} CountsMove(pcs: seq<PC>, t: nat, pc: PC)
    requires t < |pcs|
    ensures Count(pcs[t := pc], HoldsGate) == Count(pcs, HoldsGate) - Posted(HoldsGate(pcs[t])) + Posted(HoldsGate(pc))
    ensures Count(pcs[t := pc], HoldsMutex)
            == Count(pcs, HoldsMutex) - Posted(HoldsMutex(pcs[t])) + Posted(HoldsMutex(pc))
    ensures Count(pcs[t := pc], HoldsToken)
            == Count(pcs, HoldsToken) - Posted(HoldsToken(pcs[t])) + Posted(HoldsToken(pc))
    ensures Count(pcs[t := pc], InGroup) == Count(pcs, InGroup) - Posted(InGroup(pcs[t])) + Posted(InGroup(pc))
    ensures Count(pcs[t := pc], Registered)
            == Count(pcs, Registered) - Posted(Registered(pcs[t])) + Posted(Registered(pc))
  {
    CountUpdate(pcs, t, pc, HoldsGate);
    CountUpdate(pcs, t, pc, HoldsMutex);
    CountUpdate(pcs, t, pc, HoldsToken);
    CountUpdate(pcs, t, pc, InGroup);
    CountUpdate(pcs, t, pc, Registered);
  }

  /** One thread's membership forces the count above zero. */
  lemma {:induction false} CountsHere(pcs: seq<PC>, t: nat)
    requires t < |pcs|
    ensures HoldsGate(pcs[t]) ==> Count(pcs, HoldsGate) >= 1
    ensures HoldsMutex(pcs[t]) ==> Count(pcs, HoldsMutex) >= 1
    ensures HoldsToken(pcs[t]) ==> Count(pcs, HoldsToken) >= 1
    ensures InGroup(pcs[t]) ==> Count(pcs, InGroup) >= 1
    ensures Registered(pcs[t]) ==> Count(pcs, Registered) >= 1
  {
    if HoldsGate(pcs[t]) { CountWitness(pcs, t, HoldsGate); }
    if HoldsMutex(pcs[t]) { CountWitness(pcs, t, HoldsMutex); }
    if HoldsToken(pcs[t]) { CountWitness(pcs, t, HoldsToken); }
    if InGroup(pcs[t]) { CountWitness(pcs, t, InGroup); }
    if Registered(pcs[t]) { CountWitness(pcs, t, Registered); }
  }

  /** While a thread holds the reader mutex no other thread does. */
  lemma {:induction false} MutexAlone(s: Lock, t: nat, u: nat)
    requires Inv(s) && t < |s.pcs| && u < |s.pcs| && t != u && HoldsMutex(s.pcs[t])
    ensures !HoldsMutex(s.pcs[u])
  {
    if HoldsMutex(s.pcs[u]) {
      CountPair(s.pcs, if t < u then t else u, if t < u then u else t, HoldsMutex);
    }
  }

  /** A second registered reader found at line 85 is in the group already. */
  lemma {:induction false} SecondReaderFindsGroup(s: Lock, t: nat)
    requires Inv(s) && t < |s.pcs| && s.pcs[t] == ReadTest && s.f.readers != 1
    ensures Count(s.pcs, InGroup) >= 1
  {
    CountsHere(s.pcs, t);
    var u := CountFindOther(s.pcs, t, Registered);
    MutexAlone(s, t, u);
    CountsHere(s.pcs, u);
  }

  /** A first reader finds no group, so a group forms only by taking the token. */
  lemma {:induction false} FirstReaderFindsNoGroup(s: Lock, t: nat)
    requires Inv(s) && t < |s.pcs| && s.pcs[t] == ReadFirst
    ensures Count(s.pcs, InGroup) == 0
  {
    if Count(s.pcs, InGroup) >= 1 {
      var u := CountFind(s.pcs, InGroup);
      MutexAlone(s, t, u);
      CountPair(s.pcs, if t < u then t else u, if t < u then u else t, Registered);
    }
  }

  /** A last reader is the last of its group. */
  lemma {:induction false} LastReaderIsAlone(s: Lock, t: nat)
    requires Inv(s) && t < |s.pcs| && s.pcs[t] == RelPost
    ensures Count(s.pcs, InGroup) == 1
  {
    CountsHere(s.pcs, t);
    if Count(s.pcs, InGroup) >= 2 {
      var u := CountFindOther(s.pcs, t, InGroup);
      MutexAlone(s, t, u);
      CountsHere(s.pcs, u);
    }
  }

  /** A reader that leaves others behind leaves the group to them. */
  lemma {:induction false} OthersStayInGroup(s: Lock, t: nat)
    requires Inv(s) && t < |s.pcs| && s.pcs[t] == RelTest && s.f.readers != 0
    ensures Count(s.pcs, InGroup) >= 2
  {
    var u := CountFind(s.pcs, Registered);
    MutexAlone(s, t, u);
    CountPair(s.pcs, if t < u then t else u, if t < u then u else t, InGroup);
  }

  /** What one statement does to the semaphores balances what it does to the
      thread's own holdings. */
  lemma {:induction false} LocalBalance(f: Fields, pc: PC, c: Choice)
    requires CanRun(f, pc)
    ensures var (f', pc') := Local(f, pc, c);
            && f'.gate + Posted(HoldsGate(pc')) <= f.gate + Posted(HoldsGate(pc))
            && f'.mutexRead + Posted(HoldsMutex(pc')) <= f.mutexRead + Posted(HoldsMutex(pc))
            && f'.readers - f.readers == Posted(Registered(pc')) - Posted(Registered(pc))
  {
  }

  /** Only four statements change who is in the group of readers. */
  lemma {:induction false} LocalToken(f: Fields, pc: PC, c: Choice)
    requires CanRun(f, pc)
    ensures var (f', pc') := Local(f, pc, c);
            && (pc.ReadFirst? || pc.RelPost?
                || f'.mutexReadWrite + Posted(HoldsToken(pc')) == f.mutexReadWrite + Posted(HoldsToken(pc)))
            && (pc.ReadFirst? ==> f'.mutexReadWrite == f.mutexReadWrite - 1 && InGroup(pc') && !HoldsToken(pc'))
            && (pc.ReadTest? ==> InGroup(pc') == (f.readers != 1))
            && (pc.RelTest? ==> InGroup(pc') == (f.readers == 0))
            && (pc.RelPost? ==>
                InGroup(pc') == !c.postOk && !HoldsToken(pc')
                && f'.mutexReadWrite == f.mutexReadWrite + Posted(c.postOk))
            && (pc.ReadFirst? || pc.ReadTest? || pc.RelTest? || pc.RelPost? || InGroup(pc') == InGroup(pc))
  {
  }

  /** The read/write token is conserved: free, with a writer, or with the group. */
  lemma {:induction false} StepKeepsToken(s: Lock, t: nat, c: Choice)
    requires Inv(s) && Enabled(s, t)
    ensures var s' := Exec(s, t, c);
            s'.f.mutexReadWrite + Count(s'.pcs, HoldsToken) + GroupToken(s') == 1
  {
    var pc := s.pcs[t];
    LocalToken(s.f, pc, c);
    CountUpdate(s.pcs, t, Local(s.f, pc, c).1, HoldsToken);
    CountUpdate(s.pcs, t, Local(s.f, pc, c).1, InGroup);
    if pc.ReadTest? && s.f.readers != 1 {
      SecondReaderFindsGroup(s, t);
    } else if pc.ReadFirst? {
      FirstReaderFindsNoGroup(s, t);
    } else if pc.RelPost? {
      LastReaderIsAlone(s, t);
    } else if pc.RelTest? && s.f.readers != 0 {
      OthersStayInGroup(s, t);
    }
  }

  /** One step keeps the claim attached to each thread's program counter. */
  lemma {:induction false} StepKeepsPcs(s: Lock, t: nat, c: Choice, u: nat)
    requires Inv(s) && Enabled(s, t) && u < |s.pcs|
    ensures var s' := Exec(s, t, c); PcInv(s', s'.pcs[u])
  {
    var s' := Exec(s, t, c);
    CountsHere(s.pcs, t);
    CountsHere(s.pcs, u);
    if t != u && s'.f.readers != s.f.readers {
      MutexAlone(s, t, u);
    }
  }

  lemma {:induction false} StepKeepsInv(s: Lock, t: nat, c: Choice)
    requires Inv(s) && Enabled(s, t)
    ensures Inv(Exec(s, t, c))
  {
    LocalBalance(s.f, s.pcs[t], c);
    CountsMove(s.pcs, t, Local(s.f, s.pcs[t], c).1);
    StepKeepsToken(s, t, c);
    forall u | 0 <= u < |s.pcs|
      ensures PcInv(Exec(s, t, c), Exec(s, t, c).pcs[u])
    {
      StepKeepsPcs(s, t, c, u);
    }
  }

  lemma {:induction false} InvIsSafe(s: Lock)
    requires Inv(s)
    ensures Safe(s)
  {
    forall t, u | 0 <= t < |s.pcs| && 0 <= u < |s.pcs| && t != u && s.pcs[t] == Writing
      ensures !Inside(s.pcs[u])
    {
      CountsHere(s.pcs, t);
      CountsHere(s.pcs, u);
      if s.pcs[u] == Writing {
        CountPair(s.pcs, if t < u then t else u, if t < u then u else t, HoldsToken);
      }
    }
  }

  lemma {:induction false} RunKeepsInv(run: seq<Lock>, i: nat)
    requires IsRun(run) && i < |run|
    ensures Inv(run[i])
  {
    if i == 0 {
      InitInv(run[0]);
    } else {
      RunKeepsInv(run, i - 1);
      assert Next(run[i - 1], run[i - 1 + 1]);
      var t: nat, c: Choice :| StepOf(run[i - 1], run[i], t, c);
      StepKeepsInv(run[i - 1], t, c);
    }
  }

  /** Main safety result: every state of every run is safe, whatever threads
      interleave and whichever posts fail. */
  lemma {:induction false} EveryRunIsSafe(run: seq<Lock>)
    requires IsRun(run)
    ensures forall i | 0 <= i < |run| :: Safe(run[i])
  {
    forall i | 0 <= i < |run|
      ensures Safe(run[i])
    {
      RunKeepsInv(run, i);
      InvIsSafe(run[i]);
    }
  }

  /** The unsigned reader count never wraps: a thread about to decrement it is
      one of the readers it counts. */
  lemma {:induction false} ReaderCountNeverWraps(s: Lock, t: nat)
    requires Inv(s) && t < |s.pcs| && s.pcs[t] == RelUnregister
    ensures s.f.readers >= 1
  {
    CountsHere(s.pcs, t);
  }

  /** A schedule of statements, with those of blocked threads skipped. */
  function ExecAll(s: Lock, schedule: seq<(nat, Choice)>): Lock {
    if schedule == [] then s
    else
      var n := |schedule| - 1;
      var before, (t, c) := ExecAll(s, schedule[..n]), schedule[n];
      if Enabled(before, t) then Exec(before, t, c) else before
  }

  // ----- the lock as an object updated in place

  class XplRWLock {
    var gate: nat
    var mutexRead: nat
    var mutexReadWrite: nat
    var readers: int
    var mode: Mode
    var pcs: seq<PC>

    function View(): Lock
      reads this
    {
      Lock(Fields(gate, mutexRead, mutexReadWrite, readers, mode), pcs)
    }

    /** XplRWLockInit, with n threads about to use the lock. RWMode is left as it was. */
    constructor (n: nat, initialMode: Mode)
      ensures Init(View()) && |pcs| == n && mode == initialMode
    {
      gate, mutexRead, mutexReadWrite, readers, mode := 1, 1, 1, 0, initialMode;
      pcs := seq(n, _ => Idle);
    }

    /** Thread t executes its next statement, unless it is blocked. */
    method Step(t: nat, c: Choice) returns (moved: bool)
      modifies this
      ensures moved == Enabled(old(View()), t)
      ensures View() == if moved then Exec(old(View()), t, c) else old(View())
    {
      if t >= |pcs| || !CanRun(View().f, pcs[t]) {
        return false;
      }
      moved := true;
      match pcs[t] {
        case Idle => pcs := pcs[t := if c.write then WriteGate else ReadGate];
        case ReadGate => gate := gate - 1; pcs := pcs[t := ReadUngate];
        case ReadUngate => Post(c.postOk); pcs := pcs[t := ReadMutex];
        case ReadMutex => mutexRead := mutexRead - 1; pcs := pcs[t := ReadRegister];
        case ReadRegister => readers := readers + 1; pcs := pcs[t := ReadTest];
        case ReadTest => pcs := pcs[t := if readers == 1 then ReadFirst else ReadSetMode];
        case ReadFirst => mutexReadWrite := mutexReadWrite - 1; pcs := pcs[t := ReadSetMode];
        case ReadSetMode => mode := READ; pcs := pcs[t := ReadUnmutex];
        case ReadUnmutex => PostMutex(c.postOk); pcs := pcs[t := Reading];
        case Reading => pcs := pcs[t := RelMutex];
        case RelMutex => mutexRead := mutexRead - 1; pcs := pcs[t := RelUnregister];
        case RelUnregister => readers := readers - 1; pcs := pcs[t := RelTest];
        case RelTest => pcs := pcs[t := if readers == 0 then RelPost else RelSetMode];
        case RelPost =>
          if c.postOk {
            mutexReadWrite := mutexReadWrite + 1;
          }
          pcs := pcs[t := if c.postOk then RelSetMode else RelRollback];
        case RelRollback => readers := readers + 1; pcs := pcs[t := RelUndo];
        case RelUndo => PostMutex(c.postOk); pcs := pcs[t := Reading];
        case RelSetMode => mode := READ; pcs := pcs[t := RelUnmutex];
        case RelUnmutex => PostMutex(c.postOk); pcs := pcs[t := Idle];
        case WriteGate => gate := gate - 1; pcs := pcs[t := WriteWait];
        case WriteWait => mutexReadWrite := mutexReadWrite - 1; pcs := pcs[t := WriteSetMode];
        case WriteSetMode => mode := WRITE; pcs := pcs[t := Writing];
        case Writing => pcs := pcs[t := WRelPost];
        case WRelPost =>
          if c.postOk {
            mutexReadWrite := mutexReadWrite + 1;
          }
          pcs := pcs[t := if c.postOk then WRelGate else Writing];
        case WRelGate => Post(c.postOk); pcs := pcs[t := Idle];
      }
    }

    method Post(ok: bool)
      modifies this`gate
      ensures gate == old(gate) + Posted(ok)
    {
      if ok {
        gate := gate + 1;
      }
    }

    method PostMutex(ok: bool)
      modifies this`mutexRead
      ensures mutexRead == old(mutexRead) + Posted(ok)
    {
      if ok {
        mutexRead := mutexRead + 1;
      }
    }

    /** Any schedule, with blocked threads skipped, ends in a safe state. */
    method Drive(schedule: seq<(nat, Choice)>)
      requires Inv(View())
      modifies this
      ensures View() == ExecAll(old(View()), schedule)
      ensures Inv(View()) && Safe(View())
    {
      for i := 0 to |schedule|
        invariant Inv(View()) && View() == ExecAll(old(View()), schedule[..i])
      {
        assert schedule[..i + 1][..i] == schedule[..i];
        ghost var before := View();
        var moved := Step(schedule[i].0, schedule[i].1);
        if moved {
          StepKeepsInv(before, schedule[i].0, schedule[i].1);
        }
      }
      assert schedule[..|schedule|] == schedule;
      InvIsSafe(View());
    }
  }
}
