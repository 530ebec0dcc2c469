/** The life of thread handles in src/memmgr/thread.c: taken from the free
    cache or allocated, linked into a group and into the global list, run,
    unlinked, and put back into the cache by whoever drops the last reference.

    One critical section, or one atomic update of the reference count, is one
    step of one actor. Any number of clients start, wrap and free threads; the
    pool that runs a started thread appears as a new actor. */
module ThreadHandles {
  import opened Counting
  import opened ThreadLinks

  /** A handle: its reference count, and how often it has been handed out and
      put into the cache. */
  datatype Handle = Handle(consumers: int, births: nat, caches: nat)

  datatype Fields = Fields(handles: seq<Handle>, free: seq<nat>,
                           groups: seq<seq<nat>>, groupThreads: seq<int>,
                           list: seq<nat>, threads: int)

  /** A started thread whose handle the caller wants or does not want, or the
      calling thread itself, wrapped. */
  datatype Kind = Plain | Wanted | Wrapped

  datatype PC =
    | Client
    // _XplThreadStart and _XplThreadWrap
    | Take(g: nat, kind: Kind)                 // look into the free cache
    | Allocate(g: nat, kind: Kind)
    | SetUp(h: nat, g: nat, kind: Kind)        // a wanted handle gets a second reference
    | LinkGroup(h: nat, g: nat, kind: Kind)
    | LinkList(h: nat, g: nat, kind: Kind)
    | Launch(h: nat, g: nat, kind: Kind)       // _Schedule
    | Holding(h: nat)                          // the caller keeps the handle
    // the thread itself, or the wrapped caller
    | Running(h: nat, g: nat, wrap: bool)
    // _XplThreadDestroy
    | UnlinkGroup(h: nat, g: nat, wrap: bool)
    | UnlinkList(h: nat, wrap: bool)
    // XplThreadFree
    | DropMain(h: nat, wrap: bool)
    | DropHeld(h: nat)
    | Clear(h: nat, back: bool)                // dropped the last reference
    | Cache(h: nat, back: bool)
    | Gone

  datatype State = State(f: Fields, pcs: seq<PC>)

  datatype Call = Start(g: nat, want: bool) | Wrap(g: nat)

  ghost predicate Init(s: State) {
    && s.f.handles == [] && s.f.free == [] && s.f.list == [] && s.f.threads == 0
    && |s.f.groups| == |s.f.groupThreads|
    && (forall g | 0 <= g < |s.f.groups| :: s.f.groups[g] == [] && s.f.groupThreads[g] == 0)
    && (forall t | 0 <= t < |s.pcs| :: s.pcs[t] == Client)
  }

  /** How often h occurs in the list. */
  function Times(list: seq<nat>, h: nat): nat {
    if list == [] then 0 else (if list[0] == h then 1 else 0) + Times(list[1..], h)
  }

  function Back(back: bool): PC {
    if back then Client else Gone
  }

  /** Dropping a reference; the last one goes on to clear the handle. */
  function Drop(f: Fields, h: nat, back: bool): (Fields, PC, seq<PC>)
    requires h < |f.handles|
  {
    var left := f.handles[h].consumers - 1;
    (f.(handles := f.handles[h := f.handles[h].(consumers := left)]), if left == 0 then Clear(h, back) else Back(back),
        [])
  }

  /** The handle and the group an actor works with exist, and what it is about
      to unlink is linked. */
  predicate CanRun(f: Fields, pc: PC) {
    match pc
    case SetUp(h, _, _) => h < |f.handles|
    case LinkGroup(h, g, _) => h < |f.handles| && g < |f.groups| == |f.groupThreads|
    case LinkList(h, _, _) => h < |f.handles|
    case UnlinkGroup(h, g, _) => h < |f.handles| && g < |f.groups| == |f.groupThreads| && h in f.groups[g]
    case UnlinkList(h, _) => h < |f.handles| && h in f.list
    case DropMain(h, _) => h < |f.handles|
    case DropHeld(h) => h < |f.handles|
    case Cache(h, _) => h < |f.handles|
    case Take(_, _) => f.free == [] || f.free[0] < |f.handles|
    case Gone => false
    case _ => true
  }

  function Local(f: Fields, pc: PC, c: Call): (r: (Fields, PC, seq<PC>))
    requires CanRun(f, pc)
    ensures |r.2| <= 1
  {
    match pc
    case Client =>
      (match c
       case Start(g, want) => (f, if g < |f.groups| then Take(g, if want then Wanted else Plain) else Client, [])
       case Wrap(g) => (f, if g < |f.groups| then Allocate(g, Wrapped) else Client, []))
    case Take(g, kind) =>
      if f.free == [] then (f, Allocate(g, kind), [])
      else
        var h := f.free[0];
        (f.(free := f.free[1..],
            handles := f.handles[h := f.handles[h].(consumers := 1, births := f.handles[h].births + 1)]),
         SetUp(h, g, kind), [])
    case Allocate(g, kind) => (f.(handles := f.handles + [Handle(1, 1, 0)]), SetUp(|f.handles|, g, kind), [])
    case SetUp(h, g, kind) =>
      (if kind.Wanted? then f.(handles := f.handles[h := f.handles[h].(consumers := f.handles[h].consumers + 1)])
          else f,
       LinkGroup(h, g, kind), [])
    case LinkGroup(h, g, kind) =>
      (f.(groups := f.groups[g := [h] + f.groups[g]], groupThreads := f.groupThreads[g := f.groupThreads[g] + 1]),
       LinkList(h, g, kind), [])
    case LinkList(h, g, kind) =>
      (f.(list := [h] + f.list, threads := f.threads + 1),
          if kind.Wrapped? then Running(h, g, true) else Launch(h, g, kind), [])
    case Launch(h, g, kind) => (f, if kind.Wanted? then Holding(h) else Client, [Running(h, g, false)])
    case Holding(h) => (f, DropHeld(h), [])
    case Running(h, g, wrap) => (f, UnlinkGroup(h, g, wrap), [])
    case UnlinkGroup(h, g, wrap) =>
      (f.(groups := f.groups[g := Unlinked(f.groups[g], h)],
          groupThreads := f.groupThreads[g := f.groupThreads[g] - 1]),
       UnlinkList(h, wrap), [])
    case UnlinkList(h, wrap) => (f.(list := Unlinked(f.list, h), threads := f.threads - 1), DropMain(h, wrap), [])
    case DropMain(h, wrap) => Drop(f, h, wrap)
    case DropHeld(h) => Drop(f, h, true)
    case Clear(h, back) => (f, Cache(h, back), [])
    case Cache(h, back) =>
      (f.(free := [h] + f.free, handles := f.handles[h := f.handles[h].(caches := f.handles[h].caches + 1)]),
          Back(back), [])
  }

  function Exec(s: State, t: nat, c: Call): State
    requires t < |s.pcs| && CanRun(s.f, s.pcs[t])
  {
    var (f, pc, more) := Local(s.f, s.pcs[t], c);
    State(f, s.pcs[t := pc] + more)
  }

  ghost predicate StepOf(s: State, s': State, t: nat, c: Call) {
    t < |s.pcs| && CanRun(s.f, s.pcs[t]) && s' == Exec(s, t, c)
  }

  ghost predicate Next(s: State, s': State) {
    exists t: nat, c: Call :: StepOf(s, s', t, c)
  }

  ghost predicate IsRun(run: seq<State>) {
    |run| > 0 && Init(run[0]) && forall i | 0 <= i < |run| - 1 :: Next(run[i], run[i + 1])
  }

  // ----- who refers to a handle

  /** The reference of the thread: from the taking or allocating until the
      thread itself drops it. */
  predicate IsMain(pc: PC, h: nat) {
    (pc.SetUp? || pc.LinkGroup? || pc.LinkList? || pc.Launch? || pc.Running? || pc.UnlinkGroup? || pc.UnlinkList?
        || pc.DropMain?) && pc.h == h
  }

  /** The reference of the caller that asked for the handle. */
  predicate IsHeld(pc: PC, h: nat) {
    (((pc.LinkGroup? || pc.LinkList? || pc.Launch?) && pc.kind.Wanted?) || pc.Holding? || pc.DropHeld?) && pc.h == h
  }

  predicate IsDying(pc: PC, h: nat) {
    (pc.Clear? || pc.Cache?) && pc.h == h
  }

  predicate IsInGroup(pc: PC, h: nat, g: nat) {
    (pc.LinkList? || pc.Launch? || pc.Running? || pc.UnlinkGroup?) && pc.h == h && pc.g == g
  }

  predicate IsInList(pc: PC, h: nat) {
    (pc.Launch? || pc.Running? || pc.UnlinkGroup? || pc.UnlinkList?) && pc.h == h
  }

  function MainOf(h: nat): PC -> bool { pc => IsMain(pc, h) }

  function HeldOf(h: nat): PC -> bool { pc => IsHeld(pc, h) }

  function DyingOf(h: nat): PC -> bool { pc => IsDying(pc, h) }

  function InGroupOf(h: nat, g: nat): PC -> bool { pc => IsInGroup(pc, h, g) }

  function InListOf(h: nat): PC -> bool { pc => IsInList(pc, h) }

  // ----- the invariant

  /** A handle's references are counted; at most one is the thread's; and the
      handle is in exactly one place: referred to, being cleared by the actor
      that dropped the last reference, or once in the cache. */
  ghost predicate HandleInv(s: State, h: nat)
    requires h < |s.f.handles|
  {
    var o := s.f.handles[h];
    && o.consumers == Count(s.pcs, MainOf(h)) + Count(s.pcs, HeldOf(h))
    && Count(s.pcs, MainOf(h)) <= 1
    && Times(s.f.free, h) + Count(s.pcs, DyingOf(h)) + (if o.consumers > 0 then 1 else 0) == 1
    && o.births == o.caches + (if h in s.f.free then 0 else 1)
  }

  /** A handle is linked exactly while its thread has it linked. */
  ghost predicate ListInv(s: State, h: nat) {
    && Times(s.f.list, h) == Count(s.pcs, InListOf(h))
    && forall g | 0 <= g < |s.f.groups| :: Times(s.f.groups[g], h) == Count(s.pcs, InGroupOf(h, g))
  }

  predicate PcInv(f: Fields, pc: PC) {
    && (!pc.Client? && !pc.Take? && !pc.Allocate? && !pc.Gone? ==> pc.h < |f.handles|)
    && (pc.Take? || pc.Allocate? || pc.SetUp? || pc.LinkGroup? || pc.LinkList? ==> pc.g < |f.groups|)
    && (pc.Launch? || pc.Running? || pc.UnlinkGroup? ==> pc.g < |f.groups|)
  }

  /** The counters are the lengths of the lists. */
  ghost predicate CountersInv(f: Fields) {
    && f.threads == |f.list|
    && |f.groups| == |f.groupThreads|
    && forall g | 0 <= g < |f.groups| :: f.groupThreads[g] == |f.groups[g]|
  }

  ghost predicate Inv(s: State) {
    && CountersInv(s.f)
    && (forall i | 0 <= i < |s.f.free| :: s.f.free[i] < |s.f.handles|)
    && (forall h: nat | h < |s.f.handles| :: HandleInv(s, h))
    && (forall h: nat :: ListInv(s, h))
    && (forall t | 0 <= t < |s.pcs| :: PcInv(s.f, s.pcs[t]))
  }

  // ----- lists

  lemma {:induction false} UnlinkedRemovesOne(list: seq<nat>, x: nat, h: nat)
    requires x in list
    ensures Times(Unlinked(list, x), h) == Times(list, h) - (if x == h then 1 else 0)
            && |Unlinked(list, x)| == |list| - 1
  {
    if list[0] != x {
      UnlinkedRemovesOne(list[1..], x, h);
    }
  }

  lemma {:induction false} TimesIsMembership(list: seq<nat>, h: nat)
    ensures h in list <==> Times(list, h) > 0
  {
    if list != [] {
      TimesIsMembership(list[1..], h);
    }
  }

  // ----- counts of unallocated handles

  lemma {:induction false} NobodyRefers(s: State, h: nat)
    requires (forall t | 0 <= t < |s.pcs| :: PcInv(s.f, s.pcs[t])) && h >= |s.f.handles|
    ensures Count(s.pcs, MainOf(h)) == Count(s.pcs, HeldOf(h)) == Count(s.pcs, DyingOf(h)) == 0
  {
    forall t | 0 <= t < |s.pcs| ensures !IsMain(s.pcs[t], h) && !IsHeld(s.pcs[t], h) && !IsDying(s.pcs[t], h) {
      assert PcInv(s.f, s.pcs[t]);
    }
    CountNone(s.pcs, MainOf(h));
    CountNone(s.pcs, HeldOf(h));
    CountNone(s.pcs, DyingOf(h));
  }

  lemma {:induction false} InitInv(s: State)
    requires Init(s)
    ensures Inv(s)
  {
    forall h: nat ensures ListInv(s, h) {
      CountNone(s.pcs, InListOf(h));
      forall g | 0 <= g < |s.f.groups| ensures Times(s.f.groups[g], h) == Count(s.pcs, InGroupOf(h, g)) {
        CountNone(s.pcs, InGroupOf(h, g));
      }
    }
  }

  // ----- one step and one handle

  /** An actor's own references show in the counts. */
  lemma {:induction false} OwnCounts(s: State, t: nat, h: nat)
    requires t < |s.pcs|
    ensures IsMain(s.pcs[t], h) ==> Count(s.pcs, MainOf(h)) >= 1
    ensures IsHeld(s.pcs[t], h) ==> Count(s.pcs, HeldOf(h)) >= 1
    ensures IsDying(s.pcs[t], h) ==> Count(s.pcs, DyingOf(h)) >= 1
    ensures IsInList(s.pcs[t], h) ==> Count(s.pcs, InListOf(h)) >= 1
  {
    if IsMain(s.pcs[t], h) { CountWitness(s.pcs, t, MainOf(h)); }
    if IsHeld(s.pcs[t], h) { CountWitness(s.pcs, t, HeldOf(h)); }
    if IsDying(s.pcs[t], h) { CountWitness(s.pcs, t, DyingOf(h)); }
    if IsInList(s.pcs[t], h) { CountWitness(s.pcs, t, InListOf(h)); }
  }

  /** What an actor is about to unlink is linked, so every actor but a finished
      one can always take its next step. */
  lemma {:induction false} AlwaysFound(s: State, t: nat)
    requires Inv(s) && t < |s.pcs| && s.pcs[t] != Gone
    ensures CanRun(s.f, s.pcs[t])
  {
    var pc := s.pcs[t];
    assert PcInv(s.f, pc);
    if pc.UnlinkGroup? {
      assert ListInv(s, pc.h);
      CountWitness(s.pcs, t, InGroupOf(pc.h, pc.g));
      TimesIsMembership(s.f.groups[pc.g], pc.h);
    } else if pc.UnlinkList? {
      assert ListInv(s, pc.h);
      CountWitness(s.pcs, t, InListOf(pc.h));
      TimesIsMembership(s.f.list, pc.h);
    }
  }

  function Moves(p: PC -> bool, pc: PC, r: (Fields, PC, seq<PC>)): int {
    One(p(r.1)) + (if r.2 == [] then 0 else One(p(r.2[0]))) - One(p(pc))
  }

  /** What the invariant says about the handle an actor works with. */
  predicate Ready(f: Fields, pc: PC, h: nat)
    requires h < |f.handles|
  {
    && (pc.Take? && f.free != [] && f.free[0] == h ==> f.handles[h].consumers == 0 && Times(f.free, h) == 1)
    && ((pc.SetUp? || pc.DropMain? || pc.DropHeld?) && pc.h == h ==> f.handles[h].consumers >= 1)
    && (pc.Cache? && pc.h == h ==> h !in f.free)
  }

  lemma {:induction false} InvIsReady(s: State, t: nat, h: nat)
    requires Inv(s) && t < |s.pcs| && h < |s.f.handles|
    ensures Ready(s.f, s.pcs[t], h)
  {
    var pc := s.pcs[t];
    assert HandleInv(s, h);
    OwnCounts(s, t, h);
    if pc.Take? && s.f.free != [] && s.f.free[0] == h {
      TimesIsMembership(s.f.free, h);
    }
    if pc.Cache? && pc.h == h && h in s.f.free {
      TimesIsMembership(s.f.free, h);
    }
  }

  /** How the reference count of a handle moves with the references. */
  lemma {:induction false} LocalReferences(f: Fields, pc: PC, c: Call, h: nat)
    requires CanRun(f, pc) && h < |f.handles| && Ready(f, pc, h)
    ensures var r := Local(f, pc, c);
            && |r.0.handles| >= |f.handles|
            && r.0.handles[h].consumers - f.handles[h].consumers == Moves(MainOf(h), pc, r) + Moves(HeldOf(h), pc, r)
            && (Moves(MainOf(h), pc, r) > 0 ==> f.handles[h].consumers == 0 && Moves(MainOf(h), pc, r) == 1)
  {
  }

  /** How a handle moves between its places. */
  lemma {:induction false} LocalPlaces(f: Fields, pc: PC, c: Call, h: nat)
    requires CanRun(f, pc) && h < |f.handles| && Ready(f, pc, h)
    ensures var r := Local(f, pc, c);
            && |r.0.handles| >= |f.handles|
            && Times(r.0.free, h) + Moves(DyingOf(h), pc, r) + (if r.0.handles[h].consumers > 0 then 1 else 0)
               == Times(f.free, h) + (if f.handles[h].consumers > 0 then 1 else 0)
            && r.0.handles[h].births - r.0.handles[h].caches - (if h in r.0.free then 0 else 1)
               == f.handles[h].births - f.handles[h].caches - (if h in f.free then 0 else 1)
  {
    FreeMoves(f, pc, c, h);
    hide CanRun, Unlinked;
    TimesIsMembership(f.free, h);
    TimesIsMembership(Local(f, pc, c).0.free, h);
  }

  lemma {:induction false} FreeMoves(f: Fields, pc: PC, c: Call, h: nat)
    requires CanRun(f, pc)
    ensures Times(Local(f, pc, c).0.free, h)
         == Times(f.free, h) + (if pc.Cache? && pc.h == h then 1 else 0) - (if pc.Take? && f.free != []
             && f.free[0] == h then 1 else 0)
  {
    if pc.Cache? {
      assert ([pc.h] + f.free)[1..] == f.free;
    } else if !pc.Take? {
      assert Local(f, pc, c).0.free == f.free;
    }
    hide Unlinked;
  }

  lemma {:induction false} LocalLists(f: Fields, pc: PC, c: Call, h: nat)
    requires CanRun(f, pc)
    ensures var r := Local(f, pc, c); Times(r.0.list, h) == Times(f.list, h) + Moves(InListOf(h), pc, r)
  {
    var list': seq<nat> := Local(f, pc, c).0.list;
    if pc.LinkList? {
      assert list'[1..] == f.list;
      assert Times(list', h) == Times(f.list, h) + (if pc.h == h then 1 else 0);
    } else if pc.UnlinkList? {
      UnlinkedRemovesOne(f.list, pc.h, h);
      assert Times(list', h) == Times(f.list, h) - (if pc.h == h then 1 else 0);
    } else {
      assert list' == f.list;
    }
    hide Unlinked, CanRun;
  }

  lemma {:induction false} LocalGroups(f: Fields, pc: PC, c: Call, h: nat, g: nat)
    requires CanRun(f, pc) && g < |f.groups|
    ensures var r := Local(f, pc, c);
            |r.0.groups| == |f.groups|
                && Times(r.0.groups[g], h) == Times(f.groups[g], h) + Moves(InGroupOf(h, g), pc, r)
  {
    var group': seq<nat> := Local(f, pc, c).0.groups[g];
    if pc.LinkGroup? && pc.g == g {
      assert group'[1..] == f.groups[g];
      assert Times(group', h) == Times(f.groups[g], h) + (if pc.h == h then 1 else 0);
    } else if pc.UnlinkGroup? && pc.g == g {
      UnlinkedRemovesOne(f.groups[g], pc.h, h);
      assert Times(group', h) == Times(f.groups[g], h) - (if pc.h == h then 1 else 0);
    } else {
      assert group' == f.groups[g];
    }
    hide Unlinked, CanRun;
  }

  lemma {:induction false} LocalCounters(f: Fields, pc: PC, c: Call)
    requires CanRun(f, pc) && CountersInv(f) && PcInv(f, pc)
    ensures var r := Local(f, pc, c);
            && CountersInv(r.0) && |r.0.handles| >= |f.handles| && |r.0.groups| == |f.groups|
            && PcInv(r.0, r.1) && forall i | 0 <= i < |r.2| :: PcInv(r.0, r.2[i])
  {
    if pc.UnlinkGroup? { UnlinkedRemovesOne(f.groups[pc.g], pc.h, pc.h); }
    if pc.UnlinkList? { UnlinkedRemovesOne(f.list, pc.h, pc.h); }
  }

  // ----- a step keeps the invariant

  lemma {:induction false} StepKeepsHandle(s: State, t: nat, c: Call, h: nat)
    requires Inv(s) && t < |s.pcs| && CanRun(s.f, s.pcs[t]) && h < |s.f.handles|
    ensures |Exec(s, t, c).f.handles| >= |s.f.handles| && HandleInv(Exec(s, t, c), h)
  {
    var pc := s.pcs[t];
    var r := Local(s.f, pc, c);
    assert HandleInv(s, h);
    InvIsReady(s, t, h);
    LocalReferences(s.f, pc, c, h);
    LocalPlaces(s.f, pc, c, h);
    CountMove(s.pcs, t, r.1, r.2, MainOf(h));
    CountMove(s.pcs, t, r.1, r.2, HeldOf(h));
    CountMove(s.pcs, t, r.1, r.2, DyingOf(h));
    hide Local, Inv, Ready, CanRun;
  }

  lemma {:induction false} StepKeepsLists(s: State, t: nat, c: Call, h: nat)
    requires Inv(s) && t < |s.pcs| && CanRun(s.f, s.pcs[t])
    ensures ListInv(Exec(s, t, c), h)
  {
    var pc := s.pcs[t];
    var r := Local(s.f, pc, c);
    assert ListInv(s, h);
    LocalLists(s.f, pc, c, h);
    CountMove(s.pcs, t, r.1, r.2, InListOf(h));
    forall g | 0 <= g < |r.0.groups| ensures Times(r.0.groups[g], h) == Count(Exec(s, t, c).pcs, InGroupOf(h, g)) {
      assert PcInv(s.f, pc);
      LocalCounters(s.f, pc, c);
      LocalGroups(s.f, pc, c, h, g);
      CountMove(s.pcs, t, r.1, r.2, InGroupOf(h, g));
      hide Local, Inv, CanRun, CountersInv;
    }
    hide Local, Inv, CanRun;
  }

  /** A handle that is allocated starts out referred to once, by its thread. */
  lemma {:induction false} NewHandle(s: State, t: nat, c: Call)
    requires Inv(s) && t < |s.pcs| && s.pcs[t].Allocate?
    ensures HandleInv(Exec(s, t, c), |s.f.handles|)
  {
    var h := |s.f.handles|;
    var r := Local(s.f, s.pcs[t], c);
    NobodyRefers(s, h);
    CountMove(s.pcs, t, r.1, r.2, MainOf(h));
    CountMove(s.pcs, t, r.1, r.2, HeldOf(h));
    CountMove(s.pcs, t, r.1, r.2, DyingOf(h));
    assert h !in s.f.free;
    TimesIsMembership(s.f.free, h);
  }

  lemma {:induction false} FreeStaysKnown(s: State, t: nat, c: Call)
    requires Inv(s) && t < |s.pcs| && CanRun(s.f, s.pcs[t])
    ensures var f := Exec(s, t, c).f; forall i | 0 <= i < |f.free| :: f.free[i] < |f.handles|
  {
    hide HandleInv, ListInv, CountersInv;
  }

  lemma {:induction false} StepKeepsInv(s: State, t: nat, c: Call)
    requires Inv(s) && t < |s.pcs| && CanRun(s.f, s.pcs[t])
    ensures Inv(Exec(s, t, c))
  {
    var s' := Exec(s, t, c);
    assert PcInv(s.f, s.pcs[t]);
    LocalCounters(s.f, s.pcs[t], c);
    FreeStaysKnown(s, t, c);
    assert |s'.f.handles| == |s.f.handles| + One(s.pcs[t].Allocate?);
    forall h: nat | h < |s'.f.handles| ensures HandleInv(s', h) {
      if h < |s.f.handles| { StepKeepsHandle(s, t, c, h); } else { NewHandle(s, t, c); }
    }
    forall h: nat ensures ListInv(s', h) {
      StepKeepsLists(s, t, c, h);
    }
    hide HandleInv, ListInv, CountersInv, Local, CanRun;
    forall u | 0 <= u < |s'.pcs| ensures PcInv(s'.f, s'.pcs[u]) {
      if u < |s.pcs| && u != t { assert PcInv(s.f, s.pcs[u]); }
    }
  }

  // ----- the main results

  predicate Refers(pc: PC, h: nat) {
    IsMain(pc, h) || IsHeld(pc, h) || IsDying(pc, h)
  }

  /** Nobody refers to the handle, and neither its group nor the global list,
      whose link the cache shares, has it linked. */
  ghost predicate AtRest(s: State, h: nat) {
    && (forall t | 0 <= t < |s.pcs| :: !Refers(s.pcs[t], h))
    && Times(s.f.list, h) == 0
    && forall g | 0 <= g < |s.f.groups| :: Times(s.f.groups[g], h) == 0
  }

  /** A handle has entered the cache once for each time it was handed out, but
      for the life it is in; and the cache holds it once at most. */
  predicate CachedOncePerLife(f: Fields, h: nat)
    requires h < |f.handles|
  {
    Times(f.free, h) <= 1 && f.handles[h].births == f.handles[h].caches + (if h in f.free then 0 else 1)
  }

  /** What holds in every state: cached handles are at rest; each handle enters
      the cache once per life; the counters are the lengths of the lists; and
      no search for what is to be unlinked fails. */
  ghost predicate Safe(s: State) {
    && (forall i | 0 <= i < |s.f.free| :: AtRest(s, s.f.free[i]))
    && (forall h: nat | h < |s.f.handles| :: CachedOncePerLife(s.f, h))
    && CountersInv(s.f)
    && (forall t | 0 <= t < |s.pcs| && s.pcs[t] != Gone :: CanRun(s.f, s.pcs[t]))
  }

  lemma {:induction false} CachedIsAtRest(s: State, h: nat)
    requires Inv(s) && h < |s.f.handles| && h in s.f.free
    ensures AtRest(s, h)
  {
    assert HandleInv(s, h);
    TimesIsMembership(s.f.free, h);
    assert Count(s.pcs, MainOf(h)) == Count(s.pcs, HeldOf(h)) == Count(s.pcs, DyingOf(h)) == 0;
    forall t | 0 <= t < |s.pcs| ensures !Refers(s.pcs[t], h) {
      OwnCounts(s, t, h);
    }
    assert ListInv(s, h);
    forall t | 0 <= t < |s.pcs| ensures !IsInList(s.pcs[t], h) && !IsMain(s.pcs[t], h) {
      assert !Refers(s.pcs[t], h);
    }
    CountNone(s.pcs, InListOf(h));
    forall g | 0 <= g < |s.f.groups| ensures Times(s.f.groups[g], h) == 0 {
      CountNone(s.pcs, InGroupOf(h, g));
    }
  }

  lemma {:induction false} InvIsSafe(s: State)
    requires Inv(s)
    ensures Safe(s)
  {
    forall i | 0 <= i < |s.f.free| ensures AtRest(s, s.f.free[i]) {
      CachedIsAtRest(s, s.f.free[i]);
    }
    forall h: nat | h < |s.f.handles| ensures CachedOncePerLife(s.f, h) {
      assert HandleInv(s, h);
    }
    forall t | 0 <= t < |s.pcs| && s.pcs[t] != Gone ensures CanRun(s.f, s.pcs[t]) {
      AlwaysFound(s, t);
    }
    hide AtRest, CanRun, HandleInv, ListInv;
  }

  lemma {:induction false} RunKeepsInv(run: seq<State>, i: nat)
    requires IsRun(run) && i < |run|
    ensures Inv(run[i])
  {
    hide Inv, Init, Exec, CanRun;
    if i == 0 {
      InitInv(run[0]);
    } else {
      RunKeepsInv(run, i - 1);
      assert Next(run[i - 1], run[i - 1 + 1]);
      var t: nat, c :| StepOf(run[i - 1], run[i], t, c);
      StepKeepsInv(run[i - 1], t, c);
    }
  }

  /** Whatever state a run has reached is safe. */
  lemma {:induction false} EveryRunIsSafe(run: seq<State>)
    requires IsRun(run)
    ensures Safe(run[|run| - 1])
  {
    RunKeepsInv(run, |run| - 1);
    InvIsSafe(run[|run| - 1]);
  }

  /** A handle that XplThreadStart takes out of the cache has no reference left
      from its previous life. */
  lemma {:induction false} TakenHandleIsUnreferenced(run: seq<State>, i: nat, t: nat)
    requires IsRun(run) && i < |run| && t < |run[i].pcs| && run[i].pcs[t].Take? && run[i].f.free != []
    ensures AtRest(run[i], run[i].f.free[0])
  {
    RunKeepsInv(run, i);
    InvIsSafe(run[i]);
  }

  /** An actor puts a handle into the cache only after the thread and the
      caller who asked for it have both dropped it, and no one else is
      dropping it. */
  lemma {:induction false} CachedAfterBothDropped(run: seq<State>, i: nat, t: nat, u: nat)
    requires IsRun(run) && i < |run| && t < |run[i].pcs| && run[i].pcs[t].Cache?
    requires u < |run[i].pcs| && u != t
    ensures !Refers(run[i].pcs[u], run[i].pcs[t].h)
  {
    var s := run[i];
    var h := s.pcs[t].h;
    RunKeepsInv(run, i);
    assert PcInv(s.f, s.pcs[t]);
    assert HandleInv(s, h);
    OwnCounts(s, t, h);
    OwnCounts(s, u, h);
    if IsDying(s.pcs[u], h) {
      CountPair(s.pcs, if t < u then t else u, if t < u then u else t, DyingOf(h));
    }
  }

  /** Once every call has returned, every thread has ended and every handle kept
      has been freed, all handles are in the cache, once each, and the lists
      are empty: none has leaked. */
  lemma {:induction false} NothingLeaks(run: seq<State>, i: nat)
    requires IsRun(run) && i < |run|
    requires forall t | 0 <= t < |run[i].pcs| :: run[i].pcs[t] == Client || run[i].pcs[t] == Gone
    ensures forall h: nat | h < |run[i].f.handles| :: Times(run[i].f.free, h) == 1
    ensures run[i].f.list == [] && run[i].f.threads == 0
    ensures |run[i].f.groups| == |run[i].f.groupThreads|
    ensures forall g | 0 <= g < |run[i].f.groups| :: run[i].f.groups[g] == [] && run[i].f.groupThreads[g] == 0
  {
    var s := run[i];
    RunKeepsInv(run, i);
    forall h: nat | h < |s.f.handles| ensures Times(s.f.free, h) == 1 {
      assert HandleInv(s, h);
      CountNone(s.pcs, MainOf(h));
      CountNone(s.pcs, HeldOf(h));
      CountNone(s.pcs, DyingOf(h));
    }
    if s.f.list != [] {
      var h := s.f.list[0];
      assert ListInv(s, h);
      CountNone(s.pcs, InListOf(h));
    }
    forall g | 0 <= g < |s.f.groups| ensures s.f.groups[g] == [] {
      if s.f.groups[g] != [] {
        var h := s.f.groups[g][0];
        assert ListInv(s, h);
        CountNone(s.pcs, InGroupOf(h, g));
      }
    }
  }
}
