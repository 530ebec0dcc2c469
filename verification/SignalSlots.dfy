/** The sixteen signal slots of a thread handle in src/memmgr/thread.c, and
    the class whose methods fill, shift and drain them. */
module SignalSlots {
  import opened Basics

  const MAX_SIGNAL_STACK: nat := 16

  /** signalStack and signalContext; a zero signal is an empty slot, a zero
      context stands for NULL. */
  datatype Slots = Slots(signals: seq<int>, contexts: seq<int>)

  /** A signal with its context. */
  type Entry = (int, int)

  predicate Shape(s: Slots) {
    |s.signals| == MAX_SIGNAL_STACK && |s.contexts| == MAX_SIGNAL_STACK
  }

  /** The nonzero slots come first. */
  predicate IsPrefix(signals: seq<int>) {
    forall i, j | 0 <= i < j < |signals| && signals[i] == 0 :: signals[j] == 0
  }

  predicate Valid(s: Slots) {
    Shape(s) && IsPrefix(s.signals)
  }

  /** The queue the slots hold: a signal with its context for every slot before
      the first empty one. */
  function Queue(s: Slots): (q: seq<Entry>)
    requires Shape(s)
    ensures |q| == FirstZero(s.signals)
  {
    seq(FirstZero(s.signals), i requires 0 <= i < FirstZero(s.signals) => (s.signals[i], s.contexts[i]))
  }

  function Pushed(s: Slots, signal: int, context: int): Slots
    requires Shape(s)
  {
    var n := FirstZero(s.signals);
    if n < MAX_SIGNAL_STACK then Slots(s.signals[n := signal], s.contexts[n := context]) else s
  }

  function Popped(s: Slots): Slots
    requires Shape(s)
  {
    if s.signals[0] == 0 then s else Slots(s.signals[1..] + [0], s.contexts[1..] + [0])
  }

  const ZEROS: seq<int> := [0, 0, 0, 0, 0, 0, 0, 0, 0, 0, 0, 0, 0, 0, 0, 0]
  const EMPTY: Slots := Slots(ZEROS, ZEROS)

  lemma {:induction false} EmptyIsEmpty()
    ensures Valid(EMPTY) && Queue(EMPTY) == []
  {
  }

  /** Filling the first empty slot appends to the queue; with no empty slot
      nothing changes. */
  lemma {:induction false} PushAppends(s: Slots, signal: int, context: int)
    requires Valid(s) && signal != 0
    ensures Valid(Pushed(s, signal, context))
    ensures if |Queue(s)| < MAX_SIGNAL_STACK then Queue(Pushed(s, signal, context)) == Queue(s) + [(signal, context)]
            else Pushed(s, signal, context) == s
  {
    var n := FirstZero(s.signals);
    if n < MAX_SIGNAL_STACK {
      var after := Pushed(s, signal, context);
      FirstZeroIs(after.signals, n + 1);
      var q, q' := Queue(s), Queue(after);
      assert forall i | 0 <= i < n :: q'[i] == q[i];
    }
  }

  /** Shifting the slots drops the head of the queue. */
  lemma {:induction false} PopDropsHead(s: Slots)
    requires Valid(s)
    ensures Valid(Popped(s))
    ensures if Queue(s) == [] then Popped(s) == s && s.signals[0] == 0
            else Queue(s)[0] == (s.signals[0], s.contexts[0]) && s.signals[0] != 0 && Queue(Popped(s)) == Queue(s)[1..]
  {
    if s.signals[0] != 0 {
      var n, after := FirstZero(s.signals), Popped(s);
      assert forall i | 0 <= i < MAX_SIGNAL_STACK - 1 ::
          after.signals[i] == s.signals[i + 1] && after.contexts[i] == s.contexts[i + 1];
      FirstZeroIs(after.signals, n - 1);
    }
  }

  // ----- draining a handle that goes into the cache

  function Signals(q: seq<Entry>): (r: seq<int>)
    ensures |r| == |q| && forall i | 0 <= i < |q| :: r[i] == q[i].0
  {
    seq(|q|, i requires 0 <= i < |q| => q[i].0)
  }

  /** The tokens left after catching without waiting until a catch returns -1,
      which a catch does when no token is left, and also when the signal it
      takes off the queue happens to be -1. */
  function TokensLeft(signals: seq<int>, tokens: nat): nat
    decreases tokens
  {
    if tokens == 0 then 0
    else if signals == [] then TokensLeft([], tokens - 1)
    else if signals[0] == -1 then tokens - 1
    else TokensLeft(signals[1..], tokens - 1)
  }

  /** No signal before the last token's is -1. */
  predicate DrainsFully(signals: seq<int>, tokens: nat) {
    forall i | 0 <= i < |signals| && i + 1 < tokens :: signals[i] != -1
  }

  /** The drain loop leaves no token behind exactly when none of the signals
      queued before the last token's is -1. */
  lemma {:induction false} DrainIsCompleteExactly(signals: seq<int>, tokens: nat)
    ensures TokensLeft(signals, tokens) == 0 <==> DrainsFully(signals, tokens)
    decreases tokens
  {
    if tokens != 0 {
      if signals == [] {
        DrainIsCompleteExactly([], tokens - 1);
      } else {
        var tail := signals[1..];
        DrainIsCompleteExactly(tail, tokens - 1);
        if signals[0] != -1 {
          if DrainsFully(tail, tokens - 1) {
            forall i | 0 <= i < |signals| && i + 1 < tokens ensures signals[i] != -1 {
              if i > 0 { assert tail[i - 1] == signals[i]; }
            }
          }
          if DrainsFully(signals, tokens) {
            forall i | 0 <= i < |tail| && i + 1 < tokens - 1 ensures tail[i] != -1 {
              assert tail[i] == signals[i + 1];
            }
          }
        }
      }
    }
  }

  class SignalStack {
    const signalStack: array<int>
    const signalContext: array<int>

    /** The semaphore of the signal lock. */
    var tokens: nat

    ghost predicate Ok()
      reads this, signalStack, signalContext
    {
      && signalStack != signalContext
      && signalStack.Length == signalContext.Length == MAX_SIGNAL_STACK
      && Valid(Value())
    }

    function Value(): Slots
      reads this, signalStack, signalContext
    {
      Slots(signalStack[..], signalContext[..])
    }

    constructor ()
      ensures Ok() && Value() == EMPTY && tokens == 0 && fresh(signalStack) && fresh(signalContext)
    {
      signalStack := new int[MAX_SIGNAL_STACK](_ => 0);
      signalContext := new int[MAX_SIGNAL_STACK](_ => 0);
      tokens := 0;
      new;
      assert signalStack[..] == EMPTY.signals && signalContext[..] == EMPTY.contexts;
    }

    /** XplThreadSignal on a given handle: fill the first empty slot and post. */
    method Signal(signal: int, context: int) returns (rc: int)
      requires Ok()
      modifies this`tokens, signalStack, signalContext
      ensures Ok()
      ensures rc == if signal != 0 && |old(Queue(Value()))| < MAX_SIGNAL_STACK then 0 else -1
      ensures rc == 0 ==> Queue(Value()) == old(Queue(Value())) + [(signal, context)] && tokens == old(tokens) + 1
      ensures rc != 0 ==> Value() == old(Value()) && tokens == old(tokens)
    {
      if signal == 0 {
        return -1;
      }
      PushAppends(Value(), signal, context);
      var l := 0;
      while l < MAX_SIGNAL_STACK
        invariant l <= MAX_SIGNAL_STACK && forall i | 0 <= i < l :: signalStack[i] != 0
        invariant Value() == old(Value()) && tokens == old(tokens)
      {
        if signalStack[l] == 0 {
          FirstZeroIs(signalStack[..], l);
          signalStack[l] := signal;
          signalContext[l] := context;
          assert Value() == Pushed(old(Value()), signal, context);
          tokens := tokens + 1;
          return 0;
        }
        l := l + 1;
      }
      FirstZeroIs(signalStack[..], MAX_SIGNAL_STACK);
      return -1;
    }

    /** memmove of all but the first element to the front. */
    method ShiftDown(a: array<int>)
      requires a.Length == MAX_SIGNAL_STACK
      modifies a
      ensures a[..] == old(a[..])[1..] + [0]
    {
      var i := 0;
      while i < MAX_SIGNAL_STACK - 1
        invariant i <= MAX_SIGNAL_STACK - 1
        invariant forall k | 0 <= k < i :: a[k] == old(a[k + 1])
        invariant forall k | i <= k < MAX_SIGNAL_STACK :: a[k] == old(a[k])
      {
        a[i] := a[i + 1];
        i := i + 1;
      }
      a[MAX_SIGNAL_STACK - 1] := 0;
    }

    /** _GetSignal: take the first signal and shift the rest down. */
    method GetSignal() returns (signal: int, context: int)
      requires Ok()
      modifies signalStack, signalContext
      ensures Ok()
      ensures if old(Queue(Value())) == [] then signal == 0 && Value() == old(Value())
              else
                && (signal, context) == old(Queue(Value()))[0] && signal != 0
                && Queue(Value()) == old(Queue(Value()))[1..]
    {
      PopDropsHead(Value());
      signal, context := 0, 0;
      if signalStack[0] != 0 {
        signal := signalStack[0];
        context := signalContext[0];
        ShiftDown(signalStack);
        ShiftDown(signalContext);
      }
      assert Value() == Popped(old(Value()));
    }

    /** XplThreadCatch with no time to wait; -1 when there is no token. */
    method Catch() returns (signal: int, context: int)
      requires Ok()
      modifies this`tokens, signalStack, signalContext
      ensures Ok()
      ensures old(tokens) == 0 ==> signal == -1 && tokens == 0 && Value() == old(Value())
      ensures old(tokens) > 0 ==> tokens == old(tokens) - 1
      ensures old(tokens) > 0 && old(Queue(Value())) == [] ==> signal == 0 && Value() == old(Value())
      ensures old(tokens) > 0 && old(Queue(Value())) != [] ==>
                (signal, context) == old(Queue(Value()))[0] && Queue(Value()) == old(Queue(Value()))[1..]
    {
      if tokens == 0 {
        return -1, 0;
      }
      tokens := tokens - 1;
      signal, context := GetSignal();
    }

    method Clear(a: array<int>)
      requires a.Length == MAX_SIGNAL_STACK
      modifies a
      ensures a[..] == EMPTY.signals
    {
      var i := 0;
      while i < MAX_SIGNAL_STACK
        invariant i <= MAX_SIGNAL_STACK && forall k | 0 <= k < i :: a[k] == 0
      {
        a[i] := 0;
        i := i + 1;
      }
    }

    /** What the last XplThreadFree does to the signals before the handle goes
        into the cache: drain by catching, then clear the slots. */
    method DrainAndClear()
      requires Ok()
      modifies this`tokens, signalStack, signalContext
      ensures Ok() && Value() == EMPTY
      ensures tokens == 0 <==> DrainsFully(Signals(old(Queue(Value()))), old(tokens))
    {
      ghost var signals := Signals(Queue(Value()));
      var signal, context := 0, 0;
      while signal != -1
        invariant Ok()
        invariant signal != -1 ==> TokensLeft(Signals(Queue(Value())), tokens) == TokensLeft(signals, old(tokens))
        invariant signal == -1 ==> tokens == TokensLeft(signals, old(tokens))
        decreases tokens, if signal == -1 then 0 else 1
      {
        ghost var q := Queue(Value());
        ghost var before := tokens;
        signal, context := Catch();
        assert before > 0 && q != [] ==> Signals(q)[1..] == Signals(Queue(Value()));
      }
      DrainIsCompleteExactly(signals, old(tokens));
      Clear(signalStack);
      Clear(signalContext);
      assert Value() == EMPTY;
      EmptyIsEmpty();
    }

    /** The handle goes through the cache to a new holder, who catches without
        waiting before anyone has sent a signal. The catch finds nothing, as it
        should, exactly when the drain was complete; else a token left over
        makes it return the signal 0. */
    method FirstCatchAfterReuse() returns (signal: int, context: int)
      requires Ok()
      modifies this`tokens, signalStack, signalContext
      ensures Ok() && Value() == EMPTY
      ensures signal == if DrainsFully(Signals(old(Queue(Value()))), old(tokens)) then -1 else 0
    {
      DrainAndClear();
      EmptyIsEmpty();
      signal, context := Catch();
    }
  }
}
