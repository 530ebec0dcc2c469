/** Counting the elements of a sequence that satisfy a predicate, and how the
    count moves when one element changes. The step machines use it to count
    the threads standing at given program points. */
module Counting {

  function Count<T>(s: seq<T>, p: T -> bool): (n: nat)
    ensures n <= |s|
  {
    if s == [] then 0 else (if p(s[0]) then 1 else 0) + Count(s[1..], p)
  }

  lemma {:induction false} CountUpdate<T>(s: seq<T>, i: nat, x: T, p: T -> bool)
    requires i < |s|
    ensures Count(s[i := x], p) == Count(s, p) - (if p(s[i]) then 1 else 0) + (if p(x) then 1 else 0)
  {
    var u := s[i := x];
    if i == 0 {
      assert u[1..] == s[1..];
    } else {
      assert u[1..] == s[1..][i - 1 := x];
      CountUpdate(s[1..], i - 1, x, p);
    }
  }

  function One(b: bool): nat {
    if b then 1 else 0
  }

  lemma {:induction false} CountConcat<T>(a: seq<T>, b: seq<T>, p: T -> bool)
    ensures Count(a + b, p) == Count(a, p) + Count(b, p)
  {
    if a == [] {
      assert a + b == b;
    } else {
      assert (a + b)[1..] == a[1..] + b;
      CountConcat(a[1..], b, p);
    }
  }

  /** The count when one element changes and at most one joins at the end. */
  lemma {:induction false} CountMove<T>(s: seq<T>, i: nat, x: T, more: seq<T>, p: T -> bool)
    requires i < |s| && |more| <= 1
    ensures Count(s[i := x] + more, p)
            == Count(s, p) - One(p(s[i])) + One(p(x)) + (if more == [] then 0 else One(p(more[0])))
  {
    CountUpdate(s, i, x, p);
    CountConcat(s[i := x], more, p);
  }

  lemma {:induction false} CountWitness<T>(s: seq<T>, i: nat, p: T -> bool)
    requires i < |s| && p(s[i])
    ensures Count(s, p) >= 1
  {
    if i > 0 {
      CountWitness(s[1..], i - 1, p);
    }
  }

  lemma {:induction false} CountPair<T>(s: seq<T>, i: nat, j: nat, p: T -> bool)
    requires i < j < |s| && p(s[i]) && p(s[j])
    ensures Count(s, p) >= 2
  {
    if i > 0 {
      CountPair(s[1..], i - 1, j - 1, p);
    } else {
      CountWitness(s[1..], j - 1, p);
    }
  }

  /** Where the count is at most one, a member has no company. */
  lemma {:induction false} CountAlone<T>(s: seq<T>, i: nat, j: nat, p: T -> bool)
    requires i < |s| && j < |s| && i != j && p(s[i]) && Count(s, p) <= 1
    ensures !p(s[j])
  {
    if p(s[j]) {
      CountPair(s, if i < j then i else j, if i < j then j else i, p);
    }
  }

  /** A positive count has a member. */
  lemma {:induction false} CountFind<T>(s: seq<T>, p: T -> bool) returns (i: nat)
    requires Count(s, p) >= 1
    ensures i < |s| && p(s[i])
  {
    if p(s[0]) {
      i := 0;
    } else {
      i := CountFind(s[1..], p);
      i := i + 1;
    }
  }

  /** A count of two or more has a member other than the given one. */
  lemma {:induction false} CountFindOther<T>(s: seq<T>, k: nat, p: T -> bool) returns (i: nat)
    requires k < |s| && Count(s, p) >= 2
    ensures i < |s| && i != k && p(s[i])
  {
    if k > 0 && p(s[0]) {
      i := 0;
    } else if k == 0 {
      i := CountFind(s[1..], p);
      i := i + 1;
    } else {
      i := CountFindOther(s[1..], k - 1, p);
      i := i + 1;
    }
  }

  lemma {:induction false} CountNone<T>(s: seq<T>, p: T -> bool)
    requires forall i | 0 <= i < |s| :: !p(s[i])
    ensures Count(s, p) == 0
  {
    if s != [] {
      assert forall i | 0 <= i < |s[1..]| :: s[1..][i] == s[i + 1];
      CountNone(s[1..], p);
    }
  }

  /** The total of a nonnegative weight over a sequence. */
  function Total<T>(s: seq<T>, w: T -> nat): nat {
    if s == [] then 0 else w(s[0]) + Total(s[1..], w)
  }

  lemma {:induction false} TotalUpdate<T>(s: seq<T>, i: nat, x: T, w: T -> nat)
    requires i < |s|
    ensures Total(s[i := x], w) == Total(s, w) - w(s[i]) + w(x)
  {
    var u := s[i := x];
    if i == 0 {
      assert u[1..] == s[1..];
    } else {
      assert u[1..] == s[1..][i - 1 := x];
      TotalUpdate(s[1..], i - 1, x, w);
    }
  }
}
