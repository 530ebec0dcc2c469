/** How a matching string is cut along its pattern, the shortest strings that
    match, and the patterns on which the matcher can be relied. */
module GlobPieces {
  import opened Glob

  // ----- cutting a string into pieces

  lemma {:induction false} FirstPiece(fold: bool, ts: seq<Token>, s: string) returns (k: nat)
    requires ts != [] && Match(fold, ts, s)
    ensures k <= |s| && Piece(fold, ts[0], s[..k]) && Match(fold, ts[1..], s[k..])
  {
    var i :| CutAt(fold, ts, s, i);
    k := i;
  }

  lemma {:induction false} MatchFirst(fold: bool, ts: seq<Token>, s: string, k: nat)
    requires ts != [] && k <= |s| && Piece(fold, ts[0], s[..k]) && Match(fold, ts[1..], s[k..])
    ensures Match(fold, ts, s)
  {
    assert CutAt(fold, ts, s, k);
  }

  lemma {:induction false} CutTwice(s: string, m: nat, n: nat)
    requires m + n <= |s|
    ensures s[..m + n][..m] == s[..m] && s[..m + n][m..] == s[m..][..n] && s[m..][n..] == s[m + n..]
  {
  }

  lemma {:induction false} MatchConcat(fold: bool, a: seq<Token>, x: string, b: seq<Token>, y: string)
    requires Match(fold, a, x) && Match(fold, b, y)
    ensures Match(fold, a + b, x + y)
  {
    if a == [] {
      assert a + b == b && x + y == y;
    } else {
      var k := FirstPiece(fold, a, x);
      MatchConcat(fold, a[1..], x[k..], b, y);
      assert (a + b)[1..] == a[1..] + b;
      assert (x + y)[..k] == x[..k] && (x + y)[k..] == x[k..] + y;
      MatchFirst(fold, a + b, x + y, k);
    }
  }

  lemma {:induction false} MatchSplit(fold: bool, a: seq<Token>, b: seq<Token>, s: string) returns (k: nat)
    requires Match(fold, a + b, s)
    ensures k <= |s| && Match(fold, a, s[..k]) && Match(fold, b, s[k..])
  {
    if a == [] {
      k := 0;
      assert a + b == b && s[0..] == s;
    } else {
      assert (a + b)[1..] == a[1..] + b;
      var m := FirstPiece(fold, a + b, s);
      var n := MatchSplit(fold, a[1..], b, s[m..]);
      k := m + n;
      CutTwice(s, m, n);
      MatchFirst(fold, a, s[..k], m);
    }
  }

  // ----- the shortest strings of a pattern

  /** One string a pattern matches: stars empty, one character per token. */
  function Render(ts: seq<Token>, one: char, space: char): (s: string) {
    if ts == [] then []
    else
      (match ts[0]
       case AnyOne => [one]
       case AnyRun => []
       case Space(_) => [space]
       case Lit(c) => [c]) + Render(ts[1..], one, space)
  }

  lemma {:induction false} RenderHead(ts: seq<Token>, one: char, space: char) returns (k: nat)
    requires ts != []
    ensures k == (if ts[0].AnyRun? then 0 else 1) && k <= |Render(ts, one, space)|
    ensures Render(ts, one, space)[k..] == Render(ts[1..], one, space)
  {
    k := if ts[0].AnyRun? then 0 else 1;
  }

  lemma {:induction false} RenderMatches(fold: bool, ts: seq<Token>, one: char, space: char)
    requires IsSpace(space)
    ensures Match(fold, ts, Render(ts, one, space))
  {
    if ts != [] {
      RenderMatches(fold, ts[1..], one, space);
      var k := RenderHead(ts, one, space);
      MatchFirst(fold, ts, Render(ts, one, space), k);
    }
  }

  /** No matching string is shorter than a rendered one. */
  lemma {:induction false} MatchIsLong(fold: bool, ts: seq<Token>, s: string, one: char, space: char)
    requires Match(fold, ts, s)
    ensures |s| >= |Render(ts, one, space)|
  {
    if ts != [] {
      var k := FirstPiece(fold, ts, s);
      MatchIsLong(fold, ts[1..], s[k..], one, space);
    }
  }

  // ----- the well-behaved patterns

  /** The wildcard run at the front ends in a star. */
  predicate EndsInStar(ts: seq<Token>)
    requires ts != []
  {
    if |ts| > 1 && ts[1].Wild() then EndsInStar(ts[1..]) else ts[0].AnyRun?
  }

  /** The wildcard run at the front, if any, is all stars. */
  predicate OnlyStars(ts: seq<Token>) {
    ts == [] || !ts[0].Wild() || (ts[0].AnyRun? && OnlyStars(ts[1..]))
  }

  /** The text at the front, if any, has no whitespace. */
  predicate NoSpaceAhead(ts: seq<Token>) {
    ts == [] || ts[0].Wild() || (ts[0].Lit? && NoSpaceAhead(ts[1..]))
  }

  /** No star has whitespace in the text directly behind it. */
  predicate StarsAvoidSpace(ts: seq<Token>) {
    ts == [] || ((ts[0].AnyRun? ==> NoSpaceAhead(ts[1..])) && StarsAvoidSpace(ts[1..]))
  }

  /** The wildcards directly behind whitespace are all stars. */
  predicate SpaceAvoidsOne(ts: seq<Token>) {
    ts == [] || ((ts[0].Space? ==> OnlyStars(ts[1..])) && SpaceAvoidsOne(ts[1..]))
  }

  /** Every wildcard run with a star in it ends in a star. */
  predicate StarsLast(ts: seq<Token>) {
    ts == [] || ((ts[0].AnyRun? ==> EndsInStar(ts)) && StarsLast(ts[1..]))
  }

  predicate Safe(ts: seq<Token>) {
    StarsAvoidSpace(ts) && SpaceAvoidsOne(ts) && StarsLast(ts)
  }

  /** Decidable from the pattern alone, before any string is seen. */
  predicate WellBehaved(p: string) {
    Safe(Tokens(p)) && 1 + Groups(Tokens(p)) <= MAX_DEPTH
  }
}
