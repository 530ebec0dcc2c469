/** Whatever the glob matcher accepts matches: `Glob.Match` is the meaning of a
    pattern, `Glob.Accepts` is what the code accepts. */
module GlobSound {
  import opened Glob
  import opened GlobPieces

  // ----- soundness: dropped stars only lose matches

  /** The pattern as the matcher sees it: a star in front of a wildcard is gone. */
  function Strip(ts: seq<Token>): (r: seq<Token>) {
    if ts == [] then []
    else if ts[0].AnyRun? && |ts| > 1 && ts[1].Wild() then Strip(ts[1..])
    else [ts[0]] + Strip(ts[1..])
  }

  lemma {:induction false} StripHead(ts: seq<Token>)
    requires ts != [] && !(ts[0].AnyRun? && |ts| > 1 && ts[1].Wild())
    ensures Strip(ts) != [] && Strip(ts)[0] == ts[0] && Strip(ts)[1..] == Strip(ts[1..])
  {
  }

  lemma {:induction false} StripOnlyLoses(fold: bool, ts: seq<Token>, s: string)
    requires Match(fold, Strip(ts), s)
    ensures Match(fold, ts, s)
  {
    if ts != [] {
      if ts[0].AnyRun? && |ts| > 1 && ts[1].Wild() {
        StripOnlyLoses(fold, ts[1..], s);
        assert s[0..] == s;
        MatchFirst(fold, ts, s, 0);
      } else {
        StripHead(ts);
        var k := FirstPiece(fold, Strip(ts), s);
        StripOnlyLoses(fold, ts[1..], s[k..]);
        MatchFirst(fold, ts, s, k);
      }
    }
  }

  /** Only whitespace equals whitespace, with or without case folding. */
  lemma {:induction false} SpaceIsItself(fold: bool, a: char, b: char)
    requires SameChar(fold, a, b) && IsSpace(b)
    ensures a == b
  {
  }

  /** An occurrence of a text is an occurrence of its front and then its back. */
  lemma {:induction false} OccursCut(fold: bool, text: string, s: string, i: nat, k: nat)
    requires OccursAt(fold, text, s, i) && k <= |text|
    ensures OccursAt(fold, text[k..], s[i + k..], 0)
    ensures forall j | 0 <= j < k :: SameChar(fold, s[i..][..k][j], text[j])
    ensures s[i + k..][|text| - k..] == s[i + |text|..] && s[i..][k..] == s[i + k..]
  {
    forall j | 0 <= j < |text| - k
      ensures SameChar(fold, s[i + k..][0 + j], text[k..][j])
    {
      assert SameChar(fold, s[i + (k + j)], text[k + j]);
    }
  }

  function PieceWidth(t: Token): nat {
    match t
    case Space(run) => |run|
    case _ => 1
  }

  /** The leading text found, and a match of what is behind it. */
  lemma {:induction false} TextThenRest(fold: bool, ts: seq<Token>, s: string)
    requires Normal(ts) && OccursAt(fold, LeadText(ts), s, 0)
    requires Match(fold, Strip(AfterText(ts)), s[|LeadText(ts)|..])
    ensures Match(fold, Strip(ts), s)
  {
    if ts == [] || ts[0].Wild() {
      assert s[0..] == s;
    } else {
      var k := PieceWidth(ts[0]);
      assert LeadText(ts)[k..] == LeadText(ts[1..]);
      OccursCut(fold, LeadText(ts), s, 0, k);
      TextThenRest(fold, ts[1..], s[k..]);
      StripHead(ts);
      TextPiece(fold, ts, s);
      MatchFirst(fold, Strip(ts), s, k);
    }
  }

  lemma {:induction false} TextPiece(fold: bool, ts: seq<Token>, s: string)
    requires ts != [] && !ts[0].Wild() && Normal(ts) && OccursAt(fold, LeadText(ts), s, 0)
    ensures PieceWidth(ts[0]) <= |s| && Piece(fold, ts[0], s[..PieceWidth(ts[0])])
  {
    var k := PieceWidth(ts[0]);
    OccursCut(fold, LeadText(ts), s, 0, k);
    assert s[0..] == s;
    if ts[0].Space? {
      forall j | 0 <= j < k ensures IsSpace(s[..k][j]) {
        SpaceIsItself(fold, s[..k][j], LeadText(ts)[j]);
      }
    }
  }

  /** Acceptance unfolded at a star with text behind it. */
  lemma {:induction false} StarFound(fold: bool, ts: seq<Token>, s: string) returns (i: nat)
    requires Strict(fold, ts, s) && |ts| > 1 && ts[0].AnyRun? && !ts[1].Wild()
    ensures FoundAt(fold, ts[1..], s, i)
  {
    var j :| FoundAt(fold, ts[1..], s, j);
    i := j;
  }

  /** Acceptance unfolded at any other token with tokens behind it. */
  lemma {:induction false} PlainRest(fold: bool, ts: seq<Token>, s: string) returns (m: nat)
    requires Strict(fold, ts, s) && ts != [] && !(ts[0].AnyRun? && (|ts| == 1 || !ts[1].Wild()))
    ensures m <= |s| && Strict(fold, ts[1..], s[m..])
    ensures if ts[0].AnyRun? then m == 0 else Piece(fold, ts[0], s[..m])
    ensures ts[0].Space? ==> m == SpaceRun(s)
  {
    m := match ts[0] case Space(_) => SpaceRun(s) case AnyRun => 0 case _ => 1;
    assert s[0..] == s;
  }

  lemma {:induction false} StrictMatchesStripped(fold: bool, ts: seq<Token>, s: string)
    requires Normal(ts) && Strict(fold, ts, s)
    ensures Match(fold, Strip(ts), s)
    decreases |ts|
  {
    if ts == [] {
    } else if ts[0].AnyRun? && |ts| == 1 {
      assert s[|s|..] == [] && Strip(ts[1..]) == [] && Strip(ts) == [AnyRun];
      MatchFirst(fold, Strip(ts), s, |s|);
    } else if ts[0].AnyRun? && !ts[1].Wild() {
      var i := StarFound(fold, ts, s);
      var text := LeadText(ts[1..]);
      NormalAfter(ts[1..]);
      StrictMatchesStripped(fold, AfterText(ts[1..]), s[i + |text|..]);
      OccursCut(fold, text, s, i, 0);
      assert text[0..] == text;
      TextThenRest(fold, ts[1..], s[i..]);
      StripHead(ts);
      MatchFirst(fold, Strip(ts), s, i);
    } else {
      var m := PlainRest(fold, ts, s);
      StrictMatchesStripped(fold, ts[1..], s[m..]);
      if ts[0].AnyRun? {
        assert s[0..] == s;
      } else {
        StripHead(ts);
        MatchFirst(fold, Strip(ts), s, m);
      }
    }
  }

  lemma {:induction false} NormalAfter(ts: seq<Token>)
    requires Normal(ts)
    ensures Normal(AfterText(ts))
  {
    if ts != [] && !ts[0].Wild() {
      NormalAfter(ts[1..]);
    }
  }

  /** Soundness on all inputs: what the matcher accepts does match. */
  lemma {:induction false} AcceptedMatches(fold: bool, p: string, s: string)
    requires Accepts(fold, p, s)
    ensures Matches(fold, p, s)
  {
    TokensNormal(p);
    StrictMatchesStripped(fold, Tokens(p), s);
    StripOnlyLoses(fold, Tokens(p), s);
  }
}
