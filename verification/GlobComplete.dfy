/** On the patterns it can be relied on the glob matcher finds every match,
    although it takes whitespace greedily and literal text from the left. */
module GlobComplete {
  import opened Glob
  import opened GlobPieces

  // ----- completeness on well-behaved patterns

  /** A wildcard run that ends in a star also takes any extra characters in front. */
  lemma {:induction false} RunTakesMore(fold: bool, ts: seq<Token>, s: string, k: nat)
    requires ts != [] && ts[0].Wild() && EndsInStar(ts)
    requires k <= |s| && Match(fold, ts, s[k..])
    ensures Match(fold, ts, s)
  {
    var m := FirstPiece(fold, ts, s[k..]);
    if ts[0].AnyRun? {
      assert s[k..][m..] == s[k + m..];
      MatchFirst(fold, ts, s, k + m);
    } else {
      assert s[k..][1..] == s[1..][k..];
      RunTakesMore(fold, ts[1..], s[1..], k);
      MatchFirst(fold, ts, s, 1);
    }
  }

  lemma {:induction false} MatchedTextOccurs(fold: bool, ts: seq<Token>, s: string)
    requires Match(fold, ts, s) && NoSpaceAhead(ts)
    ensures OccursAt(fold, LeadText(ts), s, 0)
    ensures Match(fold, AfterText(ts), s[|LeadText(ts)|..])
  {
    if ts == [] || ts[0].Wild() {
      assert s[0..] == s;
    } else {
      var k := FirstPiece(fold, ts, s);
      MatchedTextOccurs(fold, ts[1..], s[1..]);
      OccursCons(fold, ts[0].c, LeadText(ts[1..]), s);
      assert s[1..][|LeadText(ts[1..])|..] == s[|LeadText(ts)|..];
    }
  }

  lemma {:induction false} OccursCons(fold: bool, c: char, text: string, s: string)
    requires s != [] && SameChar(fold, s[0], c) && OccursAt(fold, text, s[1..], 0)
    ensures OccursAt(fold, [c] + text, s, 0)
  {
    forall i | 0 <= i < |[c] + text|
      ensures SameChar(fold, s[0 + i], ([c] + text)[i])
    {
      if i > 0 { assert SameChar(fold, s[1..][0 + (i - 1)], text[i - 1]); }
    }
  }

  lemma {:induction false} LiteralIsNotSpace(fold: bool, a: char, c: char)
    requires SameChar(fold, a, c) && !IsSpace(c)
    ensures !IsSpace(a)
  {
  }

  /** Taking all the whitespace there is does no harm in front of a safe rest. */
  lemma {:induction false} GreedyIsHarmless(fold: bool, ts: seq<Token>, s: string, m: nat)
    requires Normal(ts) && StarsAvoidSpace(ts) && OnlyStars(ts) && NoSpaceFirst(ts)
    requires Match(fold, ts, s) && m <= |s| && AllSpace(s[..m])
    ensures Match(fold, ts, s[m..])
  {
    if m == 0 {
      assert s[0..] == s;
    } else if ts != [] {
      var k := FirstPiece(fold, ts, s);
      if ts[0].Lit? {
        assert s[..m][0] == s[0] && s[..k][0] == s[0];
        LiteralIsNotSpace(fold, s[0], ts[0].c);
      } else if k >= m {
        assert s[m..][k - m..] == s[k..];
        MatchFirst(fold, ts, s[m..], k - m);
      } else {
        CutTwice(s, k, m - k);
        assert s[..m][k..] == s[k..][..m - k];
        GreedyIsHarmless(fold, ts[1..], s[k..], m - k);
        assert s[m..][0..] == s[m..];
        MatchFirst(fold, ts, s[m..], 0);
      }
    }
  }

  predicate NoSpaceFirst(ts: seq<Token>) {
    ts == [] || !ts[0].Space?
  }

  lemma {:induction false} SpaceRunCovers(s: string, k: nat)
    requires k <= |s| && AllSpace(s[..k])
    ensures k <= SpaceRun(s)
  {
    if k > 0 {
      assert s[..k][0] == s[0] && s[..k][1..] == s[1..][..k - 1];
      SpaceRunCovers(s[1..], k - 1);
    }
  }

  lemma {:induction false} SpaceRunTail(s: string, k: nat)
    requires k <= SpaceRun(s)
    ensures AllSpace(s[k..][..SpaceRun(s) - k])
  {
    assert s[..SpaceRun(s)][k..] == s[k..][..SpaceRun(s) - k];
  }

  lemma {:induction false} SafeIsComplete(fold: bool, ts: seq<Token>, s: string)
    requires Normal(ts) && Safe(ts) && Match(fold, ts, s)
    ensures Strict(fold, ts, s)
    decreases |ts|
  {
    if ts != [] {
      var k := FirstPiece(fold, ts, s);
      match ts[0]
      case AnyOne => SafeIsComplete(fold, ts[1..], s[1..]);
      case Lit(c) => SafeIsComplete(fold, ts[1..], s[1..]);
      case Space(_) => SafeSpaceIsComplete(fold, ts, s, k);
      case AnyRun =>
        if |ts| > 1 && ts[1].Wild() {
          RunTakesMore(fold, ts[1..], s, k);
          SafeIsComplete(fold, ts[1..], s);
        } else if |ts| > 1 {
          SafeTextIsComplete(fold, ts, s, k);
        }
    }
  }

  lemma {:induction false} SafeSpaceIsComplete(fold: bool, ts: seq<Token>, s: string, k: nat)
    requires ts != [] && ts[0].Space? && Normal(ts) && Safe(ts)
    requires k <= |s| && Piece(fold, ts[0], s[..k]) && Match(fold, ts[1..], s[k..])
    ensures Strict(fold, ts, s)
    decreases |ts|, 0
  {
    var n := SpaceRun(s);
    SpaceRunCovers(s, k);
    SpaceRunTail(s, k);
    GreedyIsHarmless(fold, ts[1..], s[k..], n - k);
    assert s[k..][n - k..] == s[n..];
    SafeIsComplete(fold, ts[1..], s[n..]);
  }

  lemma {:induction false} SafeAfter(ts: seq<Token>)
    requires Normal(ts) && Safe(ts)
    ensures Normal(AfterText(ts)) && Safe(AfterText(ts))
  {
    if ts != [] && !ts[0].Wild() {
      SafeAfter(ts[1..]);
    }
  }

  lemma {:induction false} SafeTextIsComplete(fold: bool, ts: seq<Token>, s: string, k: nat)
    requires |ts| > 1 && ts[0].AnyRun? && !ts[1].Wild() && Normal(ts) && Safe(ts)
    requires k <= |s| && Match(fold, ts[1..], s[k..])
    ensures Strict(fold, ts, s)
    decreases |ts|, 0
  {
    var text := LeadText(ts[1..]);
    MatchedTextOccurs(fold, ts[1..], s[k..]);
    OccursShifted(fold, text, s, k);
    SafeAfter(ts[1..]);
    SafeIsComplete(fold, AfterText(ts[1..]), s[k + |text|..]);
    assert FoundAt(fold, ts[1..], s, k);
  }

  lemma {:induction false} OccursShifted(fold: bool, text: string, s: string, k: nat)
    requires k <= |s| && OccursAt(fold, text, s[k..], 0)
    ensures OccursAt(fold, text, s, k) && s[k..][|text|..] == s[k + |text|..]
  {
    forall i | 0 <= i < |text| ensures SameChar(fold, s[k + i], text[i]) {
      assert SameChar(fold, s[k..][0 + i], text[i]);
    }
  }
}
