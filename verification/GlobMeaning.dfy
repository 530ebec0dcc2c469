/** What the glob matcher gets right: it and the meaning of a pattern agree on
    all strings exactly for the well-behaved patterns. */
module GlobMeaning {
  import opened Glob
  import opened GlobPieces
  import opened GlobSound
  import opened GlobComplete
  import opened GlobLosses

  /** Main result: the matcher agrees with the meaning of a pattern on all
      strings exactly when the pattern is well behaved. */
  lemma {:induction false} FaithfulExactlyWhenWellBehaved(fold: bool, p: string)
    ensures (forall s :: Accepts(fold, p, s) <==> Matches(fold, p, s)) <==> WellBehaved(p)
  {
    var ts := Tokens(p);
    TokensNormal(p);
    if WellBehaved(p) {
      forall s
        ensures Accepts(fold, p, s) <==> Matches(fold, p, s)
      {
        if Accepts(fold, p, s) { AcceptedMatches(fold, p, s); }
        if Matches(fold, p, s) { SafeIsComplete(fold, ts, s); }
      }
    } else if !Safe(ts) {
      var s := UnsafeLoses(fold, ts);
      assert Matches(fold, p, s) && !Accepts(fold, p, s);
    } else {
      var s := Render(ts, 'x', ' ');
      RenderMatches(fold, ts, 'x', ' ');
      assert Matches(fold, p, s) && !Accepts(fold, p, s);
    }
  }
}
