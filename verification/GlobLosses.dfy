/** Every other pattern has a string that matches it and is rejected.

    There are three ways to lose a match, and each is shown for every pattern
    of its kind by a string made from the pattern:

    - whitespace in literal text after a star, which is then looked for as it
      is written;
    - a ? right after whitespace, to which the greedy run leaves nothing;
    - a star that is followed by a ? and so dropped. */
module GlobLosses {
  import opened Glob
  import opened GlobPieces
  import opened GlobSound

  // ----- every other pattern loses a match

  lemma {:induction false} RenderStrip(ts: seq<Token>, one: char, space: char)
    ensures Render(Strip(ts), one, space) == Render(ts, one, space)
  {
    if ts != [] {
      RenderStrip(ts[1..], one, space);
      if !(ts[0].AnyRun? && |ts| > 1 && ts[1].Wild()) {
        StripHead(ts);
      }
    }
  }

  lemma {:induction false} StrictIsLong(fold: bool, ts: seq<Token>, s: string, one: char, space: char)
    requires Normal(ts) && Strict(fold, ts, s)
    ensures |s| >= |Render(ts, one, space)|
  {
    StrictMatchesStripped(fold, ts, s);
    MatchIsLong(fold, Strip(ts), s, one, space);
    RenderStrip(ts, one, space);
  }

  // First kind of loss: whitespace in the text behind a star must occur exactly.

  /** The first whitespace character in the text at the front. */
  function FirstSpace(ts: seq<Token>): char
    requires Normal(ts) && !NoSpaceAhead(ts)
  {
    if ts[0].Space? then ts[0].run[0] else FirstSpace(ts[1..])
  }

  lemma {:induction false} FirstSpaceInText(ts: seq<Token>)
    requires Normal(ts) && !NoSpaceAhead(ts)
    ensures FirstSpace(ts) in LeadText(ts) && IsSpace(FirstSpace(ts))
  {
    if ts[0].Lit? {
      FirstSpaceInText(ts[1..]);
    } else {
      assert LeadText(ts)[0] == ts[0].run[0];
    }
  }

  /** A whitespace character that acceptance insists on. */
  function NeededSpace(ts: seq<Token>): char
    requires Normal(ts) && !StarsAvoidSpace(ts)
  {
    if ts[0].AnyRun? && !NoSpaceAhead(ts[1..]) then FirstSpace(ts[1..]) else NeededSpace(ts[1..])
  }

  lemma {:induction false} AfterTextAvoids(ts: seq<Token>)
    requires Normal(ts) && !StarsAvoidSpace(ts)
    ensures Normal(AfterText(ts)) && !StarsAvoidSpace(AfterText(ts)) && NeededSpace(AfterText(ts)) == NeededSpace(ts)
  {
    if ts != [] && !ts[0].Wild() {
      AfterTextAvoids(ts[1..]);
    }
  }

  lemma {:induction false} StrictNeedsSpace(fold: bool, ts: seq<Token>, s: string)
    requires Normal(ts) && Strict(fold, ts, s) && !StarsAvoidSpace(ts)
    ensures NeededSpace(ts) in s && IsSpace(NeededSpace(ts))
    decreases |ts|
  {
    if ts[0].AnyRun? && |ts| > 1 && !ts[1].Wild() {
      var i := StarFound(fold, ts, s);
      var text := LeadText(ts[1..]);
      if NoSpaceAhead(ts[1..]) {
        AfterTextAvoids(ts[1..]);
        StrictNeedsSpace(fold, AfterText(ts[1..]), s[i + |text|..]);
      } else {
        FirstSpaceInText(ts[1..]);
        OccurrenceHas(fold, text, s, i, FirstSpace(ts[1..]));
      }
    } else {
      var m := PlainRest(fold, ts, s);
      StrictNeedsSpace(fold, ts[1..], s[m..]);
    }
  }

  lemma {:induction false} OccurrenceHas(fold: bool, text: string, s: string, i: nat, c: char)
    requires OccursAt(fold, text, s, i) && c in text && IsSpace(c)
    ensures c in s
  {
    var k :| 0 <= k < |text| && text[k] == c;
    assert SameChar(fold, s[i + k], text[k]);
    SpaceIsItself(fold, s[i + k], c);
  }

  lemma {:induction false} RenderLacks(ts: seq<Token>, one: char, space: char, c: char)
    requires Normal(ts) && !IsSpace(one) && IsSpace(c) && c != space
    ensures c !in Render(ts, one, space)
  {
    if ts != [] {
      RenderLacks(ts[1..], one, space, c);
    }
  }

  lemma {:induction false} ExactTextLoses(fold: bool, ts: seq<Token>) returns (s: string)
    requires Normal(ts) && !StarsAvoidSpace(ts)
    ensures Match(fold, ts, s) && !Strict(fold, ts, s)
  {
    var c := NeededSpace(ts);
    var other := if c == ' ' then '\t' else ' ';
    s := Render(ts, 'x', other);
    RenderMatches(fold, ts, 'x', other);
    if Strict(fold, ts, s) {
      StrictNeedsSpace(fold, ts, s);
      RenderLacks(ts, 'x', other, c);
    }
  }

  // Second kind of loss: whitespace swallows what a question mark needs.

  lemma {:induction false} RenderStartsWithSpace(ts: seq<Token>)
    requires !OnlyStars(ts)
    ensures Render(ts, ' ', ' ') != [] && Render(ts, ' ', ' ')[0] == ' '
  {
    if ts[0].AnyRun? {
      RenderStartsWithSpace(ts[1..]);
      assert Render(ts, ' ', ' ') == Render(ts[1..], ' ', ' ');
    }
  }

  lemma {:induction false} TwoSpaces(s: string)
    requires |s| >= 2 && s[0] == s[1] == ' '
    ensures SpaceRun(s) >= 2
  {
  }

  lemma {:induction false} TextRenders(ts: seq<Token>)
    requires NoSpaceAhead(ts)
    ensures Render(ts, ' ', ' ') == LeadText(ts) + Render(AfterText(ts), ' ', ' ')
    ensures SpaceAvoidsOne(ts) <==> SpaceAvoidsOne(AfterText(ts))
    ensures StarsAvoidSpace(ts) ==> StarsAvoidSpace(AfterText(ts))
  {
    if ts != [] && !ts[0].Wild() {
      TextRenders(ts[1..]);
    }
  }

  /** On the shortest string every piece is as short as it can be, and a
      greedy whitespace piece is not. */
  lemma {:induction false} GreedyLoses(fold: bool, ts: seq<Token>)
    requires Normal(ts) && StarsAvoidSpace(ts) && !SpaceAvoidsOne(ts)
    ensures !Strict(fold, ts, Render(ts, ' ', ' '))
    decreases |ts|
  {
    var s := Render(ts, ' ', ' ');
    if Strict(fold, ts, s) {
      if ts[0].AnyRun? && |ts| > 1 && !ts[1].Wild() {
        var i := StarFound(fold, ts, s);
        TextRenders(ts[1..]);
        NormalAfter(ts[1..]);
        StrictIsLong(fold, AfterText(ts[1..]), s[i + |LeadText(ts[1..])|..], ' ', ' ');
        assert i == 0 && s[|LeadText(ts[1..])|..] == Render(AfterText(ts[1..]), ' ', ' ');
        GreedyLoses(fold, AfterText(ts[1..]));
      } else {
        var m := PlainRest(fold, ts, s);
        var k := RenderHead(ts, ' ', ' ');
        StrictIsLong(fold, ts[1..], s[m..], ' ', ' ');
        assert m == k;
        if SpaceAvoidsOne(ts[1..]) {
          RenderStartsWithSpace(ts[1..]);
          TwoSpaces(s);
        } else {
          GreedyLoses(fold, ts[1..]);
        }
      }
    }
  }

  // Third kind of loss: a wildcard run with a star in it that ends in a question mark.

  function Ones(g: seq<Token>): (r: seq<Token>) {
    if g == [] then [] else (if g[0].AnyOne? then [AnyOne] else []) + Ones(g[1..])
  }

  predicate AllWild(g: seq<Token>) {
    g == [] || (g[0].Wild() && AllWild(g[1..]))
  }

  /** A wildcard run, with a star in it, whose last wildcard is a question mark. */
  predicate BadRun(g: seq<Token>) {
    g != [] && AllWild(g) && AnyRun in g && g[|g| - 1].AnyOne?
  }

  lemma {:induction false} StripRun(g: seq<Token>, b: seq<Token>)
    requires AllWild(g) && g != [] && g[|g| - 1].AnyOne?
    ensures Strip(g + b) == Ones(g) + Strip(b)
  {
    assert (g + b)[1..] == g[1..] + b;
    if |g| == 1 {
      assert g[1..] + b == b && Ones(g[1..]) == [] && Ones(g) == [AnyOne];
    } else {
      assert (g + b)[1] == g[1];
      StripRun(g[1..], b);
      assert Ones(g) + Strip(b) == (if g[0].AnyOne? then [AnyOne] else []) + (Ones(g[1..]) + Strip(b));
    }
  }

  lemma {:induction false} StripPrefix(a: seq<Token>, x: seq<Token>)
    requires a != [] ==> !a[|a| - 1].Wild()
    ensures Strip(a + x) == Strip(a) + Strip(x)
    ensures a != [] ==> Strip(a) != [] && Strip(a)[|Strip(a)| - 1] == a[|a| - 1]
  {
    if a == [] {
      assert a + x == x;
    } else {
      assert (a + x)[1..] == a[1..] + x;
      StripPrefix(a[1..], x);
      if |a| > 1 { assert (a + x)[1] == a[1]; }
    }
  }

  /** A wildcard run with a star takes every string long enough. */
  lemma {:induction false} RunWithStarTakes(fold: bool, g: seq<Token>, s: string)
    requires AllWild(g) && (AnyRun in g || |s| == |Ones(g)|) && |s| >= |Ones(g)|
    ensures Match(fold, g, s)
  {
    if g != [] {
      var k := if g[0].AnyOne? then 1 else |s| - |Ones(g)|;
      RunWithStarTakes(fold, g[1..], s[k..]);
      MatchFirst(fold, g, s, k);
    }
  }

  lemma {:induction false} OnesAreExact(fold: bool, g: seq<Token>, s: string)
    requires Match(fold, Ones(g), s)
    ensures |s| == |Ones(g)|
  {
    if g != [] {
      if g[0].AnyOne? {
        var k := FirstPiece(fold, Ones(g), s);
        assert Ones(g)[1..] == Ones(g[1..]);
        OnesAreExact(fold, g[1..], s[k..]);
      } else {
        assert Ones(g) == Ones(g[1..]);
        OnesAreExact(fold, g[1..], s);
      }
    }
  }

  lemma {:induction false} RenderRun(g: seq<Token>, one: char, space: char)
    requires AllWild(g)
    ensures |Render(g, one, space)| == |Ones(g)|
    ensures forall i | 0 <= i < |Ones(g)| :: Render(g, one, space)[i] == one
  {
    if g != [] {
      RenderRun(g[1..], one, space);
    }
  }

  predicate Takes(fold: bool, t: Token, y: char) {
    match t
    case Lit(c) => SameChar(fold, y, c)
    case Space(_) => IsSpace(y)
    case _ => true
  }

  predicate LastRefuses(fold: bool, a: seq<Token>, y: char) {
    a != [] ==> !a[|a| - 1].Wild() && !Takes(fold, a[|a| - 1], y)
  }

  predicate FirstRefuses(fold: bool, b: seq<Token>, y: char) {
    b != [] ==> !b[0].Wild() && !Takes(fold, b[0], y)
  }

  /** A character that neither of two non-wildcard neighbours takes. */
  lemma {:induction false} PickChar(fold: bool, a: seq<Token>, b: seq<Token>) returns (y: char)
    requires a != [] ==> !a[|a| - 1].Wild()
    requires b != [] ==> !b[0].Wild()
    ensures LastRefuses(fold, a, y) && FirstRefuses(fold, b, y)
  {
    y := if LastRefuses(fold, a, 'x') && FirstRefuses(fold, b, 'x') then 'x'
         else if LastRefuses(fold, a, 'y') && FirstRefuses(fold, b, 'y') then 'y' else 'z';
  }

  lemma {:induction false} LastTaken(fold: bool, r: seq<Token>, u: string)
    requires r != [] && !r[|r| - 1].Wild() && Match(fold, r, u)
    ensures u != [] && Takes(fold, r[|r| - 1], u[|u| - 1])
  {
    var n := |r| - 1;
    assert r == r[..n] + [r[n]];
    var k := MatchSplit(fold, r[..n], [r[n]], u);
    var m := FirstPiece(fold, [r[n]], u[k..]);
    assert u[k..][..m] == u[k..];
    assert u[k..][m - 1] == u[|u| - 1];
  }

  lemma {:induction false} FirstTaken(fold: bool, r: seq<Token>, u: string)
    requires r != [] && !r[0].Wild() && Match(fold, r, u)
    ensures u != [] && Takes(fold, r[0], u[0])
  {
    var m := FirstPiece(fold, r, u);
    assert u[..m][0] == u[0];
  }

  lemma {:induction false} PrefixCannotGrow(fold: bool, a: seq<Token>, y: char, u: string)
    requires LastRefuses(fold, a, y) && u != [] && u[|u| - 1] == y
    ensures !Match(fold, Strip(a), u)
  {
    StripPrefix(a, []);
    if a != [] && Match(fold, Strip(a), u) {
      LastTaken(fold, Strip(a), u);
    }
  }

  lemma {:induction false} SuffixCannotGrow(fold: bool, b: seq<Token>, y: char, u: string)
    requires FirstRefuses(fold, b, y) && u != [] && u[0] == y
    ensures !Match(fold, Strip(b), u)
  {
    if b != [] && Match(fold, Strip(b), u) {
      StripHead(b);
      FirstTaken(fold, Strip(b), u);
    }
  }

  lemma {:induction false} NoRoomForExtra(fold: bool, a: seq<Token>, g: seq<Token>, b: seq<Token>, y: char, s: string,
      la: nat)
    requires LastRefuses(fold, a, y) && FirstRefuses(fold, b, y)
    requires la == |Render(a, y, ' ')| && |s| == la + 1 + |Ones(g)| + |Render(b, y, ' ')|
    requires s[la] == y && s[la + |Ones(g)|] == y
    ensures !Match(fold, Strip(a) + (Ones(g) + Strip(b)), s)
  {
    if Match(fold, Strip(a) + (Ones(g) + Strip(b)), s) {
      var j := MatchSplit(fold, Strip(a), Ones(g) + Strip(b), s);
      var k := MatchSplit(fold, Ones(g), Strip(b), s[j..]);
      OnesAreExact(fold, g, s[j..][..k]);
      MatchIsLong(fold, Strip(a), s[..j], y, ' ');
      MatchIsLong(fold, Strip(b), s[j..][k..], y, ' ');
      RenderStrip(a, y, ' ');
      RenderStrip(b, y, ' ');
      assert s[j..][k..] == s[j + |Ones(g)|..];
      if j == la {
        SuffixCannotGrow(fold, b, y, s[j + |Ones(g)|..]);
      } else {
        PrefixCannotGrow(fold, a, y, s[..j]);
      }
    }
  }

  /** The witness: the shortest string with one extra character for the star. */
  lemma {:induction false} DroppedStarMatches(fold: bool, a: seq<Token>, g: seq<Token>, b: seq<Token>, y: char)
    requires BadRun(g)
    ensures Match(fold, a + g + b, Render(a, y, ' ') + ([y] + Render(g, y, ' ')) + Render(b, y, ' '))
  {
    RenderMatches(fold, a, y, ' ');
    RenderMatches(fold, b, y, ' ');
    RenderRun(g, y, ' ');
    RunWithStarTakes(fold, g, [y] + Render(g, y, ' '));
    MatchConcat(fold, a, Render(a, y, ' '), g, [y] + Render(g, y, ' '));
    MatchConcat(fold, a + g, Render(a, y, ' ') + ([y] + Render(g, y, ' ')), b, Render(b, y, ' '));
  }

  lemma {:induction false} DroppedStarRejects(fold: bool, a: seq<Token>, g: seq<Token>, b: seq<Token>, y: char)
    requires BadRun(g) && Normal(a + g + b) && LastRefuses(fold, a, y) && FirstRefuses(fold, b, y)
    ensures !Strict(fold, a + g + b, Render(a, y, ' ') + ([y] + Render(g, y, ' ')) + Render(b, y, ' '))
  {
    var s := Render(a, y, ' ') + ([y] + Render(g, y, ' ')) + Render(b, y, ' ');
    if Strict(fold, a + g + b, s) {
      StrictMatchesStripped(fold, a + g + b, s);
      assert a + g + b == a + (g + b);
      StripPrefix(a, g + b);
      StripRun(g, b);
      RenderRun(g, y, ' ');
      NoRoomForExtra(fold, a, g, b, y, s, |Render(a, y, ' ')|);
    }
  }

  /** A bad run stands out between its neighbours. */
  lemma {:induction false} FindBadRun(ts: seq<Token>) returns (a: seq<Token>, g: seq<Token>, b: seq<Token>)
    requires !StarsLast(ts)
    ensures ts == a + g + b && BadRun(g)
    ensures (a != [] ==> !a[|a| - 1].Wild()) && (b != [] ==> !b[0].Wild())
  {
    if StarsLast(ts[1..]) {
      LeadRunIs(ts);
      a, g, b := [], LeadRun(ts), ts[|LeadRun(ts)|..];
      assert g[0] == AnyRun;
    } else {
      a, g, b := FindBadRun(ts[1..]);
      if a == [] && ts[0].Wild() {
        g := [ts[0]] + g;
      } else {
        a := [ts[0]] + a;
      }
    }
  }

  function LeadRun(ts: seq<Token>): (r: seq<Token>)
    ensures |r| <= |ts|
  {
    if ts == [] || !ts[0].Wild() then [] else [ts[0]] + LeadRun(ts[1..])
  }

  lemma {:induction false} LeadRunIs(ts: seq<Token>)
    requires ts != [] && ts[0].Wild()
    ensures var g := LeadRun(ts); var b := ts[|g|..];
            g != [] && ts == g + b && AllWild(g) && (b != [] ==> !b[0].Wild())
                && (EndsInStar(ts) <==> g[|g| - 1].AnyRun?) && g[|g| - 1].Wild()
  {
    if |ts| > 1 && ts[1].Wild() {
      LeadRunIs(ts[1..]);
      assert ts[|LeadRun(ts)|..] == ts[1..][|LeadRun(ts[1..])|..];
    } else {
      assert LeadRun(ts[1..]) == [];
    }
  }

  /** Every unsafe pattern rejects some string it should match. */
  lemma {:induction false} UnsafeLoses(fold: bool, ts: seq<Token>) returns (s: string)
    requires Normal(ts) && !Safe(ts)
    ensures Match(fold, ts, s) && !Strict(fold, ts, s)
  {
    if !StarsAvoidSpace(ts) {
      s := ExactTextLoses(fold, ts);
    } else if !SpaceAvoidsOne(ts) {
      s := Render(ts, ' ', ' ');
      RenderMatches(fold, ts, ' ', ' ');
      GreedyLoses(fold, ts);
    } else {
      var a, g, b := FindBadRun(ts);
      var y := PickChar(fold, a, b);
      s := Render(a, y, ' ') + ([y] + Render(g, y, ' ')) + Render(b, y, ' ');
      DroppedStarMatches(fold, a, g, b, y);
      DroppedStarRejects(fold, a, g, b, y);
    }
  }
}
