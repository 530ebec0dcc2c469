/** The glob matcher of src/memmgr/str.c: strichr, strstrn/stristrn and
    strpat_r/stripat_r. The case-folding twins differ from the plain functions
    only in how two characters are compared, so `fold` selects the twin.
    Strings are the characters in front of the terminator. */
module Glob {
  // ----- characters

  /** isspace in the C locale. */
  predicate IsSpace(c: char) {
    c == ' ' || '\t' <= c <= '\r'
  }

  /** toupper in the C locale. */
  function ToUpper(c: char): char {
    if 'a' <= c <= 'z' then c - 'a' + 'A' else c
  }

  predicate SameChar(fold: bool, a: char, b: char) {
    if fold then ToUpper(a) == ToUpper(b) else a == b
  }

  /** Folding makes the two cases of a letter one, and no other characters. */
  lemma {:induction false} CasesAreOne(a: char, b: char)
    ensures SameChar(true, a, b) <==>
            a == b || ('a' <= a <= 'z' && b as int == a as int - 32) || ('a' <= b <= 'z' && a as int == b as int - 32)
    ensures SameChar(false, a, b) <==> a == b
    ensures IsSpace(a) <==> a as int == 32 || 9 <= a as int <= 13
  {
  }

  predicate AllSpace(s: string) {
    forall i | 0 <= i < |s| :: IsSpace(s[i])
  }

  /** The length of the whitespace run at the front of s. */
  function SpaceRun(s: string): (n: nat)
    ensures n <= |s| && AllSpace(s[..n]) && (n < |s| ==> !IsSpace(s[n]))
  {
    if s == [] || !IsSpace(s[0]) then 0
    else
      var n := 1 + SpaceRun(s[1..]);
      assert forall i | 0 < i < |s| :: s[i] == s[1..][i - 1];
      n
  }

  // ----- patterns as tokens

  /** A pattern is a sequence of tokens; a whitespace run is one token. */
  datatype Token = AnyOne | AnyRun | Space(run: string) | Lit(c: char) {
    predicate Wild() {
      AnyOne? || AnyRun?
    }
  }

  function Tokens(p: string): (ts: seq<Token>)
  {
    if p == [] then []
    else if p[0] == '?' then [AnyOne] + Tokens(p[1..])
    else if p[0] == '*' then [AnyRun] + Tokens(p[1..])
    else if IsSpace(p[0]) then [Space(p[..SpaceRun(p)])] + Tokens(p[SpaceRun(p)..])
    else [Lit(p[0])] + Tokens(p[1..])
  }

  /** What tokenizing guarantees: whitespace tokens are nonempty runs that do
      not touch, and literals are not whitespace. */
  ghost predicate Normal(ts: seq<Token>) {
    ts != [] ==>
      && (ts[0].Space? ==> ts[0].run != [] && AllSpace(ts[0].run) && (|ts| > 1 ==> !ts[1].Space?))
      && (ts[0].Lit? ==> !IsSpace(ts[0].c))
      && Normal(ts[1..])
  }

  lemma {:induction false} TokensNormal(p: string)
    ensures Normal(Tokens(p))
    ensures p != [] ==> Tokens(p) != [] && (Tokens(p)[0].Space? <==> IsSpace(p[0]))
    decreases |p|
  {
    if p != [] {
      if IsSpace(p[0]) {
        TokensNormal(p[SpaceRun(p)..]);
      } else {
        TokensNormal(p[1..]);
      }
    }
  }

  // ----- what a pattern means

  /** The strings one token stands for. */
  ghost predicate Piece(fold: bool, t: Token, x: string) {
    match t
    case AnyOne => |x| == 1
    case AnyRun => true
    case Space(_) => x != [] && AllSpace(x)
    case Lit(c) => |x| == 1 && SameChar(fold, x[0], c)
  }

  /** A string matches when it can be cut into one piece for each token. */
  ghost predicate Match(fold: bool, ts: seq<Token>, s: string)
    decreases |ts|, 1
  {
    if ts == [] then s == [] else exists k :: CutAt(fold, ts, s, k)
  }

  /** The first piece has length k and the rest matches too. */
  ghost predicate CutAt(fold: bool, ts: seq<Token>, s: string, k: int)
    requires ts != []
    decreases |ts|, 0
  {
    0 <= k <= |s| && Piece(fold, ts[0], s[..k]) && Match(fold, ts[1..], s[k..])
  }

  // ----- what the matcher accepts

  /** The text of the tokens in front of the first wildcard. */
  function LeadText(ts: seq<Token>): string {
    if ts == [] then []
    else
      match ts[0]
      case Lit(c) => [c] + LeadText(ts[1..])
      case Space(run) => run + LeadText(ts[1..])
      case _ => []
  }

  /** The tokens from the first wildcard on. */
  function AfterText(ts: seq<Token>): (r: seq<Token>)
    ensures |r| <= |ts| && (ts != [] && !ts[0].Wild() ==> |r| < |ts|)
  {
    if ts == [] || ts[0].Wild() then ts else AfterText(ts[1..])
  }

  ghost predicate OccursAt(fold: bool, text: string, s: string, i: int) {
    0 <= i <= |s| - |text| && forall k | 0 <= k < |text| :: SameChar(fold, s[i + k], text[k])
  }

  /** Acceptance, apart from the depth limit: a star in front of another
      wildcard is dropped, the text behind a star must occur exactly, and
      whitespace outside such text takes all the whitespace there is. */
  ghost predicate Strict(fold: bool, ts: seq<Token>, s: string)
    decreases |ts|, 1
  {
    if ts == [] then s == []
    else
      match ts[0]
      case AnyOne => s != [] && Strict(fold, ts[1..], s[1..])
      case AnyRun =>
        |ts| == 1 ||
        (if ts[1].Wild() then Strict(fold, ts[1..], s) else exists i :: FoundAt(fold, ts[1..], s, i))
      case Space(_) => SpaceRun(s) > 0 && Strict(fold, ts[1..], s[SpaceRun(s)..])
      case Lit(c) => s != [] && SameChar(fold, s[0], c) && Strict(fold, ts[1..], s[1..])
  }

  /** The leading text of the pattern occurs at position i, and the rest
      accepts what follows it. */
  ghost predicate FoundAt(fold: bool, ts: seq<Token>, s: string, i: int)
    decreases |ts|, if ts != [] && !ts[0].Wild() then 0 else 2
  {
    && ts != [] && !ts[0].Wild()
    && OccursAt(fold, LeadText(ts), s, i)
    && Strict(fold, AfterText(ts), s[i + |LeadText(ts)|..])
  }

  /** The number of stars with text behind them; each costs one recursion. */
  function Groups(ts: seq<Token>): nat {
    if ts == [] then 0
    else (if ts[0].AnyRun? && |ts| > 1 && !ts[1].Wild() then 1 else 0) + Groups(ts[1..])
  }

  const MAX_DEPTH: nat := 15

  /** The outcome of strpat on pattern p and string s: zero or not. */
  ghost predicate Accepts(fold: bool, p: string, s: string) {
    Strict(fold, Tokens(p), s) && 1 + Groups(Tokens(p)) <= MAX_DEPTH
  }

  ghost predicate Matches(fold: bool, p: string, s: string) {
    Match(fold, Tokens(p), s)
  }

  // ----- the code

  /** strichr, from position `from`: the first character that equals the
      needle up to case. */
  method StrIChr(s: string, from: nat, needle: char) returns (found: bool, at: nat)
    requires from <= |s|
    ensures found ==>
            from <= at < |s| && SameChar(true, s[at], needle)
            && forall k | from <= k < at :: !SameChar(true, s[k], needle)
    ensures !found ==> forall k | from <= k < |s| :: !SameChar(true, s[k], needle)
  {
    at := from;
    while at < |s|
      invariant from <= at <= |s|
      invariant forall k | from <= k < at :: !SameChar(true, s[k], needle)
    {
      if ToUpper(needle) == ToUpper(s[at]) {
        return true, at;
      }
      at := at + 1;
    }
    return false, 0;
  }

  /** strncmp/strnicmp of the text with the string at position `at`. */
  method SameText(fold: bool, s: string, at: nat, text: string) returns (same: bool)
    requires at <= |s|
    ensures same <==> OccursAt(fold, text, s, at)
  {
    var k := 0;
    while k < |text|
      invariant 0 <= k <= |text| && at + k <= |s|
      invariant forall j | 0 <= j < k :: SameChar(fold, s[at + j], text[j])
    {
      if at + k == |s| || !SameChar(fold, s[at + k], text[k]) {
        return false;
      }
      k := k + 1;
    }
    return true;
  }

  /** strstrn/stristrn: the first occurrence of the text at or after `from`. */
  method StrStrN(fold: bool, s: string, from: nat, text: string) returns (found: bool, at: nat)
    requires from <= |s| && text != []
    ensures found ==>
            from <= at && OccursAt(fold, text, s, at) && forall k | from <= k < at :: !OccursAt(fold, text, s, k)
    ensures !found ==> forall k | from <= k :: !OccursAt(fold, text, s, k)
  {
    found, at := StrIChr(s, from, text[0]);
    ghost var tried := from;
    while found
      invariant from <= tried <= |s|
      invariant found ==> tried <= at < |s| && forall k | tried <= k < at :: !SameChar(true, s[k], text[0])
      invariant !found ==> forall k | tried <= k < |s| :: !SameChar(true, s[k], text[0])
      invariant forall k | from <= k < tried :: !OccursAt(fold, text, s, k)
      decreases |s| - tried
    {
      forall k | tried <= k < at
        ensures !OccursAt(fold, text, s, k)
      {
        assert !SameChar(true, s[k], text[0]);
        assert OccursAt(fold, text, s, k) ==> SameChar(fold, s[k + 0], text[0]);
      }
      var same := SameText(fold, s, at, text);
      if same {
        return true, at;
      }
      tried := at + 1;
      found, at := StrIChr(s, at + 1, text[0]);
    }
    forall k | tried <= k
      ensures !OccursAt(fold, text, s, k)
    {
      assert k < |s| ==> !SameChar(true, s[k], text[0]);
      assert OccursAt(fold, text, s, k) ==> SameChar(fold, s[k + 0], text[0]);
    }
  }

  /** The first token and where the next one starts. */
  function Width(p: string): (n: nat)
    requires p != []
    ensures 1 <= n <= |p|
  {
    if IsSpace(p[0]) then SpaceRun(p) else 1
  }

  lemma {:induction false} TokensHead(p: string)
    requires p != []
    ensures Tokens(p) != [] && Tokens(p)[1..] == Tokens(p[Width(p)..])
    ensures Tokens(p)[0] == match p[0]
                            case '?' => AnyOne
                            case '*' => AnyRun
                            case c => if IsSpace(c) then Space(p[..Width(p)]) else Lit(c)
  {
  }

  predicate IsWild(c: char) {
    c == '*' || c == '?'
  }

  /** The first n characters of p are not wildcards, and no longer stretch will do. */
  predicate TextAhead(p: string, n: nat) {
    n <= |p| && (forall k | 0 <= k < n :: !IsWild(p[k])) && (n < |p| ==> IsWild(p[n]))
  }

  lemma {:induction false} WidthInText(p: string, n: nat)
    requires TextAhead(p, n) && n > 0
    ensures Width(p) <= n && TextAhead(p[Width(p)..], n - Width(p))
  {
  }

  /** A stretch of pattern without wildcards becomes the leading text. */
  lemma {:induction false} TokensOfText(p: string, n: nat)
    requires TextAhead(p, n)
    ensures LeadText(Tokens(p)) == p[..n]
    ensures AfterText(Tokens(p)) == Tokens(p[n..])
    decreases |p|
  {
    if n == 0 {
      if p != [] { TokensHead(p); }
      assert p[n..] == p;
    } else {
      var m := Width(p);
      WidthInText(p, n);
      TokensOfText(p[m..], n - m);
      SlicesOfText(p, m, n);
      TextHead(p);
    }
  }

  lemma {:induction false} TextHead(p: string)
    requires p != [] && !IsWild(p[0])
    ensures LeadText(Tokens(p)) == p[..Width(p)] + LeadText(Tokens(p[Width(p)..]))
    ensures AfterText(Tokens(p)) == AfterText(Tokens(p[Width(p)..]))
  {
    TokensHead(p);
    assert p[..1] == [p[0]];
  }

  lemma {:induction false} SlicesOfText(p: string, m: nat, n: nat)
    requires 1 <= m <= n <= |p|
    ensures p[..n] == p[..m] + p[m..][..n - m] && p[m..][n - m..] == p[n..]
  {
  }

  lemma {:induction false} GroupsSkipText(ts: seq<Token>)
    ensures Groups(ts) == Groups(AfterText(ts))
  {
    if ts != [] && !ts[0].Wild() {
      GroupsSkipText(ts[1..]);
    }
  }

  /** A star in front of n characters of text: the text must occur, and the
      pattern behind it must accept what follows. */
  lemma {:induction false} StarStep(fold: bool, p: string, n: nat, s: string)
    requires p != [] && p[0] == '*' && TextAhead(p[1..], n) && n > 0
    ensures Strict(fold, Tokens(p), s) <==> TextFound(fold, p[1..][..n], p[1..][n..], s)
    ensures Groups(Tokens(p)) == 1 + Groups(Tokens(p[1..][n..]))
  {
    TokensHead(p);
    TokensHead(p[1..]);
    TokensOfText(p[1..], n);
    GroupsSkipText(Tokens(p[1..]));
    forall k
      ensures FoundAt(fold, Tokens(p)[1..], s, k) <==> TextFoundAt(fold, p[1..][..n], p[1..][n..], s, k)
    {
    }
  }

  ghost predicate TextFound(fold: bool, text: string, rest: string, s: string) {
    exists k :: TextFoundAt(fold, text, rest, s, k)
  }

  ghost predicate TextFoundAt(fold: bool, text: string, rest: string, s: string, k: int) {
    OccursAt(fold, text, s, k) && Strict(fold, Tokens(rest), s[k + |text|..])
  }

  /** A star in front of another wildcard is dropped. */
  lemma {:induction false} StarDropped(fold: bool, p: string, s: string)
    requires |p| > 1 && p[0] == '*' && IsWild(p[1])
    ensures Strict(fold, Tokens(p), s) <==> Strict(fold, Tokens(p[1..]), s)
    ensures Groups(Tokens(p)) == Groups(Tokens(p[1..]))
  {
    TokensHead(p);
    TokensHead(p[1..]);
  }

  /** Any other character advances the pattern and the string together. */
  lemma {:induction false} PlainStep(fold: bool, p: string, s: string)
    requires p != [] && p[0] != '*'
    ensures Groups(Tokens(p)) == Groups(Tokens(p[Width(p)..]))
    ensures p[0] == '?' ==> (Strict(fold, Tokens(p), s) <==> s != [] && Strict(fold, Tokens(p[1..]), s[1..]))
    ensures IsSpace(p[0]) ==>
              (Strict(fold, Tokens(p), s) <==>
                 SpaceRun(s) > 0 && Strict(fold, Tokens(p[SpaceRun(p)..]), s[SpaceRun(s)..]))
    ensures p[0] != '?' && !IsSpace(p[0]) ==>
              (Strict(fold, Tokens(p), s) <==>
                 s != [] && SameChar(fold, s[0], p[0]) && Strict(fold, Tokens(p[1..]), s[1..]))
  {
    TokensHead(p);
  }

  lemma {:induction false} SpaceRunIs(s: string, n: nat)
    requires n <= |s| && AllSpace(s[..n]) && (n < |s| ==> !IsSpace(s[n]))
    ensures SpaceRun(s) == n
  {
    if n > 0 {
      assert s[..n][0] == s[0] && s[..n][1..] == s[1..][..n - 1];
      SpaceRunIs(s[1..], n - 1);
    }
  }

  /** The inner loops over isspace. */
  method SkipSpace(s: string, from: nat) returns (to: nat)
    requires from < |s| && IsSpace(s[from])
    ensures to == from + SpaceRun(s[from..]) && from < to <= |s|
  {
    to := from + 1;
    while to < |s| && IsSpace(s[to])
      invariant from < to <= |s| && forall k | from <= k < to :: IsSpace(s[k])
    {
      to := to + 1;
    }
    assert AllSpace(s[from..][..to - from]);
    SpaceRunIs(s[from..], to - from);
  }

  /** The next wildcard at or after `from`. */
  method NextWild(pattern: string, from: nat) returns (next: nat)
    requires from <= |pattern|
    ensures from <= next <= |pattern| && TextAhead(pattern[from..], next - from)
  {
    next := from;
    while next < |pattern| && pattern[next] != '*' && pattern[next] != '?'
      invariant from <= next <= |pattern|
      invariant forall k | from <= k < next :: !IsWild(pattern[k])
    {
      next := next + 1;
    }
  }

  /** strpat_r/stripat_r. The effective pattern is the part in front of both
      its terminator and the length limit; zero means accepted. */
  method StrpatR(fold: bool, str: string, pattern: string, depth: nat) returns (r: int)
    ensures r == 0 || r == -1
    ensures r == 0 <==> Strict(fold, Tokens(pattern), str) && depth + Groups(Tokens(pattern)) <= MAX_DEPTH
    decreases |pattern|, 2
  {
    if depth > MAX_DEPTH {
      return -1;
    }
    var i: nat, j: nat := 0, 0;
    assert pattern[0..] == pattern && str[0..] == str;
    ghost var strict, groups := Strict(fold, Tokens(pattern), str), Groups(Tokens(pattern));
    while true
      invariant i <= |pattern| && j <= |str|
      invariant strict <==> Strict(fold, Tokens(pattern[i..]), str[j..])
      invariant groups == Groups(Tokens(pattern[i..]))
      decreases |pattern| - i
    {
      if i >= |pattern| {
        return if j == |str| then 0 else -1;
      }
      if pattern[i] == '*' {
        ghost var p := pattern[i..];
        assert p == ['*'] + pattern[i + 1..];
        var decided, outcome := AfterStar(fold, str[j..], pattern[i + 1..], depth, |pattern|);
        if decided {
          return outcome;
        }
        StarDropped(fold, p, str[j..]);
        assert pattern[i + 1..] == p[1..];
        i := i + 1;
      } else {
        var agrees;
        agrees, i, j := AfterPlain(fold, str, j, pattern, i);
        if !agrees {
          return -1;
        }
      }
    }
  }

  /** The other cases: one character of the pattern against one of the string,
      or a run of space against a run of space. */
  method AfterPlain(fold: bool, str: string, j: nat, pattern: string, i: nat) returns (agrees: bool, i': nat, j': nat)
    requires i < |pattern| && j <= |str| && pattern[i] != '*'
    ensures agrees ==> i < i' <= |pattern| && j <= j' <= |str|
    ensures Strict(fold, Tokens(pattern[i..]), str[j..]) <==> agrees && Strict(fold, Tokens(pattern[i'..]), str[j'..])
    ensures agrees ==> Groups(Tokens(pattern[i..])) == Groups(Tokens(pattern[i'..]))
  {
    ghost var p, s := pattern[i..], str[j..];
    assert pattern[i + 1..] == p[1..] && (j < |str| ==> str[j + 1..] == s[1..]);
    PlainStep(fold, p, s);
    if pattern[i] == '?' {
      return j < |str|, i + 1, j + 1;
    } else if IsSpace(pattern[i]) {
      if j == |str| || !IsSpace(str[j]) {
        return false, i, j;
      }
      j' := SkipSpace(str, j);
      i' := SkipSpace(pattern, i);
      agrees := true;
      assert str[j'..] == s[SpaceRun(s)..] && pattern[i'..] == p[SpaceRun(p)..];
    } else {
      return j < |str| && SameChar(fold, str[j], pattern[i]), i + 1, j + 1;
    }
  }

  /** The case of a star with the pattern `rest` behind it: decided here
      unless another wildcard follows directly, which drops the star. */
  method AfterStar(fold: bool, s: string, rest: string, depth: nat, ghost bound: nat) returns (decided: bool, r: int)
    requires |rest| < bound && depth <= MAX_DEPTH
    ensures decided ==> r == 0 || r == -1
    ensures decided ==>
              (r == 0 <==> Strict(fold, Tokens(['*'] + rest), s) && depth + Groups(Tokens(['*'] + rest)) <= MAX_DEPTH)
    ensures !decided ==> rest != [] && IsWild(rest[0])
    decreases bound, 1
  {
    ghost var p := ['*'] + rest;
    assert p[1..] == rest && rest[0..] == rest;
    var next := NextWild(rest, 0);
    if next > 0 {
      StarStep(fold, p, next, s);
      r := SearchText(fold, s, rest[..next], rest[next..], depth, bound);
      return true, r;
    }
    TokensHead(p);
    return rest == [], 0;
  }

  /** The search loop behind a star: every occurrence of the text is tried
      until the rest of the pattern accepts the rest of the string. */
  method SearchText(fold: bool, s: string, text: string, rest: string, depth: nat, ghost bound: nat) returns (r: int)
    requires text != [] && |rest| < bound
    ensures r == 0 || r == -1
    ensures r == 0 <==> TextFound(fold, text, rest, s) && depth + 1 + Groups(Tokens(rest)) <= MAX_DEPTH
    decreases bound, 0
  {
    var found, at := StrStrN(fold, s, 0, text);
    ghost var tried := 0;
    while found
      invariant 0 <= tried <= |s|
      invariant found ==>
              tried <= at && OccursAt(fold, text, s, at) && forall k | tried <= k < at :: !OccursAt(fold, text, s, k)
      invariant !found ==> forall k | tried <= k :: !OccursAt(fold, text, s, k)
      invariant depth + 1 + Groups(Tokens(rest)) <= MAX_DEPTH ==>
              forall k | 0 <= k < tried :: !TextFoundAt(fold, text, rest, s, k)
      decreases |s| - tried
    {
      var sub := StrpatR(fold, s[at + |text|..], rest, depth + 1);
      if sub == 0 {
        assert TextFoundAt(fold, text, rest, s, at);
        return 0;
      }
      tried := at + 1;
      found, at := StrStrN(fold, s, at + 1, text);
    }
    return -1;
  }

  /** A C string argument, which may be NULL. */
  datatype CString = Null | Chars(s: string)

  function Min(a: nat, b: nat): nat {
    if a < b then a else b
  }

  /** strpat/stripat. */
  method Strpat(fold: bool, str: CString, pattern: CString) returns (r: int)
    ensures r == 0 || r == -1
    ensures r == 0 <==> str.Chars? && pattern.Chars? && Accepts(fold, pattern.s, str.s)
  {
    if pattern.Null? || str.Null? {
      return -1;
    }
    r := StrpatR(fold, str.s, pattern.s, 1);
  }

  /** strpatn/stripatn: the pattern ends at its terminator or at `len`. */
  method Strpatn(fold: bool, str: CString, pattern: CString, len: nat) returns (r: int)
    ensures r == 0 || r == -1
    ensures r == 0 <==> str.Chars? && pattern.Chars? && Accepts(fold, pattern.s[..Min(len, |pattern.s|)], str.s)
  {
    if pattern.Null? || str.Null? {
      return -1;
    }
    r := StrpatR(fold, str.s, pattern.s[..Min(len, |pattern.s|)], 1);
  }
}
