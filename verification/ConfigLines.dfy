/** What one line of a configuration file does, in terms of the line itself:
    which lines open a section, which add an item, which are passed over, and
    that the first value of a key is the one that counts. */
module ConfigLines {
  import opened Basics
  import opened ConfigText
  import opened ConfigReading
  import opened ConfigMap

  // ----- names up to case

  /** The two cases of a letter are one, and no other characters are. */
  lemma {:induction false} LettersFold(a: char, b: char)
    ensures ToLower(a) == ToLower(b) <==>
            a == b || ('A' <= a <= 'Z' && b as int == a as int + 32) || ('A' <= b <= 'Z' && a as int == b as int + 32)
  {
  }

  // ----- trimming

  /** The line without the spaces and tabs it starts with and the spaces, tabs
      and line ends it ends with. */
  ghost predicate Trims(line: string, body: string, from: nat, to: nat) {
    && from <= to <= |line| && body == line[from..to]
    && (forall i | 0 <= i < from :: line[i] == ' ' || line[i] == '\t')
    && (forall i | to <= i < |line| :: line[i] == ' ' || line[i] == '\t' || line[i] == '\r' || line[i] == '\n')
    && (body != [] ==>
          && body[0] != ' ' && body[0] != '\t'
          && var last := body[|body| - 1]; last != ' ' && last != '\t' && last != '\r' && last != '\n')
  }

  lemma {:induction false} DropLeadIs(s: string, from: nat)
    requires from <= |s| && (forall i | 0 <= i < from :: IsBlank(s[i])) && (from < |s| ==> !IsBlank(s[from]))
    ensures DropLead(s) == s[from..]
  {
    if from > 0 {
      DropLeadIs(s[1..], from - 1);
    }
  }

  lemma {:induction false} DropTailIs(s: string, to: nat)
    requires to <= |s| && (forall i | to <= i < |s| :: IsTail(s[i])) && (to > 0 ==> !IsTail(s[to - 1]))
    ensures DropTail(s) == s[..to]
  {
    if to < |s| {
      DropTailIs(s[..|s| - 1], to);
      assert s[..|s| - 1][..to] == s[..to];
    } else {
      assert s[..to] == s;
    }
  }

  lemma {:induction false} DropTailAll(s: string)
    requires forall i | 0 <= i < |s| :: IsTail(s[i])
    ensures DropTail(s) == []
  {
    DropTailIs(s, 0);
  }

  lemma {:induction false} TrimmedIs(line: string, body: string, from: nat, to: nat)
    requires Trims(line, body, from, to)
    ensures Cleaned(line) == body
  {
    if body != [] {
      assert line[from] == body[0] && line[to - 1] == body[|body| - 1];
      DropLeadIs(line, from);
      DropTailIs(line[from..], to - from);
      assert line[from..][..to - from] == body;
    } else {
      DropLeadIsSuffix(line);
      var rest := DropLead(line);
      forall i | 0 <= i < |rest| ensures IsTail(rest[i]) {
        assert rest[i] == line[|line| - |rest| + i];
      }
      DropTailAll(rest);
    }
  }

  lemma {:induction false} DropLeadFrom(s: string) returns (from: nat)
    ensures from <= |s| && DropLead(s) == s[from..] && forall i | 0 <= i < from :: IsBlank(s[i])
  {
    from := 0;
    if s != [] && IsBlank(s[0]) {
      var n := DropLeadFrom(s[1..]);
      from := n + 1;
      assert s[from..] == s[1..][n..];
      forall i | 0 <= i < from ensures IsBlank(s[i]) {
        if i > 0 { assert s[i] == s[1..][i - 1]; }
      }
    }
  }

  lemma {:induction false} DropTailTo(s: string)
    ensures DropTail(s) == s[..|DropTail(s)|] && forall i | |DropTail(s)| <= i < |s| :: IsTail(s[i])
  {
    if s != [] && IsTail(s[|s| - 1]) {
      DropTailTo(s[..|s| - 1]);
      forall i | |DropTail(s)| <= i < |s| ensures IsTail(s[i]) {
        if i < |s| - 1 { assert s[i] == s[..|s| - 1][i]; }
      }
    }
  }

  lemma {:induction false} TrimmedFrom(line: string) returns (from: nat, to: nat)
    ensures Trims(line, Cleaned(line), from, to)
  {
    hide Cleaned, DropLead;
    var body := Cleaned(line);
    CleanedWithin(line);
    from := DropLeadFrom(line);
    CleanedTail(line);
    DropTailTo(line[from..]);
    to := from + |body|;
    forall i | to <= i < |line| ensures IsTail(line[i]) {
      assert line[i] == line[from..][i - from];
    }
  }

  lemma {:induction false} CleanedTail(line: string)
    ensures Cleaned(line) == DropTail(DropLead(line))
  {
  }

  /** Cleaning is exactly trimming. */
  lemma {:induction false} CleanedTrims(line: string, body: string)
    ensures Cleaned(line) == body <==> exists from: nat, to: nat :: Trims(line, body, from, to)
  {
    hide Cleaned, Trims;
    if from: nat, to: nat :| Trims(line, body, from, to) {
      TrimmedIs(line, body, from, to);
    }
    var from, to := TrimmedFrom(line);
  }

  lemma {:induction false} IndexOfIn(s: string, c: char)
    ensures IndexOf(s, c) == |s| <==> c !in s
  {
    var p := IndexOf(s, c);
    if p < |s| {
      assert s[p] in s;
    }
  }

  // ----- headers

  ghost predicate HasSection(cfg: Config, name: Option<string>) {
    exists i :: 0 <= i < |cfg| && SameSection(name, cfg[i].name)
  }

  /** A name in brackets opens a section, unless there is one of that name up to
      case; what follows the bracket does not matter. */
  lemma {:induction false} HeaderLine(cfg: Config, line: string, name: string, rest: string)
    requires Cleaned(line) == "[" + name + "]" + rest && name != "" && ']' !in name
    ensures ParseLine(cfg, line) ==
            if HasSection(cfg, Some(name)) then cfg else cfg + [Section(Some(name), [])]
  {
    var start := Cleaned(line);
    IndexOfFirst("[" + name, ']', rest);
    assert "[" + name + [']'] + rest == start;
    assert start[1..|name| + 1] == name;
  }

  /** A bracket that is not closed, or closed at once, changes nothing. */
  lemma {:induction false} BadHeaderLine(cfg: Config, line: string)
    requires Cleaned(line) != [] && Cleaned(line)[0] == '['
    requires ']' !in Cleaned(line) || Cleaned(line)[1] == ']'
    ensures ParseLine(cfg, line) == cfg
  {
    var start := Cleaned(line);
    if ']' in start {
      assert start == "[" + [']'] + start[2..];
      IndexOfFirst("[", ']', start[2..]);
    } else {
      IndexOfIn(start, ']');
    }
  }

  // ----- items

  /** The sections with one at hand: any line but a header makes an unnamed one
      if there is none yet. */
  function AtHand(cfg: Config): (at: Config) {
    if cfg == [] then [Section(None, [])] else cfg
  }

  ghost predicate HasItem(s: Section, name: string) {
    exists i :: 0 <= i < |s.items| && IsItem(s.items[i], name)
  }

  predicate StartsItem(start: string) {
    start == [] || (start[0] != '[' && start[0] != ';')
  }

  /** A line that names an item and gives it a value. */
  ghost predicate Assigns(line: string, left: string, right: string) {
    Cleaned(line) == left + "=" + right && '=' !in left && StartsItem(left)
  }

  /** It adds the item to the section at hand, name and value trimmed, unless
      the name is empty or the section has an item of that name up to case. */
  lemma {:induction false} ItemLine(cfg: Config, line: string, left: string, right: string)
    requires Assigns(line, left, right)
    ensures var at, name := AtHand(cfg), Cleaned(left);
            var last := at[|at| - 1];
            ParseLine(cfg, line) ==
            if name == "" || HasItem(last, name) then at
            else at[..|at| - 1] + [last.(items := last.items + [Named(name, Cleaned(right))])]
  {
    var start := Cleaned(line);
    IndexOfFirst(left, '=', right);
    assert left + ['='] + right == start;
    assert start[..|left|] == left && start[|left| + 1..] == right;
  }

  /** A line without an equals sign that is neither header nor comment nor blank
      adds nothing. */
  lemma {:induction false} NoItemLine(cfg: Config, line: string)
    requires Cleaned(line) != [] && StartsItem(Cleaned(line)) && '=' !in Cleaned(line)
    ensures ParseLine(cfg, line) == AtHand(cfg)
  {
    IndexOfIn(Cleaned(line), '=');
  }

  /** A comment keeps its text, and a blank line is kept as such. */
  lemma {:induction false} CommentLine(cfg: Config, line: string)
    requires Cleaned(line) == [] || Cleaned(line)[0] == ';'
    ensures var at := AtHand(cfg);
            var last, item := at[|at| - 1], if Cleaned(line) == [] then Blank else Comment(Cleaned(line)[1..]);
            ParseLine(cfg, line) == at[..|at| - 1] + [last.(items := last.items + [item])]
  {
  }

  /** Every line is of one of these kinds. */
  lemma {:induction false} LineKinds(line: string) returns (left: string, right: string)
    ensures var start := Cleaned(line);
            || start == [] || start[0] == ';' || (StartsItem(start) && '=' !in start)
            || start[0] == '[' || Assigns(line, left, right)
  {
    var start := Cleaned(line);
    var p := IndexOf(start, '=');
    left, right := start[..p], if p < |start| then start[p + 1..] else [];
    if p < |start| {
      assert start == left + "=" + right;
    }
    IndexOfIn(start, '=');
  }

  lemma {:induction false} BracketKinds(start: string) returns (name: string, rest: string)
    requires start != [] && start[0] == '['
    ensures ']' !in start || start[1] == ']' || (start == "[" + name + "]" + rest && name != "" && ']' !in name)
  {
    var p := IndexOf(start, ']');
    name, rest := if 1 <= p then start[1..p] else [], if p < |start| then start[p + 1..] else [];
    if p < |start| {
      assert start == "[" + name + "]" + rest;
      forall c | c in name ensures c != ']' {
        var i :| 0 <= i < |name| && name[i] == c;
        assert start[i + 1] == c;
      }
    }
    IndexOfIn(start, ']');
  }

  // ----- lookups

  function AddedTo(at: Config, item: Item): Config
    requires at != []
  {
    var last := at[|at| - 1];
    at[..|at| - 1] + [last.(items := last.items + [item])]
  }

  lemma {:induction false} FindExtended(items: seq<Item>, item: Item, n: string)
    ensures FindItem(items + [item], n) ==
            if FindItem(items, n) < |items| then FindItem(items, n)
            else if IsItem(item, n) then |items| else |items| + 1
  {
    if items != [] {
      FindExtended(items[1..], item, n);
      assert (items + [item])[1..] == items[1..] + [item];
    } else {
      assert [item][1..] == [] && [] + [item] == [item];
    }
  }

  lemma {:induction false} FindSameNames(a: Config, b: Config, s: Option<string>)
    requires |a| == |b| && forall i | 0 <= i < |a| :: a[i].name == b[i].name
    ensures FindSection(a, s) == FindSection(b, s)
  {
  }

  /** One more item in the section at hand: a key that is found keeps its value,
      and a key that is not is found afterwards only if it is the item's. */
  lemma {:induction false} LookupAdded(at: Config, item: Item, s: Option<string>, n: string)
    requires at != []
    ensures var was, now := Lookup(at, s, Some(n)), Lookup(AddedTo(at, item), s, Some(n));
            && (was.Some? ==> now == was)
            && (was.None? ==>
                  now == if IsItem(item, n) && FindSection(at, s) == |at| - 1 then Some(item.value) else None)
  {
    var after, last := AddedTo(at, item), at[|at| - 1];
    FindSameNames(after, at, s);
    FindExtended(last.items, item, n);
    var k := FindSection(at, s);
    if k < |at| - 1 {
      assert after[k] == at[k];
    }
  }

  lemma {:induction false} LookupOpened(cfg: Config, s: Option<string>, n: string)
    ensures Lookup(AtHand(cfg), s, Some(n)) == Lookup(cfg, s, Some(n))
  {
    if cfg == [] {
      assert [Section(None, [])][1..] == [];
    }
  }

  lemma {:induction false} LookupNewSection(cfg: Config, name: Option<string>, s: Option<string>, n: string)
    ensures Lookup(cfg + [Section(name, [])], s, Some(n)) == Lookup(cfg, s, Some(n))
  {
    var after := cfg + [Section(name, [])];
    var k := FindSection(cfg, s);
    assert forall i | 0 <= i < |cfg| :: after[i] == cfg[i];
    if k < |cfg| {
      assert FindSection(after, s) == k;
    }
  }

  /** The line adds an item that this key names. */
  ghost predicate Gives(cfg: Config, line: string, s: Option<string>, n: string, left: string, right: string) {
    && Assigns(line, left, right) && Cleaned(left) != "" && SameName(n, Cleaned(left))
    && FindSection(AtHand(cfg), s) == |AtHand(cfg)| - 1
  }

  lemma {:induction false} NoAssignment(line: string)
    requires var start := Cleaned(line);
             start == [] || start[0] == '[' || start[0] == ';' || '=' !in start
    ensures forall left, right :: !Assigns(line, left, right)
  {
    forall left, right ensures !Assigns(line, left, right) {
      if Assigns(line, left, right) {
        AssignedStart(line, left, right);
      }
    }
  }

  lemma {:induction false} AssignedStart(line: string, left: string, right: string)
    requires Assigns(line, left, right)
    ensures var start := Cleaned(line); start != [] && start[0] != '[' && start[0] != ';' && '=' in start
  {
    var start := Cleaned(line);
    assert start[|left|] == '=';
    assert left != [] ==> start[0] == left[0];
  }

  lemma {:induction false} OneAssignment(line: string, left: string, right: string, left': string, right': string)
    requires Assigns(line, left, right) && Assigns(line, left', right')
    ensures left == left' && right == right'
  {
    var start := Cleaned(line);
    IndexOfFirst(left, '=', right);
    IndexOfFirst(left', '=', right');
    assert start == left + ['='] + right == left' + ['='] + right';
    assert start[..|left|] == left && start[..|left'|] == left';
    assert start[|left| + 1..] == right && start[|left'| + 1..] == right';
  }

  lemma {:induction false} SameNameTwice(a: string, b: string, c: string)
    requires SameName(a, b)
    ensures SameName(a, c) <==> SameName(b, c)
    ensures SameName(b, a)
  {
  }

  lemma {:induction false} ItemOfSame(s: Section, n: string, name: string)
    requires SameName(n, name)
    ensures HasItem(s, name) <==> FindItem(s.items, n) < |s.items|
  {
    forall i | 0 <= i < |s.items| ensures IsItem(s.items[i], n) <==> IsItem(s.items[i], name) {
      if s.items[i].Named? { SameNameTwice(n, name, s.items[i].name); }
    }
  }

  /** What a line that assigns does to a lookup. */
  lemma {:induction false} LookupAssigned(cfg: Config, line: string, s: Option<string>, n: string, left: string,
      right: string)
    requires Assigns(line, left, right)
    ensures var was, now := Lookup(cfg, s, Some(n)), Lookup(ParseLine(cfg, line), s, Some(n));
            && (was.Some? ==> now == was)
            && (was.None? ==> now == if Gives(cfg, line, s, n, left, right) then Some(Cleaned(right)) else None)
  {
    hide ParseLine, Lookup, Cleaned;
    var at, name := AtHand(cfg), Cleaned(left);
    var last := at[|at| - 1];
    ItemLine(cfg, line, left, right);
    LookupOpened(cfg, s, n);
    if SameName(n, name) {
      ItemOfSame(last, n, name);
      if FindSection(at, s) == |at| - 1 {
        FoundInLast(at, s, n);
      }
    }
    if name != "" && !HasItem(last, name) {
      LookupAdded(at, Named(name, Cleaned(right)), s, n);
    }
  }

  lemma {:induction false} FoundInLast(at: Config, s: Option<string>, n: string)
    requires at != [] && FindSection(at, s) == |at| - 1
    ensures Lookup(at, s, Some(n)).Some? <==> FindItem(at[|at| - 1].items, n) < |at[|at| - 1].items|
  {
  }

  /** What any other line does: nothing. */
  lemma {:induction false} LookupUnassigned(cfg: Config, line: string, s: Option<string>, n: string)
    requires var start := Cleaned(line);
             start == [] || start[0] == '[' || start[0] == ';' || '=' !in start
    ensures Lookup(ParseLine(cfg, line), s, Some(n)) == Lookup(cfg, s, Some(n))
  {
    hide ParseLine, Lookup, Cleaned;
    var start := Cleaned(line);
    LookupOpened(cfg, s, n);
    if start == [] || start[0] == ';' {
      CommentLine(cfg, line);
      LookupAdded(AtHand(cfg), if start == [] then Blank else Comment(start[1..]), s, n);
    } else if start[0] == '[' {
      var name, rest := BracketKinds(start);
      if ']' !in start || start[1] == ']' {
        BadHeaderLine(cfg, line);
      } else {
        HeaderLine(cfg, line, name, rest);
        LookupNewSection(cfg, Some(name), s, n);
      }
    } else {
      NoItemLine(cfg, line);
    }
  }

  /** What a line does to a lookup: a key that is found keeps its value; one that
      is not found has afterwards the value that the line gives it, if it does. */
  lemma {:induction false} LookupAfterLine(cfg: Config, line: string, s: Option<string>, n: string)
    ensures var was, now := Lookup(cfg, s, Some(n)), Lookup(ParseLine(cfg, line), s, Some(n));
            && (was.Some? ==> now == was)
            && (was.None? ==> forall v ::
                  now == Some(v) <==> exists left, right :: Gives(cfg, line, s, n, left, right) && v == Cleaned(right))
  {
    hide ParseLine, Lookup, Cleaned;
    var was, now := Lookup(cfg, s, Some(n)), Lookup(ParseLine(cfg, line), s, Some(n));
    var left, right := LineKinds(line);
    if Assigns(line, left, right) {
      LookupAssigned(cfg, line, s, n, left, right);
      forall l, r | Gives(cfg, line, s, n, l, r) ensures l == left && r == right {
        OneAssignment(line, left, right, l, r);
      }
      assert was.None? && now.Some? ==> Gives(cfg, line, s, n, left, right);
    } else {
      LookupUnassigned(cfg, line, s, n);
      NoAssignment(line);
    }
  }

  /** The first value counts: a key that is found keeps its value whatever text
      is read after it. */
  lemma {:induction false} FirstValueWins(cfg: Config, text: string, s: Option<string>, n: string)
    requires Lookup(cfg, s, Some(n)).Some?
    ensures Lookup(ParseFrom(cfg, text), s, Some(n)) == Lookup(cfg, s, Some(n))
    decreases |text|
  {
    hide ParseLine, Lookup;
    if text != [] {
      var line := text[..ReadLength(text)];
      LookupAfterLine(cfg, line, s, n);
      FirstValueWins(ParseLine(cfg, line), text[ReadLength(text)..], s, n);
    }
  }
}
