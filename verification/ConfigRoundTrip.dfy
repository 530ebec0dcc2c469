/** Parsing and printing configurations are inverse to each other, exactly on
    the canonical configurations. */
module ConfigRoundTrip {
  import opened Basics
  import opened ConfigText
  import opened ConfigReading

  // ----- what the parser produces

  predicate FitsItem(item: Item) {
    |PrintItem(item)| < LINE_ROOM
  }

  /** Every line the section prints leaves room in the line buffer. */
  predicate FitsSection(s: Section) {
    (s.name.Some? ==> |s.name.value| + 2 < LINE_ROOM) && forall i | 0 <= i < |s.items| :: FitsItem(s.items[i])
  }

  predicate FitsConfig(cfg: Config) {
    forall i | 0 <= i < |cfg| :: FitsSection(cfg[i])
  }

  /** A line that fits cleans to text without newlines that fits. */
  predicate FineLine(line: string) {
    OneLine(Cleaned(line)) && |Cleaned(line)| < LINE_ROOM
  }

  lemma {:induction false} SectionKeepsParsed(cfg: Config, s: Section)
    requires Parsed(cfg) && FitsConfig(cfg) && GoodSection(s) && FitsSection(s) && s.name.Some?
    requires FindSection(cfg, s.name) == |cfg|
    ensures Parsed(cfg + [s]) && FitsConfig(cfg + [s])
  {
    hide GoodSection, FitsSection, SameName;
    forall i, j | 0 <= i < j < |cfg + [s]| ensures !SameSection((cfg + [s])[j].name, (cfg + [s])[i].name) {
    }
  }

  lemma {:induction false} HeaderKeepsParsed(cfg: Config, start: string)
    requires Parsed(cfg) && FitsConfig(cfg) && start != [] && OneLine(start) && |start| < LINE_ROOM
    ensures Parsed(ParseHeader(cfg, start)) && FitsConfig(ParseHeader(cfg, start))
  {
    hide Parsed, FitsConfig;
    var p := IndexOf(start, ']');
    if 1 < p < |start| && FindSection(cfg, Some(start[1..p])) == |cfg| {
      var s := Section(Some(start[1..p]), []);
      assert GoodSection(s) && FitsSection(s);
      SectionKeepsParsed(cfg, s);
    }
  }

  /** An item under a name that is not found keeps the names unique. */
  lemma {:induction false} AddKeepsUnique(items: seq<Item>, item: Item)
    requires UniqueItems(items) && (item.Named? ==> FindItem(items, item.name) == |items|)
    ensures UniqueItems(items + [item])
  {
    hide SameName;
  }

  /** What the last section becomes, the configuration keeps. */
  lemma {:induction false} ChangeLastKeepsParsed(cfg: Config, items: seq<Item>)
    requires Parsed(cfg) && FitsConfig(cfg) && cfg != []
    requires var s := cfg[|cfg| - 1].(items := items); GoodSection(s) && FitsSection(s)
    ensures var after := cfg[|cfg| - 1 := cfg[|cfg| - 1].(items := items)]; Parsed(after) && FitsConfig(after)
  {
    hide GoodSection, FitsSection, SameSection;
  }

  lemma {:induction false} AddKeepsParsed(cfg: Config, item: Item)
    requires Parsed(cfg) && FitsConfig(cfg) && cfg != [] && GoodItem(item) && FitsItem(item)
    requires item.Named? ==> FindItem(cfg[|cfg| - 1].items, item.name) == |cfg[|cfg| - 1].items|
    ensures Parsed(AddToLast(cfg, item)) && FitsConfig(AddToLast(cfg, item))
  {
    var last := cfg[|cfg| - 1];
    var more := last.(items := last.items + [item]);
    assert GoodSection(more) && FitsSection(more) by {
      assert GoodSection(last) && FitsSection(last);
      AddKeepsUnique(last.items, item);
      hide UniqueItems, GoodItem, FitsItem, GoodName, Parsed, FitsConfig;
    }
    hide GoodSection, FitsSection, Parsed, FitsConfig;
    ChangeLastKeepsParsed(cfg, more.items);
  }

  lemma {:induction false} ItemKeepsParsed(cfg: Config, start: string)
    requires Parsed(cfg) && FitsConfig(cfg) && OneLine(start) && |start| < LINE_ROOM
    requires Cleaned(start) == start && (start != [] ==> start[0] != '[')
    ensures Parsed(ParseItem(cfg, start)) && FitsConfig(ParseItem(cfg, start))
  {
    var at := if cfg == [] then [Section(None, [])] else cfg;
    assert Parsed(at) && FitsConfig(at);
    if start == [] {
      AddKeepsParsed(at, Blank);
    } else {
      TrimmedEnds(start);
      if start[0] == ';' {
        DropTailStops(start[1..]);
        AddKeepsParsed(at, Comment(start[1..]));
      } else {
        NamedKeepsParsed(at, start);
      }
    }
  }

  lemma {:induction false} NamedIsGood(start: string, p: nat)
    requires OneLine(start) && |start| < LINE_ROOM && p == IndexOf(start, '=') < |start|
    requires start != [] && !IsBlank(start[0]) && start[0] != '[' && start[0] != ';'
    requires Cleaned(start[..p]) != []
    ensures var item := Named(Cleaned(start[..p]), Cleaned(start[p + 1..])); GoodItem(item) && FitsItem(item)
  {
    var left, right := start[..p], start[p + 1..];
    CleanedTwice(left);
    CleanedTwice(right);
    CleanedWithin(left);
    CleanedWithin(right);
    hide Cleaned;
    assert OneLine(left) && OneLine(right) && '=' !in left;
    assert OneLine(Cleaned(left)) && OneLine(Cleaned(right)) && '=' !in Cleaned(left);
    assert left[0] == start[0];
  }

  lemma {:induction false} NamedKeepsParsed(cfg: Config, start: string)
    requires Parsed(cfg) && FitsConfig(cfg) && cfg != [] && OneLine(start) && |start| < LINE_ROOM
    requires start != [] && !IsBlank(start[0]) && start[0] != '[' && start[0] != ';'
    ensures Parsed(ParseItem(cfg, start)) && FitsConfig(ParseItem(cfg, start))
  {
    hide Cleaned, Parsed, FitsConfig, GoodItem, OneLine, AddToLast, FitsItem;
    var p := IndexOf(start, '=');
    if p < |start| {
      var name, value := Cleaned(start[..p]), Cleaned(start[p + 1..]);
      if name != [] && FindItem(cfg[|cfg| - 1].items, name) == |cfg[|cfg| - 1].items| {
        NamedIsGood(start, p);
        AddKeepsParsed(cfg, Named(name, value));
      }
    }
  }

  lemma {:induction false} LineKeepsParsed(cfg: Config, line: string)
    requires Parsed(cfg) && FitsConfig(cfg) && FineLine(line)
    ensures Parsed(ParseLine(cfg, line)) && FitsConfig(ParseLine(cfg, line))
  {
    var start := Cleaned(line);
    CleanedTwice(line);
    if start != [] && start[0] == '[' {
      HeaderKeepsParsed(cfg, start);
    } else {
      ItemKeepsParsed(cfg, start);
    }
  }

  /** One read of a text whose lines fit takes exactly one line. */
  lemma {:induction false} ReadTakesOneLine(text: string)
    requires text != [] && FitsText(text)
    ensures FineLine(text[..ReadLength(text)]) && FitsText(text[ReadLength(text)..])
  {
    var n := IndexOf(text, '\n');
    var body := text[..n];
    CleanedWithin(body);
    if n < |text| {
      CleanedNewline(body);
      assert text[..n + 1] == body + "\n";
    } else {
      assert text[..n] == text;
    }
  }

  lemma {:induction false} ParseFromKeepsParsed(cfg: Config, text: string)
    requires Parsed(cfg) && FitsConfig(cfg) && FitsText(text)
    ensures Parsed(ParseFrom(cfg, text)) && FitsConfig(ParseFrom(cfg, text))
    decreases |text|
  {
    if text != [] {
      var n := ReadLength(text);
      ReadTakesOneLine(text);
      LineKeepsParsed(cfg, text[..n]);
      ParseFromKeepsParsed(ParseLine(cfg, text[..n]), text[n..]);
    }
  }

  lemma {:induction false} ItemsFit(items: seq<Item>, rest: string)
    requires FitsText(rest) && forall i | 0 <= i < |items| :: GoodItem(items[i]) && FitsItem(items[i])
    ensures FitsText(PrintItems(items) + rest)
  {
    hide FitsText, OneLine, GoodItem, PrintItem, Cleaned;
    if items == [] {
      assert PrintItems(items) + rest == rest;
    } else {
      ItemsFit(items[1..], rest);
      PrintedItemIsOneLine(items[0]);
      FitsOneLine(PrintItem(items[0]), PrintItems(items[1..]) + rest);
      assert PrintItems(items) + rest == PrintItem(items[0]) + "\n" + (PrintItems(items[1..]) + rest);
    }
  }

  lemma {:induction false} HeaderFits(name: string, rest: string)
    requires GoodName(Some(name)) && |name| + 2 < LINE_ROOM && FitsText(rest)
    ensures FitsText(PrintHeader(Some(name)) + rest)
  {
    var line := "[" + name + "]";
    assert OneLine(line);
    FitsOneLine(line, rest);
    hide FitsText, OneLine;
    assert PrintHeader(Some(name)) + rest == line + "\n" + rest;
  }

  lemma {:induction false} SectionFits(s: Section, rest: string)
    requires FitsText(rest) && FitsSection(s) && GoodSection(s)
    ensures FitsText(PrintHeader(s.name) + PrintItems(s.items) + rest)
  {
    SectionFacts([], s);
    ItemsFit(s.items, rest);
    var body, after := PrintItems(s.items), PrintItems(s.items) + rest;
    hide FitsText, PrintItems, GoodItem, UniqueItems, FitsItem, WithItems, OneLine, PrintHeader, GoodName;
    Assoc(PrintHeader(s.name), body, rest);
    if s.name.Some? {
      HeaderFits(s.name.value, after);
    } else {
      NoHeader(after);
    }
  }

  lemma {:induction false} Assoc(a: string, b: string, c: string)
    ensures a + b + c == a + (b + c)
  {
  }

  lemma {:induction false} NoHeader(s: string)
    ensures PrintHeader(None) + s == s
  {
  }

  lemma {:induction false} PrintFits(cfg: Config)
    requires FitsConfig(cfg) && forall i | 0 <= i < |cfg| :: GoodSection(cfg[i])
    ensures FitsText(Print(cfg))
  {
    hide FitsText, PrintItems, GoodSection, FitsSection, PrintHeader;
    if cfg != [] {
      PrintFits(cfg[1..]);
      SectionFits(cfg[0], Print(cfg[1..]));
      assert Print(cfg) == PrintHeader(cfg[0].name) + PrintItems(cfg[0].items) + Print(cfg[1..]);
    } else {
      EmptyFits();
    }
  }

  lemma {:induction false} EmptyFits()
    ensures FitsText([])
  {
  }

  // ----- the main results

  /** An empty unnamed section prints as nothing; this drops it. */
  function WithoutEmptyUnnamed(cfg: Config): Config {
    if EmptyUnnamedFirst(cfg) then cfg[1..] else cfg
  }

  lemma {:induction false} DroppedIsCanonical(cfg: Config)
    requires Parsed(cfg)
    ensures Canonical(WithoutEmptyUnnamed(cfg)) && Print(WithoutEmptyUnnamed(cfg)) == Print(cfg)
  {
    if EmptyUnnamedFirst(cfg) {
      TailIsCanonical(cfg);
      NothingPrinted(cfg);
    }
  }

  lemma {:induction false} TailIsCanonical(cfg: Config)
    requires Parsed(cfg) && cfg != []
    ensures Canonical(cfg[1..])
  {
    hide GoodSection, SameSection;
    var rest := cfg[1..];
    forall i | 0 <= i < |rest| ensures GoodSection(rest[i]) && rest[i].name.Some? {
      assert rest[i] == cfg[i + 1];
    }
    forall i, j | 0 <= i < j < |rest| ensures !SameSection(rest[j].name, rest[i].name) {
      assert rest[i] == cfg[i + 1] && rest[j] == cfg[j + 1];
    }
  }

  lemma {:induction false} NothingPrinted(cfg: Config)
    requires EmptyUnnamedFirst(cfg)
    ensures Print(cfg) == Print(cfg[1..])
  {
    assert "" + "" + Print(cfg[1..]) == Print(cfg[1..]);
  }

  /** For every text whose lines fit the line buffer: what is parsed is well
      formed, printing it fits again, and parsing the print gives the same
      sections and items in the same order, up to an empty unnamed section. */
  lemma {:induction false} NormalForm(text: string)
    requires FitsText(text)
    ensures var cfg := Parse(text);
            Parsed(cfg) && FitsText(Print(cfg)) && Parse(Print(cfg)) == WithoutEmptyUnnamed(cfg)
  {
    var cfg := Parse(text);
    ParseFromKeepsParsed([], text);
    PrintFits(cfg);
    DroppedIsCanonical(cfg);
    CanonicalReadsBack(WithoutEmptyUnnamed(cfg));
  }

  /** A configuration that prints within the line buffer survives printing and
      parsing exactly when it is canonical. */
  lemma {:induction false} SurvivesExactlyWhenCanonical(cfg: Config)
    requires FitsText(Print(cfg))
    ensures Parse(Print(cfg)) == cfg <==> Canonical(cfg)
  {
    if Parse(Print(cfg)) == cfg {
      ParseFromKeepsParsed([], Print(cfg));
      DroppedIsCanonical(cfg);
      CanonicalReadsBack(WithoutEmptyUnnamed(cfg));
    } else if Canonical(cfg) {
      CanonicalReadsBack(cfg);
    }
  }

  lemma {:induction false} CommentOnly(body: string)
    requires body != [] && !IsTail(body[|body| - 1])
    ensures Cleaned(";" + body) == ";" + body
    ensures ParseLine([], ";" + body) == [Section(None, [Comment(body)])]
  {
    CleanedStops(";" + body);
    assert (";" + body)[1..] == body;
    hide Cleaned;
    assert [] + [Comment(body)] == [Comment(body)];
  }

  lemma {:induction false} BlankAfter(s: Section)
    ensures ParseLine([s], "\n") == [s.(items := s.items + [Blank])]
  {
    assert Cleaned("\n") == [] by { assert [] + "\n" == "\n"; CleanedNewline([]); }
    hide Cleaned;
  }

  lemma {:induction false} LastLineParse(cfg: Config, line: string)
    requires OneLine(line) && 0 < |line| <= LINE_ROOM
    ensures ParseFrom(cfg, line) == ParseLine(cfg, line)
  {
    hide ParseLine;
    assert IndexOf(line, '\n') == |line|;
    assert line[..|line|] == line && line[|line|..] == [];
  }

  lemma {:induction false} NewlineParse(cfg: Config)
    ensures ParseFrom(cfg, "\n") == ParseLine(cfg, "\n")
  {
    hide ParseLine;
    assert "\n"[..1] == "\n" && "\n"[1..] == [];
  }

  /** A line that fills the buffer is read without its newline. */
  lemma {:induction false} FullLineParse(cfg: Config, line: string)
    requires OneLine(line) && |line| == LINE_ROOM
    ensures ParseFrom(cfg, line + "\n") == ParseFrom(ParseLine(cfg, line), "\n")
  {
    hide ParseLine;
    var text := line + "\n";
    IndexOfFirst(line, '\n', []);
    assert line + ['\n'] + [] == text;
    assert text[..LINE_ROOM] == line && text[LINE_ROOM..] == "\n";
  }

  lemma {:induction false} CommentPrints(body: string)
    ensures Print([Section(None, [Comment(body)])]) == ";" + body + "\n"
  {
    assert PrintItems([Comment(body)]) == ";" + body + "\n";
  }

  /** The room for the newline matters: a last line that just fills the buffer
      and has no newline is printed with one, and then read as two lines. */
  lemma {:induction false} FullLastLineSplits(body: string)
    requires |body| == LINE_ROOM - 1 && OneLine(body) && !IsTail(body[|body| - 1])
    ensures Parse(";" + body) == [Section(None, [Comment(body)])]
    ensures Print(Parse(";" + body)) == ";" + body + "\n"
    ensures Parse(";" + body + "\n") == [Section(None, [Comment(body), Blank])]
  {
    var s := Section(None, [Comment(body)]);
    assert OneLine(";" + body);
    CommentOnly(body);
    CommentPrints(body);
    BlankAfter(s);
    assert [Comment(body)] + [Blank] == [Comment(body), Blank];
    hide ParseFrom, ParseLine, Cleaned, OneLine, IsTail, Print;
    LastLineParse([], ";" + body);
    FullLineParse([], ";" + body);
    NewlineParse([s]);
  }
}
