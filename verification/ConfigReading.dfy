/** What is printed is read back.

    Canonical configurations are those whose parts are trimmed, hold none of
    the characters that separate them, and have names that are unique up to
    case, with at most a first section that has no name.

    An item that is printed and then read as a line gives the item again, and
    so does a header; by induction so do the items of a section, all named
    sections, and an unnamed first section, which is opened by the first of
    its items and prints no header. */
module ConfigReading {
  import opened Basics
  import opened ConfigText

  // ----- canonical configurations

  predicate OneLine(s: string) {
    '\n' !in s
  }

  predicate GoodItem(item: Item) {
    match item
    case Named(n, v) =>
      && n != [] && Cleaned(n) == n && n[0] != '[' && n[0] != ';' && '=' !in n && OneLine(n)
      && Cleaned(v) == v && OneLine(v)
    case Comment(t) => DropTail(t) == t && OneLine(t)
    case Blank => true
  }

  predicate GoodName(name: Option<string>) {
    name.Some? ==> name.value != [] && ']' !in name.value && OneLine(name.value)
  }

  /** No item has the name of an earlier one. */
  predicate UniqueItems(items: seq<Item>) {
    forall i, j | 0 <= i < j < |items| && items[i].Named? && items[j].Named? :: !SameName(items[j].name, items[i].name)
  }

  predicate GoodSection(s: Section) {
    GoodName(s.name) && (forall i | 0 <= i < |s.items| :: GoodItem(s.items[i])) && UniqueItems(s.items)
  }

  predicate UniqueSections(cfg: Config) {
    forall i, j | 0 <= i < j < |cfg| :: !SameSection(cfg[j].name, cfg[i].name)
  }

  /** What the parser can produce: trimmed parts without the separators,
      unique names, and at most the first section unnamed. */
  predicate Parsed(cfg: Config) {
    && (forall i | 0 <= i < |cfg| :: GoodSection(cfg[i]))
    && (forall i | 0 < i < |cfg| :: cfg[i].name.Some?)
    && UniqueSections(cfg)
  }

  predicate EmptyUnnamedFirst(cfg: Config) {
    cfg != [] && cfg[0].name.None? && cfg[0].items == []
  }

  predicate Canonical(cfg: Config) {
    Parsed(cfg) && !EmptyUnnamedFirst(cfg)
  }

  /** Every line of the text, newline aside, leaves room in the line buffer. */
  predicate FitsText(text: string)
    decreases |text|
  {
    text == [] ||
    (var n := IndexOf(text, '\n');
     n < LINE_ROOM && (n < |text| ==> FitsText(text[n + 1..])))
  }

  // ----- trimming

  lemma {:induction false} DropTailStops(s: string)
    requires s != [] ==> !IsTail(s[|s| - 1])
    ensures DropTail(s) == s
  {
  }

  lemma {:induction false} DropTailNewline(s: string)
    ensures DropTail(s + "\n") == DropTail(s)
  {
    assert (s + "\n")[..|s|] == s;
  }

  lemma {:induction false} DropLeadNewline(s: string)
    ensures DropLead(s + "\n") == DropLead(s) + "\n"
  {
    if s != [] && IsBlank(s[0]) {
      assert (s + "\n")[1..] == s[1..] + "\n";
      DropLeadNewline(s[1..]);
    }
  }

  /** A newline at the end of a line does not matter. */
  lemma {:induction false} CleanedNewline(s: string)
    ensures Cleaned(s + "\n") == Cleaned(s)
  {
    DropLeadNewline(s);
    DropTailNewline(DropLead(s));
  }

  lemma {:induction false} DropLeadIsSuffix(s: string)
    ensures |DropLead(s)| <= |s| && DropLead(s) == s[|s| - |DropLead(s)|..]
  {
    if s != [] && IsBlank(s[0]) {
      DropLeadIsSuffix(s[1..]);
    }
  }

  /** Cleaning removes characters at the ends only. */
  lemma {:induction false} CleanedWithin(s: string)
    ensures |Cleaned(s)| <= |s|
    ensures forall c | c in Cleaned(s) :: c in s
    ensures Cleaned(s) != [] ==> !IsBlank(Cleaned(s)[0]) && !IsTail(Cleaned(s)[|Cleaned(s)| - 1])
    ensures s != [] && !IsBlank(s[0]) && Cleaned(s) != [] ==> Cleaned(s)[0] == s[0]
  {
    DropLeadIsSuffix(s);
  }

  /** Text that is trimmed already is left alone. */
  lemma {:induction false} CleanedStops(s: string)
    requires s != [] ==> !IsBlank(s[0]) && !IsTail(s[|s| - 1])
    ensures Cleaned(s) == s
  {
    DropTailStops(s);
  }

  lemma {:induction false} CleanedTwice(s: string)
    ensures Cleaned(Cleaned(s)) == Cleaned(s)
  {
    CleanedWithin(s);
    CleanedStops(Cleaned(s));
  }

  lemma {:induction false} TrimmedEnds(s: string)
    requires Cleaned(s) == s && s != []
    ensures !IsBlank(s[0]) && !IsTail(s[|s| - 1])
  {
    CleanedWithin(s);
  }

  // ----- searching

  lemma {:induction false} IndexOfFirst(a: string, c: char, b: string)
    requires c !in a
    ensures IndexOf(a + [c] + b, c) == |a|
  {
    var s := a + [c] + b;
    var n := IndexOf(s, c);
    assert s[|a|] == c;
    assert forall i | 0 <= i < |a| :: s[i] == a[i];
  }

  // ----- one line read back

  lemma {:induction false} ReadOneLine(line: string, rest: string)
    requires OneLine(line) && |line| < LINE_ROOM
    ensures var text := line + "\n" + rest;
            ReadLength(text) == |line| + 1 && text[..|line| + 1] == line + "\n" && text[|line| + 1..] == rest
  {
    IndexOfFirst(line, '\n', rest);
    assert line + "\n" + rest == line + ['\n'] + rest;
  }

  lemma {:induction false} FitsOneLine(line: string, rest: string)
    requires OneLine(line)
    ensures FitsText(line + "\n" + rest) <==> |line| < LINE_ROOM && FitsText(rest)
  {
    IndexOfFirst(line, '\n', rest);
    assert line + "\n" + rest == line + ['\n'] + rest;
    assert (line + "\n" + rest)[|line| + 1..] == rest;
  }

  /** Parsing goes on after the first line. */
  lemma {:induction false} ParseOneLine(cfg: Config, line: string, rest: string)
    requires OneLine(line) && |line| < LINE_ROOM
    ensures ParseFrom(cfg, line + "\n" + rest) == ParseFrom(ParseLine(cfg, line + "\n"), rest)
  {
    hide ParseLine;
    ReadOneLine(line, rest);
  }

  lemma {:induction false} PrintedItemIsOneLine(item: Item)
    requires GoodItem(item)
    ensures OneLine(PrintItem(item))
    ensures Cleaned(PrintItem(item) + "\n") == PrintItem(item)
    ensures PrintItem(item) != [] ==> PrintItem(item)[0] != '['
  {
    var s := PrintItem(item);
    CleanedNewline(s);
    match item
    case Named(n, v) =>
      TrimmedEnds(n);
      if v != [] { TrimmedEnds(v); }
      CleanedStops(s);
    case Comment(t) => CleanedStops(s);
    case Blank =>
  }

  lemma {:induction false} SplitAtEquals(name: string, value: string)
    requires '=' !in name
    ensures var line := name + "=" + value;
            IndexOf(line, '=') == |name| && line[..|name|] == name && line[|name| + 1..] == value
  {
    IndexOfFirst(name, '=', value);
    assert name + "=" + value == name + ['='] + value;
  }

  lemma {:induction false} ItemReadBack(cfg: Config, item: Item)
    requires GoodItem(item) && cfg != []
    requires item.Named? ==> FindItem(cfg[|cfg| - 1].items, item.name) == |cfg[|cfg| - 1].items|
    ensures ParseLine(cfg, PrintItem(item) + "\n") == AddToLast(cfg, item)
  {
    PrintedItemIsOneLine(item);
    if item.Named? { TrimmedEnds(item.name); }
    hide Cleaned, AddToLast, FindItem, OneLine, IsTail, IsBlank, IndexOf;
    match item
    case Named(n, v) =>
      SplitAtEquals(n, v);
      var line := n + "=" + v;
      assert line[0] == n[0];
    case Comment(t) => assert (";" + t)[1..] == t;
    case Blank =>
  }

  lemma {:induction false} HeaderReadBack(cfg: Config, name: string)
    requires GoodName(Some(name)) && FindSection(cfg, Some(name)) == |cfg|
    ensures ParseLine(cfg, "[" + name + "]" + "\n") == cfg + [Section(Some(name), [])]
  {
    var s := "[" + name + "]";
    CleanedNewline(s);
    CleanedStops(s);
    IndexOfFirst("[" + name, ']', []);
    assert "[" + name + [']'] + [] == s;
    assert s[1..|name| + 1] == name;
  }

  // ----- printed sections read back

  lemma {:induction false} NewItemIsNotFound(items: seq<Item>, item: Item, rest: seq<Item>)
    requires UniqueItems(items + [item] + rest) && item.Named?
    ensures FindItem(items, item.name) == |items|
  {
    var all := items + [item] + rest;
    assert all[|items|] == item;
    assert forall i | 0 <= i < |items| :: all[i] == items[i];
  }

  function WithItems(cfg: Config, items: seq<Item>): Config
    requires cfg != []
  {
    var last := cfg[|cfg| - 1];
    cfg[|cfg| - 1 := last.(items := last.items + items)]
  }

  lemma {:induction false} AddThenRest(cfg: Config, item: Item, tail: seq<Item>)
    requires cfg != []
    ensures var next := AddToLast(cfg, item);
            next != [] && next[|next| - 1].items + tail == cfg[|cfg| - 1].items + ([item] + tail)
            && WithItems(next, tail) == WithItems(cfg, [item] + tail)
  {
    assert cfg[|cfg| - 1].items + [item] + tail == cfg[|cfg| - 1].items + ([item] + tail);
  }

  lemma {:induction false} ItemsReadBack(cfg: Config, items: seq<Item>, rest: string)
    requires cfg != [] && (forall i | 0 <= i < |items| :: GoodItem(items[i]))
    requires UniqueItems(cfg[|cfg| - 1].items + items)
    requires FitsText(PrintItems(items) + rest)
    ensures ParseFrom(cfg, PrintItems(items) + rest) == ParseFrom(WithItems(cfg, items), rest) && FitsText(rest)
    decreases |items|
  {
    hide ParseFrom, ParseLine, FitsText, GoodItem, UniqueItems, OneLine, AddToLast, PrintItem;
    var was := cfg[|cfg| - 1].items;
    if items == [] {
      assert was + [] == was;
      assert WithItems(cfg, items) == cfg;
      assert PrintItems(items) + rest == rest;
    } else {
      var item, tail := items[0], items[1..];
      assert items == [item] + tail;
      var line := PrintItem(item);
      PrintedItemIsOneLine(item);
      var after := PrintItems(tail) + rest;
      assert PrintItems(items) + rest == line + "\n" + after;
      FitsOneLine(line, after);
      ParseOneLine(cfg, line, after);
      assert was + items == was + [item] + tail;
      if item.Named? { NewItemIsNotFound(was, item, tail); }
      ItemReadBack(cfg, item);
      AddThenRest(cfg, item, tail);
      ItemsReadBack(AddToLast(cfg, item), tail, rest);
    }
  }

  lemma {:induction false} NewSectionIsNotFound(cfg: Config, s: Section, rest: Config)
    requires UniqueSections(cfg + [s] + rest)
    ensures FindSection(cfg, s.name) == |cfg|
  {
    var all := cfg + [s] + rest;
    assert all[|cfg|] == s;
    assert forall i | 0 <= i < |cfg| :: all[i] == cfg[i];
  }

  lemma {:induction false} SectionFacts(cfg: Config, s: Section)
    requires GoodSection(s)
    ensures forall i | 0 <= i < |s.items| :: GoodItem(s.items[i])
    ensures var next := cfg + [Section(s.name, [])];
            UniqueItems(next[|next| - 1].items + s.items) && WithItems(next, s.items) == cfg + [s]
    ensures s.name.Some? ==> OneLine("[" + s.name.value + "]")
  {
    assert [] + s.items == s.items;
  }

  lemma {:induction false} HeaderLine(name: string, body: string, rest: string)
    ensures PrintHeader(Some(name)) + body + rest == "[" + name + "]" + "\n" + (body + rest)
  {
    var line := "[" + name + "]";
    assert "[" + name + "]\n" == line + "\n";
  }

  lemma {:induction false} SectionReadBack(cfg: Config, s: Section, rest: string)
    requires GoodSection(s) && s.name.Some? && FindSection(cfg, s.name) == |cfg|
    requires FitsText(PrintHeader(s.name) + PrintItems(s.items) + rest)
    ensures ParseFrom(cfg, PrintHeader(s.name) + PrintItems(s.items) + rest) == ParseFrom(cfg + [s], rest)
            && FitsText(rest)
  {
    var line, after := "[" + s.name.value + "]", PrintItems(s.items) + rest;
    SectionFacts(cfg, s);
    HeaderReadBack(cfg, s.name.value);
    HeaderLine(s.name.value, PrintItems(s.items), rest);
    hide ParseFrom, ParseLine, FitsText, GoodItem, UniqueItems, OneLine, WithItems, PrintItems, FindSection,
        GoodSection;
    hide SameSection, IndexOf, Cleaned, PrintHeader;
    FitsOneLine(line, after);
    ParseOneLine(cfg, line, after);
    ItemsReadBack(cfg + [Section(s.name, [])], s.items, rest);
  }

  lemma {:induction false} SectionsReadBack(cfg: Config, rest: Config)
    requires Parsed(cfg + rest) && (forall i | 0 <= i < |rest| :: rest[i].name.Some?) && FitsText(Print(rest))
    ensures ParseFrom(cfg, Print(rest)) == cfg + rest
    decreases |rest|
  {
    hide ParseLine, FitsText, GoodSection, PrintItems, FindSection, SameSection, PrintHeader, ReadLength;
    if rest == [] {
      assert cfg + rest == cfg;
    } else {
      var s, tail := rest[0], rest[1..];
      var all := cfg + rest;
      assert all[|cfg|] == s && GoodSection(s);
      assert all == cfg + [s] + tail;
      NewSectionIsNotFound(cfg, s, tail);
      SectionReadBack(cfg, s, Print(tail));
      SectionsReadBack(cfg + [s], tail);
    }
  }

  lemma {:induction false} FirstItemOpensUnnamed(item: Item)
    requires GoodItem(item)
    ensures ParseLine([], PrintItem(item) + "\n") == ParseLine([Section(None, [])], PrintItem(item) + "\n")
  {
    PrintedItemIsOneLine(item);
  }

  /** The unnamed section, if it has items, reads back as the first one. */
  lemma {:induction false} UnnamedReadsBack(s: Section, rest: string)
    requires GoodSection(s) && s.name.None? && s.items != []
    requires FitsText(PrintItems(s.items) + rest)
    ensures ParseFrom([], PrintItems(s.items) + rest) == ParseFrom([s], rest) && FitsText(rest)
  {
    var unnamed := [Section(None, [])];
    SectionFacts([], s);
    assert [] + unnamed == unnamed && [] + [s] == [s];
    hide ParseFrom, ParseLine, FitsText, GoodItem, UniqueItems, OneLine, WithItems, PrintItem, GoodSection;
    FirstLineOpens(s.items, rest);
    ItemsReadBack(unnamed, s.items, rest);
  }

  lemma {:induction false} FirstLineOpens(items: seq<Item>, rest: string)
    requires items != [] && GoodItem(items[0]) && FitsText(PrintItems(items) + rest)
    ensures ParseFrom([], PrintItems(items) + rest) == ParseFrom([Section(None, [])], PrintItems(items) + rest)
  {
    hide ParseFrom, ParseLine, FitsText, GoodItem, OneLine, PrintItem;
    var line, after := PrintItem(items[0]), PrintItems(items[1..]) + rest;
    PrintedItemIsOneLine(items[0]);
    assert PrintItems(items) + rest == line + "\n" + after;
    FitsOneLine(line, after);
    FirstItemOpensUnnamed(items[0]);
    ParseOneLine([], line, after);
    ParseOneLine([Section(None, [])], line, after);
  }

  /** Printing a canonical configuration and parsing the text gives it back. */
  lemma {:induction false} CanonicalReadsBack(cfg: Config)
    requires Canonical(cfg) && FitsText(Print(cfg))
    ensures Parse(Print(cfg)) == cfg
  {
    hide ParseFrom, FitsText, PrintItems, GoodSection, UniqueSections;
    if cfg != [] && cfg[0].name.None? {
      var s, tail := cfg[0], cfg[1..];
      assert [s] + tail == cfg;
      assert Print(cfg) == PrintItems(s.items) + Print(tail);
      UnnamedReadsBack(s, Print(tail));
      SectionsReadBack([s], tail);
    } else {
      assert [] + cfg == cfg;
      SectionsReadBack([], cfg);
    }
  }
}
