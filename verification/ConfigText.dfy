/** The text of a configuration file and what src/xpl/cfgfile.c makes of it:
    Clean, the line parser of _InternalOpen, and the printer of XplCFGFlush. */
module ConfigText {
  import opened Basics

  /** A named item, a comment, or a blank line. */
  datatype Item = Named(name: string, value: string) | Comment(text: string) | Blank

  /** A section; the unnamed one has no name. */
  datatype Section = Section(name: Option<string>, items: seq<Item>)

  type Config = seq<Section>

  /** A line buffer of 256 characters leaves room for 255 and the terminator. */
  const LINE_ROOM: nat := 255

  // ----- names

  function ToLower(c: char): char {
    if 'A' <= c <= 'Z' then c - 'A' + 'a' else c
  }

  /** stricmp finds no difference. */
  predicate SameName(a: string, b: string) {
    |a| == |b| && forall i | 0 <= i < |a| :: ToLower(a[i]) == ToLower(b[i])
  }

  predicate SameSection(a: Option<string>, b: Option<string>) {
    (a.None? && b.None?) || (a.Some? && b.Some? && SameName(a.value, b.value))
  }

  // ----- Clean

  predicate IsBlank(c: char) {
    c == ' ' || c == '\t'
  }

  predicate IsTail(c: char) {
    c == '\r' || c == '\n' || IsBlank(c)
  }

  function DropLead(s: string): (r: string)
    ensures |r| <= |s| && (r != [] ==> !IsBlank(r[0]))
  {
    if s != [] && IsBlank(s[0]) then DropLead(s[1..]) else s
  }

  function DropTail(s: string): (r: string)
    ensures |r| <= |s| && (r != [] ==> !IsTail(r[|r| - 1])) && r <= s
  {
    if s != [] && IsTail(s[|s| - 1]) then DropTail(s[..|s| - 1]) else s
  }

  function Cleaned(s: string): (r: string) {
    DropTail(DropLead(s))
  }

  // ----- searching

  /** The position of the first c, or the length if there is none. */
  function IndexOf(s: string, c: char): (n: nat)
    ensures n <= |s| && (n < |s| ==> s[n] == c) && forall i | 0 <= i < n :: s[i] != c
  {
    if s == [] || s[0] == c then 0 else 1 + IndexOf(s[1..], c)
  }

  function FindSection(cfg: Config, name: Option<string>): (n: nat)
    ensures n <= |cfg| && (n < |cfg| ==> SameSection(name, cfg[n].name))
            && forall i | 0 <= i < n :: !SameSection(name, cfg[i].name)
  {
    if cfg == [] || SameSection(name, cfg[0].name) then 0 else 1 + FindSection(cfg[1..], name)
  }

  predicate IsItem(item: Item, name: string) {
    item.Named? && SameName(name, item.name)
  }

  function FindItem(items: seq<Item>, name: string): (n: nat)
    ensures n <= |items| && (n < |items| ==> IsItem(items[n], name)) && forall i | 0 <= i < n :: !IsItem(items[i], name)
  {
    if items == [] || IsItem(items[0], name) then 0 else 1 + FindItem(items[1..], name)
  }

  // ----- the parser

  function AddToLast(cfg: Config, item: Item): Config
    requires cfg != []
  {
    var last := cfg[|cfg| - 1];
    cfg[|cfg| - 1 := last.(items := last.items + [item])]
  }

  /** A cleaned line that starts with a bracket opens a section, unless it is
      malformed, empty or a duplicate. */
  function ParseHeader(cfg: Config, start: string): Config
    requires start != []
  {
    var p := IndexOf(start, ']');
    if p == |start| || p <= 1 then cfg
    else if FindSection(cfg, Some(start[1..p])) < |cfg| then cfg
    else cfg + [Section(Some(start[1..p]), [])]
  }

  /** Any other cleaned line goes into the section at hand, which is the last
      one and, if there is none, a new unnamed one. */
  function ParseItem(cfg: Config, start: string): Config {
    var at := if cfg == [] then [Section(None, [])] else cfg;
    if start == [] then AddToLast(at, Blank)
    else if start[0] == ';' then AddToLast(at, Comment(start[1..]))
    else
      var p := IndexOf(start, '=');
      if p == |start| then at
      else
        var name := Cleaned(start[..p]);
        if name == [] then at
        else if FindItem(at[|at| - 1].items, name) < |at[|at| - 1].items| then at
        else AddToLast(at, Named(name, Cleaned(start[p + 1..])))
  }

  function ParseLine(cfg: Config, line: string): Config {
    var start := Cleaned(line);
    if start != [] && start[0] == '[' then ParseHeader(cfg, start) else ParseItem(cfg, start)
  }

  /** The length of what one fgets reads. */
  function ReadLength(text: string): (n: nat)
    requires text != []
    ensures 1 <= n <= |text| && n <= LINE_ROOM && (n < |text| && n < LINE_ROOM ==> text[n - 1] == '\n')
    ensures forall i | 0 <= i < n - 1 :: text[i] != '\n'
  {
    var nl := IndexOf(text, '\n');
    var end := if nl < |text| then nl + 1 else nl;
    if end < LINE_ROOM then end else LINE_ROOM
  }

  function ParseFrom(cfg: Config, text: string): Config
    decreases |text|
  {
    if text == [] then cfg
    else ParseFrom(ParseLine(cfg, text[..ReadLength(text)]), text[ReadLength(text)..])
  }

  function Parse(text: string): Config {
    ParseFrom([], text)
  }

  // ----- the printer

  function PrintItem(item: Item): string {
    match item
    case Named(name, value) => name + "=" + value
    case Comment(text) => ";" + text
    case Blank => ""
  }

  function PrintItems(items: seq<Item>): string {
    if items == [] then "" else PrintItem(items[0]) + "\n" + PrintItems(items[1..])
  }

  function PrintHeader(name: Option<string>): string {
    if name.Some? then "[" + name.value + "]\n" else ""
  }

  function Print(cfg: Config): string {
    if cfg == [] then "" else PrintHeader(cfg[0].name) + PrintItems(cfg[0].items) + Print(cfg[1..])
  }
}
