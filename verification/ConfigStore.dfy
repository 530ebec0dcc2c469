/** The configuration file object of src/xpl/cfgfile.c: parsing, searching,
    changing and flushing, step by step as the code does it. */
module ConfigStore {
  import opened Basics
  import opened ConfigText
  import opened ConfigMap

  /** Clean: move the start past leading blanks, then cut blanks and line ends
      off the end one by one. */
  method Clean(s: string) returns (r: string)
    ensures r == Cleaned(s)
  {
    var start := 0;
    while start < |s| && IsBlank(s[start])
      invariant start <= |s| && DropLead(s[start..]) == DropLead(s)
    {
      assert s[start..][1..] == s[start + 1..];
      start := start + 1;
    }
    r := s[start..];
    assert r == DropLead(s);
    hide DropLead, IsBlank;
    while r != [] && IsTail(r[|r| - 1])
      invariant DropTail(r) == Cleaned(s)
    {
      r := r[..|r| - 1];
    }
  }

  /** strchr: the position of the first c. */
  method StrChr(s: string, c: char) returns (n: nat)
    ensures n == IndexOf(s, c)
  {
    n := 0;
    while n < |s| && s[n] != c
      invariant n <= |s| && IndexOf(s, c) == n + IndexOf(s[n..], c)
    {
      n := n + 1;
    }
  }

  /** stricmp, only as far as equality. */
  method StrICmpEqual(a: string, b: string) returns (same: bool)
    ensures same == SameName(a, b)
  {
    var i := 0;
    while i < |a| && i < |b| && ToLower(a[i]) == ToLower(b[i])
      invariant i <= |a| && i <= |b| && forall k | 0 <= k < i :: ToLower(a[k]) == ToLower(b[k])
    {
      i := i + 1;
    }
    same := i == |a| && i == |b|;
  }

  /** The inner printing loop of XplCFGFlush. */
  method PrintAfter(before: string, items: seq<Item>) returns (text: string)
    ensures text == before + PrintItems(items)
  {
    text := before;
    var j := 0;
    while j < |items|
      invariant j <= |items| && text + PrintItems(items[j..]) == before + PrintItems(items)
    {
      ghost var printed, rest := text, PrintItems(items[j + 1..]);
      match items[j] {
        case Named(name, value) => text := text + (name + "=" + value + "\n");
        case Comment(body) => text := text + (";" + body + "\n");
        case Blank => text := text + "\n";
      }
      assert items[j..][1..] == items[j + 1..];
      PrintedItem(printed, text, items[j], rest);
      j := j + 1;
    }
  }

  lemma {:induction false} PrintedItem(before: string, text: string, item: Item, rest: string)
    requires text == before + (PrintItem(item) + "\n")
    ensures text + rest == before + (PrintItem(item) + "\n" + rest)
  {
  }

  lemma {:induction false} Assoc4(a: string, b: string, c: string, d: string)
    ensures a + (b + c + d) == a + b + c + d
  {
  }

  lemma {:induction false} PrintedSoFar(before: string, cfg: Config, i: nat)
    requires i < |cfg|
    ensures before + Print(cfg[i..])
         == before + PrintHeader(cfg[i].name) + PrintItems(cfg[i].items) + Print(cfg[i + 1..])
  {
    hide PrintItems, PrintHeader;
    assert cfg[i..][1..] == cfg[i + 1..];
    Assoc4(before, PrintHeader(cfg[i].name), PrintItems(cfg[i].items), Print(cfg[i + 1..]));
  }

  class CFGFile {
    var sections: Config
    var changed: bool

    /** The file on disk. */
    var disk: string

    function Value(): State
      reads this
    {
      State(sections, changed)
    }

    /** The section pointer FindSection returns, as a position in the list. */
    method FindSectionAt(name: Option<string>) returns (k: nat)
      ensures k == FindSection(sections, name)
    {
      k := 0;
      while k < |sections|
        invariant k <= |sections| && forall i | 0 <= i < k :: !SameSection(name, sections[i].name)
        decreases |sections| - k
      {
        var found := false;
        if name.Some? {
          if sections[k].name.Some? {
            found := StrICmpEqual(name.value, sections[k].name.value);
          }
        } else {
          found := sections[k].name.None?;
        }
        if found {
          break;
        }
        k := k + 1;
      }
      FirstSection(sections, name, k);
    }

    method AddSection(name: Option<string>)
      modifies this`sections
      ensures sections == old(sections) + [Section(name, [])]
    {
      sections := sections + [Section(name, [])];
    }

    method FindItemAt(k: nat, name: string) returns (j: nat)
      requires k < |sections|
      ensures j == FindItem(sections[k].items, name)
    {
      var items := sections[k].items;
      j := 0;
      while j < |items|
        invariant j <= |items| && forall i | 0 <= i < j :: !IsItem(items[i], name)
        decreases |items| - j
      {
        if items[j].Named? {
          var found := StrICmpEqual(name, items[j].name);
          if found {
            break;
          }
        }
        j := j + 1;
      }
      FirstItem(items, name, j);
    }

    method AddItem(k: nat, item: Item)
      requires k < |sections|
      modifies this`sections
      ensures sections == ReplaceItems(old(sections), k, old(sections)[k].items + [item])
    {
      sections := sections[k := sections[k].(items := sections[k].items + [item])];
    }

    /** XplCFGOpen and, with an empty text, XplCFGCreate. */
    constructor (text: string)
      ensures sections == Parse(text) && !changed && disk == text
    {
      sections := [];
      changed := false;
      disk := text;
      new;
      hide ParseLine, IndexOf;
      var rest := text;
      while rest != []
        invariant ParseFrom(sections, rest) == Parse(text) && !changed && disk == text
        decreases |rest|
      {
        var nl := StrChr(rest, '\n');
        var end := if nl < |rest| then nl + 1 else nl;
        var n := if end < LINE_ROOM then end else LINE_ROOM;
        var lineBuff := rest[..n];
        ParseLineInto(lineBuff);
        rest := rest[n..];
      }
    }

    /** One pass of the reading loop. */
    method ParseLineInto(lineBuff: string)
      modifies this`sections
      ensures sections == ParseLine(old(sections), lineBuff)
    {
      hide Cleaned, FindSection, FindItem, IndexOf;
      var start := Clean(lineBuff);
      if start != [] && start[0] == '[' {
        var p := StrChr(start, ']');
        if p < |start| && p > 1 {
          var k := FindSectionAt(Some(start[1..p]));
          if k == |sections| {
            AddSection(Some(start[1..p]));
          }
        }
      } else {
        if sections == [] {
          AddSection(None);
        }
        ghost var at := sections;
        var last := |sections| - 1;
        if start == [] {
          AddItem(last, Blank);
        } else if start[0] == ';' {
          AddItem(last, Comment(start[1..]));
        } else {
          var p := StrChr(start, '=');
          if p < |start| {
            var name := Clean(start[..p]);
            if name != [] {
              var j := FindItemAt(last, name);
              if j == |sections[last].items| {
                var value := Clean(start[p + 1..]);
                AddItem(last, Named(name, value));
              }
            }
          }
        }
      }
    }

    /** XplCFGFlush. `writable` says whether the file can be opened for writing;
        the change mark is cleared even if it cannot. */
    method Flush(writable: bool)
      modifies this`changed, this`disk
      ensures disk == Flushed(old(Value()), old(disk), writable)
      ensures !changed
    {
      if changed {
        if writable {
          var text := "";
          var i := 0;
          while i < |sections|
            invariant i <= |sections| && text + Print(sections[i..]) == Print(sections)
            modifies {}
          {
            ghost var before := text;
            if sections[i].name.Some? {
              text := text + ("[" + sections[i].name.value + "]\n");
            }
            assert text == before + PrintHeader(sections[i].name);
            text := PrintAfter(text, sections[i].items);
            PrintedSoFar(before, sections, i);
            i := i + 1;
          }
          disk := text;
        }
        changed := false;
      }
    }

    /** XplCFGGetValue. */
    method GetValue(sectionName: Option<string>, name: Option<string>) returns (value: Option<string>)
      ensures value == Lookup(sections, sectionName, name)
    {
      var k := FindSectionAt(sectionName);
      if k == |sections| || name.None? {
        return None;
      }
      var j := FindItemAt(k, name.value);
      if j == |sections[k].items| {
        return None;
      }
      return Some(sections[k].items[j].value);
    }

    /** XplCFGSetValue. */
    method Set(sectionName: Option<string>, name: Option<string>, value: Option<string>) returns (rc: int)
      modifies this`sections, this`changed
      ensures (Value(), rc) == SetValue(old(Value()), Request(sectionName, name, value))
    {
      FoundAfterWithSection(Value(), sectionName);
      var k := FindSectionAt(sectionName);
      if k == |sections| {
        AddSection(sectionName);
        changed := true;
        FirstSection(sections, sectionName, k);
      }
      assert Value() == WithSection(old(Value()), sectionName);
      if name.Some? {
        if value.None? {
          return -1;
        }
        var j := FindItemAt(k, name.value);
        if j == |sections[k].items| {
          AddItem(k, Named(name.value, value.value));
        } else {
          var items := sections[k].items;
          sections := sections[k := sections[k].(items := items[j := items[j].(value := value.value)])];
        }
        changed := true;
        return 0;
      }
      AddItem(k, if value.Some? then Comment(value.value) else Blank);
      return 0;
    }
  }
}
