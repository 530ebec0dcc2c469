/** What XplCFGSetValue does to a configuration and what XplCFGGetValue then
    finds: the configuration refines a map with case-insensitive keys. */
module ConfigMap {
  import opened Basics
  import opened ConfigText
  import opened ConfigReading
  import opened ConfigRoundTrip

  /** The arguments of one XplCFGSetValue; None stands for NULL. */
  datatype Request = Request(section: Option<string>, name: Option<string>, value: Option<string>)

  datatype State = State(sections: Config, changed: bool)

  // ----- lookup and update

  function Lookup(cfg: Config, section: Option<string>, name: Option<string>): Option<string> {
    var k := FindSection(cfg, section);
    if k == |cfg| || name.None? then None
    else
      var j := FindItem(cfg[k].items, name.value);
      if j == |cfg[k].items| then None else Some(cfg[k].items[j].value)
  }

  function WithSection(st: State, name: Option<string>): State {
    if FindSection(st.sections, name) < |st.sections| then st
    else State(st.sections + [Section(name, [])], true)
  }

  function SetItem(items: seq<Item>, name: string, value: string): seq<Item> {
    var j := FindItem(items, name);
    if j < |items| then items[j := items[j].(value := value)] else items + [Named(name, value)]
  }

  function ReplaceItems(cfg: Config, k: nat, items: seq<Item>): Config
    requires k < |cfg|
  {
    cfg[k := cfg[k].(items := items)]
  }

  lemma {:induction false} FoundAfterWithSection(st: State, name: Option<string>)
    ensures var at := WithSection(st, name).sections; FindSection(at, name) < |at|
  {
    var at := WithSection(st, name).sections;
    if FindSection(st.sections, name) == |st.sections| {
      assert SameSection(name, at[|st.sections|].name);
    }
  }

  /** The whole effect of one call, and what it returns. */
  function SetValue(st: State, r: Request): (State, int) {
    var at := WithSection(st, r.section);
    FoundAfterWithSection(st, r.section);
    var k := FindSection(at.sections, r.section);
    var items := at.sections[k].items;
    if r.name.None? then
      (at.(sections := ReplaceItems(at.sections, k, items + [if r.value.Some? then Comment(r.value.value) else Blank])),
          0)
    else if r.value.None? then (at, -1)
    else (State(ReplaceItems(at.sections, k, SetItem(items, r.name.value, r.value.value)), true), 0)
  }

  function SetAll(st: State, rs: seq<Request>): State
    decreases |rs|
  {
    if rs == [] then st else SetAll(SetValue(st, rs[0]).0, rs[1..])
  }

  // ----- names up to case

  function Fold(s: string): (r: string)
    ensures |r| == |s| && forall i | 0 <= i < |s| :: r[i] == ToLower(s[i])
  {
    seq(|s|, i requires 0 <= i < |s| => ToLower(s[i]))
  }

  lemma {:induction false} SameNameIsFold(a: string, b: string)
    ensures SameName(a, b) <==> Fold(a) == Fold(b)
  {
    if Fold(a) == Fold(b) {
      assert forall i | 0 <= i < |a| :: Fold(a)[i] == Fold(b)[i];
    }
  }

  function FoldSection(s: Option<string>): Option<string> {
    if s.None? then None else Some(Fold(s.value))
  }

  lemma {:induction false} SameSectionIsFold(a: Option<string>, b: Option<string>)
    ensures SameSection(a, b) <==> FoldSection(a) == FoldSection(b)
  {
    if a.Some? && b.Some? { SameNameIsFold(a.value, b.value); }
  }

  lemma {:induction false} SameSectionIsEquivalence(a: Option<string>, b: Option<string>, c: Option<string>)
    ensures SameSection(a, b) <==> SameSection(b, a)
    ensures SameSection(a, b) ==> (SameSection(a, c) <==> SameSection(b, c))
  {
    SameSectionIsFold(a, b);
    SameSectionIsFold(b, a);
    SameSectionIsFold(a, c);
    SameSectionIsFold(b, c);
  }

  lemma {:induction false} SameNameIsEquivalence(a: string, b: string, c: string)
    ensures SameName(a, b) <==> SameName(b, a)
    ensures SameName(a, b) ==> (SameName(a, c) <==> SameName(b, c))
  {
    SameSectionIsEquivalence(Some(a), Some(b), Some(c));
  }

  // ----- what a search finds after a change

  /** Searches agree on names that differ only in case. */
  lemma {:induction false} SearchUpToCase(cfg: Config, a: Option<string>, b: Option<string>)
    requires SameSection(a, b)
    ensures FindSection(cfg, a) == FindSection(cfg, b)
  {
    var i, j := FindSection(cfg, a), FindSection(cfg, b);
    if i < |cfg| { SameSectionIsEquivalence(a, b, cfg[i].name); }
    if j < |cfg| { SameSectionIsEquivalence(a, b, cfg[j].name); }
  }

  lemma {:induction false} ItemSearchUpToCase(items: seq<Item>, a: string, b: string)
    requires SameName(a, b)
    ensures FindItem(items, a) == FindItem(items, b)
  {
    var i, j := FindItem(items, a), FindItem(items, b);
    if i < |items| { SameNameIsEquivalence(a, b, items[i].name); }
    if j < |items| { SameNameIsEquivalence(a, b, items[j].name); }
  }

  /** The first position that answers a search is the one found. */
  lemma {:induction false} FirstSection(cfg: Config, name: Option<string>, k: nat)
    requires k <= |cfg| && (k < |cfg| ==> SameSection(name, cfg[k].name))
    requires forall i | 0 <= i < k :: !SameSection(name, cfg[i].name)
    ensures FindSection(cfg, name) == k
  {
  }

  lemma {:induction false} FirstItem(items: seq<Item>, name: string, k: nat)
    requires k <= |items| && (k < |items| ==> IsItem(items[k], name))
    requires forall i | 0 <= i < k :: !IsItem(items[i], name)
    ensures FindItem(items, name) == k
  {
  }

  lemma {:induction false} ReplaceKeepsSearch(cfg: Config, k: nat, items: seq<Item>, name: Option<string>)
    requires k < |cfg|
    ensures FindSection(ReplaceItems(cfg, k, items), name) == FindSection(cfg, name)
  {
    var j := FindSection(cfg, name);
    var after := ReplaceItems(cfg, k, items);
    assert forall i | 0 <= i < |cfg| :: after[i].name == cfg[i].name;
    FirstSection(after, name, j);
  }

  /** Creating a section changes no lookup. */
  lemma {:induction false} WithSectionKeepsLookups(st: State, created: Option<string>, section: Option<string>,
      name: Option<string>)
    ensures Lookup(WithSection(st, created).sections, section, name) == Lookup(st.sections, section, name)
  {
    var cfg := st.sections;
    if FindSection(cfg, created) == |cfg| {
      var after := cfg + [Section(created, [])];
      var k := FindSection(cfg, section);
      if k < |cfg| {
        FirstSection(after, section, k);
      } else if SameSection(section, created) {
        FirstSection(after, section, |cfg|);
      } else {
        FirstSection(after, section, |after|);
      }
    }
  }

  lemma {:induction false} AppendKeepsItemSearch(items: seq<Item>, more: Item, name: string)
    requires !IsItem(more, name)
    ensures FindItem(items + [more], name) == if FindItem(items, name) < |items| then FindItem(items, name)
            else |items| + 1
  {
    var j := FindItem(items, name);
    FirstItem(items + [more], name, if j < |items| then j else |items| + 1);
  }

  /** After one item is set, its name finds the new value and every other name
      finds what it found before. */
  lemma {:induction false} SetItemFinds(items: seq<Item>, target: string, value: string, name: string)
    ensures var after := SetItem(items, target, value);
            var j := FindItem(items, name);
            var j' := FindItem(after, name);
            if SameName(target, name) then j' < |after| && after[j'].value == value
            else if j < |items| then j' < |after| && after[j'].value == items[j].value
            else j' == |after|
  {
    var after := SetItem(items, target, value);
    var s, j := FindItem(items, target), FindItem(items, name);
    SameNameIsEquivalence(target, name, name);
    if SameName(target, name) {
      ItemSearchUpToCase(items, target, name);
      FirstItem(after, name, s);
    } else if s < |items| {
      SameNameIsEquivalence(target, items[s].name, name);
      assert forall i | 0 <= i < |items| :: IsItem(after[i], name) <==> IsItem(items[i], name);
      FirstItem(after, name, j);
    } else {
      AppendKeepsItemSearch(items, Named(target, value), name);
    }
  }

  // ----- the map

  type Key = (Option<string>, string)

  function KeyOf(section: Option<string>, name: string): Key {
    (FoldSection(section), Fold(name))
  }

  predicate SetsNamed(r: Request) {
    r.name.Some? && r.value.Some?
  }

  /** After a successful named set, the key finds the new value and every other
      key finds what it did; every other call changes no lookup at all. */
  lemma {:induction false} SetThenGet(st: State, r: Request, section: Option<string>, name: string)
    ensures Lookup(SetValue(st, r).0.sections, section, Some(name))
         == if SetsNamed(r) && KeyOf(section, name) == KeyOf(r.section, r.name.value) then r.value
            else Lookup(st.sections, section, Some(name))
  {
    var at := WithSection(st, r.section).sections;
    WithSectionKeepsLookups(st, r.section, section, Some(name));
    FoundAfterWithSection(st, r.section);
    var k := FindSection(at, r.section);
    var after := SetValue(st, r).0.sections;
    SameSectionIsFold(section, r.section);
    if r.name.None? || r.value.Some? {
      var items := after[k].items;
      assert after == ReplaceItems(at, k, items);
      ReplaceKeepsSearch(at, k, items, section);
      if SameSection(section, r.section) {
        SearchUpToCase(at, section, r.section);
        if r.name.None? {
          AppendKeepsItemSearch(at[k].items, items[|items| - 1], name);
        } else {
          SetItemFinds(at[k].items, r.name.value, r.value.value, name);
          SameNameIsFold(r.name.value, name);
        }
      } else {
        DifferentSections(at, section, r.section);
      }
    }
  }

  lemma {:induction false} DifferentSections(cfg: Config, a: Option<string>, b: Option<string>)
    requires !SameSection(a, b)
    ensures FindSection(cfg, a) < |cfg| ==> FindSection(cfg, a) != FindSection(cfg, b)
  {
    var k := FindSection(cfg, a);
    if k < |cfg| {
      SameSectionIsEquivalence(a, cfg[k].name, b);
      SameSectionIsEquivalence(cfg[k].name, b, b);
    }
  }

  /** The lookups of the configuration are those of the map. */
  ghost predicate Refines(cfg: Config, m: map<Key, string>) {
    forall section, name :: Lookup(cfg, section, Some(name))
      == if KeyOf(section, name) in m then Some(m[KeyOf(section, name)]) else None
  }

  /** The map after the same calls: a named set stores, the rest do nothing. */
  function SetMap(m: map<Key, string>, rs: seq<Request>): map<Key, string>
    decreases |rs|
  {
    if rs == [] then m
    else
      var r := rs[0];
      SetMap(if SetsNamed(r) then m[KeyOf(r.section, r.name.value) := r.value.value] else m, rs[1..])
  }

  /** Over any run of calls the configuration refines the map. */
  lemma {:induction false} RunRefinesMap(st: State, m: map<Key, string>, rs: seq<Request>)
    requires Refines(st.sections, m)
    ensures Refines(SetAll(st, rs).sections, SetMap(m, rs))
    decreases |rs|
  {
    if rs != [] {
      var r := rs[0];
      var next := SetValue(st, r).0;
      var m' := if SetsNamed(r) then m[KeyOf(r.section, r.name.value) := r.value.value] else m;
      forall section, name
        ensures Lookup(next.sections, section, Some(name))
             == if KeyOf(section, name) in m' then Some(m'[KeyOf(section, name)]) else None
      {
        SetThenGet(st, r, section, name);
      }
      RunRefinesMap(next, m', rs[1..]);
    }
  }

  /** The map a configuration stands for; the first of several equal keys wins. */
  function ItemMap(section: Option<string>, items: seq<Item>): map<Key, string> {
    if items == [] then map[]
    else
      var rest := ItemMap(section, items[1..]);
      if items[0].Named? then rest[KeyOf(section, items[0].name) := items[0].value] else rest
  }

  function MapOf(cfg: Config): map<Key, string> {
    if cfg == [] then map[]
    else
      var rest := MapOf(cfg[1..]);
      (map key | key in rest && key.0 != FoldSection(cfg[0].name) :: rest[key]) + ItemMap(cfg[0].name, cfg[0].items)
  }

  lemma {:induction false} ItemMapFinds(section: Option<string>, items: seq<Item>, name: string)
    ensures forall key | key in ItemMap(section, items) :: key.0 == FoldSection(section)
    ensures var m, key, j := ItemMap(section, items), KeyOf(section, name), FindItem(items, name);
            if j < |items| then key in m && m[key] == items[j].value else key !in m
  {
    if items != [] {
      ItemMapFinds(section, items[1..], name);
      if items[0].Named? { SameNameIsFold(name, items[0].name); }
    }
  }

  /** Every configuration is some map. */
  lemma {:induction false} MapOfFinds(cfg: Config, section: Option<string>, name: string)
    ensures Lookup(cfg, section, Some(name))
         == if KeyOf(section, name) in MapOf(cfg) then Some(MapOf(cfg)[KeyOf(section, name)]) else None
  {
    if cfg != [] {
      MapOfFinds(cfg[1..], section, name);
      ItemMapFinds(cfg[0].name, cfg[0].items, name);
      SameSectionIsFold(section, cfg[0].name);
    }
  }

  /** A file that is opened and then changed by any run of calls answers every
      lookup as a map with case-insensitive keys would. */
  lemma {:induction false} OpenedFileRefinesMap(text: string, rs: seq<Request>)
    ensures Refines(SetAll(State(Parse(text), false), rs).sections, SetMap(MapOf(Parse(text)), rs))
  {
    var cfg := Parse(text);
    forall section, name
      ensures Lookup(cfg, section, Some(name)) == if KeyOf(section, name) in MapOf(cfg) then
              Some(MapOf(cfg)[KeyOf(section, name)]) else None
    {
      MapOfFinds(cfg, section, name);
    }
    RunRefinesMap(State(cfg, false), MapOf(cfg), rs);
  }

  // ----- uniqueness

  ghost predicate UniqueNames(cfg: Config) {
    UniqueSections(cfg) && forall i | 0 <= i < |cfg| :: UniqueItems(cfg[i].items)
  }

  lemma {:induction false} SetItemKeepsUnique(items: seq<Item>, name: string, value: string)
    requires UniqueItems(items)
    ensures UniqueItems(SetItem(items, name, value))
  {
  }

  lemma {:induction false} WithSectionKeepsUnique(st: State, name: Option<string>)
    requires UniqueNames(st.sections)
    ensures UniqueNames(WithSection(st, name).sections)
  {
    assert UniqueItems([]);
    hide UniqueItems, SameSection;
  }

  lemma {:induction false} ReplaceKeepsUnique(cfg: Config, k: nat, items: seq<Item>)
    requires UniqueNames(cfg) && k < |cfg| && UniqueItems(items)
    ensures UniqueNames(ReplaceItems(cfg, k, items))
  {
    hide UniqueItems, SameSection;
  }

  /** No call can make two sections, or two items of a section, share a name. */
  lemma {:induction false} SetKeepsUnique(st: State, r: Request)
    requires UniqueNames(st.sections)
    ensures UniqueNames(SetValue(st, r).0.sections)
  {
    var at := WithSection(st, r.section).sections;
    WithSectionKeepsUnique(st, r.section);
    FoundAfterWithSection(st, r.section);
    var k := FindSection(at, r.section);
    if SetsNamed(r) {
      SetItemKeepsUnique(at[k].items, r.name.value, r.value.value);
      ReplaceKeepsUnique(at, k, SetItem(at[k].items, r.name.value, r.value.value));
    } else if r.name.None? {
      var items := at[k].items + [if r.value.Some? then Comment(r.value.value) else Blank];
      assert UniqueItems(items);
      ReplaceKeepsUnique(at, k, items);
    }
  }

  lemma {:induction false} RunKeepsUnique(st: State, rs: seq<Request>)
    requires UniqueNames(st.sections)
    ensures UniqueNames(SetAll(st, rs).sections)
    decreases |rs|
  {
    if rs != [] {
      SetKeepsUnique(st, rs[0]);
      RunKeepsUnique(SetValue(st, rs[0]).0, rs[1..]);
    }
  }

  // ----- uniqueness of what is opened

  lemma {:induction false} NewSectionKeepsUnique(cfg: Config, name: Option<string>)
    requires UniqueNames(cfg) && FindSection(cfg, name) == |cfg|
    ensures UniqueNames(cfg + [Section(name, [])])
  {
    assert WithSection(State(cfg, false), name).sections == cfg + [Section(name, [])];
    WithSectionKeepsUnique(State(cfg, false), name);
  }

  lemma {:induction false} AddKeepsUniqueNames(cfg: Config, item: Item)
    requires UniqueNames(cfg) && cfg != []
    requires item.Named? ==> FindItem(cfg[|cfg| - 1].items, item.name) == |cfg[|cfg| - 1].items|
    ensures UniqueNames(AddToLast(cfg, item))
  {
    var k := |cfg| - 1;
    AddKeepsUnique(cfg[k].items, item);
    ReplaceKeepsUnique(cfg, k, cfg[k].items + [item]);
  }

  /** A line that is read, whatever it holds, keeps names unique: duplicates are
      refused. */
  lemma {:induction false} LineKeepsUnique(cfg: Config, line: string)
    requires UniqueNames(cfg)
    ensures UniqueNames(ParseLine(cfg, line))
  {
    var start := Cleaned(line);
    hide UniqueNames, Cleaned, FindItem, FindSection, AddToLast, IndexOf;
    if start != [] && start[0] == '[' {
      var p := IndexOf(start, ']');
      if 1 < p < |start| && FindSection(cfg, Some(start[1..p])) == |cfg| {
        NewSectionKeepsUnique(cfg, Some(start[1..p]));
      }
    } else {
      ItemLineKeepsUnique(cfg, start);
    }
  }

  lemma {:induction false} ItemLineKeepsUnique(cfg: Config, start: string)
    requires UniqueNames(cfg)
    ensures UniqueNames(ParseItem(cfg, start))
  {
    var at := if cfg == [] then [Section(None, [])] else cfg;
    assert UniqueNames(at);
    hide UniqueNames, Cleaned, FindItem, AddToLast, IndexOf;
    if start == [] {
      AddKeepsUniqueNames(at, Blank);
    } else if start[0] == ';' {
      AddKeepsUniqueNames(at, Comment(start[1..]));
    } else {
      var p := IndexOf(start, '=');
      if p < |start| {
        var name := Cleaned(start[..p]);
        if name != [] && FindItem(at[|at| - 1].items, name) == |at[|at| - 1].items| {
          AddKeepsUniqueNames(at, Named(name, Cleaned(start[p + 1..])));
        }
      }
    }
  }

  lemma {:induction false} ParseFromKeepsUnique(cfg: Config, text: string)
    requires UniqueNames(cfg)
    ensures UniqueNames(ParseFrom(cfg, text))
    decreases |text|
  {
    hide UniqueNames, ParseLine;
    if text != [] {
      var n := ReadLength(text);
      LineKeepsUnique(cfg, text[..n]);
      ParseFromKeepsUnique(ParseLine(cfg, text[..n]), text[n..]);
    }
  }

  /** Whatever text is opened and whatever is called after, no two sections and
      no two items of a section share a name. */
  lemma {:induction false} ReachableIsUnique(text: string, rs: seq<Request>)
    ensures UniqueNames(SetAll(State(Parse(text), false), rs).sections)
  {
    ParseFromKeepsUnique([], text);
    RunKeepsUnique(State(Parse(text), false), rs);
  }

  // ----- what is marked for saving

  /** A call changes an unchanged configuration without marking it, so that the
      next flush does not write it, exactly when it adds a comment or a blank
      line to a section that exists. */
  lemma {:induction false} ChangeGoesUnmarkedExactly(st: State, r: Request)
    requires !st.changed
    ensures SetValue(st, r).0.sections != st.sections && !SetValue(st, r).0.changed
       <==> r.name.None? && FindSection(st.sections, r.section) < |st.sections|
  {
    var k := FindSection(st.sections, r.section);
    if k < |st.sections| && r.name.None? {
      assert |SetValue(st, r).0.sections[k].items| == |st.sections[k].items| + 1;
    }
  }

  /** A call succeeds unless it has a name and no value; then it returns -1, and
      only a missing section is added. A comment or blank line goes behind the
      items of its section, and all other sections stay as they are. */
  lemma {:induction false} SetSucceedsExactly(st: State, r: Request)
    ensures SetValue(st, r).1 == if r.name.None? || r.value.Some? then 0 else -1
    ensures SetValue(st, r).1 != 0 ==> SetValue(st, r).0 == WithSection(st, r.section)
    ensures var k, after := FindSection(st.sections, r.section), SetValue(st, r).0.sections;
            && |after| == (if k < |st.sections| then |st.sections| else |st.sections| + 1)
            && (forall i | 0 <= i < |st.sections| && i != k :: after[i] == st.sections[i])
            && (k < |st.sections| ==> after[k].name == st.sections[k].name)
            && (k == |st.sections| ==> SameSection(r.section, after[k].name))
            && (r.name.None? ==>
                  after[k].items == (if k < |st.sections| then st.sections[k].items else [])
                                    + [if r.value.Some? then Comment(r.value.value) else Blank])
  {
    var at := WithSection(st, r.section).sections;
    var k := FindSection(st.sections, r.section);
    FoundAfterWithSection(st, r.section);
    if k == |st.sections| {
      assert forall i | 0 <= i < |st.sections| :: at[i] == st.sections[i];
      assert FindSection(at, r.section) == k;
    }
  }

  /** A call leaves a mark if it sets a named item or its section is missing. */
  predicate Marks(cfg: Config, r: Request) {
    SetsNamed(r) || FindSection(cfg, r.section) == |cfg|
  }

  predicate SomeMarks(cfg: Config, rs: seq<Request>) {
    exists i :: 0 <= i < |rs| && Marks(cfg, rs[i])
  }

  lemma {:induction false} SameNamesFind(a: Config, b: Config, name: Option<string>)
    requires |a| == |b| && forall i | 0 <= i < |a| :: a[i].name == b[i].name
    ensures FindSection(a, name) == FindSection(b, name)
  {
  }

  lemma {:induction false} CallMarks(st: State, r: Request)
    ensures SetValue(st, r).0.changed <==> st.changed || Marks(st.sections, r)
    ensures !Marks(st.sections, r) ==> forall n :: Marks(SetValue(st, r).0.sections, n) == Marks(st.sections, n)
  {
    var after := SetValue(st, r).0.sections;
    if !Marks(st.sections, r) {
      forall n: Request ensures Marks(after, n) == Marks(st.sections, n) {
        SameNamesFind(after, st.sections, n.section);
      }
    }
  }

  /** A run is marked as a change exactly if it sets a named item or names a
      section that was missing when it began. */
  lemma {:induction false} RunIsMarkedExactly(st: State, rs: seq<Request>)
    ensures SetAll(st, rs).changed <==> st.changed || SomeMarks(st.sections, rs)
    decreases |rs|
  {
    if rs != [] {
      var next := SetValue(st, rs[0]).0;
      CallMarks(st, rs[0]);
      RunIsMarkedExactly(next, rs[1..]);
      if Marks(st.sections, rs[0]) {
        assert SomeMarks(st.sections, rs);
      } else {
        assert forall i | 0 <= i < |rs| - 1 :: rs[1..][i] == rs[i + 1];
        if i :| 0 <= i < |rs| && Marks(st.sections, rs[i]) {
          assert Marks(next.sections, rs[1..][i - 1]);
        }
      }
    }
  }

  function Size(cfg: Config): nat {
    if cfg == [] then 0 else |cfg[0].items| + Size(cfg[1..])
  }

  lemma {:induction false} SizeReplaced(cfg: Config, k: nat, items: seq<Item>)
    requires k < |cfg|
    ensures Size(ReplaceItems(cfg, k, items)) == Size(cfg) - |cfg[k].items| + |items|
  {
    if k > 0 {
      SizeReplaced(cfg[1..], k - 1, items);
      assert ReplaceItems(cfg, k, items)[1..] == ReplaceItems(cfg[1..], k - 1, items);
    } else {
      assert ReplaceItems(cfg, k, items)[1..] == cfg[1..];
    }
  }

  /** A run without a mark changes nothing exactly if every call of it has a name. */
  lemma {:induction false} UnmarkedRunChangesExactly(st: State, rs: seq<Request>)
    requires !SomeMarks(st.sections, rs)
    ensures Size(SetAll(st, rs).sections) >= Size(st.sections)
    ensures SetAll(st, rs).sections == st.sections <==> forall i | 0 <= i < |rs| :: rs[i].name.Some?
    ensures rs != [] && rs[0].name.None? ==> Size(SetAll(st, rs).sections) > Size(st.sections)
    decreases |rs|
  {
    if rs != [] {
      var next := SetValue(st, rs[0]).0;
      CallMarks(st, rs[0]);
      assert !Marks(st.sections, rs[0]);
      forall i | 0 <= i < |rs[1..]| ensures !Marks(next.sections, rs[1..][i]) {
        assert !Marks(st.sections, rs[i + 1]);
      }
      UnmarkedRunChangesExactly(next, rs[1..]);
      if rs[0].name.None? {
        var k := FindSection(st.sections, rs[0].section);
        SizeReplaced(st.sections, k, next.sections[k].items);
        assert next.sections == ReplaceItems(st.sections, k, next.sections[k].items);
      } else {
        assert next.sections == st.sections;
        assert forall i | 0 <= i < |rs| - 1 :: rs[1..][i] == rs[i + 1];
        assert forall i | 0 < i < |rs| :: rs[i] == rs[1..][i - 1];
      }
    }
  }

  // ----- what survives a save

  /** A request whose parts print as one line each, and that does not ask for
      the unnamed section unless that one comes first. */
  ghost predicate GoodRequest(cfg: Config, r: Request) {
    && GoodName(r.section)
    && (r.section.None? ==> cfg == [] || cfg[0].name.None?)
    && (SetsNamed(r) ==> GoodItem(Named(r.name.value, r.value.value)))
    && (r.name.None? && r.value.Some? ==> GoodItem(Comment(r.value.value)))
  }

  ghost predicate GoodRun(st: State, rs: seq<Request>)
    decreases |rs|
  {
    rs == [] || (GoodRequest(st.sections, rs[0]) && GoodRun(SetValue(st, rs[0]).0, rs[1..]))
  }

  lemma {:induction false} WithSectionKeepsParsed(st: State, name: Option<string>)
    requires Parsed(st.sections) && GoodName(name)
    requires name.None? ==> st.sections == [] || st.sections[0].name.None?
    ensures Parsed(WithSection(st, name).sections)
  {
    var s := Section(name, []);
    assert GoodSection(s);
    hide GoodSection;
  }

  lemma {:induction false} ReplaceKeepsParsed(cfg: Config, k: nat, items: seq<Item>)
    requires Parsed(cfg) && k < |cfg| && UniqueItems(items) && forall i | 0 <= i < |items| :: GoodItem(items[i])
    ensures Parsed(ReplaceItems(cfg, k, items))
  {
    assert GoodSection(cfg[k]);
    var s := cfg[k].(items := items);
    assert GoodSection(s);
    hide GoodSection, UniqueItems, GoodItem;
  }

  lemma {:induction false} SetKeepsParsed(st: State, r: Request)
    requires Parsed(st.sections) && GoodRequest(st.sections, r)
    ensures Parsed(SetValue(st, r).0.sections)
  {
    WithSectionKeepsParsed(st, r.section);
    FoundAfterWithSection(st, r.section);
    var at := WithSection(st, r.section).sections;
    var k := FindSection(at, r.section);
    assert GoodSection(at[k]);
    if r.name.None? {
      ReplaceKeepsParsed(at, k, at[k].items + [if r.value.Some? then Comment(r.value.value) else Blank]);
    } else if r.value.Some? {
      SetItemKeepsUnique(at[k].items, r.name.value, r.value.value);
      SetItemKeepsGood(at[k].items, r.name.value, r.value.value);
      ReplaceKeepsParsed(at, k, SetItem(at[k].items, r.name.value, r.value.value));
    }
  }

  lemma {:induction false} SetItemKeepsGood(items: seq<Item>, name: string, value: string)
    requires GoodItem(Named(name, value)) && forall i | 0 <= i < |items| :: GoodItem(items[i])
    ensures forall i | 0 <= i < |SetItem(items, name, value)| :: GoodItem(SetItem(items, name, value)[i])
  {
    var j := FindItem(items, name);
    if j < |items| {
      assert GoodItem(items[j]);
      assert GoodItem(items[j].(value := value));
    }
  }

  lemma {:induction false} RunKeepsParsed(st: State, rs: seq<Request>)
    requires Parsed(st.sections) && GoodRun(st, rs)
    ensures Parsed(SetAll(st, rs).sections)
    decreases |rs|
  {
    if rs != [] {
      SetKeepsParsed(st, rs[0]);
      RunKeepsParsed(SetValue(st, rs[0]).0, rs[1..]);
    }
  }

  lemma {:induction false} ReopenKeepsLookups(cfg: Config, section: Option<string>, name: Option<string>)
    requires Parsed(cfg) && FitsText(Print(cfg))
    ensures Lookup(Parse(Print(cfg)), section, name) == Lookup(cfg, section, name)
  {
    assert forall i | 0 < i < |cfg| :: cfg[i].name.Some?;
    DroppedIsCanonical(cfg);
    CanonicalReadsBack(WithoutEmptyUnnamed(cfg));
    hide Canonical, Parsed, Parse, Print, FitsText;
    if EmptyUnnamedFirst(cfg) {
      EmptyUnnamedAnswersNothing(cfg, section, name);
    }
  }

  lemma {:induction false} EmptyUnnamedAnswersNothing(cfg: Config, section: Option<string>, name: Option<string>)
    requires EmptyUnnamedFirst(cfg) && forall i | 0 < i < |cfg| :: cfg[i].name.Some?
    ensures Lookup(cfg[1..], section, name) == Lookup(cfg, section, name)
  {
    var less := cfg[1..];
    var k := FindSection(less, section);
    assert forall i | 0 <= i < |less| :: less[i] == cfg[i + 1];
    if section.Some? {
      FirstSection(cfg, section, k + 1);
    } else {
      FirstSection(less, section, |less|);
    }
  }

  // ----- what a flush leaves on disk

  /** XplCFGFlush writes a configuration that is marked, if it can. */
  function Flushed(st: State, disk: string, writable: bool): string {
    if st.changed && writable then Print(st.sections) else disk
  }

  /** The same sections, each with its items and perhaps more. */
  ghost predicate Extends(after: Config, before: Config) {
    |after| == |before| && forall i | 0 <= i < |before| :: ExtendsSection(after[i], before[i])
  }

  predicate ExtendsSection(after: Section, before: Section) {
    after.name == before.name && before.items <= after.items
  }

  lemma {:induction false} UnmarkedSetExtends(st: State, r: Request)
    requires !SetValue(st, r).0.changed
    ensures !st.changed && !SetsNamed(r) && Extends(SetValue(st, r).0.sections, st.sections)
  {
    FoundAfterWithSection(st, r.section);
  }

  /** A run that leaves the configuration unmarked has only added comments and
      blank lines. */
  lemma {:induction false} UnmarkedRunExtends(st: State, rs: seq<Request>)
    requires !SetAll(st, rs).changed
    ensures !st.changed && Extends(SetAll(st, rs).sections, st.sections)
    decreases |rs|
  {
    if rs != [] {
      var next := SetValue(st, rs[0]).0;
      UnmarkedRunExtends(next, rs[1..]);
      UnmarkedSetExtends(st, rs[0]);
      hide SetValue;
      ExtendsTwice(SetAll(next, rs[1..]).sections, next.sections, st.sections);
    }
  }

  lemma {:induction false} ExtendsTwice(c: Config, b: Config, a: Config)
    requires Extends(c, b) && Extends(b, a)
    ensures Extends(c, a)
  {
    forall i | 0 <= i < |a| ensures ExtendsSection(c[i], a[i]) {
      assert ExtendsSection(c[i], b[i]) && ExtendsSection(b[i], a[i]);
    }
  }

  /** And it changes no lookup. */
  lemma {:induction false} UnmarkedRunKeepsMap(st: State, m: map<Key, string>, rs: seq<Request>)
    requires !SetAll(st, rs).changed
    ensures SetMap(m, rs) == m
    decreases |rs|
  {
    if rs != [] {
      UnmarkedRunKeepsMap(SetValue(st, rs[0]).0, m, rs[1..]);
      UnmarkedRunExtends(SetValue(st, rs[0]).0, rs[1..]);
      UnmarkedSetExtends(st, rs[0]);
    }
  }

  /** Open a text, call what you like of well-formed requests, flush and open
      again: every key has the value the run left it with, also when the run
      left no mark and nothing was written. */
  lemma {:induction false} SavedRunReadsBack(text: string, rs: seq<Request>, section: Option<string>, name: string)
    requires FitsText(text) && GoodRun(State(Parse(text), false), rs)
    requires var st := SetAll(State(Parse(text), false), rs); st.changed ==> FitsText(Print(st.sections))
    ensures var st := SetAll(State(Parse(text), false), rs);
            var m, key := SetMap(MapOf(Parse(text)), rs), KeyOf(section, name);
            Lookup(Parse(Flushed(st, text, true)), section, Some(name)) == if key in m then Some(m[key]) else None
  {
    var start := State(Parse(text), false);
    var st := SetAll(start, rs);
    OpenedFileRefinesMap(text, rs);
    if st.changed {
      NormalForm(text);
      RunKeepsParsed(start, rs);
      ReopenKeepsLookups(st.sections, section, Some(name));
    } else {
      UnmarkedRunKeepsMap(start, MapOf(Parse(text)), rs);
      OpenedFileRefinesMap(text, []);
    }
  }

  lemma {:induction false} SameWithoutEmpty(after: Config, before: Config)
    requires Extends(after, before) && WithoutEmptyUnnamed(after) == WithoutEmptyUnnamed(before)
    ensures after == before
  {
    if before != [] {
      assert ExtendsSection(after[0], before[0]);
      if EmptyUnnamedFirst(before) && EmptyUnnamedFirst(after) {
        assert after == [after[0]] + after[1..] && before == [before[0]] + before[1..];
      }
    }
  }

  /** What is read back is the whole configuration, comments and all and up to
      an empty unnamed section, exactly if some call of the run sets a named item
      or names a section that the file does not have, or every call has a name. */
  lemma {:induction false} RunIsSavedExactly(text: string, rs: seq<Request>)
    requires FitsText(text) && GoodRun(State(Parse(text), false), rs)
    requires var st := SetAll(State(Parse(text), false), rs); st.changed ==> FitsText(Print(st.sections))
    ensures var st := SetAll(State(Parse(text), false), rs);
            WithoutEmptyUnnamed(Parse(Flushed(st, text, true))) == WithoutEmptyUnnamed(st.sections)
            <==> SomeMarks(Parse(text), rs) || forall i | 0 <= i < |rs| :: rs[i].name.Some?
  {
    var start := State(Parse(text), false);
    var st := SetAll(start, rs);
    RunIsMarkedExactly(start, rs);
    if st.changed {
      NormalForm(text);
      RunKeepsParsed(start, rs);
      DroppedIsCanonical(st.sections);
      CanonicalReadsBack(WithoutEmptyUnnamed(st.sections));
      CanonicalHasNoEmpty(WithoutEmptyUnnamed(st.sections));
    } else {
      UnmarkedRunExtends(start, rs);
      UnmarkedRunChangesExactly(start, rs);
      if WithoutEmptyUnnamed(Parse(text)) == WithoutEmptyUnnamed(st.sections) {
        SameWithoutEmpty(st.sections, Parse(text));
      }
    }
  }

  lemma {:induction false} CanonicalHasNoEmpty(cfg: Config)
    requires Canonical(cfg)
    ensures WithoutEmptyUnnamed(cfg) == cfg
  {
  }

  const NAMED_FIRST: Config := [Section(Some("x"), [Named("a", "1")]), Section(None, [Named("b", "2")])]
  const MERGED: Config := [Section(Some("x"), [Named("a", "1"), Named("b", "2")])]

  lemma {:induction false} NamedFirstIsReached()
    ensures SetAll(State([], false),
            [Request(Some("x"), Some("a"), Some("1")), Request(None, Some("b"), Some("2"))]).sections == NAMED_FIRST
  {
    var first := Request(Some("x"), Some("a"), Some("1"));
    var second := Request(None, Some("b"), Some("2"));
    var one := [Section(Some("x"), [Named("a", "1")])];
    var empty := [Section(Some("x"), [])];
    FirstSection(empty, Some("x"), 0);
    assert WithSection(State([], false), Some("x")) == State(empty, true);
    assert SetItem([], "a", "1") == [Named("a", "1")];
    assert SetValue(State([], false), first).0 == State(one, true);
    var created := one + [Section(None, [])];
    FirstSection(created, None, 1);
    assert WithSection(State(one, true), None) == State(created, true);
    assert SetItem([], "b", "2") == [Named("b", "2")];
    assert SetValue(State(one, true), second).0 == State(NAMED_FIRST, true);
    assert SetAll(State(one, true), [second]) == State(NAMED_FIRST, true) by { assert [second][1..] == []; }
    assert [first, second][1..] == [second];
  }

  lemma {:induction false} MergedIsCanonical()
    ensures Canonical(MERGED) && Parse(Print(MERGED)) == MERGED
  {
    CleanedStops("a");
    CleanedStops("b");
    CleanedStops("1");
    CleanedStops("2");
    assert GoodItem(Named("a", "1")) && GoodItem(Named("b", "2")) && "a"[0] != "b"[0];
    hide Cleaned;
    assert GoodSection(MERGED[0]);
    PrintFits(MERGED);
    CanonicalReadsBack(MERGED);
  }

  lemma {:induction false} Assoc(a: string, b: string, c: string)
    ensures a + b + c == a + (b + c)
  {
  }

  lemma {:induction false} PrintItemsConcat(a: seq<Item>, b: seq<Item>)
    ensures PrintItems(a + b) == PrintItems(a) + PrintItems(b)
  {
    hide PrintItem;
    if a == [] {
      assert a + b == b;
    } else {
      assert (a + b)[0] == a[0] && (a + b)[1..] == a[1..] + b;
      PrintItemsConcat(a[1..], b);
      Assoc(PrintItem(a[0]) + "\n", PrintItems(a[1..]), PrintItems(b));
    }
  }

  lemma {:induction false} PrintOne(s: Section)
    ensures Print([s]) == PrintHeader(s.name) + PrintItems(s.items)
  {
    hide PrintHeader, PrintItems;
    assert Print([s]) == PrintHeader(s.name) + PrintItems(s.items) + "";
  }

  lemma {:induction false} PrintConcat(a: Config, b: Config)
    ensures Print(a + b) == Print(a) + Print(b)
  {
    hide PrintHeader, PrintItems;
    if a == [] {
      assert a + b == b;
    } else {
      assert (a + b)[0] == a[0] && (a + b)[1..] == a[1..] + b;
      PrintConcat(a[1..], b);
      Assoc(PrintHeader(a[0].name) + PrintItems(a[0].items), Print(a[1..]), Print(b));
    }
  }

  /** An unnamed section after another prints just as if its items were in the
      section before it. */
  lemma {:induction false} LateUnnamedPrintsInto(cfg: Config, items: seq<Item>)
    requires cfg != []
    ensures Print(cfg + [Section(None, items)]) == Print(WithItems(cfg, items))
  {
    var front, last := cfg[..|cfg| - 1], cfg[|cfg| - 1];
    var unnamed, more := Section(None, items), last.(items := last.items + items);
    assert cfg == front + [last] && WithItems(cfg, items) == front + [more];
    PrintConcat(front, [last]);
    PrintConcat(cfg, [unnamed]);
    PrintConcat(front, [more]);
    PrintOne(last);
    PrintOne(more);
    PrintOne(unnamed);
    PrintItemsConcat(last.items, items);
    assert PrintHeader(None) == "" && "" + PrintItems(items) == PrintItems(items);
    hide Print, PrintItems, PrintHeader, WithItems;
    Assoc(PrintHeader(last.name), PrintItems(last.items), PrintItems(items));
    Assoc(Print(front), PrintHeader(last.name) + PrintItems(last.items), PrintItems(items));
  }

  lemma {:induction false} NamedFirstPrintsMerged()
    ensures Print(NAMED_FIRST) == Print(MERGED)
  {
    var cfg := [Section(Some("x"), [Named("a", "1")])];
    LateUnnamedPrintsInto(cfg, [Named("b", "2")]);
    assert cfg + [Section(None, [Named("b", "2")])] == NAMED_FIRST;
    assert [Named("a", "1")] + [Named("b", "2")] == [Named("a", "1"), Named("b", "2")];
    assert WithItems(cfg, [Named("b", "2")]) == MERGED;
  }

  /** The condition on the unnamed section is needed: created after a named
      one it prints no header, and its items are read into the section before. */
  lemma {:induction false} LateUnnamedIsAbsorbed()
    ensures var cfg := SetAll(State([], false),
            [Request(Some("x"), Some("a"), Some("1")), Request(None, Some("b"), Some("2"))]).sections;
            && Lookup(cfg, None, Some("b")) == Some("2") && Lookup(cfg, Some("x"), Some("b")) == None
            && Lookup(Parse(Print(cfg)), None, Some("b")) == None
            && Lookup(Parse(Print(cfg)), Some("x"), Some("b")) == Some("2")
  {
    NamedFirstIsReached();
    MergedIsCanonical();
    NamedFirstPrintsMerged();
    hide SetAll, Parse, Print;
    assert FindSection(NAMED_FIRST, None) == 1 && FindItem(NAMED_FIRST[1].items, "b") == 0;
    assert FindSection(NAMED_FIRST, Some("x")) == 0
        && FindItem(NAMED_FIRST[0].items, "b") == 1 by { assert "a"[0] != "b"[0]; }
    assert FindSection(MERGED, None) == 1;
    assert FindSection(MERGED, Some("x")) == 0 && FindItem(MERGED[0].items, "b") == 1 by { assert "a"[0] != "b"[0]; }
  }
}
