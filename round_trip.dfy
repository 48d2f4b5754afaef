/**
 * Saving the bar and loading the saved file again. The lines the save writes
 * are read back into sections the way ConfigParser groups them, loaded, and
 * put in tab order: the bar settings, the pages' titles, their order and
 * their `data` lists come back.
 */
module RoundTrip {
  import opened Wrappers
  import opened PyText
  import opened ConfigData
  import opened Sorting
  import opened ConfigLoad
  import opened ConfigSave
  import opened TabOrder

  // ---------------------------------------------------------------------------
  // Reading the written lines back into sections.
  // ---------------------------------------------------------------------------

  /** Lines grouped into sections: the entries before the first header, and the sections. */
  datatype Grouped = Grouped(orphans: seq<(string, string)>, secs: seq<Section>)

  function Group(lines: seq<Line>): Grouped {
    if lines == [] then Grouped([], [])
    else
      var rest := Group(lines[1..]);
      match lines[0]
      case Header(name) => Grouped([], [Section(name, rest.orphans)] + rest.secs)
      case Entry(key, value) => Grouped([(key, value)] + rest.orphans, rest.secs)
      case Blank => rest
  }

  /** The sections read from the lines: a header opens a section, each entry adds an option to the open one. */
  function Sections(lines: seq<Line>): seq<Section> {
    Group(lines).secs
  }

  /** The (key, value) pairs of the entry lines, in order. */
  function EntryPairs(lines: seq<Line>): seq<(string, string)> {
    if lines == [] then []
    else
      (match lines[0]
       case Entry(key, value) => [(key, value)]
       case _ => [])
      + EntryPairs(lines[1..])
  }

  lemma {:induction false} GroupAppend(a: seq<Line>, b: seq<Line>)
    requires Group(b).orphans == []
    ensures Group(a + b) == Grouped(Group(a).orphans, Group(a).secs + Group(b).secs)
  {
    if a == [] {
      assert a + b == b;
    } else {
      assert (a + b)[1..] == a[1..] + b;
      GroupAppend(a[1..], b);
    }
  }

  lemma GroupCons(line: Line, rest: seq<Line>)
    ensures Group([line] + rest) == match line
      case Header(name) => Grouped([], [Section(name, Group(rest).orphans)] + Group(rest).secs)
      case Entry(key, value) => Grouped([(key, value)] + Group(rest).orphans, Group(rest).secs)
      case Blank => Group(rest)
  {
    assert ([line] + rest)[1..] == rest;
  }

  lemma {:induction false} EntryPairsAppend(a: seq<Line>, b: seq<Line>)
    ensures EntryPairs(a + b) == EntryPairs(a) + EntryPairs(b)
  {
    if a == [] {
      assert a + b == b;
    } else {
      assert (a + b)[1..] == a[1..] + b;
      EntryPairsAppend(a[1..], b);
    }
  }

  /** A run of entries closed by an empty line adds its pairs to the open section. */
  lemma {:induction false} GroupEntries(lines: seq<Line>)
    requires forall i :: 0 <= i < |lines| ==> lines[i].Entry?
    ensures Group(lines + [Blank]) == Grouped(EntryPairs(lines), [])
  {
    if lines != [] {
      assert (lines + [Blank])[1..] == lines[1..] + [Blank];
      GroupEntries(lines[1..]);
    }
  }

  lemma {:induction false} EntryPairsMember(lines: seq<Line>, j: nat)
    requires j < |EntryPairs(lines)|
    ensures Entry(EntryPairs(lines)[j].0, EntryPairs(lines)[j].1) in lines
  {
    if lines[0].Entry? && j == 0 {
    } else {
      var skip := if lines[0].Entry? then 1 else 0;
      EntryPairsMember(lines[1..], j - skip);
      assert EntryPairs(lines)[j] == EntryPairs(lines[1..])[j - skip];
    }
  }

  // ---------------------------------------------------------------------------
  // The sections of a saved bar.
  // ---------------------------------------------------------------------------

  /** The pages the save writes a section for, with their index in the notebook. */
  function SavedTabs(tabs: seq<TabState>, registry: Registry): seq<(nat, TabState)> {
    if tabs == [] then []
    else
      var last := tabs[|tabs| - 1];
      SavedTabs(tabs[..|tabs| - 1], registry) + if last.gname in registry then [(|tabs| - 1, last)] else []
  }

  /** The "Bar Options" section as written. */
  function BarSectionOf(visible: bool, current: int): Section {
    Section(BarSection, [("visible", if visible then "True" else "False"), ("page", IntToString(current))])
  }

  /** The section written for a page the registry knows. */
  function TabSection(pageNum: nat, tab: TabState, registry: Registry): Section
    requires tab.gname in registry
  {
    Section(tab.title, EntryPairs(OptionLines(Overlay(registry[tab.gname], tab.attrs))) + [("page", IntToString(pageNum))])
  }

  /** The sections written for the pages. */
  function TabSections(tabs: seq<TabState>, registry: Registry): seq<Section> {
    if tabs == [] then []
    else
      var last := tabs[|tabs| - 1];
      TabSections(tabs[..|tabs| - 1], registry)
      + if last.gname in registry then [TabSection(|tabs| - 1, last, registry)] else []
  }

  /** The saved pages are the pages the registry knows, in notebook order, each with its own index. */
  lemma SavedTabsIndexed(tabs: seq<TabState>, registry: Registry)
    ensures var saved := SavedTabs(tabs, registry);
            && (forall j :: 0 <= j < |saved| ==>
                  saved[j].0 < |tabs| && saved[j].1 == tabs[saved[j].0] && saved[j].1.gname in registry)
            && (forall j, k :: 0 <= j < k < |saved| ==> saved[j].0 < saved[k].0)
            && (forall i :: 0 <= i < |tabs| && tabs[i].gname in registry ==>
                  exists j :: 0 <= j < |saved| && saved[j].0 == i)
    ensures var saved := SavedTabs(tabs, registry);
            && |TabSections(tabs, registry)| == |saved|
            && forall j :: 0 <= j < |saved| ==>
                 TabSections(tabs, registry)[j] == TabSection(saved[j].0, saved[j].1, registry)
  {
    SavedTabsOrdered(tabs, registry);
    forall i | 0 <= i < |tabs| && tabs[i].gname in registry
      ensures exists j :: 0 <= j < |SavedTabs(tabs, registry)| && SavedTabs(tabs, registry)[j].0 == i
    {
      SavedTabsComplete(tabs, registry, i);
    }
    SavedTabSections(tabs, registry);
  }

  lemma {:induction false} SavedTabsOrdered(tabs: seq<TabState>, registry: Registry)
    ensures forall j :: 0 <= j < |SavedTabs(tabs, registry)| ==>
              && SavedTabs(tabs, registry)[j].0 < |tabs|
              && SavedTabs(tabs, registry)[j].1 == tabs[SavedTabs(tabs, registry)[j].0]
              && SavedTabs(tabs, registry)[j].1.gname in registry
    ensures forall j, k :: 0 <= j < k < |SavedTabs(tabs, registry)| ==>
              SavedTabs(tabs, registry)[j].0 < SavedTabs(tabs, registry)[k].0
  {
    if tabs != [] {
      var prefix := tabs[..|tabs| - 1];
      SavedTabsOrdered(prefix, registry);
      var saved := SavedTabs(tabs, registry);
      var before := SavedTabs(prefix, registry);
      var last := tabs[|tabs| - 1];
      assert forall i :: 0 <= i < |prefix| ==> prefix[i] == tabs[i];
      if last.gname in registry {
        assert saved == before + [(|tabs| - 1, last)];
        forall j | 0 <= j < |saved|
          ensures saved[j].0 < |tabs| && saved[j].1 == tabs[saved[j].0] && saved[j].1.gname in registry
        {
          if j < |before| {
            assert saved[j] == before[j];
          }
        }
      } else {
        assert saved == before;
      }
    }
  }

  lemma {:induction false} SavedTabsComplete(tabs: seq<TabState>, registry: Registry, i: nat)
    requires i < |tabs| && tabs[i].gname in registry
    ensures exists j :: 0 <= j < |SavedTabs(tabs, registry)| && SavedTabs(tabs, registry)[j].0 == i
  {
    var saved := SavedTabs(tabs, registry);
    var prefix := tabs[..|tabs| - 1];
    var before := SavedTabs(prefix, registry);
    assert saved[..|before|] == before;
    if i < |prefix| {
      assert prefix[i] == tabs[i];
      SavedTabsComplete(prefix, registry, i);
      var j :| 0 <= j < |before| && before[j].0 == i;
      assert saved[j] == before[j];
    } else {
      assert saved[|saved| - 1].0 == i;
    }
  }

  lemma {:induction false} SavedTabSections(tabs: seq<TabState>, registry: Registry)
    ensures var saved := SavedTabs(tabs, registry);
            && |TabSections(tabs, registry)| == |saved|
            && forall j :: 0 <= j < |saved| ==>
                 saved[j].1.gname in registry
                 && TabSections(tabs, registry)[j] == TabSection(saved[j].0, saved[j].1, registry)
  {
    SavedTabsOrdered(tabs, registry);
    if tabs != [] {
      SavedTabSections(tabs[..|tabs| - 1], registry);
    }
  }


  /** The pages' lines read back are the pages' sections, in order. */
  lemma {:induction false} TabsLinesSections(tabs: seq<TabState>, registry: Registry)
    ensures Group(TabsLines(tabs, registry)) == Grouped([], TabSections(tabs, registry))
  {
    if tabs != [] {
      var prefix := tabs[..|tabs| - 1];
      var last := tabs[|tabs| - 1];
      TabsLinesSections(prefix, registry);
      var lines := TabLines(|tabs| - 1, last, registry);
      if last.gname in registry {
        TabLinesGroup(|tabs| - 1, last, registry);
      }
      GroupAppend(TabsLines(prefix, registry), lines);
    }
  }

  /** One page's lines read back are its section. */
  lemma TabLinesGroup(pageNum: nat, tab: TabState, registry: Registry)
    requires tab.gname in registry
    ensures Group(TabLines(pageNum, tab, registry)) == Grouped([], [TabSection(pageNum, tab, registry)])
  {
    var body := OptionLines(Overlay(registry[tab.gname], tab.attrs));
    var entries := body + [Entry("page", IntToString(pageNum))];
    OptionLinesKeys(Overlay(registry[tab.gname], tab.attrs));
    assert forall i :: 0 <= i < |entries| ==> entries[i].Entry? by {
      forall i | 0 <= i < |entries| ensures entries[i].Entry? {
        if i < |body| {
          assert entries[i] == body[i];
          assert body[i] in body;
        }
      }
    }
    GroupEntries(entries);
    EntryPairsAppend(body, [Entry("page", IntToString(pageNum))]);
    assert TabLines(pageNum, tab, registry) == [Header(tab.title)] + (entries + [Blank]);
    GroupCons(Header(tab.title), entries + [Blank]);
    assert EntryPairs([Entry("page", IntToString(pageNum))]) == [("page", IntToString(pageNum))] by {
      assert [Entry("page", IntToString(pageNum))][1..] == [];
    }
  }

  /** The saved file read back: the "Bar Options" section, then one section per saved page. */
  lemma SavedSections(visible: bool, current: int, tabs: seq<TabState>, registry: Registry)
    ensures Sections(ConfigLines(visible, current, false, tabs, registry))
            == [BarSectionOf(visible, current)] + TabSections(tabs, registry)
  {
    BarLinesGroup(visible, current);
    TabsLinesSections(tabs, registry);
    GroupAppend(BarLines(visible, current), TabsLines(tabs, registry));
  }

  /** The "Bar Options" lines read back are that one section. */
  lemma BarLinesGroup(visible: bool, current: int)
    ensures Group(BarLines(visible, current)) == Grouped([], [BarSectionOf(visible, current)])
  {
    var vis := Entry("visible", if visible then "True" else "False");
    var page := Entry("page", IntToString(current));
    GroupCons(Blank, []);
    assert Group([Blank]) == Grouped([], []);
    GroupCons(page, [Blank]);
    assert Group([page, Blank]) == Grouped([("page", IntToString(current))], []);
    GroupCons(vis, [page, Blank]);
    assert Group([vis, page, Blank]) == Grouped(BarSectionOf(visible, current).options, []);
    GroupCons(Header(BarSection), [vis, page, Blank]);
    assert BarLines(visible, current) == [Header(BarSection)] + [vis, page, Blank];
  }

  // ---------------------------------------------------------------------------
  // The `data` option written and read back.
  // ---------------------------------------------------------------------------

  /** Registry options the save can write and the load read back: a dict, with no key of the form `data[...]`. */
  predicate PlainOptions(opts: Options) {
    DistinctKeys(opts) && forall i :: 0 <= i < |opts| ==> !IsIndexKey(opts[i].0)
  }

  /** The items the load gives back for a `data` value: the stripped items of a list, or its stripped `str()`. */
  function DataOf(v: Value): seq<string> {
    match v
    case Items(xs) => seq(|xs|, k requires 0 <= k < |xs| => Strip(xs[k]))
    case _ => [Strip(Str(v))]
  }

  /** The dict `temp` the load builds from the written `data` lines: item k at position k. */
  function NumberedItems(xs: seq<string>): seq<(int, string)> {
    seq(|xs|, k requires 0 <= k < |xs| => (k, xs[k]))
  }

  /** The `data` list a saved page's record comes back with, if it has one. */
  function ExpectedData(opts: Options): Option<seq<string>> {
    match LastValue(opts, "data")
    case None => None
    case Some(v) => if DataOf(v) == [] then None else Some(DataOf(v))
  }

  lemma AssignFresh(es: seq<(int, string)>, pos: int, value: string)
    requires forall i :: 0 <= i < |es| ==> es[i].0 != pos
    ensures Assign(es, pos, value) == es + [(pos, value)]
  {
    if es != [] {
      AssignFresh(es[1..], pos, value);
    }
  }

  lemma {:induction false} DataEntriesNoIndex(a: seq<(string, string)>, b: seq<(string, string)>)
    requires forall i :: 0 <= i < |b| ==> !IsIndexKey(b[i].0)
    ensures DataEntries(a + b) == DataEntries(a)
  {
    if b != [] {
      var ab := a + b;
      assert ab[..|ab| - 1] == a + b[..|b| - 1];
      assert ab[|ab| - 1] == b[|b| - 1];
      DataEntriesNoIndex(a, b[..|b| - 1]);
      DataEntriesLast(ab);
    } else {
      assert a + b == a;
    }
  }

  lemma {:induction false} DataEntriesFromEmpty(a: seq<(string, string)>, b: seq<(string, string)>)
    requires DataEntries(a) == []
    ensures DataEntries(a + b) == DataEntries(b)
  {
    if b != [] {
      var ab := a + b;
      assert ab[..|ab| - 1] == a + b[..|b| - 1];
      assert ab[|ab| - 1] == b[|b| - 1];
      DataEntriesFromEmpty(a, b[..|b| - 1]);
      DataEntriesLast(ab);
      DataEntriesLast(b);
    } else {
      assert a + b == a;
    }
  }

  /** The written `data` lines are `data[0]`, `data[1]`, ...: every key is a `data[N]` key whose N parses. */
  lemma DataLinesKeys(v: Value)
    ensures forall l | l in DataLines(v) :: l.Entry? && IsIndexKey(l.key) && ParsedIndex(l.key).Some?
  {
    forall l | l in DataLines(v) ensures l.Entry? && IsIndexKey(l.key) && ParsedIndex(l.key).Some? {
      var n :| 0 <= n < |DataLines(v)| && DataLines(v)[n] == l;
      DataLineKey(v, n);
      IndexKeyRead(n);
    }
  }

  /** The n-th written `data` line has the key `data[n]`. */
  lemma DataLineKey(v: Value, n: nat)
    requires n < |DataLines(v)|
    ensures DataLines(v)[n].Entry? && DataLines(v)[n].key == IndexKey(n)
  {
    if !v.Items? {
      assert IndexKey(0) == "data[0]";
    }
  }

  lemma EntryPairsSnoc(lines: seq<Line>, key: string, value: string)
    ensures EntryPairs(lines + [Entry(key, value)]) == EntryPairs(lines) + [(key, value)]
  {
    EntryPairsAppend(lines, [Entry(key, value)]);
    assert [Entry(key, value)][1..] == [];
  }

  /** The load reads the position a `data[N]` key was written with. */
  lemma IndexKeyRead(n: nat)
    ensures IsIndexKey(IndexKey(n)) && ParsedIndex(IndexKey(n)) == Some(n)
  {
    IndexKeyParses(n);
    var k := IndexKey(n);
    assert |k| > 5;
    assert IndexText(k) == k[5..|k| - 1];
  }

  /** A `data[n]` pair for a position not yet in `temp` adds it at the end. */
  lemma DataEntriesSnoc(pairs: seq<(string, string)>, n: nat, value: string)
    requires forall i :: 0 <= i < |DataEntries(pairs)| ==> DataEntries(pairs)[i].0 != n
    ensures DataEntries(pairs + [(IndexKey(n), value)]) == DataEntries(pairs) + [(n, Strip(value))]
  {
    var all := pairs + [(IndexKey(n), value)];
    assert all[..|all| - 1] == pairs;
    IndexKeyRead(n);
    AssignFresh(DataEntries(pairs), n, Strip(value));
  }

  lemma ItemLinesSnoc(xs: seq<string>)
    requires xs != []
    ensures DataLines(Items(xs))
            == DataLines(Items(xs[..|xs| - 1])) + [Entry(IndexKey(|xs| - 1), xs[|xs| - 1])]
  {
    var n := |xs| - 1;
    var a := DataLines(Items(xs));
    var b := DataLines(Items(xs[..n])) + [Entry(IndexKey(n), xs[n])];
    assert |a| == |b|;
    forall i | 0 <= i < |a| ensures a[i] == b[i] {
      if i < n {
        assert xs[..n][i] == xs[i];
      }
    }
  }

  lemma NumberedItemsSnoc(xs: seq<string>)
    requires xs != []
    ensures NumberedItems(DataOf(Items(xs)))
            == NumberedItems(DataOf(Items(xs[..|xs| - 1]))) + [(|xs| - 1, Strip(xs[|xs| - 1]))]
  {
    var n := |xs| - 1;
    var ys := DataOf(Items(xs[..n]));
    DataOfSnoc(xs);
    NumberedSnoc(ys, Strip(xs[n]));
  }

  lemma DataOfSnoc(xs: seq<string>)
    requires xs != []
    ensures DataOf(Items(xs)) == DataOf(Items(xs[..|xs| - 1])) + [Strip(xs[|xs| - 1])]
  {
    var n := |xs| - 1;
    var prefix := xs[..n];
    var a := DataOf(Items(xs));
    var b := DataOf(Items(prefix)) + [Strip(xs[n])];
    assert |a| == |b|;
    forall i | 0 <= i < |a| ensures a[i] == b[i] {
      if i < n {
        assert prefix[i] == xs[i];
      }
    }
  }

  lemma NumberedSnoc(ys: seq<string>, y: string)
    ensures NumberedItems(ys + [y]) == NumberedItems(ys) + [(|ys|, y)]
  {
    var a := NumberedItems(ys + [y]);
    var b := NumberedItems(ys) + [(|ys|, y)];
    assert forall i :: 0 <= i < |a| ==> a[i] == b[i];
  }

  /** Reading the `data[N]` lines of a list gives the dict of its stripped items by position. */
  lemma {:induction false} ItemLinesEntries(xs: seq<string>)
    ensures DataEntries(EntryPairs(DataLines(Items(xs)))) == NumberedItems(DataOf(Items(xs)))
  {
    if xs != [] {
      var n := |xs| - 1;
      ItemLinesEntries(xs[..n]);
      var before := DataLines(Items(xs[..n]));
      var es := NumberedItems(DataOf(Items(xs[..n])));
      assert forall i :: 0 <= i < |es| ==> es[i].0 != n;
      ItemLinesSnoc(xs);
      EntryPairsSnoc(before, IndexKey(n), xs[n]);
      DataEntriesSnoc(EntryPairs(before), n, xs[n]);
      NumberedItemsSnoc(xs);
    }
  }

  /** Reading the written `data` lines gives the dict of the stripped items by position. */
  lemma DataLinesEntries(v: Value)
    ensures DataEntries(EntryPairs(DataLines(v))) == NumberedItems(DataOf(v))
  {
    if v.Items? {
      ItemLinesEntries(v.items);
    } else {
      assert IndexKey(0) == "data[0]";
      assert DataLines(v) == [] + [Entry(IndexKey(0), Str(v))];
      EntryPairsSnoc([], IndexKey(0), Str(v));
      DataEntriesSnoc([], 0, Str(v));
    }
  }

  /** Reading all the written option lines gives the dict of the `data` option's items. */
  lemma {:induction false} OptionLinesEntries(opts: Options)
    requires PlainOptions(opts)
    ensures DataEntries(EntryPairs(OptionLines(opts)))
            == match LastValue(opts, "data") case None => [] case Some(v) => NumberedItems(DataOf(v))
  {
    if opts != [] {
      var prefix := opts[..|opts| - 1];
      var (k, v) := opts[|opts| - 1];
      assert PlainOptions(prefix) by {
        assert forall i :: 0 <= i < |prefix| ==> prefix[i] == opts[i];
      }
      OptionLinesEntries(prefix);
      EntryPairsAppend(OptionLines(prefix), KeyLines(k, v));
      if k == "data" {
        assert "data" !in Unsaved;
        assert LastValue(prefix, "data").None?;
        DataLinesEntries(v);
        DataEntriesFromEmpty(EntryPairs(OptionLines(prefix)), EntryPairs(DataLines(v)));
      } else {
        var extra := EntryPairs(KeyLines(k, v));
        assert forall i :: 0 <= i < |extra| ==> !IsIndexKey(extra[i].0) by {
          if k !in Unsaved {
            assert extra == [(k, Str(v))] by {
              assert KeyLines(k, v)[1..] == [];
            }
          } else {
            assert extra == [];
          }
        }
        DataEntriesNoIndex(EntryPairs(OptionLines(prefix)), extra);
      }
    }
  }

  /** Items numbered 0, 1, ... come out of the reassembly in that order. */
  lemma ReassembleNumbered(xs: seq<string>)
    ensures Reassemble(NumberedItems(xs)) == xs
  {
    var es := NumberedItems(xs);
    assert Sorted(es, ByPosition);
    SortKeepsSorted(es, ByPosition);
  }

  // ---------------------------------------------------------------------------
  // A saved page's section loaded again.
  // ---------------------------------------------------------------------------

  lemma PageIsPlain()
    ensures !IsIndexKey("page") && "page" != "data"
  {
    assert |"page"| == 4;
  }

  /** The attribute overrides keep the option names. */
  lemma OverlayPlain(opts: Options, attrs: map<string, Value>)
    requires PlainOptions(opts)
    ensures PlainOptions(Overlay(opts, attrs))
  {
  }

  /** An option line written for plain options has a key the load accepts, and not the key `data`. */
  lemma OptionPairKey(opts: Options, j: nat)
    requires PlainOptions(opts)
    requires j < |EntryPairs(OptionLines(opts))|
    ensures var key := EntryPairs(OptionLines(opts))[j].0;
            && key != "data" && key !in Unsaved
            && (IsIndexKey(key) ==> ParsedIndex(key).Some?)
  {
    var pair := EntryPairs(OptionLines(opts))[j];
    var l := Entry(pair.0, pair.1);
    OptionLinesKeys(opts);
    EntryPairsMember(OptionLines(opts), j);
    if exists i :: 0 <= i < |opts| && opts[i].0 == "data" && l in DataLines(opts[i].1) {
      var i :| 0 <= i < |opts| && opts[i].0 == "data" && l in DataLines(opts[i].1);
      DataLinesKeys(opts[i].1);
    } else {
      var i :| 0 <= i < |opts| && opts[i].0 != "data" && l == Entry(opts[i].0, Str(opts[i].1));
    }
  }

  /** Once every index parses, the `data` dict is empty exactly when no `data[N]` option is present. */
  lemma {:induction false} IndexEntriesIff(opts: seq<(string, string)>)
    requires IndicesParse(opts)
    ensures HasIndexKey(opts) <==> DataEntries(opts) != []
  {
    if opts != [] {
      var prefix := opts[..|opts| - 1];
      var (k, v) := opts[|opts| - 1];
      assert IndicesParse(prefix) by {
        forall i | 0 <= i < |prefix| && IsIndexKey(prefix[i].0) ensures ParsedIndex(prefix[i].0).Some? {
          assert prefix[i] == opts[i];
        }
      }
      IndexEntriesIff(prefix);
      HasIndexKeySnoc(opts);
      DataEntriesLast(opts);
      if IsIndexKey(k) {
        var pos := ParsedIndex(k).value;
        assert Lookup(DataEntries(opts), pos).Some?;
      }
    }
  }

  /** The section written for a page loads without an exception. */
  lemma TabSectionLoads(pageNum: nat, tab: TabState, registry: Registry)
    requires tab.gname in registry && PlainOptions(registry[tab.gname])
    ensures var sec := TabSection(pageNum, tab, registry);
            && IndicesParse(sec.options) && !HasPlainData(sec.options)
            && (forall i :: 0 <= i < |sec.options| ==> sec.options[i].0 != "title" && sec.options[i].0 != "data")
            && LastValue(sec.options, "page") == Some(IntToString(pageNum))
            && DecodeSection(sec).Success?
  {
    var opts := Overlay(registry[tab.gname], tab.attrs);
    OverlayPlain(registry[tab.gname], tab.attrs);
    PageIsPlain();
    var sec := TabSection(pageNum, tab, registry);
    var body := EntryPairs(OptionLines(opts));
    var page := ("page", IntToString(pageNum));
    assert sec.options == body + [page];
    assert forall i :: 0 <= i < |sec.options| ==>
             sec.options[i].0 != "title" && sec.options[i].0 != "data"
             && (IsIndexKey(sec.options[i].0) ==> ParsedIndex(sec.options[i].0).Some?) by {
      forall i | 0 <= i < |sec.options|
        ensures sec.options[i].0 != "title" && sec.options[i].0 != "data"
                && (IsIndexKey(sec.options[i].0) ==> ParsedIndex(sec.options[i].0).Some?)
      {
        if i < |body| {
          assert sec.options[i] == body[i];
          OptionPairKey(opts, i);
          assert "title" in Unsaved;
        } else {
          assert sec.options[i].0 == "page";
          assert |"title"| == 5;
        }
      }
    }
    assert LastValue(sec.options, "page") == Some(IntToString(pageNum));
    assert IndicesParse(sec.options);
    assert !HasPlainData(sec.options);
    DecodeSucceedsIff(sec);
  }

  /** The loaded page keeps its title, and its `page` option is its index in the notebook. */
  lemma TabSectionTitlePage(pageNum: nat, tab: TabState, registry: Registry)
    requires tab.gname in registry && PlainOptions(registry[tab.gname])
    ensures DecodeSection(TabSection(pageNum, tab, registry)).Success?
    ensures var rec := DecodeSection(TabSection(pageNum, tab, registry)).value;
            && "title" in rec && rec["title"] == Text(tab.title)
            && "page" in rec && rec["page"] == Text(IntToString(pageNum))
  {
    var sec := TabSection(pageNum, tab, registry);
    TabSectionLoads(pageNum, tab, registry);
    var rec := DecodeSection(sec).value;
    DecodeTitle(sec, rec);
    assert LastValue(sec.options, "title").None?;
    DecodeOptions(sec, rec);
    PageIsPlain();
    StripTrimmed(IntToString(pageNum));
  }

  /** The loaded page's `data` list is the saved one, item by item, modulo stripping. */
  lemma TabSectionData(pageNum: nat, tab: TabState, registry: Registry)
    requires tab.gname in registry && PlainOptions(registry[tab.gname])
    ensures DecodeSection(TabSection(pageNum, tab, registry)).Success?
    ensures var rec := DecodeSection(TabSection(pageNum, tab, registry)).value;
            var expected := ExpectedData(Overlay(registry[tab.gname], tab.attrs));
            && ("data" in rec <==> expected.Some?)
            && ("data" in rec ==> rec["data"] == Items(expected.value))
  {
    var opts := Overlay(registry[tab.gname], tab.attrs);
    var sec := TabSection(pageNum, tab, registry);
    TabSectionLoads(pageNum, tab, registry);
    TabSectionEntries(pageNum, tab, registry);
    RecordData(sec, DecodeSection(sec).value, LastValue(opts, "data"));
  }

  /** A record whose section holds the `data[N]` lines of a value comes back with that value's stripped items. */
  lemma RecordData(sec: Section, rec: Record, data: Option<Value>)
    requires DecodeSection(sec) == Success(rec) && IndicesParse(sec.options)
    requires DataEntries(sec.options) == match data case None => [] case Some(v) => NumberedItems(DataOf(v))
    ensures "data" in rec <==> data.Some? && DataOf(data.value) != []
    ensures "data" in rec ==> rec["data"] == Items(DataOf(data.value))
  {
    DecodeData(sec, rec);
    IndexEntriesIff(sec.options);
    if data.Some? {
      ReassembleNumbered(DataOf(data.value));
    }
  }

  /** The dict `temp` read from a saved page's section: the stripped items of its `data` option by position. */
  lemma TabSectionEntries(pageNum: nat, tab: TabState, registry: Registry)
    requires tab.gname in registry && PlainOptions(registry[tab.gname])
    ensures DataEntries(TabSection(pageNum, tab, registry).options)
            == match LastValue(Overlay(registry[tab.gname], tab.attrs), "data")
               case None => []
               case Some(v) => NumberedItems(DataOf(v))
  {
    var opts := Overlay(registry[tab.gname], tab.attrs);
    var sec := TabSection(pageNum, tab, registry);
    var body := EntryPairs(OptionLines(opts));
    assert sec.options == body + [("page", IntToString(pageNum))];
    PageIsPlain();
    DataEntriesNoIndex(body, [("page", IntToString(pageNum))]);
    OverlayPlain(registry[tab.gname], tab.attrs);
    OptionLinesEntries(opts);
  }

  // ---------------------------------------------------------------------------
  // The whole file loaded again, and put in tab order.
  // ---------------------------------------------------------------------------

  /** Pages the save and the load agree on: plain registry options, and a title other than the bar's own section. */
  predicate Saveable(tabs: seq<TabState>, registry: Registry) {
    forall i :: 0 <= i < |tabs| && tabs[i].gname in registry ==>
      PlainOptions(registry[tabs[i].gname]) && tabs[i].title != BarSection
  }

  lemma LoadSectionsSnoc(secs: seq<Section>, sec: Section)
    requires LoadSections(secs).Success?
    ensures LoadSections(secs + [sec]) == AddSection(LoadSections(secs).value, sec)
  {
    assert (secs + [sec])[..|secs|] == secs;
  }

  lemma AddPageSection(acc: Loaded, sec: Section)
    requires sec.name != BarSection && DecodeSection(sec).Success?
    ensures AddSection(acc, sec) == Success(acc.(records := acc.records + [DecodeSection(sec).value]))
  {
  }

  lemma BarOptionsWritten(visible: bool, current: int)
    ensures BarOptions(Loaded(false, 0, []), BarSectionOf(visible, current)) == Success(Loaded(visible, current, []))
  {
    var sec := BarSectionOf(visible, current);
    assert LastValue(sec.options, "visible") == Some(if visible then "True" else "False");
    assert LastValue(sec.options, "page") == Some(IntToString(current));
    assert "False" != "True";
    ParseIntToString(current);
  }

  /** The "Bar Options" section as written gives back the visible flag and the current page. */
  lemma LoadBarSection(visible: bool, current: int)
    ensures LoadSections([BarSectionOf(visible, current)]) == Success(Loaded(visible, current, []))
  {
    assert LoadSections([]) == Success(Loaded(false, 0, []));
    LoadSectionsSnoc([], BarSectionOf(visible, current));
    assert [] + [BarSectionOf(visible, current)] == [BarSectionOf(visible, current)];
    BarOptionsWritten(visible, current);
  }

  /** Loading the bar's section and the pages' sections: the settings, and one record per page section. */
  lemma {:induction false} LoadSavedTabs(visible: bool, current: int, tabs: seq<TabState>, registry: Registry)
    requires Saveable(tabs, registry)
    ensures var r := LoadSections([BarSectionOf(visible, current)] + TabSections(tabs, registry));
            && r.Success? && r.value.visible == visible && r.value.page == current
            && |r.value.records| == |TabSections(tabs, registry)|
            && forall j :: 0 <= j < |r.value.records| ==>
                 DecodeSection(TabSections(tabs, registry)[j]) == Success(r.value.records[j])
  {
    var bar := BarSectionOf(visible, current);
    if tabs == [] {
      assert [bar] + TabSections(tabs, registry) == [bar];
      LoadBarSection(visible, current);
    } else {
      var prefix := tabs[..|tabs| - 1];
      var last := tabs[|tabs| - 1];
      assert Saveable(prefix, registry) by {
        assert forall i :: 0 <= i < |prefix| ==> prefix[i] == tabs[i];
      }
      LoadSavedTabs(visible, current, prefix, registry);
      var before := [bar] + TabSections(prefix, registry);
      if last.gname in registry {
        var sec := TabSection(|tabs| - 1, last, registry);
        assert TabSections(tabs, registry) == TabSections(prefix, registry) + [sec];
        assert [bar] + TabSections(tabs, registry) == before + [sec];
        TabSectionLoads(|tabs| - 1, last, registry);
        LoadOnePage(before, sec, TabSections(prefix, registry));
      } else {
        assert [bar] + TabSections(tabs, registry) == before;
      }
    }
  }

  /** One more page section loaded: one more record, decoded from it, and the settings unchanged. */
  lemma LoadOnePage(before: seq<Section>, sec: Section, pageSecs: seq<Section>)
    requires sec.name != BarSection && DecodeSection(sec).Success?
    requires var r := LoadSections(before);
             && r.Success? && |r.value.records| == |pageSecs|
             && forall j :: 0 <= j < |pageSecs| ==> DecodeSection(pageSecs[j]) == Success(r.value.records[j])
    ensures var r := LoadSections(before + [sec]);
            && r.Success? && r.value.visible == LoadSections(before).value.visible
            && r.value.page == LoadSections(before).value.page
            && |r.value.records| == |pageSecs + [sec]|
            && forall j :: 0 <= j < |pageSecs + [sec]| ==> DecodeSection((pageSecs + [sec])[j]) == Success(r.value.records[j])
  {
    var l := LoadSections(before).value;
    LoadSectionsSnoc(before, sec);
    AddPageSection(l, sec);
    var recs := l.records + [DecodeSection(sec).value];
    assert LoadSections(before + [sec]) == Success(l.(records := recs));
    forall j | 0 <= j < |pageSecs + [sec]|
      ensures DecodeSection((pageSecs + [sec])[j]) == Success(recs[j])
    {
      if j < |pageSecs| {
        assert (pageSecs + [sec])[j] == pageSecs[j] && recs[j] == l.records[j];
      }
    }
  }

  /** When the registry knows every page, every page is saved, with its own index. */
  lemma {:induction false} SavedTabsAll(tabs: seq<TabState>, registry: Registry)
    requires forall i :: 0 <= i < |tabs| ==> tabs[i].gname in registry
    ensures SavedTabs(tabs, registry) == seq(|tabs|, i requires 0 <= i < |tabs| => (i as nat, tabs[i]))
  {
    if tabs != [] {
      var prefix := tabs[..|tabs| - 1];
      SavedTabsAll(prefix, registry);
    }
  }

  /** The record a saved page comes back as: its title, its index as `page`, and its `data` list. */
  predicate ReloadedAs(rec: Record, pageNum: nat, tab: TabState, registry: Registry)
    requires tab.gname in registry
  {
    var expected := ExpectedData(Overlay(registry[tab.gname], tab.attrs));
    && "title" in rec && rec["title"] == Text(tab.title)
    && "page" in rec && rec["page"] == Text(IntToString(pageNum))
    && ("data" in rec <==> expected.Some?)
    && ("data" in rec ==> rec["data"] == Items(expected.value))
  }

  lemma TabSectionReloaded(pageNum: nat, tab: TabState, registry: Registry)
    requires tab.gname in registry && PlainOptions(registry[tab.gname])
    ensures DecodeSection(TabSection(pageNum, tab, registry)).Success?
    ensures ReloadedAs(DecodeSection(TabSection(pageNum, tab, registry)).value, pageNum, tab, registry)
  {
    TabSectionTitlePage(pageNum, tab, registry);
    TabSectionData(pageNum, tab, registry);
  }

  /** Records whose `page` options are increasing integers are already in tab order. */
  lemma InPageOrder(recs: seq<Record>, pages: seq<nat>)
    requires |recs| == |pages|
    requires forall j :: 0 <= j < |recs| ==> "page" in recs[j] && recs[j]["page"] == Text(IntToString(pages[j]))
    requires forall j, k :: 0 <= j < k < |pages| ==> pages[j] < pages[k]
    ensures OrderTabs(recs) == Success(recs)
  {
    forall j | 0 <= j < |recs| ensures PageNumber(recs[j]["page"]) == Some(pages[j] as int) {
      ParseIntToString(pages[j]);
    }
    OrderTabsKeepsOrdered(recs);
  }

  /** The records loaded from the pages' sections are the saved pages, in tab order. */
  lemma ReloadedRecords(tabs: seq<TabState>, registry: Registry, recs: seq<Record>)
    requires Saveable(tabs, registry)
    requires |recs| == |TabSections(tabs, registry)|
    requires forall j :: 0 <= j < |recs| ==> DecodeSection(TabSections(tabs, registry)[j]) == Success(recs[j])
    ensures var saved := SavedTabs(tabs, registry);
            && |recs| == |saved|
            && (forall j :: 0 <= j < |saved| ==>
                  saved[j].1.gname in registry && ReloadedAs(recs[j], saved[j].0, saved[j].1, registry))
            && OrderTabs(recs) == Success(recs)
  {
    SavedTabsIndexed(tabs, registry);
    var saved := SavedTabs(tabs, registry);
    forall j | 0 <= j < |saved|
      ensures saved[j].1.gname in registry && ReloadedAs(recs[j], saved[j].0, saved[j].1, registry)
    {
      assert saved[j].1 == tabs[saved[j].0];
      TabSectionReloaded(saved[j].0, saved[j].1, registry);
    }
    var pages := seq(|saved|, j requires 0 <= j < |saved| => saved[j].0);
    InPageOrder(recs, pages);
  }

  /**
   * Saving a bar that is not empty and loading the file again: the bar's
   * settings come back; each saved page comes back as one record, in
   * notebook order, with its title, its index and its `data` list; and the
   * sort on the page number leaves that order as it is.
   */
  lemma SaveLoadRoundTrip(visible: bool, current: int, tabs: seq<TabState>, registry: Registry)
    requires Saveable(tabs, registry)
    ensures var loaded := LoadSections(Sections(ConfigLines(visible, current, false, tabs, registry)));
            var saved := SavedTabs(tabs, registry);
            && loaded.Success? && loaded.value.visible == visible && loaded.value.page == current
            && |loaded.value.records| == |saved|
            && (forall j :: 0 <= j < |saved| ==>
                  saved[j].1.gname in registry
                  && ReloadedAs(loaded.value.records[j], saved[j].0, saved[j].1, registry))
            && OrderTabs(loaded.value.records) == Success(loaded.value.records)
  {
    SavedSections(visible, current, tabs, registry);
    LoadSavedTabs(visible, current, tabs, registry);
    var loaded := LoadSections([BarSectionOf(visible, current)] + TabSections(tabs, registry));
    ReloadedRecords(tabs, registry, loaded.value.records);
  }

  /**
   * The sort as written compares the loaded `page` strings: with eleven or
   * more saved pages, page "10" sorts before page "9", so the tabs do not
   * come back in the order they were saved.
   */
  lemma AsWrittenLosesOrder(visible: bool, current: int, tabs: seq<TabState>, registry: Registry)
    requires Saveable(tabs, registry)
    requires |tabs| >= 11 && forall i :: 0 <= i < |tabs| ==> tabs[i].gname in registry
    ensures var loaded := LoadSections(Sections(ConfigLines(visible, current, false, tabs, registry)));
            && loaded.Success?
            && OrderTabsAsWritten(loaded.value.records) != Success(loaded.value.records)
  {
    SaveLoadRoundTrip(visible, current, tabs, registry);
    var loaded := LoadSections(Sections(ConfigLines(visible, current, false, tabs, registry)));
    ReloadedOutOfOrder(tabs, registry, loaded.value.records);
  }

  /** Eleven or more saved pages, reloaded, are not in order for the sort as written. */
  lemma ReloadedOutOfOrder(tabs: seq<TabState>, registry: Registry, recs: seq<Record>)
    requires |tabs| >= 11 && forall i :: 0 <= i < |tabs| ==> tabs[i].gname in registry
    requires |recs| == |SavedTabs(tabs, registry)|
    requires forall j :: 0 <= j < |SavedTabs(tabs, registry)| ==>
               SavedTabs(tabs, registry)[j].1.gname in registry
               && ReloadedAs(recs[j], SavedTabs(tabs, registry)[j].0, SavedTabs(tabs, registry)[j].1, registry)
    ensures OrderTabsAsWritten(recs) != Success(recs)
  {
    SavedTabsAll(tabs, registry);
    var saved := SavedTabs(tabs, registry);
    assert saved[9] == (9, tabs[9]) && saved[10] == (10, tabs[10]);
    assert ReloadedAs(recs[9], 9, tabs[9], registry);
    assert ReloadedAs(recs[10], 10, tabs[10], registry);
    NineAndTen();
    TextPagesOutOfOrder(recs);
  }

  lemma NineAndTen()
    ensures IntToString(9) == "9" && IntToString(10) == "10"
  {
    assert NatToString(9) == "9";
    assert NatToString(10) == NatToString(1) + [DigitChar(0)];
  }

  /** Pages "9" and "10" compare as text, so records holding them in that order are not sorted as written. */
  lemma TextPagesOutOfOrder(recs: seq<Record>)
    requires |recs| >= 11
    requires "page" in recs[9] && recs[9]["page"] == Text("9")
    requires "page" in recs[10] && recs[10]["page"] == Text("10")
    ensures OrderTabsAsWritten(recs) != Success(recs)
  {
    assert !ByPageValue(recs[9], recs[10]);
    OrderTabsAsWrittenSorted(recs);
  }
}
