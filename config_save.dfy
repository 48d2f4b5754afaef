/**
 * Saving the bar configuration (`GrampsBar.__save`), from the bar's state to
 * the lines of the configuration file; the file handle and the two comment
 * lines with the time stamp are not part of it.
 */
module ConfigSave {
  import opened Wrappers
  import opened PyText
  import opened ConfigData

  /** Options the save never writes from a gramplet's options. */
  const Unsaved: set<string> := {"content", "title", "row", "column", "page", "version", "gramps"}

  /** What the save knows of one notebook page: its gramplet's name, title and instance attributes. */
  datatype TabState = TabState(gname: string, title: string, attrs: map<string, Value>)

  /** `'a', 'b'` for the items `a`, `b`. */
  function QuotedItems(xs: seq<string>): string {
    if xs == [] then ""
    else if |xs| == 1 then "'" + xs[0] + "'"
    else QuotedItems(xs[..|xs| - 1]) + ", '" + xs[|xs| - 1] + "'"
  }

  /** `"%s" % value` */
  function Str(v: Value): string {
    match v
    case Text(s) => s
    case Number(n) => IntToString(n)
    case Items(xs) => "[" + QuotedItems(xs) + "]"
  }

  /** `"data[%d]" % i` */
  function IndexKey(i: nat): string {
    "data[" + IntToString(i) + "]"
  }

  /** `base_opts`: a copy of the registry options, each replaced by the gramplet's attribute of that name. */
  function Overlay(opts: Options, attrs: map<string, Value>): Options {
    seq(|opts|, i requires 0 <= i < |opts| =>
      (opts[i].0, if opts[i].0 in attrs then attrs[opts[i].0] else opts[i].1))
  }

  /** The lines of the `data` option: one per item, numbered from 0; a value that is not a list, as `data[0]`. */
  function DataLines(v: Value): seq<Line> {
    match v
    case Items(xs) => seq(|xs|, i requires 0 <= i < |xs| => Entry(IndexKey(i), xs[i]))
    case _ => [Entry("data[0]", Str(v))]
  }

  /** The lines of one option of `base_opts`. */
  function KeyLines(key: string, value: Value): seq<Line> {
    if key in Unsaved then []
    else if key == "data" then DataLines(value)
    else [Entry(key, Str(value))]
  }

  /** The lines of the options of `base_opts`, in its order. */
  function OptionLines(opts: Options): seq<Line> {
    if opts == [] then []
    else OptionLines(opts[..|opts| - 1]) + KeyLines(opts[|opts| - 1].0, opts[|opts| - 1].1)
  }

  /** The section of the page at `pageNum`, or nothing when the registry does not know its gramplet. */
  function TabLines(pageNum: nat, tab: TabState, registry: Registry): seq<Line> {
    if tab.gname !in registry then []
    else
      [Header(tab.title)] + OptionLines(Overlay(registry[tab.gname], tab.attrs))
      + [Entry("page", IntToString(pageNum)), Blank]
  }

  /** The sections of the pages, numbered by their place in the notebook. */
  function TabsLines(tabs: seq<TabState>, registry: Registry): seq<Line> {
    if tabs == [] then []
    else TabsLines(tabs[..|tabs| - 1], registry) + TabLines(|tabs| - 1, tabs[|tabs| - 1], registry)
  }

  /** The "Bar Options" section. */
  function BarLines(visible: bool, current: int): seq<Line> {
    [Header(BarSection), Entry("visible", if visible then "True" else "False"),
     Entry("page", IntToString(current)), Blank]
  }

  /** The whole file after the comment lines; an empty bar saves no page. */
  function ConfigLines(visible: bool, current: int, empty: bool, tabs: seq<TabState>, registry: Registry): seq<Line> {
    BarLines(visible, current) + if empty then [] else TabsLines(tabs, registry)
  }

  // ---------------------------------------------------------------------------
  // What the save writes.
  // ---------------------------------------------------------------------------

  /** An empty bar saves the "Bar Options" section and nothing else. */
  lemma SaveEmpty(visible: bool, current: int, tabs: seq<TabState>, registry: Registry)
    ensures var lines := ConfigLines(visible, current, true, tabs, registry);
            && |lines| == 4 && lines[0] == Header(BarSection)
            && (forall i :: 0 < i < |lines| ==> !lines[i].Header?)
  {
  }

  /** The number written into a `data[N]` key is read back by `int(opt[5:-1])`. */
  lemma IndexKeyParses(i: nat)
    ensures |IndexKey(i)| >= 5 && IndexKey(i)[..5] == "data["
    ensures IndexKey(i)[5..|IndexKey(i)| - 1] == IntToString(i)
    ensures ParseInt(IndexKey(i)[5..|IndexKey(i)| - 1]) == Some(i)
  {
    var k := IndexKey(i);
    assert k == "data[" + IntToString(i) + "]";
    assert k[5..|k| - 1] == IntToString(i);
    ParseIntToString(i);
  }

  /** Distinct items get distinct keys. */
  lemma IndexKeyInjective(i: nat, j: nat)
    requires i != j
    ensures IndexKey(i) != IndexKey(j)
  {
    IndexKeyParses(i);
    IndexKeyParses(j);
  }

  /** A `data[N]` key is never one of the unsaved options. */
  lemma IndexKeySaved(i: nat)
    ensures IndexKey(i) !in Unsaved
  {
    assert IndexKey(i)[0] == 'd';
    assert forall u | u in Unsaved :: u[0] != 'd';
  }

  /**
   * The lines of the options: only entries, none named after an unsaved
   * option, each either a `data[N]` line or the `str()` of an option of the
   * same name.
   */
  lemma {:induction false} OptionLinesKeys(opts: Options)
    ensures forall l | l in OptionLines(opts) :: l.Entry? && l.key !in Unsaved
    ensures forall l | l in OptionLines(opts) ::
              (exists i :: 0 <= i < |opts| && opts[i].0 == "data" && l in DataLines(opts[i].1))
              || (exists i :: 0 <= i < |opts| && opts[i].0 != "data" && l == Entry(opts[i].0, Str(opts[i].1)))
  {
    if opts != [] {
      var prefix := opts[..|opts| - 1];
      var (k, v) := opts[|opts| - 1];
      OptionLinesKeys(prefix);
      assert forall i :: 0 <= i < |prefix| ==> prefix[i] == opts[i];
      if k == "data" && k !in Unsaved {
        forall l | l in DataLines(v) ensures l.Entry? && l.key !in Unsaved {
          var n :| 0 <= n < |DataLines(v)| && DataLines(v)[n] == l;
          IndexKeySaved(n);
        }
      }
    }
  }

  /** Every option that is saved at all is written: a `data` option as its data lines, any other as `key=str(value)`. */
  lemma {:induction false} OptionLinesComplete(opts: Options, i: nat)
    requires i < |opts| && opts[i].0 !in Unsaved
    ensures opts[i].0 == "data" ==> forall l | l in DataLines(opts[i].1) :: l in OptionLines(opts)
    ensures opts[i].0 != "data" ==> Entry(opts[i].0, Str(opts[i].1)) in OptionLines(opts)
  {
    if i < |opts| - 1 {
      var prefix := opts[..|opts| - 1];
      assert prefix[i] == opts[i];
      OptionLinesComplete(prefix, i);
    }
  }

  /**
   * The section of a page the registry knows: its title as header, then the
   * option lines, then `page=<its index>`, then an empty line; `page` is
   * written once and no other header comes in between.
   */
  lemma TabLinesShape(pageNum: nat, tab: TabState, registry: Registry)
    requires tab.gname in registry
    ensures var lines := TabLines(pageNum, tab, registry);
            && |lines| >= 3 && lines[0] == Header(tab.title)
            && lines[|lines| - 2] == Entry("page", IntToString(pageNum))
            && lines[|lines| - 1] == Blank
            && (forall i :: 0 < i < |lines| - 2 ==> lines[i].Entry? && lines[i].key != "page")
  {
    var opts := Overlay(registry[tab.gname], tab.attrs);
    var lines := TabLines(pageNum, tab, registry);
    OptionLinesKeys(opts);
    assert lines == [Header(tab.title)] + OptionLines(opts) + [Entry("page", IntToString(pageNum)), Blank];
    forall i | 0 < i < |lines| - 2 ensures lines[i].Entry? && lines[i].key != "page" {
      assert lines[i] == OptionLines(opts)[i - 1];
      assert lines[i] in OptionLines(opts);
    }
  }

  // ---------------------------------------------------------------------------
  // The loops of `__save`.
  // ---------------------------------------------------------------------------

  /** `base_opts`, built by the loop over its keys. */
  method BaseOptions(opts: Options, attrs: map<string, Value>) returns (base: Options)
    ensures base == Overlay(opts, attrs)
  {
    base := opts;
    var j := 0;
    while j < |base|
      invariant 0 <= j <= |base| == |opts|
      invariant forall i :: 0 <= i < j ==> base[i] == Overlay(opts, attrs)[i]
      invariant forall i :: j <= i < |base| ==> base[i] == opts[i]
    {
      var key := base[j].0;
      if key in attrs {
        base := base[j := (key, attrs[key])];
      }
      j := j + 1;
    }
  }

  /** The lines of a list-valued `data`, written with the running `cnt`. */
  method WriteData(items: seq<string>) returns (lines: seq<Line>)
    ensures lines == DataLines(Items(items))
  {
    lines := [];
    var cnt := 0;
    while cnt < |items|
      invariant 0 <= cnt <= |items|
      invariant lines == DataLines(Items(items[..cnt]))
    {
      assert DataLines(Items(items[..cnt + 1])) == DataLines(Items(items[..cnt])) + [Entry(IndexKey(cnt), items[cnt])];
      lines := lines + [Entry(IndexKey(cnt), items[cnt])];
      cnt := cnt + 1;
    }
    assert items[..cnt] == items;
  }

  /** The lines of one gramplet's options, written by the loop over `base_opts`. */
  method WriteOptions(base: Options) returns (lines: seq<Line>)
    ensures lines == OptionLines(base)
  {
    lines := [];
    var j := 0;
    while j < |base|
      invariant 0 <= j <= |base|
      invariant lines == OptionLines(base[..j])
    {
      var (key, value) := base[j];
      assert base[..j + 1][..j] == base[..j];
      assert OptionLines(base[..j + 1]) == OptionLines(base[..j]) + KeyLines(key, value);
      if key in Unsaved {
      } else if key == "data" {
        if !value.Items? {
          lines := lines + [Entry("data[0]", Str(value))];
        } else {
          var data := WriteData(value.items);
          lines := lines + data;
        }
      } else {
        lines := lines + [Entry(key, Str(value))];
      }
      j := j + 1;
    }
    assert base[..j] == base;
  }

  lemma TabsLinesStep(tabs: seq<TabState>, n: nat, registry: Registry)
    requires n < |tabs|
    ensures TabsLines(tabs[..n + 1], registry) == TabsLines(tabs[..n], registry) + TabLines(n, tabs[n], registry)
  {
    assert tabs[..n + 1][..n] == tabs[..n];
  }

  /** The section of one page: nothing when `get_gramplet_options_by_name` gives None. */
  method WriteTab(pageNum: nat, tab: TabState, registry: Registry) returns (section: seq<Line>)
    ensures section == TabLines(pageNum, tab, registry)
  {
    section := [];
    if tab.gname in registry {
      var base := BaseOptions(registry[tab.gname], tab.attrs);
      var body := WriteOptions(base);
      section := [Header(tab.title)] + body + [Entry("page", IntToString(pageNum)), Blank];
    }
  }

  /** The loop over `enumerate(gramplet_list)`. */
  method WriteTabs(gramplets: seq<TabState>, registry: Registry) returns (lines: seq<Line>)
    ensures lines == TabsLines(gramplets, registry)
  {
    lines := [];
    var pageNum := 0;
    while pageNum < |gramplets|
      invariant 0 <= pageNum <= |gramplets|
      invariant lines == TabsLines(gramplets[..pageNum], registry)
    {
      TabsLinesStep(gramplets, pageNum, registry);
      var section := WriteTab(pageNum, gramplets[pageNum], registry);
      lines := lines + section;
      pageNum := pageNum + 1;
    }
    assert gramplets[..pageNum] == gramplets;
  }

  /** `GrampsBar.__save` from the bar line on: the lines written for the bar's state. */
  method Save(visible: bool, current: int, empty: bool, tabs: seq<TabState>, registry: Registry)
    returns (lines: seq<Line>)
    ensures lines == ConfigLines(visible, current, empty, tabs, registry)
  {
    lines := [Header(BarSection), Entry("visible", if visible then "True" else "False"),
              Entry("page", IntToString(current)), Blank];
    var gramplets: seq<TabState> := [];
    if !empty {
      gramplets := tabs;
    }
    var sections := WriteTabs(gramplets, registry);
    lines := lines + sections;
  }
}
