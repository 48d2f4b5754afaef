/**
 * The page bookkeeping of `GrampsBar`: the notebook's page list, the
 * `empty` flag with its placeholder page, and the list of detached
 * gramplets, with the signal handlers and operations that change them.
 */
module GrampsBarState {
  import opened ConfigData
  import opened ConfigSave
  import opened PageList

  /** A gramplet shown in the bar (a `TabGramplet`). */
  class Gramplet {
    /** The registry name of the gramplet. */
    const gname: string
    /** The text of its tab. */
    const title: string
    /** The instance attributes the save writes over the registry's options. */
    const attrs: map<string, Value>
    /** The page index recorded when the gramplet was detached into a window. */
    var page: int
  }

  /** A notebook page: the placeholder label of an empty bar, or a gramplet. */
  datatype Page = Placeholder | Tab(g: Gramplet)

  /** An element of the list `all_gramplets` returns: a gramplet's name, or the gramplet object itself. */
  datatype Listed = Name(name: string) | Object(obj: Gramplet)

  /** How `remove_gramplet` ends. */
  datatype RemoveOutcome =
    | DockedAndRemoved      // a detached gramplet of that name was docked, then its page removed
    | Removed               // the first page of that name was removed
    | NotFound              // no gramplet of that name
    | PlaceholderHasNoName  // the loop reached the placeholder label: AttributeError

  /** What the save knows of each page. */
  function TabsOf(pages: seq<Page>): (tabs: seq<TabState>)
    ensures |tabs| == |pages|
    ensures forall i :: 0 <= i < |pages| && pages[i].Tab? ==>
              tabs[i] == TabState(pages[i].g.gname, pages[i].g.title, pages[i].g.attrs)
  {
    seq(|pages|, i requires 0 <= i < |pages| =>
      match pages[i]
      case Tab(g) => TabState(g.gname, g.title, g.attrs)
      case Placeholder => TabState("", "", map[]))
  }

  /** The index of the first gramplet called `gname`, or -1. */
  function FirstNamed(gs: seq<Gramplet>, gname: string): (r: int)
    ensures -1 <= r < |gs|
    ensures r == -1 <==> forall k :: 0 <= k < |gs| ==> gs[k].gname != gname
    ensures r >= 0 ==> gs[r].gname == gname && forall k :: 0 <= k < r ==> gs[k].gname != gname
  {
    if gs == [] then -1
    else if gs[0].gname == gname then 0
    else
      var k := FirstNamed(gs[1..], gname);
      assert forall j :: 1 <= j < |gs| ==> gs[j] == gs[1..][j - 1];
      if k == -1 then -1 else k + 1
  }

  /** The index of the first gramplet page called `gname`, or -1. */
  function FirstPageNamed(pages: seq<Page>, gname: string): (r: int)
    ensures -1 <= r < |pages|
    ensures r == -1 <==> forall k :: 0 <= k < |pages| ==> !(pages[k].Tab? && pages[k].g.gname == gname)
    ensures r >= 0 ==> pages[r].Tab? && pages[r].g.gname == gname
                       && forall k :: 0 <= k < r ==> !(pages[k].Tab? && pages[k].g.gname == gname)
  {
    if pages == [] then -1
    else if pages[0].Tab? && pages[0].g.gname == gname then 0
    else
      var k := FirstPageNamed(pages[1..], gname);
      assert forall j :: 1 <= j < |pages| ==> pages[j] == pages[1..][j - 1];
      if k == -1 then -1 else k + 1
  }

  /**
   * The page list as the handlers keep it, allowing the moment before the
   * first page is added: an empty bar shows just the placeholder, any
   * other bar only gramplets; no page twice, no gramplet both a page and
   * detached, none detached twice.
   */
  ghost predicate StateOk(pages: seq<Page>, empty: bool, detached: seq<Gramplet>) {
    && (empty ==> pages == [Placeholder])
    && (!empty ==> AllTabs(pages))
    && Distinct(pages) && Distinct(detached)
    && forall g :: g in detached ==> Tab(g) !in pages
  }

  /**
   * What `__add_tab` leaves, on values: a gramplet appended to the kept
   * pages, and moved back to its recorded page when it was detached, keeps
   * the page list as kept.
   */
  lemma AddTabState(kept: seq<Page>, detached: seq<Gramplet>, g: Gramplet, position: int)
    requires StateOk(kept, false, detached) && Tab(g) !in kept
    ensures Distinct(kept + [Tab(g)]) && IndexOf(kept + [Tab(g)], Tab(g)) == |kept|
    ensures g in detached ==> StateOk(MoveTo(kept + [Tab(g)], |kept|, position), false, RemoveFirst(detached, g))
    ensures g !in detached ==> StateOk(kept + [Tab(g)], false, detached)
  {
    DistinctAppend(kept, Tab(g));
    IndexOfDistinct(kept + [Tab(g)], |kept|);
    if g in detached {
      DockedState(kept, detached, g, position);
    } else {
      AllTabsAppend(kept, g);
      NoneShownTwice(kept, detached, g, detached, kept + [Tab(g)]);
    }
  }

  /** A detached gramplet appended and moved back to its page leaves the page list as kept. */
  lemma DockedState(kept: seq<Page>, detached: seq<Gramplet>, g: Gramplet, position: int)
    requires StateOk(kept, false, detached) && Tab(g) !in kept && g in detached
    ensures StateOk(MoveTo(kept + [Tab(g)], |kept|, position), false, RemoveFirst(detached, g))
  {
    var added := kept + [Tab(g)];
    DistinctAppend(kept, Tab(g));
    RemoveFirstGone(detached, g);
    DistinctMoveTo(added, |kept|, position);
    AllTabsMoveTo(kept, g, position);
    NoneShownTwice(kept, detached, g, RemoveFirst(detached, g), MoveTo(added, |kept|, position));
  }

  /** No gramplet is both a page and detached after it is added as a page and leaves the detached list. */
  lemma NoneShownTwice(kept: seq<Page>, detached: seq<Gramplet>, g: Gramplet, left: seq<Gramplet>, shown: seq<Page>)
    requires forall h :: h in detached ==> Tab(h) !in kept
    requires forall h :: h in left <==> h in detached && h != g
    requires forall p :: p in shown <==> p in kept || p == Tab(g)
    ensures forall h :: h in left ==> Tab(h) !in shown
  {
  }

  predicate AllTabs(pages: seq<Page>) {
    forall i :: 0 <= i < |pages| ==> pages[i].Tab?
  }

  lemma AllTabsAppend(kept: seq<Page>, g: Gramplet)
    requires AllTabs(kept)
    ensures AllTabs(kept + [Tab(g)])
  {
  }

  /** A gramplet appended to gramplet pages and moved leaves only gramplet pages. */
  lemma AllTabsMoveTo(kept: seq<Page>, g: Gramplet, position: int)
    requires AllTabs(kept)
    ensures AllTabs(MoveTo(kept + [Tab(g)], |kept|, position))
  {
    var added := kept + [Tab(g)];
    var p := Clamp(position, |added|);
    assert RemoveAt(added, |kept|) == kept;
    var moved := MoveTo(added, |kept|, position);
    assert moved == kept[..p] + [Tab(g)] + kept[p..];
    forall i | 0 <= i < |moved| ensures moved[i].Tab? {
      if i < p {
        assert moved[i] == kept[i];
      } else if p < i {
        assert moved[i] == kept[i - 1];
      }
    }
  }

  /** The page each of the gramplets `gs` recorded when it was detached. */
  function Positions(gs: seq<Gramplet>): (r: seq<int>)
    reads gs
    ensures |r| == |gs| && forall k :: 0 <= k < |gs| ==> r[k] == gs[k].page
  {
    if gs == [] then [] else Positions(gs[..|gs| - 1]) + [gs[|gs| - 1].page]
  }

  /**
   * The pages after the gramplets `gs` are docked one after the other onto
   * the gramplet pages `kept`: each is appended and moved to the page `at`
   * records for it.
   */
  function DockedOnto(kept: seq<Page>, gs: seq<Gramplet>, at: seq<int>): seq<Page>
    requires |at| == |gs|
  {
    if gs == [] then kept
    else
      var before := DockedOnto(kept, gs[..|gs| - 1], at[..|at| - 1]);
      MoveTo(before + [Tab(gs[|gs| - 1])], |before|, at[|at| - 1])
  }

  lemma DockedOntoNext(kept: seq<Page>, gs: seq<Gramplet>, at: seq<int>, i: nat, before: seq<Page>)
    requires |at| == |gs| && i < |gs|
    requires before == DockedOnto(kept, gs[..i], at[..i])
    ensures DockedOnto(kept, gs[..i + 1], at[..i + 1]) == MoveTo(before + [Tab(gs[i])], |before|, at[i])
  {
    assert gs[..i + 1][..i] == gs[..i];
    assert at[..i + 1][..i] == at[..i];
  }

  /** Docking keeps the pages there were and adds a page for each docked gramplet, and nothing else. */
  /**
   * Once a walk has passed every gramplet of `gs`, all of them are docked
   * onto the gramplet pages of `before`; the pages are then those of
   * `before` and one for each gramplet of `gs`.
   */
  lemma DockedEnd(before: seq<Page>, wasEmpty: bool, gs: seq<Gramplet>, at: seq<int>, i: nat, pages: seq<Page>)
    requires |at| == |gs| && i == |gs| && (wasEmpty ==> before == [Placeholder])
    requires i == 0 ==> pages == before
    requires i > 0 ==> pages == DockedOnto(if wasEmpty then [] else before, gs[..i], at[..i])
    ensures i > 0 ==> pages == DockedOnto(if wasEmpty then [] else before, gs, at)
    ensures forall p: Page :: p.Tab? ==> (p in pages <==> p in before || p.g in gs)
  {
    if i > 0 {
      assert gs[..i] == gs;
      assert at[..i] == at;
      forall p: Page | p.Tab? ensures p in pages <==> p in before || p.g in gs {
        DockedOntoPages(if wasEmpty then [] else before, gs, at, p);
      }
    }
  }

  /**
   * When the walk over `start` stops at index `i`, the gramplets at odd
   * positions are the ones left detached, and those at even positions are
   * docked onto the pages there were.
   */
  lemma WalkFinished(start: seq<Gramplet>, kept: seq<Page>, at: seq<int>, i: nat,
                     oldPages: seq<Page>, oldEmpty: bool, pages: seq<Page>, empty: bool, detached: seq<Gramplet>)
    requires i <= |Evens(start)| && |at| == |Evens(start)| && detached == Walked(start, i) && |detached| <= i
    requires (oldEmpty ==> oldPages == [Placeholder]) && kept == if oldEmpty then [] else oldPages
    requires i == 0 ==> pages == oldPages && empty == oldEmpty
    requires i > 0 ==> !empty && pages == DockedOnto(kept, Evens(start)[..i], at[..i])
    ensures detached == Odds(start)
    ensures Evens(start) == [] ==> pages == oldPages && empty == oldEmpty
    ensures Evens(start) != [] ==> !empty && pages == DockedOnto(kept, Evens(start), at)
    ensures forall p: Page :: p.Tab? ==> (p in pages <==> p in oldPages || p.g in Evens(start))
  {
    WalkedEnd(start, i);
    DockedEnd(oldPages, oldEmpty, Evens(start), at, i, pages);
  }

  lemma {:induction false} DockedOntoPages(kept: seq<Page>, gs: seq<Gramplet>, at: seq<int>, p: Page)
    requires |at| == |gs|
    ensures p in DockedOnto(kept, gs, at) <==> p in kept || (p.Tab? && p.g in gs)
  {
    if gs != [] {
      var prefix := gs[..|gs| - 1];
      var g := gs[|gs| - 1];
      var before := DockedOnto(kept, prefix, at[..|at| - 1]);
      DockedOntoPages(kept, prefix, at[..|at| - 1], p);
      assert DockedOnto(kept, gs, at) == MoveTo(before + [Tab(g)], |before|, at[|at| - 1]);
      MoveToMembers(before + [Tab(g)], |before|, at[|at| - 1], p);
      GrampletInSnoc(prefix, g, p);
    }
  }

  lemma GrampletInSnoc(prefix: seq<Gramplet>, g: Gramplet, p: Page)
    ensures (p.Tab? && p.g in prefix + [g]) <==> (p.Tab? && p.g in prefix) || p == Tab(g)
  {
  }

  class GrampsBar {
    /** The notebook's pages, in order. */
    var pages: seq<Page>
    /** `self.empty`: the bar shows only its placeholder page. */
    var empty: bool
    /** `self.detached_gramplets`: the gramplets shown in windows of their own. */
    var detached: seq<Gramplet>

    /** The page list as the handlers keep it: `StateOk` of the bar's fields. */
    ghost predicate PagesOk()
      reads this
    {
      StateOk(pages, empty, detached)
    }

    /** The bar's invariant: the page list as kept, and never without a page. */
    ghost predicate Valid()
      reads this
    {
      PagesOk() && pages != []
    }

    /**
     * `__init__`: the loaded gramplets appended as pages in the order given
     * (the records sorted on their page); without any, the bar is empty and
     * shows the placeholder.
     */
    constructor(gs: seq<Gramplet>)
      requires Distinct(gs)
      ensures Valid() && detached == []
      ensures gs == [] ==> empty && pages == [Placeholder]
      ensures gs != [] ==> !empty && pages == seq(|gs|, i requires 0 <= i < |gs| => Tab(gs[i]))
    {
      pages := [];
      empty := false;
      detached := [];
      new;
      var i := 0;
      while i < |gs|
        invariant 0 <= i <= |gs|
        invariant PagesOk() && !empty && detached == []
        invariant pages == seq(i, k requires 0 <= k < i => Tab(gs[k]))
      {
        assert Tab(gs[i]) !in pages;
        AddTab(gs[i]);
        i := i + 1;
      }
      if i == 0 {
        empty := true;
        CreateEmptyTab();
      }
    }

    /** `__page_removed`: a notebook left without pages becomes empty and gets the placeholder page. */
    method PageRemoved()
      modifies this
      decreases 1, 1
      ensures old(pages) == [] ==> pages == [Placeholder] && empty
      ensures old(pages) != [] ==> pages == old(pages) && empty == old(empty)
      ensures detached == old(detached)
    {
      if |pages| == 0 {
        empty := true;
        CreateEmptyTab();
      }
    }

    /** `__create_empty_tab`: the placeholder label appended; the page-added handler leaves it there. */
    method CreateEmptyTab()
      requires empty && pages == []
      modifies this
      decreases 1, 0
      ensures pages == [Placeholder] && empty && detached == old(detached)
    {
      pages := pages + [Placeholder];
      PageAdded(|pages| - 1);
    }

    /** The notebook's `remove_page`, and the page-removed handler it triggers. */
    method RemovePage(pageNum: nat)
      requires pageNum < |pages|
      modifies this
      decreases 1, 2
      ensures RemoveAt(old(pages), pageNum) == [] ==> pages == [Placeholder] && empty
      ensures RemoveAt(old(pages), pageNum) != [] ==> pages == RemoveAt(old(pages), pageNum) && empty == old(empty)
      ensures detached == old(detached)
    {
      pages := RemoveAt(pages, pageNum);
      PageRemoved();
    }

    /**
     * `__page_added`, for the page just appended at `newPage`. In an empty
     * bar a gramplet page first takes the placeholder's place, and any other
     * page is left alone; a gramplet coming back from its window leaves the
     * detached list and moves to the page it was detached from.
     */
    method PageAdded(newPage: nat)
      requires newPage < |pages| && Distinct(pages)
      requires empty && pages[newPage].Tab? ==> 0 < newPage
      requires !empty ==> pages[newPage].Tab?
      modifies this
      decreases if pages[newPage].Tab? then 2 else 0, 3
      ensures old(empty) && !old(pages[newPage]).Tab? ==>
                pages == old(pages) && empty && detached == old(detached)
      ensures old(pages[newPage]).Tab? ==>
                var p := old(pages[newPage]);
                var kept := if old(empty) then old(pages[1..]) else old(pages);
                && !empty && p in kept
                && (p.g in old(detached) ==>
                      detached == RemoveFirst(old(detached), p.g)
                      && pages == MoveTo(kept, IndexOf(kept, p), p.g.page))
                && (p.g !in old(detached) ==> detached == old(detached) && pages == kept)
    {
      var p := pages[newPage];
      if empty {
        if p.Tab? {
          assert pages[newPage] == pages[1..][newPage - 1];
          RemovePage(0);
          assert RemoveAt(old(pages), 0) == old(pages[1..]);
          empty := false;
        } else {
          return;
        }
      }
      // The tab label with its close button, and the reorderable and
      // detachable flags, are widget settings.
      if p.g in detached {
        detached := RemoveFirst(detached, p.g);
        pages := MoveTo(pages, IndexOf(pages, p), p.g.page);
      }
    }

    /** `__add_tab`: the gramplet appended as a page, which runs the page-added handler. */
    method AddTab(g: Gramplet)
      requires PagesOk() && Tab(g) !in pages
      modifies this
      ensures Valid() && !empty
      ensures var kept := if old(empty) then [] else old(pages);
              && (g in old(detached) ==>
                    detached == RemoveFirst(old(detached), g) && pages == MoveTo(kept + [Tab(g)], |kept|, g.page))
              && (g !in old(detached) ==> detached == old(detached) && pages == kept + [Tab(g)])
    {
      ghost var kept := if empty then [] else pages;
      AddTabState(kept, detached, g, g.page);
      DistinctAppend(pages, Tab(g));
      pages := pages + [Tab(g)];
      assert (if empty then pages[1..] else pages) == kept + [Tab(g)];
      PageAdded(|pages| - 1);
    }

    /** `__dock_gramplet`: closing the gramplet's window reparents it into the bar. */
    method Dock(g: Gramplet)
      requires Valid() && g in detached
      modifies this
      ensures Valid() && !empty
      ensures var kept := if old(empty) then [] else old(pages);
              && detached == RemoveFirst(old(detached), g)
              && pages == MoveTo(kept + [Tab(g)], |kept|, g.page)
      ensures Tab(g) in pages && forall p :: p in old(pages) && p.Tab? ==> p in pages
      ensures forall x: Gramplet :: old(allocated(x)) ==> x.page == old(x.page)
    {
      ghost var kept := if empty then [] else pages;
      AddTab(g);
      DistinctMoveTo(kept + [Tab(g)], |kept|, g.page);
    }

    /**
     * `__create_window`, when a tab is dragged out of the bar: the page
     * index is recorded and the gramplet joins the detached list; then the
     * notebook gives the page up to the new window.
     */
    method Detach(g: Gramplet)
      requires Valid() && Tab(g) in pages
      modifies this, g
      ensures Valid()
      ensures 0 <= g.page < |old(pages)| && old(pages)[g.page] == Tab(g)
      ensures detached == old(detached) + [g]
      ensures RemoveAt(old(pages), g.page) == [] ==> pages == [Placeholder] && empty
      ensures RemoveAt(old(pages), g.page) != [] ==> pages == RemoveAt(old(pages), g.page) && !empty
    {
      var at := IndexOf(pages, Tab(g));
      g.page := at;
      detached := detached + [g];
      DistinctRemoveAt(pages, at);
      RemovePage(at);
    }

    /** `all_gramplets`: in an empty bar, the detached gramplet objects; otherwise the names of the pages and the detached gramplets. */
    function AllGramplets(): (r: seq<Listed>)
      reads this
      requires Valid()
      ensures empty ==> |r| == |detached| && forall i :: 0 <= i < |r| ==> r[i] == Object(detached[i])
      ensures !empty ==> |r| == |pages| + |detached|
                         && (forall i :: 0 <= i < |pages| ==> r[i] == Name(pages[i].g.gname))
                         && forall j :: 0 <= j < |detached| ==> r[|pages| + j] == Name(detached[j].gname)
      ensures !empty ==> forall n :: Name(n) in r <==>
                (exists i :: 0 <= i < |pages| && pages[i].g.gname == n)
                || (exists j :: 0 <= j < |detached| && detached[j].gname == n)
    {
      if empty then ObjectsOf(detached)
      else
        var r := NamesOf(pages, detached);
        NamesListed(pages, detached, r);
        r
    }

    /**
     * `has_gramplet`: a name is found among the pages and the detached
     * gramplets, but never in an empty bar, whose list holds objects.
     */
    function HasGramplet(gname: string): (r: bool)
      reads this
      requires Valid()
      ensures r <==> !empty && ((exists i :: 0 <= i < |pages| && pages[i].g.gname == gname)
                                || (exists j :: 0 <= j < |detached| && detached[j].gname == gname))
    {
      var all := AllGramplets();
      if !empty && exists i :: 0 <= i < |pages| && pages[i].g.gname == gname then
        var i :| 0 <= i < |pages| && pages[i].g.gname == gname;
        assert all[i] == Name(gname);
        Name(gname) in all
      else if !empty && exists j :: 0 <= j < |detached| && detached[j].gname == gname then
        var j :| 0 <= j < |detached| && detached[j].gname == gname;
        assert all[|pages| + j] == Name(gname);
        Name(gname) in all
      else
        Name(gname) in all
    }

    /**
     * `add_gramplet`: nothing when the name is listed already, or when no
     * gramplet could be made (`made` is null); otherwise the new gramplet's
     * page is appended, taking the placeholder's place in an empty bar.
     */
    method AddGramplet(gname: string, made: Gramplet?)
      requires Valid()
      requires made != null ==> made.gname == gname && Tab(made) !in pages && made !in detached
      modifies this
      ensures Valid()
      ensures old(HasGramplet(gname)) || made == null ==>
                pages == old(pages) && empty == old(empty) && detached == old(detached)
      ensures !old(HasGramplet(gname)) && made != null ==>
                && pages == (if old(empty) then [] else old(pages)) + [Tab(made)]
                && !empty && detached == old(detached) && HasGramplet(gname)
    {
      if HasGramplet(gname) {
        return;
      }
      if made == null {
        return;
      }
      AddTab(made);
      assert pages[|pages| - 1] == Tab(made);
    }

    /**
     * `remove_gramplet`: a detached gramplet of that name is docked first
     * and its page removed, which leaves the pages as they were; otherwise
     * the first page of that name is removed. At most one page goes.
     */
    method RemoveGramplet(gname: string) returns (outcome: RemoveOutcome)
      requires Valid()
      modifies this
      ensures Valid()
      ensures outcome == DockedAndRemoved <==> FirstNamed(old(detached), gname) >= 0
      ensures outcome == DockedAndRemoved ==>
                && detached == RemoveAt(old(detached), FirstNamed(old(detached), gname))
                && pages == old(pages) && empty == old(empty)
      ensures outcome == PlaceholderHasNoName <==> FirstNamed(old(detached), gname) == -1 && old(empty)
      ensures outcome == Removed <==>
                FirstNamed(old(detached), gname) == -1 && !old(empty) && FirstPageNamed(old(pages), gname) >= 0
      ensures outcome == Removed ==>
                var rest := RemoveAt(old(pages), FirstPageNamed(old(pages), gname));
                && detached == old(detached)
                && (rest == [] ==> pages == [Placeholder] && empty)
                && (rest != [] ==> pages == rest && !empty)
      ensures outcome == NotFound || outcome == PlaceholderHasNoName ==>
                pages == old(pages) && empty == old(empty) && detached == old(detached)
    {
      var i := 0;
      while i < |detached|
        invariant 0 <= i <= |detached|
        invariant pages == old(pages) && empty == old(empty) && detached == old(detached)
        invariant forall k :: 0 <= k < i ==> detached[k].gname != gname
      {
        var g := detached[i];
        if g.gname == gname {
          outcome := DockAndRemove(i);
          return;
        }
        i := i + 1;
      }
      var n := |pages|;
      var pageNum := 0;
      while pageNum < n
        invariant 0 <= pageNum <= n == |pages| && Valid()
        invariant pages == old(pages) && empty == old(empty) && detached == old(detached)
        invariant forall k :: 0 <= k < pageNum ==> pages[k].Tab? && pages[k].g.gname != gname
      {
        var page := pages[pageNum];
        if !page.Tab? {
          return PlaceholderHasNoName;
        }
        if page.g.gname == gname {
          RemovePage(pageNum);
          return Removed;
        }
        pageNum := pageNum + 1;
      }
      assert pages[0].Tab?;
      return NotFound;
    }

    /** The first branch of `remove_gramplet`: dock the detached gramplet at `i`, then remove its page. */
    method DockAndRemove(i: nat) returns (outcome: RemoveOutcome)
      requires Valid() && i < |detached|
      modifies this
      ensures Valid() && outcome == DockedAndRemoved
      ensures detached == RemoveAt(old(detached), i)
      ensures pages == old(pages) && empty == old(empty)
    {
      var g := detached[i];
      ghost var kept := if empty then [] else pages;
      IndexOfDistinct(detached, i);
      Dock(g);
      DockUndock(kept, Tab(g), g.page);
      DistinctMoveTo(kept + [Tab(g)], |kept|, g.page);
      IndexOfDistinct(pages, Clamp(g.page, |kept| + 1));
      var at := IndexOf(pages, Tab(g));
      RemovePage(at);
      outcome := DockedAndRemoved;
    }

    /** The save of the current pages (`__save`); an empty bar saves no page. */
    method SaveConfig(visible: bool, current: int, registry: Registry) returns (lines: seq<Line>)
      requires Valid()
      ensures lines == ConfigLines(visible, current, empty, TabsOf(pages), registry)
    {
      lines := Save(visible, current, empty, TabsOf(pages), registry);
    }

    /**
     * `map(self.__dock_gramplet, self.detached_gramplets)` in `on_delete`,
     * as written: docking removes each gramplet from the list being walked,
     * so the walk docks only the gramplets at even positions, and those at
     * odd positions stay detached.
     */
    method DockAllAsWritten()
      requires Valid()
      modifies this
      ensures Valid()
      ensures detached == Odds(old(detached))
      ensures Evens(old(detached)) == [] ==> pages == old(pages) && empty == old(empty)
      ensures Evens(old(detached)) != [] ==>
                !empty && pages == DockedOnto(if old(empty) then [] else old(pages), Evens(old(detached)),
                                              old(Positions(Evens(detached))))
      ensures forall p: Page :: p.Tab? ==> (p in pages <==> p in old(pages) || p.g in Evens(old(detached)))
    {
      ghost var start := detached;
      ghost var kept := if empty then [] else pages;
      ghost var at := Positions(Evens(start));
      var i := WalkDetached(start, kept, at);
      WalkFinished(start, kept, at, i, old(pages), old(empty), pages, empty, detached);
    }

    /**
     * The walk itself: the index runs over the list of detached gramplets
     * while that list shrinks under it, and stops at its end.
     */
    method WalkDetached(ghost start: seq<Gramplet>, ghost kept: seq<Page>, ghost at: seq<int>) returns (i: nat)
      requires Walking(start, kept, at, 0) && kept == (if empty then [] else pages)
      requires forall k :: 0 <= k < |at| ==> at[k] == Evens(start)[k].page
      modifies this
      ensures Walking(start, kept, at, i) && |detached| <= i
      ensures i == 0 ==> pages == old(pages) && empty == old(empty)
    {
      i := 0;
      while i < |detached|
        invariant Walking(start, kept, at, i)
        invariant forall k :: 0 <= k < |at| ==> at[k] == Evens(start)[k].page
        invariant i == 0 ==> pages == old(pages) && empty == old(empty)
        decreases |start| - i
      {
        WalkedIndex(start, i);
        i := DockWalked(start, kept, at, i);
      }
    }

    /**
     * Where the walk of `DockAllAsWritten` stands at index `i`: the list
     * walked is `Walked(start, i)`, and the first `i` gramplets at even
     * positions are docked onto the pages `kept`, at the positions `at`.
     */
    ghost predicate Walking(start: seq<Gramplet>, kept: seq<Page>, at: seq<int>, i: nat)
      reads this
    {
      && Valid() && i <= |Evens(start)| && |at| == |Evens(start)| && detached == Walked(start, i)
      && (i > 0 ==> !empty && pages == DockedOnto(kept, Evens(start)[..i], at[..i]))
    }

    /** One step of that walk: the gramplet at the running index, the next one at an even position, is docked. */
    method DockWalked(ghost start: seq<Gramplet>, ghost kept: seq<Page>, ghost at: seq<int>, i: nat) returns (next: nat)
      requires Walking(start, kept, at, i) && i < |detached| && i < |at| && at[i] == Evens(start)[i].page
      requires i == 0 ==> kept == if empty then [] else pages
      modifies this
      ensures next == i + 1 && Walking(start, kept, at, next)
      ensures forall x: Gramplet :: old(allocated(x)) ==> x.page == old(x.page)
    {
      WalkedLength(start, i);
      var g := detached[i];
      assert g == Evens(start)[i];
      IndexOfDistinct(detached, i);
      DockOnto(kept, Evens(start), at, i, g);
      WalkedStep(start, i);
      next := i + 1;
    }

    /** The gramplet `gs[i]` docked onto the pages `gs[..i]` were docked onto. */
    method DockOnto(ghost kept: seq<Page>, ghost gs: seq<Gramplet>, ghost at: seq<int>, i: nat, g: Gramplet)
      requires Valid() && |at| == |gs| && i < |gs| && g == gs[i] && g.page == at[i] && g in detached
      requires i == 0 ==> kept == if empty then [] else pages
      requires i > 0 ==> !empty && pages == DockedOnto(kept, gs[..i], at[..i])
      modifies this
      ensures Valid() && !empty && pages == DockedOnto(kept, gs[..i + 1], at[..i + 1])
      ensures detached == RemoveFirst(old(detached), g)
      ensures forall x: Gramplet :: old(allocated(x)) ==> x.page == old(x.page)
    {
      ghost var before := if empty then [] else pages;
      DockedOntoNext(kept, gs, at, i, before);
      Dock(g);
    }

    /** Docking every detached gramplet: the walk runs over a copy of the list. */
    method DockAll()
      requires Valid()
      modifies this
      ensures Valid() && detached == []
      ensures old(detached) == [] ==> pages == old(pages) && empty == old(empty)
      ensures old(detached) != [] ==>
                !empty && pages == DockedOnto(if old(empty) then [] else old(pages), old(detached),
                                              old(Positions(detached)))
      ensures forall p: Page :: p.Tab? ==> (p in pages <==> p in old(pages) || p.g in old(detached))
    {
      var all := detached;
      ghost var kept := if empty then [] else pages;
      ghost var at := Positions(all);
      var i: nat := 0;
      while i < |all|
        invariant DockingAll(all, kept, at, i) && at == old(Positions(all))
        invariant forall x: Gramplet :: old(allocated(x)) ==> x.page == old(x.page)
        invariant i == 0 ==> pages == old(pages) && empty == old(empty)
      {
        DockNext(all, kept, at, i);
        i := i + 1;
      }
      DockedEnd(old(pages), old(empty), all, at, i, pages);
    }

    /**
     * Where the walk of `DockAll` over the copy `all` stands at index `i`:
     * the gramplets `all[..i]` are docked onto the pages `kept`, at the
     * positions `at`, and the others are still detached.
     */
    ghost predicate DockingAll(all: seq<Gramplet>, kept: seq<Page>, at: seq<int>, i: nat)
      reads this
    {
      && Valid() && i <= |all| && |at| == |all| && detached == all[i..]
      && (i > 0 ==> !empty && pages == DockedOnto(kept, all[..i], at[..i]))
    }

    /** One step of that walk: the first gramplet still detached, `all[i]`, is docked. */
    method DockNext(ghost all: seq<Gramplet>, ghost kept: seq<Page>, ghost at: seq<int>, i: nat)
      requires DockingAll(all, kept, at, i) && i < |all| && at[i] == all[i].page
      requires i == 0 ==> kept == if empty then [] else pages
      modifies this
      ensures DockingAll(all, kept, at, i + 1)
      ensures forall x: Gramplet :: old(allocated(x)) ==> x.page == old(x.page)
    {
      var g := detached[0];
      assert g == all[i];
      IndexOfDistinct(detached, 0);
      DockOnto(kept, all, at, i, g);
      assert all[i..][1..] == all[i + 1..];
    }

    /**
     * `on_delete`, with the detached gramplets all docked before the save:
     * every gramplet of the view is saved. The `pui.on_save` calls are user
     * code and are left out.
     */
    method OnDelete(visible: bool, current: int, registry: Registry) returns (lines: seq<Line>)
      requires Valid()
      modifies this
      ensures Valid() && detached == []
      ensures old(detached) != [] ==>
                !empty && pages == DockedOnto(if old(empty) then [] else old(pages), old(detached),
                                              old(Positions(detached)))
      ensures forall p: Page :: p.Tab? ==> (p in pages <==> p in old(pages) || p.g in old(detached))
      ensures lines == ConfigLines(visible, current, empty, TabsOf(pages), registry)
    {
      DockAll();
      lines := SaveConfig(visible, current, registry);
    }

    /**
     * `on_delete` as written: the gramplets at odd positions of the detached
     * list stay detached, so no page is saved for them.
     */
    method OnDeleteAsWritten(visible: bool, current: int, registry: Registry) returns (lines: seq<Line>)
      requires Valid()
      modifies this
      ensures Valid() && detached == Odds(old(detached))
      ensures forall g :: g in Odds(old(detached)) ==> Tab(g) !in pages
      ensures forall p: Page :: p.Tab? ==> (p in pages <==> p in old(pages) || p.g in Evens(old(detached)))
      ensures lines == ConfigLines(visible, current, empty, TabsOf(pages), registry)
    {
      DockAllAsWritten();
      lines := SaveConfig(visible, current, registry);
    }
  }

  /** The gramplet objects `ds` themselves, as listed. */
  function ObjectsOf(ds: seq<Gramplet>): (r: seq<Listed>)
    ensures |r| == |ds| && forall i :: 0 <= i < |ds| ==> r[i] == Object(ds[i])
  {
    if ds == [] then [] else ObjectsOf(ds[..|ds| - 1]) + [Object(ds[|ds| - 1])]
  }

  /** The names of the gramplet pages `ps`, followed by those of the gramplets `ds`. */
  function NamesOf(ps: seq<Page>, ds: seq<Gramplet>): (r: seq<Listed>)
    requires forall i :: 0 <= i < |ps| ==> ps[i].Tab?
    ensures |r| == |ps| + |ds|
    ensures forall i :: 0 <= i < |ps| ==> r[i] == Name(ps[i].g.gname)
    ensures forall j :: 0 <= j < |ds| ==> r[|ps| + j] == Name(ds[j].gname)
  {
    seq(|ps|, i requires 0 <= i < |ps| => Name(ps[i].g.gname))
    + seq(|ds|, j requires 0 <= j < |ds| => Name(ds[j].gname))
  }

  /** A list of the pages' names followed by the detached gramplets' names holds exactly those names. */
  lemma NamesListed(ps: seq<Page>, ds: seq<Gramplet>, r: seq<Listed>)
    requires forall i :: 0 <= i < |ps| ==> ps[i].Tab?
    requires |r| == |ps| + |ds|
    requires forall i :: 0 <= i < |ps| ==> r[i] == Name(ps[i].g.gname)
    requires forall j :: 0 <= j < |ds| ==> r[|ps| + j] == Name(ds[j].gname)
    ensures forall n :: Name(n) in r <==>
              (exists i :: 0 <= i < |ps| && ps[i].g.gname == n)
              || (exists j :: 0 <= j < |ds| && ds[j].gname == n)
  {
    forall n | Name(n) in r
      ensures (exists i :: 0 <= i < |ps| && ps[i].g.gname == n)
              || (exists j :: 0 <= j < |ds| && ds[j].gname == n)
    {
      var k :| 0 <= k < |r| && r[k] == Name(n);
      if k >= |ps| {
        assert r[|ps| + (k - |ps|)] == Name(ds[k - |ps|].gname);
      }
    }
    forall n | exists j :: 0 <= j < |ds| && ds[j].gname == n
      ensures Name(n) in r
    {
      var j :| 0 <= j < |ds| && ds[j].gname == n;
      assert r[|ps| + j] == Name(n);
    }
  }

  /** With two or more detached gramplets, the walk as written leaves the second one detached. */
  lemma AsWrittenLeavesDetached(gs: seq<Gramplet>)
    requires |gs| >= 2
    ensures gs[1] in Odds(gs)
  {
    assert Odds(gs)[0] == gs[1];
  }
}
