# GrampsBar bookkeeping, modelled in Dafny

The Gramps bar (`GrampsBar` in `src/gui/grampsbar.py`) is a GTK notebook
that shows gramplets as tabs. Underneath the widgets it does three pieces of
bookkeeping, and this project models and proves all three.

- **Loading the configuration (`__load`).** The file's sections turn into
  the bar settings (visible flag, current page) and one option record per
  gramplet section. The `data[N]` options are gathered into one `data`
  list ordered by N. A record without a `name` gets "Unnamed Gramplet".
  Without a file, the default gramplet names the plugin registry knows are
  used instead. The records are then sorted on their `page` option and
  added as tabs by `__init__`.
- **Saving the configuration (`__save`).** The bar's pages become the lines
  of the file:
  - a "Bar Options" section;
  - then one section per page, holding the registry options overlaid with
    the gramplet's attributes;
  - seven options are never written;
  - a list `data` is written as `data[0]`, `data[1]`, ...;
  - each section ends with `page=<index>`.
- **The page list.** The notebook's pages, the `empty` flag with its
  placeholder label, and the list of detached gramplets are kept consistent
  by these handlers and operations:
  - `__page_added`, `__page_removed`, `__create_empty_tab`, `__add_tab`;
  - `__create_window` (detach) and `__dock_gramplet` (dock);
  - `add_gramplet`, `remove_gramplet`, `has_gramplet`, `all_gramplets`;
  - `on_delete`.

Files:

- `wrappers.dfy`: `Option` and `Result`.
- `py_text.dfy`: Python 2's `str.strip`, `int()` on text, `"%d"`, and `str` ordering.
- `config_data.dfy`: option values, records, sections, output lines, and the registry.
- `sorting.dfy`: the stable sort used for `list.sort` and `sorted`.
- `config_load.dfy`: `__load`, as functions and as the loop methods proved equal to them.
- `config_save.dfy`: `__save`, as functions and as the loop methods proved equal to them.
- `tab_order.dfy`: the sort in `__init__`, as written and corrected.
- `round_trip.dfy`: save, read back, load and sort.
- `pages.dfy`: the list operations on the notebook and on the detached list:
  - `remove_page`;
  - `reorder_child`, with GTK 2's clamping of an out-of-range position to the last page;
  - `page_num`;
  - `list.remove`.
- `grampsbar.dfy`: the class `GrampsBar` with its fields `pages`, `empty`
  and `detached`, and the class `Gramplet`.

Signals run synchronously, as GTK runs them:

- `remove_page` runs the page-removed handler.
- `append_page` runs the page-added handler.
- Closing a detached window reparents the gramplet into the bar. That is
  an `append_page`, so the page-added handler docks the gramplet.

## Model

| member | source | states |
|---|---|---|
| PyText.StripIdempotent | src/gui/grampsbar.py:146-149 | a value stripped on load is unchanged when stripped again |
| PyText.ParseIntToString | src/gui/grampsbar.py:138 | `int()` reads back exactly the number `"%d"` wrote |
| PyText.IntToStringInjective | src/gui/grampsbar.py:206 | `"%d"` writes different texts for different numbers |
| Sorting.SortSorted | src/gui/grampsbar.py:107 | the sort puts a list in order under any total comparison |
| Sorting.SortKeepsSorted | src/gui/grampsbar.py:107 | a list already in order under the key comes back unchanged |
| ConfigData.LastValue | src/gui/grampsbar.py:135-138 | an option's value is that of its last pair, and absent exactly when no pair has the key |
| ConfigData.ToMap | src/gui/grampsbar.py:161 | the dict built from pairs has exactly their keys, each mapped to its last value |
| ConfigLoad.Lookup | src/gui/grampsbar.py:143-146 | `temp[p]` is present exactly when some entry has position p, and then it is that entry's value |
| ConfigLoad.Assign | src/gui/grampsbar.py:146 | `temp[pos] = value` sets that position and leaves every other position as it was |
| ConfigLoad.AssignDistinct | src/gui/grampsbar.py:146 | assigning keeps the positions of `temp` distinct, like dict keys |
| ConfigLoad.SortAscending | src/gui/grampsbar.py:151-152 | `sorted(temp.keys())` is strictly increasing |
| ConfigLoad.ReassembleByKeys | src/gui/grampsbar.py:150-152 | the reassembled list has one item per key of `temp`, the keys strictly increasing, the i-th item stored under the i-th key |
| ConfigLoad.DataEntriesLookup | src/gui/grampsbar.py:142-147 | `temp[p]` is the stripped value of the last `data[p]` option |
| ConfigLoad.DataEntriesDistinct | src/gui/grampsbar.py:142-147 | `temp` never holds a position twice |
| ConfigLoad.FoldFields | src/gui/grampsbar.py:140-149 | the text fields after the options loop: every non-`data` option stripped, the last of a name winning, and `title` defaulting to the section name |
| ConfigLoad.FoldSlot | src/gui/grampsbar.py:142-147 | without a plain `data` option, `data` holds the dict of the `data[N]` options if there is one, and nothing otherwise |
| ConfigLoad.FoldPlainData | src/gui/grampsbar.py:148-149 | a plain `data` option leaves a str under `data` |
| ConfigLoad.FoldSucceeds | src/gui/grampsbar.py:141-149 | the options loop raises nothing when every N parses and no option is plainly `data` |
| ConfigLoad.FoldFailsOnBadIndex | src/gui/grampsbar.py:145 | a `data[N]` whose N is not an integer raises ValueError |
| ConfigLoad.FoldFailurePersists | src/gui/grampsbar.py:141-147 | once an option raises, the loop's result is that exception |
| ConfigLoad.DecodeSucceedsIff | src/gui/grampsbar.py:140-156 | a gramplet section decodes exactly when every `data[N]` has an integer N and no option is plainly `data` (in both directions) |
| ConfigLoad.DecodeTitle | src/gui/grampsbar.py:140 | the record's title is the section name unless a `title` option overrides it |
| ConfigLoad.DecodeOptions | src/gui/grampsbar.py:148-149 | every option other than the `data` ones is kept as its stripped value |
| ConfigLoad.DecodeName | src/gui/grampsbar.py:153-155 | every record has a `name`; without one it gets "Unnamed Gramplet" as `name` and `tname` |
| ConfigLoad.DecodeKeys | src/gui/grampsbar.py:140-155 | a record holds only the title, the section's options, `data` and the fallback name |
| ConfigLoad.DecodeData | src/gui/grampsbar.py:150-152 | `data` is in the record exactly when a `data[N]` option is, and then it is the reassembled dict |
| ConfigLoad.DataReassembly | src/gui/grampsbar.py:142-152 | the `data` list holds, for each N in ascending order, the stripped value of the last `data[N]` option, whatever order the options came in |
| ConfigLoad.AvailableNames | src/gui/grampsbar.py:159-160 | the default names kept are exactly those the registry knows |
| ConfigLoad.AvailableNamesAppend | src/gui/grampsbar.py:159-161 | filtering the defaults keeps their order |
| ConfigLoad.GrampletSections | src/gui/grampsbar.py:134-139 | the gramplet sections are exactly the sections not named "Bar Options" |
| ConfigLoad.LoadFailurePersists | src/gui/grampsbar.py:133-156 | an exception in any section is the result of the whole load |
| ConfigLoad.LoadRecords | src/gui/grampsbar.py:139-156 | one record per gramplet section, in file order, each the decoded section |
| ConfigLoad.LoadBarSettings | src/gui/grampsbar.py:134-138 | visible exactly when the last stored `visible` is "True"; page is the integer of the last stored `page`, and 0 without one |
| ConfigLoad.LoadWithoutBarOptions | src/gui/grampsbar.py:127-128 | without a "Bar Options" section the bar is hidden and on page 0 |
| ConfigLoad.LoadWithoutFile | src/gui/grampsbar.py:157-161 | without a file: hidden, page 0, and one registry record per default name the registry knows, in the defaults' order |
| ConfigLoad.ReadOptions | src/gui/grampsbar.py:141-149 | the options loop computes the specified fold |
| ConfigLoad.ReadOption | src/gui/grampsbar.py:142-149 | one option of a gramplet section is applied as the specified step: a `data[N]` item, or a stripped text field, or the error for an index that is not an integer |
| ConfigLoad.ReadSection | src/gui/grampsbar.py:134-156 | one section is applied as the specified step: the bar's settings, or one more decoded gramplet record |
| ConfigLoad.DecodeGramplet | src/gui/grampsbar.py:140-156 | building one record computes the specified decoding |
| ConfigLoad.ReadSections | src/gui/grampsbar.py:133-156 | the sections loop computes the specified load |
| ConfigLoad.ReadDefaults | src/gui/grampsbar.py:159-161 | the defaults loop computes the specified records |
| ConfigLoad.LoadConfig | src/gui/grampsbar.py:122-162 | `__load` computes the specified load |
| ConfigSave.SaveEmpty | src/gui/grampsbar.py:182-186 | an empty bar writes the "Bar Options" section and no other section |
| ConfigSave.IndexKeyParses | src/gui/grampsbar.py:206 | a written `data[N]` key starts with "data[", and `int(opt[5:-1])` reads N back |
| ConfigSave.IndexKeyInjective | src/gui/grampsbar.py:206 | different items get different keys |
| ConfigSave.IndexKeySaved | src/gui/grampsbar.py:197-199 | a `data[N]` key is never an unsaved option name |
| ConfigSave.OptionLinesKeys | src/gui/grampsbar.py:196-209 | the option lines are entries, none named after an unsaved option; each is a data line or `key=str(value)` of an option |
| ConfigSave.OptionLinesComplete | src/gui/grampsbar.py:196-209 | every option that is saved at all is written: `data` as its data lines, any other as `key=str(value)` |
| ConfigSave.TabLinesShape | src/gui/grampsbar.py:195-211 | a page's section is its title header, option entries, `page=<index>` written once, and an empty line |
| ConfigSave.BaseOptions | src/gui/grampsbar.py:191-194 | `base_opts` is the registry options with each one the gramplet has as an attribute replaced |
| ConfigSave.WriteData | src/gui/grampsbar.py:204-207 | the `cnt` loop writes the specified data lines |
| ConfigSave.WriteOptions | src/gui/grampsbar.py:196-209 | the loop over `base_opts` writes the specified option lines |
| ConfigSave.WriteTab | src/gui/grampsbar.py:189-211 | one page's section, or nothing when the registry does not know its gramplet |
| ConfigSave.WriteTabs | src/gui/grampsbar.py:188-211 | the loop over the pages writes the specified sections |
| ConfigSave.Save | src/gui/grampsbar.py:177-211 | `__save` writes the specified lines |
| TabOrder.ValueLeqTotal | src/gui/grampsbar.py:107 | Python 2 can compare any two option values |
| TabOrder.FirstBadPage | src/gui/grampsbar.py:107 | finds nothing exactly when every page is an integer |
| TabOrder.OrderTabsAsWrittenSorted | src/gui/grampsbar.py:107 | the sort as written fails exactly on a missing `page`; otherwise it is a permutation in ascending order of the page values |
| TabOrder.OrderTabsSorted | src/gui/grampsbar.py:107 | the corrected sort fails exactly on a missing or non-integer `page`; otherwise it is a permutation in ascending order of the page numbers |
| TabOrder.OrderTabsKeepsOrdered | src/gui/grampsbar.py:107 | records already in page order keep that order |
| RoundTrip.SavedTabsIndexed | src/gui/grampsbar.py:188-190 | exactly the pages the registry knows are saved, in notebook order, each with its own index |
| RoundTrip.SavedTabsAll | src/gui/grampsbar.py:188-190 | when the registry knows every page, every page is saved |
| RoundTrip.BarLinesGroup | src/gui/grampsbar.py:177-180 | the "Bar Options" lines read back are one section holding `visible` and `page` |
| RoundTrip.TabLinesGroup | src/gui/grampsbar.py:195-211 | a page's lines read back are its section |
| RoundTrip.TabsLinesSections | src/gui/grampsbar.py:188-211 | the pages' lines read back are the pages' sections, in order |
| RoundTrip.SavedSections | src/gui/grampsbar.py:177-211 | the saved file read back is the "Bar Options" section, then the pages' sections |
| RoundTrip.DataLinesKeys | src/gui/grampsbar.py:200-207 | every written data key is a `data[N]` key whose N parses |
| RoundTrip.IndexKeyRead | src/gui/grampsbar.py:145 | the load reads the position that `data[N]` was written with |
| RoundTrip.DataLinesEntries | src/gui/grampsbar.py:200-207 | reading the written data lines gives `temp` with the stripped items by position |
| RoundTrip.OptionLinesEntries | src/gui/grampsbar.py:196-209 | reading all the option lines gives `temp` with the `data` option's items |
| RoundTrip.ReassembleNumbered | src/gui/grampsbar.py:150-152 | items numbered 0, 1, ... are reassembled in that order |
| RoundTrip.OverlayPlain | src/gui/grampsbar.py:191-194 | the attribute overlay keeps the option names |
| RoundTrip.OptionPairKey | src/gui/grampsbar.py:196-209 | a written option key is never `data`, never unsaved, and a `data[N]` key parses |
| RoundTrip.IndexEntriesIff | src/gui/grampsbar.py:142-150 | when every index parses, `temp` is empty exactly when no `data[N]` option is present |
| RoundTrip.TabSectionLoads | src/gui/grampsbar.py:140-156 | a saved page's section loads without an exception |
| RoundTrip.TabSectionTitlePage | src/gui/grampsbar.py:195-210 | the loaded page keeps its title, and its `page` is its notebook index |
| RoundTrip.TabSectionData | src/gui/grampsbar.py:200-207 | the loaded page's `data` list is the saved one, item by item, up to stripping |
| RoundTrip.TabSectionReloaded | src/gui/grampsbar.py:140-156 | a saved page comes back with its title, its index and its `data` list |
| RoundTrip.LoadBarSection | src/gui/grampsbar.py:177-179 | the written "Bar Options" section gives back the visible flag and the current page |
| RoundTrip.LoadSavedTabs | src/gui/grampsbar.py:133-156 | loading the saved sections gives the settings and one record per page section |
| RoundTrip.InPageOrder | src/gui/grampsbar.py:107 | records whose pages are increasing integers are already in tab order |
| RoundTrip.ReloadedRecords | src/gui/grampsbar.py:133-156 | the records loaded from the pages' sections are the saved pages, in order |
| RoundTrip.SaveLoadRoundTrip | src/gui/grampsbar.py:107-112 | save, then load: the settings come back, and each saved page comes back once, in notebook order, with title, index and `data`; the corrected sort keeps that order |
| RoundTrip.AsWrittenLosesOrder | src/gui/grampsbar.py:107 | with 11 or more pages, the sort as written does not give back the saved order |
| PageList.RemoveAt | src/gui/grampsbar.py:387 | `remove_page` keeps the other pages in order |
| PageList.Clamp | src/gui/grampsbar.py:397 | `reorder_child`'s target is the position when that is in range, and the last page otherwise |
| PageList.IndexOf | src/gui/grampsbar.py:411 | `page_num` gives the first index holding the page, or -1 exactly when it is absent |
| PageList.MoveToPlaces | src/gui/grampsbar.py:397 | `reorder_child` puts the page at the clamped position and leaves the others in order: a permutation |
| PageList.DetachDock | src/gui/grampsbar.py:411-412 | a page taken out, appended again and moved back to its recorded index gives the original list |
| PageList.DockUndock | src/gui/grampsbar.py:270-271 | appending a page, moving it, and removing it again gives back the list |
| PageList.DistinctRemoveAt | src/gui/grampsbar.py:387 | removing a page from a list without repeats removes exactly that page |
| PageList.DistinctMoveTo | src/gui/grampsbar.py:397 | reordering keeps the same pages, without repeats |
| PageList.RemoveFirstGone | src/gui/grampsbar.py:396 | `list.remove` on a list without repeats removes exactly that element |
| PageList.WalkedLength | src/gui/grampsbar.py:239 | a walk that removes each element it visits stops with the odd-position elements left |
| PageList.WalkedStep | src/gui/grampsbar.py:239 | removing the element at the walk's index advances the walk one step |
| PageList.WalkedIndex | src/gui/grampsbar.py:239 | the element the walk visits at its index is the next one at an even position |
| PageList.WalkedEnd | src/gui/grampsbar.py:239 | the walk stops exactly after the even positions, leaving the odd-position elements |
| PageList.EvensOdds | src/gui/grampsbar.py:239 | every element of a list sits at an even or an odd position |
| PageList.EvensOddsApart | src/gui/grampsbar.py:239 | in a list without repeats no element sits at both an even and an odd position |
| PageList.MoveToMembers | src/gui/grampsbar.py:397 | moving a page to another index keeps the same pages |
| GrampsBarState.TabsOf | src/gui/grampsbar.py:185-186 | the save sees each gramplet page's name, title and attributes, in notebook order |
| GrampsBarState.FirstNamed | src/gui/grampsbar.py:268-269 | the first detached gramplet with the name, or -1 exactly when there is none |
| GrampsBarState.FirstPageNamed | src/gui/grampsbar.py:274-276 | the first gramplet page with the name, or -1 exactly when there is none |
| GrampsBarState.GrampsBar.constructor | src/gui/grampsbar.py:107-116 | the gramplets become the pages in the given order; with none, the bar is empty and shows the placeholder |
| GrampsBarState.GrampsBar.PageRemoved | src/gui/grampsbar.py:399-405 | a notebook left without pages becomes empty with one placeholder page; otherwise nothing changes |
| GrampsBarState.GrampsBar.CreateEmptyTab | src/gui/grampsbar.py:296-306 | the placeholder is the only page and stays there |
| GrampsBarState.GrampsBar.RemovePage | src/gui/grampsbar.py:387 | the page is removed; removing the last page leaves the placeholder and `empty` |
| GrampsBarState.GrampsBar.PageAdded | src/gui/grampsbar.py:380-397 | in an empty bar a gramplet first replaces the placeholder, and any other page changes nothing; a returning gramplet leaves the detached list and moves to its recorded index |
| GrampsBarState.GrampsBar.AddTab | src/gui/grampsbar.py:323-329 | the gramplet is appended (replacing the placeholder), and docked to its index if it was detached |
| GrampsBarState.GrampsBar.Dock | src/gui/grampsbar.py:417-422 | the gramplet leaves the detached list and returns to its recorded index; no other page is lost |
| GrampsBarState.GrampsBar.Detach | src/gui/grampsbar.py:407-415 | the gramplet's index is recorded, it is appended to the detached list, and its page leaves the notebook |
| GrampsBarState.GrampsBar.AllGramplets | src/gui/grampsbar.py:286-294 | an empty bar lists the detached gramplet objects, in order, and no names; otherwise the page names in notebook order followed by the detached gramplets' names in list order, so a name is listed exactly when a page or detached gramplet has it |
| GrampsBarState.GrampsBar.HasGramplet | src/gui/grampsbar.py:280-284 | a name is found exactly when the bar is not empty and a page or detached gramplet has it |
| GrampsBarState.GrampsBar.AddGramplet | src/gui/grampsbar.py:248-262 | a name already listed, or no gramplet made, changes nothing; otherwise the new page is appended and the name is listed |
| GrampsBarState.GrampsBar.RemoveGramplet | src/gui/grampsbar.py:264-278 | a detached gramplet of the name is docked and its page removed; else the first page of the name is removed; at most one page goes; every outcome is characterised in both directions |
| GrampsBarState.GrampsBar.DockAndRemove | src/gui/grampsbar.py:268-272 | docking then removing leaves the pages as they were and takes the gramplet off the detached list |
| GrampsBarState.GrampsBar.SaveConfig | src/gui/grampsbar.py:182-211 | the save writes the lines specified for the current pages; an empty bar saves none |
| GrampsBarState.GrampsBar.DockAllAsWritten | src/gui/grampsbar.py:239 | the map as written leaves exactly the gramplets at odd positions detached; the pages become the old pages with the even-position gramplets docked one after the other, each moved to its recorded index; a gramplet is a page afterwards exactly when it was one before or sat at an even position |
| GrampsBarState.GrampsBar.WalkDetached | src/gui/grampsbar.py:239 | the map's walk over the shrinking list stops once its index passes the list's end, with the walk state kept |
| GrampsBarState.GrampsBar.DockWalked | src/gui/grampsbar.py:239 | one step of that map: the gramplet at the running index (the next one at an even position of the original list) is docked onto the pages so far, and the walk state is kept |
| GrampsBarState.GrampsBar.DockOnto | src/gui/grampsbar.py:417-422 | docking one more gramplet extends the pages by one step of the docking fold and takes it off the detached list |
| GrampsBarState.GrampsBar.DockAll | src/gui/grampsbar.py:239 | docking every detached gramplet empties the detached list; the pages become the old pages with every detached gramplet docked in list order, each moved to its recorded index; a gramplet is a page afterwards exactly when it was one before or was detached |
| GrampsBarState.GrampsBar.DockNext | src/gui/grampsbar.py:239 | one step of the corrected loop docks the next gramplet of the copied list onto the pages so far |
| GrampsBarState.GrampsBar.OnDelete | src/gui/grampsbar.py:235-246 | on_delete corrected: every detached gramplet is docked (the exact pages as for DockAll), then the save writes the lines specified for those pages |
| GrampsBarState.GrampsBar.OnDeleteAsWritten | src/gui/grampsbar.py:235-246 | on_delete as written: the gramplets at odd positions stay detached and have no page, so the save writes no section for them; those at even positions become pages |
| GrampsBarState.DockedOntoPages | src/gui/grampsbar.py:417-422 | docking a list of gramplets keeps every page there was and adds a page for each gramplet and nothing else |
| GrampsBarState.DockedEnd | src/gui/grampsbar.py:239 | when the corrected loop ends, the pages are the full docking fold and hold exactly the old pages plus the docked gramplets |
| GrampsBarState.WalkFinished | src/gui/grampsbar.py:239 | when the map's walk ends, the odd-position gramplets are left detached and the pages are the docking fold of the even-position ones, holding exactly the old pages plus those |
| GrampsBarState.NamesListed | src/gui/grampsbar.py:293-294 | the comprehension over pages plus detached gramplets holds exactly their names |
| GrampsBarState.AsWrittenLeavesDetached | src/gui/grampsbar.py:239 | with two or more detached gramplets, the second stays detached |

## Left out

- The GTK widgets are not modelled:
  - tab labels and close buttons;
  - size requests;
  - `set_group_id` and the scrollable and border settings;
  - `show` and `set_current_page`;
  - the `switch-page` and `button-press` handlers;
  - `__add_clicked` and the chooser dialog;
  - `__delete_clicked`;
  - `DetachedWindow`'s size bookkeeping and help.

  They change no bookkeeping state.
- The return value of `__add_tab` (the page index `append_page` gives) is not modelled. Its only use is `set_current_page`, which is left out.
- `set_active`, `set_inactive`, `__switch_page` and `on_delete`'s `pui.on_save()` calls are not modelled. They run plugin code that is not visible here.
- File I/O is not modelled:
  - `os.path.exists`;
  - the `IOError` path of the save;
  - the two comment lines with the time stamp.

  The load starts from parsed sections (a missing file is `None`), and the save ends at a sequence of lines.
- ConfigParser's text parsing is not modelled:
  - option names are lowercased;
  - sections of the same name are merged;
  - `%` interpolation;
  - `]` inside a section name.

  For the round trip, the written lines are read back by grouping entries under their headers.
- The plugin registry is modelled as a parameter, a map from gramplet name to its option pairs:
  - `AVAILABLE_GRAMPLETS`, `GET_AVAILABLE_GRAMPLETS` and `get_gramplet_options_by_name` look names up in it;
  - `get_gramplet_opts` is not modelled;
  - `make_requested_gramplet` is the gramplet (or null) passed to `AddGramplet`, and the constructor takes the gramplets already made.
- `gettext` translation of "Unnamed Gramplet" is not modelled; the untranslated text is used.
- Option values are modelled as text, integer or list of strings:
  - booleans, floats and `None` from the registry are represented by their `str()`;
  - `str()` of a list is approximated by quoting each item without escaping;
  - the `L` suffix of long integers is not modelled.
- A gramplet's attributes (`gramplet.__dict__`) are modelled as a constant map. Changing them is done by plugin code that is not visible here.
- RoundTrip.SaveLoadRoundTrip: stated only for registry options that form a dict without `data[...]` keys, and for page titles other than "Bar Options" (the predicate `Saveable`). A page titled "Bar Options" would be read back as the bar's settings. A registry option named `data[...]` would be read back as a data item.
- RoundTrip.SaveLoadRoundTrip: `Saveable` does not exclude three cases where ConfigParser reads the file differently from the grouping the model uses, so the round trip is not promised for them:
  - a page titled "DEFAULT": ConfigParser keeps that section's options as defaults for every section instead of as a section;
  - a value containing a semicolon after whitespace: ConfigParser cuts it there as an inline comment;
  - a value containing a line break: the rest of the value is read as a continuation or as another option.
- RoundTrip.SaveLoadRoundTrip: states that `data` comes back up to whitespace stripping, not exactly. The load strips every value.
- ConfigSave.Str: a tuple value is written like a list, `[...]`, where Python's `str()` writes `(...)`; option values are modelled with one kind of sequence.
- Sorting.SortKeepsSorted: states only that a list already in order is unchanged; the stability of the sort on lists with equal keys out of order is not stated.
- GrampsBarState.GrampsBar.PageAdded: requires that a gramplet page arriving in an empty bar is not at index 0, and that a page added to a bar that is not empty is a gramplet. Both always hold: the page is appended after the placeholder, and only `__create_empty_tab` adds a page that is not a gramplet, and only to a bar without pages.

## Findings

| source | as written | input that shows it | evidently intended | confidence | as-written member | corrected member |
|---|---|---|---|---|---|---|
| src/gui/grampsbar.py:107 | `opts_list.sort(key=lambda opt: opt["page"])` sorts on the page text read from the file, so the order is lexicographic | a bar saved with 11 pages: on reload `"10"` sorts before `"2"` and `"9"`, so the 11th tab comes back in the 3rd place | sort on `int(opt["page"])`, so the saved notebook order is restored | high; not executed | RoundTrip.AsWrittenLosesOrder | RoundTrip.SaveLoadRoundTrip |
| src/gui/grampsbar.py:239 | `map(self.__dock_gramplet, self.detached_gramplets)` walks the list that each dock shrinks, so it skips every other gramplet | two detached gramplets when the view closes: the first is docked, the second stays detached and is not saved | dock every detached gramplet before the save (iterate over a copy) | high; not executed | GrampsBarState.GrampsBar.OnDeleteAsWritten | GrampsBarState.GrampsBar.OnDelete |
