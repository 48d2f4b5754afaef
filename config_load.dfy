/**
 * Loading the bar configuration (`GrampsBar.__load`): the parsed sections of
 * the configuration file become the bar settings and one option record per
 * gramplet section; without a file, the registry's records for the default
 * gramplets are used.
 */
module ConfigLoad {
  import opened Wrappers
  import opened PyText
  import opened ConfigData
  import opened Sorting

  /** The exceptions `__load` lets escape. */
  datatype LoadError =
    | NotAnInteger(text: string)  // ValueError from int()
    | DataIsText                  // TypeError: item assignment into the str stored under "data"
    | DataHasNoKeys               // AttributeError: .keys() of the str stored under "data"

  const UnnamedGramplet := "Unnamed Gramplet"

  /** `opt.startswith("data[")` */
  predicate IsIndexKey(key: string) {
    |key| >= 5 && key[..5] == "data["
  }

  /** `opt[5:-1]` for a key starting with "data[" */
  function IndexText(key: string): string
    requires IsIndexKey(key)
  {
    if |key| > 5 then key[5..|key| - 1] else ""
  }

  /** `int(opt[5:-1])` */
  function ParsedIndex(key: string): Option<int>
    requires IsIndexKey(key)
  {
    ParseInt(IndexText(key))
  }

  /**
   * What the record under construction holds at key "data": nothing, a str, or
   * the dict `temp` by position, given as its (position, value) entries.
   */
  datatype DataSlot = NoData | DataText(text: string) | DataDict(entries: seq<(int, string)>)

  /** The record `data` while its section's options are read: the text fields and the "data" slot. */
  datatype Draft = Draft(fields: map<string, string>, slot: DataSlot)

  function StartDraft(name: string): Draft {
    Draft(map["title" := name], NoData)
  }

  predicate DistinctPositions(es: seq<(int, string)>) {
    forall i, j :: 0 <= i < j < |es| ==> es[i].0 != es[j].0
  }

  /** `temp[p]`, or None when `p not in temp` */
  function Lookup(es: seq<(int, string)>, p: int): (r: Option<string>)
    ensures r.Some? <==> exists i :: 0 <= i < |es| && es[i].0 == p
    ensures r.Some? ==> exists i :: 0 <= i < |es| && es[i] == (p, r.value)
  {
    if es == [] then None
    else if es[0].0 == p then Some(es[0].1)
    else
      var r := Lookup(es[1..], p);
      assert forall i :: 1 <= i < |es| ==> es[i] == es[1..][i - 1];
      r
  }

  /** `temp[pos] = value`: replaces the entry at `pos`, or adds one. */
  function Assign(es: seq<(int, string)>, pos: int, value: string): (r: seq<(int, string)>)
    ensures Lookup(r, pos) == Some(value)
    ensures forall p :: p != pos ==> Lookup(r, p) == Lookup(es, p)
  {
    if es == [] then [(pos, value)]
    else if es[0].0 == pos then [(pos, value)] + es[1..]
    else
      var r := [es[0]] + Assign(es[1..], pos, value);
      assert r[1..] == Assign(es[1..], pos, value);
      r
  }

  /** Assigning keeps the positions of `temp` distinct, as the keys of a dict are. */
  lemma {:induction false} AssignDistinct(es: seq<(int, string)>, pos: int, value: string)
    requires DistinctPositions(es)
    ensures DistinctPositions(Assign(es, pos, value))
  {
    if es != [] && es[0].0 != pos {
      var tail := Assign(es[1..], pos, value);
      assert DistinctPositions(es[1..]);
      AssignDistinct(es[1..], pos, value);
      var r := [es[0]] + tail;
      forall i | 0 < i < |r| ensures r[i].0 != es[0].0 {
        var e := r[i];
        assert e == tail[i - 1];
        if e.0 != pos {
          assert Lookup(tail, e.0) == Lookup(es[1..], e.0);
          assert Lookup(tail, e.0).Some?;
        }
      }
    }
  }

  /** One iteration of the loop over the options of a gramplet section. */
  function Step(d: Draft, opt: (string, string)): Result<Draft, LoadError> {
    var value := Strip(opt.1);
    if IsIndexKey(opt.0) then
      match ParsedIndex(opt.0)
      case None => Failure(NotAnInteger(IndexText(opt.0)))
      case Some(pos) =>
        match d.slot
        case DataText(_) => Failure(DataIsText)
        case NoData => Success(d.(slot := DataDict(Assign([], pos, value))))
        case DataDict(es) => Success(d.(slot := DataDict(Assign(es, pos, value))))
    else if opt.0 == "data" then Success(d.(slot := DataText(value)))
    else Success(d.(fields := d.fields[opt.0 := value]))
  }

  /** The options read in order, stopping at the first exception. */
  function Fold(d: Draft, opts: seq<(string, string)>): Result<Draft, LoadError> {
    if opts == [] then Success(d)
    else
      var before :- Fold(d, opts[..|opts| - 1]);
      Step(before, opts[|opts| - 1])
  }

  /** Ascending by position. */
  function ByPosition(a: (int, string), b: (int, string)): bool {
    a.0 <= b.0
  }

  /** `[temp[key] for key in sorted(temp.keys())]` */
  function Reassemble(es: seq<(int, string)>): seq<string> {
    var sorted := SortBy(es, ByPosition);
    seq(|sorted|, i requires 0 <= i < |sorted| => sorted[i].1)
  }

  /** `sorted(temp.keys())` */
  function SortedPositions(es: seq<(int, string)>): seq<int> {
    var sorted := SortBy(es, ByPosition);
    seq(|sorted|, i requires 0 <= i < |sorted| => sorted[i].0)
  }

  /** Strictly increasing positions. */
  predicate Ascending(es: seq<(int, string)>) {
    forall i, j :: 0 <= i < j < |es| ==> es[i].0 < es[j].0
  }

  lemma {:induction false} InsertAscending(x: (int, string), es: seq<(int, string)>)
    requires Ascending(es)
    requires forall e | e in es :: e.0 != x.0
    ensures Ascending(Insert(x, es, ByPosition))
  {
    if es != [] && !ByPosition(x, es[0]) {
      var tail := es[1..];
      var t := Insert(x, tail, ByPosition);
      assert Ascending(tail);
      InsertAscending(x, tail);
      assert Insert(x, es, ByPosition) == [es[0]] + t;
      forall e | e in t ensures es[0].0 < e.0 {
        InsertMembers(x, tail, e);
        if e != x {
          var j :| 0 <= j < |tail| && tail[j] == e;
          assert es[j + 1] == e;
        }
      }
      AscendingCons(es[0], t);
    }
  }

  lemma InsertMembers(x: (int, string), xs: seq<(int, string)>, e: (int, string))
    ensures e in Insert(x, xs, ByPosition) <==> e in xs || e == x
  {
    var r := Insert(x, xs, ByPosition);
    assert e in r <==> e in multiset(r);
    assert e in xs <==> e in multiset(xs);
  }

  lemma AscendingCons(h: (int, string), t: seq<(int, string)>)
    requires Ascending(t) && forall e | e in t :: h.0 < e.0
    ensures Ascending([h] + t)
  {
    var r := [h] + t;
    forall i, j | 0 <= i < j < |r| ensures r[i].0 < r[j].0 {
      assert r[j] == t[j - 1];
      if i > 0 {
        assert r[i] == t[i - 1];
      }
    }
  }

  /** Sorting entries with distinct positions puts them in strictly increasing order. */
  lemma {:induction false} SortAscending(es: seq<(int, string)>)
    requires DistinctPositions(es)
    ensures Ascending(SortBy(es, ByPosition))
  {
    if es != [] {
      var tail := es[1..];
      SortAscending(tail);
      var sorted := SortBy(tail, ByPosition);
      forall e | e in sorted ensures e.0 != es[0].0 {
        assert e in multiset(sorted);
        var j :| 0 <= j < |tail| && tail[j] == e;
        assert es[j + 1] == e;
      }
      InsertAscending(es[0], sorted);
    }
  }

  /**
   * The reassembled list holds the values of `temp` in the order of its keys:
   * the sorted keys are exactly the keys of `temp`, strictly increasing, and
   * the i-th item is the value stored under the i-th key.
   */
  lemma ReassembleByKeys(es: seq<(int, string)>)
    requires DistinctPositions(es)
    ensures var ks := SortedPositions(es);
            |ks| == |es| == |Reassemble(es)|
            && (forall i, j :: 0 <= i < j < |ks| ==> ks[i] < ks[j])
            && (forall p :: p in ks <==> Lookup(es, p).Some?)
            && (forall i :: 0 <= i < |ks| ==> Lookup(es, ks[i]) == Some(Reassemble(es)[i]))
  {
    var ks := SortedPositions(es);
    SortAscending(es);
    assert forall i :: 0 <= i < |ks| ==> ks[i] == SortBy(es, ByPosition)[i].0;
    forall p ensures p in ks <==> Lookup(es, p).Some? {
      SortedKeysAreKeys(es, p);
    }
    forall i | 0 <= i < |ks| ensures Lookup(es, ks[i]) == Some(Reassemble(es)[i]) {
      SortedValueAt(es, i);
    }
  }

  /** Sorting keeps the entries. */
  lemma SortedMembers(es: seq<(int, string)>, e: (int, string))
    ensures e in SortBy(es, ByPosition) <==> e in es
  {
    var sorted := SortBy(es, ByPosition);
    assert e in sorted <==> e in multiset(sorted);
    assert e in es <==> e in multiset(es);
  }

  /** The sorted keys are the keys of `temp`. */
  lemma SortedKeysAreKeys(es: seq<(int, string)>, p: int)
    ensures p in SortedPositions(es) <==> Lookup(es, p).Some?
  {
    var sorted := SortBy(es, ByPosition);
    var ks := SortedPositions(es);
    if p in ks {
      var i :| 0 <= i < |ks| && ks[i] == p;
      SortedMembers(es, sorted[i]);
      var j :| 0 <= j < |es| && es[j] == sorted[i];
      assert es[j].0 == p;
    }
    if Lookup(es, p).Some? {
      var j :| 0 <= j < |es| && es[j].0 == p;
      SortedMembers(es, es[j]);
      var i :| 0 <= i < |sorted| && sorted[i] == es[j];
      assert ks[i] == p;
    }
  }

  /** The i-th reassembled item is the value `temp` holds under the i-th sorted key. */
  lemma SortedValueAt(es: seq<(int, string)>, i: nat)
    requires DistinctPositions(es) && i < |es|
    ensures Lookup(es, SortedPositions(es)[i]) == Some(Reassemble(es)[i])
  {
    var sorted := SortBy(es, ByPosition);
    var k := SortedPositions(es)[i];
    SortedMembers(es, sorted[i]);
    var j :| 0 <= j < |es| && es[j] == sorted[i];
    var w := Lookup(es, k).value;
    var l :| 0 <= l < |es| && es[l] == (k, w);
    assert j == l;
  }

  function TextFields(fields: map<string, string>): Record {
    map k | k in fields :: Text(fields[k])
  }

  /** The "data" list replacing the dict, after the options loop. */
  function WithData(rec: Record, slot: DataSlot): Result<Record, LoadError> {
    match slot
    case NoData => Success(rec)
    case DataText(_) => Failure(DataHasNoKeys)
    case DataDict(m) => Success(rec["data" := Items(Reassemble(m))])
  }

  /** The fallback name of a record without one. */
  function WithName(rec: Record): Record {
    if "name" in rec then rec
    else rec["name" := Text(UnnamedGramplet)]["tname" := Text(UnnamedGramplet)]
  }

  /** The option record of one gramplet section. */
  function DecodeSection(sec: Section): Result<Record, LoadError> {
    var d :- Fold(StartDraft(sec.name), sec.options);
    var rec :- WithData(TextFields(d.fields), d.slot);
    Success(WithName(rec))
  }

  // ---------------------------------------------------------------------------
  // What decoding a gramplet section yields, stated over its options.
  // ---------------------------------------------------------------------------

  /** Some option of the section is a `data[N]` option. */
  predicate HasIndexKey(opts: seq<(string, string)>) {
    exists i :: 0 <= i < |opts| && IsIndexKey(opts[i].0)
  }

  /** Some option of the section is called plainly `data`. */
  predicate HasPlainData(opts: seq<(string, string)>) {
    exists i :: 0 <= i < |opts| && opts[i].0 == "data"
  }

  /** Every `data[N]` option has an N that `int()` accepts. */
  predicate IndicesParse(opts: seq<(string, string)>) {
    forall i :: 0 <= i < |opts| && IsIndexKey(opts[i].0) ==> ParsedIndex(opts[i].0).Some?
  }

  /** The stripped value of the last `data[N]` option whose N is `p`. */
  function ValueAt(opts: seq<(string, string)>, p: int): Option<string> {
    if opts == [] then None
    else
      var (k, v) := opts[|opts| - 1];
      if IsIndexKey(k) && ParsedIndex(k) == Some(p) then Some(Strip(v))
      else ValueAt(opts[..|opts| - 1], p)
  }

  /** The dict `temp` as the `data[N]` options of the section leave it. */
  function DataEntries(opts: seq<(string, string)>): seq<(int, string)> {
    if opts == [] then []
    else
      var before := DataEntries(opts[..|opts| - 1]);
      var (k, v) := opts[|opts| - 1];
      if IsIndexKey(k) && ParsedIndex(k).Some? then Assign(before, ParsedIndex(k).value, Strip(v))
      else before
  }

  /** The value of a section option as the record keeps it: stripped; the title defaults to the section name. */
  function FieldText(name: string, opts: seq<(string, string)>, key: string): string {
    match LastValue(opts, key)
    case Some(v) => Strip(v)
    case None => name
  }

  /** `temp[p]` is the stripped value of the last `data[p]` option. */
  lemma {:induction false} DataEntriesLookup(opts: seq<(string, string)>, p: int)
    ensures Lookup(DataEntries(opts), p) == ValueAt(opts, p)
  {
    if opts != [] {
      DataEntriesLookup(opts[..|opts| - 1], p);
    }
  }

  /** The positions of `temp` are distinct, as the keys of a dict are. */
  lemma {:induction false} DataEntriesDistinct(opts: seq<(string, string)>)
    ensures DistinctPositions(DataEntries(opts))
  {
    if opts != [] {
      var before := DataEntries(opts[..|opts| - 1]);
      DataEntriesDistinct(opts[..|opts| - 1]);
      var (k, v) := opts[|opts| - 1];
      if IsIndexKey(k) && ParsedIndex(k).Some? {
        AssignDistinct(before, ParsedIndex(k).value, Strip(v));
      }
    }
  }

  lemma {:induction false} NoIndexKeyNoEntries(opts: seq<(string, string)>)
    requires !HasIndexKey(opts)
    ensures DataEntries(opts) == []
  {
    if opts != [] {
      var prefix := opts[..|opts| - 1];
      assert !HasIndexKey(prefix) by {
        forall i | 0 <= i < |prefix| ensures !IsIndexKey(prefix[i].0) {
          assert prefix[i] == opts[i];
        }
      }
      NoIndexKeyNoEntries(prefix);
    }
  }

  lemma TitleIsPlain()
    ensures !IsIndexKey("title") && "title" != "data"
  {
    assert "title"[..5][0] != "data["[0];
  }

  /** One option changes the text fields only when it is not a `data` option. */
  lemma StepFields(b: Draft, opt: (string, string), d: Draft)
    requires Step(b, opt) == Success(d)
    ensures d.fields == if IsIndexKey(opt.0) || opt.0 == "data" then b.fields else b.fields[opt.0 := Strip(opt.1)]
  {
    if IsIndexKey(opt.0) {
      match b.slot
      case NoData =>
      case DataText(_) =>
      case DataDict(_) =>
    }
  }

  /** What the options loop leaves in the text field `k`. */
  lemma {:induction false} FoldField(name: string, opts: seq<(string, string)>, d: Draft, k: string)
    requires Fold(StartDraft(name), opts) == Success(d)
    ensures k in d.fields ==> !IsIndexKey(k) && k != "data"
    ensures !IsIndexKey(k) && k != "data" ==> (k in d.fields <==> k == "title" || LastValue(opts, k).Some?)
    ensures k in d.fields ==> d.fields[k] == FieldText(name, opts, k)
  {
    TitleIsPlain();
    if opts != [] {
      var prefix := opts[..|opts| - 1];
      var b := Fold(StartDraft(name), prefix).value;
      FoldField(name, prefix, b, k);
      var (k0, v0) := opts[|opts| - 1];
      StepFields(b, (k0, v0), d);
      if k0 != k {
        assert LastValue(opts, k) == LastValue(prefix, k);
      }
    }
  }

  /**
   * The text fields after the options loop: every option other than the
   * `data` ones, stripped, the last one of a name winning, and `title`
   * holding the section name unless an option overrides it.
   */
  lemma FoldFields(name: string, opts: seq<(string, string)>, d: Draft)
    requires Fold(StartDraft(name), opts) == Success(d)
    ensures forall k :: k in d.fields ==> !IsIndexKey(k) && k != "data"
    ensures forall k :: !IsIndexKey(k) && k != "data" ==>
              (k in d.fields <==> k == "title" || LastValue(opts, k).Some?)
    ensures forall k :: k in d.fields ==> d.fields[k] == FieldText(name, opts, k)
  {
    forall k {
      FoldField(name, opts, d, k);
    }
  }

  /**
   * Without a plain `data` option, the "data" slot is the dict of the `data[N]`
   * options when there is one, and empty otherwise.
   */
  lemma {:induction false} FoldSlot(name: string, opts: seq<(string, string)>, d: Draft)
    requires Fold(StartDraft(name), opts) == Success(d)
    requires !HasPlainData(opts)
    ensures d.slot == if HasIndexKey(opts) then DataDict(DataEntries(opts)) else NoData
  {
    if opts != [] {
      var prefix := opts[..|opts| - 1];
      var last := opts[|opts| - 1];
      FoldLast(StartDraft(name), opts);
      var b := Fold(StartDraft(name), prefix).value;
      assert !HasPlainData(prefix) by {
        assert forall i :: 0 <= i < |prefix| ==> prefix[i] == opts[i];
      }
      FoldSlot(name, prefix, b);
      StepSlot(b, last, d);
      HasIndexKeySnoc(opts);
      DataEntriesLast(opts);
      if IsIndexKey(last.0) && b.slot.NoData? {
        NoIndexKeyNoEntries(prefix);
      }
    }
  }

  /** A plain `data` option leaves a str in the "data" slot, if the loop gets through. */
  lemma {:induction false} FoldPlainData(name: string, opts: seq<(string, string)>, d: Draft)
    requires Fold(StartDraft(name), opts) == Success(d)
    requires HasPlainData(opts)
    ensures d.slot.DataText?
  {
    var prefix := opts[..|opts| - 1];
    var last := opts[|opts| - 1];
    FoldLast(StartDraft(name), opts);
    var b := Fold(StartDraft(name), prefix).value;
    StepSlot(b, last, d);
    if last.0 != "data" {
      PlainDataBefore(opts);
      FoldPlainData(name, prefix, b);
    }
  }

  /** A plain `data` option that is not the last one is in the options before it. */
  lemma PlainDataBefore(opts: seq<(string, string)>)
    requires HasPlainData(opts) && opts[|opts| - 1].0 != "data"
    ensures HasPlainData(opts[..|opts| - 1])
  {
    var i :| 0 <= i < |opts| && opts[i].0 == "data";
    assert opts[..|opts| - 1][i] == opts[i];
  }

  /** What one option does to the "data" slot. */
  lemma StepSlot(b: Draft, opt: (string, string), d: Draft)
    requires Step(b, opt) == Success(d)
    ensures IsIndexKey(opt.0) ==>
              && ParsedIndex(opt.0).Some? && !b.slot.DataText?
              && d.slot == DataDict(Assign(if b.slot.NoData? then [] else b.slot.entries, ParsedIndex(opt.0).value, Strip(opt.1)))
    ensures !IsIndexKey(opt.0) && opt.0 == "data" ==> d.slot == DataText(Strip(opt.1))
    ensures !IsIndexKey(opt.0) && opt.0 != "data" ==> d.slot == b.slot
  {
    if IsIndexKey(opt.0) {
      match b.slot
      case NoData =>
      case DataText(_) =>
      case DataDict(_) =>
    }
  }

  lemma HasIndexKeySnoc(opts: seq<(string, string)>)
    requires opts != []
    ensures HasIndexKey(opts) <==> HasIndexKey(opts[..|opts| - 1]) || IsIndexKey(opts[|opts| - 1].0)
  {
    var prefix := opts[..|opts| - 1];
    if HasIndexKey(prefix) {
      var i :| 0 <= i < |prefix| && IsIndexKey(prefix[i].0);
      assert prefix[i] == opts[i];
    }
    if HasIndexKey(opts) && !IsIndexKey(opts[|opts| - 1].0) {
      var i :| 0 <= i < |opts| && IsIndexKey(opts[i].0);
      assert prefix[i] == opts[i];
    }
  }

  lemma DataEntriesLast(opts: seq<(string, string)>)
    requires opts != []
    ensures var (k, v) := opts[|opts| - 1];
            DataEntries(opts)
            == if IsIndexKey(k) && ParsedIndex(k).Some? then Assign(DataEntries(opts[..|opts| - 1]), ParsedIndex(k).value, Strip(v))
               else DataEntries(opts[..|opts| - 1])
  {
  }

  /** The loop gets through when every index parses and no option is plainly `data`. */
  lemma {:induction false} FoldSucceeds(name: string, opts: seq<(string, string)>)
    requires IndicesParse(opts) && !HasPlainData(opts)
    ensures Fold(StartDraft(name), opts).Success?
  {
    if opts != [] {
      var prefix := opts[..|opts| - 1];
      assert forall i :: 0 <= i < |prefix| ==> prefix[i] == opts[i];
      FoldSucceeds(name, prefix);
      FoldSlot(name, prefix, Fold(StartDraft(name), prefix).value);
    }
  }

  /** A `data[N]` option whose N is not an integer raises. */
  lemma {:induction false} FoldFailsOnBadIndex(name: string, opts: seq<(string, string)>)
    requires !IndicesParse(opts)
    ensures Fold(StartDraft(name), opts).Failure?
  {
    var prefix := opts[..|opts| - 1];
    var last := opts[|opts| - 1];
    FoldLast(StartDraft(name), opts);
    if IsIndexKey(last.0) && ParsedIndex(last.0).None? {
      if Fold(StartDraft(name), prefix).Success? {
        StepFailsOnBadIndex(Fold(StartDraft(name), prefix).value, last);
      }
    } else {
      BadIndexBefore(opts);
      FoldFailsOnBadIndex(name, prefix);
    }
  }

  /** A bad index that is not in the last option is in the ones before it. */
  lemma BadIndexBefore(opts: seq<(string, string)>)
    requires !IndicesParse(opts)
    requires !(IsIndexKey(opts[|opts| - 1].0) && ParsedIndex(opts[|opts| - 1].0).None?)
    ensures !IndicesParse(opts[..|opts| - 1])
  {
    var i :| 0 <= i < |opts| && IsIndexKey(opts[i].0) && ParsedIndex(opts[i].0).None?;
    assert i != |opts| - 1;
    BadIndexAt(opts[..|opts| - 1], i, opts[i]);
  }

  /** An option `data[N]` whose N is not an integer, at `i`, fails the check on every index. */
  lemma BadIndexAt(opts: seq<(string, string)>, i: nat, opt: (string, string))
    requires i < |opts| && opts[i] == opt && IsIndexKey(opt.0) && ParsedIndex(opt.0).None?
    ensures !IndicesParse(opts)
  {
  }

  /** The options loop fails when the options before the last one fail, and otherwise applies the last one. */
  lemma FoldLast(d: Draft, opts: seq<(string, string)>)
    requires opts != []
    ensures Fold(d, opts[..|opts| - 1]).Failure? ==> Fold(d, opts).Failure?
    ensures Fold(d, opts[..|opts| - 1]).Success? ==>
              Fold(d, opts) == Step(Fold(d, opts[..|opts| - 1]).value, opts[|opts| - 1])
  {
  }

  /** An option `data[N]` whose N is not an integer raises, whatever the draft holds. */
  lemma StepFailsOnBadIndex(b: Draft, opt: (string, string))
    requires IsIndexKey(opt.0) && ParsedIndex(opt.0).None?
    ensures Step(b, opt) == Failure(NotAnInteger(IndexText(opt.0)))
  {
  }

  /**
   * A gramplet section decodes without an exception exactly when every
   * `data[N]` option has an integer N and no option is plainly `data`.
   */
  lemma DecodeSucceedsIff(sec: Section)
    ensures DecodeSection(sec).Success? <==> IndicesParse(sec.options) && !HasPlainData(sec.options)
  {
    var f := Fold(StartDraft(sec.name), sec.options);
    if IndicesParse(sec.options) && !HasPlainData(sec.options) {
      FoldSucceeds(sec.name, sec.options);
      FoldSlot(sec.name, sec.options, f.value);
    } else if !IndicesParse(sec.options) {
      FoldFailsOnBadIndex(sec.name, sec.options);
    } else if f.Success? {
      FoldPlainData(sec.name, sec.options, f.value);
    }
  }

  /** The decoded record is the text fields, with the reassembled data, with the fallback name. */
  lemma DecodeParts(sec: Section, rec: Record)
    requires DecodeSection(sec) == Success(rec)
    ensures Fold(StartDraft(sec.name), sec.options).Success?
    ensures var d := Fold(StartDraft(sec.name), sec.options).value;
            WithData(TextFields(d.fields), d.slot).Success? &&
            rec == WithName(WithData(TextFields(d.fields), d.slot).value)
  {
  }

  /** What the record built from the text fields and the "data" slot holds. */
  lemma RecordFromDraft(fields: map<string, string>, slot: DataSlot, rec: Record)
    requires "data" !in fields
    requires WithData(TextFields(fields), slot).Success?
    requires rec == WithName(WithData(TextFields(fields), slot).value)
    ensures forall k :: k in fields && (k != "tname" || "name" in fields) ==> k in rec && rec[k] == Text(fields[k])
    ensures "name" in rec
    ensures "name" !in fields ==> "tname" in rec && rec["name"] == Text(UnnamedGramplet) && rec["tname"] == Text(UnnamedGramplet)
    ensures forall k :: k in rec ==> k in fields || k == "data" || k == "name" || k == "tname"
  {
  }

  /** The record's title is the section name unless a `title` option overrides it. */
  lemma DecodeTitle(sec: Section, rec: Record)
    requires DecodeSection(sec) == Success(rec)
    ensures "title" in rec && rec["title"] == Text(FieldText(sec.name, sec.options, "title"))
  {
    DecodeParts(sec, rec);
    var d := Fold(StartDraft(sec.name), sec.options).value;
    FoldField(sec.name, sec.options, d, "title");
    FoldField(sec.name, sec.options, d, "data");
    TitleIsPlain();
    RecordFromDraft(d.fields, d.slot, rec);
  }

  /**
   * Every option other than the `data` ones is kept as its stripped value
   * (`tname` only when the section has a `name`).
   */
  lemma DecodeOptions(sec: Section, rec: Record)
    requires DecodeSection(sec) == Success(rec)
    ensures forall k :: k != "data" && !IsIndexKey(k) && (k != "tname" || LastValue(sec.options, "name").Some?)
                        && LastValue(sec.options, k).Some? ==>
              k in rec && rec[k] == Text(Strip(LastValue(sec.options, k).value))
  {
    DecodeParts(sec, rec);
    var d := Fold(StartDraft(sec.name), sec.options).value;
    FoldFields(sec.name, sec.options, d);
    RecordFromDraft(d.fields, d.slot, rec);
  }

  /** A record without a `name` gets "Unnamed Gramplet" as its `name` and `tname`. */
  lemma DecodeName(sec: Section, rec: Record)
    requires DecodeSection(sec) == Success(rec)
    ensures "name" in rec
    ensures LastValue(sec.options, "name").None? ==>
              "tname" in rec && rec["name"] == Text(UnnamedGramplet) && rec["tname"] == Text(UnnamedGramplet)
  {
    DecodeParts(sec, rec);
    FoldFields(sec.name, sec.options, Fold(StartDraft(sec.name), sec.options).value);
  }

  /** The record holds nothing but the title, the options, the data and the fallback name. */
  lemma DecodeKeys(sec: Section, rec: Record)
    requires DecodeSection(sec) == Success(rec)
    ensures forall k :: k in rec ==>
              k == "title" || k == "data" || k == "name" || k == "tname" || (!IsIndexKey(k) && LastValue(sec.options, k).Some?)
  {
    DecodeParts(sec, rec);
    FoldFields(sec.name, sec.options, Fold(StartDraft(sec.name), sec.options).value);
  }

  /** `data` is in the record exactly when a `data[N]` option is, holding the reassembled dict. */
  lemma DecodeData(sec: Section, rec: Record)
    requires DecodeSection(sec) == Success(rec)
    ensures "data" in rec <==> HasIndexKey(sec.options)
    ensures "data" in rec ==> rec["data"] == Items(Reassemble(DataEntries(sec.options)))
  {
    DecodeParts(sec, rec);
    var d := Fold(StartDraft(sec.name), sec.options).value;
    DecodeSucceedsIff(sec);
    FoldFields(sec.name, sec.options, d);
    FoldSlot(sec.name, sec.options, d);
  }

  /**
   * The `data` list of a loaded record: the integers N of the section's
   * `data[N]` options in ascending order, each giving the stripped value of
   * its (last) `data[N]` option, whatever order the options came in.
   */
  lemma DataReassembly(sec: Section, rec: Record)
    requires DecodeSection(sec) == Success(rec)
    requires "data" in rec
    ensures var ks := SortedPositions(DataEntries(sec.options));
            && rec["data"].Items?
            && (forall i, j :: 0 <= i < j < |ks| ==> ks[i] < ks[j])
            && (forall p :: p in ks <==> ValueAt(sec.options, p).Some?)
            && |rec["data"].items| == |ks|
            && (forall i :: 0 <= i < |ks| ==> ValueAt(sec.options, ks[i]) == Some(rec["data"].items[i]))
  {
    DecodeData(sec, rec);
    var es := DataEntries(sec.options);
    DataEntriesDistinct(sec.options);
    ReassembleByKeys(es);
    forall p {
      DataEntriesLookup(sec.options, p);
    }
  }

  /** What `__load` returns: `((visible, default_page), retval)`. */
  datatype Loaded = Loaded(visible: bool, page: int, records: seq<Record>)

  /** The "Bar Options" section applied to the settings so far. */
  function BarOptions(acc: Loaded, sec: Section): Result<Loaded, LoadError> {
    var visible := match LastValue(sec.options, "visible")
      case Some(v) => v == "True"
      case None => acc.visible;
    match LastValue(sec.options, "page")
    case None => Success(acc.(visible := visible))
    case Some(p) =>
      match ParseInt(p)
      case None => Failure(NotAnInteger(p))
      case Some(n) => Success(acc.(visible := visible, page := n))
  }

  /** One section of the file applied to the settings and records so far. */
  function AddSection(acc: Loaded, sec: Section): Result<Loaded, LoadError> {
    if sec.name == BarSection then BarOptions(acc, sec)
    else
      var rec :- DecodeSection(sec);
      Success(acc.(records := acc.records + [rec]))
  }

  /** The loop over the sections of an existing configuration file. */
  function LoadSections(secs: seq<Section>): Result<Loaded, LoadError> {
    if secs == [] then Success(Loaded(false, 0, []))
    else
      var acc :- LoadSections(secs[..|secs| - 1]);
      AddSection(acc, secs[|secs| - 1])
  }

  /** The default gramplet names the registry knows, in the defaults' order. */
  function AvailableNames(defaults: seq<string>, registry: Registry): (names: seq<string>)
    ensures forall n :: n in names <==> n in defaults && n in registry
    ensures |names| <= |defaults|
  {
    if defaults == [] then []
    else
      var before := AvailableNames(defaults[..|defaults| - 1], registry);
      var n := defaults[|defaults| - 1];
      assert defaults == defaults[..|defaults| - 1] + [n];
      if n in registry then before + [n] else before
  }

  /** The records `__load` gives when there is no configuration file. */
  function LoadDefaults(defaults: seq<string>, registry: Registry): seq<Record> {
    var names := AvailableNames(defaults, registry);
    seq(|names|, i requires 0 <= i < |names| => ToMap(registry[names[i]]))
  }

  /** `GrampsBar.__load`; `None` stands for a configuration file that does not exist. */
  function Load(file: Option<seq<Section>>, defaults: seq<string>, registry: Registry): Result<Loaded, LoadError> {
    match file
    case Some(secs) => LoadSections(secs)
    case None => Success(Loaded(false, 0, LoadDefaults(defaults, registry)))
  }

  // ---------------------------------------------------------------------------
  // What loading yields, stated over the sections.
  // ---------------------------------------------------------------------------

  /** The gramplet sections of the file, in file order. */
  function GrampletSections(secs: seq<Section>): (r: seq<Section>)
    ensures forall sec :: sec in r <==> sec in secs && sec.name != BarSection
  {
    if secs == [] then []
    else
      var before := GrampletSections(secs[..|secs| - 1]);
      var sec := secs[|secs| - 1];
      assert secs == secs[..|secs| - 1] + [sec];
      if sec.name == BarSection then before else before + [sec]
  }

  /** The value of `key` in the last "Bar Options" section that has the option. */
  function BarSetting(secs: seq<Section>, key: string): Option<string> {
    if secs == [] then None
    else
      var sec := secs[|secs| - 1];
      if sec.name == BarSection && LastValue(sec.options, key).Some? then LastValue(sec.options, key)
      else BarSetting(secs[..|secs| - 1], key)
  }

  lemma LoadSectionsFailsAfter(secs: seq<Section>)
    requires secs != [] && LoadSections(secs[..|secs| - 1]).Failure?
    ensures LoadSections(secs) == Failure(LoadSections(secs[..|secs| - 1]).error)
  {
  }

  /** Loading fails from the first exception on: a failing prefix of the sections decides the result. */
  lemma {:induction false} LoadFailurePersists(secs: seq<Section>, i: nat)
    requires i <= |secs|
    requires LoadSections(secs[..i]).Failure?
    ensures LoadSections(secs) == Failure(LoadSections(secs[..i]).error)
  {
    if i == |secs| {
      assert secs[..i] == secs;
    } else {
      var prefix := secs[..|secs| - 1];
      assert prefix[..i] == secs[..i];
      LoadFailurePersists(prefix, i);
      LoadSectionsFailsAfter(secs);
    }
  }

  /**
   * One record per gramplet section, in file order: the i-th record is the
   * decoded i-th gramplet section.
   */
  lemma {:induction false} LoadRecords(secs: seq<Section>, l: Loaded)
    requires LoadSections(secs) == Success(l)
    ensures |l.records| == |GrampletSections(secs)|
    ensures forall i :: 0 <= i < |l.records| ==> DecodeSection(GrampletSections(secs)[i]) == Success(l.records[i])
  {
    if secs != [] {
      var prefix := secs[..|secs| - 1];
      var last := secs[|secs| - 1];
      LoadSectionsLast(secs);
      var acc := LoadSections(prefix).value;
      LoadRecords(prefix, acc);
      AddSectionEffect(acc, last, l);
      GrampletSectionsLast(secs);
    }
  }

  /** The loop over the sections stops at the first failing one, and otherwise applies the last. */
  lemma LoadSectionsLast(secs: seq<Section>)
    requires secs != []
    ensures LoadSections(secs[..|secs| - 1]).Failure? ==> LoadSections(secs).Failure?
    ensures LoadSections(secs[..|secs| - 1]).Success? ==>
              LoadSections(secs) == AddSection(LoadSections(secs[..|secs| - 1]).value, secs[|secs| - 1])
  {
  }

  lemma GrampletSectionsLast(secs: seq<Section>)
    requires secs != []
    ensures secs[|secs| - 1].name == BarSection ==> GrampletSections(secs) == GrampletSections(secs[..|secs| - 1])
    ensures secs[|secs| - 1].name != BarSection ==>
              GrampletSections(secs) == GrampletSections(secs[..|secs| - 1]) + [secs[|secs| - 1]]
  {
  }

  /** The last section applied to what the sections before it gave. */
  lemma AddSectionEffect(acc: Loaded, sec: Section, l: Loaded)
    requires AddSection(acc, sec) == Success(l)
    ensures sec.name == BarSection ==> BarOptions(acc, sec) == Success(l) && l.records == acc.records
    ensures sec.name != BarSection ==>
              && l.visible == acc.visible && l.page == acc.page
              && DecodeSection(sec).Success? && l.records == acc.records + [DecodeSection(sec).value]
  {
  }

  /**
   * The bar settings: visible exactly when the last stored `visible` is the
   * text "True", and the page is the integer of the last stored `page`;
   * without them, not visible and page 0.
   */
  lemma {:induction false} LoadBarSettings(secs: seq<Section>, l: Loaded)
    requires LoadSections(secs) == Success(l)
    ensures l.visible <==> BarSetting(secs, "visible") == Some("True")
    ensures BarSetting(secs, "page").None? ==> l.page == 0
    ensures BarSetting(secs, "page").Some? ==> ParseInt(BarSetting(secs, "page").value) == Some(l.page)
  {
    if secs != [] {
      var prefix := secs[..|secs| - 1];
      LoadSectionsLast(secs);
      var acc := LoadSections(prefix).value;
      AddSectionEffect(acc, secs[|secs| - 1], l);
      LoadBarSettings(prefix, acc);
    }
  }

  /** Without a "Bar Options" section the bar is hidden and on page 0. */
  lemma {:induction false} LoadWithoutBarOptions(secs: seq<Section>, l: Loaded)
    requires LoadSections(secs) == Success(l)
    requires forall i :: 0 <= i < |secs| ==> secs[i].name != BarSection
    ensures !l.visible && l.page == 0
  {
    LoadBarSettings(secs, l);
    NoBarSetting(secs, "visible");
    NoBarSetting(secs, "page");
  }

  lemma {:induction false} NoBarSetting(secs: seq<Section>, key: string)
    requires forall i :: 0 <= i < |secs| ==> secs[i].name != BarSection
    ensures BarSetting(secs, key).None?
  {
    if secs != [] {
      var prefix := secs[..|secs| - 1];
      assert forall i :: 0 <= i < |prefix| ==> prefix[i] == secs[i];
      NoBarSetting(prefix, key);
    }
  }

  /** Filtering the defaults keeps their order: it distributes over concatenation. */
  lemma {:induction false} AvailableNamesAppend(a: seq<string>, b: seq<string>, registry: Registry)
    ensures AvailableNames(a + b, registry) == AvailableNames(a, registry) + AvailableNames(b, registry)
  {
    if b != [] {
      var b' := b[..|b| - 1];
      assert (a + b)[..|a + b| - 1] == a + b';
      AvailableNamesAppend(a, b', registry);
    } else {
      assert a + b == a;
    }
  }

  /**
   * Without a configuration file: not visible, page 0, and one registry
   * record per default name the registry knows, in the defaults' order.
   */
  lemma LoadWithoutFile(defaults: seq<string>, registry: Registry)
    ensures var r := Load(None, defaults, registry);
            && r.Success? && !r.value.visible && r.value.page == 0
            && |r.value.records| == |AvailableNames(defaults, registry)|
            && (forall i :: 0 <= i < |r.value.records| ==>
                  AvailableNames(defaults, registry)[i] in registry &&
                  r.value.records[i] == ToMap(registry[AvailableNames(defaults, registry)[i]]))
  {
  }

  // ---------------------------------------------------------------------------
  // The loops of `__load`.
  // ---------------------------------------------------------------------------

  /** The options loop fails from the first exception on. */
  lemma {:induction false} FoldFailurePersists(d: Draft, opts: seq<(string, string)>, i: nat)
    requires i <= |opts|
    requires Fold(d, opts[..i]).Failure?
    ensures Fold(d, opts) == Failure(Fold(d, opts[..i]).error)
  {
    if i < |opts| {
      var prefix := opts[..|opts| - 1];
      assert prefix[..i] == opts[..i];
      FoldFailurePersists(d, prefix, i);
    } else {
      assert opts[..i] == opts;
    }
  }

  /** The loop over the options of one gramplet section, filling `data`. */
  method ReadOptions(name: string, opts: seq<(string, string)>) returns (r: Result<Draft, LoadError>)
    ensures r == Fold(StartDraft(name), opts)
  {
    var data := Draft(map["title" := name], NoData);
    var i := 0;
    while i < |opts|
      invariant 0 <= i <= |opts|
      invariant Fold(StartDraft(name), opts[..i]) == Success(data)
    {
      FoldNext(StartDraft(name), opts, i, data);
      var next := ReadOption(data, opts[i]);
      if next.Failure? {
        FoldFailurePersists(StartDraft(name), opts, i + 1);
        return next;
      }
      data := next.value;
      i := i + 1;
    }
    assert opts[..i] == opts;
    return Success(data);
  }

  lemma FoldNext(d: Draft, opts: seq<(string, string)>, i: nat, before: Draft)
    requires i < |opts| && Fold(d, opts[..i]) == Success(before)
    ensures Fold(d, opts[..i + 1]) == Step(before, opts[i])
  {
    assert opts[..i + 1][..i] == opts[..i];
  }

  /** One option of a gramplet section: a `data[N]` item into `temp`, a plain `data`, or a text field. */
  method ReadOption(data: Draft, opt: (string, string)) returns (r: Result<Draft, LoadError>)
    ensures r == Step(data, opt)
  {
    var (k, v) := opt;
    var value := Strip(v);
    if IsIndexKey(k) {
      var pos := ParsedIndex(k);
      if pos.None? {
        return Failure(NotAnInteger(IndexText(k)));
      }
      match data.slot
      case DataText(_) =>
        return Failure(DataIsText);
      case NoData =>
        return Success(data.(slot := DataDict(Assign([], pos.value, value))));
      case DataDict(temp) =>
        return Success(data.(slot := DataDict(Assign(temp, pos.value, value))));
    } else if k == "data" {
      return Success(data.(slot := DataText(value)));
    }
    return Success(data.(fields := data.fields[k := value]));
  }


  /** The record of one gramplet section, built as `__load` builds it. */
  method DecodeGramplet(sec: Section) returns (r: Result<Record, LoadError>)
    ensures r == DecodeSection(sec)
  {
    var d := ReadOptions(sec.name, sec.options);
    if d.Failure? {
      return Failure(d.error);
    }
    var rec := TextFields(d.value.fields);
    if d.value.slot.DataText? {
      return Failure(DataHasNoKeys);
    } else if d.value.slot.DataDict? {
      rec := rec["data" := Items(Reassemble(d.value.slot.entries))];
    }
    if "name" !in rec {
      rec := rec["name" := Text(UnnamedGramplet)]["tname" := Text(UnnamedGramplet)];
    }
    return Success(rec);
  }

  /** The loop of `__load` over the sections of an existing configuration file. */
  method ReadSections(secs: seq<Section>) returns (r: Result<Loaded, LoadError>)
    ensures r == LoadSections(secs)
  {
    var acc := Loaded(false, 0, []);
    var i := 0;
    while i < |secs|
      invariant 0 <= i <= |secs|
      invariant LoadSections(secs[..i]) == Success(acc)
    {
      LoadSectionsNext(secs, i, acc);
      var next := ReadSection(acc, secs[i]);
      if next.Failure? {
        LoadFailurePersists(secs, i + 1);
        return next;
      }
      acc := next.value;
      i := i + 1;
    }
    assert secs[..i] == secs;
    return Success(acc);
  }

  lemma LoadSectionsNext(secs: seq<Section>, i: nat, acc: Loaded)
    requires i < |secs| && LoadSections(secs[..i]) == Success(acc)
    ensures LoadSections(secs[..i + 1]) == AddSection(acc, secs[i])
  {
    assert secs[..i + 1][..i] == secs[..i];
  }

  /** One section of the file: the bar's settings, or one more gramplet record. */
  method ReadSection(acc: Loaded, sec: Section) returns (r: Result<Loaded, LoadError>)
    ensures r == AddSection(acc, sec)
  {
    if sec.name == BarSection {
      var visible := acc.visible;
      var v := LastValue(sec.options, "visible");
      if v.Some? {
        visible := v.value == "True";
      }
      var p := LastValue(sec.options, "page");
      if p.Some? {
        var n := ParseInt(p.value);
        if n.None? {
          return Failure(NotAnInteger(p.value));
        }
        return Success(acc.(visible := visible, page := n.value));
      }
      return Success(acc.(visible := visible));
    }
    var rec := DecodeGramplet(sec);
    if rec.Failure? {
      return Failure(rec.error);
    }
    return Success(acc.(records := acc.records + [rec.value]));
  }

  /** The loop of `__load` over the default gramplet names, without a configuration file. */
  method ReadDefaults(defaults: seq<string>, registry: Registry) returns (retval: seq<Record>)
    ensures retval == LoadDefaults(defaults, registry)
  {
    retval := [];
    var j := 0;
    while j < |defaults|
      invariant 0 <= j <= |defaults|
      invariant retval == LoadDefaults(defaults[..j], registry)
    {
      var name := defaults[j];
      assert defaults[..j + 1][..j] == defaults[..j];
      if name in registry {
        retval := retval + [ToMap(registry[name])];
      }
      j := j + 1;
    }
    assert defaults[..j] == defaults;
  }

  /** `GrampsBar.__load`; `None` stands for a configuration file that does not exist. */
  method LoadConfig(file: Option<seq<Section>>, defaults: seq<string>, registry: Registry)
    returns (r: Result<Loaded, LoadError>)
    ensures r == Load(file, defaults, registry)
  {
    if file.Some? {
      r := ReadSections(file.value);
    } else {
      var retval := ReadDefaults(defaults, registry);
      r := Success(Loaded(false, 0, retval));
    }
  }
}
