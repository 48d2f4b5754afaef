/**
 * The order in which `GrampsBar.__init__` adds the loaded gramplets as tabs:
 * the option records sorted on their `page` option.
 */
module TabOrder {
  import opened Wrappers
  import opened PyText
  import opened ConfigData
  import opened Sorting

  /** What stops the sort: a record without `page` (KeyError), or a page that is not an integer. */
  datatype OrderError = MissingPage | BadPage(page: Value)

  /** Python 2 orders values of different types: numbers first, then by type name (`list` before `str`). */
  function TypeRank(v: Value): nat {
    match v
    case Number(_) => 0
    case Items(_) => 1
    case Text(_) => 2
  }

  /** Python's ordering of two lists of strings: at the first differing item, or by length. */
  predicate ItemsLeq(xs: seq<string>, ys: seq<string>) {
    if xs == [] then true
    else if ys == [] then false
    else if xs[0] == ys[0] then ItemsLeq(xs[1..], ys[1..])
    else TextLeq(xs[0], ys[0])
  }

  /** `a <= b` for two option values, as Python 2 compares them. */
  predicate ValueLeq(a: Value, b: Value) {
    if TypeRank(a) != TypeRank(b) then TypeRank(a) < TypeRank(b)
    else match a
      case Number(m) => m <= b.n
      case Items(xs) => ItemsLeq(xs, b.items)
      case Text(s) => TextLeq(s, b.text)
  }

  lemma {:induction false} ItemsLeqTotal(xs: seq<string>, ys: seq<string>)
    ensures ItemsLeq(xs, ys) || ItemsLeq(ys, xs)
  {
    if xs != [] && ys != [] {
      if xs[0] == ys[0] {
        ItemsLeqTotal(xs[1..], ys[1..]);
      } else {
        TextLeqTotal(xs[0], ys[0]);
      }
    }
  }

  /** Any two values compare one way or the other. */
  lemma ValueLeqTotal(a: Value, b: Value)
    ensures ValueLeq(a, b) || ValueLeq(b, a)
  {
    if TypeRank(a) == TypeRank(b) {
      match a
      case Number(_) =>
      case Items(xs) => ItemsLeqTotal(xs, b.items);
      case Text(s) => TextLeqTotal(s, b.text);
    }
  }

  /** `opt["page"]`, for a record known to have it. */
  function PageOf(r: Record): Value {
    if "page" in r then r["page"] else Text("")
  }

  predicate AllHavePage(recs: seq<Record>) {
    forall i :: 0 <= i < |recs| ==> "page" in recs[i]
  }

  /** Not greater on `opt["page"]`. */
  function ByPageValue(a: Record, b: Record): bool {
    ValueLeq(PageOf(a), PageOf(b))
  }

  /** `opts_list.sort(key=lambda opt: opt["page"])`, as written. */
  function OrderTabsAsWritten(recs: seq<Record>): Result<seq<Record>, OrderError> {
    if !AllHavePage(recs) then Failure(MissingPage)
    else Success(SortBy(recs, ByPageValue))
  }

  /** `int(opt["page"])` */
  function PageNumber(v: Value): Option<int> {
    match v
    case Number(n) => Some(n)
    case Text(s) => ParseInt(s)
    case Items(_) => None
  }

  /** The first record's page that is not an integer. */
  function FirstBadPage(recs: seq<Record>): (r: Option<Value>)
    ensures r.None? <==> forall i :: 0 <= i < |recs| ==> PageNumber(PageOf(recs[i])).Some?
  {
    if recs == [] then None
    else if PageNumber(PageOf(recs[0])).None? then Some(PageOf(recs[0]))
    else
      var r := FirstBadPage(recs[1..]);
      assert forall i :: 1 <= i < |recs| ==> recs[i] == recs[1..][i - 1];
      r
  }

  function PageNum(r: Record): int {
    match PageNumber(PageOf(r))
    case Some(n) => n
    case None => 0
  }

  /** Not greater on `int(opt["page"])`. */
  function ByPageNumber(a: Record, b: Record): bool {
    PageNum(a) <= PageNum(b)
  }

  /** The sort as the save's `page=<index>` lines call for it: on the integer value of the page. */
  function OrderTabs(recs: seq<Record>): Result<seq<Record>, OrderError> {
    if !AllHavePage(recs) then Failure(MissingPage)
    else match FirstBadPage(recs)
      case Some(p) => Failure(BadPage(p))
      case None => Success(SortBy(recs, ByPageNumber))
  }

  /** The records come out in ascending order of their page values, as a permutation of the input. */
  lemma OrderTabsAsWrittenSorted(recs: seq<Record>)
    ensures OrderTabsAsWritten(recs).Success? <==> AllHavePage(recs)
    ensures OrderTabsAsWritten(recs).Success? ==>
              var out := OrderTabsAsWritten(recs).value;
              Sorted(out, ByPageValue) && multiset(out) == multiset(recs)
  {
    forall a, b ensures ByPageValue(a, b) || ByPageValue(b, a) {
      ValueLeqTotal(PageOf(a), PageOf(b));
    }
    SortSorted(recs, ByPageValue);
  }

  /**
   * The corrected order: it fails exactly on a missing or non-integer page,
   * and otherwise the records come out in ascending order of their page
   * numbers, as a permutation of the input.
   */
  lemma OrderTabsSorted(recs: seq<Record>)
    ensures OrderTabs(recs).Success? <==>
              AllHavePage(recs) && forall i :: 0 <= i < |recs| ==> PageNumber(recs[i]["page"]).Some?
    ensures OrderTabs(recs).Success? ==>
              var out := OrderTabs(recs).value;
              Sorted(out, ByPageNumber) && multiset(out) == multiset(recs)
  {
    SortSorted(recs, ByPageNumber);
  }

  /** Records already in ascending page order keep their order. */
  lemma OrderTabsKeepsOrdered(recs: seq<Record>)
    requires forall i :: 0 <= i < |recs| ==> "page" in recs[i] && PageNumber(recs[i]["page"]).Some?
    requires forall i :: 0 < i < |recs| ==> PageNum(recs[i - 1]) <= PageNum(recs[i])
    ensures OrderTabs(recs) == Success(recs)
  {
    SortKeepsSorted(recs, ByPageNumber);
  }
}
