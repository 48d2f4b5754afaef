/**
 * The data the bar's configuration code passes around: option values, the
 * option records of gramplets, the sections ConfigParser yields, the lines the
 * save writes, and the plugin registry's option dictionaries.
 */
module ConfigData {
  import opened Wrappers

  /**
   * An option value. Values read from the file are strings; the one list-valued
   * option the bar handles itself is `data` (a list or tuple of items, each
   * given by its `str()`). Integers from the plugin registry are kept as
   * numbers; any other registry value is represented by its `str()` text.
   */
  datatype Value = Text(text: string) | Number(n: int) | Items(items: seq<string>)

  /** A gramplet option record: a Python dict from option name to value. */
  type Record = map<string, Value>

  /** A Python dict given as its (key, value) pairs in iteration order. */
  type Options = seq<(string, Value)>

  /**
   * The plugin registry: for each available gramplet name, its option
   * dictionary (what `GET_AVAILABLE_GRAMPLETS(name)` and
   * `get_gramplet_options_by_name(name)` return).
   */
  type Registry = map<string, Options>

  /** A configuration file section as ConfigParser yields it: a name and its option pairs. */
  datatype Section = Section(name: string, options: seq<(string, string)>)

  /** One line of the configuration file the save writes. */
  datatype Line = Header(name: string) | Entry(key: string, value: string) | Blank

  /** The name of the section holding the bar's own settings. */
  const BarSection := "Bar Options"

  predicate DistinctKeys<V>(opts: seq<(string, V)>) {
    forall i, j :: 0 <= i < j < |opts| ==> opts[i].0 != opts[j].0
  }

  /** The value stored under `key`: the last pair with that key wins, as in a dict. */
  function LastValue<V>(opts: seq<(string, V)>, key: string): (r: Option<V>)
    ensures r.None? <==> forall i :: 0 <= i < |opts| ==> opts[i].0 != key
    ensures r.Some? ==> exists i :: 0 <= i < |opts| && opts[i] == (key, r.value)
                                    && forall j :: i < j < |opts| ==> opts[j].0 != key
  {
    if opts == [] then None
    else if opts[|opts| - 1].0 == key then Some(opts[|opts| - 1].1)
    else LastValue(opts[..|opts| - 1], key)
  }

  /** The dict built from the pairs. */
  function ToMap<V>(opts: seq<(string, V)>): (m: map<string, V>)
    ensures forall k :: k in m <==> LastValue(opts, k).Some?
    ensures forall k :: k in m ==> m[k] == LastValue(opts, k).value
  {
    if opts == [] then map[]
    else ToMap(opts[..|opts| - 1])[opts[|opts| - 1].0 := opts[|opts| - 1].1]
  }

}
