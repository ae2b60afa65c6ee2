/** The `column_mappings` section of the data-source configuration and the projection of a
    result row onto the visible columns' display names, which the SQL and Excel lookups share. */
module Columns {
  import opened Wrappers
  import opened PyValue

  /** One column's entry; `None` marks an absent key. */
  datatype ColumnDetails = ColumnDetails(displayName: Option<string>, visible: Option<bool>, searchable: Option<bool>)

  /** `column_mappings`, in key order. */
  type Mappings = seq<(string, ColumnDetails)>

  /** A result row: column name to cell value. */
  type Row = map<string, Value>

  /** A dictionary keyed by display name, in insertion order. A missing `display_name` gives the
      key `None`, as `details.get("display_name")` does. */
  type Projected = seq<(Option<string>, Value)>

  /** The keys of a dictionary are distinct. */
  predicate DistinctKeys(d: Projected) {
    forall i, j :: 0 <= i < j < |d| ==> d[i].0 != d[j].0
  }

  /** Where key `k` sits in `d`, if anywhere. */
  function IndexOfKey(d: Projected, k: Option<string>): (r: Option<nat>)
    ensures r.Some? ==> r.value < |d| && d[r.value].0 == k && forall j :: 0 <= j < r.value ==> d[j].0 != k
    ensures r.None? ==> forall j :: 0 <= j < |d| ==> d[j].0 != k
  {
    if d == [] then None
    else if d[0].0 == k then Some(0)
    else
      match IndexOfKey(d[1..], k)
      case None => None
      case Some(i) => Some(i + 1)
  }

  /** `d.get(k)`. */
  function Get(d: Projected, k: Option<string>): (r: Option<Value>)
    ensures r.Some? <==> exists j :: 0 <= j < |d| && d[j].0 == k
  {
    match IndexOfKey(d, k)
    case None => None
    case Some(i) => Some(d[i].1)
  }

  /** `d[k] = v`: an existing key keeps its place and takes the new value; a new key goes last. */
  function Put(d: Projected, k: Option<string>, v: Value): Projected {
    match IndexOfKey(d, k)
    case None => d + [(k, v)]
    case Some(i) => d[i := (k, v)]
  }

  lemma PutGet(d: Projected, k: Option<string>, v: Value)
    requires DistinctKeys(d)
    ensures DistinctKeys(Put(d, k, v))
    ensures Get(Put(d, k, v), k) == Some(v)
    ensures forall n :: n != k ==> Get(Put(d, k, v), n) == Get(d, n)
  {
    var d' := Put(d, k, v);
    match IndexOfKey(d, k)
    case None =>
      assert d'[|d|] == (k, v);
      assert forall j :: 0 <= j < |d| ==> d'[j] == d[j];
    case Some(i) =>
      assert d'[i] == (k, v);
      assert forall j :: 0 <= j < |d| && j != i ==> d'[j] == d[j];
    forall n | n != k ensures Get(d', n) == Get(d, n) {
      match IndexOfKey(d, n)
      case None =>
        assert forall j :: 0 <= j < |d'| ==> d'[j].0 != n;
      case Some(i) =>
        assert d'[i] == d[i];
        assert forall j :: 0 <= j < i ==> d'[j].0 != n;
    }
  }

  /** `result.get(col, '')`. */
  function Cell(row: Row, col: string): Value {
    if col in row then row[col] else Str("")
  }

  /** `{col: details.get("display_name") for col, details in mappings.items()
      if details.get("visible", True)}`. */
  function VisibleColumns(maps: Mappings): (r: seq<(string, Option<string>)>)
    ensures |r| <= |maps|
    ensures forall p :: p in r <==> exists i :: 0 <= i < |maps| && maps[i].1.visible.GetOr(true)
                                             && p == (maps[i].0, maps[i].1.displayName)
  {
    if maps == [] then []
    else
      var (col, details) := maps[0];
      var rest := VisibleColumns(maps[1..]);
      assert forall i :: 1 <= i < |maps| ==> maps[i] == maps[1..][i - 1];
      if details.visible.GetOr(true) then [(col, details.displayName)] + rest else rest
  }

  /** `{name: row.get(col, '') for col, name in visible.items()}`. */
  function Project(vis: seq<(string, Option<string>)>, row: Row): Projected {
    if vis == [] then []
    else
      var (col, name) := vis[|vis| - 1];
      Put(Project(vis[..|vis| - 1], row), name, Cell(row, col))
  }

  /** The last visible column shown under display name `n`. */
  function LastNamed(vis: seq<(string, Option<string>)>, n: Option<string>): (r: Option<string>)
    ensures r.Some? ==> exists i :: 0 <= i < |vis| && vis[i] == (r.value, n)
  {
    if vis == [] then None
    else if vis[|vis| - 1].1 == n then Some(vis[|vis| - 1].0)
    else LastNamed(vis[..|vis| - 1], n)
  }

  /** The cell of the last visible column shown under display name `n`. */
  function NamedCell(vis: seq<(string, Option<string>)>, row: Row, n: Option<string>): Option<Value> {
    match LastNamed(vis, n)
    case None => None
    case Some(c) => Some(Cell(row, c))
  }

  /** The projection has one entry per display name, and under each display name the cell of
      the last visible column carrying it: a later column with the same name overwrites. */
  lemma {:induction false} ProjectGet(vis: seq<(string, Option<string>)>, row: Row)
    ensures DistinctKeys(Project(vis, row))
    ensures forall n :: Get(Project(vis, row), n) == NamedCell(vis, row, n)
    decreases |vis|
  {
    if vis != [] {
      var (col, name) := vis[|vis| - 1];
      ProjectGet(vis[..|vis| - 1], row);
      PutGet(Project(vis[..|vis| - 1], row), name, Cell(row, col));
    }
  }

  /** With distinct display names, the projection lists every visible column in order under its
      display name with its cell. */
  lemma {:induction false} ProjectDistinctNames(vis: seq<(string, Option<string>)>, row: Row)
    requires forall i, j :: 0 <= i < j < |vis| ==> vis[i].1 != vis[j].1
    ensures Project(vis, row) == seq(|vis|, k requires 0 <= k < |vis| => (vis[k].1, Cell(row, vis[k].0)))
    decreases |vis|
  {
    if vis != [] {
      var init := vis[..|vis| - 1];
      ProjectDistinctNames(init, row);
      var p := Project(init, row);
      assert forall j :: 0 <= j < |p| ==> p[j].0 == init[j].1;
      assert IndexOfKey(p, vis[|vis| - 1].1).None?;
    }
  }

  /** The visible part of a row as the lookups return it. */
  function ProjectRow(maps: Mappings, row: Row): Projected {
    Project(VisibleColumns(maps), row)
  }
}
