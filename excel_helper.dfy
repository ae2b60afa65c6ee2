/** The Excel lookup: the sheet read once when the helper is made, the choice of the column to
    search, the first row whose cell contains the searched text, and the projection of rows onto
    the visible columns' display names. Reading the workbook is represented by its outcome. */
module ExcelHelper {
  import opened Wrappers
  import opened PyStr
  import opened PyValue
  import opened Columns

  // ---------------------------------------------------------------- sheets and settings

  /** A data frame: its column labels and its records, in order. */
  datatype Frame = Frame(columns: seq<string>, rows: seq<Row>)

  const EmptyFrame: Frame := Frame([], [])

  /** `df.empty`: no column or no row. */
  predicate IsEmpty(df: Frame) {
    |df.columns| == 0 || |df.rows| == 0
  }

  /** The `datasource` section as the lookup reads it; `None` marks an absent key. */
  datatype ExcelSource = ExcelSource(columnMappings: Option<Mappings>, searchColumn: Option<string>)

  /** The configuration dictionary: its `datasource` section and whether it holds other keys. */
  datatype ExcelConfig = ExcelConfig(datasource: Option<ExcelSource>, otherKeys: bool)

  /** A dictionary is truthy when it has a key. */
  predicate ConfigTruthy(cfg: ExcelConfig) {
    cfg.datasource.Some? || cfg.otherKeys
  }

  /** `config.get("datasource", {}).get("column_mappings", {})`. */
  function MappingsOf(cfg: ExcelConfig): Mappings {
    match cfg.datasource
    case None => []
    case Some(ds) => ds.columnMappings.GetOr([])
  }

  /** `config.get("datasource", {}).get("search_column")`. */
  function FallbackColumn(cfg: ExcelConfig): Option<string> {
    match cfg.datasource
    case None => None
    case Some(ds) => ds.searchColumn
  }

  /** A column name is truthy: present and not empty. */
  predicate Named(v: Option<string>) {
    v.Some? && v.value != ""
  }

  // ---------------------------------------------------------------- the search column

  /** The first mapping marked searchable; an absent `searchable` counts as false here. */
  function FirstSearchable(maps: Mappings): (r: Option<nat>)
    ensures r.Some? ==> r.value < |maps| && maps[r.value].1.searchable.GetOr(false)
    ensures r.Some? ==> forall j :: 0 <= j < r.value ==> !maps[j].1.searchable.GetOr(false)
    ensures r.None? ==> forall j :: 0 <= j < |maps| ==> !maps[j].1.searchable.GetOr(false)
  {
    if maps == [] then None
    else if maps[0].1.searchable.GetOr(false) then Some(0)
    else
      match FirstSearchable(maps[1..])
      case None => None
      case Some(i) => Some(i + 1)
  }

  /** The first searchable mapping is the one `FirstSearchable` finds. */
  lemma {:induction false} FirstSearchableAt(maps: Mappings, i: nat)
    requires i < |maps| && maps[i].1.searchable.GetOr(false)
    requires forall j :: 0 <= j < i ==> !maps[j].1.searchable.GetOr(false)
    ensures FirstSearchable(maps) == Some(i)
    decreases i
  {
    if i > 0 {
      FirstSearchableAt(maps[1..], i - 1);
    }
  }

  /** The column the lookup searches: the first searchable mapped column, and the configured
      `search_column` when there is none or its name is empty. */
  function SearchColumn(cfg: ExcelConfig): (r: Option<string>)
    ensures FirstSearchable(MappingsOf(cfg)).Some? && MappingsOf(cfg)[FirstSearchable(MappingsOf(cfg)).value].0 != ""
      ==> r == Some(MappingsOf(cfg)[FirstSearchable(MappingsOf(cfg)).value].0)
    ensures (FirstSearchable(MappingsOf(cfg)).None? || MappingsOf(cfg)[FirstSearchable(MappingsOf(cfg)).value].0 == "")
      ==> r == FallbackColumn(cfg)
  {
    var maps := MappingsOf(cfg);
    match FirstSearchable(maps)
    case Some(i) => if maps[i].0 != "" then Some(maps[i].0) else FallbackColumn(cfg)
    case None => FallbackColumn(cfg)
  }

  // ---------------------------------------------------------------- matching

  /** The uppercased cell contains the needle; a missing or non-text cell never matches. */
  predicate Matches(row: Row, col: string, needle: string) {
    col in row && row[col].Str? && Contains(Upper(row[col].s), needle)
  }

  /** The first record that matches. */
  function FirstMatch(rows: seq<Row>, col: string, needle: string): (r: Option<nat>)
    ensures r.Some? ==> r.value < |rows| && Matches(rows[r.value], col, needle)
    ensures r.Some? ==> forall j :: 0 <= j < r.value ==> !Matches(rows[j], col, needle)
    ensures r.None? ==> forall j :: 0 <= j < |rows| ==> !Matches(rows[j], col, needle)
  {
    if rows == [] then None
    else if Matches(rows[0], col, needle) then Some(0)
    else
      match FirstMatch(rows[1..], col, needle)
      case None => None
      case Some(i) => Some(i + 1)
  }

  /** The first matching record is the one `FirstMatch` finds. */
  lemma {:induction false} FirstMatchAt(rows: seq<Row>, col: string, needle: string, i: nat)
    requires i < |rows| && Matches(rows[i], col, needle)
    requires forall j :: 0 <= j < i ==> !Matches(rows[j], col, needle)
    ensures FirstMatch(rows, col, needle) == Some(i)
    decreases i
  {
    if i > 0 {
      FirstMatchAt(rows[1..], col, needle, i - 1);
    }
  }

  /** The text searched for: `str(search_text).strip().upper()`. */
  function Needle(text: string): string {
    Upper(Strip(text))
  }

  /** The search can run: there is a configuration, a non-empty sheet and a named column that
      the sheet has. */
  predicate CanSearch(cfg: ExcelConfig, df: Frame) {
    ConfigTruthy(cfg) && !IsEmpty(df) && Named(SearchColumn(cfg)) && SearchColumn(cfg).value in df.columns
  }

  /** What `find_awb` returns. */
  function FindSpec(cfg: ExcelConfig, df: Frame, text: string): Projected {
    if !CanSearch(cfg, df) then []
    else
      match FirstMatch(df.rows, SearchColumn(cfg).value, Needle(text))
      case None => []
      case Some(i) => ProjectRow(MappingsOf(cfg), df.rows[i])
  }

  /** Without a configuration, with an empty sheet, without a search column or with one the sheet
      lacks, and when no row matches, the lookup returns an empty dictionary. */
  lemma FindNothing(cfg: ExcelConfig, df: Frame, text: string)
    requires !CanSearch(cfg, df)
      || forall j :: 0 <= j < |df.rows| ==> !Matches(df.rows[j], SearchColumn(cfg).value, Needle(text))
    ensures FindSpec(cfg, df, text) == []
  {
  }

  /** When the search can run and record `i` is the first to match, the lookup returns that
      record under the display names: each display name carries the cell of the last visible
      column shown under it, and each name appears once. */
  lemma FindFirst(cfg: ExcelConfig, df: Frame, text: string, i: nat)
    requires CanSearch(cfg, df)
    requires i < |df.rows| && Matches(df.rows[i], SearchColumn(cfg).value, Needle(text))
    requires forall j :: 0 <= j < i ==> !Matches(df.rows[j], SearchColumn(cfg).value, Needle(text))
    ensures FindSpec(cfg, df, text) == ProjectRow(MappingsOf(cfg), df.rows[i])
    ensures DistinctKeys(FindSpec(cfg, df, text))
    ensures forall n :: Columns.Get(FindSpec(cfg, df, text), n) == NamedCell(VisibleColumns(MappingsOf(cfg)), df.rows[i], n)
  {
    FirstMatchAt(df.rows, SearchColumn(cfg).value, Needle(text), i);
    FindAt(cfg, df, text, i);
    ProjectGet(VisibleColumns(MappingsOf(cfg)), df.rows[i]);
  }

  lemma FindAt(cfg: ExcelConfig, df: Frame, text: string, i: nat)
    requires CanSearch(cfg, df)
    requires FirstMatch(df.rows, SearchColumn(cfg).value, Needle(text)) == Some(i)
    ensures FindSpec(cfg, df, text) == ProjectRow(MappingsOf(cfg), df.rows[i])
  {
  }

  // ---------------------------------------------------------------- case does not matter

  lemma {:induction false} LStripLower(s: string)
    ensures LStrip(Lower(s)) == Lower(LStrip(s))
    decreases |s|
  {
    if s != [] {
      var l := Lower(s);
      assert l[1..] == Lower(s[1..]);
      LowerSpace(s[0]);
      LStripLower(s[1..]);
    }
  }

  lemma RStripLower(s: string)
    ensures RStrip(Lower(s)) == Lower(RStrip(s))
  {
    var l := Lower(s);
    forall k | 0 <= k < |s| ensures IsSpace(l[k]) <==> IsSpace(s[k]) {
      LowerSpace(s[k]);
    }
    RStripSameSpaces(l, s);
    var m := |RStrip(s)|;
    assert RStrip(l) == l[..m];
    assert l[..m] == Lower(s[..m]);
  }

  /** Two texts with whitespace at the same places lose the same number of characters to
      `rstrip`. */
  lemma {:induction false} RStripSameSpaces(a: string, b: string)
    requires |a| == |b| && forall k :: 0 <= k < |a| ==> (IsSpace(a[k]) <==> IsSpace(b[k]))
    ensures |RStrip(a)| == |RStrip(b)|
    decreases |a|
  {
    if a != [] {
      var n := |a| - 1;
      RStripSameSpaces(a[..n], b[..n]);
    }
  }

  /** Lowering a character does not make it whitespace or stop it being whitespace. */
  lemma LowerSpace(c: char)
    ensures IsSpace(LowerChar(c)) <==> IsSpace(c)
  {
  }

  /** Lowering the searched text changes nothing: the needle is uppercased either way. */
  lemma NeedleIgnoresCase(text: string)
    ensures Needle(Lower(text)) == Needle(text)
  {
    LStripLower(text);
    RStripLower(LStrip(text));
    UpperLower(Strip(text));
  }

  /** Uppercasing after lowercasing is uppercasing. */
  lemma UpperLower(s: string)
    ensures Upper(Lower(s)) == Upper(s)
  {
    forall k | 0 <= k < |s| ensures UpperChar(LowerChar(s[k])) == UpperChar(s[k]) {
      var c := s[k];
      if 'A' <= c <= 'Z' {
        assert LowerChar(c) == (c as int + 32) as char;
      }
    }
  }

  /** The lookup is case-insensitive in the searched text. */
  lemma FindIgnoresCase(cfg: ExcelConfig, df: Frame, text: string)
    ensures FindSpec(cfg, df, Lower(text)) == FindSpec(cfg, df, text)
  {
    NeedleIgnoresCase(text);
  }

  /** A row whose cell differs only in case matches exactly when the original does. */
  lemma MatchIgnoresCase(row: Row, col: string, needle: string)
    requires col in row && row[col].Str?
    ensures Matches(row[col := Str(Lower(row[col].s))], col, needle) <==> Matches(row, col, needle)
  {
    UpperLower(row[col].s);
  }

  // ---------------------------------------------------------------- loading

  /** What `load_data` returns once the workbook has been read (`None`: the file is missing or
      cannot be read). */
  function Loaded(read: Option<Frame>): Frame {
    read.GetOr(EmptyFrame)
  }

  /** `load_data` as written: it checks `file_path` but then reads `self.data_source`, an
      attribute the helper never sets; the `AttributeError` is caught, so it always returns an
      empty frame. */
  function LoadedAsWritten(fileExists: bool): (r: Frame)
    ensures IsEmpty(r)
  {
    if !fileExists then EmptyFrame
    else EmptyFrame
  }

  /** Every record projected onto the visible columns, in record order. */
  function ProjectAll(maps: Mappings, rows: seq<Row>): (r: seq<Projected>)
    ensures |r| == |rows| && forall k :: 0 <= k < |rows| ==> r[k] == ProjectRow(maps, rows[k])
  {
    seq(|rows|, k requires 0 <= k < |rows| => ProjectRow(maps, rows[k]))
  }

  /** `get_all_data` as written, from the frame the helper holds. */
  function AllDataAsWritten(cfg: ExcelConfig, data: Option<Frame>, fileExists: bool): seq<Projected> {
    var d := if data.None? || IsEmpty(data.value) then LoadedAsWritten(fileExists) else data.value;
    if IsEmpty(d) then [] else ProjectAll(MappingsOf(cfg), d.rows)
  }

  /** As written, a helper whose frame was never loaded returns no records at all, whatever the
      workbook holds; and the only assignment of a frame is the one `load_data` never reaches. */
  lemma AllDataAsWrittenEmpty(cfg: ExcelConfig, fileExists: bool)
    ensures AllDataAsWritten(cfg, None, fileExists) == []
  {
  }

  /** A workbook with one record: the corrected load gives one projected record, the code as
      written none. */
  lemma AllDataAsWrittenLosesRecords()
    ensures var cfg := ExcelConfig(Some(ExcelSource(Some([("AWB", ColumnDetails(Some("AWB No"), None, None))]), None)), false);
      var df := Frame(["AWB"], [map["AWB" := Str("235-12345678")]]);
      AllDataAsWritten(cfg, None, true) == [] && |ProjectAll(MappingsOf(cfg), Loaded(Some(df)).rows)| == 1
  {
  }

  // ---------------------------------------------------------------- the helper object

  class ExcelHelper {
    const filePath: string
    const config: ExcelConfig
    /** The sheet read when the helper was made. */
    const df: Frame
    /** The frame `get_all_data` works on, once loaded. */
    var data: Option<Frame>

    /** `__init__`; `read` is the outcome of reading the workbook at `filePath`. */
    constructor(filePath: string, config: ExcelConfig, read: Option<Frame>)
      ensures this.filePath == filePath && this.config == config
      ensures df == Loaded(read) && data.None?
    {
      this.filePath := filePath;
      this.config := config;
      df := Loaded(read);
      data := None;
    }

    /** `find_awb`: the search column is picked by scanning the mappings, then the first matching
        record is projected. */
    method FindAwb(text: string) returns (result: Projected)
      ensures result == FindSpec(config, df, text)
    {
      if !ConfigTruthy(config) || IsEmpty(df) {
        return [];
      }
      var maps := MappingsOf(config);
      var searchColumn: Option<string> := None;
      for i := 0 to |maps|
        invariant searchColumn.None?
        invariant forall j :: 0 <= j < i ==> !maps[j].1.searchable.GetOr(false)
      {
        if maps[i].1.searchable.GetOr(false) {
          searchColumn := Some(maps[i].0);
          FirstSearchableAt(maps, i);
          break;
        }
      }
      if !Named(searchColumn) {
        searchColumn := FallbackColumn(config);
      }
      assert searchColumn == SearchColumn(config);
      if !(Named(searchColumn) && searchColumn.value in df.columns) {
        return [];
      }
      var r := FirstMatch(df.rows, searchColumn.value, Needle(text));
      if r.None? {
        return [];
      }
      result := ProjectRow(maps, df.rows[r.value]);
    }

    /** `load_data`, reading `filePath`: the frame is kept only when the read succeeds. */
    method LoadData(read: Option<Frame>) returns (frame: Frame)
      modifies this
      ensures frame == Loaded(read)
      ensures data == (if read.Some? then read else old(data))
    {
      if read.None? {
        return EmptyFrame;
      }
      data := read;
      frame := read.value;
    }

    /** `get_all_data`: loads when nothing is loaded yet, then projects every record in order. */
    method GetAllData(read: Option<Frame>) returns (result: seq<Projected>)
      modifies this
      ensures data == (if old(data).None? || IsEmpty(old(data).value) then Some(Loaded(read)) else old(data))
      ensures IsEmpty(data.value) ==> result == []
      ensures !IsEmpty(data.value) ==> result == ProjectAll(MappingsOf(config), data.value.rows)
    {
      if data.None? || IsEmpty(data.value) {
        var frame := LoadData(read);
        data := Some(frame);
      }
      var d := data.value;
      if IsEmpty(d) {
        return [];
      }
      var maps := MappingsOf(config);
      result := [];
      for k := 0 to |d.rows|
        invariant |result| == k
        invariant forall j :: 0 <= j < k ==> result[j] == ProjectRow(maps, d.rows[j])
      {
        result := result + [ProjectRow(maps, d.rows[k])];
      }
    }
  }
}
