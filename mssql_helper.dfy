/** The SQL Server lookup: checking the connection settings, the ODBC connection string, the
    search query built around the configured base query, and the bookkeeping of the connection
    pool. The database itself is represented by the connections it hands out and by a function
    from query to first result row. */
module MssqlHelper {
  import opened Wrappers
  import opened PyStr
  import opened PyValue
  import opened Columns

  // ---------------------------------------------------------------- settings

  /** The `datasource.mssql` section; `None` marks an absent key. */
  datatype MssqlConfig = MssqlConfig(
    server: Option<string>,
    database: Option<string>,
    username: Option<string>,
    password: Option<string>,
    table: Option<string>)

  const EmptyMssql: MssqlConfig := MssqlConfig(None, None, None, None, None)

  /** The `datasource` section. */
  datatype DatasourceConfig = DatasourceConfig(
    mssql: Option<MssqlConfig>,
    columnMappings: Option<Mappings>,
    searchColumn: Option<string>)

  /** The constructor's argument: a dictionary, or anything else. */
  datatype ConfigArg = ConfigDict(datasource: Option<DatasourceConfig>) | NotADict

  /** `mssql_config.get(field)` is truthy. */
  predicate Present(v: Option<string>) {
    v.Some? && v.value != ""
  }

  /** The four settings every connection needs. */
  datatype Setting = Server | Database | Username | Password

  /** The key of a setting in the `mssql` section. */
  function Name(f: Setting): string {
    match f
    case Server => "server"
    case Database => "database"
    case Username => "username"
    case Password => "password"
  }

  const RequiredFields: seq<Setting> := [Server, Database, Username, Password]

  function Field(m: MssqlConfig, f: Setting): Option<string> {
    match f
    case Server => m.server
    case Database => m.database
    case Username => m.username
    case Password => m.password
  }

  /** The settings among `fs` that are empty or missing, in the order given. */
  function MissingAmong(m: MssqlConfig, fs: seq<Setting>): (r: seq<Setting>)
    ensures |r| <= |fs|
    ensures forall f :: f in r <==> f in fs && !Present(Field(m, f))
  {
    if fs == [] then []
    else (if Present(Field(m, fs[0])) then [] else [fs[0]]) + MissingAmong(m, fs[1..])
  }

  /** `missing_fields`: the keys of the missing settings. */
  function MissingFields(m: MssqlConfig): (r: seq<string>)
    ensures |r| == |MissingAmong(m, RequiredFields)|
  {
    var fs := MissingAmong(m, RequiredFields);
    seq(|fs|, k requires 0 <= k < |fs| => Name(fs[k]))
  }

  predicate Complete(m: MssqlConfig) {
    Present(m.server) && Present(m.database) && Present(m.username) && Present(m.password)
  }

  /** The section the constructor reads: `config.get("datasource", {}).get("mssql", {})`. */
  function MssqlSection(cfg: ConfigArg): MssqlConfig
    requires cfg.ConfigDict?
  {
    match cfg.datasource
    case None => EmptyMssql
    case Some(ds) => ds.mssql.GetOr(EmptyMssql)
  }

  /** The `datasource` section the helper keeps (`full_config`), with every key absent when the
      dictionary has none. */
  function DatasourceSection(cfg: ConfigArg): (ds: DatasourceConfig)
    requires cfg.ConfigDict?
    ensures cfg.datasource.Some? ==> ds == cfg.datasource.value
    ensures cfg.datasource.None? ==> ds.mssql.None? && ds.columnMappings.None? && ds.searchColumn.None?
  {
    match cfg.datasource
    case None => DatasourceConfig(None, None, None)
    case Some(d) => d
  }

  /** The checks of `__init__` before it connects: the argument must be a dictionary, and every
      required setting must be present and non-empty. */
  function Configure(cfg: ConfigArg): (r: Result<MssqlConfig>)
    ensures r.Ok? <==> cfg.ConfigDict? && Complete(MssqlSection(cfg))
    ensures cfg.NotADict? ==> r == Raised("ValueError: Config dictionary olmalıdır!")
    ensures r.Ok? ==> r.value == MssqlSection(cfg) && MissingFields(r.value) == []
    ensures cfg.ConfigDict? && !Complete(MssqlSection(cfg)) ==>
      r == Raised("ValueError: Eksik MSSQL ayarları: " + Join(", ", MissingFields(MssqlSection(cfg))))
  {
    if cfg.NotADict? then Raised("ValueError: Config dictionary olmalıdır!")
    else
      var m := MssqlSection(cfg);
      var missing := MissingFields(m);
      MissingOrder(m);
      if missing != [] then Raised("ValueError: Eksik MSSQL ayarları: " + Join(", ", missing))
      else
        Ok(m)
  }

  /** The fields are reported in the order server, database, username, password. */
  lemma MissingOrder(m: MssqlConfig)
    ensures MissingAmong(m, RequiredFields) ==
      (if Present(m.server) then [] else [Server]) + ((if Present(m.database) then [] else [Database])
      + ((if Present(m.username) then [] else [Username]) + (if Present(m.password) then [] else [Password])))
  {
    MissingChain(m);
    MissingOne(m, Server);
    MissingOne(m, Database);
    MissingOne(m, Username);
    MissingOne(m, Password);
  }

  lemma MissingOne(m: MssqlConfig, f: Setting)
    ensures MissingAmong(m, [f]) == if Present(Field(m, f)) then [] else [f]
  {
    assert [f][1..] == [];
  }

  /** `MissingAmong` works field by field. */
  lemma MissingCons(m: MssqlConfig, f: Setting, fs: seq<Setting>)
    ensures MissingAmong(m, [f] + fs) == MissingAmong(m, [f]) + MissingAmong(m, fs)
  {
    assert ([f] + fs)[0] == f && ([f] + fs)[1..] == fs;
    assert [f][1..] == [];
  }

  lemma MissingChain(m: MssqlConfig)
    ensures MissingAmong(m, RequiredFields) == MissingAmong(m, [Server]) + (MissingAmong(m, [Database])
      + (MissingAmong(m, [Username]) + MissingAmong(m, [Password])))
  {
    var f3: seq<Setting> := [Password];
    var f2 := [Username] + f3;
    var f1 := [Database] + f2;
    MissingCons(m, Username, f3);
    MissingCons(m, Database, f2);
    MissingCons(m, Server, f1);
    assert RequiredFields == [Server] + f1;
  }

  // ---------------------------------------------------------------- connection string

  /** The `KEY=value` parts of the connection string, in order. */
  function ConnectionParts(m: MssqlConfig): seq<string>
    requires Complete(m)
  {
    ["DRIVER={SQL Server}", "SERVER=" + m.server.value, "DATABASE=" + m.database.value,
     "UID=" + m.username.value, "PWD=" + m.password.value]
  }

  /** `connection_string`: the parts joined by `;`. */
  function ConnectionString(m: MssqlConfig): string
    requires Complete(m)
  {
    Join(";", ConnectionParts(m))
  }

  /** Splitting at the first separator of a text whose first part has none. */
  lemma SplitFirst(a: string, b: string, c: char)
    requires c !in a
    ensures Split(a + [c] + b, [c]) == [a] + Split(b, [c])
  {
    var s := a + [c] + b;
    assert s[|a|..|a| + 1] == [c];
    assert OccursAt(s, [c], |a|);
    forall k | 0 <= k < |a| ensures !OccursAt(s, [c], k) {
      assert s[k..k + 1] == [a[k]];
    }
    assert IndexOf(s, [c]) == Some(|a|);
    assert s[..|a|] == a;
    assert s[|a| + 1..] == b;
  }

  lemma SplitNone(a: string, c: char)
    requires c !in a
    ensures Split(a, [c]) == [a]
  {
    forall k: nat ensures !OccursAt(a, [c], k) {
      if k + 1 <= |a| {
        assert a[k..k + 1] == [a[k]];
      }
    }
  }

  /** Splitting parts joined by a one-character separator that none of them contains gives the
      parts back. */
  lemma {:induction false} SplitJoin(parts: seq<string>, c: char)
    requires |parts| >= 1 && forall k :: 0 <= k < |parts| ==> c !in parts[k]
    ensures Split(Join([c], parts), [c]) == parts
    decreases |parts|
  {
    if |parts| == 1 {
      SplitNone(parts[0], c);
    } else {
      SplitJoin(parts[1..], c);
      SplitFirst(parts[0], Join([c], parts[1..]), c);
      assert [parts[0]] + parts[1..] == parts;
    }
  }

  /** The connection string written out. */
  lemma ConnectionStringText(m: MssqlConfig)
    requires Complete(m)
    ensures ConnectionString(m) == "DRIVER={SQL Server};SERVER=" + m.server.value + ";DATABASE=" + m.database.value
      + ";UID=" + m.username.value + ";PWD=" + m.password.value
  {
    var ps := ConnectionParts(m);
    assert Join(";", ps[4..]) == ps[4];
    assert Join(";", ps[3..]) == ps[3] + ";" + Join(";", ps[4..]);
    assert Join(";", ps[2..]) == ps[2] + ";" + Join(";", ps[3..]);
    assert Join(";", ps[1..]) == ps[1] + ";" + Join(";", ps[2..]);
  }

  /** No part contains `;` when no setting does. */
  lemma PartsWithoutSemicolon(m: MssqlConfig)
    requires Complete(m)
    requires ';' !in m.server.value && ';' !in m.database.value
    requires ';' !in m.username.value && ';' !in m.password.value
    ensures forall k :: 0 <= k < |ConnectionParts(m)| ==> ';' !in ConnectionParts(m)[k]
  {
    var ps := ConnectionParts(m);
    forall k | 0 <= k < 5 ensures ';' !in ps[k] {
      var (key, v) := if k == 0 then ("DRIVER={SQL Server}", "") else if k == 1 then ("SERVER=", m.server.value)
        else if k == 2 then ("DATABASE=", m.database.value) else if k == 3 then ("UID=", m.username.value)
        else ("PWD=", m.password.value);
      assert ps[k] == key + v;
      assert ';' !in key;
    }
  }

  /** When no setting contains `;`, the connection string falls apart at its `;`s into exactly
      its five `KEY=value` parts, so each setting can be read back from it. */
  lemma ConnectionStringParts(m: MssqlConfig)
    requires Complete(m)
    requires ';' !in m.server.value && ';' !in m.database.value
    requires ';' !in m.username.value && ';' !in m.password.value
    ensures Split(ConnectionString(m), ";") == ConnectionParts(m)
  {
    PartsWithoutSemicolon(m);
    SplitJoin(ConnectionParts(m), ';');
  }

  // ---------------------------------------------------------------- the search query

  datatype Query = Query(sql: string, params: seq<string>)

  /** The base query and the order clause: the text before the first `ORDER BY`, and the text
      between the first and any second occurrence behind a fresh ` ORDER BY `. */
  function SplitOrder(table: string): (string, string) {
    var parts := Split(table, "ORDER BY");
    if |parts| > 1 then (parts[0], " ORDER BY " + parts[1]) else (table, "")
  }

  /** How the split reads the base query. */
  lemma SplitOrderSpec(table: string)
    ensures IndexOf(table, "ORDER BY").None? ==> SplitOrder(table) == (table, "")
    ensures IndexOf(table, "ORDER BY").Some? ==>
      var i := IndexOf(table, "ORDER BY").value;
      var rest := table[i + 8..];
      SplitOrder(table).0 == table[..i]
      && SplitOrder(table).1 == " ORDER BY " + UpToOrderBy(rest)
  {
    match IndexOf(table, "ORDER BY")
    case None =>
    case Some(i) =>
      var rest := table[i + 8..];
      assert Split(table, "ORDER BY") == [table[..i]] + Split(rest, "ORDER BY");
      assert Split(rest, "ORDER BY")[0] == UpToOrderBy(rest);
  }

  /** The text before the first `ORDER BY`, or all of it. */
  function UpToOrderBy(s: string): string {
    match IndexOf(s, "ORDER BY")
    case None => s
    case Some(j) => s[..j]
  }

  /** `[f"v.{col}" for col, details in mappings.items() if details.get("searchable", True)]`. */
  function MappedSearchable(maps: Mappings): (r: seq<string>)
    ensures |r| <= |maps|
    ensures forall c :: c in r <==> exists i :: 0 <= i < |maps| && maps[i].1.searchable.GetOr(true) && c == "v." + maps[i].0
  {
    if maps == [] then []
    else
      var rest := MappedSearchable(maps[1..]);
      assert forall i :: 1 <= i < |maps| ==> maps[i] == maps[1..][i - 1];
      (if maps[0].1.searchable.GetOr(true) then ["v." + maps[0].0] else []) + rest
  }

  /** `searchable_columns`, with the fall-back to `search_column` when no mapped column qualifies. */
  function SearchableColumns(maps: Mappings, searchColumn: Option<string>): (r: seq<string>)
    ensures MappedSearchable(maps) != [] ==> r == MappedSearchable(maps)
    ensures MappedSearchable(maps) == [] ==> r == (if Present(searchColumn) then ["v." + searchColumn.value] else [])
  {
    var cols := MappedSearchable(maps);
    if cols == [] && Present(searchColumn) then ["v." + searchColumn.value] else cols
  }

  /** `[f"{col} LIKE ?" for col in columns]`. */
  function LikeTerms(cols: seq<string>): (r: seq<string>)
    ensures |r| == |cols|
  {
    seq(|cols|, k requires 0 <= k < |cols| => cols[k] + " LIKE ?")
  }

  /** The base query once the order clause is cut off, `SELECT top 1` is turned into `SELECT`
      and trailing `;`s are stripped. */
  function BaseOf(table: string): string {
    RStripChar(Replace(SplitOrder(table).0, "SELECT top 1", "SELECT"), ';')
  }

  /** The text between the base query and the conditions. */
  function Glue(base: string): string {
    if Contains(base, "WHERE") then " AND (" else " WHERE "
  }

  /** The query text around the `OR`-joined conditions. */
  function Assemble(base: string, conditions: string, order: string): (sql: string)
    ensures sql == base + Glue(base) + conditions + (if Contains(base, "WHERE") then ")" else "") + order
  {
    if Contains(base, "WHERE") then base + " AND (" + conditions + ")" + order
    else base + " WHERE " + conditions + order
  }

  /** The search query of `find_awb`; `None` when there is no base query or no column to search,
      where `find_awb` returns `{}`. */
  function BuildQuery(table: Option<string>, maps: Mappings, searchColumn: Option<string>, awb: string): Option<Query> {
    var t := table.GetOr("");
    var cols := SearchableColumns(maps, searchColumn);
    if t == "" || cols == [] then None
    else
      var sql := Assemble(BaseOf(t), Join(" OR ", LikeTerms(cols)), SplitOrder(t).1);
      Some(Query(sql, seq(|cols|, _ => "%" + Strip(awb) + "%")))
  }

  /** The assembled query begins with the base query and its glue and ends with the order
      clause. */
  lemma AssembleShape(base: string, conditions: string, order: string)
    ensures StartsWith(Assemble(base, conditions, order), base + Glue(base))
    ensures |order| <= |Assemble(base, conditions, order)|
    ensures var sql := Assemble(base, conditions, order); sql[|sql| - |order|..] == order
  {
    var head := base + Glue(base);
    var mid := conditions + (if Contains(base, "WHERE") then ")" else "");
    var sql := Assemble(base, conditions, order);
    assert sql == head + mid + order;
    assert sql[..|head|] == head;
    assert sql[|sql| - |order|..] == order;
  }

  /** There is a query exactly when there is a base query and a column to search; it then
      extends the base query (its `;`s stripped) with ` AND (...)` when the base already has a
      `WHERE` and with ` WHERE ...` otherwise, ends with the order clause, and has one parameter
      per searched column, each the stripped AWB between `%` signs. */
  lemma BuildQueryShape(table: Option<string>, maps: Mappings, searchColumn: Option<string>, awb: string)
    ensures BuildQuery(table, maps, searchColumn, awb).Some? <==>
      table.GetOr("") != "" && SearchableColumns(maps, searchColumn) != []
    ensures BuildQuery(table, maps, searchColumn, awb).Some? ==>
        var q := BuildQuery(table, maps, searchColumn, awb).value;
        var base := BaseOf(table.value);
        var order := SplitOrder(table.value).1;
        StartsWith(q.sql, base + Glue(base))
        && |order| <= |q.sql| && q.sql[|q.sql| - |order|..] == order
        && (base == [] || base[|base| - 1] != ';')
        && |q.params| == |SearchableColumns(maps, searchColumn)|
        && forall k :: 0 <= k < |q.params| ==> q.params[k] == "%" + Strip(awb) + "%"
  {
    var t := table.GetOr("");
    var cols := SearchableColumns(maps, searchColumn);
    if t != "" && cols != [] {
      var base := BaseOf(t);
      var order := SplitOrder(t).1;
      var conditions := Join(" OR ", LikeTerms(cols));
      var q := BuildQuery(table, maps, searchColumn, awb).value;
      assert q == Query(Assemble(base, conditions, order), seq(|cols|, _ => "%" + Strip(awb) + "%"));
      AssembleShape(base, conditions, order);
    }
  }

  // -------------------------------------- the placeholders match the parameters

  lemma {:induction false} SplitPartsFrom(s: string, sep: string, c: char)
    requires |sep| > 0 && c !in s
    ensures forall p :: p in Split(s, sep) ==> c !in p
    decreases |s|
  {
    match IndexOf(s, sep)
    case None =>
    case Some(i) =>
      assert forall x :: x in s[..i] ==> x in s;
      assert forall x :: x in s[i + |sep|..] ==> x in s;
      SplitPartsFrom(s[i + |sep|..], sep, c);
  }

  lemma {:induction false} ReplaceFrom(s: string, target: string, repl: string, c: char)
    requires |target| > 0 && c !in s && c !in repl
    ensures c !in Replace(s, target, repl)
    decreases |s|
  {
    if |s| >= |target| {
      if s[..|target|] == target {
        assert forall x :: x in s[|target|..] ==> x in s;
        ReplaceFrom(s[|target|..], target, repl, c);
      } else {
        assert forall x :: x in s[1..] ==> x in s;
        ReplaceFrom(s[1..], target, repl, c);
      }
    }
  }

  /** Neither the base query nor the order clause gains a `?`. */
  lemma BaseNoMark(t: string)
    requires '?' !in t
    ensures '?' !in BaseOf(t) && '?' !in SplitOrder(t).1
  {
    var parts := Split(t, "ORDER BY");
    SplitPartsFrom(t, "ORDER BY", '?');
    var base0 := SplitOrder(t).0;
    assert '?' !in base0 && '?' !in SplitOrder(t).1 by {
      if |parts| > 1 {
        assert parts[0] in parts && parts[1] in parts;
      }
    }
    ReplaceFrom(base0, "SELECT top 1", "SELECT", '?');
    var replaced := Replace(base0, "SELECT top 1", "SELECT");
    assert forall x :: x in BaseOf(t) ==> x in replaced;
  }

  lemma {:induction false} LikeTermsCount(cols: seq<string>)
    requires |cols| > 0 && forall k :: 0 <= k < |cols| ==> '?' !in cols[k]
    ensures Count(Join(" OR ", LikeTerms(cols)), '?') == |cols|
    decreases |cols|
  {
    var t := LikeTerms(cols);
    CountConcat(cols[0], " LIKE ?", '?');
    CountAbsent(cols[0], '?');
    assert Count(" LIKE ?", '?') == 1;
    if |cols| >= 2 {
      assert t[1..] == LikeTerms(cols[1..]);
      LikeTermsCount(cols[1..]);
      CountConcat(t[0], " OR ", '?');
      CountConcat(t[0] + " OR ", Join(" OR ", t[1..]), '?');
      CountAbsent(" OR ", '?');
    }
  }

  /** Assembling adds no `?` of its own. */
  lemma AssembleCount(base: string, conditions: string, order: string)
    ensures Count(Assemble(base, conditions, order), '?') == Count(base, '?') + Count(conditions, '?') + Count(order, '?')
  {
    CountAbsent(" AND (", '?');
    CountAbsent(")", '?');
    CountAbsent(" WHERE ", '?');
    if Contains(base, "WHERE") {
      CountConcat(base, " AND (", '?');
      CountConcat(base + " AND (", conditions, '?');
      CountConcat(base + " AND (" + conditions, ")", '?');
      CountConcat(base + " AND (" + conditions + ")", order, '?');
    } else {
      CountConcat(base, " WHERE ", '?');
      CountConcat(base + " WHERE ", conditions, '?');
      CountConcat(base + " WHERE " + conditions, order, '?');
    }
  }

  /** Column names and base queries without a `?` of their own. */
  predicate NoMarks(table: string, maps: Mappings, searchColumn: Option<string>) {
    '?' !in table && (forall i :: 0 <= i < |maps| ==> '?' !in maps[i].0)
    && (searchColumn.Some? ==> '?' !in searchColumn.value)
  }

  lemma ColumnsNoMark(maps: Mappings, searchColumn: Option<string>)
    requires forall i :: 0 <= i < |maps| ==> '?' !in maps[i].0
    requires searchColumn.Some? ==> '?' !in searchColumn.value
    ensures forall k :: 0 <= k < |SearchableColumns(maps, searchColumn)| ==> '?' !in SearchableColumns(maps, searchColumn)[k]
  {
    var cols := SearchableColumns(maps, searchColumn);
    forall k | 0 <= k < |cols| ensures '?' !in cols[k] {
      assert cols[k] in cols;
      if MappedSearchable(maps) != [] {
        var i :| 0 <= i < |maps| && maps[i].1.searchable.GetOr(true) && cols[k] == "v." + maps[i].0;
        assert forall x :: x in cols[k] ==> x in "v." || x in maps[i].0;
      } else {
        assert forall x :: x in cols[k] ==> x in "v." || x in searchColumn.value;
      }
    }
  }

  /** Assembling a base query and an order clause without `?` around the `LIKE ?` terms gives
      one `?` per column. */
  lemma AssemblePlaceholders(base: string, cols: seq<string>, order: string)
    requires '?' !in base && '?' !in order
    requires |cols| > 0 && forall k :: 0 <= k < |cols| ==> '?' !in cols[k]
    ensures Count(Assemble(base, Join(" OR ", LikeTerms(cols)), order), '?') == |cols|
  {
    LikeTermsCount(cols);
    CountAbsent(base, '?');
    CountAbsent(order, '?');
    AssembleCount(base, Join(" OR ", LikeTerms(cols)), order);
  }

  /** When neither the base query nor a column name contains `?`, the query has exactly one `?`
      placeholder per parameter. */
  lemma PlaceholdersMatch(table: Option<string>, maps: Mappings, searchColumn: Option<string>, awb: string)
    requires table.Some? && NoMarks(table.value, maps, searchColumn)
    requires BuildQuery(table, maps, searchColumn, awb).Some?
    ensures var q := BuildQuery(table, maps, searchColumn, awb).value;
      Count(q.sql, '?') == |q.params|
  {
    var t := table.value;
    var cols := SearchableColumns(maps, searchColumn);
    var q := BuildQuery(table, maps, searchColumn, awb).value;
    assert q.sql == Assemble(BaseOf(t), Join(" OR ", LikeTerms(cols)), SplitOrder(t).1);
    assert |q.params| == |cols|;
    BaseNoMark(t);
    ColumnsNoMark(maps, searchColumn);
    AssemblePlaceholders(BaseOf(t), cols, SplitOrder(t).1);
  }

  // ---------------------------------------------------------------- the connection pool

  /** A connection, and whether it still answers `SELECT 1`. */
  datatype Conn = Conn(id: nat, alive: bool)

  const MaxPoolSize: nat := 10
  const MinPoolSize: nat := 2

  /** The pool after popping from its end until a live connection turns up: that connection
      (if any), what is left of the pool, and the closed connections with the dead ones added. */
  function TakeAlive(pool: seq<Conn>, closed: seq<Conn>): (r: (Option<Conn>, seq<Conn>, seq<Conn>))
    ensures |r.1| <= |pool| && r.1 == pool[..|r.1|]
    ensures r.0.None? ==> r.1 == []
    ensures r.0.Some? ==> |r.1| < |pool| && r.0.value == pool[|r.1|] && r.0.value.alive
    ensures forall k :: (if r.0.Some? then |r.1| + 1 else |r.1|) <= k < |pool| ==> !pool[k].alive
    ensures r.2 == closed + Reverse(pool[(if r.0.Some? then |r.1| + 1 else |r.1|)..])
    decreases |pool|
  {
    if pool == [] then (None, [], closed)
    else
      var c := pool[|pool| - 1];
      var init := pool[..|pool| - 1];
      if c.alive then
        assert pool[|pool|..] == [];
        (Some(c), init, closed)
      else
        var r := TakeAlive(init, closed + [c]);
        var from := if r.0.Some? then |r.1| + 1 else |r.1|;
        TakeAliveStep(pool, closed, r.2, from);
        assert r.1 == pool[..|r.1|];
        r
  }

  /** Closing the last, dead connection first and then the dead ones from `from` on before it
      closes all of them from `from` on, latest first. */
  lemma TakeAliveStep(pool: seq<Conn>, closed: seq<Conn>, closed': seq<Conn>, from: nat)
    requires pool != [] && from < |pool|
    requires closed' == closed + [pool[|pool| - 1]] + Reverse(pool[..|pool| - 1][from..])
    ensures closed' == closed + Reverse(pool[from..])
  {
    var c := pool[|pool| - 1];
    var mid := pool[..|pool| - 1][from..];
    assert pool[from..] == mid + [c];
    ReverseSnoc(mid, c);
    assert closed + [c] + Reverse(mid) == closed + ([c] + Reverse(mid));
  }

  function Reverse<T>(s: seq<T>): (r: seq<T>)
    ensures |r| == |s|
  {
    if s == [] then [] else Reverse(s[1..]) + [s[0]]
  }

  lemma {:induction false} ReverseSnoc<T>(s: seq<T>, x: T)
    ensures Reverse(s + [x]) == [x] + Reverse(s)
    decreases |s|
  {
    if s == [] {
    } else {
      assert (s + [x])[1..] == s[1..] + [x];
      ReverseSnoc(s[1..], x);
    }
  }

  /** `get_connection`: a live pooled connection if there is one; otherwise the pool is empty, so
      a new connection is newConn (`None` when opening fails). */
  function GetSpec(pool: seq<Conn>, closed: seq<Conn>, newConn: Option<Conn>): (Option<Conn>, seq<Conn>, seq<Conn>) {
    var (c, rest, closed') := TakeAlive(pool, closed);
    if c.Some? then (c, rest, closed') else (newConn, rest, closed')
  }

  /** `return_connection`: kept while the pool has fewer than ten connections, closed otherwise. */
  function ReturnSpec(pool: seq<Conn>, closed: seq<Conn>, conn: Option<Conn>): (r: (seq<Conn>, seq<Conn>))
    ensures conn.None? ==> r == (pool, closed)
    ensures conn.Some? && |pool| < MaxPoolSize ==> r == (pool + [conn.value], closed)
    ensures conn.Some? && |pool| >= MaxPoolSize ==> r == (pool, closed + [conn.value])
  {
    match conn
    case None => (pool, closed)
    case Some(c) => if |pool| < MaxPoolSize then (pool + [c], closed) else (pool, closed + [c])
  }

  /** Neither operation lets the pool grow beyond ten connections. */
  lemma PoolBounded(pool: seq<Conn>, closed: seq<Conn>, newConn: Option<Conn>, conn: Option<Conn>)
    requires |pool| <= MaxPoolSize
    ensures |GetSpec(pool, closed, newConn).1| <= MaxPoolSize
    ensures |ReturnSpec(pool, closed, conn).0| <= MaxPoolSize
  {
  }

  /** Taking a connection and giving it back: a live pooled connection returns to the same
      place, so the pool is as before. */
  lemma TakeThenReturn(pool: seq<Conn>, closed: seq<Conn>, newConn: Option<Conn>)
    requires |pool| <= MaxPoolSize && pool != [] && pool[|pool| - 1].alive
    ensures var (c, rest, closed') := GetSpec(pool, closed, newConn);
      ReturnSpec(rest, closed', c) == (pool, closed)
  {
    assert pool[..|pool| - 1] + [pool[|pool| - 1]] == pool;
    assert pool[|pool|..] == [];
  }

  /** When every pooled connection is dead, all of them are closed and the new connection is
      handed out; the "pool full" error is never reached. */
  lemma AllDead(pool: seq<Conn>, closed: seq<Conn>, newConn: Option<Conn>)
    requires forall k :: 0 <= k < |pool| ==> !pool[k].alive
    ensures GetSpec(pool, closed, newConn) == (newConn, [], closed + Reverse(pool))
  {
    var r := TakeAlive(pool, closed);
    assert r.0.None?;
    assert pool[0..] == pool;
  }

  // ---------------------------------------------------------------- the helper object

  /** The first result row of a query, as the database returns it; `None` when there is none. */
  type Fetch = Query -> Option<Row>

  class MssqlHelper {
    const config: MssqlConfig
    const datasource: DatasourceConfig
    const connectionString: string
    var pool: seq<Conn>
    var closed: seq<Conn>

    predicate Valid()
      reads this
    {
      |pool| <= MaxPoolSize
    }

    /** The part of `__init__` after the checks: `newConn` are the connections `_initialize_pool`
        managed to open before the first failure. */
    constructor(config: MssqlConfig, datasource: DatasourceConfig, newConn: seq<Conn>)
      requires Complete(config)
      ensures Valid()
      ensures this.config == config && this.datasource == datasource
      ensures connectionString == ConnectionString(config)
      ensures pool == (if |newConn| <= MinPoolSize then newConn else newConn[..MinPoolSize]) && closed == []
    {
      this.config := config;
      this.datasource := datasource;
      connectionString := ConnectionString(config);
      pool := if |newConn| <= MinPoolSize then newConn else newConn[..MinPoolSize];
      closed := [];
    }

    /** `get_connection`; `newConn` is what opening a new connection yields. */
    method GetConnection(newConn: Option<Conn>) returns (c: Option<Conn>)
      requires Valid()
      modifies this
      ensures Valid()
      ensures (c, pool, closed) == GetSpec(old(pool), old(closed), newConn)
    {
      ghost var spec := GetSpec(pool, closed, newConn);
      while pool != []
        invariant Valid()
        invariant GetSpec(pool, closed, newConn) == spec
        decreases |pool|
      {
        var conn := pool[|pool| - 1];
        pool := pool[..|pool| - 1];
        if conn.alive {
          return Some(conn);
        }
        closed := closed + [conn];
      }
      if |pool| >= MaxPoolSize {
        assert false;
      }
      c := newConn;
    }

    /** `return_connection`. */
    method ReturnConnection(conn: Option<Conn>)
      requires Valid()
      modifies this
      ensures Valid()
      ensures (pool, closed) == ReturnSpec(old(pool), old(closed), conn)
    {
      if conn.Some? {
        if |pool| < MaxPoolSize {
          pool := pool + [conn.value];
        } else {
          closed := closed + [conn.value];
        }
      }
    }

    /** What `find_awb` returns for a connection: nothing without a connection, a query or a row,
        and otherwise the row projected onto the visible columns. */
    function FindSpec(conn: Option<Conn>, awb: string, fetch: Fetch): Projected
      reads this
    {
      if conn.None? then []
      else
        var maps := datasource.columnMappings.GetOr([]);
        match BuildQuery(config.table, maps, datasource.searchColumn, awb)
        case None => []
        case Some(q) =>
          match fetch(q)
          case None => []
          case Some(row) => ProjectRow(maps, row)
    }

    /** `find_awb`: takes a connection, queries, and gives the connection back. */
    method FindAwb(awb: string, newConn: Option<Conn>, fetch: Fetch) returns (result: Projected)
      requires Valid()
      modifies this
      ensures Valid()
      ensures var (c, p, cl) := GetSpec(old(pool), old(closed), newConn);
        result == FindSpec(c, awb, fetch) && (pool, closed) == ReturnSpec(p, cl, c)
    {
      var conn := GetConnection(newConn);
      result := FindSpec(conn, awb, fetch);
      ReturnConnection(conn);
    }
  }

  /** `__init__` as a whole: the checks, the connection attempt (`connectOk`), then the pool. */
  method Create(cfg: ConfigArg, connectOk: bool, newConn: seq<Conn>) returns (r: Result<MssqlHelper>)
    ensures Configure(cfg).Raised? ==> r == Raised(Configure(cfg).error)
    ensures Configure(cfg).Ok? && !connectOk ==> r == Raised("ConnectionError: MSSQL bağlantısı kurulamadı!")
    ensures Configure(cfg).Ok? && connectOk ==> r.Ok?
    ensures r.Ok? ==> (Configure(cfg).Ok? && connectOk && fresh(r.value) && r.value.Valid()
                       && r.value.config == Configure(cfg).value
                       && r.value.datasource == DatasourceSection(cfg)
                       && r.value.connectionString == ConnectionString(Configure(cfg).value)
                       && r.value.pool == (if |newConn| <= MinPoolSize then newConn else newConn[..MinPoolSize])
                       && r.value.closed == [])
  {
    match Configure(cfg)
    case Raised(e) =>
      r := Raised(e);
    case Ok(m) =>
      if !connectOk {
        r := Raised("ConnectionError: MSSQL bağlantısı kurulamadı!");
      } else {
        var h := new MssqlHelper(m, DatasourceSection(cfg), newConn);
        r := Ok(h);
      }
  }
}
