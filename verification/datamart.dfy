/**
 * The datamart loader: for each aggregate table named in the configuration it queries the
 * warehouse, drops and recreates the destination table, and fills it with one tuple per
 * result row. Every table gets a "Start" row and then one "Success" or "Fail" row in
 * `load_to_dm_log`; the configuration run gets "Start" and then "Success" (or "Fail" when an
 * error escapes the table loop) in `load_to_dm_config`. Both logs are only ever appended to.
 */
module Datamart {
  import opened Wrappers
  import opened Text

  /** One `<table>` of the configuration: name, source, `groupBy` and its `<metric>` texts. */
  datatype TableSpec = TableSpec(name: string, source: string, groupBy: string, metrics: seq<string>)

  /** A warehouse result row, read through a dictionary cursor: column label to value. */
  type ResultRow = map<string, string>

  /** What the warehouse answers to the aggregate query. */
  datatype QueryResult = Rows(rows: seq<ResultRow>) | QueryError(message: string)

  /**
   * One table's work as the databases answer it: the query result, and the error, if any, that
   * the DROP, the CREATE and the bulk INSERT raise. `executemany` with no tuples sends no
   * statement, so `insertError` only matters when the query returned rows.
   */
  datatype TableJob = TableJob(spec: TableSpec, query: QueryResult, dropError: Option<string>,
                               createError: Option<string>, insertError: Option<string>)

  datatype ColumnDef = ColumnDef(name: string, sqlType: string)

  /** A datamart table: its columns, and its rows in insertion order. */
  datatype Table = Table(columns: seq<ColumnDef>, rows: seq<seq<string>>)

  /** A row of either log: the config file or table name, and the status. */
  datatype LogRow = LogRow(name: string, status: string)

  const Start := "Start"
  const Succeeded := "Success"
  const Fail := "Fail"

  // ---------------------------------------------------------------------------
  // Column names and the statement fragments

  const AsKeyword := " AS "

  /** `m.split(' AS ')[-1]` */
  function MetricName(m: string): string {
    Last(Split(m, AsKeyword))
  }

  /**
   * A metric's column name ends the metric and holds no " AS ". A metric without " AS " is its
   * own name; otherwise the name follows an " AS ".
   */
  lemma MetricNameSpec(m: string)
    ensures var n := MetricName(m);
      !Contains(n, AsKeyword) && |n| <= |m| && m[|m| - |n|..] == n
      && (!Contains(m, AsKeyword) ==> n == m)
      && (Contains(m, AsKeyword) ==> |n| + |AsKeyword| <= |m| && m[|m| - |n| - |AsKeyword|..|m| - |n|] == AsKeyword)
  {
    SplitLastNoSep(m, AsKeyword);
    SplitLastSuffix(m, AsKeyword);
    SplitSingle(m, AsKeyword);
  }

  function MetricNames(metrics: seq<string>): (r: seq<string>)
    ensures |r| == |metrics|
  {
    seq(|metrics|, i requires 0 <= i < |metrics| => MetricName(metrics[i]))
  }

  /** One line of the metric column block, with its trailing comma. */
  function MetricLine(m: string): string {
    "    " + MetricName(m) + " INT,"
  }

  function MetricLines(metrics: seq<string>): (r: seq<string>)
    ensures |r| == |metrics|
  {
    seq(|metrics|, i requires 0 <= i < |metrics| => MetricLine(metrics[i]))
  }

  /** `"\n".join(lines).rstrip(',')` */
  function MetricColumns(metrics: seq<string>): string {
    RStrip(Join("\n", MetricLines(metrics)), ',')
  }

  /**
   * The metric block is the metric lines one per line, and only the last line loses its
   * trailing comma; no metrics give an empty block.
   */
  lemma MetricColumnsForm(metrics: seq<string>)
    ensures |metrics| == 0 ==> MetricColumns(metrics) == ""
    ensures |metrics| > 0 ==>
      var lines := MetricLines(metrics);
      MetricColumns(metrics)
      == Join("\n", lines[..|lines| - 1] + ["    " + MetricName(metrics[|metrics| - 1]) + " INT"])
  {
    if |metrics| > 0 {
      var lines := MetricLines(metrics);
      var init := lines[..|lines| - 1];
      var last := "    " + MetricName(metrics[|metrics| - 1]) + " INT";
      assert " INT," == " INT" + ",";
      assert lines[|lines| - 1] == last + ",";
      assert lines == init + [last + ","];
      var whole := Join("\n", lines);
      if |init| == 0 {
        assert whole == last + ",";
        assert Join("\n", init + [last]) == last;
      } else {
        JoinSnoc("\n", init, last + ",");
        JoinSnoc("\n", init, last);
        assert whole == Join("\n", init + [last]) + ",";
      }
      assert whole[..|whole| - 1] == Join("\n", init + [last]);
      assert whole[|whole| - 2] == 'T';
    }
  }

  /** The created table: the group column as VARCHAR(255), then one INT column per metric. */
  function CreateColumns(spec: TableSpec): (r: seq<ColumnDef>)
    ensures |r| == 1 + |spec.metrics|
    ensures r[0] == ColumnDef(spec.groupBy, "VARCHAR(255)")
    ensures forall i :: 0 <= i < |spec.metrics| ==> r[i + 1] == ColumnDef(MetricName(spec.metrics[i]), "INT")
  {
    [ColumnDef(spec.groupBy, "VARCHAR(255)")]
    + seq(|spec.metrics|, i requires 0 <= i < |spec.metrics| => ColumnDef(MetricName(spec.metrics[i]), "INT"))
  }

  /** A column as a CREATE TABLE statement declares it: its name, a space, its type. */
  function ColumnText(c: ColumnDef): string {
    c.name + " " + c.sqlType
  }

  const CreateHead := "\n                CREATE TABLE "
  const LineBreak := "\n                    "
  const CreateTail := "\n                )\n            "

  /** `create_sql`, the triple-quoted statement with its indentation. */
  function CreateSql(spec: TableSpec): string {
    CreateHead + spec.name + " (" + LineBreak + spec.groupBy + " VARCHAR(255)," + LineBreak
    + MetricColumns(spec.metrics) + CreateTail
  }

  /** A metric column's line in the CREATE statement, before any trailing comma. */
  function DeclLine(c: ColumnDef): string {
    "    " + ColumnText(c)
  }

  lemma MetricLineDeclares(m: string)
    ensures MetricLine(m) == DeclLine(ColumnDef(MetricName(m), "INT")) + ","
    ensures "    " + MetricName(m) + " INT" == DeclLine(ColumnDef(MetricName(m), "INT"))
  {
    assert " INT" == " " + "INT";
    assert " INT," == " INT" + ",";
  }

  /** The metric block declares the metric columns one per line, all but the last with a comma. */
  lemma MetricBlockDeclares(spec: TableSpec)
    requires |spec.metrics| > 0
    ensures var cols := CreateColumns(spec);
      var n := |spec.metrics|;
      MetricColumns(spec.metrics)
      == Join("\n", seq(n - 1, i requires 0 <= i < n - 1 => DeclLine(cols[i + 1]) + ",") + [DeclLine(cols[n])])
  {
    var cols := CreateColumns(spec);
    var n := |spec.metrics|;
    var lines := MetricLines(spec.metrics);
    assert lines[..n - 1] == seq(n - 1, i requires 0 <= i < n - 1 => DeclLine(cols[i + 1]) + ",") by {
      forall i | 0 <= i < n - 1
        ensures lines[i] == DeclLine(cols[i + 1]) + ","
      {
        MetricLineDeclares(spec.metrics[i]);
      }
    }
    MetricLineDeclares(spec.metrics[n - 1]);
    MetricColumnsForm(spec.metrics);
  }

  /**
   * The CREATE statement declares exactly the created columns, in order: the group column on
   * its own line with a comma, then one line per metric column, every one but the last ending
   * in a comma.
   */
  lemma CreateDeclaresColumns(spec: TableSpec)
    requires |spec.metrics| > 0
    ensures var cols := CreateColumns(spec);
      var n := |spec.metrics|;
      CreateSql(spec)
      == CreateHead + spec.name + " (" + LineBreak + ColumnText(cols[0]) + "," + LineBreak
         + Join("\n", seq(n - 1, i requires 0 <= i < n - 1 => DeclLine(cols[i + 1]) + ",") + [DeclLine(cols[n])])
         + CreateTail
  {
    MetricBlockDeclares(spec);
    assert " VARCHAR(255)," == " " + "VARCHAR(255)" + ",";
  }

  /** `", ".join([group_by] + metric_names)` */
  function InsertColumns(spec: TableSpec): string {
    Join(", ", [spec.groupBy] + MetricNames(spec.metrics))
  }

  function Repeat(s: string, n: nat): (r: seq<string>)
    ensures |r| == n
  {
    seq(n, _ => s)
  }

  /** `", ".join(["%s"] * (1 + len(metric_names)))` */
  function Placeholder(metricCount: nat): string {
    Join(", ", Repeat("%s", 1 + metricCount))
  }

  /** `s` written `n` times. */
  function Times(s: string, n: nat): string {
    if n == 0 then "" else Times(s, n - 1) + s
  }

  /**
   * The insert has one `%s` for the group column and one more per metric: the placeholder
   * text is `%s` followed by `, %s` once per metric.
   */
  lemma {:induction false} PlaceholderForm(metricCount: nat)
    ensures Placeholder(metricCount) == "%s" + Times(", %s", metricCount)
    ensures |Placeholder(metricCount)| == 2 + 4 * metricCount
  {
    if metricCount > 0 {
      PlaceholderForm(metricCount - 1);
      JoinSnoc(", ", Repeat("%s", metricCount), "%s");
      assert Repeat("%s", metricCount) + ["%s"] == Repeat("%s", 1 + metricCount);
    }
  }

  /**
   * The insert names the columns the create made, in the same order: the column list is the
   * created columns' names joined by ", ".
   */
  lemma InsertMatchesCreate(spec: TableSpec)
    ensures var cols := CreateColumns(spec);
      InsertColumns(spec) == Join(", ", seq(|cols|, i requires 0 <= i < |cols| => cols[i].name))
  {
    var cols := CreateColumns(spec);
    assert seq(|cols|, i requires 0 <= i < |cols| => cols[i].name) == [spec.groupBy] + MetricNames(spec.metrics);
  }

  // ---------------------------------------------------------------------------
  // The tuples

  /** `[r[group_by]] + [r[name] for name in metric_names]`, None where a key is missing. */
  function RowTuple(r: ResultRow, groupBy: string, names: seq<string>): (t: Option<seq<string>>)
    ensures t.Some? <==> groupBy in r && forall j :: 0 <= j < |names| ==> names[j] in r
    ensures t.Some? ==> (|t.value| == 1 + |names| && t.value[0] == r[groupBy]
                         && forall j :: 0 <= j < |names| ==> t.value[j + 1] == r[names[j]])
  {
    if groupBy in r && forall j :: 0 <= j < |names| ==> names[j] in r then
      Some([r[groupBy]] + seq(|names|, j requires 0 <= j < |names| && names[j] in r => r[names[j]]))
    else None
  }

  /** The tuples of all rows, in order, or None when some row lacks a key (KeyError). */
  function Tuples(rows: seq<ResultRow>, groupBy: string, names: seq<string>): Option<seq<seq<string>>> {
    if |rows| == 0 then Some([])
    else match Tuples(rows[..|rows| - 1], groupBy, names)
      case None => None
      case Some(init) =>
        match RowTuple(rows[|rows| - 1], groupBy, names)
        case None => None
        case Some(t) => Some(init + [t])
  }

  /** One tuple per result row, each the row's tuple; None exactly when some row lacks a key. */
  lemma {:induction false} TuplesSpec(rows: seq<ResultRow>, groupBy: string, names: seq<string>)
    ensures Tuples(rows, groupBy, names).Some? <==>
      forall i :: 0 <= i < |rows| ==> RowTuple(rows[i], groupBy, names).Some?
    ensures Tuples(rows, groupBy, names).Some? ==>
      |Tuples(rows, groupBy, names).value| == |rows|
      && forall i :: 0 <= i < |rows| ==> Tuples(rows, groupBy, names).value[i] == RowTuple(rows[i], groupBy, names).value
  {
    if |rows| > 0 {
      var init := rows[..|rows| - 1];
      TuplesSpec(init, groupBy, names);
      assert forall i :: 0 <= i < |init| ==> rows[i] == init[i];
    }
  }

  // ---------------------------------------------------------------------------
  // One table

  /** Whether a table's `try` body runs to the end. */
  predicate TableSucceeds(job: TableJob) {
    job.query.Rows? && job.dropError.None? && job.createError.None?
    && Tuples(job.query.rows, job.spec.groupBy, MetricNames(job.spec.metrics)).Some?
    && (job.insertError.None? || |job.query.rows| == 0)
  }

  /**
   * The datamart after one table's `try` body: nothing happens if the query or the DROP fails;
   * after the DROP the table is gone until the CREATE makes it empty; it is filled only when
   * every tuple builds and the bulk insert goes through (an empty insert always does).
   */
  function TableEffect(dm: map<string, Table>, job: TableJob): map<string, Table> {
    var name := job.spec.name;
    if job.query.QueryError? || job.dropError.Some? then dm
    else if job.createError.Some? then dm - {name}
    else
      var empty := Table(CreateColumns(job.spec), []);
      match Tuples(job.query.rows, job.spec.groupBy, MetricNames(job.spec.metrics))
      case None => dm[name := empty]
      case Some(data) =>
        if job.insertError.Some? && |data| > 0 then dm[name := empty] else dm[name := Table(CreateColumns(job.spec), data)]
  }

  /** Whether a table's `try` body gets past the DROP, after which the old table is gone. */
  predicate PastDrop(job: TableJob) {
    job.query.Rows? && job.dropError.None?
  }

  /**
   * A table touches only its own name; a failed query or DROP leaves the datamart as it was,
   * and a table whose run succeeds holds exactly this run's tuples under the created columns,
   * whatever it held before.
   */
  lemma TableEffectSpec(dm: map<string, Table>, job: TableJob)
    ensures !PastDrop(job) ==> TableEffect(dm, job) == dm
    ensures forall k :: k != job.spec.name ==>
      (k in TableEffect(dm, job) <==> k in dm) && (k in dm ==> TableEffect(dm, job)[k] == dm[k])
    ensures TableSucceeds(job) ==>
      (job.spec.name in TableEffect(dm, job)
       && TableEffect(dm, job)[job.spec.name]
          == Table(CreateColumns(job.spec), Tuples(job.query.rows, job.spec.groupBy, MetricNames(job.spec.metrics)).value))
    ensures !TableSucceeds(job) && PastDrop(job) ==>
      (job.createError.Some? ==> job.spec.name !in TableEffect(dm, job))
      && (job.createError.None? ==> TableEffect(dm, job)[job.spec.name] == Table(CreateColumns(job.spec), []))
  {
  }

  /** The status row that closes a table. */
  function TableStatus(job: TableJob): string {
    if TableSucceeds(job) then Succeeded else Fail
  }

  // ---------------------------------------------------------------------------
  // The whole run

  /** The datamart after the table loop. */
  function TablesAfter(dm: map<string, Table>, jobs: seq<TableJob>): map<string, Table> {
    if |jobs| == 0 then dm else TableEffect(TablesAfter(dm, jobs[..|jobs| - 1]), jobs[|jobs| - 1])
  }

  /** The table log rows the loop appends: Start and then the closing status, per table. */
  function TableLogRows(jobs: seq<TableJob>): (r: seq<LogRow>)
    ensures |r| == 2 * |jobs|
  {
    if |jobs| == 0 then []
    else TableLogRows(jobs[..|jobs| - 1])
         + [LogRow(jobs[|jobs| - 1].spec.name, Start), LogRow(jobs[|jobs| - 1].spec.name, TableStatus(jobs[|jobs| - 1]))]
  }

  /**
   * Every table, in order, gets exactly a Start row and then its own closing row: a failing
   * table neither stops nor changes the rows of the tables after it.
   */
  lemma {:induction false} TableLogShape(jobs: seq<TableJob>)
    ensures forall i :: 0 <= i < |jobs| ==>
      TableLogRows(jobs)[2 * i] == LogRow(jobs[i].spec.name, Start)
      && TableLogRows(jobs)[2 * i + 1] == LogRow(jobs[i].spec.name, TableStatus(jobs[i]))
  {
    if |jobs| > 0 {
      var init := jobs[..|jobs| - 1];
      TableLogShape(init);
      assert forall i :: 0 <= i < |init| ==> jobs[i] == init[i];
    }
  }

  /**
   * After the run a table holds what the last job naming it that got past the DROP left: this
   * run's tuples when that job succeeded. Later jobs whose query or DROP fails leave it alone.
   */
  lemma {:induction false} LastJobDecides(dm: map<string, Table>, jobs: seq<TableJob>, i: nat)
    requires i < |jobs| && TableSucceeds(jobs[i])
    requires forall j :: i < j < |jobs| && jobs[j].spec.name == jobs[i].spec.name ==> !PastDrop(jobs[j])
    ensures jobs[i].spec.name in TablesAfter(dm, jobs)
    ensures TablesAfter(dm, jobs)[jobs[i].spec.name]
         == Table(CreateColumns(jobs[i].spec),
                  Tuples(jobs[i].query.rows, jobs[i].spec.groupBy, MetricNames(jobs[i].spec.metrics)).value)
  {
    var n := |jobs| - 1;
    if i == n {
      TableEffectSpec(TablesAfter(dm, jobs[..n]), jobs[n]);
    } else {
      LastJobDecides(dm, jobs[..n], i);
      TableEffectSpec(TablesAfter(dm, jobs[..n]), jobs[n]);
    }
  }

  /**
   * When the last job naming a table that got past the DROP fails, the table is gone if its
   * CREATE failed, and otherwise it is left empty under the created columns.
   */
  lemma {:induction false} LastFailedJobDecides(dm: map<string, Table>, jobs: seq<TableJob>, i: nat)
    requires i < |jobs| && PastDrop(jobs[i]) && !TableSucceeds(jobs[i])
    requires forall j :: i < j < |jobs| && jobs[j].spec.name == jobs[i].spec.name ==> !PastDrop(jobs[j])
    ensures jobs[i].createError.Some? ==> jobs[i].spec.name !in TablesAfter(dm, jobs)
    ensures jobs[i].createError.None? ==>
      jobs[i].spec.name in TablesAfter(dm, jobs)
      && TablesAfter(dm, jobs)[jobs[i].spec.name] == Table(CreateColumns(jobs[i].spec), [])
  {
    var n := |jobs| - 1;
    if i == n {
      TableEffectSpec(TablesAfter(dm, jobs[..n]), jobs[n]);
    } else {
      LastFailedJobDecides(dm, jobs[..n], i);
      TableEffectSpec(TablesAfter(dm, jobs[..n]), jobs[n]);
    }
  }

  lemma {:induction false} UnnamedTableKept(dm: map<string, Table>, jobs: seq<TableJob>, k: string)
    requires forall j :: 0 <= j < |jobs| ==> jobs[j].spec.name != k
    ensures k in TablesAfter(dm, jobs) <==> k in dm
    ensures k in dm ==> TablesAfter(dm, jobs)[k] == dm[k]
  {
    if |jobs| > 0 {
      var n := |jobs| - 1;
      UnnamedTableKept(dm, jobs[..n], k);
      TableEffectSpec(TablesAfter(dm, jobs[..n]), jobs[n]);
    }
  }

  class Loader {
    /** `load_to_dm_config` */
    var configLog: seq<LogRow>
    /** `load_to_dm_log` */
    var tableLog: seq<LogRow>
    /** The datamart database's tables, by name. */
    var datamart: map<string, Table>

    constructor(configs: seq<LogRow>, tables: seq<LogRow>, dm: map<string, Table>)
      ensures configLog == configs && tableLog == tables && datamart == dm
    {
      configLog, tableLog, datamart := configs, tables, dm;
    }

    /** `log_config(cursor, config_file, status)`: one appended row. */
    method LogConfig(configFile: string, status: string)
      modifies this
      ensures configLog == old(configLog) + [LogRow(configFile, status)]
      ensures tableLog == old(tableLog) && datamart == old(datamart)
    {
      configLog := configLog + [LogRow(configFile, status)];
    }

    /** `log_table(cursor, table_name, status)`: one appended row. */
    method LogTable(tableName: string, status: string)
      modifies this
      ensures tableLog == old(tableLog) + [LogRow(tableName, status)]
      ensures configLog == old(configLog) && datamart == old(datamart)
    {
      tableLog := tableLog + [LogRow(tableName, status)];
    }

    /** The `for r in rows` loop building `insert_data`. */
    static method BuildTuples(rows: seq<ResultRow>, groupBy: string, names: seq<string>)
      returns (data: Option<seq<seq<string>>>)
      ensures data == Tuples(rows, groupBy, names)
    {
      var acc: seq<seq<string>> := [];
      var i := 0;
      while i < |rows|
        invariant 0 <= i <= |rows|
        invariant Tuples(rows[..i], groupBy, names) == Some(acc)
      {
        assert rows[..i + 1][..i] == rows[..i];
        var t := RowTuple(rows[i], groupBy, names);
        if t.None? {
          TuplesStops(rows, groupBy, names, i + 1);
          return None;
        }
        acc := acc + [t.value];
        i := i + 1;
      }
      assert rows[..i] == rows;
      data := Some(acc);
    }

    /**
     * The `try` body for one table: query, drop, create, build the tuples, insert. Returns
     * whether it ran to the end.
     */
    method LoadTable(job: TableJob) returns (ok: bool)
      modifies this
      ensures ok == TableSucceeds(job) && datamart == TableEffect(old(datamart), job)
      ensures configLog == old(configLog) && tableLog == old(tableLog)
    {
      var spec := job.spec;
      if job.query.QueryError? || job.dropError.Some? {
        return false;
      }
      datamart := datamart - {spec.name};
      if job.createError.Some? {
        return false;
      }
      var columns := CreateColumns(spec);
      datamart := datamart[spec.name := Table(columns, [])];
      var names := MetricNames(spec.metrics);
      var data := BuildTuples(job.query.rows, spec.groupBy, names);
      if data.None? || (job.insertError.Some? && |data.value| > 0) {
        return false;
      }
      datamart := datamart[spec.name := Table(columns, data.value)];
      ok := true;
    }

    /** One pass of the table loop: log Start, run the body, log Success or Fail. */
    method ProcessTable(job: TableJob)
      modifies this
      ensures datamart == TableEffect(old(datamart), job)
      ensures tableLog == old(tableLog) + [LogRow(job.spec.name, Start), LogRow(job.spec.name, TableStatus(job))]
      ensures configLog == old(configLog)
    {
      LogTable(job.spec.name, Start);
      var ok := LoadTable(job);
      LogTable(job.spec.name, if ok then Succeeded else Fail);
    }

    /**
     * The job: log the configuration Start, connect, run every table in order, log Success.
     * When connecting raises, the configuration is logged Fail and no table runs.
     */
    method Run(configFile: string, jobs: seq<TableJob>, connectFails: bool)
      modifies this
      ensures connectFails ==>
        configLog == old(configLog) + [LogRow(configFile, Start), LogRow(configFile, Fail)]
        && tableLog == old(tableLog) && datamart == old(datamart)
      ensures !connectFails ==>
        configLog == old(configLog) + [LogRow(configFile, Start), LogRow(configFile, Succeeded)]
        && tableLog == old(tableLog) + TableLogRows(jobs)
        && datamart == TablesAfter(old(datamart), jobs)
    {
      LogConfig(configFile, Start);
      if connectFails {
        LogConfig(configFile, Fail);
        return;
      }
      var i := 0;
      while i < |jobs|
        invariant 0 <= i <= |jobs|
        invariant configLog == old(configLog) + [LogRow(configFile, Start)]
        invariant tableLog == old(tableLog) + TableLogRows(jobs[..i])
        invariant datamart == TablesAfter(old(datamart), jobs[..i])
      {
        assert jobs[..i + 1][..i] == jobs[..i];
        ProcessTable(jobs[i]);
        i := i + 1;
      }
      assert jobs[..i] == jobs;
      LogConfig(configFile, Succeeded);
    }
  }

  /** Once a row lacks a key, the tuples of any longer prefix are None as well. */
  lemma {:induction false} TuplesStops(rows: seq<ResultRow>, groupBy: string, names: seq<string>, i: nat)
    requires 0 < i <= |rows| && Tuples(rows[..i], groupBy, names).None?
    ensures Tuples(rows, groupBy, names).None?
    decreases |rows|
  {
    if i < |rows| {
      assert rows[..|rows| - 1][..i] == rows[..i];
      TuplesStops(rows[..|rows| - 1], groupBy, names, i);
    } else {
      assert rows[..i] == rows;
    }
  }
}
