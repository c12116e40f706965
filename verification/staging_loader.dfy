/**
 * The staging loader: one run finds the CSV files of one source/date partition, truncates the
 * temp table once, then loads every file on its own, each under its own `load_log` row that
 * goes RUNNING -> SUCCESS or FAILED. A file that fails leaves the others alone.
 */
module StagingLoader {
  import opened Wrappers
  import opened Text
  import opened Calendar
  import opened ControlStore

  /**
   * A temp-table row: the values of the nine columns, in `Columns` order, each NULL when the
   * file lacks that column.
   */
  datatype TempRow = TempRow(values: seq<Option<string>>) {
    /** The value of column `k`, NULL past the end. */
    function Column(k: nat): Option<string> {
      if k < |values| then values[k] else None
    }
    function JobId(): Option<string> { Column(0) }
    function Title(): Option<string> { Column(1) }
    function Company(): Option<string> { Column(2) }
    function Salary(): Option<string> { Column(3) }
    function Location(): Option<string> { Column(4) }
    function Experience(): Option<string> { Column(5) }
    function PostedTime(): Option<string> { Column(6) }
    function Url(): Option<string> { Column(7) }
    function ExtractedDate(): Option<string> { Column(8) }
  }

  /** The header the scrapers write, in the order the loader reads the columns. */
  const Columns: seq<string> := ["job_id", "job_title", "company_name", "salary", "location",
                                 "experience_required", "posted_time", "job_url", "extracted_date"]

  /**
   * What reading a file as CSV yields: its records (a blank line is the empty record), or the
   * text of the error opening, decoding or parsing it raises.
   */
  datatype CsvContent = Records(records: seq<seq<string>>) | Unreadable(message: string)

  /** A file the glob returned, with the error the bulk insert of its rows raises, if any. */
  datatype CsvFile = CsvFile(path: string, content: CsvContent, insertError: Option<string>)

  // ---------------------------------------------------------------------------
  // The partition the run reads

  /** Everything of the search pattern before its single `*`. */
  function PatternPrefix(rawPath: string, sourceId: string, runDate: Date): string
    requires Calendar.Valid(runDate)
  {
    rawPath + "/source=" + sourceId + "/date=" + FormatDate(runDate) + "/" + sourceId + "_"
  }

  const PatternSuffix := ".csv"

  /** `{raw_path}/source={id}/date={YYYY-MM-DD}/{id}_*.csv` */
  function SearchPattern(rawPath: string, sourceId: string, runDate: Date): string
    requires Calendar.Valid(runDate)
  {
    PatternPrefix(rawPath, sourceId, runDate) + "*" + PatternSuffix
  }

  /**
   * A path the glob of `prefix + "*" + suffix` returns: it starts with the prefix, ends with the
   * suffix, and what the `*` stands for holds no '/'.
   */
  predicate GlobMatch(prefix: string, suffix: string, path: string) {
    |prefix| + |suffix| <= |path| && path[..|prefix|] == prefix
    && path[|path| - |suffix|..] == suffix
    && forall i :: |prefix| <= i < |path| - |suffix| ==> path[i] != '/'
  }

  /** `os.path.basename(path)`: what follows the last '/'. */
  function Basename(path: string): string
    decreases |path|
  {
    if |path| == 0 || path[|path| - 1] == '/' then ""
    else Basename(path[..|path| - 1]) + [path[|path| - 1]]
  }

  /** The base name is a '/'-free tail of the path that starts right after a '/' or at the start. */
  lemma {:induction false} BasenameTail(path: string)
    ensures var r := Basename(path);
      (forall i :: 0 <= i < |r| ==> r[i] != '/')
      && |r| <= |path| && path[|path| - |r|..] == r
      && (|r| < |path| ==> path[|path| - |r| - 1] == '/')
    decreases |path|
  {
    if |path| > 0 && path[|path| - 1] != '/' {
      var init := path[..|path| - 1];
      BasenameTail(init);
      var r := Basename(init);
      assert path[|path| - |r| - 1..] == init[|init| - |r|..] + [path[|path| - 1]];
    }
  }

  // ---------------------------------------------------------------------------
  // csv.DictReader and row.get

  /** The position of the last header cell named `name`: the one `dict(zip(...))` keeps. */
  function LastIndex(header: seq<string>, name: string): Option<nat> {
    if |header| == 0 then None
    else if header[|header| - 1] == name then Some(|header| - 1)
    else LastIndex(header[..|header| - 1], name)
  }

  /**
   * `row.get(name)`: the record's value under the last header cell of that name, or NULL when the
   * header has no such cell or the record is too short to reach it (DictReader's `restval`).
   */
  function FieldOf(header: seq<string>, record: seq<string>, name: string): Option<string> {
    match LastIndex(header, name)
    case None => None
    case Some(j) => if j < |record| then Some(record[j]) else None
  }

  /** The cell `dict(zip(header, record))` keeps for a name is the last one, and only a missing
      name or a short record gives NULL. */
  lemma {:induction false} LastCellWins(header: seq<string>, record: seq<string>, name: string)
    ensures name !in header ==> FieldOf(header, record, name) == None
    ensures name in header ==> exists j :: (0 <= j < |header| && header[j] == name
      && (forall k :: j < k < |header| ==> header[k] != name)
      && FieldOf(header, record, name) == (if j < |record| then Some(record[j]) else None))
  {
    LastIndexSpec(header, name);
  }

  lemma {:induction false} LastIndexSpec(header: seq<string>, name: string)
    ensures LastIndex(header, name).None? <==> name !in header
    ensures LastIndex(header, name).Some? ==> var j := LastIndex(header, name).value;
      j < |header| && header[j] == name && forall k :: j < k < |header| ==> header[k] != name
  {
    if |header| > 0 && header[|header| - 1] != name {
      LastIndexSpec(header[..|header| - 1], name);
      assert header == header[..|header| - 1] + [header[|header| - 1]];
    }
  }

  /** `row.get(name)` for each name in turn. */
  function Fields(header: seq<string>, record: seq<string>, names: seq<string>): (r: seq<Option<string>>)
    ensures |r| == |names|
  {
    seq(|names|, k requires 0 <= k < |names| => FieldOf(header, record, names[k]))
  }

  /** The nine-column tuple of one record, in the fixed column order. */
  function RowOf(header: seq<string>, record: seq<string>): TempRow {
    TempRow(Fields(header, record, Columns))
  }

  /** The records after the header that DictReader yields: blank ones are skipped. */
  function NonBlank(records: seq<seq<string>>): (r: seq<seq<string>>)
    ensures |r| <= |records|
    ensures forall i :: 0 <= i < |r| ==> r[i] != [] && r[i] in records
  {
    if |records| == 0 then []
    else NonBlank(records[..|records| - 1]) + (if records[|records| - 1] == [] then [] else [records[|records| - 1]])
  }

  /** The rows built from the records after the header, in file order. */
  function Body(header: seq<string>, records: seq<seq<string>>): seq<TempRow> {
    if |records| == 0 then []
    else Body(header, records[..|records| - 1])
         + (if records[|records| - 1] == [] then [] else [RowOf(header, records[|records| - 1])])
  }

  /** All rows of a file: the first record is the header, even when it is blank. */
  function Parse(records: seq<seq<string>>): seq<TempRow> {
    if |records| == 0 then [] else Body(records[0], records[1..])
  }

  /** One row per non-blank record after the header, each read through that header. */
  lemma {:induction false} BodyRows(header: seq<string>, records: seq<seq<string>>)
    ensures |Body(header, records)| == |NonBlank(records)|
    ensures forall i :: 0 <= i < |NonBlank(records)| ==> Body(header, records)[i] == RowOf(header, NonBlank(records)[i])
  {
    if |records| > 0 {
      BodyRows(header, records[..|records| - 1]);
    }
  }

  /** A header with one cell per name reads each name from its own column. */
  lemma LastIndexDistinct(header: seq<string>, j: nat)
    requires j < |header| && forall a, b :: 0 <= a < b < |header| ==> header[a] != header[b]
    ensures LastIndex(header, header[j]) == Some(j)
  {
  }

  lemma ColumnsDistinct()
    ensures forall a, b :: 0 <= a < b < |Columns| ==> Columns[a] != Columns[b]
  {
  }

  /** Under the scrapers' header a full record fills the nine columns in order. */
  lemma StandardHeader(record: seq<string>)
    requires |record| >= |Columns|
    ensures |RowOf(Columns, record).values| == |Columns|
    ensures forall k :: 0 <= k < |Columns| ==> RowOf(Columns, record).values[k] == Some(record[k])
  {
    ColumnsDistinct();
    forall j | 0 <= j < |Columns| ensures FieldOf(Columns, record, Columns[j]) == Some(record[j]) {
      LastIndexDistinct(Columns, j);
    }
  }

  /** The rows of a file, as the loop over the DictReader builds them. */
  method ParseRows(records: seq<seq<string>>) returns (data: seq<TempRow>)
    ensures data == Parse(records)
  {
    data := [];
    if |records| == 0 {
      return;
    }
    var header := records[0];
    var i := 1;
    while i < |records|
      invariant 1 <= i <= |records|
      invariant data == Body(header, records[1..i])
    {
      assert records[1..i + 1][..i - 1] == records[1..i];
      if records[i] != [] {
        data := data + [RowOf(header, records[i])];
      }
      i := i + 1;
    }
    assert records[1..i] == records[1..];
  }

  // ---------------------------------------------------------------------------
  // One file's fate

  const LoadedMessage := "Loaded to temp"

  /** The rows a file adds to the temp table: all of them, or none when it fails. */
  function FileRows(f: CsvFile): seq<TempRow> {
    match f.content
    case Unreadable(_) => []
    case Records(records) =>
      var data := Parse(records);
      if |data| > 0 && f.insertError.Some? then [] else data
  }

  /**
   * The update that closes a file's log row: SUCCESS with the row count and "Loaded to temp",
   * or FAILED with 0 rows and the error text. An empty file inserts nothing and so succeeds.
   */
  function FilePatch(f: CsvFile): Patch {
    match f.content
    case Unreadable(msg) => Patch(Failed, Some(0), None, None, Some(msg))
    case Records(records) =>
      var data := Parse(records);
      if |data| > 0 && f.insertError.Some? then Patch(Failed, Some(0), None, None, f.insertError)
      else Patch(Status.Success, Some(|data|), None, None, Some(LoadedMessage))
  }

  /** The closing update agrees with what the file added to the temp table. */
  lemma FilePatchAgrees(f: CsvFile)
    ensures var p := FilePatch(f);
      p.status.Terminal() && p.rows.Some? && p.message.Some? && p.path.None? && p.size.None?
      && (p.status == Status.Success ==> p.rows.value == |FileRows(f)| && p.message.value == LoadedMessage)
      && (p.status == Failed ==> p.rows.value == 0 && FileRows(f) == [])
      && (f.content.Unreadable? ==> p == Patch(Failed, Some(0), None, None, Some(f.content.message)))
  {
  }

  /** The row a file leaves in `load_log` under id `id`. */
  function FileLogRow(id: nat, f: CsvFile): LogRow {
    Apply(LogRow(id, Basename(f.path), f.path, Running, None, None, None, None), FilePatch(f))
  }

  /** The rows a run leaves in `load_log`, one per file, under consecutive ids from `first`. */
  function FileLogs(first: nat, files: seq<CsvFile>): (r: seq<LogRow>)
    ensures |r| == |files|
  {
    seq(|files|, i requires 0 <= i < |files| => FileLogRow(first + i, files[i]))
  }

  /** What each file adds to the temp table, file by file. */
  function Outputs(files: seq<CsvFile>): (r: seq<seq<TempRow>>)
    ensures |r| == |files|
  {
    seq(|files|, i requires 0 <= i < |files| => FileRows(files[i]))
  }

  /** The temp table after a run: the rows of the files that loaded, in file order. */
  function LoadedRows(files: seq<CsvFile>): seq<TempRow> {
    Flatten(Outputs(files))
  }

  /** Every file's log row ends terminal, names the file, and counts exactly the rows it added. */
  lemma FileLogAgrees(id: nat, f: CsvFile)
    ensures FileLogRow(id, f).id == id && FileLogRow(id, f).status.Terminal()
    ensures FileLogRow(id, f).unit == Basename(f.path) && FileLogRow(id, f).detail == f.path
    ensures FileLogRow(id, f).status == Status.Success ==> FileLogRow(id, f).rows == Some(|FileRows(f)|)
    ensures FileLogRow(id, f).status == Failed ==> FileLogRow(id, f).rows == Some(0) && FileRows(f) == []
  {
    FilePatchAgrees(f);
  }

  /** A failing file changes nothing in the temp table: the run loads what it would without it. */
  lemma FailedFileIsolated(files: seq<CsvFile>, i: nat)
    requires i < |files| && FilePatch(files[i]).status == Failed
    ensures LoadedRows(files) == LoadedRows(files[..i] + files[i + 1..])
  {
    var outs := Outputs(files);
    FlattenDropEmpty(outs, i);
    assert outs[..i] + outs[i + 1..] == Outputs(files[..i] + files[i + 1..]);
  }

  /** The rows the SUCCESS log rows report, summed. */
  function ReportedRows(logs: seq<LogRow>): nat {
    Sum(seq(|logs|, i requires 0 <= i < |logs| =>
      if logs[i].status == Status.Success then logs[i].rows.GetOr(0) else 0))
  }

  /** The temp table holds exactly as many rows as the run's SUCCESS log rows report. */
  lemma LoadedCount(first: nat, files: seq<CsvFile>)
    ensures |LoadedRows(files)| == ReportedRows(FileLogs(first, files))
  {
    var logs := FileLogs(first, files);
    var lens := seq(|logs|, i requires 0 <= i < |logs| =>
      if logs[i].status == Status.Success then logs[i].rows.GetOr(0) else 0);
    forall i | 0 <= i < |files| ensures lens[i] == |Outputs(files)[i]| {
      FileLogAgrees(first + i, files[i]);
    }
    FlattenLength(Outputs(files), lens);
  }

  /** Loading file `i` after the first `i` appends its log row. */
  lemma LogsStep(first: nat, files: seq<CsvFile>, i: nat)
    requires i < |files|
    ensures FileLogs(first, files[..i]) + [FileLogRow(first + i, files[i])] == FileLogs(first, files[..i + 1])
  {
    var a := FileLogs(first, files[..i]) + [FileLogRow(first + i, files[i])];
    var b := FileLogs(first, files[..i + 1]);
    assert forall k :: 0 <= k < i ==> a[k] == b[k];
  }

  /** Loading file `i` after the first `i` appends its rows. */
  lemma RowsStep(files: seq<CsvFile>, i: nat)
    requires i < |files|
    ensures LoadedRows(files[..i]) + FileRows(files[i]) == LoadedRows(files[..i + 1])
  {
    var outs := Outputs(files[..i + 1]);
    assert outs[..i] == Outputs(files[..i]);
  }

  // ---------------------------------------------------------------------------
  // The loader

  class Loader {
    /** `db_staging.staging_topcv_jobs_temp` */
    var tempTable: seq<TempRow>
    /** `db_control.load_log` */
    var loadLog: seq<LogRow>
    /** `self.log_id`: the id of the file's log row being written, 0 before the first file. */
    var logId: nat

    ghost predicate Valid()
      reads this
    {
      ControlStore.Valid(loadLog)
    }

    constructor(log: seq<LogRow>, temp: seq<TempRow>)
      requires ControlStore.Valid(log)
      ensures Valid() && loadLog == log && tempTable == temp && logId == 0
    {
      loadLog := log;
      tempTable := temp;
      logId := 0;
    }

    /** `log_to_db('RUNNING', fname, path)`: inserts a RUNNING row and returns its id. */
    method LogRunning(fname: string, path: string) returns (id: nat)
      requires Valid()
      modifies this
      ensures Valid() && loadLog == Begin(old(loadLog), fname, path) && id == NextId(old(loadLog))
      ensures tempTable == old(tempTable) && logId == old(logId)
    {
      id := NextId(loadLog);
      loadLog := Begin(loadLog, fname, path);
    }

    /** `log_to_db(status, ...)` for SUCCESS or FAILED: updates the row `self.log_id` names. */
    method LogTerminal(p: Patch)
      requires Valid() && p.status.Terminal()
      modifies this
      ensures Valid() && loadLog == Complete(old(loadLog), logId, p)
      ensures tempTable == old(tempTable) && logId == old(logId)
    {
      loadLog := Complete(loadLog, logId, p);
    }

    /**
     * The `try` body for one file: read its rows, insert them when there are any, and say how
     * the file's log row is to be closed.
     */
    method ReadAndInsert(f: CsvFile) returns (p: Patch)
      modifies this
      ensures p == FilePatch(f) && tempTable == old(tempTable) + FileRows(f)
      ensures loadLog == old(loadLog) && logId == old(logId)
    {
      match f.content {
        case Unreadable(msg) =>
          p := Patch(Failed, Some(0), None, None, Some(msg));
          assert tempTable == old(tempTable) + [];
        case Records(records) =>
          var data := ParseRows(records);
          if |data| > 0 && f.insertError.Some? {
            p := Patch(Failed, Some(0), None, None, f.insertError);
            assert tempTable == old(tempTable) + [];
          } else {
            if |data| > 0 {
              tempTable := tempTable + data;
            } else {
              assert tempTable == old(tempTable) + data;
            }
            p := Patch(Status.Success, Some(|data|), None, None, Some(LoadedMessage));
          }
      }
    }

    /** One pass of the file loop: log RUNNING, read and insert, log the outcome. */
    method LoadFile(f: CsvFile)
      requires Valid()
      modifies this
      ensures Valid()
      ensures loadLog == old(loadLog) + [FileLogRow(NextId(old(loadLog)), f)]
      ensures tempTable == old(tempTable) + FileRows(f)
      ensures logId == NextId(old(loadLog))
    {
      var fname := Basename(f.path);
      logId := LogRunning(fname, f.path);
      var p := ReadAndInsert(f);
      FilePatchAgrees(f);
      LogTerminal(p);
      BeginComplete(old(loadLog), fname, f.path, p);
    }

    /**
     * `run(source_id, run_date)` given the files the glob returns: truncates the temp table once,
     * then loads every file. The temp table ends with the rows of the files that loaded, whatever
     * it held before, and the log gains one terminal row per file.
     */
    method Run(rawPath: string, sourceId: string, runDate: Date, files: seq<CsvFile>)
      returns (pattern: string)
      requires Valid() && Calendar.Valid(runDate)
      modifies this
      ensures Valid() && pattern == SearchPattern(rawPath, sourceId, runDate)
      ensures tempTable == LoadedRows(files)
      ensures loadLog == old(loadLog) + FileLogs(NextId(old(loadLog)), files)
    {
      pattern := SearchPattern(rawPath, sourceId, runDate);
      tempTable := [];
      ghost var first := NextId(loadLog);
      var i := 0;
      while i < |files|
        invariant 0 <= i <= |files| && Valid()
        invariant tempTable == LoadedRows(files[..i])
        invariant loadLog == old(loadLog) + FileLogs(first, files[..i])
      {
        LoadFile(files[i]);
        RowsStep(files, i);
        LogsStep(first, files, i);
        i := i + 1;
      }
      assert files[..i] == files;
      assert loadLog == old(loadLog) + FileLogs(first, files);
    }
  }
}
