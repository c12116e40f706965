/**
 * The transformation engine: it loads the date dimension into a `full_date -> date_sk` map,
 * then upserts every temp-table row into the durable job table keyed by `job_id`, under one
 * `process_log` row. On a key that is already present only the four volatile columns
 * (title, salary, posted time, date id) are overwritten. Rows are written one at a time with
 * autocommit, so an error part-way keeps the rows before it.
 */
module StagingTransformer {
  import opened Wrappers
  import opened Text
  import opened Calendar
  import ControlStore
  import opened TransformRules
  import StagingLoader

  type TempRow = StagingLoader.TempRow

  /** A row of the durable job table, without its key `job_id`. */
  datatype JobRow = JobRow(title: Option<string>, company: Option<string>, salary: Option<string>,
                           location: Option<string>, experience: Option<string>,
                           postedTime: Option<string>, url: Option<string>,
                           extractedDate: Option<string>, dateId: Option<int>)

  /** `ON DUPLICATE KEY UPDATE`: the stored row takes the new row's volatile columns. */
  function Refresh(stored: JobRow, row: JobRow): (r: JobRow)
    ensures r.title == row.title && r.salary == row.salary && r.postedTime == row.postedTime && r.dateId == row.dateId
    ensures r.company == stored.company && r.location == stored.location && r.experience == stored.experience
    ensures r.url == stored.url && r.extractedDate == stored.extractedDate
  {
    stored.(title := row.title, salary := row.salary, postedTime := row.postedTime, dateId := row.dateId)
  }

  /** One `INSERT ... ON DUPLICATE KEY UPDATE` on the table keyed by `job_id`. */
  function Upsert(jobs: map<string, JobRow>, key: string, row: JobRow): map<string, JobRow> {
    if key in jobs then jobs[key := Refresh(jobs[key], row)] else jobs[key := row]
  }

  /** A sequence of upserts, in order. */
  function UpsertAll(jobs: map<string, JobRow>, entries: seq<(string, JobRow)>): map<string, JobRow> {
    if |entries| == 0 then jobs
    else Upsert(UpsertAll(jobs, entries[..|entries| - 1]), entries[|entries| - 1].0, entries[|entries| - 1].1)
  }

  /** The first and the last entry carrying a key. */
  function FirstWith(entries: seq<(string, JobRow)>, key: string): (r: Option<nat>)
    ensures r.Some? ==> (r.value < |entries| && entries[r.value].0 == key
                         && forall i :: 0 <= i < r.value ==> entries[i].0 != key)
    ensures r.None? ==> forall i :: 0 <= i < |entries| ==> entries[i].0 != key
  {
    if |entries| == 0 then None
    else match FirstWith(entries[..|entries| - 1], key)
      case Some(j) => Some(j)
      case None => if entries[|entries| - 1].0 == key then Some(|entries| - 1) else None
  }

  function LastWith(entries: seq<(string, JobRow)>, key: string): (r: Option<nat>)
    ensures r.Some? ==> (r.value < |entries| && entries[r.value].0 == key
                         && forall i :: r.value < i < |entries| ==> entries[i].0 != key)
    ensures r.None? ==> forall i :: 0 <= i < |entries| ==> entries[i].0 != key
  {
    if |entries| == 0 then None
    else if entries[|entries| - 1].0 == key then Some(|entries| - 1)
    else LastWith(entries[..|entries| - 1], key)
  }

  /**
   * The table after a sequence of upserts holds one row per key: a key no entry carries keeps
   * its row (or stays absent); any other key is present, with the identity columns of the row
   * it had before (or of its first entry, when it was new) and the volatile columns of its last
   * entry.
   */
  lemma {:induction false} UpsertAllAt(jobs: map<string, JobRow>, entries: seq<(string, JobRow)>, key: string)
    ensures LastWith(entries, key).None? ==>
      (key in UpsertAll(jobs, entries) <==> key in jobs)
      && (key in jobs ==> UpsertAll(jobs, entries)[key] == jobs[key])
    ensures LastWith(entries, key).Some? ==>
      key in UpsertAll(jobs, entries)
      && FirstWith(entries, key).Some?
      && UpsertAll(jobs, entries)[key]
         == Refresh(if key in jobs then jobs[key] else entries[FirstWith(entries, key).value].1,
                    entries[LastWith(entries, key).value].1)
  {
    if |entries| > 0 {
      var init := entries[..|entries| - 1];
      var (k, row) := entries[|entries| - 1];
      UpsertAllAt(jobs, init, key);
      var prev := UpsertAll(jobs, init);
      if k == key {
        if LastWith(init, key).None? {
          assert key in prev <==> key in jobs;
        }
      } else {
        assert LastWith(entries, key) == LastWith(init, key);
      }
    }
  }

  /** Running the same upserts a second time changes nothing: a re-run is idempotent. */
  lemma UpsertAllIdempotent(jobs: map<string, JobRow>, entries: seq<(string, JobRow)>)
    ensures UpsertAll(UpsertAll(jobs, entries), entries) == UpsertAll(jobs, entries)
  {
    var once := UpsertAll(jobs, entries);
    var twice := UpsertAll(once, entries);
    forall key | key in once || key in twice
      ensures key in once && key in twice && twice[key] == once[key]
    {
      UpsertAllAt(jobs, entries, key);
      UpsertAllAt(once, entries, key);
    }
    assert twice.Keys == once.Keys;
  }

  // ---------------------------------------------------------------------------
  // The date lookup

  /** A `date_dim` row: its `full_date` and its surrogate key `date_sk`. */
  datatype DimRow = DimRow(fullDate: Date, dateSk: int)

  predicate DimValid(dim: seq<DimRow>) {
    forall i :: 0 <= i < |dim| ==> Calendar.Valid(dim[i].fullDate)
  }

  /** `date_lookup[str(full_date)] = date_sk` for every row in turn. */
  function LookupOf(lookup: map<string, int>, dim: seq<DimRow>): map<string, int>
    requires DimValid(dim)
  {
    if |dim| == 0 then lookup
    else LookupOf(lookup, dim[..|dim| - 1])[FormatDate(dim[|dim| - 1].fullDate) := dim[|dim| - 1].dateSk]
  }

  /**
   * The lookup holds one key per date of the dimension, and a date that occurs more than once
   * maps to the `date_sk` of its last row; keys that are no date of the dimension are kept.
   */
  lemma {:induction false} LookupLastWins(lookup: map<string, int>, dim: seq<DimRow>, i: nat)
    requires DimValid(dim) && i < |dim|
    requires forall j :: i < j < |dim| ==> dim[j].fullDate != dim[i].fullDate
    ensures FormatDate(dim[i].fullDate) in LookupOf(lookup, dim)
    ensures LookupOf(lookup, dim)[FormatDate(dim[i].fullDate)] == dim[i].dateSk
  {
    if i < |dim| - 1 {
      var last := dim[|dim| - 1].fullDate;
      assert last != dim[i].fullDate;
      ParseFormatDate(last);
      ParseFormatDate(dim[i].fullDate);
      LookupLastWins(lookup, dim[..|dim| - 1], i);
    }
  }

  /** A key that is the text of no dimension date keeps whatever the map held before. */
  lemma {:induction false} LookupKeeps(lookup: map<string, int>, dim: seq<DimRow>, key: string)
    requires DimValid(dim)
    requires forall j :: 0 <= j < |dim| ==> FormatDate(dim[j].fullDate) != key
    ensures key in LookupOf(lookup, dim) <==> key in lookup
    ensures key in lookup ==> LookupOf(lookup, dim)[key] == lookup[key]
  {
    if |dim| > 0 {
      LookupKeeps(lookup, dim[..|dim| - 1], key);
    }
  }

  /** Two lookups loaded from the same dimension agree on every date the dimension holds. */
  lemma {:induction false} LookupCovered(m1: map<string, int>, m2: map<string, int>, dim: seq<DimRow>, j: nat)
    requires DimValid(dim) && j < |dim|
    ensures var key := FormatDate(dim[j].fullDate);
      key in LookupOf(m1, dim) && key in LookupOf(m2, dim) && LookupOf(m1, dim)[key] == LookupOf(m2, dim)[key]
  {
    var n := |dim| - 1;
    if j < n {
      var init := dim[..n];
      assert init[j] == dim[j];
      LookupCovered(m1, m2, init, j);
    }
  }

  /** Loading the same dimension again changes nothing. */
  lemma LookupIdempotent(lookup: map<string, int>, dim: seq<DimRow>)
    requires DimValid(dim)
    ensures LookupOf(LookupOf(lookup, dim), dim) == LookupOf(lookup, dim)
  {
    var once := LookupOf(lookup, dim);
    var twice := LookupOf(once, dim);
    forall key | key in once || key in twice
      ensures key in once && key in twice && twice[key] == once[key]
    {
      if exists j :: 0 <= j < |dim| && FormatDate(dim[j].fullDate) == key {
        var j :| 0 <= j < |dim| && FormatDate(dim[j].fullDate) == key;
        LookupCovered(once, lookup, dim, j);
      } else {
        LookupKeeps(lookup, dim, key);
        LookupKeeps(once, dim, key);
      }
    }
    assert twice.Keys == once.Keys;
  }

  // ---------------------------------------------------------------------------
  // One temp row

  const NullJobId := "1048 (23000): Column 'job_id' cannot be null"

  /** `date_lookup[date_str]` when the extraction date is a key, NULL otherwise. */
  function DateIdOf(lookup: map<string, int>, extracted: Option<string>): Option<int> {
    if extracted.Some? && extracted.value in lookup then Some(lookup[extracted.value]) else None
  }

  /**
   * What the loop body does with one temp row: resolve the posted date (which may raise),
   * format it, look the extraction date up, and build the upsert, which MySQL refuses when
   * `job_id` is NULL. The salary is stored as the raw text.
   */
  function Transform(lookup: map<string, int>, row: TempRow): Result<(string, JobRow)> {
    match CalcPostedDate(row.PostedTime(), row.ExtractedDate())
    case Failure(e) => Failure(e)
    case Success(posted) =>
      if row.JobId().None? then Failure(NullJobId)
      else
        var postedClean := if posted.Some? then Some(FormatDate(posted.value)) else None;
        Success((row.JobId().value,
                 JobRow(row.Title(), row.Company(), row.Salary(), row.Location(), row.Experience(),
                        postedClean, row.Url(), row.ExtractedDate(),
                        DateIdOf(lookup, row.ExtractedDate()))))
  }

  /**
   * A row is refused exactly when its posted date cannot be resolved or its `job_id` is NULL,
   * the resolution error coming first. A row that is accepted is stored under its `job_id`
   * with its title, company, raw salary, location, experience, url and extraction date copied,
   * the date id of its extraction date, and a posted time exactly when one was resolved, which
   * parses back to the extraction date minus the text's delta.
   */
  lemma TransformSpec(lookup: map<string, int>, row: TempRow)
    ensures var r := Transform(lookup, row);
      && (r.Failure? <==> CalcPostedDate(row.PostedTime(), row.ExtractedDate()).Failure? || row.JobId().None?)
      && (CalcPostedDate(row.PostedTime(), row.ExtractedDate()).Failure? ==>
            r.Failure? && r.error == CalcPostedDate(row.PostedTime(), row.ExtractedDate()).error)
      && (CalcPostedDate(row.PostedTime(), row.ExtractedDate()).Success? && row.JobId().None? ==>
            r == Failure(NullJobId))
    ensures var r := Transform(lookup, row);
      r.Success? ==>
        && r.value.0 == row.JobId().value
        && r.value.1.title == row.Title()
        && r.value.1.company == row.Company()
        && r.value.1.salary == row.Salary()
        && r.value.1.location == row.Location()
        && r.value.1.experience == row.Experience()
        && r.value.1.url == row.Url()
        && r.value.1.extractedDate == row.ExtractedDate()
        && (r.value.1.postedTime.Some? <==> CalcPostedDate(row.PostedTime(), row.ExtractedDate()).value.Some?)
        && (r.value.1.dateId.Some? <==> row.ExtractedDate().Some? && row.ExtractedDate().value in lookup)
        && (r.value.1.dateId.Some? ==> r.value.1.dateId.value == lookup[row.ExtractedDate().value])
    ensures var r := Transform(lookup, row);
      r.Success? && r.value.1.postedTime.Some? ==>
        && row.ExtractedDate().Some?
        && ParseDate(row.ExtractedDate().value).Some?
        && ParseDate(r.value.1.postedTime.value).Some?
        && Ordinal(ParseDate(row.ExtractedDate().value).value) - Ordinal(ParseDate(r.value.1.postedTime.value).value)
           == Delta(Lower(row.PostedTime().value)).value
  {
    var c := CalcPostedDate(row.PostedTime(), row.ExtractedDate());
    if c.Success? && c.value.Some? {
      ParseFormatDate(c.value.value);
    }
  }

  /**
   * A row whose extraction date is the text of a dimension date gets that date's `date_sk`
   * (the last one read), whatever its posted date resolves to.
   */
  lemma DateIdFromDimension(prior: map<string, int>, dim: seq<DimRow>, i: nat, row: TempRow)
    requires DimValid(dim) && i < |dim|
    requires forall j :: i < j < |dim| ==> dim[j].fullDate != dim[i].fullDate
    requires row.ExtractedDate() == Some(FormatDate(dim[i].fullDate))
    requires Transform(LookupOf(prior, dim), row).Success?
    ensures Transform(LookupOf(prior, dim), row).value.1.dateId == Some(dim[i].dateSk)
  {
    LookupLastWins(prior, dim, i);
  }

  // ---------------------------------------------------------------------------
  // The row loop

  /** The upserts the loop issues, and the error that ends it, if one does. */
  datatype Prepared = Prepared(entries: seq<(string, JobRow)>, error: Option<string>)

  /** A loop over rows applying `step` to each, stopping at the first row it refuses. */
  function PrepareWith(step: TempRow -> Result<(string, JobRow)>, rows: seq<TempRow>): Prepared {
    if |rows| == 0 then Prepared([], None)
    else
      var p := PrepareWith(step, rows[..|rows| - 1]);
      if p.error.Some? then p
      else match step(rows[|rows| - 1])
        case Failure(e) => Prepared(p.entries, Some(e))
        case Success(entry) => Prepared(p.entries + [entry], None)
  }

  /** The loop over the temp rows, stopping at the first row that raises. */
  function Prepare(lookup: map<string, int>, rows: seq<TempRow>): Prepared {
    PrepareWith(row => Transform(lookup, row), rows)
  }

  /**
   * Without an error every row is upserted, in order. With one, the rows before the failing
   * row (the one at index `|entries|`) are upserted and the error is that row's.
   */
  lemma {:induction false} PrepareWithSpec(step: TempRow -> Result<(string, JobRow)>, rows: seq<TempRow>)
    ensures var p := PrepareWith(step, rows);
      |p.entries| <= |rows|
      && (forall i :: 0 <= i < |p.entries| ==> step(rows[i]) == Success(p.entries[i]))
      && (p.error.None? <==> |p.entries| == |rows|)
      && (p.error.Some? ==> step(rows[|p.entries|]) == Failure(p.error.value))
  {
    if |rows| > 0 {
      var init := rows[..|rows| - 1];
      PrepareWithSpec(step, init);
      assert forall i :: 0 <= i < |init| ==> rows[i] == init[i];
    }
  }

  lemma PrepareSpec(lookup: map<string, int>, rows: seq<TempRow>)
    ensures var p := Prepare(lookup, rows);
      |p.entries| <= |rows|
      && (forall i :: 0 <= i < |p.entries| ==> Transform(lookup, rows[i]) == Success(p.entries[i]))
      && (p.error.None? <==> |p.entries| == |rows|)
      && (p.error.Some? ==> Transform(lookup, rows[|p.entries|]) == Failure(p.error.value))
  {
    PrepareWithSpec(row => Transform(lookup, row), rows);
  }

  /** One more row: it either extends the upserts or ends the loop with its error. */
  lemma PrepareStep(lookup: map<string, int>, rows: seq<TempRow>, i: nat)
    requires i < |rows| && Prepare(lookup, rows[..i]).error.None?
    ensures Transform(lookup, rows[i]).Failure? ==>
      Prepare(lookup, rows[..i + 1]) == Prepared(Prepare(lookup, rows[..i]).entries, Some(Transform(lookup, rows[i]).error))
    ensures Transform(lookup, rows[i]).Success? ==>
      Prepare(lookup, rows[..i + 1]) == Prepared(Prepare(lookup, rows[..i]).entries + [Transform(lookup, rows[i]).value], None)
  {
    assert rows[..i + 1][..i] == rows[..i];
    assert rows[..i + 1][i] == rows[i];
  }

  /** Once a prefix of the rows has failed, the rest of the rows change nothing. */
  lemma {:induction false} PrepareStops(lookup: map<string, int>, rows: seq<TempRow>, i: nat)
    requires i <= |rows| && Prepare(lookup, rows[..i]).error.Some?
    ensures Prepare(lookup, rows) == Prepare(lookup, rows[..i])
    decreases |rows|
  {
    if i < |rows| {
      assert rows[..|rows| - 1][..i] == rows[..i];
      PrepareStops(lookup, rows[..|rows| - 1], i);
    } else {
      assert rows[..i] == rows;
    }
  }

  /**
   * Running the transformer a second time over the same temp table and date dimension leaves
   * the job table as the first run left it.
   */
  lemma RerunIdempotent(jobs: map<string, JobRow>, prior: map<string, int>, dim: seq<DimRow>, temp: seq<TempRow>)
    requires DimValid(dim)
    ensures var lookup := LookupOf(prior, dim);
      var once := UpsertAll(jobs, Prepare(lookup, temp).entries);
      UpsertAll(once, Prepare(LookupOf(lookup, dim), temp).entries) == once
  {
    LookupIdempotent(prior, dim);
    UpsertAllIdempotent(jobs, Prepare(LookupOf(prior, dim), temp).entries);
  }

  // ---------------------------------------------------------------------------
  // The run and its log

  const ProcessName := "Staging_Transform_TopCV"

  /** A `process_config` row; its id is its position plus one. */
  datatype ProcessEntry = ProcessEntry(name: string, kind: string, description: string)

  /** `SELECT process_id ... WHERE process_name = %s`: the first row with that name. */
  function FindProcess(config: seq<ProcessEntry>, name: string): (r: Option<nat>)
    ensures r.Some? ==> (1 <= r.value <= |config| && config[r.value - 1].name == name
                         && forall j :: 0 <= j < r.value - 1 ==> config[j].name != name)
    ensures r.None? ==> forall j :: 0 <= j < |config| ==> config[j].name != name
  {
    if |config| == 0 then None
    else if config[0].name == name then Some(1)
    else match FindProcess(config[1..], name)
      case None => None
      case Some(j) => Some(j + 1)
  }

  /** The entry a run adds when no process of its name is configured. */
  const AutoEntry := ProcessEntry(ProcessName, "TRANSFORM", "Auto-created")

  /** The configuration after the lookup: unchanged when the process exists, else the entry added. */
  function ConfigAfter(config: seq<ProcessEntry>): seq<ProcessEntry> {
    if FindProcess(config, ProcessName).Some? then config else config + [AutoEntry]
  }

  /** The id a run logs under: the first entry with the process's name, or the added entry's. */
  function RunProcessId(config: seq<ProcessEntry>): nat {
    match FindProcess(config, ProcessName)
    case Some(j) => j
    case None => |config| + 1
  }

  /** How the run ends: no temp rows, all loaded, or an error (logged, then `sys.exit(1)`). */
  datatype Outcome = NoData | Loaded(count: nat) | Exited(error: string)

  /** The run's outcome over the temp table and the date lookup. */
  function RunOutcome(lookup: map<string, int>, temp: seq<TempRow>): Outcome {
    if |temp| == 0 then NoData
    else match Prepare(lookup, temp).error
      case None => Loaded(|temp|)
      case Some(e) => Exited(e)
  }

  function SuccessMessage(count: nat): string {
    "Loaded " + NatToString(count) + " rows into 'job'"
  }

  /** The update that closes the run's log row, if the run gets that far. */
  function ClosingPatch(o: Outcome): (p: Option<ControlStore.Patch>)
    ensures p.Some? ==> p.value.status.Terminal()
  {
    match o
    case NoData => None
    case Loaded(n) => Some(ControlStore.Patch(ControlStore.Status.Success, None, None, None, Some(SuccessMessage(n))))
    case Exited(e) => Some(ControlStore.Patch(ControlStore.Failed, None, None, None, Some(e)))
  }

  /** The log row a run leaves when its start insert went through. */
  function RunLogRow(id: nat, processId: nat, now: string, o: Outcome): ControlStore.LogRow {
    var start := ControlStore.LogRow(id, NatToString(processId), now, ControlStore.Running, None, None, None, None);
    match ClosingPatch(o)
    case None => start
    case Some(p) => ControlStore.Apply(start, p)
  }

  /**
   * A run whose start insert went through adds exactly one `process_log` row: still Running
   * when the temp table was empty, Success with the row count when every row loaded, Failed
   * with the error text otherwise.
   */
  lemma RunLogRowStatus(id: nat, processId: nat, now: string, o: Outcome)
    ensures RunLogRow(id, processId, now, o).id == id
    ensures o.NoData? <==> RunLogRow(id, processId, now, o).status == ControlStore.Running
    ensures o.Loaded? <==> RunLogRow(id, processId, now, o).status == ControlStore.Status.Success
    ensures o.Loaded? ==> RunLogRow(id, processId, now, o).message == Some(SuccessMessage(o.count))
    ensures o.Exited? ==> RunLogRow(id, processId, now, o).message == Some(o.error)
  {
  }

  class Transformer {
    /** `db_staging.date_dim` */
    var dateDim: seq<DimRow>
    /** `db_staging.staging_topcv_jobs_temp` */
    var tempTable: seq<TempRow>
    /** `db_staging.staging_topcv_jobs`, keyed by `job_id` */
    var jobs: map<string, JobRow>
    /** `db_control.process_config` */
    var processConfig: seq<ProcessEntry>
    /** `db_control.process_log` */
    var processLog: seq<ControlStore.LogRow>
    /** `self.date_lookup` */
    var dateLookup: map<string, int>

    ghost predicate Valid()
      reads this
    {
      ControlStore.Valid(processLog) && DimValid(dateDim)
    }

    constructor(dim: seq<DimRow>, temp: seq<TempRow>, table: map<string, JobRow>,
                config: seq<ProcessEntry>, log: seq<ControlStore.LogRow>)
      requires ControlStore.Valid(log) && DimValid(dim)
      ensures Valid() && dateLookup == map[]
      ensures dateDim == dim && tempTable == temp && jobs == table && processConfig == config && processLog == log
    {
      dateDim, tempTable, jobs, processConfig, processLog := dim, temp, table, config, log;
      dateLookup := map[];
    }

    /** `load_date_lookup()` */
    method LoadDateLookup()
      requires Valid()
      modifies this
      ensures Valid() && dateDim == old(dateDim) && tempTable == old(tempTable) && jobs == old(jobs)
      ensures processConfig == old(processConfig) && processLog == old(processLog)
      ensures dateLookup == LookupOf(old(dateLookup), dateDim)
    {
      var i := 0;
      while i < |dateDim|
        invariant 0 <= i <= |dateDim|
        invariant DimValid(dateDim) && dateLookup == LookupOf(old(dateLookup), dateDim[..i])
        invariant dateDim == old(dateDim) && tempTable == old(tempTable) && jobs == old(jobs)
        invariant processConfig == old(processConfig) && processLog == old(processLog)
      {
        assert dateDim[..i + 1][..i] == dateDim[..i];
        dateLookup := dateLookup[FormatDate(dateDim[i].fullDate) := dateDim[i].dateSk];
        i := i + 1;
      }
      assert dateDim[..i] == dateDim;
    }

    /** `get_process_id()`: the id of the row named `ProcessName`, inserting it when missing. */
    method GetProcessId() returns (id: nat)
      modifies this
      ensures 1 <= id <= |processConfig| && processConfig[id - 1].name == ProcessName
      ensures FindProcess(old(processConfig), ProcessName).Some? ==>
        processConfig == old(processConfig) && id == FindProcess(old(processConfig), ProcessName).value
      ensures FindProcess(old(processConfig), ProcessName).None? ==>
        processConfig == old(processConfig) + [AutoEntry]
        && id == |processConfig|
      ensures processConfig == ConfigAfter(old(processConfig)) && id == RunProcessId(old(processConfig))
      ensures dateDim == old(dateDim) && tempTable == old(tempTable) && jobs == old(jobs)
      ensures processLog == old(processLog) && dateLookup == old(dateLookup)
    {
      match FindProcess(processConfig, ProcessName) {
        case Some(j) =>
          id := j;
        case None =>
          processConfig := processConfig + [AutoEntry];
          id := |processConfig|;
      }
    }

    /** The start insert: the id of the new Running row, or None when the insert raised. */
    method LogStart(processId: nat, now: string, insertFails: bool) returns (logId: Option<nat>)
      requires Valid()
      modifies this
      ensures Valid()
      ensures insertFails ==> logId.None? && processLog == old(processLog)
      ensures !insertFails ==> (logId == Some(ControlStore.NextId(old(processLog)))
                                && processLog == ControlStore.Begin(old(processLog), NatToString(processId), now))
      ensures dateDim == old(dateDim) && tempTable == old(tempTable) && jobs == old(jobs)
      ensures processConfig == old(processConfig) && dateLookup == old(dateLookup)
    {
      if insertFails {
        logId := None;
      } else {
        logId := Some(ControlStore.NextId(processLog));
        processLog := ControlStore.Begin(processLog, NatToString(processId), now);
      }
    }

    /**
     * The loop body for one temp row: resolve and format the posted date, look up the date id,
     * and upsert, unless a step raises.
     */
    method UpsertOne(row: TempRow) returns (error: Option<string>)
      modifies this
      ensures Transform(dateLookup, row).Failure? ==>
        error == Some(Transform(dateLookup, row).error) && jobs == old(jobs)
      ensures Transform(dateLookup, row).Success? ==>
        error.None? && jobs == Upsert(old(jobs), Transform(dateLookup, row).value.0, Transform(dateLookup, row).value.1)
      ensures dateDim == old(dateDim) && tempTable == old(tempTable) && processConfig == old(processConfig)
      ensures processLog == old(processLog) && dateLookup == old(dateLookup)
    {
      var posted := CalcPostedDate(row.PostedTime(), row.ExtractedDate());
      if posted.Failure? {
        return Some(posted.error);
      }
      var postedClean := if posted.value.Some? then Some(FormatDate(posted.value.value)) else None;
      var dateId := DateIdOf(dateLookup, row.ExtractedDate());
      if row.JobId().None? {
        return Some(NullJobId);
      }
      jobs := Upsert(jobs, row.JobId().value,
                     JobRow(row.Title(), row.Company(), row.Salary(), row.Location(), row.Experience(),
                            postedClean, row.Url(), row.ExtractedDate(), dateId));
      error := None;
    }

    /**
     * The `for r in rows` loop: transform and upsert each temp row, counting them, until a row
     * raises. The table keeps every upsert made before the error (autocommit).
     */
    method UpsertRows() returns (count: nat, error: Option<string>)
      modifies this
      ensures error == Prepare(dateLookup, tempTable).error
      ensures jobs == UpsertAll(old(jobs), Prepare(dateLookup, tempTable).entries)
      ensures error.None? ==> count == |tempTable|
      ensures dateDim == old(dateDim) && tempTable == old(tempTable) && processConfig == old(processConfig)
      ensures processLog == old(processLog) && dateLookup == old(dateLookup)
    {
      var lookup := dateLookup;
      count := 0;
      error := None;
      var i := 0;
      while i < |tempTable|
        invariant 0 <= i <= |tempTable| && count == i && error.None?
        invariant Prepare(lookup, tempTable[..i]).error.None?
        invariant jobs == UpsertAll(old(jobs), Prepare(lookup, tempTable[..i]).entries)
        invariant dateDim == old(dateDim) && tempTable == old(tempTable) && processConfig == old(processConfig)
        invariant processLog == old(processLog) && dateLookup == old(dateLookup)
      {
        PrepareStep(lookup, tempTable, i);
        error := UpsertOne(tempTable[i]);
        if error.Some? {
          PrepareStops(lookup, tempTable, i + 1);
          return;
        }
        count := count + 1;
        i := i + 1;
      }
      assert tempTable[..i] == tempTable;
    }

    /**
     * `run()`: load the date lookup, find the process id, log Running, then upsert the temp
     * rows. An empty temp table returns at once and leaves the log row Running; otherwise the
     * log row is closed Success with the count, or Failed with the error before the exit.
     */
    method Run(now: string, logStartFails: bool) returns (outcome: Outcome)
      requires Valid()
      modifies this
      ensures Valid()
      ensures dateLookup == LookupOf(old(dateLookup), dateDim)
      ensures outcome == RunOutcome(dateLookup, tempTable)
      ensures jobs == UpsertAll(old(jobs), Prepare(dateLookup, tempTable).entries)
      ensures logStartFails ==> processLog == old(processLog)
      ensures processConfig == ConfigAfter(old(processConfig))
      ensures 1 <= RunProcessId(old(processConfig)) <= |processConfig|
      ensures processConfig[RunProcessId(old(processConfig)) - 1].name == ProcessName
      ensures !logStartFails ==>
        processLog == old(processLog) + [RunLogRow(ControlStore.NextId(old(processLog)), RunProcessId(old(processConfig)), now, outcome)]
      ensures dateDim == old(dateDim) && tempTable == old(tempTable)
    {
      LoadDateLookup();
      var processId := GetProcessId();
      var logId := LogStart(processId, now, logStartFails);
      if |tempTable| == 0 {
        outcome := NoData;
        assert logStartFails || processLog == old(processLog) + [RunLogRow(ControlStore.NextId(old(processLog)), processId, now, outcome)];
        return;
      }
      var count, error := UpsertRows();
      if error.None? {
        outcome := Loaded(count);
      } else {
        outcome := Exited(error.value);
      }
      var patch := ClosingPatch(outcome).value;
      if logId.Some? {
        processLog := ControlStore.Complete(processLog, logId.value, patch);
        ControlStore.BeginComplete(old(processLog), NatToString(processId), now, patch);
      }
      assert logStartFails || processLog == old(processLog) + [RunLogRow(ControlStore.NextId(old(processLog)), processId, now, outcome)];
    }
  }
}
