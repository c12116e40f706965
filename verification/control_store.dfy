/**
 * The control-store log tables written with the begin/complete discipline: `process_log`
 * (transformer), `load_log` (staging loader) and `extract_log` (scrapers). A unit of work inserts
 * one row in status Running and later updates that row, found by its `log_id`, to a terminal
 * status. A table is a sequence of rows; `log_id` is the auto-increment key, so a table whose
 * ids are 1, 2, 3, ... in order is `Valid` and a new row gets the next id.
 */
module ControlStore {
  import opened Wrappers

  /** The status column (`load_log` spells it RUNNING / SUCCESS / FAILED). */
  datatype Status = Running | Success | Failed {
    predicate Terminal() { this != Running }
  }

  /**
   * One log row: `unit` and `detail` are what the insert records (file name and path, source
   * id and date, process name); the optional columns are NULL until an update sets them.
   */
  datatype LogRow = LogRow(id: nat, unit: string, detail: string, status: Status,
                           rows: Option<nat>, path: Option<string>, size: Option<nat>,
                           message: Option<string>)

  /**
   * The columns one `UPDATE ... SET` names: the new status, and for each optional column
   * either `Some` value it sets or `None` when the statement leaves it alone.
   */
  datatype Patch = Patch(status: Status, rows: Option<nat>, path: Option<string>,
                         size: Option<nat>, message: Option<string>)

  predicate Valid(log: seq<LogRow>) {
    forall i :: 0 <= i < |log| ==> log[i].id == i + 1
  }

  /** The `lastrowid` the next insert returns. */
  function NextId(log: seq<LogRow>): nat {
    |log| + 1
  }

  /** `INSERT ... status='Running'`: appends a fresh row under the next id. */
  function Begin(log: seq<LogRow>, unit: string, detail: string): (r: seq<LogRow>)
    ensures |r| == |log| + 1 && r[..|log|] == log
    ensures Valid(log) ==> Valid(r)
    ensures r[|log|].id == NextId(log) && r[|log|].status == Running
  {
    log + [LogRow(NextId(log), unit, detail, Running, None, None, None, None)]
  }

  /** One row after an update: the SET columns take their new values, the rest stay. */
  function Apply(row: LogRow, p: Patch): (r: LogRow)
    ensures r.id == row.id && r.unit == row.unit && r.detail == row.detail
    ensures r.status == p.status
    ensures p.rows.Some? ==> r.rows == p.rows
    ensures p.rows.None? ==> r.rows == row.rows
    ensures p.message.Some? ==> r.message == p.message
    ensures p.message.None? ==> r.message == row.message
  {
    row.(status := p.status,
         rows := if p.rows.Some? then p.rows else row.rows,
         path := if p.path.Some? then p.path else row.path,
         size := if p.size.Some? then p.size else row.size,
         message := if p.message.Some? then p.message else row.message)
  }

  /** `UPDATE ... WHERE log_id = id`: applies the patch to every row carrying that id. */
  function Complete(log: seq<LogRow>, id: nat, p: Patch): (r: seq<LogRow>)
    requires p.status.Terminal()
    ensures |r| == |log| && (Valid(log) ==> Valid(r))
    ensures forall i :: 0 <= i < |log| && log[i].id != id ==> r[i] == log[i]
    ensures forall i :: 0 <= i < |log| && log[i].id == id ==> r[i] == Apply(log[i], p)
    ensures forall i :: 0 <= i < |log| && (log[i].id == id || log[i].status.Terminal()) ==> r[i].status.Terminal()
  {
    seq(|log|, i requires 0 <= i < |log| => if log[i].id == id then Apply(log[i], p) else log[i])
  }

  /**
   * In a well-formed table an update by id touches exactly one row, the one at `id - 1`,
   * and makes it terminal; an id no row carries changes nothing.
   */
  lemma CompleteOne(log: seq<LogRow>, id: nat, p: Patch)
    requires Valid(log) && p.status.Terminal()
    ensures 1 <= id <= |log| ==> Complete(log, id, p) == log[id - 1 := Apply(log[id - 1], p)]
    ensures !(1 <= id <= |log|) ==> Complete(log, id, p) == log
    ensures 1 <= id <= |log| ==> Complete(log, id, p)[id - 1].status.Terminal()
  {
  }

  /**
   * A unit's whole life in the table: begin, then complete under the id the insert returned.
   * The table gains exactly one row, in the patch's terminal status, and nothing else moves.
   */
  lemma {:induction false} BeginComplete(log: seq<LogRow>, unit: string, detail: string, p: Patch)
    requires Valid(log) && p.status.Terminal()
    ensures Complete(Begin(log, unit, detail), NextId(log), p)
         == log + [Apply(LogRow(NextId(log), unit, detail, Running, None, None, None, None), p)]
  {
    var b := Begin(log, unit, detail);
    CompleteOne(b, NextId(log), p);
    assert b[|log| := Apply(b[|log|], p)] == log + [Apply(b[|log|], p)];
  }
}
