/**
 * The ingest run controller (orchestrator/run.py).
 *
 * A run is: an optional cron gate, one call of the model's execute callback,
 * a dispatch on the shape of what it returned, a write, and, when a checker
 * is attached, a success or failure record before the result is returned or
 * the error re-raised. Errors are values of RunError instead of exceptions.
 *
 * As written, the gate call passes `force=` to CronChecker.check_and_start,
 * which takes no such parameter: with a schedule the call raises TypeError
 * before the try block, so nothing is executed and nothing is recorded.
 * RunTracked is the try block itself, for an attached checker or none.
 */
module Run {
  import opened Wrappers
  import opened Values
  import Write
  import CronGate

  /** TableMode: FULL has the value "replace", INCREMENTAL the value "append". */
  datatype TableMode = Full | Incremental

  /** table_mode.value: FULL provisions the table, INCREMENTAL issues no DDL. */
  function ModeValue(mode: TableMode): (s: string)
    ensures Write.CreatesTable(s) <==> mode == Full
    ensures s == "replace" <==> mode == Full
    ensures s == "append" <==> mode == Incremental
  {
    match mode
    case Full => "replace"
    case Incremental => "append"
  }

  /** What execute() returns: a DataFrame, a (rows, columns) pair, or something that is neither. */
  datatype Extraction =
    | FrameResult(frame: Frame)
    | Pair(rows: seq<Row>, columns: seq<string>)
    | NotAPair

  /** execute(start=start, end=end, **kwargs): a result or the text of the exception it raised. */
  type Execute = (Option<string>, Option<string>) -> Result<Extraction, string>

  datatype RunError =
    | GateRaised(message: string)
    | ExtractRaised(message: string)
    | UnpackRaised
    | WriteRaised(error: Write.WriteError)

  /** Durations measured by the caller's clock, in opaque units. */
  datatype Timings = Timings(exec: nat, write: nat, total: nat)

  /** The dict run_ingest returns. */
  datatype RunResult = RunResult(rows: nat, execTime: nat, writeTime: nat, totalTime: nat)

  /** The outcome of the try block and the destination it leaves behind. */
  datatype RunOutcome = RunOutcome(result: Result<RunResult, RunError>, db: Write.Db)

  const ForceKeywordError := "CronChecker.check_and_start() got an unexpected keyword argument 'force'"

  /** `if schedule:` is false for None and for the empty string. */
  predicate Truthy(schedule: Option<string>)
  {
    schedule.Some? && schedule.value != ""
  }

  /** str(e) for the exception behind a run error. */
  function Message(e: RunError): string
  {
    match e
    case GateRaised(m) => m
    case ExtractRaised(m) => m
    case UnpackRaised => "cannot unpack non-iterable result into (rows, columns)"
    case WriteRaised(w) =>
      match w
      case MissingColType(c) => "'" + c + "'"
      case UndefinedTable(key) => "relation \"" + key.0 + "." + key.1 + "\" does not exist"
      case UndefinedColumn(c) => "column \"" + c + "\" does not exist"
      case RowArity(_) => "COPY row does not match the column list"
  }

  /** The number of rows the run reports: the frame's length, or len(rows). */
  function RowCount(x: Extraction): nat
  {
    match x
    case FrameResult(f) => |f.rows|
    case Pair(rows, _) => |rows|
    case NotAPair => 0
  }

  function WriteOutcomeFor(db: Write.Db, destTable: string, x: Extraction, mode: TableMode): (o: Write.Outcome)
    requires !x.NotAPair?
  {
    match x
    case FrameResult(f) => Write.WritePolarsOutcome(db, destTable, f, ModeValue(mode))
    case Pair(rows, columns) => Write.WriteOutcome(db, destTable, rows, columns, ModeValue(mode), None)
  }

  /** The try block of run_ingest, as a specification. */
  function AttemptOutcome(db: Write.Db, destTable: string, extracted: Result<Extraction, string>,
                          mode: TableMode, times: Timings): (o: RunOutcome)
  {
    match extracted
    case Err(m) => RunOutcome(Err(ExtractRaised(m)), db)
    case Ok(NotAPair) => RunOutcome(Err(UnpackRaised), db)
    case Ok(x) =>
      var w := WriteOutcomeFor(db, destTable, x, mode);
      if w.result.Err? then RunOutcome(Err(WriteRaised(w.result.error)), w.db)
      else RunOutcome(Ok(RunResult(RowCount(x), times.exec, times.write, times.total)), w.db)
  }

  /** The body of the try block up to the record: execute once, then write by the result's shape. */
  method Attempt(dest: Write.Destination, destTable: string, execute: Execute, mode: TableMode,
                 start: Option<string>, end: Option<string>, times: Timings)
    returns (r: Result<RunResult, RunError>)
    modifies dest
    ensures var o := AttemptOutcome(old(dest.tables), destTable, execute(start, end), mode, times);
      r == o.result && dest.tables == o.db
  {
    var result := execute(start, end);
    if result.Err? {
      return Err(ExtractRaised(result.error));
    }
    match result.value
    case FrameResult(df) =>
      var rowsCount := |df.rows|;
      var w := Write.WritePolars(dest, destTable, df, ModeValue(mode));
      r := if w.Ok? then Ok(RunResult(rowsCount, times.exec, times.write, times.total))
           else Err(WriteRaised(w.error));
    case Pair(rows, columns) =>
      var rowsCount := |rows|;
      var w := Write.Write(dest, destTable, rows, columns, ModeValue(mode), None);
      r := if w.Ok? then Ok(RunResult(rowsCount, times.exec, times.write, times.total))
           else Err(WriteRaised(w.error));
    case NotAPair =>
      r := Err(UnpackRaised);
  }

  /**
   * The try block: the attempt, then, when a checker is attached, a success
   * record of the row count or a failure record of the error's text, and the
   * result returned or the same error re-raised.
   */
  method RunTracked(dest: Write.Destination, checker: CronGate.CronChecker?, destTable: string,
                    execute: Execute, mode: TableMode, start: Option<string>, end: Option<string>,
                    times: Timings, now: CronGate.Instant)
    returns (r: Result<RunResult, RunError>)
    modifies dest, if checker == null then {} else {checker.store}
    ensures var o := AttemptOutcome(old(dest.tables), destTable, execute(start, end), mode, times);
      r == o.result && dest.tables == o.db
    ensures checker != null && r.Ok? ==>
      checker.store.rows == CronGate.UpsertSuccess(old(checker.store.rows), checker.modelName, now, r.value.rows, times.total)
    ensures checker != null && r.Err? ==>
      checker.store.rows == CronGate.UpsertFailure(old(checker.store.rows), checker.modelName, now, Message(r.error), times.total)
  {
    r := Attempt(dest, destTable, execute, mode, start, end, times);
    if checker != null {
      if r.Ok? {
        checker.UpdateSuccess(r.value.rows, times.total, now);
      } else {
        checker.UpdateFailure(Message(r.error), times.total, now);
      }
    }
  }

  /**
   * run_ingest as written. With a truthy schedule a checker is built for the
   * destination table, then the gate call raises TypeError outside the try:
   * the error reaches the caller, execute is not called, nothing is written
   * and nothing is recorded. Without a schedule no state is read or written.
   */
  method RunIngest(dest: Write.Destination, store: CronGate.StateStore, destTable: string,
                   execute: Execute, mode: TableMode, schedule: Option<string>, cron: CronGate.Cron,
                   start: Option<string>, end: Option<string>, force: bool,
                   times: Timings, now: CronGate.Instant)
    returns (r: Result<RunResult, RunError>)
    modifies dest, store
    ensures store.rows == old(store.rows)
    ensures Truthy(schedule) ==>
      r == Err(GateRaised(ForceKeywordError)) && dest.tables == old(dest.tables)
    ensures !Truthy(schedule) ==>
      var o := AttemptOutcome(old(dest.tables), destTable, execute(start, end), mode, times);
      r == o.result && dest.tables == o.db
  {
    if Truthy(schedule) {
      var checker := new CronGate.CronChecker(destTable, schedule.value, cron, store);
      // checker.check_and_start(force=force): no such keyword, TypeError before the try.
      return Err(GateRaised(ForceKeywordError));
    }
    r := RunTracked(dest, null, destTable, execute, mode, start, end, times, now);
  }

  // ---------------------------------------------------------------------------
  // Properties of a run

  /** A successful run reports the extraction's row count. */
  lemma SuccessReportsRowCount(db: Write.Db, destTable: string, extracted: Result<Extraction, string>,
                               mode: TableMode, times: Timings)
    requires AttemptOutcome(db, destTable, extracted, mode, times).result.Ok?
    ensures extracted.Ok? && !extracted.value.NotAPair?
    ensures AttemptOutcome(db, destTable, extracted, mode, times).result.value.rows == RowCount(extracted.value)
  {
  }

  /** An extraction error is reported as is and leaves the destination untouched. */
  lemma ExtractFailureTouchesNothing(db: Write.Db, destTable: string, message: string,
                                     mode: TableMode, times: Timings)
    ensures AttemptOutcome(db, destTable, Err(message), mode, times) ==
      RunOutcome(Err(ExtractRaised(message)), db)
  {
  }

  /**
   * A FULL run whose execute returns zero (rows, columns) fails: the table
   * is dropped, not recreated, and the COPY finds no table.
   */
  lemma FullZeroRowPairFails(db: Write.Db, destTable: string, columns: seq<string>, times: Timings)
    ensures var key := Write.ParseTable(destTable);
      AttemptOutcome(db, destTable, Ok(Pair([], columns)), Full, times) ==
        RunOutcome(Err(WriteRaised(Write.UndefinedTable(key))), db - {key})
  {
    Write.ReplaceWithoutRowsFails(db, destTable, columns, None);
  }

  /** A FULL run whose execute returns an empty DataFrame succeeds with 0 rows and an empty table. */
  lemma FullEmptyFrameSucceeds(db: Write.Db, destTable: string, frame: Frame, times: Timings)
    requires frame.rows == []
    ensures var key := Write.ParseTable(destTable);
      var o := AttemptOutcome(db, destTable, Ok(FrameResult(frame)), Full, times);
      o.result.Ok? && o.result.value.rows == 0 &&
      key in o.db && o.db[key] == Write.Table(Write.PolarsDefs(frame), [])
  {
    Write.PolarsEmptyFrameCreates(db, destTable, frame);
  }

  /**
   * An INCREMENTAL run never drops or redefines a table: every table keeps
   * its definition and its earlier rows as a prefix, whatever the outcome.
   */
  lemma {:induction false} IncrementalKeepsTables(db: Write.Db, destTable: string,
                                                  extracted: Result<Extraction, string>, times: Timings)
    ensures var o := AttemptOutcome(db, destTable, extracted, Incremental, times);
      o.db.Keys == db.Keys &&
      forall k :: k in db ==> o.db[k].defs == db[k].defs && o.db[k].rows[..|db[k].rows|] == db[k].rows
  {
    var key := Write.ParseTable(destTable);
    match extracted
    case Err(_) =>
    case Ok(NotAPair) =>
    case Ok(FrameResult(f)) =>
      Write.CopyKeepsTables(db, key, f.columns, f.rows);
    case Ok(Pair(rows, columns)) =>
      Write.CopyKeepsTables(db, key, columns, rows);
  }
}
