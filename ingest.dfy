/**
 * The older single-file ingest (ingest.py). Its _parse_table,
 * _infer_pg_type, _clean_row and write are the same as those of
 * orchestrator/write.py and are the ones in module Write. What differs is
 * write_polars, which types the columns from the first row's values and
 * does nothing after the optional drop when the frame is empty, and
 * run_ingest, which has no cron gate, no state store and no try block.
 */
module Ingest {
  import opened Wrappers
  import opened Values
  import Write
  import Run

  /** write_polars of ingest.py, as a specification. */
  function WritePolarsOutcome(db: Write.Db, destTable: string, frame: Frame, mode: string): (o: Write.Outcome)
  {
    var key := Write.ParseTable(destTable);
    var db1 := Write.Dropped(db, key, mode);
    if frame.rows == [] then Write.Outcome(Ok(()), db1)
    else
      var defs := Write.InferredDefs(frame.columns, frame.rows[0]);
      var db2 := if Write.CreatesTable(mode) then Write.CreateIfAbsent(db1, key, defs) else db1;
      Write.CopyOutcome(db2, key, frame.columns, frame.rows)
  }

  /** The col_defs loop: one definition per column, typed from the first row's value in that column. */
  method FirstRowDefs(columns: seq<string>, first: Row) returns (defs: seq<Write.ColumnDef>)
    requires |first| == |columns|
    ensures |defs| == |columns|
    ensures forall i :: 0 <= i < |columns| ==>
      defs[i].name == columns[i] && defs[i].pgType == Write.InferPgType(first[i])
  {
    defs := [];
    var i := 0;
    while i < |columns|
      invariant 0 <= i <= |columns|
      invariant |defs| == i
      invariant forall j :: 0 <= j < i ==>
        defs[j].name == columns[j] && defs[j].pgType == Write.InferPgType(first[j])
    {
      var val := first[i];
      var pgType := Write.InferPgType(val);
      defs := defs + [Write.ColumnDef(columns[i], pgType)];
      i := i + 1;
    }
  }

  /** write_polars of ingest.py against the destination. */
  method WritePolars(dest: Write.Destination, destTable: string, frame: Frame, mode: string)
    returns (r: Result<(), Write.WriteError>)
    modifies dest
    ensures Write.Outcome(r, dest.tables) == WritePolarsOutcome(old(dest.tables), destTable, frame, mode)
  {
    var key := Write.ParseTable(destTable);
    if mode == "replace" {
      dest.DropIfExists(key);
    }
    var rows := frame.rows;
    var columns := frame.columns;
    if rows != [] {
      var defs := FirstRowDefs(columns, rows[0]);
      assert defs == Write.InferredDefs(columns, rows[0]);
      if mode == "replace" || mode == "fail" {
        dest.CreateIfNotExists(key, defs);
      }
      r := dest.Copy(key, columns, rows);
    } else {
      r := Ok(());
    }
  }

  function WriteOutcomeFor(db: Write.Db, destTable: string, x: Run.Extraction, mode: Run.TableMode): (o: Write.Outcome)
    requires !x.NotAPair?
  {
    match x
    case FrameResult(f) => WritePolarsOutcome(db, destTable, f, Run.ModeValue(mode))
    case Pair(rows, columns) => Write.WriteOutcome(db, destTable, rows, columns, Run.ModeValue(mode), None)
  }

  /** run_ingest of ingest.py, as a specification: no gate, no record, errors propagate. */
  function AttemptOutcome(db: Write.Db, destTable: string, extracted: Result<Run.Extraction, string>,
                      mode: Run.TableMode, times: Run.Timings): (o: Run.RunOutcome)
  {
    match extracted
    case Err(m) => Run.RunOutcome(Err(Run.ExtractRaised(m)), db)
    case Ok(NotAPair) => Run.RunOutcome(Err(Run.UnpackRaised), db)
    case Ok(x) =>
      var w := WriteOutcomeFor(db, destTable, x, mode);
      if w.result.Err? then Run.RunOutcome(Err(Run.WriteRaised(w.result.error)), w.db)
      else Run.RunOutcome(Ok(Run.RunResult(Run.RowCount(x), times.exec, times.write, times.total)), w.db)
  }

  /** run_ingest of ingest.py: execute once, write by shape, return the counts. */
  method RunIngest(dest: Write.Destination, destTable: string, execute: Run.Execute, mode: Run.TableMode,
                   start: Option<string>, end: Option<string>, times: Run.Timings)
    returns (r: Result<Run.RunResult, Run.RunError>)
    modifies dest
    ensures var o := AttemptOutcome(old(dest.tables), destTable, execute(start, end), mode, times);
      r == o.result && dest.tables == o.db
  {
    var result := execute(start, end);
    if result.Err? {
      return Err(Run.ExtractRaised(result.error));
    }
    match result.value
    case FrameResult(df) =>
      var rowsCount := |df.rows|;
      var w := WritePolars(dest, destTable, df, Run.ModeValue(mode));
      r := if w.Ok? then Ok(Run.RunResult(rowsCount, times.exec, times.write, times.total))
           else Err(Run.WriteRaised(w.error));
    case Pair(rows, columns) =>
      var rowsCount := |rows|;
      var w := Write.Write(dest, destTable, rows, columns, Run.ModeValue(mode), None);
      r := if w.Ok? then Ok(Run.RunResult(rowsCount, times.exec, times.write, times.total))
           else Err(Run.WriteRaised(w.error));
    case NotAPair =>
      r := Err(Run.UnpackRaised);
  }

  // ---------------------------------------------------------------------------
  // Properties

  /** An empty frame in "replace": the table is dropped, nothing is created or copied, no error. */
  lemma EmptyFrameReplaceLeavesNoTable(db: Write.Db, destTable: string, frame: Frame)
    requires frame.rows == []
    ensures var key := Write.ParseTable(destTable);
      WritePolarsOutcome(db, destTable, frame, "replace") == Write.Outcome(Ok(()), db - {key})
  {
  }

  /**
   * The two write_polars disagree on an empty frame in "replace": the
   * orchestrator's leaves an empty table typed from the dtypes, this one
   * leaves no table. Both report success.
   */
  lemma {:induction false} EmptyFrameWritersDisagree(db: Write.Db, destTable: string, frame: Frame)
    requires frame.rows == []
    ensures var key := Write.ParseTable(destTable);
      var older := WritePolarsOutcome(db, destTable, frame, "replace");
      var newer := Write.WritePolarsOutcome(db, destTable, frame, "replace");
      older.result.Ok? && newer.result.Ok? && key !in older.db && key in newer.db
  {
    Write.PolarsEmptyFrameCreates(db, destTable, frame);
  }

  /**
   * A non-empty frame written with "replace" is typed from its first row's
   * values, whatever the column dtypes say, and holds its rows cleaned and in order.
   */
  lemma {:induction false} FirstRowDecidesTypes(db: Write.Db, destTable: string, frame: Frame)
    requires frame.rows != []
    ensures var key := Write.ParseTable(destTable);
      var o := WritePolarsOutcome(db, destTable, frame, "replace");
      o.result.Ok? && key in o.db &&
      o.db[key] == Write.Table(Write.InferredDefs(frame.columns, frame.rows[0]), Write.CleanRows(frame.rows))
  {
    var key := Write.ParseTable(destTable);
    var defs := Write.InferredDefs(frame.columns, frame.rows[0]);
    var db2 := (db - {key})[key := Write.Table(defs, [])];
    assert frame.rows[0] in frame.rows;
    Write.InferredNamesPrefix(frame.columns, frame.rows[0]);
    assert frame.columns[..|frame.rows[0]|] == frame.columns;
    assert forall i :: 0 <= i < |frame.rows| ==> |frame.rows[i]| == |frame.columns| by {
      forall i | 0 <= i < |frame.rows| ensures |frame.rows[i]| == |frame.columns| {
        assert frame.rows[i] in frame.rows;
      }
    }
    Write.CopyIntoDefinedTable(db2, key, frame.columns, frame.rows);
    assert [] + Write.CleanRows(frame.rows) == Write.CleanRows(frame.rows);
  }

  /** Without a store, ingest.py and the orchestrator agree on every (rows, columns) result. */
  lemma PairRunsAgree(db: Write.Db, destTable: string, rows: seq<Row>, columns: seq<string>,
                      mode: Run.TableMode, times: Run.Timings)
    ensures AttemptOutcome(db, destTable, Ok(Run.Pair(rows, columns)), mode, times) ==
      Run.AttemptOutcome(db, destTable, Ok(Run.Pair(rows, columns)), mode, times)
  {
  }
}
