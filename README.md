# sidewinder core, modelled in Dafny

sidewinder moves data from source systems into PostgreSQL. Each model's
`execute` callback extracts data. `run_ingest` can gate the run on a cron
schedule, writes the result into a destination table and records the run's
outcome in a `model_state` table. A separate Polars pipeline turns a Cognos
ledger export into accumulated and de-accumulated monthly rows. This project
models that core and proves properties of the model.

- `wrappers.dfy`: `Option` and `Result`.
- `values.dfy`: the Python values a row tuple can hold. The values are `Null`, `Int`, `Bool`, `Float` (finite, NaN or an infinity), `Datetime`, `Str` and `Other`. The file also defines a Polars frame: column names, one dtype per column, and rows as wide as the column list.
- `type_mapping.dfy`: the Polars-dtype-to-PostgreSQL table and its lookup.
- `write.dfy`: the destination writers of `orchestrator/write.py`.
  - The destination database is a map from `(schema, table)` to a table. A table holds column definitions and rows.
  - `DROP TABLE IF EXISTS`, `CREATE TABLE IF NOT EXISTS` and `COPY ... FROM STDIN` are methods of a `Destination` class that update that map.
  - Each statement commits on its own. A `COPY` that fails is rolled back as a whole. An earlier `DROP` or `CREATE` stays.
  - `COPY` fails in this order: a missing table (`UndefinedTable`), then a listed column the table lacks (`UndefinedColumn`), then a row whose width differs from the column list (`RowArity`).
  - `Write` and `WritePolars` are proved equal to the specification functions `WriteOutcome` and `WritePolarsOutcome`. The lemmas are stated about those functions.
- `cron_checker.dfy`: the `model_state` store and the cron gate.
  - The store is a map from model name to its one row.
  - The two upserts are specified field by field, including the columns they leave alone.
  - croniter's next-instant computation is a function value of type `Instant -> Option<Instant>`. `None` means croniter rejects the expression.
- `run.dfy`: `run_ingest` of `orchestrator/run.py`.
  - `RunTracked` is its `try` block: execute once, dispatch on the result's shape, write, then record success or failure when a checker is attached. Exceptions are `RunError` values.
  - `RunIngest` is the whole function as written.
- `ingest.dfy`: the older `ingest.py`.
  - Its `_parse_table`, `_infer_pg_type`, `_clean_row` and `write` (ingest.py:32-59 and ingest.py:90-122) have the same statements as those in `orchestrator/write.py`. They are modelled once, in module `Write`.
  - Only the `write_polars` and the `run_ingest` that differ are modelled here.
- `cognos_transform.dfy`: `source/cognos/cognos_transform.py`.
  - Every Polars expression is a function on one row's cells. A cell is `Option<string>`, with `None` for null.
  - `ReadAndTransform` cleans, numbers and selects the rows, then expands them into accumulated ++ original ++ de-accumulated rows.

Two behaviours of the code that a caller might not expect, which the model keeps as written:

- `write` in mode `"replace"` with zero rows does not succeed.
  - The drop commits, no `CREATE` is issued because `rows` is empty, and the `COPY` targets a table that no longer exists.
  - `Write.ReplaceWithoutRowsFails` and `Run.FullZeroRowPairFails` state this.
- There is no `force` bypass of the cron gate.
  - `run_ingest` calls `checker.check_and_start(force=force)`, but `check_and_start` takes no `force` parameter. With a truthy `schedule`, that call raises `TypeError` before the `try`.
  - `Run.RunIngest` models that as written: the checker is built, the error reaches the caller, `execute` is not called, nothing is written and nothing is recorded.
  - The recording logic of the `try` block is still modelled and proved, in `Run.RunTracked` with an attached checker.

## Model

| member | source | states |
|---|---|---|
| TypeMapping.PgTypeFromPolars | config/type_mapping.py:21-22 | The lookup is total and always returns one of the twelve PostgreSQL labels of the table. |
| TypeMapping.IntegerWidths | config/type_mapping.py:6-9 | Int8 and Int16 both give SMALLINT, Int32 gives INTEGER, and Int64 gives BIGINT. |
| TypeMapping.FloatWidths | config/type_mapping.py:10-11 | Float32 gives REAL and Float64 gives DOUBLE PRECISION. |
| TypeMapping.OtherScalars | config/type_mapping.py:5-17 | String→TEXT, Boolean→BOOLEAN, Date→DATE, Datetime→TIMESTAMPTZ, Time→TIME, Decimal→NUMERIC and Binary→BYTEA. |
| TypeMapping.UnmappedIsText | config/type_mapping.py:22 | Every dtype class outside the thirteen keys falls back to TEXT. |
| TypeMapping.EveryLabelProduced | config/type_mapping.py:4-18 | Each of the twelve labels is produced by some dtype in the table. |
| Write.FirstDot | orchestrator/write.py:8-9 | Finds the first '.': none exactly when the text has no dot; otherwise a dot at that index with none before it. |
| Write.ParseTable | orchestrator/write.py:7-13 | With a dot: the schema has no dot and schema + "." + table is the input. Without a dot: ("public", input). |
| Write.ParseTableUnique | orchestrator/write.py:7-13 | The split at the first dot is the only one whose schema part has no dot, so extra dots stay in the table name. |
| Write.InferPgType | orchestrator/write.py:16-26 | The label holds exactly for its exact type: int→BIGINT, float→DOUBLE PRECISION, bool→BOOLEAN (never BIGINT), datetime→TIMESTAMPTZ. None, str and every other type give TEXT. |
| Write.CleanRow | orchestrator/write.py:29-35 | Keeps the length and each field. NaN, +inf and -inf floats become None. |
| Write.CleanRowIdempotent | orchestrator/write.py:29-35 | Cleaning a cleaned row changes nothing. |
| Write.CleanRowFinite | orchestrator/write.py:29-35 | A cleaned row holds no non-finite float. |
| Write.InferredDefs | orchestrator/write.py:59-62 | zip(columns, rows[0]) gives min(len(columns), len(rows[0])) definitions. Definition i is column i typed by value i. |
| Write.DeclaredDefs | orchestrator/write.py:56-57 | Succeeds iff every column has a declared type, with one definition per column in order. Otherwise the error names the first column without a type. |
| Write.CreateIfAbsent | orchestrator/write.py:63-65 | CREATE IF NOT EXISTS leaves an existing table as it is and otherwise adds an empty table with the given definitions. Other tables are unchanged. |
| Write.FirstUndefined | orchestrator/write.py:71 | Finds the first listed column the table does not define. None means every listed column is defined. |
| Write.FirstArityMismatch | orchestrator/write.py:72-73 | Finds the first row whose width differs from the column list. None means every row fits. |
| Write.CopySucceedsIff | orchestrator/write.py:70-75 | A COPY succeeds exactly when the table exists, defines every listed column and every row has the column list's width. |
| Write.CopyAppendsInOrder | orchestrator/write.py:70-75 | A successful COPY appends every row, cleaned and in input order, after the existing rows. It keeps the definitions and touches no other table. |
| Write.CopyKeepsTables | orchestrator/write.py:70-75 | Whatever the outcome, a COPY removes no table, redefines none, and keeps each table's earlier rows as a prefix. |
| Write.CopyFailureRollsBack | orchestrator/write.py:70-75 | A failed COPY leaves the database unchanged. |
| Write.CopyIntoDefinedTable | orchestrator/write.py:70-75 | A COPY into a table defining exactly the listed columns, with rows that fit, succeeds and appends the cleaned rows. |
| Write.PolarsDefs | orchestrator/write.py:91 | One definition per frame column, typed by pg_type_from_polars of that column's dtype. |
| Write.Destination.DropIfExists | orchestrator/write.py:50-52 | The table is removed if present, and nothing else changes. |
| Write.Destination.CreateIfNotExists | orchestrator/write.py:63-66 | The new state is CreateIfAbsent of the old one. |
| Write.Destination.Copy | orchestrator/write.py:70-75 | The loop writing cleaned rows into the COPY stream gives exactly CopyOutcome's result and state. |
| Write.Write | orchestrator/write.py:38-75 | Drop in replace mode; create from col_types or the first row only when rows is non-empty in replace or fail mode; then COPY. Result and state equal WriteOutcome. |
| Write.WritePolars | orchestrator/write.py:78-105 | Drop in replace mode; always create from the dtypes in replace or fail mode; then COPY. Result and state equal WritePolarsOutcome. |
| Write.ReplaceWithoutRowsFails | orchestrator/write.py:50-71 | "replace" with zero rows leaves the table dropped, and the COPY fails with UndefinedTable. |
| Write.AppendIssuesNoDdl | orchestrator/write.py:50-66 | In append mode no table is dropped, created or redefined. |
| Write.FailModeKeepsDefinition | orchestrator/write.py:63-65 | "fail" on an existing table keeps its definition. |
| Write.DeclaredTypesRequired | orchestrator/write.py:56-57 | With col_types, a column missing from it raises after the drop has committed. |
| Write.ReplaceHoldsOnlyNewRows | orchestrator/write.py:38-75 | A successful "replace" leaves the table with exactly the first-row-inferred definitions and the new rows, cleaned and in order. Other tables are unchanged. |
| Write.FullReplaceTwice | orchestrator/write.py:38-75 | After two successful replaces, the table reflects only the second load. |
| Write.AppendTwice | orchestrator/write.py:68-75 | Two successful appends give the old rows ++ clean(A) ++ clean(B). |
| Write.InferringWriteCopiesIntoCreated | orchestrator/write.py:54-75 | Without col_types, a "fail" write with rows is a COPY into the table that CREATE IF NOT EXISTS leaves, with first-row definitions. |
| Write.NarrowFirstRowFails | orchestrator/write.py:59-71 | Inference from a first row narrower than the (distinct) column list creates a table that lacks the trailing columns. The COPY then fails on the first of them, and the empty table stays. |
| Write.PolarsEmptyFrameCreates | orchestrator/write.py:90-95 | write_polars in replace mode with an empty frame succeeds and leaves an empty table typed from the dtypes. |
| CronGate.UpsertSuccess | orchestrator/cron_checker.py:56-70 | Upsert by model name. It sets last_run, status success, rows_processed, execution_time and updated_at, keeps an existing error (or leaves it null on insert), and leaves every other model's row unchanged. |
| CronGate.UpsertFailure | orchestrator/cron_checker.py:74-88 | Upsert by model name. It sets last_run, status failed, error, execution_time and updated_at, keeps an existing rows_processed (or leaves it null), and leaves every other row unchanged. |
| CronGate.ErrorSurvivesSuccess | orchestrator/cron_checker.py:59-87 | A success after a failure still shows the failure's error text. |
| CronGate.RowsSurviveFailure | orchestrator/cron_checker.py:59-87 | A failure after a success still shows the success's row count. |
| CronGate.HistoryIsDepthOne | orchestrator/cron_checker.py:56-70 | Two successes for one name keep one row: status success, and last_run, rows_processed and execution_time from the second. error is whatever the store held before both, null for a new name. |
| CronGate.FailureHistoryIsDepthOne | orchestrator/cron_checker.py:74-88 | Two failures for one name keep one row: status failed, and last_run, error and execution_time from the second. rows_processed is whatever the store held before both, null for a new name. |
| CronGate.GateDecision | orchestrator/cron_checker.py:30-46 | No last_run: proceed. Otherwise proceed iff now >= the next cron instant after last_run, and skip iff earlier. An error iff croniter rejects the schedule. |
| CronGate.CronChecker.constructor | orchestrator/cron_checker.py:9-13 | The checker holds the model name, the schedule and the store it was built with. |
| CronGate.CronChecker.GetLastRun | orchestrator/cron_checker.py:48-54 | Returns the stored last_run, or None when the model has no row. It is a read with no modifies clause. |
| CronGate.CronChecker.CheckAndStart | orchestrator/cron_checker.py:30-46 | The GateDecision over the stored last_run. It writes no state, so a skip leaves the store as it was. |
| CronGate.CronChecker.UpdateSuccess | orchestrator/cron_checker.py:56-70 | The store becomes UpsertSuccess of the old store. |
| CronGate.CronChecker.UpdateFailure | orchestrator/cron_checker.py:74-88 | The store becomes UpsertFailure of the old store. |
| CronGate.DailyAtSixScenario | orchestrator/cron_checker.py:38-46 | For "0 6 * * *" with last_run at 06:00 yesterday, the gate skips at 05:59 today and proceeds at 06:00. |
| Run.ModeValue | orchestrator/run.py:8-10 | FULL is "replace" and INCREMENTAL is "append". The value provisions a table (replace or fail) exactly for FULL. |
| Run.Attempt | orchestrator/run.py:41-67 | execute is called once with start and end unchanged. A frame goes to write_polars and a (rows, columns) pair to write, with the mode's value. Result and destination equal AttemptOutcome. |
| Run.RunTracked | orchestrator/run.py:35-91 | execute is called once with start and end unchanged, and a frame or a (rows, columns) pair is written by its writer. With a checker, success records rows_count and the total time, and any error records its message and is returned unchanged. |
| Run.RunIngest | orchestrator/run.py:13-91 | With a truthy schedule: the TypeError from the force keyword, with the destination and store unchanged. Otherwise: the try block with no checker, leaving the store unchanged. |
| Run.SuccessReportsRowCount | orchestrator/run.py:43-76 | A successful run had a frame or a pair, and it reports its row count. |
| Run.ExtractFailureTouchesNothing | orchestrator/run.py:41-91 | An exception from execute is returned as is, and the destination is unchanged. |
| Run.FullZeroRowPairFails | orchestrator/run.py:56-66 | A FULL run whose execute returns zero rows as a pair fails with UndefinedTable after dropping the table. |
| Run.FullEmptyFrameSucceeds | orchestrator/run.py:43-53 | A FULL run with an empty frame reports 0 rows and leaves an empty dtype-typed table. |
| Run.IncrementalKeepsTables | orchestrator/run.py:43-67 | An INCREMENTAL run never drops or redefines a table, and earlier rows stay a prefix. |
| Ingest.FirstRowDefs | ingest.py:145-150 | The col_defs loop gives one definition per column, typed from the first row's value in that column. |
| Ingest.WritePolars | ingest.py:125-164 | Drop in replace mode. An empty frame then does nothing more and succeeds. Otherwise create from first-row types in replace or fail mode, then COPY. Result and state equal WritePolarsOutcome. |
| Ingest.RunIngest | ingest.py:167-239 | execute once, write by shape, and return the row count and timings. There is no gate and no record, and errors propagate. |
| Ingest.EmptyFrameReplaceLeavesNoTable | ingest.py:136-144 | An empty frame in replace mode drops the table, creates nothing, copies nothing and succeeds. |
| Ingest.EmptyFrameWritersDisagree | ingest.py:136-144 | On an empty frame in replace mode, this writer leaves no table where the orchestrator's leaves an empty one. Both succeed. |
| Ingest.FirstRowDecidesTypes | ingest.py:144-164 | A non-empty frame in replace mode is typed from its first row's values, not the dtypes, and holds its rows cleaned and in order. |
| Ingest.PairRunsAgree | ingest.py:214-226 | On a (rows, columns) result, ingest.py's run and the orchestrator's try block have the same outcome. |
| CognosTransform.StripStart | source/cognos/cognos_transform.py:96 | Drops only leading whitespace. What remains is a suffix that does not start with whitespace. |
| CognosTransform.Strip | source/cognos/cognos_transform.py:96 | The kept text is a contiguous piece of the input with only whitespace before and after it, and it neither starts nor ends with whitespace. |
| CognosTransform.StripEmptyIffBlank | source/cognos/cognos_transform.py:96 | Stripping gives the empty text exactly when the input is all whitespace. |
| CognosTransform.StripEnd | source/cognos/cognos_transform.py:96 | Drops only trailing whitespace. What remains is a prefix that does not end with whitespace. |
| CognosTransform.CleanCell | source/cognos/cognos_transform.py:94-97 | Null stays null. A non-null cell becomes null exactly when it is all whitespace; otherwise it becomes its stripped text, which is non-empty with no whitespace at either end. |
| CognosTransform.CleanCellIdempotent | source/cognos/cognos_transform.py:94-97 | Cleaning twice is cleaning once. |
| CognosTransform.CleanCellKeepsClean | source/cognos/cognos_transform.py:94-97 | A non-empty cell with no surrounding whitespace is unchanged. |
| CognosTransform.BolagId | source/cognos/cognos_transform.py:15-24 | Null iff the input is null. Rules in order: a code ending in "MA" loses that suffix; else one starting with "TR" loses that prefix; else one ending in "L" loses it; else the code is kept. |
| CognosTransform.Justeringstyp | source/cognos/cognos_transform.py:27-36 | Never null, one of the four labels. A null code gives "Ej justering". The MA label iff the code ends in "MA"; the TR label iff it does not and starts with "TR"; the L label iff neither and it ends in "L". |
| CognosTransform.AdjustedIffLabelled | source/cognos/cognos_transform.py:15-36 | The company id is the code with exactly the affix its label names removed ("MA", "TR" or "L"), or the code itself under "Ej justering". So the id differs from the code exactly when the label is not "Ej justering". |
| CognosTransform.ManualBeatsTraffic | source/cognos/cognos_transform.py:17-20 | Every code that both starts with TR and ends with MA loses only the MA (a remaining TR prefix stays), and its label is the MA label. |
| CognosTransform.NatToString | source/cognos/cognos_transform.py:89-90 | Integer-to-text gives digits with no leading zero that read back as the number: one digit exactly below 10. |
| CognosTransform.CastInt64 | source/cognos/cognos_transform.py:71 | A non-strict cast of an all-digit code: null exactly when the code is empty or its value exceeds the Int64 maximum; otherwise the code's decimal value. |
| CognosTransform.DatatypCognos | source/cognos/cognos_transform.py:76-81 | A non-null code with a non-digit takes the text branch, giving "HARB" or a prefix of the code. Any other code, null included, takes the numeric branch, giving one of ANLT, PANY, LS, B or R. |
| CognosTransform.AjTestUnreachable | source/cognos/cognos_transform.py:71-78 | "AJ" has non-digits, so it takes the text branch and the `konto == "AJ"` test never decides. |
| CognosTransform.ShortNumericIsBalance | source/cognos/cognos_transform.py:64-73 | Every all-digit code of 1 to 3 digits is B. |
| CognosTransform.SevenDigitThreshold | source/cognos/cognos_transform.py:64-73 | A 7-digit code in no prefix list is B below 2000 and R from 2000 on. |
| CognosTransform.PrefixListsDisjoint | source/cognos/cognos_transform.py:39-44 | No four-digit prefix is in two of the ANLT, PANY and LS lists. |
| CognosTransform.NumericListRules | source/cognos/cognos_transform.py:64-70 | A seven-digit code whose first four digits are in the ANLT, PANY or LS list gets that list's label. |
| CognosTransform.NumericThresholdRule | source/cognos/cognos_transform.py:64-74 | An all-digit code not caught by a list is B exactly when it is non-empty with a value below 2000, else R. A null code is R. |
| CognosTransform.TextCodeRules | source/cognos/cognos_transform.py:54-62 | A code with a non-digit: "HARB" if it starts with HARB; else its first 3 characters if it has 6; else its first 4 if it has 7; else the code itself. |
| CognosTransform.CastInt32Strict | source/cognos/cognos_transform.py:6-7 | A slice of at most two characters casts iff it is non-empty and all digits, giving its decimal value (below 100). Otherwise it raises. |
| CognosTransform.ParsePeriod | source/cognos/cognos_transform.py:5-8 | Null perakt gives a null date. It raises exactly when the year slice (characters 0-1) or the month slice (2-3) is empty or not all digits. Otherwise the date is 2000+YY-MM-01 for a month 1-12, and null for any other month. |
| CognosTransform.ParsePeriodReadsYearMonth | source/cognos/cognos_transform.py:5-8 | Any perakt made of a two-digit year YY, a two-digit month MM in 1-12 and any tail parses to 2000+YY-MM-01. |
| CognosTransform.ParsePeriodSample | source/cognos/cognos_transform.py:5-8 | "2403AC" gives 2024-03-01. |
| CognosTransform.Aktualitet | source/cognos/cognos_transform.py:11-12 | Null iff perakt is null. Otherwise characters 4 and 5; only character 4 onwards when perakt has 5 characters; empty when it has at most 4. |
| CognosTransform.FormatPeriodUs | source/cognos/cognos_transform.py:88-91 | Null iff the date is null. |
| CognosTransform.FormatPeriodUsReadsBack | source/cognos/cognos_transform.py:88-91 | The text is month digits + "/1/" + year digits. The month part has no '/', reads back as the month, and is one character exactly for months below 10 (no zero padding). |
| CognosTransform.FormatPeriodUsSample | source/cognos/cognos_transform.py:88-91 | March 2024 gives "3/1/2024" and November 2024 gives "11/1/2024". |
| CognosTransform.NextMonth | source/cognos/cognos_transform.py:147 | Offsetting the first of a month by one month gives the next month of the same year, or January of the next year after December. |
| CognosTransform.ParseAmount | source/cognos/cognos_transform.py:84-85 | A null amount stays null. Otherwise the text goes to _parse_belopp: success iff it succeeds, with its value, and its error otherwise. |
| CognosTransform.FillNull | source/cognos/cognos_transform.py:124-135 | fill_null(""): a null cell gives the empty text, any other its text. |
| CognosTransform.SelectFields | source/cognos/cognos_transform.py:120-138 | All sixteen selected columns: Datatyp Cognos from konto, both Justeringstyp columns, Bolag, Aktualitet, Period from the period date, the row number, the amount, the fill_null("") columns Motpartsbolag, Verksamhetsgren, ktypkonc, vernr and vtyp, and bol, konto and perakt passed through. |
| CognosTransform.TransformRow | source/cognos/cognos_transform.py:116-138 | Succeeds iff both the period and the amount parse. Then the row's period date is the parsed period, its columns are SelectFields of the row with that date and amount, its number is the given one, and its Period renders its own date. |
| CognosTransform.SelectAll | source/cognos/cognos_transform.py:116-138 | Applies a row function to every row with consecutive numbers. It succeeds with one result per row, or fails only if some row fails. |
| CognosTransform.TransformAll | source/cognos/cognos_transform.py:116-138 | One output row per input row, numbered consecutively from the offset. It fails only when some row's cast fails. |
| CognosTransform.NonDecember | source/cognos/cognos_transform.py:146 | Keeps exactly the rows whose period month is known and is not 12. |
| CognosTransform.NonDecemberConcat | source/cognos/cognos_transform.py:146 | The filter distributes over concatenation, so it keeps input order. |
| CognosTransform.Excluded | source/cognos/cognos_transform.py:146 | The rows the filter drops are December rows or rows without a period. |
| CognosTransform.NonDecemberCount | source/cognos/cognos_transform.py:146 | Kept rows plus dropped rows is all rows. |
| CognosTransform.Negate | source/cognos/cognos_transform.py:151 | Multiplying by -1: null stays null, a finite amount x becomes -x, NaN stays NaN, and +inf and -inf swap. |
| CognosTransform.NegateInvolution | source/cognos/cognos_transform.py:151 | Negating twice restores the amount, NaN stays NaN, and +inf becomes -inf. |
| CognosTransform.DeaccumulateShiftsOneMonth | source/cognos/cognos_transform.py:146-153 | A de-accumulated row is one month later in the same year (never past December). Its Period is re-rendered, its amount negated, and every other column unchanged. |
| CognosTransform.ExpandLayout | source/cognos/cognos_transform.py:141-157 | The output has 2n + (non-December count) rows: the n rows flagged accumulated, the n rows flagged not accumulated, then the de-accumulated non-December rows in input order. |
| CognosTransform.TailRowsShifted | source/cognos/cognos_transform.py:146-155 | Each tail row comes from an input row. It is not accumulated, has that row's period one month on, and has that row's amount negated. |
| CognosTransform.ReadAndTransform | source/cognos/cognos_transform.py:112-157 | A successful transform returns at least twice as many rows as it read. |
| CognosTransform.RowsNumberedFromOne | source/cognos/cognos_transform.py:116-144 | Accumulated row i carries source row number i + 1. Original row i has the same columns with the flag false. |

## Left out

- Schemas are not modelled apart from the table key. The code issues no `CREATE SCHEMA`, so a table in an absent schema would fail at `CREATE`; the model has no such failure.

- Connections, DSNs and environment lookups are not modelled. The destination and the state store are objects handed to the methods. The `_build_*`, `read_query` and `read_polars` functions of ingest.py, config/connection.py and orchestrator/read.py are not part of this model.
- Clock reads (`time.time`, `datetime.now`, `NOW()`) are parameters: durations are opaque naturals and `updated_at` is the same instant as `last_run`.
- croniter is not modelled. Its next-instant function is a parameter, with one concrete daily schedule for the scenario lemma.
- `CronChecker._ensure_table` (the DDL of `model_state`) and any failure of the state database itself are not modelled. An exception from `update_success` inside the `try` is therefore not modelled either.
- Printing, `verbose` and `sys.exit(0)` are not modelled. A skip is the `Skip` gate value, and no state is written.
- The model's COPY does not check that a value's type fits its column. PostgreSQL rejects such a row (text in a BIGINT column, for example), so `Write.CopySucceedsIff` and `Ingest.FirstRowDecidesTypes` hold of the model only. Rows are stored in COPY column order, not the table's column order.
- Identifier case folding is not modelled, nor SQL quoting. Statements are actions, not text.
- Write.ParseTable: a `dest_table` with two or more dots, such as "a.b.c", is split at the first dot into schema "a" and a table named "b.c". The code writes the name unquoted into DROP, CREATE and COPY, where PostgreSQL reads it as catalog.schema.table. The model does not capture that reading.
- An empty column list, which is a syntax error in PostgreSQL, is not modelled, nor duplicate column names.
- Run.Message: the exception texts recorded by `update_failure` are approximations of psycopg's and Python's messages. The model only fixes which error is recorded.
- Values from subclasses (numpy scalars and similar) are not modelled. They count as `Other`, so they get TEXT.
- The `**kwargs` that `run_ingest` forwards to `execute` (orchestrator/run.py:23,41) are not modelled: `execute` takes only start and end. A model that builds its own `CronChecker` under a `MODEL_NAME` other than its `dest_table` and passes it as `cron_checker=` (models/rk_dim_levfakt_koppl.py:3,14,22) is therefore not modelled either; that keyword lands in those `**kwargs`. The checker `run_ingest` builds itself is modelled, keyed by `dest_table`.
- `_parse_belopp` is not modelled. It is a parameter of type `string -> Result<FloatValue, string>`.
- Reading files by suffix is not modelled, nor the rename of column names, nor the rendering of non-text columns as text. The model starts from the nine text columns it reads, and every input is taken to have all nine.
- `one_table_to_rule_them_all` and the `__main__` block are not modelled: they concatenate files and print.
- CognosTransform.AllDigits: `\d` is taken as the ASCII digits 0-9. Polars' regex also counts other Unicode decimal digits. Such a code would go to the numeric branch, where its cast gives null.
- CognosTransform.CastInt32Strict: only digits are accepted. A leading '+' or '-' in a perakt slice, which Polars' integer parsing may accept, fails the cast in the model.
- CognosTransform.ParsePeriod: a month outside 1-12 is taken to give a null date, as `pl.date` does when chrono rejects the date. The row is then kept with a null Period and does not get a de-accumulated copy.
- CognosTransform.TransformAll: when several rows fail to cast, the error reported is the first failing row's. Polars may name another.
- CognosTransform.ReadAndTransform: the `ValueError` for an unsupported file suffix is not modelled.
- Concurrent runs updating `model_state` are not modelled.
