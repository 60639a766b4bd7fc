/**
 * Destination provisioning and bulk load (orchestrator/write.py).
 *
 * The destination database is a map from (schema, table) to a table holding
 * its column definitions and its rows. DROP TABLE IF EXISTS, CREATE TABLE IF
 * NOT EXISTS and COPY ... FROM STDIN are actions on that map. Each statement
 * is committed on its own: a failing COPY is rolled back as a whole, while a
 * DROP or CREATE committed before it stays.
 */
module Write {
  import opened Wrappers
  import opened Values
  import TypeMapping

  type TableKey = (string, string)

  datatype ColumnDef = ColumnDef(name: string, pgType: string)

  /** A destination table: its definitions and its rows in the order they were copied. */
  datatype Table = Table(defs: seq<ColumnDef>, rows: seq<Row>)

  type Db = map<TableKey, Table>

  datatype WriteError =
    | MissingColType(column: string)     // KeyError on col_types[col]
    | UndefinedTable(key: TableKey)      // COPY into a relation that does not exist
    | UndefinedColumn(column: string)    // COPY names a column the table lacks
    | RowArity(index: nat)               // a row wider or narrower than the column list

  /** The result of a statement sequence and the database it leaves behind. */
  datatype Outcome = Outcome(result: Result<(), WriteError>, db: Db)

  // ---------------------------------------------------------------------------
  // _parse_table

  /** Index of the first '.' in s, if any. */
  function FirstDot(s: string): (k: Option<nat>)
    ensures k.None? <==> '.' !in s
    ensures k.Some? ==> k.value < |s| && s[k.value] == '.' && '.' !in s[..k.value]
  {
    if s == [] then None
    else if s[0] == '.' then Some(0)
    else
      match FirstDot(s[1..])
      case None => None
      case Some(j) =>
        assert s[..j + 1] == [s[0]] + s[1..][..j];
        Some(j + 1)
  }

  /** _parse_table: split at the first dot; without a dot the schema is "public". */
  function ParseTable(destTable: string): (r: TableKey)
    ensures '.' in destTable ==> '.' !in r.0 && r.0 + "." + r.1 == destTable
    ensures '.' !in destTable ==> r == ("public", destTable)
  {
    match FirstDot(destTable)
    case None => ("public", destTable)
    case Some(k) =>
      assert destTable == destTable[..k] + "." + destTable[k + 1..];
      (destTable[..k], destTable[k + 1..])
  }

  /** The split is the only one whose schema part has no dot. */
  lemma {:induction false} ParseTableUnique(destTable: string, schema: string, table: string)
    requires '.' !in schema && schema + "." + table == destTable
    ensures ParseTable(destTable) == (schema, table)
  {
    FirstDotAt(destTable, |schema|);
    assert destTable[..|schema|] == schema;
    assert destTable[|schema| + 1..] == table;
  }

  lemma {:induction false} FirstDotAt(s: string, k: nat)
    requires k < |s| && s[k] == '.' && '.' !in s[..k]
    ensures FirstDot(s) == Some(k)
  {
    if k > 0 {
      assert s[0] in s[..k];
      assert s[1..][..k - 1] == s[1..k];
      assert forall c :: c in s[1..k] ==> c in s[..k];
      FirstDotAt(s[1..], k - 1);
    }
  }

  // ---------------------------------------------------------------------------
  // _infer_pg_type and _clean_row

  /** _infer_pg_type: a lookup on the exact type, TEXT for None and for every other type. */
  function InferPgType(v: Value): (t: string)
    ensures t == "BIGINT" <==> v.Int?
    ensures t == "DOUBLE PRECISION" <==> v.Float?
    ensures t == "BOOLEAN" <==> v.Bool?
    ensures t == "TIMESTAMPTZ" <==> v.Datetime?
    ensures t == "TEXT" <==> (v.Null? || v.Str? || v.Other?)
  {
    match v
    case Null => "TEXT"
    case Int(_) => "BIGINT"
    case Float(_) => "DOUBLE PRECISION"
    case Bool(_) => "BOOLEAN"
    case Datetime(_) => "TIMESTAMPTZ"
    case Str(_) => "TEXT"
    case Other(_) => "TEXT"
  }

  predicate NonFinite(v: Value)
  {
    v.Float? && !v.f.Finite?
  }

  /** _clean_row: NaN, +inf and -inf floats become None, every other field is kept. */
  function CleanRow(row: Row): (r: Row)
    ensures |r| == |row|
    ensures forall i :: 0 <= i < |row| ==> r[i] == (if NonFinite(row[i]) then Null else row[i])
  {
    if row == [] then []
    else [if NonFinite(row[0]) then Null else row[0]] + CleanRow(row[1..])
  }

  lemma CleanRowIdempotent(row: Row)
    ensures CleanRow(CleanRow(row)) == CleanRow(row)
  {
  }

  lemma CleanRowFinite(row: Row)
    ensures forall v :: v in CleanRow(row) ==> !NonFinite(v)
  {
  }

  function CleanRows(rows: seq<Row>): (r: seq<Row>)
    ensures |r| == |rows|
    ensures forall i :: 0 <= i < |rows| ==> r[i] == CleanRow(rows[i])
  {
    seq(|rows|, i requires 0 <= i < |rows| => CleanRow(rows[i]))
  }

  // ---------------------------------------------------------------------------
  // Column definitions

  /** zip(columns, rows[0]): one definition per pair, as many as the shorter of the two. */
  function InferredDefs(columns: seq<string>, first: Row): (defs: seq<ColumnDef>)
    ensures |defs| == if |columns| <= |first| then |columns| else |first|
    ensures forall i :: 0 <= i < |defs| ==> defs[i] == ColumnDef(columns[i], InferPgType(first[i]))
  {
    if columns == [] || first == [] then []
    else [ColumnDef(columns[0], InferPgType(first[0]))] + InferredDefs(columns[1..], first[1..])
  }

  /** [col_types[col] for col in columns]: the first column without a declared type raises. */
  function DeclaredDefs(columns: seq<string>, colTypes: map<string, string>): (r: Result<seq<ColumnDef>, WriteError>)
    ensures r.Ok? <==> forall c :: c in columns ==> c in colTypes
    ensures r.Ok? ==> |r.value| == |columns| &&
                      forall i :: 0 <= i < |columns| ==> r.value[i] == ColumnDef(columns[i], colTypes[columns[i]])
    ensures r.Err? ==> exists k :: 0 <= k < |columns| && r.error == MissingColType(columns[k]) &&
                                   columns[k] !in colTypes && forall j :: 0 <= j < k ==> columns[j] in colTypes
  {
    if columns == [] then Ok([])
    else if columns[0] !in colTypes then Err(MissingColType(columns[0]))
    else
      match DeclaredDefs(columns[1..], colTypes)
      case Err(e) =>
        assert forall c :: c in columns[1..] ==> c in columns;
        assert exists k :: 0 <= k < |columns| && e == MissingColType(columns[k]) &&
                           columns[k] !in colTypes && forall j :: 0 <= j < k ==> columns[j] in colTypes by {
          var k' :| 0 <= k' < |columns| - 1 && e == MissingColType(columns[1..][k']) &&
                    columns[1..][k'] !in colTypes && forall j :: 0 <= j < k' ==> columns[1..][j] in colTypes;
          assert forall j :: 0 <= j < k' + 1 ==> columns[j] in colTypes by {
            forall j | 0 <= j < k' + 1 ensures columns[j] in colTypes {
              if j > 0 { assert columns[j] == columns[1..][j - 1]; }
            }
          }
        }
        Err(e)
      case Ok(rest) => Ok([ColumnDef(columns[0], colTypes[columns[0]])] + rest)
  }

  function Names(defs: seq<ColumnDef>): (names: seq<string>)
    ensures |names| == |defs|
    ensures forall i :: 0 <= i < |defs| ==> names[i] == defs[i].name
  {
    seq(|defs|, i requires 0 <= i < |defs| => defs[i].name)
  }

  // ---------------------------------------------------------------------------
  // Statements as actions on the database

  function CreateIfAbsent(db: Db, key: TableKey, defs: seq<ColumnDef>): (r: Db)
    ensures r.Keys == db.Keys + {key}
    ensures key in db ==> r == db
    ensures key !in db ==> r[key] == Table(defs, [])
    ensures forall k :: k in db ==> r[k] == db[k]
  {
    if key in db then db else db[key := Table(defs, [])]
  }

  /** Index of the first listed column that the table does not define. */
  function FirstUndefined(columns: seq<string>, names: seq<string>): (k: Option<nat>)
    ensures k.None? <==> forall c :: c in columns ==> c in names
    ensures k.Some? ==> k.value < |columns| && columns[k.value] !in names &&
                        forall j :: 0 <= j < k.value ==> columns[j] in names
  {
    if columns == [] then None
    else if columns[0] !in names then Some(0)
    else
      match FirstUndefined(columns[1..], names)
      case None => None
      case Some(j) =>
        assert forall i :: 0 < i < j + 1 ==> columns[i] == columns[1..][i - 1];
        Some(j + 1)
  }

  /** Index of the first row whose width differs from the column list. */
  function FirstArityMismatch(rows: seq<Row>, width: nat): (k: Option<nat>)
    ensures k.None? <==> forall i :: 0 <= i < |rows| ==> |rows[i]| == width
    ensures k.Some? ==> k.value < |rows| && |rows[k.value]| != width &&
                        forall i :: 0 <= i < k.value ==> |rows[i]| == width
  {
    if rows == [] then None
    else if |rows[0]| != width then Some(0)
    else
      match FirstArityMismatch(rows[1..], width)
      case None =>
        assert forall i :: 0 < i < |rows| ==> rows[i] == rows[1..][i - 1];
        None
      case Some(j) =>
        assert forall i :: 0 < i < j + 1 ==> rows[i] == rows[1..][i - 1];
        Some(j + 1)
  }

  /**
   * COPY schema.table (columns) FROM STDIN, one cleaned row after another,
   * then commit. Any failure aborts the whole COPY.
   */
  function CopyOutcome(db: Db, key: TableKey, columns: seq<string>, rows: seq<Row>): (o: Outcome)
  {
    if key !in db then Outcome(Err(UndefinedTable(key)), db)
    else
      match FirstUndefined(columns, Names(db[key].defs))
      case Some(k) => Outcome(Err(UndefinedColumn(columns[k])), db)
      case None =>
        match FirstArityMismatch(rows, |columns|)
        case Some(i) => Outcome(Err(RowArity(i)), db)
        case None => Outcome(Ok(()), db[key := db[key].(rows := db[key].rows + CleanRows(rows))])
  }

  /** A COPY succeeds exactly when the table exists, defines every listed column and every row fits. */
  lemma CopySucceedsIff(db: Db, key: TableKey, columns: seq<string>, rows: seq<Row>)
    ensures CopyOutcome(db, key, columns, rows).result.Ok? <==>
      key in db && (forall c :: c in columns ==> c in Names(db[key].defs)) &&
      (forall i :: 0 <= i < |rows| ==> |rows[i]| == |columns|)
  {
  }

  /** A successful COPY appends every row, cleaned and in input order, and touches nothing else. */
  lemma CopyAppendsInOrder(db: Db, key: TableKey, columns: seq<string>, rows: seq<Row>)
    requires CopyOutcome(db, key, columns, rows).result.Ok?
    ensures var db' := CopyOutcome(db, key, columns, rows).db;
      key in db && db'.Keys == db.Keys &&
      db'[key].defs == db[key].defs &&
      |db'[key].rows| == |db[key].rows| + |rows| &&
      db'[key].rows[..|db[key].rows|] == db[key].rows &&
      (forall i :: 0 <= i < |rows| ==> db'[key].rows[|db[key].rows| + i] == CleanRow(rows[i])) &&
      (forall k :: k in db && k != key ==> db'[k] == db[k])
  {
    var db' := CopyOutcome(db, key, columns, rows).db;
    assert db'[key].rows == db[key].rows + CleanRows(rows);
  }

  /** Whatever its outcome, a COPY keeps every table's definition and its earlier rows as a prefix. */
  lemma CopyKeepsTables(db: Db, key: TableKey, columns: seq<string>, rows: seq<Row>)
    ensures var o := CopyOutcome(db, key, columns, rows);
      o.db.Keys == db.Keys &&
      forall k :: k in db ==> o.db[k].defs == db[k].defs && o.db[k].rows[..|db[k].rows|] == db[k].rows
  {
    if CopyOutcome(db, key, columns, rows).result.Ok? {
      CopyAppendsInOrder(db, key, columns, rows);
    }
  }

  /** A failed COPY leaves the database as it was. */
  lemma CopyFailureRollsBack(db: Db, key: TableKey, columns: seq<string>, rows: seq<Row>)
    requires CopyOutcome(db, key, columns, rows).result.Err?
    ensures CopyOutcome(db, key, columns, rows).db == db
  {
  }

  /** A COPY into a table whose definitions name every listed column, with rows that fit, appends them. */
  lemma CopyIntoDefinedTable(db: Db, key: TableKey, columns: seq<string>, rows: seq<Row>)
    requires key in db && Names(db[key].defs) == columns
    requires forall i :: 0 <= i < |rows| ==> |rows[i]| == |columns|
    ensures CopyOutcome(db, key, columns, rows) ==
      Outcome(Ok(()), db[key := db[key].(rows := db[key].rows + CleanRows(rows))])
  {
    assert forall c :: c in columns ==> c in Names(db[key].defs);
  }

  // ---------------------------------------------------------------------------
  // write and write_polars, as specifications

  predicate CreatesTable(mode: string)
  {
    mode == "replace" || mode == "fail"
  }

  /** `if col_types:` is false for None and for an empty dict alike. */
  predicate HasColTypes(colTypes: Option<map<string, string>>)
  {
    colTypes.Some? && colTypes.value != map[]
  }

  function DefsFor(columns: seq<string>, first: Row, colTypes: Option<map<string, string>>): (r: Result<seq<ColumnDef>, WriteError>)
  {
    if HasColTypes(colTypes) then DeclaredDefs(columns, colTypes.value)
    else Ok(InferredDefs(columns, first))
  }

  function Dropped(db: Db, key: TableKey, mode: string): (r: Db)
  {
    if mode == "replace" then db - {key} else db
  }

  /** write(): drop (replace), create when there are rows (replace, fail), then COPY. */
  function WriteOutcome(db: Db, destTable: string, rows: seq<Row>, columns: seq<string>,
                        mode: string, colTypes: Option<map<string, string>>): (o: Outcome)
  {
    var key := ParseTable(destTable);
    var db1 := Dropped(db, key, mode);
    if CreatesTable(mode) && rows != [] then
      match DefsFor(columns, rows[0], colTypes)
      case Err(e) => Outcome(Err(e), db1)
      case Ok(defs) => CopyOutcome(CreateIfAbsent(db1, key, defs), key, columns, rows)
    else CopyOutcome(db1, key, columns, rows)
  }

  function PolarsDefs(frame: Frame): (defs: seq<ColumnDef>)
    ensures |defs| == |frame.columns|
    ensures forall i :: 0 <= i < |defs| ==>
      defs[i] == ColumnDef(frame.columns[i], TypeMapping.PgTypeFromPolars(frame.dtypes[i]))
  {
    seq(|frame.columns|, i requires 0 <= i < |frame.columns| =>
      ColumnDef(frame.columns[i], TypeMapping.PgTypeFromPolars(frame.dtypes[i])))
  }

  /** write_polars(): drop (replace), always create from dtypes (replace, fail), then COPY. */
  function WritePolarsOutcome(db: Db, destTable: string, frame: Frame, mode: string): (o: Outcome)
  {
    var key := ParseTable(destTable);
    var db1 := Dropped(db, key, mode);
    var db2 := if CreatesTable(mode) then CreateIfAbsent(db1, key, PolarsDefs(frame)) else db1;
    CopyOutcome(db2, key, frame.columns, frame.rows)
  }

  // ---------------------------------------------------------------------------
  // The destination connection and the imperative writers

  class Destination {
    var tables: Db

    constructor (tables: Db)
      ensures this.tables == tables
    {
      this.tables := tables;
    }

    /** DROP TABLE IF EXISTS; commit. */
    method DropIfExists(key: TableKey)
      modifies this
      ensures tables == old(tables) - {key}
    {
      tables := tables - {key};
    }

    /** CREATE TABLE IF NOT EXISTS; commit. An existing table keeps its definition and rows. */
    method CreateIfNotExists(key: TableKey, defs: seq<ColumnDef>)
      modifies this
      ensures tables == CreateIfAbsent(old(tables), key, defs)
    {
      if key !in tables {
        tables := tables[key := Table(defs, [])];
      }
    }

    /** COPY ... FROM STDIN writing each cleaned row in turn; commit only when every row went through. */
    method Copy(key: TableKey, columns: seq<string>, rows: seq<Row>) returns (r: Result<(), WriteError>)
      modifies this
      ensures Outcome(r, tables) == CopyOutcome(old(tables), key, columns, rows)
    {
      if key !in tables {
        return Err(UndefinedTable(key));
      }
      var undefined := FirstUndefined(columns, Names(tables[key].defs));
      if undefined.Some? {
        return Err(UndefinedColumn(columns[undefined.value]));
      }
      var stream: seq<Row> := [];
      var i := 0;
      while i < |rows|
        invariant 0 <= i <= |rows|
        invariant |stream| == i
        invariant forall j :: 0 <= j < i ==> |rows[j]| == |columns| && stream[j] == CleanRow(rows[j])
      {
        if |rows[i]| != |columns| {
          assert FirstArityMismatch(rows, |columns|) == Some(i);
          return Err(RowArity(i));
        }
        stream := stream + [CleanRow(rows[i])];
        i := i + 1;
      }
      assert stream == CleanRows(rows);
      tables := tables[key := tables[key].(rows := tables[key].rows + stream)];
      r := Ok(());
    }
  }

  /** write() against the destination: the statement sequence of orchestrator/write.py. */
  method Write(dest: Destination, destTable: string, rows: seq<Row>, columns: seq<string>,
               mode: string, colTypes: Option<map<string, string>>) returns (r: Result<(), WriteError>)
    modifies dest
    ensures Outcome(r, dest.tables) == WriteOutcome(old(dest.tables), destTable, rows, columns, mode, colTypes)
  {
    var key := ParseTable(destTable);
    if mode == "replace" {
      dest.DropIfExists(key);
    }
    if mode == "replace" || mode == "fail" {
      if rows != [] {
        var defs := DefsFor(columns, rows[0], colTypes);
        if defs.Err? {
          return Err(defs.error);
        }
        dest.CreateIfNotExists(key, defs.value);
      }
    }
    r := dest.Copy(key, columns, rows);
  }

  /** write_polars() against the destination. */
  method WritePolars(dest: Destination, destTable: string, frame: Frame, mode: string)
    returns (r: Result<(), WriteError>)
    modifies dest
    ensures Outcome(r, dest.tables) == WritePolarsOutcome(old(dest.tables), destTable, frame, mode)
  {
    var key := ParseTable(destTable);
    if mode == "replace" {
      dest.DropIfExists(key);
    }
    if mode == "replace" || mode == "fail" {
      dest.CreateIfNotExists(key, PolarsDefs(frame));
    }
    r := dest.Copy(key, frame.columns, frame.rows);
  }

  // ---------------------------------------------------------------------------
  // Properties of write and write_polars

  /** "replace" with no rows: the drop is committed, nothing is created, and the COPY fails. */
  lemma ReplaceWithoutRowsFails(db: Db, destTable: string, columns: seq<string>,
                                colTypes: Option<map<string, string>>)
    ensures var key := ParseTable(destTable);
      WriteOutcome(db, destTable, [], columns, "replace", colTypes) ==
        Outcome(Err(UndefinedTable(key)), db - {key})
  {
  }

  /** "append" (or any mode other than replace and fail) issues no DDL: only rows may change. */
  lemma AppendIssuesNoDdl(db: Db, destTable: string, rows: seq<Row>, columns: seq<string>,
                          mode: string, colTypes: Option<map<string, string>>)
    requires !CreatesTable(mode)
    ensures var o := WriteOutcome(db, destTable, rows, columns, mode, colTypes);
      o.db.Keys == db.Keys && forall k :: k in db ==> o.db[k].defs == db[k].defs
  {
  }

  /** "fail" on an existing table keeps its definition, whatever the new rows look like. */
  lemma FailModeKeepsDefinition(db: Db, destTable: string, rows: seq<Row>, columns: seq<string>,
                                colTypes: Option<map<string, string>>)
    requires ParseTable(destTable) in db
    ensures var key := ParseTable(destTable);
      var o := WriteOutcome(db, destTable, rows, columns, "fail", colTypes);
      key in o.db && o.db[key].defs == db[key].defs
  {
  }

  /** With col_types, every listed column must have a declared type; the first missing one raises after the drop. */
  lemma DeclaredTypesRequired(db: Db, destTable: string, rows: seq<Row>, columns: seq<string>,
                              colTypes: map<string, string>, c: string)
    requires rows != [] && colTypes != map[]
    requires c in columns && c !in colTypes
    ensures var key := ParseTable(destTable);
      var o := WriteOutcome(db, destTable, rows, columns, "replace", Some(colTypes));
      o.result.Err? && o.result.error.MissingColType? && o.db == db - {key}
  {
  }

  /**
   * "replace" with rows that go through: the table holds exactly the new
   * definitions and the new rows, cleaned and in order; other tables are untouched.
   */
  lemma {:induction false} ReplaceHoldsOnlyNewRows(db: Db, destTable: string, rows: seq<Row>, columns: seq<string>)
    requires rows != []
    requires WriteOutcome(db, destTable, rows, columns, "replace", None).result.Ok?
    ensures var key := ParseTable(destTable);
      var o := WriteOutcome(db, destTable, rows, columns, "replace", None);
      key in o.db && o.db[key] == Table(InferredDefs(columns, rows[0]), CleanRows(rows)) &&
      forall k :: k in db && k != key ==> k in o.db && o.db[k] == db[k]
  {
    var key := ParseTable(destTable);
    var db2 := CreateIfAbsent(db - {key}, key, InferredDefs(columns, rows[0]));
    assert db2[key].rows == [];
    CopyAppendsInOrder(db2, key, columns, rows);
    var o := WriteOutcome(db, destTable, rows, columns, "replace", None);
    assert o.db[key].rows == [] + CleanRows(rows);
  }

  /** Two full loads in a row: the table reflects only the second load's schema and rows. */
  lemma {:induction false} FullReplaceTwice(db: Db, destTable: string, a: seq<Row>, colsA: seq<string>,
                                            b: seq<Row>, colsB: seq<string>)
    requires b != []
    requires WriteOutcome(WriteOutcome(db, destTable, a, colsA, "replace", None).db,
                          destTable, b, colsB, "replace", None).result.Ok?
    ensures var key := ParseTable(destTable);
      var o := WriteOutcome(WriteOutcome(db, destTable, a, colsA, "replace", None).db,
                            destTable, b, colsB, "replace", None);
      key in o.db && o.db[key] == Table(InferredDefs(colsB, b[0]), CleanRows(b))
  {
    ReplaceHoldsOnlyNewRows(WriteOutcome(db, destTable, a, colsA, "replace", None).db, destTable, b, colsB);
  }

  /** Two incremental loads into an existing table: its rows grow by |A| + |B|, in load order. */
  lemma {:induction false} AppendTwice(db: Db, destTable: string, a: seq<Row>, b: seq<Row>, columns: seq<string>)
    requires WriteOutcome(db, destTable, a, columns, "append", None).result.Ok?
    requires WriteOutcome(WriteOutcome(db, destTable, a, columns, "append", None).db,
                          destTable, b, columns, "append", None).result.Ok?
    ensures var key := ParseTable(destTable);
      var o := WriteOutcome(WriteOutcome(db, destTable, a, columns, "append", None).db,
                            destTable, b, columns, "append", None);
      key in db && key in o.db &&
      o.db[key].rows == db[key].rows + CleanRows(a) + CleanRows(b) &&
      |o.db[key].rows| == |db[key].rows| + |a| + |b|
  {
    var key := ParseTable(destTable);
    var db1 := WriteOutcome(db, destTable, a, columns, "append", None).db;
    CopyAppendsInOrder(db, key, columns, a);
    CopyAppendsInOrder(db1, key, columns, b);
  }

  /** Definitions inferred from a row no wider than the column list name its leading columns. */
  lemma InferredNamesPrefix(columns: seq<string>, first: Row)
    requires |first| <= |columns|
    ensures Names(InferredDefs(columns, first)) == columns[..|first|]
  {
  }

  /**
   * Without col_types and a first row narrower than the column list, a freshly
   * created table lacks the trailing columns, so the COPY names an undefined
   * column and fails after the CREATE was committed.
   */
  lemma {:induction false} NarrowFirstRowFails(db: Db, destTable: string, rows: seq<Row>, columns: seq<string>)
    requires ParseTable(destTable) !in db
    requires rows != [] && |rows[0]| < |columns|
    requires forall i, j :: 0 <= i < j < |columns| ==> columns[i] != columns[j]
    ensures var key := ParseTable(destTable);
      var o := WriteOutcome(db, destTable, rows, columns, "fail", None);
      o.result == Err(UndefinedColumn(columns[|rows[0]|])) &&
      o.db == db[key := Table(InferredDefs(columns, rows[0]), [])]
  {
    var key := ParseTable(destTable);
    var defs := InferredDefs(columns, rows[0]);
    var n := |rows[0]|;
    InferredNamesPrefix(columns, rows[0]);
    assert forall j :: 0 <= j < n ==> columns[j] in columns[..n] by {
      forall j | 0 <= j < n ensures columns[j] in columns[..n] {
        assert columns[..n][j] == columns[j];
      }
    }
    assert columns[n] !in columns[..n] by {
      forall j | 0 <= j < n ensures columns[..n][j] != columns[n] {
        assert columns[..n][j] == columns[j];
      }
    }
    FirstUndefinedAt(columns, columns[..n], n);
    var db2 := db[key := Table(defs, [])];
    InferringWriteCopiesIntoCreated(db, destTable, rows, columns);
    assert CopyOutcome(db2, key, columns, rows) == Outcome(Err(UndefinedColumn(columns[n])), db2);
  }

  /** Without col_types, a "fail" write with rows is a COPY into the table CREATE IF NOT EXISTS leaves. */
  lemma InferringWriteCopiesIntoCreated(db: Db, destTable: string, rows: seq<Row>, columns: seq<string>)
    requires rows != []
    ensures var key := ParseTable(destTable);
      WriteOutcome(db, destTable, rows, columns, "fail", None) ==
        CopyOutcome(CreateIfAbsent(db, key, InferredDefs(columns, rows[0])), key, columns, rows)
  {
  }

  lemma {:induction false} FirstUndefinedAt(columns: seq<string>, names: seq<string>, n: nat)
    requires n < |columns| && columns[n] !in names
    requires forall j :: 0 <= j < n ==> columns[j] in names
    ensures FirstUndefined(columns, names) == Some(n)
  {
    if n > 0 {
      FirstUndefinedAt(columns[1..], names, n - 1);
    }
  }

  /** orchestrator write_polars with an empty frame in "replace": an empty table typed from the dtypes. */
  lemma PolarsEmptyFrameCreates(db: Db, destTable: string, frame: Frame)
    requires frame.rows == []
    ensures var key := ParseTable(destTable);
      var o := WritePolarsOutcome(db, destTable, frame, "replace");
      o.result.Ok? && key in o.db && o.db[key] == Table(PolarsDefs(frame), [])
  {
    var key := ParseTable(destTable);
    var db2 := (db - {key})[key := Table(PolarsDefs(frame), [])];
    PolarsDefsNames(frame);
    CopyIntoDefinedTable(db2, key, frame.columns, []);
    assert CleanRows([]) == [];
  }

  lemma PolarsDefsNames(frame: Frame)
    ensures Names(PolarsDefs(frame)) == frame.columns
  {
  }
}
