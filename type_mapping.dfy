/**
 * The Polars dtype to PostgreSQL column type table of config/type_mapping.py.
 * The lookup is keyed on the dtype's class, so a parameterised dtype such as
 * a Datetime with a time zone or a List of Int8 is keyed by its constructor.
 */
module TypeMapping {
  /** Polars dtype classes: the thirteen the table names, and the others. */
  datatype Dtype =
    | String | Int8 | Int16 | Int32 | Int64 | Float32 | Float64
    | Boolean | Date | Datetime | Time | Decimal | Binary
    | UInt8 | UInt16 | UInt32 | UInt64 | Duration | Categorical
    | List | Struct | Null | Object
    | OtherDtype(name: string)

  /** POLARS_TO_PG */
  const PolarsToPg: map<Dtype, string> := map[
    String := "TEXT",
    Int8 := "SMALLINT",
    Int16 := "SMALLINT",
    Int32 := "INTEGER",
    Int64 := "BIGINT",
    Float32 := "REAL",
    Float64 := "DOUBLE PRECISION",
    Boolean := "BOOLEAN",
    Date := "DATE",
    Datetime := "TIMESTAMPTZ",
    Time := "TIME",
    Decimal := "NUMERIC",
    Binary := "BYTEA"
  ]

  /** The twelve distinct labels the table can produce. */
  const PgLabels: set<string> := {
    "TEXT", "SMALLINT", "INTEGER", "BIGINT", "REAL", "DOUBLE PRECISION",
    "BOOLEAN", "DATE", "TIMESTAMPTZ", "TIME", "NUMERIC", "BYTEA"
  }

  /** pg_type_from_polars: total, falls back to TEXT, never leaves the label set. */
  function PgTypeFromPolars(d: Dtype): (t: string)
    ensures t in PgLabels
  {
    if d in PolarsToPg then PolarsToPg[d] else "TEXT"
  }

  lemma IntegerWidths()
    ensures PgTypeFromPolars(Int8) == PgTypeFromPolars(Int16) == "SMALLINT"
    ensures PgTypeFromPolars(Int32) == "INTEGER"
    ensures PgTypeFromPolars(Int64) == "BIGINT"
  {
  }

  lemma FloatWidths()
    ensures PgTypeFromPolars(Float32) == "REAL"
    ensures PgTypeFromPolars(Float64) == "DOUBLE PRECISION"
  {
  }

  lemma OtherScalars()
    ensures PgTypeFromPolars(String) == "TEXT"
    ensures PgTypeFromPolars(Boolean) == "BOOLEAN"
    ensures PgTypeFromPolars(Date) == "DATE"
    ensures PgTypeFromPolars(Datetime) == "TIMESTAMPTZ"
    ensures PgTypeFromPolars(Time) == "TIME"
    ensures PgTypeFromPolars(Decimal) == "NUMERIC"
    ensures PgTypeFromPolars(Binary) == "BYTEA"
  {
  }

  /** A dtype outside the table gets TEXT; the table is exactly these thirteen classes. */
  lemma UnmappedIsText(d: Dtype)
    requires d !in {String, Int8, Int16, Int32, Int64, Float32, Float64,
                    Boolean, Date, Datetime, Time, Decimal, Binary}
    ensures PgTypeFromPolars(d) == "TEXT"
  {
  }

  /** Every one of the twelve labels is produced by some dtype. */
  lemma EveryLabelProduced(t: string)
    requires t in PgLabels
    ensures exists d :: d in PolarsToPg && PgTypeFromPolars(d) == t
  {
    if t == "TEXT" { assert PgTypeFromPolars(String) == t; }
    else if t == "SMALLINT" { assert PgTypeFromPolars(Int8) == t; }
    else if t == "INTEGER" { assert PgTypeFromPolars(Int32) == t; }
    else if t == "BIGINT" { assert PgTypeFromPolars(Int64) == t; }
    else if t == "REAL" { assert PgTypeFromPolars(Float32) == t; }
    else if t == "DOUBLE PRECISION" { assert PgTypeFromPolars(Float64) == t; }
    else if t == "BOOLEAN" { assert PgTypeFromPolars(Boolean) == t; }
    else if t == "DATE" { assert PgTypeFromPolars(Date) == t; }
    else if t == "TIMESTAMPTZ" { assert PgTypeFromPolars(Datetime) == t; }
    else if t == "TIME" { assert PgTypeFromPolars(Time) == t; }
    else if t == "NUMERIC" { assert PgTypeFromPolars(Decimal) == t; }
    else { assert PgTypeFromPolars(Binary) == t; }
  }
}
