/**
 * Python runtime values as the writers meet them in a row, and the columnar
 * frame an extraction may return. Floats are only classified, never computed.
 */
module Values {
  import TypeMapping

  /** A Python float: finite, not-a-number, or one of the two infinities. */
  datatype FloatValue = Finite(x: real) | NaN | PosInf | NegInf

  /** A field of a row tuple, keyed on its exact Python type. */
  datatype Value =
    | Null                        // None
    | Int(i: int)                 // int
    | Bool(b: bool)               // bool (a subclass of int, told apart by exact type)
    | Float(f: FloatValue)        // float
    | Datetime(micros: int)       // datetime
    | Str(s: string)              // str
    | Other(typeName: string)     // any other type: date, Decimal, bytes, ...

  type Row = seq<Value>

  /** A Polars frame: named columns, one dtype per column, rows as wide as the column list. */
  datatype FrameData = FrameData(columns: seq<string>, dtypes: seq<TypeMapping.Dtype>, rows: seq<Row>)

  predicate Rectangular(f: FrameData)
  {
    |f.dtypes| == |f.columns| && forall r :: r in f.rows ==> |r| == |f.columns|
  }

  type Frame = f: FrameData | Rectangular(f) witness FrameData([], [], [])
}
