/**
 * The columnar batch the data source streams (an Arrow record): a row count
 * and named, typed columns. Only the column types the materialiser reads are
 * distinguished; every other Arrow type is `OtherColumn`.
 */
module Columnar {
  import opened Types

  datatype Column =
    | Int64Column(ints: seq<Int64>)
    | StringColumn(strings: seq<string>)
    | Float32Column(floats: seq<Float32>)
    | OtherColumn(typeName: string, length: nat)
  {
    function Length(): nat {
      match this
      case Int64Column(v) => |v|
      case StringColumn(v) => |v|
      case Float32Column(v) => |v|
      case OtherColumn(_, n) => n
    }
  }

  datatype Field = Field(name: string, column: Column)

  datatype RawBatch = RawBatch(numRows: nat, fields: seq<Field>) {
    /** Arrow's record invariant: every column holds exactly numRows values. */
    predicate WellFormed() {
      forall j :: 0 <= j < |fields| ==> fields[j].column.Length() == numRows
    }
  }

  /** A batch as the source delivers it. */
  type Batch = b: RawBatch | b.WellFormed() witness RawBatch(0, [])
}
