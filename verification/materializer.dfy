/**
 * The row materialiser (transformRecToGeneticAlteration): turns each columnar
 * batch into its rows, resolving every field by column name. Columns are
 * visited in position order and each matching column overwrites the field,
 * so when two columns share a name the later one wins; a column that has a
 * matching name but the wrong type is a failed type assertion, here an error.
 */
module Materializer {
  import opened Types
  import opened Results
  import opened Columnar

  const GeneColumn: string := "Entrez_Gene_Identifier"
  const SampleColumn: string := "Sample_Identifier"
  const ValueColumn: string := "Value"

  /** The failed type assertion: at this row, this column has a matched name but another type. */
  datatype SchemaError = WrongColumnType(row: nat, column: nat, name: string)

  /** A column that, if its name is one the materialiser reads, has the type it expects. */
  predicate Typed(f: Field) {
    && (f.name == GeneColumn ==> f.column.Int64Column?)
    && (f.name == SampleColumn ==> f.column.StringColumn?)
    && (f.name == ValueColumn ==> f.column.Float32Column?)
  }

  predicate AllTyped(fields: seq<Field>) {
    forall j :: 0 <= j < |fields| ==> Typed(fields[j])
  }

  /** One step of the column loop: store column j's value of row i into the record. */
  function AssignColumn(b: Batch, i: nat, j: nat, alt: GeneticAlteration): (r: Result<GeneticAlteration, SchemaError>)
    requires i < b.numRows && j < |b.fields|
    ensures r.Err? <==> !Typed(b.fields[j])
    ensures r.Err? ==> r.error == WrongColumnType(i, j, b.fields[j].name)
  {
    var f := b.fields[j];
    assert f.column.Length() == b.numRows;
    if f.name == GeneColumn then
      if f.column.Int64Column? then Ok(alt.(entrezGeneId := f.column.ints[i]))
      else Err(WrongColumnType(i, j, f.name))
    else if f.name == SampleColumn then
      if f.column.StringColumn? then Ok(alt.(sampleId := f.column.strings[i]))
      else Err(WrongColumnType(i, j, f.name))
    else if f.name == ValueColumn then
      if f.column.Float32Column? then Ok(alt.(value := f.column.floats[i]))
      else Err(WrongColumnType(i, j, f.name))
    else Ok(alt)
  }

  /** The column loop from column j on, starting from the partly filled record alt. */
  function ResolveFrom(b: Batch, i: nat, j: nat, alt: GeneticAlteration): (r: Result<GeneticAlteration, SchemaError>)
    requires i < b.numRows && j <= |b.fields|
    ensures r.Err? <==> !AllTyped(b.fields[j..])
    ensures r.Err? ==> r.error.row == i && j <= r.error.column < |b.fields| && !Typed(b.fields[r.error.column])
    decreases |b.fields| - j
  {
    if j == |b.fields| then Ok(alt)
    else
      assert b.fields[j..][0] == b.fields[j] && b.fields[j..][1..] == b.fields[j + 1..];
      var next :- AssignColumn(b, i, j, alt);
      ResolveFrom(b, i, j + 1, next)
  }

  /** Row i of a batch, built from the zero record by the column loop. */
  function MaterializeRow(b: Batch, i: nat): (r: Result<GeneticAlteration, SchemaError>)
    requires i < b.numRows
    ensures r.Err? <==> !AllTyped(b.fields)
    ensures r.Err? ==> r.error.row == i && r.error.column < |b.fields| && !Typed(b.fields[r.error.column])
  {
    assert b.fields[0..] == b.fields;
    ResolveFrom(b, i, 0, ZeroAlteration)
  }

  /** Rows i.. of a batch, in row-index order; the first failing row stops the loop. */
  function MaterializeFrom(b: Batch, i: nat): (r: Result<seq<GeneticAlteration>, SchemaError>)
    requires i <= b.numRows
    ensures r.Ok? ==> |r.value| == b.numRows - i
    ensures r.Ok? ==> forall k :: 0 <= k < |r.value| ==> MaterializeRow(b, i + k) == Ok(r.value[k])
    ensures r.Err? <==> exists k :: i <= k < b.numRows && MaterializeRow(b, k).Err?
    decreases b.numRows - i
  {
    if i == b.numRows then Ok([])
    else
      match MaterializeRow(b, i)
      case Err(e) => Err(e)
      case Ok(alt) =>
        match MaterializeFrom(b, i + 1)
        case Err(e) => Err(e)
        case Ok(rest) => Ok([alt] + rest)
  }

  /** All rows of one batch. */
  function Materialize(b: Batch): (r: Result<seq<GeneticAlteration>, SchemaError>)
    ensures r.Ok? ==> |r.value| == b.numRows
    ensures r.Err? <==> b.numRows > 0 && !AllTyped(b.fields)
  {
    assert b.numRows > 0 ==> MaterializeRow(b, 0).Err? == !AllTyped(b.fields);
    MaterializeFrom(b, 0)
  }

  /** Every batch of the stream, in arrival order; the first failing batch stops the stream. */
  function MaterializeAll(batches: seq<Batch>): (r: Result<seq<seq<GeneticAlteration>>, SchemaError>)
    ensures r.Ok? ==> |r.value| == |batches|
    ensures r.Ok? ==> forall k :: 0 <= k < |batches| ==> Materialize(batches[k]) == Ok(r.value[k])
    ensures r.Err? <==> exists k :: 0 <= k < |batches| && Materialize(batches[k]).Err?
  {
    if |batches| == 0 then Ok([])
    else
      var rows :- Materialize(batches[0]);
      var rest :- MaterializeAll(batches[1..]);
      assert forall k :: 1 <= k < |batches| ==> batches[k] == batches[1..][k - 1];
      Ok([rows] + rest)
  }

  // ---------------------------------------------------------------------------
  // The by-name reading of a row, stated independently of the column loop.

  /** The position of the last column with this name, if any. */
  function LastNamed(fields: seq<Field>, name: string): (r: Option<nat>)
    ensures r.None? <==> forall j :: 0 <= j < |fields| ==> fields[j].name != name
    ensures r.Some? ==> r.value < |fields| && fields[r.value].name == name
    ensures r.Some? ==> forall j :: r.value < j < |fields| ==> fields[j].name != name
  {
    if |fields| == 0 then None
    else if fields[|fields| - 1].name == name then Some(|fields| - 1)
    else LastNamed(fields[..|fields| - 1], name)
  }

  /** The position of the first column with a matched name and the wrong type, if any. */
  function FirstMistyped(fields: seq<Field>): (r: Option<nat>)
    ensures r.None? <==> AllTyped(fields)
    ensures r.Some? ==> r.value < |fields| && !Typed(fields[r.value])
    ensures r.Some? ==> AllTyped(fields[..r.value])
  {
    if |fields| == 0 then None
    else if !Typed(fields[0]) then Some(0)
    else match FirstMistyped(fields[1..])
      case None => None
      case Some(k) =>
        assert forall j :: 0 <= j < k + 1 ==> fields[j] == if j == 0 then fields[0] else fields[1..][j - 1];
        Some(k + 1)
  }

  /**
   * Row i read by name from the given columns: each field comes from the last
   * column carrying its name, and keeps its zero value when no column does.
   */
  function RowByName(fields: seq<Field>, i: nat): GeneticAlteration
    requires AllTyped(fields)
    requires forall j :: 0 <= j < |fields| ==> i < fields[j].column.Length()
  {
    GeneticAlteration(
      match LastNamed(fields, GeneColumn)
      case None => 0
      case Some(j) => assert i < fields[j].column.Length(); fields[j].column.ints[i],
      match LastNamed(fields, SampleColumn)
      case None => ""
      case Some(j) => assert i < fields[j].column.Length(); fields[j].column.strings[i],
      match LastNamed(fields, ValueColumn)
      case None => 0
      case Some(j) => assert i < fields[j].column.Length(); fields[j].column.floats[i])
  }

  /** Assigning column j to the by-name reading of the columns before it reads the columns up to j by name. */
  lemma AssignExtends(b: Batch, i: nat, j: nat)
    requires i < b.numRows && j < |b.fields|
    requires AllTyped(b.fields[..j + 1])
    ensures AllTyped(b.fields[..j])
    ensures AssignColumn(b, i, j, RowByName(b.fields[..j], i)) == Ok(RowByName(b.fields[..j + 1], i))
  {
    var pre := b.fields[..j];
    var cur := b.fields[..j + 1];
    assert cur[..j] == pre;
    assert cur[j] == b.fields[j];
    assert LastNamed(cur, GeneColumn) == if b.fields[j].name == GeneColumn then Some(j) else LastNamed(pre, GeneColumn);
    assert LastNamed(cur, SampleColumn) == if b.fields[j].name == SampleColumn then Some(j) else LastNamed(pre, SampleColumn);
    assert LastNamed(cur, ValueColumn) == if b.fields[j].name == ValueColumn then Some(j) else LastNamed(pre, ValueColumn);
  }

  /** Running the column loop over the first j columns gives the by-name reading of those columns. */
  lemma {:induction false} ResolvePrefix(b: Batch, i: nat, j: nat)
    requires i < b.numRows && j <= |b.fields|
    requires AllTyped(b.fields[..j])
    ensures MaterializeRow(b, i) == ResolveFrom(b, i, j, RowByName(b.fields[..j], i))
    decreases j
  {
    if j == 0 {
      assert b.fields[..0] == [];
    } else {
      AssignExtends(b, i, j - 1);
      ResolvePrefix(b, i, j - 1);
    }
  }

  /**
   * The materialiser's contract per row: with every matched column of the right
   * type, row i is the by-name reading; otherwise the first wrong-typed column fails.
   */
  lemma RowIsByName(b: Batch, i: nat)
    requires i < b.numRows
    ensures AllTyped(b.fields) ==> MaterializeRow(b, i) == Ok(RowByName(b.fields, i))
    ensures !AllTyped(b.fields) ==>
      MaterializeRow(b, i) == Err(WrongColumnType(i, FirstMistyped(b.fields).value, b.fields[FirstMistyped(b.fields).value].name))
  {
    match FirstMistyped(b.fields)
    case None =>
      assert b.fields[..|b.fields|] == b.fields;
      ResolvePrefix(b, i, |b.fields|);
    case Some(j) =>
      ResolvePrefix(b, i, j);
  }

  /**
   * A batch materialises to exactly numRows records in row order, each read by
   * column name; it fails only if it has a row and a wrong-typed matched column,
   * and then at row 0 and the first such column.
   */
  lemma MaterializeByName(b: Batch)
    ensures b.numRows == 0 || AllTyped(b.fields) ==>
      && Materialize(b).Ok?
      && |Materialize(b).value| == b.numRows
      && forall i :: 0 <= i < b.numRows ==> Materialize(b).value[i] == RowByName(b.fields, i)
    ensures b.numRows > 0 && !AllTyped(b.fields) ==>
      Materialize(b) == Err(WrongColumnType(0, FirstMistyped(b.fields).value, b.fields[FirstMistyped(b.fields).value].name))
  {
    if b.numRows > 0 && !AllTyped(b.fields) {
      RowIsByName(b, 0);
    } else if b.numRows > 0 {
      forall i | 0 <= i < b.numRows
        ensures MaterializeRow(b, i) == Ok(RowByName(b.fields, i))
      {
        RowIsByName(b, i);
      }
    }
  }
}
