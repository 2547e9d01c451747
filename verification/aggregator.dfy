/**
 * The gene-vector aggregator (mapValuesToEntrezId): folds the stream of row
 * batches into a table from gene id to that gene's values, widened from
 * float32 to float64 and kept in arrival order.
 */
module Aggregator {
  import opened Types

  /** Gene id to the gene's values in arrival order. */
  type GeneTable = map<Int64, seq<Float64>>

  /** The conversion float64(v); kept abstract, supplied by the caller. */
  type Widen = Float32 -> Float64

  /** A Go map lookup: a missing key reads as the empty (nil) slice. */
  function Vector(t: GeneTable, g: Int64): seq<Float64> {
    if g in t then t[g] else []
  }

  /** One row appended to its own gene's vector. */
  function Append(t: GeneTable, ga: GeneticAlteration, widen: Widen): (t': GeneTable)
    ensures t'.Keys == t.Keys + {ga.entrezGeneId}
    ensures |t'[ga.entrezGeneId]| == |Vector(t, ga.entrezGeneId)| + 1
    ensures t'[ga.entrezGeneId][..|Vector(t, ga.entrezGeneId)|] == Vector(t, ga.entrezGeneId)
    ensures t'[ga.entrezGeneId][|Vector(t, ga.entrezGeneId)|] == widen(ga.value)
    ensures forall g :: g in t && g != ga.entrezGeneId ==> t'[g] == t[g]
  {
    t[ga.entrezGeneId := Vector(t, ga.entrezGeneId) + [widen(ga.value)]]
  }

  /** The inner loop: the rows of one batch, in order. */
  function AddRows(t: GeneTable, rows: seq<GeneticAlteration>, widen: Widen): GeneTable
    decreases |rows|
  {
    if |rows| == 0 then t else AddRows(Append(t, rows[0], widen), rows[1..], widen)
  }

  /** The outer loop: the batches, in arrival order; the same as folding all their rows at once. */
  function AddBatches(t: GeneTable, batches: seq<seq<GeneticAlteration>>, widen: Widen): (r: GeneTable)
    ensures r == AddRows(t, Flatten(batches), widen)
    decreases |batches|
  {
    if |batches| == 0 then t
    else
      AddRowsConcat(t, batches[0], Flatten(batches[1..]), widen);
      AddBatches(AddRows(t, batches[0], widen), batches[1..], widen)
  }

  /**
   * The table once the input is exhausted, starting from the empty map: its
   * keys are exactly the gene ids seen in any batch, and each gene's vector is
   * its rows' widened values in arrival order across batches.
   */
  function BuildTable(batches: seq<seq<GeneticAlteration>>, widen: Widen): (t: GeneTable)
    ensures t.Keys == GenesOf(Flatten(batches))
    ensures forall g :: g in t ==> t[g] == ValuesOf(Flatten(batches), g, widen)
  {
    GroupsFromEmpty(Flatten(batches), widen);
    AddRowsKeys(map[], Flatten(batches), widen);
    AddBatches(map[], batches, widen)
  }

  /** Folding rows into the empty table groups them by gene. */
  lemma GroupsFromEmpty(rows: seq<GeneticAlteration>, widen: Widen)
    ensures forall g :: g in AddRows(map[], rows, widen) ==> AddRows(map[], rows, widen)[g] == ValuesOf(rows, g, widen)
  {
    forall g | g in AddRows(map[], rows, widen) ensures AddRows(map[], rows, widen)[g] == ValuesOf(rows, g, widen) {
      AddRowsVector(map[], rows, g, widen);
    }
  }

  // ---------------------------------------------------------------------------
  // The reference reading: per gene, the widened values of its rows in order.

  function Flatten(batches: seq<seq<GeneticAlteration>>): seq<GeneticAlteration> {
    if |batches| == 0 then [] else batches[0] + Flatten(batches[1..])
  }

  function GenesOf(rows: seq<GeneticAlteration>): set<Int64> {
    set k | 0 <= k < |rows| :: rows[k].entrezGeneId
  }

  /** The widened values of the rows of gene g, in row order. */
  function ValuesOf(rows: seq<GeneticAlteration>, g: Int64, widen: Widen): seq<Float64> {
    if |rows| == 0 then []
    else (if rows[0].entrezGeneId == g then [widen(rows[0].value)] else []) + ValuesOf(rows[1..], g, widen)
  }

  /** The number of rows of gene g. */
  function CountOf(rows: seq<GeneticAlteration>, g: Int64): nat {
    if |rows| == 0 then 0
    else (if rows[0].entrezGeneId == g then 1 else 0) + CountOf(rows[1..], g)
  }

  lemma {:induction false} ValuesOfLength(rows: seq<GeneticAlteration>, g: Int64, widen: Widen)
    ensures |ValuesOf(rows, g, widen)| == CountOf(rows, g)
    ensures CountOf(rows, g) > 0 <==> g in GenesOf(rows)
    decreases |rows|
  {
    if |rows| > 0 {
      ValuesOfLength(rows[1..], g, widen);
      GenesOfCons(rows);
    }
  }

  lemma GenesOfCons(rows: seq<GeneticAlteration>)
    requires |rows| > 0
    ensures GenesOf(rows) == {rows[0].entrezGeneId} + GenesOf(rows[1..])
  {
    forall g | g in GenesOf(rows) ensures g in {rows[0].entrezGeneId} + GenesOf(rows[1..]) {
      var k :| 0 <= k < |rows| && rows[k].entrezGeneId == g;
      if k > 0 {
        assert rows[1..][k - 1] == rows[k];
      }
    }
    forall g | g in GenesOf(rows[1..]) ensures g in GenesOf(rows) {
      var k :| 0 <= k < |rows[1..]| && rows[1..][k].entrezGeneId == g;
      assert rows[k + 1] == rows[1..][k];
    }
  }

  /** Folding rows into a table adds exactly the genes of those rows as keys. */
  lemma {:induction false} AddRowsKeys(t: GeneTable, rows: seq<GeneticAlteration>, widen: Widen)
    ensures AddRows(t, rows, widen).Keys == t.Keys + GenesOf(rows)
    decreases |rows|
  {
    if |rows| == 0 {
      assert GenesOf(rows) == {};
    } else {
      AddRowsKeys(Append(t, rows[0], widen), rows[1..], widen);
      GenesOfCons(rows);
    }
  }

  /** Folding rows into a table extends gene g's vector by exactly g's values, in order. */
  lemma {:induction false} AddRowsVector(t: GeneTable, rows: seq<GeneticAlteration>, g: Int64, widen: Widen)
    ensures Vector(AddRows(t, rows, widen), g) == Vector(t, g) + ValuesOf(rows, g, widen)
    decreases |rows|
  {
    if |rows| > 0 {
      var t1 := Append(t, rows[0], widen);
      AddRowsVector(t1, rows[1..], g, widen);
      if g == rows[0].entrezGeneId {
        assert Vector(t1, g) == Vector(t, g) + [widen(rows[0].value)];
      } else {
        assert Vector(t1, g) == Vector(t, g);
      }
    }
  }

  lemma {:induction false} AddRowsConcat(t: GeneTable, a: seq<GeneticAlteration>, b: seq<GeneticAlteration>, widen: Widen)
    ensures AddRows(t, a + b, widen) == AddRows(AddRows(t, a, widen), b, widen)
    decreases |a|
  {
    if |a| == 0 {
      assert a + b == b;
    } else {
      assert (a + b)[1..] == a[1..] + b;
      AddRowsConcat(Append(t, a[0], widen), a[1..], b, widen);
    }
  }

  /** Every vector in the table is non-empty, so the source's nil check only fires for new genes. */
  lemma VectorsNonEmpty(batches: seq<seq<GeneticAlteration>>, widen: Widen)
    ensures forall g :: g in BuildTable(batches, widen) ==> |BuildTable(batches, widen)[g]| >= 1
  {
    forall g | g in BuildTable(batches, widen) ensures |BuildTable(batches, widen)[g]| >= 1 {
      ValuesOfLength(Flatten(batches), g, widen);
    }
  }

  // ---------------------------------------------------------------------------
  // Total vector length.

  /** The sum of the lengths of all vectors of a table. */
  ghost function TotalLength(t: GeneTable): nat {
    SumOver(t, t.Keys)
  }

  /** The sum of the lengths of the vectors of the given genes. */
  ghost function SumOver(t: GeneTable, genes: set<Int64>): nat
    requires genes <= t.Keys
    decreases genes
  {
    if genes == {} then 0
    else
      var g :| g in genes;
      |t[g]| + SumOver(t, genes - {g})
  }

  lemma {:induction false} SumOverRemove(t: GeneTable, genes: set<Int64>, g: Int64)
    requires genes <= t.Keys && g in genes
    ensures SumOver(t, genes) == |t[g]| + SumOver(t, genes - {g})
    decreases genes
  {
    var h :| h in genes && SumOver(t, genes) == |t[h]| + SumOver(t, genes - {h});
    if h != g {
      SumOverRemove(t, genes - {h}, g);
      SumOverRemove(t, genes - {g}, h);
      assert genes - {h} - {g} == genes - {g} - {h};
    }
  }

  /** Two tables that agree on the given genes have the same sum over them. */
  lemma {:induction false} SumOverAgree(t: GeneTable, u: GeneTable, genes: set<Int64>)
    requires genes <= t.Keys && genes <= u.Keys
    requires forall g :: g in genes ==> t[g] == u[g]
    ensures SumOver(t, genes) == SumOver(u, genes)
    decreases genes
  {
    if genes != {} {
      var g :| g in genes && SumOver(t, genes) == |t[g]| + SumOver(t, genes - {g});
      SumOverRemove(u, genes, g);
      SumOverAgree(t, u, genes - {g});
    }
  }

  /** Appending one row adds exactly one value to the table. */
  lemma AppendTotalLength(t: GeneTable, ga: GeneticAlteration, widen: Widen)
    ensures TotalLength(Append(t, ga, widen)) == TotalLength(t) + 1
  {
    var t' := Append(t, ga, widen);
    var g := ga.entrezGeneId;
    SumOverRemove(t', t'.Keys, g);
    var rest := t.Keys - {g};
    assert t'.Keys - {g} == rest;
    SumOverAgree(t, t', rest);
    if g in t {
      SumOverRemove(t, t.Keys, g);
    } else {
      assert t.Keys == rest;
    }
  }

  lemma {:induction false} AddRowsTotalLength(t: GeneTable, rows: seq<GeneticAlteration>, widen: Widen)
    ensures TotalLength(AddRows(t, rows, widen)) == TotalLength(t) + |rows|
    decreases |rows|
  {
    if |rows| > 0 {
      AppendTotalLength(t, rows[0], widen);
      AddRowsTotalLength(Append(t, rows[0], widen), rows[1..], widen);
    }
  }

  lemma {:induction false} FlattenLength(batches: seq<seq<GeneticAlteration>>)
    ensures |Flatten(batches)| == SumLengths(batches)
    decreases |batches|
  {
    if |batches| > 0 {
      FlattenLength(batches[1..]);
    }
  }

  function SumLengths(batches: seq<seq<GeneticAlteration>>): nat {
    if |batches| == 0 then 0 else |batches[0]| + SumLengths(batches[1..])
  }

  /** The vectors of the finished table hold as many values as all batches hold rows. */
  lemma TableTotalLength(batches: seq<seq<GeneticAlteration>>, widen: Widen)
    ensures TotalLength(BuildTable(batches, widen)) == SumLengths(batches)
  {
    AddRowsTotalLength(map[], Flatten(batches), widen);
    FlattenLength(batches);
    var empty: GeneTable := map[];
    assert TotalLength(empty) == 0;
  }
}
