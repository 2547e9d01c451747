/**
 * fetchCoExpressions with its stages composed in order: fetch the batches for
 * the query, materialise them into rows, aggregate the rows into the gene
 * table, fan out over the table, and frame the results. The stages run
 * concurrently in the source, but the aggregation barrier means the fan-out
 * only ever sees the finished table, which is what sequencing them states.
 * FetchCoExpressions frames the results with the source's write loop;
 * FetchCoExpressionsCorrected is the same request with the stray comma removed.
 */
module Pipeline {
  import opened Types
  import opened Results
  import opened Decimal
  import opened Columnar
  import opened Materializer
  import opened Aggregator
  import opened SpearmanFanOut
  import opened Framing
  import opened Query

  /** Why a request produced no response body. */
  datatype PipelineError =
    | SourceError(message: string)
    | Schema(cause: SchemaError)

  /** The data source: the batches it streams for a query, or its error. */
  type Fetch = string -> Result<seq<Batch>, string>

  /**
   * Fetch then materialise: the rows of every batch, batch by batch. The source
   * is asked for the query of the first profile; its error, or the first
   * schema error of any batch, is the request's error.
   */
  function Rows(req: ServiceRequest, fetch: Fetch): (r: Result<seq<seq<GeneticAlteration>>, PipelineError>)
    ensures fetch(BuildQuery(req.molecularProfileA)).Err? ==>
      r == Err(SourceError(fetch(BuildQuery(req.molecularProfileA)).error))
    ensures r.Ok? <==>
      fetch(BuildQuery(req.molecularProfileA)).Ok? && MaterializeAll(fetch(BuildQuery(req.molecularProfileA)).value).Ok?
    ensures fetch(BuildQuery(req.molecularProfileA)).Ok? && r.Err? ==>
      r.error == Schema(MaterializeAll(fetch(BuildQuery(req.molecularProfileA)).value).error)
    ensures r.Ok? ==> |r.value| == |fetch(BuildQuery(req.molecularProfileA)).value|
    ensures r.Ok? ==> forall k :: 0 <= k < |r.value| ==>
      Materialize(fetch(BuildQuery(req.molecularProfileA)).value[k]) == Ok(r.value[k])
  {
    match fetch(BuildQuery(req.molecularProfileA))
    case Err(message) => Err(SourceError(message))
    case Ok(batches) =>
      match MaterializeAll(batches)
      case Err(e) => Err(Schema(e))
      case Ok(rows) => Ok(rows)
  }

  /** The order the finished table is visited in enumerates its keys (when there is a table). */
  predicate VisitsTable(req: ServiceRequest, fetch: Fetch, widen: Widen, order: seq<Int64>) {
    Rows(req, fetch).Ok? ==> Enumerates(order, BuildTable(Rows(req, fetch).value, widen).Keys)
  }

  /**
   * What the response must hold, read from the rows alone: for every gene seen
   * other than the query gene, its id and Spearman of its values against the
   * query gene's values (empty when the query gene was not seen).
   */
  function ExpectedResults(rows: seq<GeneticAlteration>, q: Int64, widen: Widen, spearman: Spearman): set<CoExpression> {
    set g | g in GenesOf(rows) && g != q ::
      var (rho, p) := spearman(ValuesOf(rows, g, widen), ValuesOf(rows, q, widen));
      CoExpression(FormatInt(g), rho, p)
  }

  /** A rendered gene id needs no escaping in JSON. */
  lemma FormatIntPlain(x: Int64)
    ensures PlainText(FormatInt(x))
  {
    var s := FormatInt(x);
    forall j | 0 <= j < |s| ensures ' ' <= s[j] <= '~' && s[j] !in {'"', '\\', '<', '>', '&'} {
      if x >= 0 {
        assert IsDigit(s[j]);
      } else if j > 0 {
        assert IsDigit(s[1..][j - 1]);
      }
    }
  }

  lemma {:induction false} ResultIdsPlain(t: GeneTable, q: Int64, order: seq<Int64>, spearman: Spearman)
    requires forall i :: 0 <= i < |order| ==> order[i] in t
    ensures AllPlain(FanOut(t, q, order, spearman))
    decreases |order|
  {
    if |order| > 0 {
      ResultIdsPlain(t, q, order[1..], spearman);
      FormatIntPlain(order[0]);
    }
  }

  /** The table-level expectation is the row-level one. */
  lemma ExpectedFromTable(batches: seq<seq<GeneticAlteration>>, q: Int64, widen: Widen, spearman: Spearman)
    ensures Expected(BuildTable(batches, widen), q, spearman) == ExpectedResults(Flatten(batches), q, widen, spearman)
  {
    var t := BuildTable(batches, widen);
    var rows := Flatten(batches);
    assert Vector(t, q) == ValuesOf(rows, q, widen) by {
      if q !in t {
        ValuesOfLength(rows, q, widen);
      }
    }
  }

  /**
   * The response as the source writes it: the results framed by its write
   * loop, or the error that stopped the request before any output.
   */
  function FetchCoExpressions(req: ServiceRequest, fetch: Fetch, order: seq<Int64>, widen: Widen, spearman: Spearman, fmt: FormatNumber)
    : (r: Result<string, PipelineError>)
    requires VisitsTable(req, fetch, widen, order)
    ensures r.Err? <==> Rows(req, fetch).Err?
    ensures r.Err? ==> r.error == Rows(req, fetch).error
  {
    match Rows(req, fetch)
    case Err(e) => Err(e)
    case Ok(rows) =>
      var table := BuildTable(rows, widen);
      var results := FanOut(table, req.entrezGeneId, order, spearman);
      ResultIdsPlain(table, req.entrezGeneId, order, spearman);
      Ok(FrameAsWritten(results, fmt))
  }

  /** The same request with the corrected framing: a comma only between objects that were written. */
  function FetchCoExpressionsCorrected(req: ServiceRequest, fetch: Fetch, order: seq<Int64>, widen: Widen, spearman: Spearman, fmt: FormatNumber)
    : (r: Result<string, PipelineError>)
    requires VisitsTable(req, fetch, widen, order)
    ensures r.Err? <==> Rows(req, fetch).Err?
    ensures r.Err? ==> r.error == Rows(req, fetch).error
    ensures r.Ok? ==> IsArray(r.value)
  {
    match Rows(req, fetch)
    case Err(e) => Err(e)
    case Ok(rows) =>
      var table := BuildTable(rows, widen);
      var results := FanOut(table, req.entrezGeneId, order, spearman);
      ResultIdsPlain(table, req.entrezGeneId, order, spearman);
      Ok(Frame(results, fmt))
  }

  /** A body the source's loop writes for some arrival order of exactly the expected results. */
  ghost predicate WritesExactly(body: string, expected: set<CoExpression>, fmt: FormatNumber) {
    exists results: seq<CoExpression> ::
      && AllPlain(results)
      && multiset(results) == multiset(expected)
      && body == FrameAsWritten(results, fmt)
  }

  /** A body that frames, as a JSON array, some arrival order of exactly the expected results. */
  ghost predicate FramesExactly(body: string, expected: set<CoExpression>, fmt: FormatNumber) {
    exists results: seq<CoExpression> ::
      && AllPlain(results)
      && multiset(results) == multiset(expected)
      && body == Frame(results, fmt)
  }

  /** Every expected result has a finite correlation and p-value. */
  predicate AllFiniteSet(expected: set<CoExpression>) {
    forall c :: c in expected ==> IsFinite(c.spearman) && IsFinite(c.pValue)
  }

  /** The results of the fan-out, in visiting order, and what they are as a multiset. */
  lemma SuccessBody(req: ServiceRequest, fetch: Fetch, order: seq<Int64>, widen: Widen, spearman: Spearman)
    returns (results: seq<CoExpression>)
    requires VisitsTable(req, fetch, widen, order)
    requires Rows(req, fetch).Ok?
    ensures AllPlain(results)
    ensures results == FanOut(BuildTable(Rows(req, fetch).value, widen), req.entrezGeneId, order, spearman)
    ensures multiset(results) ==
      multiset(ExpectedResults(Flatten(Rows(req, fetch).value), req.entrezGeneId, widen, spearman))
  {
    var rows := Rows(req, fetch).value;
    var table := BuildTable(rows, widen);
    results := FanOut(table, req.entrezGeneId, order, spearman);
    ResultIdsPlain(table, req.entrezGeneId, order, spearman);
    FanOutIsExpected(table, req.entrezGeneId, order, spearman);
    ExpectedFromTable(rows, req.entrezGeneId, widen, spearman);
  }

  /**
   * End to end, as the source writes it: a successful response is the source's
   * framing of some arrival order of exactly one result per gene seen other
   * than the query gene, each computed from the rows' values. When every
   * expected number is finite the response is a JSON array of those results,
   * the same body the corrected framing gives.
   */
  lemma EndToEnd(req: ServiceRequest, fetch: Fetch, order: seq<Int64>, widen: Widen, spearman: Spearman, fmt: FormatNumber)
    requires VisitsTable(req, fetch, widen, order)
    requires Rows(req, fetch).Ok?
    ensures FetchCoExpressions(req, fetch, order, widen, spearman, fmt).Ok?
    ensures WritesExactly(FetchCoExpressions(req, fetch, order, widen, spearman, fmt).value,
                          ExpectedResults(Flatten(Rows(req, fetch).value), req.entrezGeneId, widen, spearman), fmt)
    ensures AllFiniteSet(ExpectedResults(Flatten(Rows(req, fetch).value), req.entrezGeneId, widen, spearman)) ==>
      && FetchCoExpressions(req, fetch, order, widen, spearman, fmt)
         == FetchCoExpressionsCorrected(req, fetch, order, widen, spearman, fmt)
      && IsArray(FetchCoExpressions(req, fetch, order, widen, spearman, fmt).value)
      && FramesExactly(FetchCoExpressions(req, fetch, order, widen, spearman, fmt).value,
                       ExpectedResults(Flatten(Rows(req, fetch).value), req.entrezGeneId, widen, spearman), fmt)
  {
    var results := SuccessBody(req, fetch, order, widen, spearman);
    var expected := ExpectedResults(Flatten(Rows(req, fetch).value), req.entrezGeneId, widen, spearman);
    assert FetchCoExpressions(req, fetch, order, widen, spearman, fmt) == Ok(FrameAsWritten(results, fmt));
    assert FetchCoExpressionsCorrected(req, fetch, order, widen, spearman, fmt) == Ok(Frame(results, fmt));
    if AllFiniteSet(expected) {
      forall i | 0 <= i < |results| ensures IsFinite(results[i].spearman) && IsFinite(results[i].pValue) {
        assert results[i] in multiset(results);
      }
      assert AllFinite(results);
    }
  }

  /**
   * End to end with the corrected framing: a successful response is a JSON
   * array that frames, in some order, exactly one result per gene seen other
   * than the query gene.
   */
  lemma EndToEndCorrected(req: ServiceRequest, fetch: Fetch, order: seq<Int64>, widen: Widen, spearman: Spearman, fmt: FormatNumber)
    requires VisitsTable(req, fetch, widen, order)
    requires Rows(req, fetch).Ok?
    ensures FetchCoExpressionsCorrected(req, fetch, order, widen, spearman, fmt).Ok?
    ensures FramesExactly(FetchCoExpressionsCorrected(req, fetch, order, widen, spearman, fmt).value,
                          ExpectedResults(Flatten(Rows(req, fetch).value), req.entrezGeneId, widen, spearman), fmt)
  {
    var results := SuccessBody(req, fetch, order, widen, spearman);
    assert FetchCoExpressionsCorrected(req, fetch, order, widen, spearman, fmt) == Ok(Frame(results, fmt));
  }

  /** Only the first profile and the gene id steer the pipeline: the other request fields change nothing. */
  lemma UnusedFieldsIgnored(req: ServiceRequest, other: ServiceRequest, fetch: Fetch, order: seq<Int64>,
                            widen: Widen, spearman: Spearman, fmt: FormatNumber)
    requires other.molecularProfileA == req.molecularProfileA && other.entrezGeneId == req.entrezGeneId
    requires VisitsTable(req, fetch, widen, order)
    ensures VisitsTable(other, fetch, widen, order)
    ensures FetchCoExpressions(other, fetch, order, widen, spearman, fmt) == FetchCoExpressions(req, fetch, order, widen, spearman, fmt)
    ensures FetchCoExpressionsCorrected(other, fetch, order, widen, spearman, fmt)
         == FetchCoExpressionsCorrected(req, fetch, order, widen, spearman, fmt)
  {
  }

  /** When no gene other than the query gene was seen, the response is exactly "[]\n", under either framing. */
  lemma NoOtherGenes(req: ServiceRequest, fetch: Fetch, order: seq<Int64>, widen: Widen, spearman: Spearman, fmt: FormatNumber)
    requires VisitsTable(req, fetch, widen, order)
    requires Rows(req, fetch).Ok?
    requires GenesOf(Flatten(Rows(req, fetch).value)) <= {req.entrezGeneId}
    ensures FetchCoExpressions(req, fetch, order, widen, spearman, fmt) == Ok("[]\n")
    ensures FetchCoExpressionsCorrected(req, fetch, order, widen, spearman, fmt) == Ok("[]\n")
  {
    var rows := Rows(req, fetch).value;
    var t := BuildTable(rows, widen);
    var q := req.entrezGeneId;
    var results := FanOut(t, q, order, spearman);
    assert t.Keys - {q} == {};
    assert |results| == 0 by {
      OneResultPerGene(t, q, order, spearman);
    }
    assert results == [];
    ResultIdsPlain(t, q, order, spearman);
    EmptyFrame(fmt);
    assert FetchCoExpressions(req, fetch, order, widen, spearman, fmt) == Ok(FrameAsWritten(results, fmt));
    assert FetchCoExpressionsCorrected(req, fetch, order, widen, spearman, fmt) == Ok(Frame(results, fmt));
  }
}
