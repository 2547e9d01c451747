# Co-expression pipeline: a Dafny model

This project models the data path of the co-expression service. Given a molecular profile and a query gene, the service fetches the profile's expression data as a stream of columnar batches (Arrow records). It turns each batch into rows, groups the rows into one value vector per gene, and pairs every other gene's vector with the query gene's vector through Spearman's rank correlation. It then streams the results back as a JSON array.

In the source, the stages are goroutines connected by channels. Fan-out waits for a one-shot "aggregation complete" signal. Here each stage is a pure function, and the stages are composed in order:

| module | stage | source |
|---|---|---|
| `Types` | the records that flow through the pipeline | `internal/service/coexpression_service_structs.go` |
| `Query` | the query string sent to the data source | `fetchCoExpressions`, line 31 |
| `Columnar`, `Materializer` | batch to rows, each field resolved by column name | `transformRecToGeneticAlteration` |
| `Aggregator` | rows to a map from gene id to value vector | `mapValuesToEntrezId` |
| `Decimal` | `strconv.FormatInt(id, 10)` and a parser as its partner | `computeSpearman`, line 146 |
| `SpearmanFanOut` | one result per non-query gene of the finished map | `computeSpearman` |
| `Framing` | the `[`, `,`, `]\n` framing around `json.Encoder.Encode` | `fetchCoExpressions`, lines 49-63 |
| `Pipeline` | the whole request, from fetch to response body | `fetchCoExpressions` |

Values are raw IEEE 754 bit patterns (`bv32`, `bv64`), and no arithmetic is done on them. Four things are parameters:
- the float32-to-float64 widening (`Widen`);
- the Spearman statistic (`Spearman`);
- the JSON text of a finite float (`FormatNumber`);
- the data source (`Fetch`).

A Go map has no iteration order, so the order in which `range` visits the finished map is also a parameter: any sequence that lists every key exactly once (`Enumerates`). Worker completion reorders the results again. Every property of the results is therefore stated as a multiset, which holds for every visiting order.

Where the code and its design description disagree, the model follows the code:
- The materialiser does not check that the three required columns exist. A field with no column of its name keeps its Go zero value (`0`, `""`, `+0.0`).
- Nothing checks that target and query vectors have equal length before Spearman is called.
- Nothing enforces correlation in [-1, 1] or p in [0, 1].
- A column with a matched name but the wrong type is a failed type assertion (a panic that stops the process). It is modelled as an error for the whole request. A batch with zero rows never evaluates the assertion, so it does not fail.
- The write loop puts the comma before `Encode`, so a result that cannot be encoded leaves a stray comma (see "## Findings"). `Pipeline.FetchCoExpressions` and `Framing.WriteResponse` write exactly what the source writes. `Pipeline.FetchCoExpressionsCorrected`, `Framing.Frame` and `Framing.WriteResponseCorrected` are the corrected framing, kept beside them so the fix can be stated and proved.

## Model

| member | source | states |
|---|---|---|
| `Decimal.FormatInt` | internal/service/coexpression_service.go:146 | The rendered id is the canonical decimal: non-empty, '-' first exactly for negative ids, then decimal digits with no leading zero (a lone "0" for zero). It never contains a double quote. |
| `Decimal.FormatIntRoundTrip` | internal/service/coexpression_service.go:146 | Parsing the rendered id as a signed decimal gives back the id. |
| `Decimal.FormatIntInjective` | internal/service/coexpression_service.go:146 | Two ids render to the same string if and only if they are equal, so distinct genes get distinct result ids. |
| `Query.BuildQuery` | internal/service/coexpression_service.go:31 | The query is the fixed `SELECT * from "expressionService".` prefix with an opening quote, then the profile name verbatim, then one closing quote. Its length is exactly their sum. |
| `Query.QueryRoundTrip` | internal/service/coexpression_service.go:31 | The profile name can be read back out of the query. |
| `Query.QueryInjective` | internal/service/coexpression_service.go:31 | Distinct profiles give distinct queries, and equal profiles give equal ones. |
| `Materializer.AssignColumn` | internal/service/coexpression_service.go:95-102 | Storing column j fails exactly when the column's name is one of the three read names but its type is not the expected Int64, String or Float32. The error names the row, the column and the name. |
| `Materializer.ResolveFrom` | internal/service/coexpression_service.go:93-103 | The column loop from column j on fails exactly when one of those columns has a matched name and the wrong type. The error is for this row and names such a column. |
| `Materializer.MaterializeRow` | internal/service/coexpression_service.go:92-104 | A row fails exactly when some column of the batch has a matched name and the wrong type. The error names this row and such a column. |
| `Materializer.MaterializeFrom` | internal/service/coexpression_service.go:89-106 | A batch yields exactly numRows records, in row-index order, each the record of its own row. It fails exactly when some row fails. |
| `Materializer.Materialize` | internal/service/coexpression_service.go:89-106 | A batch yields numRows records. It fails exactly when it has at least one row and a column with a matched name and the wrong type, so a zero-row batch never fails. |
| `Materializer.MaterializeAll` | internal/service/coexpression_service.go:87-110 | Every batch becomes one row batch, in arrival order. The stream fails exactly when some batch fails. |
| `Materializer.AssignExtends` | internal/service/coexpression_service.go:93-103 | Overwriting a field with column j extends the by-name reading from the columns before j to the columns up to j. |
| `Materializer.ResolvePrefix` | internal/service/coexpression_service.go:92-103 | Running the column loop over the first j columns, starting from the zero record, gives the by-name reading of those columns. |
| `Materializer.RowIsByName` | internal/service/coexpression_service.go:92-104 | With correctly typed columns, each field of a row comes from the last column with its name, whatever its position. Other columns are ignored, and a field with no such column keeps its zero value. Otherwise the row fails at the first wrong-typed column. |
| `Materializer.MaterializeByName` | internal/service/coexpression_service.go:89-106 | A batch with no rows or with correctly typed columns gives numRows by-name records in row order. Otherwise it fails at row 0, at the first wrong-typed matched column. |
| `Aggregator.Append` | internal/service/coexpression_service.go:118-123 | Appending a row adds its gene to the keys. That gene's vector grows by exactly one element, the widened value, after the old contents. Every other key's vector is unchanged. |
| `Aggregator.AddRowsKeys` | internal/service/coexpression_service.go:117-124 | Folding a batch into the table adds exactly that batch's gene ids to the keys. |
| `Aggregator.AddRowsVector` | internal/service/coexpression_service.go:117-124 | Folding a batch into the table appends to each gene's vector exactly that gene's widened values from the batch, in row order. |
| `Aggregator.AddBatches` | internal/service/coexpression_service.go:116-125 | Folding the batches one after another equals folding all their rows in arrival order. |
| `Aggregator.BuildTable` | internal/service/coexpression_service.go:115-127 | The finished table's keys are exactly the gene ids seen in any batch. Each key's vector is that gene's widened values in arrival order across batches. |
| `Aggregator.VectorsNonEmpty` | internal/service/coexpression_service.go:118-121 | Every vector in the finished table is non-empty, so the nil check only fires for a gene's first row. |
| `Aggregator.AppendTotalLength` | internal/service/coexpression_service.go:117-123 | Appending one row increases the sum of all vector lengths by exactly one. |
| `Aggregator.TableTotalLength` | internal/service/coexpression_service.go:116-125 | The vectors of the finished table hold, in total, exactly as many values as the batches hold rows. |
| `SpearmanFanOut.Correlate` | internal/service/coexpression_service.go:135-149 | A worker's result carries an id that parses back to its gene. Its correlation and p-value are Spearman of the gene's vector (first argument) against the query gene's vector, or against the empty slice when the query gene is not in the table. |
| `SpearmanFanOut.FanOut` | internal/service/coexpression_service.go:136-150 | At most one result per visited key. No result carries the query gene's id. |
| `SpearmanFanOut.FanOutMembers` | internal/service/coexpression_service.go:136-150 | A result is produced if and only if it belongs to a visited non-query key. That result pairs the key's vector with the query's vector and carries the key's decimal id. |
| `SpearmanFanOut.FanOutDistinct` | internal/service/coexpression_service.go:136-146 | Visiting each key once gives pairwise distinct results. |
| `SpearmanFanOut.FanOutIsExpected` | internal/service/coexpression_service.go:135-153 | For any order that visits each key once, the results as a multiset are exactly one result for every non-query gene. Each is Spearman of that gene's vector against the query vector, which is read once and is empty when the query gene is absent. |
| `SpearmanFanOut.OrderIndependent` | internal/service/coexpression_service.go:136-153 | Two visiting orders of the same table give the same multiset of results. |
| `SpearmanFanOut.CountIdFanOut` | internal/service/coexpression_service.go:136-146 | For a visiting order without repeats, the id of gene g occurs once among the results if g was visited and is not the query gene, and never otherwise. |
| `SpearmanFanOut.OneResultPerGene` | internal/service/coexpression_service.go:136-153 | Every non-query gene of the table has exactly one result. The query gene and absent genes have none. There are as many results as non-query keys. |
| `SpearmanFanOut.ExpectedSize` | internal/service/coexpression_service.go:136-149 | There are as many expected results as non-query keys, because ids are distinct. |
| `Framing.Encode` | internal/service/coexpression_service.go:61 | The encoder writes an object if and only if both numbers are finite; NaN or an infinity writes nothing. A written object opens with '{' and ends with "}\n". |
| `Framing.EncodeIdRoundTrip` | internal/service/coexpression_service_structs.go:11-15 | The gene id can be read back from the `geneticEntityId` field of the encoded object. |
| `Framing.EncodingsAllFinite` | internal/service/coexpression_service.go:55-62 | When every number is finite, each result is written once, in arrival order. |
| `Framing.FrameAsWritten` | internal/service/coexpression_service.go:54-63 | The source's body: `[`, a comma before every result but the first whether or not it was written, each written object, then `]\n`. When every number is finite it equals the corrected framing. |
| `Framing.Frame` | internal/service/coexpression_service.go:54-63 | Corrected framing (see "## Findings"): `[`, the written objects separated by single commas, then `]\n`. It is always a JSON array of objects. |
| `Framing.EmptyFrame` | internal/service/coexpression_service.go:54-63 | With no results, both the source's body and the corrected one are exactly `[]\n`. |
| `Framing.WriteResult` | internal/service/coexpression_service.go:56-61 | One turn of the source's loop writes a comma whenever an earlier result was seen, decided by the flag before encoding, then the object if Encode wrote one. The flag is set afterwards either way. |
| `Framing.WriteResponse` | internal/service/coexpression_service.go:49-63 | The source's writes, concatenated, are its body (`FrameAsWritten`). The first write is `[` and the last is `]\n`, and every write between them is a single comma or a single object. |
| `Framing.AsWrittenNaNFirst` | internal/service/coexpression_service.go:55-62 | For a NaN result followed by a finite one, the source writes `[`, a comma, the second object, then `]\n`. |
| `Framing.StrayComma` | internal/service/coexpression_service.go:55-62 | The output in that case starts with "[," and is no JSON array of objects, while the corrected framing of the same results is one. |
| `Framing.FailedFirstStrayComma` | internal/service/coexpression_service.go:55-62 | Whenever the first result cannot be encoded and another result follows, the source's body starts with "[," and is no JSON array, whatever the later results are. |
| `Framing.WriteOneCorrected` | internal/service/coexpression_service.go:56-61 | Corrected framing (see "## Findings"): one loop turn writes the object, after a comma unless it is the first object written, or writes nothing when encoding fails. The written text stays `[` plus the joined objects. |
| `Framing.WriteResponseCorrected` | internal/service/coexpression_service.go:49-63 | Corrected framing (see "## Findings"): the writes concatenate to `Frame`. The first write is `[` and the last is `]\n`, and every write between them is a single comma or one of the written objects. |
| `Pipeline.Rows` | internal/service/coexpression_service.go:31-35 | The data source is asked for exactly the query of the request's first profile. Its error ends the request before any output. Otherwise the rows succeed exactly when every batch materialises, and a schema error is the stream's error. On success there is one row batch per fetched batch, each the materialised rows of its batch. |
| `Pipeline.FormatIntPlain` | internal/service/coexpression_service.go:146 | A rendered gene id needs no JSON escaping. |
| `Pipeline.ResultIdsPlain` | internal/service/coexpression_service.go:144-150 | Every result id that fan-out produces needs no JSON escaping. |
| `Pipeline.ExpectedFromTable` | internal/service/coexpression_service.go:131-149 | The expected results of the finished table are the ones computed from the rows alone: for every gene seen except the query gene, Spearman of its values against the query gene's values. |
| `Pipeline.FetchCoExpressions` | internal/service/coexpression_service.go:29-69 | The request fails exactly when fetching or materialising fails, and then with that error. |
| `Pipeline.FetchCoExpressionsCorrected` | internal/service/coexpression_service.go:29-69 | Corrected framing (see "## Findings"): it fails exactly as the source does, and a successful body is always a JSON array. |
| `Pipeline.EndToEnd` | internal/service/coexpression_service.go:29-69 | A successful response is the source's body for some arrival order of exactly one result per gene seen other than the query gene, each computed from the rows' values. When every expected number is finite, the body equals the corrected one and is a JSON array of those results. Otherwise non-finite results are not written, and a stray comma can remain. |
| `Pipeline.EndToEndCorrected` | internal/service/coexpression_service.go:29-69 | Corrected framing (see "## Findings"): a successful response is a JSON array framing, in some order, exactly the objects of the expected results that could be encoded. |
| `Pipeline.UnusedFieldsIgnored` | internal/service/coexpression_service.go:29-47 | The second profile, the threshold and the sample list id do not change the response, under either framing. |
| `Pipeline.NoOtherGenes` | internal/service/coexpression_service.go:54-63 | When no gene other than the query gene was seen, the response is exactly `[]\n`, under either framing. |

## Left out

- The Arrow Flight client (`internal/service/arrow_flight.go`): connection, authentication and ticket retrieval are network I/O. They are the `Fetch` parameter: the batches returned for a query string, or an error message.
- HTTP routing and request decoding (`internal/service/http.go`): this includes the threshold default, which needs float parsing. The model starts from a decoded `ServiceRequest`. `cmd/service/main.go` is process startup.
- Goroutines, channel buffer sizes, the `WaitGroup` and the 16-slot token semaphore: these concern concurrency and backpressure. The model states only their sequential result. The aggregation barrier becomes ordinary sequencing, and the completion order of workers becomes an arbitrary order of a multiset.
- The Spearman statistic (go-onlinestats): this is a foreign library. It is the uninterpreted `Spearman` parameter. The model claims no range for rho or p, and no check of vector lengths, because the source makes none.
- The float32-to-float64 conversion and the JSON digits of a float: these are floating-point formatting. They are the `Widen` and `FormatNumber` parameters. Only Go's rejection of NaN and infinities is modelled, on the bit pattern.
- Framing.Encode: JSON string escaping is not modelled. The encoder requires ids made of characters Go writes unescaped. Every id the pipeline produces is a decimal rendering, which `Pipeline.FormatIntPlain` proves plain.
- Arrow null slots, Retain/Release, the 2000-element capacity hint, the row counter, logging and timing are not modelled. None of them changes the data. A `Batch` is a record whose columns all hold `numRows` values, which is Arrow's record invariant.
- Errors from `w.Write` are ignored by the source and not modelled. What a client receives after a type-assertion panic has crashed the process is not modelled either; the request is an error.

## Findings

| source | as written | input that shows it | evidently intended | confidence | as-written member | corrected member |
|---|---|---|---|---|---|---|
| internal/service/coexpression_service.go:56-61 | The comma is written before `enc.Encode` is called, and Encode's error is ignored. For a result whose correlation or p-value is NaN or infinite, Encode writes nothing, so the comma stands alone. | The results [a result with correlation NaN (bits 0x7FF8000000000000), a finite result] produce a body beginning `[,` (`Framing.StrayComma`). The same holds whenever the first result fails to encode and another follows (`Framing.FailedFirstStrayComma`). | Write the separator only before an object that was actually written, so the body is always a JSON array (`Framing.Frame`, streamed by `Framing.WriteResponseCorrected`, used by `Pipeline.FetchCoExpressionsCorrected`) | certain for a NaN or infinite input; whether Spearman yields one depends on the statistics library, which is outside this model; not executed | `Framing.FrameAsWritten` | `Framing.Frame` |
