/**
 * The records that flow through the co-expression pipeline
 * (internal/service/coexpression_service_structs.go).
 */
module Types {

  /** Go's int64. */
  newtype Int64 = x: int | -0x8000_0000_0000_0000 <= x < 0x8000_0000_0000_0000

  /** Go's float32, as its IEEE 754 binary32 bit pattern. No arithmetic is done on it. */
  type Float32 = bv32

  /** Go's float64, as its IEEE 754 binary64 bit pattern. */
  type Float64 = bv64

  /** One expression value of one gene in one sample: a row of the columnar source. */
  datatype GeneticAlteration = GeneticAlteration(entrezGeneId: Int64, sampleId: string, value: Float32)

  /** The Go zero value of GeneticAlteration: 0, "" and +0.0. */
  const ZeroAlteration: GeneticAlteration := GeneticAlteration(0, "", 0)

  /** One correlation result: the target gene's id as decimal text, Spearman's rho and its p-value. */
  datatype CoExpression = CoExpression(geneticEntityId: string, spearman: Float64, pValue: Float64)

  /** The parameters of one request; only molecularProfileA and entrezGeneId drive the pipeline. */
  datatype ServiceRequest = ServiceRequest(
    molecularProfileA: string,
    molecularProfileB: string,
    threshold: Float64,
    entrezGeneId: Int64,
    sampleListId: string)
}
