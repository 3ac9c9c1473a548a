/**
 * Points as the line-protocol parser (`models.ParsePointsWithPrecision`)
 * hands them over. The parser itself is not part of this model.
 */
module InfluxModels {
  import opened GoStrings

  /**
   * A field value after the type switch's point of view: float64 (kept as its
   * bit pattern), int64, bool, or any other type (string, uint64), which
   * the converter skips.
   */
  datatype FieldValue = Float(bits: bv64) | Int(n: int) | Bool(b: bool) | Other

  datatype Field = Field(key: Bytes, value: FieldValue)

  datatype Tag = Tag(key: Bytes, value: Bytes)

  /**
   * What `pt.Fields()` returns: the fields, listed in the order in which this
   * run's iteration over the Go map visits them, or the error it reports.
   */
  datatype FieldsOutcome = Parsed(fields: seq<Field>) | Unparsable(reason: Bytes)

  /** A point: measurement name, tags in the parser's order, fields, and time in nanoseconds. */
  datatype Point = Point(name: Bytes, tags: seq<Tag>, fields: FieldsOutcome, time: int)
}
