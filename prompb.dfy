/**
 * The Prometheus remote-write records the converter produces
 * (`prompb.Label`, `prompb.Sample`, `prompb.TimeSeries`).
 */
module Prompb {
  import opened GoStrings

  datatype Label = Label(name: Bytes, value: Bytes)

  /**
   * A sample value is a float64, which is not modelled as a number: it is
   * either the bit pattern of a float64 the source already had (a float
   * field, or the constants 1 and 0 for a bool field), or the widening
   * `float64(v)` of an int64 field value, whose rounding is left out.
   */
  datatype SampleValue = FloatBits(bits: bv64) | Widened(n: int)

  /** The IEEE 754 bit patterns of float64 1 and 0. */
  const One: bv64 := 0x3FF0_0000_0000_0000
  const Zero: bv64 := 0

  datatype Sample = Sample(timestamp: int, value: SampleValue)

  datatype TimeSeries = TimeSeries(labels: seq<Label>, samples: seq<Sample>)
}
