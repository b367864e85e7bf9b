/** Samples: one timestamped value and the append-only list of them. */
module Samples {
  import opened Primitives

  /**
   * A sample: a millisecond timestamp and a value. The value is a float64
   * that is only ever copied, never computed on, so it is kept as its
   * 64-bit pattern.
   */
  datatype Sample = Sample(timestamp: int64, value: uint64)

  /** Samples.Append: the receiver extended by one sample at the end. */
  function Append(s: seq<Sample>, x: Sample): (r: seq<Sample>)
    ensures |r| == |s| + 1
    ensures r[|s|] == x
    ensures r[..|s|] == s
    ensures s == [] ==> r == [x]
  {
    s + [x]
  }
}
