/**
 * Samples of a metric series and the NaN-aware sum that combines them
 * (the `Metric` record and `SumNaNs` of aggregate/aggregate.go).
 */
module Samples {

  /** A sample value. `Missing` stands for the NaN the source uses to mean "no data". */
  datatype Val = Missing | Present(v: real)

  /** One sample of a series: a timestamp in seconds and its value. */
  datatype Metric = Metric(ts: nat, value: Val)

  /** One past the largest timestamp the source can hold (it stores timestamps as uint32). */
  const U32Limit: nat := 0x1_0000_0000

  /** Addition in which Missing is the identity: two Missing values give Missing. */
  function SumNaNs(x: Val, y: Val): (r: Val)
    ensures r.Missing? <==> x.Missing? && y.Missing?
  {
    if x.Missing? then y
    else if y.Missing? then x
    else Present(x.v + y.v)
  }

  lemma SumNaNsIdentity(x: Val)
    ensures SumNaNs(Missing, x) == x && SumNaNs(x, Missing) == x
  {
  }

  lemma SumNaNsPresent(a: real, b: real)
    ensures SumNaNs(Present(a), Present(b)) == Present(a + b)
  {
  }

  lemma SumNaNsCommutative(x: Val, y: Val)
    ensures SumNaNs(x, y) == SumNaNs(y, x)
  {
  }

  lemma SumNaNsAssociative(x: Val, y: Val, z: Val)
    ensures SumNaNs(SumNaNs(x, y), z) == SumNaNs(x, SumNaNs(y, z))
  {
  }
}
