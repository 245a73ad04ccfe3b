/**
 * The per-city aggregate of the 1brc program: a running count, sum,
 * minimum and maximum of the observed temperatures.
 *
 * An observed value is modelled as an integer number of tenths of a degree
 * (the input carries one fractional digit). Only the ordering of values
 * matters for the minimum and maximum; the sum is the exact integer sum.
 */
module Measurements {

  /** The largest finite float64, (2^53 - 1) * 2^971, expressed in tenths. */
  const MaxFloat64: int := 1797693134862315708145274237317043567980705675258449965989174768031572607800285387605895586327668781715404589535143824642343213268894641827684675467035375169860499105765512820762454900903893289440758685084551339423045832369032229481658085593321233482747978262041447231687381771809192998812504040261841248583680

  /** A value a float64 can hold without being infinite. */
  predicate Finite(v: int) {
    -MaxFloat64 <= v <= MaxFloat64
  }

  /** Go's built-in `min` on two values. */
  function Min(a: int, b: int): (r: int)
    ensures r <= a && r <= b
    ensures r == a || r == b
  {
    if a <= b then a else b
  }

  /** Go's built-in `max` on two values. */
  function Max(a: int, b: int): (r: int)
    ensures a <= r && b <= r
    ensures r == a || r == b
  {
    if a >= b then a else b
  }

  /** The aggregate kept for one city. */
  datatype Measurement = Measurement(sum: int, min: int, max: int, total: int)

  /** What every aggregate the program builds satisfies. */
  predicate Valid(m: Measurement) {
    m.total >= 1 && m.min <= m.max
  }

  /**
   * The first aggregate of a city. The source clamps the value with
   * `min(MaxFloat64, v)` and `max(-MaxFloat64, v)`; on every finite value
   * both reduce to the value itself.
   */
  function NewMeasurement(v: int): (r: Measurement)
    ensures r.total == 1 && r.sum == v
    ensures Finite(v) ==> r.min == v && r.max == v
    ensures Valid(r)
  {
    Measurement(v, Min(MaxFloat64, v), Max(-MaxFloat64, v), 1)
  }

  /** Folds one further observation into an aggregate. */
  function MergeMeasurement(existing: Measurement, v: int): (r: Measurement)
    ensures r.total == existing.total + 1
    ensures r.sum == existing.sum + v
    ensures r.min <= existing.min && r.min <= v && (r.min == existing.min || r.min == v)
    ensures r.max >= existing.max && r.max >= v && (r.max == existing.max || r.max == v)
    ensures Valid(existing) ==> Valid(r)
  {
    existing.(total := existing.total + 1,
              sum := existing.sum + v,
              min := Min(existing.min, v),
              max := Max(existing.max, v))
  }

  /**
   * Folding two observations into an aggregate gives the same aggregate in
   * either order. For Total, Min and Max this is the source's behaviour; for
   * Sum it holds because the model's sum is exact, whereas float64 addition
   * depends on its order.
   */
  lemma MergeCommutes(m: Measurement, a: int, b: int)
    ensures MergeMeasurement(MergeMeasurement(m, a), b) == MergeMeasurement(MergeMeasurement(m, b), a)
  {
  }
}
