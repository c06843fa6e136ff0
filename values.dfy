/** Field values and records.  Every field of the modelled layouts is a
    64-bit float; the core does no arithmetic, so a float is abstracted to a
    number or the NaN tag. */
module Values {

  /** A float field value: a number, or NaN. */
  datatype Value = Num(x: real) | NaN

  predicate IsNaN(v: Value) { v.NaN? }

  /** Python's float `==`: NaN compares unequal to everything, itself included. */
  predicate FloatEq(a: Value, b: Value) { a.Num? && b.Num? && a.x == b.x }

  /** One fixed-layout row: one value per field, in the layout's field order. */
  type Record = seq<Value>

  /** The record-level missing test: a record is missing when ANY field is NaN. */
  predicate AnyNaN(r: Record) { exists k :: 0 <= k < |r| && IsNaN(r[k]) }

  /** numpy's `==` on two records of one layout: field by field, all must be equal. */
  predicate RecordEq(a: Record, b: Record)
  {
    |a| == |b| && forall k :: 0 <= k < |a| ==> FloatEq(a[k], b[k])
  }

  /** The record of `width` fields that all hold `v` (numpy broadcasting a scalar into a row). */
  function Uniform(width: nat, v: Value): (r: Record)
    ensures |r| == width
    ensures forall k :: 0 <= k < width ==> r[k] == v
  {
    seq(width, _ => v)
  }

  /** A record equals itself under float equality exactly when it has no NaN field. */
  lemma RecordEqSelf(r: Record)
    ensures RecordEq(r, r) <==> !AnyNaN(r)
  {
    if !RecordEq(r, r) {
      var k :| 0 <= k < |r| && !FloatEq(r[k], r[k]);
      assert IsNaN(r[k]);
    }
  }
}
