/**
 * A measure taken `m` times (`m` lines of one height, `m` characters of one width), as repeated
 * addition: the loops accumulate heights this way, and it keeps products of two unknowns out of
 * the proofs.
 */
module Measures {

  function Stacked(m: nat, unit: real): real
  {
    if m == 0 then 0.0 else Stacked(m - 1, unit) + unit
  }

  /** Repeated addition is the product the source writes. */
  lemma {:induction false} StackedProduct(m: nat, unit: real)
    ensures Stacked(m, unit) == m as real * unit
    decreases m
  {
    if m > 0 {
      StackedProduct(m - 1, unit);
      assert m as real * unit == (m - 1) as real * unit + unit;
    }
  }

  lemma {:induction false} StackedMono(a: nat, b: nat, unit: real)
    requires a <= b && unit > 0.0
    ensures Stacked(a, unit) <= Stacked(b, unit)
    decreases b
  {
    if a < b {
      StackedMono(a, b - 1, unit);
    }
  }
}
