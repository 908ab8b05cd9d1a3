/** Applying a function to every element of a sequence, as the builders' `for` loops do. */
module Sequences {

  /** `f` applied to every element, in order. */
  function Map<A, B>(xs: seq<A>, f: A -> B): seq<B>
  {
    if |xs| == 0 then [] else Map(xs[..|xs| - 1], f) + [f(xs[|xs| - 1])]
  }

  lemma MapNext<A, B>(xs: seq<A>, j: nat, f: A -> B)
    requires j < |xs|
    ensures Map(xs[..j + 1], f) == Map(xs[..j], f) + [f(xs[j])]
  {
    assert xs[..j + 1][..j] == xs[..j];
  }

  lemma {:induction false} MapAppend<A, B>(a: seq<A>, b: seq<A>, f: A -> B)
    ensures Map(a + b, f) == Map(a, f) + Map(b, f)
    decreases |b|
  {
    if |b| == 0 {
      assert a + b == a;
    } else {
      var n := |b| - 1;
      assert (a + b)[..|a + b| - 1] == a + b[..n];
      assert (a + b)[|a + b| - 1] == b[n];
      MapAppend(a, b[..n], f);
    }
  }

  lemma {:induction false} MapIndex<A, B>(xs: seq<A>, f: A -> B)
    ensures |Map(xs, f)| == |xs|
    ensures forall i :: 0 <= i < |xs| ==> Map(xs, f)[i] == f(xs[i])
    decreases |xs|
  {
    if |xs| > 0 {
      MapIndex(xs[..|xs| - 1], f);
    }
  }
}
