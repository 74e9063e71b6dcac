/**
 * Work-size batches and the other real-valued sequences the simulator
 * derives from them (departure vectors, reported finish times).
 */
module Batch {

  /** Every entry is at least zero. */
  predicate NonNegative(s: seq<real>)
  {
    forall i :: 0 <= i < |s| ==> 0.0 <= s[i]
  }

  /** Entries never decrease from left to right. */
  predicate NonDecreasing(s: seq<real>)
  {
    forall i, j :: 0 <= i <= j < |s| ==> s[i] <= s[j]
  }

  /** A batch as the simulator expects it: non-negative sizes, smallest job first. */
  predicate WellFormed(w: seq<real>)
  {
    NonNegative(w) && NonDecreasing(w)
  }

  /** Left-to-right sum, in the order std::accumulate adds. */
  function Sum(s: seq<real>): real
  {
    if |s| == 0 then 0.0 else Sum(s[..|s| - 1]) + s[|s| - 1]
  }

  lemma SumOfPrefix(s: seq<real>, k: nat)
    requires 0 < k <= |s|
    ensures Sum(s[..k]) == Sum(s[..k - 1]) + s[k - 1]
  {
    assert s[..k][..k - 1] == s[..k - 1];
  }

  /** Sequences that agree up to a common factor have sums that agree up to that factor. */
  lemma {:induction false} SumScaled(a: seq<real>, b: seq<real>, t: real)
    requires |a| == |b|
    requires forall i :: 0 <= i < |a| ==> a[i] * t == b[i]
    ensures Sum(a) * t == Sum(b)
  {
    if |a| > 0 {
      SumScaled(a[..|a| - 1], b[..|b| - 1], t);
      assert Sum(a) * t == Sum(a[..|a| - 1]) * t + a[|a| - 1] * t;
    }
  }
}
