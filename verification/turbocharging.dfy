/**
 * Turbocharging policies: the uniform speed-up the target discipline needs
 * so that its departures are no later than those of an original
 * (reference) discipline (turbocharging_policy_off, _naive, _strong).
 *
 * The code divides finish times in IEEE doubles. A zero original time
 * gives NaN (target 0) or -inf (target < 0), and std::max(acc, x) keeps
 * acc for both, so such a term is skipped here. The remaining case,
 * +inf (original 0, target > 0), is excluded by `Admissible`.
 */
module Turbocharging {
  import opened Batch
  import opened Frequency
  import opened Scheduling

  datatype TurboPolicy =
    | Off
    | Naive(original: Discipline)
    | Strong(original: Discipline)

  /** std::max(a, b), which answers a unless a < b. */
  function Max(a: real, b: real): (r: real)
    ensures a <= r && b <= r
    ensures r == a || r == b
  {
    if a < b then b else a
  }

  /** std::max(acc, target / original), with the NaN and -inf quotients of a zero original leaving acc. */
  function MaxRatio(acc: real, target: real, original: real): (r: real)
    ensures acc <= r
    ensures original != 0.0 ==> target / original <= r
    ensures r == acc || (original != 0.0 && r == target / original)
  {
    if original == 0.0 then acc else Max(acc, target / original)
  }

  /** The strong loop over a target profile ts and an original profile os, after its iterations 0 .. k - 1. */
  function RatioFold(ts: seq<real>, os: seq<real>, k: nat): (r: real)
    requires k <= |ts| && k <= |os|
    ensures 1.0 <= r
  {
    if k == 0 then 1.0 else MaxRatio(RatioFold(ts, os, k - 1), ts[k - 1], os[k - 1])
  }

  /** At departure k a zero original finish time is matched by a target time that is not positive. */
  predicate ComparableAt(ts: seq<real>, os: seq<real>, k: nat)
    requires k < |ts| && k < |os|
  {
    os[k] == 0.0 ==> ts[k] <= 0.0
  }

  /** What a policy needs to be evaluated against the given target discipline. */
  predicate Admissible(tp: TurboPolicy, target: Discipline, fp: FrequencyPolicy, w: seq<real>)
  {
    match tp
    case Off => true
    case Naive(o) =>
      && fp.Valid() && Queryable(o, w) && Queryable(target, w)
      && ComparableAt(FinishProfile(target, fp, w, |w|), FinishProfile(o, fp, w, |w|), |w|)
    case Strong(o) =>
      && fp.Valid() && Queryable(o, w) && Queryable(target, w)
      && var ts, os := FinishProfile(target, fp, w, |w|), FinishProfile(o, fp, w, |w|);
         forall k :: 0 <= k <= |w| ==> ComparableAt(ts, os, k)
  }

  /** turbocharging_policy_naive: compares the last departure only. */
  function NaiveRate(o: Discipline, t: Discipline, fp: FrequencyPolicy, w: seq<real>): (r: real)
    requires Admissible(Naive(o), t, fp, w)
    ensures 1.0 <= r
  {
    MaxRatio(1.0, FinishTime(t, fp, w, |w|), FinishTime(o, fp, w, |w|))
  }

  /** turbocharging_policy_strong: the largest ratio over every departure k in [0, n], and at least 1. */
  function StrongRate(o: Discipline, t: Discipline, fp: FrequencyPolicy, w: seq<real>): (r: real)
    requires Admissible(Strong(o), t, fp, w)
    ensures 1.0 <= r
  {
    RatioFold(FinishProfile(t, fp, w, |w|), FinishProfile(o, fp, w, |w|), |w| + 1)
  }

  /** turbocharging_rate of each policy for the given target discipline. */
  function TurboRate(tp: TurboPolicy, target: Discipline, fp: FrequencyPolicy, w: seq<real>): (r: real)
    requires Admissible(tp, target, fp, w)
    ensures 1.0 <= r
    ensures tp.Off? ==> r == 1.0
  {
    match tp
    case Off => 1.0
    case Naive(o) => NaiveRate(o, target, fp, w)
    case Strong(o) => StrongRate(o, target, fp, w)
  }

  /** A skipped or bounded ratio a / b turns into the dominance a <= r * b. */
  lemma RatioBoundScales(a: real, b: real, r: real)
    requires 0.0 <= b
    requires b == 0.0 ==> a <= 0.0
    requires b != 0.0 ==> a / b <= r
    ensures a <= r * b
  {
    if b != 0.0 {
      assert a == a / b * b;
    }
  }

  /** Moves a <= r * b to equal values, sparing the solver a rewrite under the product. */
  lemma ScaledBoundTransfer(a: real, b: real, r: real, a2: real, b2: real, r2: real)
    requires a <= r * b && a == a2 && b == b2 && r == r2
    ensures a2 <= r2 * b2
  {
  }

  /** A step of the strong loop stays within any bound s on acc and on the step's dominance a <= s * b. */
  lemma MaxRatioAtMost(acc: real, a: real, b: real, s: real)
    requires acc <= s && 0.0 <= b && a <= s * b
    ensures MaxRatio(acc, a, b) <= s
  {
    if b != 0.0 {
      QuotientLeast(a, b, s);
    }
  }

  lemma QuotientLeast(a: real, b: real, s: real)
    requires 0.0 < b && a <= s * b
    ensures a / b <= s
  {
    assert s == s * b / b;
  }

  /** The strong accumulator never falls below a ratio it has already seen. */
  lemma {:induction false} RatioFoldCovers(ts: seq<real>, os: seq<real>, k: nat, i: nat)
    requires i < k <= |ts| && k <= |os| && os[i] != 0.0
    ensures ts[i] / os[i] <= RatioFold(ts, os, k)
  {
    if i < k - 1 {
      RatioFoldCovers(ts, os, k - 1, i);
    }
  }

  /** Sped up by the accumulated rate, every comparable target time seen is within it of the original. */
  lemma RatioFoldDominates(ts: seq<real>, os: seq<real>, k: nat, i: nat)
    requires i < k <= |ts| && k <= |os|
    requires ComparableAt(ts, os, i) && 0.0 <= os[i]
    ensures ts[i] <= RatioFold(ts, os, k) * os[i]
  {
    if os[i] != 0.0 {
      RatioFoldCovers(ts, os, k, i);
    }
    RatioBoundScales(ts[i], os[i], RatioFold(ts, os, k));
  }

  /** The strong accumulator is at most any factor s >= 1 that bounds every target time seen. */
  lemma {:induction false} RatioFoldLeast(ts: seq<real>, os: seq<real>, k: nat, s: real)
    requires k <= |ts| && k <= |os| && 1.0 <= s
    requires forall i :: 0 <= i < k ==> 0.0 <= os[i] && ts[i] <= s * os[i]
    ensures RatioFold(ts, os, k) <= s
  {
    if k > 0 {
      RatioFoldLeast(ts, os, k - 1, s);
      MaxRatioAtMost(RatioFold(ts, os, k - 1), ts[k - 1], os[k - 1], s);
    }
  }

  /** Strong includes the last departure Naive compares, so it never asks for less. */
  lemma NaiveAtMostStrong(o: Discipline, t: Discipline, fp: FrequencyPolicy, w: seq<real>)
    requires Admissible(Strong(o), t, fp, w)
    ensures Admissible(Naive(o), t, fp, w)
    ensures TurboRate(Naive(o), t, fp, w) <= TurboRate(Strong(o), t, fp, w)
  {
    var ts, os := FinishProfile(t, fp, w, |w|), FinishProfile(o, fp, w, |w|);
    assert ComparableAt(ts, os, |w|);
    if os[|w|] != 0.0 {
      RatioFoldCovers(ts, os, |w| + 1, |w|);
    }
  }

  /** Sped up by the strong rate, the target is no later than the original at every departure. */
  lemma StrongDominates(o: Discipline, t: Discipline, fp: FrequencyPolicy, w: seq<real>, k: nat)
    requires Admissible(Strong(o), t, fp, w) && k <= |w|
    requires 0.0 <= FinishTime(o, fp, w, k)
    ensures FinishTime(t, fp, w, k) <= TurboRate(Strong(o), t, fp, w) * FinishTime(o, fp, w, k)
  {
    hide FinishTime, FinishProfile, RatioFold, Admissible;
    StrongDominatesAt(o, t, fp, w, k, TurboRate(Strong(o), t, fp, w));
  }

  lemma StrongDominatesAt(o: Discipline, t: Discipline, fp: FrequencyPolicy, w: seq<real>, k: nat, r: real)
    requires Admissible(Strong(o), t, fp, w) && k <= |w|
    requires 0.0 <= FinishTime(o, fp, w, k)
    requires r == StrongRate(o, t, fp, w)
    ensures FinishTime(t, fp, w, k) <= r * FinishTime(o, fp, w, k)
  {
    hide FinishTime, MaxRatio;
    var ts, os := FinishProfile(t, fp, w, |w|), FinishProfile(o, fp, w, |w|);
    assert ComparableAt(ts, os, k);
    RatioFoldDominates(ts, os, |w| + 1, k);
    ScaledBoundTransfer(ts[k], os[k], RatioFold(ts, os, |w| + 1), FinishTime(t, fp, w, k), FinishTime(o, fp, w, k), r);
  }

  /** The strong rate is the least speed-up >= 1 under which the target is never later than the original. */
  lemma StrongIsLeast(o: Discipline, t: Discipline, fp: FrequencyPolicy, w: seq<real>, s: real)
    requires Admissible(Strong(o), t, fp, w) && WellFormed(w) && 1.0 <= s
    requires forall k :: 0 <= k <= |w| ==> FinishTime(t, fp, w, k) <= s * FinishTime(o, fp, w, k)
    ensures TurboRate(Strong(o), t, fp, w) <= s
  {
    hide FinishTime, MaxRatio;
    var ts, os := FinishProfile(t, fp, w, |w|), FinishProfile(o, fp, w, |w|);
    forall i | 0 <= i < |w| + 1
      ensures 0.0 <= os[i] && ts[i] <= s * os[i]
    {
      ScaledBoundTransfer(FinishTime(t, fp, w, i), FinishTime(o, fp, w, i), s, ts[i], os[i], s);
    }
    RatioFoldLeast(ts, os, |w| + 1, s);
  }

  /** Sped up by the naive rate, the target's last departure is no later than the original's. */
  lemma NaiveDominatesLastDeparture(o: Discipline, t: Discipline, fp: FrequencyPolicy, w: seq<real>)
    requires Admissible(Naive(o), t, fp, w)
    requires 0.0 <= FinishTime(o, fp, w, |w|)
    ensures FinishTime(t, fp, w, |w|) <= TurboRate(Naive(o), t, fp, w) * FinishTime(o, fp, w, |w|)
  {
    hide FinishTime;
    var ts, os := FinishProfile(t, fp, w, |w|), FinishProfile(o, fp, w, |w|);
    var r := TurboRate(Naive(o), t, fp, w);
    assert r == MaxRatio(1.0, ts[|w|], os[|w|]);
    if os[|w|] != 0.0 {
      assert ts[|w|] / os[|w|] <= r;
    }
    RatioBoundScales(ts[|w|], os[|w|], r);
  }

  /** The naive rate is the least speed-up >= 1 that makes the last departures meet. */
  lemma NaiveIsLeast(o: Discipline, t: Discipline, fp: FrequencyPolicy, w: seq<real>, s: real)
    requires Admissible(Naive(o), t, fp, w) && 1.0 <= s
    requires 0.0 <= FinishTime(o, fp, w, |w|)
    requires FinishTime(t, fp, w, |w|) <= s * FinishTime(o, fp, w, |w|)
    ensures TurboRate(Naive(o), t, fp, w) <= s
  {
    MaxRatioAtMost(1.0, FinishTime(t, fp, w, |w|), FinishTime(o, fp, w, |w|), s);
  }

  /**
   * PS answers k = 0 with w[0] * n / f(n), FSP with 0: strong turbocharging
   * of FSP against PS is admissible exactly when the smallest job is empty.
   */
  lemma StrongFspAgainstPsNeedsZeroFirstJob(fp: FrequencyPolicy, w: seq<real>)
    requires fp.Valid() && 1 <= |w| && NonNegative(w)
    ensures Admissible(Strong(FSP), PS, fp, w) <==> w[0] == 0.0
  {
    var ts, os := FinishProfile(PS, fp, w, |w|), FinishProfile(FSP, fp, w, |w|);
    if w[0] == 0.0 {
      forall k | 0 <= k <= |w|
        ensures ComparableAt(ts, os, k)
      {
        if os[k] == 0.0 {
          FspZeroPrefix(fp, w, k);
          PsZeroPrefix(fp, w, k);
        }
      }
    } else {
      var n := |w| as real;
      var f := Rate(fp, |w|) as real;
      assert 0.0 < w[0] * n;
      assert 0.0 < w[0] * n / f;
      assert !ComparableAt(ts, os, 0);
    }
  }

  /**
   * The pairs the driver runs, PS as original and FSP as target, are
   * admissible for both policies on every well-formed batch: a PS
   * departure at time 0 leaves only empty jobs before it, so FSP's is at 0.
   */
  lemma DriverPairsAdmissible(fp: FrequencyPolicy, w: seq<real>)
    requires fp.Valid() && 1 <= |w| && WellFormed(w)
    ensures Admissible(Strong(PS), FSP, fp, w)
    ensures Admissible(Naive(PS), FSP, fp, w)
  {
    var ts, os := FinishProfile(FSP, fp, w, |w|), FinishProfile(PS, fp, w, |w|);
    forall k | 0 <= k <= |w|
      ensures ComparableAt(ts, os, k)
    {
      if os[k] == 0.0 {
        PsZeroForcesEmptyPrefix(fp, w, k);
        FspEmptyPrefixIsZero(fp, w, k);
      }
    }
    assert ComparableAt(ts, os, |w|);
  }
}
