/**
 * The two scheduling disciplines (ps_scheduling, fsp_scheduling) and their
 * compute_finish_time: the time of the k-th departure when the whole batch
 * is present at time 0 and the server runs at the rate the frequency policy
 * gives for the number of jobs present.
 *
 * The index offsets are those of the code: PS returns the same value for
 * k = 0 and k = 1 and scales step i by (n - i + 1) / f(n - i + 1); FSP
 * divides job i by f(n - i + 1), so it starts with f(n + 1).
 */
module Scheduling {
  import opened Batch
  import opened Frequency

  datatype Discipline = PS | FSP

  /** PS reads work_sizes[0] even for k = 0, so it needs a non-empty batch. */
  predicate Queryable(d: Discipline, w: seq<real>)
  {
    d.PS? ==> 1 <= |w|
  }

  /** The PS time before the first departure: all n jobs share rate f(n). */
  function PsFirstDeparture(fp: FrequencyPolicy, w: seq<real>): real
    requires fp.Valid() && 1 <= |w|
  {
    w[0] * (|w| as real) / (Rate(fp, |w|) as real)
  }

  /** Step i of the PS loop: the marginal work w[i] - w[i-1], absorbed by each of n - i + 1 jobs at rate f(n - i + 1). */
  function PsStep(fp: FrequencyPolicy, w: seq<real>, i: nat): (r: real)
    requires fp.Valid() && 1 <= i < |w|
    ensures w[i - 1] <= w[i] ==> 0.0 <= r
  {
    var jobs := |w| - i + 1;
    var num := (w[i] - w[i - 1]) * (jobs as real);
    assert w[i - 1] <= w[i] ==> 0.0 <= num;
    num / (Rate(fp, jobs) as real)
  }

  /** ps_scheduling::compute_finish_time: the first term plus the steps i = 1 .. k - 1. */
  function PsFinishTime(fp: FrequencyPolicy, w: seq<real>, k: nat): (r: real)
    requires fp.Valid() && 1 <= |w| && k <= |w|
    ensures NonDecreasing(w) ==> PsFirstDeparture(fp, w) <= r
  {
    if k <= 1 then PsFirstDeparture(fp, w)
    else PsFinishTime(fp, w, k - 1) + PsStep(fp, w, k - 1)
  }

  /** Step i of the FSP loop: job i served alone at rate f(n - i + 1). */
  function FspStep(fp: FrequencyPolicy, w: seq<real>, i: nat): (r: real)
    requires fp.Valid() && i < |w|
    ensures 0.0 <= w[i] ==> 0.0 <= r <= w[i]
  {
    var rate := Rate(fp, |w| - i + 1) as real;
    assert 0.0 <= w[i] ==> 0.0 <= w[i] / rate <= w[i] by {
      if 0.0 <= w[i] {
        QuotientAtMost(w[i], rate);
      }
    }
    w[i] / rate
  }

  /** Dividing a non-negative amount by a rate of at least 1 never increases it. */
  lemma QuotientAtMost(x: real, rate: real)
    requires 0.0 <= x && 1.0 <= rate
    ensures 0.0 <= x / rate <= x
  {
    assert x / rate * rate == x;
    assert x / rate <= x / rate * rate;
  }

  /** fsp_scheduling::compute_finish_time: the steps i = 0 .. k - 1. */
  function FspFinishTime(fp: FrequencyPolicy, w: seq<real>, k: nat): (r: real)
    requires fp.Valid() && k <= |w|
    ensures NonNegative(w) ==> 0.0 <= r <= Sum(w[..k])
  {
    if k == 0 then 0.0
    else
      SumOfPrefix(w, k);
      FspFinishTime(fp, w, k - 1) + FspStep(fp, w, k - 1)
  }

  /** compute_finish_time of either discipline. */
  function FinishTime(d: Discipline, fp: FrequencyPolicy, w: seq<real>, k: nat): (r: real)
    requires fp.Valid() && Queryable(d, w) && k <= |w|
    ensures WellFormed(w) ==> 0.0 <= r
  {
    match d
    case PS => PsFinishTime(fp, w, k)
    case FSP => FspFinishTime(fp, w, k)
  }

  /** The finish times of departures 0 .. k, as the turbocharging loops query them. */
  function FinishProfile(d: Discipline, fp: FrequencyPolicy, w: seq<real>, k: nat): (p: seq<real>)
    requires fp.Valid() && Queryable(d, w) && k <= |w|
    ensures |p| == k + 1
    ensures forall i :: 0 <= i <= k ==> p[i] == FinishTime(d, fp, w, i)
  {
    if k == 0 then [FinishTime(d, fp, w, 0)]
    else FinishProfile(d, fp, w, k - 1) + [FinishTime(d, fp, w, k)]
  }

  lemma FspStartsAtZero(fp: FrequencyPolicy, w: seq<real>)
    requires fp.Valid()
    ensures FspFinishTime(fp, w, 0) == 0.0
  {
  }

  /** With non-negative work sizes FSP departures never move earlier as k grows. */
  lemma {:induction false} FspMonotone(fp: FrequencyPolicy, w: seq<real>, j: nat, k: nat)
    requires fp.Valid() && NonNegative(w) && j <= k <= |w|
    ensures FspFinishTime(fp, w, j) <= FspFinishTime(fp, w, k)
  {
    if j < k {
      FspMonotone(fp, w, j, k - 1);
    }
  }

  /** Under constant frequency FSP's k-th departure is exactly the work of the k smallest jobs. */
  lemma {:induction false} FspConstantIsPrefixWork(w: seq<real>, k: nat)
    requires k <= |w|
    ensures FspFinishTime(Constant, w, k) == Sum(w[..k])
  {
    if k > 0 {
      FspConstantIsPrefixWork(w, k - 1);
      SumOfPrefix(w, k);
    }
  }

  /** PS answers k = 0 and k = 1 alike: both are the first departure w[0] * n / f(n). */
  lemma PsFirstTwoCoincide(fp: FrequencyPolicy, w: seq<real>)
    requires fp.Valid() && 1 <= |w|
    ensures PsFinishTime(fp, w, 0) == PsFinishTime(fp, w, 1)
    ensures PsFinishTime(fp, w, 1) == w[0] * (|w| as real) / (Rate(fp, |w|) as real)
  {
  }

  /** On an ascending batch every PS step is non-negative, so departures never move earlier. */
  lemma {:induction false} PsMonotone(fp: FrequencyPolicy, w: seq<real>, j: nat, k: nat)
    requires fp.Valid() && 1 <= |w| && NonDecreasing(w) && j <= k <= |w|
    ensures PsFinishTime(fp, w, j) <= PsFinishTime(fp, w, k)
  {
    if j < k && 1 < k {
      PsMonotone(fp, w, j, k - 1);
      assert 0.0 <= PsStep(fp, w, k - 1);
    }
  }

  /** On a well-formed batch the finish times of either discipline are non-decreasing in k. */
  lemma FinishTimeMonotone(d: Discipline, fp: FrequencyPolicy, w: seq<real>, j: nat, k: nat)
    requires fp.Valid() && Queryable(d, w) && WellFormed(w) && j <= k <= |w|
    ensures FinishTime(d, fp, w, j) <= FinishTime(d, fp, w, k)
  {
    match d
    case PS => PsMonotone(fp, w, j, k);
    case FSP => FspMonotone(fp, w, j, k);
  }

  /** An FSP departure at time 0 means every job before it had no work. */
  lemma {:induction false} FspZeroPrefix(fp: FrequencyPolicy, w: seq<real>, k: nat)
    requires fp.Valid() && NonNegative(w) && k <= |w| && FspFinishTime(fp, w, k) == 0.0
    ensures forall i :: 0 <= i < k ==> w[i] == 0.0
  {
    if k > 0 {
      var rate := Rate(fp, |w| - (k - 1) + 1) as real;
      assert FspStep(fp, w, k - 1) == 0.0;
      FspZeroPrefix(fp, w, k - 1);
      assert w[k - 1] / rate * rate == w[k - 1];
    }
  }

  /** With no work in the first k jobs PS's k-th departure is at time 0. */
  lemma {:induction false} PsZeroPrefix(fp: FrequencyPolicy, w: seq<real>, k: nat)
    requires fp.Valid() && 1 <= |w| && k <= |w| && w[0] == 0.0
    requires forall i :: 0 <= i < k ==> w[i] == 0.0
    ensures PsFinishTime(fp, w, k) == 0.0
  {
    if k > 1 {
      PsZeroPrefix(fp, w, k - 1);
      assert w[k - 1] - w[k - 2] == 0.0;
    }
  }

  /** On a well-formed batch a PS departure at time 0 means every job before it had no work. */
  lemma {:induction false} PsZeroForcesEmptyPrefix(fp: FrequencyPolicy, w: seq<real>, k: nat)
    requires fp.Valid() && 1 <= |w| && k <= |w| && WellFormed(w) && PsFinishTime(fp, w, k) == 0.0
    ensures w[0] == 0.0
    ensures forall i :: 0 <= i < k ==> w[i] == 0.0
  {
    var n := |w| as real;
    var f := Rate(fp, |w|) as real;
    assert 0.0 <= w[0] * n;
    assert 0.0 <= PsFirstDeparture(fp, w);
    if k <= 1 {
      assert w[0] * n / f * f == w[0] * n;
    } else {
      assert PsStep(fp, w, k - 1) == 0.0;
      PsZeroForcesEmptyPrefix(fp, w, k - 1);
      var jobs := |w| - (k - 1) + 1;
      var g := Rate(fp, jobs) as real;
      var num := (w[k - 1] - w[k - 2]) * (jobs as real);
      assert num / g * g == num;
    }
  }

  /** With no work in the first k jobs FSP's k-th departure is at time 0. */
  lemma {:induction false} FspEmptyPrefixIsZero(fp: FrequencyPolicy, w: seq<real>, k: nat)
    requires fp.Valid() && k <= |w|
    requires forall i :: 0 <= i < k ==> w[i] == 0.0
    ensures FspFinishTime(fp, w, k) == 0.0
  {
    if k > 0 {
      FspEmptyPrefixIsZero(fp, w, k - 1);
    }
  }
}
