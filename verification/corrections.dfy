/**
 * Finish-time and mean-response formulas that agree with the simulator's
 * own energy accounting, beside the ones it computes.
 *
 * Between departures i - 1 and i the energy loop charges the rate
 * f(n - i + 1), the rate of the n - i + 1 jobs still present. A finish-time
 * formula agrees with that accounting when the work served over the whole
 * run, metered by the same loop at power rate^1 and no speed-up, is the
 * total work of the batch. The corrected PS step scales by n - i jobs at
 * f(n - i), and the corrected FSP step serves job i at f(n - i); both
 * conserve work for every frequency law. The code's versions do not.
 */
module Corrections {
  import opened Batch
  import opened Frequency
  import opened Power
  import opened Scheduling
  import opened Turbocharging
  import opened Simulation

  /** PS step i with the n - i jobs that remain after departure i. */
  function PsStepIntended(fp: FrequencyPolicy, w: seq<real>, i: nat): (r: real)
    requires fp.Valid() && 1 <= i < |w|
    ensures w[i - 1] <= w[i] ==> 0.0 <= r
  {
    var jobs := |w| - i;
    var num := (w[i] - w[i - 1]) * (jobs as real);
    assert w[i - 1] <= w[i] ==> 0.0 <= num;
    num / (Rate(fp, jobs) as real)
  }

  /** PS finish time with the corrected step. */
  function PsFinishTimeIntended(fp: FrequencyPolicy, w: seq<real>, k: nat): (r: real)
    requires fp.Valid() && 1 <= |w| && k <= |w|
    ensures NonDecreasing(w) ==> PsFirstDeparture(fp, w) <= r
  {
    if k <= 1 then PsFirstDeparture(fp, w)
    else PsFinishTimeIntended(fp, w, k - 1) + PsStepIntended(fp, w, k - 1)
  }

  /** FSP step i: job i served alone while n - i jobs are present. */
  function FspStepIntended(fp: FrequencyPolicy, w: seq<real>, i: nat): (r: real)
    requires fp.Valid() && i < |w|
    ensures SlowedFrom(r, Rate(fp, |w| - i) as real, w[i])
    ensures 0.0 <= w[i] ==> 0.0 <= r <= w[i]
  {
    QuotientScalesBack(w[i], Rate(fp, |w| - i) as real);
    assert 0.0 <= w[i] ==> 0.0 <= w[i] / (Rate(fp, |w| - i) as real) <= w[i] by {
      if 0.0 <= w[i] {
        QuotientAtMost(w[i], Rate(fp, |w| - i) as real);
      }
    }
    w[i] / (Rate(fp, |w| - i) as real)
  }

  /** FSP finish time with the corrected rate. */
  function FspFinishTimeIntended(fp: FrequencyPolicy, w: seq<real>, k: nat): (r: real)
    requires fp.Valid() && k <= |w|
    ensures NonNegative(w) ==> 0.0 <= r <= Sum(w[..k])
    ensures NonNegative(w) && 0 < k ==> FspFinishTimeIntended(fp, w, k - 1) <= r
  {
    if k == 0 then 0.0
    else
      SumOfPrefix(w, k);
      FspFinishTimeIntended(fp, w, k - 1) + FspStepIntended(fp, w, k - 1)
  }

  function FinishTimeIntended(d: Discipline, fp: FrequencyPolicy, w: seq<real>, k: nat): real
    requires fp.Valid() && Queryable(d, w) && k <= |w|
  {
    match d
    case PS => PsFinishTimeIntended(fp, w, k)
    case FSP => FspFinishTimeIntended(fp, w, k)
  }

  /** The departure vector built from the corrected finish times, entries 0 .. k. */
  function DepartureTimesIntended(d: Discipline, fp: FrequencyPolicy, w: seq<real>, k: nat): (t: seq<real>)
    requires fp.Valid() && Queryable(d, w) && k <= |w|
    ensures |t| == k + 1 && t[0] == 0.0
    ensures forall i :: 1 <= i <= k ==> t[i] == FinishTimeIntended(d, fp, w, i)
  {
    if k == 0 then [0.0] else DepartureTimesIntended(d, fp, w, k - 1) + [FinishTimeIntended(d, fp, w, k)]
  }

  /** The energy loop used as a work meter: power rate^1 and no speed-up. */
  function Meter(fp: FrequencyPolicy): Simulator
  {
    Simulator(PS, fp, Off, Regular(1))
  }

  /** Work served over departures 0 .. k - 1 of a departure vector d. */
  function WorkServed(fp: FrequencyPolicy, d: seq<real>, k: nat): real
    requires fp.Valid() && k <= |d|
  {
    EnergyUpTo(Meter(fp), d, 1.0, k)
  }

  /** Metered at rate^1 and no speed-up, holding `left` jobs draws exactly their rate. */
  lemma MeterDrawsRate(fp: FrequencyPolicy, left: nat)
    requires fp.Valid()
    ensures HeldPower(Meter(fp), 1.0, left) == Rate(fp, left) as real
  {
    var x := 1.0 * (Rate(fp, left) as real);
    assert x == Rate(fp, left) as real;
    CostOfLinearPower(x);
  }

  lemma WorkServedStart(fp: FrequencyPolicy, d: seq<real>)
    requires fp.Valid() && 1 <= |d|
    ensures WorkServed(fp, d, 1) == 0.0
  {
  }

  /** One step of the work meter: the interval's length times the rate held over it. */
  lemma WorkServedStep(fp: FrequencyPolicy, d: seq<real>, k: nat)
    requires fp.Valid() && 2 <= k <= |d|
    ensures WorkServed(fp, d, k)
      == WorkServed(fp, d, k - 1) + (d[k - 1] - d[k - 2]) * (Rate(fp, |d| - (k - 1)) as real)
  {
    hide HeldPower, Rate, NonDecreasing, EnergyUpTo;
    var m := Meter(fp);
    var left := |d| - (k - 1);
    MeterDrawsRate(fp, left);
    EnergyUpToStep(m, d, 1.0, k);
    assert EnergyStep(m, d, 1.0, k - 1) == (d[k - 1] - d[k - 2]) * HeldPower(m, 1.0, left);
  }

  /** The corrected FSP serves exactly the work of the jobs that have departed. */
  lemma {:induction false} FspIntendedConservesWork(fp: FrequencyPolicy, w: seq<real>, k: nat)
    requires fp.Valid() && k <= |w|
    ensures WorkServed(fp, DepartureTimesIntended(FSP, fp, w, |w|), k + 1) == Sum(w[..k])
  {
    hide WorkServed, DepartureTimesIntended, FspStepIntended, FspFinishTimeIntended, Rate;
    WorkServedStart(fp, DepartureTimesIntended(FSP, fp, w, |w|));
    var d := DepartureTimesIntended(FSP, fp, w, |w|);
    if k > 0 {
      FspIntendedConservesWork(fp, w, k - 1);
      WorkServedStep(fp, d, k + 1);
      SumOfPrefix(w, k);
      var rate := Rate(fp, |w| - (k - 1)) as real;
      FspIntendedGap(fp, w, k);
      assert d[k] == FspFinishTimeIntended(fp, w, k);
      assert d[k - 1] == FspFinishTimeIntended(fp, w, k - 1);
      assert |d| - k == |w| - (k - 1);
      SlowedTimesRate(FspStepIntended(fp, w, k - 1), rate, w[k - 1], d[k] - d[k - 1]);
    }
  }

  lemma FspIntendedGap(fp: FrequencyPolicy, w: seq<real>, k: nat)
    requires fp.Valid() && 1 <= k <= |w|
    ensures FspFinishTimeIntended(fp, w, k) - FspFinishTimeIntended(fp, w, k - 1) == FspStepIntended(fp, w, k - 1)
    ensures FspFinishTimeIntended(fp, w, 0) == 0.0
  {
  }

  lemma SlowedTimesRate(x: real, rate: real, work: real, gap: real)
    requires SlowedFrom(x, rate, work) && gap == x
    ensures gap * rate == work
  {
  }

  /** The PS step's served work: the marginal work absorbed by each job present. */
  lemma PsStepIntendedServes(fp: FrequencyPolicy, w: seq<real>, i: nat)
    requires fp.Valid() && 1 <= i < |w|
    ensures PsStepIntended(fp, w, i) * (Rate(fp, |w| - i) as real) == (w[i] - w[i - 1]) * ((|w| - i) as real)
  {
    QuotientScalesBack((w[i] - w[i - 1]) * ((|w| - i) as real), Rate(fp, |w| - i) as real);
  }

  lemma PsFirstDepartureServes(fp: FrequencyPolicy, w: seq<real>)
    requires fp.Valid() && 1 <= |w|
    ensures PsFirstDeparture(fp, w) * (Rate(fp, |w|) as real) == w[0] * (|w| as real)
  {
    QuotientScalesBack(w[0] * (|w| as real), Rate(fp, |w|) as real);
  }

  /** The work served at the k-th corrected PS departure: k - 1 jobs done, the n - k + 1 others at w[k-1] each. */
  predicate PsServedAt(fp: FrequencyPolicy, w: seq<real>, k: nat)
    requires fp.Valid() && 1 <= k <= |w|
  {
    WorkServed(fp, DepartureTimesIntended(PS, fp, w, |w|), k + 1)
      == Sum(w[..k - 1]) + ((|w| - k + 1) as real) * w[k - 1]
  }

  /**
   * At the k-th corrected PS departure the first k - 1 jobs are done and
   * each of the n - k + 1 others has received w[k-1].
   */
  lemma {:induction false} PsIntendedServedWork(fp: FrequencyPolicy, w: seq<real>, k: nat)
    requires fp.Valid() && 1 <= k <= |w|
    ensures PsServedAt(fp, w, k)
  {
    if k == 1 {
      PsServedAtFirst(fp, w);
    } else {
      PsIntendedServedWork(fp, w, k - 1);
      PsServedAtNext(fp, w, k);
    }
  }

  lemma PsServedAtFirst(fp: FrequencyPolicy, w: seq<real>)
    requires fp.Valid() && 1 <= |w|
    ensures PsServedAt(fp, w, 1)
  {
    hide WorkServed, DepartureTimesIntended, PsStepIntended, PsFirstDeparture, Rate;
    var d := DepartureTimesIntended(PS, fp, w, |w|);
    WorkServedStep(fp, d, 2);
    assert |d| - 1 == |w|;
    assert w[..0] == [];
    PsFirstDepartureServes(fp, w);
    WorkServedStart(fp, d);
    assert d[1] - d[0] == PsFirstDeparture(fp, w);
    PsServedWorkStep(
      WorkServed(fp, d, 1), d[1] - d[0], PsFirstDeparture(fp, w), Rate(fp, |w|) as real,
      0.0, 0.0, w[0], |w| as real, WorkServed(fp, d, 2), Sum(w[..0]));
  }

  lemma PsServedAtNext(fp: FrequencyPolicy, w: seq<real>, k: nat)
    requires fp.Valid() && 2 <= k <= |w| && PsServedAt(fp, w, k - 1)
    ensures PsServedAt(fp, w, k)
  {
    hide WorkServed, DepartureTimesIntended, PsStepIntended, PsFirstDeparture, PsFinishTimeIntended, Rate, Sum;
    var d := DepartureTimesIntended(PS, fp, w, |w|);
    var rate := Rate(fp, |w| - k + 1) as real;
    var m := (|w| - k + 1) as real;
    WorkServedStep(fp, d, k + 1);
    assert |d| - k == |w| - k + 1;
    SumOfPrefix(w, k - 1);
    PsStepIntendedServes(fp, w, k - 1);
    PsIntendedGap(fp, w, k);
    assert (|w| - (k - 1) + 1) as real == m + 1.0;
    PsServedWorkStep(
      WorkServed(fp, d, k), d[k] - d[k - 1], PsStepIntended(fp, w, k - 1), rate,
      Sum(w[..k - 2]), w[k - 2], w[k - 1], m, WorkServed(fp, d, k + 1), Sum(w[..k - 1]));
  }

  /** Between corrected PS departures k - 1 and k lies exactly the corrected step. */
  lemma PsIntendedGap(fp: FrequencyPolicy, w: seq<real>, k: nat)
    requires fp.Valid() && 2 <= k <= |w|
    ensures var d := DepartureTimesIntended(PS, fp, w, |w|);
      d[k] - d[k - 1] == PsStepIntended(fp, w, k - 1)
  {
    hide PsStepIntended;
    var d := DepartureTimesIntended(PS, fp, w, |w|);
    assert d[k] == PsFinishTimeIntended(fp, w, k);
    assert d[k - 1] == PsFinishTimeIntended(fp, w, k - 1);
  }

  /** The algebra of one corrected PS step, on plain reals. */
  lemma PsServedWorkStep(
    before: real, gap: real, step: real, rate: real,
    s: real, a: real, b: real, m: real, after: real, s2: real)
    requires before == s + (m + 1.0) * a
    requires gap == step && step * rate == (b - a) * m
    requires after == before + gap * rate && s2 == s + a
    ensures after == s2 + m * b
  {
    PsServedWorkAlgebra(s, a, b, m);
  }

  lemma PsServedWorkAlgebra(s: real, a: real, b: real, m: real)
    ensures s + (m + 1.0) * a + (b - a) * m == (s + a) + m * b
  {
  }

  /** Over the whole run the corrected PS serves exactly the batch's total work. */
  lemma PsIntendedConservesWork(fp: FrequencyPolicy, w: seq<real>)
    requires fp.Valid() && 1 <= |w|
    ensures WorkServed(fp, DepartureTimesIntended(PS, fp, w, |w|), |w| + 1) == Sum(w)
  {
    PsIntendedServedWork(fp, w, |w|);
    SumOfPrefix(w, |w|);
    assert w[..|w|] == w;
  }

  /** Under constant frequency the code's PS departure k overshoots by w[k-1] - w[0]. */
  lemma {:induction false} PsAsWrittenOvershoot(w: seq<real>, k: nat)
    requires 1 <= k <= |w|
    ensures PsFinishTime(Constant, w, k)
      == Sum(w[..k - 1]) + ((|w| - k + 1) as real) * w[k - 1] + (w[k - 1] - w[0])
  {
    if k > 1 {
      hide PsStep, Sum;
      PsAsWrittenOvershoot(w, k - 1);
      SumOfPrefix(w, k - 1);
      ConstantPsStep(w, k - 1);
      assert ((|w| - k + 2) as real) == ((|w| - k + 1) as real) + 1.0;
      OvershootAlgebra(Sum(w[..k - 2]), w[k - 2], w[k - 1], w[0], (|w| - k + 1) as real);
    }
  }

  lemma OvershootAlgebra(s: real, a: real, b: real, first: real, m: real)
    ensures s + (m + 1.0) * a + (a - first) + (b - a) * (m + 1.0) == (s + a) + m * b + (b - first)
  {
  }

  lemma ConstantPsStep(w: seq<real>, i: nat)
    requires 1 <= i < |w|
    ensures PsStep(Constant, w, i) == (w[i] - w[i - 1]) * ((|w| - i + 1) as real)
  {
  }

  /** Under constant frequency the code's PS makespan exceeds the total work by w[n-1] - w[0]. */
  lemma PsAsWrittenMakespan(w: seq<real>)
    requires 1 <= |w|
    ensures PsFinishTime(Constant, w, |w|) == Sum(w) + (w[|w| - 1] - w[0])
  {
    PsAsWrittenOvershoot(w, |w|);
    SumOfPrefix(w, |w|);
    assert w[..|w|] == w;
  }

  /** Four jobs 1, 2, 3, 4 at rate 1: the code ends PS at 13 with only 10 units of work. */
  lemma PsAsWrittenOverrunsWork()
    ensures PsFinishTime(Constant, [1.0, 2.0, 3.0, 4.0], 4) == 13.0
    ensures Sum([1.0, 2.0, 3.0, 4.0]) == 10.0
    ensures PsFinishTimeIntended(Constant, [1.0, 2.0, 3.0, 4.0], 4) == 10.0
  {
    var w := [1.0, 2.0, 3.0, 4.0];
    PsAsWrittenMakespan(w);
    assert w[..3] == [1.0, 2.0, 3.0] && w[..3][..2] == [1.0, 2.0] && w[..3][..2][..1] == [1.0];
    assert Sum(w) == 10.0;
    assert PsFinishTimeIntended(Constant, w, 2) == 7.0;
    assert PsFinishTimeIntended(Constant, w, 3) == 9.0;
  }

  /**
   * Under a linear law the extra job of sim.cpp:42 cancels: m jobs at rate
   * c * m absorb a marginal amount as fast as m - 1 jobs at c * (m - 1), so
   * the code's PS is the corrected one.
   */
  lemma {:induction false} PsLinearAgrees(c: int, w: seq<real>, k: nat)
    requires 1 <= c && 1 <= |w| && k <= |w|
    ensures PsFinishTime(Linear(c), w, k) == PsFinishTimeIntended(Linear(c), w, k)
  {
    if k > 1 {
      PsLinearAgrees(c, w, k - 1);
      LinearPsSteps(c, w, k - 1);
    }
  }

  /** Both PS steps under a linear law come to the marginal work over c. */
  lemma LinearPsSteps(c: int, w: seq<real>, i: nat)
    requires 1 <= c && 1 <= i < |w|
    ensures PsStep(Linear(c), w, i) == (w[i] - w[i - 1]) / (c as real)
    ensures PsStepIntended(Linear(c), w, i) == (w[i] - w[i - 1]) / (c as real)
  {
    var delta := w[i] - w[i - 1];
    LinearShareCancels(delta, |w| - i + 1, c);
    LinearShareCancels(delta, |w| - i, c);
  }

  /** m jobs sharing rate c * m each absorb a marginal amount at rate c. */
  lemma LinearShareCancels(delta: real, m: nat, c: int)
    requires 1 <= c && 1 <= m
    ensures delta * (m as real) / ((c * m) as real) == delta / (c as real)
  {
    assert ((c * m) as real) == (c as real) * (m as real);
    assert delta * (m as real) == (delta / (c as real)) * ((c * m) as real);
  }

  /** Jobs 0, 1, 1, 1 under the square-root law: the code's PS ends at 2, before the 3 units of work are served. */
  lemma PsAsWrittenFallsShort()
    ensures PsFinishTime(InvExp(2), [0.0, 1.0, 1.0, 1.0], 4) == 2.0
    ensures PsFinishTimeIntended(InvExp(2), [0.0, 1.0, 1.0, 1.0], 4) == 3.0
    ensures Sum([0.0, 1.0, 1.0, 1.0]) == 3.0
  {
    var w := [0.0, 1.0, 1.0, 1.0];
    assert FloorRoot(1, 2) == 1 && FloorRoot(2, 2) == 1 && FloorRoot(3, 2) == 1 && FloorRoot(4, 2) == 2;
    assert w[..3] == [0.0, 1.0, 1.0] && w[..3][..2] == [0.0, 1.0] && w[..3][..2][..1] == [0.0];
    assert Sum(w) == 3.0 by {
      assert w[..|w| - 1] == [0.0, 1.0, 1.0];
      assert [0.0, 1.0, 1.0][..2] == [0.0, 1.0];
      assert [0.0, 1.0][..1] == [0.0];
      assert [0.0][..0] == [];
    }
  }

  /** One job at Linear(1): alone it runs at f(1) = 1, yet the code's FSP uses f(2) and ends at 0.5. */
  lemma FspAsWrittenRunsAheadOfWork()
    ensures FspFinishTime(Linear(1), [1.0], 1) == 0.5
    ensures FspFinishTimeIntended(Linear(1), [1.0], 1) == 1.0
    ensures PsFinishTime(Linear(1), [1.0], 1) == 1.0
  {
  }

  /** A lone job finishes at the same time under both corrected disciplines. */
  lemma SingleJobDisciplinesAgree(fp: FrequencyPolicy, x: real)
    requires fp.Valid()
    ensures FspFinishTimeIntended(fp, [x], 1) == PsFinishTimeIntended(fp, [x], 1)
  {
    assert x * (1 as real) == x;
  }

  /** The mean of the reported finish times: the raw departures 1 .. n summed over turbo * n. */
  function MeanResponseTimeIntended(sim: Simulator, w: seq<real>): (m: Option<real>)
    requires sim.Admits(w)
    ensures m.Some? <==> 0 < |w|
    ensures m.Some? ==>
      ScaledMean(m.value, TurboRate(sim.turbocharging, sim.scheduling, sim.frequency, w), DepartureTimes(sim, w)[1..])
  {
    MeanResponseTime(DepartureTimes(sim, w)[1..], TurboRate(sim.turbocharging, sim.scheduling, sim.frequency, w))
  }

  /** The corrected mean is the plain average of the finish times `simulate` prints. */
  lemma MeanIntendedAveragesReported(sim: Simulator, w: seq<real>)
    requires sim.Admits(w) && 0 < |w|
    ensures MeanResponseTimeIntended(sim, w).value * (|w| as real) == Sum(Simulate(sim, w).reportedTimes)
  {
    hide FinishTime, Admissible, Report, MeanResponseTime, SlowedFrom, ScaledMean;
    var turbo := TurboRate(sim.turbocharging, sim.scheduling, sim.frequency, w);
    var r := Simulate(sim, w).reportedTimes;
    var d := DepartureTimes(sim, w)[1..];
    assert forall i :: 0 <= i < |r| ==> SlowedFrom(r[i], turbo, d[i]);
    AverageOfSlowed(r, d, turbo, MeanResponseTimeIntended(sim, w).value, |w| as real);
  }

  /** The corrected mean made total: 0 for an empty batch instead of 0 / 0. */
  function DefinedMean(sim: Simulator, w: seq<real>): (m: real)
    requires sim.Admits(w)
    ensures |w| == 0 ==> m == 0.0
    ensures 0 < |w| ==>
      ScaledMean(m, TurboRate(sim.turbocharging, sim.scheduling, sim.frequency, w), DepartureTimes(sim, w)[1..])
  {
    if |w| == 0 then 0.0 else MeanResponseTimeIntended(sim, w).value
  }

  /** On every batch, empty or not, the defined mean times n is the sum of the printed finish times. */
  lemma DefinedMeanAveragesReported(sim: Simulator, w: seq<real>)
    requires sim.Admits(w)
    ensures DefinedMean(sim, w) * (|w| as real) == Sum(Simulate(sim, w).reportedTimes)
    ensures |w| == 0 ==> DefinedMean(sim, w) == 0.0
  {
    hide FinishTime, Admissible, TurboRate, Simulate, MeanResponseTimeIntended;
    if 0 < |w| {
      MeanIntendedAveragesReported(sim, w);
    } else {
      assert |Simulate(sim, w).reportedTimes| == 0;
    }
  }

  /** For an empty batch the code's mean is the NaN of 0 / 0, the defined mean is 0. */
  lemma EmptyMeanUndefinedAsWritten(sim: Simulator)
    requires sim.Admits([])
    ensures Simulate(sim, []).meanResponseTime == None
    ensures DefinedMean(sim, []) == 0.0
  {
  }

  /** Times slowed by turbo average to the scaled mean of the originals. */
  lemma AverageOfSlowed(r: seq<real>, d: seq<real>, turbo: real, m: real, n: real)
    requires turbo != 0.0 && |r| == |d| && n == |r| as real
    requires forall i :: 0 <= i < |r| ==> SlowedFrom(r[i], turbo, d[i])
    requires ScaledMean(m, turbo, d)
    ensures m * n == Sum(r)
  {
    SumScaled(r, d, turbo);
    MeanAverages(m, turbo, n, Sum(r), Sum(d));
  }

  lemma MeanAverages(m: real, turbo: real, n: real, sumR: real, sumD: real)
    requires turbo != 0.0 && m * turbo * n == sumD && sumR * turbo == sumD
    ensures m * n == sumR
  {
    assert (m * n) * turbo == sumR * turbo;
  }

  /** Two jobs of size 1 under FSP at rate 1: the code prints mean 1, the reported finish times 1 and 2 average 1.5. */
  lemma PrintedMeanMissesDepartures()
    ensures var sim := Simulator(FSP, Constant, Off, Regular(1));
      && Simulate(sim, [1.0, 1.0]).meanResponseTime == Some(1.0)
      && MeanResponseTimeIntended(sim, [1.0, 1.0]) == Some(1.5)
  {
    var sim := Simulator(FSP, Constant, Off, Regular(1));
    var w := [1.0, 1.0];
    assert Sum(w) == 2.0 by {
      assert w[..1] == [1.0];
    }
    var d := DepartureTimes(sim, w);
    FspConstantIsPrefixWork(w, 1);
    FspConstantIsPrefixWork(w, 2);
    assert w[..1] == [1.0] && w[..2] == w;
    assert d[1..] == [1.0, 2.0];
    assert Sum([1.0, 2.0]) == 3.0 by {
      assert [1.0, 2.0][..1] == [1.0];
    }
  }
}
