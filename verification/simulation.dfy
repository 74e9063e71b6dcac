/**
 * simulator<scheduling, frequency, turbocharging, power>: composes one
 * policy of each family and derives, from one batch of work sizes, the
 * turbo rate, the raw departure vector, the energy consumed, the mean
 * response time and the reported per-job finish times that `simulate`
 * prints.
 */
module Simulation {
  import opened Batch
  import opened Frequency
  import opened Power
  import opened Scheduling
  import opened Turbocharging

  datatype Option<T> = None | Some(value: T)

  /** One instantiation of the simulator template. */
  datatype Simulator = Simulator(
    scheduling: Discipline,
    frequency: FrequencyPolicy,
    turbocharging: TurboPolicy,
    power: PowerPolicy)
  {
    /** What `simulate` needs of the batch and the policies. */
    predicate Admits(w: seq<real>)
    {
      frequency.Valid() && Admissible(turbocharging, scheduling, frequency, w)
    }
  }

  /** The simulator template's default arguments: no turbocharging and power rate^2. */
  function WithDefaults(scheduling: Discipline, frequency: FrequencyPolicy): (sim: Simulator)
    ensures forall w :: sim.Admits(w) <==> frequency.Valid()
  {
    Simulator(scheduling, frequency, Off, Regular(2))
  }

  /** What one `simulate` call reports; a missing mean is the NaN of 0 / 0 for an empty batch. */
  datatype SimulationResult = SimulationResult(
    turboRate: real,
    energy: real,
    meanResponseTime: Option<real>,
    reportedTimes: seq<real>)

  /** get_departure_times after filling entries 1 .. k of a zero vector of length k + 1. */
  function DepartureTimesUpTo(sim: Simulator, w: seq<real>, k: nat): (d: seq<real>)
    requires sim.frequency.Valid() && k <= |w|
    ensures |d| == k + 1 && d[0] == 0.0
    ensures forall i :: 1 <= i <= k ==> d[i] == FinishTime(sim.scheduling, sim.frequency, w, i)
  {
    if k == 0 then [0.0]
    else DepartureTimesUpTo(sim, w, k - 1) + [FinishTime(sim.scheduling, sim.frequency, w, k)]
  }

  /** get_departure_times: entry 0 is 0 and entry i is the i-th raw finish time. */
  function DepartureTimes(sim: Simulator, w: seq<real>): (d: seq<real>)
    requires sim.frequency.Valid()
    ensures |d| == |w| + 1 && d[0] == 0.0
    ensures forall i :: 1 <= i <= |w| ==> d[i] == FinishTime(sim.scheduling, sim.frequency, w, i)
  {
    DepartureTimesUpTo(sim, w, |w|)
  }

  /** The power drawn while `left` jobs remain and the rate is sped up by turbo. */
  function HeldPower(sim: Simulator, turbo: real, left: nat): (c: real)
    requires sim.frequency.Valid()
    ensures 0.0 <= turbo ==> 0.0 <= c
  {
    Cost(sim.power, turbo * (Rate(sim.frequency, left) as real))
  }

  /** Iteration i of the energy loop: the interval d[i-1] .. d[i] held with |d| - i jobs left. */
  function EnergyStep(sim: Simulator, d: seq<real>, turbo: real, i: nat): real
    requires sim.frequency.Valid() && 1 <= i < |d|
  {
    (d[i] - d[i - 1]) * HeldPower(sim, turbo, |d| - i)
  }

  lemma EnergyUpToStep(sim: Simulator, d: seq<real>, turbo: real, k: nat)
    requires sim.frequency.Valid() && 2 <= k <= |d|
    ensures EnergyUpTo(sim, d, turbo, k) == EnergyUpTo(sim, d, turbo, k - 1) + EnergyStep(sim, d, turbo, k - 1)
  {
  }

  /** compute_energy_consumed after its iterations i = 1 .. k - 1. */
  function EnergyUpTo(sim: Simulator, d: seq<real>, turbo: real, k: nat): (e: real)
    requires sim.frequency.Valid() && k <= |d|
    ensures NonDecreasing(d) && 0.0 <= turbo ==> 0.0 <= e
  {
    if k <= 1 then 0.0
    else
      var step := EnergyStep(sim, d, turbo, k - 1);
      assert NonDecreasing(d) && 0.0 <= turbo ==> 0.0 <= step by {
        if NonDecreasing(d) && 0.0 <= turbo {
          assert 0.0 <= HeldPower(sim, turbo, |d| - (k - 1));
          assert 0.0 <= d[k - 1] - d[k - 2];
        }
      }
      EnergyUpTo(sim, d, turbo, k - 1) + step
  }

  /** compute_energy_consumed: power integrated over the raw time each rate is held. */
  function EnergyConsumed(sim: Simulator, d: seq<real>, turbo: real): (e: real)
    requires sim.frequency.Valid()
    ensures NonDecreasing(d) && 0.0 <= turbo ==> 0.0 <= e
  {
    EnergyUpTo(sim, d, turbo, |d|)
  }

  /** m is the mean of the values once each is divided by turbo. */
  predicate ScaledMean(m: real, turbo: real, values: seq<real>)
  {
    m * turbo * (|values| as real) == Sum(values)
  }

  /** x is the time t divided by the speed-up turbo: sped back up it gives t. */
  predicate SlowedFrom(x: real, turbo: real, t: real)
  {
    x * turbo == t
  }

  /** mean_response_time: the sum of the values over turbo * count; none for no values. */
  function MeanResponseTime(values: seq<real>, turbo: real): (m: Option<real>)
    requires turbo != 0.0
    ensures m.Some? <==> 0 < |values|
    ensures m.Some? ==> ScaledMean(m.value, turbo, values)
  {
    if |values| == 0 then None else Some(Sum(values) / (turbo * (|values| as real)))
  }

  /** Times t slowed back down by a speed-up factor turbo. */
  function SlowedBy(t: seq<real>, turbo: real): (r: seq<real>)
    requires turbo != 0.0
    ensures |r| == |t|
    ensures forall i :: 0 <= i < |t| ==> SlowedFrom(r[i], turbo, t[i])
  {
    if |t| == 0 then []
    else
      QuotientScalesBack(t[|t| - 1], turbo);
      SlowedBy(t[..|t| - 1], turbo) + [t[|t| - 1] / turbo]
  }

  /** The finish times `simulate` prints, compute_finish_time(i) / turbo for i in [1, n]. */
  function ReportedDepartures(sim: Simulator, w: seq<real>, turbo: real): (r: seq<real>)
    requires sim.frequency.Valid() && turbo != 0.0
    ensures |r| == |w|
    ensures forall i :: 0 <= i < |w| ==> SlowedFrom(r[i], turbo, FinishTime(sim.scheduling, sim.frequency, w, i + 1))
  {
    SlowedBy(DepartureTimes(sim, w)[1..], turbo)
  }

  lemma QuotientScalesBack(x: real, t: real)
    requires t != 0.0
    ensures x / t * t == x
  {
  }

  /** What `simulate` computes and prints once the turbo rate is known; the mean is taken over the work sizes, as the code passes them. */
  function Report(sim: Simulator, w: seq<real>, turbo: real): (r: SimulationResult)
    requires sim.frequency.Valid() && 1.0 <= turbo
    ensures r.turboRate == turbo
    ensures |r.reportedTimes| == |w|
    ensures forall i :: 0 <= i < |w| ==>
      SlowedFrom(r.reportedTimes[i], turbo, FinishTime(sim.scheduling, sim.frequency, w, i + 1))
    ensures r.meanResponseTime.Some? <==> 0 < |w|
    ensures r.meanResponseTime.Some? ==>
      ScaledMean(r.meanResponseTime.value, turbo, w)
  {
    SimulationResult(
      turbo,
      EnergyConsumed(sim, DepartureTimes(sim, w), turbo),
      MeanResponseTime(w, turbo),
      ReportedDepartures(sim, w, turbo))
  }

  /** simulate: the turbo rate of the turbocharging policy, then the report at that rate. */
  function Simulate(sim: Simulator, w: seq<real>): (r: SimulationResult)
    requires sim.Admits(w)
    ensures 1.0 <= r.turboRate
    ensures sim.turbocharging.Off? ==> r.turboRate == 1.0
    ensures |r.reportedTimes| == |w|
    ensures forall i :: 0 <= i < |w| ==>
      SlowedFrom(r.reportedTimes[i], r.turboRate, FinishTime(sim.scheduling, sim.frequency, w, i + 1))
    ensures r.meanResponseTime.Some? <==> 0 < |w|
    ensures r.meanResponseTime.Some? ==>
      ScaledMean(r.meanResponseTime.value, r.turboRate, w)
  {
    Report(sim, w, TurboRate(sim.turbocharging, sim.scheduling, sim.frequency, w))
  }

  /** On a well-formed batch the departure vector is non-decreasing. */
  lemma DeparturesNonDecreasing(sim: Simulator, w: seq<real>)
    requires sim.frequency.Valid() && WellFormed(w)
    ensures NonDecreasing(DepartureTimes(sim, w))
  {
    var d := DepartureTimes(sim, w);
    forall i, j | 0 <= i <= j < |d|
      ensures d[i] <= d[j]
    {
      if 1 <= i {
        FinishTimeMonotone(sim.scheduling, sim.frequency, w, i, j);
      } else if 1 <= j {
        assert 0.0 <= FinishTime(sim.scheduling, sim.frequency, w, j);
      }
    }
  }

  /** On a well-formed batch the simulated energy is never negative. */
  lemma SimulatedEnergyNonNegative(sim: Simulator, w: seq<real>)
    requires sim.Admits(w) && WellFormed(w)
    ensures 0.0 <= Simulate(sim, w).energy
  {
    DeparturesNonDecreasing(sim, w);
  }

  /** Changing rates on counts outside [1, |d| - 1] leaves the energy alone: it only queries f(left) for 1 <= left <= n. */
  lemma {:induction false} EnergyQueriesOnlyRemainingCounts(sim: Simulator, fp: FrequencyPolicy, d: seq<real>, turbo: real, k: nat)
    requires sim.frequency.Valid() && fp.Valid() && k <= |d|
    requires forall j :: 1 <= j < |d| ==> Rate(sim.frequency, j) == Rate(fp, j)
    ensures EnergyUpTo(sim, d, turbo, k) == EnergyUpTo(sim.(frequency := fp), d, turbo, k)
  {
    hide EnergyStep;
    if k > 1 {
      EnergyQueriesOnlyRemainingCounts(sim, fp, d, turbo, k - 1);
      EnergyStepAgrees(sim, fp, d, turbo, k - 1);
      var a, b := EnergyUpTo(sim, d, turbo, k - 1), EnergyUpTo(sim.(frequency := fp), d, turbo, k - 1);
      assert EnergyUpTo(sim, d, turbo, k) == a + EnergyStep(sim, d, turbo, k - 1);
      assert EnergyUpTo(sim.(frequency := fp), d, turbo, k) == b + EnergyStep(sim.(frequency := fp), d, turbo, k - 1);
    }
  }

  lemma EnergyStepAgrees(sim: Simulator, fp: FrequencyPolicy, d: seq<real>, turbo: real, i: nat)
    requires sim.frequency.Valid() && fp.Valid() && 1 <= i < |d|
    requires Rate(sim.frequency, |d| - i) == Rate(fp, |d| - i)
    ensures EnergyStep(sim, d, turbo, i) == EnergyStep(sim.(frequency := fp), d, turbo, i)
  {
    hide HeldPower;
    HeldPowerAgrees(sim, fp, turbo, |d| - i);
  }

  lemma HeldPowerAgrees(sim: Simulator, fp: FrequencyPolicy, turbo: real, left: nat)
    requires sim.frequency.Valid() && fp.Valid() && Rate(sim.frequency, left) == Rate(fp, left)
    ensures HeldPower(sim, turbo, left) == HeldPower(sim.(frequency := fp), turbo, left)
  {
    hide Cost, Rate;
  }

  /** Under constant frequency the energy telescopes to power(turbo) times the elapsed raw time. */
  lemma {:induction false} EnergyTelescopes(sim: Simulator, d: seq<real>, turbo: real, k: nat)
    requires sim.frequency == Constant && 1 <= k <= |d|
    ensures EnergyUpTo(sim, d, turbo, k) == Cost(sim.power, turbo) * (d[k - 1] - d[0])
  {
    if k > 1 {
      hide Cost;
      EnergyTelescopes(sim, d, turbo, k - 1);
      var c := Cost(sim.power, turbo);
      assert Rate(sim.frequency, |d| - (k - 1)) == 1;
      assert turbo * (1 as real) == turbo;
      assert HeldPower(sim, turbo, |d| - (k - 1)) == c;
      TelescopeStep(c, d[0], d[k - 2], d[k - 1]);
    }
  }

  lemma TelescopeStep(c: real, a: real, b: real, x: real)
    ensures c * (b - a) + (x - b) * c == c * (x - a)
  {
  }

  /** Under constant frequency the simulated energy is power(turbo) times the last raw departure. */
  lemma SimulatedEnergyUnderConstant(sim: Simulator, w: seq<real>)
    requires sim.Admits(w) && sim.frequency == Constant
    ensures var r := Simulate(sim, w);
      r.energy == Cost(sim.power, r.turboRate) * DepartureTimes(sim, w)[|w|]
  {
    hide Admissible, FinishTime, TurboRate, ReportedDepartures;
    var d := DepartureTimes(sim, w);
    EnergyTelescopes(sim, d, TurboRate(sim.turbocharging, sim.scheduling, sim.frequency, w), |d|);
  }

  /**
   * The default instantiation at constant frequency: no boost, every printed
   * finish time is the raw one, and at rate 1 the power rate^2 is 1, so the
   * energy is the last departure time.
   */
  lemma DefaultsAtConstantRate(d: Discipline, w: seq<real>)
    ensures var sim := WithDefaults(d, Constant);
      var r := Simulate(sim, w);
      && r.turboRate == 1.0
      && (forall i :: 0 <= i < |w| ==> r.reportedTimes[i] == FinishTime(d, Constant, w, i + 1))
      && r.energy == DepartureTimes(sim, w)[|w|]
  {
    var sim := WithDefaults(d, Constant);
    SimulatedEnergyUnderConstant(sim, w);
    PowRealOfOne(2);
  }

  /** Under strong turbocharging every reported finish time is no later than the original discipline's raw one. */
  lemma StrongSimulationMeetsReference(sim: Simulator, w: seq<real>, i: nat)
    requires sim.Admits(w) && sim.turbocharging.Strong? && WellFormed(w) && i < |w|
    ensures Simulate(sim, w).reportedTimes[i]
      <= FinishTime(sim.turbocharging.original, sim.frequency, w, i + 1)
  {
    hide Admissible, FinishTime, DepartureTimes, EnergyConsumed;
    var o, t, fp := sim.turbocharging.original, sim.scheduling, sim.frequency;
    var r := TurboRate(sim.turbocharging, t, fp, w);
    StrongDominates(o, t, fp, w, i + 1);
    DividedBound(FinishTime(t, fp, w, i + 1), FinishTime(o, fp, w, i + 1), r);
  }

  /** Under naive turbocharging the last reported finish time is no later than the original discipline's. */
  lemma NaiveSimulationMeetsReferenceAtEnd(sim: Simulator, w: seq<real>)
    requires sim.Admits(w) && sim.turbocharging.Naive? && WellFormed(w) && 0 < |w|
    ensures Simulate(sim, w).reportedTimes[|w| - 1]
      <= FinishTime(sim.turbocharging.original, sim.frequency, w, |w|)
  {
    hide Admissible, FinishTime, DepartureTimes, EnergyConsumed;
    var o, t, fp := sim.turbocharging.original, sim.scheduling, sim.frequency;
    var r := TurboRate(sim.turbocharging, t, fp, w);
    NaiveDominatesLastDeparture(o, t, fp, w);
    DividedBound(FinishTime(t, fp, w, |w|), FinishTime(o, fp, w, |w|), r);
  }

  lemma DividedBound(a: real, b: real, r: real)
    requires 1.0 <= r && a <= r * b
    ensures a / r <= b
  {
    assert a / r <= r * b / r;
  }
}
