/**
 * Concrete batches run through the model, in the manner of the driver's
 * test_policies calls.
 */
module Scenarios {
  import opened Batch
  import opened Frequency
  import opened Power
  import opened Scheduling
  import opened Turbocharging
  import opened Simulation

  /** The square-root law (exponent 2) truncates: three jobs run at 1, four at 2. */
  lemma InvExpTruncates()
    ensures Rate(InvExp(2), 3) == 1 && Rate(InvExp(2), 4) == 2
  {
    assert FloorRoot(1, 2) == 1;
    assert FloorRoot(2, 2) == 1;
    assert FloorRoot(3, 2) == 1;
  }

  /** Without turbocharging and at constant frequency, FSP on three equal jobs departs at 10, 20, 30 and uses 30 units of energy at rate^1. */
  lemma EqualJobsUnderFsp()
    ensures var sim := Simulator(FSP, Constant, Off, Regular(1));
      var w := [10.0, 10.0, 10.0];
      && DepartureTimes(sim, w) == [0.0, 10.0, 20.0, 30.0]
      && Simulate(sim, w).turboRate == 1.0
      && Simulate(sim, w).energy == 30.0
      && Simulate(sim, w).meanResponseTime == Some(10.0)
  {
    var sim := Simulator(FSP, Constant, Off, Regular(1));
    var w := [10.0, 10.0, 10.0];
    assert w[..1] == [10.0] && w[..2] == [10.0, 10.0] && w[..3] == w;
    FspConstantIsPrefixWork(w, 1);
    FspConstantIsPrefixWork(w, 2);
    FspConstantIsPrefixWork(w, 3);
    assert Sum(w) == 30.0;
    var d := DepartureTimes(sim, w);
    assert d == [0.0, 10.0, 20.0, 30.0];
    SimulatedEnergyUnderConstant(sim, w);
    CostOfLinearPower(1.0);
  }

  /** An empty batch, under every policy combination that admits it: nothing departs, no energy is used and the mean is the NaN of 0 / 0. */
  lemma EmptyBatch(sim: Simulator)
    requires sim.Admits([])
    ensures Simulate(sim, []).energy == 0.0
    ensures Simulate(sim, []).meanResponseTime == None
    ensures Simulate(sim, []).reportedTimes == []
  {
  }

  /**
   * Original FSP, target PS, constant frequency, jobs 0, 1, 1: FSP departs at
   * 0, 1, 2 and PS at 0, 3, 3. Naive compares the last departures and asks
   * for 1.5; strong also sees departure 2 and asks for 3.
   */
  lemma NaiveMissesIntermediate()
    ensures var w := [0.0, 1.0, 1.0];
      && Admissible(Strong(FSP), PS, Constant, w)
      && TurboRate(Naive(FSP), PS, Constant, w) == 1.5
      && TurboRate(Strong(FSP), PS, Constant, w) == 3.0
      && FinishTime(PS, Constant, w, 2) / 1.5 > FinishTime(FSP, Constant, w, 2)
  {
    var w := [0.0, 1.0, 1.0];
    assert w[..1] == [0.0] && w[..2] == [0.0, 1.0] && w[..3] == w;
    FspConstantIsPrefixWork(w, 1);
    FspConstantIsPrefixWork(w, 2);
    FspConstantIsPrefixWork(w, 3);
    var os := FinishProfile(FSP, Constant, w, 3);
    var ts := FinishProfile(PS, Constant, w, 3);
    assert os == [0.0, 0.0, 1.0, 2.0];
    assert PsFinishTime(Constant, w, 2) == 3.0;
    assert PsFinishTime(Constant, w, 3) == 3.0;
    assert ts == [0.0, 0.0, 3.0, 3.0];
    assert RatioFold(ts, os, 1) == 1.0;
    assert RatioFold(ts, os, 2) == 1.0;
    assert RatioFold(ts, os, 3) == 3.0;
  }
}
