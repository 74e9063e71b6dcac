# Turbocharged speed scaling: the policy-composition engine in Dafny

`sim.cpp` computes, for one batch of job work sizes, what a single server does
under four composed policies:
- a scheduling discipline: processor sharing (PS) or shortest job first without preemption (FSP);
- a frequency-scaling law giving the integer rate for the number of jobs present: constant, linear `c*j` or the truncated `j^(1/p)`;
- a turbocharging strategy: off, naive or strong, giving the uniform speed-up the target discipline needs to keep up with an original one;
- a power law `rate^alpha`.

From these the `simulator` derives the raw departure vector, the turbo rate,
the energy consumed, the mean response time and the finish times it prints.

The model follows the code's arithmetic over exact `real`s, as pure recursive
functions mirroring its loops. It keeps the code's quirks:
- PS answers `k = 0` and `k = 1` alike.
- PS step `i` uses `n - i + 1` jobs and `f(n - i + 1)`.
- FSP starts with `f(n + 1)`.
- `simulate` takes the mean response time over the work sizes.

Beside the as-written simulator, the `Corrections` module gives the formulas
that agree with the code's own energy accounting and with the parameter
name `departure_times`, and proves their properties (see Findings).

Modules, one per file:
- `Batch` (`batch.dfy`): sequence predicates and the left-to-right sum.
- `Frequency` (`frequency.dfy`): the rate laws.
- `Power` (`power.dfy`): the power law.
- `Scheduling` (`scheduling.dfy`): the finish times of both disciplines.
- `Turbocharging` (`turbocharging.dfy`): the three rate policies.
- `Simulation` (`simulation.dfy`): the simulator helpers and `simulate`.
- `Corrections` (`corrections.dfy`): the intended formulas.
- `Scenarios` (`scenarios.dfy`): concrete batches.

How the model represents what the code leaves to IEEE doubles:
- A zero original finish time in the turbocharging loops gives NaN (`0/0`) or `-inf`. `std::max(acc, x)` then keeps `acc`, so the model skips that term.
- The remaining case, a positive target over a zero original, would give `+inf`. `Admissible` excludes it.
- The mean of an empty batch is `0/0`, modelled as `None`.

## Model

| member | source | states |
|---|---|---|
| Frequency.Rate | sim.cpp:10-31 | every valid law gives a non-negative integer rate, and at least 1 whenever a job is present |
| Frequency.FloorRoot | sim.cpp:30 | the InvExp rate is the largest r with r^p <= j, i.e. the p-th root truncated toward zero |
| Frequency.InvExpOneIsLinearOne | sim.cpp:22-30 | the law j^(1/1) runs at the same rate as the linear law with factor 1 |
| Frequency.RateMonotone | sim.cpp:10-31 | every valid law is non-decreasing in the number of jobs present |
| Power.PowReal | sim.cpp:67-69 | rate^alpha, which `Power.Cost` (`power_regular<alpha>::power`) returns, is non-negative for non-negative rates and positive for positive ones |
| Power.PowRealOfOne | sim.cpp:67-69 | a unit rate draws unit power for every alpha |
| Power.PowRealMonotone | sim.cpp:67-69 | on non-negative rates a faster server never draws less power |
| Power.CostOfLinearPower | sim.cpp:62-69 | with alpha = 1 the power drawn equals the rate |
| Scheduling.PsStep | sim.cpp:41-43 | a PS step never moves the finish time earlier when the two job sizes it spans are ascending |
| Scheduling.PsFinishTime | sim.cpp:38-45 | on an ascending batch no PS departure comes before the first one, w[0]*n/f(n) |
| Scheduling.FspStep | sim.cpp:55-57 | an FSP step for a non-negative job takes between 0 and its work size, since rates are at least 1 |
| Scheduling.FspFinishTime | sim.cpp:52-59 | with non-negative sizes the k-th FSP departure lies between 0 and the work of the first k jobs |
| Scheduling.FinishTime | sim.cpp:38-59 | on a well-formed batch either discipline's finish time is non-negative |
| Scheduling.FinishProfile | sim.cpp:94-96 | the profile queried by the strong loop has one entry per k in [0, k_max] and entry k is compute_finish_time(k) |
| Scheduling.FspStartsAtZero | sim.cpp:54-58 | FSP answers k = 0 with 0 |
| Scheduling.FspMonotone | sim.cpp:53-59 | with non-negative sizes FSP finish times never decrease as k grows |
| Scheduling.FspConstantIsPrefixWork | sim.cpp:53-59 | under constant frequency the k-th FSP departure is exactly the total work of the k smallest jobs |
| Scheduling.PsFirstTwoCoincide | sim.cpp:40-44 | PS answers k = 0 and k = 1 with the same value w[0]*n/f(n) |
| Scheduling.PsMonotone | sim.cpp:40-44 | on an ascending batch PS finish times never decrease as k grows |
| Scheduling.FinishTimeMonotone | sim.cpp:38-59 | on a well-formed batch both disciplines' finish times are non-decreasing in k |
| Scheduling.FspZeroPrefix | sim.cpp:53-59 | on non-negative work an FSP departure at time 0 means every job before it has no work |
| Scheduling.PsZeroPrefix | sim.cpp:39-45 | when the first k jobs have no work, PS's k-th departure is at time 0 |
| Scheduling.PsZeroForcesEmptyPrefix | sim.cpp:39-45 | on a well-formed batch a PS departure at time 0 forces the first job and every job before it to have no work |
| Scheduling.FspEmptyPrefixIsZero | sim.cpp:53-59 | when the first k jobs have no work, FSP's k-th departure is at time 0 |
| Turbocharging.Max | sim.cpp:82 | std::max bounds both arguments from above and is one of them |
| Turbocharging.MaxRatio | sim.cpp:97 | `std::max(acc, new / old)`: the result bounds acc and, for a non-zero original, the quotient, and is one of the two; a zero original (NaN or -inf quotient) leaves acc |
| Turbocharging.RatioFold | sim.cpp:93-99 | the strong accumulator starts at 1 and never drops below it |
| Turbocharging.NaiveRate | sim.cpp:79-83 | the naive rate is at least 1 |
| Turbocharging.StrongRate | sim.cpp:92-100 | the strong rate is at least 1 |
| Turbocharging.TurboRate | sim.cpp:79-112 | every policy's rate is at least 1, and turbocharging off gives exactly 1 |
| Turbocharging.RatioFoldCovers | sim.cpp:94-98 | the strong accumulator is at least every ratio it has met |
| Turbocharging.RatioFoldDominates | sim.cpp:94-98 | sped up by the accumulated rate, every target time met is within that factor of the original |
| Turbocharging.RatioFoldLeast | sim.cpp:93-99 | the strong accumulator is at most any factor >= 1 that bounds every target time by the original |
| Turbocharging.NaiveAtMostStrong | sim.cpp:79-99 | wherever strong is defined naive is too, and naive never asks for more than strong, since strong's loop includes k = n |
| Turbocharging.StrongDominates | sim.cpp:92-100 | sped up by the strong rate, the target's k-th finish time is within the original's for every k in [0, n] |
| Turbocharging.StrongIsLeast | sim.cpp:92-100 | the strong rate is the least factor >= 1 under which the target never finishes later than the original |
| Turbocharging.NaiveDominatesLastDeparture | sim.cpp:79-83 | sped up by the naive rate, the target's last departure is within the original's |
| Turbocharging.NaiveIsLeast | sim.cpp:79-83 | the naive rate is the least factor >= 1 that makes the last departures meet |
| Turbocharging.StrongFspAgainstPsNeedsZeroFirstJob | sim.cpp:92-99 | on non-negative work, strong turbocharging of FSP against PS never meets a positive target over a zero original exactly when the smallest job is empty |
| Turbocharging.DriverPairsAdmissible | sim.cpp:234-272 | the pairs the driver runs, PS as original and FSP as target, are admissible for naive and strong on every well-formed batch, so no `+inf` term arises for them |
| Simulation.WithDefaults | sim.cpp:116 | the template's defaults (no turbocharging, power rate^2) admit every batch exactly when the frequency law is valid |
| Simulation.DepartureTimesUpTo | sim.cpp:123-129 | after the loop has filled entries 1..k, the vector has k + 1 entries, entry 0 is 0 and entry i is compute_finish_time(i) |
| Simulation.DepartureTimes | sim.cpp:123-129 | the departure vector has n + 1 entries, entry 0 is 0 and entry i is compute_finish_time(i) |
| Simulation.HeldPower | sim.cpp:134-136 | the power drawn at a sped-up rate is non-negative for a non-negative speed-up |
| Simulation.EnergyUpTo | sim.cpp:131-139 | partial energy sums are non-negative on a non-decreasing departure vector |
| Simulation.EnergyConsumed | sim.cpp:131-139 | the energy is non-negative on a non-decreasing departure vector and a non-negative turbo rate |
| Simulation.MeanResponseTime | sim.cpp:141-144 | the mean is defined exactly for a non-empty sequence, and then mean * turbo * count equals the sum of the values |
| Simulation.ReportedDepartures | sim.cpp:162-164 | one printed finish time per job, and printed time i sped back up by turbo is compute_finish_time(i + 1) |
| Simulation.Report | sim.cpp:153-164 | at a given turbo rate the report has one printed time per job, each the raw finish time slowed by turbo, and a mean over the work sizes scaled by turbo * n |
| Simulation.Simulate | sim.cpp:153-164 | the reported turbo rate is at least 1 (exactly 1 when off), printed time i is compute_finish_time(i + 1) / turbo, and the printed mean is sum(work_sizes) / (turbo * n), defined exactly for a non-empty batch |
| Simulation.DeparturesNonDecreasing | sim.cpp:122-128 | on a well-formed batch the departure vector never decreases |
| Simulation.SimulatedEnergyNonNegative | sim.cpp:131-155 | on a well-formed batch the simulated energy is non-negative |
| Simulation.EnergyQueriesOnlyRemainingCounts | sim.cpp:132-135 | the energy queries f only at job counts in [1, n]: laws that agree there give the same energy |
| Simulation.EnergyTelescopes | sim.cpp:131-139 | under constant frequency the energy sum telescopes to power(turbo) * (d[k-1] - d[0]) |
| Simulation.SimulatedEnergyUnderConstant | sim.cpp:153-155 | under constant frequency the simulated energy is power(turbo) times the last raw departure |
| Simulation.DefaultsAtConstantRate | sim.cpp:114-164 | `simulator<d, frequency_scaling_constant>` as the driver uses it (sim.cpp:275-276): turbo rate 1, every printed time is the raw finish time, and the energy is the last departure time |
| Simulation.StrongSimulationMeetsReference | sim.cpp:153-164 | under strong turbocharging every printed finish time is no later than the original discipline's |
| Simulation.NaiveSimulationMeetsReferenceAtEnd | sim.cpp:153-164 | under naive turbocharging the last printed finish time is no later than the original discipline's |
| Corrections.PsStepIntended | sim.cpp:42 | the corrected PS step is non-negative on an ascending pair |
| Corrections.PsFinishTimeIntended | sim.cpp:40-44 | on an ascending batch no corrected PS departure comes before the first |
| Corrections.FspStepIntended | sim.cpp:56 | the corrected FSP step sped up by f(n - i) is exactly job i's work |
| Corrections.FspFinishTimeIntended | sim.cpp:53-59 | with the corrected rate, FSP departures are non-negative, non-decreasing in k and never later than the prefix work Sum(w[..k]) |
| Corrections.DepartureTimesIntended | sim.cpp:122-128 | the corrected departure vector starts at 0 and holds the corrected finish times |
| Corrections.FspIntendedConservesWork | sim.cpp:53-59 | metered by the energy loop at rate^1, the corrected FSP has served exactly the first k jobs' work by departure k |
| Corrections.PsIntendedServedWork | sim.cpp:40-44 | metered likewise, by the k-th corrected PS departure the first k - 1 jobs are done and each other job has received w[k-1] |
| Corrections.PsIntendedConservesWork | sim.cpp:40-44 | over the whole run the corrected PS serves exactly the batch's total work, for every frequency law |
| Corrections.PsAsWrittenOvershoot | sim.cpp:40-44 | under constant frequency the code's k-th PS departure exceeds the work-conserving time by w[k-1] - w[0] |
| Corrections.PsAsWrittenMakespan | sim.cpp:40-44 | under constant frequency the code's PS makespan exceeds the total work by w[n-1] - w[0] |
| Corrections.PsAsWrittenOverrunsWork | sim.cpp:40-44 | jobs 1, 2, 3, 4 at rate 1: the code's PS ends at 13 with 10 units of work, the corrected one at 10 |
| Corrections.PsLinearAgrees | sim.cpp:39-45 | under `Linear<c>` the code's PS finish time equals the corrected one for every k, so the extra job at sim.cpp:42 has no effect there |
| Corrections.LinearPsSteps | sim.cpp:42 | under `Linear<c>` the code's PS step and the corrected one both come to the marginal work over c |
| Corrections.PsAsWrittenFallsShort | sim.cpp:39-45 | jobs 0, 1, 1, 1 under the square-root law: the code's PS ends at 2, the corrected one at 3, the total work |
| Corrections.FspAsWrittenRunsAheadOfWork | sim.cpp:56 | one job of size 1 at Linear<1>: the code's FSP ends at 0.5, the corrected FSP and PS at 1 |
| Corrections.SingleJobDisciplinesAgree | sim.cpp:40-59 | a lone job finishes at the same time under both corrected disciplines |
| Corrections.MeanResponseTimeIntended | sim.cpp:141-144 | the corrected mean is defined for a non-empty batch and scales the raw departures 1..n by turbo * n |
| Corrections.MeanIntendedAveragesReported | sim.cpp:160-164 | the corrected mean is the plain average of the finish times `simulate` prints |
| Corrections.DefinedMean | sim.cpp:141-144 | the corrected mean is 0 for an empty batch and otherwise scales the raw departures 1..n by turbo * n |
| Corrections.DefinedMeanAveragesReported | sim.cpp:141-144 | on every batch, empty or not, the defined mean times n is the sum of the printed finish times, and it is 0 on an empty batch |
| Corrections.EmptyMeanUndefinedAsWritten | sim.cpp:141-144 | on an empty batch the code's mean is the NaN of 0 / 0 while the defined mean is 0 |
| Corrections.PrintedMeanMissesDepartures | sim.cpp:160 | two unit jobs under FSP: the code prints mean 1, while the printed finish times 1 and 2 average 1.5 |
| Scenarios.InvExpTruncates | sim.cpp:30 | the square-root law (exponent 2) runs three jobs at 1 and four at 2 |
| Scenarios.EqualJobsUnderFsp | sim.cpp:122-160 | three jobs of 10 under FSP at constant rate depart at 10, 20, 30, use energy 30 at rate^1, and print mean 10 |
| Scenarios.EmptyBatch | sim.cpp:122-144 | under every policy combination that admits it, an empty batch yields no printed times, zero energy and no defined mean |
| Scenarios.NaiveMissesIntermediate | sim.cpp:79-99 | jobs 0, 1, 1, original FSP, target PS: naive asks 1.5, strong 3, and at naive's rate PS's second departure is later than FSP's |

## Left out

- The `name()` strings and all printing and stream-flag handling in `simulate` (sim.cpp:12-107, 150-167): output only. `simulate` is modelled as the values it prints.
- `generate_random_jobs`, `generate_multiplicative_jobs`, `test_policies` and `main` (sim.cpp:173-287): nondeterministic input and driver glue. Some of the driver's batch shapes appear in `Scenarios`.
- IEEE-754 rounding, infinities and NaN: arithmetic is exact over `real`. Skipping a zero-original term and excluding `+inf` stand for `std::max` on NaN and infinite quotients.
- The `+inf` turbo rate: a batch where a target finish time is positive while the original one is 0 is excluded by `Admissible`. This covers more than stray corner cases: PS answers k = 0 with `w[0] * n / f(n)` rather than 0, so strong turbocharging with an FSP original and a PS target is admissible only when `w[0] = 0`; every batch whose smallest job is positive is left out for that pair (`Turbocharging.StrongFspAgainstPsNeedsZeroFirstJob`). The driver never runs that pair: the pairs it runs, PS as original and FSP as target, are admissible for naive and strong on every sorted, non-negative, non-empty batch, so none of the driver's runs is excluded (`Turbocharging.DriverPairsAdmissible`).
- Frequency.FloorRoot: `std::pow(j, 1.0 / p)` truncated to `int` is taken as the exact integer p-th root rounded down. Floating-point error that truncates a perfect power one lower is not modelled.
- Frequency.Rate: `n * jobs_current` as a 32-bit `int` product is not wrapped; valid laws take factor and exponent at least 1: a zero factor makes the finish times divide by 0, a negative factor gives negative rates, and an exponent of 0 or below makes `1. / p` infinite or truncates the rate to 0.
- Power.PowReal: `alpha` is a natural number; negative template exponents are not modelled.
- Simulation.MeanResponseTime: the code's `0/0` for an empty batch is `None` rather than NaN.
- The driver's equal-jobs example with six jobs is modelled with three jobs; the arithmetic is the same.

## Findings

The model follows the code as written. Measured against the code's own
accounting and naming, it goes wrong in three places, and it leaves one case
unguarded:
- The PS step (sim.cpp:42) counts one job too many.
- The FSP rate (sim.cpp:56) counts one job too many.
  The energy loop (sim.cpp:131-137) charges the rate f(n - i + 1) between departures i - 1 and i.
  How far the code's times stray from that accounting depends on the frequency law:
  - Under constant frequency the code's PS serves more work than the batch holds: its makespan is Sum(w) + w[n-1] - w[0] (`Corrections.PsAsWrittenMakespan`). The code's FSP is exact there.
  - Under `Linear<c>` the extra PS job cancels, since m jobs at c * m absorb work as fast as m - 1 jobs at c * (m - 1). The code's PS is then the corrected one (`Corrections.PsLinearAgrees`). The same holds for the driver's `frequency_scaling_invexp<1>` runs, whose rates are those of `Linear<1>` (`Frequency.InvExpOneIsLinearOne`). The code's FSP serves less work than it is given (`Corrections.FspAsWrittenRunsAheadOfWork`).
  - Under the square-root law the code's PS can also fall short: on jobs 0, 1, 1, 1 it ends at 2, while the corrected PS needs until 3 to serve the 3 units of work (`Corrections.PsAsWrittenFallsShort`).
- `mean_response_time`, whose parameter is named `departure_times`, is called on the work sizes (sim.cpp:160).
  The result is not the average of the finish times `simulate` prints.
- An empty batch makes the mean `0 / (turbo * 0)`, which is NaN (sim.cpp:141-144).
  The guarded mean returns 0 there and keeps the average of the printed times otherwise.

| source | as written | input that shows it | evidently intended | confidence | as-written member | corrected member |
|---|---|---|---|---|---|---|
| sim.cpp:42 | PS step i scales the marginal work by n - i + 1 jobs at rate f(n - i + 1) | constant frequency, work 1, 2, 3, 4: makespan 13 for 10 units of work | n - i jobs remain after departure i, so n - i jobs at f(n - i); the server then serves exactly the total work | not executed | Corrections.PsAsWrittenOverrunsWork | Corrections.PsIntendedConservesWork |
| sim.cpp:56 | FSP serves job i at f(n - i + 1), starting with f(n + 1) | Linear<1>, one job of size 1: finishes at 0.5 although it runs alone at rate f(1) = 1 | f(n - i), the rate of the n - i jobs present, which the energy loop also charges | not executed | Corrections.FspAsWrittenRunsAheadOfWork | Corrections.FspIntendedConservesWork |
| sim.cpp:160 | mean_response_time is called on the work sizes | FSP, constant frequency, two jobs of size 1: prints mean 1, the printed finish times 1 and 2 average 1.5 | the departure times 1..n (without the leading 0), giving the average of the printed finish times | not executed | Corrections.PrintedMeanMissesDepartures | Corrections.MeanIntendedAveragesReported |
| sim.cpp:141-144 | the mean divides the sum by turbo * n without a guard | an empty batch: 0 / (turbo * 0) is NaN | a guarded mean that returns 0 for an empty batch and the average of the printed finish times otherwise | not executed | Corrections.EmptyMeanUndefinedAsWritten | Corrections.DefinedMeanAveragesReported |
