/**
 * Frequency-scaling policies: the integer processing rate the server runs
 * at when a given number of jobs is still in the system
 * (frequency_scaling_constant, frequency_scaling_linear<c>,
 * frequency_scaling_invexp<p>).
 */
module Frequency {

  datatype FrequencyPolicy =
    | Constant
    | Linear(c: int)
    | InvExp(p: int)
  {
    /**
     * The instantiations whose rates are positive for every positive job
     * count. A zero factor makes every rate 0, a divisor of the finish
     * times; a negative factor makes the rates negative; an exponent of 0
     * makes 1.0 / p infinite and a negative one truncates the rate of two
     * or more jobs to 0.
     */
    predicate Valid()
    {
      match this
      case Constant => true
      case Linear(c) => 1 <= c
      case InvExp(p) => 1 <= p
    }
  }

  /** b^e on naturals. */
  function Pow(b: nat, e: nat): nat
  {
    if e == 0 then 1 else b * Pow(b, e - 1)
  }

  lemma {:induction false} PowOfOne(e: nat)
    ensures Pow(1, e) == 1
  {
    if e > 0 {
      PowOfOne(e - 1);
    }
  }

  lemma {:induction false} PowStrictlyIncreasing(a: nat, b: nat, e: nat)
    requires a < b && 1 <= e
    ensures Pow(a, e) < Pow(b, e)
  {
    if e > 1 {
      PowStrictlyIncreasing(a, b, e - 1);
      var x, y := Pow(a, e - 1), Pow(b, e - 1);
      MulLeft(a, b, x);
      MulRightStrict(b, x, y);
    }
  }

  lemma MulLeft(a: nat, b: nat, x: nat)
    requires a <= b
    ensures a * x <= b * x
  {
    assert b * x == a * x + (b - a) * x;
  }

  lemma MulRightStrict(b: nat, x: nat, y: nat)
    requires 0 < b && x < y
    ensures b * x < b * y
  {
    assert b * y == b * x + b * (y - x);
  }

  /** The integer p-th root rounded down: the largest r with r^p <= j. */
  function FloorRoot(j: nat, p: nat): (r: nat)
    requires 1 <= p
    ensures Pow(r, p) <= j < Pow(r + 1, p)
  {
    if j == 0 then
      PowStrictlyIncreasing(0, 1, p);
      0
    else
      var q := FloorRoot(j - 1, p);
      if Pow(q + 1, p) <= j then
        PowStrictlyIncreasing(q + 1, q + 2, p);
        q + 1
      else
        q
  }

  /**
   * The rate f(jobs). InvExp stands for std::pow(jobs, 1.0 / p) truncated
   * to int, taken here as the exact integer p-th root rounded down.
   */
  function Rate(fp: FrequencyPolicy, jobs: nat): (r: int)
    requires fp.Valid()
    ensures 0 <= r
    ensures 1 <= jobs ==> 1 <= r
  {
    match fp
    case Constant => 1
    case Linear(c) => c * jobs
    case InvExp(p) =>
      var r := FloorRoot(jobs, p);
      PowOfOne(p);
      r
  }

  /** The root law with exponent 1 is the linear law with factor 1. */
  lemma InvExpOneIsLinearOne(jobs: nat)
    ensures Rate(InvExp(1), jobs) == Rate(Linear(1), jobs)
  {
    var r := FloorRoot(jobs, 1);
    assert Pow(r, 1) == r && Pow(r + 1, 1) == r + 1;
  }

  /** Every valid law runs no slower with more jobs present. */
  lemma RateMonotone(fp: FrequencyPolicy, i: nat, j: nat)
    requires fp.Valid() && i <= j
    ensures Rate(fp, i) <= Rate(fp, j)
  {
    if fp.InvExp? {
      var a, b := FloorRoot(i, fp.p), FloorRoot(j, fp.p);
      if b < a {
        PowStrictlyIncreasing(b, a, fp.p);
        if b + 1 < a {
          PowStrictlyIncreasing(b + 1, a, fp.p);
        }
        assert Pow(b + 1, fp.p) <= Pow(a, fp.p);
        assert false;
      }
    }
  }
}
