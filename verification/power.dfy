/**
 * The power policy power_regular<alpha>: running at a given rate draws
 * rate^alpha units of power.
 */
module Power {

  datatype PowerPolicy = Regular(alpha: nat)

  /** x^e by repeated multiplication. */
  function PowReal(x: real, e: nat): (r: real)
    ensures 0.0 <= x ==> 0.0 <= r
    ensures 0.0 < x ==> 0.0 < r
  {
    if e == 0 then 1.0 else x * PowReal(x, e - 1)
  }

  /** The power drawn when the server runs at the given rate. */
  function Cost(pp: PowerPolicy, rate: real): real
  {
    PowReal(rate, pp.alpha)
  }

  lemma {:induction false} PowRealOfOne(e: nat)
    ensures PowReal(1.0, e) == 1.0
  {
    if e > 0 {
      PowRealOfOne(e - 1);
    }
  }

  /** On non-negative rates a faster server never draws less power. */
  lemma {:induction false} PowRealMonotone(x: real, y: real, e: nat)
    requires 0.0 <= x <= y
    ensures PowReal(x, e) <= PowReal(y, e)
  {
    if e > 0 {
      PowRealMonotone(x, y, e - 1);
      var a, b := PowReal(x, e - 1), PowReal(y, e - 1);
      MulMonotone(x, y, a, b);
      assert PowReal(x, e) == x * a && PowReal(y, e) == y * b;
    }
  }

  lemma MulMonotone(x: real, y: real, a: real, b: real)
    requires 0.0 <= x <= y && 0.0 <= a <= b
    ensures x * a <= y * b
  {
    assert 0.0 <= (y - x) * a;
    assert 0.0 <= y * (b - a);
    assert y * b - x * a == (y - x) * a + y * (b - a);
  }

  /** With alpha = 1 power is the rate itself. */
  lemma CostOfLinearPower(rate: real)
    ensures Cost(Regular(1), rate) == rate
  {
    assert PowReal(rate, 1) == rate * PowReal(rate, 0);
  }
}
