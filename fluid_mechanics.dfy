/** Pipe-flow basics: the superficial velocity of one phase and the no-slip
    liquid holdup from a measured mixture density. */
module FluidMechanics {
  import opened Common

  /** The cross-section pi*(D/2)^2 of a pipe of inner diameter D. */
  function PipeArea(diameter: real): (a: real)
    ensures a * 4.0 == PI * diameter * diameter
    ensures a == 0.0 <==> diameter == 0.0
    ensures 0.0 <= a
  {
    var r := diameter / 2.0;
    ScaledSquare(PI, r);
    PI * r * r
  }

  /** c*r*r for a positive c is positive, or zero for r = 0. */
  lemma ScaledSquare(c: real, r: real)
    requires 0.0 < c
    ensures c * r * r == 0.0 <==> r == 0.0
    ensures 0.0 <= c * r * r
  {
    if r > 0.0 {
      MulPositive(c, r);
      MulPositive(c * r, r);
    } else if r < 0.0 {
      MulPositive(c, -r);
      MulPositive(c * -r, -r);
      assert (c * -r) * -r == c * r * r;
    }
  }

  /** `superficial_velocity` [m/s] of a phase flowing at Q [m3/h]: NaN for a zero
      diameter; otherwise the flow per second spread over the cross-section. */
  function SuperficialVelocity(q: real, diameter: real): (r: Num)
    ensures r == NaN <==> diameter == 0.0
    ensures r != NaN ==> r.Val? && r.v * PipeArea(diameter) * 3600.0 == q
  {
    var a := PipeArea(diameter);
    if a == 0.0 then NaN
    else
      var u := (q / 3600.0) / a;
      assert u * a == q / 3600.0;
      Val(u)
  }

  /** The velocity is linear in the flow. */
  lemma SuperficialVelocityLinear(q1: real, q2: real, c: real, diameter: real)
    requires diameter != 0.0
    ensures SuperficialVelocity(q1 + q2, diameter).v == SuperficialVelocity(q1, diameter).v + SuperficialVelocity(q2, diameter).v
    ensures SuperficialVelocity(c * q1, diameter).v == c * SuperficialVelocity(q1, diameter).v
  {
    var a := PipeArea(diameter);
    assert a != 0.0;
    var u1 := SuperficialVelocity(q1, diameter).v;
    var u2 := SuperficialVelocity(q2, diameter).v;
    var u12 := SuperficialVelocity(q1 + q2, diameter).v;
    var uc := SuperficialVelocity(c * q1, diameter).v;
    assert (a * 3600.0) * u12 == (a * 3600.0) * (u1 + u2);
    assert (a * 3600.0) * uc == (a * 3600.0) * (c * u1);
    MulNonZero(a, 3600.0);
    MulCancel(a * 3600.0, u12, u1 + u2);
    MulCancel(a * 3600.0, uc, c * u1);
  }

  /** `liquid_holdup_from_density`: a reading above the liquid density is all
      liquid, one below the gas density all gas (checked in that order); equal
      phase densities give NaN; otherwise the holdup interpolates linearly. */
  function LiquidHoldup(measured: real, liquid: real, gas: real): (r: Num)
    ensures measured > liquid ==> r == Val(1.0)
    ensures measured <= liquid && measured < gas ==> r == Val(0.0)
    ensures gas <= measured <= liquid && liquid == gas ==> r == NaN
    ensures r.Val? ==> 0.0 <= r.v <= 1.0
    ensures gas <= measured <= liquid && liquid != gas ==>
      r.Val? && measured == r.v * liquid + (1.0 - r.v) * gas
  {
    if measured > liquid then Val(1.0)
    else if measured < gas then Val(0.0)
    else if liquid == gas then NaN
    else
      var alpha := (measured - gas) / (liquid - gas);
      assert alpha * (liquid - gas) == measured - gas;
      FractionInUnit(measured - gas, liquid - gas);
      Val(alpha)
  }

  /** The holdup inverts the no-slip mixture density: a mixture alpha of liquid
      and 1 - alpha of gas is read back as holdup alpha. */
  lemma HoldupInvertsMixtureDensity(alpha: real, liquid: real, gas: real)
    requires 0.0 <= alpha <= 1.0 && gas < liquid
    ensures LiquidHoldup(alpha * liquid + (1.0 - alpha) * gas, liquid, gas) == Val(alpha)
  {
    var m := alpha * liquid + (1.0 - alpha) * gas;
    assert m - gas == alpha * (liquid - gas);
    assert gas <= m by {
      MulNonNegative(alpha, liquid - gas);
    }
    assert m <= liquid by {
      assert liquid - m == (1.0 - alpha) * (liquid - gas);
      MulNonNegative(1.0 - alpha, liquid - gas);
    }
    var h := LiquidHoldup(m, liquid, gas).v;
    MixtureWeightUnique(liquid, gas, h, alpha);
  }

  lemma MixtureWeightUnique(liquid: real, gas: real, x: real, y: real)
    requires gas < liquid
    requires x * liquid + (1.0 - x) * gas == y * liquid + (1.0 - y) * gas
    ensures x == y
  {
    assert (liquid - gas) * x == (liquid - gas) * y;
    MulCancel(liquid - gas, x, y);
  }

  /** The holdup is one at the liquid density and zero at the gas density; when
      the densities are given in the wrong order only the two clamps are reached. */
  lemma HoldupEndpoints(liquid: real, gas: real, measured: real)
    ensures gas < liquid ==> LiquidHoldup(liquid, liquid, gas) == Val(1.0)
    ensures gas < liquid ==> LiquidHoldup(gas, liquid, gas) == Val(0.0)
    ensures liquid < gas ==> LiquidHoldup(measured, liquid, gas) in {Val(0.0), Val(1.0)}
  {
    if gas < liquid {
      DivSelf(liquid - gas);
      assert gas - gas == 0.0;
    }
  }
}
