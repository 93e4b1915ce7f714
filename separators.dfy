/** Scrubber sizing figures: the K-value (the Souders-Brown load factor) of the
    gas flow and the momentum of the fluid entering the scrubber. */
module Separators {
  import opened Common

  /** `scrubber_K_value` [m/s]: NaN unless the liquid is denser than the gas and
      the gas density is non-negative (checked in that order); otherwise the
      factor whose square times the density difference is Usg^2 times the gas
      density, with the sign of the gas velocity. */
  function ScrubberKValue(usg: real, rhoGas: real, rhoLiquid: real, sqrt: real -> real): (r: Num)
    requires IsSqrt(sqrt)
    ensures r == NaN <==> rhoLiquid - rhoGas <= 0.0 || rhoGas < 0.0
    ensures r != NaN ==> r.Val? && r.v * r.v * (rhoLiquid - rhoGas) == usg * usg * rhoGas
    ensures r.Val? ==> (0.0 <= usg ==> 0.0 <= r.v) && (usg <= 0.0 ==> r.v <= 0.0)
  {
    if rhoLiquid - rhoGas <= 0.0 then NaN
    else if rhoGas < 0.0 then NaN
    else
      var d := rhoLiquid - rhoGas;
      var x := rhoGas / d;
      MulNonNegative(rhoGas, 1.0 / d);
      var s := sqrt(x);
      SignedRoot(usg, s);
      ScaledRatio(usg * usg, rhoGas, d);
      Val(usg * s)
  }

  lemma ScaledRatio(c: real, n: real, d: real)
    requires d != 0.0
    ensures c * (n / d) * d == c * n
  {
  }

  /** `scrubber_inlet_momentum` [Pa]: rho*u^2, which does not depend on the
      direction of the flow and is non-negative for a non-negative density. */
  function InletMomentum(u: real, rho: real): (m: real)
    ensures 0.0 <= rho ==> 0.0 <= m
    ensures u == 0.0 || rho == 0.0 ==> m == 0.0
  {
    var usq := u * u;
    assert 0.0 <= usq by {
      if u < 0.0 { MulNonNegative(-u, -u); } else { MulNonNegative(u, u); }
    }
    assert 0.0 <= rho ==> 0.0 <= rho * usq by {
      if 0.0 <= rho { MulNonNegative(rho, usq); }
    }
    rho * usq
  }

  /** The inlet momentum is the same for a flow and its reverse, and scales with
      the density. */
  lemma InletMomentumSymmetric(u: real, rho: real, c: real)
    ensures InletMomentum(-u, rho) == InletMomentum(u, rho)
    ensures InletMomentum(u, c * rho) == c * InletMomentum(u, rho)
  {
  }

  /** The K-value squared, times the density difference, is the gas's inlet
      momentum at the superficial gas velocity. */
  lemma KValueFromMomentum(usg: real, rhoGas: real, rhoLiquid: real, sqrt: real -> real)
    requires IsSqrt(sqrt) && rhoGas < rhoLiquid && 0.0 <= rhoGas
    ensures ScrubberKValue(usg, rhoGas, rhoLiquid, sqrt).Val?
    ensures ScrubberKValue(usg, rhoGas, rhoLiquid, sqrt).v * ScrubberKValue(usg, rhoGas, rhoLiquid, sqrt).v
            * (rhoLiquid - rhoGas) == InletMomentum(usg, rhoGas)
  {
  }

  /** The K-value is linear in the gas velocity, and zero for a weightless gas. */
  lemma KValueLinear(usg: real, c: real, rhoGas: real, rhoLiquid: real, sqrt: real -> real)
    requires IsSqrt(sqrt) && rhoGas < rhoLiquid && 0.0 <= rhoGas
    ensures ScrubberKValue(c * usg, rhoGas, rhoLiquid, sqrt)
            == Val(c * ScrubberKValue(usg, rhoGas, rhoLiquid, sqrt).v)
    ensures ScrubberKValue(usg, 0.0, rhoLiquid, sqrt) == Val(0.0)
  {
    assert 0.0 / (rhoLiquid - 0.0) == 0.0;
  }

  /** Two gas velocities with the same K-value are equal: the
      K-value determines the velocity once the densities are fixed. */
  lemma KValueDeterminesVelocity(u1: real, u2: real, rhoGas: real, rhoLiquid: real, sqrt: real -> real)
    requires IsSqrt(sqrt) && rhoGas < rhoLiquid && 0.0 < rhoGas
    requires ScrubberKValue(u1, rhoGas, rhoLiquid, sqrt) == ScrubberKValue(u2, rhoGas, rhoLiquid, sqrt)
    ensures u1 == u2
  {
    var d := rhoLiquid - rhoGas;
    var s := sqrt(rhoGas / d);
    DivPositive(rhoGas, d);
    SqrtPositive(sqrt, rhoGas / d);
    assert s * u1 == s * u2;
    MulCancel(s, u1, u2);
  }
}
