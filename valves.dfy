/** The valve flow factor Kv [m3/h] and the flow it passes at a given
    differential pressure: Kv = Q*sqrt(SG/dP). */
module Valves {
  import opened Common

  /** `Kv`: NaN unless dP is non-zero and SG/dP is non-negative (so a negative SG
      over a negative dP is accepted); otherwise the factor whose square is
      Q^2*SG/dP and whose sign is that of the flow. */
  function Kv(q: real, sg: real, dP: real, sqrt: real -> real): (r: Num)
    requires IsSqrt(sqrt)
    ensures r == NaN <==> dP == 0.0 || sg / dP < 0.0
    ensures r != NaN ==> r.Val? && r.v * r.v == q * q * (sg / dP)
    ensures r.Val? ==> (0.0 <= q ==> 0.0 <= r.v) && (q <= 0.0 ==> r.v <= 0.0)
  {
    if dP != 0.0 && sg / dP >= 0.0 then
      var s := sqrt(sg / dP);
      SignedRoot(q, s);
      Val(q * s)
    else NaN
  }

  /** `Q_from_Kv`: NaN unless dP and SG are both positive (the root is then
      positive); otherwise the flow whose Kv is the one given. */
  function QFromKv(kv: real, sg: real, dP: real, sqrt: real -> real): (r: Num)
    requires IsSqrt(sqrt)
    ensures r == NaN <==> !(0.0 < dP && 0.0 < sg)
    ensures r != NaN ==> r.Val? && r.v * sqrt(sg / dP) == kv
  {
    if 0.0 < dP && 0.0 < sg then
      DivPositive(sg, dP);
      SqrtPositive(sqrt, sg / dP);
      Val(kv / sqrt(sg / dP))
    else NaN
  }

  /** Kv and Q_from_Kv invert one another where both are defined. */
  lemma KvRoundTrip(q: real, kv: real, sg: real, dP: real, sqrt: real -> real)
    requires IsSqrt(sqrt) && 0.0 < dP && 0.0 < sg
    ensures Kv(q, sg, dP, sqrt).Val? && QFromKv(Kv(q, sg, dP, sqrt).v, sg, dP, sqrt) == Val(q)
    ensures QFromKv(kv, sg, dP, sqrt).Val? && Kv(QFromKv(kv, sg, dP, sqrt).v, sg, dP, sqrt) == Val(kv)
  {
    DivPositive(sg, dP);
    SqrtPositive(sqrt, sg / dP);
  }

  /** A negative gravity over a negative pressure drop gives a factor but no flow,
      and no flow passes no factor. */
  lemma NegativeGravityAndDrop(q: real, kv: real, sg: real, dP: real, sqrt: real -> real)
    requires IsSqrt(sqrt) && dP < 0.0 && sg < 0.0
    ensures Kv(q, sg, dP, sqrt).Val?
    ensures QFromKv(kv, sg, dP, sqrt) == NaN
  {
    assert 0.0 < sg / dP by {
      DivPositive(-sg, -dP);
      assert (-sg) / (-dP) == sg / dP;
    }
  }

  /** The factor is linear in the flow and zero for no flow. */
  lemma KvLinear(q: real, c: real, sg: real, dP: real, sqrt: real -> real)
    requires IsSqrt(sqrt) && Kv(1.0, sg, dP, sqrt).Val?
    ensures Kv(c * q, sg, dP, sqrt) == Val(c * Kv(q, sg, dP, sqrt).v)
    ensures Kv(0.0, sg, dP, sqrt) == Val(0.0)
  {
  }

  /** A non-negative SG over a positive dP always gives a factor, and a
      weightless fluid gives a zero factor at any non-zero dP. */
  lemma KvDefined(q: real, sg: real, dP: real, sqrt: real -> real)
    requires IsSqrt(sqrt)
    ensures 0.0 < dP && 0.0 <= sg ==> Kv(q, sg, dP, sqrt).Val?
    ensures dP != 0.0 ==> Kv(q, 0.0, dP, sqrt) == Val(0.0)
  {
    if dP != 0.0 {
      assert 0.0 / dP == 0.0;
      assert sqrt(0.0 / dP) == 0.0;
    }
  }
}
