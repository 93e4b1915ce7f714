/** Compressor performance figures for scalar inputs: polytropic head and
    efficiency, enthalpy rise, flow coefficient, impeller tip speed, the sum of
    squared tip speeds and the head and work coefficients. numpy evaluates every
    formula and then masks the entries whose guard fails with NaN. */
module Compressors {
  import opened Common

  /** `poly_head` [kJ/kg]: NaN where a density is zero. With the densities
      non-zero and n != 1 the head satisfies head*(n - 1) = 100*n*(pd/rhod - ps/rhos);
      at n == 1 numpy's n/(n - 1) is +inf, and the head is an infinity of the sign
      of the pressure-density difference (NaN when that is zero). */
  function PolyHead(n: real, pSuction: real, pDischarge: real, rhoSuction: real, rhoDischarge: real): (r: Num)
    ensures rhoDischarge == 0.0 || rhoSuction == 0.0 ==> r == NaN
    ensures rhoDischarge != 0.0 && rhoSuction != 0.0 && n != 1.0 ==>
      r.Val? && r.v * (n - 1.0) == 100.0 * n * (pDischarge / rhoDischarge - pSuction / rhoSuction)
    ensures rhoDischarge != 0.0 && rhoSuction != 0.0 && n == 1.0 ==>
      var x := pDischarge / rhoDischarge - pSuction / rhoSuction;
      (r == PosInf <==> 0.0 < x) && (r == NegInf <==> x < 0.0) && (r == NaN <==> x == 0.0)
  {
    if rhoDischarge == 0.0 || rhoSuction == 0.0 then NaN
    else
      var x := pDischarge / rhoDischarge - pSuction / rhoSuction;
      if n == 1.0 then
        (if 0.0 < x then PosInf else if x < 0.0 then NegInf else NaN)
      else
        var h := 100.0 * (n / (n - 1.0)) * x;
        assert h * (n - 1.0) == 100.0 * n * x by {
          assert (n / (n - 1.0)) * (n - 1.0) == n;
        }
        Val(h)
  }

  /** Exchanging the suction and discharge states reverses the head. */
  lemma PolyHeadReversed(n: real, pS: real, pD: real, rhoS: real, rhoD: real)
    ensures PolyHead(n, pD, pS, rhoD, rhoS) == Negated(PolyHead(n, pS, pD, rhoS, rhoD))
  {
    if rhoS != 0.0 && rhoD != 0.0 && n != 1.0 {
      var a := PolyHead(n, pS, pD, rhoS, rhoD).v;
      var b := PolyHead(n, pD, pS, rhoD, rhoS).v;
      assert b * (n - 1.0) == -(a * (n - 1.0));
      assert (n - 1.0) * b == (n - 1.0) * -a;
      MulCancel(n - 1.0, b, -a);
    }
  }

  /** The inputs of the docstring example: a suction state of 1 bara at 10 kg/m3
      and a discharge state of 5 bara at 40 kg/m3 with n = 1.25. The formula gives a
      head of 12.5 kJ/kg, not the 480.0 the docstring prints; a zero density gives NaN. */
  lemma PolyHeadExamples()
    ensures PolyHead(1.25, 1.0, 5.0, 10.0, 40.0) == Val(12.5)
    ensures PolyHead(1.25, 1.0, 5.0, 0.0, 40.0) == NaN
    ensures PolyHead(1.25, 1.0, 5.0, 10.0, 0.0) == NaN
  {
  }

  /** `poly_eff`: head over enthalpy rise; NaN exactly when the rise is zero. */
  function PolyEff(head: real, enthalpyRise: real): (r: Num)
    ensures r == NaN <==> enthalpyRise == 0.0
    ensures r != NaN ==> r.Val? && r.v * enthalpyRise == head
  {
    if enthalpyRise == 0.0 then NaN else Val(head / enthalpyRise)
  }

  /** `dh`: the enthalpy rise from state 1 to state 2. */
  function Dh(massEnthalpy1: real, massEnthalpy2: real): (d: real)
    ensures massEnthalpy1 + d == massEnthalpy2
  {
    massEnthalpy2 - massEnthalpy1
  }

  /** The rise reverses with the states and adds up over consecutive stages. */
  lemma DhProperties(h1: real, h2: real, h3: real)
    ensures Dh(h2, h1) == -Dh(h1, h2)
    ensures Dh(h1, h2) + Dh(h2, h3) == Dh(h1, h3)
    ensures Dh(100.0, 150.0) == 50.0 && Dh(150.0, 100.0) == -50.0
  {
  }

  /** An efficiency computed from a head and the enthalpy rise between two states
      recovers the head when multiplied by that rise. */
  lemma PolyEffRecoversHead(head: real, h1: real, h2: real)
    requires h1 != h2
    ensures PolyEff(head, Dh(h1, h2)).Val?
    ensures PolyEff(head, Dh(h1, h2)).v * Dh(h1, h2) == head
    ensures PolyEff(80.0, 100.0) == Val(0.8)
  {
  }

  /** `impeller_tang_vel` [m/s]: the tip speed of an impeller of diameter D at N rpm. */
  function ImpellerTangVel(speed: real, diameter: real): (u: real)
    ensures u * 60.0 == PI * speed * diameter
  {
    2.0 * PI * speed * diameter / (2.0 * 60.0)
  }

  /** The tip speed vanishes at standstill and is linear in speed and in diameter. */
  lemma ImpellerTangVelProperties(speed: real, speed2: real, diameter: real)
    ensures ImpellerTangVel(0.0, diameter) == 0.0
    ensures ImpellerTangVel(speed + speed2, diameter) == ImpellerTangVel(speed, diameter) + ImpellerTangVel(speed2, diameter)
    ensures ImpellerTangVel(speed, 2.0 * diameter) == 2.0 * ImpellerTangVel(speed, diameter)
  {
  }

  datatype FlowCoeffError = InvalidDefType(defType: string)

  /** `flow_coeff`: the definition type is checked first, exactly and with case;
      the tip speed is computed as in `impeller_tang_vel`; NaN where the
      denominator D^2*U (times pi for ISO 5389) is zero. */
  function FlowCoeff(q: real, speed: real, diameter: real, defType: string): (r: Result<Num, FlowCoeffError>)
    ensures r.Err? <==> defType != "MAN" && defType != "ISO 5389"
    ensures r.Err? ==> r.error == InvalidDefType(defType)
    ensures r.Ok? ==> (r.value == NaN <==> diameter == 0.0 || speed == 0.0)
    ensures r.Ok? ==> r.value == NaN || r.value.Val?
    ensures defType == "MAN" && r.Ok? && r.value.Val? ==>
      r.value.v * (diameter * diameter * ImpellerTangVel(speed, diameter)) == q
  {
    if defType != "MAN" && defType != "ISO 5389" then Err(InvalidDefType(defType))
    else
      var numerator := if defType == "MAN" then q else 4.0 * q;
      var u := diameter * PI * speed / 60.0;
      var denominator := if defType == "MAN" then diameter * diameter * u else PI * diameter * diameter * u;
      TipSpeedIsImpellerVelocity(speed, diameter);
      DenominatorZero(speed, diameter, defType == "MAN");
      if denominator == 0.0 then Ok(NaN) else Ok(Val(numerator / denominator))
  }

  /** The tip speed inside `flow_coeff` is `impeller_tang_vel`. */
  lemma TipSpeedIsImpellerVelocity(speed: real, diameter: real)
    ensures diameter * PI * speed / 60.0 == ImpellerTangVel(speed, diameter)
  {
  }

  lemma DenominatorZero(speed: real, diameter: real, man: bool)
    ensures var u := diameter * PI * speed / 60.0;
      ((if man then diameter * diameter * u else PI * diameter * diameter * u) == 0.0)
      <==> (diameter == 0.0 || speed == 0.0)
  {
    var u := diameter * PI * speed / 60.0;
    if diameter != 0.0 && speed != 0.0 {
      MulNonZero(diameter, PI);
      MulNonZero(diameter * PI, speed);
      assert u != 0.0;
      MulNonZero(diameter, diameter);
      MulNonZero(diameter * diameter, u);
      MulNonZero(PI, diameter);
      MulNonZero(PI * diameter, diameter);
      MulNonZero(PI * diameter * diameter, u);
    }
  }

  /** The ISO 5389 coefficient is the manufacturer's times 4/pi, so the two
      definitions differ for every non-zero flow. */
  lemma IsoIsManTimesFourOverPi(q: real, speed: real, diameter: real)
    requires diameter != 0.0 && speed != 0.0
    ensures FlowCoeff(q, speed, diameter, "MAN").value.Val?
    ensures FlowCoeff(q, speed, diameter, "ISO 5389").value.Val?
    ensures FlowCoeff(q, speed, diameter, "ISO 5389").value.v == FlowCoeff(q, speed, diameter, "MAN").value.v * 4.0 / PI
    ensures q != 0.0 ==> FlowCoeff(q, speed, diameter, "ISO 5389") != FlowCoeff(q, speed, diameter, "MAN")
  {
    var u := diameter * PI * speed / 60.0;
    var den := diameter * diameter * u;
    FlowCoeffValues(q, speed, diameter);
    FourOverPi(q, den, q / den, 4.0 * q / (PI * den));
  }

  lemma FourOverPi(q: real, den: real, man: real, iso: real)
    requires den != 0.0 && man == q / den && iso == 4.0 * q / (PI * den)
    ensures iso == man * 4.0 / PI
    ensures q != 0.0 ==> iso != man
  {
    MulNonZero(PI, den);
    assert iso * (PI * den) == 4.0 * q;
    assert man * den == q;
    ScaledBack(man, den, q);
    MulCancel(PI * den, iso, man * 4.0 / PI);
    if q != 0.0 {
      assert man != 0.0;
    }
  }

  lemma ScaledBack(m: real, d: real, q: real)
    requires m * d == q
    ensures (m * 4.0 / PI) * (PI * d) == 4.0 * q
  {
    assert (m * 4.0 / PI) * PI == m * 4.0;
  }

  /** Both definitions over a non-zero denominator. */
  lemma FlowCoeffValues(q: real, speed: real, diameter: real)
    requires diameter != 0.0 && speed != 0.0
    ensures var u := diameter * PI * speed / 60.0;
      && diameter * diameter * u != 0.0
      && FlowCoeff(q, speed, diameter, "MAN") == Ok(Val(q / (diameter * diameter * u)))
      && FlowCoeff(q, speed, diameter, "ISO 5389") == Ok(Val(4.0 * q / (PI * (diameter * diameter * u))))
  {
    DenominatorZero(speed, diameter, true);
    DenominatorZero(speed, diameter, false);
    var u := diameter * PI * speed / 60.0;
    assert PI * diameter * diameter * u == PI * (diameter * diameter * u);
  }

  /** The definition type is matched exactly: lower case and the empty string raise. */
  lemma FlowCoeffRejects(q: real, speed: real, diameter: real)
    ensures FlowCoeff(q, speed, diameter, "INVALID") == Err(InvalidDefType("INVALID"))
    ensures FlowCoeff(q, speed, diameter, "man").Err?
    ensures FlowCoeff(q, speed, diameter, "").Err?
    ensures FlowCoeff(q, 0.0, diameter, "MAN") == Ok(NaN)
  {
  }

  /** `sigma_u_squared`: the sum of the squared tip speeds. */
  function SigmaUSquared(tipSpeeds: seq<real>): (r: real)
    ensures 0.0 <= r
  {
    if |tipSpeeds| == 0 then 0.0
    else tipSpeeds[0] * tipSpeeds[0] + SigmaUSquared(tipSpeeds[1..])
  }

  /** The sum of squares adds over concatenation, so a doubled array doubles it;
      one speed gives its square. */
  lemma {:induction false} SigmaUSquaredAppend(a: seq<real>, b: seq<real>)
    ensures SigmaUSquared(a + b) == SigmaUSquared(a) + SigmaUSquared(b)
  {
    if |a| == 0 {
      assert a + b == b;
    } else {
      assert (a + b)[1..] == a[1..] + b;
      SigmaUSquaredAppend(a[1..], b);
    }
  }

  lemma SigmaUSquaredProperties(a: seq<real>, u: real)
    ensures SigmaUSquared(a + a) == 2.0 * SigmaUSquared(a)
    ensures SigmaUSquared([u]) == u * u
  {
    SigmaUSquaredAppend(a, a);
    assert [u][1..] == [];
  }

  lemma SigmaUSquaredExamples()
    ensures SigmaUSquared([3.0, 4.0, 5.0]) == 50.0
    ensures SigmaUSquared([3.0, 4.0, 5.0, 3.0, 4.0, 5.0]) == 100.0
    ensures SigmaUSquared([5.0]) == 25.0
  {
    var a := [3.0, 4.0, 5.0];
    assert a[1..][1..][1..] == [];
    SigmaUSquaredProperties(a, 5.0);
    assert a + a == [3.0, 4.0, 5.0, 3.0, 4.0, 5.0];
  }

  /** `poly_head_coeff`: 1000*head over sigma U^2; NaN exactly when sigma is zero. */
  function PolyHeadCoeff(head: real, sigmaUSq: real): (r: Num)
    ensures r == NaN <==> sigmaUSq == 0.0
    ensures r != NaN ==> r.Val? && r.v * sigmaUSq == 1000.0 * head
  {
    if sigmaUSq == 0.0 then NaN else Val((1000.0 * head) / sigmaUSq)
  }

  /** `work_coefficient`: 1000*enthalpy rise over sigma U^2; NaN exactly when sigma is zero. */
  function WorkCoefficient(enthalpyRise: real, sigmaUSq: real): (r: Num)
    ensures r == NaN <==> sigmaUSq == 0.0
    ensures r != NaN ==> r.Val? && r.v * sigmaUSq == 1000.0 * enthalpyRise
  {
    if sigmaUSq == 0.0 then NaN else Val((1000.0 * enthalpyRise) / sigmaUSq)
  }

  /** The head coefficient is the efficiency times the work coefficient. */
  lemma HeadCoeffIsEffTimesWork(head: real, enthalpyRise: real, sigmaUSq: real)
    requires enthalpyRise != 0.0 && sigmaUSq != 0.0
    ensures PolyHeadCoeff(head, sigmaUSq).v == PolyEff(head, enthalpyRise).v * WorkCoefficient(enthalpyRise, sigmaUSq).v
  {
    var e := PolyEff(head, enthalpyRise).v;
    var w := WorkCoefficient(enthalpyRise, sigmaUSq).v;
    var c := PolyHeadCoeff(head, sigmaUSq).v;
    assert (e * w) * sigmaUSq == e * (w * sigmaUSq);
    assert e * (1000.0 * enthalpyRise) == 1000.0 * (e * enthalpyRise);
    MulCancel(sigmaUSq, c, e * w);
  }

  lemma CoefficientExamples()
    ensures PolyHeadCoeff(500.0, 900000.0) == Val(5.0 / 9.0)
    ensures WorkCoefficient(1000.0, 2000000.0) == Val(0.5)
    ensures PolyHeadCoeff(500.0, 0.0) == NaN && WorkCoefficient(1000.0, 0.0) == NaN
  {
  }
}
