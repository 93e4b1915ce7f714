/** Gas density meter (Micro Motion GDM / 7812) calculations: the density from
    the resonator time period, its temperature and velocity-of-sound corrections,
    specific gravity, and the relation between density, speed of sound and
    isentropic exponent. */
module GasDensityMeters {
  import opened Common

  /** `GDM_uncorr_dens`: the calibration polynomial K0 + K1*tau + K2*tau^2 of
      equation 2-1 of the GDM manual, written here in Horner form. */
  function UncorrectedDensity(tau: real, k0: real, k1: real, k2: real): (du: real)
    ensures du == k0 + tau * (k1 + k2 * tau)
  {
    k0 + (k1 * tau) + (k2 * (tau * tau))
  }

  /** The polynomial is K0 at a zero period and linear in the calibration factors. */
  lemma UncorrectedDensityProperties(tau: real, k0: real, k1: real, k2: real, c: real)
    ensures UncorrectedDensity(0.0, k0, k1, k2) == k0
    ensures UncorrectedDensity(tau, c * k0, c * k1, c * k2) == c * UncorrectedDensity(tau, k0, k1, k2)
  {
  }

  /** `GDM_tempcorr_dens`: equation 2-2 of the GDM manual. */
  function TemperatureCorrectedDensity(du: real, k18: real, k19: real, t: real, tCal: real): (dt: real)
    ensures dt - du == (t - tCal) * (k18 * du + k19)
    ensures t == tCal ==> dt == du
  {
    du * (1.0 + k18 * (t - tCal)) + k19 * (t - tCal)
  }

  /** The correction is affine in the uncorrected density: differences are scaled
      by 1 + K18*(T - Tcal). The unit test's value follows. */
  lemma TemperatureCorrectionAffine(du1: real, du2: real, k18: real, k19: real, t: real, tCal: real)
    ensures TemperatureCorrectedDensity(du1, k18, k19, t, tCal) - TemperatureCorrectedDensity(du2, k18, k19, t, tCal)
            == (du1 - du2) * (1.0 + k18 * (t - tCal))
    ensures TemperatureCorrectedDensity(50.0, -0.000017973, 0.00034502, 100.0, 20.0) == 49.9557096
  {
  }

  /** The default molar mass of air [kg/kmol]. */
  const AirMolarMass: real := 28.96469

  datatype GdmError = ZeroDivision

  /** `gas_spesific_gravity`: gas over air molar mass; a zero air molar mass
      raises. */
  function SpecificGravity(mwGas: real, mwAir: real): (r: Result<real, GdmError>)
    ensures r.Err? <==> mwAir == 0.0
    ensures r.Ok? ==> r.value * mwAir == mwGas
  {
    if mwAir == 0.0 then Err(ZeroDivision) else Ok(mwGas / mwAir)
  }

  /** `GDM_G`: specific gravity over the heat capacity ratio; a zero ratio raises. */
  function GdmG(sg: real, cpCv: real): (r: Result<real, GdmError>)
    ensures r.Err? <==> cpCv == 0.0
    ensures r.Ok? ==> r.value * cpCv == sg
  {
    if cpCv == 0.0 then Err(ZeroDivision) else Ok(sg / cpCv)
  }

  /** Air has specific gravity one, and G of any gas multiplied back by Cp/Cv and
      the air molar mass returns the gas molar mass. */
  lemma SpecificGravityProperties(mwGas: real, cpCv: real)
    requires cpCv != 0.0
    ensures SpecificGravity(AirMolarMass, AirMolarMass) == Ok(1.0)
    ensures GdmG(SpecificGravity(mwGas, AirMolarMass).value, cpCv).value * cpCv * AirMolarMass == mwGas
  {
  }

  /** The default constant A of the user gas equation. */
  const UserGasA: real := 0.00236

  /** `GDM_VOScorr_dens`: equation 2-3 of the GDM manual; K3/(DT + K4) and
      G/(t + 273) raise for a zero divisor. */
  function VosCorrectedDensity(dt: real, k3: real, k4: real, g: real, t: real, a: real): (r: Result<real, GdmError>)
    ensures r.Err? <==> dt + k4 == 0.0 || t + 273.0 == 0.0
    ensures r.Ok? ==> r.value == dt + dt * (k3 / (dt + k4)) * (a - g / (t + 273.0))
    ensures r.Ok? && g == a * (t + 273.0) ==> r.value == dt
  {
    if dt + k4 == 0.0 || t + 273.0 == 0.0 then Err(ZeroDivision)
    else
      var c := a - g / (t + 273.0);
      DivExact(g, a, t + 273.0);
      Ok(dt * (1.0 + ((k3 / (dt + k4)) * c)))
  }

  lemma DivExact(x: real, q: real, d: real)
    requires d != 0.0
    ensures x == q * d ==> x / d == q
  {
  }

  /** The correction factor: above one exactly when the gas's G/(t + 273) is below
      A for a positive K3/(DT + K4). */
  lemma VosCorrectionDirection(dt: real, k3: real, k4: real, g: real, t: real, a: real)
    requires 0.0 < dt && dt + k4 != 0.0 && 0.0 < k3 / (dt + k4) && t + 273.0 != 0.0
    ensures VosCorrectedDensity(dt, k3, k4, g, t, a).Ok?
    ensures dt < VosCorrectedDensity(dt, k3, k4, g, t, a).value <==> g / (t + 273.0) < a
  {
    var f := k3 / (dt + k4);
    var c := a - g / (t + 273.0);
    assert VosCorrectedDensity(dt, k3, k4, g, t, a).value == dt + dt * (f * c);
    if 0.0 < c {
      MulPositive(f, c);
      MulPositive(dt, f * c);
    } else {
      MulNonPositive(f, c);
      MulNonPositive(dt, f * c);
    }
  }

  lemma MulNonPositive(x: real, y: real)
    requires 0.0 < x && y <= 0.0
    ensures x * y <= 0.0
  {
  }

  /** The speed-of-sound constant of the 7812 and the GDM. */
  const SosConstant: real := 21000.0

  /** `GDM_SOScorr_dens`: equation E7 of the 7812 manual; NaN if the period or
      either speed of sound is zero. */
  function SosCorrectedDensity(rho: real, tau: real, cCal: real, cGas: real, k: real): (r: Num)
    ensures r == NaN <==> tau == 0.0 || cCal == 0.0 || cGas == 0.0
    ensures r != NaN ==> r.Val?
    ensures r.Val? ==> r.v * (1.0 + (k / (tau * cGas)) * (k / (tau * cGas)))
                       == rho * (1.0 + (k / (tau * cCal)) * (k / (tau * cCal)))
    ensures r.Val? && cCal == cGas ==> r.v == rho
  {
    if tau == 0.0 || cCal == 0.0 || cGas == 0.0 then NaN
    else
      MulNonZero(tau, cCal);
      MulNonZero(tau, cGas);
      var xCal := k / (tau * cCal);
      var xGas := k / (tau * cGas);
      assert 0.0 < 1.0 + xGas * xGas;
      assert cCal == cGas ==> xCal == xGas;
      DivSelf(1.0 + xGas * xGas);
      Val(rho * ((1.0 + xCal * xCal) / (1.0 + xGas * xGas)))
  }

  /** A gas faster than the calibration gas reads low: for a positive period,
      0 < c_cal < c_gas and K != 0 the correction raises a positive density. */
  lemma SosCorrectionRaisesDensity(rho: real, tau: real, cCal: real, cGas: real, k: real)
    requires 0.0 < tau && 0.0 < cCal < cGas && k != 0.0 && 0.0 < rho
    ensures SosCorrectedDensity(rho, tau, cCal, cGas, k).Val?
    ensures rho < SosCorrectedDensity(rho, tau, cCal, cGas, k).v
  {
    var pc := tau * cCal;
    var pg := tau * cGas;
    MulPositive(tau, cCal);
    assert pc < pg by {
      assert pg - pc == tau * (cGas - cCal);
      MulPositive(tau, cGas - cCal);
    }
    var xCal := k / pc;
    var xGas := k / pg;
    SquaresOrdered(k, pc, pg);
    var num := 1.0 + xCal * xCal;
    var den := 1.0 + xGas * xGas;
    assert 0.0 < den < num;
    FactorAboveOne(rho, num, den);
  }

  lemma SquaresOrdered(k: real, p: real, q: real)
    requires k != 0.0 && 0.0 < p < q
    ensures (k / q) * (k / q) < (k / p) * (k / p)
  {
    var a := k / p;
    var b := k / q;
    assert a * p == k && b * q == k;
    assert a != 0.0;
    SquarePositive(a);
    assert a * a * (p * p) == k * k;
    assert b * b * (q * q) == k * k;
    assert p * p < q * q by {
      MulPositive(p, q - p);
      MulPositive(q, q - p);
    }
    MulPositive(q, q);
    MulPositive(a * a, q * q - p * p);
    assert b * b * (q * q) < a * a * (q * q);
    MulLessCancel(b * b, a * a, q * q);
  }

  lemma MulLessCancel(x: real, y: real, c: real)
    requires 0.0 < c && x * c < y * c
    ensures x < y
  {
  }

  lemma FactorAboveOne(rho: real, num: real, den: real)
    requires 0.0 < rho && 0.0 < den < num
    ensures rho < rho * (num / den)
  {
    assert 1.0 < num / den;
    MulPositive(rho, num / den - 1.0);
  }

  /** `gas_density_from_SOS_and_IE`: rho = IE*P/SOS^2 with P in Pa; NaN for a
      zero speed of sound. */
  function DensityFromSos(sos: real, ie: real, pBara: real): (r: Num)
    ensures r == NaN <==> sos == 0.0
    ensures r != NaN ==> r.Val? && r.v * (sos * sos) == ie * (pBara * 100000.0)
  {
    var pPa := pBara * 100000.0;
    if sos == 0.0 then NaN
    else
      MulNonZero(sos, sos);
      Val(ie * pPa / (sos * sos))
  }

  /** `gas_SOS_from_density_and_IE`: SOS = sqrt(IE*P/rho); NaN for a zero density,
      and NaN from `np.sqrt` when IE*P/rho is negative. */
  function SosFromDensity(rho: real, ie: real, pBara: real, sqrt: real -> real): (r: Num)
    requires IsSqrt(sqrt)
    ensures rho == 0.0 ==> r == NaN
    ensures rho != 0.0 ==> (r == NaN <==> ie * (pBara * 100000.0) / rho < 0.0)
    ensures r != NaN ==> r.Val? && 0.0 <= r.v && r.v * r.v * rho == ie * (pBara * 100000.0)
  {
    var pPa := pBara * 100000.0;
    if rho == 0.0 then NaN
    else
      var x := ie * pPa / rho;
      if x < 0.0 then NaN
      else
        assert x * rho == ie * pPa;
        Val(sqrt(x))
  }

  /** The two relations invert each other: the density from the speed of sound
      the density gives is that density, and the other way round. */
  lemma DensitySosRoundTrip(rho: real, ie: real, pBara: real, sqrt: real -> real)
    requires IsSqrt(sqrt) && 0.0 < rho && 0.0 < ie * pBara
    ensures SosFromDensity(rho, ie, pBara, sqrt).Val?
    ensures 0.0 < SosFromDensity(rho, ie, pBara, sqrt).v
    ensures DensityFromSos(SosFromDensity(rho, ie, pBara, sqrt).v, ie, pBara) == Val(rho)
  {
    var p := ie * (pBara * 100000.0);
    assert 0.0 < p;
    var x := p / rho;
    DivPositive(p, rho);
    SqrtPositive(sqrt, x);
    var c := SosFromDensity(rho, ie, pBara, sqrt).v;
    assert c * c * rho == p;
    var d := DensityFromSos(c, ie, pBara).v;
    assert d * (c * c) == p;
    MulNonZero(c, c);
    assert (c * c) * d == (c * c) * rho;
    MulCancel(c * c, d, rho);
  }

  lemma SosDensityRoundTrip(sos: real, ie: real, pBara: real, sqrt: real -> real)
    requires IsSqrt(sqrt) && 0.0 < sos && 0.0 < ie * pBara
    ensures DensityFromSos(sos, ie, pBara).Val? && 0.0 < DensityFromSos(sos, ie, pBara).v
    ensures SosFromDensity(DensityFromSos(sos, ie, pBara).v, ie, pBara, sqrt) == Val(sos)
  {
    var p := ie * (pBara * 100000.0);
    assert 0.0 < p;
    MulPositive(sos, sos);
    var rho := DensityFromSos(sos, ie, pBara).v;
    assert rho * (sos * sos) == p;
    assert 0.0 < rho by {
      if rho <= 0.0 {
        MulNonPositiveLeft(rho, sos * sos);
      }
    }
    DivPositive(p, rho);
    var c := SosFromDensity(rho, ie, pBara, sqrt).v;
    SameSquare(c, sos, rho, p);
  }

  /** Two non-negative speeds whose squares give the same pressure over one density agree. */
  lemma SameSquare(c: real, sos: real, rho: real, p: real)
    requires 0.0 <= c && 0.0 < sos && 0.0 < rho
    requires c * c * rho == p && rho * (sos * sos) == p
    ensures c == sos
  {
    assert rho * (c * c) == rho * (sos * sos);
    MulCancel(rho, c * c, sos * sos);
    SquareRootUnique(c, sos);
  }

  lemma MulNonPositiveLeft(x: real, y: real)
    requires x <= 0.0 && 0.0 < y
    ensures x * y <= 0.0
  {
  }

  lemma SquareRootUnique(a: real, b: real)
    requires 0.0 <= a && 0.0 <= b && a * a == b * b
    ensures a == b
  {
    assert (a - b) * (a + b) == 0.0;
    if a != b {
      assert a + b != 0.0;
      MulNonZero(a - b, a + b);
    }
  }
}
