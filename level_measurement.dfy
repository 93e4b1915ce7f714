/** Hydrostatic level measurement: the level of the heavier of two stacked fluids
    from the differential pressure across a sensor of known height, and the
    static pressure of a fluid column. */
module LevelMeasurement {
  import opened Common

  /** Standard gravity [m/s^2], the default of both functions. */
  const StandardGravity: real := 9.80665

  datatype LevelError =
    | NegativeDifferentialPressure
    | NegativeHeight
    | DensitiesNotIncreasing   // the upper fluid must be the lighter one
    | ZeroDivision             // g == 0

  /** An invalid input raises when input checking is on and gives NaN otherwise. */
  function Rejected(e: LevelError, checkInput: bool): (r: Result<Num, LevelError>)
    ensures checkInput ==> r == Err(e)
    ensures !checkInput ==> r == Ok(NaN)
  {
    if checkInput then Err(e) else Ok(NaN)
  }

  /** `level_from_differential_pressure`, with dP in mbar: the checks on dP, on h
      and on the densities come in that order; the level returned balances the
      measured pressure against rho1 above the interface and rho2 below it. */
  function LevelFromDifferentialPressure(dP: real, rho1: real, rho2: real, h: real, g: real, checkInput: bool)
    : (r: Result<Num, LevelError>)
    ensures dP < 0.0 ==> r == Rejected(NegativeDifferentialPressure, checkInput)
    ensures 0.0 <= dP && h < 0.0 ==> r == Rejected(NegativeHeight, checkInput)
    ensures 0.0 <= dP && 0.0 <= h && rho2 <= rho1 ==> r == Rejected(DensitiesNotIncreasing, checkInput)
    ensures 0.0 <= dP && 0.0 <= h && rho1 < rho2 && g == 0.0 ==> r == Err(ZeroDivision)
    ensures (r.Ok? && r.value.Val?) <==> 0.0 <= dP && 0.0 <= h && rho1 < rho2 && g != 0.0
    ensures r.Ok? && r.value.Val? ==>
      100.0 * dP == rho1 * g * (h - r.value.v) + rho2 * g * r.value.v
  {
    if dP < 0.0 then Rejected(NegativeDifferentialPressure, checkInput)
    else if h < 0.0 then Rejected(NegativeHeight, checkInput)
    else
      var dPPa := dP * 100.0;
      if rho1 >= rho2 then Rejected(DensitiesNotIncreasing, checkInput)
      else if g == 0.0 then Err(ZeroDivision)
      else
        var h2 := (dPPa - rho1 * g * h) / (g * (rho2 - rho1));
        BalanceFromLevel(dPPa, rho1, rho2, h, g, h2);
        Ok(Val(h2))
  }

  lemma BalanceFromLevel(dPPa: real, rho1: real, rho2: real, h: real, g: real, h2: real)
    requires g != 0.0 && rho1 < rho2
    requires h2 == (dPPa - rho1 * g * h) / (g * (rho2 - rho1))
    ensures dPPa == rho1 * g * (h - h2) + rho2 * g * h2
  {
    MulNonZero(g, rho2 - rho1);
    assert h2 * (g * (rho2 - rho1)) == dPPa - rho1 * g * h;
  }

  datatype StaticPressureError = UnsupportedPressureUnit(unit: string)

  /** `static_fluid_pressure`: rho*g*h in Pa, reported in the unit asked for
      (case-insensitive); any other unit raises. */
  function StaticFluidPressure(rho: real, h: real, unit: string, g: real): (r: Result<real, StaticPressureError>)
    ensures r.Err? <==> Lower(unit) !in {"pa", "mbar", "bar", "bara"}
    ensures r.Err? ==> r.error == UnsupportedPressureUnit(unit)
    ensures Lower(unit) == "pa" ==> r == Ok(rho * g * h)
  {
    var pPa := rho * g * h;
    var u := Lower(unit);
    if u == "pa" then Ok(pPa)
    else if u == "mbar" then Ok(pPa / 100.0)
    else if u in {"bar", "bara"} then Ok(pPa / 100000.0)
    else Err(UnsupportedPressureUnit(unit))
  }

  /** One column reported in each unit: Pa = 100 mbar = 100000 bar, 'bara' is 'bar',
      and the unit name is matched without regard to case. */
  lemma StaticPressureUnits(rho: real, h: real, g: real)
    ensures StaticFluidPressure(rho, h, "Pa", g).Ok? && StaticFluidPressure(rho, h, "mbar", g).Ok?
            && StaticFluidPressure(rho, h, "bar", g).Ok?
    ensures StaticFluidPressure(rho, h, "Pa", g).Ok? && StaticFluidPressure(rho, h, "mbar", g).Ok? &&
            StaticFluidPressure(rho, h, "Pa", g).value == 100.0 * StaticFluidPressure(rho, h, "mbar", g).value
    ensures StaticFluidPressure(rho, h, "Pa", g).Ok? && StaticFluidPressure(rho, h, "bar", g).Ok? &&
            StaticFluidPressure(rho, h, "Pa", g).value == 100000.0 * StaticFluidPressure(rho, h, "bar", g).value
    ensures StaticFluidPressure(rho, h, "bara", g) == StaticFluidPressure(rho, h, "bar", g)
    ensures StaticFluidPressure(rho, h, "MBAR", g) == StaticFluidPressure(rho, h, "mbar", g)
    ensures StaticFluidPressure(rho, h, "psi", g).Err?
  {
    assert Lower("Pa") == "pa";
    assert Lower("mbar") == "mbar";
    assert Lower("MBAR") == "mbar";
    assert Lower("bar") == "bar";
    assert Lower("bara") == "bara";
    assert Lower("psi") == "psi";
  }

  /** The column pressure of a lower-cased unit name is that of the name itself. */
  lemma StaticPressureCaseInsensitive(rho: real, h: real, unit: string, g: real)
    ensures StaticFluidPressure(rho, h, Lower(unit), g) == StaticFluidPressure(rho, h, unit, g)
            || (StaticFluidPressure(rho, h, unit, g).Err? && StaticFluidPressure(rho, h, Lower(unit), g).Err?)
  {
    LowerIdempotent(unit);
  }

  /** The column pressure is linear in the density and in the height, and zero
      for a column of no height. */
  lemma StaticPressureLinear(rhoA: real, rhoB: real, hA: real, hB: real, unit: string, g: real)
    requires StaticFluidPressure(0.0, 0.0, unit, g).Ok?
    ensures StaticFluidPressure(rhoA + rhoB, hA, unit, g).value
            == StaticFluidPressure(rhoA, hA, unit, g).value + StaticFluidPressure(rhoB, hA, unit, g).value
    ensures StaticFluidPressure(rhoA, hA + hB, unit, g).value
            == StaticFluidPressure(rhoA, hA, unit, g).value + StaticFluidPressure(rhoA, hB, unit, g).value
    ensures StaticFluidPressure(rhoA, 0.0, unit, g) == Ok(0.0)
  {
    assert (rhoA + rhoB) * g * hA == rhoA * g * hA + rhoB * g * hA;
    assert rhoA * g * (hA + hB) == rhoA * g * hA + rhoA * g * hB;
  }

  /** Ten metres of water column at standard gravity, as in the unit tests. */
  lemma StaticPressureExamples()
    ensures StaticFluidPressure(1000.0, 10.0, "mbar", StandardGravity) == Ok(980.665)
    ensures StaticFluidPressure(1000.0, 10.0, "Pa", StandardGravity) == Ok(98066.5)
    ensures StaticFluidPressure(1000.0, 10.0, "bar", StandardGravity) == Ok(0.980665)
  {
    assert Lower("mbar") == "mbar";
    assert Lower("Pa") == "pa";
    assert Lower("bar") == "bar";
  }

  /** The level calculation inverts the hydrostatics: the differential pressure
      of rho1 over h - h2 plus rho2 over h2, read in mbar, gives back h2. */
  lemma LevelInvertsStaticPressure(rho1: real, rho2: real, h: real, h2: real, g: real, checkInput: bool)
    requires 0.0 <= h && rho1 < rho2 && g != 0.0
    requires 0.0 <= rho1 * g * (h - h2) + rho2 * g * h2
    ensures StaticFluidPressure(rho1, h - h2, "mbar", g).Ok? && StaticFluidPressure(rho2, h2, "mbar", g).Ok?
    ensures StaticFluidPressure(rho1, h - h2, "mbar", g).Ok? && StaticFluidPressure(rho2, h2, "mbar", g).Ok? &&
            LevelFromDifferentialPressure(
              StaticFluidPressure(rho1, h - h2, "mbar", g).value + StaticFluidPressure(rho2, h2, "mbar", g).value,
              rho1, rho2, h, g, checkInput) == Ok(Val(h2))
  {
    assert Lower("mbar") == "mbar";
    var dP := rho1 * g * (h - h2) / 100.0 + rho2 * g * h2 / 100.0;
    assert StaticFluidPressure(rho1, h - h2, "mbar", g) == Ok(rho1 * g * (h - h2) / 100.0);
    assert StaticFluidPressure(rho2, h2, "mbar", g) == Ok(rho2 * g * h2 / 100.0);
    assert 100.0 * dP == rho1 * g * (h - h2) + rho2 * g * h2;
    var r := LevelFromDifferentialPressure(dP, rho1, rho2, h, g, checkInput);
    var x := r.value.v;
    assert rho1 * g * (h - x) + rho2 * g * x == rho1 * g * (h - h2) + rho2 * g * h2;
    assert (g * (rho2 - rho1)) * x == (g * (rho2 - rho1)) * h2;
    MulNonZero(g, rho2 - rho1);
    MulCancel(g * (rho2 - rho1), x, h2);
  }
}
