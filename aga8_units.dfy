/** The unit normalisers of the AGA8 facade: pressure to kPa and temperature to
    kelvin, each a case-insensitive dispatch on the unit name that raises for any
    name it does not know. */
module Aga8Units {
  import opened Common

  datatype UnitError =
    | UnsupportedPressureUnit(unit: string)
    | UnsupportedTemperatureUnit(unit: string)

  /** Standard atmosphere in kPa and in psi, and kPa per psi, as the source writes them. */
  const AtmosphereKPa: real := 101.325
  const AtmospherePsi: real := 14.6959488
  const KPaPerPsi: real := 6.89476

  /** The lower-cased pressure unit names the normaliser accepts. */
  const PressureUnits: set<string> := {"bara", "pa", "psi", "psia", "psig", "barg", "mpa", "kpa"}

  /** The lower-cased temperature unit names the normaliser accepts. */
  const TemperatureUnits: set<string> := {"c", "f", "k"}

  /** `_pressure_unit_conversion` exactly as written: note that 'psia', an
      absolute unit, has one standard atmosphere added to it. */
  function PressureToKPaAsWritten(value: real, unit: string): (r: Result<real, UnitError>)
    ensures r.Err? <==> Lower(unit) !in PressureUnits
    ensures r.Err? ==> r.error == UnsupportedPressureUnit(unit)
    ensures Lower(unit) == "kpa" ==> r == Ok(value)
    ensures Lower(unit) == "pa" ==> r == Ok(value / 1000.0)
    ensures Lower(unit) == "mpa" ==> r == Ok(value * 1000.0)
    ensures Lower(unit) == "bara" ==> r == Ok(value * 100.0)
    ensures Lower(unit) == "barg" ==> r == Ok(value * 100.0 + AtmosphereKPa)
    ensures Lower(unit) == "psi" ==> r == Ok(value * KPaPerPsi)
    ensures Lower(unit) == "psia" ==> r == Ok((value + AtmospherePsi) * KPaPerPsi)
    ensures Lower(unit) == "psig" ==> r == Ok(value * KPaPerPsi + AtmosphereKPa)
  {
    var u := Lower(unit);
    if u == "bara" then Ok(value * 100.0)
    else if u == "pa" then Ok(value / 1000.0)
    else if u == "psi" then Ok(value * KPaPerPsi)
    else if u == "psia" then Ok((value + AtmospherePsi) * KPaPerPsi)
    else if u == "psig" then Ok(value * KPaPerPsi + AtmosphereKPa)
    else if u == "barg" then Ok(value * 100.0 + AtmosphereKPa)
    else if u == "mpa" then Ok(value * 1000.0)
    else if u == "kpa" then Ok(value)
    else Err(UnsupportedPressureUnit(unit))
  }

  /** The pressure normaliser with 'psia' read as the absolute unit it names:
      the same conversion as 'psi'. Every other unit is converted as written. */
  function PressureToKPa(value: real, unit: string): (r: Result<real, UnitError>)
    ensures r.Err? <==> Lower(unit) !in PressureUnits
    ensures r.Err? ==> r.error == UnsupportedPressureUnit(unit)
    ensures Lower(unit) == "psia" ==> r == Ok(value * KPaPerPsi)
    ensures Lower(unit) != "psia" ==> r == PressureToKPaAsWritten(value, unit)
  {
    if Lower(unit) == "psia" then Ok(value * KPaPerPsi)
    else PressureToKPaAsWritten(value, unit)
  }

  /** `_temperature_unit_conversion`: Celsius, Fahrenheit or kelvin to kelvin. */
  function TemperatureToK(value: real, unit: string): (r: Result<real, UnitError>)
    ensures r.Err? <==> Lower(unit) !in TemperatureUnits
    ensures r.Err? ==> r.error == UnsupportedTemperatureUnit(unit)
  {
    var u := Lower(unit);
    if u == "c" then Ok(value + 273.15)
    else if u == "f" then Ok((value - 32.0) * 5.0 / 9.0 + 273.15)
    else if u == "k" then Ok(value)
    else Err(UnsupportedTemperatureUnit(unit))
  }

  /** The unit name is matched without regard to case: a unit and its lower-cased
      spelling give the same kPa value, and fail together. */
  lemma PressureCaseInsensitive(value: real, unit: string)
    ensures PressureToKPa(value, Lower(unit)).Ok? == PressureToKPa(value, unit).Ok?
    ensures PressureToKPa(value, unit).Ok? ==>
      PressureToKPa(value, Lower(unit)).value == PressureToKPa(value, unit).value
  {
    LowerIdempotent(unit);
  }

  lemma TemperatureCaseInsensitive(value: real, unit: string)
    ensures TemperatureToK(value, Lower(unit)).Ok? == TemperatureToK(value, unit).Ok?
    ensures TemperatureToK(value, unit).Ok? ==>
      TemperatureToK(value, Lower(unit)).value == TemperatureToK(value, unit).value
  {
    LowerIdempotent(unit);
  }

  /** A converted absolute pressure read as gauge: one standard atmosphere more. */
  function Gauge(r: Result<real, UnitError>): (g: Result<real, UnitError>)
    ensures g.Ok? <==> r.Ok?
    ensures g.Ok? ==> g.value - r.value == AtmosphereKPa
    ensures r.Err? ==> g == r
  {
    if r.Ok? then Ok(r.value + AtmosphereKPa) else r
  }

  /** kPa is taken as it is and psi is scaled by 6.89476 kPa per psi; gauge units
      sit one standard atmosphere above their absolute counterparts, and the
      decimal units differ by powers of ten. Together these fix every unit. */
  lemma PressureUnitRelations(v: real)
    ensures PressureToKPa(v, "kPa") == Ok(v)
    ensures PressureToKPa(v, "psi") == Ok(v * KPaPerPsi)
    ensures PressureToKPa(v, "barg") == Gauge(PressureToKPa(v, "bara"))
    ensures PressureToKPa(v, "psig") == Gauge(PressureToKPa(v, "psia"))
    ensures PressureToKPa(v, "psia") == PressureToKPa(v, "psi")
    ensures PressureToKPa(v, "bara") == PressureToKPa(100.0 * v, "kPa")
    ensures PressureToKPa(v, "MPa") == PressureToKPa(1000.0 * v, "kPa")
    ensures PressureToKPa(1000.0 * v, "Pa") == PressureToKPa(v, "kPa")
  {
    PressureNames();
    Anchors(v, "kPa", "psi");
    BarRelations(v, "kPa", "bara", "barg");
    PsiRelations(v, "psi", "psia", "psig");
    DecimalRelations(v, "kPa", "MPa", "Pa");
  }

  /** The relations above, unit family by unit family, for any spelling of the names. */
  lemma Anchors(v: real, kpa: string, psi: string)
    requires Lower(kpa) == "kpa" && Lower(psi) == "psi"
    ensures PressureToKPa(v, kpa) == Ok(v)
    ensures PressureToKPa(v, psi) == Ok(v * KPaPerPsi)
  {
  }

  lemma BarRelations(v: real, kpa: string, bara: string, barg: string)
    requires Lower(kpa) == "kpa" && Lower(bara) == "bara" && Lower(barg) == "barg"
    ensures PressureToKPa(v, barg) == Gauge(PressureToKPa(v, bara))
    ensures PressureToKPa(v, bara) == PressureToKPa(100.0 * v, kpa)
  {
    BarValues(v, bara, barg);
    GaugeOf(PressureToKPa(v, barg), PressureToKPa(v, bara), v * 100.0);
  }

  lemma PsiRelations(v: real, psi: string, psia: string, psig: string)
    requires Lower(psi) == "psi" && Lower(psia) == "psia" && Lower(psig) == "psig"
    ensures PressureToKPa(v, psig) == Gauge(PressureToKPa(v, psia))
    ensures PressureToKPa(v, psia) == PressureToKPa(v, psi)
  {
    PsiValues(v, psia, psig);
    GaugeOf(PressureToKPa(v, psig), PressureToKPa(v, psia), v * KPaPerPsi);
  }

  lemma DecimalRelations(v: real, kpa: string, mpa: string, pa: string)
    requires Lower(kpa) == "kpa" && Lower(mpa) == "mpa" && Lower(pa) == "pa"
    ensures PressureToKPa(v, mpa) == PressureToKPa(1000.0 * v, kpa)
    ensures PressureToKPa(1000.0 * v, pa) == PressureToKPa(v, kpa)
  {
  }

  lemma BarValues(v: real, bara: string, barg: string)
    requires Lower(bara) == "bara" && Lower(barg) == "barg"
    ensures PressureToKPa(v, bara) == Ok(v * 100.0)
    ensures PressureToKPa(v, barg) == Ok(v * 100.0 + AtmosphereKPa)
  {
  }

  lemma PsiValues(v: real, psia: string, psig: string)
    requires Lower(psia) == "psia" && Lower(psig) == "psig"
    ensures PressureToKPa(v, psia) == Ok(v * KPaPerPsi)
    ensures PressureToKPa(v, psig) == Ok(v * KPaPerPsi + AtmosphereKPa)
  {
  }

  lemma GaugeOf(gauge: Result<real, UnitError>, absolute: Result<real, UnitError>, x: real)
    requires absolute == Ok(x) && gauge == Ok(x + AtmosphereKPa)
    ensures gauge == Gauge(absolute)
  {
  }

  /** The spellings used above, lower-cased. */
  lemma PressureNames()
    ensures Lower("barg") == "barg" && Lower("bara") == "bara"
    ensures Lower("psig") == "psig" && Lower("psia") == "psia" && Lower("psi") == "psi"
    ensures Lower("kPa") == "kpa" && Lower("MPa") == "mpa" && Lower("Pa") == "pa"
  {
    assert Lower("barg") == "barg";
    assert Lower("bara") == "bara";
    assert Lower("psig") == "psig";
    assert Lower("psia") == "psia";
    assert Lower("psi") == "psi";
    assert Lower("kPa") == "kpa";
    assert Lower("MPa") == "mpa";
    assert Lower("Pa") == "pa";
  }

  /** One state written in several units normalises to the same pressure:
      40 bara is 4 000 000 Pa, 38.98675 barg and 4 MPa. */
  lemma SamePressureInUnits()
    ensures PressureToKPa(40.0, "bara") == Ok(4000.0)
    ensures PressureToKPa(4000000.0, "Pa") == Ok(4000.0)
    ensures PressureToKPa(38.98675, "barg") == Ok(4000.0)
    ensures PressureToKPa(4.0, "Mpa") == Ok(4000.0)
  {
    assert Lower("bara") == "bara";
    assert Lower("Pa") == "pa";
    assert Lower("barg") == "barg";
    assert Lower("Mpa") == "mpa";
  }

  /** Fahrenheit and Celsius inputs that name the same temperature give the same
      kelvin value, and so does the kelvin value itself. */
  lemma TemperatureUnitsAgree(c: real)
    ensures TemperatureToK(9.0 / 5.0 * c + 32.0, "F") == TemperatureToK(c, "C")
    ensures TemperatureToK(c + 273.15, "K") == TemperatureToK(c, "C")
    ensures TemperatureToK(c, "C").Ok? && TemperatureToK(c, "C").value == c + 273.15
  {
    assert Lower("F") == "f";
    assert Lower("C") == "c";
    assert Lower("K") == "k";
  }

  /** As written, 'psia' is converted as if it were a gauge reading: the result is
      the 'psi' conversion of the reading plus one atmosphere, so zero psia
      (vacuum) comes out at about one atmosphere instead of zero. */
  lemma PsiaAsWrittenAddsAtmosphere(v: real)
    ensures PressureToKPaAsWritten(v, "psia") == PressureToKPaAsWritten(v + AtmospherePsi, "psi")
    ensures PressureToKPaAsWritten(0.0, "psia") == Ok(AtmospherePsi * KPaPerPsi)
    ensures PressureToKPaAsWritten(0.0, "psia") != PressureToKPaAsWritten(0.0, "psi")
  {
    assert Lower("psia") == "psia";
    assert Lower("psi") == "psi";
  }

  /** The corrected normaliser differs from the code as written only for 'psia'. */
  lemma CorrectedDiffersOnlyForPsia(v: real, unit: string)
    requires Lower(unit) != "psia"
    ensures PressureToKPa(v, unit) == PressureToKPaAsWritten(v, unit)
  {
  }
}
