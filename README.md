# pvtlib core in Dafny

The model covers the parts of pvtlib (equinor) that involve no foreign engine, no
solver and no irrational arithmetic beyond a square root.

**AGA8 facade** (`pvtlib/aga8.py`). The model covers five parts:
- choosing the equation of state by name (GERG-2008 or DETAIL);
- the 21-component list, the two molar-mass tables, and the map from component name to position;
- the case-insensitive pressure and temperature unit normalisers;
- the dictionary built by `to_aga8_composition`;
- `mix`, the mass-weighted blending of compositions. It has two error modes: raise when input checking is on, otherwise return a result full of NaN.

The facade is a class (`Aga8Facade.Aga8`) whose constructor fixes the configuration. Its `Mix` method follows the source's loops:
- collect the keys seen;
- validate each composition;
- fill the composition matrix row by row.

`Mix` is proved equal to a specification function (`Aga8Mix.MixOf`). The conservation laws of mixing are then proved about that function:
- mass balance;
- mole balance;
- mole percent summing to 100;
- invariance under rescaling an input;
- order independence: two streams commute (`MixCommutes`), and exchanging any two neighbouring streams of a longer list, with their masses, changes nothing (`MixSwapped`); every reordering is a chain of such exchanges;
- associativity: mixing A, B and C gives what mixing A with the mixture of B and C gives, at the summed mass of B and C (`MixAssociative`);
- a mass of zero being ignored.

**Secondary formulas.** These are:
- hydrostatic level and column pressure (`pvtlib/metering/level_measurement.py`);
- deviation statistics (`pvtlib/utilities.py`);
- compressor head, efficiency and dimensionless coefficients (`pvtlib/equipment/compressors.py`);
- gas density meter corrections (`pvtlib/metering/gas_density_meters.py`);
- superficial velocity and liquid holdup (`pvtlib/fluid_mechanics.py`);
- valve flow factor (`pvtlib/equipment/valves.py`);
- scrubber K-value and inlet momentum (`pvtlib/equipment/separators.py`).

Each is a function whose contract states the guard order of its NaN or raise branches and an identity its value satisfies: the formula itself, multiplied out or with its divisions cleared where that says more than the code's own expression. Two functions are exceptions, because their own contracts state only bounds:
- `Compressors.SigmaUSquared` states only that its value is ≥ 0. `SigmaUSquaredAppend` and `SigmaUSquaredProperties` fix the value: additive over concatenation, and u² for [u].
- `Separators.InletMomentum` states only the sign and the zero cases. `InletMomentumSymmetric` and `KValueFromMomentum` fix the value: even in u, linear in ρ, and K²·(ρl − ρg) at Usg.

Lemmas prove the inverses, symmetries and linearities that relate the functions.

**Numeric model.**
- Floats are modelled as Dafny `real`, so every identity is exact.
- `Common.Num` is a value, NaN, or an infinity. An infinity arises only where numpy divides by zero.
- A Python exception on a scalar becomes `Err` of a `Result`.
  - `ZeroDivisionError` from a float division becomes an error kind of its own.
- Square roots are a parameter `sqrt` that must satisfy `Common.IsSqrt`: non-negative, with `sqrt(x)*sqrt(x) == x` for `x >= 0`.
- π is the constant `Common.PI`, the decimal Python prints for `math.pi`.

Files, one module each:
- `common.dfy`
- `aga8_tables.dfy`, `aga8_units.dfy`, `aga8_composition.dfy`, `aga8_mix.dfy`, `aga8_facade.dfy`
- `level_measurement.dfy`, `utilities.dfy`, `compressors.dfy`, `gas_density_meters.dfy`, `fluid_mechanics.dfy`, `valves.dfy`, `separators.dfy`

### Observations on the source

These are proved in the model, except the `mix` docstring values, which are computed by hand.

- **`mix`: the negative-total-mass check is unreachable over exact arithmetic.** The check is at `pvtlib/aga8.py:607-611`, and `Aga8Mix.NegativeTotalMassUnreachable` proves it unreachable for real numbers. The argument:
  - the molar masses are positive and the component amounts are not negative;
  - a negative total mass therefore always leaves some component with negative moles;
  - negative moles are checked first.
  With float rounding the check can still fire: when masses nearly cancel, the rounded mole sums and the rounded total mass need not agree in sign. The model does not capture rounding.
- **`poly_head`: the docstring example is wrong.** It claims 480.0, but the formula gives 12.5 for those inputs (`Compressors.PolyHeadExamples`). The model follows the formula.
- **`mix`: the docstring example is not what the code computes.** It mixes {C1: 90, C2: 10} at mass 100 with {C1: 80, C3: 20} at mass 50, and shows {C1: 86.67, C2: 6.67, C3: 6.67}. That is the mass-weighted average of the percents. The code converts each stream to moles through its average molar mass. Computed by hand, not executed, that gives roughly C1 87.1, C2 7.1 and C3 5.7. The model follows the code.
- **`liquid_holdup_from_density`: the endpoints hold only when the gas is lighter than the liquid.** When the gas is denser, only the two clamps 0 and 1 are ever returned (`FluidMechanics.HoldupEndpoints`).
- **`Kv`: it accepts a negative SG over a negative dP, but `Q_from_Kv` rejects that pair** (`Valves.NegativeGravityAndDrop`).

## Model

| member | source | states |
|---|---|---|
| Aga8Tables.ParseEquation | pvtlib/aga8.py:52-57 | The upper-cased name selects GERG-2008 or DETAIL, in both directions. Every other name is an error. |
| Aga8Tables.ParseEquationCaseInsensitive | pvtlib/aga8.py:54-56 | Case is ignored: a name and its upper-cased form select the same equation, so 'gerg-2008' and 'Detail' are accepted. |
| Aga8Tables.MolarMasses | pvtlib/aga8.py:91-138 | Each equation's table has one entry per component, and every molar mass is positive. |
| Aga8Tables.TablesDiffer | pvtlib/aga8.py:91-138 | The GERG-2008 and DETAIL tables differ; methane is 16.04246 in one and 16.043 in the other. |
| Aga8Tables.ComponentsDistinct | pvtlib/aga8.py:86-88 | The 21 component names are pairwise distinct. |
| Aga8Tables.IndexMap | pvtlib/aga8.py:141 | The keys are exactly the listed names, and each name maps to a position that holds that name. |
| Aga8Tables.IndexMapInverts | pvtlib/aga8.py:141 | For distinct names, the index map sends the name at position i back to i. |
| Aga8Tables.ComponentIndices | pvtlib/aga8.py:141 | Every AGA8 component maps to its own position in the component list. |
| Aga8Units.PressureToKPaAsWritten | pvtlib/aga8.py:668-687 | The pressure normaliser as written. It fails exactly when the lower-cased unit is not one of the eight it knows, and the error names that unit. Per unit: kPa = v, Pa = v/1000, MPa = 1000·v, bara = 100·v, barg = 100·v + 101.325, psi = 6.89476·v, psia = (v + 14.6959488)·6.89476 and psig = 6.89476·v + 101.325. |
| Aga8Units.PressureToKPa | pvtlib/aga8.py:668-687 | The corrected pressure normaliser. It accepts and rejects the same units. psia gives 6.89476·v; every other unit gives the as-written value. |
| Aga8Units.TemperatureToK | pvtlib/aga8.py:710-719 | The temperature normaliser fails exactly when the lower-cased unit is not C, F or K, and the error names that unit. |
| Aga8Units.PressureCaseInsensitive | pvtlib/aga8.py:668-685 | A pressure unit and its lower-cased spelling succeed together and give the same kPa value. |
| Aga8Units.TemperatureCaseInsensitive | pvtlib/aga8.py:710-717 | A temperature unit and its lower-cased spelling succeed together and give the same kelvin value. |
| Aga8Units.Gauge | pvtlib/aga8.py:676-679 | A gauge unit: the absolute conversion plus one standard atmosphere, 101.325 kPa. It fails exactly when the absolute conversion fails, with the same error. GaugeOf and PressureUnitRelations use it for barg and psig. |
| Aga8Units.PressureUnitRelations | pvtlib/aga8.py:668-683 | The anchors kPa = v and psi = 6.89476·v. barg = bara + 101.325 kPa and psig = psia + 101.325 kPa. psia = psi. bara = 100·kPa, MPa = 1000·kPa, and 1000 Pa = 1 kPa. |
| Aga8Units.SamePressureInUnits | pvtlib/aga8.py:668-683 | 40 bara, 4 000 000 Pa, 38.98675 barg and 4 MPa all normalise to 4000 kPa. |
| Aga8Units.TemperatureUnitsAgree | pvtlib/aga8.py:710-715 | F(9/5·c + 32) = C(c) = K(c + 273.15), and C(c) = c + 273.15. |
| Aga8Units.PsiaAsWrittenAddsAtmosphere | pvtlib/aga8.py:674-675 | As written, psia(v) = psi(v + 14.6959488), so 0 psia gives one atmosphere rather than 0. |
| Aga8Units.CorrectedDiffersOnlyForPsia | pvtlib/aga8.py:668-687 | For every unit other than psia, the corrected normaliser agrees with the code as written. |
| Aga8Composition.DigitsValue | pvtlib/aga8.py:757 | `int` of a digit string is zero exactly when every digit is '0', so leading zeros do not change the carbon number (LeadingZeroCarbonNumber: C06 is six carbons). |
| Aga8Composition.Target | pvtlib/aga8.py:753-776 | The key an input name is written to, or the exception it raises. It is EmptyName exactly when nothing precedes the first '-'. A key it returns is an AGA8 component, or a carbon-number name taken literally from the input. It never raises a division by zero. The carbon-number cases are pinned by NormalAlkane, SevenIsNormalHeptane, TenAndAboveLumped, LowCarbonLiteral and MalformedNames. |
| Aga8Composition.PrefilledZeros | pvtlib/aga8.py:744-745 | The pre-filled dict has exactly the 21 AGA8 components as keys, each at 0.0. |
| Aga8Composition.Assigned | pvtlib/aga8.py:750-774 | The item-by-item assignment of value/sum into the dict. It never raises a division by zero: its only errors are name errors. Its keys, values and first error are characterised by CompositionKeys, CompositionValues and CompositionErrors. |
| Aga8Composition.Aga8CompositionOf | pvtlib/aga8.py:744-776 | An empty input gives the pre-filled dict. A division by zero is raised exactly when the input is non-empty and sums to zero. The full behaviour is characterised by CompositionKeys, CompositionValues and CompositionErrors, and the loop ToAga8Composition computes it. |
| Aga8Composition.BaseName | pvtlib/aga8.py:753 | The result is the prefix of the key before its first '-', and contains no '-'. |
| Aga8Composition.NormalAlkane | pvtlib/aga8.py:760-761 | Each carbon number from 6 to 9 names an AGA8 component (nC6..nC9). |
| Aga8Composition.ToAga8Composition | pvtlib/aga8.py:744-776 | The loop that pre-fills and then assigns entries computes exactly the specification `Aga8CompositionOf`. |
| Aga8Composition.CompositionKeys | pvtlib/aga8.py:744-774 | All 21 components are present. The keys are exactly the components plus the targets of the input names. |
| Aga8Composition.CompositionValues | pvtlib/aga8.py:750-774 | The last item to target a component sets it to value/sum. A component no item targets stays at 0.0. |
| Aga8Composition.CompositionErrors | pvtlib/aga8.py:747-776 | The call succeeds exactly when the input is empty, or the sum is non-zero and every name maps. A zero sum raises before any name check. Otherwise the first bad name decides the error. |
| Aga8Composition.SameTargetsSameComposition | pvtlib/aga8.py:753-774 | Inputs whose names map to the same targets, with the same values, give the same dictionary. |
| Aga8Composition.ScaleInvariant | pvtlib/aga8.py:747-751 | Scaling every value by any non-zero factor leaves the result unchanged, so mole percent and mole fraction agree. |
| Aga8Composition.SuffixDropped | pvtlib/aga8.py:753 | A '-suffix' after a name without '-' is ignored: name and target are unchanged. |
| Aga8Composition.SevenIsNormalHeptane | pvtlib/aga8.py:760-761 | C7 and nC7 both target nC7. |
| Aga8Composition.TenAndAboveLumped | pvtlib/aga8.py:764-765 | C10, C11, C12 and nC10 all target nC10. |
| Aga8Composition.LowCarbonLiteral | pvtlib/aga8.py:767-769 | C1 and C3, below six carbons, are used literally and target themselves. |
| Aga8Composition.ButaneShorthandLiteral | pvtlib/aga8.py:767-769 | C4 is used literally and targets the key C4, which is not an AGA8 component. |
| Aga8Composition.LeadingZeroCarbonNumber | pvtlib/aga8.py:757-761 | `int` reads C06 as six carbons, so it targets nC6. |
| Aga8Composition.SuffixedName | pvtlib/aga8.py:753 | iC4-isobutane targets iC4. |
| Aga8Composition.SuffixedComponent | pvtlib/aga8.py:753 | A component name other than a carbon number, followed by a dash and any text, targets that component. |
| Aga8Composition.MalformedNames | pvtlib/aga8.py:755-776 | Each malformed name has its own error: 'C' is too short to index, '-C1' is empty, 'C2H6' is not an integer, and 'Xe' is an illegal component. |
| Aga8Composition.LaterKeyOverwrites | pvtlib/aga8.py:761-765 | C11 and C12 at the same non-zero amount leave nC10 at 0.5, not 1.0: assignment, not accumulation. |
| Aga8Composition.SameTargetPair | pvtlib/aga8.py:744-765 | Two items whose names map to the same key leave that key at the second amount over the sum of both, every other component at zero. |
| Aga8Composition.LiteralCarbonKeyAdded | pvtlib/aga8.py:769 | C1 = 1 and C4 = 3 give C1 = 0.25 and add a 22nd key, C4 = 0.75. |
| Aga8Composition.ZeroSumRaises | pvtlib/aga8.py:747-751 | A non-empty input summing to zero raises a division by zero, even with an illegal name in it. An empty input gives the pre-filled dictionary. |
| Aga8Mix.Row | pvtlib/aga8.py:567-570 | The matrix row holds each component's amount in component order, and zero where the component is absent. |
| Aga8Mix.Rows | pvtlib/aga8.py:558-570 | There is one row per composition. |
| Aga8Mix.Fractions | pvtlib/aga8.py:583 | Normalised fractions sum to 1. |
| Aga8Mix.AverageMolarMass | pvtlib/aga8.py:586 | The average molar mass is positive, and avg·Σamounts = Σ amount·molar mass. |
| Aga8Mix.TotalMoles | pvtlib/aga8.py:590 | moles·avg = mass·1000. |
| Aga8Mix.MolesOfEach | pvtlib/aga8.py:593 | There is one mole count per component. Its sum is proved in MoleBalance. |
| Aga8Mix.ComponentMoles | pvtlib/aga8.py:593-596 | There is one summed mole count per component. Its balances are proved in MassBalance and MoleBalance. |
| Aga8Mix.NegativeNames | pvtlib/aga8.py:604-605 | A name is listed exactly when its component's moles are negative. |
| Aga8Mix.Percents | pvtlib/aga8.py:624-625 | Mole percents sum to 100. |
| Aga8Mix.PositiveEntries | pvtlib/aga8.py:629-635 | Exactly the components with positive percent appear, each with its percent. |
| Aga8Mix.UnionKeys | pvtlib/aga8.py:523-525 | The set is exactly the keys seen in any input composition. |
| Aga8Mix.Mixing | pvtlib/aga8.py:537-580 | `mix` with input checking on. The length mismatch is raised exactly when the list lengths differ. A mixture needs equal, non-zero lengths and only AGA8 components, and its total mass is the sum of the masses. The order of the remaining checks is in MixInputErrors, and MixingAcceptable reduces the rest to Outcome. |
| Aga8Mix.MixRows | pvtlib/aga8.py:573-580 | From the composition matrix on: the zero-composition-sum error is raised exactly when some row sums to zero. A mixture's total mass is the sum of the masses. |
| Aga8Mix.Outcome | pvtlib/aga8.py:599-640 | The checks in order: negative moles, negative total mass, zero total moles. The result is a mixture exactly when the moles are non-negative, the total mass is ≥ 0 and the total moles are non-zero, and it carries that total mass. Negative moles are reported exactly when some component's moles are negative. Its contents are stated by MixtureContents, and NegativeTotalMassUnreachable shows the second check never fires. |
| Aga8Mix.MixOf | pvtlib/aga8.py:523-642 | Without input checking the call never raises. It mixes exactly when the checks pass. On failure it returns NaN for every key seen in the inputs. |
| Aga8Mix.MassBalance | pvtlib/aga8.py:586-599 | Σ_i moles_i·MW_i = 1000·Σ_j mass_j, negative masses included. |
| Aga8Mix.MoleBalance | pvtlib/aga8.py:590-596 | The summed component moles equal the sum of each stream's total moles. |
| Aga8Mix.MixtureContents | pvtlib/aga8.py:599-640 | On success, total mass = Σ masses ≥ 0. Every component's moles are ≥ 0. Exactly the components with positive moles are listed, each at moles/total·100 > 0. The percents sum to 100. |
| Aga8Mix.NegativeTotalMassUnreachable | pvtlib/aga8.py:601-611 | The negative-total-mass error is never the outcome: negative moles are always reported first. |
| Aga8Mix.ZeroMolesIffZeroMass | pvtlib/aga8.py:613-621 | With non-negative moles, the total moles are zero exactly when the total mass is. |
| Aga8Mix.MixingAcceptable | pvtlib/aga8.py:558-621 | For valid, non-zero compositions, mixing reduces to the outcome of the summed moles and the total mass. |
| Aga8Mix.MixSingle | pvtlib/aga8.py:573-640 | One stream with a positive mass gives its own normalised percents and that mass. A zero mass gives zero total moles. A negative mass gives negative moles. |
| Aga8Mix.MixSelfCancels | pvtlib/aga8.py:590-621 | A stream mixed with its own negative mass ends at zero total moles. |
| Aga8Mix.OppositeMassesCancel | pvtlib/aga8.py:590-596 | Opposite masses of one composition contribute zero moles to every component. |
| Aga8Mix.MixZeroMassIgnored | pvtlib/aga8.py:590-596 | Adding a stream of zero mass does not change the result. |
| Aga8Mix.ZeroRowIgnored | pvtlib/aga8.py:590-596 | In the composition matrix, a valid row of zero mass in front leaves the outcome unchanged. |
| Aga8Mix.MixCommutes | pvtlib/aga8.py:590-599 | The order of two streams does not matter. |
| Aga8Mix.MixSwapped | pvtlib/aga8.py:537-640 | Exchanging two neighbouring streams, with their masses, leaves the result of `mix` unchanged, including which error it reports. |
| Aga8Mix.MixAssociative | pvtlib/aga8.py:586-640 | When B and C mix, mixing A, B and C gives the same result as mixing A with the mixture of B and C at mass b + c, including which error it reports. |
| Aga8Mix.RowsWithMixture | pvtlib/aga8.py:586-640 | The same on the composition matrix: a first row mixed with two valid rows gives what it gives mixed with any row holding their moles at their summed mass. |
| Aga8Mix.SwapMoles | pvtlib/aga8.py:590-599 | The summed moles of each component do not depend on the order of two neighbouring streams. |
| Aga8Mix.MixScaleInvariant | pvtlib/aga8.py:573-583 | Scaling each input composition by its own positive factor does not change the result. |
| Aga8Mix.MixInputErrors | pvtlib/aga8.py:537-580 | Errors come in this order: length mismatch before the component check, with NaN for every seen key when input checking is off; then an empty list; then an invalid component before a zero sum. |
| Aga8Facade.MolarMassesTable | pvtlib/aga8.py:91-138 | Each equation's molar-mass table is a valid table for mixing. |
| Aga8Facade.Aga8.constructor | pvtlib/aga8.py:52-141 | It stores the upper-cased name, the equation, the component list, that equation's molar masses and the index map. |
| Aga8Facade.Aga8.Create | pvtlib/aga8.py:52-57 | It fails exactly for an unknown equation name. Otherwise it builds a valid facade for that equation. |
| Aga8Facade.Aga8.UniqueComponents | pvtlib/aga8.py:523-525 | The loop collects exactly the union of the input keys. |
| Aga8Facade.Aga8.KnownComponents | pvtlib/aga8.py:560-565 | It returns true exactly when every key of the composition is an AGA8 component. |
| Aga8Facade.Aga8.FillRow | pvtlib/aga8.py:567-570 | The loop that assigns matrix entries yields exactly the row of the composition. |
| Aga8Facade.Aga8.Mix | pvtlib/aga8.py:467-642 | The method with its loops returns exactly the specification `MixOf`, using the facade's molar masses. |
| LevelMeasurement.Rejected | pvtlib/metering/level_measurement.py:32-52 | Invalid input raises when input checking is on, and gives NaN when it is off. |
| LevelMeasurement.LevelFromDifferentialPressure | pvtlib/metering/level_measurement.py:3-56 | Checks in order: dP < 0, then h < 0, then rho1 ≥ rho2, then g = 0 (division by zero). A level is returned exactly when all pass, and it balances 100·dP against rho1·g·(h−h2) + rho2·g·h2. |
| LevelMeasurement.StaticFluidPressure | pvtlib/metering/level_measurement.py:58-88 | It fails exactly for units other than pa, mbar, bar and bara (case ignored), naming the unit. Pa gives rho·g·h. |
| LevelMeasurement.StaticPressureUnits | pvtlib/metering/level_measurement.py:78-86 | Pa = 100·mbar = 100000·bar, bara = bar, and MBAR = mbar. psi raises. |
| LevelMeasurement.StaticPressureCaseInsensitive | pvtlib/metering/level_measurement.py:78-86 | A unit and its lower-cased form give the same pressure, or both raise. |
| LevelMeasurement.StaticPressureLinear | pvtlib/metering/level_measurement.py:78-84 | The pressure is additive in rho and in h, and zero at h = 0. |
| LevelMeasurement.StaticPressureExamples | pvtlib/metering/level_measurement.py:78-84 | 1000 kg/m3 over 10 m at standard gravity is 980.665 mbar, 98066.5 Pa and 0.980665 bar. |
| LevelMeasurement.LevelInvertsStaticPressure | pvtlib/metering/level_measurement.py:45-54 | The level from the mbar sum of the two column pressures is exactly h2. |
| Utilities.RelativeDifference | pvtlib/utilities.py:43-46 | It is NaN exactly when A + B = 0. Otherwise diff·(A+B) = 200·(A−B). |
| Utilities.RelativeDifferenceAntisymmetric | pvtlib/utilities.py:43-46 | Swapping the arguments negates the result, and NaN stays NaN. |
| Utilities.RelativeDifferenceExamples | pvtlib/utilities.py:43-46 | (10, 5) gives 200/3, (5, 10) gives −200/3, and (0, 0) gives NaN. |
| Utilities.Deviation | pvtlib/utilities.py:70 | reference + deviation = observed. |
| Utilities.DeviationAntisymmetric | pvtlib/utilities.py:70 | The deviation is antisymmetric, and zero for equal readings. |
| Utilities.RelativeDeviation | pvtlib/utilities.py:91-94 | It is NaN exactly when the reference is 0. Otherwise r·ref = 100·(obs − ref). |
| Utilities.RelativeDeviationOfDeviation | pvtlib/utilities.py:70-94 | relative deviation = 100·deviation/reference for a non-zero reference. |
| Utilities.RelativeDeviationExamples | pvtlib/utilities.py:91-94 | (10, 5) gives 100, (5, 10) gives −50, and a zero reference gives NaN. |
| Utilities.Max | pvtlib/utilities.py:112 | No element exceeds the maximum. |
| Utilities.MaxAttained | pvtlib/utilities.py:112 | Some element equals the maximum. |
| Utilities.Min | pvtlib/utilities.py:115 | No element is below the minimum. |
| Utilities.MinAttained | pvtlib/utilities.py:115 | Some element equals the minimum. |
| Utilities.Mean | pvtlib/utilities.py:115 | mean·n = Σ. |
| Utilities.MeanBetween | pvtlib/utilities.py:115 | min·n ≤ Σ ≤ max·n. |
| Utilities.MeanBounds | pvtlib/utilities.py:115 | min ≤ mean ≤ max. |
| Utilities.NpDivide | pvtlib/utilities.py:115 | numpy division: a value exactly for a non-zero divisor. Otherwise NaN for 0/0 and an infinity of the dividend's sign. |
| Utilities.MaxMinDiffPerc | pvtlib/utilities.py:97-117 | An empty series raises. It is NaN exactly when max = 0. Otherwise it is a value exactly when mean ≠ 0, and then r·mean = 100·(max − min); a zero mean gives +inf. |
| Utilities.ConstantSeriesNoSpread | pvtlib/utilities.py:112-115 | A constant non-zero series gives 0. |
| Utilities.PositiveSeriesSpread | pvtlib/utilities.py:112-115 | A series of positive readings gives a non-negative value. |
| Utilities.ZeroMeanSpread | pvtlib/utilities.py:112-115 | [−1, 1], whose mean is zero and maximum is not, gives +inf. |
| Utilities.SpreadExamples | pvtlib/utilities.py:112-115 | [1..5] gives 400/3, five 5s give 0, five 0s give NaN, and [] raises. |
| Compressors.PolyHead | pvtlib/equipment/compressors.py:139-144 | It is NaN when either density is 0. For n ≠ 1, head·(n−1) = 100·n·(pd/ρd − ps/ρs). At n = 1 the result is ±inf or NaN by the sign of the difference. |
| Compressors.PolyHeadReversed | pvtlib/equipment/compressors.py:139-144 | Swapping suction and discharge negates the head. |
| Compressors.PolyHeadExamples | pvtlib/equipment/compressors.py:116-144 | The docstring's inputs give 12.5, and a zero density gives NaN. |
| Compressors.PolyEff | pvtlib/equipment/compressors.py:191-196 | It is NaN exactly when the enthalpy rise is 0. Otherwise eff·rise = head. |
| Compressors.Dh | pvtlib/equipment/compressors.py:228 | h1 + dh = h2. |
| Compressors.DhProperties | pvtlib/equipment/compressors.py:228 | dh is antisymmetric and additive along a chain. 100→150 gives 50. |
| Compressors.PolyEffRecoversHead | pvtlib/equipment/compressors.py:191-228 | The efficiency times dh gives back the head, and 80 over 100 gives 0.8. |
| Compressors.ImpellerTangVel | pvtlib/equipment/compressors.py:348 | u·60 = π·N·D. |
| Compressors.ImpellerTangVelProperties | pvtlib/equipment/compressors.py:348 | It is zero at N = 0, additive in N, and linear in D. |
| Compressors.FlowCoeff | pvtlib/equipment/compressors.py:287-316 | It raises exactly for a DefType other than 'MAN' or 'ISO 5389', naming it. Otherwise it is NaN exactly when D or N is 0, and for MAN φ·D²·U = Q. |
| Compressors.TipSpeedIsImpellerVelocity | pvtlib/equipment/compressors.py:303-348 | The tip speed inside flow_coeff equals impeller_tang_vel. |
| Compressors.DenominatorZero | pvtlib/equipment/compressors.py:303-313 | Both denominators vanish exactly when D or N is 0. |
| Compressors.IsoIsManTimesFourOverPi | pvtlib/equipment/compressors.py:292-316 | ISO = MAN·4/π, so the two differ for any non-zero flow. |
| Compressors.FlowCoeffRejects | pvtlib/equipment/compressors.py:287-289 | 'INVALID', 'man' and '' raise, and N = 0 with MAN gives NaN. |
| Compressors.SigmaUSquared | pvtlib/equipment/compressors.py:382 | The sum of squared tip speeds is non-negative. |
| Compressors.SigmaUSquaredAppend | pvtlib/equipment/compressors.py:382 | It is additive over concatenation. |
| Compressors.SigmaUSquaredProperties | pvtlib/equipment/compressors.py:382 | A doubled list gives double the value, and [u] gives u². |
| Compressors.SigmaUSquaredExamples | pvtlib/equipment/compressors.py:382 | [3, 4, 5] gives 50, the list doubled gives 100, and [5] gives 25. |
| Compressors.PolyHeadCoeff | pvtlib/equipment/compressors.py:431-435 | It is NaN exactly when σ = 0. Otherwise ψ·σ = 1000·head. |
| Compressors.WorkCoefficient | pvtlib/equipment/compressors.py:485-489 | It is NaN exactly when σ = 0. Otherwise w·σ = 1000·rise. |
| Compressors.HeadCoeffIsEffTimesWork | pvtlib/equipment/compressors.py:191-489 | The head coefficient equals the efficiency times the work coefficient. |
| Compressors.CoefficientExamples | pvtlib/equipment/compressors.py:431-489 | Examples give 5/9 and 0.5, and σ = 0 gives NaN for both. |
| GasDensityMeters.UncorrectedDensity | pvtlib/metering/gas_density_meters.py:49 | The density is the quadratic in τ, K0 + τ·(K1 + K2·τ). |
| GasDensityMeters.UncorrectedDensityProperties | pvtlib/metering/gas_density_meters.py:49 | At τ = 0 it is K0, and it is linear in the coefficients. |
| GasDensityMeters.TemperatureCorrectedDensity | pvtlib/metering/gas_density_meters.py:81 | DT − Du = (T − Tcal)·(K18·Du + K19), so at T = Tcal, Du is returned unchanged. |
| GasDensityMeters.TemperatureCorrectionAffine | pvtlib/metering/gas_density_meters.py:81 | It is affine in Du with slope 1 + K18·(T − Tcal). The example value is 49.9557096. |
| GasDensityMeters.SpecificGravity | pvtlib/metering/gas_density_meters.py:86-106 | It raises exactly for a zero air molar mass. Otherwise SG·MW_air = MW. |
| GasDensityMeters.GdmG | pvtlib/metering/gas_density_meters.py:109-131 | It raises exactly for Cp/Cv = 0. Otherwise G·(Cp/Cv) = SG. |
| GasDensityMeters.SpecificGravityProperties | pvtlib/metering/gas_density_meters.py:86-131 | Air has SG 1, and G·(Cp/Cv)·MW_air = MW. |
| GasDensityMeters.VosCorrectedDensity | pvtlib/metering/gas_density_meters.py:134-167 | It raises exactly when DT + K4 = 0 or t + 273 = 0. Otherwise DV = DT + DT·(K3/(DT + K4))·(A − G/(t + 273)), so DV = DT when G/(t+273) = A. |
| GasDensityMeters.VosCorrectionDirection | pvtlib/metering/gas_density_meters.py:165 | For a positive K3/(DT+K4), the correction raises the density exactly when G/(t+273) < A. |
| GasDensityMeters.SosCorrectedDensity | pvtlib/metering/gas_density_meters.py:202-205 | It is NaN exactly when τ, c_cal or c_gas is 0. Otherwise ρ_vos·(1 + x_gas²) = ρ·(1 + x_cal²) with x = K/(τ·c), so ρ is unchanged when c_cal = c_gas. |
| GasDensityMeters.SosCorrectionRaisesDensity | pvtlib/metering/gas_density_meters.py:202-205 | With 0 < c_cal < c_gas, τ > 0, ρ > 0 and K ≠ 0, the corrected density exceeds ρ. |
| GasDensityMeters.DensityFromSos | pvtlib/metering/gas_density_meters.py:268-273 | It is NaN exactly when SOS = 0. Otherwise ρ·SOS² = IE·P·1e5. |
| GasDensityMeters.SosFromDensity | pvtlib/metering/gas_density_meters.py:303-308 | It is NaN for ρ = 0 or a negative IE·P/ρ. Otherwise SOS ≥ 0 and SOS²·ρ = IE·P·1e5. |
| GasDensityMeters.DensitySosRoundTrip | pvtlib/metering/gas_density_meters.py:268-308 | The density of the speed of sound from ρ is ρ, for ρ > 0 and IE·P > 0. |
| GasDensityMeters.SosDensityRoundTrip | pvtlib/metering/gas_density_meters.py:268-308 | The speed of sound from the density at SOS is SOS, for SOS > 0 and IE·P > 0. |
| FluidMechanics.PipeArea | pvtlib/fluid_mechanics.py:22 | 4·A = π·D². The area is non-negative, and zero exactly for D = 0. |
| FluidMechanics.SuperficialVelocity | pvtlib/fluid_mechanics.py:4-29 | It is NaN exactly for D = 0. Otherwise Us·A·3600 = Q. |
| FluidMechanics.SuperficialVelocityLinear | pvtlib/fluid_mechanics.py:22-27 | The velocity is additive and homogeneous in Q. |
| FluidMechanics.LiquidHoldup | pvtlib/fluid_mechanics.py:32-65 | Above the liquid density → 1. Otherwise below the gas density → 0. Otherwise equal phase densities → NaN. Every value is in [0, 1], and the measured density is α·ρl + (1−α)·ρg. |
| FluidMechanics.HoldupInvertsMixtureDensity | pvtlib/fluid_mechanics.py:56-65 | The no-slip mixture density with fraction α in [0, 1] is read back as α when ρg < ρl. |
| FluidMechanics.HoldupEndpoints | pvtlib/fluid_mechanics.py:56-65 | For ρg < ρl, the holdup is 1 at the liquid density and 0 at the gas density. With the densities inverted, only 0 or 1 is returned. |
| Valves.Kv | pvtlib/equipment/valves.py:33-38 | It is NaN exactly when dP = 0 or SG/dP < 0. Otherwise Kv² = Q²·SG/dP, with the sign of Q. |
| Valves.QFromKv | pvtlib/equipment/valves.py:59-64 | It is NaN exactly unless dP > 0 and SG > 0. Otherwise Q·√(SG/dP) = Kv. |
| Valves.KvRoundTrip | pvtlib/equipment/valves.py:33-60 | For dP, SG > 0: Q_from_Kv(Kv(Q)) = Q and Kv(Q_from_Kv(kv)) = kv. |
| Valves.NegativeGravityAndDrop | pvtlib/equipment/valves.py:33-59 | Negative SG over negative dP gives a Kv, but no flow. |
| Valves.KvLinear | pvtlib/equipment/valves.py:33-34 | Kv is homogeneous in Q, and zero for no flow. |
| Valves.KvDefined | pvtlib/equipment/valves.py:33-34 | SG ≥ 0 over dP > 0 gives a value, and SG = 0 gives 0 at any non-zero dP. |
| Separators.ScrubberKValue | pvtlib/equipment/separators.py:23-29 | It is NaN exactly when ρl − ρg ≤ 0 or ρg < 0. Otherwise K²·(ρl − ρg) = Usg²·ρg, with the sign of Usg. |
| Separators.InletMomentum | pvtlib/equipment/separators.py:51 | The momentum is ≥ 0 for ρ ≥ 0, and zero when u or ρ is 0. |
| Separators.InletMomentumSymmetric | pvtlib/equipment/separators.py:51 | The momentum is independent of the sign of u and linear in ρ. |
| Separators.KValueFromMomentum | pvtlib/equipment/separators.py:27-51 | K²·(ρl − ρg) is the gas inlet momentum at Usg. |
| Separators.KValueLinear | pvtlib/equipment/separators.py:27-28 | K is homogeneous in Usg, and zero for ρg = 0. |
| Separators.KValueDeterminesVelocity | pvtlib/equipment/separators.py:27-28 | For fixed densities with ρg > 0, equal K-values imply equal gas velocities. |

## Left out

- The engine-backed queries of `pvtlib/aga8.py:143-465`: `calculate_from_PT`, `calculate_from_rhoT`, `calculate_from_PH`, `calculate_from_PS`, `_get_properties` and `_calculate_density`. They call the foreign `pyaga8` engine and `scipy.optimize.fsolve`.
- The constructor's engine adapter (`pyaga8.Gerg2008()` / `pyaga8.Detail()`) is not modelled, because the engine is foreign.
- The `pyaga8.Composition` field-setting loop of `to_aga8_composition` (`pvtlib/aga8.py:778-820`) is not modelled. It writes a foreign object; only the returned dictionary is modelled.
- `pvtlib/metering.py` is not part of this model. Its formulas use fractional powers and real exponents, and parts of it refer to undefined names.
- `poly_exp` (logarithms), the critical-velocity correlations of `pvtlib/fluid_mechanics.py` (fractional powers) and `GDM_Q` (it calls an unimported `math`) are not modelled.
- numpy array broadcasting in compressors.py is not modelled. Every formula is modelled on scalars; `sigma_u_squared` takes a sequence.
- The model does not represent floating-point rounding, overflow, NaN or infinite inputs. Identities are stated exactly over the reals. Test cases whose expected values are exact decimals are pinned as equalities; the other test values hold only within the test's tolerance and are not stated (for example, the level example gives h2 ≈ 2.0007, and 580.1509509 psi gives ≈ 4000.0016 kPa).
- Only ASCII letters change case in unit and equation names. Python's `lower()`/`upper()` also folds the rest of Unicode.
- `int()` in `to_aga8_composition` is modelled for ASCII digit strings. Python's `int` also accepts surrounding whitespace, underscores between digits and non-ASCII digits. `isnumeric()` is modelled as an ASCII digit test.
- Square roots are a parameter `sqrt` constrained by `Common.IsSqrt`, not `math.sqrt` itself.
- The dictionary order of `mix`'s result and of `to_aga8_composition`'s dictionary is not modelled. Maps in the model are unordered.
- `mix`'s error messages are abstract error kinds. The texts are not modelled, nor the offending component's name in the invalid-component message.
- `Aga8Mix.MixOf`, `Aga8Mix.Mixing` and `Aga8Facade.Aga8.Mix` require every composition amount to be non-negative. This is the mole percent or mole fraction the docstring asks for. `mix` itself also runs on negative amounts, which the model does not cover.
- The numpy composition matrix of `mix` is a sequence of rows (`seq<seq<real>>`), not a two-dimensional array.
- `Utilities.MaxMinDiffPerc`: invariance under scaling the series is not proved. The proof over the recursive maximum and minimum is too costly for the verifier's limits.
- `Utilities.Max`, `Utilities.Min`: these take only non-empty series. `np.max` and `np.min` raise on an empty one, and that case surfaces as `MaxMinDiffPerc`'s error.
- Default arguments are not modelled, because Dafny has none: every argument is passed. Four of the source's defaults are named constants: `LevelMeasurement.StandardGravity` (g=9.80665), `GasDensityMeters.AirMolarMass`, `GasDensityMeters.UserGasA` and `GasDensityMeters.SosConstant` (K=2.1e4, `pvtlib/metering/gas_density_meters.py:170`). The other defaults are simply passed as arguments:
  - Tcal=20 (`pvtlib/metering/gas_density_meters.py:54`);
  - DefType='MAN' (`pvtlib/equipment/compressors.py:233`);
  - pressure_unit='mbar' (`pvtlib/metering/level_measurement.py:58`);
  - check_input=False (`pvtlib/metering/level_measurement.py:3`, `pvtlib/aga8.py:467`);
  - pressure_unit='bara' (`pvtlib/aga8.py:646`);
  - equation='GERG-2008' (`pvtlib/aga8.py:52`);
  - temperature_unit='C' (`pvtlib/aga8.py:690`).

## Findings

| source | as written | input that shows it | evidently intended | confidence | as-written member | corrected member |
|---|---|---|---|---|---|---|
| pvtlib/aga8.py:674-675 | 'psia', an absolute unit, is converted as (v + 14.6959488)·6.89476 kPa. That adds one atmosphere, exactly as 'psig' does. | 0 psia (vacuum) gives ≈ 101.325 kPa instead of 0. | Convert psia like psi, v·6.89476 kPa. psig then sits one atmosphere above psia, as barg sits above bara. | not executed | Aga8Units.PsiaAsWrittenAddsAtmosphere | Aga8Units.PressureUnitRelations |
