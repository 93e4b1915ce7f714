/** The configuration an AGA8 facade is built from: the equation of state chosen
    by name, the 21 components in the engine's fixed order (AGA Report No. 8,
    Part 1 DETAIL and Part 2 GERG-2008), one molar-mass table per equation, and
    the map from component name to position. */
module Aga8Tables {
  import opened Common

  datatype Equation = Gerg2008 | Detail

  datatype ConfigError = InvalidEquation

  /** The equation name is upper-cased and must then be 'GERG-2008' or 'DETAIL'. */
  function ParseEquation(name: string): (r: Result<Equation, ConfigError>)
    ensures r == Ok(Gerg2008) <==> Upper(name) == "GERG-2008"
    ensures r == Ok(Detail) <==> Upper(name) == "DETAIL"
    ensures r.Err? <==> Upper(name) !in {"GERG-2008", "DETAIL"}
  {
    var u := Upper(name);
    if u == "GERG-2008" then Ok(Gerg2008)
    else if u == "DETAIL" then Ok(Detail)
    else Err(InvalidEquation)
  }

  /** The name is matched without regard to case. */
  lemma ParseEquationCaseInsensitive(name: string)
    ensures ParseEquation(Upper(name)) == ParseEquation(name)
    ensures ParseEquation("gerg-2008") == Ok(Gerg2008) && ParseEquation("Detail") == Ok(Detail)
  {
    UpperIdempotent(name);
    assert Upper("gerg-2008") == "GERG-2008";
    assert Upper("Detail") == "DETAIL";
  }

  /** The AGA8 components in the order the engine and the molar-mass tables use. */
  const Components: seq<string> :=
    ["C1", "N2", "CO2", "C2", "C3", "iC4", "nC4", "iC5", "nC5",
     "nC6", "nC7", "nC8", "nC9", "nC10", "H2", "O2", "CO",
     "H2O", "H2S", "He", "Ar"]

  const ComponentCount: nat := 21

  /** Molar masses [g/mol] for GERG-2008, in component order. */
  const GergMolarMasses: seq<real> :=
    [16.04246, 28.0134, 44.0095, 30.06904, 44.09562, 58.1222, 58.1222,
     72.14878, 72.14878, 86.17536, 100.20194, 114.22852, 128.2551, 142.28168,
     2.01588, 31.9988, 28.0101, 18.01528, 34.08088, 4.002602, 39.948]

  /** Molar masses [g/mol] for DETAIL, in component order. */
  const DetailMolarMasses: seq<real> :=
    [16.043, 28.0135, 44.01, 30.07, 44.097, 58.123, 58.123,
     72.15, 72.15, 86.177, 100.204, 114.231, 128.258, 142.285,
     2.0159, 31.9988, 28.01, 18.0153, 34.082, 4.0026, 39.948]

  /** The table that belongs to each equation: one entry per component, every
      molar mass positive. */
  function MolarMasses(eq: Equation): (w: seq<real>)
    ensures |w| == |Components| == ComponentCount
    ensures forall k :: 0 <= k < |w| ==> 0.0 < w[k]
  {
    match eq
    case Gerg2008 => GergMolarMasses
    case Detail => DetailMolarMasses
  }

  /** The two equations carry different tables (methane already differs). */
  lemma TablesDiffer()
    ensures MolarMasses(Gerg2008)[0] == 16.04246 && MolarMasses(Detail)[0] == 16.043
    ensures MolarMasses(Gerg2008) != MolarMasses(Detail)
  {
    assert MolarMasses(Gerg2008)[0] != MolarMasses(Detail)[0];
  }

  ghost predicate Distinct(names: seq<string>) {
    forall i, j :: 0 <= i < j < |names| ==> names[i] != names[j]
  }

  /** The components from position `lo` up to `hi` differ from every later one. */
  ghost predicate DistinctFrom(names: seq<string>, lo: nat, hi: nat) {
    forall i, j :: lo <= i < hi && i < j < |names| ==> names[i] != names[j]
  }

  lemma LightDistinct()
    ensures DistinctFrom(Components, 0, 5)
  {
  }

  lemma MiddleDistinct()
    ensures DistinctFrom(Components, 5, 11)
  {
  }

  lemma HeavyDistinct()
    ensures DistinctFrom(Components, 11, 21)
  {
  }

  lemma ComponentsDistinct()
    ensures Distinct(Components)
  {
    LightDistinct();
    MiddleDistinct();
    HeavyDistinct();
  }

  lemma HeptaneIsComponent()
    ensures "nC7" in Components
  {
    assert Components[10] == "nC7";
  }

  lemma DecaneIsComponent()
    ensures "nC10" in Components
  {
    assert Components[13] == "nC10";
  }

  lemma IsobutaneIsComponent()
    ensures "iC4" in Components
  {
    assert Components[5] == "iC4";
  }

  /** The first letters of the component names. */
  predicate KnownInitial(c: char) {
    c == 'C' || c == 'N' || c == 'i' || c == 'n' || c == 'H' || c == 'O' || c == 'A'
  }

  /** A name whose first letter no component starts with is not a component. */
  lemma NotAComponent(name: string)
    requires |name| >= 1 && !KnownInitial(name[0])
    ensures name !in Components
  {
    forall k | 0 <= k < |Components| ensures Components[k] != name {
      assert |Components[k]| >= 1 && KnownInitial(Components[k][0]);
    }
  }

  /** `{comp: idx for idx, comp in enumerate(names)}`: later positions overwrite
      earlier ones, as in the dict comprehension. */
  function IndexMap(names: seq<string>): (m: map<string, nat>)
    ensures m.Keys == set i | 0 <= i < |names| :: names[i]
    ensures forall c :: c in m ==> m[c] < |names| && names[m[c]] == c
  {
    if |names| == 0 then map[]
    else IndexMap(names[..|names| - 1])[names[|names| - 1] := |names| - 1]
  }

  /** For distinct names the index map inverts the list. */
  lemma {:induction false} IndexMapInverts(names: seq<string>, i: nat)
    requires Distinct(names) && i < |names|
    ensures names[i] in IndexMap(names) && IndexMap(names)[names[i]] == i
  {
    if i < |names| - 1 {
      IndexMapInverts(names[..|names| - 1], i);
    }
  }

  /** The component index map of the facade: every component maps to its position. */
  lemma ComponentIndices()
    ensures IndexMap(Components).Keys == set k | 0 <= k < |Components| :: Components[k]
    ensures forall k :: 0 <= k < |Components| ==> IndexMap(Components)[Components[k]] == k
  {
    ComponentsDistinct();
    forall k | 0 <= k < |Components| ensures IndexMap(Components)[Components[k]] == k {
      IndexMapInverts(Components, k);
    }
  }
}
