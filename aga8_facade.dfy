/** The AGA8 facade object: built from an equation name, it fixes the equation of
    state, the component list, the molar-mass table of that equation and the
    component index map, and mixes compositions with those tables. The property
    queries that call into the equation-of-state engine are not part of this model. */
module Aga8Facade {
  import opened Common
  import opened Aga8Tables
  import opened Aga8Mix

  /** The table of each equation is a molar-mass table of the facade. */
  lemma MolarMassesTable(eq: Equation)
    ensures MolarMassTable(MolarMasses(eq))
  {
  }

  /** The row being filled for `names`: the keys already written hold their
      amounts at their positions, every other position is still zero. */
  ghost predicate PartiallyFilled(names: seq<string>, row: seq<real>, comp: Composition, pending: set<string>) {
    && |row| == |names|
    && forall k :: 0 <= k < |names| ==>
         row[k] == if names[k] in comp && names[k] !in pending then comp[names[k]] else 0.0
  }

  lemma FillStart(names: seq<string>, comp: Composition)
    ensures PartiallyFilled(names, Zeros(|names|), comp, comp.Keys)
  {
  }

  /** Writing one pending key at its own position keeps the row partially filled. */
  lemma FillStep(names: seq<string>, row: seq<real>, comp: Composition, pending: set<string>, key: string, idx: nat)
    requires Distinct(names) && PartiallyFilled(names, row, comp, pending)
    requires key in pending && key in comp && idx < |names| && names[idx] == key
    ensures PartiallyFilled(names, row[idx := comp[key]], comp, pending - {key})
  {
    var row' := row[idx := comp[key]];
    forall k | 0 <= k < |names|
      ensures row'[k] == if names[k] in comp && names[k] !in pending - {key} then comp[names[k]] else 0.0
    {
      if k != idx {
        assert names[k] != key;
      }
    }
  }

  /** A row with no key left pending is the composition's row. */
  lemma FillDone(row: seq<real>, comp: Composition)
    requires PartiallyFilled(Components, row, comp, {})
    ensures row == Row(comp)
  {
    var r := Row(comp);
    assert |row| == |r|;
    forall k | 0 <= k < |r| ensures row[k] == r[k] {
    }
  }

  /** Each component has a position in the index map, and that position names it. */
  lemma IndexOf(key: string)
    requires key in ComponentSet
    ensures key in IndexMap(Components) && IndexMap(Components)[key] < |Components|
    ensures Components[IndexMap(Components)[key]] == key
  {
    var k :| 0 <= k < |Components| && Components[k] == key;
    assert key in set i | 0 <= i < |Components| :: Components[i];
  }

  /** Appending the next composition's row extends the matrix and its key check. */
  lemma RowsExtend(comps: seq<Composition>, i: nat, rows: seq<seq<real>>, row: seq<real>)
    requires i < |comps| && rows == Rows(comps[..i]) && row == Row(comps[i])
    ensures rows + [row] == Rows(comps[..i + 1])
  {
    assert comps[..i + 1] == comps[..i] + [comps[i]];
  }

  lemma KeysValidExtend(comps: seq<Composition>, i: nat)
    requires i < |comps| && KeysValid(comps[..i]) && comps[i].Keys <= ComponentSet
    ensures KeysValid(comps[..i + 1])
  {
    assert comps[..i + 1] == comps[..i] + [comps[i]];
  }

  class Aga8 {
    /** The equation name as stored: upper-cased. */
    const equation: string
    const kind: Equation
    const components: seq<string>
    const molecularWeights: seq<real>
    const componentIndices: map<string, nat>

    /** The tables agree with the equation the object was built for. */
    ghost predicate Valid() {
      && ParseEquation(equation) == Ok(kind)
      && components == Components
      && molecularWeights == MolarMasses(kind)
      && componentIndices == IndexMap(Components)
    }

    /** The initialisation for an accepted equation name. */
    constructor(name: string)
      requires ParseEquation(name).Ok?
      ensures Valid()
      ensures equation == Upper(name) && kind == ParseEquation(name).value
    {
      var upper := Upper(name);
      equation := upper;
      kind := if upper == "GERG-2008" then Gerg2008 else Detail;
      components := Components;
      molecularWeights := if upper == "GERG-2008" then GergMolarMasses else DetailMolarMasses;
      componentIndices := IndexMap(Components);
      UpperIdempotent(name);
    }

    /** `AGA8(equation)`: an unknown equation name raises instead of building the object. */
    static method Create(name: string) returns (r: Result<Aga8, ConfigError>)
      ensures r.Err? <==> ParseEquation(name).Err?
      ensures r.Ok? ==> fresh(r.value) && r.value.Valid() && r.value.equation == Upper(name)
      ensures r.Ok? ==> r.value.kind == ParseEquation(name).value
    {
      var upper := Upper(name);
      if upper != "GERG-2008" && upper != "DETAIL" {
        r := Err(InvalidEquation);
        return;
      }
      var a := new Aga8(name);
      r := Ok(a);
    }

    /** The keys of all compositions, gathered for the error dict of `mix`. */
    static method UniqueComponents(compositions: seq<Composition>) returns (unique: set<string>)
      ensures unique == UnionKeys(compositions)
    {
      unique := {};
      var i := 0;
      while i < |compositions|
        invariant 0 <= i <= |compositions|
        invariant unique == UnionKeys(compositions[..i])
      {
        assert compositions[..i + 1][..i] == compositions[..i];
        unique := unique + compositions[i].Keys;
        i := i + 1;
      }
      assert compositions[..|compositions|] == compositions;
    }

    /** The per-key validation of one composition against the index map. */
    method KnownComponents(comp: Composition) returns (ok: bool)
      requires Valid()
      ensures ok <==> comp.Keys <= ComponentSet
    {
      ComponentIndices();
      var keys := comp.Keys;
      while keys != {}
        invariant keys <= comp.Keys
        invariant comp.Keys - keys <= ComponentSet
        decreases keys
      {
        var key :| key in keys;
        if key !in componentIndices {
          return false;
        }
        keys := keys - {key};
      }
      return true;
    }

    /** One row of the composition matrix, written key by key at each key's index. */
    method FillRow(comp: Composition) returns (row: seq<real>)
      requires Valid() && comp.Keys <= ComponentSet
      ensures row == Row(comp)
    {
      ComponentsDistinct();
      row := Zeros(|components|);
      var keys := comp.Keys;
      FillStart(Components, comp);
      while keys != {}
        invariant keys <= comp.Keys
        invariant PartiallyFilled(Components, row, comp, keys)
        decreases keys
      {
        var key :| key in keys;
        IndexOf(key);
        var idx := componentIndices[key];
        FillStep(Components, row, comp, keys, key, idx);
        row := row[idx := comp[key]];
        keys := keys - {key};
      }
      FillDone(row, comp);
    }

    /** `mix`: collect the keys for the error dict, check the list lengths, validate
        and fill the composition matrix row by row, then apply the mixing rule. */
    method Mix(compositions: seq<Composition>, mixWeights: seq<real>, checkInput: bool)
      returns (r: Result<MixOutcome, MixError>)
      requires Valid() && NonNegativeAmounts(compositions)
      ensures r == MixOf(compositions, mixWeights, checkInput, molecularWeights)
    {
      var unique := UniqueComponents(compositions);
      var resultsError: Result<MixOutcome, MixError> := Ok(AllNaN(unique));
      if |compositions| != |mixWeights| {
        r := if checkInput then Err(LengthMismatch) else resultsError;
        return;
      }
      if |compositions| == 0 {
        r := if checkInput then Err(NoCompositions) else resultsError;
        return;
      }
      var rows: seq<seq<real>> := [];
      var i := 0;
      while i < |compositions|
        invariant 0 <= i <= |compositions|
        invariant KeysValid(compositions[..i])
        invariant rows == Rows(compositions[..i])
      {
        var ok := KnownComponents(compositions[i]);
        if !ok {
          assert !KeysValid(compositions);
          r := if checkInput then Err(InvalidComponent) else resultsError;
          return;
        }
        var row := FillRow(compositions[i]);
        RowsExtend(compositions, i, rows, row);
        KeysValidExtend(compositions, i);
        rows := rows + [row];
        i := i + 1;
      }
      assert compositions[..|compositions|] == compositions;
      MolarMassesTable(kind);
      RowsNonNegative(compositions);
      var outcome := MixRows(rows, mixWeights, molecularWeights);
      match outcome {
        case Ok(m) => r := Ok(Mixed(m));
        case Err(e) => r := if checkInput then Err(e) else resultsError;
      }
    }
  }
}
