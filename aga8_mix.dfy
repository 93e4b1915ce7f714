/** Mass-based mixing of AGA8 compositions: each composition is normalised to
    mole fractions, its mass is turned into moles through its average molar mass,
    the moles of every component are summed over the compositions, and the sum is
    returned as mole percent together with the total mass. A negative mass
    subtracts a fluid; the result is refused when that leaves a negative amount of
    some component, a negative total mass or nothing at all.

    The element-wise array arithmetic of the source is modelled by the vector
    functions below, over the 21 positions of the component list. */
module Aga8Mix {
  import opened Common
  import opened Aga8Tables

  // ---------------------------------------------------------------------------
  // Vectors over the component positions

  function Zeros(n: nat): (z: seq<real>)
    ensures |z| == n && forall k :: 0 <= k < n ==> z[k] == 0.0
  {
    seq(n, k => 0.0)
  }

  /** Every element multiplied by `s`. */
  function Scale(a: seq<real>, s: real): (r: seq<real>)
    ensures |r| == |a| && forall k :: 0 <= k < |a| ==> r[k] == a[k] * s
  {
    seq(|a|, k requires 0 <= k < |a| => a[k] * s)
  }

  lemma ScaleAt(a: seq<real>, s: real, k: int)
    requires 0 <= k < |a|
    ensures Scale(a, s)[k] == a[k] * s
  {
  }

  /** Every element divided by `s`. */
  function DivAll(a: seq<real>, s: real): (r: seq<real>)
    requires s != 0.0
    ensures |r| == |a| && forall k :: 0 <= k < |a| ==> r[k] == a[k] / s
  {
    seq(|a|, k requires 0 <= k < |a| => a[k] / s)
  }

  /** Element-wise sum. */
  function Add(a: seq<real>, b: seq<real>): (r: seq<real>)
    requires |a| == |b|
    ensures |r| == |a| && forall k :: 0 <= k < |a| ==> r[k] == a[k] + b[k]
  {
    seq(|a|, k requires 0 <= k < |a| => a[k] + b[k])
  }

  /** Inner product (`np.dot` of two vectors). */
  function Dot(a: seq<real>, b: seq<real>): real
    requires |a| == |b|
  {
    if |a| == 0 then 0.0 else a[0] * b[0] + Dot(a[1..], b[1..])
  }

  ghost predicate AllPositive(w: seq<real>) {
    forall k :: 0 <= k < |w| ==> 0.0 < w[k]
  }

  lemma {:induction false} DotNonNegative(a: seq<real>, w: seq<real>)
    requires |a| == |w| && NonNegative(a) && AllPositive(w)
    ensures 0.0 <= Dot(a, w)
  {
    if |a| > 0 {
      DotNonNegative(a[1..], w[1..]);
      assert 0.0 <= a[0] * w[0];
    }
  }

  /** Non-negative amounts with a positive total have a positive weighted sum. */
  lemma {:induction false} DotPositive(a: seq<real>, w: seq<real>)
    requires |a| == |w| && NonNegative(a) && AllPositive(w) && 0.0 < Sum(a)
    ensures 0.0 < Dot(a, w)
  {
    DotNonNegative(a[1..], w[1..]);
    if a[0] > 0.0 {
      MulPositive(a[0], w[0]);
    } else {
      DotPositive(a[1..], w[1..]);
    }
  }

  lemma {:induction false} DotDivAll(a: seq<real>, s: real, w: seq<real>)
    requires |a| == |w| && s != 0.0
    ensures Dot(DivAll(a, s), w) == Dot(a, w) / s
  {
    if |a| > 0 {
      assert DivAll(a, s)[1..] == DivAll(a[1..], s);
      DotDivAll(a[1..], s, w[1..]);
      var d := DivAll(a, s);
      var x, y := a[0] * w[0], Dot(a[1..], w[1..]);
      assert d[0] == a[0] / s;
      DivTimes(a[0], s, w[0]);
      DivDistributes(x, y, s);
      assert Dot(d, w) == d[0] * w[0] + Dot(d[1..], w[1..]);
      assert Dot(a, w) == x + y;
    }
  }

  lemma DivTimes(a: real, s: real, w: real)
    requires s != 0.0
    ensures a / s * w == (a * w) / s
  {
  }

  lemma DivDistributes(x: real, y: real, s: real)
    requires s != 0.0
    ensures x / s + y / s == (x + y) / s
  {
  }

  lemma ScaleTail(a: seq<real>, s: real)
    requires |a| > 0
    ensures Scale(a, s)[1..] == Scale(a[1..], s)
  {
    assert forall k :: 0 <= k < |a| - 1 ==> Scale(a, s)[1..][k] == a[1..][k] * s;
  }

  lemma {:induction false} DotScale(a: seq<real>, s: real, w: seq<real>)
    requires |a| == |w|
    ensures Dot(Scale(a, s), w) == s * Dot(a, w)
  {
    if |a| > 0 {
      ScaleTail(a, s);
      DotScale(a[1..], s, w[1..]);
      assert a[0] * s * w[0] == s * (a[0] * w[0]);
      assert s * (a[0] * w[0]) + s * Dot(a[1..], w[1..]) == s * (a[0] * w[0] + Dot(a[1..], w[1..]));
    }
  }

  lemma {:induction false} DotAdd(a: seq<real>, b: seq<real>, w: seq<real>)
    requires |a| == |b| == |w|
    ensures Dot(Add(a, b), w) == Dot(a, w) + Dot(b, w)
  {
    if |a| > 0 {
      assert Add(a, b)[1..] == Add(a[1..], b[1..]);
      DotAdd(a[1..], b[1..], w[1..]);
      assert (a[0] + b[0]) * w[0] == a[0] * w[0] + b[0] * w[0];
    }
  }

  lemma {:induction false} DotZeros(n: nat, w: seq<real>)
    requires |w| == n
    ensures Dot(Zeros(n), w) == 0.0
  {
    if n > 0 {
      assert Zeros(n)[1..] == Zeros(n - 1);
      DotZeros(n - 1, w[1..]);
    }
  }

  lemma {:induction false} SumDivAll(a: seq<real>, s: real)
    requires s != 0.0
    ensures Sum(DivAll(a, s)) == Sum(a) / s
  {
    if |a| > 0 {
      assert DivAll(a, s)[1..] == DivAll(a[1..], s);
      SumDivAll(a[1..], s);
      var d := DivAll(a, s);
      DivDistributes(a[0], Sum(a[1..]), s);
      assert Sum(d) == d[0] + Sum(d[1..]);
      assert Sum(a) == a[0] + Sum(a[1..]);
    }
  }

  lemma {:induction false} SumScale(a: seq<real>, s: real)
    ensures Sum(Scale(a, s)) == Sum(a) * s
  {
    if |a| > 0 {
      ScaleTail(a, s);
      SumScale(a[1..], s);
      assert a[0] * s + Sum(a[1..]) * s == (a[0] + Sum(a[1..])) * s;
    }
  }

  lemma {:induction false} SumAdd(a: seq<real>, b: seq<real>)
    requires |a| == |b|
    ensures Sum(Add(a, b)) == Sum(a) + Sum(b)
  {
    if |a| > 0 {
      assert Add(a, b)[1..] == Add(a[1..], b[1..]);
      SumAdd(a[1..], b[1..]);
    }
  }

  lemma {:induction false} SumZeros(n: nat)
    ensures Sum(Zeros(n)) == 0.0
  {
    if n > 0 {
      assert Zeros(n)[1..] == Zeros(n - 1);
      SumZeros(n - 1);
    }
  }

  // ---------------------------------------------------------------------------
  // The mixing rule

  /** A composition dict: AGA8 component name -> mole percent or mole fraction. */
  type Composition = map<string, real>

  const ComponentSet: set<string> := set k | 0 <= k < |Components| :: Components[k]

  datatype MixError =
    | LengthMismatch                    // as many masses as compositions are needed
    | NoCompositions                    // at least one composition is needed
    | InvalidComponent                  // a key is not an AGA8 component
    | ZeroCompositionSum                // a composition's amounts sum to zero
    | NegativeMoles(components: seq<string>) // these components end up below zero
    | NegativeTotalMass(totalMass: real)
    | ZeroTotalMoles                    // nothing is left after mixing

  /** The mixed composition in mole percent (positive entries only) and the total mass [kg]. */
  datatype Mixture = Mixture(composition: map<string, real>, totalMass: real)

  /** What `mix` returns: the mixture, or, with input checking off, the error
      dict in which every key of the inputs and the total mass are NaN. */
  datatype MixOutcome = Mixed(mixture: Mixture) | AllNaN(keys: set<string>)

  /** A molar-mass table of the facade: one positive entry per component. */
  ghost predicate MolarMassTable(w: seq<real>) {
    |w| == |Components| && AllPositive(w)
  }

  /** The amounts of every composition are mole percent or mole fraction, so none is negative. */
  ghost predicate NonNegativeAmounts(comps: seq<Composition>) {
    forall j, c :: 0 <= j < |comps| && c in comps[j] ==> 0.0 <= comps[j][c]
  }

  /** One row of the composition matrix: the amount of every component, zero where absent. */
  function Row(c: Composition): (r: seq<real>)
    ensures |r| == |Components|
    ensures forall k :: 0 <= k < |r| ==> r[k] == if Components[k] in c then c[Components[k]] else 0.0
  {
    seq(|Components|, k requires 0 <= k < |Components| => if Components[k] in c then c[Components[k]] else 0.0)
  }

  function Rows(comps: seq<Composition>): (rows: seq<seq<real>>)
    ensures |rows| == |comps| && forall j :: 0 <= j < |comps| ==> rows[j] == Row(comps[j])
  {
    seq(|comps|, j requires 0 <= j < |comps| => Row(comps[j]))
  }

  /** A row normalised to mole fractions, which sum to one. */
  function Fractions(row: seq<real>): (f: seq<real>)
    requires Sum(row) != 0.0
    ensures |f| == |row| && Sum(f) == 1.0
  {
    SumDivAll(row, Sum(row));
    DivAll(row, Sum(row))
  }

  /** Rows of non-negative amounts, each with a non-zero (hence positive) sum. */
  ghost predicate ValidRows(rows: seq<seq<real>>) {
    forall j :: 0 <= j < |rows| ==> ValidRow(rows[j])
  }

  ghost predicate ValidRow(row: seq<real>) {
    |row| == |Components| && NonNegative(row) && Sum(row) != 0.0
  }

  /** The mole-weighted average molar mass of a composition [g/mol]: positive, and
      the sum of amount times molar mass divided by the sum of the amounts. */
  function AverageMolarMass(row: seq<real>, w: seq<real>): (avg: real)
    requires |row| == |w| && NonNegative(row) && AllPositive(w) && Sum(row) != 0.0
    ensures 0.0 < avg
    ensures avg * Sum(row) == Dot(row, w)
  {
    SumNonNegative(row);
    DotPositive(row, w);
    DotDivAll(row, Sum(row), w);
    Dot(Fractions(row), w)
  }

  /** The moles in `mass` kg of a composition: kg to g, divided by g/mol. */
  function TotalMoles(row: seq<real>, mass: real, w: seq<real>): (n: real)
    requires |row| == |w| && NonNegative(row) && AllPositive(w) && Sum(row) != 0.0
    ensures n * AverageMolarMass(row, w) == mass * 1000.0
  {
    mass * 1000.0 / AverageMolarMass(row, w)
  }

  /** The moles of each component in one composition's mass. */
  function MolesOfEach(row: seq<real>, mass: real, w: seq<real>): (m: seq<real>)
    requires |row| == |w| && NonNegative(row) && AllPositive(w) && Sum(row) != 0.0
    ensures |m| == |w|
  {
    Scale(Fractions(row), TotalMoles(row, mass, w))
  }

  /** The moles of each component, summed over all compositions. */
  function ComponentMoles(rows: seq<seq<real>>, masses: seq<real>, w: seq<real>): (cm: seq<real>)
    requires |rows| == |masses| && MolarMassTable(w) && ValidRows(rows)
    ensures |cm| == |w|
  {
    if |rows| == 0 then Zeros(|w|)
    else Add(MolesOfEach(rows[0], masses[0], w), ComponentMoles(rows[1..], masses[1..], w))
  }

  /** The names of the components with a negative amount, in component order. */
  function NegativeNames(names: seq<string>, cm: seq<real>): (r: seq<string>)
    requires |names| == |cm|
    ensures forall n :: n in r <==> exists k :: 0 <= k < |cm| && names[k] == n && cm[k] < 0.0
  {
    if |cm| == 0 then []
    else (if cm[0] < 0.0 then [names[0]] else []) + NegativeNames(names[1..], cm[1..])
  }

  /** Component moles as mole percent. */
  function Percents(cm: seq<real>): (p: seq<real>)
    requires Sum(cm) != 0.0
    ensures |p| == |cm| && Sum(p) == 100.0
  {
    SumDivAll(cm, Sum(cm));
    SumScale(DivAll(cm, Sum(cm)), 100.0);
    Scale(DivAll(cm, Sum(cm)), 100.0)
  }

  /** The dict of the positive entries, keyed by component name. */
  function PositiveEntries(p: seq<real>): (d: map<string, real>)
    requires |p| == |Components|
    ensures forall k :: 0 <= k < |p| && 0.0 < p[k] ==> Components[k] in d && d[Components[k]] == p[k]
    ensures forall n :: n in d ==> exists k :: 0 <= k < |p| && Components[k] == n && 0.0 < p[k]
  {
    ComponentsDistinct();
    map k | 0 <= k < |Components| && 0.0 < p[k] :: Components[k] := p[k]
  }

  /** Every key of every composition is an AGA8 component. */
  predicate KeysValid(comps: seq<Composition>) {
    forall j | 0 <= j < |comps| :: comps[j].Keys <= ComponentSet
  }

  /** No composition sums to zero. */
  predicate NonZeroSums(rows: seq<seq<real>>) {
    forall j | 0 <= j < |rows| :: Sum(rows[j]) != 0.0
  }

  /** The vectorised part of `mix`, from the composition matrix on. */
  function MixRows(rows: seq<seq<real>>, masses: seq<real>, w: seq<real>): (m: Result<Mixture, MixError>)
    requires |rows| == |masses| && MolarMassTable(w)
    requires forall j :: 0 <= j < |rows| ==> |rows[j]| == |Components| && NonNegative(rows[j])
    ensures m == Err(ZeroCompositionSum) <==> !NonZeroSums(rows)
    ensures m.Ok? ==> m.value.totalMass == Sum(masses)
  {
    if !NonZeroSums(rows) then Err(ZeroCompositionSum)
    else Outcome(ComponentMoles(rows, masses, w), Sum(masses))
  }

  /** The checks on the component moles and the total mass, then the result in mole percent. */
  function Outcome(cm: seq<real>, total: real): (o: Result<Mixture, MixError>)
    requires |cm| == |Components|
    ensures o.Ok? <==> NonNegative(cm) && 0.0 <= total && Sum(cm) != 0.0
    ensures o.Ok? ==> o.value.totalMass == total
    ensures o.Err? ==> o.error.NegativeMoles? || o.error.NegativeTotalMass? || o.error == ZeroTotalMoles
    ensures o.Err? && o.error.NegativeMoles? <==> !NonNegative(cm)
  {
    if !NonNegative(cm) then Err(NegativeMoles(NegativeNames(Components, cm)))
    else if total < 0.0 then Err(NegativeTotalMass(total))
    else if Sum(cm) == 0.0 then Err(ZeroTotalMoles)
    else Ok(Mixture(PositiveEntries(Percents(cm)), total))
  }

  lemma RowsNonNegative(comps: seq<Composition>)
    requires NonNegativeAmounts(comps)
    ensures forall j :: 0 <= j < |comps| ==> NonNegative(Rows(comps)[j])
  {
  }

  /** `mix` with input checking on: the outcome or the error it raises. */
  function Mixing(comps: seq<Composition>, masses: seq<real>, w: seq<real>): (m: Result<Mixture, MixError>)
    requires MolarMassTable(w) && NonNegativeAmounts(comps)
    ensures m == Err(LengthMismatch) <==> |comps| != |masses|
    ensures m.Ok? ==> 0 < |comps| == |masses| && KeysValid(comps) && m.value.totalMass == Sum(masses)
  {
    if |comps| != |masses| then Err(LengthMismatch)
    else if |comps| == 0 then Err(NoCompositions)
    else if !KeysValid(comps) then Err(InvalidComponent)
    else
      RowsNonNegative(comps);
      MixRows(Rows(comps), masses, w)
  }

  /** Every key that occurs in some composition. */
  function UnionKeys(comps: seq<Composition>): (u: set<string>)
    ensures forall c :: c in u <==> exists j :: 0 <= j < |comps| && c in comps[j]
  {
    if |comps| == 0 then {} else UnionKeys(comps[..|comps| - 1]) + comps[|comps| - 1].Keys
  }

  /** `mix`: with input checking on an invalid input raises; with it off the
      error dict is returned instead. */
  function MixOf(comps: seq<Composition>, masses: seq<real>, checkInput: bool, w: seq<real>): (r: Result<MixOutcome, MixError>)
    requires MolarMassTable(w) && NonNegativeAmounts(comps)
    ensures !checkInput ==> r.Ok?
    ensures (r.Ok? && r.value.Mixed?) <==> Mixing(comps, masses, w).Ok?
    ensures r.Ok? && r.value.AllNaN? ==> !checkInput && r.value.keys == UnionKeys(comps)
  {
    match Mixing(comps, masses, w)
    case Ok(m) => Ok(Mixed(m))
    case Err(e) => if checkInput then Err(e) else Ok(AllNaN(UnionKeys(comps)))
  }

  // ---------------------------------------------------------------------------
  // Properties of the mixing rule

  /** The moles of all compositions together. */
  function MolesOfAll(rows: seq<seq<real>>, masses: seq<real>, w: seq<real>): real
    requires |rows| == |masses| && MolarMassTable(w) && ValidRows(rows)
  {
    if |rows| == 0 then 0.0 else TotalMoles(rows[0], masses[0], w) + MolesOfAll(rows[1..], masses[1..], w)
  }

  lemma ValidRowsTail(rows: seq<seq<real>>)
    requires |rows| > 0 && ValidRows(rows)
    ensures ValidRows(rows[1..])
  {
    assert forall j :: 0 <= j < |rows| - 1 ==> rows[1..][j] == rows[j + 1];
  }

  /** Mass balance: the component moles weighed by their molar masses give back
      the total mass of the inputs (in grams). */
  lemma {:induction false} MassBalance(rows: seq<seq<real>>, masses: seq<real>, w: seq<real>)
    requires |rows| == |masses| && MolarMassTable(w) && ValidRows(rows)
    ensures Dot(ComponentMoles(rows, masses, w), w) == 1000.0 * Sum(masses)
  {
    if |rows| == 0 {
      DotZeros(|w|, w);
    } else {
      ValidRowsTail(rows);
      var f := Fractions(rows[0]);
      var n := TotalMoles(rows[0], masses[0], w);
      var rest := ComponentMoles(rows[1..], masses[1..], w);
      MassBalance(rows[1..], masses[1..], w);
      DotAdd(Scale(f, n), rest, w);
      DotScale(f, n, w);
      MolesTimesMolarMass(rows[0], masses[0], w);
      var p, q := Dot(Scale(f, n), w), Dot(rest, w);
      assert p == masses[0] * 1000.0;
      assert Dot(ComponentMoles(rows, masses, w), w) == p + q;
      assert Sum(masses) == masses[0] + Sum(masses[1..]);
    }
  }

  lemma MolesTimesMolarMass(row: seq<real>, m: real, w: seq<real>)
    requires |row| == |w| && NonNegative(row) && AllPositive(w) && Sum(row) != 0.0
    ensures TotalMoles(row, m, w) * Dot(Fractions(row), w) == m * 1000.0
  {
    assert Dot(Fractions(row), w) == AverageMolarMass(row, w);
    TotalMolesTimes(row, m, w);
  }
  lemma TotalMolesTimes(row: seq<real>, m: real, w: seq<real>)
    requires |row| == |w| && NonNegative(row) && AllPositive(w) && Sum(row) != 0.0
    ensures TotalMoles(row, m, w) * AverageMolarMass(row, w) == m * 1000.0
  {
  }

  /** Mole balance: the component moles add up to the moles of all compositions. */
  lemma {:induction false} MoleBalance(rows: seq<seq<real>>, masses: seq<real>, w: seq<real>)
    requires |rows| == |masses| && MolarMassTable(w) && ValidRows(rows)
    ensures Sum(ComponentMoles(rows, masses, w)) == MolesOfAll(rows, masses, w)
  {
    if |rows| == 0 {
      SumZeros(|w|);
    } else {
      ValidRowsTail(rows);
      var f := Fractions(rows[0]);
      var n := TotalMoles(rows[0], masses[0], w);
      MoleBalance(rows[1..], masses[1..], w);
      SumAdd(Scale(f, n), ComponentMoles(rows[1..], masses[1..], w));
      SumScale(f, n);
    }
  }

  lemma PercentPositive(x: real, s: real)
    requires 0.0 < s
    ensures 0.0 < x / s * 100.0 <==> 0.0 < x
  {
    if 0.0 < x {
      assert 0.0 < x / s;
    } else {
      assert x / s <= 0.0;
    }
  }

  lemma {:induction false} DotNegativeHasNegative(a: seq<real>, w: seq<real>)
    requires |a| == |w| && AllPositive(w) && Dot(a, w) < 0.0
    ensures exists k :: 0 <= k < |a| && a[k] < 0.0
  {
    if 0.0 <= a[0] {
      assert 0.0 <= a[0] * w[0];
      DotNegativeHasNegative(a[1..], w[1..]);
      var k :| 0 <= k < |a| - 1 && a[1..][k] < 0.0;
      assert a[k + 1] < 0.0;
    }
  }

  lemma {:induction false} DotZeroAllZero(a: seq<real>, w: seq<real>)
    requires |a| == |w| && AllPositive(w) && NonNegative(a) && Dot(a, w) == 0.0
    ensures forall k :: 0 <= k < |a| ==> a[k] == 0.0
  {
    if |a| > 0 {
      DotNonNegative(a[1..], w[1..]);
      assert 0.0 <= a[0] * w[0];
      DotZeroAllZero(a[1..], w[1..]);
      forall k | 0 <= k < |a| ensures a[k] == 0.0 {
        if k > 0 { assert a[k] == a[1..][k - 1]; }
      }
    }
  }

  /** A successful mix: the total mass is the sum of the masses and not negative;
      no component has negative moles and some have positive; the dict holds
      exactly the components with positive moles, each at its share of the total
      moles in percent; and these percentages sum to 100. */
  lemma MixtureContents(comps: seq<Composition>, masses: seq<real>, w: seq<real>)
    requires MolarMassTable(w) && NonNegativeAmounts(comps) && Mixing(comps, masses, w).Ok?
    ensures ValidRows(Rows(comps)) && |comps| == |masses|
    ensures var m := Mixing(comps, masses, w).value;
      var cm := ComponentMoles(Rows(comps), masses, w);
      && m.totalMass == Sum(masses) && 0.0 <= m.totalMass
      && (forall k :: 0 <= k < |cm| ==> 0.0 <= cm[k])
      && 0.0 < Sum(cm)
      && (forall k :: 0 <= k < |cm| && 0.0 < cm[k] ==>
            Components[k] in m.composition && m.composition[Components[k]] == cm[k] / Sum(cm) * 100.0)
      && (forall n :: n in m.composition ==>
            0.0 < m.composition[n] && exists k :: 0 <= k < |cm| && Components[k] == n && 0.0 < cm[k])
      && Sum(Percents(cm)) == 100.0
  {
    var rows := Rows(comps);
    RowsNonNegative(comps);
    var m := Mixing(comps, masses, w).value;
    var cm := ComponentMoles(rows, masses, w);
    SumNonNegative(cm);
    var p := Percents(cm);
    forall k | 0 <= k < |cm| ensures 0.0 < p[k] <==> 0.0 < cm[k] {
      PercentPositive(cm[k], Sum(cm));
    }
  }

  /** The negative-total-mass error is never raised: with positive molar masses a
      negative total mass always leaves some component with negative moles, which
      is reported first. */
  lemma NegativeTotalMassUnreachable(comps: seq<Composition>, masses: seq<real>, w: seq<real>)
    requires MolarMassTable(w) && NonNegativeAmounts(comps)
    ensures !(Mixing(comps, masses, w).Err? && Mixing(comps, masses, w).error.NegativeTotalMass?)
  {
    if |comps| == |masses| && |comps| > 0 && KeysValid(comps) {
      var rows := Rows(comps);
      RowsNonNegative(comps);
      if NonZeroSums(rows) && Sum(masses) < 0.0 {
        MassBalance(rows, masses, w);
        DotNegativeHasNegative(ComponentMoles(rows, masses, w), w);
      }
    }
  }

  /** Nothing is left after mixing exactly when the masses cancel (and no component
      went negative): the zero-moles error and a zero total mass go together. */
  lemma ZeroMolesIffZeroMass(rows: seq<seq<real>>, masses: seq<real>, w: seq<real>)
    requires |rows| == |masses| && MolarMassTable(w) && ValidRows(rows)
    requires NonNegative(ComponentMoles(rows, masses, w))
    ensures Sum(ComponentMoles(rows, masses, w)) == 0.0 <==> Sum(masses) == 0.0
  {
    var cm := ComponentMoles(rows, masses, w);
    MassBalance(rows, masses, w);
    if Sum(cm) == 0.0 {
      SumZeroAllZero(cm);
      assert cm == Zeros(|w|);
      DotZeros(|w|, w);
    }
    if Sum(masses) == 0.0 {
      DotZeroAllZero(cm, w);
      assert cm == Zeros(|w|);
      SumZeros(|w|);
    }
  }

  /** A composition that `mix` accepts: AGA8 keys only, non-negative amounts, a non-zero sum. */
  ghost predicate Acceptable(c: Composition) {
    && c.Keys <= ComponentSet
    && (forall n :: n in c ==> 0.0 <= c[n])
    && Sum(Row(c)) != 0.0
  }

  lemma AddZerosRight(a: seq<real>)
    ensures Add(a, Zeros(|a|)) == a
  {
  }

  lemma {:induction false} SumPositiveHasPositive(a: seq<real>)
    requires 0.0 < Sum(a)
    ensures exists k :: 0 <= k < |a| && 0.0 < a[k]
  {
    if a[0] <= 0.0 {
      SumPositiveHasPositive(a[1..]);
      var k :| 0 <= k < |a| - 1 && 0.0 < a[1..][k];
      assert a[k + 1] == a[1..][k];
    }
  }

  lemma RowNonNegative(c: Composition)
    requires forall n :: n in c ==> 0.0 <= c[n]
    ensures NonNegative(Row(c))
  {
  }

  /** For acceptable compositions and matching masses only the checks on the moles remain. */
  lemma MixingAcceptable(comps: seq<Composition>, masses: seq<real>, w: seq<real>)
    requires MolarMassTable(w) && |comps| == |masses| > 0
    requires forall j :: 0 <= j < |comps| ==> Acceptable(comps[j])
    ensures NonNegativeAmounts(comps) && ValidRows(Rows(comps))
    ensures Mixing(comps, masses, w) == Outcome(ComponentMoles(Rows(comps), masses, w), Sum(masses))
  {
    forall j | 0 <= j < |comps| ensures ValidRow(Rows(comps)[j]) {
      RowNonNegative(comps[j]);
    }
  }

  lemma ValidRowsCons(row: seq<real>, rows: seq<seq<real>>)
    requires ValidRow(row) && ValidRows(rows)
    ensures ValidRows([row] + rows)
  {
    var all := [row] + rows;
    forall j | 0 <= j < |all| ensures ValidRow(all[j]) {
      if j > 0 { assert all[j] == rows[j - 1]; }
    }
  }

  /** The moles of a composition put in front of others are added to theirs. */
  lemma ConsMoles(row: seq<real>, rows: seq<seq<real>>, m: real, masses: seq<real>, w: seq<real>)
    requires MolarMassTable(w) && ValidRow(row) && ValidRows(rows) && |rows| == |masses|
    ensures ValidRows([row] + rows)
    ensures ComponentMoles([row] + rows, [m] + masses, w) == Add(MolesOfEach(row, m, w), ComponentMoles(rows, masses, w))
  {
    ValidRowsCons(row, rows);
    assert ([row] + rows)[1..] == rows && ([m] + masses)[1..] == masses;
  }

  lemma SingleMoles(row: seq<real>, m: real, w: seq<real>)
    requires MolarMassTable(w) && ValidRow(row)
    ensures ValidRows([row])
    ensures ComponentMoles([row], [m], w) == Scale(Fractions(row), TotalMoles(row, m, w))
  {
    ConsMoles(row, [], m, [], w);
    assert [row] + [] == [row] && [m] + [] == [m];
    AddZerosRight(MolesOfEach(row, m, w));
  }

  /** Mixing one composition returns it, normalised to mole percent, with its own
      mass; a zero mass leaves nothing and a negative one negative moles. */
  lemma MixSingle(c: Composition, m: real, w: seq<real>)
    requires MolarMassTable(w) && Acceptable(c)
    ensures 0.0 < m ==> Mixing([c], [m], w) == Ok(Mixture(PositiveEntries(Scale(Fractions(Row(c)), 100.0)), m))
    ensures m == 0.0 ==> Mixing([c], [m], w) == Err(ZeroTotalMoles)
    ensures m < 0.0 ==> Mixing([c], [m], w).Err? && Mixing([c], [m], w).error.NegativeMoles?
  {
    var row := Row(c);
    assert Rows([c]) == [row];
    MixingAcceptable([c], [m], w);
    SingleMoles(row, m, w);
    assert Sum([m]) == m;
    var f := Fractions(row);
    var n := TotalMoles(row, m, w);
    MolesSign(n, AverageMolarMass(row, w), m);
    FractionsNonNegative(row);
    SingleOutcome(f, n, m);
  }

  lemma FractionsNonNegative(row: seq<real>)
    requires ValidRow(row)
    ensures NonNegative(Fractions(row))
  {
    SumNonNegative(row);
    forall k | 0 <= k < |row| ensures 0.0 <= Fractions(row)[k] {
      DivNonNegative(row[k], Sum(row));
    }
  }

  /** Moles have the sign of the mass they come from. */
  lemma MolesSign(n: real, avg: real, m: real)
    requires 0.0 < avg && n * avg == m * 1000.0
    ensures 0.0 < n <==> 0.0 < m
    ensures n == 0.0 <==> m == 0.0
  {
    if 0.0 < n {
      MulPositive(n, avg);
    } else if n < 0.0 {
      MulPositive(-n, avg);
    }
  }

  /** The checks on the moles of one composition with `n` moles of fractions `f`. */
  lemma SingleOutcome(f: seq<real>, n: real, m: real)
    requires |f| == |Components| && NonNegative(f) && Sum(f) == 1.0
    requires 0.0 < n <==> 0.0 < m
    requires n == 0.0 <==> m == 0.0
    ensures 0.0 < m ==> Outcome(Scale(f, n), m) == Ok(Mixture(PositiveEntries(Scale(f, 100.0)), m))
    ensures m == 0.0 ==> Outcome(Scale(f, n), m) == Err(ZeroTotalMoles)
    ensures m < 0.0 ==> Outcome(Scale(f, n), m).Err? && Outcome(Scale(f, n), m).error.NegativeMoles?
  {
    if 0.0 < m {
      SinglePositive(f, n, m);
    } else if m == 0.0 {
      SingleZero(f, m);
    } else {
      SingleNegative(f, n, m);
    }
  }

  lemma SinglePositive(f: seq<real>, n: real, m: real)
    requires |f| == |Components| && NonNegative(f) && Sum(f) == 1.0 && 0.0 < n && 0.0 < m
    ensures Outcome(Scale(f, n), m) == Ok(Mixture(PositiveEntries(Scale(f, 100.0)), m))
  {
    var cm := Scale(f, n);
    SumScale(f, n);
    assert Sum(cm) == n;
    ScaleDivCancel(f, n);
    ScaleNonNegative(f, n);
    assert Percents(cm) == Scale(DivAll(cm, Sum(cm)), 100.0);
    assert DivAll(cm, Sum(cm)) == DivAll(cm, n);
    assert Outcome(cm, m) == Ok(Mixture(PositiveEntries(Percents(cm)), m));
  }

  /** A non-negative sequence scaled by a non-negative factor stays non-negative. */
  lemma ScaleNonNegative(v: seq<real>, a: real)
    requires NonNegative(v) && 0.0 <= a
    ensures NonNegative(Scale(v, a))
  {
    var sc := Scale(v, a);
    forall k | 0 <= k < |sc| ensures 0.0 <= sc[k] {
      assert sc[k] == v[k] * a;
      MulNonNegative(v[k], a);
    }
  }

  /** Dividing a scaled sequence by the factor gives it back. */
  lemma ScaleDivCancel(v: seq<real>, a: real)
    requires a != 0.0
    ensures DivAll(Scale(v, a), a) == v
  {
    var l := DivAll(Scale(v, a), a);
    forall k | 0 <= k < |v| ensures l[k] == v[k] {
      MulDivCancel(v[k], a);
    }
    assert |l| == |v|;
  }

  lemma MulDivCancel(x: real, n: real)
    requires n != 0.0
    ensures x * n / n == x
  {
  }

  lemma SingleZero(f: seq<real>, m: real)
    requires |f| == |Components| && m == 0.0
    ensures Outcome(Scale(f, 0.0), m) == Err(ZeroTotalMoles)
  {
    var cm := Scale(f, 0.0);
    assert cm == Zeros(|f|);
    SumZeros(|f|);
  }

  lemma SingleNegative(f: seq<real>, n: real, m: real)
    requires |f| == |Components| && Sum(f) == 1.0 && n < 0.0
    ensures Outcome(Scale(f, n), m).Err? && Outcome(Scale(f, n), m).error.NegativeMoles?
  {
    var cm := Scale(f, n);
    SumPositiveHasPositive(f);
    var k :| 0 <= k < |f| && 0.0 < f[k];
    assert cm[k] < 0.0;
  }

  lemma TwoMoles(r1: seq<real>, r2: seq<real>, m1: real, m2: real, w: seq<real>)
    requires MolarMassTable(w) && ValidRow(r1) && ValidRow(r2)
    ensures ValidRows([r1, r2])
    ensures ComponentMoles([r1, r2], [m1, m2], w) ==
      Add(MolesOfEach(r1, m1, w), Add(MolesOfEach(r2, m2, w), Zeros(|w|)))
  {
    PairValid(r1, r2);
    PairMoles([r1, r2], [m1, m2], w);
  }

  lemma PairValid(r1: seq<real>, r2: seq<real>)
    requires ValidRow(r1) && ValidRow(r2)
    ensures ValidRows([r1, r2])
  {
  }

  /** The moles of two compositions, unfolded over symbolic sequences. */
  lemma PairMoles(rows: seq<seq<real>>, masses: seq<real>, w: seq<real>)
    requires MolarMassTable(w) && ValidRows(rows) && |rows| == 2 == |masses|
    ensures ComponentMoles(rows, masses, w) ==
      Add(MolesOfEach(rows[0], masses[0], w), Add(MolesOfEach(rows[1], masses[1], w), Zeros(|w|)))
  {
    ValidRowsTail(rows);
    var tail, tailMasses := rows[1..], masses[1..];
    ValidRowsTail(tail);
    assert tail[0] == rows[1] && tailMasses[0] == masses[1];
    var last := ComponentMoles(tail[1..], tailMasses[1..], w);
    assert last == Zeros(|w|);
    assert ComponentMoles(tail, tailMasses, w) == Add(MolesOfEach(rows[1], masses[1], w), last);
  }

  /** Adding a mass of a fluid and then taking the same mass of it away again
      leaves nothing. */
  lemma MixSelfCancels(c: Composition, m: real, w: seq<real>)
    requires MolarMassTable(w) && Acceptable(c)
    ensures Mixing([c, c], [m, -m], w) == Err(ZeroTotalMoles)
  {
    var row := Row(c);
    assert Rows([c, c]) == [row, row];
    MixingAcceptable([c, c], [m, -m], w);
    TwoMoles(row, row, m, -m, w);
    OppositeMassesCancel(row, m, w);
    var cm := ComponentMoles(Rows([c, c]), [m, -m], w);
    assert cm == Zeros(|w|);
    assert NonNegative(cm);
    SumZeros(|w|);
    SumPair(m, -m);
    assert Mixing([c, c], [m, -m], w) == Outcome(cm, 0.0);
  }

  lemma OppositeMassesCancel(row: seq<real>, m: real, w: seq<real>)
    requires MolarMassTable(w) && ValidRow(row)
    ensures Add(MolesOfEach(row, m, w), Add(MolesOfEach(row, -m, w), Zeros(|w|))) == Zeros(|w|)
  {
    var f := Fractions(row);
    var avg := AverageMolarMass(row, w);
    var n := TotalMoles(row, m, w);
    assert TotalMoles(row, -m, w) == -n by {
      assert -m * 1000.0 / avg == -(m * 1000.0 / avg);
    }
    assert MolesOfEach(row, m, w) == Scale(f, n);
    assert MolesOfEach(row, -m, w) == Scale(f, -n);
    OppositeScalesCancel(f, n);
  }

  lemma OppositeScalesCancel(f: seq<real>, n: real)
    ensures Add(Scale(f, n), Add(Scale(f, -n), Zeros(|f|))) == Zeros(|f|)
  {
    var cm := Add(Scale(f, n), Add(Scale(f, -n), Zeros(|f|)));
    forall k | 0 <= k < |f| ensures cm[k] == 0.0 {
      ScaleAt(f, n, k);
      ScaleAt(f, -n, k);
      assert f[k] * n + f[k] * -n == 0.0;
    }
    assert |cm| == |Zeros(|f|)|;
  }

  lemma ZeroMassMoles(row: seq<real>, rows: seq<seq<real>>, masses: seq<real>, w: seq<real>)
    requires MolarMassTable(w) && ValidRow(row) && ValidRows(rows) && |rows| == |masses|
    ensures ValidRows([row] + rows)
    ensures ComponentMoles([row] + rows, [0.0] + masses, w) == ComponentMoles(rows, masses, w)
  {
    ConsMoles(row, rows, 0.0, masses, w);
    assert TotalMoles(row, 0.0, w) == 0.0;
    AddZeroScale(Fractions(row), ComponentMoles(rows, masses, w));
  }

  lemma AddZeroScale(f: seq<real>, rest: seq<real>)
    requires |f| == |rest|
    ensures Add(Scale(f, 0.0), rest) == rest
  {
  }

  /** A composition given zero mass contributes nothing: the mix is that of the others. */
  lemma MixZeroMassIgnored(c: Composition, comps: seq<Composition>, masses: seq<real>, w: seq<real>)
    requires MolarMassTable(w) && Acceptable(c) && NonNegativeAmounts(comps) && |comps| > 0
    ensures NonNegativeAmounts([c] + comps)
    ensures Mixing([c] + comps, [0.0] + masses, w) == Mixing(comps, masses, w)
  {
    PrependedComposition(c, comps);
    if |comps| == |masses| && KeysValid(comps) {
      RowNonNegative(c);
      RowsNonNegative(comps);
      ZeroRowIgnored(Row(c), Rows(comps), masses, w);
    }
  }

  lemma PrependedComposition(c: Composition, comps: seq<Composition>)
    requires Acceptable(c) && NonNegativeAmounts(comps)
    ensures NonNegativeAmounts([c] + comps)
    ensures Rows([c] + comps) == [Row(c)] + Rows(comps)
    ensures KeysValid([c] + comps) == KeysValid(comps)
  {
    var all := [c] + comps;
    assert forall j :: 0 < j < |all| ==> all[j] == comps[j - 1];
    assert all[0] == c;
    if !KeysValid(comps) {
      var j :| 0 <= j < |comps| && !(comps[j].Keys <= ComponentSet);
      assert !(all[j + 1].Keys <= ComponentSet);
    }
  }

  /** The matrix form: a valid row of zero mass in front changes nothing. */
  lemma ZeroRowIgnored(row: seq<real>, rows: seq<seq<real>>, masses: seq<real>, w: seq<real>)
    requires MolarMassTable(w) && ValidRow(row) && |rows| == |masses|
    requires forall j :: 0 <= j < |rows| ==> |rows[j]| == |Components| && NonNegative(rows[j])
    ensures MixRows([row] + rows, [0.0] + masses, w) == MixRows(rows, masses, w)
  {
    var all := [row] + rows;
    assert forall j :: 0 < j < |all| ==> all[j] == rows[j - 1];
    assert Sum([0.0] + masses) == Sum(masses) by {
      assert ([0.0] + masses)[1..] == masses;
    }
    if !NonZeroSums(rows) {
      var j :| 0 <= j < |rows| && Sum(rows[j]) == 0.0;
      assert Sum(all[j + 1]) == 0.0;
    } else {
      assert NonZeroSums(all);
      assert ValidRows(rows);
      ZeroMassMoles(row, rows, masses, w);
    }
  }

  /** The order of two compositions does not matter. */
  lemma MixCommutes(a: Composition, b: Composition, ma: real, mb: real, w: seq<real>)
    requires MolarMassTable(w) && NonNegativeAmounts([a, b])
    ensures NonNegativeAmounts([b, a])
    ensures Mixing([a, b], [ma, mb], w) == Mixing([b, a], [mb, ma], w)
  {
    assert [a, b][0] == a && [a, b][1] == b;
    assert [b, a][0] == b && [b, a][1] == a;
    assert NonNegativeAmounts([b, a]);
    var ra, rb := Row(a), Row(b);
    assert Rows([a, b]) == [ra, rb] && Rows([b, a]) == [rb, ra];
    RowsNonNegative([a, b]);
    assert KeysValid([a, b]) == KeysValid([b, a]);
    if KeysValid([a, b]) {
      assert Mixing([a, b], [ma, mb], w) == MixRows([ra, rb], [ma, mb], w);
      assert Mixing([b, a], [mb, ma], w) == MixRows([rb, ra], [mb, ma], w);
      PairSums(ra, rb);
      PairSums(rb, ra);
      if NonZeroSums([ra, rb]) {
        PairCommutes(ra, rb, ma, mb, w);
      }
    }
  }

  lemma PairSums(x: seq<real>, y: seq<real>)
    ensures NonZeroSums([x, y]) <==> Sum(x) != 0.0 && Sum(y) != 0.0
  {
    assert [x, y][0] == x && [x, y][1] == y;
  }

  lemma PairCommutes(ra: seq<real>, rb: seq<real>, ma: real, mb: real, w: seq<real>)
    requires MolarMassTable(w) && ValidRow(ra) && ValidRow(rb)
    ensures MixRows([ra, rb], [ma, mb], w) == MixRows([rb, ra], [mb, ma], w)
  {
    assert NonZeroSums([ra, rb]) && NonZeroSums([rb, ra]);
    TwoMoles(ra, rb, ma, mb, w);
    TwoMoles(rb, ra, mb, ma, w);
    var xa, xb := MolesOfEach(ra, ma, w), MolesOfEach(rb, mb, w);
    AddSwap(xa, xb, Zeros(|w|));
    SumPair(ma, mb);
    SumPair(mb, ma);
  }

  lemma AddSwap(x: seq<real>, y: seq<real>, z: seq<real>)
    requires |x| == |y| == |z|
    ensures Add(x, Add(y, z)) == Add(y, Add(x, z))
  {
    var l, r := Add(x, Add(y, z)), Add(y, Add(x, z));
    forall k | 0 <= k < |x| ensures l[k] == r[k] {
      assert l[k] == x[k] + (y[k] + z[k]);
      assert r[k] == y[k] + (x[k] + z[k]);
    }
    assert |l| == |r|;
  }

  lemma SumPair(x: real, y: real)
    ensures Sum([x, y]) == x + y
  {
    assert [x, y][1..] == [y];
    assert [y][1..] == [];
    assert Sum([y]) == y + Sum([]);
    assert Sum([x, y]) == x + Sum([y]);
  }

  // ---------------------------------------------------------------------------
  // Mixing a mixture again

  lemma DivMulCancel(x: real, s: real)
    requires s != 0.0
    ensures x / s * s == x
  {
  }

  /** Multiplying back by the divisor undoes an element-wise division. */
  lemma DivAllScaleBack(v: seq<real>, s: real)
    requires s != 0.0
    ensures Scale(DivAll(v, s), s) == v
  {
    var l := Scale(DivAll(v, s), s);
    forall k | 0 <= k < |v| ensures l[k] == v[k] {
      DivMulCancel(v[k], s);
    }
    assert |l| == |v|;
  }

  /** The dict of the positive entries of a non-negative row reads back as that row. */
  lemma RowOfPositiveEntries(p: seq<real>)
    requires |p| == |Components| && NonNegative(p)
    ensures Row(PositiveEntries(p)) == p
  {
    ComponentsDistinct();
    var d := PositiveEntries(p);
    var r := Row(d);
    forall k | 0 <= k < |p| ensures Components[k] in d ==> 0.0 < p[k] {
      if Components[k] in d {
        var k' :| 0 <= k' < |p| && Components[k'] == Components[k] && 0.0 < p[k'];
        assert k' == k;
      }
    }
    assert forall k | 0 <= k < |p| :: r[k] == p[k];
    assert |r| == |p|;
  }

  /** Mole percents of non-negative moles with a positive total form a row `mix` accepts. */
  lemma PercentsValid(cm: seq<real>)
    requires |cm| == |Components| && NonNegative(cm) && Sum(cm) != 0.0
    ensures ValidRow(Percents(cm))
  {
    SumNonNegative(cm);
    var f := DivAll(cm, Sum(cm));
    forall k | 0 <= k < |cm| ensures 0.0 <= f[k] {
      DivNonNegative(cm[k], Sum(cm));
    }
    ScaleNonNegative(f, 100.0);
  }

  /** The dict of a mixture is a composition `mix` accepts, and its row is the percents. */
  lemma PositiveEntriesAcceptable(p: seq<real>)
    requires ValidRow(p)
    ensures Acceptable(PositiveEntries(p)) && Row(PositiveEntries(p)) == p
  {
    var d := PositiveEntries(p);
    forall n | n in d ensures n in ComponentSet && 0.0 <= d[n] {
      var k :| 0 <= k < |p| && Components[k] == n && 0.0 < p[k];
    }
    RowOfPositiveEntries(p);
  }

  lemma MoleCount(m: real, s: real, dot: real, avg: real, n: real)
    requires 0.0 < m && 0.0 < s && dot == 1000.0 * m && avg == dot / s && n == m * 1000.0 / avg
    ensures n == s
  {
    assert avg * s == 1000.0 * m;
    assert n * avg == m * 1000.0;
  }

  /** The moles of a two-stream mixture, read as one composition of the summed mass,
      are the moles the two streams gave. */
  lemma MixtureMoles(rb: seq<real>, rc: seq<real>, mb: real, mc: real, w: seq<real>, cm: seq<real>)
    requires MolarMassTable(w) && ValidRows([rb, rc])
    requires cm == ComponentMoles([rb, rc], [mb, mc], w) && NonNegative(cm) && Sum(cm) != 0.0
    ensures ValidRow(Percents(cm))
    ensures MolesOfEach(Percents(cm), mb + mc, w) == cm
  {
    PercentsValid(cm);
    var s := Sum(cm);
    SumNonNegative(cm);
    MassBalance([rb, rc], [mb, mc], w);
    SumPair(mb, mc);
    DotPositive(cm, w);
    var f := DivAll(cm, s);
    var p := Percents(cm);
    assert p == Scale(f, 100.0);
    ScaleDivCancel(f, 100.0);
    assert Fractions(p) == f;
    DotDivAll(cm, s, w);
    assert AverageMolarMass(p, w) == Dot(cm, w) / s;
    MoleCount(mb + mc, s, Dot(cm, w), AverageMolarMass(p, w), TotalMoles(p, mb + mc, w));
    DivAllScaleBack(cm, s);
  }

  lemma SumTriple(x: real, y: real, z: real)
    ensures Sum([x, y, z]) == Sum([x, y + z])
  {
    assert [x, y, z][1..] == [y, z];
    SumPair(y, z);
    SumPair(x, y + z);
    assert Sum([x, y, z]) == x + Sum([y, z]);
  }

  /** Mixing is associative: mixing three streams gives what mixing the first with
      the mixture of the other two gives, that mixture weighing their summed mass. */
  lemma MixAssociative(a: Composition, b: Composition, c: Composition, ma: real, mb: real, mc: real, w: seq<real>)
    requires MolarMassTable(w) && NonNegativeAmounts([b, c]) && (forall n :: n in a ==> 0.0 <= a[n])
    requires Mixing([b, c], [mb, mc], w).Ok?
    ensures var x := Mixing([b, c], [mb, mc], w).value.composition;
      && NonNegativeAmounts([a, b, c]) && NonNegativeAmounts([a, x])
      && Mixing([a, b, c], [ma, mb, mc], w) == Mixing([a, x], [ma, mb + mc], w)
  {
    PairMixture(b, c, mb, mc, w);
    MixWithMixture(a, b, c, Mixing([b, c], [mb, mc], w).value.composition, ma, mb, mc, w);
  }

  /** What mixing two streams establishes about them and their mixture. */
  lemma PairMixture(b: Composition, c: Composition, mb: real, mc: real, w: seq<real>)
    requires MolarMassTable(w) && NonNegativeAmounts([b, c])
    requires Mixing([b, c], [mb, mc], w).Ok?
    ensures b.Keys <= ComponentSet && c.Keys <= ComponentSet
    ensures ValidRow(Row(b)) && ValidRow(Row(c)) && ValidRows([Row(b), Row(c)])
    ensures var x := Mixing([b, c], [mb, mc], w).value.composition;
      && Acceptable(x) && ValidRow(Row(x))
      && MolesOfEach(Row(x), mb + mc, w) == ComponentMoles([Row(b), Row(c)], [mb, mc], w)
  {
    var rb, rc := Row(b), Row(c);
    assert [b, c][0] == b && [b, c][1] == c;
    TwoRows([b, c]);
    RowsNonNegative([b, c]);
    PairSums(rb, rc);
    PairValid(rb, rc);
    MixtureRow(rb, rc, mb, mc, w);
  }

  /** `MixAssociative` for any `x` with the moles of the mixture of `b` and `c`. */
  lemma MixWithMixture(a: Composition, b: Composition, c: Composition, x: Composition,
                       ma: real, mb: real, mc: real, w: seq<real>)
    requires MolarMassTable(w) && NonNegativeAmounts([b, c]) && (forall n :: n in a ==> 0.0 <= a[n])
    requires b.Keys <= ComponentSet && c.Keys <= ComponentSet
    requires ValidRow(Row(b)) && ValidRow(Row(c)) && ValidRows([Row(b), Row(c)])
    requires Acceptable(x) && ValidRow(Row(x))
    requires MolesOfEach(Row(x), mb + mc, w) == ComponentMoles([Row(b), Row(c)], [mb, mc], w)
    ensures NonNegativeAmounts([a, b, c]) && NonNegativeAmounts([a, x])
    ensures Mixing([a, b, c], [ma, mb, mc], w) == Mixing([a, x], [ma, mb + mc], w)
  {
    TripleAmounts(a, b, c, x);
    assert [a, b, c][0] == a && [a, b, c][1] == b && [a, b, c][2] == c;
    assert [a, x][0] == a && [a, x][1] == x;
    ThreeRows([a, b, c]);
    TwoRows([a, x]);
    if a.Keys <= ComponentSet {
      RowNonNegative(a);
      MixingOfRows([a, b, c], [ma, mb, mc], w, [Row(a), Row(b), Row(c)]);
      MixingOfRows([a, x], [ma, mb + mc], w, [Row(a), Row(x)]);
      RowsWithMixture(Row(a), Row(b), Row(c), Row(x), ma, mb, mc, w);
    }
  }

  /** With valid keys, mixing compositions is mixing their rows. */
  lemma MixingOfRows(comps: seq<Composition>, masses: seq<real>, w: seq<real>, rows: seq<seq<real>>)
    requires MolarMassTable(w) && NonNegativeAmounts(comps)
    requires 0 < |comps| == |masses| && KeysValid(comps) && rows == Rows(comps)
    ensures |rows| == |masses| && forall j :: 0 <= j < |rows| ==> |rows[j]| == |Components| && NonNegative(rows[j])
    ensures Mixing(comps, masses, w) == MixRows(rows, masses, w)
  {
    RowsNonNegative(comps);
  }

  lemma ThreeRows(comps: seq<Composition>)
    requires |comps| == 3
    ensures Rows(comps) == [Row(comps[0]), Row(comps[1]), Row(comps[2])]
    ensures KeysValid(comps) <==>
      comps[0].Keys <= ComponentSet && comps[1].Keys <= ComponentSet && comps[2].Keys <= ComponentSet
  {
  }

  lemma TwoRows(comps: seq<Composition>)
    requires |comps| == 2
    ensures Rows(comps) == [Row(comps[0]), Row(comps[1])]
    ensures KeysValid(comps) <==> comps[0].Keys <= ComponentSet && comps[1].Keys <= ComponentSet
  {
  }

  lemma TripleAmounts(a: Composition, b: Composition, c: Composition, x: Composition)
    requires NonNegativeAmounts([b, c]) && (forall n :: n in a ==> 0.0 <= a[n]) && Acceptable(x)
    ensures NonNegativeAmounts([a, b, c]) && NonNegativeAmounts([a, x])
  {
    assert [b, c][0] == b && [b, c][1] == c;
  }

  /** The dict of a two-stream mixture is a composition `mix` accepts, and mixing
      it at the summed mass gives back the moles of the two streams. */
  lemma MixtureRow(rb: seq<real>, rc: seq<real>, mb: real, mc: real, w: seq<real>)
    requires MolarMassTable(w) && ValidRows([rb, rc]) && MixRows([rb, rc], [mb, mc], w).Ok?
    ensures var x := MixRows([rb, rc], [mb, mc], w).value.composition;
      && Acceptable(x) && ValidRow(Row(x))
      && MolesOfEach(Row(x), mb + mc, w) == ComponentMoles([rb, rc], [mb, mc], w)
  {
    var cm := ComponentMoles([rb, rc], [mb, mc], w);
    assert MixRows([rb, rc], [mb, mc], w) == Outcome(cm, Sum([mb, mc]));
    MixtureMoles(rb, rc, mb, mc, w, cm);
    PositiveEntriesAcceptable(Percents(cm));
  }

  /** The matrix form of associativity: a non-negative first row mixed with two valid
      rows gives what it gives mixed with any row `p` holding their moles at their summed mass. */
  lemma RowsWithMixture(ra: seq<real>, rb: seq<real>, rc: seq<real>, p: seq<real>, ma: real, mb: real, mc: real, w: seq<real>)
    requires MolarMassTable(w) && |ra| == |Components| && NonNegative(ra)
    requires ValidRow(rb) && ValidRow(rc) && ValidRow(p) && ValidRows([rb, rc])
    requires MolesOfEach(p, mb + mc, w) == ComponentMoles([rb, rc], [mb, mc], w)
    ensures MixRows([ra, rb, rc], [ma, mb, mc], w) == MixRows([ra, p], [ma, mb + mc], w)
  {
    if Sum(ra) != 0.0 {
      RowsAssociative(ra, rb, rc, p, ma, mb, mc, w);
    } else {
      assert [ra, rb, rc][0] == ra && [ra, p][0] == ra;
      assert !NonZeroSums([ra, rb, rc]) && !NonZeroSums([ra, p]);
    }
  }

  /** `RowsWithMixture` when the first row is valid too. */
  lemma RowsAssociative(ra: seq<real>, rb: seq<real>, rc: seq<real>, p: seq<real>, ma: real, mb: real, mc: real, w: seq<real>)
    requires MolarMassTable(w) && ValidRow(ra) && ValidRow(rb) && ValidRow(rc) && ValidRow(p)
    requires ValidRows([rb, rc]) && MolesOfEach(p, mb + mc, w) == ComponentMoles([rb, rc], [mb, mc], w)
    ensures MixRows([ra, rb, rc], [ma, mb, mc], w) == MixRows([ra, p], [ma, mb + mc], w)
  {
    TripleValid(ra, rb, rc);
    PairValid(ra, p);
    assert [ra, rb, rc][1..] == [rb, rc] && [ma, mb, mc][1..] == [mb, mc];
    SumTriple(ma, mb, mc);
    RegroupMix([ra, rb, rc], [ra, p], [ma, mb, mc], [ma, mb + mc], w, ComponentMoles([rb, rc], [mb, mc], w));
  }

  /** Regrouping the moles regroups the mix, when the total mass is the same. */
  lemma RegroupMix(rows3: seq<seq<real>>, rows2: seq<seq<real>>, masses3: seq<real>, masses2: seq<real>, w: seq<real>, cm: seq<real>)
    requires MolarMassTable(w) && ValidRows(rows3) && ValidRows(rows2)
    requires |rows3| == 3 == |masses3| && |rows2| == 2 == |masses2|
    requires rows2[0] == rows3[0] && masses2[0] == masses3[0]
    requires ValidRows(rows3[1..]) && cm == ComponentMoles(rows3[1..], masses3[1..], w)
    requires MolesOfEach(rows2[1], masses2[1], w) == cm
    requires Sum(masses3) == Sum(masses2)
    ensures MixRows(rows3, masses3, w) == MixRows(rows2, masses2, w)
  {
    RegroupMoles(rows3, rows2, masses3, masses2, w, cm);
    assert NonZeroSums(rows3) && NonZeroSums(rows2);
  }

  /** Three streams give the moles of the first and of a mixture of the other two. */
  lemma RegroupMoles(rows3: seq<seq<real>>, rows2: seq<seq<real>>, masses3: seq<real>, masses2: seq<real>, w: seq<real>, cm: seq<real>)
    requires MolarMassTable(w) && ValidRows(rows3) && ValidRows(rows2)
    requires |rows3| == 3 == |masses3| && |rows2| == 2 == |masses2|
    requires rows2[0] == rows3[0] && masses2[0] == masses3[0]
    requires ValidRows(rows3[1..]) && cm == ComponentMoles(rows3[1..], masses3[1..], w)
    requires MolesOfEach(rows2[1], masses2[1], w) == cm
    ensures ComponentMoles(rows3, masses3, w) == ComponentMoles(rows2, masses2, w)
  {
    TripleMoles(rows3, masses3, w);
    PairMoles(rows2, masses2, w);
    AddZerosRight(cm);
  }

  lemma TripleValid(ra: seq<real>, rb: seq<real>, rc: seq<real>)
    requires ValidRow(ra) && ValidRow(rb) && ValidRow(rc)
    ensures ValidRows([ra, rb, rc]) && NonZeroSums([ra, rb, rc])
  {
  }

  /** The moles of three compositions: the first one's added to those of the other two. */
  lemma TripleMoles(rows: seq<seq<real>>, masses: seq<real>, w: seq<real>)
    requires MolarMassTable(w) && ValidRows(rows) && |rows| == 3 == |masses|
    ensures ValidRows(rows[1..])
    ensures ComponentMoles(rows, masses, w) ==
      Add(MolesOfEach(rows[0], masses[0], w), ComponentMoles(rows[1..], masses[1..], w))
  {
    ValidRowsTail(rows);
  }

  // Reordering the streams

  /** `s` with the entries at `i` and `i + 1` exchanged. */
  function Swapped<T>(s: seq<T>, i: nat): (r: seq<T>)
    requires i + 1 < |s|
    ensures |r| == |s| && r[i] == s[i + 1] && r[i + 1] == s[i]
    ensures forall j :: 0 <= j < |s| && j != i && j != i + 1 ==> r[j] == s[j]
  {
    seq(|s|, j requires 0 <= j < |s| => if j == i then s[i + 1] else if j == i + 1 then s[i] else s[j])
  }

  /** Exchanging two neighbours past the head is exchanging them in the tail. */
  lemma SwappedTail<T>(s: seq<T>, i: nat)
    requires 0 < i && i + 1 < |s|
    ensures Swapped(s, i)[0] == s[0] && Swapped(s, i)[1..] == Swapped(s[1..], i - 1)
  {
  }

  lemma AddExchange(a: seq<real>, b: seq<real>, c: seq<real>)
    requires |a| == |b| == |c|
    ensures Add(a, Add(b, c)) == Add(b, Add(a, c))
  {
  }

  /** The moles of the streams do not depend on the order of two neighbours. */
  lemma {:induction false} SwapMoles(rows: seq<seq<real>>, masses: seq<real>, w: seq<real>, i: nat)
    requires |rows| == |masses| && MolarMassTable(w) && ValidRows(rows) && i + 1 < |rows|
    ensures ValidRows(Swapped(rows, i))
    ensures ComponentMoles(Swapped(rows, i), Swapped(masses, i), w) == ComponentMoles(rows, masses, w)
    decreases i
  {
    var rs, ms := Swapped(rows, i), Swapped(masses, i);
    assert ValidRows(rs) by {
      forall j | 0 <= j < |rs| ensures ValidRow(rs[j]) {
        if j == i { assert rs[j] == rows[i + 1]; }
        else if j == i + 1 { assert rs[j] == rows[i]; }
        else { assert rs[j] == rows[j]; }
      }
    }
    ValidRowsTail(rows);
    ValidRowsTail(rs);
    if i == 0 {
      ValidRowsTail(rows[1..]);
      assert rs[1..][1..] == rows[2..] == rows[1..][1..];
      assert ms[1..][1..] == masses[2..] == masses[1..][1..];
      assert rs[0] == rows[1] && rs[1..][0] == rows[0] && ms[0] == masses[1] && ms[1..][0] == masses[0];
      assert rows[1..][0] == rows[1] && masses[1..][0] == masses[1];
      AddExchange(MolesOfEach(rows[0], masses[0], w), MolesOfEach(rows[1], masses[1], w),
        ComponentMoles(rows[2..], masses[2..], w));
    } else {
      SwappedTail(rows, i);
      SwappedTail(masses, i);
      SwapMoles(rows[1..], masses[1..], w, i - 1);
    }
  }

  /** The total mass does not depend on the order of two neighbours. */
  lemma {:induction false} SumSwapped(s: seq<real>, i: nat)
    requires i + 1 < |s|
    ensures Sum(Swapped(s, i)) == Sum(s)
    decreases i
  {
    var t := Swapped(s, i);
    if i == 0 {
      assert t[1..][1..] == s[2..] == s[1..][1..];
      assert t[0] == s[1] && t[1..][0] == s[0] && s[1..][0] == s[1];
    } else {
      SwappedTail(s, i);
      SumSwapped(s[1..], i - 1);
    }
  }

  /** Order independence: exchanging two neighbouring streams, with their masses, does
      not change the outcome of `mix`, nor which error it reports. */
  lemma MixSwapped(comps: seq<Composition>, masses: seq<real>, w: seq<real>, i: nat)
    requires MolarMassTable(w) && NonNegativeAmounts(comps) && i + 1 < |comps| && i + 1 < |masses|
    ensures NonNegativeAmounts(Swapped(comps, i))
    ensures Mixing(Swapped(comps, i), Swapped(masses, i), w) == Mixing(comps, masses, w)
  {
    var cs, ms := Swapped(comps, i), Swapped(masses, i);
    SwappedEntries(comps, i);
    if |comps| == |masses| && KeysValid(comps) {
      RowsNonNegative(comps);
      var rows := Rows(comps);
      assert Rows(cs) == Swapped(rows, i);
      if NonZeroSums(rows) {
        assert ValidRows(rows);
        SwapMoles(rows, masses, w, i);
        SumSwapped(masses, i);
      } else {
        var j :| 0 <= j < |rows| && Sum(rows[j]) == 0.0;
        var j' := if j == i then i + 1 else if j == i + 1 then i else j;
        assert Rows(cs)[j'] == rows[j];
      }
    }
  }

  /** The per-entry predicates `mix` checks hold of a list exactly when they hold of it
      with two neighbours exchanged. */
  lemma SwappedEntries(comps: seq<Composition>, i: nat)
    requires i + 1 < |comps|
    ensures NonNegativeAmounts(Swapped(comps, i)) <==> NonNegativeAmounts(comps)
    ensures KeysValid(Swapped(comps, i)) <==> KeysValid(comps)
  {
    var cs := Swapped(comps, i);
    forall j | 0 <= j < |comps|
      ensures cs[j] == comps[if j == i then i + 1 else if j == i + 1 then i else j]
      ensures comps[j] == cs[if j == i then i + 1 else if j == i + 1 then i else j]
    {
    }
  }

  /** A composition with every amount multiplied by `a`. */
  function Rescaled(c: Composition, a: real): (r: Composition)
    ensures forall n :: (n in r <==> n in c) && (n in c ==> r[n] == c[n] * a)
  {
    map n | n in c :: c[n] * a
  }

  function RescaledAll(comps: seq<Composition>, factors: seq<real>): (r: seq<Composition>)
    requires |factors| == |comps|
    ensures |r| == |comps| && forall j :: 0 <= j < |comps| ==> r[j] == Rescaled(comps[j], factors[j])
  {
    seq(|comps|, j requires 0 <= j < |comps| => Rescaled(comps[j], factors[j]))
  }

  function ScaledRows(rows: seq<seq<real>>, factors: seq<real>): (r: seq<seq<real>>)
    requires |factors| == |rows|
    ensures |r| == |rows| && forall j :: 0 <= j < |rows| ==> r[j] == Scale(rows[j], factors[j])
  {
    seq(|rows|, j requires 0 <= j < |rows| => Scale(rows[j], factors[j]))
  }

  lemma CancelFactor(x: real, s: real, a: real)
    requires s != 0.0 && a != 0.0
    ensures x * a / (s * a) == x / s
  {
    var q := x / s;
    assert q * s == x;
    assert x * a == q * (s * a);
  }

  /** Dividing a scaled row by the same multiple of a divisor undoes the scaling. */
  lemma DivAllScaled(v: seq<real>, a: real, t: real)
    requires a != 0.0 && t != 0.0
    ensures t * a != 0.0 && DivAll(Scale(v, a), t * a) == DivAll(v, t)
  {
    MulNonZero(t, a);
    var l, r := DivAll(Scale(v, a), t * a), DivAll(v, t);
    forall k | 0 <= k < |v| ensures l[k] == r[k] {
      CancelFactor(v[k], t, a);
    }
    assert |l| == |r|;
  }

  /** Scaling a row by a positive factor leaves its mole fractions unchanged. */
  lemma FractionsRescaled(row: seq<real>, a: real)
    requires 0.0 < a && ValidRow(row)
    ensures ValidRow(Scale(row, a))
    ensures Fractions(Scale(row, a)) == Fractions(row)
  {
    var sc := Scale(row, a);
    SumScale(row, a);
    DivAllScaled(row, a, Sum(row));
    ScaleNonNegative(row, a);
    assert Fractions(sc) == DivAll(sc, Sum(sc));
    assert Fractions(row) == DivAll(row, Sum(row));
    assert Sum(sc) == Sum(row) * a;
    assert DivAll(sc, Sum(sc)) == DivAll(sc, Sum(row) * a);
    assert DivAll(sc, Sum(row) * a) == DivAll(row, Sum(row));
  }

  lemma {:induction false} MolesRescaled(rows: seq<seq<real>>, factors: seq<real>, masses: seq<real>, w: seq<real>)
    requires MolarMassTable(w) && ValidRows(rows) && |factors| == |rows| == |masses|
    requires forall j :: 0 <= j < |factors| ==> 0.0 < factors[j]
    ensures ValidRows(ScaledRows(rows, factors))
    ensures ComponentMoles(ScaledRows(rows, factors), masses, w) == ComponentMoles(rows, masses, w)
  {
    var scaled := ScaledRows(rows, factors);
    forall j | 0 <= j < |rows| ensures ValidRow(scaled[j]) {
      FractionsRescaled(rows[j], factors[j]);
    }
    if |rows| > 0 {
      ValidRowsTail(rows);
      assert scaled[1..] == ScaledRows(rows[1..], factors[1..]);
      MolesRescaled(rows[1..], factors[1..], masses[1..], w);
      FractionsRescaled(rows[0], factors[0]);
      assert MolesOfEach(scaled[0], masses[0], w) == MolesOfEach(rows[0], masses[0], w);
    }
  }

  /** Each composition may be given in its own scale (mole percent or mole
      fraction, say): multiplying the amounts of any composition by a positive
      factor does not change the mix. */
  lemma MixScaleInvariant(comps: seq<Composition>, factors: seq<real>, masses: seq<real>, w: seq<real>)
    requires MolarMassTable(w) && NonNegativeAmounts(comps) && |factors| == |comps|
    requires forall j :: 0 <= j < |factors| ==> 0.0 < factors[j]
    ensures NonNegativeAmounts(RescaledAll(comps, factors))
    ensures Mixing(RescaledAll(comps, factors), masses, w) == Mixing(comps, masses, w)
  {
    var all := RescaledAll(comps, factors);
    RescaledNonNegative(comps, factors);
    assert KeysValid(all) == KeysValid(comps);
    var rows := Rows(comps);
    RowsNonNegative(comps);
    RowsRescaled(comps, factors);
    SumsRescaled(rows, factors);
    if NonZeroSums(rows) && |comps| == |masses| {
      assert ValidRows(rows);
      MolesRescaled(rows, factors, masses, w);
    }
  }

  lemma RescaledNonNegative(comps: seq<Composition>, factors: seq<real>)
    requires NonNegativeAmounts(comps) && |factors| == |comps|
    requires forall j :: 0 <= j < |factors| ==> 0.0 < factors[j]
    ensures NonNegativeAmounts(RescaledAll(comps, factors))
  {
    var all := RescaledAll(comps, factors);
    forall j, n | 0 <= j < |all| && n in all[j] ensures 0.0 <= all[j][n] {
      assert 0.0 <= comps[j][n] * factors[j];
    }
  }

  lemma RowsRescaled(comps: seq<Composition>, factors: seq<real>)
    requires |factors| == |comps|
    ensures Rows(RescaledAll(comps, factors)) == ScaledRows(Rows(comps), factors)
  {
    var all := RescaledAll(comps, factors);
    var rows := Rows(comps);
    forall j | 0 <= j < |comps| ensures Rows(all)[j] == Scale(rows[j], factors[j]) {
      RowRescaled(comps[j], factors[j]);
    }
  }

  lemma RowRescaled(c: Composition, a: real)
    ensures Row(Rescaled(c, a)) == Scale(Row(c), a)
  {
    var r, sc := Row(Rescaled(c, a)), Scale(Row(c), a);
    var d := Rescaled(c, a);
    forall k | 0 <= k < |Components| ensures r[k] == sc[k] {
      var n := Components[k];
      assert r[k] == if n in d then d[n] else 0.0;
      assert sc[k] == (if n in c then c[n] else 0.0) * a;
    }
    assert |r| == |sc|;
  }

  lemma SumsRescaled(rows: seq<seq<real>>, factors: seq<real>)
    requires |factors| == |rows|
    requires forall j :: 0 <= j < |factors| ==> 0.0 < factors[j]
    ensures NonZeroSums(ScaledRows(rows, factors)) == NonZeroSums(rows)
  {
    forall j | 0 <= j < |rows| ensures Sum(ScaledRows(rows, factors)[j]) == 0.0 <==> Sum(rows[j]) == 0.0 {
      SumScale(rows[j], factors[j]);
      if Sum(rows[j]) != 0.0 {
        MulNonZero(Sum(rows[j]), factors[j]);
      }
    }
  }

  /** The input errors, in the order they are checked: unequal lengths first,
      then no input, then an unknown component, then a zero sum; with checking
      off the error dict keeps every key given. */
  lemma MixInputErrors(w: seq<real>)
    requires MolarMassTable(w)
    ensures Mixing([map["N2" := 100.0], map["Xe" := 1.0]], [100.0], w) == Err(LengthMismatch)
    ensures MixOf([map["N2" := 100.0], map["Xe" := 1.0]], [100.0], false, w) == Ok(AllNaN({"N2", "Xe"}))
    ensures Mixing([], [], w) == Err(NoCompositions)
    ensures Mixing([map["Xe" := 1.0], map["C1" := 0.0]], [1.0, 1.0], w) == Err(InvalidComponent)
    ensures Mixing([map["C1" := 0.0]], [1.0], w) == Err(ZeroCompositionSum)
  {
    assert UnionKeys([map["N2" := 100.0], map["Xe" := 1.0]]) == {"N2", "Xe"};
    assert "Xe" !in ComponentSet;
    var bad := [map["Xe" := 1.0], map["C1" := 0.0]];
    assert "Xe" in bad[0].Keys && !(bad[0].Keys <= ComponentSet);
    assert "C1" == Components[0];
    assert KeysValid([map["C1" := 0.0]]);
    assert Rows([map["C1" := 0.0]])[0] == Zeros(|Components|);
    SumZeros(|Components|);
  }
}
