/** The composition mapper `to_aga8_composition`: it turns a free-form
    component-name -> amount dict into the dict of the 21 AGA8 components, with
    every amount divided by the sum of all amounts. A key's suffix after the
    first '-' is dropped; the carbon-number shorthand 'C6'..'C9' names the normal
    alkane, 'C10' and above the decane lump, and other 'Cn' names are used
    literally; any other name must be an AGA8 component. Entries are assigned,
    not added, so a later key that maps to the same component overwrites an
    earlier one.

    The input dict is modelled by its items in insertion order, since that
    order decides which of two colliding keys wins. */
module Aga8Composition {
  import opened Common
  import opened Aga8Tables

  type Items = seq<(string, real)>

  datatype CompositionError =
    | ZeroDivision               // the amounts sum to zero (division by the sum)
    | EmptyName                  // nothing precedes the first '-' (IndexError)
    | NameTooShort               // the name is just "C" (IndexError)
    | NotAnInteger(name: string) // 'C' and a digit, but the rest is not an integer (ValueError)
    | IllegalComponent(name: string)

  /** The part of a key before its first '-' (`key.split('-')[0]`). */
  function BaseName(key: string): (b: string)
    ensures |b| <= |key| && b == key[..|b|]
    ensures '-' !in b
    ensures |b| < |key| ==> key[|b|] == '-'
  {
    if |key| == 0 || key[0] == '-' then "" else [key[0]] + BaseName(key[1..])
  }

  predicate IsDigit(c: char) {
    '0' <= c <= '9'
  }

  predicate AllDigits(s: string) {
    forall i :: 0 <= i < |s| ==> IsDigit(s[i])
  }

  /** The value of a decimal digit string (`int(s)` for such strings): zero
      exactly when every digit is '0', so leading zeros do not change it. */
  function DigitsValue(s: string): (v: nat)
    requires AllDigits(s)
    ensures v == 0 <==> forall i :: 0 <= i < |s| ==> s[i] == '0'
  {
    if |s| == 0 then 0
    else DigitsValue(s[..|s| - 1]) * 10 + (s[|s| - 1] as int - '0' as int)
  }

  /** The normal alkane 'nC6'..'nC9' for carbon numbers 6 to 9. */
  function NormalAlkane(n: nat): (name: string)
    requires 6 <= n <= 9
    ensures name in Components
  {
    if n == 6 then "nC6" else if n == 7 then "nC7" else if n == 8 then "nC8" else "nC9"
  }

  /** The dict key an input key is written to, or the exception it raises: an
      AGA8 component, or a literal carbon-number name taken from the key itself. */
  function Target(key: string): (r: Result<string, CompositionError>)
    ensures r == Err(EmptyName) <==> |BaseName(key)| == 0
    ensures r.Ok? ==> r.value in Components || (CarbonKey(r.value) && r.value == BaseName(key))
    ensures r != Err(ZeroDivision)
  {
    var name := BaseName(key);
    if |name| == 0 then Err(EmptyName)
    else if name[0] == 'C' && |name| == 1 then Err(NameTooShort)
    else if name[0] == 'C' && IsDigit(name[1]) then
      if !AllDigits(name[1..]) then Err(NotAnInteger(name))
      else
        var n := DigitsValue(name[1..]);
        if 6 <= n <= 9 then Ok(NormalAlkane(n))
        else if n >= 10 then Ok("nC10")
        else Ok(name)
    else if name in Components then Ok(name)
    else Err(IllegalComponent(name))
  }

  /** The dict pre-filled with every AGA8 component at zero. */
  const Prefilled: map<string, real> := map c | c in Components :: 0.0

  lemma PrefilledZeros()
    ensures forall c :: c in Prefilled <==> c in Components
    ensures forall c :: c in Prefilled ==> Prefilled[c] == 0.0
  {
  }

  function Values(items: Items): (vs: seq<real>)
    ensures |vs| == |items|
    ensures forall i :: 0 <= i < |items| ==> vs[i] == items[i].1
  {
    seq(|items|, i requires 0 <= i < |items| => items[i].1)
  }

  /** The items assigned one after another into `d`, each amount divided by `total`. */
  function Assigned(items: Items, total: real, d: map<string, real>): (r: Result<map<string, real>, CompositionError>)
    requires total != 0.0
    ensures r.Err? ==> r.error != ZeroDivision
    decreases |items|
  {
    if |items| == 0 then Ok(d)
    else match Target(items[0].0)
      case Err(e) => Err(e)
      case Ok(t) => Assigned(items[1..], total, d[t := items[0].1 / total])
  }

  /** What `to_aga8_composition` returns as its dict (or raises). The division by
      the sum comes before the name is parsed, so a zero sum with at least one
      item raises before any name is looked at. */
  function Aga8CompositionOf(items: Items): (r: Result<map<string, real>, CompositionError>)
    ensures |items| == 0 ==> r == Ok(Prefilled)
    ensures r == Err(ZeroDivision) <==> |items| > 0 && Sum(Values(items)) == 0.0
  {
    var total := Sum(Values(items));
    if |items| == 0 then Ok(Prefilled)
    else if total == 0.0 then Err(ZeroDivision)
    else Assigned(items, total, Prefilled)
  }

  /** Keys of the dict are AGA8 components or literal carbon-number names. */
  ghost predicate CarbonKey(k: string) {
    |k| >= 2 && k[0] == 'C' && IsDigit(k[1])
  }

  ghost predicate KeysShape(d: map<string, real>) {
    forall k :: k in d ==> k in Components || CarbonKey(k)
  }

  /** `to_aga8_composition` (dict part): pre-fill, then assign every item in turn. */
  method ToAga8Composition(items: Items) returns (r: Result<map<string, real>, CompositionError>)
    ensures r == Aga8CompositionOf(items)
  {
    var d := map c | c in Components :: 0.0;
    var total := Sum(Values(items));
    var i := 0;
    while i < |items|
      invariant 0 <= i <= |items|
      invariant i > 0 ==> total != 0.0
      invariant KeysShape(d)
      invariant forall c :: c in Components ==> c in d
      invariant total != 0.0 ==> Assigned(items, total, Prefilled) == Assigned(items[i..], total, d)
      invariant i == 0 ==> d == Prefilled
    {
      var (key, amount) := items[i];
      if total == 0.0 {
        r := Err(ZeroDivision);
        return;
      }
      var fraction := amount / total;
      var name := BaseName(key);
      if |name| == 0 {
        r := Err(EmptyName);
        return;
      }
      if name[0] == 'C' && |name| == 1 {
        r := Err(NameTooShort);
        return;
      }
      assert items[i..][1..] == items[i + 1..];
      if name[0] == 'C' && IsDigit(name[1]) {
        if !AllDigits(name[1..]) {
          r := Err(NotAnInteger(name));
          return;
        }
        var n := DigitsValue(name[1..]);
        if 6 <= n <= 9 {
          assert Target(key) == Ok(NormalAlkane(n));
          d := d[NormalAlkane(n) := fraction];
        } else if n >= 10 {
          assert Target(key) == Ok("nC10");
          d := d["nC10" := fraction];
        } else {
          assert Target(key) == Ok(name);
          d := d[name := fraction];
        }
      } else {
        assert !CarbonKey(name);
        if name in d {
          assert Target(key) == Ok(name);
          d := d[name := fraction];
        } else {
          r := Err(IllegalComponent(name));
          return;
        }
      }
      i := i + 1;
    }
    r := Ok(d);
  }

  /** No later item is written to the same key as item `i`. */
  ghost predicate LastWrite(items: Items, i: int)
    requires 0 <= i < |items|
  {
    forall j :: i < j < |items| ==> Target(items[j].0) != Target(items[i].0)
  }

  /** No item is written to key `c`. */
  ghost predicate Untargeted(items: Items, c: string) {
    forall j :: 0 <= j < |items| ==> Target(items[j].0) != Ok(c)
  }

  lemma {:induction false} UntargetedTail(items: Items, c: string)
    requires |items| > 0 && Untargeted(items, c)
    ensures Untargeted(items[1..], c)
  {
    forall j | 0 <= j < |items| - 1 ensures Target(items[1..][j].0) != Ok(c) {
      assert items[1..][j] == items[j + 1];
    }
  }

  lemma {:induction false} AssignedKeepsKeys(items: Items, total: real, d0: map<string, real>)
    requires total != 0.0 && Assigned(items, total, d0).Ok?
    ensures forall c :: c in d0 ==> c in Assigned(items, total, d0).value
  {
    if |items| > 0 {
      var t := Target(items[0].0).value;
      AssignedKeepsKeys(items[1..], total, d0[t := items[0].1 / total]);
    }
  }

  lemma {:induction false} AssignedTargetsPresent(items: Items, total: real, d0: map<string, real>)
    requires total != 0.0 && Assigned(items, total, d0).Ok?
    ensures forall i :: 0 <= i < |items| ==>
      Target(items[i].0).Ok? && Target(items[i].0).value in Assigned(items, total, d0).value
  {
    if |items| > 0 {
      var t := Target(items[0].0).value;
      var d1 := d0[t := items[0].1 / total];
      var tail := items[1..];
      AssignedTargetsPresent(tail, total, d1);
      AssignedKeepsKeys(tail, total, d1);
      var d := Assigned(tail, total, d1).value;
      forall i | 0 <= i < |items| ensures Target(items[i].0).Ok? && Target(items[i].0).value in d {
        if i > 0 { assert items[i] == tail[i - 1]; }
      }
    }
  }

  lemma {:induction false} AssignedKeysFrom(items: Items, total: real, d0: map<string, real>)
    requires total != 0.0 && Assigned(items, total, d0).Ok?
    ensures forall k :: k in Assigned(items, total, d0).value ==>
      k in d0 || exists i :: 0 <= i < |items| && Target(items[i].0) == Ok(k)
  {
    if |items| > 0 {
      var t := Target(items[0].0).value;
      var d1 := d0[t := items[0].1 / total];
      var tail := items[1..];
      AssignedKeysFrom(tail, total, d1);
      var d := Assigned(tail, total, d1).value;
      forall k | k in d ensures k in d0 || exists i :: 0 <= i < |items| && Target(items[i].0) == Ok(k) {
        if k !in d0 {
          if k == t {
            assert Target(items[0].0) == Ok(k);
          } else {
            var j :| 0 <= j < |tail| && Target(tail[j].0) == Ok(k);
            assert items[j + 1] == tail[j];
          }
        }
      }
    }
  }

  lemma {:induction false} AssignedLastWrite(items: Items, total: real, d0: map<string, real>)
    requires total != 0.0 && Assigned(items, total, d0).Ok?
    ensures forall i :: 0 <= i < |items| && LastWrite(items, i) ==>
      Target(items[i].0).Ok? && Target(items[i].0).value in Assigned(items, total, d0).value &&
      Assigned(items, total, d0).value[Target(items[i].0).value] == items[i].1 / total
  {
    AssignedTargetsPresent(items, total, d0);
    if |items| > 0 {
      var t := Target(items[0].0).value;
      var d1 := d0[t := items[0].1 / total];
      var tail := items[1..];
      AssignedLastWrite(tail, total, d1);
      var d := Assigned(tail, total, d1).value;
      forall i | 0 <= i < |items| && LastWrite(items, i)
        ensures d[Target(items[i].0).value] == items[i].1 / total
      {
        if i == 0 {
          forall j | 0 <= j < |tail| ensures Target(tail[j].0) != Ok(t) {
            assert tail[j] == items[j + 1];
          }
          AssignedUntouched(tail, total, d1);
        } else {
          assert items[i] == tail[i - 1];
          forall j | i - 1 < j < |tail| ensures Target(tail[j].0) != Target(tail[i - 1].0) {
            assert tail[j] == items[j + 1];
          }
          assert LastWrite(tail, i - 1);
        }
      }
    }
  }

  lemma {:induction false} AssignedUntouched(items: Items, total: real, d0: map<string, real>)
    requires total != 0.0 && Assigned(items, total, d0).Ok?
    ensures forall c :: c in d0 && Untargeted(items, c) ==>
      c in Assigned(items, total, d0).value && Assigned(items, total, d0).value[c] == d0[c]
  {
    AssignedKeepsKeys(items, total, d0);
    if |items| > 0 {
      var t := Target(items[0].0).value;
      var d1 := d0[t := items[0].1 / total];
      var tail := items[1..];
      AssignedUntouched(tail, total, d1);
      forall c | c in d0 && Untargeted(items, c) ensures Assigned(tail, total, d1).value[c] == d0[c] {
        assert Target(items[0].0) != Ok(c);
        UntargetedTail(items, c);
      }
    }
  }

  /** What assigning the items into `d0` leaves: every item's target is a key,
      keys are those of `d0` or targets, the last write to a key decides its
      value, and keys nobody writes keep their old value. */
  lemma AssignedFacts(items: Items, total: real, d0: map<string, real>)
    requires total != 0.0 && Assigned(items, total, d0).Ok?
    ensures var d := Assigned(items, total, d0).value;
      && (forall i :: 0 <= i < |items| ==> Target(items[i].0).Ok? && Target(items[i].0).value in d)
      && (forall k :: k in d ==> k in d0 || exists i :: 0 <= i < |items| && Target(items[i].0) == Ok(k))
      && (forall c :: c in d0 ==> c in d)
      && (forall i :: 0 <= i < |items| && LastWrite(items, i) ==>
            d[Target(items[i].0).value] == items[i].1 / total)
      && (forall c :: c in d0 && Untargeted(items, c) ==> d[c] == d0[c])
  {
    AssignedKeepsKeys(items, total, d0);
    AssignedTargetsPresent(items, total, d0);
    AssignedKeysFrom(items, total, d0);
    AssignedLastWrite(items, total, d0);
    AssignedUntouched(items, total, d0);
  }

  /** The keys of the dict returned: every AGA8 component, and otherwise exactly
      the targets of the items. */
  lemma CompositionKeys(items: Items)
    requires Aga8CompositionOf(items).Ok?
    ensures forall c :: c in Components ==> c in Aga8CompositionOf(items).value
    ensures forall k :: k in Aga8CompositionOf(items).value <==>
      k in Components || exists i :: 0 <= i < |items| && Target(items[i].0) == Ok(k)
  {
    assert forall c :: c in Prefilled <==> c in Components;
    if |items| > 0 {
      AssignedFacts(items, Sum(Values(items)), Prefilled);
    }
  }

  /** The values of the dict returned: each key holds the amount of the last item
      written to it divided by the sum of all amounts (assignment, not
      accumulation), and a component no item names stays at zero. */
  lemma CompositionValues(items: Items)
    requires Aga8CompositionOf(items).Ok?
    ensures forall i :: 0 <= i < |items| && LastWrite(items, i) ==>
      Target(items[i].0).Ok? && Target(items[i].0).value in Aga8CompositionOf(items).value &&
      Aga8CompositionOf(items).value[Target(items[i].0).value] == items[i].1 / Sum(Values(items))
    ensures forall c :: c in Components && Untargeted(items, c) ==>
      c in Aga8CompositionOf(items).value && Aga8CompositionOf(items).value[c] == 0.0
  {
    assert forall c :: c in Prefilled <==> c in Components;
    assert forall c :: c in Prefilled ==> Prefilled[c] == 0.0;
    if |items| > 0 {
      AssignedFacts(items, Sum(Values(items)), Prefilled);
    }
  }

  lemma {:induction false} AssignedOkIff(items: Items, total: real, d: map<string, real>)
    requires total != 0.0
    ensures Assigned(items, total, d).Ok? <==> forall i :: 0 <= i < |items| ==> Target(items[i].0).Ok?
  {
    if |items| > 0 && Target(items[0].0).Ok? {
      var t := Target(items[0].0).value;
      AssignedOkIff(items[1..], total, d[t := items[0].1 / total]);
      assert forall i :: 1 <= i < |items| ==> items[i] == items[1..][i - 1];
    }
  }

  lemma {:induction false} AssignedFirstError(items: Items, total: real, d: map<string, real>, i: nat)
    requires total != 0.0 && i < |items| && Target(items[i].0).Err?
    requires forall j :: 0 <= j < i ==> Target(items[j].0).Ok?
    ensures Assigned(items, total, d) == Err(Target(items[i].0).error)
  {
    if i > 0 {
      var t := Target(items[0].0).value;
      assert items[1..][i - 1] == items[i];
      forall j | 0 <= j < i - 1 ensures Target(items[1..][j].0).Ok? {
        assert items[1..][j] == items[j + 1];
      }
      AssignedFirstError(items[1..], total, d[t := items[0].1 / total], i - 1);
    }
  }

  /** The mapper fails exactly when there are items and either their amounts sum
      to zero (checked first) or some key has no target; the error is then the
      zero division, or the exception of the first such key. */
  lemma CompositionErrors(items: Items)
    ensures Aga8CompositionOf(items).Ok? <==>
      |items| == 0 ||
      (Sum(Values(items)) != 0.0 && forall i :: 0 <= i < |items| ==> Target(items[i].0).Ok?)
    ensures |items| > 0 && Sum(Values(items)) == 0.0 ==> Aga8CompositionOf(items) == Err(ZeroDivision)
    ensures forall i :: (0 <= i < |items| && Sum(Values(items)) != 0.0 && Target(items[i].0).Err? &&
                          (forall j :: 0 <= j < i ==> Target(items[j].0).Ok?)) ==>
      Aga8CompositionOf(items) == Err(Target(items[i].0).error)
  {
    if |items| > 0 && Sum(Values(items)) != 0.0 {
      AssignedOkIff(items, Sum(Values(items)), Prefilled);
      forall i | 0 <= i < |items| && Target(items[i].0).Err? &&
        (forall j :: 0 <= j < i ==> Target(items[j].0).Ok?)
        ensures Aga8CompositionOf(items) == Err(Target(items[i].0).error)
      {
        AssignedFirstError(items, Sum(Values(items)), Prefilled, i);
      }
    }
  }

  /** Items pairwise alike in amount and target. */
  ghost predicate SameTargets(items: Items, other: Items) {
    && |items| == |other|
    && forall i :: 0 <= i < |items| ==> items[i].1 == other[i].1 && Target(items[i].0) == Target(other[i].0)
  }

  lemma {:induction false} SameTargetsAssigned(items: Items, other: Items, total: real, d: map<string, real>)
    requires total != 0.0 && SameTargets(items, other)
    ensures Assigned(items, total, d) == Assigned(other, total, d)
  {
    if |items| > 0 && Target(items[0].0).Ok? {
      var t := Target(items[0].0).value;
      assert forall i :: 0 <= i < |items| - 1 ==> items[1..][i] == items[i + 1] && other[1..][i] == other[i + 1];
      SameTargetsAssigned(items[1..], other[1..], total, d[t := items[0].1 / total]);
    }
  }

  /** A key may be replaced by any key with the same target (say 'C7' by 'nC7',
      'C12' by 'C10', 'CO2-gas' by 'CO2') without changing the outcome. */
  lemma SameTargetsSameComposition(items: Items, other: Items)
    requires SameTargets(items, other)
    ensures Aga8CompositionOf(items) == Aga8CompositionOf(other)
  {
    assert Values(items) == Values(other);
    if |items| > 0 && Sum(Values(items)) != 0.0 {
      SameTargetsAssigned(items, other, Sum(Values(items)), Prefilled);
    }
  }

  /** Every amount multiplied by `c`. */
  function Scaled(items: Items, c: real): (r: Items)
    ensures |r| == |items|
    ensures forall i :: 0 <= i < |items| ==> r[i].0 == items[i].0 && r[i].1 == c * items[i].1
  {
    if |items| == 0 then [] else [(items[0].0, c * items[0].1)] + Scaled(items[1..], c)
  }

  lemma {:induction false} SumScaledValues(items: Items, c: real)
    ensures Sum(Values(Scaled(items, c))) == c * Sum(Values(items))
  {
    if |items| > 0 {
      SumScaledValues(items[1..], c);
      ScaledCons(items, c);
      SumValuesCons(Scaled(items, c));
      SumValuesCons(items);
      Distribute(c, items[0].1, Sum(Values(items[1..])), Scaled(items, c)[0].1,
        Sum(Values(Scaled(items[1..], c))), Sum(Values(items)));
    }
  }

  lemma SumValuesCons(items: Items)
    requires |items| > 0
    ensures Sum(Values(items)) == items[0].1 + Sum(Values(items[1..]))
  {
    assert Values(items)[1..] == Values(items[1..]);
  }

  lemma Distribute(c: real, x: real, y: real, cx: real, cy: real, total: real)
    requires cx == c * x && cy == c * y && total == x + y
    ensures cx + cy == c * total
  {
  }

  lemma DivCancel(cv: real, c: real, v: real, total: real)
    requires cv == c * v && c != 0.0 && total != 0.0
    ensures cv / (c * total) == v / total
  {
    var q := v / total;
    assert q * total == v;
    assert cv == q * (c * total);
  }

  lemma {:induction false} ScaledAssigned(items: Items, c: real, total: real, d: map<string, real>)
    requires c != 0.0 && total != 0.0
    ensures Assigned(Scaled(items, c), c * total, d) == Assigned(items, total, d)
  {
    if |items| > 0 {
      var scaled := Scaled(items, c);
      ScaledCons(items, c);
      if Target(items[0].0).Ok? {
        var t := Target(items[0].0).value;
        DivCancel(scaled[0].1, c, items[0].1, total);
        ScaledAssigned(items[1..], c, total, d[t := items[0].1 / total]);
        AssignedCons(scaled, c * total, d, t);
        AssignedCons(items, total, d, t);
      } else {
        assert Target(scaled[0].0).Err?;
      }
    }
  }

  lemma ScaledCons(items: Items, c: real)
    requires |items| > 0
    ensures Scaled(items, c)[0] == (items[0].0, c * items[0].1)
    ensures Scaled(items, c)[1..] == Scaled(items[1..], c)
  {
    assert Scaled(items, c) == [(items[0].0, c * items[0].1)] + Scaled(items[1..], c);
  }

  /** Assigning a first item that maps to `t` writes `t` and goes on with the rest. */
  lemma AssignedCons(items: Items, total: real, d: map<string, real>, t: string)
    requires |items| > 0 && total != 0.0 && Target(items[0].0) == Ok(t)
    ensures Assigned(items, total, d) == Assigned(items[1..], total, d[t := items[0].1 / total])
  {
  }

  /** The result is normalised: multiplying every amount by the same non-zero
      factor (mole percent instead of mole fraction, say) changes nothing. */
  lemma ScaleInvariant(items: Items, c: real)
    requires c != 0.0
    ensures Aga8CompositionOf(Scaled(items, c)) == Aga8CompositionOf(items)
  {
    SumScaledValues(items, c);
    var total := Sum(Values(items));
    if |items| > 0 && total != 0.0 {
      MulNonZero(c, total);
      ScaledAssigned(items, c, total, Prefilled);
      var scaled := Scaled(items, c);
      assert Sum(Values(scaled)) == c * total;
      assert Aga8CompositionOf(scaled) == Assigned(scaled, c * total, Prefilled);
    }
  }

  /** A key without '-' is its own base name; a suffix after '-' is dropped. */
  lemma SuffixDropped(key: string, suffix: string)
    requires '-' !in key
    ensures BaseName(key) == key
    ensures BaseName(key + "-" + suffix) == key
    ensures Target(key + "-" + suffix) == Target(key)
  {
    SuffixDroppedBase(key, suffix);
  }

  lemma {:induction false} SuffixDroppedBase(key: string, suffix: string)
    requires '-' !in key
    ensures BaseName(key) == key
    ensures BaseName(key + "-" + suffix) == key
  {
    if |key| > 0 {
      assert (key + "-" + suffix)[1..] == key[1..] + "-" + suffix;
      SuffixDroppedBase(key[1..], suffix);
    }
  }

  /** The target of a name without '-' made of 'C' and digits. */
  lemma CarbonTarget(name: string)
    requires |name| >= 2 && name[0] == 'C' && '-' !in name && AllDigits(name[1..])
    ensures Target(name) ==
      var n := DigitsValue(name[1..]);
      if 6 <= n <= 9 then Ok(NormalAlkane(n)) else if n >= 10 then Ok("nC10") else Ok(name)
  {
    SuffixDroppedBase(name, "");
    assert IsDigit(name[1..][0]);
  }

  /** The target of a name without '-' that is neither 'C' nor 'C' and a digit. */
  lemma PlainTarget(name: string)
    requires |name| >= 1 && '-' !in name && !(name[0] == 'C' && (|name| == 1 || IsDigit(name[1])))
    ensures Target(name) == if name in Components then Ok(name) else Err(IllegalComponent(name))
  {
    SuffixDroppedBase(name, "");
  }

  lemma OneDigit(a: char)
    requires IsDigit(a)
    ensures AllDigits([a]) && DigitsValue([a]) == a as int - '0' as int
  {
    assert [a][..0] == [];
  }

  lemma TwoDigits(a: char, b: char)
    requires IsDigit(a) && IsDigit(b)
    ensures AllDigits([a, b]) && DigitsValue([a, b]) == (a as int - '0' as int) * 10 + (b as int - '0' as int)
  {
    assert [a, b][..1] == [a];
    OneDigit(a);
  }

  lemma SevenIsNormalHeptane()
    ensures Target("C7") == Target("nC7") == Ok("nC7")
  {
    assert Target("C7") == Ok("nC7") by {
      assert "C7"[1..] == "7";
      OneDigit('7');
      CarbonTarget("C7");
    }
    assert Target("nC7") == Ok("nC7") by {
      HeptaneIsComponent();
      PlainTarget("nC7");
    }
  }

  lemma TenAndAboveLumped()
    ensures Target("C10") == Target("C11") == Target("C12") == Target("nC10") == Ok("nC10")
  {
    assert Target("C10") == Ok("nC10") by {
      assert "C10"[1..] == "10";
      TwoDigits('1', '0');
      CarbonTarget("C10");
    }
    assert Target("C11") == Ok("nC10") by {
      assert "C11"[1..] == "11";
      TwoDigits('1', '1');
      CarbonTarget("C11");
    }
    assert Target("C12") == Ok("nC10") by {
      assert "C12"[1..] == "12";
      TwoDigits('1', '2');
      CarbonTarget("C12");
    }
    assert Target("nC10") == Ok("nC10") by {
      DecaneIsComponent();
      PlainTarget("nC10");
    }
  }

  lemma LowCarbonLiteral()
    ensures Target("C1") == Ok("C1")
    ensures Target("C3") == Ok("C3")
  {
    assert "C1"[1..] == "1";
    OneDigit('1');
    CarbonTarget("C1");
    assert "C3"[1..] == "3";
    OneDigit('3');
    CarbonTarget("C3");
  }

  lemma ButaneShorthandLiteral()
    ensures Target("C4") == Ok("C4") && "C4" !in Components
  {
    assert "C4"[1..] == "4";
    OneDigit('4');
    CarbonTarget("C4");
  }

  lemma LeadingZeroCarbonNumber()
    ensures Target("C06") == Ok("nC6")
  {
    assert "C06"[1..] == "06";
    TwoDigits('0', '6');
    CarbonTarget("C06");
  }

  lemma SuffixedName()
    ensures Target("iC4-isobutane") == Ok("iC4")
  {
    IsobutaneIsComponent();
    assert "iC4" + "-" + "isobutane" == "iC4-isobutane";
    SuffixedComponent("iC4", "isobutane");
  }

  /** A component name followed by a dash and any text targets the component. */
  lemma SuffixedComponent(name: string, suffix: string)
    requires name in Components && '-' !in name && name[0] != 'C'
    ensures Target(name + "-" + suffix) == Ok(name)
  {
    SuffixDropped(name, suffix);
    PlainTarget(name);
  }

  lemma MalformedNames()
    ensures Target("C") == Err(NameTooShort) && Target("-C1") == Err(EmptyName)
    ensures Target("C2H6") == Err(NotAnInteger("C2H6"))
    ensures Target("Xe") == Err(IllegalComponent("Xe"))
  {
    assert Target("C") == Err(NameTooShort) by {
      SuffixDroppedBase("C", "");
    }
    assert Target("C2H6") == Err(NotAnInteger("C2H6")) by {
      SuffixDroppedBase("C2H6", "");
      assert "C2H6"[1..] == "2H6" && !IsDigit("2H6"[1]);
    }
    assert Target("Xe") == Err(IllegalComponent("Xe")) by {
      NotAComponent("Xe");
      PlainTarget("Xe");
    }
  }

  /** Two keys for the same component: the later one overwrites the earlier
      instead of adding to it, and the overwritten amount still counts in the sum. */
  lemma LaterKeyOverwrites(a: real)
    requires a != 0.0
    ensures Aga8CompositionOf([("C11", a), ("C12", a)]) == Ok(Prefilled["nC10" := 0.5])
  {
    TenAndAboveLumped();
    SameTargetPair("C11", "C12", a, a, "nC10");
    assert a / (a + a) == 0.5 by {
      assert a + a == 2.0 * a;
      DivSelfHalf(a);
    }
  }

  lemma DivSelfHalf(a: real)
    requires a != 0.0
    ensures a / (2.0 * a) == 0.5
  {
    assert 0.5 * (2.0 * a) == a;
  }

  /** Two items written to the same key leave only the second amount there. */
  lemma SameTargetPair(k1: string, k2: string, a: real, b: real, t: string)
    requires Target(k1) == Ok(t) && Target(k2) == Ok(t) && a + b != 0.0
    ensures Aga8CompositionOf([(k1, a), (k2, b)]) == Ok(Prefilled[t := b / (a + b)])
  {
    var items := [(k1, a), (k2, b)];
    assert Values(items) == [a, b];
    assert Sum([a, b]) == a + b by {
      assert Sum([b]) == b + Sum([]);
    }
    AssignedTwo(k1, k2, a, b, t, t, a + b, Prefilled);
    assert Prefilled[t := a / (a + b)][t := b / (a + b)] == Prefilled[t := b / (a + b)];
  }

  /** Two items are written one after the other. */
  lemma AssignedTwo(k1: string, k2: string, a: real, b: real, t1: string, t2: string, total: real, d: map<string, real>)
    requires Target(k1) == Ok(t1) && Target(k2) == Ok(t2) && total != 0.0
    ensures Assigned([(k1, a), (k2, b)], total, d) == Ok(d[t1 := a / total][t2 := b / total])
  {
    var items := [(k1, a), (k2, b)];
    var d1 := d[t1 := a / total];
    assert Assigned(items, total, d) == Assigned([(k2, b)], total, d1) by {
      assert items[1..] == [(k2, b)];
    }
    assert Assigned([(k2, b)], total, d1) == Assigned([], total, d1[t2 := b / total]);
  }

  /** A literal carbon-number name outside the component list ('C4') becomes an
      extra key of the returned dict. */
  lemma LiteralCarbonKeyAdded()
    ensures Aga8CompositionOf([("C1", 1.0), ("C4", 3.0)]) == Ok(Prefilled["C1" := 0.25]["C4" := 0.75])
    ensures "C4" !in Prefilled
  {
    LowCarbonLiteral();
    ButaneShorthandLiteral();
    var items := [("C1", 1.0), ("C4", 3.0)];
    assert Values(items) == [1.0, 3.0];
    assert Sum([1.0, 3.0]) == 4.0;
    AssignedTwo("C1", "C4", 1.0, 3.0, "C1", "C4", 4.0, Prefilled);
  }

  /** Amounts that sum to zero raise before any name is looked at. */
  lemma ZeroSumRaises()
    ensures Aga8CompositionOf([("Xe", 1.0), ("C1", -1.0)]) == Err(ZeroDivision)
    ensures Aga8CompositionOf([]) == Ok(Prefilled)
  {
    assert Sum(Values([("Xe", 1.0), ("C1", -1.0)])) == 0.0;
  }
}
