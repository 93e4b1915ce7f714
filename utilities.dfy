/** Deviation statistics between two readings, and the spread of a series of
    readings relative to its mean. */
module Utilities {
  import opened Common

  /** `relative_difference`: the difference in percent of the mean of the two
      properties; NaN where their sum is zero. */
  function RelativeDifference(a: real, b: real): (r: Num)
    ensures r == NaN <==> a + b == 0.0
    ensures r != NaN ==> r.Val? && r.v * (a + b) == 200.0 * (a - b)
  {
    if a + b == 0.0 then NaN
    else
      var d := 100.0 * (a - b) / ((a + b) / 2.0);
      assert d * ((a + b) / 2.0) == 100.0 * (a - b);
      Val(d)
  }

  /** Swapping the properties flips the sign of their relative difference. */
  lemma RelativeDifferenceAntisymmetric(a: real, b: real)
    ensures RelativeDifference(b, a) == Negated(RelativeDifference(a, b))
  {
    if a + b != 0.0 {
      var x := RelativeDifference(a, b).v;
      var y := RelativeDifference(b, a).v;
      assert (a + b) * y == (a + b) * -x;
      MulCancel(a + b, y, -x);
    }
  }

  lemma RelativeDifferenceExamples()
    ensures RelativeDifference(10.0, 5.0) == Val(200.0 / 3.0)
    ensures RelativeDifference(5.0, 10.0) == Val(-200.0 / 3.0)
    ensures RelativeDifference(0.0, 0.0) == NaN
  {
  }

  /** `calculate_deviation`: observed minus reference, so adding the reference
      back gives the observation. */
  function Deviation(observed: real, reference: real): (d: real)
    ensures reference + d == observed
  {
    observed - reference
  }

  /** The deviation changes sign with the arguments and vanishes for equal readings. */
  lemma DeviationAntisymmetric(x: real, y: real)
    ensures Deviation(y, x) == -Deviation(x, y)
    ensures Deviation(x, x) == 0.0
  {
  }

  /** `calculate_relative_deviation`: the deviation in percent of the reference;
      NaN for a zero reference. */
  function RelativeDeviation(observed: real, reference: real): (r: Num)
    ensures r == NaN <==> reference == 0.0
    ensures r != NaN ==> r.Val? && r.v * reference == 100.0 * (observed - reference)
  {
    if reference == 0.0 then NaN
    else Val(100.0 * (observed - reference) / reference)
  }

  /** The relative deviation is the deviation scaled by 100/reference. */
  lemma RelativeDeviationOfDeviation(observed: real, reference: real)
    requires reference != 0.0
    ensures RelativeDeviation(observed, reference) == Val(100.0 * Deviation(observed, reference) / reference)
  {
  }

  lemma RelativeDeviationExamples()
    ensures RelativeDeviation(10.0, 5.0) == Val(100.0)
    ensures RelativeDeviation(5.0, 10.0) == Val(-50.0)
    ensures RelativeDeviation(10.0, 0.0) == NaN
  {
  }

  /** `np.max` of a non-empty series: no element exceeds it, and some element
      attains it (`MaxAttained`). */
  function Max(s: seq<real>): (m: real)
    requires |s| > 0
    ensures forall i :: 0 <= i < |s| ==> s[i] <= m
  {
    if |s| == 1 then s[0]
    else
      var rest := Max(s[1..]);
      assert forall i :: 1 <= i < |s| ==> s[i] == s[1..][i - 1];
      if s[0] >= rest then s[0] else rest
  }

  /** `np.min` of a non-empty series: no element is below it, and some element
      attains it (`MinAttained`). */
  function Min(s: seq<real>): (m: real)
    requires |s| > 0
    ensures forall i :: 0 <= i < |s| ==> m <= s[i]
  {
    if |s| == 1 then s[0]
    else
      var rest := Min(s[1..]);
      assert forall i :: 1 <= i < |s| ==> s[i] == s[1..][i - 1];
      if s[0] <= rest then s[0] else rest
  }

  lemma {:induction false} MaxAttained(s: seq<real>) returns (i: int)
    requires |s| > 0
    ensures 0 <= i < |s| && s[i] == Max(s)
  {
    if |s| == 1 {
      i := 0;
    } else if s[0] >= Max(s[1..]) {
      i := 0;
    } else {
      var j := MaxAttained(s[1..]);
      i := j + 1;
    }
  }

  lemma {:induction false} MinAttained(s: seq<real>) returns (i: int)
    requires |s| > 0
    ensures 0 <= i < |s| && s[i] == Min(s)
  {
    if |s| == 1 {
      i := 0;
    } else if s[0] <= Min(s[1..]) {
      i := 0;
    } else {
      var j := MinAttained(s[1..]);
      i := j + 1;
    }
  }

  /** `np.mean` of a non-empty series. */
  function Mean(s: seq<real>): (m: real)
    requires |s| > 0
    ensures m * (|s| as real) == Sum(s)
  {
    Sum(s) / (|s| as real)
  }

  /** The mean lies between the minimum and the maximum. */
  lemma {:induction false} MeanBetween(s: seq<real>)
    requires |s| > 0
    ensures Min(s) * (|s| as real) <= Sum(s) <= Max(s) * (|s| as real)
  {
    SumBounds(s, Min(s), Max(s));
  }

  lemma {:induction false} SumBounds(s: seq<real>, lo: real, hi: real)
    requires forall i :: 0 <= i < |s| ==> lo <= s[i] <= hi
    ensures lo * (|s| as real) <= Sum(s) <= hi * (|s| as real)
  {
    if |s| > 0 {
      assert forall i :: 0 <= i < |s| - 1 ==> s[1..][i] == s[i + 1];
      SumBounds(s[1..], lo, hi);
      assert Sum(s) == s[0] + Sum(s[1..]);
      BoundStep(lo, hi, |s[1..]| as real, |s| as real, s[0], Sum(s[1..]));
    } else {
      ZeroBound(lo, hi, |s| as real);
    }
  }

  /** An element between the bounds, added to a sum of n such elements, gives a
      sum of m = n + 1 of them. */
  lemma BoundStep(lo: real, hi: real, n: real, m: real, x: real, rest: real)
    requires m == n + 1.0 && lo * n <= rest <= hi * n && lo <= x <= hi
    ensures lo * m <= x + rest <= hi * m
  {
    assert lo * (n + 1.0) == lo * n + lo;
    assert hi * (n + 1.0) == hi * n + hi;
  }

  lemma ZeroBound(lo: real, hi: real, m: real)
    requires m == 0.0
    ensures lo * m == 0.0 && hi * m == 0.0
  {
  }

  datatype SeriesError = EmptySeries   // np.max of an empty series raises

  /** numpy's float division: a zero divisor gives an infinity of the dividend's
      sign, or NaN for a zero dividend. */
  function NpDivide(x: real, y: real): (r: Num)
    ensures r.Val? <==> y != 0.0
    ensures r.Val? ==> r.v * y == x
    ensures y == 0.0 ==> (r == NaN <==> x == 0.0) && (r == PosInf <==> 0.0 < x)
  {
    if y != 0.0 then Val(x / y)
    else if x > 0.0 then PosInf
    else if x < 0.0 then NegInf
    else NaN
  }

  /** `calculate_max_min_diffperc`: the spread max - min in percent of the mean;
      NaN when the maximum is zero, and a positive infinity when the mean is zero
      but the maximum is not (numpy's division by zero). */
  function MaxMinDiffPerc(s: seq<real>): (r: Result<Num, SeriesError>)
    ensures r.Err? <==> |s| == 0
    ensures |s| > 0 ==> (r.value == NaN <==> Max(s) == 0.0)
    ensures |s| > 0 && Max(s) != 0.0 ==> (r.value.Val? <==> Mean(s) != 0.0)
    ensures |s| > 0 && Max(s) != 0.0 && r.value.Val? ==>
      r.value.v * Mean(s) == 100.0 * (Max(s) - Min(s))
    ensures |s| > 0 && Max(s) != 0.0 && Mean(s) == 0.0 ==> r.value == PosInf
  {
    if |s| == 0 then Err(EmptySeries)
    else if Max(s) == 0.0 then Ok(NaN)
    else
      MeanBounds(s);
      assert Mean(s) == 0.0 ==> Min(s) < Max(s);
      Ok(NpDivide(100.0 * (Max(s) - Min(s)), Mean(s)))
  }

  /** The mean lies between the minimum and the maximum. */
  lemma MeanBounds(s: seq<real>)
    requires |s| > 0
    ensures Min(s) <= Mean(s) <= Max(s)
  {
    MeanBetween(s);
    DivBounds(Min(s), Max(s), Sum(s), |s| as real);
  }

  /** A constant non-zero series has no spread; for a series of positive
      readings the spread is a non-negative percentage. */
  lemma ConstantSeriesNoSpread(s: seq<real>)
    requires |s| > 0 && Max(s) == Min(s) && Max(s) != 0.0
    ensures MaxMinDiffPerc(s) == Ok(Val(0.0))
  {
    MeanBounds(s);
  }

  lemma PositiveSeriesSpread(s: seq<real>)
    requires |s| > 0 && 0.0 < Min(s)
    ensures MaxMinDiffPerc(s).Ok? && MaxMinDiffPerc(s).value.Val?
    ensures 0.0 <= MaxMinDiffPerc(s).value.v
  {
    MeanBounds(s);
    var x := 100.0 * (Max(s) - Min(s));
    assert MaxMinDiffPerc(s) == Ok(Val(x / Mean(s)));
    DivNonNegative(x, Mean(s));
  }

  /** A series whose mean is zero but whose maximum is not spreads infinitely. */
  lemma ZeroMeanSpread()
    ensures MaxMinDiffPerc([-1.0, 1.0]) == Ok(PosInf)
  {
    var a := [-1.0, 1.0];
    assert Max(a) == 1.0 by { assert a[1..] == [1.0]; }
    assert Sum(a) == 0.0 by { assert a[1..] == [1.0]; }
  }

  /** The ramp 1..5: maximum 5, minimum 1 and mean 3. */
  lemma RampSpread()
    ensures MaxMinDiffPerc([1.0, 2.0, 3.0, 4.0, 5.0]) == Ok(Val(400.0 / 3.0))
  {
    var a := [1.0, 2.0, 3.0, 4.0, 5.0];
    assert Max(a) == 5.0 by { assert a[4] == 5.0; }
    assert Min(a) == 1.0 by { assert a[0] == 1.0; }
    assert Sum(a) == 15.0 by {
      assert a[..4][..3][..2][..1][..0] == [];
    }
    assert Mean(a) == 3.0;
  }

  /** The examples of the unit tests: 1..5 spreads by 400/3 percent, a constant
      series by nothing, and an all-zero series gives NaN. */
  lemma SpreadExamples()
    ensures MaxMinDiffPerc([1.0, 2.0, 3.0, 4.0, 5.0]) == Ok(Val(400.0 / 3.0))
    ensures MaxMinDiffPerc([5.0, 5.0, 5.0, 5.0, 5.0]) == Ok(Val(0.0))
    ensures MaxMinDiffPerc([0.0, 0.0, 0.0, 0.0, 0.0]) == Ok(NaN)
    ensures MaxMinDiffPerc([]) == Err(EmptySeries)
  {
    RampSpread();
    var c := [5.0, 5.0, 5.0, 5.0, 5.0];
    assert Max(c) == 5.0 && Min(c) == 5.0;
    ConstantSeriesNoSpread(c);
    var z := [0.0, 0.0, 0.0, 0.0, 0.0];
    assert Max(z) == 0.0;
  }
}
