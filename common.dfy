/** Shared vocabulary of the model: the floating-point outcomes the formulas can
    produce, the error-or-value wrapper used for raised exceptions, the square root
    and pi, ASCII case folding and sums over sequences of reals. */
module Common {

  /** A Python/numpy float result: a finite value, not-a-number, or an infinity
      (numpy yields the latter when it divides a non-zero value by zero). */
  datatype Num = Val(v: real) | NaN | PosInf | NegInf

  /** The negation of a float result; NaN stays NaN and the infinities swap. */
  function Negated(x: Num): (r: Num)
    ensures r.Val? <==> x.Val?
    ensures x.Val? ==> r.v == -x.v
    ensures x == NaN <==> r == NaN
    ensures x == PosInf <==> r == NegInf
  {
    match x
    case Val(v) => Val(-v)
    case NaN => NaN
    case PosInf => NegInf
    case NegInf => PosInf
  }

  /** A value, or the exception the source raises instead of returning. */
  datatype Result<+T, +E> = Ok(value: T) | Err(error: E)

  /** The decimal Python prints for `math.pi` (and `np.pi`). */
  const PI: real := 3.141592653589793

  /** `sqrt` behaves as the non-negative square root on the non-negative reals
      (the root of zero is listed on its own: it follows from the rest, but the
      solver does not find that step). Dafny's reals have no square root function
      of their own, so every formula that calls `math.sqrt` or `np.sqrt` takes one
      as a parameter that meets this. */
  ghost predicate IsSqrt(sqrt: real -> real) {
    && sqrt(0.0) == 0.0
    && forall x :: 0.0 <= x ==> 0.0 <= sqrt(x) && sqrt(x) * sqrt(x) == x
  }

  lemma SqrtPositive(sqrt: real -> real, x: real)
    requires IsSqrt(sqrt) && 0.0 < x
    ensures 0.0 < sqrt(x)
  {
  }

  /** A product of non-zero reals is non-zero. */
  lemma MulNonZero(a: real, b: real)
    requires a != 0.0 && b != 0.0
    ensures a * b != 0.0
  {
  }

  /** A product of positive reals is positive. */
  lemma MulPositive(a: real, b: real)
    requires 0.0 < a && 0.0 < b
    ensures 0.0 < a * b
  {
  }

  /** The square of a non-zero real is positive. */
  lemma SquarePositive(x: real)
    requires x != 0.0
    ensures 0.0 < x * x
  {
    if x < 0.0 {
      MulPositive(-x, -x);
      assert (-x) * (-x) == x * x;
    } else {
      MulPositive(x, x);
    }
  }

  /** A quotient of positive reals is positive. */
  lemma DivPositive(x: real, y: real)
    requires 0.0 < x && 0.0 < y
    ensures 0.0 < x / y
  {
  }

  /** A real times a non-negative root: its square, and its sign. */
  lemma SignedRoot(q: real, s: real)
    requires 0.0 <= s
    ensures (q * s) * (q * s) == q * q * (s * s)
    ensures (0.0 <= q ==> 0.0 <= q * s) && (q <= 0.0 ==> q * s <= 0.0)
  {
    if q < 0.0 {
      MulNonNegative(-q, s);
    } else {
      MulNonNegative(q, s);
    }
  }

  /** A product of non-negative reals is non-negative. */
  lemma MulNonNegative(a: real, b: real)
    requires 0.0 <= a && 0.0 <= b
    ensures 0.0 <= a * b
  {
  }

  /** x/x is 1 and 0/x is 0 for x ≠ 0. */
  lemma DivSelf(x: real)
    requires x != 0.0
    ensures x / x == 1.0 && 0.0 / x == 0.0
  {
  }

  /** A quotient of a non-negative real by a positive one is non-negative. */
  lemma DivNonNegative(x: real, s: real)
    requires 0.0 <= x && 0.0 < s
    ensures 0.0 <= x / s
  {
  }

  /** Bounds on a multiple carry over to the quotient. */
  lemma DivBounds(lo: real, hi: real, x: real, n: real)
    requires 0.0 < n && lo * n <= x <= hi * n
    ensures lo <= x / n <= hi
  {
    assert (x / n) * n == x;
    assert (x / n - lo) * n >= 0.0;
    assert (hi - x / n) * n >= 0.0;
  }

  /** A part of a positive whole is a fraction between zero and one. */
  lemma FractionInUnit(x: real, d: real)
    requires 0.0 < d && 0.0 <= x <= d
    ensures 0.0 <= x / d <= 1.0
  {
    assert (x / d) * d == x;
  }

  /** A non-zero factor cancels from both sides of an equation. */
  lemma MulCancel(a: real, x: real, y: real)
    requires a != 0.0 && a * x == a * y
    ensures x == y
  {
    assert a * (x - y) == 0.0;
  }

  /** ASCII lower case of one character. */
  function LowerChar(c: char): (l: char)
    ensures 'A' <= c <= 'Z' ==> 'a' <= l <= 'z'
    ensures !('A' <= c <= 'Z') ==> l == c
  {
    if 'A' <= c <= 'Z' then (c as int - 'A' as int + 'a' as int) as char else c
  }

  /** ASCII upper case of one character. */
  function UpperChar(c: char): (u: char)
    ensures 'a' <= c <= 'z' ==> 'A' <= u <= 'Z'
    ensures !('a' <= c <= 'z') ==> u == c
  {
    if 'a' <= c <= 'z' then (c as int - 'a' as int + 'A' as int) as char else c
  }

  /** `str.lower()` restricted to ASCII letters. */
  function Lower(s: string): (l: string)
    ensures |l| == |s|
    ensures forall i :: 0 <= i < |s| ==> l[i] == LowerChar(s[i])
  {
    seq(|s|, i requires 0 <= i < |s| => LowerChar(s[i]))
  }

  /** `str.upper()` restricted to ASCII letters. */
  function Upper(s: string): (u: string)
    ensures |u| == |s|
    ensures forall i :: 0 <= i < |s| ==> u[i] == UpperChar(s[i])
  {
    seq(|s|, i requires 0 <= i < |s| => UpperChar(s[i]))
  }

  /** Lower-casing twice is lower-casing once, so every comparison against
      `s.lower()` gives the same answer for `s` and for `s.lower()`. */
  lemma LowerIdempotent(s: string)
    ensures Lower(Lower(s)) == Lower(s)
  {
    assert forall i :: 0 <= i < |s| ==> LowerChar(LowerChar(s[i])) == LowerChar(s[i]);
  }

  lemma UpperIdempotent(s: string)
    ensures Upper(Upper(s)) == Upper(s)
  {
    assert forall i :: 0 <= i < |s| ==> UpperChar(UpperChar(s[i])) == UpperChar(s[i]);
  }

  /** Sum of a sequence of reals (`sum`, `np.sum`). */
  function Sum(s: seq<real>): real
  {
    if |s| == 0 then 0.0 else s[0] + Sum(s[1..])
  }

  lemma {:induction false} SumAppend(a: seq<real>, b: seq<real>)
    ensures Sum(a + b) == Sum(a) + Sum(b)
  {
    if |a| == 0 {
      assert a + b == b;
    } else {
      assert (a + b)[1..] == a[1..] + b;
      SumAppend(a[1..], b);
    }
  }

  /** Every element non-negative. */
  predicate NonNegative(s: seq<real>) {
    forall i | 0 <= i < |s| :: 0.0 <= s[i]
  }

  lemma {:induction false} SumNonNegative(s: seq<real>)
    requires NonNegative(s)
    ensures 0.0 <= Sum(s)
  {
    if |s| > 0 {
      SumNonNegative(s[1..]);
    }
  }

  /** A sum of non-negative terms is zero only when every term is. */
  lemma {:induction false} SumZeroAllZero(s: seq<real>)
    requires NonNegative(s) && Sum(s) == 0.0
    ensures forall i :: 0 <= i < |s| ==> s[i] == 0.0
  {
    if |s| > 0 {
      SumNonNegative(s[1..]);
      SumZeroAllZero(s[1..]);
      forall i | 0 <= i < |s| ensures s[i] == 0.0 {
        if i > 0 { assert s[i] == s[1..][i - 1]; }
      }
    }
  }
}
