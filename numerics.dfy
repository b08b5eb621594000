/** The list reductions the analysis uses: Python's sum, min and max, and numpy's
    mean and population variance (numpy.std is the square root of the latter). */
module Numerics {

  function Sum(s: seq<real>): real
  {
    if s == [] then 0.0 else Sum(s[..|s| - 1]) + s[|s| - 1]
  }

  /** Python's min over a non-empty list: an element that is below or equal to all others. */
  function Min(s: seq<real>): (m: real)
    requires |s| > 0
    ensures exists i :: 0 <= i < |s| && s[i] == m
    ensures forall i :: 0 <= i < |s| ==> m <= s[i]
  {
    if |s| == 1 then s[0]
    else
      var rest := Min(s[1..]);
      if s[0] <= rest then s[0] else rest
  }

  /** Python's max over a non-empty list. */
  function Max(s: seq<real>): (m: real)
    requires |s| > 0
    ensures exists i :: 0 <= i < |s| && s[i] == m
    ensures forall i :: 0 <= i < |s| ==> s[i] <= m
  {
    if |s| == 1 then s[0]
    else
      var rest := Max(s[1..]);
      if s[0] >= rest then s[0] else rest
  }

  /** numpy.mean */
  function Mean(s: seq<real>): real
    requires |s| > 0
  {
    Sum(s) / (|s| as real)
  }

  function Square(y: real): (r: real)
    ensures r >= 0.0
  {
    y * y
  }

  function SquaredDeviations(s: seq<real>, mu: real): (d: seq<real>)
    ensures |d| == |s|
    ensures forall i :: 0 <= i < |s| ==> d[i] == Square(s[i] - mu)
  {
    seq(|s|, i requires 0 <= i < |s| => Square(s[i] - mu))
  }

  /** The population variance (numpy.var with ddof = 0); numpy.std is its square root. */
  function PopVariance(s: seq<real>): real
    requires |s| > 0
  {
    Sum(SquaredDeviations(s, Mean(s))) / (|s| as real)
  }

  lemma {:induction false} SumAtLeast(s: seq<real>, lo: real)
    requires forall i :: 0 <= i < |s| ==> lo <= s[i]
    ensures (|s| as real) * lo <= Sum(s)
  {
    if s != [] {
      SumAtLeast(s[..|s| - 1], lo);
    }
  }

  lemma {:induction false} SumAtMost(s: seq<real>, hi: real)
    requires forall i :: 0 <= i < |s| ==> s[i] <= hi
    ensures Sum(s) <= (|s| as real) * hi
  {
    if s != [] {
      SumAtMost(s[..|s| - 1], hi);
    }
  }

  /** A sum of positive terms over a non-empty list is positive. */
  lemma {:induction false} SumPositive(s: seq<real>)
    requires |s| > 0
    requires forall i :: 0 <= i < |s| ==> s[i] > 0.0
    ensures Sum(s) > 0.0
  {
    if |s| > 1 {
      SumPositive(s[..|s| - 1]);
    }
  }

  /** A lower bound on every element is a lower bound on the mean. */
  lemma MeanAtLeast(s: seq<real>, lo: real)
    requires |s| > 0
    requires forall i :: 0 <= i < |s| ==> lo <= s[i]
    ensures lo <= Mean(s)
  {
    var n, x := |s| as real, Sum(s);
    SumAtLeast(s, lo);
    assert x / n * n == x;
  }

  /** An upper bound on every element is an upper bound on the mean. */
  lemma MeanAtMost(s: seq<real>, hi: real)
    requires |s| > 0
    requires forall i :: 0 <= i < |s| ==> s[i] <= hi
    ensures Mean(s) <= hi
  {
    var n, x := |s| as real, Sum(s);
    SumAtMost(s, hi);
    assert x / n * n == x;
  }

  /** The population variance is never negative, so numpy.std is defined. */
  lemma PopVarianceNonNegative(s: seq<real>)
    requires |s| > 0
    ensures PopVariance(s) >= 0.0
  {
    var d := SquaredDeviations(s, Mean(s));
    SumAtLeast(d, 0.0);
  }

  /** A list whose values are all equal has no spread. */
  lemma ConstantHasNoSpread(s: seq<real>, x: real)
    requires |s| > 0
    requires forall i :: 0 <= i < |s| ==> s[i] == x
    ensures Mean(s) == x
    ensures PopVariance(s) == 0.0
  {
    SumAtLeast(s, x);
    SumAtMost(s, x);
    var n := |s| as real;
    assert Sum(s) == n * x;
    QuotientCancels(n, x);
    var d := SquaredDeviations(s, x);
    forall i | 0 <= i < |d|
      ensures d[i] == 0.0
    {
      assert s[i] - x == 0.0;
      assert d[i] == Square(0.0);
    }
    SumAtLeast(d, 0.0);
    SumAtMost(d, 0.0);
  }

  lemma QuotientCancels(n: real, x: real)
    requires n > 0.0
    ensures (n * x) / n == x
  {
  }

}
