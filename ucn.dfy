/** Background subtraction and normalization of detector counts, the Poisson
    background rate, and the range guard and zero case of the 4He
    vapor-pressure conversion (UCN.py).

    The Python code carries standard errors and takes square roots; this model
    carries their squares (variances) instead, so every `err` of the source is
    the square root of the corresponding `variance` here. */
module UCN {
  import opened Wrappers
  import opened Numerics

  datatype Detector = Li6 | He3

  /** A background rate and its standard error, in counts per second. */
  datatype Background = Background(rate: real, err: real)

  /** The fixed table DetectorBackground = {'li6': (2.16, 0.03), 'he3': (0.0403, 0.0017)}. */
  function DetectorBackground(detector: Detector): Background
  {
    match detector
    case Li6 => Background(2.16, 0.03)
    case He3 => Background(0.0403, 0.0017)
  }

  /** A value with the square of its standard error. */
  datatype Measured = Measured(value: real, variance: real)

  /** Parallel lists of values and of their variances. The two lists are built
      by separate zips, so their lengths can differ. */
  datatype Series = Series(values: seq<real>, variances: seq<real>)

  function Min2(a: int, b: int): int { if a <= b then a else b }

  /** A raw count minus the expected background; non-positive counts give exactly 0. */
  function Subtracted(c: real, cd: real, bg: Background): (v: real)
    ensures c <= 0.0 ==> v == 0.0
    ensures c > 0.0 ==> v + bg.rate * cd == c
  {
    if c > 0.0 then c - bg.rate * cd else 0.0
  }

  /** The Poisson variance of a count plus the background-rate uncertainty scaled by the duration. */
  function SubtractedVariance(c: real, cd: real, bg: Background): (v: real)
    ensures c <= 0.0 ==> v == 0.0
    ensures c > 0.0 ==> v > 0.0
  {
    if c > 0.0 then c + bg.err * bg.err * cd * cd else 0.0
  }

  /** The length of the zip of counts, durations and normalizations. */
  function ValueCount(counts: seq<real>, durations: seq<real>, normalization: seq<real>): nat
  {
    Min2(Min2(|counts|, |durations|), |normalization|)
  }

  predicate DividesByZero(n: nat, divisors: seq<real>)
    requires n <= |divisors|
  {
    exists i :: 0 <= i < n && divisors[i] == 0.0
  }

  lemma SquarePositive(m: real)
    requires m != 0.0
    ensures m * m > 0.0
  {
    if m > 0.0 {
      assert m * m > 0.0;
    } else {
      assert (-m) * (-m) > 0.0;
    }
  }

  /** One normalized value bgs/m: multiplying back by m recovers the subtracted count. */
  function Normalized(b: real, m: real): (q: real)
    requires m != 0.0
    ensures q * m == b
    ensures b == 0.0 ==> q == 0.0
  {
    b / m
  }

  /** The squared error of bgs/m by first-order propagation of the variance vb of bgs
      and vm of m: (vb + (bgs/m)^2 * vm) / m^2, which is the source's
      (bgserr/m)**2 + (dm*bgs/m**2)**2 with bgserr**2 = vb and dm**2 = vm. */
  function NormalizedVariance(b: real, vb: real, m: real, vm: real): (v: real)
    requires m != 0.0
    ensures v * (m * m) == vb + vm * Normalized(b, m) * Normalized(b, m)
    ensures b == 0.0 && vb == 0.0 ==> v == 0.0
    ensures vb >= 0.0 && vm >= 0.0 ==> v >= 0.0
  {
    SquarePositive(m);
    var q := Normalized(b, m);
    assert b == 0.0 && vb == 0.0 ==> vb + vm * q * q == 0.0 && 0.0 / (m * m) == 0.0;
    (vb + vm * q * q) / (m * m)
  }

  predicate NonZeroUpTo(n: nat, divisors: seq<real>)
  {
    n <= |divisors| && forall i :: 0 <= i < n ==> divisors[i] != 0.0
  }

  /** The list comprehension for `norm`: background-subtracted counts divided by the normalization. */
  function NormalizedValues(counts: seq<real>, durations: seq<real>, bg: Background,
                            normalization: seq<real>, n: nat): (v: seq<real>)
    requires n <= |counts| && n <= |durations| && NonZeroUpTo(n, normalization)
    ensures |v| == n
    ensures forall i :: 0 <= i < n ==> v[i] == Normalized(Subtracted(counts[i], durations[i], bg), normalization[i])
    ensures forall i :: 0 <= i < n ==> counts[i] <= 0.0 ==> v[i] == 0.0
    ensures forall i :: 0 <= i < n ==> counts[i] > 0.0 ==> v[i] * normalization[i] + bg.rate * durations[i] == counts[i]
  {
    seq(n, i requires 0 <= i < n => Normalized(Subtracted(counts[i], durations[i], bg), normalization[i]))
  }

  /** The list comprehension for `normerr`, squared. */
  function NormalizedVariances(counts: seq<real>, durations: seq<real>, bg: Background,
                               normalization: seq<real>, normalizationVar: seq<real>, n: nat): (v: seq<real>)
    requires n <= |counts| && n <= |durations| && n <= |normalizationVar| && NonZeroUpTo(n, normalization)
    ensures |v| == n
    ensures forall i :: 0 <= i < n ==> counts[i] <= 0.0 ==> v[i] == 0.0
    ensures forall i :: 0 <= i < n ==>
      var q := Normalized(Subtracted(counts[i], durations[i], bg), normalization[i]);
      v[i] * (normalization[i] * normalization[i]) == SubtractedVariance(counts[i], durations[i], bg) + normalizationVar[i] * q * q
    ensures forall i :: 0 <= i < n ==> normalizationVar[i] >= 0.0 ==> v[i] >= 0.0
  {
    seq(n, i requires 0 <= i < n =>
      NormalizedVariance(Subtracted(counts[i], durations[i], bg), SubtractedVariance(counts[i], durations[i], bg),
                         normalization[i], normalizationVar[i]))
  }

  /** SubtractBackgroundAndNormalize(counts, countdurations, detector, normalization,
      normalizationerr), with the normalization errors given as variances. */
  function SubtractBackgroundAndNormalize(counts: seq<real>, durations: seq<real>, detector: Detector,
                                          normalization: seq<real>, normalizationVar: seq<real>): (r: Result<Series, Error>)
    ensures r.Failure? <==> DividesByZero(ValueCount(counts, durations, normalization), normalization)
    ensures r.Failure? ==> r.error == ZeroDivisionError
    ensures r.Success? ==> |r.value.values| == ValueCount(counts, durations, normalization)
    ensures r.Success? ==> |r.value.variances| == Min2(ValueCount(counts, durations, normalization), |normalizationVar|)
    ensures r.Success? ==> forall i :: 0 <= i < |r.value.values| ==> counts[i] <= 0.0 ==> r.value.values[i] == 0.0
    ensures r.Success? ==> forall i :: 0 <= i < |r.value.variances| ==> counts[i] <= 0.0 ==> r.value.variances[i] == 0.0
  {
    var n := ValueCount(counts, durations, normalization);
    if DividesByZero(n, normalization) then Failure(ZeroDivisionError)
    else
      var bg := DetectorBackground(detector);
      Success(Series(NormalizedValues(counts, durations, bg, normalization, n),
                     NormalizedVariances(counts, durations, bg, normalization, normalizationVar, Min2(n, |normalizationVar|))))
  }

  /** The meaning of each normalized element: multiplied back by its normalization it is the
      background-subtracted count, and its squared error is the first-order propagation of the
      count's Poisson variance, the background-rate uncertainty and the normalization's variance. */
  lemma NormalizationPropagatesErrors(counts: seq<real>, durations: seq<real>, detector: Detector,
                                      normalization: seq<real>, normalizationVar: seq<real>, i: nat)
    requires SubtractBackgroundAndNormalize(counts, durations, detector, normalization, normalizationVar).Success?
    requires i < |SubtractBackgroundAndNormalize(counts, durations, detector, normalization, normalizationVar).value.variances|
    ensures var s := SubtractBackgroundAndNormalize(counts, durations, detector, normalization, normalizationVar).value;
      var bg := DetectorBackground(detector);
      && normalization[i] != 0.0
      && (counts[i] > 0.0 ==> s.values[i] * normalization[i] + bg.rate * durations[i] == counts[i])
      && s.variances[i] * (normalization[i] * normalization[i])
         == SubtractedVariance(counts[i], durations[i], bg) + normalizationVar[i] * s.values[i] * s.values[i]
      && (normalizationVar[i] >= 0.0 ==> s.variances[i] >= 0.0)
  {
    var n := ValueCount(counts, durations, normalization);
    var bg := DetectorBackground(detector);
    var values := NormalizedValues(counts, durations, bg, normalization, n);
    var variances := NormalizedVariances(counts, durations, bg, normalization, normalizationVar, Min2(n, |normalizationVar|));
    assert SubtractBackgroundAndNormalize(counts, durations, detector, normalization, normalizationVar).value
        == Series(values, variances);
  }

  /** Element i of the result depends only on the inputs at index i. */
  lemma ElementDependsOnlyOnItsIndex(counts: seq<real>, durations: seq<real>, normalization: seq<real>, normalizationVar: seq<real>,
                                     counts': seq<real>, durations': seq<real>, normalization': seq<real>, normalizationVar': seq<real>,
                                     detector: Detector, i: nat)
    requires SubtractBackgroundAndNormalize(counts, durations, detector, normalization, normalizationVar).Success?
    requires SubtractBackgroundAndNormalize(counts', durations', detector, normalization', normalizationVar').Success?
    requires i < ValueCount(counts, durations, normalization) && i < ValueCount(counts', durations', normalization')
    requires counts[i] == counts'[i] && durations[i] == durations'[i] && normalization[i] == normalization'[i]
    ensures var s := SubtractBackgroundAndNormalize(counts, durations, detector, normalization, normalizationVar).value;
      var s' := SubtractBackgroundAndNormalize(counts', durations', detector, normalization', normalizationVar').value;
      && s.values[i] == s'.values[i]
      && (i < |normalizationVar| && i < |normalizationVar'| && normalizationVar[i] == normalizationVar'[i] ==>
            s.variances[i] == s'.variances[i])
  {
    var bg := DetectorBackground(detector);
    var n, n' := ValueCount(counts, durations, normalization), ValueCount(counts', durations', normalization');
    assert SubtractBackgroundAndNormalize(counts, durations, detector, normalization, normalizationVar).value
        == Series(NormalizedValues(counts, durations, bg, normalization, n),
                  NormalizedVariances(counts, durations, bg, normalization, normalizationVar, Min2(n, |normalizationVar|)));
    assert SubtractBackgroundAndNormalize(counts', durations', detector, normalization', normalizationVar').value
        == Series(NormalizedValues(counts', durations', bg, normalization', n'),
                  NormalizedVariances(counts', durations', bg, normalization', normalizationVar', Min2(n', |normalizationVar'|)));
  }

  /** One squared error divided by the square of a duration (the source's ne/d, squared). */
  function PerSecondVariance(v: real, d: real): (w: real)
    requires d != 0.0
    ensures w * (d * d) == v
    ensures v == 0.0 ==> w == 0.0
    ensures v >= 0.0 ==> w >= 0.0
  {
    SquarePositive(d);
    assert v == 0.0 ==> 0.0 / (d * d) == 0.0;
    v / (d * d)
  }

  /** SubtractBackgroundAndNormalizeRate: the result of SubtractBackgroundAndNormalize with
      each value and each error divided by that element's duration. */
  function SubtractBackgroundAndNormalizeRate(counts: seq<real>, durations: seq<real>, detector: Detector,
                                              normalization: seq<real>, normalizationVar: seq<real>): (r: Result<Series, Error>)
    ensures var perCount := SubtractBackgroundAndNormalize(counts, durations, detector, normalization, normalizationVar);
      r.Failure? <==> perCount.Failure? || DividesByZero(|perCount.value.values|, durations)
    ensures r.Failure? ==> r.error == ZeroDivisionError
    ensures var perCount := SubtractBackgroundAndNormalize(counts, durations, detector, normalization, normalizationVar);
      r.Success? ==> perCount.Success? && r.value == PerSecond(perCount.value, durations)
  {
    var perCount := SubtractBackgroundAndNormalize(counts, durations, detector, normalization, normalizationVar);
    if perCount.Failure? then Failure(perCount.error)
    else if DividesByZero(|perCount.value.values|, durations) then Failure(ZeroDivisionError)
    else Success(PerSecond(perCount.value, durations))
  }

  /** A non-positive raw count gives a rate of exactly 0 with an error of exactly 0. */
  lemma RateOfNonPositiveCountIsZero(counts: seq<real>, durations: seq<real>, detector: Detector,
                                     normalization: seq<real>, normalizationVar: seq<real>, i: nat)
    requires SubtractBackgroundAndNormalizeRate(counts, durations, detector, normalization, normalizationVar).Success?
    requires i < |SubtractBackgroundAndNormalizeRate(counts, durations, detector, normalization, normalizationVar).value.values|
    requires counts[i] <= 0.0
    ensures var s := SubtractBackgroundAndNormalizeRate(counts, durations, detector, normalization, normalizationVar).value;
      s.values[i] == 0.0 && (i < |s.variances| ==> s.variances[i] == 0.0)
  {
  }

  /**
   * x is the rate, per second and per unit of normalization, of a raw count c
   * recorded over d seconds with normalization m, after subtracting the
   * background bg expected per second: multiplied back by d and m, plus the
   * expected background, it is c.
   */
  predicate RecoversCount(x: real, d: real, m: real, bg: real, c: real) {
    x * d * m + bg * d == c
  }

  /**
   * The inverse of the rate computation: a positive raw count is recovered from
   * its rate, and a non-positive one has rate 0.
   */
  lemma RateRecoversCount(counts: seq<real>, durations: seq<real>, detector: Detector,
                          normalization: seq<real>, normalizationVar: seq<real>, i: nat)
    requires SubtractBackgroundAndNormalizeRate(counts, durations, detector, normalization, normalizationVar).Success?
    requires i < |SubtractBackgroundAndNormalizeRate(counts, durations, detector, normalization, normalizationVar).value.values|
    ensures i < ValueCount(counts, durations, normalization)
    ensures var x := SubtractBackgroundAndNormalizeRate(counts, durations, detector, normalization, normalizationVar).value.values[i];
      && (counts[i] > 0.0 ==> RecoversCount(x, durations[i], normalization[i], DetectorBackground(detector).rate, counts[i]))
      && (counts[i] <= 0.0 ==> x == 0.0)
  {
    var perCount := SubtractBackgroundAndNormalize(counts, durations, detector, normalization, normalizationVar).value;
    var x := SubtractBackgroundAndNormalizeRate(counts, durations, detector, normalization, normalizationVar).value.values[i];
    assert x * durations[i] == perCount.values[i];
    assert x * durations[i] * normalization[i] == perCount.values[i] * normalization[i];
  }

  /** Divides each value and each error of a series by the duration at the same index. */
  function PerSecond(perCount: Series, durations: seq<real>): (s: Series)
    requires |perCount.variances| <= |perCount.values|
    requires NonZeroUpTo(|perCount.values|, durations)
    ensures |s.values| == |perCount.values| && |s.variances| == |perCount.variances|
    ensures forall i :: 0 <= i < |s.values| ==> s.values[i] * durations[i] == perCount.values[i]
    ensures forall i :: 0 <= i < |s.values| ==> perCount.values[i] == 0.0 ==> s.values[i] == 0.0
    ensures forall i :: 0 <= i < |s.variances| ==> s.variances[i] == PerSecondVariance(perCount.variances[i], durations[i])
    ensures forall i :: 0 <= i < |s.variances| ==> perCount.variances[i] == 0.0 ==> s.variances[i] == 0.0
  {
    var n, nv := |perCount.values|, |perCount.variances|;
    Series(seq(n, i requires 0 <= i < n => Normalized(perCount.values[i], durations[i])),
           seq(nv, i requires 0 <= i < nv => PerSecondVariance(perCount.variances[i], durations[i])))
  }

  /** BackgroundRate(counts, durations) = (sum(counts)/sum(durations), sqrt(sum(counts))/sum(durations)),
      with the error squared. */
  function BackgroundRate(counts: seq<real>, durations: seq<real>): (r: Result<Measured, Error>)
    ensures r.Failure? <==> Sum(durations) == 0.0 || Sum(counts) < 0.0
    ensures r.Failure? ==> r.error == (if Sum(durations) == 0.0 then ZeroDivisionError else MathDomainError)
    ensures r.Success? ==> r.value.value * Sum(durations) == Sum(counts)
    ensures r.Success? ==> r.value.variance * (Sum(durations) * Sum(durations)) == Sum(counts)
    ensures r.Success? ==> r.value.variance >= 0.0
  {
    var c, d := Sum(counts), Sum(durations);
    if d == 0.0 then Failure(ZeroDivisionError)
    else if c < 0.0 then Failure(MathDomainError)
    else Success(Measured(Normalized(c, d), PerSecondVariance(c, d)))
  }

  /** The Poisson examples: no counts give a zero rate with zero error; 100 counts in 10 s give
      a rate of 10/s with an error of 1/s. */
  lemma BackgroundRateExamples()
    ensures BackgroundRate([0.0], [10.0]) == Success(Measured(0.0, 0.0))
    ensures BackgroundRate([100.0], [10.0]) == Success(Measured(10.0, 1.0))
  {
    assert Sum([0.0]) == 0.0 && Sum([10.0]) == 10.0 && Sum([100.0]) == 100.0 by {
      assert [0.0][..0] == [] && [10.0][..0] == [] && [100.0][..0] == [];
    }
  }

  /** HeVaporPressure(T): the Clement-Logan-Gaffney formula, given here as the parameter `formula`,
      is evaluated only inside its range of validity 0.66 K <= T <= 5.2 K; outside it raises. */
  function HeVaporPressure(T: real, formula: real -> real): (r: Result<real, Error>)
    ensures r.Failure? <==> T < 0.66 || T > 5.2
    ensures r.Failure? ==> r.error == OutOfFormulaRange
    ensures r.Success? ==> r.value == formula(T)
  {
    if !(0.66 <= T <= 5.2) then Failure(OutOfFormulaRange) else Success(formula(T))
  }

  /** HeTemperature(P): zero pressure is exactly zero temperature, without the root finder;
      any other pressure is handed to the root finder (brentq on 0.66 K .. 5.2 K), given here
      as the parameter `solve`. */
  function HeTemperature(P: real, solve: real -> Result<real, Error>): (r: Result<real, Error>)
    ensures P == 0.0 ==> r == Success(0.0)
    ensures P != 0.0 ==> r == solve(P)
  {
    if P == 0.0 then Success(0.0) else solve(P)
  }
}
