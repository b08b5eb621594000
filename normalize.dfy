/**
 * The transmission of one experiment relative to another (transmission.py,
 * Normalize): the ratio of the stored fit results of the two experiments and
 * its error, with the relative errors added in quadrature.
 */
module CrossNormalize {
  import opened Wrappers
  import opened UCN
  import opened Experiments

  /** The position of the first record whose identifier starts with prefix. */
  function FindByPrefix(records: seq<Record>, prefix: string): (r: Option<nat>)
    ensures r.Some? ==> r.value < |records| && prefix <= records[r.value].tcn
    ensures r.Some? ==> forall j :: 0 <= j < r.value ==> !(prefix <= records[j].tcn)
    ensures r.None? <==> forall j :: 0 <= j < |records| ==> !(prefix <= records[j].tcn)
  {
    if records == [] then None
    else if prefix <= records[0].tcn then Some(0)
    else match FindByPrefix(records[1..], prefix)
      case None => None
      case Some(j) => Some(j + 1)
  }

  /** The square of a relative error, (err/value)^2. */
  function RelativeVariance(value: real, err: real): (v: real)
    requires value != 0.0
    ensures v * (value * value) == err * err
    ensures v >= 0.0
  {
    var q := Normalized(err, value);
    assert (q * q) * (value * value) == (q * value) * (q * value);
    q * q
  }

  /** The squared error of a ratio whose relative errors add in quadrature, scaled by scale. */
  function QuadratureVariance(t: real, te: real, r: real, re: real, scale: real): (v: real)
    requires t != 0.0 && r != 0.0
    ensures v >= 0.0
  {
    var s := RelativeVariance(t, te) + RelativeVariance(r, re);
    assert s * scale * scale == s * (scale * scale) >= 0.0;
    s * scale * scale
  }

  /** Both experiments carry all four results and no division by zero occurs. */
  predicate Complete(t: Results, r: Results) {
    && t.transmission.Some? && t.transmissionErr.Some? && t.transmission2.Some? && t.transmission2Err.Some?
    && r.transmission.Some? && r.transmissionErr.Some? && r.transmission2.Some? && r.transmission2Err.Some?
    && t.transmission.value != 0.0 && r.transmission.value != 0.0
    && t.transmission2.value != 0.0 && r.transmission2.value != 0.0
  }

  /**
   * The exception raised first, in the order in which the expressions look up
   * the results and divide: the counting ratio, its error, the irradiation ratio,
   * its error.
   */
  function FirstError(t: Results, r: Results): (e: Error)
    requires !Complete(t, r)
    ensures e == KeyError || e == ZeroDivisionError
  {
    if t.transmission.None? || r.transmission.None? then KeyError
    else if r.transmission.value == 0.0 then ZeroDivisionError
    else if t.transmissionErr.None? then KeyError
    else if t.transmission.value == 0.0 then ZeroDivisionError
    else if r.transmissionErr.None? then KeyError
    else if t.transmission2.None? || r.transmission2.None? then KeyError
    else if r.transmission2.value == 0.0 then ZeroDivisionError
    else if t.transmission2Err.None? then KeyError
    else if t.transmission2.value == 0.0 then ZeroDivisionError
    else KeyError
  }

  /**
   * The order of the first line of the ratios: both transmissions are looked up
   * before the division, so a missing one is a KeyError even when the reference's
   * transmission is 0, and with both present a zero reference transmission raises
   * ZeroDivisionError before any error is looked up.
   */
  lemma FirstErrorOrder(t: Results, r: Results)
    requires !Complete(t, r)
    ensures t.transmission.None? || r.transmission.None? ==> FirstError(t, r) == KeyError
    ensures t.transmission.Some? && r.transmission.Some? && r.transmission.value == 0.0 ==>
      FirstError(t, r) == ZeroDivisionError
  {
  }

  /** Counting ratio, its squared error, irradiation ratio, its squared error. */
  datatype Ratios = Ratios(ratio: real, ratioVariance: real, ratio2: real, ratio2Variance: real)

  /** What Normalize returns: its early pair, or the four values. */
  datatype Returned = Pair(first: real, second: real) | Four(ratios: Ratios)

  /** The four values Normalize computes as written, from complete results. */
  function RatiosAsWritten(t: Results, r: Results): (q: Ratios)
    requires Complete(t, r)
    ensures q.ratio * r.transmission.value == t.transmission.value
    ensures q.ratio2 * r.transmission2.value == t.transmission2.value
    ensures q.ratioVariance == QuadratureVariance(t.transmission.value, t.transmissionErr.value,
                                                 r.transmission.value, r.transmissionErr.value, q.ratio)
    ensures q.ratio2Variance == QuadratureVariance(t.transmission2.value, t.transmission2Err.value,
                                                  r.transmission2.value, r.transmission2Err.value, q.ratio)
  {
    var ratio := Normalized(t.transmission.value, r.transmission.value);
    var ratio2 := Normalized(t.transmission2.value, r.transmission2.value);
    Ratios(ratio, QuadratureVariance(t.transmission.value, t.transmissionErr.value, r.transmission.value, r.transmissionErr.value, ratio),
           ratio2, QuadratureVariance(t.transmission2.value, t.transmission2Err.value, r.transmission2.value, r.transmission2Err.value, ratio))
  }

  /**
   * Normalize as written: a missing experiment returns a pair, and the squared
   * error of the irradiation ratio is scaled by the square of the counting ratio.
   */
  function NormalizeAsWritten(records: seq<Record>, transTcn: string, refTcn: string): (out: Result<Returned, Error>)
    ensures FindByPrefix(records, transTcn).None? || FindByPrefix(records, refTcn).None? ==> out == Success(Pair(0.0, 0.0))
    ensures FindByPrefix(records, transTcn).Some? && FindByPrefix(records, refTcn).Some? ==>
      var t := records[FindByPrefix(records, transTcn).value].results;
      var r := records[FindByPrefix(records, refTcn).value].results;
      && (out.Failure? <==> !Complete(t, r))
      && (out.Failure? ==> out.error == KeyError || out.error == ZeroDivisionError)
      && (out.Success? ==> out.value == Four(RatiosAsWritten(t, r)))
  {
    var ti, ri := FindByPrefix(records, transTcn), FindByPrefix(records, refTcn);
    if ti.None? || ri.None? then Success(Pair(0.0, 0.0))
    else
      var t, r := records[ti.value].results, records[ri.value].results;
      if !Complete(t, r) then Failure(FirstError(t, r))
      else Success(Four(RatiosAsWritten(t, r)))
  }

  /** The caller's unpacking of the result into four names. */
  function UnpackFour(returned: Returned): (r: Result<Ratios, Error>)
    ensures r.Failure? <==> returned.Pair?
    ensures r.Failure? ==> r.error == ValueError
    ensures r.Success? ==> returned == Four(r.value)
  {
    match returned
    case Pair(_, _) => Failure(ValueError)
    case Four(ratios) => Success(ratios)
  }

  /**
   * The ratio of the transmissions of two experiments for both normalizations,
   * with the relative errors added in quadrature and each error scaled by its
   * own ratio.
   */
  function TransmissionRatios(t: Results, r: Results): (q: Ratios)
    requires Complete(t, r)
    ensures q.ratio * r.transmission.value == t.transmission.value
    ensures q.ratio2 * r.transmission2.value == t.transmission2.value
    ensures q.ratioVariance == QuadratureVariance(t.transmission.value, t.transmissionErr.value,
                                                 r.transmission.value, r.transmissionErr.value, q.ratio)
    ensures q.ratio2Variance == QuadratureVariance(t.transmission2.value, t.transmission2Err.value,
                                                  r.transmission2.value, r.transmission2Err.value, q.ratio2)
  {
    var ratio := Normalized(t.transmission.value, r.transmission.value);
    var ratio2 := Normalized(t.transmission2.value, r.transmission2.value);
    Ratios(ratio, QuadratureVariance(t.transmission.value, t.transmissionErr.value, r.transmission.value, r.transmissionErr.value, ratio),
           ratio2, QuadratureVariance(t.transmission2.value, t.transmission2Err.value, r.transmission2.value, r.transmission2Err.value, ratio2))
  }

  /**
   * Normalize: the transmission of the experiment found by transTcn relative to
   * the experiment found by refTcn. A missing experiment gives four zeros;
   * missing results or a zero transmission raise the Python exception the
   * expressions raise first.
   */
  function Normalize(records: seq<Record>, transTcn: string, refTcn: string): (out: Result<Ratios, Error>)
    ensures FindByPrefix(records, transTcn).None? || FindByPrefix(records, refTcn).None? ==>
      out == Success(Ratios(0.0, 0.0, 0.0, 0.0))
    ensures FindByPrefix(records, transTcn).Some? && FindByPrefix(records, refTcn).Some? ==>
      var t := records[FindByPrefix(records, transTcn).value].results;
      var r := records[FindByPrefix(records, refTcn).value].results;
      && (out.Failure? <==> !Complete(t, r))
      && (out.Failure? ==> out.error == KeyError || out.error == ZeroDivisionError)
      && (out.Success? ==> out.value == TransmissionRatios(t, r))
  {
    var ti, ri := FindByPrefix(records, transTcn), FindByPrefix(records, refTcn);
    if ti.None? || ri.None? then Success(Ratios(0.0, 0.0, 0.0, 0.0))
    else
      var t, r := records[ti.value].results, records[ri.value].results;
      if !Complete(t, r) then Failure(FirstError(t, r))
      else Success(TransmissionRatios(t, r))
  }

  /** When every result is present, only a zero transmission can make Normalize raise. */
  lemma PresentResultsFailOnlyOnZero(t: Results, r: Results)
    requires !Complete(t, r)
    requires t.transmission.Some? && r.transmission.Some? && t.transmission2.Some? && r.transmission2.Some?
    requires t.transmissionErr.Some? && r.transmissionErr.Some? && t.transmission2Err.Some? && r.transmission2Err.Some?
    ensures FirstError(t, r) == ZeroDivisionError
  {
  }

  /** An experiment normalized to itself has ratio 1, with twice its relative squared errors. */
  lemma SelfNormalizationIsOne(t: Results)
    requires Complete(t, t)
    ensures TransmissionRatios(t, t).ratio == 1.0 && TransmissionRatios(t, t).ratio2 == 1.0
    ensures TransmissionRatios(t, t).ratioVariance == 2.0 * RelativeVariance(t.transmission.value, t.transmissionErr.value)
    ensures TransmissionRatios(t, t).ratio2Variance == 2.0 * RelativeVariance(t.transmission2.value, t.transmission2Err.value)
  {
  }

  /** Exchanging the two experiments inverts both ratios. */
  lemma SwapInvertsRatio(t: Results, r: Results)
    requires Complete(t, r)
    ensures Complete(r, t)
    ensures TransmissionRatios(t, r).ratio * TransmissionRatios(r, t).ratio == 1.0
    ensures TransmissionRatios(t, r).ratio2 * TransmissionRatios(r, t).ratio2 == 1.0
  {
    InverseQuotients(t.transmission.value, r.transmission.value);
    InverseQuotients(t.transmission2.value, r.transmission2.value);
  }

  lemma InverseQuotients(x: real, y: real)
    requires x != 0.0 && y != 0.0
    ensures Normalized(x, y) * Normalized(y, x) == 1.0
  {
    ProductIsOne(Normalized(x, y), Normalized(y, x), x, y);
  }

  /** Exchanging the two experiments leaves the relative squared error of the counting ratio unchanged. */
  lemma SwapKeepsRelativeError(t: Results, r: Results)
    requires Complete(t, r)
    ensures Complete(r, t)
    ensures var tr, rt := TransmissionRatios(t, r), TransmissionRatios(r, t);
      tr.ratioVariance * (rt.ratio * rt.ratio) == rt.ratioVariance * (tr.ratio * tr.ratio)
  {
    var tr, rt := TransmissionRatios(t, r), TransmissionRatios(r, t);
    QuadratureSwap(t.transmission.value, t.transmissionErr.value, r.transmission.value, r.transmissionErr.value, tr.ratio, rt.ratio);
  }

  /** The counting-ratio part of the swap: inverse ratios with the same relative squared error. */
  lemma QuadratureSwap(x: real, xe: real, y: real, ye: real, p: real, q: real)
    requires x != 0.0 && y != 0.0 && p * y == x && q * x == y
    ensures p * q == 1.0
    ensures QuadratureVariance(x, xe, y, ye, p) * (q * q) == QuadratureVariance(y, ye, x, xe, q) * (p * p)
  {
    ProductIsOne(p, q, x, y);
    var s := RelativeVariance(x, xe) + RelativeVariance(y, ye);
    assert QuadratureVariance(y, ye, x, xe, q) == s * q * q;
    assert (p * q) * (p * q) == 1.0;
    assert s * p * p * (q * q) == s * ((p * q) * (p * q));
    assert s * q * q * (p * p) == s * ((p * q) * (p * q));
  }

  lemma ProductIsOne(p: real, q: real, x: real, y: real)
    requires x != 0.0 && y != 0.0 && p * y == x && q * x == y
    ensures p * q == 1.0
  {
    assert (p * q) * x == p * (q * x) == p * y == x;
  }

  // ----- Discrepancies between what Normalize computes and what it evidently means -----

  /** Two experiments whose counting ratio is 2 and whose irradiation ratio is 1. */
  const Example: seq<Record> := [
    Record("18-215", Results(None, None, Some(2.0), Some(0.2), Some(1.0), Some(0.1))),
    Record("18-380", Results(None, None, Some(1.0), Some(0.1), Some(1.0), Some(0.1)))]

  /**
   * As written, the squared error of the irradiation ratio is scaled by the
   * square of the counting ratio: the relative errors in quadrature give 0.02,
   * but the stored squared error is 0.08.
   */
  lemma IrradiationErrorScaledByCountingRatio()
    ensures NormalizeAsWritten(Example, "18-215", "18-380") == Success(Four(Ratios(2.0, 0.08, 1.0, 0.08)))
    ensures RelativeVariance(1.0, 0.1) + RelativeVariance(1.0, 0.1) == 0.02
  {
    assert FindByPrefix(Example, "18-215") == Some(0);
    assert !("18-380" <= Example[0].tcn) by {
      assert Example[0].tcn[3] != "18-380"[3];
    }
    assert FindByPrefix(Example[1..], "18-380") == Some(0);
    assert RelativeVariance(2.0, 0.2) == 0.01;
    assert RelativeVariance(1.0, 0.1) == 0.01;
  }

  /** Corrected, the same experiments give the irradiation ratio its own squared error 0.02. */
  lemma CorrectedIrradiationError()
    ensures Normalize(Example, "18-215", "18-380") == Success(Ratios(2.0, 0.08, 1.0, 0.02))
  {
    assert FindByPrefix(Example, "18-215") == Some(0);
    assert !("18-380" <= Example[0].tcn) by {
      assert Example[0].tcn[3] != "18-380"[3];
    }
    assert FindByPrefix(Example[1..], "18-380") == Some(0);
    assert RelativeVariance(2.0, 0.2) == 0.01;
    assert RelativeVariance(1.0, 0.1) == 0.01;
  }

  /** A magnet-current experiment without its zero-current reference. */
  const WithoutReference: seq<Record> := [
    Record("18-065_25A", Results(None, None, Some(2.0), Some(0.2), Some(1.0), Some(0.1)))]

  /**
   * As written, a missing reference returns a pair, which the magnet-current
   * loop unpacks into four names: a ValueError.
   */
  lemma MissingReferenceBreaksUnpacking()
    ensures NormalizeAsWritten(WithoutReference, "18-065_25A", "18-065_0A") == Success(Pair(0.0, 0.0))
    ensures UnpackFour(NormalizeAsWritten(WithoutReference, "18-065_25A", "18-065_0A").value) == Failure(ValueError)
  {
    assert !("18-065_0A" <= WithoutReference[0].tcn) by {
      assert WithoutReference[0].tcn[8] != "18-065_0A"[8];
    }
    assert FindByPrefix(WithoutReference, "18-065_0A") == None;
  }

  /** Corrected, a missing reference gives four zeros, which unpack into four names. */
  lemma CorrectedMissingReference()
    ensures Normalize(WithoutReference, "18-065_25A", "18-065_0A") == Success(Ratios(0.0, 0.0, 0.0, 0.0))
  {
    assert !("18-065_0A" <= WithoutReference[0].tcn) by {
      assert WithoutReference[0].tcn[8] != "18-065_0A"[8];
    }
    assert FindByPrefix(WithoutReference, "18-065_0A") == None;
  }
}
