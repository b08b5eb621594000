/**
 * An experiment (one transmission measurement with its list of runs), the
 * pass over all cycles that fills every experiment's per-cycle lists
 * (transmission.py, ReadCycles), and the scalar part of the analysis of one
 * experiment (transmission.py, Transmission).
 */
module Experiments {
  import opened Wrappers
  import opened Numerics
  import opened UCN
  import opened Cycles

  /** The results the analysis stores in an experiment; None is a key not yet set. */
  datatype Results = Results(
    li6BackgroundRate: Option<Measured>,
    li6IrradiationRate: Option<Series>,
    transmission: Option<real>, transmissionErr: Option<real>,
    transmission2: Option<real>, transmission2Err: Option<real>)

  const NoResults := Results(None, None, None, None, None, None)

  /** The identifier and stored results of an experiment, as later analysis steps see them. */
  datatype Record = Record(tcn: string, results: Results)

  /** Every recorded cycle satisfies what the analysis relies on. */
  predicate AllAdmissible(rows: seq<Entry>) {
    forall i :: 0 <= i < |rows| ==> Admissible(rows[i])
  }

  class Experiment {
    const tcn: string
    const runs: seq<int>
    /** The per-cycle lists, one record per accepted cycle (entry i of every list is field of entries[i]). */
    var entries: seq<Entry>
    /** The contents of the Li-6 channel histogram. */
    var channels: multiset<int>
    var results: Results

    predicate Valid()
      reads this
    {
      AllAdmissible(entries)
    }

    constructor (tcn: string, runs: seq<int>)
      ensures this.tcn == tcn && this.runs == runs
      ensures entries == [] && channels == multiset{} && results == NoResults
      ensures Valid()
    {
      this.tcn := tcn;
      this.runs := runs;
      entries := [];
      channels := multiset{};
      results := NoResults;
    }

    /** Starts all per-cycle lists and the channel histogram afresh. */
    method Reset()
      modifies this
      ensures entries == [] && channels == multiset{} && results == old(results)
      ensures Valid()
    {
      entries := [];
      channels := multiset{};
    }

    /** Appends the record of one accepted cycle and fills its Li-6 channels. */
    method Append(e: Entry, li6Channels: seq<int>)
      requires Valid() && Admissible(e)
      modifies this
      ensures entries == old(entries) + [e]
      ensures channels == old(channels) + multiset(li6Channels)
      ensures results == old(results)
      ensures Valid()
    {
      entries := entries + [e];
      channels := channels + multiset(li6Channels);
    }
  }

  predicate Distinct(experiments: seq<Experiment>) {
    forall i, j :: 0 <= i < j < |experiments| ==> experiments[i] != experiments[j]
  }

  /** Some experiment lists the run of the cycle. */
  predicate Relevant(c: Cycle, experiments: seq<Experiment>) {
    exists k :: 0 <= k < |experiments| && c.run in experiments[k].runs
  }

  /** Every cycle some experiment uses is well formed. */
  predicate Readable(cycles: seq<Cycle>, experiments: seq<Experiment>) {
    forall i :: 0 <= i < |cycles| && Relevant(cycles[i], experiments) ==> WellFormed(cycles[i])
  }

  /** The log of a pass over the cycles: one entry per skipped cycle or valve warning. */
  function LogOf(cycles: seq<Cycle>, experiments: seq<Experiment>): (log: seq<Message>)
    requires Readable(cycles, experiments)
    ensures |log| <= |cycles|
  {
    if cycles == [] then []
    else
      var init, last := cycles[..|cycles| - 1], cycles[|cycles| - 1];
      LogOf(init, experiments) + CycleLog(last, Relevant(last, experiments))
  }

  /** A prefix of a readable list is readable, and so is its next cycle. */
  lemma ReadablePrefix(cycles: seq<Cycle>, i: nat, experiments: seq<Experiment>)
    requires Readable(cycles, experiments) && i < |cycles|
    ensures Readable(cycles[..i], experiments)
    ensures Relevant(cycles[i], experiments) ==> WellFormed(cycles[i])
    ensures cycles[..i + 1] == cycles[..i] + [cycles[i]]
  {
  }

  /** The log of one more cycle extends the log by what that cycle logs. */
  lemma LogOfSnoc(cycles: seq<Cycle>, c: Cycle, experiments: seq<Experiment>)
    requires Readable(cycles, experiments) && (Relevant(c, experiments) ==> WellFormed(c))
    ensures Readable(cycles + [c], experiments)
    ensures LogOf(cycles + [c], experiments) == LogOf(cycles, experiments) + CycleLog(c, Relevant(c, experiments))
  {
    assert (cycles + [c])[..|cycles|] == cycles;
  }

  /** An experiment holds exactly the records of the cycles it accepts. */
  predicate Recorded(cycles: seq<Cycle>, ex: Experiment, firstBinEdge: Cycle -> real)
    reads ex
  {
    && ReadableFor(cycles, ex.runs)
    && ex.entries == ExtractAll(AcceptedInto(cycles, ex.runs), firstBinEdge)
    && ex.channels == Channels(AcceptedInto(cycles, ex.runs))
    && ex.Valid()
  }

  /**
   * Hands the record of one accepted cycle of the given run to the experiments:
   * each experiment that lists the run receives it, the others are left alone.
   */
  method Distribute(run: int, e: Entry, li6Channels: seq<int>, experiments: seq<Experiment>)
    requires Admissible(e) && Distinct(experiments)
    requires forall k :: 0 <= k < |experiments| ==> experiments[k].Valid()
    modifies set k | 0 <= k < |experiments| :: experiments[k]
    ensures forall k :: 0 <= k < |experiments| ==>
      experiments[k].entries == old(experiments[k].entries) + (if run in experiments[k].runs then [e] else [])
    ensures forall k :: 0 <= k < |experiments| ==>
      experiments[k].channels == old(experiments[k].channels) + (if run in experiments[k].runs then multiset(li6Channels) else multiset{})
    ensures forall k :: 0 <= k < |experiments| ==> experiments[k].results == old(experiments[k].results)
    ensures forall k :: 0 <= k < |experiments| ==> experiments[k].Valid()
  {
    for k := 0 to |experiments|
      invariant forall j :: 0 <= j < k ==>
        experiments[j].entries == old(experiments[j].entries) + (if run in experiments[j].runs then [e] else [])
      invariant forall j :: 0 <= j < k ==>
        experiments[j].channels == old(experiments[j].channels) + (if run in experiments[j].runs then multiset(li6Channels) else multiset{})
      invariant forall j :: k <= j < |experiments| ==>
        experiments[j].entries == old(experiments[j].entries) && experiments[j].channels == old(experiments[j].channels)
      invariant forall j :: 0 <= j < |experiments| ==> experiments[j].results == old(experiments[j].results)
      invariant forall j :: 0 <= j < |experiments| ==> experiments[j].Valid()
    {
      assert forall j :: 0 <= j < |experiments| && j != k ==> experiments[j] != experiments[k];
      if run in experiments[k].runs {
        experiments[k].Append(e, li6Channels);
      }
    }
  }

  /** One more cycle extends what an experiment records by what it admits. */
  lemma RecordedSnoc(cycles: seq<Cycle>, c: Cycle, runs: seq<int>, firstBinEdge: Cycle -> real)
    requires ReadableFor(cycles, runs) && (c.run in runs ==> WellFormed(c))
    ensures ReadableFor(cycles + [c], runs)
    ensures ExtractAll(AcceptedInto(cycles + [c], runs), firstBinEdge)
         == ExtractAll(AcceptedInto(cycles, runs), firstBinEdge) + (if Admits(runs, c) then [Extract(c, firstBinEdge(c))] else [])
    ensures Channels(AcceptedInto(cycles + [c], runs))
         == Channels(AcceptedInto(cycles, runs)) + (if Admits(runs, c) then multiset(c.li6Channels) else multiset{})
  {
    AcceptedIntoSnoc(cycles, c, runs);
    var a := AcceptedInto(cycles, runs);
    if Admits(runs, c) {
      ExtractAllSnoc(a, c, firstBinEdge);
      ChannelsSnoc(a, c);
    } else {
      assert a + [] == a;
    }
  }

  /**
   * The body of the loop over cycles: a cycle no experiment uses is passed over
   * in silence; a rejected cycle is logged with the first failing check; a kept
   * cycle gets a valve warning when its valves were abnormal and its record
   * goes to every experiment that lists its run.
   */
  method ReadCycle(done: seq<Cycle>, c: Cycle, experiments: seq<Experiment>, firstBinEdge: Cycle -> real)
    returns (messages: seq<Message>)
    requires Distinct(experiments)
    requires Relevant(c, experiments) ==> WellFormed(c)
    requires forall k :: 0 <= k < |experiments| ==> Recorded(done, experiments[k], firstBinEdge)
    modifies set k | 0 <= k < |experiments| :: experiments[k]
    ensures forall k :: 0 <= k < |experiments| ==> Recorded(done + [c], experiments[k], firstBinEdge)
    ensures forall k :: 0 <= k < |experiments| ==> experiments[k].results == old(experiments[k].results)
    ensures messages == CycleLog(c, Relevant(c, experiments))
  {
    var relevant := exists k :: 0 <= k < |experiments| && c.run in experiments[k].runs;
    if !relevant {
      forall k | 0 <= k < |experiments|
        ensures Recorded(done + [c], experiments[k], firstBinEdge)
      {
        SkippedCycleAddsNothing(done, c, experiments[k].runs);
      }
      return [];
    }
    var rejection := Rejection(c);
    if rejection.Some? {
      forall k | 0 <= k < |experiments|
        ensures Recorded(done + [c], experiments[k], firstBinEdge)
      {
        SkippedCycleAddsNothing(done, c, experiments[k].runs);
      }
      return [Skipped(c.run, c.number, rejection.value)];
    }
    messages := [];
    if AbnormalValves(c) {
      messages := [AbnormalValveConfiguration(c.run, c.number)];
    }
    KeptCycleIsAdmissible(c, firstBinEdge(c));
    Distribute(c.run, Extract(c, firstBinEdge(c)), c.li6Channels, experiments);
    forall k | 0 <= k < |experiments|
      ensures Recorded(done + [c], experiments[k], firstBinEdge)
    {
      RecordedSnoc(done, c, experiments[k].runs, firstBinEdge);
    }
  }

  /** Starts every experiment afresh. */
  method ResetAll(experiments: seq<Experiment>)
    requires Distinct(experiments)
    modifies set k | 0 <= k < |experiments| :: experiments[k]
    ensures forall k :: 0 <= k < |experiments| ==> experiments[k].entries == [] && experiments[k].channels == multiset{}
    ensures forall k :: 0 <= k < |experiments| ==> experiments[k].results == old(experiments[k].results)
  {
    for k := 0 to |experiments|
      invariant forall j :: 0 <= j < k ==> experiments[j].entries == [] && experiments[j].channels == multiset{}
      invariant forall j :: 0 <= j < |experiments| ==> experiments[j].results == old(experiments[j].results)
    {
      experiments[k].Reset();
    }
  }

  /**
   * The pass over the cycles: starts every experiment afresh, then reads the
   * cycles in order. Afterwards each experiment holds exactly the records of its
   * accepted cycles, in input order, and the log holds one entry per skipped
   * cycle and per valve warning.
   */
  method ReadPass(cycles: seq<Cycle>, experiments: seq<Experiment>, firstBinEdge: Cycle -> real) returns (log: seq<Message>)
    requires Distinct(experiments)
    requires Readable(cycles, experiments)
    modifies set k | 0 <= k < |experiments| :: experiments[k]
    ensures forall k :: 0 <= k < |experiments| ==> Recorded(cycles, experiments[k], firstBinEdge)
    ensures forall k :: 0 <= k < |experiments| ==> |experiments[k].entries| == |AcceptedInto(cycles, experiments[k].runs)|
    ensures forall k :: 0 <= k < |experiments| ==> experiments[k].results == old(experiments[k].results)
    ensures log == LogOf(cycles, experiments)
  {
    ResetAll(experiments);
    forall k | 0 <= k < |experiments|
      ensures Recorded([], experiments[k], firstBinEdge)
    {
      assert AcceptedInto([], experiments[k].runs) == [];
    }
    log := [];
    for i := 0 to |cycles|
      invariant forall k :: 0 <= k < |experiments| ==> Recorded(cycles[..i], experiments[k], firstBinEdge)
      invariant forall k :: 0 <= k < |experiments| ==> experiments[k].results == old(experiments[k].results)
      invariant log == LogOf(cycles[..i], experiments)
    {
      var c := cycles[i];
      ReadablePrefix(cycles, i, experiments);
      var messages := ReadCycle(cycles[..i], c, experiments, firstBinEdge);
      LogOfSnoc(cycles[..i], c, experiments);
      log := log + messages;
    }
    assert cycles[..|cycles|] == cycles;
  }

  /**
   * ReadCycles: the pass over the cycles, then the count of the records read,
   * which raises ValueError when there are no experiments.
   */
  method ReadCycles(cycles: seq<Cycle>, experiments: seq<Experiment>, firstBinEdge: Cycle -> real)
    returns (log: seq<Message>, total: Result<nat, Error>)
    requires Distinct(experiments)
    requires Readable(cycles, experiments)
    modifies set k | 0 <= k < |experiments| :: experiments[k]
    ensures forall k :: 0 <= k < |experiments| ==> Recorded(cycles, experiments[k], firstBinEdge)
    ensures forall k :: 0 <= k < |experiments| ==> |experiments[k].entries| == |AcceptedInto(cycles, experiments[k].runs)|
    ensures forall k :: 0 <= k < |experiments| ==> experiments[k].results == old(experiments[k].results)
    ensures log == LogOf(cycles, experiments)
    ensures total.Failure? <==> |experiments| == 0
    ensures total.Failure? ==> total.error == ValueError
    ensures total.Success? ==> total.value == AcceptedTotal(cycles, experiments)
  {
    log := ReadPass(cycles, experiments, firstBinEdge);
    total := CountRead(cycles, experiments);
  }

  /**
   * The closing count of ReadCycles: the number of records over all experiments,
   * or the ValueError that joining an empty list of start lists raises.
   */
  method CountRead(cycles: seq<Cycle>, experiments: seq<Experiment>) returns (total: Result<nat, Error>)
    requires forall k :: 0 <= k < |experiments| ==> ReadableFor(cycles, experiments[k].runs)
    requires forall k :: 0 <= k < |experiments| ==> |experiments[k].entries| == |AcceptedInto(cycles, experiments[k].runs)|
    ensures total.Failure? <==> |experiments| == 0
    ensures total.Failure? ==> total.error == ValueError
    ensures total.Success? ==> total.value == AcceptedTotal(cycles, experiments)
  {
    if |experiments| == 0 {
      total := Failure(ValueError);
    } else {
      var n := 0;
      for k := 0 to |experiments|
        invariant n == AcceptedTotal(cycles, experiments[..k])
      {
        assert experiments[..k + 1][..k] == experiments[..k];
        n := n + |experiments[k].entries|;
      }
      assert experiments[..|experiments|] == experiments;
      total := Success(n);
    }
  }

  /**
   * The number of records all experiments hold after a pass over the cycles:
   * the length of their start lists joined together, so a cycle that two
   * experiments accept counts twice.
   */
  function AcceptedTotal(cycles: seq<Cycle>, experiments: seq<Experiment>): (n: nat)
    requires forall k :: 0 <= k < |experiments| ==> ReadableFor(cycles, experiments[k].runs)
    ensures n <= |cycles| * |experiments|
  {
    if experiments == [] then 0
    else
      var init := experiments[..|experiments| - 1];
      assert |cycles| * |init| + |cycles| == |cycles| * |experiments|;
      AcceptedTotal(cycles, init) + |AcceptedInto(cycles, experiments[|experiments| - 1].runs)|
  }

  /** A cycle of a run no experiment lists changes no experiment and logs nothing. */
  lemma ForeignCycleChangesNothing(cycles: seq<Cycle>, c: Cycle, experiments: seq<Experiment>, firstBinEdge: Cycle -> real)
    requires Readable(cycles, experiments) && !Relevant(c, experiments)
    ensures Readable(cycles + [c], experiments)
    ensures LogOf(cycles + [c], experiments) == LogOf(cycles, experiments)
    ensures forall k :: 0 <= k < |experiments| ==>
      ReadableFor(cycles, experiments[k].runs) && ReadableFor(cycles + [c], experiments[k].runs) &&
      AcceptedInto(cycles + [c], experiments[k].runs) == AcceptedInto(cycles, experiments[k].runs)
  {
    assert (cycles + [c])[..|cycles|] == cycles;
    forall k | 0 <= k < |experiments|
      ensures ReadableFor(cycles, experiments[k].runs) && ReadableFor(cycles + [c], experiments[k].runs)
      ensures AcceptedInto(cycles + [c], experiments[k].runs) == AcceptedInto(cycles, experiments[k].runs)
    {
      SkippedCycleAddsNothing(cycles, c, experiments[k].runs);
    }
    assert LogOf(cycles, experiments) + [] == LogOf(cycles, experiments);
  }

  // ----- The analysis of one experiment -----

  /** What a fit of a constant to the per-cycle ratios reports. */
  datatype FitResult = FitResult(param: real, err: real, chi2: real, ndf: nat)

  /** A fit of a constant to points (x, y) with the squared errors of y. */
  type Fit = (seq<real>, seq<real>, seq<real>) -> FitResult

  /**
   * The fit error inflated by the reduced chi-square when that exceeds 1:
   * err * max(chi2/ndf, 1). Dividing by ndf == 0 raises ZeroDivisionError.
   */
  function ScaledFitError(err: real, chi2: real, ndf: nat): (r: Result<real, Error>)
    ensures r.Failure? <==> ndf == 0
    ensures r.Failure? ==> r.error == ZeroDivisionError
    ensures r.Success? && chi2 <= ndf as real ==> r.value == err
    ensures r.Success? && chi2 > ndf as real ==> r.value * (ndf as real) == err * chi2
    ensures r.Success? && err >= 0.0 ==> r.value >= err
  {
    if ndf == 0 then Failure(ZeroDivisionError)
    else
      var reducedChi2 := chi2 / (ndf as real);
      Inflation(err, chi2, ndf as real);
      Success(err * (if reducedChi2 > 1.0 then reducedChi2 else 1.0))
  }

  /** The inflation factor max(chi2/n, 1): 1 up to chi2 = n, chi2/n above, and never below 1. */
  lemma Inflation(err: real, chi2: real, n: real)
    requires n > 0.0
    ensures var q := chi2 / n;
      var scaled := err * (if q > 1.0 then q else 1.0);
      && (chi2 <= n ==> scaled == err)
      && (chi2 > n ==> scaled * n == err * chi2)
      && (err >= 0.0 ==> scaled >= err)
  {
    assert chi2 / n * n == chi2;
  }

  // Columns of the per-cycle lists, as reals.
  function CycleNumbers(rows: seq<Entry>): seq<real> {
    seq(|rows|, i requires 0 <= i < |rows| => rows[i].cycleNumber)
  }
  function BackgroundCounts(rows: seq<Entry>): seq<real> {
    seq(|rows|, i requires 0 <= i < |rows| => rows[i].li6Background as real)
  }
  function BackgroundDurations(rows: seq<Entry>): seq<real> {
    seq(|rows|, i requires 0 <= i < |rows| => rows[i].backgroundDuration)
  }
  function IrradiationCounts(rows: seq<Entry>): seq<real> {
    seq(|rows|, i requires 0 <= i < |rows| => rows[i].li6Irradiation as real)
  }
  function IrradiationDurations(rows: seq<Entry>): seq<real> {
    seq(|rows|, i requires 0 <= i < |rows| => rows[i].irradiationDuration)
  }
  function Li6Counts(rows: seq<Entry>): seq<real> {
    seq(|rows|, i requires 0 <= i < |rows| => rows[i].li6Counts as real)
  }
  function CountDurations(rows: seq<Entry>): seq<real> {
    seq(|rows|, i requires 0 <= i < |rows| => rows[i].countDuration)
  }
  function MonitorCounts(rows: seq<Entry>): seq<real> {
    seq(|rows|, i requires 0 <= i < |rows| => rows[i].monitorCounts as real)
  }
  function Li6WindowCounts(rows: seq<Entry>): seq<real> {
    seq(|rows|, i requires 0 <= i < |rows| => rows[i].li6Counts2 as real)
  }
  function Li6WindowDurations(rows: seq<Entry>): seq<real> {
    seq(|rows|, i requires 0 <= i < |rows| => rows[i].countDuration2)
  }
  function MonitorWindowCounts(rows: seq<Entry>): seq<real> {
    seq(|rows|, i requires 0 <= i < |rows| => rows[i].monitorCounts2 as real)
  }

  /** Mean beam current of a cycle whose current never dropped below 0.1. */
  function BeamMean(beam: seq<real>): (m: real)
    requires |beam| > 0 && Min(beam) >= 0.1
    ensures m >= 0.1
  {
    MeanAtLeast(beam, 0.1);
    Mean(beam)
  }

  /** Squared population standard deviation of the beam current of a cycle. */
  function BeamVariance(beam: seq<real>): (v: real)
    requires |beam| > 0
    ensures v >= 0.0
  {
    PopVarianceNonNegative(beam);
    PopVariance(beam)
  }

  function BeamMeans(rows: seq<Entry>): (m: seq<real>)
    requires AllAdmissible(rows)
    ensures |m| == |rows|
    ensures forall i :: 0 <= i < |rows| ==> m[i] >= 0.1
  {
    seq(|rows|, i requires 0 <= i < |rows| && AllAdmissible(rows) => BeamMean(rows[i].beamCurrent))
  }

  function BeamVariances(rows: seq<Entry>): (v: seq<real>)
    requires AllAdmissible(rows)
    ensures |v| == |rows|
    ensures forall i :: 0 <= i < |rows| ==> v[i] >= 0.0
  {
    seq(|rows|, i requires 0 <= i < |rows| && AllAdmissible(rows) => BeamVariance(rows[i].beamCurrent))
  }

  /**
   * Each cycle's beam-current statistics are the mean and the squared population
   * standard deviation of that cycle's beam-current readings.
   */
  lemma BeamStatisticsPerCycle(rows: seq<Entry>)
    requires AllAdmissible(rows)
    ensures forall i :: 0 <= i < |rows| ==>
      BeamMeans(rows)[i] == Mean(rows[i].beamCurrent) && BeamVariances(rows)[i] == PopVariance(rows[i].beamCurrent)
  {
  }

  /** The Li-6 background rate from all background periods. */
  function Li6BackgroundRate(rows: seq<Entry>): (r: Result<Measured, Error>)
    ensures r.Failure? <==> Sum(BackgroundDurations(rows)) == 0.0
    ensures r.Success? ==> r.value.value * Sum(BackgroundDurations(rows)) == Sum(BackgroundCounts(rows))
    ensures r.Success? ==> r.value.variance * (Sum(BackgroundDurations(rows)) * Sum(BackgroundDurations(rows))) == Sum(BackgroundCounts(rows))
  {
    SumAtLeast(BackgroundCounts(rows), 0.0);
    BackgroundRate(BackgroundCounts(rows), BackgroundDurations(rows))
  }

  /** With at least one accepted cycle the background rate can always be computed. */
  lemma Li6BackgroundRateSucceeds(rows: seq<Entry>)
    requires |rows| > 0 && AllAdmissible(rows)
    ensures Li6BackgroundRate(rows).Success?
    ensures Li6BackgroundRate(rows).value.value * Sum(BackgroundDurations(rows)) == Sum(BackgroundCounts(rows))
  {
    SumPositive(BackgroundDurations(rows));
    SumAtLeast(BackgroundCounts(rows), 0.0);
  }

  /** The irradiation-period Li-6 rate per unit beam current, per second. */
  function IrradiationRate(rows: seq<Entry>): (r: Result<Series, Error>)
    requires AllAdmissible(rows)
  {
    SubtractBackgroundAndNormalizeRate(IrradiationCounts(rows), IrradiationDurations(rows), Li6,
                                       BeamMeans(rows), BeamVariances(rows))
  }

  /**
   * The irradiation rate is per second and per unit of mean beam current: times
   * the period's length and the cycle's mean beam current, plus the expected
   * background, it is the raw irradiation count (BeamStatisticsPerCycle says the
   * beam means are the cycles' mean beam currents).
   */
  lemma IrradiationRatePerBeamCurrent(rows: seq<Entry>)
    requires AllAdmissible(rows) && IrradiationRate(rows).Success?
    ensures |IrradiationRate(rows).value.values| == |rows|
    ensures forall i :: 0 <= i < |rows| ==>
      var c, d, v := rows[i].li6Irradiation as real, rows[i].irradiationDuration, IrradiationRate(rows).value.values;
      && (c > 0.0 ==> RecoversCount(v[i], d, BeamMeans(rows)[i], DetectorBackground(Li6).rate, c))
      && (c == 0.0 ==> v[i] == 0.0)
  {
    IrradiationRateFailsOnZeroDuration(rows);
    forall i | 0 <= i < |rows|
      ensures var c, d, v := rows[i].li6Irradiation as real, rows[i].irradiationDuration, IrradiationRate(rows).value.values;
        && (c > 0.0 ==> RecoversCount(v[i], d, BeamMeans(rows)[i], DetectorBackground(Li6).rate, c))
        && (c == 0.0 ==> v[i] == 0.0)
    {
      RateRecoversCount(IrradiationCounts(rows), IrradiationDurations(rows), Li6, BeamMeans(rows), BeamVariances(rows), i);
    }
  }

  /** The irradiation rate fails exactly when some irradiation period has zero length. */
  lemma IrradiationRateFailsOnZeroDuration(rows: seq<Entry>)
    requires AllAdmissible(rows)
    ensures IrradiationRate(rows).Failure? <==> exists i :: 0 <= i < |rows| && rows[i].irradiationDuration == 0.0
    ensures IrradiationRate(rows).Failure? ==> IrradiationRate(rows).error == ZeroDivisionError
    ensures IrradiationRate(rows).Success? ==> |IrradiationRate(rows).value.values| == |rows|
  {
    var means := BeamMeans(rows);
    assert !DividesByZero(|rows|, means);
    var perCount := SubtractBackgroundAndNormalize(IrradiationCounts(rows), IrradiationDurations(rows), Li6, means, BeamVariances(rows));
    assert perCount.Success? && |perCount.value.values| == |rows|;
    if exists i :: 0 <= i < |rows| && rows[i].irradiationDuration == 0.0 {
      var i :| 0 <= i < |rows| && rows[i].irradiationDuration == 0.0;
      assert IrradiationDurations(rows)[i] == 0.0;
    }
  }

  /** Li-6 counts of the counting period per He-3 monitor count, with Poisson monitor errors. */
  function CountingRatios(rows: seq<Entry>): (r: Result<Series, Error>)
    ensures r.Failure? <==> exists i :: 0 <= i < |rows| && rows[i].monitorCounts == 0
    ensures r.Success? ==> |r.value.values| == |rows| && |r.value.variances| == |rows|
  {
    assert forall i :: 0 <= i < |rows| ==> (MonitorCounts(rows)[i] == 0.0 <==> rows[i].monitorCounts == 0);
    SubtractBackgroundAndNormalize(Li6Counts(rows), CountDurations(rows), Li6, MonitorCounts(rows), MonitorCounts(rows))
  }

  /** Every accepted cycle has at least 300 monitor counts, so the counting ratios exist for every cycle. */
  lemma CountingRatiosSucceed(rows: seq<Entry>)
    requires AllAdmissible(rows)
    ensures CountingRatios(rows).Success?
    ensures |CountingRatios(rows).value.values| == |rows| && |CountingRatios(rows).value.variances| == |rows|
  {
    assert !DividesByZero(|rows|, MonitorCounts(rows));
  }

  /** Li-6 counts of the Li-6 window per He-3 count in the monitor window. */
  function IrradiationRatios(rows: seq<Entry>): (r: Result<Series, Error>)
    ensures r.Failure? <==> exists i :: 0 <= i < |rows| && rows[i].monitorCounts2 == 0
    ensures r.Success? ==> |r.value.values| == |rows| && |r.value.variances| == |rows|
  {
    assert forall i :: 0 <= i < |rows| ==> (MonitorWindowCounts(rows)[i] == 0.0 <==> rows[i].monitorCounts2 == 0);
    SubtractBackgroundAndNormalize(Li6WindowCounts(rows), Li6WindowDurations(rows), Li6,
                                   MonitorWindowCounts(rows), MonitorWindowCounts(rows))
  }

  /** The smallest monitor-window count is positive: every monitor window holds a count. */
  function MonitorWindowsFilled(rows: seq<Entry>): (filled: bool)
    requires |rows| > 0
    ensures filled <==> forall i :: 0 <= i < |rows| ==> rows[i].monitorCounts2 > 0
  {
    var m := MonitorWindowCounts(rows);
    assert forall i :: 0 <= i < |rows| ==> m[i] == rows[i].monitorCounts2 as real;
    Min(MonitorWindowCounts(rows)) > 0.0
  }

  /** The guard on the monitor windows is exactly what the irradiation ratios need. */
  lemma IrradiationRatiosSucceedIffFilled(rows: seq<Entry>)
    requires |rows| > 0
    ensures IrradiationRatios(rows).Success? <==> MonitorWindowsFilled(rows)
  {
    var m := MonitorWindowCounts(rows);
    if MonitorWindowsFilled(rows) {
      assert !DividesByZero(|rows|, m);
    } else {
      var i :| 0 <= i < |m| && m[i] == Min(m);
      assert m[i] == 0.0;
    }
  }

  /**
   * Each counting ratio times the cycle's monitor count, plus the expected
   * background, is the cycle's Li-6 count; a cycle without Li-6 counts has ratio
   * 0 and error 0.
   */
  lemma CountingRatiosRecoverCounts(rows: seq<Entry>)
    requires CountingRatios(rows).Success?
    ensures forall i :: 0 <= i < |rows| ==>
      var q, c := CountingRatios(rows).value, rows[i].li6Counts as real;
      && (c > 0.0 ==> q.values[i] * (rows[i].monitorCounts as real) + DetectorBackground(Li6).rate * rows[i].countDuration == c)
      && (c == 0.0 ==> q.values[i] == 0.0 && q.variances[i] == 0.0)
  {
    forall i | 0 <= i < |rows|
      ensures var q, c := CountingRatios(rows).value, rows[i].li6Counts as real;
        && (c > 0.0 ==> q.values[i] * (rows[i].monitorCounts as real) + DetectorBackground(Li6).rate * rows[i].countDuration == c)
        && (c == 0.0 ==> q.values[i] == 0.0 && q.variances[i] == 0.0)
    {
      var counts, durations, monitors := Li6Counts(rows), CountDurations(rows), MonitorCounts(rows);
      assert counts[i] == rows[i].li6Counts as real && durations[i] == rows[i].countDuration;
      assert monitors[i] == rows[i].monitorCounts as real;
      NormalizationPropagatesErrors(counts, durations, Li6, monitors, monitors, i);
    }
  }

  /** The same for the irradiation-window ratios and the monitor-window counts. */
  lemma IrradiationRatiosRecoverCounts(rows: seq<Entry>)
    requires IrradiationRatios(rows).Success?
    ensures forall i :: 0 <= i < |rows| ==>
      var q, c := IrradiationRatios(rows).value, rows[i].li6Counts2 as real;
      && (c > 0.0 ==> q.values[i] * (rows[i].monitorCounts2 as real) + DetectorBackground(Li6).rate * rows[i].countDuration2 == c)
      && (c == 0.0 ==> q.values[i] == 0.0 && q.variances[i] == 0.0)
  {
    forall i | 0 <= i < |rows|
      ensures var q, c := IrradiationRatios(rows).value, rows[i].li6Counts2 as real;
        && (c > 0.0 ==> q.values[i] * (rows[i].monitorCounts2 as real) + DetectorBackground(Li6).rate * rows[i].countDuration2 == c)
        && (c == 0.0 ==> q.values[i] == 0.0 && q.variances[i] == 0.0)
    {
      var counts, durations, monitors := Li6WindowCounts(rows), Li6WindowDurations(rows), MonitorWindowCounts(rows);
      assert counts[i] == rows[i].li6Counts2 as real && durations[i] == rows[i].countDuration2;
      assert monitors[i] == rows[i].monitorCounts2 as real;
      NormalizationPropagatesErrors(counts, durations, Li6, monitors, monitors, i);
    }
  }

  datatype Status = NoCycles | Completed | Raised(error: Error)
  datatype Outcome = Outcome(status: Status, results: Results)

  /**
   * The irradiation-window stage: when every monitor window holds a count, fit
   * the irradiation ratios and store the constant and then its inflated error,
   * which may raise; otherwise complete with the results as they were.
   */
  function WindowStage(rows: seq<Entry>, r: Results, fit: Fit): (o: Outcome)
    requires |rows| > 0
    ensures o.status != NoCycles
    ensures o.status.Raised? ==> o.status.error == ZeroDivisionError
    ensures o.results.(transmission2 := r.transmission2, transmission2Err := r.transmission2Err) == r
    ensures !MonitorWindowsFilled(rows) ==> o == Outcome(Completed, r)
    ensures o.status == Completed && MonitorWindowsFilled(rows) ==>
      o.results.transmission2.Some? && o.results.transmission2Err.Some?
  {
    if !MonitorWindowsFilled(rows) then Outcome(Completed, r)
    else
      IrradiationRatiosSucceedIffFilled(rows);
      var ratios := IrradiationRatios(rows).value;
      var f2 := fit(CycleNumbers(rows), ratios.values, ratios.variances);
      var withFit2 := r.(transmission2 := Some(f2.param));
      match ScaledFitError(f2.err, f2.chi2, f2.ndf)
      case Failure(e) => Outcome(Raised(e), withFit2)
      case Success(err2) => Outcome(Completed, withFit2.(transmission2Err := Some(err2)))
  }

  /**
   * The counting-window stage: fit the counting ratios and store the constant and
   * then its inflated error, which may raise; then the irradiation-window stage.
   */
  function CountingStage(rows: seq<Entry>, r: Results, fit: Fit): (o: Outcome)
    requires |rows| > 0 && AllAdmissible(rows)
    ensures o.status != NoCycles
    ensures o.status.Raised? ==> o.status.error == ZeroDivisionError
    ensures o.results.li6BackgroundRate == r.li6BackgroundRate && o.results.li6IrradiationRate == r.li6IrradiationRate
    ensures o.results.transmission2 != r.transmission2 ==> MonitorWindowsFilled(rows)
    ensures o.status == Completed ==> o.results.transmission.Some? && o.results.transmissionErr.Some?
    ensures o.status == Completed && MonitorWindowsFilled(rows) ==>
      o.results.transmission2.Some? && o.results.transmission2Err.Some?
  {
    CountingRatiosSucceed(rows);
    var counting := CountingRatios(rows).value;
    var f := fit(CycleNumbers(rows), counting.values, counting.variances);
    var withFit := r.(transmission := Some(f.param));
    match ScaledFitError(f.err, f.chi2, f.ndf)
    case Failure(e) => Outcome(Raised(e), withFit)
    case Success(err) => WindowStage(rows, withFit.(transmissionErr := Some(err)), fit)
  }

  /**
   * The stored results of the analysis of an experiment with the records rows,
   * step by step: nothing without cycles; then the background rate; then the
   * irradiation rate, which may raise; then the counting fit and its inflated
   * error, which may raise; and the irradiation fit only when every monitor
   * window holds a count. A raised error leaves the results stored so far.
   */
  function Transmission(rows: seq<Entry>, before: Results, fit: Fit): (o: Outcome)
    requires AllAdmissible(rows)
    ensures |rows| == 0 <==> o.status == NoCycles
    ensures o.status == NoCycles ==> o.results == before
    ensures o.status.Raised? ==> o.status.error == ZeroDivisionError
    ensures |rows| > 0 ==> Li6BackgroundRate(rows).Success? && o.results.li6BackgroundRate == Some(Li6BackgroundRate(rows).value)
    ensures (exists i :: 0 <= i < |rows| && rows[i].irradiationDuration == 0.0) ==>
      o.status.Raised? && o.results.li6IrradiationRate == before.li6IrradiationRate && o.results.transmission == before.transmission
    ensures o.results.transmission2 != before.transmission2 ==> |rows| > 0 && MonitorWindowsFilled(rows)
    ensures o.status == Completed ==> o.results.transmission.Some? && o.results.transmissionErr.Some?
    ensures o.status == Completed && MonitorWindowsFilled(rows) ==> o.results.transmission2.Some? && o.results.transmission2Err.Some?
  {
    if |rows| == 0 then Outcome(NoCycles, before)
    else
      Li6BackgroundRateSucceeds(rows);
      IrradiationRateFailsOnZeroDuration(rows);
      var withBackground := before.(li6BackgroundRate := Some(Li6BackgroundRate(rows).value));
      match IrradiationRate(rows)
      case Failure(e) => Outcome(Raised(e), withBackground)
      case Success(irradiation) => CountingStage(rows, withBackground.(li6IrradiationRate := Some(irradiation)), fit)
  }

  /** A completed analysis stores the background rate and the irradiation rates it computed. */
  lemma StoredRatesAreComputedRates(rows: seq<Entry>, before: Results, fit: Fit)
    requires AllAdmissible(rows) && |rows| > 0
    requires Transmission(rows, before, fit).status == Completed
    ensures Li6BackgroundRate(rows).Success?
    ensures Transmission(rows, before, fit).results.li6BackgroundRate == Some(Li6BackgroundRate(rows).value)
    ensures IrradiationRate(rows).Success?
    ensures Transmission(rows, before, fit).results.li6IrradiationRate == Some(IrradiationRate(rows).value)
  {
    Li6BackgroundRateSucceeds(rows);
    IrradiationRateFailsOnZeroDuration(rows);
  }

  /**
   * A completed analysis stores the constant fitted to the counting ratios, with
   * its error inflated by max(chi2/ndf, 1).
   */
  lemma StoredTransmissionIsCountingFit(rows: seq<Entry>, before: Results, fit: Fit)
    requires AllAdmissible(rows) && |rows| > 0
    requires Transmission(rows, before, fit).status == Completed
    ensures CountingRatios(rows).Success?
    ensures var f := fit(CycleNumbers(rows), CountingRatios(rows).value.values, CountingRatios(rows).value.variances);
      var stored := Transmission(rows, before, fit).results;
      && f.ndf > 0
      && stored.transmission == Some(f.param)
      && stored.transmissionErr == Some(ScaledFitError(f.err, f.chi2, f.ndf).value)
  {
    Li6BackgroundRateSucceeds(rows);
    CountingRatiosSucceed(rows);
    IrradiationRateFailsOnZeroDuration(rows);
  }

  /**
   * When every monitor window holds a count, a completed analysis stores the
   * constant fitted to the irradiation-window ratios with its inflated error;
   * otherwise those two results are left as they were.
   */
  lemma StoredTransmission2IsWindowFit(rows: seq<Entry>, before: Results, fit: Fit)
    requires AllAdmissible(rows) && |rows| > 0
    requires Transmission(rows, before, fit).status == Completed
    ensures MonitorWindowsFilled(rows) ==> IrradiationRatios(rows).Success?
    ensures MonitorWindowsFilled(rows) ==>
      var f2 := fit(CycleNumbers(rows), IrradiationRatios(rows).value.values, IrradiationRatios(rows).value.variances);
      var stored := Transmission(rows, before, fit).results;
      && f2.ndf > 0
      && stored.transmission2 == Some(f2.param)
      && stored.transmission2Err == Some(ScaledFitError(f2.err, f2.chi2, f2.ndf).value)
    ensures !MonitorWindowsFilled(rows) ==>
      var stored := Transmission(rows, before, fit).results;
      stored.transmission2 == before.transmission2 && stored.transmission2Err == before.transmission2Err
  {
    Li6BackgroundRateSucceeds(rows);
    CountingRatiosSucceed(rows);
    IrradiationRateFailsOnZeroDuration(rows);
    if MonitorWindowsFilled(rows) {
      IrradiationRatiosSucceedIffFilled(rows);
    }
  }

  /** Transmission applied to an experiment: stores the results and reports how it ended. */
  method Analyze(ex: Experiment, fit: Fit) returns (status: Status)
    requires ex.Valid()
    modifies ex
    ensures ex.entries == old(ex.entries) && ex.channels == old(ex.channels)
    ensures Outcome(status, ex.results) == Transmission(ex.entries, old(ex.results), fit)
  {
    var rows := ex.entries;
    if |rows| == 0 {
      return NoCycles;
    }
    Li6BackgroundRateSucceeds(rows);
    ex.results := ex.results.(li6BackgroundRate := Some(Li6BackgroundRate(rows).value));
    var irradiation := IrradiationRate(rows);
    if irradiation.Failure? {
      return Raised(irradiation.error);
    }
    CountingRatiosSucceed(rows);
    var counting := CountingRatios(rows).value;
    var f := fit(CycleNumbers(rows), counting.values, counting.variances);
    ex.results := ex.results.(li6IrradiationRate := Some(irradiation.value), transmission := Some(f.param));
    var err := ScaledFitError(f.err, f.chi2, f.ndf);
    if err.Failure? {
      return Raised(err.error);
    }
    ex.results := ex.results.(transmissionErr := Some(err.value));
    if Min(MonitorWindowCounts(rows)) > 0.0 {
      IrradiationRatiosSucceedIffFilled(rows);
      var ratios := IrradiationRatios(rows).value;
      var f2 := fit(CycleNumbers(rows), ratios.values, ratios.variances);
      ex.results := ex.results.(transmission2 := Some(f2.param));
      var err2 := ScaledFitError(f2.err, f2.chi2, f2.ndf);
      if err2.Failure? {
        return Raised(err2.error);
      }
      ex.results := ex.results.(transmission2Err := Some(err2.value));
    }
    return Completed;
  }
}
