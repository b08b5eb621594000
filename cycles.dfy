/**
 * One measurement cycle as it comes out of the analysis tree, the ordered
 * chain of quality checks that decides whether the cycle is used, and the
 * per-cycle record that an accepted cycle contributes to every experiment
 * that lists its run (transmission.py, ReadCycles).
 */
module Cycles {
  import opened Wrappers
  import opened Numerics

  /** Period indices into the per-period count and duration arrays. */
  const IrradiationPeriod: nat := 0
  const MonitorPeriod: nat := 0
  const CountPeriod: nat := 1
  const BackgroundPeriod: nat := 10

  /** The half-open He-3 monitor window (-10, 0) relative to the end of irradiation. */
  const MonitorWindowLow: real := -10.0
  const MonitorWindowHigh: real := 0.0
  /** The Li-6 window starts this many seconds before the first bin above threshold. */
  const TriggerOffset: real := 60.0
  const Li6WindowLength: real := 10.0

  /**
   * A cycle record. Counts per period are non-negative integers; the slow-control
   * readings (beam current, valve IV1 state, gauge IG5, valve states, temperatures
   * TS11/TS12/TS14, pressures PG9L/PG9H, SCM voltages) are sampled sequences;
   * li6Hits/he3Hits are the hit times of the two detectors in the cycle.
   */
  datatype Cycle = Cycle(
    run: int, number: int, start: real,
    li6: seq<nat>, he3: seq<nat>, durations: seq<real>,
    beam: seq<real>, iv1: seq<real>, ig5: seq<real>,
    valve0: seq<int>, valve1: seq<int>,
    ts11: seq<real>, ts12: seq<real>, ts14: seq<real>,
    pg9l: seq<real>, pg9h: seq<real>,
    scmVoltages: seq<real>,
    beamOnDuration: real, beamOffDuration: real,
    li6Hits: seq<real>, he3Hits: seq<real>, li6Channels: seq<int>)

  /** The reasons for skipping a cycle, in the order in which they are checked. */
  datatype Reason =
    | BeamCurrentLow | BeamCurrentUnstable | MissingLi6Data | IV1NeverOpened
    | IG5On | OnlyBackground | HighBackground | LowMonitorCounts

  function Rank(r: Reason): (n: nat)
    ensures n < 8
  {
    match r
    case BeamCurrentLow => 0
    case BeamCurrentUnstable => 1
    case MissingLi6Data => 2
    case IV1NeverOpened => 3
    case IG5On => 4
    case OnlyBackground => 5
    case HighBackground => 6
    case LowMonitorCounts => 7
  }

  /** An IG5 reading strictly inside (1e-7, 1e-2) means the gauge was switched on. */
  predicate GaugeOn(p: real) { 0.0000001 < p < 0.01 }

  /** Some IG5 reading lies strictly inside (1e-7, 1e-2): the gauge was switched on. */
  predicate GaugeWasOn(c: Cycle) {
    exists i :: 0 <= i < |c.ig5| && GaugeOn(c.ig5[i])
  }

  /**
   * What the chain of checks reads, stage by stage: a later check's readings
   * are read only when every earlier check has passed.
   */
  predicate Checkable(c: Cycle) {
    && |c.beam| > 0
    && (Min(c.beam) >= 0.1 && PopVariance(c.beam) <= 0.0004 ==>
        && |c.li6| > BackgroundPeriod
        && (c.li6[BackgroundPeriod] != 0 ==>
            && |c.iv1| > 0
            && (Max(c.iv1) >= 1.0 && !GaugeWasOn(c) ==>
                && |c.durations| > CountPeriod
                && ((c.li6[CountPeriod] as real) >= 10.0 * c.durations[CountPeriod] ==>
                    && |c.durations| > BackgroundPeriod
                    && ((c.li6[BackgroundPeriod] as real) <= 10.0 * c.durations[BackgroundPeriod] ==>
                        |c.he3| > CountPeriod)))))
  }

  /** What the checks read on their own. */
  predicate CheckInputs(c: Cycle, r: Reason) {
    match r
    case BeamCurrentLow => |c.beam| > 0
    case BeamCurrentUnstable => |c.beam| > 0
    case MissingLi6Data => |c.li6| > BackgroundPeriod
    case IV1NeverOpened => |c.iv1| > 0
    case IG5On => true
    case OnlyBackground => |c.li6| > CountPeriod && |c.durations| > CountPeriod
    case HighBackground => |c.li6| > BackgroundPeriod && |c.durations| > BackgroundPeriod
    case LowMonitorCounts => |c.he3| > CountPeriod
  }

  /** The vapor-pressure gauge that is read: PG9H only once PG9L has read 2 or more. */
  predicate PressureReadable(c: Cycle) {
    |c.pg9l| > 0 && (Max(c.pg9l) >= 2.0 ==> |c.pg9h| > 0)
  }

  /**
   * The valve readings the short-circuiting valve test reads: a later reading
   * only when every earlier one had its normal value.
   */
  predicate ValvesReadable(valve0: seq<int>, valve1: seq<int>) {
    && |valve0| > 0
    && (valve0[0] == 1 ==>
        && |valve0| > 1
        && (valve0[1] == 1 ==>
            && |valve1| > 0
            && (valve1[0] == 0 ==> |valve1| > 1)))
  }

  /**
   * What the extraction of a kept cycle reads besides the checked periods: the
   * valve readings the valve test reaches, the three temperature sensors and
   * the pressure gauge in use.
   */
  predicate Extractable(c: Cycle) {
    && |c.li6| > BackgroundPeriod && |c.durations| > BackgroundPeriod && |c.he3| > CountPeriod
    && ValvesReadable(c.valve0, c.valve1)
    && |c.ts11| > 0 && |c.ts12| > 0 && |c.ts14| > 0
    && PressureReadable(c)
  }

  /**
   * A cycle of a listed run that can be processed without an IndexError or a
   * ValueError: every check that is reached finds its readings, and a kept
   * cycle has every reading the extraction takes.
   */
  predicate WellFormed(c: Cycle) {
    Checkable(c) && (Rejection(c).None? ==> Extractable(c))
  }

  /**
   * Each check on its own. The beam spread check compares the population
   * variance with 0.02 squared, which is the same as comparing the population
   * standard deviation with 0.02.
   */
  predicate Fails(c: Cycle, r: Reason)
    requires CheckInputs(c, r)
  {
    match r
    case BeamCurrentLow => Min(c.beam) < 0.1
    case BeamCurrentUnstable => PopVariance(c.beam) > 0.02 * 0.02
    case MissingLi6Data => c.li6[BackgroundPeriod] == 0
    case IV1NeverOpened => Max(c.iv1) < 1.0
    case IG5On => GaugeWasOn(c)
    case OnlyBackground => (c.li6[CountPeriod] as real) < 10.0 * c.durations[CountPeriod]
    case HighBackground => (c.li6[BackgroundPeriod] as real) > 10.0 * c.durations[BackgroundPeriod]
    case LowMonitorCounts => c.he3[CountPeriod] < 300
  }

  /**
   * The chain of checks: the reason reported is the first one that fails, and
   * a cycle is kept exactly when none fails.
   */
  function Rejection(c: Cycle): (r: Option<Reason>)
    requires Checkable(c)
    ensures r.None? ==> forall k :: CheckInputs(c, k) && !Fails(c, k)
    ensures r.Some? ==> CheckInputs(c, r.value) && Fails(c, r.value)
    ensures r.Some? ==> forall k :: Rank(k) < Rank(r.value) ==> CheckInputs(c, k) && !Fails(c, k)
  {
    if Min(c.beam) < 0.1 then Some(BeamCurrentLow)
    else if PopVariance(c.beam) > 0.0004 then Some(BeamCurrentUnstable)
    else if c.li6[10] == 0 then Some(MissingLi6Data)
    else if Max(c.iv1) < 1.0 then Some(IV1NeverOpened)
    else if GaugeWasOn(c) then Some(IG5On)
    else if (c.li6[1] as real) < 10.0 * c.durations[1] then Some(OnlyBackground)
    else if (c.li6[10] as real) > 10.0 * c.durations[10] then Some(HighBackground)
    else if c.he3[1] < 300 then Some(LowMonitorCounts)
    else None
  }

  /** A beam current held at a constant of at least 0.1 uA passes both beam checks. */
  lemma SteadyBeamPassesBeamChecks(c: Cycle, current: real)
    requires Checkable(c) && current >= 0.1
    requires forall i :: 0 <= i < |c.beam| ==> c.beam[i] == current
    ensures !Fails(c, BeamCurrentLow) && !Fails(c, BeamCurrentUnstable)
    ensures Rejection(c).Some? ==> Rank(Rejection(c).value) >= 2
  {
    ConstantHasNoSpread(c.beam, current);
  }

  /**
   * The valve configuration that produces a warning (but never a rejection):
   * anything but valve 0 open in both readings and valve 1 closed, then open.
   */
  function AbnormalValves(c: Cycle): (abnormal: bool)
    requires ValvesReadable(c.valve0, c.valve1)
    ensures !abnormal <==> |c.valve0| >= 2 && |c.valve1| >= 2 && c.valve0[..2] == [1, 1] && c.valve1[..2] == [0, 1]
  {
    assert |c.valve0| >= 2 && |c.valve1| >= 2 ==>
      c.valve0[..2] == [c.valve0[0], c.valve0[1]] && c.valve1[..2] == [c.valve1[0], c.valve1[1]];
    c.valve0[0] != 1 || c.valve0[1] != 1 || c.valve1[0] != 0 || c.valve1[1] != 1
  }

  /**
   * The valve test stops at the first reading that is not the normal one: a
   * first valve-0 reading other than 1 is enough for the warning, whatever the
   * other readings are, and none of them need exist.
   */
  lemma FirstAbnormalReadingDecides(c: Cycle)
    requires |c.valve0| > 0 && c.valve0[0] != 1
    ensures ValvesReadable(c.valve0, c.valve1) && AbnormalValves(c)
  {
  }

  /** The valve states take no part in the decision to keep a cycle. */
  lemma ValvesDoNotReject(c: Cycle, valve0: seq<int>, valve1: seq<int>)
    requires WellFormed(c) && ValvesReadable(valve0, valve1)
    ensures WellFormed(c.(valve0 := valve0, valve1 := valve1))
    ensures Rejection(c.(valve0 := valve0, valve1 := valve1)) == Rejection(c)
  {
  }

  /** A kept cycle has a background period at least 0.1 s long and at least 300 monitor counts. */
  lemma KeptCycleBounds(c: Cycle)
    requires Checkable(c)
    ensures Rejection(c).None? ==>
      |c.durations| > BackgroundPeriod && |c.he3| > CountPeriod &&
      c.durations[BackgroundPeriod] >= 0.1 && c.he3[CountPeriod] >= 300 && Min(c.beam) >= 0.1
  {
    if Rejection(c).None? {
      assert CheckInputs(c, MissingLi6Data) && !Fails(c, MissingLi6Data);
      assert CheckInputs(c, HighBackground) && !Fails(c, HighBackground);
      assert CheckInputs(c, LowMonitorCounts) && !Fails(c, LowMonitorCounts);
      assert (c.li6[BackgroundPeriod] as real) >= 1.0;
    }
  }

  /** Number of hit times strictly inside the open interval (lo, hi). */
  function CountInWindow(hits: seq<real>, lo: real, hi: real): (n: nat)
    ensures n <= |hits|
    ensures hi <= lo ==> n == 0
  {
    if hits == [] then 0
    else CountInWindow(hits[..|hits| - 1], lo, hi) + (if lo < hits[|hits| - 1] < hi then 1 else 0)
  }

  /** The indices of the hits strictly inside (lo, hi). */
  function HitsInWindow(hits: seq<real>, lo: real, hi: real): set<nat> {
    set i: nat | i < |hits| && lo < hits[i] < hi
  }

  /** The window count is the number of hits strictly inside the window. */
  lemma {:induction false} CountInWindowIsCardinality(hits: seq<real>, lo: real, hi: real)
    ensures CountInWindow(hits, lo, hi) == |HitsInWindow(hits, lo, hi)|
  {
    if hits != [] {
      var init := hits[..|hits| - 1];
      var last: nat := |hits| - 1;
      CountInWindowIsCardinality(init, lo, hi);
      var before := HitsInWindow(init, lo, hi);
      assert last !in before;
      if lo < hits[last] < hi {
        assert HitsInWindow(hits, lo, hi) == before + {last};
      } else {
        assert HitsInWindow(hits, lo, hi) == before;
      }
    }
  }

  /** Counting over two concatenated hit lists adds the counts. */
  lemma {:induction false} CountInWindowAppend(a: seq<real>, b: seq<real>, lo: real, hi: real)
    ensures CountInWindow(a + b, lo, hi) == CountInWindow(a, lo, hi) + CountInWindow(b, lo, hi)
  {
    if b != [] {
      var b' := b[..|b| - 1];
      assert (a + b)[..|a + b| - 1] == a + b';
      CountInWindowAppend(a, b', lo, hi);
    } else {
      assert a + b == a;
    }
  }

  /** A histogram of hit times: bins equal-width bins on [low, high) and the values it was filled with. */
  datatype Histogram = Histogram(bins: int, low: real, high: real, fills: seq<real>)

  /** The length of the cycle in whole seconds, rounded down. */
  function CycleLength(c: Cycle): (n: int)
    ensures n as real <= c.beamOnDuration + c.beamOffDuration < n as real + 1.0
  {
    (c.beamOnDuration + c.beamOffDuration).Floor
  }

  /** The single record an accepted cycle appends to each matching experiment. */
  datatype Entry = Entry(
    start: real, cycleNumber: real, beamCurrent: seq<real>,
    minTemperature: real, maxTemperature: real,
    minVaporPressure: real, maxVaporPressure: real,
    scmCurrent: seq<real>, li6Rate: Histogram, he3Rate: Histogram,
    li6Counts: nat, countDuration: real, monitorCounts: nat, monitorDuration: real,
    li6Window: (real, real), li6Counts2: nat, countDuration2: real,
    monitorCounts2: nat, monitorDuration2: real,
    li6Background: nat, backgroundDuration: real,
    li6Irradiation: nat, irradiationDuration: real)

  /** What the analysis of an experiment relies on for every recorded cycle. */
  predicate Admissible(e: Entry) {
    && e.backgroundDuration > 0.0
    && e.monitorCounts >= 300
    && |e.beamCurrent| > 0 && Min(e.beamCurrent) >= 0.1
  }

  /**
   * The vapor pressure range of a cycle: from the high-range gauge PG9H once the
   * low-range gauge PG9L has read 2 or more, otherwise from PG9L.
   */
  function VaporPressureRange(c: Cycle): (p: (real, real))
    requires PressureReadable(c)
    ensures p.0 <= p.1
    ensures Max(c.pg9l) >= 2.0 ==> p == (Min(c.pg9h), Max(c.pg9h))
    ensures Max(c.pg9l) < 2.0 ==> p == (Min(c.pg9l), Max(c.pg9l))
  {
    var gauge := if Max(c.pg9l) >= 2.0 then c.pg9h else c.pg9l;
    assert Min(gauge) <= gauge[0] <= Max(gauge);
    (Min(gauge), Max(gauge))
  }

  /** SCM coil currents from the voltages across the 250 micro-ohm shunt. */
  function ScmCurrents(voltages: seq<real>): (a: seq<real>)
    ensures |a| == |voltages|
    ensures forall i :: 0 <= i < |a| ==> a[i] * 0.00025 == voltages[i]
  {
    seq(|voltages|, i requires 0 <= i < |voltages| => voltages[i] / 0.00025)
  }

  /** The lowest reading of the sensors TS11, TS12 and TS14. */
  function MinTemperature(c: Cycle): (t: real)
    requires |c.ts11| > 0 && |c.ts12| > 0 && |c.ts14| > 0
    ensures t == Min(c.ts11) || t == Min(c.ts12) || t == Min(c.ts14)
    ensures t <= Min(c.ts11) && t <= Min(c.ts12) && t <= Min(c.ts14)
  {
    var lows := [Min(c.ts11), Min(c.ts12), Min(c.ts14)];
    assert Min(lows) <= lows[0] && Min(lows) <= lows[1] && Min(lows) <= lows[2];
    Min(lows)
  }

  /** The highest reading of the sensors TS11, TS12 and TS14. */
  function MaxTemperature(c: Cycle): (t: real)
    requires |c.ts11| > 0 && |c.ts12| > 0 && |c.ts14| > 0
    ensures t == Max(c.ts11) || t == Max(c.ts12) || t == Max(c.ts14)
    ensures t >= Max(c.ts11) && t >= Max(c.ts12) && t >= Max(c.ts14)
  {
    var highs := [Max(c.ts11), Max(c.ts12), Max(c.ts14)];
    assert Max(highs) >= highs[0] && Max(highs) >= highs[1] && Max(highs) >= highs[2];
    Max(highs)
  }

  /** The lowest temperature reading lies below the highest. */
  lemma TemperatureRange(c: Cycle)
    requires |c.ts11| > 0 && |c.ts12| > 0 && |c.ts14| > 0
    ensures MinTemperature(c) <= MaxTemperature(c)
  {
    assert Min(c.ts11) <= c.ts11[0] <= Max(c.ts11);
  }

  /**
   * The Li-6 window (t0, t0 + 10). Its start t0, the trigger time, lies sixty
   * seconds before firstBinEdge, the low edge of the first Li-6 histogram bin
   * holding more than 10 hits.
   */
  function Li6Window(firstBinEdge: real): (w: (real, real))
    ensures w.1 - w.0 == 10.0 && w.0 + 60.0 == firstBinEdge
  {
    var t0 := firstBinEdge - TriggerOffset;
    (t0, t0 + Li6WindowLength)
  }

  /** Li-6 hits in the Li-6 window, counted from the end of the irradiation period. */
  function Li6WindowCount(c: Cycle, firstBinEdge: real): (n: nat)
    requires |c.durations| > MonitorPeriod
    ensures n == |HitsInWindow(c.li6Hits, c.durations[0] + firstBinEdge - 60.0, c.durations[0] + firstBinEdge - 50.0)|
  {
    var w := Li6Window(firstBinEdge);
    CountInWindowIsCardinality(c.li6Hits, c.durations[MonitorPeriod] + w.0, c.durations[MonitorPeriod] + w.1);
    CountInWindow(c.li6Hits, c.durations[MonitorPeriod] + w.0, c.durations[MonitorPeriod] + w.1)
  }

  /** He-3 hits in the ten seconds before the end of the irradiation period. */
  function MonitorWindowCount(c: Cycle): (n: nat)
    requires |c.durations| > MonitorPeriod
    ensures n == |HitsInWindow(c.he3Hits, c.durations[0] - 10.0, c.durations[0])|
  {
    var lo, hi := c.durations[MonitorPeriod] + MonitorWindowLow, c.durations[MonitorPeriod] + MonitorWindowHigh;
    CountInWindowIsCardinality(c.he3Hits, lo, hi);
    CountInWindow(c.he3Hits, lo, hi)
  }

  /**
   * The record of a kept cycle. firstBinEdge is the low edge of the first Li-6
   * histogram bin above threshold; the Li-6 window opens 60 s before it.
   */
  function Extract(c: Cycle, firstBinEdge: real): (e: Entry)
    requires WellFormed(c) && Rejection(c).None?
    ensures e.minTemperature <= e.maxTemperature
    ensures (e.minVaporPressure, e.maxVaporPressure) == VaporPressureRange(c)
    ensures e.li6Window == (firstBinEdge - 60.0, firstBinEdge - 50.0)
    ensures e.countDuration2 == 10.0 && e.monitorDuration2 == 10.0
    ensures e.li6Counts2 == Li6WindowCount(c, firstBinEdge) && e.monitorCounts2 == MonitorWindowCount(c)
    ensures e.li6Counts == c.li6[1] && e.countDuration == c.durations[1]
    ensures e.monitorCounts == c.he3[1] && e.monitorDuration == c.durations[1]
    ensures e.li6Background == c.li6[10] && e.backgroundDuration == c.durations[10]
    ensures e.li6Irradiation == c.li6[0] && e.irradiationDuration == c.durations[0]
    ensures e.beamCurrent == c.beam
  {
    var pressure := VaporPressureRange(c);
    var length := CycleLength(c);
    var window := Li6Window(firstBinEdge);
    TemperatureRange(c);
    Entry(
      c.start, c.number as real, c.beam,
      MinTemperature(c), MaxTemperature(c), pressure.0, pressure.1,
      ScmCurrents(c.scmVoltages),
      Histogram(length * 20, 0.0, length as real, c.li6Hits),
      Histogram(length, 0.0, length as real, c.he3Hits),
      c.li6[CountPeriod], c.durations[CountPeriod], c.he3[CountPeriod], c.durations[CountPeriod],
      window, Li6WindowCount(c, firstBinEdge), window.1 - window.0,
      MonitorWindowCount(c), MonitorWindowHigh - MonitorWindowLow,
      c.li6[BackgroundPeriod], c.durations[BackgroundPeriod],
      c.li6[IrradiationPeriod], c.durations[IrradiationPeriod])
  }

  /** The record of a cycle that passes every check is admissible. */
  lemma KeptCycleIsAdmissible(c: Cycle, firstBinEdge: real)
    requires WellFormed(c) && Rejection(c).None?
    ensures Admissible(Extract(c, firstBinEdge))
  {
    KeptCycleBounds(c);
  }

  /** Every cycle of one of the runs is well formed. */
  predicate ReadableFor(cycles: seq<Cycle>, runs: seq<int>) {
    forall i :: 0 <= i < |cycles| && cycles[i].run in runs ==> WellFormed(cycles[i])
  }

  /** A cycle is recorded for an experiment when its run is listed and it passes every check. */
  predicate Admits(runs: seq<int>, c: Cycle)
    requires c.run in runs ==> WellFormed(c)
  {
    c.run in runs && Rejection(c).None?
  }

  /** The cycles an experiment with the given runs records, in input order. */
  function AcceptedInto(cycles: seq<Cycle>, runs: seq<int>): (a: seq<Cycle>)
    requires ReadableFor(cycles, runs)
    ensures |a| <= |cycles|
    ensures forall c :: c in a <==> c in cycles && Admits(runs, c)
    ensures forall i :: 0 <= i < |a| ==> WellFormed(a[i]) && Rejection(a[i]).None?
  {
    if cycles == [] then []
    else
      var init, last := cycles[..|cycles| - 1], cycles[|cycles| - 1];
      assert forall c :: c in cycles <==> c in init || c == last;
      AcceptedInto(init, runs) + (if Admits(runs, last) then [last] else [])
  }

  /** Accepting from two concatenated cycle lists concatenates the results. */
  lemma {:induction false} AcceptedIntoAppend(a: seq<Cycle>, b: seq<Cycle>, runs: seq<int>)
    requires ReadableFor(a, runs) && ReadableFor(b, runs)
    ensures ReadableFor(a + b, runs)
    ensures AcceptedInto(a + b, runs) == AcceptedInto(a, runs) + AcceptedInto(b, runs)
  {
    assert forall i :: 0 <= i < |a + b| ==> (a + b)[i] == if i < |a| then a[i] else b[i - |a|];
    if b == [] {
      assert a + b == a;
    } else {
      var b' := b[..|b| - 1];
      assert (a + b)[..|a + b| - 1] == a + b';
      assert (a + b)[|a + b| - 1] == b[|b| - 1];
      AcceptedIntoAppend(a, b', runs);
    }
  }

  /** Processing one more cycle appends it exactly when it is admitted. */
  lemma AcceptedIntoSnoc(cycles: seq<Cycle>, c: Cycle, runs: seq<int>)
    requires ReadableFor(cycles, runs) && (c.run in runs ==> WellFormed(c))
    ensures ReadableFor(cycles + [c], runs)
    ensures AcceptedInto(cycles + [c], runs) == AcceptedInto(cycles, runs) + (if Admits(runs, c) then [c] else [])
  {
    assert (cycles + [c])[..|cycles|] == cycles;
  }

  /** A cycle of a run the experiment does not list, or a rejected cycle, adds nothing. */
  lemma SkippedCycleAddsNothing(cycles: seq<Cycle>, c: Cycle, runs: seq<int>)
    requires ReadableFor(cycles, runs) && (c.run in runs ==> WellFormed(c))
    requires c.run !in runs || Rejection(c).Some?
    ensures ReadableFor(cycles + [c], runs)
    ensures AcceptedInto(cycles + [c], runs) == AcceptedInto(cycles, runs)
  {
    AcceptedIntoSnoc(cycles, c, runs);
    assert AcceptedInto(cycles, runs) + [] == AcceptedInto(cycles, runs);
  }

  /** The records the accepted cycles contribute, one per cycle. */
  function ExtractAll(cycles: seq<Cycle>, firstBinEdge: Cycle -> real): (es: seq<Entry>)
    requires forall i :: 0 <= i < |cycles| ==> WellFormed(cycles[i]) && Rejection(cycles[i]).None?
    ensures |es| == |cycles|
    ensures forall i :: 0 <= i < |cycles| ==> es[i] == Extract(cycles[i], firstBinEdge(cycles[i]))
  {
    seq(|cycles|, i requires 0 <= i < |cycles| => Extract(cycles[i], firstBinEdge(cycles[i])))
  }

  /** Every record of an accepted cycle is admissible. */
  lemma AcceptedEntriesAdmissible(cycles: seq<Cycle>, runs: seq<int>, firstBinEdge: Cycle -> real)
    requires ReadableFor(cycles, runs)
    ensures forall c :: c in AcceptedInto(cycles, runs) ==> WellFormed(c)
    ensures forall e :: e in ExtractAll(AcceptedInto(cycles, runs), firstBinEdge) ==> Admissible(e)
  {
    var a := AcceptedInto(cycles, runs);
    forall i | 0 <= i < |a|
      ensures Admissible(ExtractAll(a, firstBinEdge)[i])
    {
      KeptCycleIsAdmissible(a[i], firstBinEdge(a[i]));
    }
    assert forall i :: 0 <= i < |a| ==> a[i] in a;
  }

  /** Extracting one more cycle appends its record. */
  lemma ExtractAllSnoc(cycles: seq<Cycle>, c: Cycle, firstBinEdge: Cycle -> real)
    requires forall i :: 0 <= i < |cycles| ==> WellFormed(cycles[i]) && Rejection(cycles[i]).None?
    requires WellFormed(c) && Rejection(c).None?
    ensures forall i :: 0 <= i < |cycles + [c]| ==> WellFormed((cycles + [c])[i]) && Rejection((cycles + [c])[i]).None?
    ensures ExtractAll(cycles + [c], firstBinEdge) == ExtractAll(cycles, firstBinEdge) + [Extract(c, firstBinEdge(c))]
  {
    var all := cycles + [c];
    assert forall i :: 0 <= i < |all| ==> all[i] == if i < |cycles| then cycles[i] else c;
    var extracted, before := ExtractAll(all, firstBinEdge), ExtractAll(cycles, firstBinEdge);
    forall i | 0 <= i < |before|
      ensures extracted[i] == before[i]
    {
      assert all[i] == cycles[i];
    }
    AppendedLast(extracted, before, Extract(c, firstBinEdge(c)));
  }

  /** A sequence that agrees with another on its indices and has one more element is that one with the element appended. */
  lemma AppendedLast<T>(longer: seq<T>, shorter: seq<T>, last: T)
    requires |longer| == |shorter| + 1 && longer[|shorter|] == last
    requires forall i :: 0 <= i < |shorter| ==> longer[i] == shorter[i]
    ensures longer == shorter + [last]
  {
  }

  /** All Li-6 channel numbers of the cycles, as the contents of the channel histogram. */
  function Channels(cycles: seq<Cycle>): (m: multiset<int>)
    ensures forall k :: 0 <= k < |cycles| ==> multiset(cycles[k].li6Channels) <= m
  {
    if cycles == [] then multiset{}
    else Channels(cycles[..|cycles| - 1]) + multiset(cycles[|cycles| - 1].li6Channels)
  }

  /** The channels of one more cycle are added to the channel histogram. */
  lemma ChannelsSnoc(cycles: seq<Cycle>, c: Cycle)
    ensures Channels(cycles + [c]) == Channels(cycles) + multiset(c.li6Channels)
  {
    assert (cycles + [c])[..|cycles|] == cycles;
  }


  /** What processing one cycle writes to the log. */
  datatype Message =
    | Skipped(run: int, cycle: int, reason: Reason)
    | AbnormalValveConfiguration(run: int, cycle: int)

  /**
   * The log of one cycle: nothing for a cycle no experiment uses, the first
   * failing check for a rejected cycle, and a valve warning for a kept cycle
   * with an abnormal valve configuration.
   */
  function CycleLog(c: Cycle, relevant: bool): (log: seq<Message>)
    requires relevant ==> WellFormed(c)
    ensures |log| <= 1
    ensures !relevant ==> log == []
    ensures relevant && Rejection(c).Some? ==> log == [Skipped(c.run, c.number, Rejection(c).value)]
    ensures relevant && Rejection(c).None? ==> (log != [] <==> AbnormalValves(c))
  {
    if !relevant then []
    else match Rejection(c)
      case Some(reason) => [Skipped(c.run, c.number, reason)]
      case None => if AbnormalValves(c) then [AbnormalValveConfiguration(c.run, c.number)] else []
  }
}
