# UCN transmission analysis — a Dafny model of its data reduction

This project models the bookkeeping and arithmetic of the 2018 ultracold-neutron
(UCN) transmission analysis: the quality filter that decides which measurement
cycles are used, the per-experiment accumulator that an accepted cycle is
appended to, the background subtraction and normalization of detector counts
with error propagation, the Poisson background rate, the chi-square inflation of
fit errors, the scalar steps of the analysis of one experiment, and the ratio of
the transmissions of two experiments.

Files and modules:

- `wrappers.dfy` (`Wrappers`): `Option`, `Result` and the Python exceptions the
  modelled code raises (`ZeroDivisionError`, the `math.sqrt` domain error, the
  out-of-range error of the vapor-pressure formula, `KeyError`, `ValueError`).
- `numerics.dfy` (`Numerics`): `sum`, `min`, `max`, `numpy.mean` and the
  population variance (`numpy.std` squared) over reals.
- `ucn.dfy` (`UCN`): the detector background table, background subtraction and
  normalization (per count and per second), the background rate, and the range
  guard and zero case of the 4He vapor-pressure conversion.
- `cycles.dfy` (`Cycles`): a cycle record, the ordered chain of rejection
  checks, the window hit counts, the record an accepted cycle contributes, and
  the sequence of cycles each experiment accepts.
- `experiments.dfy` (`Experiments`): the experiment accumulator as a class, the
  imperative pass over all cycles (`ReadCycles`), and the analysis of one
  experiment (`Transmission`, with the method `Analyze` that stores its results).
- `normalize.dfy` (`CrossNormalize`): the lookup of two experiments by identifier
  prefix and the ratio of their transmissions with its error.

Modelling conventions:

- Floating point is modelled as exact `real` arithmetic.
- Every standard error of the source is carried as its square (a variance), so
  no square root appears in the model. A source error `err` is `sqrt(variance)`.
  For example, `normalizationerr = sqrt(c)` becomes the variance `c`, and
  `numpy.std(beam)` becomes the population variance of `beam`.
- Python exceptions are `Failure` values of a `Result`. The model returns them
  where the source would raise.
- The per-experiment dictionary of parallel lists is one sequence of per-cycle
  records (`Cycles.Entry`). Entry `i` of every list of the source is a field of
  record `i`. So all lists have the same length by construction: the number of
  accepted cycles of the experiment's runs.
- The curve fit, the root finder, the vapor-pressure formula and the Li6
  trigger time are function parameters of the operations that use them.

## Model

| member | source | states |
|---|---|---|
| `UCN.DetectorBackground` | UCN.py:6 | the fixed background table: Li6 (2.16 ± 0.03)/s, He3 (0.0403 ± 0.0017)/s |
| `UCN.Subtracted` | UCN.py:61 | a non-positive raw count gives exactly 0; a positive count minus the result is the background rate times the duration |
| `UCN.SubtractedVariance` | UCN.py:62 | a non-positive count has variance exactly 0; a positive count has a strictly positive variance |
| `UCN.Normalized` | UCN.py:64 | the quotient times the normalization gives back the subtracted count; a zero count stays zero |
| `UCN.NormalizedVariance` | UCN.py:65 | the squared error times m² equals the count's variance plus the normalization's variance times the quotient squared (first-order propagation); non-negative for non-negative inputs |
| `UCN.NormalizedValues` | UCN.py:64 | one value per zipped element; zero for a non-positive count; otherwise value × m + rate × duration = count |
| `UCN.NormalizedVariances` | UCN.py:65 | one squared error per zipped element; zero for a non-positive count; otherwise the first-order propagation identity |
| `UCN.SubtractBackgroundAndNormalize` | UCN.py:60-67 | fails with ZeroDivisionError exactly when a normalization inside the zip length is 0; output lengths are the shortest input length (zip truncation); non-positive counts give value 0 and error 0 |
| `UCN.NormalizationPropagatesErrors` | UCN.py:61-65 | for each element: value × m + background × duration = count (for count > 0), and the squared error is the propagated variance of count, background rate and normalization |
| `UCN.ElementDependsOnlyOnItsIndex` | UCN.py:61-65 | element i of the value and error lists depends only on the inputs at index i |
| `UCN.PerSecondVariance` | UCN.py:72 | the squared error divided by the squared duration: result × d² = input; zero stays zero |
| `UCN.PerSecond` | UCN.py:72 | each value times its duration gives back the per-count value; each squared error is divided by the squared duration |
| `UCN.SubtractBackgroundAndNormalizeRate` | UCN.py:70-72 | fails exactly when the per-count step fails or a duration inside the output length is 0; otherwise it is the per-count result with each value and error divided by that element's duration |
| `UCN.RateOfNonPositiveCountIsZero` | UCN.py:60-72 | a non-positive raw count gives a rate of exactly 0 with an error of exactly 0 |
| `UCN.BackgroundRate` | UCN.py:75-78 | fails with ZeroDivisionError when the durations sum to 0 and with a domain error when the counts sum below 0; otherwise rate × Σd = Σc and error² × (Σd)² = Σc |
| `UCN.BackgroundRateExamples` | UCN.py:75-78 | ([0],[10]) gives (0, 0) and ([100],[10]) gives (10, 1) |
| `UCN.HeVaporPressure` | UCN.py:10-23 | fails exactly when T < 0.66 or T > 5.2; inside the range it is the formula's value |
| `UCN.HeTemperature` | UCN.py:27-30 | P = 0 gives exactly 0 without the root finder; any other P is the root finder's result |
| `Cycles.Rejection` | transmission.py:61-88 | the reason returned fails its check and every earlier check passes; no reason means every check passes |
| `Cycles.SteadyBeamPassesBeamChecks` | transmission.py:61-67 | a constant beam current of at least 0.1 passes both beam checks, so any rejection comes from a later check |
| `Cycles.ValvesDoNotReject` | transmission.py:90-91 | changing the valve states never changes the rejection decision |
| `Cycles.KeptCycleBounds` | transmission.py:62-88 | a kept cycle has a background period of at least 0.1 s, at least 300 monitor counts and a minimum beam current of at least 0.1 |
| `Cycles.CountInWindow` | transmission.py:127 | the count is at most the number of hits and is 0 for an empty window |
| `Cycles.CountInWindowIsCardinality` | transmission.py:127-130 | the count is the number of hit indices strictly inside the open window |
| `Cycles.CountInWindowAppend` | transmission.py:130 | the count over two concatenated hit lists is the sum of the counts |
| `Cycles.CycleLength` | transmission.py:110 | the histogram length is the floor of beam-on plus beam-off duration |
| `Cycles.VaporPressureRange` | transmission.py:102-107 | PG9H's min and max when PG9L reached 2, otherwise PG9L's; the min never exceeds the max |
| `Cycles.ScmCurrents` | transmission.py:108 | each current times the 250 µΩ shunt gives back its voltage |
| `Cycles.MinTemperature` | transmission.py:100 | the smallest of the minima of TS11, TS12 and TS14: equal to one of them and at most each |
| `Cycles.MaxTemperature` | transmission.py:101 | the largest of the maxima of TS11, TS12 and TS14: equal to one of them and at least each |
| `Cycles.TemperatureRange` | transmission.py:100-101 | the recorded minimum temperature never exceeds the recorded maximum |
| `Cycles.Li6Window` | transmission.py:125-126 | the window is 10 s long; its start, the trigger time, lies 60 s before the low edge of the first Li6 histogram bin above 10 hits |
| `Cycles.Li6WindowCount` | transmission.py:127 | the number of Li6 hits strictly inside (d[0] + edge − 60, d[0] + edge − 50), edge being that bin edge |
| `Cycles.MonitorWindowCount` | transmission.py:129-130 | the number of He3 hits strictly inside (d[0] − 10, d[0]) |
| `Cycles.Extract` | transmission.py:97-135 | the record of one cycle: counts and durations of periods 0, 1 and 10, the Li6 window (edge − 60, edge − 50) and the monitor window with their counts and durations 10, the pressure range, and min temperature ≤ max temperature |
| `Cycles.KeptCycleIsAdmissible` | transmission.py:62-88 | the record of a kept cycle has a positive background duration, at least 300 monitor counts and beam current at least 0.1 |
| `Cycles.AcceptedInto` | transmission.py:50-95 | exactly the cycles of the experiment's runs that pass every check, in input order |
| `Cycles.AcceptedIntoAppend` | transmission.py:50-95 | accepting from concatenated cycle lists concatenates the accepted cycles |
| `Cycles.AcceptedIntoSnoc` | transmission.py:50-95 | one more cycle is appended exactly when its run is listed and it passes every check |
| `Cycles.SkippedCycleAddsNothing` | transmission.py:53-88 | a cycle of an unlisted run or a rejected cycle adds nothing to an experiment |
| `Cycles.ExtractAll` | transmission.py:93-135 | one record per accepted cycle, in order |
| `Cycles.AcceptedEntriesAdmissible` | transmission.py:93-135 | every record an experiment accepts is admissible |
| `Cycles.ExtractAllSnoc` | transmission.py:93-135 | one more accepted cycle appends exactly its own record |
| `Cycles.Channels` | transmission.py:137-138 | the channel histogram contains the channel tags of each accepted cycle; `Cycles.ChannelsSnoc` makes the multiplicities exact |
| `Cycles.ChannelsSnoc` | transmission.py:137-138 | one more accepted cycle adds exactly its channel tags |
| `Cycles.AbnormalValves` | transmission.py:90 | needs only the readings the short-circuiting test reaches; the configuration is normal exactly when valve 0 has two readings 1, 1 and valve 1 has two readings 0, 1 |
| `Cycles.FirstAbnormalReadingDecides` | transmission.py:90 | a first valve-0 reading other than 1 gives the warning with no further reading needed |
| `Cycles.CycleLog` | transmission.py:53-91 | nothing for an unused cycle; the first failing check for a rejected cycle; a valve warning for a kept cycle exactly when its valves are abnormal |
| `Experiments.Experiment.constructor` | transmission.py:14-47 | a new experiment with empty lists, an empty channel histogram and no results |
| `Experiments.Experiment.Reset` | transmission.py:14-47 | empties every per-cycle list and the channel histogram and keeps the stored results |
| `Experiments.Experiment.Append` | transmission.py:97-138 | appends exactly one record and the cycle's channels; results unchanged |
| `Experiments.Distribute` | transmission.py:93-138 | each experiment listing the run gains exactly one record, every other experiment is unchanged |
| `Experiments.LogOf` | transmission.py:50-91 | at most one log message per cycle |
| `Experiments.RecordedSnoc` | transmission.py:93-138 | one more cycle extends an experiment's records and channels by exactly what it admits |
| `Experiments.ReadCycle` | transmission.py:50-138 | after one cycle every experiment still holds exactly the records of its accepted cycles; the cycle's log is its skip reason or valve warning |
| `Experiments.ResetAll` | transmission.py:14-47 | every experiment starts with empty lists; results unchanged |
| `Experiments.ReadPass` | transmission.py:8-138 | every experiment holds exactly the records of its accepted cycles in input order, as many as it accepted; results unchanged; the log is the per-cycle log |
| `Experiments.CountRead` | transmission.py:140 | ValueError exactly when there are no experiments; otherwise the total number of records over all experiments |
| `Experiments.ReadCycles` | transmission.py:8-140 | the pass's records, results and log, then the closing count: ValueError exactly for an empty experiment list, otherwise the number of records over all experiments, a cycle accepted by two experiments counting twice |
| `Experiments.ForeignCycleChangesNothing` | transmission.py:53-54 | a cycle whose run no experiment lists changes no experiment and logs nothing |
| `Experiments.ScaledFitError` | transmission.py:183 | ZeroDivisionError exactly when ndf = 0; unchanged when chi2/ndf ≤ 1; error × chi2/ndf otherwise; never below a non-negative raw error |
| `Experiments.Inflation` | transmission.py:183 | the factor max(chi2/ndf, 1) keeps the error when chi2 ≤ ndf, gives error × chi2/ndf above, and never lowers a non-negative error |
| `Experiments.BeamMean` | transmission.py:152 | the mean beam current of a kept cycle is at least 0.1, so it can be divided by |
| `Experiments.BeamVariance` | transmission.py:152 | the squared beam-current spread is non-negative |
| `Experiments.BeamMeans` | transmission.py:152 | one mean per cycle, each at least 0.1 |
| `Experiments.BeamVariances` | transmission.py:152 | one squared spread per cycle, each non-negative |
| `Experiments.BeamStatisticsPerCycle` | transmission.py:152 | entry i of the beam means is `numpy.mean` of cycle i's beam current, and entry i of the beam variances is its `numpy.std` squared |
| `Experiments.Li6BackgroundRate` | transmission.py:150 | fails exactly when the background durations sum to 0; otherwise rate × Σ durations = Σ counts and error² × (Σ durations)² = Σ counts |
| `Experiments.Li6BackgroundRateSucceeds` | transmission.py:150 | with at least one accepted cycle the background rate exists, and rate × Σ durations = Σ counts |
| `UCN.RateRecoversCount` | UCN.py:60-72 | a positive count is recovered from its rate: rate × duration × normalization + background rate × duration = count; a non-positive count has rate 0 |
| `Experiments.IrradiationRatePerBeamCurrent` | transmission.py:151-152 | one rate per cycle; a positive irradiation count is rate × duration × the cycle's mean beam current + the Li6 background rate × duration; a zero count has rate 0 |
| `Experiments.IrradiationRateFailsOnZeroDuration` | transmission.py:151-152 | the irradiation rate raises ZeroDivisionError exactly when some irradiation period has zero length; otherwise it has one value per cycle |
| `Experiments.CountingRatios` | transmission.py:169 | fails exactly when some monitor count is 0; otherwise one value and one error per cycle |
| `Experiments.CountingRatiosSucceed` | transmission.py:169 | the counting-window ratios exist for every accepted cycle, one value and one error each |
| `Experiments.CountingRatiosRecoverCounts` | transmission.py:169 | ratio × monitor count + the Li6 background rate × counting duration = Li6 count for a positive count; ratio and error 0 for a zero count |
| `Experiments.IrradiationRatios` | transmission.py:188 | fails exactly when some monitor-window count is 0; otherwise one value and one error per cycle |
| `Experiments.IrradiationRatiosRecoverCounts` | transmission.py:188 | ratio × monitor-window count + the Li6 background rate × window duration = Li6 window count for a positive count; ratio and error 0 for a zero count |
| `Experiments.MonitorWindowsFilled` | transmission.py:186 | true exactly when every monitor-window count is positive, that is the smallest is above 0 |
| `Experiments.IrradiationRatiosSucceedIffFilled` | transmission.py:186-188 | the irradiation-window ratios exist exactly when the smallest monitor-window count is positive |
| `Experiments.WindowStage` | transmission.py:186-201 | changes only the irradiation transmission and its error; leaves the results as they were when some monitor window is empty; a completed stage with every window filled stores both |
| `Experiments.CountingStage` | transmission.py:169-201 | keeps both stored rates; a completed stage stores the counting transmission and its error; it changes the irradiation transmission only when every monitor window holds a count |
| `Experiments.Transmission` | transmission.py:143-202 | no cycles: nothing stored; otherwise the stored background rate is `Li6BackgroundRate`; a zero irradiation duration raises before the irradiation rate or a transmission is stored; the irradiation transmission is stored only when every monitor window holds a count |
| `Experiments.StoredRatesAreComputedRates` | transmission.py:150-152 | a completed analysis stores `Li6BackgroundRate` and `IrradiationRate` of its records |
| `Experiments.StoredTransmissionIsCountingFit` | transmission.py:169-183 | a completed analysis stores the constant fitted to the counting ratios and that fit's error inflated by max(chi2/ndf, 1); the fit had ndf > 0 |
| `Experiments.StoredTransmission2IsWindowFit` | transmission.py:186-201 | with every monitor window filled, a completed analysis stores the constant fitted to the irradiation-window ratios and its inflated error; otherwise both are left as they were |
| `Experiments.Analyze` | transmission.py:143-202 | stores exactly what Transmission computes and leaves the per-cycle lists unchanged |
| `CrossNormalize.FindByPrefix` | transmission.py:320-321 | the first experiment whose identifier starts with the prefix; none exactly when no identifier does |
| `CrossNormalize.RelativeVariance` | transmission.py:327 | (err/value)²: result × value² = err², non-negative |
| `CrossNormalize.QuadratureVariance` | transmission.py:327 | the sum of relative variances times the scale squared is non-negative |
| `CrossNormalize.FirstError` | transmission.py:326-331 | a missing result or a zero transmission gives KeyError or ZeroDivisionError |
| `CrossNormalize.FirstErrorOrder` | transmission.py:326 | a missing transmission is a KeyError even when the reference's is 0; with both present, a zero reference transmission is a ZeroDivisionError |
| `CrossNormalize.RatiosAsWritten` | transmission.py:326-331 | both ratios times the reference's transmission give the target's; the irradiation error is scaled by the counting ratio |
| `CrossNormalize.NormalizeAsWritten` | transmission.py:319-331 | a missing experiment gives the pair (0, 0); missing results raise; otherwise the ratios as written |
| `CrossNormalize.UnpackFour` | transmission.py:460 | unpacking the pair into four names raises ValueError |
| `CrossNormalize.TransmissionRatios` | transmission.py:326-331 | both ratios times the reference's transmission give the target's; each squared error is its relative variances in quadrature times its own ratio squared |
| `CrossNormalize.Normalize` | transmission.py:319-331 | a missing experiment gives four zeros; missing results or a zero transmission raise; otherwise the transmission ratios |
| `CrossNormalize.PresentResultsFailOnlyOnZero` | transmission.py:326-331 | when all results are present, only a zero transmission makes Normalize raise |
| `CrossNormalize.SelfNormalizationIsOne` | transmission.py:326-331 | an experiment over itself has ratio 1 and twice its relative squared error |
| `CrossNormalize.SwapInvertsRatio` | transmission.py:326-330 | swapping the experiments inverts both ratios |
| `CrossNormalize.SwapKeepsRelativeError` | transmission.py:326-327 | swapping the experiments keeps the relative error of the counting ratio |
| `CrossNormalize.IrradiationErrorScaledByCountingRatio` | transmission.py:331 | as written, counting ratio 2 and irradiation ratio 1 give the irradiation ratio a squared error of 0.08 instead of 0.02 |
| `CrossNormalize.CorrectedIrradiationError` | transmission.py:331 | corrected, the same experiments give the irradiation ratio the squared error 0.02 |
| `CrossNormalize.MissingReferenceBreaksUnpacking` | transmission.py:322-323 | as written, a missing reference returns a pair, and the four-name unpacking raises ValueError |
| `CrossNormalize.CorrectedMissingReference` | transmission.py:322-323 | corrected, a missing reference gives four zeros |

## Findings

| source | as written | input that shows it | evidently intended | confidence | as-written member | corrected member |
|---|---|---|---|---|---|---|
| transmission.py:331 | the irradiation ratio's error is scaled by the counting ratio `transmission` | target (2 ± 0.2, 1 ± 0.1), reference (1 ± 0.1, 1 ± 0.1): irradiation error² 0.08 | scale by the irradiation ratio `transmission2`, giving error² 0.02 | high, not executed | `CrossNormalize.IrradiationErrorScaledByCountingRatio` | `CrossNormalize.CorrectedIrradiationError` |
| transmission.py:322-323 | a missing experiment returns the pair `(0., 0.)` | target "18-065_25A" present, reference "18-065_0A" absent: the unpacking at transmission.py:460 raises ValueError | return four zeros, matching the four values returned otherwise | medium, not executed; latent, because the shipped run table at transmission.py:382 and transmission.py:392 lists both '18-065_0A' and '18-265_0A', so no shipped call takes this path | `CrossNormalize.MissingReferenceBreaksUnpacking` | `CrossNormalize.CorrectedMissingReference` |

## Left out

- ROOT histograms and graphs (`TH1D` Fill/Add/Rebin/Divide/Sumw2, `TGraphErrors`, canvases, PDF pages) are not modelled. A per-cycle rate histogram is a descriptor: bin count, range and the hit times it was filled with. The channel histogram is the multiset of channel tags, so ROOT's overflow bins are not modelled.
- The normalized time-of-flight spectra (`Li6rate_normalized`, `Li6rate_normalized2`), the combined rate histograms, the rate-ratio histogram, and the spectrum divisions in `Normalize` are not modelled, because they are histogram arithmetic done by ROOT.
- The curve fits (`graph.Fit`, the saturation and Li6 decay fits, and the exponential fit factories in UCN.py) are not modelled. The constant fit is a parameter returning value, error, chi2 and ndf. Only the chi2/ndf inflation is modelled.
- The vapor-pressure formula body and the `brentq` inversion are parameters, because they are floating-point transcendental numerics.
- The low edge of the first Li6 rate-histogram bin above 10 hits (`GetBinLowEdge(FindFirstBinAbove(10))`) is a parameter `firstBinEdge` of type `Cycle -> real`, because it depends on ROOT's binning conventions. The trigger time is that edge minus 60 s.
- File reading, `sys.argv`, the experiment/run table, the batch of `Normalize` calls and the SCM-current graph loop are I/O and configuration.
- Log output is a list of messages (`Cycles.Message`). The measured values printed in the skip messages are not modelled, so a division by a zero duration inside the message text is not captured.
- The reporting prints of `Transmission` (weighted monitor average, beam-current range, temperature range) and `PrintTemperatureVsCycle`, `PrintBackground` and `PrintMonitorCounts` are reporting only. The closing "Read N cycles" line of `ReadCycles` is modelled by its count, including the ValueError on an empty experiment list, but not as a printed message.
- The lists `he3background`, `he3irradiation`, `productionrate` and `productionrateerr` are created by `ReadCycles` but never filled, so they are not modelled.
- `Experiments.ReadCycles` requires the experiment objects to be distinct. The same dictionary listed twice would receive each record twice.
- `Experiments.ReadCycles` requires every cycle of a listed run to be well formed (`Cycles.WellFormed`): each check that is reached finds its readings, and a kept cycle has every reading the extraction takes, PG9H only when PG9L reached 2, and each valve reading only when the short-circuiting valve test reaches it. Where a required reading is missing the source would raise IndexError or ValueError, and that raise is not modelled.
- `Experiments.Transmission` returns a `Raised` status where the source's exception would end the whole program.
- Detector counts are natural numbers in the cycle record. The per-element operations of UCN.py take real counts, because the source calls them with integers and floats alike.
