# log_gateway: the BGP detection engine, verified

A Dafny 4.11 model of the parts of log_gateway that decide something: route origin
validation, the online statistics behind the baselines, the propagation pipeline from
collector arrivals to wave scores, the stateful detectors, and the time-windowed limiters
and bounded buffers around them. `dafny verify dfyconfig.toml` checks the whole project.

| file | models |
|---|---|
| `Wrappers.dfy`, `Reals.dfy`, `Seqs.dfy`, `Sorting.dfy` | options and machine words; shared arithmetic; sequences up to reordering; the orders the gateway sorts by |
| `PathHash.dfy` | the wrapping polynomial hash of an AS path, computed in four places |
| `Rpki.dfy` | the VRP index, the longest-first walk, and section 2 of RFC 6811 |
| `Propagation.dfy` | propagation events and the ten-second aggregator |
| `Archive.dfy` | the two archive tools that build events from MRT records |
| `SpreadStats.dfy`, `WaveBaseline.dfy` | one-pass and two-pass statistics, percentiles, the baseline builder and its lookup |
| `WaveScore.dfy`, `Backtest.dfy` | the five-signal score, the backtest, and how offline and live data meet |
| `Ewma.dfy` | exponentially weighted baselines and the confidence boost |
| `Flapping.dfy`, `Hijack.dfy`, `Runner.dfy` | the two detectors, the entry points that share the hijack detector, and the runner |
| `Quota.dfy`, `Escalation.dfy`, `BoundedQueue.dfy` | quotas, fingerprints and deduplicated routing, bounded buffers |

Conventions. Floating point is modelled by `real`; the infinities an accumulator starts at
are an explicit datatype, and the square root is a parameter, so nothing depends on it. Clocks
are parameters of the steps. A concurrent or time-limited map is a `map`, an entry living for
its time to live from insertion. Iteration over an unordered map is a nondeterministic choice.
The outcomes of parsers, of the alert store and of network sends are parameters; parsing a
prefix and printing it again is one function parameter, `canon`. The collector distance is an
arbitrary partial function. SHA-256 is an arbitrary function of the string that is hashed.

## What the proofs found

Each of these is a theorem in the table below; the model follows the code.

- The comment on `path_hash` (`src/wave_baseline.rs:209-211`) promises that a live lookup
  matches what the offline builder produced. The archive tools put the origin alone in place
  of the path, so a live path finds an offline entry exactly when the hash of its transit hops
  is zero; a path of up to eight hops with any real transit AS never does, and one more hop is
  enough to make it possible. So against an offline baseline the runner counts no wave anomaly
  for such paths, whatever it is fed.
- The backtest comments (`tools/backtest/src/main.rs:335-340`) expect an attack to be scored
  against the legitimate origin's entry. The lookup uses the hijacker's origin, so without an
  entry for (prefix, hijacker) nothing is ever detected; with one, for thresholds up to 0.7 (0.3
  if the entry has no deviation), some records are.
- Events the backtest reports as excluded from the false-positive rate
  (`tools/backtest/src/main.rs:381-384`) are counted in its denominator, which changes the rate
  unless there are none of them or nothing was flagged.
- The leakage check (`tools/backtest/src/main.rs:251-265`) compares whole seconds, so it lets
  data through when the incident starts inside the cutoff's own second.
- The speed signal (`src/wave_anomaly_detector.rs:225-251`) is described as firing on
  implausibly small spreads. It is full exactly when the spread is plausible and vanishes as
  the arrivals become simultaneous.
- `AnomalyDetector::check` (`src/anomaly_detector.rs:416-432`) folds a path length into the
  baseline before asking whether it is anomalous. With a smoothing factor of a tenth, the
  default, the answer is always no, and the +0.1 of the confidence boost is dead.
- Enrichment of a record that its handler has already checked can only produce 0.60 or 0.75;
  the 0.3 and 0.90 of `check_with_rpki_status` are unreachable through the entry points. (A
  0.90 does occur, but only as the boosted confidence of the HTTP check itself.)
- An auto-escalated alert is suppressed as a duplicate for thirty minutes after the alert it
  escalates was accepted, whatever the timeout; the table has the exact condition under which
  one gets through.
- The runner returns before feeding the aggregator when RPKI calls an announcement valid
  (`src/detector_runner.rs:373-376`), so such routes are never observed as waves.
- The walk stops at the first VRP with the origin's ASN, so a too-short more specific VRP can
  hide a longer one that RFC 6811 would match; the exact condition is proved.
- The sliding-window quota (`src/quota_manager.rs:17`) is a fixed window anchored at its first
  request: a short interval can admit one less than twice the limit, and threads that fetch a
  counter early and increment it late can admit any multiple of the limit at one instant.
- `QuotaResult` calls usage at one hundred percent exceeded; the code still only warns there.
- `flush` (`src/sink.rs:87`) is described as flushing all buffered records; it takes one batch,
  and so does the flush on shutdown.

## Model

| member | source | states |
|---|---|---|
| PathHash.HashAppend | src/wave_baseline.rs:212-216 | the hash composes: hash(p ++ q) is hash(p) * 31^length(q) + hash(q) modulo 2^64, for all paths |
| PathHash.OneHopNeverCollides | src/propagation.rs:18-22 | two paths of one length, however long, that differ in exactly one hop have different hashes |
| PathHash.TwoHopsCanCollide | src/wave_anomaly_detector.rs:175-179 | the previous fact stops there: paths differing in two hops, or in length, can collide |
| PathHash.ShortPathsDoNotWrap | src/propagation.rs:18-22 | up to seven hops the wrapping fold is the integer polynomial, so nothing is lost |
| PathHash.HashOfLastHop | src/wave_baseline.rs:209-216 | a path hashes like its last hop alone exactly when the hops before it hash to zero, which for at most seven of them means all are AS 0 |
| PathHash.EightHopsCanHashToZero | src/wave_baseline.rs:212-216 | seven is the limit: eight hops of real ASes whose hash is zero |
| Networks.KeyFits | src/rpki_cache.rs:19-22 | every index key fits the (u8, u128) it is stored in: the prefix length, and the network, an IPv4 one mapped under ::ffff |
| Networks.KeyInjective | src/rpki_cache.rs:130-133 | equal keys mean equal family, length and network, across IPv4-mapped and IPv6 addresses |
| Networks.CoversExactlyWhen | src/rpki_cache.rs:178-183 | in terms of addresses: a VRP covers a route exactly when they are of one family, its prefix is no longer, and the route's address lies in the block its network starts |
| Networks.KeyMeansCover | src/rpki_cache.rs:178-185 | looking up one candidate length finds exactly the networks of that length that cover the route |
| Rpki.DeciderIsFirstLongest | src/rpki_cache.rs:178-198 | the deciding VRP is the longest covering one with the origin's ASN, the first in the dump among equals, and there is none exactly when no covering VRP has that ASN |
| Rpki.FirstNaming | src/rpki_cache.rs:187-196 | the first entry of a network's list that names the origin, or none if no entry does |
| Rpki.RpkiCache.Load | src/rpki_cache.rs:92-145 | the table is an increasing selection of the dump that takes exactly the elements whose prefix and ASN both parse, each with its own prefix, maximum length and ASN; a failed fetch keeps it |
| Rpki.RpkiCache.Validate | src/rpki_cache.rs:151-207 | the answer is the direct scan of the table and the verdict of the loaded dump's own elements, with NotFound for an unparsable prefix and Unavailable for a held lock or a table with nothing in it |
| Rpki.ScanIsVerdictOfDump | src/rpki_cache.rs:106-205 | what each of the five answers says about the elements of the dump: the first longest that covers the route and names the origin decides by its own maximum length, else InvalidAsn if any covers and NotFound if none does |
| Rfc6811.NotFoundIffRfcNotFound | src/rpki_cache.rs:200-206 | the code says NotFound exactly when section 2 of RFC 6811 does, and for a real origin its Valid is the RFC's Valid |
| Rfc6811.AgreesExactlyWhen | src/rpki_cache.rs:187-196 | for every table, route and origin, AS 0 included, the exact condition under which the code and RFC 6811 agree |
| Rfc6811.AgreesWhenVerdictsShared | src/rpki_cache.rs:178-198 | they agree whenever the origin's covering VRPs share one length verdict |
| Rfc6811.MoreSpecificVrpHidesMatch | src/rpki_cache.rs:189-194 | a concrete table where the code says InvalidLength and RFC 6811 says Valid |
| Sorting.StableSortSorted | src/propagation.rs:77-82 | a stable sort by time of keys in BTreeMap order is sorted by (time, id) |
| Sorting.LessMeans | src/propagation.rs:60-64 | that order of the keys: a proper prefix first, else the smaller character where two keys first differ |
| Propagation.EventShape | src/propagation.rs:57-94 | every event has the prefix, origin, path and arrivals it was made of; its order is a permutation of its collectors sorted by (time, id), its ends realise the first and last arrival, all arrivals lie between, and the spread is non-negative |
| Aggregator.EveryArrivalIsAccountedFor | src/propagation.rs:119-184 | over every run of adds and flushes each arrival is in exactly one of a pending group, an emitted event, the arrivals replaced by a later one, or the groups dropped for an unparsable prefix |
| Aggregator.LastReportWins | src/propagation.rs:122-149 | in every run a pending group and an emitted event hold, for exactly the collectors that reported since the group was opened, the timestamp of the last such report; what was overwritten was followed by a later report, and nothing is discarded unless its prefix does not parse |
| Aggregator.NothingLeavesEarly | src/propagation.rs:137-149 | in every run no event leaves less than ten seconds after a record of its group with its very path opened the group, and its path hashes to its group's key |
| Aggregator.ArrivalsFallInTheWindow | src/propagation.rs:119-149 | with a nondecreasing clock every arrival of an event was brought by a record of its group between the opening of the group and the leaving of the event |
| Aggregator.PropagationAggregator.AddRecord | src/propagation.rs:119-152 | one add inserts the arrival; the group leaves exactly when ten seconds have elapsed since it was opened, and its event is returned exactly if its prefix parses |
| Aggregator.PropagationAggregator.CloseGroup | src/propagation.rs:140-149 | takes one group out and makes its event, or drops it if its prefix does not parse |
| Aggregator.PropagationAggregator.FlushExpired | src/propagation.rs:156-184 | a flush closes exactly the expired groups, each once, in any order, and leaves none expired at that instant |
| Aggregator.PropagationAggregator.ListExpired | src/propagation.rs:160-165 | lists exactly the expired groups without repetition |
| Archive.GroupRecords | tools/baseline_builder/src/main.rs:112-130 | one group per (prefix, origin, path hash), holding each reporting collector with its earliest timestamp |
| Archive.GroupsAreAnnouncements | tools/baseline_builder/src/main.rs:112-124 | a group for exactly the prefixes, origins and path hashes reported, so that different hashes are different groups, with the collectors that reported it at their earliest timestamps |
| Archive.GroupingUnique | tools/baseline_builder/src/main.rs:114-130 | the grouping is determined by the set of records, so order and repetition do not matter |
| Archive.BuilderEvents | tools/baseline_builder/src/main.rs:109-162 | exactly one event per group with enough collectors and a parsable prefix, equal to what the shared constructor gives |
| Archive.BacktestEvents | tools/backtest/src/main.rs:142-174 | the same events through the shared constructor |
| Archive.ToolsAgree | tools/backtest/src/main.rs:138-174 | for the same records in any order the two tools produce the same multiset of events |
| Archive.EventsAreQualifyingGroups | tools/baseline_builder/src/main.rs:126-160 | one event for every group with enough collectors and a parsable prefix and none for any other, holding the printed prefix, the origin, the origin alone as the path, and the group's arrivals |
| Archive.EventsAreFiledUnderTheOrigin | tools/baseline_builder/src/main.rs:147-148 | every archive event's path hashes to its origin, whatever the records' paths were |
| SpreadStats.WelfordStep | src/wave_baseline.rs:67-72 | one update keeps m2 equal to the squared deviations from the new mean |
| SpreadStats.WaveStatsAccumulator.Update | src/wave_baseline.rs:67-79 | the accumulator stays in step with the samples it was given: count, mean, deviations, minimum and maximum |
| SpreadStats.WaveStatsAccumulator.ToStats | src/wave_baseline.rs:81-93 | on every non-empty sequence the one-pass result equals the two-pass computation, field by field |
| SpreadStats.SpreadStatsMean | src/wave_baseline.rs:364-389 | the mean, the root of the mean squared deviation over all samples, the least and the greatest sample |
| SpreadStats.PercentileInBounds | src/wave_baseline.rs:343-362 | the exact condition on p under which the percentile does not index out of range |
| SpreadStats.PercentileLaws | src/wave_baseline.rs:343-362 | on sorted samples percentiles are monotone in p, lie between the ends, and hit them at 0 and 100 |
| SpreadStats.PercentileInterpolates | src/wave_baseline.rs:343-362 | at 100 * (k + t) / (n - 1) the percentile is the k-th sample plus t times the step to the next; below zero it is the first, above 100 the last if defined |
| WaveBaseline.CutoffIsLatest | src/wave_baseline.rs:283-285 | the data cutoff is the latest arrival of all fed events, or zero |
| WaveBaseline.EntryIsOrdered | src/wave_baseline.rs:305-335 | every built entry has min <= p50 <= p95 <= p99 <= max, and all of its samples lie between |
| WaveBaseline.LookupIsExact | src/wave_baseline.rs:185-194 | a lookup finds an entry exactly when the group has enough samples, and it is that group's entry |
| WaveBaseline.SpreadsAreTheGroups | src/wave_baseline.rs:265-276 | a group's samples are the spreads of exactly the events with its prefix, origin and path hash, one for each |
| WaveBaseline.LookupCountsEvents | src/wave_baseline.rs:297-304 | a lookup succeeds exactly when that many fed events have the prefix, origin and path hash, and the entry counts them |
| WaveBaseline.UnanimousOrderIsExpected | src/wave_baseline.rs:309-321 | if all events of a group agree on the order of the collectors, that is the expected order |
| WaveBaseline.FeedOrderDoesNotMatter | src/wave_baseline.rs:297-340 | reordering the feed changes no entry except in the order of collectors whose mean ranks tie |
| WaveBaseline.SameGroupsQualify | src/wave_baseline.rs:300-304 | reordering the feed changes neither which groups qualify nor the cutoff |
| WaveBaseline.BaselineBuilder.AddEvent | src/wave_baseline.rs:265-286 | the builder's maps hold, group by group, the spreads in feed order and each collector's rank sum and count |
| WaveBaseline.BaselineBuilder.Build | src/wave_baseline.rs:297-340 | one entry per group with at least min_samples events and no other, with the cutoff of the feed |
| WaveBaseline.BaselineBuilder.BuildEntry | src/wave_baseline.rs:304-336 | the entry of one group: sample count, sorted extremes and percentiles, expected order |
| WaveBaseline.ExpectedOrder | src/wave_baseline.rs:309-321 | the seen collectors, once each, by nondecreasing mean rank |
| WaveScore.FindMaxCollectorDistance | src/wave_anomaly_detector.rs:253-265 | the greatest distance between two reporting collectors, attained by a pair, or zero |
| WaveScore.CalculateGapRatio | src/wave_anomaly_detector.rs:181-195 | the share of neighbouring arrivals more than four milliseconds apart |
| WaveScore.ScoreEvent | src/wave_anomaly_detector.rs:106-120 | an event without an entry of its own prefix, origin and path hash scores zero, any other gets that entry's weighed signals |
| WaveScore.SignalsAreUnits | src/wave_anomaly_detector.rs:127-143 | all five signals of every event lie in [0, 1] |
| WaveScore.ScoreIsSound | src/wave_anomaly_detector.rs:144-159 | with the default weights the cap never changes a total; with any weights the reported score is normal below 0.3, suspicious below 0.6 and anomalous from there |
| WaveScore.DefaultTotal | src/wave_anomaly_detector.rs:63-73 | the default weights: 0.4, 0.3, 0.15, 0.1 and 0.05 |
| WaveScore.SpreadSignalMeans | src/wave_anomaly_detector.rs:127-131 | the distance from the median in units of three deviations, cut off at one; zero without deviation |
| WaveScore.OutlierSignalMeans | src/wave_anomaly_detector.rs:132-136 | one exactly above the 99th percentile |
| WaveScore.GapSignalMeans | src/wave_anomaly_detector.rs:181-195 | the share of neighbours in the event's order more than four milliseconds apart |
| WaveScore.OrderSignalMeans | src/wave_anomaly_detector.rs:209-223 | one exactly if the first three and the first three expected share no collector, zero exactly if one is contained in the other, each shared one taking off its part of the smaller |
| WaveScore.SpeedSignalMeans | src/wave_anomaly_detector.rs:240-251 | the spread over the time light needs at 200 km per millisecond, cut off at one |
| WaveScore.SpreadSignalLaws | src/wave_anomaly_detector.rs:127-135 | the spread signal is symmetric about the median and grows with the distance from it |
| WaveScore.TotalGrowsAboveMedian | src/wave_anomaly_detector.rs:122-160 | with the arrivals fixed and non-negative weights the total never falls as the spread grows from the median on |
| WaveScore.TotalFavoursLateArrivals | src/wave_anomaly_detector.rs:128-159 | for any non-negative weights a spread mirrored below the median never scores higher, with the exact condition on p50, p99, the distance, the collectors and the weights under which it scores the same |
| WaveScore.DefaultTotalFavoursLateArrivals | src/wave_anomaly_detector.rs:63-73 | with the default weights, the same exactly when p99 does not separate the two spreads and the speed signal does not tell them apart |
| WaveScore.SpeedsAgreeExactlyWhen | src/wave_anomaly_detector.rs:240-251 | when that is: fewer than two collectors, no distance, no deviation, both spreads plausible, or both not positive |
| WaveScore.SpeedSignalRewardsPlausibleSpreads | src/wave_anomaly_detector.rs:240-251 | the speed signal is one exactly when the spread reaches the light minimum and zero exactly when there is no spread |
| WaveScore.NoGapsMeansTightSpread | src/wave_anomaly_detector.rs:187-194 | an event with a zero gap signal spans at most four milliseconds per neighbouring pair |
| Backtest.RunCase | tools/backtest/src/main.rs:324-361 | the loop's counters and latency are those of one verdict per event |
| Backtest.ReportMeans | tools/backtest/src/main.rs:324-361 | each counter is the number of events in its cell of the ground truth and the threshold, the excluded ones are those without an attack that scored zero, and the latency is the least delay after the start of a detected attack |
| Backtest.RateMeans | tools/backtest/src/main.rs:186-202 | a rate is hits over hits and misses, zero without any |
| Backtest.CountersSplitTheEvents | tools/backtest/src/main.rs:348-384 | the four counters partition the events, hits and misses are exactly the attacks, the events reported as excluded are among the true negatives, and leaving them out changes the false-positive rate exactly if there are any and something was flagged |
| Backtest.HijackerNeedsABaseline | tools/backtest/src/main.rs:333-346 | with a positive threshold and no entry for (prefix, hijacker) the true-positive rate is zero for every set of records |
| Backtest.SomeRecordsAreDetected | tools/backtest/src/main.rs:333-356 | with such an entry and a threshold within reach there are records that every run of the case detects, whatever the collectors' distances |
| Backtest.DetectableExactlyWhen | tools/backtest/src/main.rs:333-356 | for positive thresholds up to 0.7 (0.3 against an entry without deviation) some records are detected exactly when the baseline has an entry for (prefix, hijacker), the prefix is canonical and the window is not empty |
| Backtest.LeakageCheckIsSound | tools/backtest/src/main.rs:244-265 | the check accepts exactly the baselines built from earlier data unless the start falls inside the cutoff's own second; with a start on a whole second acceptance always means earlier data; a zero cutoff is always accepted |
| Backtest.LeakageCheckCanLeak | tools/backtest/src/main.rs:251-254 | a cutoff and a start for which the check accepts later data |
| Backtest.LiveLookupOfOfflineBaseline | src/wave_baseline.rs:209-216 | against an offline baseline a live path transit ++ [origin] is found exactly when the transit hash is zero and the origin's group qualified |
| Backtest.LiveTransitNeverScores | src/wave_anomaly_detector.rs:106-120 | a live event with one to seven transit hops, one of them real, always scores zero against an offline baseline |
| Backtest.LiveTransitCanMatchAtEightHops | src/wave_baseline.rs:209-216 | with eight real transit hops a live event can find an offline entry |
| Ewma.PrefixBaseline.Update | src/baseline_model.rs:35-44 | one in-place update of the average, the variance and the count |
| Ewma.BaselineModel.Update | src/baseline_model.rs:99-109 | each prefix's baseline is the state of that prefix's own history; others are untouched |
| Ewma.StateIsWeightedVariance | src/baseline_model.rs:25-44 | after any history the average is the weighted mean and the variance the weighted squared deviation from it, with explicit weights that sum to one |
| Ewma.StateStaysInBounds | src/baseline_model.rs:35-44 | the average stays within any bounds of the samples and the variance within zero and (max - ema) * (ema - min) |
| Ewma.FlaggedSamplesAreRare | src/baseline_model.rs:51-63 | the samples a history's own baseline would flag carry less than a ninth of the weight |
| Ewma.FlaggedIsZScore | src/baseline_model.rs:51-63 | flagged means, from the fifth sample on, a z-score above three in size for whichever root of the variance plus a millionth |
| Ewma.JustSeenIsFlaggedOnlyBelowATenth | src/anomaly_detector.rs:416-432 | some history flags a value just folded in exactly when the smoothing factor is below a tenth |
| Ewma.DetectorBoostIgnoresPathLength | src/baseline_model.rs:172-192 | in the detector the boost depends on prefix length and AS knowledge alone, and a hijack's confidence is one of four values |
| Ewma.BoostTable | src/baseline_model.rs:172-209 | the boost for every combination of features, and that the enhanced confidence is the sum kept between zero and one |
| Flapping.DequeIsSuffix | src/anomaly_detector.rs:280-286 | whatever the clocks do the deque is a suffix of the prefix's history |
| Flapping.DequeDropsOnce | src/anomaly_detector.rs:283-286 | with a nondecreasing clock the incremental deque is the whole history with its stale prefix dropped once |
| Flapping.DroppingIsFilteringExactlyWhen | src/anomaly_detector.rs:283-286 | dropping the stale prefix equals filtering to the window exactly when nothing stale follows something fresh |
| Flapping.FilterKeeps | src/anomaly_detector.rs:280-286 | filtering keeps the events not before the cutoff, as often as they occur, and no other |
| Flapping.DequeIsWindowExactlyWhen | src/anomaly_detector.rs:267-310 | the deque is the history filtered to the window exactly under that condition, in particular for nondecreasing timestamps, and then the alert is that of the filtered history |
| Flapping.FlappingDetector.CheckEvent | src/anomaly_detector.rs:267-331 | a check alerts exactly when the prefix's deque holds at least 50 events of which at least 6 differ in type from the one before, and touches no other prefix |
| Flapping.FlappingMeans | src/anomaly_detector.rs:294-310 | the count of changes is the number of places whose type differs from the one before |
| Flapping.CountChanges | src/anomaly_detector.rs:294-305 | the number of neighbouring events of different type |
| Hijack.HijackDetector.Check | src/anomaly_detector.rs:195-233 | learns the origin of anything but a withdrawal and alerts exactly when it was unknown |
| Hijack.HijackDetector.CheckWithRpkiStatus | src/anomaly_detector.rs:114-187 | the same learning, with the confidence of every combination of known or new origin, RPKI and IRR status |
| Hijack.KnownOriginsOnlyGrow | src/anomaly_detector.rs:204-214 | in every interleaving of the entry points the known origins of every prefix only grow |
| Hijack.EnrichmentNeverSeesANewOrigin | src/anomaly_detector.rs:582-616 | in every interleaving enrichment alerts concern known origins and proven invalidity, with 0.60, or 0.75 if the IRR disagrees; runner and HTTP alerts carry the confidence their step gives; 0.3 appears nowhere, and 0.90 only from the HTTP check |
| Hijack.EnrichedTable | src/anomaly_detector.rs:128-186 | the confidence of the enriched check for every status, origin and IRR answer |
| Hijack.KnownOriginsAreThoseShown | src/anomaly_detector.rs:201-214 | in every interleaving the known origins of a prefix are exactly those of warm-up and those shown to the detector since |
| Hijack.HttpBoostReachesNinety | src/anomaly_detector.rs:416-453 | an HTTP check alerts exactly for a new origin, with 0.90 exactly for an unusual prefix length and an AS not well known |
| Hijack.NewOriginFiresOnce | src/anomaly_detector.rs:208-214 | in every interleaving the new-origin branch has fired exactly once for each origin learned since warm-up and never for another |
| Runner.DetectorRunner.ProcessRecord | src/detector_runner.rs:345-447 | a withdrawal or an announcement RPKI calls valid leaves the aggregator alone, any other announcement is added; the hijack detector is consulted without a cache or on proven invalidity only; and which of flap, hijack and wave anomalies are counted |
| Runner.DetectorRunner.ScorePropagationEvent | src/detector_runner.rs:449-461 | an event is scored only with a wave detector attached, and counted exactly when it is not normal |
| Runner.DetectorRunner.FlushPropagationEvents | src/detector_runner.rs:502-509 | nothing without a wave detector, else every expired group is closed and its event scored |
| Runner.DetectorRunner.OfflineBaselineNeverCounts | src/detector_runner.rs:441-461 | against an offline baseline no run counts a wave anomaly if every announcement fed has one to seven transit hops with a real AS among them |
| Runner.EmissionHasFedPath | src/propagation.rs:125-149 | every emitted event has the path and origin of an announcement that was fed |
| Runner.DetectorRunner.CheckHijack | src/detector_runner.rs:364-434 | the hijack detector is consulted without an RPKI cache, or for an announcement the cache proves invalid |
| Runner.ValidRoutesAreNeverObserved | src/detector_runner.rs:372-376 | in every run each arrival in each emitted event was brought by an announcement RPKI did not call valid |
| Quota.ClassifyMeans | src/quota_manager.rs:45-55 | in whole numbers: exceeded exactly above the limit, a warning exactly from four fifths of it up to the limit itself |
| Quota.EachCounterAdmitsItsLimit | src/quota_manager.rs:36-56 | in every interleaving of fetches and increments each counter admits exactly the smaller of its requests and the limit, with warnings exactly in their band |
| Quota.AdmittedPerCounter | src/quota_manager.rs:36-56 | in every interleaving and every interval, one tenant is admitted at most its limit times the number of its counters incremented in it |
| Quota.SlowThreadsPileUp | src/quota_manager.rs:38-43 | that bound is reached at one instant for every positive limit and every number of counters, on a nondecreasing clock |
| Quota.ShortIntervalsAdmitLessThanTwice | src/quota_manager.rs:26-43 | one request at a time, any interval under a second admits at most twice the limit less one |
| Quota.TheBoundIsTight | src/quota_manager.rs:28-30 | that bound is reached for every positive limit |
| Quota.OneAtATimeIsTheWindow | src/quota_manager.rs:36-56 | used by one request at a time the interleaved machine is the plain window: the same live counters and the same verdicts for every tenant |
| Quota.QuotaManager.CheckAndIncrement | src/quota_manager.rs:36-56 | each tenant's verdict is that of its own requests, rejected ones included |
| Fingerprints.DecimalRoundTrip | src/alert_dedup.rs:18 | the decimal text of an origin determines it |
| Fingerprints.InputIsInjective | src/alert_dedup.rs:17-18 | two alerts hash the same string exactly when origin and joined type and prefix agree; for types without a colon, exactly when they are the same alert |
| Fingerprints.InputOfOne | src/alert_dedup.rs:18 | the text for one alert |
| Fingerprints.ColonInTypeCollides | src/alert_dedup.rs:17-18 | a type with a colon could collide |
| Escalation.DedupCache.IsNew | src/alert_dedup.rs:53-60 | new exactly when no unexpired entry exists, and then remembered from now |
| Escalation.DedupCache.Invalidate | src/alert_dedup.rs:67-69 | afterwards the fingerprint is new at every instant and nothing else changed |
| Escalation.EscalationRouter.Route | src/escalation.rs:98-134 | accepted exactly when of confidence 0.5 or more, not silenced and with no acceptance of its fingerprint in the last 1800 s, at the level of its confidence; otherwise the deduplication state is unchanged |
| Escalation.LevelBands | src/escalation.rs:23-33 | the level of every confidence |
| Escalation.EscalationRaises | src/escalation.rs:238-262 | an auto-escalation routes the same alert with 0.15 more confidence, up to 0.95, and always more than before |
| Escalation.SameAlertsAreSpaced | src/escalation.rs:130-134 | over every run, auto-escalations included, accepted alerts of one fingerprint are at least 1800 s apart |
| Escalation.AcceptedAtMost | src/escalation.rs:130-134 | any span of T seconds accepts one fingerprint at most floor(T / 1800) + 1 times |
| Escalation.EscalationGetsThroughExactlyWhen | src/escalation.rs:230-264 | in every run an auto-escalation is accepted exactly when the alert is of a known type, due, of a confidence from 0.35 to below 0.9, not silenced, and every acceptance of the same alert lies at least 1800 s back |
| Escalation.EscalationWithinTtlIsSuppressed | src/escalation.rs:230-264 | in particular an auto-escalation within 1800 s of an acceptance of the same alert changes nothing |
| Escalation.DueExactlyWhen | src/escalation.rs:235-238 | an alert is due exactly when its age has reached the timeout, it is dated at least a second ahead (and no more than 2^64 seconds less the timeout), or the timeout is zero |
| Escalation.DetectorHijacksAreCritical | src/escalation.rs:23-33 | a hijack raised by the synchronous detector is never below Critical, whatever its history and features |
| BoundedQueue.NothingIsLostOrReordered | src/sink.rs:62-104 | over every run the flushed batches followed by the buffer are the accepted records in write order, accepted plus dropped is written, and the buffer never exceeds twice the batch |
| BoundedQueue.DroppedExactlyWhenFull | src/sink.rs:62-104 | in every run a record is dropped exactly when twice the batch size is waiting, and a flush takes the first records up to one batch and touches nothing else |
| BoundedQueue.TwoFlushesEmpty | src/sink.rs:191-196 | a flush leaves exactly what exceeds one batch, two always empty the buffer, and the one on shutdown does exactly when at most one batch waits |
| BoundedQueue.PacedWritesAreNeverDropped | src/sink.rs:62-65 | nothing is ever dropped if no more than one batch is written between flushes |
| BoundedQueue.InterleavedFlushesLoseNothing | src/sink.rs:78-104 | in every interleaving of writes with the single pops of one flush after another nothing is lost or reordered and all bounds hold |
| BoundedQueue.UninterruptedFlushIsOneStep | src/sink.rs:88-104 | the pops of a flush that no write interrupts are the flush taken as one step |
| BoundedQueue.StorageSink.WriteRecord | src/sink.rs:78-85 | appends unless the queue is full |
| BoundedQueue.StorageSink.FlushBuffer | src/sink.rs:88-104 | takes the first batch, in order, and leaves the rest |
| BoundedQueue.ClickHouseExporter.WriteRecord | src/clickhouse_exporter.rs:69-81 | the same when enabled, each drop raising the error metric; nothing when disabled |
| BoundedQueue.ClickHouseExporter.FlushBatch | src/clickhouse_exporter.rs:84-200 | delivers the batch unless both attempts fail; the error metric is dropped records plus failed batches |

## Left out

- NewEvent: requires at least one arrival, because the infinities the source computes without one have no counterpart in `real`; every caller in the model meets this.
- Add: models the intended atomic step; in the source the entry guard taken at `src/propagation.rs:125` is still alive when the same map is asked to remove the key at line 140.
- IsNew: is one step; the lookup and the insertion of the source are two, so concurrent routes of one fingerprint can both be accepted.
- EscalationRouter.Route: persistence, metrics, logging and webhooks after acceptance are not modelled.
- FlushBuffer: serialisation and the file write that follow are not modelled, so a batch whose write fails still counts as flushed.
- InterleavedFlushesLoseNothing: flushes follow one another; two flush loops popping at the same time, each into its own batch, are not modelled.
- DetectorRunner.ProcessRecord: the processed-records counter, metrics, and routing what it finds to escalation are not modelled.
- RpkiCache.Load: the text of prefixes and ASNs is parsed outside the model; a raw element carries the outcomes of its two parsers.
- HijackDetector.Check: the warm-up query is represented by an arbitrary initial state, and enqueueing for enrichment happens only where a handler found its message cached.
- ClassifyMeans: floating-point rounding of the usage percentage is not modelled.
- EachCounterAdmitsItsLimit: one limit per tenant is assumed for the whole run.
- Flagged: compares squares instead of dividing by the square root; the two agree for every root.
- The 32-bit sample count of a prefix baseline and the capacity eviction of the caches.
- Snapshots of the baseline model, AS knowledge by day, and the parsing of prefix lengths: their outcomes are arguments of the boost.
- The route filter applied before events are fed to the builder: the theorems hold for any feed.
- HTTP handlers, middleware, tenants, authentication, metrics, logging, exporters, configuration and hot reload; the redactor, the schema validator and the rate limiter, whose behaviour lives in other libraries.
