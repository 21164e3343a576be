/** The backtest's counting loop, its leakage check, and what offline baselines can and
    cannot match (tools/backtest, tools/baseline_builder, src/wave_baseline.rs). */
module Backtest {
  import opened Wrappers
  import opened Reals
  import opened Seqs
  import opened Propagation
  import opened Aggregator
  import opened SpreadStats
  import opened WaveBaseline
  import opened WaveScore
  import opened Archive
  import PathHash

  // hijackStart and hijackEnd are instants in seconds, possibly with a fraction.
  datatype CaseConfig = CaseConfig(prefix: string, hijacker: U32, hijackStart: real, hijackEnd: real, threshold: real)

  datatype Confusion = Confusion(
    truePositives: nat, falseNegatives: nat, falsePositives: nat, trueNegatives: nat, latency: Option<real>)

  // chrono's timestamp() drops the fraction.
  function Seconds(instant: real): real {
    instant.Floor as real
  }

  function IsAttack(e: PropagationEvent, c: CaseConfig): bool {
    && e.prefix == c.prefix
    && Seconds(c.hijackStart) - 1.0 <= e.first <= Seconds(c.hijackEnd) + 1.0
    && e.origin == c.hijacker
  }

  function Latency(e: PropagationEvent, c: CaseConfig): real {
    Max(e.first - Seconds(c.hijackStart), 0.0)
  }

  // One event of the loop: is it an attack, was it detected, was it skipped in the report?
  datatype Verdict = Verdict(attack: bool, detected: bool, skipped: bool, latency: real)

  function Judge(e: PropagationEvent, s: AnomalyScore, c: CaseConfig): Verdict {
    var attack := IsAttack(e, c);
    Verdict(attack, s.total >= c.threshold, s.classification == Normal && s.total == 0.0 && !attack, Latency(e, c))
  }

  function CountIf(vs: seq<Verdict>, p: Verdict -> bool): (n: nat)
    ensures n <= |vs|
  {
    if vs == [] then 0 else CountIf(vs[..|vs| - 1], p) + if p(vs[|vs| - 1]) then 1 else 0
  }

  function TruePositive(v: Verdict): bool { v.attack && v.detected }

  function FalseNegative(v: Verdict): bool { v.attack && !v.detected }

  function FalsePositive(v: Verdict): bool { !v.attack && v.detected }

  function TrueNegative(v: Verdict): bool { !v.attack && !v.detected }

  function Skipped(v: Verdict): bool { v.skipped }

  // The least latency of a detected attack.
  ghost predicate IsLatency(latency: Option<real>, vs: seq<Verdict>) {
    match latency
    case None => forall v :: v in vs ==> !TruePositive(v)
    case Some(t) =>
      && (exists v :: v in vs && TruePositive(v) && v.latency == t)
      && forall v :: v in vs && TruePositive(v) ==> t <= v.latency
  }

  ghost predicate Tallies(confusion: Confusion, skipped: nat, vs: seq<Verdict>) {
    && confusion.truePositives == CountIf(vs, TruePositive)
    && confusion.falseNegatives == CountIf(vs, FalseNegative)
    && confusion.falsePositives == CountIf(vs, FalsePositive)
    && confusion.trueNegatives == CountIf(vs, TrueNegative)
    && skipped == CountIf(vs, Skipped)
    && IsLatency(confusion.latency, vs)
  }

  // A score the detector can give an event.
  ghost predicate IsScoreOf(score: AnomalyScore, event: PropagationEvent, entries: seq<WaveBaselineEntry>) {
    var found := FindEntry(entries, event.prefix, event.origin, PathHash.Hash(event.path));
    if found.None? then score == NO_SCORE
    else exists d :: d >= 0.0 && score == Score(event, found.value, d, DEFAULT)
  }

  ghost predicate IsVerdict(v: Verdict, e: PropagationEvent, entries: seq<WaveBaselineEntry>, c: CaseConfig) {
    exists s :: IsScoreOf(s, e, entries) && v == Judge(e, s, c)
  }

  ghost predicate Judged(vs: seq<Verdict>, events: seq<PropagationEvent>, entries: seq<WaveBaselineEntry>, c: CaseConfig) {
    && |vs| == |events|
    && forall i :: 0 <= i < |vs| ==> IsVerdict(vs[i], events[i], entries, c)
  }

  /** What a case's run reports: its counters and latency are those of one verdict per event. */
  ghost predicate IsOutcome(confusion: Confusion, skipped: nat, events: seq<PropagationEvent>, entries: seq<WaveBaselineEntry>, c: CaseConfig) {
    exists vs :: Judged(vs, events, entries, c) && Tallies(confusion, skipped, vs)
  }

  /** Scores every event and counts it against the case's ground truth. */
  method RunCase(events: seq<PropagationEvent>, entries: seq<WaveBaselineEntry>, dist: Distance, c: CaseConfig)
    returns (confusion: Confusion, skipped: nat)
    ensures IsOutcome(confusion, skipped, events, entries, c)
  {
    hide FindEntry, Score, IsAttack, Latency, CountIf, IsLatency, IsMaxDistance;
    confusion := Confusion(0, 0, 0, 0, None);
    skipped := 0;
    ghost var vs: seq<Verdict> := [];
    TallyNone();
    for i := 0 to |events|
      invariant Judged(vs, events[..i], entries, c)
      invariant Tallies(confusion, skipped, vs)
    {
      var event := events[i];
      var score := ScoreEvent(event, entries, dist, DEFAULT);
      ScoreIsScore(score, event, entries, dist);
      var attack := IsAttack(event, c);
      var detected := score.total >= c.threshold;
      ghost var v := Judge(event, score, c);
      TallyOne(confusion, skipped, vs, v);
      JudgeOne(vs, events, i, entries, c, score);
      if score.classification == Normal && score.total == 0.0 {
        if !attack {
          skipped := skipped + 1;
        }
      }
      if attack && detected {
        var latency := Latency(event, c);
        confusion := confusion.(truePositives := confusion.truePositives + 1,
          latency := Some(if confusion.latency.Some? then Min(confusion.latency.value, latency) else latency));
      } else if attack {
        confusion := confusion.(falseNegatives := confusion.falseNegatives + 1);
      } else if detected {
        confusion := confusion.(falsePositives := confusion.falsePositives + 1);
      } else {
        confusion := confusion.(trueNegatives := confusion.trueNegatives + 1);
      }
      vs := vs + [v];
    }
    assert events[..|events|] == events;
  }

  lemma ScoreIsScore(score: AnomalyScore, event: PropagationEvent, entries: seq<WaveBaselineEntry>, dist: Distance)
    requires var found := FindEntry(entries, event.prefix, event.origin, PathHash.Hash(event.path));
      if found.None? then score == NO_SCORE
      else exists d :: IsMaxDistance(d, Sorting.KeysInOrder(event.arrivals.Keys), dist) && score == Score(event, found.value, d, DEFAULT)
    ensures IsScoreOf(score, event, entries)
  {
    hide FindEntry, Score, PathHash.Hash;
  }

  lemma TallyNone()
    ensures Tallies(Confusion(0, 0, 0, 0, None), 0, [])
  {
  }

  lemma CountOne(vs: seq<Verdict>, v: Verdict, p: Verdict -> bool)
    ensures CountIf(vs + [v], p) == CountIf(vs, p) + if p(v) then 1 else 0
  {
    assert (vs + [v])[..|vs|] == vs;
  }

  // What one more verdict does to the counters.
  function Counted(c: Confusion, v: Verdict): Confusion {
    if v.attack && v.detected then
      c.(truePositives := c.truePositives + 1,
         latency := Some(if c.latency.Some? then Min(c.latency.value, v.latency) else v.latency))
    else if v.attack then c.(falseNegatives := c.falseNegatives + 1)
    else if v.detected then c.(falsePositives := c.falsePositives + 1)
    else c.(trueNegatives := c.trueNegatives + 1)
  }

  lemma TallyOne(c: Confusion, skipped: nat, vs: seq<Verdict>, v: Verdict)
    requires Tallies(c, skipped, vs)
    ensures Tallies(Counted(c, v), skipped + (if v.skipped then 1 else 0), vs + [v])
  {
    hide CountIf;
    CountOne(vs, v, TruePositive);
    CountOne(vs, v, FalseNegative);
    CountOne(vs, v, FalsePositive);
    CountOne(vs, v, TrueNegative);
    CountOne(vs, v, Skipped);
    assert forall w :: w in vs + [v] <==> w in vs || w == v;
  }

  lemma JudgeOne(vs: seq<Verdict>, events: seq<PropagationEvent>, i: nat, entries: seq<WaveBaselineEntry>, c: CaseConfig, score: AnomalyScore)
    requires i < |events| && Judged(vs, events[..i], entries, c) && IsScoreOf(score, events[i], entries)
    ensures Judged(vs + [Judge(events[i], score, c)], events[..i + 1], entries, c)
  {
    hide IsScoreOf, Judge;
    assert IsVerdict(Judge(events[i], score, c), events[i], entries, c);
    hide IsVerdict;
    assert forall j :: 0 <= j < i ==> events[..i + 1][j] == events[..i][j];
  }

  // ----- what the counters mean

  function Rate(hits: nat, misses: nat): real {
    if hits + misses == 0 then 0.0 else hits as real / (hits + misses) as real
  }

  lemma RateIsUnit(hits: nat, misses: nat)
    ensures 0.0 <= Rate(hits, misses) <= 1.0
  {
    if hits + misses > 0 {
      RatioIsUnit(hits, hits + misses);
    }
  }

  lemma {:induction false} CountsPartition(vs: seq<Verdict>)
    ensures CountIf(vs, TruePositive) + CountIf(vs, FalseNegative) == CountIf(vs, (v: Verdict) => v.attack)
    ensures CountIf(vs, TruePositive) + CountIf(vs, FalseNegative) + CountIf(vs, FalsePositive) + CountIf(vs, TrueNegative) == |vs|
  {
    if vs == [] {
    } else {
      CountsPartition(vs[..|vs| - 1]);
    }
  }

  // How many of the events are attacks by the case's ground truth.
  function Attacks(events: seq<PropagationEvent>, c: CaseConfig): nat {
    if events == [] then 0 else Attacks(events[..|events| - 1], c) + if IsAttack(events[|events| - 1], c) then 1 else 0
  }

  lemma {:induction false} AttacksJudged(vs: seq<Verdict>, events: seq<PropagationEvent>, entries: seq<WaveBaselineEntry>, c: CaseConfig)
    requires Judged(vs, events, entries, c)
    ensures CountIf(vs, (v: Verdict) => v.attack) == Attacks(events, c)
  {
    hide IsScoreOf, IsAttack;
    if vs == [] {
    } else {
      var n := |vs| - 1;
      assert IsVerdict(vs[n], events[n], entries, c);
      AttacksJudged(vs[..n], events[..n], entries, c);
    }
  }

  lemma {:induction false} SkippedAreNegatives(vs: seq<Verdict>)
    requires forall v :: v in vs && v.skipped ==> !v.attack && !v.detected
    ensures CountIf(vs, Skipped) <= CountIf(vs, TrueNegative)
  {
    if vs == [] {
    } else {
      var n := |vs| - 1;
      assert vs[n] in vs;
      SkippedAreNegatives(vs[..n]);
    }
  }

  /** The four counters split the events, the hits and misses being exactly the attacks; and
      with a positive threshold every event the report calls excluded from the false-positive
      rate is in fact among the true negatives its denominator counts, so that the reported
      rate is the one without them exactly when there are none or nothing was flagged. */
  lemma CountersSplitTheEvents(confusion: Confusion, skipped: nat, events: seq<PropagationEvent>,
      entries: seq<WaveBaselineEntry>, c: CaseConfig)
    requires IsOutcome(confusion, skipped, events, entries, c)
    ensures confusion.truePositives + confusion.falseNegatives == Attacks(events, c)
    ensures confusion.truePositives + confusion.falseNegatives + confusion.falsePositives + confusion.trueNegatives == |events|
    ensures c.threshold > 0.0 ==>
      && skipped <= confusion.trueNegatives
      && (Rate(confusion.falsePositives, confusion.trueNegatives) == Rate(confusion.falsePositives, confusion.trueNegatives - skipped)
          <==> skipped == 0 || confusion.falsePositives == 0)
    ensures 0.0 <= Rate(confusion.falsePositives, confusion.trueNegatives) <= 1.0
    ensures 0.0 <= Rate(confusion.truePositives, confusion.falseNegatives) <= 1.0
  {
    hide CountIf, IsScoreOf, IsLatency, Rate, Attacks, IsAttack;
    var vs: seq<Verdict> :| Judged(vs, events, entries, c) && Tallies(confusion, skipped, vs);
    CountsPartition(vs);
    AttacksJudged(vs, events, entries, c);
    RateIsUnit(confusion.falsePositives, confusion.trueNegatives);
    RateIsUnit(confusion.truePositives, confusion.falseNegatives);
    if c.threshold > 0.0 {
      forall v | v in vs && v.skipped
        ensures !v.attack && !v.detected
      {
        var i :| 0 <= i < |vs| && vs[i] == v;
        assert IsVerdict(v, events[i], entries, c);
        var s :| IsScoreOf(s, events[i], entries) && vs[i] == Judge(events[i], s, c);
      }
      SkippedAreNegatives(vs);
      ExclusionMatters(confusion.falsePositives, confusion.trueNegatives, skipped);
    }
  }

  lemma ExclusionMatters(hits: nat, misses: nat, excluded: nat)
    requires excluded <= misses
    ensures Rate(hits, misses) == Rate(hits, misses - excluded) <==> excluded == 0 || hits == 0
  {
    if excluded > 0 && hits > 0 {
      SmallerShare(hits as real, (hits + misses - excluded) as real, (hits + misses) as real);
    }
  }

  lemma SmallerShare(x: real, a: real, b: real)
    requires x > 0.0 && 0.0 < a < b
    ensures x / a > x / b
  {
    var q := x / b;
    assert q * b == x && q > 0.0;
    ProductStrictOrder(a, b, q);
    assert (x / a) * a == x;
    OrderTimes(x / a, q, a);
  }

  lemma OrderTimes(x: real, y: real, a: real)
    requires a > 0.0
    ensures x <= y ==> x * a <= y * a
  {
    if x <= y {
      ProductOrder(x, y, a);
    }
  }

  /** A rate is the share of the hits, zero if there is nothing to share. */
  lemma RateMeans(hits: nat, misses: nat)
    ensures hits + misses == 0 ==> Rate(hits, misses) == 0.0
    ensures hits + misses > 0 ==> Rate(hits, misses) * (hits + misses) as real == hits as real
  {
    if hits + misses > 0 {
      WaveScore.Share(hits as real, (hits + misses) as real);
    }
  }

  // ----- the report in terms of the events

  // The case's ground truth: the hijacker's announcement of the case's prefix, first seen within
  // a second of the incident, whose ends are taken in whole seconds.
  predicate IsHijack(e: PropagationEvent, c: CaseConfig) {
    && e.prefix == c.prefix && e.origin == c.hijacker
    && c.hijackStart.Floor as real - 1.0 <= e.first <= c.hijackEnd.Floor as real + 1.0
  }

  // Whether the event is an attack, and whether it was flagged, are as given.
  predicate FallsIn(e: PropagationEvent, s: AnomalyScore, c: CaseConfig, attack: bool, flagged: bool) {
    IsHijack(e, c) == attack && (s.total >= c.threshold) == flagged
  }

  function Cell(events: seq<PropagationEvent>, scores: seq<AnomalyScore>, c: CaseConfig, attack: bool, flagged: bool): set<int>
    requires |scores| == |events|
  {
    set i | 0 <= i < |events| && FallsIn(events[i], scores[i], c, attack, flagged)
  }

  // Not an attack, and the lowest score there is.
  predicate LooksUncovered(e: PropagationEvent, s: AnomalyScore, c: CaseConfig) {
    !IsHijack(e, c) && s.total == 0.0 && s.classification == WaveScore.Normal
  }

  function Uncovered(events: seq<PropagationEvent>, scores: seq<AnomalyScore>, c: CaseConfig): set<int>
    requires |scores| == |events|
  {
    set i | 0 <= i < |events| && LooksUncovered(events[i], scores[i], c)
  }

  // Seconds from the incident's start to the event, zero if it came first.
  predicate IsDelay(t: real, e: PropagationEvent, c: CaseConfig) {
    var d := e.first - c.hijackStart.Floor as real;
    t == if d > 0.0 then d else 0.0
  }

  ghost predicate IsLeastDelay(latency: Option<real>, events: seq<PropagationEvent>, scores: seq<AnomalyScore>, c: CaseConfig)
    requires |scores| == |events|
  {
    var hits := Cell(events, scores, c, true, true);
    match latency
    case None => hits == {}
    case Some(t) =>
      && (exists i :: i in hits && IsDelay(t, events[i], c))
      && forall i, u :: i in hits && IsDelay(u, events[i], c) ==> t <= u
  }

  ghost predicate IsReport(confusion: Confusion, skipped: nat, events: seq<PropagationEvent>, scores: seq<AnomalyScore>, c: CaseConfig)
    requires |scores| == |events|
  {
    && confusion.truePositives == |Cell(events, scores, c, true, true)|
    && confusion.falseNegatives == |Cell(events, scores, c, true, false)|
    && confusion.falsePositives == |Cell(events, scores, c, false, true)|
    && confusion.trueNegatives == |Cell(events, scores, c, false, false)|
    && skipped == |Uncovered(events, scores, c)|
    && IsLeastDelay(confusion.latency, events, scores, c)
  }

  function Where(vs: seq<Verdict>, p: Verdict -> bool, n: nat): set<int>
    requires n <= |vs|
  {
    set i | 0 <= i < n && p(vs[i])
  }

  lemma OneMoreWhere(vs: seq<Verdict>, p: Verdict -> bool, n: nat)
    requires n < |vs|
    ensures |Where(vs, p, n + 1)| == |Where(vs, p, n)| + if p(vs[n]) then 1 else 0
    ensures Where(vs, p, 0) == {}
  {
    var before := Where(vs, p, n);
    assert Where(vs, p, n + 1) == if p(vs[n]) then before + {n} else before;
  }

  lemma {:induction false} CountIsSize(vs: seq<Verdict>, p: Verdict -> bool, n: nat)
    requires n <= |vs|
    ensures CountIf(vs[..n], p) == |Where(vs, p, n)|
  {
    if n == 0 {
      assert Where(vs, p, 0) == {};
    } else {
      hide Where;
      CountIsSize(vs, p, n - 1);
      OneMoreWhere(vs, p, n - 1);
      assert vs[..n][..n - 1] == vs[..n - 1];
    }
  }

  // A count of verdicts is the size of the cell they stand for.
  lemma CountIsCell(vs: seq<Verdict>, p: Verdict -> bool, events: seq<PropagationEvent>, scores: seq<AnomalyScore>, c: CaseConfig,
      attack: bool, flagged: bool)
    requires |vs| == |events| == |scores|
    requires forall i :: 0 <= i < |vs| ==> (p(vs[i]) <==> FallsIn(events[i], scores[i], c, attack, flagged))
    ensures CountIf(vs, p) == |Cell(events, scores, c, attack, flagged)|
  {
    hide CountIf, FallsIn;
    CountIsSize(vs, p, |vs|);
    assert vs[..|vs|] == vs;
    assert Where(vs, p, |vs|) == Cell(events, scores, c, attack, flagged);
  }

  lemma CountIsUncovered(vs: seq<Verdict>, events: seq<PropagationEvent>, scores: seq<AnomalyScore>, c: CaseConfig)
    requires |vs| == |events| == |scores|
    requires forall i :: 0 <= i < |vs| ==> (Skipped(vs[i]) <==> LooksUncovered(events[i], scores[i], c))
    ensures CountIf(vs, Skipped) == |Uncovered(events, scores, c)|
  {
    hide CountIf, LooksUncovered, Skipped;
    CountIsSize(vs, Skipped, |vs|);
    assert vs[..|vs|] == vs;
    assert Where(vs, Skipped, |vs|) == Uncovered(events, scores, c);
  }

  // The scores behind the verdicts.
  lemma {:induction false} ScoresBehind(vs: seq<Verdict>, events: seq<PropagationEvent>, entries: seq<WaveBaselineEntry>, c: CaseConfig)
    returns (scores: seq<AnomalyScore>)
    requires Judged(vs, events, entries, c)
    ensures |scores| == |events|
    ensures forall i :: 0 <= i < |events| ==> IsScoreOf(scores[i], events[i], entries) && vs[i] == Judge(events[i], scores[i], c)
  {
    hide IsScoreOf, Judge;
    if events == [] {
      scores := [];
    } else {
      var n := |events| - 1;
      assert forall i :: 0 <= i < n ==> IsVerdict(vs[i], events[i], entries, c);
      scores := ScoresBehind(vs[..n], events[..n], entries, c);
      assert IsVerdict(vs[n], events[n], entries, c);
      var s :| IsScoreOf(s, events[n], entries) && vs[n] == Judge(events[n], s, c);
      scores := scores + [s];
    }
  }

  lemma JudgeMeans(e: PropagationEvent, s: AnomalyScore, c: CaseConfig)
    ensures var v := Judge(e, s, c);
      && (TruePositive(v) <==> FallsIn(e, s, c, true, true)) && (FalseNegative(v) <==> FallsIn(e, s, c, true, false))
      && (FalsePositive(v) <==> FallsIn(e, s, c, false, true)) && (TrueNegative(v) <==> FallsIn(e, s, c, false, false))
      && (Skipped(v) <==> LooksUncovered(e, s, c)) && forall t :: IsDelay(t, e, c) <==> t == v.latency
  {
  }

  /** What a case's report says, in terms of its events, the scores the detector gave them and the
      ground truth alone: each of the four counters is the number of events in its cell, the
      excluded ones are those without an attack that scored zero, and the latency is the least
      delay of a detected attack. */
  lemma ReportMeans(confusion: Confusion, skipped: nat, events: seq<PropagationEvent>, entries: seq<WaveBaselineEntry>, c: CaseConfig)
    returns (scores: seq<AnomalyScore>)
    requires IsOutcome(confusion, skipped, events, entries, c)
    ensures |scores| == |events| && forall i :: 0 <= i < |events| ==> IsScoreOf(scores[i], events[i], entries)
    ensures IsReport(confusion, skipped, events, scores, c)
  {
    var vs: seq<Verdict> :| Judged(vs, events, entries, c) && Tallies(confusion, skipped, vs);
    scores := ScoresBehind(vs, events, entries, c);
    VerdictsMean(vs, events, scores, c);
    hide Judge, FallsIn, LooksUncovered, IsDelay, CountIf, TruePositive, FalseNegative, FalsePositive, TrueNegative, Skipped;
    hide Cell, Uncovered, IsLatency, IsLeastDelay, Judged, IsScoreOf;
    CountIsCell(vs, TruePositive, events, scores, c, true, true);
    CountIsCell(vs, FalseNegative, events, scores, c, true, false);
    CountIsCell(vs, FalsePositive, events, scores, c, false, true);
    CountIsCell(vs, TrueNegative, events, scores, c, false, false);
    CountIsUncovered(vs, events, scores, c);
    LatencyIsLeast(confusion.latency, vs, events, scores, c);
  }

  lemma VerdictsMean(vs: seq<Verdict>, events: seq<PropagationEvent>, scores: seq<AnomalyScore>, c: CaseConfig)
    requires |vs| == |events| == |scores| && forall i :: 0 <= i < |vs| ==> vs[i] == Judge(events[i], scores[i], c)
    ensures forall i :: 0 <= i < |vs| ==> (TruePositive(vs[i]) <==> FallsIn(events[i], scores[i], c, true, true))
    ensures forall i :: 0 <= i < |vs| ==> (FalseNegative(vs[i]) <==> FallsIn(events[i], scores[i], c, true, false))
    ensures forall i :: 0 <= i < |vs| ==> (FalsePositive(vs[i]) <==> FallsIn(events[i], scores[i], c, false, true))
    ensures forall i :: 0 <= i < |vs| ==> (TrueNegative(vs[i]) <==> FallsIn(events[i], scores[i], c, false, false))
    ensures forall i :: 0 <= i < |vs| ==> (Skipped(vs[i]) <==> LooksUncovered(events[i], scores[i], c))
    ensures forall i, t :: 0 <= i < |vs| ==> (IsDelay(t, events[i], c) <==> t == vs[i].latency)
  {
    hide Judge, FallsIn, LooksUncovered, IsDelay, TruePositive, FalseNegative, FalsePositive, TrueNegative, Skipped;
    forall i | 0 <= i < |vs|
      ensures TruePositive(vs[i]) <==> FallsIn(events[i], scores[i], c, true, true)
      ensures FalseNegative(vs[i]) <==> FallsIn(events[i], scores[i], c, true, false)
      ensures FalsePositive(vs[i]) <==> FallsIn(events[i], scores[i], c, false, true)
      ensures TrueNegative(vs[i]) <==> FallsIn(events[i], scores[i], c, false, false)
      ensures Skipped(vs[i]) <==> LooksUncovered(events[i], scores[i], c)
      ensures forall t :: IsDelay(t, events[i], c) <==> t == vs[i].latency
    {
      JudgeMeans(events[i], scores[i], c);
    }
  }

  lemma LatencyIsLeast(latency: Option<real>, vs: seq<Verdict>, events: seq<PropagationEvent>, scores: seq<AnomalyScore>, c: CaseConfig)
    requires |vs| == |events| == |scores| && IsLatency(latency, vs)
    requires forall i :: 0 <= i < |vs| ==> (TruePositive(vs[i]) <==> FallsIn(events[i], scores[i], c, true, true))
    requires forall i, t :: 0 <= i < |vs| ==> (IsDelay(t, events[i], c) <==> t == vs[i].latency)
    ensures IsLeastDelay(latency, events, scores, c)
  {
    hide FallsIn, IsDelay, TruePositive;
    assert forall i :: 0 <= i < |vs| ==> vs[i] in vs;
    if latency.Some? {
      var v :| v in vs && TruePositive(v) && v.latency == latency.value;
      var i :| 0 <= i < |vs| && vs[i] == v;
      assert i in Cell(events, scores, c, true, true) && IsDelay(latency.value, events[i], c);
    }
  }

  // ----- what the backtest can detect

  lemma {:induction false} NoneCounted(vs: seq<Verdict>, p: Verdict -> bool)
    ensures CountIf(vs, p) == 0 <==> forall v :: v in vs ==> !p(v)
  {
    if vs == [] {
    } else {
      var (init, last) := (vs[..|vs| - 1], vs[|vs| - 1]);
      NoneCounted(init, p);
      assert vs == init + [last];
    }
  }

  // A detected event has a baseline entry of its own prefix, origin and path hash.
  lemma DetectedHasEntry(e: PropagationEvent, s: AnomalyScore, entries: seq<WaveBaselineEntry>, c: CaseConfig)
    requires IsScoreOf(s, e, entries) && s.total >= c.threshold > 0.0
    ensures FindEntry(entries, e.prefix, e.origin, PathHash.Hash(e.path)).Some?
  {
    hide FindEntry, Score, PathHash.Hash;
  }

  /** Every attack event the archive tools produce is looked up under the hijacker's own
      origin. So with a positive threshold a hijack can be detected only if the baseline
      already holds an entry for (prefix, hijacker); without one the true-positive rate is zero
      whatever the arrivals look like. */
  lemma HijackerNeedsABaseline(confusion: Confusion, skipped: nat, records: seq<MrtRecord>, events: seq<PropagationEvent>,
      minCollectors: nat, canon: Canon, entries: seq<WaveBaselineEntry>, c: CaseConfig)
    requires EventsOf(records, events, minCollectors, canon)
    requires IsOutcome(confusion, skipped, events, entries, c)
    requires c.threshold > 0.0
    requires FindEntry(entries, c.prefix, c.hijacker, c.hijacker).None?
    ensures confusion.truePositives == 0 && confusion.latency == None
    ensures Rate(confusion.truePositives, confusion.falseNegatives) == 0.0
  {
    hide FindEntry, CountIf, EventsOf, IsScoreOf, PathHash.Hash;
    EventsAreFiledUnderTheOrigin(records, events, minCollectors, canon);
    var vs: seq<Verdict> :| Judged(vs, events, entries, c) && Tallies(confusion, skipped, vs);
    forall v | v in vs
      ensures !TruePositive(v)
    {
      var i :| 0 <= i < |vs| && vs[i] == v;
      assert IsVerdict(v, events[i], entries, c);
      var s :| IsScoreOf(s, events[i], entries) && vs[i] == Judge(events[i], s, c);
      if TruePositive(v) {
        DetectedHasEntry(events[i], s, entries, c);
      }
    }
    NoneCounted(vs, TruePositive);
  }

  // ----- and that it can detect it with one

  // Two reports a given time apart, the second repeated by as many collectors as are needed.
  function Collector(i: nat): string {
    seq(i, _ => 'c')
  }

  function ReportTime(i: nat, start: real, apart: real): real {
    if i == 0 then start else start + apart
  }

  function Reports(n: nat, prefix: string, origin: U32, start: real, apart: real): seq<MrtRecord> {
    if n == 0 then []
    else
      Reports(n - 1, prefix, origin, start, apart) +
      [MrtRecord(Collector(n - 1), prefix, origin, [origin], ReportTime(n - 1, start, apart))]
  }

  function ReportArrivals(n: nat, start: real, apart: real): Arrivals {
    if n == 0 then map[] else ReportArrivals(n - 1, start, apart)[Collector(n - 1) := ReportTime(n - 1, start, apart)]
  }

  lemma {:induction false} ReportArrivalsShape(n: nat, start: real, apart: real)
    ensures |ReportArrivals(n, start, apart)| == n
    ensures forall c :: c in ReportArrivals(n, start, apart) ==> |c| < n && ReportArrivals(n, start, apart)[c] == ReportTime(|c|, start, apart)
    ensures forall i :: 0 <= i < n ==> Collector(i) in ReportArrivals(n, start, apart)
  {
    if n == 0 {
    } else {
      ReportArrivalsShape(n - 1, start, apart);
    }
  }

  lemma {:induction false} ReportsAreGrouped(n: nat, prefix: string, origin: U32, start: real, apart: real)
    ensures var arrivals := ReportArrivals(n, start, apart);
      IsGrouping(Reports(n, prefix, origin, start, apart),
                 if n == 0 then map[] else map[GroupKey(prefix, origin, PathHash.Hash([origin])) := arrivals])
  {
    hide IsGrouping, PathHash.Hash;
    if n == 0 {
      NoGroups();
    } else {
      var key := GroupKey(prefix, origin, PathHash.Hash([origin]));
      var arrivals := ReportArrivals(n - 1, start, apart);
      var groups: Groups := if n == 1 then map[] else map[key := arrivals];
      ReportsAreGrouped(n - 1, prefix, origin, start, apart);
      ReportArrivalsShape(n - 1, start, apart);
      assert Collector(n - 1) !in arrivals;
      var r := MrtRecord(Collector(n - 1), prefix, origin, [origin], ReportTime(n - 1, start, apart));
      GroupingStep(Reports(n - 1, prefix, origin, start, apart), r, groups);
      assert (map[key := arrivals])[key := ReportArrivals(n, start, apart)] == map[key := ReportArrivals(n, start, apart)];
    }
  }

  // The one event the tools make of these reports.
  lemma ReportsMakeOneEvent(n: nat, prefix: string, origin: U32, start: real, apart: real, minCollectors: nat, canon: Canon)
    returns (event: PropagationEvent)
    requires n >= 2 && n >= minCollectors && apart >= 0.0 && canon(prefix).Some?
    ensures EventsOf(Reports(n, prefix, origin, start, apart), [event], minCollectors, canon)
    ensures event.prefix == canon(prefix).value && event.origin == origin && event.path == [origin]
    ensures event.first == start && event.spreadMs == apart * 1000.0
  {
    hide PathHash.Hash, IsGrouping, NewEvent, Enumerates, Reports, ReportArrivals;
    var key := GroupKey(prefix, origin, PathHash.Hash([origin]));
    var arrivals := ReportArrivals(n, start, apart);
    var groups: Groups := map[key := arrivals];
    ReportArrivalsShape(n, start, apart);
    ReportsAreGrouped(n, prefix, origin, start, apart);
    assert Collector(0) in arrivals && Collector(1) in arrivals;
    event := GroupEvent(key, groups, canon);
    OneGroup(key, arrivals, minCollectors, canon);
    EventShape(canon(prefix).value, origin, [origin], arrivals);
    assert arrivals[Collector(0)] == start && arrivals[Collector(1)] == start + apart;
    assert event.order[0] in event.order && event.order[|event.order| - 1] in event.order;
  }

  lemma OneGroup(key: GroupKey, arrivals: Arrivals, minCollectors: nat, canon: Canon)
    requires arrivals != map[] && |arrivals| >= minCollectors && canon(key.prefix).Some?
    ensures Enumerates([GroupEvent(key, map[key := arrivals], canon)], [key], map[key := arrivals], minCollectors, canon)
  {
    hide NewEvent;
  }

  // What a spread far above an entry's own is worth, whatever the other signals.
  function Reach(entry: WaveBaselineEntry): real {
    if entry.stdDev != 0.0 then 0.7 else 0.3
  }

  function FarApart(entry: WaveBaselineEntry): real {
    Abs(entry.p99) + Abs(entry.p50) + 3.0 * Abs(entry.stdDev) + 1.0
  }

  lemma FarSpreadsScore(event: PropagationEvent, entry: WaveBaselineEntry, maxDist: real)
    requires event.spreadMs == FarApart(entry)
    ensures Score(event, entry, maxDist, DEFAULT).total >= Reach(entry)
  {
    hide SpreadSignal, GapSignal, OrderSignal, SpeedSignal;
    SignalsAreUnits(event, entry, maxDist);
    ScoreIsSound(event, entry, maxDist, DEFAULT);
    assert OutlierSignal(event.spreadMs, entry) == 1.0;
    if entry.stdDev != 0.0 {
      FarSpreadIsThreeDeviations(event.spreadMs, entry);
    }
  }

  lemma FarSpreadIsThreeDeviations(spreadMs: real, entry: WaveBaselineEntry)
    requires entry.stdDev != 0.0 && spreadMs - entry.p50 >= 3.0 * Abs(entry.stdDev)
    ensures SpreadSignal(spreadMs, entry) == 1.0
  {
    var (x, s) := (spreadMs - entry.p50, Abs(entry.stdDev));
    AbsQuotient(x, entry.stdDev);
    DivideOrder(3.0 * s, x, s);
    QuotientIs(3.0 * s, s, 3.0);
  }

  /** With an entry for (prefix, hijacker) some records are detected in every run of the case,
      whatever the distances between their collectors: two reports far enough apart do it. */
  lemma SomeRecordsAreDetected(entries: seq<WaveBaselineEntry>, c: CaseConfig, minCollectors: nat, canon: Canon, text: string)
    returns (records: seq<MrtRecord>, events: seq<PropagationEvent>)
    requires canon(text) == Some(c.prefix)
    requires Seconds(c.hijackStart) - 1.0 <= Seconds(c.hijackEnd) + 1.0
    requires var found := FindEntry(entries, c.prefix, c.hijacker, c.hijacker);
      found.Some? && c.threshold <= Reach(found.value)
    ensures EventsOf(records, events, minCollectors, canon)
    ensures forall confusion, skipped :: IsOutcome(confusion, skipped, events, entries, c) ==> confusion.truePositives > 0
  {
    hide EventsOf, FindEntry, Score, PathHash.Hash, CountIf, IsLatency, Seconds, FarApart, Reach, Reports;
    var entry := FindEntry(entries, c.prefix, c.hijacker, c.hijacker).value;
    var n := if minCollectors < 2 then 2 else minCollectors;
    var (start, apart) := (Seconds(c.hijackStart) - 1.0, FarApart(entry) / 1000.0);
    FarApartIsPositive(entry);
    records := Reports(n, text, c.hijacker, start, apart);
    var event := ReportsMakeOneEvent(n, text, c.hijacker, start, apart, minCollectors, canon);
    events := [event];
    PathHash.HashOfLastHop([], c.hijacker);
    forall confusion, skipped | IsOutcome(confusion, skipped, events, entries, c)
      ensures confusion.truePositives > 0
    {
      var vs: seq<Verdict> :| Judged(vs, events, entries, c) && Tallies(confusion, skipped, vs);
      assert IsVerdict(vs[0], events[0], entries, c);
      var s :| IsScoreOf(s, event, entries) && vs[0] == Judge(event, s, c);
      FarEventIsDetected(event, s, entries, c);
      assert vs[0] in vs;
      NoneCounted(vs, TruePositive);
    }
  }

  lemma FarApartIsPositive(entry: WaveBaselineEntry)
    ensures FarApart(entry) > 0.0 && FarApart(entry) / 1000.0 >= 0.0 && (FarApart(entry) / 1000.0) * 1000.0 == FarApart(entry)
  {
  }

  lemma FarEventIsDetected(event: PropagationEvent, s: AnomalyScore, entries: seq<WaveBaselineEntry>, c: CaseConfig)
    requires var found := FindEntry(entries, event.prefix, event.origin, PathHash.Hash(event.path));
      found.Some? && c.threshold <= Reach(found.value) && event.spreadMs == FarApart(found.value)
    requires IsScoreOf(s, event, entries)
    ensures s.total >= c.threshold
  {
    hide FindEntry, Score, PathHash.Hash, FarApart, Reach;
    var entry := FindEntry(entries, event.prefix, event.origin, PathHash.Hash(event.path)).value;
    var d :| d >= 0.0 && s == Score(event, entry, d, DEFAULT);
    FarSpreadsScore(event, entry, d);
  }

  lemma {:induction false} EveryCaseHasAnOutcome(events: seq<PropagationEvent>, entries: seq<WaveBaselineEntry>, c: CaseConfig)
    returns (confusion: Confusion, skipped: nat, vs: seq<Verdict>)
    ensures Judged(vs, events, entries, c) && Tallies(confusion, skipped, vs)
  {
    hide FindEntry, Score, Judge, CountIf, IsLatency, PathHash.Hash;
    if events == [] {
      TallyNone();
      confusion, skipped, vs := Confusion(0, 0, 0, 0, None), 0, [];
    } else {
      var (n, e) := (|events| - 1, events[|events| - 1]);
      confusion, skipped, vs := EveryCaseHasAnOutcome(events[..n], entries, c);
      var found := FindEntry(entries, e.prefix, e.origin, PathHash.Hash(e.path));
      var score := if found.None? then NO_SCORE else Score(e, found.value, 0.0, DEFAULT);
      assert IsScoreOf(score, e, entries);
      var v := Judge(e, score, c);
      TallyOne(confusion, skipped, vs, v);
      JudgeOne(vs, events, n, entries, c, score);
      assert events[..n + 1] == events;
      confusion, skipped, vs := Counted(confusion, v), skipped + (if v.skipped then 1 else 0), vs + [v];
    }
  }

  // Some records lead to a true positive.
  ghost predicate Detectable(entries: seq<WaveBaselineEntry>, c: CaseConfig, minCollectors: nat, canon: Canon) {
    exists records, events, confusion, skipped ::
      EventsOf(records, events, minCollectors, canon) && IsOutcome(confusion, skipped, events, entries, c) && confusion.truePositives > 0
  }

  ghost predicate IsCanonical(prefix: string, canon: Canon) {
    exists text :: canon(text) == Some(prefix)
  }

  /** For a positive threshold up to 0.7 (up to 0.3 against an entry without deviation) the
      case is detectable exactly when the baseline holds an entry for (prefix, hijacker), the
      case's prefix is the printed form of some prefix, and its window is not empty. */
  lemma DetectableExactlyWhen(entries: seq<WaveBaselineEntry>, c: CaseConfig, minCollectors: nat, canon: Canon)
    requires c.threshold > 0.0
    requires var found := FindEntry(entries, c.prefix, c.hijacker, c.hijacker);
      found.Some? ==> c.threshold <= Reach(found.value)
    ensures Detectable(entries, c, minCollectors, canon) <==>
      && FindEntry(entries, c.prefix, c.hijacker, c.hijacker).Some?
      && IsCanonical(c.prefix, canon)
      && Seconds(c.hijackStart) - 1.0 <= Seconds(c.hijackEnd) + 1.0
  {
    hide EventsOf, FindEntry, IsOutcome, Seconds, Reach;
    if Detectable(entries, c, minCollectors, canon) {
      var records, events, confusion, skipped :|
        EventsOf(records, events, minCollectors, canon) && IsOutcome(confusion, skipped, events, entries, c) && confusion.truePositives > 0;
      HitsAreAttacks(confusion, skipped, records, events, minCollectors, canon, entries, c);
      if FindEntry(entries, c.prefix, c.hijacker, c.hijacker).None? {
        HijackerNeedsABaseline(confusion, skipped, records, events, minCollectors, canon, entries, c);
      }
    }
    if FindEntry(entries, c.prefix, c.hijacker, c.hijacker).Some? && IsCanonical(c.prefix, canon)
       && Seconds(c.hijackStart) - 1.0 <= Seconds(c.hijackEnd) + 1.0 {
      var text :| canon(text) == Some(c.prefix);
      var records, events := SomeRecordsAreDetected(entries, c, minCollectors, canon, text);
      var confusion, skipped, vs := EveryCaseHasAnOutcome(events, entries, c);
      IsOutcomeOf(confusion, skipped, vs, events, entries, c);
    }
  }

  lemma IsOutcomeOf(confusion: Confusion, skipped: nat, vs: seq<Verdict>, events: seq<PropagationEvent>, entries: seq<WaveBaselineEntry>, c: CaseConfig)
    requires Judged(vs, events, entries, c) && Tallies(confusion, skipped, vs)
    ensures IsOutcome(confusion, skipped, events, entries, c)
  {
  }

  // A true positive is an event of the tools inside the case's window.
  lemma HitsAreAttacks(confusion: Confusion, skipped: nat, records: seq<MrtRecord>, events: seq<PropagationEvent>,
      minCollectors: nat, canon: Canon, entries: seq<WaveBaselineEntry>, c: CaseConfig)
    requires EventsOf(records, events, minCollectors, canon)
    requires IsOutcome(confusion, skipped, events, entries, c) && confusion.truePositives > 0
    ensures IsCanonical(c.prefix, canon) && Seconds(c.hijackStart) - 1.0 <= Seconds(c.hijackEnd) + 1.0
  {
    hide CountIf, IsLatency, IsScoreOf, IsGrouping, Seconds;
    var vs: seq<Verdict> :| Judged(vs, events, entries, c) && Tallies(confusion, skipped, vs);
    NoneCounted(vs, TruePositive);
    var v :| v in vs && TruePositive(v);
    var i :| 0 <= i < |vs| && vs[i] == v;
    assert IsVerdict(v, events[i], entries, c);
    var groups: Groups, keys: seq<GroupKey> :| IsGrouping(records, groups) && Enumerates(events, keys, groups, minCollectors, canon);
    assert keys[i] in keys && events[i] == GroupEvent(keys[i], groups, canon);
    assert canon(keys[i].prefix) == Some(events[i].prefix) == Some(c.prefix);
  }

  // ----- the leakage check

  // The baseline is accepted when its cutoff, cut to whole seconds, lies before the incident;
  // a cutoff of zero is taken on trust.
  function Accepted(dataCutoff: real, hijackStart: real): bool {
    dataCutoff <= 0.0 || Seconds(dataCutoff) < hijackStart
  }

  lemma BuiltCutoff(b: WaveBaseline, fed: seq<PropagationEvent>, minSamples: nat, sqrt: Sqrt)
    requires IsBuilt(b, fed, minSamples, sqrt)
    ensures b.dataCutoff == Cutoff(fed)
  {
    hide Cutoff, IsEntry, Spreads;
  }

  /** For a builder's baseline with a positive cutoff, the check keeps its promise that all its
      data is strictly before the incident exactly when the start does not fall inside the
      cutoff's own second; with a start on a whole second it always does. A cutoff of zero, which
      a builder fed no data reports, is taken on trust. */
  lemma LeakageCheckIsSound(b: WaveBaseline, fed: seq<PropagationEvent>, minSamples: nat, sqrt: Sqrt, hijackStart: real)
    requires IsBuilt(b, fed, minSamples, sqrt)
    ensures b.dataCutoff == 0.0 ==> Accepted(b.dataCutoff, hijackStart)
    ensures b.dataCutoff > 0.0 ==>
      ((Accepted(b.dataCutoff, hijackStart) <==> forall e :: e in fed ==> e.last < hijackStart) <==>
       !(b.dataCutoff.Floor as real < hijackStart <= b.dataCutoff))
    ensures b.dataCutoff > 0.0 && hijackStart == hijackStart.Floor as real && Accepted(b.dataCutoff, hijackStart) ==>
      forall e :: e in fed ==> e.last < hijackStart
  {
    BuiltCutoff(b, fed, minSamples, sqrt);
    if b.dataCutoff > 0.0 {
      LeakageOfSome(b, fed, minSamples, sqrt, hijackStart);
    }
  }

  lemma LeakageOfSome(b: WaveBaseline, fed: seq<PropagationEvent>, minSamples: nat, sqrt: Sqrt, hijackStart: real)
    requires IsBuilt(b, fed, minSamples, sqrt) && b.dataCutoff > 0.0
    ensures (Accepted(b.dataCutoff, hijackStart) <==> forall e :: e in fed ==> e.last < hijackStart) <==>
            !(Seconds(b.dataCutoff) < hijackStart <= b.dataCutoff)
    ensures hijackStart == Seconds(hijackStart) && Accepted(b.dataCutoff, hijackStart) ==>
            forall e :: e in fed ==> e.last < hijackStart
  {
    BuiltCutoff(b, fed, minSamples, sqrt);
    AllBefore(fed, hijackStart);
    hide Cutoff, IsBuilt, Accepted, Seconds;
    SecondsBelow(b.dataCutoff, hijackStart);
  }

  lemma AllBefore(fed: seq<PropagationEvent>, t: real)
    requires Cutoff(fed) > 0.0
    ensures (forall e :: e in fed ==> e.last < t) <==> Cutoff(fed) < t
  {
    hide Cutoff;
    CutoffIsLatest(fed);
  }

  lemma SecondsBelow(cutoff: real, start: real)
    requires cutoff > 0.0
    ensures (Accepted(cutoff, start) <==> cutoff < start) <==> !(Seconds(cutoff) < start <= cutoff)
    ensures start == Seconds(start) && Accepted(cutoff, start) ==> cutoff < start
  {
    hide Seconds;
    SecondsAround(cutoff);
    if start == Seconds(start) && Accepted(cutoff, start) {
      SecondsApart(cutoff, start);
    }
  }

  lemma SecondsAround(x: real)
    ensures Seconds(x) <= x < Seconds(x) + 1.0
  {
    SpreadStats.CeilAbove(x);
  }

  lemma SecondsApart(x: real, y: real)
    requires Seconds(x) < Seconds(y)
    ensures Seconds(x) + 1.0 <= Seconds(y)
  {
    assert x.Floor < y.Floor;
  }

  /** A start with a fraction can let the incident's own second through. */
  lemma LeakageCheckCanLeak()
    ensures Accepted(10.9, 10.5) && !(10.9 < 10.5)
  {
    assert (10.9).Floor == 10;
  }

  // ----- live lookups against an offline baseline

  /** Offline events are filed under their origin alone, live ones under their whole path. A
      live event whose path is transit ++ [origin] therefore finds the baseline entry built
      from its group's offline events exactly when the hash of the transit hops is zero ... */
  lemma LiveLookupOfOfflineBaseline(b: WaveBaseline, fed: seq<PropagationEvent>, minSamples: nat, sqrt: Sqrt,
      prefix: string, transit: PathHash.Path, origin: U32)
    requires IsBuilt(b, fed, minSamples, sqrt)
    requires forall e :: e in fed ==> PathHash.Hash(e.path) == e.origin
    ensures FindEntry(b.entries, prefix, origin, PathHash.Hash(transit + [origin])).Some? <==>
      && PathHash.Hash(transit) == 0
      && FindEntry(b.entries, prefix, origin, origin).Some?
  {
    hide FindEntry, Spreads, IsEntry, Cutoff, PathHash.HashFrom;
    var key := GroupKey(prefix, origin, PathHash.Hash(transit + [origin]));
    PathHash.HashOfLastHop(transit, origin);
    LookupIsExact(b, fed, minSamples, sqrt, key);
    if key.pathHash != origin {
      FiledUnderOrigin(fed, key);
    }
  }

  lemma {:induction false} FiledUnderOrigin(fed: seq<PropagationEvent>, key: GroupKey)
    requires forall e :: e in fed ==> PathHash.Hash(e.path) == e.origin
    requires key.pathHash != key.origin
    ensures Spreads(fed, key) == []
  {
    hide PathHash.Hash;
    if fed == [] {
    } else {
      assert fed[|fed| - 1] in fed;
      FiledUnderOrigin(fed[..|fed| - 1], key);
    }
  }

  /** ... so a live path of up to eight hops with any real transit AS never matches, and its
      event always scores zero. */
  lemma LiveTransitNeverScores(b: WaveBaseline, fed: seq<PropagationEvent>, minSamples: nat, sqrt: Sqrt,
      e: PropagationEvent, s: AnomalyScore, transit: PathHash.Path)
    requires IsBuilt(b, fed, minSamples, sqrt)
    requires forall x :: x in fed ==> PathHash.Hash(x.path) == x.origin
    requires e.path == transit + [e.origin] && |transit| <= 7 && exists i :: 0 <= i < |transit| && transit[i] != 0
    requires IsScoreOf(s, e, b.entries)
    ensures s == NO_SCORE && s.total == 0.0 && s.classification == WaveScore.Normal
  {
    hide FindEntry, Score, IsBuilt, PathHash.Hash;
    PathHash.HashOfLastHop(transit, e.origin);
    LiveLookupOfOfflineBaseline(b, fed, minSamples, sqrt, e.prefix, transit, e.origin);
  }

  /** Seven hops is the limit: with eight real transit ASes a live event can find the entry of
      any origin the offline baseline holds. */
  lemma LiveTransitCanMatchAtEightHops(b: WaveBaseline, fed: seq<PropagationEvent>, minSamples: nat, sqrt: Sqrt,
      prefix: string, origin: U32)
    requires IsBuilt(b, fed, minSamples, sqrt)
    requires forall e :: e in fed ==> PathHash.Hash(e.path) == e.origin
    requires FindEntry(b.entries, prefix, origin, origin).Some?
    ensures |PathHash.ZERO_HASH| == 8 && forall i :: 0 <= i < 8 ==> PathHash.ZERO_HASH[i] != 0
    ensures FindEntry(b.entries, prefix, origin, PathHash.Hash(PathHash.ZERO_HASH + [origin])).Some?
  {
    hide FindEntry, IsBuilt, PathHash.Hash;
    PathHash.EightHopsCanHashToZero();
    LiveLookupOfOfflineBaseline(b, fed, minSamples, sqrt, prefix, PathHash.ZERO_HASH, origin);
  }
}
