/** The detector runner: one record through the flap detector, the hijack detector and the
    aggregator (src/detector_runner.rs). */
module Runner {
  import opened Wrappers
  import opened Rpki
  import opened Propagation
  import opened Aggregator
  import Flapping
  import Hijack
  import PathHash
  import WaveBaseline
  import WaveScore
  import SpreadStats
  import Backtest
  import Seqs

  datatype BgpEvent = BgpEvent(record: BgpRecord, kind: string)

  function AsRecord(e: BgpEvent): Hijack.Record {
    Hijack.Record(e.record.prefix, e.record.origin, e.kind)
  }

  // ----- what the runner is fed

  datatype Input =
    | Process(e: BgpEvent, rpki: Option<RpkiStatus>, now: real)
    // A periodic flush, with the expired groups in the order the map listed them.
    | Flush(now: real, keys: seq<GroupKey>)

  // The steps the aggregator sees.
  function StepsOf(i: Input): seq<Step> {
    match i
    case Process(e, rpki, now) => if e.kind == "announce" && rpki != Some(RpkiStatus.Valid) then [AddStep(e.record, now)] else []
    case Flush(now, keys) => [FlushStep(now, keys)]
  }

  function FeedOf(inputs: seq<Input>): seq<Step> {
    if inputs == [] then [] else FeedOf(inputs[..|inputs| - 1]) + StepsOf(inputs[|inputs| - 1])
  }

  lemma FeedPush(inputs: seq<Input>, i: Input)
    ensures FeedOf(inputs + [i]) == FeedOf(inputs) + StepsOf(i)
  {
    assert (inputs + [i])[..|inputs|] == inputs;
  }

  lemma ReachesPush(steps: seq<Step>, p: AggState, step: Step, canon: Canon)
    requires Reaches(steps, p, canon) && WellFormed(p.pending) && Enabled(p, step)
    ensures Reaches(steps + [step], Apply(p, step, canon), canon)
  {
    hide Apply, PathHash.Hash;
    assert (steps + [step])[..|steps|] == steps;
    assert StepsTo(steps + [step], p, Apply(p, step, canon), canon);
  }

  lemma AddReaches(steps: seq<Step>, s: AggState, record: BgpRecord, now: real, canon: Canon)
    requires Reaches(steps, s, canon) && WellFormed(s.pending)
    ensures Reaches(steps + [AddStep(record, now)], Add(s, record, now, canon), canon)
  {
    hide Reaches, Add;
    ReachesPush(steps, s, AddStep(record, now), canon);
  }

  lemma FlushReaches(steps: seq<Step>, s: AggState, now: real, keys: seq<GroupKey>, canon: Canon)
    requires Reaches(steps, s, canon) && WellFormed(s.pending) && ExpiredKeys(s.pending, now, keys)
    ensures Reaches(steps + [FlushStep(now, keys)], CloseAll(s, keys, now, canon), canon)
  {
    hide Reaches, CloseAll, Expired;
    ReachesPush(steps, s, FlushStep(now, keys), canon);
  }

  // ----- what it scores

  // The scores are those of the first events that left the aggregator, in order.
  ghost predicate Scored(scores: seq<WaveScore.AnomalyScore>, emissions: seq<Emission>, entries: seq<WaveBaseline.WaveBaselineEntry>) {
    && |scores| <= |emissions|
    && forall i :: 0 <= i < |scores| ==> Backtest.IsScoreOf(scores[i], emissions[i].event, entries)
  }

  // How many of the scores are wave anomalies.
  function Waves(scores: seq<WaveScore.AnomalyScore>): nat {
    if scores == [] then 0
    else Waves(scores[..|scores| - 1]) + if scores[|scores| - 1].classification != WaveScore.Normal then 1 else 0
  }

  lemma WavesPush(scores: seq<WaveScore.AnomalyScore>, score: WaveScore.AnomalyScore)
    ensures Waves(scores + [score]) == Waves(scores) + if score.classification != WaveScore.Normal then 1 else 0
  {
    assert (scores + [score])[..|scores|] == scores;
  }

  lemma ScoredPush(scores: seq<WaveScore.AnomalyScore>, emissions: seq<Emission>, entries: seq<WaveBaseline.WaveBaselineEntry>,
      score: WaveScore.AnomalyScore)
    requires Scored(scores, emissions, entries) && |scores| < |emissions|
    requires Backtest.IsScoreOf(score, emissions[|scores|].event, entries)
    ensures Scored(scores + [score], emissions, entries)
  {
    hide Backtest.IsScoreOf;
  }

  lemma ScoredLater(scores: seq<WaveScore.AnomalyScore>, emissions: seq<Emission>, later: seq<Emission>, entries: seq<WaveBaseline.WaveBaselineEntry>)
    requires Scored(scores, emissions, entries) && emissions <= later
    ensures Scored(scores, later, entries)
  {
    hide Backtest.IsScoreOf;
  }

  class DetectorRunner {
    const flapping: Flapping.FlappingDetector
    const hijack: Hijack.HijackDetector
    const aggregator: PropagationAggregator
    // The entries of the attached wave detector's baseline, and its collector distances.
    const wave: Option<seq<WaveBaseline.WaveBaselineEntry>>
    const dist: WaveScore.Distance
    var anomaliesDetected: nat
    // Everything it was fed, what it has counted, and the scores it has given.
    ghost var inputs: seq<Input>
    ghost var flaps: nat
    ghost var hijacks: nat
    ghost var scores: seq<WaveScore.AnomalyScore>

    // The counter is the sum of the three kinds, of which the scores decide the third.
    ghost predicate Counts()
      reads this
    {
      && anomaliesDetected == flaps + hijacks + Waves(scores)
      && (wave.None? ==> scores == [])
    }

    ghost predicate Valid()
      reads this, flapping, aggregator
    {
      && flapping.Valid() && aggregator.Valid() && Counts()
      && Reaches(FeedOf(inputs), aggregator.ledger, aggregator.canon)
      && (wave.Some? ==> Scored(scores, aggregator.ledger.emissions, wave.value) && |scores| == |aggregator.ledger.emissions|)
    }

    constructor (hijack: Hijack.HijackDetector, canon: Canon, wave: Option<seq<WaveBaseline.WaveBaselineEntry>>, dist: WaveScore.Distance)
      ensures Valid() && fresh(flapping) && fresh(aggregator) && this.hijack == hijack && anomaliesDetected == 0
      ensures flapping.runs == map[] && aggregator.ledger == START && aggregator.canon == canon
      ensures this.wave == wave && this.dist == dist && inputs == [] && scores == []
    {
      flapping := new Flapping.FlappingDetector();
      this.hijack := hijack;
      aggregator := new PropagationAggregator(canon);
      this.wave, this.dist := wave, dist;
      anomaliesDetected := 0;
      inputs, flaps, hijacks, scores := [], 0, 0, [];
    }

    /** One record. The flap detector sees every record; the hijack detector sees it without an
        RPKI cache, or as an announcement the cache proves invalid; the aggregator is fed every
        announcement the cache does not call valid, and the event that leaves it, if one does,
        is scored if a wave detector is attached. Each of the three can raise the counter. */
    method ProcessRecord(e: BgpEvent, rpki: Option<RpkiStatus>, irrInconsistent: bool, wallClock: real, now: real)
      returns (flap: bool, alert: Option<real>, event: Option<PropagationEvent>)
      requires Valid()
      modifies this, flapping, hijack, aggregator
      ensures Valid() && inputs == old(inputs) + [Process(e, rpki, now)]
      ensures flapping.runs == old(flapping.runs)[e.record.prefix :=
                (if e.record.prefix in old(flapping.runs) then old(flapping.runs)[e.record.prefix] else []) +
                [Flapping.Check(Flapping.Event(e.record.timestamp, e.kind), wallClock)]]
      ensures flap == Flapping.IsFlapping(Flapping.Deque(flapping.runs[e.record.prefix]))
      ensures rpki.None? ==>
        && hijack.prefixToAsns == Hijack.Learned(old(hijack.prefixToAsns), AsRecord(e))
        && alert == if Hijack.IsNewOrigin(old(hijack.prefixToAsns), AsRecord(e)) then Some(0.85) else None
      ensures e.kind == "announce" && (rpki == Some(InvalidAsn) || rpki == Some(InvalidLength)) ==>
        && hijack.prefixToAsns == Hijack.Learned(old(hijack.prefixToAsns), AsRecord(e))
        && alert == Hijack.Enriched(Hijack.IsNewOrigin(old(hijack.prefixToAsns), AsRecord(e)), rpki.value, irrInconsistent)
      ensures rpki.Some? && (e.kind != "announce" || (rpki != Some(InvalidAsn) && rpki != Some(InvalidLength))) ==>
        hijack.prefixToAsns == old(hijack.prefixToAsns) && alert == None
      ensures e.kind != "announce" || rpki == Some(RpkiStatus.Valid) ==>
        aggregator.ledger == old(aggregator.ledger) && event == None
      ensures e.kind == "announce" && rpki != Some(RpkiStatus.Valid) ==>
        aggregator.ledger == Add(old(aggregator.ledger), e.record, now, aggregator.canon)
      ensures |aggregator.ledger.emissions| == |old(aggregator.ledger.emissions)| + if event.Some? then 1 else 0
      ensures old(scores) <= scores && flaps == old(flaps) + (if flap then 1 else 0)
      ensures hijacks == old(hijacks) + if alert.Some? then 1 else 0
    {
      hide *;
      flap, alert := RunDetectors(e, rpki, irrInconsistent, wallClock);
      event := FeedAggregator(e, rpki, now);
    }

    // The two detectors' part of the record's way.
    method RunDetectors(e: BgpEvent, rpki: Option<RpkiStatus>, irrInconsistent: bool, wallClock: real)
      returns (flap: bool, alert: Option<real>)
      requires Valid()
      modifies this`anomaliesDetected, this`flaps, this`hijacks, flapping, hijack
      ensures Valid()
      ensures flapping.runs == old(flapping.runs)[e.record.prefix :=
                (if e.record.prefix in old(flapping.runs) then old(flapping.runs)[e.record.prefix] else []) +
                [Flapping.Check(Flapping.Event(e.record.timestamp, e.kind), wallClock)]]
      ensures flap == Flapping.IsFlapping(Flapping.Deque(flapping.runs[e.record.prefix]))
      ensures rpki.None? ==>
        && hijack.prefixToAsns == Hijack.Learned(old(hijack.prefixToAsns), AsRecord(e))
        && alert == if Hijack.IsNewOrigin(old(hijack.prefixToAsns), AsRecord(e)) then Some(0.85) else None
      ensures e.kind == "announce" && (rpki == Some(InvalidAsn) || rpki == Some(InvalidLength)) ==>
        && hijack.prefixToAsns == Hijack.Learned(old(hijack.prefixToAsns), AsRecord(e))
        && alert == Hijack.Enriched(Hijack.IsNewOrigin(old(hijack.prefixToAsns), AsRecord(e)), rpki.value, irrInconsistent)
      ensures rpki.Some? && (e.kind != "announce" || (rpki != Some(InvalidAsn) && rpki != Some(InvalidLength))) ==>
        hijack.prefixToAsns == old(hijack.prefixToAsns) && alert == None
      ensures flaps == old(flaps) + (if flap then 1 else 0)
      ensures hijacks == old(hijacks) + if alert.Some? then 1 else 0
    {
      hide Flapping.Deque, Flapping.IsFlapping, Flapping.FlappingDetector.Valid, Hijack.Learned, Hijack.IsNewOrigin, Hijack.Enriched;
      hide Reaches, FeedOf, Scored, Waves, WellFormed, AsRecord, Aggregator.PropagationAggregator.Valid;
      flap := flapping.CheckEvent(e.record.prefix, Flapping.Event(e.record.timestamp, e.kind), wallClock);
      alert := CheckHijack(e, rpki, irrInconsistent);
      anomaliesDetected := anomaliesDetected + (if flap then 1 else 0) + if alert.Some? then 1 else 0;
      flaps, hijacks := flaps + (if flap then 1 else 0), hijacks + if alert.Some? then 1 else 0;
    }

    // The aggregator's part of the record's way, and the wave detector's.
    method FeedAggregator(e: BgpEvent, rpki: Option<RpkiStatus>, now: real) returns (event: Option<PropagationEvent>)
      requires Valid()
      modifies this`inputs, this`anomaliesDetected, this`scores, aggregator
      ensures Valid() && inputs == old(inputs) + [Process(e, rpki, now)] && old(scores) <= scores
      ensures e.kind != "announce" || rpki == Some(RpkiStatus.Valid) ==>
        aggregator.ledger == old(aggregator.ledger) && event == None
      ensures e.kind == "announce" && rpki != Some(RpkiStatus.Valid) ==>
        aggregator.ledger == Add(old(aggregator.ledger), e.record, now, aggregator.canon)
      ensures |aggregator.ledger.emissions| == |old(aggregator.ledger.emissions)| + if event.Some? then 1 else 0
    {
      hide Add, Group, WellFormed, FeedOf, Reaches, Scored, Waves, FromRecord;
      event := None;
      FeedPush(inputs, Process(e, rpki, now));
      ghost var (feed, before) := (FeedOf(inputs), aggregator.ledger);
      inputs := inputs + [Process(e, rpki, now)];
      if e.kind == "announce" && rpki != Some(RpkiStatus.Valid) {
        AddReaches(feed, before, e.record, now, aggregator.canon);
        event := aggregator.AddRecord(e.record, now);
        StillScored(before.emissions, aggregator.ledger.emissions);
      } else {
        assert feed + [] == feed;
      }
      if event.Some? {
        ScorePropagationEvent(event.value);
      }
    }

    lemma StillScored(before: seq<Emission>, after: seq<Emission>)
      requires wave.Some? ==> Scored(scores, before, wave.value) && before <= after
      ensures wave.Some? ==> Scored(scores, after, wave.value)
    {
      if wave.Some? {
        ScoredLater(scores, before, after, wave.value);
      }
    }

    // Whether this is the next event to be scored.
    ghost predicate IsNext(event: PropagationEvent)
      reads this, aggregator
    {
      wave.Some? ==>
        && Scored(scores, aggregator.ledger.emissions, wave.value)
        && |scores| < |aggregator.ledger.emissions| && aggregator.ledger.emissions[|scores|].event == event
    }

    /** Scores one event, unless no wave detector is attached, and counts anything but Normal. */
    method ScorePropagationEvent(event: PropagationEvent)
      requires Counts() && IsNext(event)
      modifies this`anomaliesDetected, this`scores
      ensures Counts()
      ensures wave.None? ==> scores == old(scores)
      ensures wave.Some? ==>
        |scores| == |old(scores)| + 1 && old(scores) <= scores && Scored(scores, aggregator.ledger.emissions, wave.value)
    {
      hide Scored, Waves, Backtest.IsScoreOf;
      if wave.None? {
        return;
      }
      var score := WaveScore.ScoreEvent(event, wave.value, dist, WaveScore.DEFAULT);
      Backtest.ScoreIsScore(score, event, wave.value, dist);
      ScoredPush(scores, aggregator.ledger.emissions, wave.value, score);
      WavesPush(scores, score);
      scores := scores + [score];
      if score.classification.Normal? {
        return;
      }
      anomaliesDetected := anomaliesDetected + 1;
    }

    /** The periodic flush: nothing at all without a wave detector; otherwise every expired
        group is closed and its event scored. */
    method FlushPropagationEvents(now: real) returns (ghost keys: seq<GroupKey>)
      requires Valid()
      modifies this, aggregator
      ensures Valid() && flaps == old(flaps) && hijacks == old(hijacks)
      ensures wave.None? ==>
        inputs == old(inputs) && aggregator.ledger == old(aggregator.ledger) && anomaliesDetected == old(anomaliesDetected)
      ensures wave.Some? ==>
        && inputs == old(inputs) + [Flush(now, keys)] && old(scores) <= scores
        && ExpiredKeys(old(aggregator.pending), now, keys)
        && aggregator.ledger == CloseAll(old(aggregator.ledger), keys, now, aggregator.canon)
    {
      hide FeedOf, Reaches, Scored, Waves, ExpiredKeys, CloseAll, WellFormed, Expired;
      if wave.None? {
        keys := [];
        return;
      }
      ghost var (feed, before, given) := (FeedOf(inputs), aggregator.ledger, scores);
      var events;
      events, keys := aggregator.FlushExpired(now);
      FeedPush(inputs, Flush(now, keys));
      FlushReaches(feed, before, now, keys, aggregator.canon);
      inputs := inputs + [Flush(now, keys)];
      FlushKeepsEarlier(before, keys, now, aggregator.canon);
      StillScored(before.emissions, aggregator.ledger.emissions);
      for i := 0 to |events|
        invariant Counts() && Scored(scores, aggregator.ledger.emissions, wave.value)
        invariant |scores| == |before.emissions| + i && given <= scores
        modifies this`anomaliesDetected, this`scores
      {
        ScorePropagationEvent(events[i]);
      }
    }

    // The hijack part of the record's way.
    method CheckHijack(e: BgpEvent, rpki: Option<RpkiStatus>, irrInconsistent: bool) returns (alert: Option<real>)
      modifies hijack
      ensures rpki.None? ==>
        && hijack.prefixToAsns == Hijack.Learned(old(hijack.prefixToAsns), AsRecord(e))
        && alert == if Hijack.IsNewOrigin(old(hijack.prefixToAsns), AsRecord(e)) then Some(0.85) else None
      ensures e.kind == "announce" && (rpki == Some(InvalidAsn) || rpki == Some(InvalidLength)) ==>
        && hijack.prefixToAsns == Hijack.Learned(old(hijack.prefixToAsns), AsRecord(e))
        && alert == Hijack.Enriched(Hijack.IsNewOrigin(old(hijack.prefixToAsns), AsRecord(e)), rpki.value, irrInconsistent)
      ensures rpki.Some? && (e.kind != "announce" || (rpki != Some(InvalidAsn) && rpki != Some(InvalidLength))) ==>
        hijack.prefixToAsns == old(hijack.prefixToAsns) && alert == None
    {
      alert := None;
      if rpki.None? {
        alert := hijack.Check(AsRecord(e));
      } else if e.kind == "announce" {
        if rpki.value.InvalidAsn? || rpki.value.InvalidLength? {
          alert := hijack.CheckWithRpkiStatus(AsRecord(e), rpki.value, irrInconsistent);
        }
      }
    }

    /** Against an offline baseline, which files every event under its origin alone, the wave
        part of the counter is zero as long as every announcement fed has a path of one to
        seven transit hops with a real AS among them. */
    lemma OfflineBaselineNeverCounts(b: WaveBaseline.WaveBaseline, fed: seq<PropagationEvent>, minSamples: nat, sqrt: SpreadStats.Sqrt)
      requires Valid() && wave == Some(b.entries) && IsOffline(b, fed, minSamples, sqrt)
      requires forall record :: FedRecord(inputs, record) ==> HasTransit(record.path, record.origin)
      ensures anomaliesDetected == flaps + hijacks
    {
      hide FeedOf, Reaches, HasTransit, IsOffline, Waves, FedRecord;
      var s := aggregator.ledger;
      forall i | 0 <= i < |scores|
        ensures scores[i] == WaveScore.NO_SCORE
      {
        var record := EmissionHasFedPath(inputs, s, aggregator.canon, i);
        assert HasTransit(record.path, record.origin);
        TransitNeverScores(b, fed, minSamples, sqrt, s.emissions[i].event, scores[i]);
      }
      NoWaves(scores);
    }
  }

  // ----- what an offline baseline makes of live paths

  ghost predicate IsOffline(b: WaveBaseline.WaveBaseline, fed: seq<PropagationEvent>, minSamples: nat, sqrt: SpreadStats.Sqrt) {
    WaveBaseline.IsBuilt(b, fed, minSamples, sqrt) && forall e :: e in fed ==> PathHash.Hash(e.path) == e.origin
  }

  // One to seven transit hops before the origin, one of them a real AS.
  ghost predicate HasTransit(path: PathHash.Path, origin: U32) {
    exists transit: PathHash.Path :: IsTransit(transit) && path == transit + [origin]
  }

  predicate IsTransit(transit: PathHash.Path) {
    |transit| <= 7 && exists i :: 0 <= i < |transit| && transit[i] != 0
  }

  lemma TransitNeverScores(b: WaveBaseline.WaveBaseline, fed: seq<PropagationEvent>, minSamples: nat, sqrt: SpreadStats.Sqrt,
      event: PropagationEvent, score: WaveScore.AnomalyScore)
    requires IsOffline(b, fed, minSamples, sqrt) && HasTransit(event.path, event.origin)
    requires Backtest.IsScoreOf(score, event, b.entries)
    ensures score == WaveScore.NO_SCORE
  {
    hide WaveBaseline.IsBuilt, Backtest.IsScoreOf, PathHash.Hash;
    var transit: PathHash.Path :| IsTransit(transit) && event.path == transit + [event.origin];
    Backtest.LiveTransitNeverScores(b, fed, minSamples, sqrt, event, score, transit);
  }

  lemma {:induction false} NoWaves(scores: seq<WaveScore.AnomalyScore>)
    requires forall i :: 0 <= i < |scores| ==> scores[i] == WaveScore.NO_SCORE
    ensures Waves(scores) == 0
  {
    if scores == [] {
    } else {
      NoWaves(scores[..|scores| - 1]);
    }
  }

  // Some announcement that RPKI did not call valid was this record.
  ghost predicate FedRecord(inputs: seq<Input>, record: BgpRecord) {
    exists i :: 0 <= i < |inputs| && inputs[i].Process? && inputs[i].e.record == record
                && inputs[i].e.kind == "announce" && inputs[i].rpki != Some(RpkiStatus.Valid)
  }

  lemma {:induction false} AddsAreFed(inputs: seq<Input>, step: Step)
    requires step in FeedOf(inputs) && step.AddStep?
    ensures FedRecord(inputs, step.record)
  {
    if inputs == [] {
    } else {
      var (init, last) := (inputs[..|inputs| - 1], inputs[|inputs| - 1]);
      if step in FeedOf(init) {
        AddsAreFed(init, step);
        var i :| 0 <= i < |init| && init[i].Process? && init[i].e.record == step.record
          && init[i].e.kind == "announce" && init[i].rpki != Some(RpkiStatus.Valid);
        assert inputs[i] == init[i];
      } else {
        assert step in StepsOf(last);
        assert inputs[|inputs| - 1] == last;
      }
    }
  }

  // Every event that left the aggregator has the path of an announcement that was fed.
  lemma EmissionHasFedPath(inputs: seq<Input>, s: AggState, canon: Canon, k: nat) returns (record: BgpRecord)
    requires Reaches(FeedOf(inputs), s, canon) && k < |s.emissions|
    ensures FedRecord(inputs, record)
    ensures record.path == s.emissions[k].event.path && record.origin == s.emissions[k].event.origin
  {
    hide FeedOf, Reaches, NewEvent, PathHash.Hash, FedRecord;
    var (feed, m) := (FeedOf(inputs), s.emissions[k]);
    NothingLeavesEarly(feed, s, canon);
    assert Proper(m, canon) && OpenedBy(feed, m.key, m.event.path, m.openedAt);
    var i :| 0 <= i < |feed| && feed[i].AddStep? && feed[i].now == m.openedAt
      && FromRecord(feed[i].record) == m.key && feed[i].record.path == m.event.path;
    assert feed[i] in feed;
    AddsAreFed(inputs, feed[i]);
    record := feed[i].record;
  }

  lemma FlushKeepsEarlier(s: AggState, keys: seq<GroupKey>, now: real, canon: Canon)
    requires WellFormed(s.pending) && ExpiredKeys(s.pending, now, keys)
    ensures s.emissions <= CloseAll(s, keys, now, canon).emissions
  {
    hide CloseAll, Expired;
    CloseAllAppends(s, keys, now, canon);
  }

  lemma {:induction false} CloseAllAppends(s: AggState, keys: seq<GroupKey>, now: real, canon: Canon)
    requires WellFormed(s.pending) && Seqs.Distinct(keys)
    requires forall i :: 0 <= i < |keys| ==> keys[i] in s.pending
    ensures s.emissions <= CloseAll(s, keys, now, canon).emissions
    decreases |keys|
  {
    hide Close, PathHash.Hash, NewEvent;
    if keys == [] {
    } else {
      CloseEffect(s, keys[0], now, canon);
      CloseAllAppends(Close(s, keys[0], now, canon), keys[1..], now, canon);
    }
  }

  // ----- what the early return costs

  // Some announcement that RPKI did not call valid brought this arrival.
  ghost predicate Brought(inputs: seq<Input>, t: Token) {
    exists record :: FedRecord(inputs, record) && t == Token(FromRecord(record), record.collector, record.timestamp)
  }

  lemma {:induction false} FedByAdd(steps: seq<Step>, t: Token) returns (i: nat)
    requires t in Fed(steps)
    ensures i < |steps| && steps[i].AddStep?
    ensures t == Token(FromRecord(steps[i].record), steps[i].record.collector, steps[i].record.timestamp)
  {
    hide FromRecord;
    i := |steps| - 1;
    if t in Fed(steps[..i]) {
      i := FedByAdd(steps[..i], t);
    }
  }

  lemma FedIsBrought(inputs: seq<Input>, t: Token)
    requires t in Fed(FeedOf(inputs))
    ensures Brought(inputs, t)
  {
    hide FeedOf, Fed, FedRecord, FromRecord;
    var i := FedByAdd(FeedOf(inputs), t);
    var step := FeedOf(inputs)[i];
    assert step in FeedOf(inputs);
    AddsAreFed(inputs, step);
    assert FedRecord(inputs, step.record);
  }

  lemma {:induction false} EmittedArrivals(emissions: seq<Emission>, k: nat, c: string)
    requires k < |emissions| && c in emissions[k].event.arrivals
    ensures Token(emissions[k].key, c, emissions[k].event.arrivals[c]) in EmittedTokens(emissions)
  {
    var n := |emissions| - 1;
    if k < n {
      EmittedArrivals(emissions[..n], k, c);
    } else {
      assert Token(emissions[k].key, c, emissions[k].event.arrivals[c]) in GroupTokens(emissions[k].key, emissions[k].event.arrivals);
    }
  }

  /** So in every run of the runner, each arrival in each emitted event was brought by an
      announcement that RPKI did not call valid: a route every record of which validates is
      never observed as a wave, let alone scored. */
  lemma ValidRoutesAreNeverObserved(inputs: seq<Input>, s: AggState, canon: Canon, k: nat, c: string)
    requires Reaches(FeedOf(inputs), s, canon)
    requires k < |s.emissions| && c in s.emissions[k].event.arrivals
    ensures Brought(inputs, Token(s.emissions[k].key, c, s.emissions[k].event.arrivals[c]))
  {
    hide PathHash.Hash, FeedOf, Reaches, Brought, EmittedTokens, PendingTokens, Fed;
    EveryArrivalIsAccountedFor(FeedOf(inputs), s, canon);
    EmittedArrivals(s.emissions, k, c);
    FedIsBrought(inputs, Token(s.emissions[k].key, c, s.emissions[k].event.arrivals[c]));
  }
}
