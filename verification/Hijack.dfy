/** The hijack detector and the three entry points that share it (src/anomaly_detector.rs,
    src/detector_runner.rs, src/handlers/mod.rs). */
module Hijack {
  import opened Wrappers
  import opened Rpki
  import Ewma

  datatype Record = Record(prefix: string, origin: U32, kind: string)

  type Known = map<string, set<U32>>

  function Origins(known: Known, prefix: string): set<U32> {
    if prefix in known then known[prefix] else {}
  }

  predicate Knows(known: Known, r: Record) {
    r.origin in Origins(known, r.prefix)
  }

  // What the synchronous check leaves behind, and whether it took the new-origin branch.
  function Learned(known: Known, r: Record): Known {
    if r.kind == "withdraw" then known else known[r.prefix := Origins(known, r.prefix) + {r.origin}]
  }

  predicate IsNewOrigin(known: Known, r: Record) {
    r.kind != "withdraw" && !Knows(known, r)
  }

  // The confidence of the check's own alert.
  const NEW_ORIGIN := 0.85

  // The confidence after RPKI and IRR enrichment, if there is an alert.
  function Enriched(isNew: bool, rpki: RpkiStatus, irrInconsistent: bool): Option<real> {
    match rpki
    case InvalidAsn | InvalidLength =>
      Some(if isNew then (if irrInconsistent then 0.99 else 0.97) else if irrInconsistent then 0.75 else 0.60)
    case Valid => if isNew then Some(0.3) else None
    case _ => if isNew then Some(if irrInconsistent then 0.90 else NEW_ORIGIN) else None
  }

  class HijackDetector {
    var prefixToAsns: Known

    constructor ()
      ensures prefixToAsns == map[]
    {
      prefixToAsns := map[];
    }

    method Check(event: Record) returns (alert: Option<real>)
      modifies this
      ensures prefixToAsns == Learned(old(prefixToAsns), event)
      ensures alert == if IsNewOrigin(old(prefixToAsns), event) then Some(NEW_ORIGIN) else None
    {
      if event.kind == "withdraw" {
        return None;
      }
      var asnSet := if event.prefix in prefixToAsns then prefixToAsns[event.prefix] else {};
      if event.origin in asnSet {
        prefixToAsns := prefixToAsns[event.prefix := asnSet];
        assert asnSet + {event.origin} == asnSet;
        return None;
      }
      prefixToAsns := prefixToAsns[event.prefix := asnSet + {event.origin}];
      return Some(NEW_ORIGIN);
    }

    method CheckWithRpkiStatus(event: Record, rpki: RpkiStatus, irrInconsistent: bool) returns (alert: Option<real>)
      modifies this
      ensures prefixToAsns == Learned(old(prefixToAsns), event)
      ensures alert == if event.kind == "withdraw" then None
                       else Enriched(IsNewOrigin(old(prefixToAsns), event), rpki, irrInconsistent)
    {
      if event.kind == "withdraw" {
        return None;
      }
      var anomaly := Check(event);
      match anomaly
      case None =>
        if rpki.InvalidAsn? || rpki.InvalidLength? {
          return Some(if irrInconsistent then 0.75 else 0.60);
        }
        return None;
      case Some(confidence) =>
        if rpki.Valid? {
          return Some(0.3);
        } else if rpki.InvalidAsn? || rpki.InvalidLength? {
          return Some(if irrInconsistent then 0.99 else 0.97);
        }
        return Some(if irrInconsistent then 0.90 else confidence);
    }
  }

  // ----- the shared detector as a state machine

  const CHANNEL_CAPACITY: nat := 2048

  // cause: the step that raised it.
  datatype Alert = Alert(cause: Step, record: Record, isNew: bool, confidence: real)

  // The smoothing factor the detector's baseline is always built with.
  const ALPHA := 0.1

  type Lengths = map<string, seq<real>>

  // lengths: the path lengths the HTTP baseline has folded in, per prefix; checked: records
  // whose synchronous check has run in an HTTP handler; queue: records on their way to the
  // enrichment task; alerts: all that were raised, whether or not their channel had room.
  datatype State = State(known: Known, lengths: Lengths, checked: set<Record>, queue: seq<Record>, alerts: seq<Alert>)

  datatype Step =
    // The check of an HTTP handler, with the path length and the two other features that
    // enhance its confidence.
    | HttpCheck(record: Record, length: real, unusual: bool, wellKnown: bool)
    // The handler sends a record it has checked; a full channel drops it.
    | HttpSend(record: Record)
    // The enrichment task takes the next record.
    | Enrich(rpki: RpkiStatus, irrInconsistent: bool)
    // The runner's hijack part, with or without an RPKI cache.
    | RunnerRecord(record: Record, cache: Option<RpkiStatus>, irrInconsistent: bool)

  predicate Enabled(s: State, step: Step) {
    match step
    case HttpSend(r) => r in s.checked
    case Enrich(_, _) => s.queue != []
    case _ => true
  }

  function Raise(s: State, cause: Step, r: Record, confidence: Option<real>): State {
    var next := s.(known := Learned(s.known, r));
    if confidence.None? then next
    else next.(alerts := s.alerts + [Alert(cause, r, IsNewOrigin(s.known, r), confidence.value)])
  }

  function PlainCheck(s: State, cause: Step, r: Record): State {
    Raise(s, cause, r, if IsNewOrigin(s.known, r) then Some(NEW_ORIGIN) else None)
  }

  function EnrichedCheck(s: State, cause: Step, r: Record, rpki: RpkiStatus, irrInconsistent: bool): State {
    Raise(s, cause, r, if r.kind == "withdraw" then None else Enriched(IsNewOrigin(s.known, r), rpki, irrInconsistent))
  }

  function LengthsOf(lengths: Lengths, prefix: string): seq<real> {
    if prefix in lengths then lengths[prefix] else []
  }

  // The baseline is updated first; the boost then comes on top of the check's confidence.
  function BoostedCheck(s: State, cause: Step, r: Record, length: real, unusual: bool, wellKnown: bool): State {
    var past := LengthsOf(s.lengths, r.prefix);
    var boost := Ewma.CheckedBoost(past, length, ALPHA, unusual, wellKnown);
    Raise(s, cause, r, if IsNewOrigin(s.known, r) then Some(Ewma.Enhance(NEW_ORIGIN, boost)) else None)
      .(checked := s.checked + {r}, lengths := s.lengths[r.prefix := past + [length]])
  }

  function Apply(s: State, step: Step): State
    requires Enabled(s, step)
  {
    match step
    case HttpCheck(r, length, unusual, wellKnown) => BoostedCheck(s, step, r, length, unusual, wellKnown)
    case HttpSend(r) => if |s.queue| < CHANNEL_CAPACITY then s.(queue := s.queue + [r]) else s
    case Enrich(rpki, irr) =>
      var (r, rest) := (s.queue[0], s.(queue := s.queue[1..]));
      if r.kind != "announce" then rest else EnrichedCheck(rest, step, r, rpki, irr)
    case RunnerRecord(r, None, _) => PlainCheck(s, step, r)
    case RunnerRecord(r, Some(rpki), irr) =>
      if r.kind == "announce" && (rpki.InvalidAsn? || rpki.InvalidLength?) then EnrichedCheck(s, step, r, rpki, irr) else s
  }

  ghost predicate IsRun(states: seq<State>, steps: seq<Step>, warm: Known) {
    && |states| == |steps| + 1
    && states[0] == State(warm, map[], {}, [], [])
    && forall i :: 0 <= i < |steps| ==> Enabled(states[i], steps[i]) && states[i + 1] == Apply(states[i], steps[i])
  }

  ghost predicate Grows(a: Known, b: Known) {
    forall p :: Origins(a, p) <= Origins(b, p)
  }

  lemma StepGrows(s: State, step: Step)
    requires Enabled(s, step)
    ensures Grows(s.known, Apply(s, step).known)
  {
  }

  // Everything checked or queued is known, unless it is a withdrawal.
  ghost predicate Inv(s: State) {
    && (forall r :: r in s.checked && r.kind != "withdraw" ==> Knows(s.known, r))
    && (forall i :: 0 <= i < |s.queue| && s.queue[i].kind != "withdraw" ==> Knows(s.known, s.queue[i]))
  }

  lemma StillKnown(a: Known, b: Known, r: Record)
    requires Grows(a, b) && Knows(a, r)
    ensures Knows(b, r)
  {
    assert Origins(a, r.prefix) <= Origins(b, r.prefix);
  }

  lemma StepKeepsInv(s: State, step: Step)
    requires Inv(s) && Enabled(s, step)
    ensures Inv(Apply(s, step))
  {
    hide Grows, Knows, Ewma.CheckedBoost, Ewma.Enhance;
    var t := Apply(s, step);
    StepGrows(s, step);
    forall r | r in s.checked && r.kind != "withdraw"
      ensures Knows(t.known, r)
    {
      StillKnown(s.known, t.known, r);
    }
    forall i | 0 <= i < |s.queue| && s.queue[i].kind != "withdraw"
      ensures Knows(t.known, s.queue[i])
    {
      StillKnown(s.known, t.known, s.queue[i]);
    }
    if step.HttpCheck? && step.record.kind != "withdraw" {
      NowKnown(s.known, step.record);
    }
  }

  lemma NowKnown(known: Known, r: Record)
    requires r.kind != "withdraw"
    ensures Knows(Learned(known, r), r)
  {
  }

  /** Along every run from a warmed-up detector, the known origins of every prefix only grow. */
  lemma {:induction false} KnownOriginsOnlyGrow(states: seq<State>, steps: seq<Step>, warm: Known, i: nat, j: nat)
    requires IsRun(states, steps, warm) && i <= j < |states|
    ensures Grows(states[i].known, states[j].known)
    decreases j - i
  {
    hide Apply, Grows;
    if i == j {
      GrowsReflexive(states[i].known);
    } else {
      KnownOriginsOnlyGrow(states, steps, warm, i, j - 1);
      StepGrows(states[j - 1], steps[j - 1]);
      GrowsTransitive(states[i].known, states[j - 1].known, states[j].known);
    }
  }

  lemma GrowsReflexive(a: Known)
    ensures Grows(a, a)
  {
  }

  lemma GrowsTransitive(a: Known, b: Known, c: Known)
    requires Grows(a, b) && Grows(b, c)
    ensures Grows(a, c)
  {
    forall p
      ensures Origins(a, p) <= Origins(c, p)
    {
      assert Origins(a, p) <= Origins(b, p) && Origins(b, p) <= Origins(c, p);
    }
  }

  // What each entry point can say: enrichment only ever speaks of known origins.
  predicate Proper(a: Alert) {
    match a.cause
    case HttpCheck(_, _, unusual, wellKnown) =>
      a.isNew && a.confidence == 0.85 + (if unusual then 0.05 else 0.0) - (if wellKnown then 0.1 else 0.0)
    case HttpSend(_) => false
    case Enrich(rpki, irr) =>
      !a.isNew && (rpki == InvalidAsn || rpki == InvalidLength) && a.confidence == if irr then 0.75 else 0.60
    case RunnerRecord(_, None, _) => a.isNew && a.confidence == 0.85
    case RunnerRecord(_, Some(rpki), irr) =>
      && (rpki == InvalidAsn || rpki == InvalidLength)
      && a.confidence == if a.isNew then (if irr then 0.99 else 0.97) else if irr then 0.75 else 0.60
  }

  ghost predicate AllProper(s: State) {
    forall i :: 0 <= i < |s.alerts| ==> Proper(s.alerts[i])
  }

  lemma StepKeepsProper(s: State, step: Step)
    requires Inv(s) && Enabled(s, step) && AllProper(s)
    ensures AllProper(Apply(s, step))
  {
    hide Learned, Knows, Ewma.CheckedBoost, Ewma.Enhance;
    if step.HttpCheck? {
      Ewma.DetectorBoostIgnoresPathLength(LengthsOf(s.lengths, step.record.prefix), step.length, ALPHA, step.unusual, step.wellKnown);
    }
  }

  lemma {:induction false} RunKeepsInv(states: seq<State>, steps: seq<Step>, warm: Known, i: nat)
    requires IsRun(states, steps, warm) && i < |states|
    ensures Inv(states[i]) && AllProper(states[i])
  {
    hide Apply;
    if i == 0 {
    } else {
      RunKeepsInv(states, steps, warm, i - 1);
      StepKeepsInv(states[i - 1], steps[i - 1]);
      StepKeepsProper(states[i - 1], steps[i - 1]);
    }
  }

  /** In every interleaving, an announcement enriched after its own synchronous check takes the
      known-origin branch, so enrichment alerts carry 0.60, or 0.75 if the IRR disagrees too, and
      nothing else. The runner with an RPKI cache speaks of proven invalidity alone, without one
      of new origins alone. The 0.3 the enriched check can produce never appears anywhere, and
      its 0.90 never comes from enrichment or from the runner; an HTTP alert carries one of the
      four boosted values. */
  lemma EnrichmentNeverSeesANewOrigin(states: seq<State>, steps: seq<Step>, warm: Known)
    requires IsRun(states, steps, warm)
    ensures forall a :: a in states[|steps|].alerts ==>
      && (a.cause.Enrich? ==>
            && !a.isNew && (a.cause.rpki == InvalidAsn || a.cause.rpki == InvalidLength)
            && a.confidence == if a.cause.irrInconsistent then 0.75 else 0.60)
      && (a.cause.RunnerRecord? && a.cause.cache.None? ==> a.isNew && a.confidence == 0.85)
      && (a.cause.RunnerRecord? && a.cause.cache.Some? ==>
            && (a.cause.cache == Some(InvalidAsn) || a.cause.cache == Some(InvalidLength))
            && a.confidence == if a.isNew then (if a.cause.irrInconsistent then 0.99 else 0.97)
                               else if a.cause.irrInconsistent then 0.75 else 0.60)
      && (a.cause.HttpCheck? ==> a.isNew && a.confidence in {0.75, 0.80, 0.85, 0.90})
      && a.confidence != 0.3
      && (!a.cause.HttpCheck? ==> a.confidence != 0.90)
  {
    RunKeepsInv(states, steps, warm, |steps|);
  }

  /** The whole table of the enriched check: invalidity alone raises a new origin's confidence
      and reports a known one, validity lowers it, and an IRR that disagrees adds to each but
      validity. */
  lemma EnrichedTable(status: RpkiStatus)
    ensures status == InvalidAsn || status == InvalidLength ==>
      && Enriched(true, status, false) == Some(0.97) && Enriched(true, status, true) == Some(0.99)
      && Enriched(false, status, false) == Some(0.60) && Enriched(false, status, true) == Some(0.75)
    ensures status == Valid ==> forall irr :: Enriched(true, status, irr) == Some(0.3) && Enriched(false, status, irr) == None
    ensures status == NotFound || status == Unavailable ==>
      && Enriched(true, status, false) == Some(0.85) && Enriched(true, status, true) == Some(0.90)
      && forall irr :: Enriched(false, status, irr) == None
  {
  }

  // ----- what is known

  // The record that a step in this state shows to the detector.
  function Shown(s: State, step: Step): Option<Record>
    requires Enabled(s, step)
  {
    match step
    case HttpCheck(r, _, _, _) => Some(r)
    case HttpSend(_) => None
    case Enrich(_, _) => if s.queue[0].kind == "announce" then Some(s.queue[0]) else None
    case RunnerRecord(r, None, _) => Some(r)
    case RunnerRecord(r, Some(rpki), _) =>
      if r.kind == "announce" && (rpki == InvalidAsn || rpki == InvalidLength) then Some(r) else None
  }

  // An announcement, or anything else that is not a withdrawal, of this origin was shown.
  ghost predicate Showed(states: seq<State>, steps: seq<Step>, j: int, prefix: string, origin: U32)
    requires |states| == |steps| + 1 && 0 <= j < |steps| && Enabled(states[j], steps[j])
  {
    var r := Shown(states[j], steps[j]);
    r.Some? && r.value.prefix == prefix && r.value.origin == origin && r.value.kind != "withdraw"
  }

  lemma StepLearns(s: State, step: Step, prefix: string, origin: U32)
    requires Enabled(s, step)
    ensures var r := Shown(s, step);
      origin in Origins(Apply(s, step).known, prefix) <==>
        || origin in Origins(s.known, prefix)
        || (r.Some? && r.value.prefix == prefix && r.value.origin == origin && r.value.kind != "withdraw")
  {
    hide Ewma.CheckedBoost, Ewma.Enhance;
  }

  /** In every interleaving, what is known of a prefix is what warm-up brought and what has been
      shown to the detector since, and nothing else. */
  lemma {:induction false} KnownOriginsAreThoseShown(states: seq<State>, steps: seq<Step>, warm: Known, i: nat, prefix: string, origin: U32)
    requires IsRun(states, steps, warm) && i < |states|
    ensures origin in Origins(states[i].known, prefix) <==>
      origin in Origins(warm, prefix) || exists j :: 0 <= j < i && Showed(states, steps, j, prefix, origin)
  {
    hide Apply, Shown;
    if i == 0 {
    } else {
      KnownOriginsAreThoseShown(states, steps, warm, i - 1, prefix, origin);
      StepLearns(states[i - 1], steps[i - 1], prefix, origin);
      assert Showed(states, steps, i - 1, prefix, origin) ==> exists j :: 0 <= j < i && Showed(states, steps, j, prefix, origin);
    }
  }

  /** An HTTP check raises an alert exactly for a new origin, and the alert carries 0.90
      exactly when the prefix length is unusual and the AS not well known, whatever path
      lengths the baseline has seen. */
  lemma HttpBoostReachesNinety(s: State, r: Record, length: real, unusual: bool, wellKnown: bool)
    ensures var t := Apply(s, HttpCheck(r, length, unusual, wellKnown));
      && |t.alerts| == |s.alerts| + (if IsNewOrigin(s.known, r) then 1 else 0)
      && (IsNewOrigin(s.known, r) ==>
            (t.alerts[|s.alerts|].confidence == 0.90 <==> unusual && !wellKnown))
  {
    hide Ewma.CheckedBoost;
    Ewma.DetectorBoostIgnoresPathLength(LengthsOf(s.lengths, r.prefix), length, ALPHA, unusual, wellKnown);
  }

  // ----- new origins fire once

  function NewAlerts(alerts: seq<Alert>, prefix: string, origin: U32): nat {
    if alerts == [] then 0
    else
      var a := alerts[|alerts| - 1];
      NewAlerts(alerts[..|alerts| - 1], prefix, origin) +
      if a.isNew && a.record.prefix == prefix && a.record.origin == origin then 1 else 0
  }

  lemma RaiseCounts(s: State, cause: Step, r: Record, confidence: Option<real>, prefix: string, origin: U32)
    requires IsNewOrigin(s.known, r) ==> confidence.Some?
    requires confidence.Some? ==> r.kind != "withdraw"
    ensures var t := Raise(s, cause, r, confidence);
      NewAlerts(t.alerts, prefix, origin) == NewAlerts(s.alerts, prefix, origin) +
        if origin in Origins(t.known, prefix) && origin !in Origins(s.known, prefix) then 1 else 0
  {
    var t := Raise(s, cause, r, confidence);
    if confidence.Some? {
      assert t.alerts[..|s.alerts|] == s.alerts;
    }
  }

  lemma StepCounts(s: State, step: Step, prefix: string, origin: U32)
    requires Enabled(s, step)
    ensures var t := Apply(s, step);
      NewAlerts(t.alerts, prefix, origin) == NewAlerts(s.alerts, prefix, origin) +
        if origin in Origins(t.known, prefix) && origin !in Origins(s.known, prefix) then 1 else 0
  {
    hide NewAlerts, Raise, Ewma.CheckedBoost, Ewma.Enhance;
    match step
    case HttpCheck(r, length, unusual, wellKnown) =>
      var boost := Ewma.CheckedBoost(LengthsOf(s.lengths, r.prefix), length, ALPHA, unusual, wellKnown);
      RaiseCounts(s, step, r, if IsNewOrigin(s.known, r) then Some(Ewma.Enhance(NEW_ORIGIN, boost)) else None, prefix, origin);
    case HttpSend(r) =>
    case Enrich(rpki, irr) =>
      var (r, rest) := (s.queue[0], s.(queue := s.queue[1..]));
      RaiseCounts(rest, step, r, if r.kind == "withdraw" then None else Enriched(IsNewOrigin(rest.known, r), rpki, irr), prefix, origin);
    case RunnerRecord(r, None, irr) =>
      RaiseCounts(s, step, r, if IsNewOrigin(s.known, r) then Some(NEW_ORIGIN) else None, prefix, origin);
    case RunnerRecord(r, Some(rpki), irr) =>
      RaiseCounts(s, step, r, if r.kind == "withdraw" then None else Enriched(IsNewOrigin(s.known, r), rpki, irr), prefix, origin);
  }

  /** In every interleaving the new-origin branch has fired exactly once for each origin
      learned since warm-up, by whichever entry point saw it first, and never for any other. */
  lemma {:induction false} NewOriginFiresOnce(states: seq<State>, steps: seq<Step>, warm: Known, i: nat, prefix: string, origin: U32)
    requires IsRun(states, steps, warm) && i < |states|
    ensures NewAlerts(states[i].alerts, prefix, origin) ==
            if origin in Origins(states[i].known, prefix) && origin !in Origins(warm, prefix) then 1 else 0
  {
    hide Apply;
    if i == 0 {
    } else {
      NewOriginFiresOnce(states, steps, warm, i - 1, prefix, origin);
      StepCounts(states[i - 1], steps[i - 1], prefix, origin);
      KnownOriginsOnlyGrow(states, steps, warm, 0, i - 1);
      StepGrows(states[i - 1], steps[i - 1]);
      assert Origins(states[i - 1].known, prefix) <= Origins(states[i].known, prefix);
      assert Origins(states[0].known, prefix) <= Origins(states[i - 1].known, prefix);
    }
  }
}
