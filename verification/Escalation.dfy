/** The string an alert's fingerprint is the hash of (src/alert_dedup.rs). */
module Fingerprints {
  function Digit(d: nat): char
    requires d < 10
  {
    "0123456789"[d]
  }

  function Decimal(n: nat): (s: string)
    ensures s != [] && forall i :: 0 <= i < |s| ==> '0' <= s[i] <= '9'
  {
    if n < 10 then [Digit(n)] else Decimal(n / 10) + [Digit(n % 10)]
  }

  function ValueOf(s: string): nat
    requires forall i :: 0 <= i < |s| ==> '0' <= s[i] <= '9'
  {
    if s == [] then 0 else 10 * ValueOf(s[..|s| - 1]) + (s[|s| - 1] as int - '0' as int)
  }

  lemma DigitValue(d: nat)
    requires d < 10
    ensures Digit(d) as int - '0' as int == d
  {
  }

  lemma {:induction false} DecimalRoundTrip(n: nat)
    ensures ValueOf(Decimal(n)) == n
  {
    hide Digit;
    DigitValue(n % 10);
    if n < 10 {
      assert [Digit(n)][..0] == [];
    } else {
      DecimalRoundTrip(n / 10);
      assert Decimal(n)[..|Decimal(n)| - 1] == Decimal(n / 10);
    }
  }

  function Input(alertType: string, prefix: string, origin: nat): string {
    alertType + ":" + prefix + ":" + Decimal(origin)
  }

  // What follows the split at `b` has no colon, so the split at `a` is no later.
  lemma NoColonAfter(a: string, b: string, c: string, d: string)
    requires a + ":" + c == b + ":" + d && ':' !in d
    ensures |a| <= |b|
  {
    var (s, t) := (a + ":" + c, b + ":" + d);
    assert s[|a|] == ':';
    forall i | |b| < i < |t|
      ensures t[i] in d
    {
      assert t[i] == d[i - |b| - 1];
    }
  }

  // What precedes the split at `a` has no colon, so the split at `b` is no earlier.
  lemma NoColonBefore(a: string, b: string, c: string, d: string)
    requires a + ":" + c == b + ":" + d && ':' !in a
    ensures |a| <= |b|
  {
    var (s, t) := (a + ":" + c, b + ":" + d);
    assert t[|b|] == ':';
    forall i | 0 <= i < |a|
      ensures s[i] in a
    {
      assert s[i] == a[i];
    }
  }

  lemma SameSplit(a: string, b: string, c: string, d: string)
    requires a + ":" + c == b + ":" + d && |a| == |b|
    ensures a == b && c == d
  {
    var (s, t) := (a + ":" + c, b + ":" + d);
    assert s[..|a|] == a && t[..|b|] == b && s[|a| + 1..] == c && t[|b| + 1..] == d;
  }

  // Two strings split at their last colon.
  lemma SplitAtLastColon(a: string, b: string, c: string, d: string)
    requires a + ":" + c == b + ":" + d && ':' !in c && ':' !in d
    ensures a == b && c == d
  {
    NoColonAfter(a, b, c, d);
    NoColonAfter(b, a, d, c);
    SameSplit(a, b, c, d);
  }

  // Two strings split at their first colon.
  lemma SplitAtFirstColon(a: string, b: string, c: string, d: string)
    requires a + ":" + c == b + ":" + d && ':' !in a && ':' !in b
    ensures a == b && c == d
  {
    NoColonBefore(a, b, c, d);
    NoColonBefore(b, a, d, c);
    SameSplit(a, b, c, d);
  }

  /** Two alerts hash the same string exactly when their origins agree and their types and
      prefixes agree once joined; so for types without a colon, such as "hijack" and "flap",
      exactly when they are the same alert, however many colons an IPv6 prefix has. */
  lemma InputIsInjective(t: string, p: string, o: nat, u: string, q: string, n: nat)
    ensures Input(t, p, o) == Input(u, q, n) <==> o == n && t + ":" + p == u + ":" + q
    ensures ':' !in t && ':' !in u ==> (Input(t, p, o) == Input(u, q, n) <==> t == u && p == q && o == n)
  {
    if Input(t, p, o) == Input(u, q, n) {
      SplitAtLastColon(t + ":" + p, u + ":" + q, Decimal(o), Decimal(n));
      DecimalRoundTrip(o);
      DecimalRoundTrip(n);
    }
    if t + ":" + p == u + ":" + q && ':' !in t && ':' !in u {
      SplitAtFirstColon(t, u, p, q);
    }
  }

  /** The text itself, for one alert. */
  lemma InputOfOne()
    ensures Input("flap", "::/0", 7) == "flap:::/0:7"
  {
    assert Decimal(7) == "7";
  }

  /** A type with a colon could be confused with a longer prefix. */
  lemma ColonInTypeCollides()
    ensures Input("hijack:2001", "db8::/32", 1) == Input("hijack", "2001:db8::/32", 1)
  {
  }
}

/** Routing alerts through deduplication, and the auto-escalation pass (src/escalation.rs). */
module Escalation {
  import opened Wrappers
  import Fingerprints
  import Ewma

  datatype Level = Warning | Critical | Emergency

  function FromConfidence(confidence: real): Option<Level> {
    if confidence < 0.5 then None
    else if confidence < 0.7 then Some(Warning)
    else if confidence < 0.9 then Some(Critical)
    else Some(Emergency)
  }

  datatype Anomaly = Anomaly(flap: bool, prefix: string, origin: U32, confidence: real)

  function AlertType(flap: bool): string {
    if flap then "flap" else "hijack"
  }

  // The hash is opaque; everything below holds for whichever it is.
  type Hash = string -> string

  function Fingerprint(a: Anomaly, hash: Hash): string {
    hash(Fingerprints.Input(AlertType(a.flap), a.prefix, a.origin))
  }

  // Thirty minutes from insertion.
  const TTL := 1800.0

  type Dedup = map<string, real>

  predicate Contains(dedup: Dedup, fingerprint: string, now: real) {
    fingerprint in dedup && now < dedup[fingerprint] + TTL
  }

  class DedupCache {
    var inner: Dedup

    constructor ()
      ensures inner == map[]
    {
      inner := map[];
    }

    method IsNew(fingerprint: string, now: real) returns (isNew: bool)
      modifies this
      ensures isNew == !Contains(old(inner), fingerprint, now)
      ensures isNew <==> fingerprint !in old(inner) || now - old(inner)[fingerprint] >= 1800.0
      ensures inner == if isNew then old(inner)[fingerprint := now] else old(inner)
    {
      if fingerprint in inner && now < inner[fingerprint] + TTL {
        return false;
      }
      inner := inner[fingerprint := now];
      return true;
    }

    method Invalidate(fingerprint: string)
      modifies this
      ensures inner == old(inner) - {fingerprint}
      ensures forall now :: !Contains(inner, fingerprint, now)
    {
      inner := inner - {fingerprint};
    }
  }

  // ----- one route

  // An alert is accepted when it is loud enough, not silenced and not a duplicate.
  predicate Accepts(dedup: Dedup, a: Anomaly, silenced: bool, now: real, hash: Hash) {
    FromConfidence(a.confidence).Some? && !silenced && !Contains(dedup, Fingerprint(a, hash), now)
  }

  class EscalationRouter {
    const dedup: DedupCache
    const hash: Hash

    constructor (hash: Hash)
      ensures fresh(dedup) && dedup.inner == map[] && this.hash == hash
    {
      dedup := new DedupCache();
      this.hash := hash;
    }

    /** silenced is true only if the store answered that the fingerprint is silenced. */
    method Route(anomaly: Anomaly, silenced: bool, now: real) returns (level: Option<Level>)
      modifies dedup
      ensures level.Some? <==> Accepts(old(dedup.inner), anomaly, silenced, now, hash)
      ensures var f := hash(Fingerprints.Input(if anomaly.flap then "flap" else "hijack", anomaly.prefix, anomaly.origin));
        level.Some? <==>
          anomaly.confidence >= 0.5 && !silenced && (f !in old(dedup.inner) || now - old(dedup.inner)[f] >= 1800.0)
      ensures level.Some? ==>
        level == Some(if anomaly.confidence < 0.7 then Warning else if anomaly.confidence < 0.9 then Critical else Emergency)
      ensures dedup.inner == if level.Some? then old(dedup.inner)[Fingerprint(anomaly, hash) := now] else old(dedup.inner)
    {
      level := FromConfidence(anomaly.confidence);
      if level.None? {
        return;
      }
      var fingerprint := Fingerprint(anomaly, hash);
      if silenced {
        return None;
      }
      var isNew := dedup.IsNew(fingerprint, now);
      if !isNew {
        return None;
      }
    }
  }

  // ----- auto-escalation of a stored alert

  datatype StoredAlert = StoredAlert(alertType: string, prefix: string, origin: U32, confidence: real, firedAt: real)

  // Whole seconds, truncated toward zero, then cast to an unsigned word.
  function AgeSecs(firedAt: real, now: real): int {
    var age := now - firedAt;
    if age >= 0.0 then age.Floor
    else
      var s := -((-age).Floor);
      if s == 0 then 0 else TWO_TO_THE_64 + s
  }

  function Bumped(confidence: real): real {
    if confidence + 0.15 < 0.95 then confidence + 0.15 else 0.95
  }

  // What the pass routes for one stored alert, if anything.
  function Escalated(alert: StoredAlert, timeoutSecs: U64, now: real): Option<Anomaly> {
    if AgeSecs(alert.firedAt, now) >= timeoutSecs && alert.confidence < 0.9 then
      if alert.alertType == "hijack" then Some(Anomaly(false, alert.prefix, alert.origin, Bumped(alert.confidence)))
      else if alert.alertType == "flap" then Some(Anomaly(true, alert.prefix, alert.origin, Bumped(alert.confidence)))
      else None
    else None
  }

  /** The level of every confidence, and that a level never falls as the confidence rises. */
  lemma LevelBands(confidence: real)
    ensures FromConfidence(confidence) == None <==> confidence < 0.5
    ensures FromConfidence(confidence) == Some(Warning) <==> 0.5 <= confidence < 0.7
    ensures FromConfidence(confidence) == Some(Critical) <==> 0.7 <= confidence < 0.9
    ensures FromConfidence(confidence) == Some(Emergency) <==> confidence >= 0.9
  {
  }

  /** What an auto-escalation routes is the stored alert again with its confidence raised: by
      0.15, but to no more than 0.95. */
  lemma EscalationRaises(alert: StoredAlert, timeoutSecs: U64, now: real)
    ensures var a := Escalated(alert, timeoutSecs, now);
      a.Some? ==>
        && a.value.prefix == alert.prefix && a.value.origin == alert.origin
        && (a.value.flap <==> alert.alertType == "flap")
        && a.value.confidence > alert.confidence
        && a.value.confidence == if alert.confidence <= 0.80 then alert.confidence + 0.15 else 0.95
  {
    hide AgeSecs;
  }

  // ----- runs

  datatype Step =
    | Route(anomaly: Anomaly, silenced: bool, now: real)
    | AutoEscalate(alert: StoredAlert, timeoutSecs: U64, silenced: bool, now: real)

  datatype Accepted = Accepted(fingerprint: string, at: real)

  datatype State = State(dedup: Dedup, log: seq<Accepted>)

  function RouteStep(s: State, a: Anomaly, silenced: bool, now: real, hash: Hash): State {
    if Accepts(s.dedup, a, silenced, now, hash)
    then State(s.dedup[Fingerprint(a, hash) := now], s.log + [Accepted(Fingerprint(a, hash), now)])
    else s
  }

  function Apply(s: State, step: Step, hash: Hash): State {
    match step
    case Route(a, silenced, now) => RouteStep(s, a, silenced, now, hash)
    case AutoEscalate(alert, timeoutSecs, silenced, now) =>
      match Escalated(alert, timeoutSecs, now)
      case None => s
      case Some(a) => RouteStep(s, a, silenced, now, hash)
  }

  ghost predicate IsRun(states: seq<State>, steps: seq<Step>, hash: Hash) {
    && |states| == |steps| + 1 && states[0] == State(map[], [])
    && (forall i :: 0 <= i < |steps| ==> states[i + 1] == Apply(states[i], steps[i], hash))
    && forall i, j :: 0 <= i < j < |steps| ==> steps[i].now <= steps[j].now
  }

  ghost predicate Spaced(log: seq<Accepted>) {
    forall i, j :: 0 <= i < j < |log| && log[i].fingerprint == log[j].fingerprint ==> log[i].at + TTL <= log[j].at
  }

  ghost predicate AcceptedAt(log: seq<Accepted>, fingerprint: string, at: real) {
    exists i :: 0 <= i < |log| && log[i] == Accepted(fingerprint, at)
  }

  // The cache remembers the latest acceptance of every fingerprint, and nothing else.
  ghost predicate Inv(s: State) {
    && Spaced(s.log)
    && (forall i :: 0 <= i < |s.log| ==> s.log[i].fingerprint in s.dedup && s.log[i].at <= s.dedup[s.log[i].fingerprint])
    && forall f :: f in s.dedup ==> AcceptedAt(s.log, f, s.dedup[f])
  }

  lemma StillAccepted(log: seq<Accepted>, last: Accepted)
    ensures AcceptedAt(log + [last], last.fingerprint, last.at)
    ensures forall f, at :: AcceptedAt(log, f, at) ==> AcceptedAt(log + [last], f, at)
  {
    assert (log + [last])[|log|] == last;
    forall f, at | AcceptedAt(log, f, at)
      ensures AcceptedAt(log + [last], f, at)
    {
      var i :| 0 <= i < |log| && log[i] == Accepted(f, at);
      assert (log + [last])[i] == log[i];
    }
  }

  lemma RouteKeepsInv(s: State, a: Anomaly, silenced: bool, now: real, hash: Hash)
    requires Inv(s) && forall i :: 0 <= i < |s.log| ==> s.log[i].at <= now
    ensures Inv(RouteStep(s, a, silenced, now, hash))
    ensures forall i :: 0 <= i < |RouteStep(s, a, silenced, now, hash).log| ==> RouteStep(s, a, silenced, now, hash).log[i].at <= now
  {
    hide FromConfidence, Fingerprint, AcceptedAt;
    StillAccepted(s.log, Accepted(Fingerprint(a, hash), now));
  }

  lemma {:induction false} RunKeepsInv(states: seq<State>, steps: seq<Step>, hash: Hash, i: nat)
    requires IsRun(states, steps, hash) && i < |states|
    ensures Inv(states[i])
    ensures i > 0 ==> forall j :: 0 <= j < |states[i].log| ==> states[i].log[j].at <= steps[i - 1].now
    ensures i == 0 ==> states[i].log == []
  {
    hide RouteStep, Inv, Escalated;
    if i == 0 {
      NothingYet();
    } else {
      var (s, step) := (states[i - 1], steps[i - 1]);
      RunKeepsInv(states, steps, hash, i - 1);
      assert i > 1 ==> steps[i - 2].now <= step.now;
      assert forall j :: 0 <= j < |s.log| ==> s.log[j].at <= step.now;
      match step
      case Route(a, silenced, now) => RouteKeepsInv(s, a, silenced, now, hash);
      case AutoEscalate(alert, timeoutSecs, silenced, now) =>
        if Escalated(alert, timeoutSecs, now).Some? {
          RouteKeepsInv(s, Escalated(alert, timeoutSecs, now).value, silenced, now, hash);
        }
    }
  }

  lemma NothingYet()
    ensures Inv(State(map[], []))
  {
  }

  /** Over every sequential run, auto-escalations included, two accepted alerts with one
      fingerprint are at least thirty minutes apart. */
  lemma SameAlertsAreSpaced(states: seq<State>, steps: seq<Step>, hash: Hash, i: nat, j: nat)
    requires IsRun(states, steps, hash)
    requires i < j < |states[|steps|].log| && states[|steps|].log[i].fingerprint == states[|steps|].log[j].fingerprint
    ensures states[|steps|].log[i].at + 1800.0 <= states[|steps|].log[j].at
  {
    hide Apply;
    RunKeepsInv(states, steps, hash, |steps|);
  }

  // The acceptances of one fingerprint within [from, to].
  function Within(log: seq<Accepted>, fingerprint: string, from: real, to: real): seq<Accepted> {
    if log == [] then []
    else
      var a := log[|log| - 1];
      Within(log[..|log| - 1], fingerprint, from, to) + if a.fingerprint == fingerprint && from <= a.at <= to then [a] else []
  }

  lemma SpacedPush(w: seq<Accepted>, a: Accepted)
    requires Spaced(w) && forall x :: x in w && x.fingerprint == a.fingerprint ==> x.at + TTL <= a.at
    ensures Spaced(w + [a])
  {
    assert forall i :: 0 <= i < |w| ==> w[i] in w;
  }

  lemma SpacedPop(log: seq<Accepted>)
    requires log != [] && Spaced(log)
    ensures Spaced(log[..|log| - 1])
    ensures var a := log[|log| - 1];
      forall x :: x in log[..|log| - 1] && x.fingerprint == a.fingerprint ==> x.at + TTL <= a.at
  {
  }

  lemma {:induction false} WithinIsSpaced(log: seq<Accepted>, fingerprint: string, from: real, to: real)
    requires Spaced(log)
    ensures Spaced(Within(log, fingerprint, from, to))
    ensures forall a :: a in Within(log, fingerprint, from, to) ==> a in log && a.fingerprint == fingerprint && from <= a.at <= to
  {
    hide Spaced;
    if log == [] {
    } else {
      var (init, a) := (log[..|log| - 1], log[|log| - 1]);
      SpacedPop(log);
      WithinIsSpaced(init, fingerprint, from, to);
      assert log == init + [a];
      var w := Within(init, fingerprint, from, to);
      SpacedPush(w, a);
      assert w + [] == w;
    }
  }

  lemma {:induction false} SpacedGrows(w: seq<Accepted>, fingerprint: string)
    requires w != [] && Spaced(w) && forall i :: 0 <= i < |w| ==> w[i].fingerprint == fingerprint
    ensures w[|w| - 1].at >= w[0].at + TTL * (|w| - 1) as real
  {
    if |w| <= 1 {
    } else {
      SpacedGrows(w[..|w| - 1], fingerprint);
    }
  }

  lemma FitsIn(n: nat, span: real)
    requires n >= 1 && TTL * (n - 1) as real <= span
    ensures n <= (span / TTL).Floor + 1
  {
    assert (n - 1) as real <= span / TTL;
  }

  /** So any span of T seconds accepts one fingerprint at most floor(T / 1800) + 1 times. */
  lemma AcceptedAtMost(states: seq<State>, steps: seq<Step>, hash: Hash, fingerprint: string, from: real, span: real)
    requires IsRun(states, steps, hash) && span >= 0.0
    ensures |Within(states[|steps|].log, fingerprint, from, from + span)| <= (span / 1800.0).Floor + 1
  {
    hide Within, Apply;
    RunKeepsInv(states, steps, hash, |steps|);
    var w := Within(states[|steps|].log, fingerprint, from, from + span);
    WithinIsSpaced(states[|steps|].log, fingerprint, from, from + span);
    if w != [] {
      assert forall i :: 0 <= i < |w| ==> w[i] in w;
      SpacedGrows(w, fingerprint);
      FitsIn(|w|, span);
    }
  }

  // ----- when an auto-escalation gets through

  /** When an alert is due: at its timeout, and also as soon as it is dated at least a second
      ahead, because the cast turns its negative age into a huge one; with a zero timeout,
      always. */
  lemma DueExactlyWhen(firedAt: real, now: real, timeoutSecs: U64)
    requires firedAt - now <= (TWO_TO_THE_64 - timeoutSecs) as real
    ensures AgeSecs(firedAt, now) >= timeoutSecs <==>
            timeoutSecs == 0 || now - firedAt >= timeoutSecs as real || firedAt - now >= 1.0
  {
    var early := firedAt - now;
    assert (-(now - firedAt)).Floor == early.Floor;
    assert early.Floor <= TWO_TO_THE_64 - timeoutSecs;
  }

  // What the pass needs of the stored alert: a type it knows, old enough, a confidence that
  // is not yet an emergency's and that the bump lifts to a level.
  predicate Escalates(alert: StoredAlert, timeoutSecs: U64, now: real) {
    && (alert.alertType == "hijack" || alert.alertType == "flap")
    && AgeSecs(alert.firedAt, now) >= timeoutSecs
    && 0.35 <= alert.confidence < 0.9
  }

  lemma EscalatesExactlyWhen(alert: StoredAlert, timeoutSecs: U64, now: real)
    ensures Escalates(alert, timeoutSecs, now) <==>
            var a := Escalated(alert, timeoutSecs, now); a.Some? && FromConfidence(a.value.confidence).Some?
    ensures Escalates(alert, timeoutSecs, now) ==>
            forall hash :: Fingerprint(Escalated(alert, timeoutSecs, now).value, hash) == StoredFingerprint(alert, hash)
  {
    hide AgeSecs;
  }

  function StoredFingerprint(alert: StoredAlert, hash: Hash): string {
    hash(Fingerprints.Input(alert.alertType, alert.prefix, alert.origin))
  }

  /** In every run an auto-escalation gets through exactly when the stored alert escalates, it
      is not silenced, and every acceptance of the same alert lies at least thirty minutes
      back. */
  lemma EscalationGetsThroughExactlyWhen(states: seq<State>, steps: seq<Step>, hash: Hash, i: nat)
    requires IsRun(states, steps, hash) && i < |steps| && steps[i].AutoEscalate?
    ensures var (s, alert, now) := (states[i], steps[i].alert, steps[i].now);
      states[i + 1] != s <==>
        && Escalates(alert, steps[i].timeoutSecs, now)
        && !steps[i].silenced
        && forall k :: 0 <= k < |s.log| && s.log[k].fingerprint == StoredFingerprint(alert, hash) ==> s.log[k].at + 1800.0 <= now
  {
    hide RouteStep, Escalated, Escalates, StoredFingerprint;
    var (s, step) := (states[i], steps[i]);
    RunKeepsInv(states, steps, hash, i);
    EscalatesExactlyWhen(step.alert, step.timeoutSecs, step.now);
    var a := Escalated(step.alert, step.timeoutSecs, step.now);
    if a.Some? {
      RoutedExactlyWhen(s, a.value, step.silenced, step.now, hash);
    }
  }

  lemma RoutedExactlyWhen(s: State, a: Anomaly, silenced: bool, now: real, hash: Hash)
    requires Inv(s)
    ensures RouteStep(s, a, silenced, now, hash) != s <==>
      && FromConfidence(a.confidence).Some? && !silenced
      && forall k :: 0 <= k < |s.log| && s.log[k].fingerprint == Fingerprint(a, hash) ==> s.log[k].at + 1800.0 <= now
  {
    hide FromConfidence, Fingerprint;
    var f := Fingerprint(a, hash);
    if Contains(s.dedup, f, now) {
      var i :| 0 <= i < |s.log| && s.log[i] == Accepted(f, s.dedup[f]);
      assert s.log[i].fingerprint == f;
    }
    assert RouteStep(s, a, silenced, now, hash) != s <==> Accepts(s.dedup, a, silenced, now, hash) by {
      if Accepts(s.dedup, a, silenced, now, hash) {
        assert |RouteStep(s, a, silenced, now, hash).log| == |s.log| + 1;
      }
    }
  }

  /** In particular, however short the timeout, the pass cannot raise an alert's level within
      thirty minutes of its own acceptance. */
  lemma EscalationWithinTtlIsSuppressed(states: seq<State>, steps: seq<Step>, hash: Hash, i: nat, k: nat)
    requires IsRun(states, steps, hash) && i < |steps| && steps[i].AutoEscalate? && k < |states[i].log|
    requires states[i].log[k].fingerprint == StoredFingerprint(steps[i].alert, hash)
    requires steps[i].now < states[i].log[k].at + 1800.0
    ensures states[i + 1] == states[i]
  {
    hide Apply, Escalates, StoredFingerprint;
    EscalationGetsThroughExactlyWhen(states, steps, hash, i);
  }

  /** Hijacks raised by the synchronous detector are never below Critical, whatever the
      baseline, the prefix and the origin contribute. */
  lemma DetectorHijacksAreCritical(history: seq<real>, length: real, unusual: bool, wellKnown: bool)
    ensures FromConfidence(Ewma.Enhance(0.85, Ewma.CheckedBoost(history, length, 0.1, unusual, wellKnown))) in
            {Some(Critical), Some(Emergency)}
  {
    hide Ewma.CheckedBoost, Ewma.Enhance;
    Ewma.DetectorBoostIgnoresPathLength(history, length, 0.1, unusual, wellKnown);
  }
}
