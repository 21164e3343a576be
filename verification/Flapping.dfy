/** The flap detector: a sliding window of events per prefix (src/anomaly_detector.rs). */
module Flapping {
  const FLAP_WINDOW := 300.0
  const FLAP_THRESHOLD: nat := 50
  const MIN_DIRECTION_CHANGES: nat := 6

  datatype Event = Event(timestamp: real, kind: string)

  // Pops from the front while the front event is outside the window.
  function DropStale(events: seq<Event>, cutoff: real): (rest: seq<Event>)
    ensures |rest| <= |events|
  {
    if events != [] && events[0].timestamp < cutoff then DropStale(events[1..], cutoff) else events
  }

  // The simple specification: everything in the window, in order.
  function InWindow(events: seq<Event>, cutoff: real): seq<Event> {
    if events == [] then []
    else (if events[0].timestamp >= cutoff then [events[0]] else []) + InWindow(events[1..], cutoff)
  }

  function Changes(events: seq<Event>): nat {
    if |events| < 2 then 0
    else Changes(events[..|events| - 1]) + if events[|events| - 2].kind != events[|events| - 1].kind then 1 else 0
  }

  // The events of another type than the one before.
  predicate Turns(events: seq<Event>, i: int) {
    0 < i < |events| && events[i].kind != events[i - 1].kind
  }

  function DirectionChanges(events: seq<Event>, n: nat): set<int> {
    set i | 0 <= i < n && Turns(events, i)
  }

  predicate IsFlapping(events: seq<Event>) {
    |events| >= FLAP_THRESHOLD && Changes(events) >= MIN_DIRECTION_CHANGES
  }

  lemma OneMoreChange(events: seq<Event>, n: nat)
    ensures |DirectionChanges(events, n + 1)| == |DirectionChanges(events, n)| + if Turns(events, n) then 1 else 0
    ensures DirectionChanges(events, 0) == {}
  {
    hide Turns;
    var before := DirectionChanges(events, n);
    assert DirectionChanges(events, n + 1) == if Turns(events, n) then before + {n} else before;
  }

  lemma {:induction false} ChangesUpTo(events: seq<Event>, n: nat)
    requires n <= |events|
    ensures Changes(events[..n]) == |DirectionChanges(events, n)|
  {
    hide DirectionChanges;
    if n == 0 {
      OneMoreChange(events, 0);
    } else {
      ChangesUpTo(events, n - 1);
      OneMoreChange(events, n - 1);
      assert events[..n][..n - 1] == events[..n - 1];
      if n == 1 {
        OneMoreChange(events, 0);
      }
    }
  }

  /** A prefix flaps exactly when at least 50 events are kept and at least 6 of them differ in
      type from the one before. */
  lemma FlappingMeans(events: seq<Event>)
    ensures Changes(events) == |DirectionChanges(events, |events|)|
    ensures IsFlapping(events) <==> |events| >= 50 && |DirectionChanges(events, |events|)| >= 6
  {
    hide DirectionChanges, Changes;
    ChangesUpTo(events, |events|);
    assert events[..|events|] == events;
  }

  // ----- one prefix's run of checks

  datatype Check = Check(event: Event, now: real)

  function History(run: seq<Check>): (h: seq<Event>)
    ensures |h| == |run|
  {
    if run == [] then [] else History(run[..|run| - 1]) + [run[|run| - 1].event]
  }

  // The deque after a run.
  function Deque(run: seq<Check>): seq<Event> {
    if run == [] then []
    else
      var c := run[|run| - 1];
      DropStale(Deque(run[..|run| - 1]) + [c.event], c.now - FLAP_WINDOW)
  }

  ghost predicate ClockNondecreasing(run: seq<Check>) {
    forall i, j :: 0 <= i < j < |run| ==> run[i].now <= run[j].now
  }

  lemma {:induction false} DropStaleIsSuffix(events: seq<Event>, cutoff: real)
    ensures DropStale(events, cutoff) == events[|events| - |DropStale(events, cutoff)|..]
  {
    if events == [] || events[0].timestamp >= cutoff {
    } else {
      DropStaleIsSuffix(events[1..], cutoff);
    }
  }

  /** Whatever the clocks do, the deque is a suffix of the prefix's history. */
  lemma {:induction false} DequeIsSuffix(run: seq<Check>)
    ensures |Deque(run)| <= |run|
    ensures Deque(run) == History(run)[|run| - |Deque(run)|..]
  {
    hide DropStale;
    if run == [] {
    } else {
      var (init, c) := (run[..|run| - 1], run[|run| - 1]);
      DequeIsSuffix(init);
      DropStaleIsSuffix(Deque(init) + [c.event], c.now - FLAP_WINDOW);
      SuffixStep(History(init), Deque(init), c.event, Deque(run));
    }
  }

  // A suffix of a suffix with one more event.
  lemma SuffixStep(history: seq<Event>, events: seq<Event>, e: Event, rest: seq<Event>)
    requires |events| <= |history| && events == history[|history| - |events|..]
    requires |rest| <= |events| + 1 && rest == (events + [e])[|events| + 1 - |rest|..]
    ensures rest == (history + [e])[|history| + 1 - |rest|..]
  {
  }

  lemma {:induction false} DropTwice(events: seq<Event>, e: Event, earlier: real, later: real)
    requires earlier <= later
    ensures DropStale(DropStale(events, earlier) + [e], later) == DropStale(events + [e], later)
  {
    if events == [] || events[0].timestamp >= earlier {
    } else {
      DropTwice(events[1..], e, earlier, later);
      assert (events + [e])[1..] == events[1..] + [e];
    }
  }

  /** With a nondecreasing clock the incremental deque is the whole history with its stale
      prefix dropped once. */
  lemma {:induction false} DequeDropsOnce(run: seq<Check>)
    requires run != [] && ClockNondecreasing(run)
    ensures Deque(run) == DropStale(History(run), run[|run| - 1].now - 300.0)
  {
    var (init, c) := (run[..|run| - 1], run[|run| - 1]);
    if init == [] {
      assert Deque(init) + [c.event] == History(run);
    } else {
      var p := init[|init| - 1];
      DequeDropsOnce(init);
      DropTwice(History(init), c.event, p.now - FLAP_WINDOW, c.now - FLAP_WINDOW);
    }
  }

  // No event inside the window is followed by one outside it.
  ghost predicate NoStaleAfterFresh(events: seq<Event>, cutoff: real) {
    forall i, j :: 0 <= i < j < |events| && events[i].timestamp >= cutoff ==> events[j].timestamp >= cutoff
  }

  lemma {:induction false} AllInWindow(events: seq<Event>, cutoff: real)
    ensures |InWindow(events, cutoff)| <= |events|
    ensures |InWindow(events, cutoff)| == |events| <==> forall i :: 0 <= i < |events| ==> events[i].timestamp >= cutoff
    ensures (forall i :: 0 <= i < |events| ==> events[i].timestamp >= cutoff) ==> InWindow(events, cutoff) == events
  {
    if events == [] {
    } else {
      AllInWindow(events[1..], cutoff);
      assert forall i :: 0 < i < |events| ==> events[i] == events[1..][i - 1];
      assert forall i :: 0 <= i < |events[1..]| ==> events[1..][i] == events[i + 1];
    }
  }

  /** Dropping the stale prefix is filtering exactly when nothing stale follows something
      fresh; in general it only ever keeps more. */
  lemma {:induction false} DroppingIsFilteringExactlyWhen(events: seq<Event>, cutoff: real)
    ensures DropStale(events, cutoff) == InWindow(events, cutoff) <==> NoStaleAfterFresh(events, cutoff)
    ensures InWindow(DropStale(events, cutoff), cutoff) == InWindow(events, cutoff)
  {
    if events != [] && events[0].timestamp < cutoff {
      DroppingIsFilteringExactlyWhen(events[1..], cutoff);
      ShiftOrder(events, cutoff);
    } else {
      AllInWindow(events, cutoff);
      if events != [] && NoStaleAfterFresh(events, cutoff) {
        assert forall i :: 0 < i < |events| ==> events[i].timestamp >= cutoff;
      }
    }
  }

  /** Filtering keeps every event that is not before the cutoff, as often as it occurs, and no
      other. */
  lemma {:induction false} FilterKeeps(events: seq<Event>, cutoff: real, e: Event)
    ensures multiset(InWindow(events, cutoff))[e] == if e.timestamp >= cutoff then multiset(events)[e] else 0
  {
    if events == [] {
    } else {
      FilterKeeps(events[1..], cutoff, e);
      assert events == [events[0]] + events[1..];
    }
  }

  lemma ShiftOrder(events: seq<Event>, cutoff: real)
    requires events != [] && events[0].timestamp < cutoff
    ensures NoStaleAfterFresh(events, cutoff) <==> NoStaleAfterFresh(events[1..], cutoff)
  {
    if NoStaleAfterFresh(events[1..], cutoff) {
      forall i, j | 0 <= i < j < |events| && events[i].timestamp >= cutoff
        ensures events[j].timestamp >= cutoff
      {
        assert events[i] == events[1..][i - 1] && events[j] == events[1..][j - 1];
      }
    }
    if NoStaleAfterFresh(events, cutoff) {
      forall i, j | 0 <= i < j < |events[1..]| && events[1..][i].timestamp >= cutoff
        ensures events[1..][j].timestamp >= cutoff
      {
        assert events[1..][i] == events[i + 1] && events[1..][j] == events[j + 1];
      }
    }
  }

  ghost predicate TimestampsNondecreasing(run: seq<Check>) {
    forall i, j :: 0 <= i < j < |run| ==> run[i].event.timestamp <= run[j].event.timestamp
  }

  lemma {:induction false} HistoryAt(run: seq<Check>, i: nat)
    requires i < |run|
    ensures History(run)[i] == run[i].event
  {
    if i == |run| - 1 {
    } else {
      HistoryAt(run[..|run| - 1], i);
    }
  }

  /** With a nondecreasing clock, the deque is the history filtered to the window exactly when
      no event in the window is followed by one outside it; in particular whenever the
      prefix's timestamps never go back, and then the alert is raised exactly when the
      filtered history has enough events and enough changes of direction. */
  lemma DequeIsWindowExactlyWhen(run: seq<Check>)
    requires run != [] && ClockNondecreasing(run)
    ensures var cutoff := run[|run| - 1].now - 300.0;
      && (Deque(run) == InWindow(History(run), cutoff) <==> NoStaleAfterFresh(History(run), cutoff))
      && |Deque(run)| >= |InWindow(History(run), cutoff)|
      && (TimestampsNondecreasing(run) ==>
            && Deque(run) == InWindow(History(run), cutoff)
            && (IsFlapping(Deque(run)) <==> IsFlapping(InWindow(History(run), cutoff))))
  {
    hide InWindow, DropStale, Deque, History, IsFlapping;
    var (h, cutoff) := (History(run), run[|run| - 1].now - FLAP_WINDOW);
    DequeDropsOnce(run);
    DroppingIsFilteringExactlyWhen(h, cutoff);
    AllInWindow(DropStale(h, cutoff), cutoff);
    if TimestampsNondecreasing(run) {
      forall i | 0 <= i < |run|
        ensures h[i] == run[i].event
      {
        HistoryAt(run, i);
      }
      HistoryLength(run);
      assert NoStaleAfterFresh(h, cutoff);
    }
  }

  lemma HistoryLength(run: seq<Check>)
    ensures |History(run)| == |run|
  {
  }

  // ----- the object

  class FlappingDetector {
    var prefixToEvents: map<string, seq<Event>>
    ghost var runs: map<string, seq<Check>>

    ghost predicate Valid()
      reads this
    {
      && prefixToEvents.Keys == runs.Keys
      && forall p :: p in runs ==> prefixToEvents[p] == Deque(runs[p])
    }

    constructor ()
      ensures Valid() && runs == map[]
    {
      prefixToEvents, runs := map[], map[];
    }

    /** Checks one event; other prefixes are untouched. */
    method CheckEvent(prefix: string, event: Event, now: real) returns (flapping: bool)
      requires Valid()
      modifies this
      ensures Valid()
      ensures runs == old(runs)[prefix := (if prefix in old(runs) then old(runs)[prefix] else []) + [Check(event, now)]]
      ensures flapping == IsFlapping(Deque(runs[prefix]))
      ensures var kept := Deque(runs[prefix]);
        flapping <==> |kept| >= 50 && |DirectionChanges(kept, |kept|)| >= 6
    {
      hide Changes, Deque, DirectionChanges;
      ghost var past := if prefix in runs then runs[prefix] else [];
      var events := (if prefix in prefixToEvents then prefixToEvents[prefix] else []) + [event];
      DequePush(past, event, now);
      ghost var pushed := events;
      var cutoff := now - FLAP_WINDOW;
      while events != [] && events[0].timestamp < cutoff
        invariant DropStale(events, cutoff) == DropStale(pushed, cutoff)
        modifies {}
        decreases |events|
      {
        events := events[1..];
      }
      prefixToEvents := prefixToEvents[prefix := events];
      runs := runs[prefix := past + [Check(event, now)]];
      FlappingMeans(events);
      if |events| < FLAP_THRESHOLD {
        return false;
      }
      var directionChanges := CountChanges(events);
      return directionChanges >= MIN_DIRECTION_CHANGES;
    }
  }

  lemma DequePush(run: seq<Check>, event: Event, now: real)
    ensures Deque(run + [Check(event, now)]) == DropStale(Deque(run) + [event], now - FLAP_WINDOW)
    ensures Deque([]) == []
  {
    assert (run + [Check(event, now)])[..|run|] == run;
  }

  method CountChanges(events: seq<Event>) returns (directionChanges: nat)
    ensures directionChanges == Changes(events)
  {
    directionChanges := 0;
    for i := 0 to |events|
      invariant directionChanges == Changes(events[..i])
    {
      assert events[..i + 1][..i] == events[..i];
      if i > 0 && events[i - 1].kind != events[i].kind {
        directionChanges := directionChanges + 1;
      }
    }
    assert events[..|events|] == events;
  }
}
