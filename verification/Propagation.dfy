/** Propagation events and the aggregator that collects them (src/propagation.rs). */
module Propagation {
  import opened Wrappers
  import opened Reals
  import opened Seqs
  import opened Sorting
  import opened PathHash

  // Collector id to Unix timestamp: the BTreeMap of the source.
  type Arrivals = map<string, real>

  datatype PropagationEvent = PropagationEvent(
    prefix: string, origin: U32, path: Path, arrivals: Arrivals,
    first: real, last: real, spreadMs: real, order: seq<string>)

  // Parsing a prefix and printing it again: the canonical text, or None if it does not parse.
  type Canon = string -> Option<string>

  // The two folds over the arrival times.
  function Earliest(ids: seq<string>, arrivals: Arrivals): real
    requires ids != [] && forall c :: c in ids ==> c in arrivals
  {
    if |ids| == 1 then arrivals[ids[0]] else Min(Earliest(ids[..|ids| - 1], arrivals), arrivals[ids[|ids| - 1]])
  }

  function Latest(ids: seq<string>, arrivals: Arrivals): real
    requires ids != [] && forall c :: c in ids ==> c in arrivals
  {
    if |ids| == 1 then arrivals[ids[0]] else Max(Latest(ids[..|ids| - 1], arrivals), arrivals[ids[|ids| - 1]])
  }

  function ArrivalOrder(arrivals: Arrivals): seq<string> {
    StableSort(KeysInOrder(arrivals.Keys), arrivals)
  }

  function NewEvent(prefix: string, origin: U32, path: Path, arrivals: Arrivals): PropagationEvent
    requires arrivals != map[]
  {
    SomeKey(arrivals);
    var ids := KeysInOrder(arrivals.Keys);
    var first := Earliest(ids, arrivals);
    var last := Latest(ids, arrivals);
    PropagationEvent(prefix, origin, path, arrivals, first, last, (last - first) * 1000.0, ArrivalOrder(arrivals))
  }

  lemma SomeKey(arrivals: Arrivals)
    requires arrivals != map[]
    ensures KeysInOrder(arrivals.Keys) != []
  {
    assert exists c :: c in arrivals;
  }

  lemma {:induction false} EarliestIsLeast(ids: seq<string>, arrivals: Arrivals)
    requires ids != [] && forall c :: c in ids ==> c in arrivals
    ensures forall c :: c in ids ==> Earliest(ids, arrivals) <= arrivals[c]
    ensures exists c :: c in ids && arrivals[c] == Earliest(ids, arrivals)
  {
    if |ids| == 1 {
      assert ids[0] in ids;
    } else {
      var (init, last) := (ids[..|ids| - 1], ids[|ids| - 1]);
      EarliestIsLeast(init, arrivals);
      assert ids == init + [last] && last in ids;
      var c :| c in init && arrivals[c] == Earliest(init, arrivals);
      assert c in ids;
    }
  }

  lemma {:induction false} LatestIsGreatest(ids: seq<string>, arrivals: Arrivals)
    requires ids != [] && forall c :: c in ids ==> c in arrivals
    ensures forall c :: c in ids ==> arrivals[c] <= Latest(ids, arrivals)
    ensures exists c :: c in ids && arrivals[c] == Latest(ids, arrivals)
  {
    if |ids| == 1 {
      assert ids[0] in ids;
    } else {
      var (init, last) := (ids[..|ids| - 1], ids[|ids| - 1]);
      LatestIsGreatest(init, arrivals);
      assert ids == init + [last] && last in ids;
      var c :| c in init && arrivals[c] == Latest(init, arrivals);
      assert c in ids;
    }
  }

  // The arrival order is a permutation of the collectors, sorted by (time, id).
  lemma OrderShape(arrivals: Arrivals)
    ensures multiset(ArrivalOrder(arrivals)) == multiset(arrivals.Keys)
    ensures |ArrivalOrder(arrivals)| == |arrivals|
    ensures forall c :: c in ArrivalOrder(arrivals) <==> c in arrivals
    ensures SortedBy(ArrivalOrder(arrivals), arrivals)
  {
    var ids := KeysInOrder(arrivals.Keys);
    StableSortSorted(ids, arrivals);
    AscendingIsSet(ids);
    assert (set c | c in ids) == arrivals.Keys;
    SameMultisetSameSize(ArrivalOrder(arrivals), ids);
    assert |arrivals.Keys| == |arrivals|;
  }

  lemma SortedEnds(order: seq<string>, arrivals: Arrivals)
    requires order != [] && forall c :: c in order ==> c in arrivals
    requires SortedBy(order, arrivals)
    ensures forall c :: c in order ==> arrivals[order[0]] <= arrivals[c] <= arrivals[order[|order| - 1]]
  {
  }

  /** Every event is what it was made of, and in order: its arrival order is a permutation of the collectors sorted by
      (time, id), its ends realise the first and the last arrival, and the spread between
      them is never negative. */
  lemma EventShape(prefix: string, origin: U32, path: Path, arrivals: Arrivals)
    requires arrivals != map[]
    ensures var e := NewEvent(prefix, origin, path, arrivals);
      && e.prefix == prefix && e.origin == origin && e.path == path && e.arrivals == arrivals
      && multiset(e.order) == multiset(arrivals.Keys) && |e.order| == |arrivals| > 0
      && (forall c :: c in e.order <==> c in arrivals)
      && SortedBy(e.order, arrivals)
      && arrivals[e.order[0]] == e.first && arrivals[e.order[|e.order| - 1]] == e.last
      && (forall c :: c in arrivals ==> e.first <= arrivals[c] <= e.last)
      && e.spreadMs == (e.last - e.first) * 1000.0 >= 0.0
  {
    hide Earliest, Latest, KeysInOrder, ArrivalOrder, StableSort;
    var ids := KeysInOrder(arrivals.Keys);
    var order := ArrivalOrder(arrivals);
    SomeKey(arrivals);
    EarliestIsLeast(ids, arrivals);
    LatestIsGreatest(ids, arrivals);
    OrderShape(arrivals);
    SortedEnds(order, arrivals);
    var c :| c in ids && arrivals[c] == Earliest(ids, arrivals);
    var d :| d in ids && arrivals[d] == Latest(ids, arrivals);
    assert c in order && d in order && order[0] in ids && order[|order| - 1] in ids;
  }

  lemma AscendingIsSet(ids: seq<string>)
    requires Ascending(ids)
    ensures multiset(ids) == multiset(set c | c in ids)
  {
    hide Less;
    forall i, j | 0 <= i < j < |ids|
      ensures ids[i] != ids[j]
    {
      LessIsStrict(ids[i], ids[j]);
      LessIsStrict(ids[i], ids[i]);
    }
    DistinctIsSet(ids);
  }
}

/** The aggregator: arrivals grouped per announcement until a ten-second window elapses. */
module Aggregator {
  import opened Wrappers
  import opened PathHash
  import opened Propagation
  import opened Seqs

  const WINDOW := 10.0

  datatype BgpRecord = BgpRecord(prefix: string, origin: U32, path: Path, collector: string, timestamp: real)

  datatype GroupKey = GroupKey(prefix: string, origin: U32, pathHash: U64)

  function FromRecord(record: BgpRecord): GroupKey {
    GroupKey(record.prefix, record.origin, Hash(record.path))
  }

  datatype PendingGroup = PendingGroup(arrivals: Arrivals, path: Path, createdAt: real)

  type Pending = map<GroupKey, PendingGroup>

  // One collector's arrival in one group.
  datatype Token = Token(key: GroupKey, collector: string, time: real)

  // An event handed out, with the group it came from and the two instants that matter.
  datatype Emission = Emission(key: GroupKey, event: PropagationEvent, openedAt: real, at: real)

  // The pending map and the ledger of everything that left it.
  datatype AggState = AggState(
    pending: Pending, emissions: seq<Emission>, overwritten: multiset<Token>, discarded: multiset<Token>)

  predicate WellFormed(pending: Pending) {
    forall k :: k in pending ==> pending[k].arrivals != map[] && Hash(pending[k].path) == k.pathHash
  }

  predicate Expired(group: PendingGroup, now: real) {
    now - group.createdAt >= WINDOW
  }

  // ----- the steps

  function Group(pending: Pending, record: BgpRecord, now: real): PendingGroup {
    var key := FromRecord(record);
    if key in pending then pending[key] else PendingGroup(map[], record.path, now)
  }

  // Records the arrival of one collector; a later arrival replaces an earlier one.
  ghost function Insert(s: AggState, record: BgpRecord, now: real): AggState {
    var key := FromRecord(record);
    var group := Group(s.pending, record, now);
    s.(pending := s.pending[key := group.(arrivals := group.arrivals[record.collector := record.timestamp])],
       overwritten := s.overwritten + Replaced(key, group.arrivals, record.collector))
  }

  // Removes one group and turns it into an event, or drops it if its prefix does not parse.
  ghost function Close(s: AggState, key: GroupKey, now: real, canon: Canon): AggState
    requires WellFormed(s.pending) && key in s.pending
  {
    var group := s.pending[key];
    var rest := s.(pending := s.pending - {key});
    match canon(key.prefix)
    case Some(text) =>
      var event := NewEvent(text, key.origin, group.path, group.arrivals);
      rest.(emissions := s.emissions + [Emission(key, event, group.createdAt, now)])
    case None =>
      rest.(discarded := s.discarded + multiset(GroupTokens(key, group.arrivals)))
  }

  // The emission of one closed group, if it left an event.
  function Emitted(key: GroupKey, group: PendingGroup, event: Option<PropagationEvent>, now: real): seq<Emission> {
    if event.Some? then [Emission(key, event.value, group.createdAt, now)] else []
  }

  ghost function CloseAll(s: AggState, keys: seq<GroupKey>, now: real, canon: Canon): AggState
    requires WellFormed(s.pending)
    requires forall i :: 0 <= i < |keys| ==> keys[i] in s.pending
    requires Distinct(keys)
    decreases |keys|
  {
    if keys == [] then s
    else CloseAll(Close(s, keys[0], now, canon), keys[1..], now, canon)
  }

  ghost function Add(s: AggState, record: BgpRecord, now: real, canon: Canon): AggState
    requires WellFormed(s.pending)
  {
    var key := FromRecord(record);
    var inserted := Insert(s, record, now);
    if Expired(inserted.pending[key], now) then Close(inserted, key, now, canon) else inserted
  }

  ghost predicate ExpiredKeys(pending: Pending, now: real, keys: seq<GroupKey>) {
    && Distinct(keys)
    && (forall i :: 0 <= i < |keys| ==> keys[i] in pending)
    && (forall k :: k in keys <==> k in pending && Expired(pending[k], now))
  }

  // ----- conservation

  ghost function GroupTokens(key: GroupKey, arrivals: Arrivals): set<Token> {
    set c | c in arrivals :: Token(key, c, arrivals[c])
  }

  ghost function PendingTokens(pending: Pending): set<Token> {
    set k, c | k in pending && c in pending[k].arrivals :: Token(k, c, pending[k].arrivals[c])
  }

  ghost function EmittedTokens(emissions: seq<Emission>): multiset<Token> {
    if emissions == [] then multiset{}
    else
      var e := emissions[|emissions| - 1];
      EmittedTokens(emissions[..|emissions| - 1]) + multiset(GroupTokens(e.key, e.event.arrivals))
  }

  // Where every arrival is: pending, emitted, overwritten or discarded.
  ghost function Accounted(s: AggState): multiset<Token> {
    multiset(PendingTokens(s.pending)) + EmittedTokens(s.emissions) + s.overwritten + s.discarded
  }

  lemma SplitGroup(pending: Pending, key: GroupKey)
    requires key in pending
    ensures multiset(PendingTokens(pending)) ==
            multiset(PendingTokens(pending - {key})) + multiset(GroupTokens(key, pending[key].arrivals))
  {
    var (rest, group) := (PendingTokens(pending - {key}), GroupTokens(key, pending[key].arrivals));
    assert PendingTokens(pending) == rest + group by {
      forall t | t in PendingTokens(pending)
        ensures t in rest + group
      {
        if t.key == key {
          assert t in group;
        } else {
          assert t.key in pending - {key};
        }
      }
    }
    assert rest !! group;
  }

  lemma SplitArrival(key: GroupKey, arrivals: Arrivals, c: string, time: real)
    requires c !in arrivals
    ensures multiset(GroupTokens(key, arrivals[c := time])) ==
            multiset(GroupTokens(key, arrivals)) + multiset{Token(key, c, time)}
  {
    var (rest, t, all) := (GroupTokens(key, arrivals), Token(key, c, time), GroupTokens(key, arrivals[c := time]));
    assert all == rest + {t} by {
      assert c in arrivals[c := time] && arrivals[c := time][c] == time;
      forall u | u in rest
        ensures u in all
      {
        assert u.collector in arrivals[c := time];
      }
    }
    assert t !in rest;
  }

  // The tokens an insertion replaces: those of the same collector in the same group.
  ghost function Replaced(key: GroupKey, arrivals: Arrivals, c: string): multiset<Token> {
    if c in arrivals then multiset{Token(key, c, arrivals[c])} else multiset{}
  }

  lemma ReplaceArrival(key: GroupKey, arrivals: Arrivals, c: string, time: real)
    ensures multiset(GroupTokens(key, arrivals[c := time])) + Replaced(key, arrivals, c) ==
            multiset(GroupTokens(key, arrivals)) + multiset{Token(key, c, time)}
  {
    var rest := arrivals - {c};
    SplitArrival(key, rest, c, time);
    assert rest[c := time] == arrivals[c := time];
    if c in arrivals {
      SplitArrival(key, rest, c, arrivals[c]);
      assert rest[c := arrivals[c]] == arrivals;
    } else {
      assert rest == arrivals;
    }
  }

  lemma InsertKeepsShape(s: AggState, record: BgpRecord, now: real)
    requires WellFormed(s.pending)
    ensures WellFormed(Insert(s, record, now).pending)
  {
    var arrivals := Group(s.pending, record, now).arrivals[record.collector := record.timestamp];
    assert record.collector in arrivals;
  }

  // The group a record belongs to, before it is inserted, accounts for the old pending map.
  lemma OpenGroup(s: AggState, record: BgpRecord, now: real)
    ensures var key := FromRecord(record);
      multiset(PendingTokens(s.pending)) ==
      multiset(PendingTokens(s.pending - {key})) + multiset(GroupTokens(key, Group(s.pending, record, now).arrivals))
  {
    var key := FromRecord(record);
    if key in s.pending {
      SplitGroup(s.pending, key);
    } else {
      assert s.pending - {key} == s.pending;
      assert GroupTokens(key, map[]) == {};
    }
  }

  lemma Rebalance(rest: multiset<Token>, before: multiset<Token>, after: multiset<Token>, emitted: multiset<Token>,
      overwritten: multiset<Token>, discarded: multiset<Token>, replaced: multiset<Token>, t: multiset<Token>)
    requires after + replaced == before + t
    ensures (rest + after) + emitted + (overwritten + replaced) + discarded ==
            (rest + before) + emitted + overwritten + discarded + t
  {
    assert (rest + after) + emitted + (overwritten + replaced) + discarded ==
           (rest + emitted + overwritten + discarded) + (after + replaced);
  }

  lemma InsertConserves(s: AggState, record: BgpRecord, now: real)
    ensures Accounted(Insert(s, record, now)) ==
            Accounted(s) + multiset{Token(FromRecord(record), record.collector, record.timestamp)}
  {
    hide Hash, GroupTokens, PendingTokens, EmittedTokens, Replaced;
    var (key, c) := (FromRecord(record), record.collector);
    var group := Group(s.pending, record, now);
    var after := Insert(s, record, now).pending;
    assert after - {key} == s.pending - {key};
    SplitGroup(after, key);
    OpenGroup(s, record, now);
    ReplaceArrival(key, group.arrivals, c, record.timestamp);
    Rebalance(multiset(PendingTokens(s.pending - {key})), multiset(GroupTokens(key, group.arrivals)),
      multiset(GroupTokens(key, group.arrivals[c := record.timestamp])), EmittedTokens(s.emissions),
      s.overwritten, s.discarded, Replaced(key, group.arrivals, c), multiset{Token(key, c, record.timestamp)});
  }

  lemma CloseConserves(s: AggState, key: GroupKey, now: real, canon: Canon)
    requires WellFormed(s.pending) && key in s.pending
    ensures WellFormed(Close(s, key, now, canon).pending)
    ensures Accounted(Close(s, key, now, canon)) == Accounted(s)
  {
    SplitGroup(s.pending, key);
    var t := Close(s, key, now, canon);
    if canon(key.prefix).Some? {
      assert t.emissions[..|s.emissions|] == s.emissions;
    }
  }

  lemma {:induction false} CloseAllConserves(s: AggState, keys: seq<GroupKey>, now: real, canon: Canon)
    requires WellFormed(s.pending) && Distinct(keys)
    requires forall i :: 0 <= i < |keys| ==> keys[i] in s.pending
    ensures WellFormed(CloseAll(s, keys, now, canon).pending)
    ensures Accounted(CloseAll(s, keys, now, canon)) == Accounted(s)
    ensures forall k :: k in CloseAll(s, keys, now, canon).pending <==> k in s.pending && k !in keys
    ensures forall k :: k in CloseAll(s, keys, now, canon).pending ==> CloseAll(s, keys, now, canon).pending[k] == s.pending[k]
    decreases |keys|
  {
    if keys == [] {
    } else {
      CloseConserves(s, keys[0], now, canon);
      CloseAllConserves(Close(s, keys[0], now, canon), keys[1..], now, canon);
      assert keys == [keys[0]] + keys[1..];
    }
  }

  lemma CloseEffect(s: AggState, key: GroupKey, now: real, canon: Canon)
    requires WellFormed(s.pending) && key in s.pending
    ensures var (t, group) := (Close(s, key, now, canon), s.pending[key]);
      && WellFormed(t.pending) && t.pending == s.pending - {key}
      && t.emissions == s.emissions +
         if canon(key.prefix).Some?
         then [Emission(key, NewEvent(canon(key.prefix).value, key.origin, group.path, group.arrivals), group.createdAt, now)]
         else []
  {
  }

  lemma CloseNone(s: AggState, now: real, canon: Canon)
    requires WellFormed(s.pending)
    ensures CloseAll(s, [], now, canon) == s
  {
  }

  lemma CloseAllStep(s: AggState, keys: seq<GroupKey>, i: nat, now: real, canon: Canon)
    requires WellFormed(s.pending) && Distinct(keys) && i < |keys|
    requires forall j :: i <= j < |keys| ==> keys[j] in s.pending
    ensures CloseAll(s, keys[i..], now, canon) == CloseAll(Close(s, keys[i], now, canon), keys[i + 1..], now, canon)
  {
    assert keys[i..][0] == keys[i] && keys[i..][1..] == keys[i + 1..];
  }

  // What the flush loop has done after the first i keys.
  ghost predicate FlushedSoFar(
      start: AggState, s: AggState, keys: seq<GroupKey>, i: nat, events: seq<PropagationEvent>, now: real, canon: Canon)
  {
    && i <= |keys| && Distinct(keys)
    && WellFormed(start.pending) && (forall j :: 0 <= j < |keys| ==> keys[j] in start.pending)
    && WellFormed(s.pending) && (forall j :: i <= j < |keys| ==> keys[j] in s.pending)
    && CloseAll(s, keys[i..], now, canon) == CloseAll(start, keys, now, canon)
    && |s.emissions| == |start.emissions| + |events|
    && forall j :: 0 <= j < |events| ==> s.emissions[|start.emissions| + j].event == events[j]
  }

  // One more group: the event it left behind, if any, is the next of the flush.
  lemma FlushOne(start: AggState, s: AggState, t: AggState, keys: seq<GroupKey>, i: nat, events: seq<PropagationEvent>,
      event: Option<PropagationEvent>, now: real, canon: Canon)
    requires FlushedSoFar(start, s, keys, i, events, now, canon) && i < |keys| && keys[i] in s.pending
    requires WellFormed(s.pending) && t == Close(s, keys[i], now, canon)
    requires t.emissions == s.emissions + Emitted(keys[i], s.pending[keys[i]], event, now)
    ensures FlushedSoFar(start, t, keys, i + 1, if event.Some? then events + [event.value] else events, now, canon)
  {
    hide NewEvent, Close, CloseAll, WellFormed;
    CloseAllStep(s, keys, i, now, canon);
    CloseEffect(s, keys[i], now, canon);
  }

  lemma StillOpen(pending: Pending, now: real)
    requires forall k :: k in pending ==> !Expired(pending[k], now)
    ensures forall k :: k in pending ==> now - pending[k].createdAt < 10.0
  {
  }

  lemma NextIsPending(start: AggState, s: AggState, keys: seq<GroupKey>, i: nat, events: seq<PropagationEvent>, now: real, canon: Canon)
    requires FlushedSoFar(start, s, keys, i, events, now, canon) && i < |keys|
    ensures keys[i] in s.pending
  {
  }

  lemma FlushEnds(start: AggState, s: AggState, keys: seq<GroupKey>, events: seq<PropagationEvent>, now: real, canon: Canon)
    requires WellFormed(start.pending) && ExpiredKeys(start.pending, now, keys)
    ensures FlushedSoFar(start, start, keys, 0, [], now, canon)
    ensures FlushedSoFar(start, s, keys, |keys|, events, now, canon) ==>
      && s == CloseAll(start, keys, now, canon)
      && |s.emissions| == |start.emissions| + |events|
      && (forall j :: 0 <= j < |events| ==> s.emissions[|start.emissions| + j].event == events[j])
      && (forall k :: k in s.pending ==> !Expired(s.pending[k], now))
  {
    hide NewEvent, Hash, CloseAll;
    assert keys[0..] == keys && keys[|keys|..] == [];
    CloseAllConserves(start, keys, now, canon);
    if FlushedSoFar(start, s, keys, |keys|, events, now, canon) {
      CloseNone(s, now, canon);
    }
  }

  // ----- runs

  datatype Step =
    | AddStep(record: BgpRecord, now: real)
    // The expired groups in the order the map happened to list them.
    | FlushStep(now: real, keys: seq<GroupKey>)

  const START := AggState(map[], [], multiset{}, multiset{})

  ghost predicate Enabled(s: AggState, step: Step) {
    step.FlushStep? ==> ExpiredKeys(s.pending, step.now, step.keys)
  }

  ghost function Apply(s: AggState, step: Step, canon: Canon): AggState
    requires WellFormed(s.pending) && Enabled(s, step)
  {
    match step
    case AddStep(record, now) => Add(s, record, now, canon)
    case FlushStep(now, keys) => CloseAll(s, keys, now, canon)
  }

  // s is reached from the empty aggregator by the given steps.
  ghost predicate Reaches(steps: seq<Step>, s: AggState, canon: Canon)
    decreases |steps|
  {
    if steps == [] then s == START
    else exists p :: StepsTo(steps, p, s, canon)
  }

  ghost predicate StepsTo(steps: seq<Step>, p: AggState, s: AggState, canon: Canon)
    requires steps != []
    decreases |steps|, 0
  {
    var step := steps[|steps| - 1];
    && Reaches(steps[..|steps| - 1], p, canon)
    && WellFormed(p.pending) && Enabled(p, step) && s == Apply(p, step, canon)
  }

  // Every arrival the run was fed.
  ghost function Fed(steps: seq<Step>): multiset<Token> {
    if steps == [] then multiset{}
    else
      var step := steps[|steps| - 1];
      Fed(steps[..|steps| - 1]) +
      if step.AddStep? then multiset{Token(FromRecord(step.record), step.record.collector, step.record.timestamp)}
      else multiset{}
  }

  /** Conservation over every run: each arrival that was fed is in exactly one of a pending
      group, an emitted event, the arrivals a later one of the same collector and group
      replaced, or the groups dropped for an unparsable prefix. */
  lemma {:induction false} EveryArrivalIsAccountedFor(steps: seq<Step>, s: AggState, canon: Canon)
    requires Reaches(steps, s, canon)
    ensures WellFormed(s.pending)
    ensures Fed(steps) == multiset(PendingTokens(s.pending)) + EmittedTokens(s.emissions) + s.overwritten + s.discarded
    decreases |steps|
  {
    if steps == [] {
      assert PendingTokens(START.pending) == {};
    } else {
      var p :| StepsTo(steps, p, s, canon);
      EveryArrivalIsAccountedFor(steps[..|steps| - 1], p, canon);
      match steps[|steps| - 1]
      case AddStep(record, now) =>
        InsertConserves(p, record, now);
        InsertKeepsShape(p, record, now);
        var inserted := Insert(p, record, now);
        if Expired(inserted.pending[FromRecord(record)], now) {
          CloseConserves(inserted, FromRecord(record), now, canon);
        }
      case FlushStep(now, keys) =>
        CloseAllConserves(p, keys, now, canon);
    }
  }

  // ----- windows

  // Some record of this group and with this path arrived at this instant.
  ghost predicate OpenedBy(steps: seq<Step>, key: GroupKey, path: Path, at: real) {
    exists i :: 0 <= i < |steps| && steps[i].AddStep? && steps[i].now == at
                && FromRecord(steps[i].record) == key && steps[i].record.path == path
  }

  ghost predicate Proper(e: Emission, canon: Canon) {
    && e.at - e.openedAt >= 10.0
    && e.event.arrivals != map[]
    && canon(e.key.prefix) == Some(e.event.prefix)
    && e.event.origin == e.key.origin && Hash(e.event.path) == e.key.pathHash
    && e.event == NewEvent(e.event.prefix, e.event.origin, e.event.path, e.event.arrivals)
  }

  ghost predicate WindowsKept(steps: seq<Step>, s: AggState, canon: Canon) {
    && (forall k :: k in s.pending ==> OpenedBy(steps, k, s.pending[k].path, s.pending[k].createdAt))
    && (forall i :: 0 <= i < |s.emissions| ==>
          Proper(s.emissions[i], canon) && OpenedBy(steps, s.emissions[i].key, s.emissions[i].event.path, s.emissions[i].openedAt))
  }

  lemma InsertKeepsWindows(steps: seq<Step>, s: AggState, record: BgpRecord, now: real, canon: Canon)
    requires WindowsKept(steps, s, canon) && OpenedBy(steps, FromRecord(record), record.path, now)
    ensures WindowsKept(steps, Insert(s, record, now), canon)
  {
  }

  lemma CloseKeepsWindows(steps: seq<Step>, s: AggState, key: GroupKey, now: real, canon: Canon)
    requires WellFormed(s.pending) && key in s.pending && Expired(s.pending[key], now)
    requires WindowsKept(steps, s, canon)
    ensures WindowsKept(steps, Close(s, key, now, canon), canon)
  {
  }

  lemma {:induction false} CloseAllKeepsWindows(steps: seq<Step>, s: AggState, keys: seq<GroupKey>, now: real, canon: Canon)
    requires WellFormed(s.pending) && Distinct(keys)
    requires forall i :: 0 <= i < |keys| ==> keys[i] in s.pending && Expired(s.pending[keys[i]], now)
    requires WindowsKept(steps, s, canon)
    ensures WindowsKept(steps, CloseAll(s, keys, now, canon), canon)
    decreases |keys|
  {
    if keys == [] {
    } else {
      CloseKeepsWindows(steps, s, keys[0], now, canon);
      CloseAllKeepsWindows(steps, Close(s, keys[0], now, canon), keys[1..], now, canon);
    }
  }

  lemma LongerRunKeepsWindows(steps: seq<Step>, step: Step, s: AggState, canon: Canon)
    requires WindowsKept(steps, s, canon)
    ensures WindowsKept(steps + [step], s, canon)
  {
    forall k, p, t | OpenedBy(steps, k, p, t)
      ensures OpenedBy(steps + [step], k, p, t)
    {
      var i :| 0 <= i < |steps| && steps[i].AddStep? && steps[i].now == t
        && FromRecord(steps[i].record) == k && steps[i].record.path == p;
      assert (steps + [step])[i] == steps[i];
    }
  }

  lemma ApplyKeepsWindows(steps: seq<Step>, p: AggState, step: Step, canon: Canon)
    requires WellFormed(p.pending) && Enabled(p, step) && WindowsKept(steps, p, canon)
    requires step.AddStep? ==> OpenedBy(steps, FromRecord(step.record), step.record.path, step.now)
    ensures WindowsKept(steps, Apply(p, step, canon), canon)
  {
    hide NewEvent, Hash, CloseAll, Close, WindowsKept;
    match step
    case AddStep(record, now) =>
      var (key, inserted) := (FromRecord(record), Insert(p, record, now));
      InsertKeepsShape(p, record, now);
      InsertKeepsWindows(steps, p, record, now, canon);
      if Expired(inserted.pending[key], now) {
        CloseKeepsWindows(steps, inserted, key, now, canon);
      }
    case FlushStep(now, keys) =>
      assert forall i :: 0 <= i < |keys| ==> keys[i] in keys;
      CloseAllKeepsWindows(steps, p, keys, now, canon);
  }

  /** In every run, no event leaves before its group's window has elapsed, counted from a
      record of that very group with the event's own path; and each event is what its group's
      key says, so that the hash of its path is the hash it was grouped under. */
  lemma {:induction false} NothingLeavesEarly(steps: seq<Step>, s: AggState, canon: Canon)
    requires Reaches(steps, s, canon)
    ensures forall i :: 0 <= i < |s.emissions| ==>
      Proper(s.emissions[i], canon) && OpenedBy(steps, s.emissions[i].key, s.emissions[i].event.path, s.emissions[i].openedAt)
    ensures WindowsKept(steps, s, canon)
    decreases |steps|
  {
    hide NewEvent, Hash, Apply, OpenedBy, Proper;
    if steps == [] {
    } else {
      var p :| StepsTo(steps, p, s, canon);
      var (before, step) := (steps[..|steps| - 1], steps[|steps| - 1]);
      NothingLeavesEarly(before, p, canon);
      LongerRunKeepsWindows(before, step, p, canon);
      assert steps == before + [step];
      if step.AddStep? {
        LastAddOpens(steps);
      }
      ApplyKeepsWindows(steps, p, step, canon);
    }
  }

  lemma LastAddOpens(steps: seq<Step>)
    requires steps != [] && steps[|steps| - 1].AddStep?
    ensures OpenedBy(steps, FromRecord(steps[|steps| - 1].record), steps[|steps| - 1].record.path, steps[|steps| - 1].now)
  {
  }

  // ----- what an event holds

  // Some record of this group brought this arrival between the two instants.
  ghost predicate AddedBetween(steps: seq<Step>, t: Token, from: real, to: real) {
    exists i :: 0 <= i < |steps| && steps[i].AddStep? && from <= steps[i].now <= to
                && Token(FromRecord(steps[i].record), steps[i].record.collector, steps[i].record.timestamp) == t
  }

  ghost predicate ClockNondecreasing(steps: seq<Step>) {
    forall i, j :: 0 <= i < j < |steps| ==> steps[i].now <= steps[j].now
  }

  // Every arrival was added after its group was opened and before now, or before its event left.
  ghost predicate InTime(steps: seq<Step>, s: AggState, now: real) {
    && (forall k :: k in s.pending ==> s.pending[k].createdAt <= now)
    && (forall k, c :: k in s.pending && c in s.pending[k].arrivals ==>
          AddedBetween(steps, Token(k, c, s.pending[k].arrivals[c]), s.pending[k].createdAt, now))
    && (forall i, c :: 0 <= i < |s.emissions| && c in s.emissions[i].event.arrivals ==>
          AddedBetween(steps, Token(s.emissions[i].key, c, s.emissions[i].event.arrivals[c]), s.emissions[i].openedAt, s.emissions[i].at))
  }

  lemma Widen(steps: seq<Step>, step: Step, t: Token, from: real, to: real, later: real)
    requires to <= later
    ensures AddedBetween(steps, t, from, to) ==> AddedBetween(steps + [step], t, from, later)
  {
    if AddedBetween(steps, t, from, to) {
      var i :| 0 <= i < |steps| && steps[i].AddStep? && from <= steps[i].now <= to
        && Token(FromRecord(steps[i].record), steps[i].record.collector, steps[i].record.timestamp) == t;
      assert (steps + [step])[i] == steps[i];
    }
  }

  lemma LongerRunInTime(steps: seq<Step>, step: Step, s: AggState, now: real)
    requires InTime(steps, s, now) && now <= step.now
    ensures InTime(steps + [step], s, step.now)
  {
    hide AddedBetween;
    forall t, from, to, later | to <= later
      ensures AddedBetween(steps, t, from, to) ==> AddedBetween(steps + [step], t, from, later)
    {
      Widen(steps, step, t, from, to, later);
    }
  }

  lemma InsertInTime(steps: seq<Step>, s: AggState, record: BgpRecord, now: real)
    requires InTime(steps, s, now)
    requires steps != [] && steps[|steps| - 1] == AddStep(record, now)
    ensures InTime(steps, Insert(s, record, now), now)
  {
    hide Hash;
    var created := Group(s.pending, record, now).createdAt;
    assert AddedBetween(steps, Token(FromRecord(record), record.collector, record.timestamp), created, now);
    hide AddedBetween;
    var t := Insert(s, record, now);
    assert t.emissions == s.emissions;
    forall k, c | k in t.pending && c in t.pending[k].arrivals
      ensures AddedBetween(steps, Token(k, c, t.pending[k].arrivals[c]), t.pending[k].createdAt, now)
    {
      if k != FromRecord(record) || c != record.collector {
        assert k in s.pending && c in s.pending[k].arrivals && t.pending[k].createdAt == s.pending[k].createdAt;
        assert t.pending[k].arrivals[c] == s.pending[k].arrivals[c];
      }
    }
  }

  lemma CloseInTime(steps: seq<Step>, s: AggState, key: GroupKey, now: real, canon: Canon)
    requires WellFormed(s.pending) && key in s.pending
    requires InTime(steps, s, now)
    ensures InTime(steps, Close(s, key, now, canon), now)
  {
    hide AddedBetween, Hash;
  }

  lemma {:induction false} CloseAllInTime(steps: seq<Step>, s: AggState, keys: seq<GroupKey>, now: real, canon: Canon)
    requires WellFormed(s.pending) && Distinct(keys)
    requires forall i :: 0 <= i < |keys| ==> keys[i] in s.pending
    requires InTime(steps, s, now)
    ensures InTime(steps, CloseAll(s, keys, now, canon), now)
    decreases |keys|
  {
    hide InTime, Close;
    if keys == [] {
      CloseNone(s, now, canon);
    } else {
      CloseEffect(s, keys[0], now, canon);
      CloseInTime(steps, s, keys[0], now, canon);
      CloseAllInTime(steps, Close(s, keys[0], now, canon), keys[1..], now, canon);
    }
  }

  lemma ApplyInTime(steps: seq<Step>, p: AggState, step: Step, canon: Canon)
    requires WellFormed(p.pending) && Enabled(p, step) && InTime(steps, p, step.now)
    requires steps != [] && steps[|steps| - 1] == step
    ensures InTime(steps, Apply(p, step, canon), step.now)
  {
    hide NewEvent, Hash, CloseAll, Close, InTime;
    match step
    case AddStep(record, now) =>
      var (key, inserted) := (FromRecord(record), Insert(p, record, now));
      InsertKeepsShape(p, record, now);
      InsertInTime(steps, p, record, now);
      if Expired(inserted.pending[key], now) {
        CloseInTime(steps, inserted, key, now, canon);
      }
    case FlushStep(now, keys) =>
      CloseAllInTime(steps, p, keys, now, canon);
  }

  /** With a nondecreasing clock, every arrival of an event was brought by a record of its
      group no earlier than the group was opened and no later than the event left. */
  lemma {:induction false} ArrivalsFallInTheWindow(steps: seq<Step>, s: AggState, canon: Canon)
    requires Reaches(steps, s, canon) && ClockNondecreasing(steps)
    ensures forall i, c :: 0 <= i < |s.emissions| && c in s.emissions[i].event.arrivals ==>
      AddedBetween(steps, Token(s.emissions[i].key, c, s.emissions[i].event.arrivals[c]), s.emissions[i].openedAt, s.emissions[i].at)
    ensures InTime(steps, s, if steps == [] then 0.0 else steps[|steps| - 1].now)
    decreases |steps|
  {
    hide NewEvent, Hash, Apply, AddedBetween;
    if steps == [] {
    } else {
      var p :| StepsTo(steps, p, s, canon);
      var (before, step) := (steps[..|steps| - 1], steps[|steps| - 1]);
      assert steps == before + [step];
      ArrivalsFallInTheWindow(before, p, canon);
      if before == [] {
        EmptyInTime([step], step.now);
      } else {
        LongerRunInTime(before, step, p, before[|before| - 1].now);
      }
      ApplyInTime(steps, p, step, canon);
    }
  }

  lemma EmptyInTime(steps: seq<Step>, now: real)
    ensures InTime(steps, START, now)
  {
  }

  // ----- which arrivals a group holds

  // The step adds a record of this group from this collector.
  ghost predicate Brings(step: Step, key: GroupKey, c: string) {
    && step.AddStep? && step.record.collector == c
    && step.record.prefix == key.prefix && step.record.origin == key.origin && Hash(step.record.path) == key.pathHash
  }

  ghost predicate BringsTime(step: Step, key: GroupKey, c: string, time: real) {
    Brings(step, key, c) && step.record.timestamp == time
  }

  // Among the steps in [from, to), the last that brought this collector brought this time.
  ghost predicate IsLatest(steps: seq<Step>, key: GroupKey, c: string, time: real, from: int, to: int)
    requires 0 <= from <= to <= |steps|
  {
    exists i :: from <= i < to && BringsTime(steps[i], key, c, time)
                && forall j :: i < j < to ==> !Brings(steps[j], key, c)
  }

  // A group that the step at from opened and that holds what the steps in [from, to) brought.
  ghost predicate HoldsLatest(steps: seq<Step>, key: GroupKey, arrivals: Arrivals, openedAt: real, from: int, to: int) {
    && 0 <= from < to <= |steps|
    && steps[from].AddStep? && Brings(steps[from], key, steps[from].record.collector) && steps[from].now == openedAt
    && (forall i, c :: from <= i < to && Brings(steps[i], key, c) ==> c in arrivals)
    && (forall c :: c in arrivals ==> IsLatest(steps, key, c, arrivals[c], from, to))
  }

  ghost predicate Held(steps: seq<Step>, key: GroupKey, arrivals: Arrivals, openedAt: real, to: int) {
    exists from :: HoldsLatest(steps, key, arrivals, openedAt, from, to)
  }

  ghost predicate WasHeld(steps: seq<Step>, key: GroupKey, arrivals: Arrivals, openedAt: real) {
    exists to :: Held(steps, key, arrivals, openedAt, to)
  }

  // One step brought this arrival and a later one the same collector's next.
  ghost predicate WasReplaced(steps: seq<Step>, t: Token) {
    exists i, j :: 0 <= i < j < |steps| && BringsTime(steps[i], t.key, t.collector, t.time)
                   && Brings(steps[j], t.key, t.collector)
  }

  ghost predicate PendingHeld(steps: seq<Step>, pending: Pending) {
    forall k :: k in pending ==> Held(steps, k, pending[k].arrivals, pending[k].createdAt, |steps|)
  }

  ghost predicate PastHeld(steps: seq<Step>, s: AggState, canon: Canon) {
    && (forall i :: 0 <= i < |s.emissions| ==>
          WasHeld(steps, s.emissions[i].key, s.emissions[i].event.arrivals, s.emissions[i].openedAt))
    && (forall t :: t in s.overwritten ==> WasReplaced(steps, t))
    && (forall t :: t in s.discarded ==> canon(t.key.prefix).None?)
  }

  lemma IsLatestLonger(steps: seq<Step>, step: Step, key: GroupKey, c: string, time: real, from: int, to: int)
    requires 0 <= from <= to <= |steps| && IsLatest(steps, key, c, time, from, to)
    ensures IsLatest(steps + [step], key, c, time, from, to)
    ensures to == |steps| && !Brings(step, key, c) ==> IsLatest(steps + [step], key, c, time, from, to + 1)
  {
    hide Brings, BringsTime;
    var i :| from <= i < to && BringsTime(steps[i], key, c, time)
      && forall j :: i < j < to ==> !Brings(steps[j], key, c);
    var more := steps + [step];
    assert more[i] == steps[i] && forall j :: i < j < to ==> more[j] == steps[j];
    if to == |steps| && !Brings(step, key, c) {
      assert forall j :: i < j < to + 1 ==> !Brings(more[j], key, c);
    }
  }

  lemma HeldLonger(steps: seq<Step>, step: Step, key: GroupKey, arrivals: Arrivals, openedAt: real, to: int)
    requires Held(steps, key, arrivals, openedAt, to)
    ensures Held(steps + [step], key, arrivals, openedAt, to)
  {
    hide Brings, IsLatest;
    var from :| HoldsLatest(steps, key, arrivals, openedAt, from, to);
    var more := steps + [step];
    forall c | c in arrivals
      ensures IsLatest(more, key, c, arrivals[c], from, to)
    {
      IsLatestLonger(steps, step, key, c, arrivals[c], from, to);
    }
    assert forall i :: from <= i < to ==> more[i] == steps[i];
    assert HoldsLatest(more, key, arrivals, openedAt, from, to);
  }

  // A step that brings a group nothing leaves it as it is.
  lemma HeldQuietly(steps: seq<Step>, step: Step, key: GroupKey, arrivals: Arrivals, openedAt: real)
    requires Held(steps, key, arrivals, openedAt, |steps|) && forall c :: !Brings(step, key, c)
    ensures Held(steps + [step], key, arrivals, openedAt, |steps| + 1)
  {
    hide Brings, IsLatest;
    var (n, more) := (|steps|, steps + [step]);
    var from :| HoldsLatest(steps, key, arrivals, openedAt, from, n);
    forall c | c in arrivals
      ensures IsLatest(more, key, c, arrivals[c], from, n + 1)
    {
      IsLatestLonger(steps, step, key, c, arrivals[c], from, n);
    }
    assert forall i :: from <= i < n ==> more[i] == steps[i];
    assert HoldsLatest(more, key, arrivals, openedAt, from, n + 1);
  }

  lemma IsLatestNow(steps: seq<Step>, step: Step, key: GroupKey, c: string, from: int)
    requires 0 <= from <= |steps| && step.AddStep? && Brings(step, key, c)
    ensures IsLatest(steps + [step], key, c, step.record.timestamp, from, |steps| + 1)
  {
    hide Brings;
    assert (steps + [step])[|steps|] == step;
  }

  // A record of an open group: its own collector's time is the record's now, the others stay.
  lemma HeldInserts(steps: seq<Step>, step: Step, key: GroupKey, arrivals: Arrivals, openedAt: real)
    requires Held(steps, key, arrivals, openedAt, |steps|) && step.AddStep? && Brings(step, key, step.record.collector)
    ensures Held(steps + [step], key, arrivals[step.record.collector := step.record.timestamp], openedAt, |steps| + 1)
  {
    var (n, more, d) := (|steps|, steps + [step], step.record.collector);
    var next := arrivals[d := step.record.timestamp];
    assert forall c :: Brings(step, key, c) ==> c == d;
    hide Brings, IsLatest;
    var from :| HoldsLatest(steps, key, arrivals, openedAt, from, n);
    forall c | c in next
      ensures IsLatest(more, key, c, next[c], from, n + 1)
    {
      if c == d {
        IsLatestNow(steps, step, key, c, from);
      } else {
        IsLatestLonger(steps, step, key, c, arrivals[c], from, n);
      }
    }
    assert forall i :: from <= i < n ==> more[i] == steps[i];
    assert HoldsLatest(more, key, next, openedAt, from, n + 1);
  }

  lemma HeldFromHere(steps: seq<Step>, step: Step, key: GroupKey)
    requires step.AddStep? && Brings(step, key, step.record.collector)
    ensures Held(steps + [step], key, map[step.record.collector := step.record.timestamp], step.now, |steps| + 1)
  {
    var (n, more, d) := (|steps|, steps + [step], step.record.collector);
    IsLatestNow(steps, step, key, d, n);
    assert more[n] == step;
    assert HoldsLatest(more, key, map[d := step.record.timestamp], step.now, n, n + 1);
  }

  lemma ReplacedLonger(steps: seq<Step>, step: Step, t: Token)
    ensures WasReplaced(steps, t) ==> WasReplaced(steps + [step], t)
  {
    hide Brings, BringsTime;
    if WasReplaced(steps, t) {
      var i, j :| 0 <= i < j < |steps| && BringsTime(steps[i], t.key, t.collector, t.time)
        && Brings(steps[j], t.key, t.collector);
      assert (steps + [step])[i] == steps[i] && (steps + [step])[j] == steps[j];
    }
  }

  lemma ReplacedHere(steps: seq<Step>, step: Step, key: GroupKey, arrivals: Arrivals, openedAt: real, c: string)
    requires Held(steps, key, arrivals, openedAt, |steps|) && c in arrivals && Brings(step, key, c)
    ensures WasReplaced(steps + [step], Token(key, c, arrivals[c]))
  {
    hide Brings, BringsTime;
    var from :| HoldsLatest(steps, key, arrivals, openedAt, from, |steps|);
    assert IsLatest(steps, key, c, arrivals[c], from, |steps|);
    var i :| from <= i < |steps| && BringsTime(steps[i], key, c, arrivals[c]);
    assert (steps + [step])[i] == steps[i] && (steps + [step])[|steps|] == step;
  }

  // What has left the pending map is not touched by a new step.
  lemma PastStaysHeld(steps: seq<Step>, step: Step, s: AggState, canon: Canon)
    requires PastHeld(steps, s, canon)
    ensures PastHeld(steps + [step], s, canon)
  {
    hide Held, WasReplaced;
    forall i | 0 <= i < |s.emissions|
      ensures WasHeld(steps + [step], s.emissions[i].key, s.emissions[i].event.arrivals, s.emissions[i].openedAt)
    {
      var e := s.emissions[i];
      var to :| Held(steps, e.key, e.event.arrivals, e.openedAt, to);
      HeldLonger(steps, step, e.key, e.event.arrivals, e.openedAt, to);
    }
    forall t | t in s.overwritten
      ensures WasReplaced(steps + [step], t)
    {
      ReplacedLonger(steps, step, t);
    }
  }

  // A step that brings nothing to any of these groups.
  lemma PendingStaysHeld(steps: seq<Step>, step: Step, pending: Pending)
    requires PendingHeld(steps, pending) && forall k, c :: k in pending ==> !Brings(step, k, c)
    ensures PendingHeld(steps + [step], pending)
  {
    hide Held, Brings;
    forall k | k in pending
      ensures Held(steps + [step], k, pending[k].arrivals, pending[k].createdAt, |steps| + 1)
    {
      HeldQuietly(steps, step, k, pending[k].arrivals, pending[k].createdAt);
    }
  }

  lemma OneMoreHeld(steps: seq<Step>, pending: Pending, key: GroupKey, group: PendingGroup)
    requires PendingHeld(steps, pending - {key}) && Held(steps, key, group.arrivals, group.createdAt, |steps|)
    ensures PendingHeld(steps, pending[key := group])
  {
    hide Held;
    forall k | k in pending[key := group] && k != key
      ensures Held(steps, k, pending[k].arrivals, pending[k].createdAt, |steps|)
    {
      assert k in pending - {key} && (pending - {key})[k] == pending[k];
    }
  }

  lemma GroupHolds(steps: seq<Step>, s: AggState, record: BgpRecord, now: real)
    requires PendingHeld(steps, s.pending)
    ensures var (key, group) := (FromRecord(record), Group(s.pending, record, now));
      Held(steps + [AddStep(record, now)], key, group.arrivals[record.collector := record.timestamp], group.createdAt, |steps| + 1)
    ensures forall t :: t in Replaced(FromRecord(record), Group(s.pending, record, now).arrivals, record.collector) ==>
      WasReplaced(steps + [AddStep(record, now)], t)
  {
    var (step, key, c) := (AddStep(record, now), FromRecord(record), record.collector);
    assert Brings(step, key, c);
    hide Held, WasReplaced, Brings;
    if key in s.pending {
      HeldInserts(steps, step, key, s.pending[key].arrivals, s.pending[key].createdAt);
      if c in s.pending[key].arrivals {
        ReplacedHere(steps, step, key, s.pending[key].arrivals, s.pending[key].createdAt, c);
      }
    } else {
      HeldFromHere(steps, step, key);
    }
  }

  lemma InsertHolds(steps: seq<Step>, s: AggState, record: BgpRecord, now: real, canon: Canon)
    requires PendingHeld(steps, s.pending) && PastHeld(steps, s, canon)
    ensures var t := Insert(s, record, now);
      PendingHeld(steps + [AddStep(record, now)], t.pending) && PastHeld(steps + [AddStep(record, now)], t, canon)
  {
    var (step, key, t) := (AddStep(record, now), FromRecord(record), Insert(s, record, now));
    assert forall k, c :: Brings(step, k, c) ==> k == key;
    hide Brings, Held, WasHeld, WasReplaced, FromRecord, Replaced, Group;
    PastStaysHeld(steps, step, s, canon);
    GroupHolds(steps, s, record, now);
    PendingStaysHeld(steps, step, s.pending - {key});
    hide PendingHeld;
    var group := Group(s.pending, record, now);
    OneMoreHeld(steps + [step], s.pending, key, group.(arrivals := group.arrivals[record.collector := record.timestamp]));
  }

  lemma CloseHolds(steps: seq<Step>, s: AggState, key: GroupKey, now: real, canon: Canon)
    requires WellFormed(s.pending) && key in s.pending && PendingHeld(steps, s.pending) && PastHeld(steps, s, canon)
    ensures var t := Close(s, key, now, canon);
      PendingHeld(steps, t.pending) && PastHeld(steps, t, canon)
  {
    hide Held, WasReplaced, Hash, WasHeld, NewEvent;
    var (group, t) := (s.pending[key], Close(s, key, now, canon));
    assert WasHeld(steps, key, group.arrivals, group.createdAt) by {
      HeldWasHeld(steps, key, group);
    }
    if canon(key.prefix).Some? {
      EventShape(canon(key.prefix).value, key.origin, group.path, group.arrivals);
    } else {
      assert forall u :: u in GroupTokens(key, group.arrivals) ==> u.key == key;
    }
  }

  lemma HeldWasHeld(steps: seq<Step>, key: GroupKey, group: PendingGroup)
    requires Held(steps, key, group.arrivals, group.createdAt, |steps|)
    ensures WasHeld(steps, key, group.arrivals, group.createdAt)
  {
    hide Held;
  }

  lemma {:induction false} CloseAllHolds(steps: seq<Step>, s: AggState, keys: seq<GroupKey>, now: real, canon: Canon)
    requires WellFormed(s.pending) && Distinct(keys)
    requires forall i :: 0 <= i < |keys| ==> keys[i] in s.pending
    requires PendingHeld(steps, s.pending) && PastHeld(steps, s, canon)
    ensures var t := CloseAll(s, keys, now, canon);
      PendingHeld(steps, t.pending) && PastHeld(steps, t, canon)
    decreases |keys|
  {
    hide PendingHeld, PastHeld, Close;
    if keys == [] {
      CloseNone(s, now, canon);
    } else {
      CloseEffect(s, keys[0], now, canon);
      CloseHolds(steps, s, keys[0], now, canon);
      CloseAllHolds(steps, Close(s, keys[0], now, canon), keys[1..], now, canon);
    }
  }

  lemma ApplyHolds(steps: seq<Step>, p: AggState, step: Step, canon: Canon)
    requires WellFormed(p.pending) && Enabled(p, step) && PendingHeld(steps, p.pending) && PastHeld(steps, p, canon)
    ensures var t := Apply(p, step, canon);
      PendingHeld(steps + [step], t.pending) && PastHeld(steps + [step], t, canon)
  {
    hide NewEvent, Hash, CloseAll, Close, PendingHeld, PastHeld;
    match step
    case AddStep(record, now) =>
      var (key, inserted) := (FromRecord(record), Insert(p, record, now));
      InsertKeepsShape(p, record, now);
      InsertHolds(steps, p, record, now, canon);
      if Expired(inserted.pending[key], now) {
        CloseHolds(steps + [step], inserted, key, now, canon);
      }
    case FlushStep(now, keys) =>
      PastStaysHeld(steps, step, p, canon);
      PendingStaysHeld(steps, step, p.pending);
      CloseAllHolds(steps + [step], p, keys, now, canon);
  }

  /** Over every run the last report wins: a pending group and an emitted event hold, for each
      collector that reported since the group was opened and for no other, the timestamp of the
      last such report. Every overwritten arrival was followed by a later one of the same
      collector and group, and nothing is discarded unless its prefix does not parse. */
  lemma {:induction false} LastReportWins(steps: seq<Step>, s: AggState, canon: Canon)
    requires Reaches(steps, s, canon)
    ensures forall k :: k in s.pending ==> Held(steps, k, s.pending[k].arrivals, s.pending[k].createdAt, |steps|)
    ensures forall i :: 0 <= i < |s.emissions| ==>
      WasHeld(steps, s.emissions[i].key, s.emissions[i].event.arrivals, s.emissions[i].openedAt)
    ensures forall t :: t in s.overwritten ==> WasReplaced(steps, t)
    ensures forall t :: t in s.discarded ==> canon(t.key.prefix).None?
    decreases |steps|
  {
    hide NewEvent, Hash, Apply, Held, WasHeld, WasReplaced;
    if steps == [] {
    } else {
      var p :| StepsTo(steps, p, s, canon);
      var (before, step) := (steps[..|steps| - 1], steps[|steps| - 1]);
      LastReportWins(before, p, canon);
      assert steps == before + [step];
      ApplyHolds(before, p, step, canon);
    }
  }

  // ----- the object

  class PropagationAggregator {
    var pending: Pending
    const canon: Canon
    ghost var ledger: AggState

    ghost predicate Valid()
      reads this
    {
      ledger.pending == pending && WellFormed(pending)
    }

    constructor (canon: Canon)
      ensures Valid() && ledger == START && this.canon == canon
    {
      pending := map[];
      this.canon := canon;
      ledger := START;
    }

    /** Adds one record; the event is the one the step emitted, if it emitted one. */
    method AddRecord(record: BgpRecord, now: real) returns (event: Option<PropagationEvent>)
      requires Valid()
      modifies this
      ensures Valid()
      ensures ledger == Add(old(ledger), record, now, canon)
      ensures ledger.emissions == old(ledger.emissions) + Emitted(FromRecord(record), Group(old(pending), record, now), event, now)
      ensures var key := GroupKey(record.prefix, record.origin, Hash(record.path));
        var elapsed := if key in old(pending) then now - old(pending)[key].createdAt else 0.0;
        && (event.Some? <==> elapsed >= 10.0 && canon(record.prefix).Some?)
        && (key in pending <==> elapsed < 10.0)
    {
      hide NewEvent, Hash, Close;
      InsertKeepsShape(ledger, record, now);
      var key := FromRecord(record);
      var group := if key in pending then pending[key] else PendingGroup(map[], record.path, now);
      group := group.(arrivals := group.arrivals[record.collector := record.timestamp]);
      pending := pending[key := group];
      ledger := Insert(ledger, record, now);
      if Expired(group, now) {
        event := CloseGroup(key, now);
      } else {
        event := None;
      }
    }

    // Takes one group out and makes its event, unless its prefix does not parse.
    method CloseGroup(key: GroupKey, now: real) returns (event: Option<PropagationEvent>)
      requires Valid() && key in pending
      modifies this
      ensures Valid()
      ensures ledger == Close(old(ledger), key, now, canon)
      ensures ledger.emissions == old(ledger.emissions) + Emitted(key, old(pending)[key], event, now)
      ensures pending == old(pending) - {key} && (event.Some? <==> canon(key.prefix).Some?)
    {
      hide NewEvent, Hash;
      CloseConserves(ledger, key, now, canon);
      var group := pending[key];
      ledger := Close(ledger, key, now, canon);
      pending := pending - {key};
      var parsed := canon(key.prefix);
      if parsed.None? {
        return None;
      }
      return Some(NewEvent(parsed.value, key.origin, group.path, group.arrivals));
    }

    /** Flushes every group expired at this instant, in some order; none of them remains. */
    method FlushExpired(now: real) returns (events: seq<PropagationEvent>, ghost keys: seq<GroupKey>)
      requires Valid()
      modifies this
      ensures Valid()
      ensures ExpiredKeys(old(pending), now, keys)
      ensures ledger == CloseAll(old(ledger), keys, now, canon)
      ensures |ledger.emissions| == |old(ledger.emissions)| + |events|
      ensures forall i :: 0 <= i < |events| ==> ledger.emissions[|old(ledger.emissions)| + i].event == events[i]
      ensures forall k :: k in pending ==> now - pending[k].createdAt < 10.0
    {
      hide NewEvent, Hash, Close, CloseAll, FlushedSoFar, Expired, ExpiredKeys, WellFormed, Emitted;
      var expired := ListExpired(now);
      keys := expired;
      events := [];
      FlushEnds(ledger, ledger, keys, [], now, canon);
      for i := 0 to |expired|
        invariant Valid() && FlushedSoFar(old(ledger), ledger, expired, i, events, now, canon)
      {
        ghost var before := ledger;
        NextIsPending(old(ledger), ledger, expired, i, events, now, canon);
        var event := CloseGroup(expired[i], now);
        FlushOne(old(ledger), before, ledger, expired, i, events, event, now, canon);
        if event.Some? {
          events := events + [event.value];
        }
      }
      FlushEnds(old(ledger), ledger, keys, events, now, canon);
      StillOpen(pending, now);
    }

    // The keys whose window has elapsed, in whatever order the map lists them.
    method ListExpired(now: real) returns (keys: seq<GroupKey>)
      ensures ExpiredKeys(pending, now, keys)
    {
      keys := [];
      var rest := pending.Keys;
      while rest != {}
        invariant rest <= pending.Keys
        invariant Distinct(keys)
        invariant forall i :: 0 <= i < |keys| ==> keys[i] in pending && keys[i] !in rest
        invariant forall k :: k in keys <==> k in pending && k !in rest && Expired(pending[k], now)
        decreases |rest|
      {
        var k :| k in rest;
        rest := rest - {k};
        if Expired(pending[k], now) {
          keys := keys + [k];
        }
      }
    }
  }
}
