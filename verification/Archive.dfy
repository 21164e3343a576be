/** The two archive tools that turn MRT records into propagation events
    (tools/baseline_builder and tools/backtest). */
module Archive {
  import opened Wrappers
  import opened Seqs
  import opened Sorting
  import opened Propagation
  import opened Aggregator
  import PathHash

  datatype MrtRecord = MrtRecord(collector: string, prefix: string, origin: U32, path: PathHash.Path, timestamp: real)

  function KeyOf(r: MrtRecord): GroupKey {
    GroupKey(r.prefix, r.origin, PathHash.Hash(r.path))
  }

  type Groups = map<GroupKey, Arrivals>

  ghost predicate Reports(r: MrtRecord, key: GroupKey, c: string) {
    KeyOf(r) == key && r.collector == c
  }

  /** The grouping: one group per announcement, holding each collector that reported it and
      the earliest instant at which it did. */
  ghost predicate IsGrouping(records: seq<MrtRecord>, groups: Groups) {
    && (forall r :: r in records ==> KeyOf(r) in groups)
    && (forall r :: r in records ==> r.collector in groups[KeyOf(r)] && groups[KeyOf(r)][r.collector] <= r.timestamp)
    && (forall k :: k in groups ==> groups[k] != map[])
    && (forall k, c :: k in groups && c in groups[k] ==> Witnessed(records, k, c, groups[k][c]))
  }

  ghost predicate Witnessed(records: seq<MrtRecord>, key: GroupKey, c: string, time: real) {
    exists r :: r in records && Reports(r, key, c) && r.timestamp == time
  }

  // The grouping loop that both tools run.
  method GroupRecords(records: seq<MrtRecord>) returns (groups: Groups)
    ensures IsGrouping(records, groups)
  {
    hide PathHash.Hash, IsGrouping;
    groups := map[];
    NoGroups();
    for i := 0 to |records|
      invariant IsGrouping(records[..i], groups)
    {
      var r := records[i];
      var key := KeyOf(r);
      var entry := if key in groups then groups[key] else map[];
      var time := if r.collector in entry && entry[r.collector] <= r.timestamp then entry[r.collector] else r.timestamp;
      GroupingStep(records[..i], r, groups);
      groups := groups[key := entry[r.collector := time]];
      assert records[..i + 1] == records[..i] + [r];
    }
    assert records[..|records|] == records;
  }

  lemma NoGroups()
    ensures IsGrouping([], map[])
  {
  }

  lemma GroupingStep(records: seq<MrtRecord>, r: MrtRecord, groups: Groups)
    requires IsGrouping(records, groups)
    ensures var key := KeyOf(r);
      var entry := if key in groups then groups[key] else map[];
      var time := if r.collector in entry && entry[r.collector] <= r.timestamp then entry[r.collector] else r.timestamp;
      IsGrouping(records + [r], groups[key := entry[r.collector := time]])
  {
    hide PathHash.Hash, Witnessed;
    var key := KeyOf(r);
    var entry := if key in groups then groups[key] else map[];
    var time := if r.collector in entry && entry[r.collector] <= r.timestamp then entry[r.collector] else r.timestamp;
    var next := groups[key := entry[r.collector := time]];
    assert r.collector in next[key];
    assert forall q :: q in records + [r] <==> q in records || q == r;
    forall k, c | k in next && c in next[k]
      ensures Witnessed(records + [r], k, c, next[k][c])
    {
      if k == key && c == r.collector && time == r.timestamp {
        WitnessedByLast(records, r);
      } else {
        StillWitnessed(records, r, k, c, next[k][c]);
      }
    }
  }

  lemma WitnessedByLast(records: seq<MrtRecord>, r: MrtRecord)
    ensures Witnessed(records + [r], KeyOf(r), r.collector, r.timestamp)
  {
    hide PathHash.Hash;
    assert r in records + [r] && Reports(r, KeyOf(r), r.collector);
  }

  lemma StillWitnessed(records: seq<MrtRecord>, r: MrtRecord, key: GroupKey, c: string, time: real)
    requires Witnessed(records, key, c, time)
    ensures Witnessed(records + [r], key, c, time)
  {
    hide PathHash.Hash;
    var q :| q in records && Reports(q, key, c) && q.timestamp == time;
    assert q in records + [r];
  }

  /** The grouping depends only on which records there are, not on their order or repetition. */
  lemma GroupingUnique(a: seq<MrtRecord>, b: seq<MrtRecord>, groups: Groups, others: Groups)
    requires IsGrouping(a, groups) && IsGrouping(b, others)
    requires forall r :: r in a <==> r in b
    ensures groups == others
  {
    hide PathHash.Hash;
    GroupingBelow(a, b, groups, others);
    GroupingBelow(b, a, others, groups);
    assert groups.Keys == others.Keys;
    forall k | k in groups
      ensures groups[k] == others[k]
    {
      assert groups[k].Keys == others[k].Keys;
    }
  }

  lemma GroupingBelow(a: seq<MrtRecord>, b: seq<MrtRecord>, groups: Groups, others: Groups)
    requires IsGrouping(a, groups) && IsGrouping(b, others)
    requires forall r :: r in a ==> r in b
    ensures forall k :: k in groups ==> k in others
    ensures forall k, c :: k in groups && c in groups[k] ==> c in others[k] && others[k][c] <= groups[k][c]
  {
    hide PathHash.Hash;
    forall k, c | k in groups && c in groups[k]
      ensures k in others && c in others[k] && others[k][c] <= groups[k][c]
    {
      assert Witnessed(a, k, c, groups[k][c]);
      var r :| r in a && Reports(r, k, c) && r.timestamp == groups[k][c];
      assert r in b;
    }
    forall k | k in groups
      ensures k in others
    {
      assert exists c :: c in groups[k];
    }
  }

  // The record reports the announcement of this group.
  predicate Announces(r: MrtRecord, key: GroupKey) {
    r.prefix == key.prefix && r.origin == key.origin && PathHash.Hash(r.path) == key.pathHash
  }

  lemma AnnouncesKey(r: MrtRecord, key: GroupKey)
    ensures Announces(r, key) <==> KeyOf(r) == key
  {
    hide PathHash.Hash;
  }

  ghost predicate Announced(records: seq<MrtRecord>, key: GroupKey) {
    exists r :: r in records && Announces(r, key)
  }

  ghost predicate AnnouncedBy(records: seq<MrtRecord>, key: GroupKey, c: string) {
    exists r :: r in records && Announces(r, key) && r.collector == c
  }

  // The earliest time at which this collector reported the announcement.
  ghost predicate IsEarliest(records: seq<MrtRecord>, key: GroupKey, c: string, time: real) {
    && (exists r :: r in records && Announces(r, key) && r.collector == c && r.timestamp == time)
    && forall r :: r in records && Announces(r, key) && r.collector == c ==> time <= r.timestamp
  }

  /** What the groups are, record by record: a group for every prefix, origin and path hash that
      was reported and for no other, so that paths of different hashes are in different groups;
      in it each collector that reported it, with the earliest of its timestamps. */
  lemma GroupsAreAnnouncements(records: seq<MrtRecord>, groups: Groups, key: GroupKey, c: string)
    requires IsGrouping(records, groups)
    ensures key in groups <==> Announced(records, key)
    ensures key in groups ==> (c in groups[key] <==> AnnouncedBy(records, key, c))
    ensures key in groups && c in groups[key] ==> IsEarliest(records, key, c, groups[key][c])
  {
    hide Announces, IsGrouping;
    GroupIsAnnouncement(records, groups, key);
    if key in groups {
      CollectorReported(records, groups, key, c);
    }
  }

  lemma RecordIsGrouped(records: seq<MrtRecord>, groups: Groups, r: MrtRecord, k: GroupKey)
    requires IsGrouping(records, groups) && r in records && Announces(r, k)
    ensures k in groups && r.collector in groups[k] && groups[k][r.collector] <= r.timestamp
  {
    AnnouncesKey(r, k);
    hide Announces, KeyOf, Witnessed;
  }

  lemma CollectorReported(records: seq<MrtRecord>, groups: Groups, k: GroupKey, c: string)
    requires IsGrouping(records, groups) && k in groups
    ensures c in groups[k] <==> AnnouncedBy(records, k, c)
    ensures c in groups[k] ==> IsEarliest(records, k, c, groups[k][c])
  {
    hide Announces, KeyOf;
    if c in groups[k] {
      assert Witnessed(records, k, c, groups[k][c]);
      var r :| r in records && Reports(r, k, c) && r.timestamp == groups[k][c];
      AnnouncesKey(r, k);
    }
    hide IsGrouping, Witnessed;
    forall r | r in records && Announces(r, k) && r.collector == c
      ensures c in groups[k] && groups[k][c] <= r.timestamp
    {
      RecordIsGrouped(records, groups, r, k);
    }
  }

  lemma GroupIsAnnouncement(records: seq<MrtRecord>, groups: Groups, k: GroupKey)
    requires IsGrouping(records, groups)
    ensures k in groups <==> Announced(records, k)
  {
    hide Announces, KeyOf;
    if k in groups {
      assert groups[k] != map[];
      var c :| c in groups[k];
      CollectorReported(records, groups, k, c);
    }
    hide IsGrouping;
    if Announced(records, k) {
      var r :| r in records && Announces(r, k);
      RecordIsGrouped(records, groups, r, k);
    }
  }

  // ----- events

  predicate Qualifies(key: GroupKey, groups: Groups, minCollectors: nat, canon: Canon)
    requires key in groups
  {
    |groups[key]| >= minCollectors && canon(key.prefix).Some?
  }

  // The event of one group: both tools put the origin alone where the path belongs.
  ghost function GroupEvent(key: GroupKey, groups: Groups, canon: Canon): PropagationEvent
    requires key in groups && groups[key] != map[] && canon(key.prefix).Some?
  {
    NewEvent(canon(key.prefix).value, key.origin, [key.origin], groups[key])
  }

  // What the second loop of either tool has done after the groups outside rest.
  ghost predicate EnumeratesSoFar(
      events: seq<PropagationEvent>, keys: seq<GroupKey>, rest: set<GroupKey>, groups: Groups, minCollectors: nat, canon: Canon)
  {
    && Distinct(keys)
    && (forall k :: k in keys <==> k in groups && k !in rest && Qualifies(k, groups, minCollectors, canon))
    && (forall k :: k in groups ==> groups[k] != map[])
    && |events| == |keys|
    && forall i :: 0 <= i < |keys| ==> keys[i] in keys && events[i] == GroupEvent(keys[i], groups, canon)
  }

  // The events are those of the qualifying groups, one each, in the order of the given keys.
  ghost predicate Enumerates(events: seq<PropagationEvent>, keys: seq<GroupKey>, groups: Groups, minCollectors: nat, canon: Canon)
  {
    EnumeratesSoFar(events, keys, {}, groups, minCollectors, canon)
  }

  /** What either tool makes of the records: one event for each qualifying group, in some
      order, and no other. */
  ghost predicate EventsOf(records: seq<MrtRecord>, events: seq<PropagationEvent>, minCollectors: nat, canon: Canon) {
    exists groups: Groups, keys: seq<GroupKey> :: IsGrouping(records, groups) && Enumerates(events, keys, groups, minCollectors, canon)
  }

  lemma EnumerateNone(records: seq<MrtRecord>, groups: Groups, minCollectors: nat, canon: Canon)
    requires IsGrouping(records, groups)
    ensures EnumeratesSoFar([], [], groups.Keys, groups, minCollectors, canon)
  {
  }

  lemma EnumerateOne(events: seq<PropagationEvent>, keys: seq<GroupKey>, rest: set<GroupKey>, groups: Groups,
      minCollectors: nat, canon: Canon, k: GroupKey)
    requires EnumeratesSoFar(events, keys, rest, groups, minCollectors, canon)
    requires k in rest && k in groups
    ensures groups[k] != map[]
    ensures if Qualifies(k, groups, minCollectors, canon)
            then EnumeratesSoFar(events + [GroupEvent(k, groups, canon)], keys + [k], rest - {k}, groups, minCollectors, canon)
            else EnumeratesSoFar(events, keys, rest - {k}, groups, minCollectors, canon)
  {
    hide NewEvent;
    if Qualifies(k, groups, minCollectors, canon) {
      var more := keys + [k];
      assert forall j :: j in more <==> j in keys || j == k;
    }
  }

  /** tools/backtest: groups, filters, and builds each event with the shared constructor. */
  method BacktestEvents(records: seq<MrtRecord>, minCollectors: nat, canon: Canon) returns (events: seq<PropagationEvent>)
    ensures EventsOf(records, events, minCollectors, canon)
  {
    hide NewEvent, PathHash.Hash, IsGrouping, EnumeratesSoFar;
    var grouped := GroupRecords(records);
    events := [];
    ghost var keys: seq<GroupKey> := [];
    var rest := grouped.Keys;
    EnumerateNone(records, grouped, minCollectors, canon);
    while rest != {}
      invariant rest <= grouped.Keys
      invariant EnumeratesSoFar(events, keys, rest, grouped, minCollectors, canon)
      decreases |rest|
    {
      var key :| key in rest;
      var arrivals := grouped[key];
      EnumerateOne(events, keys, rest, grouped, minCollectors, canon, key);
      rest := rest - {key};
      if |arrivals| < minCollectors {
        continue;
      }
      var prefix := canon(key.prefix);
      if prefix.None? {
        continue;
      }
      events := events + [NewEvent(prefix.value, key.origin, [key.origin], arrivals)];
      keys := keys + [key];
    }
    assert Enumerates(events, keys, grouped, minCollectors, canon);
  }

  // The fields written out in place are those the shared constructor computes.
  lemma WrittenOut(event: PropagationEvent, prefix: string, origin: U32, arrivals: Arrivals)
    requires arrivals != map[] && KeysInOrder(arrivals.Keys) != []
    requires var ids := KeysInOrder(arrivals.Keys);
      var (first, last) := (Earliest(ids, arrivals), Latest(ids, arrivals));
      event == PropagationEvent(prefix, origin, [origin], arrivals, first, last, (last - first) * 1000.0, StableSort(ids, arrivals))
    ensures event == NewEvent(prefix, origin, [origin], arrivals)
  {
    hide Earliest, Latest, StableSort, KeysInOrder;
  }

  /** tools/baseline_builder: the same, with the event's fields written out in place. */
  method BuilderEvents(records: seq<MrtRecord>, minCollectors: nat, canon: Canon) returns (events: seq<PropagationEvent>)
    ensures EventsOf(records, events, minCollectors, canon)
  {
    hide NewEvent, PathHash.Hash, IsGrouping, EnumeratesSoFar, Earliest, Latest, StableSort, KeysInOrder;
    var grouped := GroupRecords(records);
    events := [];
    ghost var keys: seq<GroupKey> := [];
    var rest := grouped.Keys;
    EnumerateNone(records, grouped, minCollectors, canon);
    while rest != {}
      invariant rest <= grouped.Keys
      invariant EnumeratesSoFar(events, keys, rest, grouped, minCollectors, canon)
      decreases |rest|
    {
      var key :| key in rest;
      var arrivals := grouped[key];
      EnumerateOne(events, keys, rest, grouped, minCollectors, canon, key);
      rest := rest - {key};
      if |arrivals| < minCollectors {
        continue;
      }
      var prefix := canon(key.prefix);
      if prefix.None? {
        continue;
      }
      SomeKey(arrivals);
      var ids := KeysInOrder(arrivals.Keys);
      var first := Earliest(ids, arrivals);
      var last := Latest(ids, arrivals);
      var order := StableSort(ids, arrivals);
      var event := PropagationEvent(prefix.value, key.origin, [key.origin], arrivals, first, last, (last - first) * 1000.0, order);
      WrittenOut(event, prefix.value, key.origin, arrivals);
      events := events + [event];
      keys := keys + [key];
    }
    assert Enumerates(events, keys, grouped, minCollectors, canon);
  }

  // ----- the two agree

  // The event of one group, as a total function.
  ghost function EventFor(key: GroupKey, groups: Groups, canon: Canon): PropagationEvent {
    if key in groups && groups[key] != map[] && canon(key.prefix).Some? then GroupEvent(key, groups, canon)
    else PropagationEvent("", 0, [], map[], 0.0, 0.0, 0.0, [])
  }

  /** For the same records in any order, the two tools produce the same multiset of events. */
  lemma ToolsAgree(a: seq<MrtRecord>, b: seq<MrtRecord>, events: seq<PropagationEvent>, others: seq<PropagationEvent>,
      minCollectors: nat, canon: Canon)
    requires multiset(a) == multiset(b)
    requires EventsOf(a, events, minCollectors, canon) && EventsOf(b, others, minCollectors, canon)
    ensures multiset(events) == multiset(others)
  {
    hide GroupEvent, NewEvent, PathHash.Hash, IsGrouping;
    var groups: Groups, keys: seq<GroupKey> :| IsGrouping(a, groups) && Enumerates(events, keys, groups, minCollectors, canon);
    var otherGroups: Groups, otherKeys: seq<GroupKey> :|
      IsGrouping(b, otherGroups) && Enumerates(others, otherKeys, otherGroups, minCollectors, canon);
    SameMultisetSameSize(a, b);
    GroupingUnique(a, b, groups, otherGroups);
    SameElementsSameMultiset(keys, otherKeys);
    var f := k => EventFor(k, groups, canon);
    MapReordered(f, keys, otherKeys);
    assert events == Map(f, keys);
    assert others == Map(f, otherKeys);
  }

  lemma GroupFiledUnderOrigin(key: GroupKey, groups: Groups, canon: Canon)
    requires key in groups && groups[key] != map[] && canon(key.prefix).Some?
    ensures var e := GroupEvent(key, groups, canon);
      PathHash.Hash(e.path) == e.origin && IsEventOf(e, key, groups, canon)
  {
    hide NewEvent, PathHash.Hash;
    EventShape(canon(key.prefix).value, key.origin, [key.origin], groups[key]);
    PathHash.HashOfLastHop([], key.origin);
  }

  // The event of one group: the printed prefix, the origin, the origin alone for a path, and the
  // group's arrivals.
  predicate IsEventOf(e: PropagationEvent, key: GroupKey, groups: Groups, canon: Canon) {
    && key in groups && canon(key.prefix) == Some(e.prefix) && e.origin == key.origin && e.path == [key.origin]
    && e.arrivals == groups[key]
  }

  // The group has enough collectors and a prefix that parses.
  predicate IsEnough(key: GroupKey, groups: Groups, minCollectors: nat, canon: Canon) {
    key in groups && |groups[key]| >= minCollectors && canon(key.prefix).Some?
  }

  function Enough(groups: Groups, minCollectors: nat, canon: Canon): set<GroupKey> {
    set k | k in groups && IsEnough(k, groups, minCollectors, canon)
  }

  lemma EventOfKey(events: seq<PropagationEvent>, keys: seq<GroupKey>, groups: Groups, minCollectors: nat, canon: Canon, i: nat)
    requires Enumerates(events, keys, groups, minCollectors, canon) && i < |keys|
    ensures i < |events| && IsEnough(keys[i], groups, minCollectors, canon) && IsEventOf(events[i], keys[i], groups, canon)
  {
    hide GroupEvent, IsEventOf;
    assert keys[i] in keys;
    GroupFiledUnderOrigin(keys[i], groups, canon);
  }

  lemma KeysAreEnough(events: seq<PropagationEvent>, keys: seq<GroupKey>, groups: Groups, minCollectors: nat, canon: Canon)
    requires Enumerates(events, keys, groups, minCollectors, canon)
    ensures |events| == |keys| == |Enough(groups, minCollectors, canon)|
    ensures forall k :: k in keys <==> k in groups && IsEnough(k, groups, minCollectors, canon)
  {
    hide GroupEvent;
    DistinctIsSet(keys);
    assert Enough(groups, minCollectors, canon) == set k | k in keys;
    assert |multiset(keys)| == |keys|;
  }

  /** Either tool makes one event of every group that has enough collectors and whose prefix
      parses, and none of any other. */
  lemma EventsAreQualifyingGroups(records: seq<MrtRecord>, events: seq<PropagationEvent>, minCollectors: nat, canon: Canon)
    returns (groups: Groups)
    requires EventsOf(records, events, minCollectors, canon)
    ensures IsGrouping(records, groups)
    ensures forall e :: e in events ==>
      exists k :: k in groups && IsEnough(k, groups, minCollectors, canon) && IsEventOf(e, k, groups, canon)
    ensures forall k :: k in groups && IsEnough(k, groups, minCollectors, canon) ==>
      exists e :: e in events && IsEventOf(e, k, groups, canon)
    ensures |events| == |Enough(groups, minCollectors, canon)|
  {
    var found: Groups, keys: seq<GroupKey> :| IsGrouping(records, found) && Enumerates(events, keys, found, minCollectors, canon);
    groups := found;
    hide *;
    KeysAreEnough(events, keys, groups, minCollectors, canon);
    forall e | e in events
      ensures exists k :: k in groups && IsEnough(k, groups, minCollectors, canon) && IsEventOf(e, k, groups, canon)
    {
      var i :| 0 <= i < |events| && events[i] == e;
      EventOfKey(events, keys, groups, minCollectors, canon, i);
      assert keys[i] in keys;
    }
    forall k | k in groups && IsEnough(k, groups, minCollectors, canon)
      ensures exists e :: e in events && IsEventOf(e, k, groups, canon)
    {
      assert k in keys;
      var i :| 0 <= i < |keys| && keys[i] == k;
      EventOfKey(events, keys, groups, minCollectors, canon, i);
      assert events[i] in events;
    }
  }

  /** Both tools file every event under the hash of its origin alone, whatever the path was. */
  lemma EventsAreFiledUnderTheOrigin(records: seq<MrtRecord>, events: seq<PropagationEvent>, minCollectors: nat, canon: Canon)
    requires EventsOf(records, events, minCollectors, canon)
    ensures forall i :: 0 <= i < |events| ==>
      && PathHash.Hash(events[i].path) == events[i].origin
      && |events[i].arrivals| >= minCollectors
  {
    hide GroupEvent, PathHash.Hash, IsGrouping;
    var groups: Groups, keys: seq<GroupKey> :| IsGrouping(records, groups) && Enumerates(events, keys, groups, minCollectors, canon);
    forall i | 0 <= i < |events|
      ensures PathHash.Hash(events[i].path) == events[i].origin && |events[i].arrivals| >= minCollectors
    {
      assert keys[i] in keys;
      GroupFiledUnderOrigin(keys[i], groups, canon);
    }
  }
}
