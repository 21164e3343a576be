/** The wave baseline: events grouped into baseline entries (src/wave_baseline.rs). */
module WaveBaseline {
  import opened Wrappers
  import opened Seqs
  import opened Sorting
  import opened SpreadStats
  import opened Propagation
  import opened Aggregator
  import PathHash

  datatype WaveBaselineEntry = WaveBaselineEntry(
    prefix: string, origin: U32, pathHash: U64, sampleCount: nat,
    min: real, p50: real, p95: real, p99: real, max: real, stdDev: real, expectedOrder: seq<string>)

  datatype WaveBaseline = WaveBaseline(dataCutoff: real, entries: seq<WaveBaselineEntry>)

  function FindEntry(entries: seq<WaveBaselineEntry>, prefix: string, origin: U32, pathHash: U64): Option<WaveBaselineEntry> {
    if entries == [] then None
    else if entries[0].prefix == prefix && entries[0].origin == origin && entries[0].pathHash == pathHash then Some(entries[0])
    else FindEntry(entries[1..], prefix, origin, pathHash)
  }

  function KeyOf(e: PropagationEvent): GroupKey {
    GroupKey(e.prefix, e.origin, PathHash.Hash(e.path))
  }

  // ----- what a feed of events amounts to, group by group

  // The spreads of one group, in feed order.
  function Spreads(events: seq<PropagationEvent>, key: GroupKey): seq<real> {
    if events == [] then []
    else
      var (init, e) := (events[..|events| - 1], events[|events| - 1]);
      Spreads(init, key) + if KeyOf(e) == key then [e.spreadMs] else []
  }

  // Sum and number of a collector's arrival ranks.
  datatype Ranks = Ranks(total: real, count: nat)

  function RanksIn(order: seq<string>, c: string): Ranks {
    if order == [] then Ranks(0.0, 0)
    else
      var (r, n) := (RanksIn(order[..|order| - 1], c), |order| - 1);
      if order[n] == c then Ranks(r.total + n as real, r.count + 1) else r
  }

  function Plus(a: Ranks, b: Ranks): Ranks {
    Ranks(a.total + b.total, a.count + b.count)
  }

  function RanksOf(events: seq<PropagationEvent>, key: GroupKey, c: string): Ranks {
    if events == [] then Ranks(0.0, 0)
    else
      var (init, e) := (events[..|events| - 1], events[|events| - 1]);
      if KeyOf(e) == key then Plus(RanksOf(init, key, c), RanksIn(e.order, c)) else RanksOf(init, key, c)
  }

  function MeanRank(events: seq<PropagationEvent>, key: GroupKey, c: string): real
    requires RanksOf(events, key, c).count > 0
  {
    RanksOf(events, key, c).total / RanksOf(events, key, c).count as real
  }

  function Cutoff(events: seq<PropagationEvent>): (t: real)
    ensures t >= 0.0
  {
    if events == [] then 0.0
    else
      var (t, e) := (Cutoff(events[..|events| - 1]), events[|events| - 1]);
      if e.last > t then e.last else t
  }

  /** The cutoff is the latest arrival of any fed event, or zero if none is positive. */
  lemma {:induction false} CutoffIsLatest(events: seq<PropagationEvent>)
    ensures forall e :: e in events ==> e.last <= Cutoff(events)
    ensures Cutoff(events) == 0.0 || exists e :: e in events && e.last == Cutoff(events)
  {
    hide KeyOf;
    if events == [] {
    } else {
      var (init, e) := (events[..|events| - 1], events[|events| - 1]);
      CutoffIsLatest(init);
      assert events == init + [e];
      if Cutoff(init) == Cutoff(events) != 0.0 {
        var d :| d in init && d.last == Cutoff(init);
        assert d in events;
      } else {
        assert e in events;
      }
    }
  }

  // ----- entries

  // The collectors seen, once each, by nondecreasing mean rank.
  ghost predicate IsExpectedOrder(order: seq<string>, events: seq<PropagationEvent>, key: GroupKey) {
    && Distinct(order)
    && (forall c :: c in order <==> RanksOf(events, key, c).count > 0)
    && forall i, j :: 0 <= i < j < |order| ==> RankedBefore(events, key, order[i], order[j])
  }

  ghost predicate RankedBefore(events: seq<PropagationEvent>, key: GroupKey, c: string, d: string) {
    && RanksOf(events, key, c).count > 0 && RanksOf(events, key, d).count > 0
    && MeanRank(events, key, c) <= MeanRank(events, key, d)
  }

  ghost predicate IsEntry(e: WaveBaselineEntry, events: seq<PropagationEvent>, key: GroupKey, sqrt: Sqrt) {
    var sorted := SortReals(Spreads(events, key));
    && sorted != []
    && e.prefix == key.prefix && e.origin == key.origin && e.pathHash == key.pathHash
    && e.sampleCount == |Spreads(events, key)|
    && var stats := ComputeSpreadStats(sorted, sqrt);
    && e.min == stats.min && e.max == stats.max && e.stdDev == stats.std
    && Percentile(sorted, 50.0) == Some(e.p50)
    && Percentile(sorted, 95.0) == Some(e.p95)
    && Percentile(sorted, 99.0) == Some(e.p99)
    && IsExpectedOrder(e.expectedOrder, events, key)
  }

  /** Every built entry is ordered: min <= p50 <= p95 <= p99 <= max. */
  lemma EntryIsOrdered(e: WaveBaselineEntry, events: seq<PropagationEvent>, key: GroupKey, sqrt: Sqrt)
    requires IsEntry(e, events, key, sqrt)
    ensures e.min <= e.p50 <= e.p95 <= e.p99 <= e.max
    ensures forall x :: x in Spreads(events, key) ==> e.min <= x <= e.max
  {
    hide SortReals, Spreads, Percentile, Sum, SquaredDeviations, IsExpectedOrder;
    var spreads := Spreads(events, key);
    var sorted := SortReals(spreads);
    SortRealsSorted(spreads);
    SortRealsSorted(sorted);
    SortedUnique(SortReals(sorted), sorted);
    PercentileLaws(sorted, 50.0, 95.0);
    PercentileLaws(sorted, 95.0, 99.0);
    PercentileLaws(sorted, 99.0, 99.0);
    SameMultisetSameSize(sorted, spreads);
  }

  // The entries are those of the qualifying groups, one each, in the order of the given keys.
  ghost predicate EntryPerGroup(entries: seq<WaveBaselineEntry>, keys: seq<GroupKey>, events: seq<PropagationEvent>, minSamples: nat, sqrt: Sqrt) {
    && Distinct(keys)
    && (forall k :: k in keys <==> Spreads(events, k) != [] && |Spreads(events, k)| >= minSamples)
    && |entries| == |keys|
    && forall i :: 0 <= i < |keys| ==> IsEntry(entries[i], events, keys[i], sqrt)
  }

  /** What the builder makes of a feed: the cutoff, and one entry per qualifying group in some
      order and no other. */
  ghost predicate IsBuilt(b: WaveBaseline, events: seq<PropagationEvent>, minSamples: nat, sqrt: Sqrt) {
    && b.dataCutoff == Cutoff(events)
    && exists keys :: EntryPerGroup(b.entries, keys, events, minSamples, sqrt)
  }

  lemma {:induction false} FindFirst(entries: seq<WaveBaselineEntry>, key: GroupKey)
    ensures var r := FindEntry(entries, key.prefix, key.origin, key.pathHash);
      && (r.None? <==> forall i :: 0 <= i < |entries| ==> !Names(entries[i], key))
      && (r.Some? ==> exists i :: 0 <= i < |entries| && entries[i] == r.value && Names(entries[i], key))
  {
    if entries == [] || Names(entries[0], key) {
    } else {
      FindFirst(entries[1..], key);
      var r := FindEntry(entries[1..], key.prefix, key.origin, key.pathHash);
      if r.Some? {
        var i :| 0 <= i < |entries[1..]| && entries[1..][i] == r.value && Names(entries[1..][i], key);
        assert entries[i + 1] == r.value;
      } else {
        assert forall i :: 0 < i < |entries| ==> entries[i] == entries[1..][i - 1];
      }
    }
  }

  lemma EntryNamesItsGroup(e: WaveBaselineEntry, events: seq<PropagationEvent>, group: GroupKey, sqrt: Sqrt, key: GroupKey)
    requires IsEntry(e, events, group, sqrt)
    ensures Names(e, key) <==> group == key
  {
    hide Spreads, Percentile, SortReals, ComputeSpreadStats, IsExpectedOrder;
  }

  predicate Names(e: WaveBaselineEntry, key: GroupKey) {
    e.prefix == key.prefix && e.origin == key.origin && e.pathHash == key.pathHash
  }

  /** A lookup finds the entry of that very group, and finds one exactly when the group has
      enough samples. */
  lemma LookupIsExact(b: WaveBaseline, events: seq<PropagationEvent>, minSamples: nat, sqrt: Sqrt, key: GroupKey)
    requires IsBuilt(b, events, minSamples, sqrt)
    ensures var r := FindEntry(b.entries, key.prefix, key.origin, key.pathHash);
      && (r.Some? <==> Spreads(events, key) != [] && |Spreads(events, key)| >= minSamples)
      && (r.Some? ==> IsEntry(r.value, events, key, sqrt))
  {
    hide FindEntry, Spreads, IsEntry, Cutoff, Names;
    var keys: seq<GroupKey> :| EntryPerGroup(b.entries, keys, events, minSamples, sqrt);
    FindFirst(b.entries, key);
    forall i | 0 <= i < |keys|
      ensures Names(b.entries[i], key) <==> keys[i] == key
    {
      EntryNamesItsGroup(b.entries[i], events, keys[i], sqrt, key);
    }
    if key in keys {
      var i :| 0 <= i < |keys| && keys[i] == key;
      assert Names(b.entries[i], key);
    }
    var r := FindEntry(b.entries, key.prefix, key.origin, key.pathHash);
    if r.Some? {
      var i :| 0 <= i < |b.entries| && b.entries[i] == r.value && Names(b.entries[i], key);
      assert keys[i] in keys;
    }
  }

  // ----- the groups in terms of the events

  // The event announces the prefix, the origin and the path hash of the group.
  predicate InGroup(e: PropagationEvent, key: GroupKey) {
    e.prefix == key.prefix && e.origin == key.origin && PathHash.Hash(e.path) == key.pathHash
  }

  function Places(events: seq<PropagationEvent>, key: GroupKey, n: nat): set<int>
    requires n <= |events|
  {
    set i | 0 <= i < n && InGroup(events[i], key)
  }

  lemma OneMorePlace(events: seq<PropagationEvent>, key: GroupKey, n: nat)
    requires n < |events|
    ensures |Places(events, key, n + 1)| == |Places(events, key, n)| + if InGroup(events[n], key) then 1 else 0
    ensures Places(events, key, 0) == {}
  {
    hide InGroup;
    var before := Places(events, key, n);
    assert Places(events, key, n + 1) == if InGroup(events[n], key) then before + {n} else before;
  }

  lemma InGroupKey(e: PropagationEvent, key: GroupKey)
    ensures InGroup(e, key) <==> KeyOf(e) == key
  {
    hide PathHash.Hash;
  }

  lemma {:induction false} SpreadsUpTo(events: seq<PropagationEvent>, key: GroupKey, n: nat)
    requires n <= |events|
    ensures |Spreads(events[..n], key)| == |Places(events, key, n)|
  {
    hide Places, KeyOf, InGroup;
    if n == 0 {
      assert Places(events, key, 0) == {} by {
        NoPlaces(events, key);
      }
    } else {
      SpreadsUpTo(events, key, n - 1);
      OneMorePlace(events, key, n - 1);
      InGroupKey(events[n - 1], key);
      assert events[..n][..n - 1] == events[..n - 1];
    }
  }

  lemma NoPlaces(events: seq<PropagationEvent>, key: GroupKey)
    ensures Places(events, key, 0) == {}
  {
  }

  /** A group's samples are the spreads of exactly the events that announce its prefix, its
      origin and its path hash, one for each. */
  lemma {:induction false} SpreadsAreTheGroups(events: seq<PropagationEvent>, key: GroupKey, x: real)
    ensures |Spreads(events, key)| == |Places(events, key, |events|)|
    ensures x in Spreads(events, key) <==> exists e :: e in events && InGroup(e, key) && e.spreadMs == x
  {
    hide Places, KeyOf, InGroup;
    SpreadsUpTo(events, key, |events|);
    assert events[..|events|] == events;
    if events == [] {
    } else {
      var (init, e) := (events[..|events| - 1], events[|events| - 1]);
      SpreadsAreTheGroups(init, key, x);
      InGroupKey(e, key);
      assert events == init + [e];
    }
  }

  // A collector's place in an event's order is its rank there.
  lemma {:induction false} RanksInMeans(order: seq<string>, c: string, j: nat)
    requires Distinct(order)
    ensures c !in order ==> RanksIn(order, c) == Ranks(0.0, 0)
    ensures j < |order| && order[j] == c ==> RanksIn(order, c) == Ranks(j as real, 1)
  {
    if order == [] {
    } else {
      var n := |order| - 1;
      RanksInMeans(order[..n], c, j);
      assert order == order[..n] + [order[n]];
      if j < n && order[j] == c {
        assert order[..n][j] == c;
      } else if j == n && order[j] == c {
        assert forall i :: 0 <= i < n ==> order[..n][i] == order[i] != c;
      }
    }
  }

  // n events of the group that agree on the order.
  ghost predicate Unanimous(events: seq<PropagationEvent>, key: GroupKey, order: seq<string>) {
    Distinct(order) && forall e :: e in events && InGroup(e, key) ==> e.order == order
  }

  // n arrivals at rank j.
  function Copies(n: nat, j: nat): Ranks {
    Ranks(n as real * j as real, n)
  }

  lemma CopiesNext(n: nat, j: nat)
    ensures Plus(Copies(n, j), Ranks(j as real, 1)) == Copies(n + 1, j)
    ensures Copies(0, j) == Ranks(0.0, 0)
  {
  }

  lemma {:induction false} UnanimousRanks(events: seq<PropagationEvent>, key: GroupKey, order: seq<string>, c: string, j: nat)
    requires Unanimous(events, key, order)
    ensures c !in order ==> RanksOf(events, key, c) == Ranks(0.0, 0)
    ensures j < |order| && order[j] == c ==> RanksOf(events, key, c) == Copies(|Spreads(events, key)|, j)
  {
    hide KeyOf, InGroup, RanksIn, Copies, Plus;
    if events == [] {
      CopiesNext(0, j);
    } else {
      var (init, e) := (events[..|events| - 1], events[|events| - 1]);
      assert forall d :: d in init ==> d in events;
      assert e in events;
      UnanimousRanks(init, key, order, c, j);
      InGroupKey(e, key);
      hide Unanimous;
      RanksInMeans(order, c, j);
      CopiesNext(|Spreads(init, key)|, j);
      PlusZero(Ranks(0.0, 0));
    }
  }

  lemma MeanOf(n: nat, j: nat)
    requires n > 0
    ensures n as real * j as real / n as real == j as real
  {
  }

  /** When all events of a group agree on the order in which the collectors heard of it, that is
      the expected order. */
  lemma UnanimousOrderIsExpected(order: seq<string>, expected: seq<string>, events: seq<PropagationEvent>, key: GroupKey)
    requires Unanimous(events, key, order) && Spreads(events, key) != []
    requires IsExpectedOrder(expected, events, key)
    ensures expected == order
  {
    hide RanksOf, Spreads, InGroup;
    var n := |Spreads(events, key)|;
    var mean := map c | c in order :: MeanRankOrZero(events, key, c);
    forall j | 0 <= j < |order|
      ensures RanksOf(events, key, order[j]).count == n && mean[order[j]] == j as real
    {
      UnanimousRanks(events, key, order, order[j], j);
      MeanOf(n, j);
      assert RanksOf(events, key, order[j]) == Copies(n, j);
    }
    forall c
      ensures c in order <==> c in expected
    {
      if c in order {
        var j :| 0 <= j < |order| && order[j] == c;
        assert RanksOf(events, key, order[j]).count == n;
      } else {
        UnanimousRanks(events, key, order, c, 0);
      }
    }
    RankedByMean(expected, events, key);
    hide MeanRankOrZero, IsExpectedOrder;
    SameElementsSameMultiset(order, expected);
    assert forall i :: 0 <= i < |expected| ==> expected[i] in expected;
    assert forall i, j :: 0 <= i < j < |expected| ==> mean[expected[i]] <= mean[expected[j]];
    NoTiesInOrder(order, mean);
    SameOrderWithoutTies(order, expected, mean);
  }

  lemma NoTiesInOrder(order: seq<string>, mean: map<string, real>)
    requires (forall c :: c in order ==> c in mean) && forall j :: 0 <= j < |order| ==> order[j] in mean && mean[order[j]] == j as real
    ensures Nondecreasing(order, mean) && NoTies(order, mean)
  {
    forall c, d | c in order && d in order && c != d
      ensures mean[c] != mean[d]
    {
      var i :| 0 <= i < |order| && order[i] == c;
      var j :| 0 <= j < |order| && order[j] == d;
    }
  }

  /** A lookup finds an entry exactly when enough fed events announce that prefix, origin and
      path hash. */
  lemma LookupCountsEvents(b: WaveBaseline, events: seq<PropagationEvent>, minSamples: nat, sqrt: Sqrt, key: GroupKey)
    requires IsBuilt(b, events, minSamples, sqrt)
    ensures var (r, n) := (FindEntry(b.entries, key.prefix, key.origin, key.pathHash), |Places(events, key, |events|)|);
      && (r.Some? <==> n > 0 && n >= minSamples)
      && (r.Some? ==> r.value.sampleCount == n && r.value.prefix == key.prefix && r.value.origin == key.origin && r.value.pathHash == key.pathHash)
  {
    hide FindEntry, Spreads, Percentile, SortReals, ComputeSpreadStats, IsExpectedOrder, IsBuilt, Places;
    LookupIsExact(b, events, minSamples, sqrt, key);
    SpreadsAreTheGroups(events, key, 0.0);
  }

  // ----- feed order

  lemma {:induction false} SpreadsAppend(a: seq<PropagationEvent>, b: seq<PropagationEvent>, key: GroupKey)
    ensures Spreads(a + b, key) == Spreads(a, key) + Spreads(b, key)
  {
    hide KeyOf;
    if b == [] {
      assert a + b == a;
    } else {
      SpreadsAppend(a, b[..|b| - 1], key);
      assert (a + b)[..|a + b| - 1] == a + b[..|b| - 1];
    }
  }

  lemma PlusAssociates(a: Ranks, b: Ranks, c: Ranks)
    ensures Plus(Plus(a, b), c) == Plus(a, Plus(b, c))
  {
  }

  lemma PlusZero(a: Ranks)
    ensures Plus(a, Ranks(0.0, 0)) == a
  {
  }

  lemma {:induction false} RanksAppend(a: seq<PropagationEvent>, b: seq<PropagationEvent>, key: GroupKey, c: string)
    ensures RanksOf(a + b, key, c) == Plus(RanksOf(a, key, c), RanksOf(b, key, c))
  {
    hide KeyOf, RanksIn, Plus;
    if b == [] {
      PlusZero(RanksOf(a, key, c));
      assert a + b == a;
    } else {
      var (init, e) := (b[..|b| - 1], b[|b| - 1]);
      RanksAppend(a, init, key, c);
      assert (a + b)[..|a + b| - 1] == a + init;
      PlusAssociates(RanksOf(a, key, c), RanksOf(init, key, c), RanksIn(e.order, c));
    }
  }

  // Taking one event out of a feed takes out its own contribution.
  lemma FeedWithout(events: seq<PropagationEvent>, j: nat, key: GroupKey, c: string)
    requires j < |events|
    ensures multiset(Spreads(events, key)) == multiset(Spreads(Without(events, j), key)) + multiset(Spreads([events[j]], key))
    ensures RanksOf(events, key, c) == Plus(RanksOf(Without(events, j), key, c), RanksOf([events[j]], key, c))
  {
    hide Spreads, RanksOf;
    var (front, e, back) := (events[..j], [events[j]], events[j + 1..]);
    assert events == front + e + back;
    SpreadsAppend(front + e, back, key);
    SpreadsAppend(front, e, key);
    SpreadsAppend(front, back, key);
    RanksAppend(front + e, back, key, c);
    RanksAppend(front, e, key, c);
    RanksAppend(front, back, key, c);
  }

  lemma {:induction false} ReorderedFeed(a: seq<PropagationEvent>, b: seq<PropagationEvent>, key: GroupKey, c: string)
    requires multiset(a) == multiset(b)
    ensures multiset(Spreads(a, key)) == multiset(Spreads(b, key))
    ensures RanksOf(a, key, c) == RanksOf(b, key, c)
    decreases |a|
  {
    hide Spreads, RanksOf;
    SameMultisetSameSize(a, b);
    if a == [] {
      assert b == [];
    } else {
      var j := TakeLast(a, b);
      var n := |a| - 1;
      ReorderedFeed(a[..n], Without(b, j), key, c);
      assert Without(a, n) == a[..n];
      FeedWithout(a, n, key, c);
      FeedWithout(b, j, key, c);
    }
  }

  ghost predicate NoTies(o: seq<string>, mean: map<string, real>)
    requires forall c :: c in o ==> c in mean
  {
    forall c, d :: c in o && d in o && c != d ==> mean[c] != mean[d]
  }

  lemma LastAgrees(o: seq<string>, p: seq<string>, mean: map<string, real>)
    requires o != [] && |o| == |p| && forall c :: c in o <==> c in p
    requires forall c :: c in o || c in p ==> c in mean
    requires Nondecreasing(o, mean) && Nondecreasing(p, mean) && NoTies(o, mean)
    ensures o[|o| - 1] == p[|p| - 1]
  {
    assert o[|o| - 1] in p && p[|p| - 1] in o;
  }

  lemma InitOrdered(o: seq<string>, mean: map<string, real>)
    requires o != [] && forall c :: c in o ==> c in mean
    ensures forall c :: c in o[..|o| - 1] ==> c in o
    ensures Nondecreasing(o, mean) ==> Nondecreasing(o[..|o| - 1], mean)
    ensures NoTies(o, mean) ==> NoTies(o[..|o| - 1], mean)
  {
    assert forall c :: c in o[..|o| - 1] ==> c in o;
  }

  lemma SameInit(o: seq<string>, p: seq<string>)
    requires |o| == |p| > 0 && multiset(o) == multiset(p) && o[|o| - 1] == p[|o| - 1]
    ensures multiset(o[..|o| - 1]) == multiset(p[..|o| - 1])
    ensures o[..|o| - 1] == p[..|o| - 1] ==> o == p
  {
    var n := |o| - 1;
    DropLastMultiset(o);
    DropLastMultiset(p);
    Cancel(multiset(o[..n]), multiset(p[..n]), multiset{o[n]});
    assert o == o[..n] + [o[n]] && p == p[..n] + [p[n]];
  }

  // Two orderings of the same collectors by a mean rank that never ties are the same.
  lemma {:induction false} SameOrderWithoutTies(o: seq<string>, p: seq<string>, mean: map<string, real>)
    requires multiset(o) == multiset(p)
    requires forall c :: c in o || c in p ==> c in mean
    requires Nondecreasing(o, mean) && Nondecreasing(p, mean) && NoTies(o, mean)
    ensures o == p
    decreases |o|
  {
    SameMultisetSameSize(o, p);
    hide Nondecreasing, NoTies;
    if o == [] {
    } else {
      var n := |o| - 1;
      LastAgrees(o, p, mean);
      InitOrdered(o, mean);
      InitOrdered(p, mean);
      SameInit(o, p);
      SameOrderWithoutTies(o[..n], p[..n], mean);
    }
  }

  /** The order events are fed in does not matter: the same groups qualify, the cutoff is the
      same, and their entries agree on everything but the order of collectors whose mean ranks
      tie. */
  lemma FeedOrderDoesNotMatter(a: seq<PropagationEvent>, b: seq<PropagationEvent>, key: GroupKey, sqrt: Sqrt,
      e: WaveBaselineEntry, f: WaveBaselineEntry)
    requires multiset(a) == multiset(b)
    requires IsEntry(e, a, key, sqrt) && IsEntry(f, b, key, sqrt)
    ensures e == f.(expectedOrder := e.expectedOrder)
    ensures forall c :: c in e.expectedOrder <==> c in f.expectedOrder
    ensures (forall c, d :: c in e.expectedOrder && d in e.expectedOrder && c != d
               ==> MeanRankOrZero(a, key, c) != MeanRankOrZero(a, key, d)) ==> e == f
  {
    hide SortReals, Spreads, RanksOf, Percentile, ComputeSpreadStats, KeyOf;
    ReorderedFeed(a, b, key, "");
    forall c
      ensures RanksOf(a, key, c) == RanksOf(b, key, c)
    {
      ReorderedFeed(a, b, key, c);
    }
    SameMultisetSameSize(Spreads(a, key), Spreads(b, key));
    SortRealsSorted(Spreads(a, key));
    SortRealsSorted(Spreads(b, key));
    SortedUnique(SortReals(Spreads(a, key)), SortReals(Spreads(b, key)));
    if forall c, d :: c in e.expectedOrder && d in e.expectedOrder && c != d
         ==> MeanRankOrZero(a, key, c) != MeanRankOrZero(a, key, d) {
      SameExpectedOrder(a, b, key, e.expectedOrder, f.expectedOrder);
    }
  }

  lemma SameExpectedOrder(a: seq<PropagationEvent>, b: seq<PropagationEvent>, key: GroupKey, o: seq<string>, p: seq<string>)
    requires IsExpectedOrder(o, a, key) && IsExpectedOrder(p, b, key)
    requires forall c :: RanksOf(a, key, c) == RanksOf(b, key, c)
    requires forall c, d :: c in o && d in o && c != d ==> MeanRankOrZero(a, key, c) != MeanRankOrZero(a, key, d)
    ensures o == p
  {
    hide RanksOf;
    SameElementsSameMultiset(o, p);
    RankedByMean(o, a, key);
    RankedByMean(p, b, key);
    assert forall c :: MeanRankOrZero(a, key, c) == MeanRankOrZero(b, key, c);
    var mean := map c | c in o :: MeanRankOrZero(a, key, c);
    assert forall i :: 0 <= i < |o| ==> o[i] in o;
    assert forall i :: 0 <= i < |p| ==> p[i] in o && mean[p[i]] == MeanRankOrZero(b, key, p[i]);
    hide MeanRankOrZero;
    SameOrderWithoutTies(o, p, mean);
  }

  function MeanRankOrZero(events: seq<PropagationEvent>, key: GroupKey, c: string): real {
    if RanksOf(events, key, c).count > 0 then MeanRank(events, key, c) else 0.0
  }

  lemma RankedByMean(order: seq<string>, events: seq<PropagationEvent>, key: GroupKey)
    requires IsExpectedOrder(order, events, key)
    ensures forall i, j :: 0 <= i < j < |order| ==>
      MeanRankOrZero(events, key, order[i]) <= MeanRankOrZero(events, key, order[j])
  {
    hide RanksOf;
    forall i, j | 0 <= i < j < |order|
      ensures MeanRankOrZero(events, key, order[i]) <= MeanRankOrZero(events, key, order[j])
    {
      assert RankedBefore(events, key, order[i], order[j]);
    }
  }

  lemma SameGroupsQualify(a: seq<PropagationEvent>, b: seq<PropagationEvent>, key: GroupKey)
    requires multiset(a) == multiset(b)
    ensures |Spreads(a, key)| == |Spreads(b, key)|
    ensures Cutoff(a) == Cutoff(b)
  {
    hide KeyOf, Spreads, Cutoff;
    ReorderedFeed(a, b, key, "");
    SameMultisetSameSize(Spreads(a, key), Spreads(b, key));
    SameMultisetSameSize(a, b);
    CutoffIsLatest(a);
    CutoffIsLatest(b);
  }

  // What the building loop has done after the groups outside rest.
  ghost predicate BuiltSoFar(entries: seq<WaveBaselineEntry>, keys: seq<GroupKey>, rest: set<GroupKey>,
      samples: map<GroupKey, seq<real>>, events: seq<PropagationEvent>, minSamples: nat, sqrt: Sqrt)
  {
    && Distinct(keys)
    && (forall k :: k in keys <==> k in samples && k !in rest && |samples[k]| >= minSamples)
    && |entries| == |keys|
    && forall i :: 0 <= i < |keys| ==> IsEntry(entries[i], events, keys[i], sqrt)
  }

  lemma NothingBuilt(samples: map<GroupKey, seq<real>>, events: seq<PropagationEvent>, minSamples: nat, sqrt: Sqrt)
    ensures BuiltSoFar([], [], samples.Keys, samples, events, minSamples, sqrt)
  {
  }

  lemma BuiltOne(entries: seq<WaveBaselineEntry>, keys: seq<GroupKey>, rest: set<GroupKey>,
      samples: map<GroupKey, seq<real>>, events: seq<PropagationEvent>, minSamples: nat, sqrt: Sqrt, key: GroupKey)
    requires BuiltSoFar(entries, keys, rest, samples, events, minSamples, sqrt) && key in rest && key in samples
    ensures |samples[key]| < minSamples ==> BuiltSoFar(entries, keys, rest - {key}, samples, events, minSamples, sqrt)
    ensures |samples[key]| >= minSamples ==>
      forall e :: IsEntry(e, events, key, sqrt) ==> BuiltSoFar(entries + [e], keys + [key], rest - {key}, samples, events, minSamples, sqrt)
  {
    hide IsEntry;
    assert forall k :: k in keys + [key] <==> k in keys || k == key;
  }

  lemma AllBuilt(entries: seq<WaveBaselineEntry>, keys: seq<GroupKey>, samples: map<GroupKey, seq<real>>,
      events: seq<PropagationEvent>, minSamples: nat, sqrt: Sqrt)
    requires BuiltSoFar(entries, keys, {}, samples, events, minSamples, sqrt)
    requires (forall k :: k in samples <==> Spreads(events, k) != []) && forall k :: k in samples ==> samples[k] == Spreads(events, k)
    ensures EntryPerGroup(entries, keys, events, minSamples, sqrt)
  {
    hide IsEntry, Spreads;
  }

  // ----- the object

  type RankSums = map<string, Ranks>

  // The builder's maps hold, group by group, what the feed amounts to.
  ghost predicate Tracks(samples: map<GroupKey, seq<real>>, rankSums: map<GroupKey, RankSums>, maxObserved: real, events: seq<PropagationEvent>) {
    && samples.Keys == rankSums.Keys
    && (forall k :: k in samples <==> Spreads(events, k) != [])
    && (forall k :: k in samples ==> samples[k] == Spreads(events, k))
    && (forall k :: k in rankSums ==> SumsAre(rankSums[k], events, k))
    && maxObserved == Cutoff(events)
  }

  lemma TracksOneMore(samples: map<GroupKey, seq<real>>, rankSums: map<GroupKey, RankSums>, maxObserved: real,
      events: seq<PropagationEvent>, event: PropagationEvent, ranks: RankSums)
    requires Tracks(samples, rankSums, maxObserved, events)
    requires SumsAre(ranks, events + [event], KeyOf(event))
    ensures var key := KeyOf(event);
      Tracks(samples[key := (if key in samples then samples[key] else []) + [event.spreadMs]], rankSums[key := ranks],
        if event.last > maxObserved then event.last else maxObserved, events + [event])
  {
    hide Spreads, Cutoff, KeyOf, SumsAre;
    FedOne(events, event);
  }

  class BaselineBuilder {
    var samples: map<GroupKey, seq<real>>
    var rankSums: map<GroupKey, RankSums>
    var minSamples: nat
    var maxObserved: real
    ghost var events: seq<PropagationEvent>

    ghost predicate Valid()
      reads this
    {
      Tracks(samples, rankSums, maxObserved, events)
    }

    constructor (minSamples: nat)
      ensures Valid() && events == [] && this.minSamples == minSamples
    {
      samples, rankSums, maxObserved := map[], map[], 0.0;
      this.minSamples := minSamples;
      events := [];
    }

    method AddEvent(event: PropagationEvent)
      requires Valid()
      modifies this
      ensures Valid() && events == old(events) + [event] && minSamples == old(minSamples)
    {
      hide Spreads, RanksOf, RanksIn, Cutoff, KeyOf, SumsAre, SumsSoFar;
      var key := KeyOf(event);
      var ranks := if key in rankSums then rankSums[key] else map[];
      SumsStart(ranks, rankSums, events, key, event.order);
      var i := 0;
      while i < |event.order|
        invariant i <= |event.order|
        invariant SumsSoFar(ranks, events, key, event.order, i)
        modifies {}
      {
        var c := event.order[i];
        var entry := if c in ranks then ranks[c] else Ranks(0.0, 0);
        SumsNext(ranks, events, key, event.order, i);
        ranks := ranks[c := Ranks(entry.total + i as real, entry.count + 1)];
        i := i + 1;
      }
      SumsEnd(ranks, events, key, event);
      TracksOneMore(samples, rankSums, maxObserved, events, event, ranks);
      samples := samples[key := (if key in samples then samples[key] else []) + [event.spreadMs]];
      rankSums := rankSums[key := ranks];
      if event.last > maxObserved {
        maxObserved := event.last;
      }
      events := events + [event];
    }

    /** Builds one entry per group with enough samples. */
    method Build(sqrt: Sqrt) returns (baseline: WaveBaseline)
      requires Valid()
      ensures IsBuilt(baseline, events, minSamples, sqrt)
    {
      hide Spreads, RanksOf, Cutoff, IsEntry, BuiltSoFar, EntryPerGroup;
      var entries := [];
      ghost var keys: seq<GroupKey> := [];
      var rest := samples.Keys;
      NothingBuilt(samples, events, minSamples, sqrt);
      while rest != {}
        invariant rest <= samples.Keys
        invariant BuiltSoFar(entries, keys, rest, samples, events, minSamples, sqrt)
        decreases |rest|
      {
        var key :| key in rest;
        BuiltOne(entries, keys, rest, samples, events, minSamples, sqrt, key);
        rest := rest - {key};
        if |samples[key]| >= minSamples {
          var entry := BuildEntry(key, sqrt);
          entries := entries + [entry];
          keys := keys + [key];
        }
      }
      baseline := WaveBaseline(maxObserved, entries);
      AllBuilt(entries, keys, samples, events, minSamples, sqrt);
    }

    method BuildEntry(key: GroupKey, sqrt: Sqrt) returns (entry: WaveBaselineEntry)
      requires Valid() && key in samples
      ensures IsEntry(entry, events, key, sqrt)
    {
      hide Spreads, RanksOf, Cutoff, SumsAre, IsExpectedOrder, SortReals, ComputeSpreadStats, Percentile;
      var sorted := SortReals(samples[key]);
      var stats := ComputeSpreadStats(sorted, sqrt);
      PercentileInBounds(sorted, 50.0);
      PercentileInBounds(sorted, 95.0);
      PercentileInBounds(sorted, 99.0);
      var (p50, p95, p99) := (Percentile(sorted, 50.0), Percentile(sorted, 95.0), Percentile(sorted, 99.0));
      var order := ExpectedOrder(rankSums[key], events, key);
      entry := WaveBaselineEntry(key.prefix, key.origin, key.pathHash, |sorted|, stats.min, p50.value, p95.value, p99.value,
        stats.max, stats.std, order);
    }
  }

  // The seen collectors in whatever order the map lists them, then sorted by mean rank.
  method ExpectedOrder(ranks: RankSums, ghost events: seq<PropagationEvent>, ghost key: GroupKey) returns (order: seq<string>)
    requires SumsAre(ranks, events, key)
    ensures IsExpectedOrder(order, events, key)
  {
    var listed: seq<string> := [];
    var rest := ranks.Keys;
    while rest != {}
      invariant rest <= ranks.Keys
      invariant Distinct(listed)
      invariant forall c :: c in listed <==> c in ranks && c !in rest
      decreases |rest|
    {
      var c :| c in rest;
      rest := rest - {c};
      listed := listed + [c];
    }
    SeenArePositive(ranks, events, key);
    var means := map c | c in ranks && ranks[c].count > 0 :: ranks[c].total / ranks[c].count as real;
    order := StableSort(listed, means);
    OrderedByMean(listed, means, ranks, events, key);
  }

  // The map holds this sum for the collector, or nothing if it was never seen.
  ghost predicate Holds(ranks: RankSums, c: string, r: Ranks) {
    && (c in ranks <==> r.count > 0)
    && (c in ranks ==> ranks[c] == r)
  }

  lemma SeenArePositive(ranks: RankSums, events: seq<PropagationEvent>, key: GroupKey)
    requires SumsAre(ranks, events, key)
    ensures forall c :: c in ranks ==> ranks[c].count > 0 && ranks[c] == RanksOf(events, key, c)
    ensures forall c :: c in ranks <==> RanksOf(events, key, c).count > 0
  {
    hide RanksOf;
    forall c
      ensures c in ranks <==> RanksOf(events, key, c).count > 0
      ensures c in ranks ==> ranks[c] == RanksOf(events, key, c)
    {
      assert Holds(ranks, c, RanksOf(events, key, c));
    }
  }

  ghost predicate SumsAre(ranks: RankSums, events: seq<PropagationEvent>, key: GroupKey) {
    forall c :: Holds(ranks, c, RanksOf(events, key, c))
  }

  // A collector's sum after the first i positions of one more event's order.
  function RanksSoFar(events: seq<PropagationEvent>, key: GroupKey, order: seq<string>, i: nat, c: string): Ranks
    requires i <= |order|
  {
    Plus(RanksOf(events, key, c), RanksIn(order[..i], c))
  }

  ghost predicate SumsSoFar(ranks: RankSums, events: seq<PropagationEvent>, key: GroupKey, order: seq<string>, i: nat) {
    i <= |order| && forall c :: Holds(ranks, c, RanksSoFar(events, key, order, i, c))
  }

  lemma {:induction false} NoRanks(events: seq<PropagationEvent>, key: GroupKey, c: string)
    requires Spreads(events, key) == []
    ensures RanksOf(events, key, c) == Ranks(0.0, 0)
  {
    if events == [] {
    } else {
      NoRanks(events[..|events| - 1], key, c);
    }
  }

  lemma NothingYet(events: seq<PropagationEvent>, key: GroupKey, order: seq<string>, c: string)
    ensures RanksSoFar(events, key, order, 0, c) == RanksOf(events, key, c)
  {
    hide RanksOf;
    assert order[..0] == [];
  }

  lemma SumsStart(ranks: RankSums, rankSums: map<GroupKey, RankSums>, events: seq<PropagationEvent>, key: GroupKey, order: seq<string>)
    requires key in rankSums <==> Spreads(events, key) != []
    requires key in rankSums ==> SumsAre(rankSums[key], events, key)
    requires ranks == if key in rankSums then rankSums[key] else map[]
    ensures SumsSoFar(ranks, events, key, order, 0)
  {
    hide Spreads, RanksOf, RanksSoFar;
    forall c
      ensures Holds(ranks, c, RanksSoFar(events, key, order, 0, c))
    {
      NothingYet(events, key, order, c);
      if key in rankSums {
        assert Holds(ranks, c, RanksOf(events, key, c));
      } else {
        NoRanks(events, key, c);
      }
    }
  }

  lemma SumsNext(ranks: RankSums, events: seq<PropagationEvent>, key: GroupKey, order: seq<string>, i: nat)
    requires i < |order| && SumsSoFar(ranks, events, key, order, i)
    ensures var c := order[i];
      var entry := if c in ranks then ranks[c] else Ranks(0.0, 0);
      SumsSoFar(ranks[c := Ranks(entry.total + i as real, entry.count + 1)], events, key, order, i + 1)
  {
    hide RanksOf, RanksSoFar;
    var c := order[i];
    var entry := if c in ranks then ranks[c] else Ranks(0.0, 0);
    var next := ranks[c := Ranks(entry.total + i as real, entry.count + 1)];
    var after := i + 1;
    forall d
      ensures Holds(next, d, RanksSoFar(events, key, order, after, d))
    {
      assert Holds(ranks, d, RanksSoFar(events, key, order, i, d));
      NextSum(events, key, order, i, d);
    }
  }

  // What one more position adds to a collector's sum; a sum over no occurrence is zero.
  lemma NextSum(events: seq<PropagationEvent>, key: GroupKey, order: seq<string>, i: nat, d: string)
    requires i < |order|
    ensures var r := RanksSoFar(events, key, order, i, d);
      && RanksSoFar(events, key, order, i + 1, d) == (if order[i] == d then Ranks(r.total + i as real, r.count + 1) else r)
      && (r.count == 0 ==> r.total == 0.0)
  {
    hide RanksOf;
    assert order[..i + 1][..i] == order[..i];
    ZeroMeansZero(order[..i], d);
    ZeroCount(events, key, d);
  }

  lemma {:induction false} ZeroMeansZero(order: seq<string>, c: string)
    ensures RanksIn(order, c).count == 0 ==> RanksIn(order, c).total == 0.0
  {
    if order == [] {
    } else {
      ZeroMeansZero(order[..|order| - 1], c);
    }
  }

  lemma {:induction false} ZeroCount(events: seq<PropagationEvent>, key: GroupKey, c: string)
    ensures RanksOf(events, key, c).count == 0 ==> RanksOf(events, key, c).total == 0.0
  {
    hide KeyOf, RanksIn;
    if events == [] {
    } else {
      ZeroCount(events[..|events| - 1], key, c);
      ZeroMeansZero(events[|events| - 1].order, c);
    }
  }

  lemma SumsEnd(ranks: RankSums, events: seq<PropagationEvent>, key: GroupKey, event: PropagationEvent)
    requires key == KeyOf(event) && SumsSoFar(ranks, events, key, event.order, |event.order|)
    ensures SumsAre(ranks, events + [event], key)
  {
    hide RanksIn, KeyOf;
    assert event.order[..|event.order|] == event.order;
    assert (events + [event])[..|events|] == events;
    forall c
      ensures Holds(ranks, c, RanksOf(events + [event], key, c))
    {
      assert Holds(ranks, c, RanksSoFar(events, key, event.order, |event.order|, c));
    }
  }

  // What one more event changes.
  lemma FedOne(events: seq<PropagationEvent>, event: PropagationEvent)
    ensures forall k :: Spreads(events + [event], k) == Spreads(events, k) + if k == KeyOf(event) then [event.spreadMs] else []
    ensures forall k, ranks :: k != KeyOf(event) && SumsAre(ranks, events, k) ==> SumsAre(ranks, events + [event], k)
    ensures Cutoff(events + [event]) == if event.last > Cutoff(events) then event.last else Cutoff(events)
  {
    hide RanksIn, KeyOf;
    assert (events + [event])[..|events|] == events;
    forall k, ranks | k != KeyOf(event) && SumsAre(ranks, events, k)
      ensures SumsAre(ranks, events + [event], k)
    {
      forall c
        ensures Holds(ranks, c, RanksOf(events + [event], k, c))
      {
        assert Holds(ranks, c, RanksOf(events, k, c));
      }
    }
  }

  lemma OrderedByMean(listed: seq<string>, means: map<string, real>, ranks: RankSums, events: seq<PropagationEvent>, key: GroupKey)
    requires SumsAre(ranks, events, key)
    requires Distinct(listed) && forall c :: c in listed <==> c in ranks
    requires means == map c | c in ranks && ranks[c].count > 0 :: ranks[c].total / ranks[c].count as real
    requires forall c :: c in listed ==> c in means
    ensures IsExpectedOrder(StableSort(listed, means), events, key)
  {
    hide RanksOf, StableSort, SumsAre;
    SeenArePositive(ranks, events, key);
    var order := StableSort(listed, means);
    SameMultisetSameSize(order, listed);
    StableSortNondecreasing(listed, means);
    StillDistinct(listed, order);
    forall i, j | 0 <= i < j < |order|
      ensures RankedBefore(events, key, order[i], order[j])
    {
      assert order[i] in order && order[j] in order;
    }
  }

  lemma StillDistinct<T>(s: seq<T>, t: seq<T>)
    requires Distinct(s) && multiset(s) == multiset(t)
    ensures Distinct(t)
  {
    DistinctIsSet(s);
    forall i, j | 0 <= i < j < |t|
      ensures t[i] != t[j]
    {
      CountedTwice(t, i, j);
    }
  }

  lemma CountedTwice<T>(t: seq<T>, i: nat, j: nat)
    requires i < j < |t|
    ensures t[i] == t[j] ==> multiset(t)[t[i]] >= 2
  {
    assert t == t[..i] + [t[i]] + t[i + 1..j] + [t[j]] + t[j + 1..];
  }
}
