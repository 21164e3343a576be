/** Wave scores: five signals of one event against its baseline entry
    (src/wave_anomaly_detector.rs). */
module WaveScore {
  import opened Wrappers
  import opened Reals
  import opened Seqs
  import opened Sorting
  import opened Propagation
  import opened WaveBaseline
  import PathHash

  datatype Classification = Normal | Suspicious | Anomalous

  function FromScore(score: real): Classification {
    if score < 0.3 then Normal else if score < 0.6 then Suspicious else Anomalous
  }

  datatype Signals = Signals(spread: real, outlier: real, gap: real, order: real, speed: real)

  datatype Config = Config(spread: real, outlier: real, gap: real, order: real, speed: real)

  const DEFAULT := Config(0.4, 0.3, 0.15, 0.1, 0.05)

  datatype AnomalyScore = AnomalyScore(total: real, signals: Signals, classification: Classification)

  const NO_SCORE := AnomalyScore(0.0, Signals(0.0, 0.0, 0.0, 0.0, 0.0), Normal)

  // Great-circle distance between two collectors, if both are registered.
  type Distance = (string, string) -> Option<real>

  function Abs(x: real): real {
    if x < 0.0 then -x else x
  }

  function Clamp(x: real): real {
    if x < 0.0 then 0.0 else if x > 1.0 then 1.0 else x
  }

  function ZScore(value: real, mean: real, std: real): real {
    if std == 0.0 then 0.0 else (value - mean) / std
  }

  function SpreadSignal(spreadMs: real, entry: WaveBaselineEntry): real {
    Clamp(Abs(ZScore(spreadMs, entry.p50, entry.stdDev)) / 3.0)
  }

  function OutlierSignal(spreadMs: real, entry: WaveBaselineEntry): real {
    if spreadMs > entry.p99 then 1.0 else 0.0
  }

  // The gaps above four milliseconds among the first n neighbours of the sorted arrivals.
  function Gaps(order: seq<string>, arrivals: Arrivals, n: nat): (g: nat)
    requires n < |order| && forall c :: c in order ==> c in arrivals
    ensures g <= n
  {
    if n == 0 then 0
    else Gaps(order, arrivals, n - 1) + if (arrivals[order[n]] - arrivals[order[n - 1]]) * 1000.0 > 4.0 then 1 else 0
  }

  function GapSignal(arrivals: Arrivals): real {
    var order := ArrivalOrder(arrivals);
    if |arrivals| < 2 || |order| < 2 then 0.0
    else Gaps(order, arrivals, |order| - 1) as real / (|order| - 1) as real
  }

  function FirstThree(s: seq<string>): seq<string> {
    if |s| <= 3 then s else s[..3]
  }

  function Top(s: seq<string>): set<string> {
    set c | c in FirstThree(s)
  }

  function OrderSignal(order: seq<string>, expected: seq<string>): real {
    if expected == [] || |order| < 2 then 0.0
    else
      var (actualTop, expectedTop) := (Top(order), Top(expected));
      var denom := if |actualTop| < |expectedTop| then |actualTop| else |expectedTop|;
      if denom == 0 then 0.0 else 1.0 - |actualTop * expectedTop| as real / denom as real
  }

  // Milliseconds light in fibre needs for a distance, at least a microsecond.
  function LightFloor(maxDist: real): (ms: real)
    ensures ms > 0.0
  {
    Max((maxDist / 200000.0) * 1000.0, 0.001)
  }

  function SpeedSignal(spreadMs: real, collectors: nat, maxDist: real): real {
    if collectors < 2 || maxDist == 0.0 then 0.0 else Clamp(spreadMs / LightFloor(maxDist))
  }

  function SignalsOf(event: PropagationEvent, entry: WaveBaselineEntry, maxDist: real): Signals {
    Signals(SpreadSignal(event.spreadMs, entry), OutlierSignal(event.spreadMs, entry), GapSignal(event.arrivals),
            OrderSignal(event.order, entry.expectedOrder), SpeedSignal(event.spreadMs, |event.arrivals|, maxDist))
  }

  function Weigh(s: Signals, w: Config): real {
    w.spread * s.spread + w.outlier * s.outlier + w.gap * s.gap + w.order * s.order + w.speed * s.speed
  }

  // The source caps the total it reports but classifies the uncapped one.
  function Score(event: PropagationEvent, entry: WaveBaselineEntry, maxDist: real, w: Config): AnomalyScore {
    var signals := SignalsOf(event, entry, maxDist);
    var total := Weigh(signals, w);
    AnomalyScore(Min(total, 1.0), signals, FromScore(total))
  }

  // ----- the loops

  // Every pair that starts before the i-th collector, or starts there and ends before the
  // j-th, is at most d apart.
  ghost predicate AtMost(d: real, ids: seq<string>, dist: Distance, i: nat, j: nat) {
    forall a, b :: 0 <= a < b < |ids| && (a < i || (a == i && b < j)) && dist(ids[a], ids[b]).Some?
      ==> dist(ids[a], ids[b]).value <= d
  }

  ghost predicate Attained(d: real, ids: seq<string>, dist: Distance) {
    d == 0.0 || exists a, b :: 0 <= a < b < |ids| && dist(ids[a], ids[b]) == Some(d)
  }

  // The greatest distance between two of the collectors, or zero if no pair has one.
  ghost predicate IsMaxDistance(d: real, ids: seq<string>, dist: Distance) {
    d >= 0.0 && AtMost(d, ids, dist, |ids|, 0) && Attained(d, ids, dist)
  }

  // What the two loops know when the inner one has reached the pair (i, j).
  ghost predicate FurthestSoFar(d: real, ids: seq<string>, dist: Distance, i: nat, j: nat) {
    d >= 0.0 && AtMost(d, ids, dist, i, j) && Attained(d, ids, dist)
  }

  lemma OneMorePair(d: real, ids: seq<string>, dist: Distance, i: nat, j: nat)
    requires FurthestSoFar(d, ids, dist, i, j) && i < j < |ids|
    ensures var e := dist(ids[i], ids[j]);
      FurthestSoFar(if e.Some? then Max(d, e.value) else d, ids, dist, i, j + 1)
  {
  }

  lemma NextRow(d: real, ids: seq<string>, dist: Distance, i: nat)
    ensures FurthestSoFar(d, ids, dist, i, |ids|) ==> FurthestSoFar(d, ids, dist, i + 1, 0)
    ensures FurthestSoFar(d, ids, dist, i, 0) ==> FurthestSoFar(d, ids, dist, i, i + 1)
    ensures FurthestSoFar(d, ids, dist, |ids|, 0) <==> IsMaxDistance(d, ids, dist)
    ensures FurthestSoFar(0.0, ids, dist, 0, 0)
  {
  }

  method FindMaxCollectorDistance(arrivals: Arrivals, dist: Distance) returns (maxDist: real)
    ensures IsMaxDistance(maxDist, KeysInOrder(arrivals.Keys), dist)
  {
    hide KeysInOrder, FurthestSoFar, IsMaxDistance;
    var ids := KeysInOrder(arrivals.Keys);
    maxDist := 0.0;
    NextRow(maxDist, ids, dist, 0);
    for i := 0 to |ids|
      invariant FurthestSoFar(maxDist, ids, dist, i, 0)
    {
      NextRow(maxDist, ids, dist, i);
      for j := i + 1 to |ids|
        invariant FurthestSoFar(maxDist, ids, dist, i, j)
      {
        OneMorePair(maxDist, ids, dist, i, j);
        var d := dist(ids[i], ids[j]);
        if d.Some? {
          maxDist := Max(maxDist, d.value);
        }
      }
      NextRow(maxDist, ids, dist, i);
    }
    NextRow(maxDist, ids, dist, |ids|);
  }

  method CalculateGapRatio(arrivals: Arrivals) returns (ratio: real)
    ensures ratio == GapSignal(arrivals)
  {
    hide ArrivalOrder;
    OrderShape(arrivals);
    if |arrivals| < 2 {
      return 0.0;
    }
    var sorted := ArrivalOrder(arrivals);
    var gapCount := 0;
    for i := 0 to |sorted| - 1
      invariant gapCount == Gaps(sorted, arrivals, i)
    {
      assert sorted[i] in sorted && sorted[i + 1] in sorted;
      var gapMs := (arrivals[sorted[i + 1]] - arrivals[sorted[i]]) * 1000.0;
      if gapMs > 4.0 {
        gapCount := gapCount + 1;
      }
    }
    return gapCount as real / (|sorted| - 1) as real;
  }

  /** Scoring one event: zero without a baseline entry, else the weighed signals. */
  method ScoreEvent(event: PropagationEvent, entries: seq<WaveBaselineEntry>, dist: Distance, w: Config)
    returns (score: AnomalyScore)
    ensures var found := FindEntry(entries, event.prefix, event.origin, PathHash.Hash(event.path));
      if found.None? then score == NO_SCORE && score.total == 0.0 && score.classification == Normal
      else exists d :: IsMaxDistance(d, KeysInOrder(event.arrivals.Keys), dist) && score == Score(event, found.value, d, w)
  {
    hide ArrivalOrder, KeysInOrder, PathHash.Hash, FindEntry, GapSignal, OrderSignal, SpeedSignal, SpreadSignal, IsMaxDistance;
    var found := FindEntry(entries, event.prefix, event.origin, PathHash.Hash(event.path));
    if found.None? {
      return NO_SCORE;
    }
    var entry := found.value;
    var gap := CalculateGapRatio(event.arrivals);
    var maxDist := FindMaxCollectorDistance(event.arrivals, dist);
    var signals := Signals(SpreadSignal(event.spreadMs, entry), OutlierSignal(event.spreadMs, entry), gap,
                           OrderSignal(event.order, entry.expectedOrder), SpeedSignal(event.spreadMs, |event.arrivals|, maxDist));
    var total := Weigh(signals, w);
    score := AnomalyScore(Min(total, 1.0), signals, FromScore(total));
    assert score == Score(event, entry, maxDist, w);
  }

  // ----- every score is sound

  ghost predicate Unit(x: real) {
    0.0 <= x <= 1.0
  }

  lemma RatioIsUnit(a: nat, b: nat)
    requires a <= b && b > 0
    ensures Unit(a as real / b as real)
  {
  }

  lemma GapIsUnit(arrivals: Arrivals)
    ensures Unit(GapSignal(arrivals))
  {
    hide ArrivalOrder;
    var order := ArrivalOrder(arrivals);
    OrderShape(arrivals);
    if |arrivals| >= 2 && |order| >= 2 {
      RatioIsUnit(Gaps(order, arrivals, |order| - 1), |order| - 1);
    }
  }

  lemma SubsetSize<T>(a: set<T>, b: set<T>)
    requires a <= b
    ensures |a| <= |b|
  {
    if a != b {
      assert b == a + (b - a);
    }
  }

  lemma OrderIsUnit(order: seq<string>, expected: seq<string>)
    ensures Unit(OrderSignal(order, expected))
  {
    var (a, e) := (Top(order), Top(expected));
    SubsetSize(a * e, a);
    SubsetSize(a * e, e);
    var denom := if |a| < |e| then |a| else |e|;
    if denom != 0 {
      RatioIsUnit(|a * e|, denom);
    }
  }

  /** All five signals of every event lie in [0, 1]. */
  lemma SignalsAreUnits(event: PropagationEvent, entry: WaveBaselineEntry, maxDist: real)
    ensures var s := SignalsOf(event, entry, maxDist);
      Unit(s.spread) && Unit(s.outlier) && Unit(s.gap) && Unit(s.order) && Unit(s.speed)
  {
    hide GapSignal, OrderSignal;
    GapIsUnit(event.arrivals);
    OrderIsUnit(event.order, entry.expectedOrder);
  }

  /** With the default weights the cap never changes a total, so what is classified is what is
      reported; with any weights at all the class still agrees with the reported score. */
  lemma ScoreIsSound(event: PropagationEvent, entry: WaveBaselineEntry, maxDist: real, w: Config)
    ensures Unit(Score(event, entry, maxDist, DEFAULT).total)
    ensures Score(event, entry, maxDist, DEFAULT).total == Weigh(SignalsOf(event, entry, maxDist), DEFAULT)
    ensures var score := Score(event, entry, maxDist, w);
      && (score.classification == Normal <==> score.total < 0.3)
      && (score.classification == Suspicious <==> 0.3 <= score.total < 0.6)
      && (score.classification == Anomalous <==> score.total >= 0.6)
  {
    hide SignalsOf, Weigh;
    SignalsAreUnits(event, entry, maxDist);
    DefaultIsUnit(SignalsOf(event, entry, maxDist));
  }

  lemma DefaultIsUnit(s: Signals)
    requires Unit(s.spread) && Unit(s.outlier) && Unit(s.gap) && Unit(s.order) && Unit(s.speed)
    ensures Unit(Weigh(s, DEFAULT))
    ensures Weigh(s, DEFAULT) == 0.4 * s.spread + 0.3 * s.outlier + 0.15 * s.gap + 0.1 * s.order + 0.05 * s.speed
  {
  }

  /** The default total is the sum of the five signals, weighted 0.4, 0.3, 0.15, 0.1 and 0.05. */
  lemma DefaultTotal(event: PropagationEvent, entry: WaveBaselineEntry, maxDist: real)
    ensures var (total, s) := (Score(event, entry, maxDist, DEFAULT).total, Score(event, entry, maxDist, DEFAULT).signals);
      total == 0.4 * s.spread + 0.3 * s.outlier + 0.15 * s.gap + 0.1 * s.order + 0.05 * s.speed
  {
    hide SignalsOf, Weigh;
    SignalsAreUnits(event, entry, maxDist);
    DefaultIsUnit(SignalsOf(event, entry, maxDist));
    ScoreIsSound(event, entry, maxDist, DEFAULT);
  }

  // ----- what each signal is, on the event and the entry

  // A ratio cut off at one.
  lemma CutOff(a: real, b: real)
    requires b > 0.0
    ensures Clamp(a / b) == 1.0 <==> a >= b
    ensures Clamp(a / b) == 0.0 <==> a <= 0.0
    ensures 0.0 <= a <= b ==> Clamp(a / b) * b == a
  {
    QuotientOrder(a, b);
    assert a / b * b == a;
  }

  /** The spread signal is the distance from the median in units of three deviations, cut off
      at one, and zero for an entry without deviation. */
  lemma SpreadSignalMeans(spreadMs: real, entry: WaveBaselineEntry)
    ensures var (x, limit) := (Abs(spreadMs - entry.p50), 3.0 * Abs(entry.stdDev));
      && (entry.stdDev == 0.0 ==> SpreadSignal(spreadMs, entry) == 0.0)
      && (entry.stdDev != 0.0 && x >= limit ==> SpreadSignal(spreadMs, entry) == 1.0)
      && (entry.stdDev != 0.0 && x <= limit ==> SpreadSignal(spreadMs, entry) * limit == x)
  {
    if entry.stdDev != 0.0 {
      var (x, s) := (Abs(spreadMs - entry.p50), Abs(entry.stdDev));
      AbsQuotient(spreadMs - entry.p50, entry.stdDev);
      assert x / s / 3.0 * (3.0 * s) == x / s * s == x;
      QuotientIs(x, 3.0 * s, x / s / 3.0);
      CutOff(x, 3.0 * s);
    }
  }

  /** The outlier signal is one above the 99th percentile and zero up to it. */
  lemma OutlierSignalMeans(spreadMs: real, entry: WaveBaselineEntry)
    ensures OutlierSignal(spreadMs, entry) == 1.0 <==> spreadMs > entry.p99
    ensures OutlierSignal(spreadMs, entry) == 0.0 <==> spreadMs <= entry.p99
  {
  }

  /** The speed signal is the spread over the time light in fibre needs for the greatest
      distance, at 200 km per millisecond, but at least a microsecond, cut off at one. */
  lemma SpeedSignalMeans(spreadMs: real, collectors: nat, maxDist: real)
    requires spreadMs >= 0.0 && maxDist >= 0.0
    ensures collectors < 2 || maxDist == 0.0 ==> SpeedSignal(spreadMs, collectors, maxDist) == 0.0
    ensures collectors >= 2 && maxDist >= 0.2 ==>
      if spreadMs * 200.0 >= maxDist then SpeedSignal(spreadMs, collectors, maxDist) == 1.0
      else SpeedSignal(spreadMs, collectors, maxDist) * maxDist == spreadMs * 200.0
    ensures collectors >= 2 && 0.0 < maxDist <= 0.2 ==>
      SpeedSignal(spreadMs, collectors, maxDist) == if spreadMs >= 0.001 then 1.0 else spreadMs * 1000.0
  {
    if collectors >= 2 && maxDist > 0.0 {
      var limit := LightFloor(maxDist);
      assert limit == Max(maxDist / 200.0, 0.001);
      CutOff(spreadMs, limit);
    }
  }

  // The i-th arrival comes more than four milliseconds after the one before.
  predicate IsGap(order: seq<string>, arrivals: Arrivals, i: int) {
    && 0 < i < |order| && order[i - 1] in arrivals && order[i] in arrivals
    && (arrivals[order[i]] - arrivals[order[i - 1]]) * 1000.0 > 4.0
  }

  function WideGaps(order: seq<string>, arrivals: Arrivals, n: nat): set<int> {
    set i | 0 <= i < n && IsGap(order, arrivals, i)
  }

  lemma OneMoreGap(order: seq<string>, arrivals: Arrivals, n: nat)
    ensures |WideGaps(order, arrivals, n + 1)| == |WideGaps(order, arrivals, n)| + if IsGap(order, arrivals, n) then 1 else 0
    ensures WideGaps(order, arrivals, 0) == {}
  {
    hide IsGap;
    var before := WideGaps(order, arrivals, n);
    assert WideGaps(order, arrivals, n + 1) == if IsGap(order, arrivals, n) then before + {n} else before;
  }

  lemma {:induction false} GapsAreCounted(order: seq<string>, arrivals: Arrivals, n: nat)
    requires n < |order| && forall c :: c in order ==> c in arrivals
    ensures Gaps(order, arrivals, n) == |WideGaps(order, arrivals, n + 1)|
  {
    hide WideGaps;
    OneMoreGap(order, arrivals, n);
    if n == 0 {
    } else {
      GapsAreCounted(order, arrivals, n - 1);
      assert order[n] in order && order[n - 1] in order;
    }
  }

  lemma GapSignalOf(arrivals: Arrivals)
    ensures var order := ArrivalOrder(arrivals);
      && |order| == |arrivals| && (forall c :: c in order ==> c in arrivals)
      && (|order| < 2 ==> GapSignal(arrivals) == 0.0)
      && (|order| >= 2 ==> GapSignal(arrivals) == Gaps(order, arrivals, |order| - 1) as real / (|order| - 1) as real)
  {
    hide ArrivalOrder;
    OrderShape(arrivals);
  }

  /** The gap signal is the share of neighbours in the event's order that are more than four
      milliseconds apart. */
  lemma GapSignalMeans(prefix: string, origin: U32, path: PathHash.Path, arrivals: Arrivals)
    requires arrivals != map[]
    ensures var order := NewEvent(prefix, origin, path, arrivals).order;
      && |order| == |arrivals|
      && (|order| == 1 ==> GapSignal(arrivals) == 0.0)
      && (|order| >= 2 ==> GapSignal(arrivals) * (|order| - 1) as real == |WideGaps(order, arrivals, |order|)| as real)
  {
    hide *;
    OrderOfEvent(prefix, origin, path, arrivals);
    GapSignalOf(arrivals);
    var order := ArrivalOrder(arrivals);
    if |order| >= 2 {
      GapsAreCounted(order, arrivals, |order| - 1);
      Share(Gaps(order, arrivals, |order| - 1) as real, (|order| - 1) as real);
    }
  }

  lemma Share(a: real, b: real)
    requires b != 0.0
    ensures a / b * b == a
  {
  }

  lemma SubsetOfSize<T>(a: set<T>, b: set<T>)
    requires a <= b
    ensures |a| == |b| <==> a == b
  {
    assert b == a + (b - a);
  }

  // The collectors at the first three places.
  function AtFirstThree(s: seq<string>): set<string> {
    set i | 0 <= i < 3 && i < |s| :: s[i]
  }

  lemma TopIsFirstThree(s: seq<string>)
    ensures Top(s) == AtFirstThree(s)
    ensures s != [] ==> s[0] in Top(s)
  {
    forall c | c in Top(s)
      ensures c in AtFirstThree(s)
    {
      var i :| 0 <= i < |FirstThree(s)| && FirstThree(s)[i] == c;
      assert s[i] == c;
    }
    forall c | c in AtFirstThree(s)
      ensures c in Top(s)
    {
      var i :| 0 <= i < 3 && i < |s| && s[i] == c;
      assert FirstThree(s)[i] == c;
    }
  }

  lemma Meet<T>(a: set<T>, b: set<T>)
    ensures a <= b <==> a * b == a
    ensures a !! b <==> a * b == {}
    ensures |a * b| == 0 <==> a * b == {}
  {
    if a * b == a {
      forall x | x in a
        ensures x in b
      {
        assert x in a * b;
      }
    }
    if a !! b {
      assert forall x :: x !in a * b;
    }
    if a * b == {} {
      forall x | x in a
        ensures x !in b
      {
        assert x !in a * b;
      }
    }
  }

  // What sharing means for the sizes.
  lemma SharedSize<T>(a: set<T>, b: set<T>)
    ensures var smaller := if |a| < |b| then |a| else |b|;
      && (|a * b| == 0 <==> a !! b)
      && (|a * b| == smaller <==> a <= b || b <= a)
  {
    SubsetOfSize(a * b, a);
    SubsetOfSize(a * b, b);
    SubsetSize(a * b, a);
    SubsetSize(a * b, b);
    Meet(a, b);
    Meet(b, a);
    assert a * b == b * a;
    if a <= b {
      SubsetSize(a, b);
    }
    if b <= a {
      SubsetSize(b, a);
    }
  }

  /** The order signal compares the first three collectors with the first three expected: one
      exactly when they share none, zero exactly when one is contained in the other, and each
      shared collector takes off one part in the size of the smaller. Without an expectation, or
      with fewer than two arrivals, it is zero. */
  lemma OrderSignalMeans(order: seq<string>, expected: seq<string>)
    ensures expected == [] || |order| < 2 ==> OrderSignal(order, expected) == 0.0
    ensures expected != [] && |order| >= 2 ==>
      var (actual, wanted) := (AtFirstThree(order), AtFirstThree(expected));
      var smaller := if |actual| < |wanted| then |actual| else |wanted|;
      && smaller > 0
      && (OrderSignal(order, expected) == 1.0 <==> actual !! wanted)
      && (OrderSignal(order, expected) == 0.0 <==> actual <= wanted || wanted <= actual)
      && (1.0 - OrderSignal(order, expected)) * smaller as real == |actual * wanted| as real
  {
    if expected != [] && |order| >= 2 {
      hide Top, AtFirstThree;
      TopIsFirstThree(order);
      TopIsFirstThree(expected);
      var (a, w) := (Top(order), Top(expected));
      SharedSize(a, w);
      Overlap(|a * w|, if |a| < |w| then |a| else |w|, OrderSignal(order, expected));
    }
  }

  lemma Overlap(both: nat, smaller: nat, signal: real)
    requires smaller > 0 && signal == 1.0 - both as real / smaller as real
    ensures (1.0 - signal) * smaller as real == both as real
    ensures (signal == 1.0 <==> both == 0) && (signal == 0.0 <==> both == smaller)
  {
    Share(both as real, smaller as real);
    ShareEnds(both, smaller);
  }

  lemma ShareEnds(a: nat, b: nat)
    requires b > 0
    ensures a as real / b as real == 0.0 <==> a == 0
    ensures a as real / b as real == 1.0 <==> a == b
  {
    Share(a as real, b as real);
  }

  // ----- how the score moves with the spread, the arrivals held fixed

  lemma DivideOrder(a: real, b: real, c: real)
    requires a <= b && c > 0.0
    ensures a / c <= b / c
  {
  }

  lemma QuotientIs(a: real, c: real, q: real)
    requires c != 0.0 && q * c == a
    ensures a / c == q
  {
  }

  lemma SignsOut(x: real, y: real)
    ensures (-x) * y == -(x * y) && x * (-y) == -(x * y) && (-x) * (-y) == x * y
  {
  }

  lemma AbsProduct(x: real, y: real)
    ensures Abs(x) * Abs(y) == Abs(x * y)
  {
    SignsOut(x, y);
    if x >= 0.0 && y >= 0.0 {
      ProductOrder(0.0, y, x);
    } else if x >= 0.0 {
      ProductOrder(0.0, -y, x);
    } else if y >= 0.0 {
      ProductOrder(0.0, y, -x);
    } else {
      ProductOrder(0.0, -y, -x);
    }
  }

  lemma AbsQuotient(a: real, c: real)
    requires c != 0.0
    ensures Abs(a / c) == Abs(a) / Abs(c)
    ensures Abs(-a / c) == Abs(a / c)
  {
    var q := a / c;
    assert q * c == a;
    AbsProduct(q, c);
    QuotientIs(Abs(a), Abs(c), Abs(q));
    SignsOut(q, c);
    QuotientIs(-a, c, -q);
  }

  /** The spread signal is symmetric about the median and grows with the distance from it. */
  lemma SpreadSignalLaws(entry: WaveBaselineEntry, d: real, e: real)
    requires 0.0 <= d <= e
    ensures SpreadSignal(entry.p50 + d, entry) == SpreadSignal(entry.p50 - d, entry)
    ensures SpreadSignal(entry.p50 + d, entry) <= SpreadSignal(entry.p50 + e, entry)
  {
    var std := entry.stdDev;
    if std != 0.0 {
      assert entry.p50 + d - entry.p50 == d && entry.p50 - d - entry.p50 == -d && entry.p50 + e - entry.p50 == e;
      AbsQuotient(d, std);
      AbsQuotient(e, std);
      DivideOrder(d, e, Abs(std));
    }
  }

  lemma WeighMonotone(s: Signals, t: Signals, w: Config)
    requires w.spread >= 0.0 && w.outlier >= 0.0 && w.gap >= 0.0 && w.order >= 0.0 && w.speed >= 0.0
    requires s.spread <= t.spread && s.outlier <= t.outlier && s.gap <= t.gap && s.order <= t.order && s.speed <= t.speed
    ensures Weigh(s, w) <= Weigh(t, w)
  {
    ProductOrder(s.spread, t.spread, w.spread);
    ProductOrder(s.outlier, t.outlier, w.outlier);
    ProductOrder(s.gap, t.gap, w.gap);
    ProductOrder(s.order, t.order, w.order);
    ProductOrder(s.speed, t.speed, w.speed);
    AddOrder(w.spread * s.spread, w.outlier * s.outlier, w.gap * s.gap, w.order * s.order, w.speed * s.speed,
      w.spread * t.spread, w.outlier * t.outlier, w.gap * t.gap, w.order * t.order, w.speed * t.speed);
  }

  lemma AddOrder(a: real, b: real, c: real, d: real, e: real, a': real, b': real, c': real, d': real, e': real)
    requires a <= a' && b <= b' && c <= c' && d <= d' && e <= e'
    ensures a + b + c + d + e <= a' + b' + c' + d' + e'
  {
  }

  lemma SpeedMonotone(s: real, t: real, collectors: nat, maxDist: real)
    requires s <= t
    ensures SpeedSignal(s, collectors, maxDist) <= SpeedSignal(t, collectors, maxDist)
  {
    DivideOrder(s, t, LightFloor(maxDist));
  }

  /** For any non-negative weights, the reported total never falls as the spread grows from
      the median on. */
  lemma TotalGrowsAboveMedian(event: PropagationEvent, entry: WaveBaselineEntry, maxDist: real, w: Config, d: real, e: real)
    requires w.spread >= 0.0 && w.outlier >= 0.0 && w.gap >= 0.0 && w.order >= 0.0 && w.speed >= 0.0
    requires 0.0 <= d <= e
    ensures Score(event.(spreadMs := entry.p50 + d), entry, maxDist, w).total <=
            Score(event.(spreadMs := entry.p50 + e), entry, maxDist, w).total
  {
    hide SpreadSignal, SpeedSignal, GapSignal, OrderSignal, Weigh;
    SpreadSignalLaws(entry, d, e);
    SpeedMonotone(entry.p50 + d, entry.p50 + e, |event.arrivals|, maxDist);
    WeighMonotone(SignalsOf(event.(spreadMs := entry.p50 + d), entry, maxDist),
                  SignalsOf(event.(spreadMs := entry.p50 + e), entry, maxDist), w);
  }

  // Whether mirroring a spread at the median leaves the outlier signal as it is, and whether it
  // leaves the speed signal.
  predicate OutliersAgree(p50: real, p99: real, d: real) {
    !(p50 - d <= p99 < p50 + d)
  }

  predicate SpeedsAgree(p50: real, d: real, collectors: nat, maxDist: real) {
    collectors < 2 || maxDist == 0.0 || d == 0.0 || p50 - d >= LightFloor(maxDist) || p50 + d <= 0.0
  }

  lemma DivideStrictOrder(a: real, b: real, c: real)
    requires a < b && c > 0.0
    ensures a / c < b / c
  {
    DivideOrder(a, b, c);
    assert (a / c) * c == a && (b / c) * c == b;
  }

  lemma SpeedsAgreeExactlyWhen(p50: real, d: real, collectors: nat, maxDist: real)
    requires d >= 0.0
    ensures SpeedSignal(p50 - d, collectors, maxDist) == SpeedSignal(p50 + d, collectors, maxDist) <==>
            SpeedsAgree(p50, d, collectors, maxDist)
  {
    var limit := LightFloor(maxDist);
    if d > 0.0 {
      DivideStrictOrder(p50 - d, p50 + d, limit);
      QuotientOrder(p50 - d, limit);
      QuotientOrder(p50 + d, limit);
    }
  }

  // The two weighed gains cancel out exactly when neither is one.
  lemma NoGain(w: real, s: real, t: real)
    requires w >= 0.0 && s <= t
    ensures w * (t - s) >= 0.0
    ensures w * (t - s) == 0.0 <==> w == 0.0 || s == t
  {
  }

  lemma WeighDifference(s: Signals, t: Signals, w: Config)
    requires s.spread == t.spread && s.gap == t.gap && s.order == t.order
    ensures Weigh(t, w) - Weigh(s, w) == w.outlier * (t.outlier - s.outlier) + w.speed * (t.speed - s.speed)
  {
  }

  lemma CappedTotals(s: real, t: real, x: real, y: real)
    requires t - s == x + y && x >= 0.0 && y >= 0.0
    ensures s == t <==> x == 0.0 && y == 0.0
    ensures Min(s, 1.0) <= Min(t, 1.0)
    ensures Min(s, 1.0) == Min(t, 1.0) <==> s == t || s >= 1.0
  {
  }

  lemma MirroredSignals(event: PropagationEvent, entry: WaveBaselineEntry, maxDist: real, d: real)
    requires d >= 0.0
    ensures var s := SignalsOf(event.(spreadMs := entry.p50 - d), entry, maxDist);
      var t := SignalsOf(event.(spreadMs := entry.p50 + d), entry, maxDist);
      && s.spread == t.spread && s.gap == t.gap && s.order == t.order
      && s.outlier <= t.outlier && (s.outlier == t.outlier <==> OutliersAgree(entry.p50, entry.p99, d))
      && s.speed <= t.speed && (s.speed == t.speed <==> SpeedsAgree(entry.p50, d, |event.arrivals|, maxDist))
  {
    hide SpreadSignal, SpeedSignal, GapSignal, OrderSignal, SpeedsAgree;
    SpreadSignalLaws(entry, d, d);
    SpeedMonotone(entry.p50 - d, entry.p50 + d, |event.arrivals|, maxDist);
    SpeedsAgreeExactlyWhen(entry.p50, d, |event.arrivals|, maxDist);
  }

  /** The total itself is not symmetric: for any non-negative weights, mirrored below the
      median it never scores higher. The weighed signals agree exactly when each of the
      outlier and the speed signal has no weight or is the same on both sides, which the
      inputs tell; the reported totals also agree when both are capped. */
  lemma TotalFavoursLateArrivals(event: PropagationEvent, entry: WaveBaselineEntry, maxDist: real, w: Config, d: real)
    requires w.spread >= 0.0 && w.outlier >= 0.0 && w.gap >= 0.0 && w.order >= 0.0 && w.speed >= 0.0
    requires d >= 0.0
    ensures var (early, late) := (event.(spreadMs := entry.p50 - d), event.(spreadMs := entry.p50 + d));
      var same := && (w.outlier == 0.0 || OutliersAgree(entry.p50, entry.p99, d))
                  && (w.speed == 0.0 || SpeedsAgree(entry.p50, d, |event.arrivals|, maxDist));
      var s := Weigh(SignalsOf(early, entry, maxDist), w);
      && Score(early, entry, maxDist, w).total <= Score(late, entry, maxDist, w).total
      && (s == Weigh(SignalsOf(late, entry, maxDist), w) <==> same)
      && (Score(early, entry, maxDist, w).total == Score(late, entry, maxDist, w).total <==> same || s >= 1.0)
  {
    var (early, late) := (event.(spreadMs := entry.p50 - d), event.(spreadMs := entry.p50 + d));
    var (s, t) := (SignalsOf(early, entry, maxDist), SignalsOf(late, entry, maxDist));
    hide SignalsOf, SpeedsAgree, OutliersAgree, Weigh, FromScore, Min;
    MirroredSignals(event, entry, maxDist, d);
    WeighDifference(s, t, w);
    NoGain(w.outlier, s.outlier, t.outlier);
    NoGain(w.speed, s.speed, t.speed);
    CappedTotals(Weigh(s, w), Weigh(t, w), w.outlier * (t.outlier - s.outlier), w.speed * (t.speed - s.speed));
  }

  /** With the default weights nothing is capped, so the mirrored totals agree exactly when
      both signals do. */
  lemma DefaultTotalFavoursLateArrivals(event: PropagationEvent, entry: WaveBaselineEntry, maxDist: real, d: real)
    requires d >= 0.0
    ensures var (early, late) := (event.(spreadMs := entry.p50 - d), event.(spreadMs := entry.p50 + d));
      Score(early, entry, maxDist, DEFAULT).total == Score(late, entry, maxDist, DEFAULT).total <==>
        OutliersAgree(entry.p50, entry.p99, d) && SpeedsAgree(entry.p50, d, |event.arrivals|, maxDist)
  {
    hide SignalsOf, Weigh, Score;
    hide SpeedsAgree, OutliersAgree;
    var (early, late) := (event.(spreadMs := entry.p50 - d), event.(spreadMs := entry.p50 + d));
    ScoreIsSound(early, entry, maxDist, DEFAULT);
    ScoreIsSound(late, entry, maxDist, DEFAULT);
    TotalFavoursLateArrivals(event, entry, maxDist, DEFAULT, d);
  }

  /** The speed signal is full exactly when the spread is physically plausible, and drops to
      zero as the arrivals become simultaneous: the opposite of what its comment promises. */
  lemma SpeedSignalRewardsPlausibleSpreads(spreadMs: real, collectors: nat, maxDist: real)
    requires collectors >= 2 && maxDist != 0.0
    ensures SpeedSignal(spreadMs, collectors, maxDist) == 1.0 <==> spreadMs >= LightFloor(maxDist)
    ensures SpeedSignal(spreadMs, collectors, maxDist) == 0.0 <==> spreadMs <= 0.0
  {
    QuotientOrder(spreadMs, LightFloor(maxDist));
  }

  lemma QuotientOrder(a: real, b: real)
    requires b > 0.0
    ensures a / b >= 1.0 <==> a >= b
    ensures a / b <= 0.0 <==> a <= 0.0
  {
    assert a == (a / b) * b;
    if a / b >= 1.0 {
      ProductOrder(1.0, a / b, b);
    } else {
      assert (1.0 - a / b) * b > 0.0;
    }
    if a / b <= 0.0 {
      ProductOrder(a / b, 0.0, b);
    }
  }

  // ----- gaps and spread

  lemma {:induction false} NoGapsBound(order: seq<string>, arrivals: Arrivals, n: nat)
    requires n < |order| && forall c :: c in order ==> c in arrivals
    requires Gaps(order, arrivals, n) == 0
    ensures (arrivals[order[n]] - arrivals[order[0]]) * 1000.0 <= 4.0 * n as real
  {
    if n == 0 {
    } else {
      NoGapsBound(order, arrivals, n - 1);
    }
  }

  /** An event whose gap signal is zero spans at most four milliseconds per hop of its order. */
  lemma NoGapsMeansTightSpread(prefix: string, origin: U32, path: PathHash.Path, arrivals: Arrivals)
    requires arrivals != map[] && GapSignal(arrivals) == 0.0
    ensures NewEvent(prefix, origin, path, arrivals).spreadMs <= 4.0 * (|arrivals| - 1) as real
  {
    hide NewEvent, ArrivalOrder;
    var order := ArrivalOrder(arrivals);
    OrderShape(arrivals);
    EventShape(prefix, origin, path, arrivals);
    OrderOfEvent(prefix, origin, path, arrivals);
    if |arrivals| >= 2 {
      NoQuotient(Gaps(order, arrivals, |order| - 1), |order| - 1);
    }
    NoGapsBound(order, arrivals, |order| - 1);
  }

  lemma OrderOfEvent(prefix: string, origin: U32, path: PathHash.Path, arrivals: Arrivals)
    requires arrivals != map[]
    ensures NewEvent(prefix, origin, path, arrivals).order == ArrivalOrder(arrivals)
  {
  }

  lemma NoQuotient(a: nat, b: nat)
    requires b > 0 && a as real / b as real == 0.0
    ensures a == 0
  {
    assert a as real == (a as real / b as real) * b as real;
  }
}
