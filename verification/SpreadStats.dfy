/** Spread statistics: the one-pass accumulator, the two-pass computation and the
    interpolated percentile (src/wave_baseline.rs). */
module SpreadStats {
  import opened Wrappers
  import opened Reals
  import opened Seqs
  import opened Sorting

  datatype WaveStats = WaveStats(mean: real, std: real, min: real, max: real, count: nat)

  // The floating-point square root is a parameter: nothing here depends on which it is.
  type Sqrt = real -> real

  function Sum(xs: seq<real>): real {
    if xs == [] then 0.0 else Sum(xs[..|xs| - 1]) + xs[|xs| - 1]
  }

  function SquaredDeviations(xs: seq<real>, m: real): (s: real)
    ensures s >= 0.0
  {
    if xs == [] then 0.0 else SquaredDeviations(xs[..|xs| - 1], m) + Square(xs[|xs| - 1] - m)
  }

  // The two-pass computation: the mean first, then the deviations from it.
  function ComputeSpreadStats(spreads: seq<real>, sqrt: Sqrt): WaveStats {
    if spreads == [] then WaveStats(0.0, 0.0, 0.0, 0.0, 0)
    else
      var sorted := SortReals(spreads);
      var n := |spreads| as real;
      var mean := Sum(spreads) / n;
      WaveStats(mean, sqrt(SquaredDeviations(spreads, mean) / n), sorted[0], sorted[|sorted| - 1], |spreads|)
  }

  // ----- the one-pass accumulator

  // min and max start at the floating-point infinities.
  datatype Extended = NegInfinity | Finite(value: real) | PosInfinity

  predicate Below(x: real, e: Extended) {
    e.PosInfinity? || (e.Finite? && x < e.value)
  }

  predicate Above(x: real, e: Extended) {
    e.NegInfinity? || (e.Finite? && x > e.value)
  }

  ghost predicate IsMin(xs: seq<real>, e: Extended) {
    if xs == [] then e == PosInfinity
    else e.Finite? && e.value in xs && forall x :: x in xs ==> e.value <= x
  }

  ghost predicate IsMax(xs: seq<real>, e: Extended) {
    if xs == [] then e == NegInfinity
    else e.Finite? && e.value in xs && forall x :: x in xs ==> x <= e.value
  }

  // Moving the centre away from the mean costs n times the square of the move.
  lemma {:induction false} ShiftCentre(xs: seq<real>, a: real, b: real)
    ensures SquaredDeviations(xs, b) ==
            SquaredDeviations(xs, a) + 2.0 * (a - b) * (Sum(xs) - |xs| as real * a) + |xs| as real * Square(a - b)
  {
    hide Square;
    if xs == [] {
      NoDeviation(a - b);
    } else {
      var (init, x) := (xs[..|xs| - 1], xs[|xs| - 1]);
      ShiftCentre(init, a, b);
      ShiftOne(a - b, x - a, x - b, |init| as real, Sum(init), Sum(xs), a);
    }
  }

  lemma NoDeviation(d: real)
    ensures SquaredDeviations([], d) == 0.0 && Sum([]) == 0.0
    ensures 2.0 * d * (0.0 - 0.0) == 0.0
  {
  }

  lemma ShiftOne(d: real, u: real, v: real, n: real, s: real, t: real, a: real)
    requires v == u + d && t == s + u + a
    ensures Square(v) + 2.0 * d * (s - n * a) + n * Square(d) ==
            Square(u) + 2.0 * d * (t - (n + 1.0) * a) + (n + 1.0) * Square(d)
  {
    assert t - (n + 1.0) * a == (s - n * a) + u;
    assert 2.0 * d * ((s - n * a) + u) == 2.0 * d * (s - n * a) + 2.0 * d * u;
    assert Square(v) == u * u + 2.0 * d * u + d * d;
  }

  // In particular away from the mean itself.
  lemma ShiftFromMean(xs: seq<real>, mean: real, next: real)
    requires mean * |xs| as real == Sum(xs)
    ensures SquaredDeviations(xs, next) == SquaredDeviations(xs, mean) + |xs| as real * Square(mean - next)
  {
    hide Square, Sum, SquaredDeviations;
    ShiftCentre(xs, mean, next);
    Vanishes(2.0 * (mean - next), Sum(xs), |xs| as real, mean);
  }

  lemma Vanishes(c: real, s: real, n: real, m: real)
    requires m * n == s
    ensures c * (s - n * m) == 0.0
  {
    assert s - n * m == 0.0;
  }

  // The update keeps m2 equal to the deviations from the new mean.
  lemma WelfordStep(xs: seq<real>, x: real, mean: real, next: real, delta: real, delta2: real)
    requires mean * |xs| as real == Sum(xs)
    requires delta == x - mean && next == mean + delta / (|xs| + 1) as real && delta2 == x - next
    ensures next * (|xs| + 1) as real == Sum(xs + [x])
    ensures SquaredDeviations(xs + [x], next) == SquaredDeviations(xs, mean) + delta * delta2
  {
    hide Square, Sum, SquaredDeviations;
    PushSample(xs, x, next);
    ShiftFromMean(xs, mean, next);
    WelfordArithmetic(|xs| as real, delta / (|xs| + 1) as real, mean, x, next, Sum(xs), delta, delta2);
  }

  lemma PushSample(xs: seq<real>, x: real, m: real)
    ensures Sum(xs + [x]) == Sum(xs) + x
    ensures SquaredDeviations(xs + [x], m) == SquaredDeviations(xs, m) + Square(x - m)
  {
    assert (xs + [x])[..|xs|] == xs;
  }

  lemma PushExtremes(xs: seq<real>, x: real, lo: Extended, hi: Extended)
    requires IsMin(xs, lo) && IsMax(xs, hi)
    ensures IsMin(xs + [x], if Below(x, lo) then Finite(x) else lo)
    ensures IsMax(xs + [x], if Above(x, hi) then Finite(x) else hi)
  {
    assert forall y :: y in xs + [x] <==> y in xs || y == x;
  }

  lemma WelfordArithmetic(n: real, d: real, mean: real, x: real, next: real, sum: real, delta: real, delta2: real)
    requires delta == x - mean && delta2 == x - next
    requires n >= 0.0 && d == delta / (n + 1.0) && next == mean + d && mean * n == sum
    ensures next * (n + 1.0) == sum + x
    ensures n * Square(mean - next) + Square(x - next) == delta * delta2
  {
    assert d * (n + 1.0) == delta;
    assert delta2 == n * d;
    assert Square(mean - next) == d * d;
    assert Square(x - next) == (n * d) * (n * d);
    assert delta * delta2 == (d * (n + 1.0)) * (n * d);
    Regroup(n, d);
  }

  lemma Regroup(n: real, d: real)
    ensures n * (d * d) + (n * d) * (n * d) == (d * (n + 1.0)) * (n * d)
  {
    assert (d * (n + 1.0)) * (n * d) == (d * n + d) * (n * d) == (n * d) * (n * d) + d * (n * d);
    assert d * (n * d) == n * (d * d);
  }

  lemma SortedEnds(xs: seq<real>, lo: Extended, hi: Extended)
    requires xs != [] && IsMin(xs, lo) && IsMax(xs, hi)
    ensures SortReals(xs)[0] == lo.value && SortReals(xs)[|xs| - 1] == hi.value
  {
    hide SortReals;
    var sorted := SortReals(xs);
    SortRealsSorted(xs);
    SameMultisetSameSize(sorted, xs);
    assert sorted[0] in sorted && sorted[|xs| - 1] in sorted;
    assert lo.value in sorted && hi.value in sorted;
  }

  class WaveStatsAccumulator {
    var count: nat
    var mean: real
    var m2: real
    var min: Extended
    var max: Extended
    ghost var samples: seq<real>

    ghost predicate Valid()
      reads this
    {
      && count == |samples|
      && mean * count as real == Sum(samples)
      && m2 == SquaredDeviations(samples, mean)
      && IsMin(samples, min) && IsMax(samples, max)
    }

    constructor ()
      ensures Valid() && samples == []
    {
      count, mean, m2, min, max := 0, 0.0, 0.0, PosInfinity, NegInfinity;
      samples := [];
    }

    method Update(value: real)
      requires Valid()
      modifies this
      ensures Valid() && samples == old(samples) + [value]
    {
      hide Sum, SquaredDeviations, IsMin, IsMax;
      PushExtremes(samples, value, min, max);
      count := count + 1;
      var delta := value - mean;
      ghost var before := mean;
      mean := mean + delta / count as real;
      var delta2 := value - mean;
      m2 := m2 + delta * delta2;
      if Below(value, min) {
        min := Finite(value);
      }
      if Above(value, max) {
        max := Finite(value);
      }
      WelfordStep(samples, value, before, mean, delta, delta2);
      assert m2 == SquaredDeviations(samples + [value], mean);
      assert IsMin(samples + [value], min);
      assert IsMax(samples + [value], max);
      assert mean * count as real == Sum(samples + [value]);
      samples := samples + [value];
    }

    /** The accumulator reports exactly what the two-pass computation would. */
    method ToStats(sqrt: Sqrt) returns (stats: Option<WaveStats>)
      requires Valid()
      ensures stats == if samples == [] then None else Some(ComputeSpreadStats(samples, sqrt))
    {
      hide Sum, SquaredDeviations, SortReals;
      if count == 0 {
        return None;
      }
      SortedEnds(samples, min, max);
      SameMultisetSameSize(SortReals(samples), samples);
      assert mean == Sum(samples) / count as real by {
        DivideBack(mean, count as real, Sum(samples));
      }
      return Some(WaveStats(mean, sqrt(m2 / count as real), min.value, max.value, count));
    }
  }

  lemma DivideBack(a: real, n: real, s: real)
    requires n > 0.0 && a * n == s
    ensures a == s / n
  {
  }

  // ----- percentiles

  // A float cast to usize saturates at zero.
  function AsUsize(i: int): nat {
    if i < 0 then 0 else i
  }

  function Ceil(x: real): int {
    -((-x).Floor)
  }

  function Rank(n: nat, p: real): real {
    (p / 100.0) * (n as real - 1.0)
  }

  // None stands for the out-of-bounds panic.
  function Percentile(sorted: seq<real>, p: real): Option<real> {
    if sorted == [] then Some(0.0)
    else if |sorted| == 1 then Some(sorted[0])
    else At(sorted, Rank(|sorted|, p))
  }

  function Blend(a: real, b: real, f: real): real {
    a * (1.0 - f) + b * f
  }

  function At(sorted: seq<real>, rank: real): Option<real>
    requires sorted != []
  {
    var (lower, upper) := (AsUsize(rank.Floor), AsUsize(Ceil(rank)));
    if lower == upper then Some(sorted[if lower < |sorted| then lower else |sorted| - 1])
    else if upper >= |sorted| then None
    else
      assert lower < upper by { CeilAbove(rank); }
      var fraction := rank - lower as real;
      Some(Blend(sorted[lower], sorted[upper], fraction))
  }

  lemma CeilAbove(x: real)
    ensures x.Floor <= Ceil(x) <= x.Floor + 1
    ensures x.Floor as real <= x < x.Floor as real + 1.0
    ensures Ceil(x) == x.Floor <==> x == x.Floor as real
  {
  }

  lemma RankOrder(n: nat, p: real, q: real)
    requires n >= 1 && p <= q
    ensures Rank(n, p) <= Rank(n, q)
    ensures Rank(n, 0.0) == 0.0 && Rank(n, 100.0) == n as real - 1.0
  {
    assert p / 100.0 <= q / 100.0 && 0.0 / 100.0 == 0.0 && 100.0 / 100.0 == 1.0;
    ProductOrder(p / 100.0, q / 100.0, n as real - 1.0);
    ProductEnds(n as real - 1.0);
  }

  lemma ProductEnds(c: real)
    ensures 0.0 * c == 0.0 && 1.0 * c == c
  {
  }

  /** The percentile stays in bounds exactly for p up to 100, or past it when the rank falls
      on a whole number. */
  lemma PercentileInBounds(sorted: seq<real>, p: real)
    ensures Percentile(sorted, p).Some? <==>
      |sorted| <= 1 || p <= 100.0 || Rank(|sorted|, p) == Rank(|sorted|, p).Floor as real
  {
    if |sorted| > 1 {
      var rank := Rank(|sorted|, p);
      CeilAbove(rank);
      RankOrder(|sorted|, if p <= 100.0 then p else 100.0, if p <= 100.0 then 100.0 else p);
    }
  }

  // Interpolation stays between its two neighbours and leans with the fraction.
  lemma Between(a: real, b: real, f: real)
    requires a <= b && 0.0 <= f <= 1.0
    ensures a <= Blend(a, b, f) <= b
  {
    var (up, down) := ((b - a) * f, (b - a) * (1.0 - f));
    ProductNonNegative(b - a, f);
    ProductNonNegative(b - a, 1.0 - f);
    BlendForms(a, b, f);
    assert Blend(a, b, f) == a + up == b - down;
  }

  lemma BlendForms(a: real, b: real, f: real)
    ensures Blend(a, b, f) == a + (b - a) * f == b - (b - a) * (1.0 - f)
  {
  }

  lemma LeansUp(a: real, b: real, f: real, g: real)
    requires a <= b && f <= g
    ensures Blend(a, b, f) <= Blend(a, b, g)
  {
    ProductNonNegative(b - a, g - f);
    assert Blend(a, b, g) - Blend(a, b, f) == (b - a) * (g - f);
  }

  // The value at a rank lies between the samples around it.
  lemma AtBetween(sorted: seq<real>, rank: real)
    requires sorted != [] && Sorted(sorted) && At(sorted, rank).Some?
    ensures sorted[Clip(rank.Floor, |sorted|)] <= At(sorted, rank).value <= sorted[Clip(Ceil(rank), |sorted|)]
  {
    hide Blend;
    CeilAbove(rank);
    var (lower, upper) := (AsUsize(rank.Floor), AsUsize(Ceil(rank)));
    if lower != upper {
      Between(sorted[lower], sorted[upper], rank - lower as real);
    }
  }

  function Clip(i: int, n: nat): nat
    requires n > 0
    ensures Clip(i, n) < n
  {
    if i < 0 then 0 else if i < n then i else n - 1
  }

  lemma AtMonotone(sorted: seq<real>, r: real, s: real)
    requires sorted != [] && Sorted(sorted) && r <= s
    requires At(sorted, r).Some? && At(sorted, s).Some?
    ensures At(sorted, r).value <= At(sorted, s).value
  {
    hide Blend;
    CeilAbove(r);
    CeilAbove(s);
    AtBetween(sorted, r);
    AtBetween(sorted, s);
    if r.Floor < s.Floor {
      assert Clip(Ceil(r), |sorted|) <= Clip(s.Floor, |sorted|);
    } else if r.Floor >= 0 && r != r.Floor as real && Ceil(s) < |sorted| {
      LeansUp(sorted[r.Floor], sorted[Ceil(r)], r - r.Floor as real, s - r.Floor as real);
    }
  }

  /** Percentiles of a sorted sequence: monotone in p, between the first and the last sample,
      and equal to them at p = 0 and p = 100. */
  lemma PercentileLaws(sorted: seq<real>, p: real, q: real)
    requires sorted != [] && Sorted(sorted) && p <= q
    requires Percentile(sorted, p).Some? && Percentile(sorted, q).Some?
    ensures Percentile(sorted, p).value <= Percentile(sorted, q).value
    ensures sorted[0] <= Percentile(sorted, p).value <= sorted[|sorted| - 1]
    ensures Percentile(sorted, 0.0) == Some(sorted[0]) && Percentile(sorted, 100.0) == Some(sorted[|sorted| - 1])
  {
    if |sorted| > 1 {
      RankOrder(|sorted|, p, q);
      AtBetween(sorted, Rank(|sorted|, p));
      AtMonotone(sorted, Rank(|sorted|, p), Rank(|sorted|, q));
    }
  }

  // The rank of the percentage at which it is r.
  lemma RankOf(n: nat, r: real)
    requires n >= 2
    ensures Rank(n, 100.0 * r / (n as real - 1.0)) == r
  {
    var c := n as real - 1.0;
    var p := 100.0 * r / c;
    assert p * c == 100.0 * r;
    assert p / 100.0 * c == p * c / 100.0;
  }

  lemma BlendAlong(a: real, b: real, t: real)
    ensures Blend(a, b, t) == a + t * (b - a)
    ensures Blend(a, b, 0.0) == a && Blend(a, b, 1.0) == b
  {
  }

  lemma AtBetweenTwo(sorted: seq<real>, k: nat, t: real)
    requires k + 1 < |sorted| && 0.0 <= t <= 1.0
    ensures At(sorted, k as real + t) == Some(Blend(sorted[k], sorted[k + 1], t))
  {
    var rank := k as real + t;
    CeilAbove(rank);
    BlendAlong(sorted[k], sorted[k + 1], t);
    hide Blend;
    if t < 1.0 {
      assert rank.Floor == k && rank - k as real == t;
    } else {
      assert rank.Floor == k + 1;
    }
  }

  /** The percentile interpolates linearly: with n samples, the k-th of them sits at
      100 * k / (n - 1), and between two neighbours it moves in proportion. Below zero it is the
      first sample, above 100 the last if it is defined at all. */
  lemma PercentileInterpolates(sorted: seq<real>, k: nat, t: real, p: real)
    requires k + 1 < |sorted| && 0.0 <= t <= 1.0
    ensures Percentile(sorted, 100.0 * (k as real + t) / (|sorted| as real - 1.0)) == Some(sorted[k] + t * (sorted[k + 1] - sorted[k]))
    ensures p <= 0.0 ==> Percentile(sorted, p) == Some(sorted[0])
    ensures p > 100.0 && Percentile(sorted, p).Some? ==> Percentile(sorted, p) == Some(sorted[|sorted| - 1])
  {
    var n := |sorted|;
    RankOf(n, k as real + t);
    AtBetweenTwo(sorted, k, t);
    BlendAlong(sorted[k], sorted[k + 1], t);
    hide Blend;
    if p <= 0.0 {
      RankOrder(n, p, 0.0);
      CeilAbove(Rank(n, p));
    } else if p > 100.0 {
      RankOrder(n, 100.0, p);
      CeilAbove(Rank(n, p));
    }
  }

  /** With fewer than two samples there is nothing to interpolate. */
  lemma PercentileOfFew(x: real, p: real)
    ensures Percentile([], p) == Some(0.0) && Percentile([x], p) == Some(x)
  {
  }

  /** What the statistics of a non-empty sequence are: the mean, the square root of the mean
      squared deviation from it over all samples, the least and the greatest sample. */
  lemma SpreadStatsMean(spreads: seq<real>, sqrt: Sqrt)
    requires spreads != []
    ensures var (stats, n) := (ComputeSpreadStats(spreads, sqrt), |spreads| as real);
      && stats.count == |spreads| && stats.mean * n == Sum(spreads)
      && (exists v: real :: stats.std == sqrt(v) && v * n == SquaredDeviations(spreads, stats.mean))
      && stats.min in spreads && stats.max in spreads && forall x :: x in spreads ==> stats.min <= x <= stats.max
  {
    hide Sum, SquaredDeviations, SortReals;
    var (n, sorted) := (|spreads| as real, SortReals(spreads));
    var mean := Sum(spreads) / n;
    var v := SquaredDeviations(spreads, mean) / n;
    MultiplyBack(Sum(spreads), n);
    MultiplyBack(SquaredDeviations(spreads, mean), n);
    EndsOfSorted(spreads);
    assert ComputeSpreadStats(spreads, sqrt) == WaveStats(mean, sqrt(v), sorted[0], sorted[|sorted| - 1], |spreads|);
  }

  lemma MultiplyBack(x: real, n: real)
    requires n != 0.0
    ensures x / n * n == x
  {
  }

  lemma EndsOfSorted(xs: seq<real>)
    requires xs != []
    ensures var s := SortReals(xs);
      s != [] && s[0] in xs && s[|s| - 1] in xs && forall x :: x in xs ==> s[0] <= x <= s[|s| - 1]
  {
    hide SortReals;
    var s := SortReals(xs);
    SortRealsSorted(xs);
    SameMultisetSameSize(s, xs);
    assert s[0] in s && s[|s| - 1] in s;
  }
}
