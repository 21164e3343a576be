/** Exponentially weighted baselines of AS-path lengths (src/baseline_model.rs). */
module Ewma {
  import opened Reals

  const EPSILON := 0.000001

  // One prefix's baseline: average, variance and number of samples.
  datatype Stats = Stats(ema: real, variance: real, count: nat)

  function First(value: real): Stats {
    Stats(value, 0.0, 1)
  }

  function Updated(s: Stats, value: real, alpha: real): Stats {
    var delta := value - s.ema;
    Stats(s.ema + alpha * delta, (1.0 - alpha) * (s.variance + alpha * delta * delta), s.count + 1)
  }

  // The state after a whole history.
  function StatsOf(xs: seq<real>, alpha: real): Stats
    requires xs != []
  {
    if |xs| == 1 then First(xs[0]) else Updated(StatsOf(xs[..|xs| - 1], alpha), xs[|xs| - 1], alpha)
  }

  // ----- what the state means: explicit weights

  function Pow(x: real, k: nat): real {
    if k == 0 then 1.0 else x * Pow(x, k - 1)
  }

  // The weight of sample i among n: (1 - alpha)^(n - 1) for the first, alpha * (1 - alpha)^(n - 1 - i) for the others.
  function Weight(n: nat, i: nat, alpha: real): real
    requires i < n
  {
    if i == 0 then Pow(1.0 - alpha, n - 1) else alpha * Pow(1.0 - alpha, n - 1 - i)
  }

  // The weighted sum of f over the first k samples.
  function Weighted(xs: seq<real>, alpha: real, f: real -> real, k: nat): real
    requires k <= |xs|
  {
    if k == 0 then 0.0 else Weighted(xs, alpha, f, k - 1) + Weight(|xs|, k - 1, alpha) * f(xs[k - 1])
  }

  function Average(xs: seq<real>, alpha: real, f: real -> real): real {
    Weighted(xs, alpha, f, |xs|)
  }

  function One(x: real): real { 1.0 }

  function Id(x: real): real { x }

  function SquareFrom(m: real): real -> real {
    x => (x - m) * (x - m)
  }

  lemma Scale(c: real, w: real, y: real, s: real)
    ensures c * s + (c * w) * y == c * (s + w * y)
  {
  }

  lemma ShiftWeight(n: nat, i: nat, alpha: real)
    requires i < n
    ensures Weight(n + 1, i, alpha) == (1.0 - alpha) * Weight(n, i, alpha)
  {
    Swap(alpha, 1.0 - alpha, Pow(1.0 - alpha, n - 1 - i));
  }

  lemma Swap(a: real, b: real, c: real)
    ensures a * (b * c) == b * (a * c)
  {
  }

  // One more sample scales every older weight by 1 - alpha.
  lemma {:induction false} WeightedPush(xs: seq<real>, x: real, alpha: real, f: real -> real, k: nat)
    requires k <= |xs|
    ensures Weighted(xs + [x], alpha, f, k) == (1.0 - alpha) * Weighted(xs, alpha, f, k)
  {
    hide Weight;
    if k == 0 {
    } else {
      WeightedPush(xs, x, alpha, f, k - 1);
      ShiftWeight(|xs|, k - 1, alpha);
      Scale(1.0 - alpha, Weight(|xs|, k - 1, alpha), f(xs[k - 1]), Weighted(xs, alpha, f, k - 1));
    }
  }

  lemma AveragePush(xs: seq<real>, x: real, alpha: real, f: real -> real)
    requires xs != []
    ensures Average(xs + [x], alpha, f) == (1.0 - alpha) * Average(xs, alpha, f) + alpha * f(x)
  {
    WeightedPush(xs, x, alpha, f, |xs|);
    assert Pow(1.0 - alpha, 0) == 1.0;
    assert Weight(|xs| + 1, |xs|, alpha) == alpha;
  }

  lemma AverageOfOne(x: real, alpha: real, f: real -> real)
    ensures Average([x], alpha, f) == f(x)
  {
    assert Weighted([x], alpha, f, 0) == 0.0;
    assert Weight(1, 0, alpha) == 1.0;
    assert Weighted([x], alpha, f, 1) == 0.0 + 1.0 * f(x);
  }

  ghost predicate Combines(h: real -> real, f: real -> real, g: real -> real, p: real, q: real, r: real, x: real) {
    h(x) == p * f(x) + q * g(x) + r
  }

  ghost predicate AllCombine(h: real -> real, f: real -> real, g: real -> real, p: real, q: real, r: real) {
    forall x :: Combines(h, f, g, p, q, r, x)
  }

  // A linear combination, and a sum with one more weighted term.
  function Mix(p: real, q: real, r: real, a: real, b: real, c: real): real {
    p * a + q * b + r * c
  }

  function Added(sum: real, w: real, y: real): real {
    sum + w * y
  }

  // A pointwise combination of two functions and a constant averages the same way.
  lemma {:induction false} WeightedCombine(xs: seq<real>, alpha: real, k: nat,
      h: real -> real, f: real -> real, g: real -> real, p: real, q: real, r: real)
    requires k <= |xs| && AllCombine(h, f, g, p, q, r)
    ensures Weighted(xs, alpha, h, k) ==
            Mix(p, q, r, Weighted(xs, alpha, f, k), Weighted(xs, alpha, g, k), Weighted(xs, alpha, One, k))
  {
    if k == 0 {
    } else {
      hide *;
      var (w, x) := (Weight(|xs|, k - 1, alpha), xs[k - 1]);
      WeightedCombine(xs, alpha, k - 1, h, f, g, p, q, r);
      CombineAt(h, f, g, p, q, r, x);
      WeightedStep(xs, alpha, h, k);
      WeightedStep(xs, alpha, f, k);
      WeightedStep(xs, alpha, g, k);
      WeightedStep(xs, alpha, One, k);
      Linear(Weighted(xs, alpha, f, k - 1), Weighted(xs, alpha, g, k - 1), Weighted(xs, alpha, One, k - 1), w, f(x), g(x), p, q, r);
    }
  }

  lemma WeightedStep(xs: seq<real>, alpha: real, f: real -> real, k: nat)
    requires 0 < k <= |xs|
    ensures Weighted(xs, alpha, f, k) == Added(Weighted(xs, alpha, f, k - 1), Weight(|xs|, k - 1, alpha), f(xs[k - 1]))
    ensures One(xs[k - 1]) == 1.0
  {
    hide Weight;
  }

  lemma CombineAt(h: real -> real, f: real -> real, g: real -> real, p: real, q: real, r: real, x: real)
    requires AllCombine(h, f, g, p, q, r)
    ensures h(x) == Mix(p, q, r, f(x), g(x), 1.0)
  {
    assert Combines(h, f, g, p, q, r, x);
  }

  lemma AverageCombine(xs: seq<real>, alpha: real, h: real -> real, f: real -> real, g: real -> real, p: real, q: real, r: real)
    requires AllCombine(h, f, g, p, q, r)
    ensures Average(xs, alpha, h) == p * Average(xs, alpha, f) + q * Average(xs, alpha, g) + r * Average(xs, alpha, One)
  {
    WeightedCombine(xs, alpha, |xs|, h, f, g, p, q, r);
  }

  lemma Linear(sf: real, sg: real, s1: real, w: real, y: real, z: real, p: real, q: real, r: real)
    ensures Added(Mix(p, q, r, sf, sg, s1), w, Mix(p, q, r, y, z, 1.0)) ==
            Mix(p, q, r, Added(sf, w, y), Added(sg, w, z), Added(s1, w, 1.0))
  {
    assert w * (p * y + q * z + r) == p * (w * y) + q * (w * z) + r * w by {
      Swap(w, p, y);
      Swap(w, q, z);
    }
  }

  lemma {:induction false} WeightedNonNegative(xs: seq<real>, alpha: real, f: real -> real, k: nat)
    requires k <= |xs| && 0.0 < alpha <= 1.0 && forall i :: 0 <= i < |xs| ==> f(xs[i]) >= 0.0
    ensures Weighted(xs, alpha, f, k) >= 0.0
  {
    hide Weight;
    if k == 0 {
    } else {
      WeightedNonNegative(xs, alpha, f, k - 1);
      WeightNonNegative(|xs|, k - 1, alpha);
      ProductNonNegative(Weight(|xs|, k - 1, alpha), f(xs[k - 1]));
    }
  }

  lemma AverageNonNegative(xs: seq<real>, alpha: real, f: real -> real)
    requires 0.0 < alpha <= 1.0 && forall i :: 0 <= i < |xs| ==> f(xs[i]) >= 0.0
    ensures Average(xs, alpha, f) >= 0.0
  {
    WeightedNonNegative(xs, alpha, f, |xs|);
  }

  lemma SquareNonNegative(x: real)
    ensures x * x >= 0.0
  {
  }

  lemma WeightNonNegative(n: nat, i: nat, alpha: real)
    requires i < n && 0.0 < alpha <= 1.0
    ensures Weight(n, i, alpha) >= 0.0
  {
    PowNonNegative(1.0 - alpha, n - 1);
    PowNonNegative(1.0 - alpha, n - 1 - i);
  }

  lemma {:induction false} PowNonNegative(x: real, k: nat)
    requires x >= 0.0
    ensures Pow(x, k) >= 0.0
  {
    if k == 0 {
    } else {
      PowNonNegative(x, k - 1);
    }
  }

  // ----- the state is the weighted mean and the weighted variance

  lemma MomentStep(s: Stats, s2: real, x: real, a: real)
    requires s.variance == s2 - s.ema * s.ema
    ensures var (m', s2') := ((1.0 - a) * s.ema + a * x, (1.0 - a) * s2 + a * (x * x));
      Updated(s, x, a).ema == m' && Updated(s, x, a).variance == s2' - m' * m'
  {
    var (m, d) := (s.ema, x - s.ema);
    assert (1.0 - a) * m + a * x == m + a * d;
    assert (m + a * d) * (m + a * d) == m * m + 2.0 * a * m * d + a * a * d * d;
    assert x * x == m * m + 2.0 * m * d + d * d;
    assert a * (x * x) == a * m * m + 2.0 * a * m * d + a * d * d;
    assert (1.0 - a) * (s.variance + a * d * d) == (1.0 - a) * s2 - m * m + a * m * m + a * d * d - a * a * d * d;
  }

  lemma StatsOfOne(x: real, alpha: real)
    ensures StatsOf([x], alpha) == First(x)
  {
  }

  lemma StatsPush(xs: seq<real>, x: real, alpha: real)
    requires xs != []
    ensures StatsOf(xs + [x], alpha) == Updated(StatsOf(xs, alpha), x, alpha)
  {
    assert (xs + [x])[..|xs|] == xs;
  }

  // The three raw moments determine the state.
  lemma {:induction false} StateIsMoments(xs: seq<real>, alpha: real)
    requires xs != []
    ensures Average(xs, alpha, One) == 1.0
    ensures StatsOf(xs, alpha).ema == Average(xs, alpha, Id)
    ensures StatsOf(xs, alpha).variance == Average(xs, alpha, Square) - Average(xs, alpha, Id) * Average(xs, alpha, Id)
  {
    hide Average, Updated, StatsOf;
    if |xs| == 1 {
      assert xs == [xs[0]];
      StatsOfOne(xs[0], alpha);
      AverageOfOne(xs[0], alpha, One);
      AverageOfOne(xs[0], alpha, Id);
      AverageOfOne(xs[0], alpha, Square);
    } else {
      var (init, x) := (xs[..|xs| - 1], xs[|xs| - 1]);
      StateIsMoments(init, alpha);
      assert xs == init + [x];
      AveragePush(init, x, alpha, One);
      AveragePush(init, x, alpha, Id);
      AveragePush(init, x, alpha, Square);
      MomentStep(StatsOf(init, alpha), Average(init, alpha, Square), x, alpha);
      StatsPush(init, x, alpha);
    }
  }

  lemma SquareCombines(m: real, q: real, r: real)
    requires q == -2.0 * m && r == m * m
    ensures AllCombine(SquareFrom(m), Square, Id, 1.0, q, r)
  {
    forall x
      ensures Combines(SquareFrom(m), Square, Id, 1.0, q, r, x)
    {
      assert (x - m) * (x - m) == x * x - 2.0 * m * x + m * m;
    }
  }

  /** After any history, with weights that sum to one, the average is the weighted mean of the
      samples and the variance is the weighted mean of their squared deviations from it. */
  lemma StateIsWeightedVariance(xs: seq<real>, alpha: real)
    requires xs != []
    ensures var s := StatsOf(xs, alpha);
      && Average(xs, alpha, One) == 1.0
      && s.ema == Average(xs, alpha, Id)
      && s.variance == Average(xs, alpha, SquareFrom(s.ema))
      && s.count == |xs|
  {
    hide StatsOf, Average, SquareFrom;
    StateIsMoments(xs, alpha);
    var m := StatsOf(xs, alpha).ema;
    SquareCombines(m, -2.0 * m, m * m);
    AverageCombine(xs, alpha, SquareFrom(m), Square, Id, 1.0, -2.0 * m, m * m);
    CountIsLength(xs, alpha);
    DeviationArithmetic(m, Average(xs, alpha, Square), Average(xs, alpha, SquareFrom(m)));
  }

  lemma DeviationArithmetic(m: real, s2: real, dev: real)
    requires dev == 1.0 * s2 + (-2.0 * m) * m + m * m * 1.0
    ensures dev == s2 - m * m
  {
  }

  lemma {:induction false} CountIsLength(xs: seq<real>, alpha: real)
    requires xs != []
    ensures StatsOf(xs, alpha).count == |xs|
  {
    if |xs| <= 1 {
    } else {
      CountIsLength(xs[..|xs| - 1], alpha);
    }
  }

  /** So the average stays between any bounds of the samples, and the variance between zero
      and the product of its distances to them. */
  lemma StateStaysInBounds(xs: seq<real>, alpha: real, lo: real, hi: real)
    requires xs != [] && 0.0 < alpha <= 1.0
    requires forall i :: 0 <= i < |xs| ==> lo <= xs[i] <= hi
    ensures var s := StatsOf(xs, alpha);
      lo <= s.ema <= hi && 0.0 <= s.variance <= (hi - s.ema) * (s.ema - lo)
  {
    hide StatsOf, Average;
    StateIsMoments(xs, alpha);
    StateIsWeightedVariance(xs, alpha);
    var m := StatsOf(xs, alpha).ema;
    AverageAbove(xs, alpha, lo);
    AverageBelow(xs, alpha, hi);
    DeviationNonNegative(xs, alpha, m);
    VarianceBelow(xs, alpha, lo, hi);
  }

  lemma DeviationNonNegative(xs: seq<real>, alpha: real, m: real)
    requires 0.0 < alpha <= 1.0
    ensures Average(xs, alpha, SquareFrom(m)) >= 0.0
  {
    forall i | 0 <= i < |xs|
      ensures SquareFrom(m)(xs[i]) >= 0.0
    {
      SquareNonNegative(xs[i] - m);
    }
    AverageNonNegative(xs, alpha, SquareFrom(m));
  }

  lemma AverageAbove(xs: seq<real>, alpha: real, lo: real)
    requires xs != [] && 0.0 < alpha <= 1.0 && forall i :: 0 <= i < |xs| ==> lo <= xs[i]
    ensures lo <= Average(xs, alpha, Id)
  {
    hide Average, StatsOf;
    StateIsMoments(xs, alpha);
    var f := (x: real) => x - lo;
    var r := -lo;
    assert AllCombine(f, Id, Id, 1.0, 0.0, r);
    AverageCombine(xs, alpha, f, Id, Id, 1.0, 0.0, r);
    AverageNonNegative(xs, alpha, f);
  }

  lemma AverageBelow(xs: seq<real>, alpha: real, hi: real)
    requires xs != [] && 0.0 < alpha <= 1.0 && forall i :: 0 <= i < |xs| ==> xs[i] <= hi
    ensures Average(xs, alpha, Id) <= hi
  {
    hide Average, StatsOf;
    StateIsMoments(xs, alpha);
    var f := (x: real) => hi - x;
    var p := -1.0;
    assert AllCombine(f, Id, Id, p, 0.0, hi);
    AverageCombine(xs, alpha, f, Id, Id, p, 0.0, hi);
    AverageNonNegative(xs, alpha, f);
  }

  // Positive between lo and hi only.
  function Span(lo: real, hi: real): real -> real {
    x => (hi - x) * (x - lo)
  }

  lemma SpanCombines(lo: real, hi: real, p: real, q: real, r: real)
    requires p == -1.0 && q == hi + lo && r == -(hi * lo)
    ensures AllCombine(Span(lo, hi), Square, Id, p, q, r)
  {
    forall x
      ensures Combines(Span(lo, hi), Square, Id, p, q, r, x)
    {
      assert (hi - x) * (x - lo) == hi * x - hi * lo - x * x + x * lo;
    }
  }

  lemma VarianceBelow(xs: seq<real>, alpha: real, lo: real, hi: real)
    requires xs != [] && 0.0 < alpha <= 1.0 && forall i :: 0 <= i < |xs| ==> lo <= xs[i] <= hi
    ensures var m := Average(xs, alpha, Id);
      Average(xs, alpha, Square) - m * m <= (hi - m) * (m - lo)
  {
    hide Average, StatsOf, AllCombine;
    StateIsMoments(xs, alpha);
    var (p, q, r) := (-1.0, hi + lo, -(hi * lo));
    forall i | 0 <= i < |xs|
      ensures Span(lo, hi)(xs[i]) >= 0.0
    {
      ProductNonNegative(hi - xs[i], xs[i] - lo);
    }
    SpanCombines(lo, hi, p, q, r);
    hide Span;
    AverageCombine(xs, alpha, Span(lo, hi), Square, Id, p, q, r);
    AverageNonNegative(xs, alpha, Span(lo, hi));
    SpanArithmetic(Average(xs, alpha, Span(lo, hi)), Average(xs, alpha, Id), Average(xs, alpha, Square), Average(xs, alpha, One),
      lo, hi, p, q, r);
  }

  lemma SpanArithmetic(avg: real, m: real, s2: real, one: real, lo: real, hi: real, p: real, q: real, r: real)
    requires p == -1.0 && q == hi + lo && r == -(hi * lo) && one == 1.0
    requires avg == p * s2 + q * m + r * one && avg >= 0.0
    ensures s2 - m * m <= (hi - m) * (m - lo)
  {
    assert (hi - m) * (m - lo) == (hi + lo) * m - hi * lo - m * m;
  }

  // ----- flagging

  // |z| > 3 with z = (value - ema) / sqrt(variance + epsilon), squared to avoid the root.
  predicate Flagged(s: Stats, value: real) {
    s.count >= 5 && (value - s.ema) * (value - s.ema) > 9.0 * (s.variance + EPSILON)
  }

  /** In the source's terms: from the fifth sample on, the z-score with the square root of the
      variance plus a millionth exceeds three in size. */
  lemma FlaggedIsZScore(s: Stats, value: real, root: real)
    requires root > 0.0 && Square(root) == s.variance + 0.000001
    ensures var z := (value - s.ema) / root;
      Flagged(s, value) <==> s.count >= 5 && (z > 3.0 || z < -3.0)
  {
    hide Square;
    var (d, z) := (value - s.ema, (value - s.ema) / root);
    Back(d, root);
    SquareOfProduct(z, root);
    EqualSquares(z * root, d);
    FlaggedBySquare(s, value);
    ThreeSquared(z, root);
  }

  lemma Back(d: real, root: real)
    requires root != 0.0
    ensures d / root * root == d
  {
  }

  lemma SquareOfProduct(z: real, r: real)
    ensures Square(z * r) == Square(z) * Square(r)
  {
  }

  lemma EqualSquares(x: real, y: real)
    requires x == y
    ensures Square(x) == Square(y)
  {
  }

  lemma FlaggedBySquare(s: Stats, value: real)
    ensures Flagged(s, value) <==> s.count >= 5 && Square(value - s.ema) > 9.0 * (s.variance + EPSILON)
  {
  }

  lemma ThreeSquared(z: real, root: real)
    requires root > 0.0
    ensures Square(z) * Square(root) > 9.0 * Square(root) <==> z > 3.0 || z < -3.0
  {
    SquarePositive(root);
    BeyondThree(z);
    hide Square;
    if Square(z) > 9.0 {
      ProductStrictOrder(9.0, Square(z), Square(root));
    } else {
      ProductOrder(Square(z), 9.0, Square(root));
    }
  }

  lemma SquarePositive(x: real)
    requires x > 0.0
    ensures Square(x) > 0.0
  {
    ProductPositive(x, x, Square(x));
  }

  lemma BeyondThree(z: real)
    ensures Square(z) > 9.0 <==> z > 3.0 || z < -3.0
  {
    if z > 3.0 {
      ProductStrictOrder(3.0, z, z);
    } else if z < -3.0 {
      ProductStrictOrder(3.0, -z, -z);
    } else {
      ProductNonNegative(3.0 - z, 3.0 + z);
    }
  }

  function Indicator(s: Stats): real -> real {
    x => if (x - s.ema) * (x - s.ema) > 9.0 * (s.variance + EPSILON) then 1.0 else 0.0
  }

  /** The samples of a history that its own baseline would flag carry less than a ninth of the
      weight. */
  lemma FlaggedSamplesAreRare(xs: seq<real>, alpha: real)
    requires xs != [] && 0.0 < alpha <= 1.0
    ensures Average(xs, alpha, Indicator(StatsOf(xs, alpha))) < 1.0 / 9.0
  {
    hide StatsOf, Average;
    var s := StatsOf(xs, alpha);
    StateIsWeightedVariance(xs, alpha);
    var (dev, flag, bound) := (SquareFrom(s.ema), Indicator(s), 9.0 * (s.variance + EPSILON));
    forall i | 0 <= i < |xs|
      ensures dev(xs[i]) >= 0.0
    {
      SquareNonNegative(xs[i] - s.ema);
    }
    AverageNonNegative(xs, alpha, dev);
    var rest := (x: real) => dev(x) - bound * flag(x);
    var q := -bound;
    assert AllCombine(rest, dev, flag, 1.0, q, 0.0);
    AverageCombine(xs, alpha, rest, dev, flag, 1.0, q, 0.0);
    forall i | 0 <= i < |xs|
      ensures rest(xs[i]) >= 0.0
    {
      SquareNonNegative(xs[i] - s.ema);
    }
    AverageNonNegative(xs, alpha, rest);
    LessThanNinth(Average(xs, alpha, flag), s.variance);
  }

  lemma LessThanNinth(w: real, v: real)
    requires v >= 0.0 && v + (-(9.0 * (v + EPSILON))) * w >= 0.0
    ensures w < 1.0 / 9.0
  {
    var k := v + EPSILON;
    AtLeastOnce(k, 9.0 * w);
    assert k * (9.0 * w) == (9.0 * k) * w;
  }

  lemma AtLeastOnce(k: real, x: real)
    requires k > 0.0
    ensures x >= 1.0 ==> k * x >= k
  {
    if x >= 1.0 {
      ProductNonNegative(k, x - 1.0);
      assert k * (x - 1.0) == k * x - k;
    }
  }

  lemma JustSeenArithmetic(v: real, d: real, a: real)
    requires v >= 0.0 && 0.1 <= a <= 1.0
    ensures ((1.0 - a) * d) * ((1.0 - a) * d) <= 9.0 * ((1.0 - a) * (v + a * d * d))
  {
    SquareNonNegative(d);
    ProductNonNegative(1.0 - a, v);
    ProductNonNegative(1.0 - a, d * d);
    var e := (1.0 - a) * (d * d);
    assert ((1.0 - a) * d) * ((1.0 - a) * d) == (1.0 - a) * e;
    assert (1.0 - a) * (v + a * d * d) == (1.0 - a) * v + a * e;
    ProductNonNegative(10.0 * a - 1.0, e);
  }

  lemma UpdatedIsNeverFlagged(s: Stats, value: real, alpha: real)
    requires s.variance >= 0.0 && 0.1 <= alpha <= 1.0
    ensures !Flagged(Updated(s, value, alpha), value)
  {
    var d := value - s.ema;
    assert value - Updated(s, value, alpha).ema == (1.0 - alpha) * d by {
      assert (1.0 - alpha) * d == d - alpha * d;
    }
    JustSeenArithmetic(s.variance, d, alpha);
  }

  // A new prefix's fifth sample at the earliest can be flagged; four zeros leave the plainest state.
  lemma FourZeros(alpha: real)
    ensures StatsOf([0.0, 0.0, 0.0, 0.0], alpha) == Stats(0.0, 0.0, 4)
  {
    hide StatsOf;
    StatsOfOne(0.0, alpha);
    StatsPush([0.0], 0.0, alpha);
    StatsPush([0.0, 0.0], 0.0, alpha);
    StatsPush([0.0, 0.0, 0.0], 0.0, alpha);
    assert [0.0] + [0.0] == [0.0, 0.0] && [0.0, 0.0] + [0.0] == [0.0, 0.0, 0.0];
    assert [0.0, 0.0, 0.0] + [0.0] == [0.0, 0.0, 0.0, 0.0];
  }

  // The detector folds a value in first and looks for an anomaly afterwards.
  ghost predicate FlaggedOnceSeen(history: seq<real>, value: real, alpha: real) {
    Flagged(StatsOf(history + [value], alpha), value)
  }

  /** A value just folded in can be flagged, after some history, exactly when the smoothing
      factor is below one tenth: with the default of one tenth it never is. */
  lemma JustSeenIsFlaggedOnlyBelowATenth(alpha: real)
    requires 0.0 < alpha <= 1.0
    ensures (exists history, value :: FlaggedOnceSeen(history, value, alpha)) <==> alpha < 0.1
  {
    if alpha >= 0.1 {
      forall history, value
        ensures !FlaggedOnceSeen(history, value, alpha)
      {
        NeverFlaggedOnceSeen(history, value, alpha);
      }
    } else {
      var value := SmallerFactorCanFlag(alpha);
      FourZeros(alpha);
      StatsPush([0.0, 0.0, 0.0, 0.0], value, alpha);
      assert FlaggedOnceSeen([0.0, 0.0, 0.0, 0.0], value, alpha);
    }
  }

  lemma NeverFlaggedOnceSeen(history: seq<real>, value: real, alpha: real)
    requires 0.1 <= alpha <= 1.0
    ensures !FlaggedOnceSeen(history, value, alpha)
  {
    hide Flagged, Updated, StatsOf, Average;
    if history == [] {
      assert history + [value] == [value];
      StatsOfOne(value, alpha);
      FirstIsNeverFlagged(value);
    } else {
      StatsPush(history, value, alpha);
      StateIsWeightedVariance(history, alpha);
      DeviationNonNegative(history, alpha, StatsOf(history, alpha).ema);
      UpdatedIsNeverFlagged(StatsOf(history, alpha), value, alpha);
    }
  }

  lemma FirstIsNeverFlagged(value: real)
    ensures !Flagged(First(value), value)
  {
  }

  lemma SmallerFactorCanFlag(alpha: real) returns (value: real)
    requires 0.0 < alpha < 0.1
    ensures Flagged(Updated(Stats(0.0, 0.0, 4), value, alpha), value)
  {
    var k := (1.0 - alpha) * (1.0 - 10.0 * alpha);
    assert k > 0.0;
    var bound := 9.0 * EPSILON / k;
    value := 1.0 + bound;
    assert k * bound == 9.0 * EPSILON && bound > 0.0;
    BigEnough(value, k, bound);
    FlagArithmetic(value, alpha);
  }

  lemma BigEnough(value: real, k: real, bound: real)
    requires value == 1.0 + bound && bound > 0.0 && k > 0.0
    ensures k * (value * value) > k * bound
  {
    assert value * value == 1.0 + 2.0 * bound + bound * bound;
    ProductNonNegative(bound, bound);
    assert k * (value * value - bound) > 0.0;
  }

  lemma FlagArithmetic(x: real, a: real)
    ensures var y := x - (0.0 + a * (x - 0.0));
      y * y - 9.0 * ((1.0 - a) * (0.0 + a * (x - 0.0) * (x - 0.0))) == ((1.0 - a) * (1.0 - 10.0 * a)) * (x * x)
  {
    var s := x * x;
    assert (x - a * x) * (x - a * x) == s - 2.0 * a * s + a * a * s;
    assert (1.0 - a) * (a * x * x) == a * s - a * a * s;
    assert ((1.0 - a) * (1.0 - 10.0 * a)) * s == s - 11.0 * a * s + 10.0 * a * a * s;
  }

  // ----- confidence

  // +0.1 for an anomalous path length, +0.05 for an unusual prefix length, -0.1 for a well-known AS.
  function Boost(anomalous: bool, unusual: bool, wellKnown: bool): real {
    var boost := (if anomalous then 0.1 else 0.0) + (if unusual then 0.05 else 0.0) - (if wellKnown then 0.1 else 0.0);
    Clamp(boost, -0.15, 0.15)
  }

  function Clamp(x: real, lo: real, hi: real): real {
    if x < lo then lo else if x > hi then hi else x
  }

  function Enhance(base: real, boost: real): real {
    Clamp(base + boost, 0.0, 1.0)
  }

  /** The whole table of the boost, and what it does to a confidence: it is added, and the sum
      is kept between zero and one. */
  lemma BoostTable(base: real, boost: real)
    ensures Boost(true, true, false) == 0.15 && Boost(true, false, false) == 0.1 && Boost(false, true, false) == 0.05
    ensures Boost(false, false, false) == 0.0 && Boost(true, true, true) == 0.05 && Boost(true, false, true) == 0.0
    ensures Boost(false, true, true) == -0.05 && Boost(false, false, true) == -0.1
    ensures 0.0 <= Enhance(base, boost) <= 1.0
    ensures 0.0 <= base + boost <= 1.0 <==> Enhance(base, boost) == base + boost
  {
  }

  // The boost of AnomalyDetector::check for one more length of a prefix's history.
  function CheckedBoost(history: seq<real>, length: real, alpha: real, unusual: bool, wellKnown: bool): real {
    Boost(Flagged(StatsOf(history + [length], alpha), length), unusual, wellKnown)
  }

  /** In the detector the path-length term is therefore dead: the boost depends on the other
      two features alone, and a hijack's 0.85 becomes one of 0.75, 0.80, 0.85 and 0.90. */
  lemma DetectorBoostIgnoresPathLength(history: seq<real>, length: real, alpha: real, unusual: bool, wellKnown: bool)
    requires 0.1 <= alpha <= 1.0
    ensures CheckedBoost(history, length, alpha, unusual, wellKnown) ==
            (if unusual then 0.05 else 0.0) - (if wellKnown then 0.1 else 0.0)
    ensures Enhance(0.85, CheckedBoost(history, length, alpha, unusual, wellKnown)) ==
            0.85 + (if unusual then 0.05 else 0.0) - (if wellKnown then 0.1 else 0.0)
    ensures Enhance(0.85, CheckedBoost(history, length, alpha, unusual, wellKnown)) in {0.75, 0.80, 0.85, 0.90}
  {
    hide StatsOf, Flagged;
    NeverFlaggedOnceSeen(history, length, alpha);
  }

  // ----- the objects

  class PrefixBaseline {
    var ema: real
    var varianceEma: real
    var sampleCount: nat

    ghost function State(): Stats
      reads this
    {
      Stats(ema, varianceEma, sampleCount)
    }

    constructor (initialValue: real)
      ensures State() == First(initialValue)
    {
      ema, varianceEma, sampleCount := initialValue, 0.0, 1;
    }

    method Update(value: real, alpha: real)
      modifies this
      ensures State() == Updated(old(State()), value, alpha)
    {
      var delta := value - ema;
      var incr := alpha * delta;
      ema := ema + incr;
      varianceEma := (1.0 - alpha) * (varianceEma + alpha * delta * delta);
      sampleCount := sampleCount + 1;
    }
  }

  // No two prefixes share a baseline.
  ghost predicate Separate(baselines: map<string, PrefixBaseline>) {
    forall p, q :: p in baselines && q in baselines && p != q ==> baselines[p] != baselines[q]
  }

  lemma OneMoreSeparate(baselines: map<string, PrefixBaseline>, prefix: string, baseline: PrefixBaseline)
    requires Separate(baselines) && forall p :: p in baselines ==> baselines[p] != baseline
    ensures Separate(baselines[prefix := baseline])
  {
  }

  class BaselineModel {
    const alpha: real
    var baselines: map<string, PrefixBaseline>
    // Every length each prefix was updated with.
    ghost var history: map<string, seq<real>>
    ghost var repr: set<PrefixBaseline>

    ghost predicate Holds(p: string)
      reads this, repr
    {
      && p in baselines && p in history && baselines[p] in repr
      && history[p] != [] && baselines[p].State() == StatsOf(history[p], alpha)
    }

    ghost predicate Valid()
      reads this, repr
    {
      && 0.0 < alpha <= 1.0
      && baselines.Keys == history.Keys
      && Separate(baselines)
      && forall p :: p in baselines ==> Holds(p)
    }

    constructor (alpha: real)
      requires 0.0 < alpha <= 1.0
      ensures Valid() && history == map[] && fresh(repr) && this.alpha == alpha
    {
      this.alpha := alpha;
      baselines, history, repr := map[], map[], {};
    }

    /** Each prefix's baseline is the state of that prefix's own history. */
    method Update(prefix: string, asPathLen: real)
      requires Valid()
      modifies this, repr
      ensures Valid() && fresh(repr - old(repr))
      ensures history == old(history)[prefix := (if prefix in old(history) then old(history)[prefix] else []) + [asPathLen]]
    {
      hide StatsOf;
      if prefix in baselines {
        UpdateOccupied(prefix, asPathLen);
      } else {
        InsertVacant(prefix, asPathLen);
        assert [] + [asPathLen] == [asPathLen];
      }
    }

    method UpdateOccupied(prefix: string, asPathLen: real)
      requires Valid() && prefix in baselines
      modifies this, repr
      ensures Valid() && repr == old(repr)
      ensures history == old(history)[prefix := old(history)[prefix] + [asPathLen]]
    {
      hide Updated, StatsOf;
      assert forall p :: p in baselines ==> Holds(p);
      StatsPush(history[prefix], asPathLen, alpha);
      baselines[prefix].Update(asPathLen, alpha);
      history := history[prefix := history[prefix] + [asPathLen]];
      forall p | p in baselines
        ensures Holds(p)
      {
        assert old(Holds(p));
      }
    }

    method InsertVacant(prefix: string, asPathLen: real)
      requires Valid() && prefix !in baselines
      modifies this
      ensures Valid() && fresh(repr - old(repr))
      ensures history == old(history)[prefix := [asPathLen]]
    {
      hide Updated, StatsOf, Separate;
      StatsOfOne(asPathLen, alpha);
      assert forall p :: p in baselines ==> Holds(p);
      var baseline := new PrefixBaseline(asPathLen);
      OneMoreSeparate(baselines, prefix, baseline);
      baselines := baselines[prefix := baseline];
      history := history[prefix := [asPathLen]];
      repr := repr + {baseline};
      forall p | p in baselines
        ensures Holds(p)
      {
        if p != prefix {
          assert old(Holds(p));
        }
      }
    }
  }
}
