/**
 The latency statistics of scripts/benchmark_identity_undo.py: the interpolated percentile,
 the bootstrap upper bound for any resamples drawn, and the balanced shuffled orders. Samples
 are reals.
 */
module Percentile {

  import opened PyLists
  import Sorting
  import opened Wrappers

  datatype Error = NoSample | BadQuantile | BadIterations | BadConfidence | BadPairCount

  // ---------------------------------------------------------------- sorting

  predicate Ordered(s: seq<real>) {
    forall i, j :: 0 <= i < j < |s| ==> s[i] <= s[j]
  }

  function AtMost(): (real, real) -> bool {
    (a, b) => a <= b
  }

  /** `sorted(values)`. */
  function Sorted(s: seq<real>): (r: seq<real>)
    ensures |r| == |s|
  {
    Sorting.SameLength(AtMost(), s);
    Sorting.Sort(AtMost(), s)
  }

  /** Sorting gives an ordered list with the same members, each as often. */
  lemma SortedIsOrdered(s: seq<real>)
    ensures Ordered(Sorted(s))
  {
    Sorting.SortOrder(AtMost(), s);
    assert forall i, j :: 0 <= i < j < |s| ==> AtMost()(Sorted(s)[i], Sorted(s)[j]);
  }

  lemma SortedCounts(s: seq<real>, y: real)
    ensures Count(Sorted(s), y) == Count(s, y)
  {
    Sorting.SortMembers(AtMost(), s);
    CountIsMultiplicity(Sorted(s), y);
    CountIsMultiplicity(s, y);
  }

  lemma SortedMembers(s: seq<real>, y: real)
    ensures y in Sorted(s) <==> y in s
  {
    Sorting.SameMembers(AtMost(), s, y);
  }

  /** An ordered list is determined by how often each value occurs. */
  lemma {:induction false} OrderedIsUnique(a: seq<real>, b: seq<real>)
    requires Ordered(a) && Ordered(b) && forall y :: Count(a, y) == Count(b, y)
    ensures a == b
  {
    if a == [] {
      if b != [] { CountPositive(b, b[0]); }
    } else if b == [] {
      CountPositive(a, a[0]);
    } else {
      var x, y, p, q := a[|a| - 1], b[|b| - 1], a[..|a| - 1], b[..|b| - 1];
      CountPositive(a, x);
      CountPositive(b, x);
      CountPositive(a, y);
      CountPositive(b, y);
      assert x == y;
      forall z ensures Count(p, z) == Count(q, z) {
        assert Count(a, z) == Count(b, z);
      }
      OrderedIsUnique(p, q);
      assert a == p + [x] && b == q + [y];
    }
  }

  // ---------------------------------------------------------------- interpolation

  /** Linear interpolation in an ordered list at a position between 0 and |s| - 1. */
  function Interpolated(s: seq<real>, position: real): real
    requires s != [] && 0.0 <= position <= (|s| - 1) as real
  {
    var lower := position.Floor;
    var weight := position - lower as real;
    if weight == 0.0 then s[lower] else s[lower] * (1.0 - weight) + s[lower + 1] * weight
  }

  function Position(n: nat, quantile: real): (p: real)
    requires n > 0 && 0.0 <= quantile <= 1.0
    ensures 0.0 <= p <= (n - 1) as real
  {
    PositionBounds((n - 1) as real, quantile);
    (n - 1) as real * quantile
  }

  function Percentile(values: seq<real>, quantile: real): (r: Result<real, Error>)
    ensures r.Ok? <==> values != [] && 0.0 <= quantile <= 1.0
  {
    if values == [] then Err(NoSample)
    else if !(0.0 <= quantile <= 1.0) then Err(BadQuantile)
    else Ok(Interpolated(Sorted(values), Position(|values|, quantile)))
  }

  lemma NonNegativeProduct(a: real, b: real)
    requires a >= 0.0 && b >= 0.0
    ensures a * b >= 0.0
  {
  }

  lemma PositionBounds(m: real, q: real)
    requires m >= 0.0 && 0.0 <= q <= 1.0
    ensures 0.0 <= m * q <= m
  {
    NonNegativeProduct(m, q);
    NonNegativeProduct(m, 1.0 - q);
    assert m * (1.0 - q) == m - m * q;
  }

  lemma PositionOrder(n: nat, p: real, q: real)
    requires n > 0 && 0.0 <= p <= q <= 1.0
    ensures Position(n, p) <= Position(n, q)
  {
    var m := (n - 1) as real;
    NonNegativeProduct(m, q - p);
    assert m * (q - p) == m * q - m * p;
  }

  /** A weighted mean lies between its ends, and moves with the weight. */
  lemma Between(a: real, b: real, w: real)
    requires a <= b && 0.0 <= w <= 1.0
    ensures a <= a * (1.0 - w) + b * w <= b
  {
    MeanOrder(a, b, 0.0, w);
    MeanOrder(a, b, w, 1.0);
  }

  lemma MeanOrder(a: real, b: real, v: real, w: real)
    requires a <= b && v <= w
    ensures a * (1.0 - v) + b * v <= a * (1.0 - w) + b * w
  {
    var d, e := b - a, w - v;
    NonNegativeProduct(d, e);
    assert d * e == (a * (1.0 - w) + b * w) - (a * (1.0 - v) + b * v);
  }

  /** The interpolated value lies between the two neighbours of its position. */
  lemma BetweenNeighbours(s: seq<real>, p: real)
    requires s != [] && Ordered(s) && 0.0 <= p <= (|s| - 1) as real
    ensures s[p.Floor] <= Interpolated(s, p)
    ensures p == p.Floor as real ==> Interpolated(s, p) == s[p.Floor]
    ensures p.Floor + 1 < |s| ==> Interpolated(s, p) <= s[p.Floor + 1]
  {
    var w := p - p.Floor as real;
    if w != 0.0 { Between(s[p.Floor], s[p.Floor + 1], w); }
  }

  lemma InterpolatedOrder(s: seq<real>, p: real, q: real)
    requires s != [] && Ordered(s) && 0.0 <= p <= q <= (|s| - 1) as real
    ensures Interpolated(s, p) <= Interpolated(s, q)
  {
    BetweenNeighbours(s, p);
    BetweenNeighbours(s, q);
    if p.Floor == q.Floor && q != q.Floor as real {
      MeanOrder(s[p.Floor], s[p.Floor + 1], p - p.Floor as real, q - p.Floor as real);
    }
  }

  // ---------------------------------------------------------------- the percentile

  ghost predicate Within(values: seq<real>, low: real, high: real) {
    forall v <- values :: low <= v <= high
  }

  lemma SortedWithin(values: seq<real>, low: real, high: real)
    requires Within(values, low, high)
    ensures forall i :: 0 <= i < |values| ==> low <= Sorted(values)[i] <= high
  {
    var s := Sorted(values);
    forall i | 0 <= i < |values| ensures low <= s[i] <= high { SortedMembers(values, s[i]); }
  }

  /** The percentile lies within every range that holds the samples, so between their minimum and maximum. */
  lemma PercentileInRange(values: seq<real>, quantile: real, low: real, high: real)
    requires values != [] && 0.0 <= quantile <= 1.0 && Within(values, low, high)
    ensures Percentile(values, quantile).Ok? && low <= Percentile(values, quantile).value <= high
  {
    var s, p := Sorted(values), Position(|values|, quantile);
    SortedIsOrdered(values);
    SortedWithin(values, low, high);
    BetweenNeighbours(s, p);
    if p.Floor + 1 >= |s| { assert p == p.Floor as real; }
  }

  /** A higher quantile never gives a lower value. */
  lemma PercentileMonotone(values: seq<real>, p: real, q: real)
    requires values != [] && 0.0 <= p <= q <= 1.0
    ensures Percentile(values, p).value <= Percentile(values, q).value
  {
    SortedIsOrdered(values);
    PositionOrder(|values|, p, q);
    InterpolatedOrder(Sorted(values), Position(|values|, p), Position(|values|, q));
  }

  /** The order of the samples does not matter. */
  lemma PercentilePermuted(a: seq<real>, b: seq<real>, quantile: real)
    requires forall y :: Count(a, y) == Count(b, y)
    ensures Percentile(a, quantile) == Percentile(b, quantile)
  {
    SortedIsOrdered(a);
    SortedIsOrdered(b);
    forall y ensures Count(Sorted(a), y) == Count(Sorted(b), y) {
      SortedCounts(a, y);
      SortedCounts(b, y);
    }
    OrderedIsUnique(Sorted(a), Sorted(b));
  }

  function UpTo(x: real): real -> bool {
    v => v <= x
  }

  /** How many samples do not exceed x. */
  function NotAbove(values: seq<real>, x: real): nat {
    Sorting.Matching(UpTo(x), values)
  }

  /** At a grid point the percentile is the k-th smallest sample. */
  lemma PercentileAtGrid(values: seq<real>, k: nat, quantile: real)
    requires k < |values| && 0.0 <= quantile <= 1.0 && (|values| - 1) as real * quantile == k as real
    ensures Percentile(values, quantile) == Ok(Sorted(values)[k])
  {
    assert Position(|values|, quantile) == k as real;
  }

  lemma WholePart(p: real, k: nat, w: real)
    requires p == k as real + w && 0.0 <= w < 1.0
    ensures p.Floor == k && p - p.Floor as real == w
  {
  }

  lemma WeightedMean(a: real, b: real, w: real)
    ensures a * (1.0 - w) + b * w == a + w * (b - a)
    ensures w == 0.0 ==> a + w * (b - a) == a
  {
  }

  lemma InterpolatedAt(s: seq<real>, k: nat, w: real, p: real, a: real, b: real)
    requires k + 1 < |s| && 0.0 <= w < 1.0 && p == k as real + w && a == s[k] && b == s[k + 1]
    ensures 0.0 <= p <= (|s| - 1) as real && Interpolated(s, p) == a + w * (b - a)
  {
    WholePart(p, k, w);
    WeightedMean(a, b, w);
  }

  /** A share w of the way between two grid points, the value is that share of the way between the two samples. */
  lemma PercentileBetween(values: seq<real>, k: nat, w: real, quantile: real, a: real, b: real)
    requires k + 1 < |values| && 0.0 <= w < 1.0 && 0.0 <= quantile <= 1.0
    requires (|values| - 1) as real * quantile == k as real + w
    requires a == Sorted(values)[k] && b == Sorted(values)[k + 1]
    ensures Percentile(values, quantile) == Ok(a + w * (b - a))
  {
    var s, p := Sorted(values), Position(|values|, quantile);
    InterpolatedAt(s, k, w, p, a, b);
    assert Percentile(values, quantile) == Ok(Interpolated(s, p));
  }

  /** When there is no percentile, and why. */
  lemma PercentileErrors(values: seq<real>, quantile: real)
    ensures Percentile(values, quantile) == Err(NoSample) <==> values == []
    ensures Percentile(values, quantile) == Err(BadQuantile) <==> values != [] && (quantile < 0.0 || quantile > 1.0)
    ensures Percentile(values, quantile).Ok? <==> values != [] && 0.0 <= quantile <= 1.0
  {
  }

  lemma SortedNotAbove(s: seq<real>, y: real)
    ensures NotAbove(Sorted(s), y) == NotAbove(s, y)
  {
    Sorting.SortMatching(AtMost(), UpTo(y), s);
  }

  lemma {:induction false} OrderedNotAbove(s: seq<real>, n: nat, y: real)
    requires Ordered(s) && n <= |s| && (n > 0 ==> s[n - 1] <= y)
    ensures NotAbove(s, y) >= n
    decreases |s|
  {
    if n < |s| {
      OrderedNotAbove(s[..|s| - 1], n, y);
    } else if n > 0 {
      OrderedNotAbove(s[..|s| - 1], n - 1, y);
    }
  }

  /**
   What a percentile promises of the samples themselves: more than a share `quantile` of the
   steps between them, that is at least floor((n - 1) q) + 1 samples, do not exceed it.
   */
  lemma PercentileCovers(values: seq<real>, quantile: real)
    requires values != [] && 0.0 <= quantile <= 1.0
    ensures NotAbove(values, Percentile(values, quantile).value) >= Position(|values|, quantile).Floor + 1
  {
    var s, p := Sorted(values), Position(|values|, quantile);
    SortedIsOrdered(values);
    BetweenNeighbours(s, p);
    OrderedNotAbove(s, p.Floor + 1, Interpolated(s, p));
    SortedNotAbove(values, Interpolated(s, p));
  }

  // ---------------------------------------------------------------- the bootstrap

  /** What `random.choices` may return, once per iteration: as many values, each one of the samples. */
  ghost predicate Draws(resamples: seq<seq<real>>, samples: seq<real>) {
    && (forall i :: 0 <= i < |resamples| ==> |resamples[i]| == |samples|)
    && (forall i :: 0 <= i < |resamples| ==> forall v <- resamples[i] :: v in samples)
  }

  function Estimates(resamples: seq<seq<real>>): (e: seq<real>)
    requires forall i :: 0 <= i < |resamples| ==> resamples[i] != []
    ensures |e| == |resamples| && forall i :: 0 <= i < |e| ==> e[i] == Percentile(resamples[i], 0.95).value
  {
    seq(|resamples|, i requires 0 <= i < |resamples| => Percentile(resamples[i], 0.95).value)
  }

  /** One draw per iteration. */
  function BootstrapUpperBound(samples: seq<real>, resamples: seq<seq<real>>, confidence: real): Result<real, Error>
    requires forall i :: 0 <= i < |resamples| ==> |resamples[i]| == |samples|
  {
    if samples == [] then Err(NoSample)
    else if resamples == [] then Err(BadIterations)
    else if !(0.0 < confidence < 1.0) then Err(BadConfidence)
    else if |samples| == 1 then Ok(samples[0])
    else Percentile(Estimates(resamples), confidence)
  }

  /** When there is no bound, and why; one sample is its own bound, whatever is drawn. */
  lemma BootstrapErrors(samples: seq<real>, resamples: seq<seq<real>>, confidence: real)
    requires forall i :: 0 <= i < |resamples| ==> |resamples[i]| == |samples|
    ensures var r := BootstrapUpperBound(samples, resamples, confidence);
            && (r == Err(NoSample) <==> samples == [])
            && (r == Err(BadIterations) <==> samples != [] && resamples == [])
            && (r == Err(BadConfidence) <==>
                  samples != [] && resamples != [] && (confidence <= 0.0 || confidence >= 1.0))
            && (r.Ok? <==> samples != [] && resamples != [] && 0.0 < confidence < 1.0)
            && (r.Ok? && |samples| == 1 ==> r.value == samples[0])
  {
  }

  /** With more samples the bound covers its share of the resamples' own 95th percentiles. */
  lemma BootstrapCovers(samples: seq<real>, resamples: seq<seq<real>>, confidence: real, tails: seq<real>)
    requires |samples| > 1 && resamples != [] && 0.0 < confidence < 1.0
    requires forall i :: 0 <= i < |resamples| ==> |resamples[i]| == |samples|
    requires |tails| == |resamples| && forall i :: 0 <= i < |tails| ==> Percentile(resamples[i], 0.95) == Ok(tails[i])
    ensures BootstrapUpperBound(samples, resamples, confidence) == Percentile(tails, confidence)
    ensures NotAbove(tails, BootstrapUpperBound(samples, resamples, confidence).value)
         >= Position(|tails|, confidence).Floor + 1
  {
    assert Estimates(resamples) == tails;
    PercentileCovers(tails, confidence);
  }

  /** Whatever is drawn, the bound lies within the range of the samples. */
  lemma BootstrapInRange(samples: seq<real>, resamples: seq<seq<real>>, confidence: real, low: real, high: real)
    requires samples != [] && resamples != [] && 0.0 < confidence < 1.0
    requires Draws(resamples, samples)
    requires Within(samples, low, high)
    ensures BootstrapUpperBound(samples, resamples, confidence).Ok?
    ensures low <= BootstrapUpperBound(samples, resamples, confidence).value <= high
  {
    var estimates := Estimates(resamples);
    forall i | 0 <= i < |estimates| ensures low <= estimates[i] <= high {
      forall v <- resamples[i] ensures low <= v <= high { assert v in samples; }
      PercentileInRange(resamples[i], 0.95, low, high);
    }
    forall v <- estimates ensures low <= v <= high {
      var i :| 0 <= i < |estimates| && estimates[i] == v;
    }
    assert samples[0] in samples;
    if |samples| > 1 { PercentileInRange(estimates, confidence, low, high); }
  }

  // ---------------------------------------------------------------- shuffled orders

  datatype Order = AB | BA

  lemma {:induction false} UpdateCount<T>(s: seq<T>, i: nat, v: T, x: T)
    requires i < |s|
    ensures Count(s[i := v], x) == Count(s, x) - (if s[i] == x then 1 else 0) + (if v == x then 1 else 0)
  {
    var init := s[..|s| - 1];
    if i < |init| {
      assert s[i := v][..|s| - 1] == init[i := v];
      UpdateCount(init, i, v, x);
    } else {
      assert s[i := v][..|s| - 1] == init;
    }
  }

  lemma SwapCount<T>(s: seq<T>, i: nat, j: nat, x: T)
    requires i < |s| && j < |s|
    ensures Count(s[i := s[j]][j := s[i]], x) == Count(s, x)
  {
    UpdateCount(s, i, s[j], x);
    UpdateCount(s[i := s[j]], j, s[i], x);
  }

  ghost predicate SameCounts<T(!new)>(a: seq<T>, b: seq<T>) {
    forall x :: Count(a, x) == Count(b, x)
  }

  lemma SwapSameCounts<T(!new)>(was: seq<T>, s: seq<T>, i: nat, j: nat)
    requires i < |s| && j < |s| && SameCounts(s, was)
    ensures SameCounts(s[i := s[j]][j := s[i]], was)
  {
    forall x ensures Count(s[i := s[j]][j := s[i]], x) == Count(was, x) { SwapCount(s, i, j, x); }
  }

  /** `random.shuffle`: from the end, each place trades with one at or before it. */
  method Shuffle<T(==,!new)>(a: array<T>, picks: seq<nat>)
    requires |picks| == a.Length && forall i :: 0 <= i < |picks| ==> picks[i] <= i
    modifies a
    ensures SameCounts(a[..], old(a[..]))
  {
    if a.Length == 0 { return; }
    for i := a.Length downto 1
      invariant SameCounts(a[..], old(a[..]))
    {
      SwapSameCounts(old(a[..]), a[..], i, picks[i]);
      ghost var before := a[..];
      a[i], a[picks[i]] := a[picks[i]], a[i];
      assert a[..] == before[i := before[picks[i]]][picks[i] := before[i]];
    }
  }

  lemma BalancedCounts(half: nat, odd: seq<Order>, x: Order)
    ensures Count(seq(half, _ => AB) + seq(half, _ => BA) + odd, x) == half + Count(odd, x)
  {
    var abs, bas := seq(half, _ => AB), seq(half, _ => BA);
    CountAll(abs, AB, x);
    CountAll(bas, BA, x);
    CountConcat(abs, bas, x);
    CountConcat(abs + bas, odd, x);
  }

  /** Both orders as often as each other, the odd one falling to the coin, whatever the shuffle. */
  method RandomizedOrders(count: int, coin: bool, picks: seq<nat>) returns (r: Result<seq<Order>, Error>)
    requires count >= 0 ==> |picks| == count
    requires forall i :: 0 <= i < |picks| ==> picks[i] <= i
    ensures count < 1 ==> r == Err(BadPairCount)
    ensures count >= 1 ==> r.Ok?
                           && Count(r.value, AB) == count / 2 + (if count % 2 == 1 && coin then 1 else 0)
                           && Count(r.value, BA) == count / 2 + (if count % 2 == 1 && !coin then 1 else 0)
  {
    if count < 1 { return Err(BadPairCount); }
    var odd: seq<Order> := if count % 2 == 1 then [if coin then AB else BA] else [];
    var orders := seq(count / 2, _ => AB) + seq(count / 2, _ => BA) + odd;
    BalancedCounts(count / 2, odd, AB);
    BalancedCounts(count / 2, odd, BA);
    var a := new Order[|orders|](i requires 0 <= i < |orders| => orders[i]);
    assert a[..] == orders;
    Shuffle(a, picks);
    return Ok(a[..]);
  }
}
