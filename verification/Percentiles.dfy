/**
  Three percentile implementations over real samples, the bounded latency window that uses one of
  them, and the jitter metrics that use another.
 */
module Percentiles {
  import opened Means
  import opened Subsequences

  // ---------- Sorting ----------

  predicate Sorted(s: seq<real>) {
    |s| >= 2 ==> s[0] <= s[1] && Sorted(s[1..])
  }

  lemma {:induction false} SortedAt(s: seq<real>, i: nat, j: nat)
    requires Sorted(s) && i <= j < |s|
    ensures s[i] <= s[j]
  {
    if i > 0 {
      SortedAt(s[1..], i - 1, j - 1);
    } else if j > 0 {
      SortedAt(s[1..], 0, j - 1);
    }
  }

  function Insert(x: real, s: seq<real>): (r: seq<real>)
    ensures |r| == |s| + 1
  {
    if s == [] || x < s[0] then [x] + s else [s[0]] + Insert(x, s[1..])
  }

  function Sort(s: seq<real>): (r: seq<real>)
    ensures |r| == |s|
  {
    if s == [] then [] else Insert(s[0], Sort(s[1..]))
  }

  lemma {:induction false} InsertSorts(x: real, s: seq<real>)
    requires Sorted(s)
    ensures Sorted(Insert(x, s))
  {
    if s == [] {
    } else if x < s[0] {
      assert Insert(x, s)[1..] == s;
    } else {
      InsertSorts(x, s[1..]);
      assert Insert(x, s)[1..] == Insert(x, s[1..]);
    }
  }

  lemma {:induction false} InsertKeeps(x: real, s: seq<real>)
    ensures multiset(Insert(x, s)) == multiset(s) + multiset{x}
  {
    if s != [] && x >= s[0] {
      InsertKeeps(x, s[1..]);
      assert s == [s[0]] + s[1..];
    }
  }

  lemma {:induction false} SortSpec(s: seq<real>)
    ensures Sorted(Sort(s)) && multiset(Sort(s)) == multiset(s)
  {
    if s != [] {
      SortSpec(s[1..]);
      InsertSorts(s[0], Sort(s[1..]));
      InsertKeeps(s[0], Sort(s[1..]));
      assert s == [s[0]] + s[1..];
    }
  }

  lemma LeastFirst(a: seq<real>, b: seq<real>)
    requires Sorted(a) && a != [] && b != [] && multiset(a) == multiset(b)
    ensures a[0] <= b[0]
  {
    assert b[0] in multiset(a);
    var k :| 0 <= k < |a| && a[k] == b[0];
    SortedAt(a, 0, k);
  }

  lemma TailMultiset(a: seq<real>)
    requires a != []
    ensures multiset(a[1..]) == multiset(a) - multiset{a[0]}
  {
    assert a == [a[0]] + a[1..];
  }

  lemma {:induction false} SortedIsUnique(a: seq<real>, b: seq<real>)
    requires Sorted(a) && Sorted(b) && multiset(a) == multiset(b)
    ensures a == b
  {
    assert |multiset(a)| == |a| && |multiset(b)| == |b|;
    if a != [] {
      LeastFirst(a, b);
      LeastFirst(b, a);
      TailMultiset(a);
      TailMultiset(b);
      SortedIsUnique(a[1..], b[1..]);
      assert a == [a[0]] + a[1..] && b == [b[0]] + b[1..];
    }
  }

  // ---------- The three implementations ----------

  function Ceil(x: real): int {
    -(-x).Floor
  }

  /** Whether `x` is a position in `n` samples. */
  predicate IsPosition(n: nat, x: real) {
    n > 0 && 0.0 <= x <= (n - 1) as real
  }

  lemma FloorAndCeil(n: nat, x: real)
    requires IsPosition(n, x)
    ensures 0 <= x.Floor <= Ceil(x) < n
    ensures Ceil(x) == if x == x.Floor as real then x.Floor else x.Floor + 1
  {
  }

  function Times(d: real, x: real): real {
    d * x
  }

  lemma Scale(d: real, x: real, y: real)
    requires 0.0 <= d && x <= y
    ensures Times(d, x) <= Times(d, y)
  {
  }

  /** The position of a quantile in `n` sorted samples. */
  function Position(n: nat, q: real): (x: real)
    requires n > 0 && 0.0 <= q <= 1.0
    ensures IsPosition(n, x)
  {
    var d := (n - 1) as real;
    Scale(d, 0.0, q);
    Scale(d, q, 1.0);
    Times(d, q)
  }

  function Weigh(a: real, b: real, v: real, w: real): real {
    a * v + b * w
  }

  function MetricsAt(s: seq<real>, k: real): real
    requires IsPosition(|s|, k)
  {
    FloorAndCeil(|s|, k);
    var f, c := k.Floor, Ceil(k);
    if f == c then s[f] else Weigh(s[f], s[c], c as real - k, k - f as real)
  }

  /** benchmarks.metrics: of any values, by percent. */
  function MetricsPercentile(values: seq<real>, p: real): real
    requires 0.0 <= p <= 100.0
  {
    if values == [] then 0.0 else MetricsAt(Sort(values), Position(|values|, p / 100.0))
  }

  function Clamp(q: real): real {
    if q < 0.0 then 0.0 else if q > 1.0 then 1.0 else q
  }

  function RollingAt(s: seq<real>, position: real): real
    requires IsPosition(|s|, position)
  {
    FloorAndCeil(|s|, position);
    var lower, upper := position.Floor, Ceil(position);
    if lower == upper then s[lower]
    else
      var weight := position - lower as real;
      Weigh(s[lower], s[upper], 1.0 - weight, weight)
  }

  /** leapflow.performance: of sorted samples, by any quantile, which is clamped. */
  function RollingPercentile(s: seq<real>, quantile: real): real
    requires s != []
  {
    if |s| == 1 then s[0] else RollingAt(s, Position(|s|, Clamp(quantile)))
  }

  function RealtimeAt(s: seq<real>, position: real): real
    requires IsPosition(|s|, position)
  {
    var lower := position.Floor;
    var upper := if lower + 1 < |s| then lower + 1 else |s| - 1;
    var fraction := position - lower as real;
    Weigh(s[lower], s[upper], 1.0 - fraction, fraction)
  }

  lemma PercentPosition(n: nat, p: real)
    requires n > 0 && 0.0 <= p <= 100.0
    ensures (n - 1) as real * p / 100.0 == Position(n, p / 100.0)
  {
  }

  /** benchmarks.native.realtime_local: of any values, by percent, with the upper index cut off at the end. */
  function RealtimePercentile(values: seq<real>, percentile: real): real
    requires 0.0 <= percentile <= 100.0
  {
    if values == [] then 0.0
    else
      PercentPosition(|values|, percentile);
      RealtimeAt(Sort(values), (|values| - 1) as real * percentile / 100.0)
  }

  // ---------- The reference: linear interpolation ----------

  function Mix(a: real, b: real, w: real): real {
    a + Times(b - a, w)
  }

  lemma MixBetween(a: real, b: real, w: real)
    requires a <= b && 0.0 <= w <= 1.0
    ensures a <= Mix(a, b, w) <= b
  {
    Scale(b - a, 0.0, w);
    Scale(b - a, w, 1.0);
  }

  lemma MixGrows(a: real, b: real, v: real, w: real)
    requires a <= b && v <= w
    ensures Mix(a, b, v) <= Mix(a, b, w)
  {
    Scale(b - a, v, w);
  }

  /** The piecewise linear curve through the points `(k, s[k])`. */
  function At(s: seq<real>, x: real): real
    requires IsPosition(|s|, x)
  {
    var k := x.Floor;
    if k == |s| - 1 then s[k] else Mix(s[k], s[k + 1], x - k as real)
  }

  lemma AtOnSegment(s: seq<real>, x: real, k: nat)
    requires IsPosition(|s|, x) && Sorted(s) && k == x.Floor
    ensures s[k] <= At(s, x) && (k + 1 < |s| ==> At(s, x) <= s[k + 1])
  {
    if k + 1 < |s| {
      SortedAt(s, k, k + 1);
      MixBetween(s[k], s[k + 1], x - k as real);
    }
  }

  lemma AtIsMonotone(s: seq<real>, x: real, y: real)
    requires Sorted(s) && IsPosition(|s|, x) && IsPosition(|s|, y) && x <= y
    ensures s[0] <= At(s, x) <= At(s, y) <= Last(s)
  {
    var j, k := x.Floor, y.Floor;
    AtOnSegment(s, x, j);
    AtOnSegment(s, y, k);
    SortedAt(s, 0, j);
    if k + 1 < |s| {
      SortedAt(s, k, k + 1);
      SortedAt(s, k + 1, |s| - 1);
      if j == k { MixGrows(s[k], s[k + 1], x - k as real, y - k as real); }
    }
    if j < k { SortedAt(s, j + 1, k); }
  }

  lemma Weighted(a: real, b: real, w: real)
    ensures Weigh(a, b, 1.0 - w, w) == Mix(a, b, w)
  {
  }

  /** The curve passes through the sorted samples. */
  lemma AtSample(s: seq<real>, k: nat)
    requires k < |s|
    ensures At(s, k as real) == s[k]
  {
  }

  /** Between two neighbouring samples it is straight. */
  lemma AtMiddle(s: seq<real>, x: real, y: real)
    requires IsPosition(|s|, x) && IsPosition(|s|, y) && x.Floor == y.Floor
    ensures IsPosition(|s|, (x + y) / 2.0) && At(s, (x + y) / 2.0) == (At(s, x) + At(s, y)) / 2.0
  {
    var k, v, w := x.Floor, x - x.Floor as real, y - y.Floor as real;
    assert ((x + y) / 2.0).Floor == k;
    if k + 1 < |s| { MixMiddle(s[k], s[k + 1], v, w); }
  }

  lemma MixMiddle(a: real, b: real, v: real, w: real)
    ensures Mix(a, b, (v + w) / 2.0) == (Mix(a, b, v) + Mix(a, b, w)) / 2.0
  {
  }

  /** However the interpolation is written, it is the same curve. */
  lemma InterpolationsAgree(s: seq<real>, x: real)
    requires IsPosition(|s|, x)
    ensures MetricsAt(s, x) == RollingAt(s, x) == RealtimeAt(s, x) == At(s, x)
  {
    FloorAndCeil(|s|, x);
    var k := x.Floor;
    Weighted(s[k], s[if k + 1 < |s| then k + 1 else k], x - k as real);
  }

  lemma RollingIsInterpolation(s: seq<real>, quantile: real)
    requires s != []
    ensures RollingPercentile(s, quantile) == At(s, Position(|s|, Clamp(quantile)))
  {
    InterpolationsAgree(s, Position(|s|, Clamp(quantile)));
  }

  /** All three compute the same value. */
  lemma ImplementationsAgree(values: seq<real>, p: real)
    requires values != [] && 0.0 <= p <= 100.0
    ensures MetricsPercentile(values, p) == RollingPercentile(Sort(values), p / 100.0) == RealtimePercentile(values, p)
  {
    PercentPosition(|values|, p);
    InterpolationsAgree(Sort(values), Position(|values|, p / 100.0));
    RollingIsInterpolation(Sort(values), p / 100.0);
  }

  lemma MetricsIsMonotone(s: seq<real>, x: real, y: real)
    requires Sorted(s) && IsPosition(|s|, x) && IsPosition(|s|, y) && x <= y
    ensures s[0] <= MetricsAt(s, x) <= MetricsAt(s, y) <= Last(s)
  {
    InterpolationsAgree(s, x);
    InterpolationsAgree(s, y);
    AtIsMonotone(s, x, y);
  }

  /** A percentile lies between the least and the greatest value and grows with `p`. */
  lemma PercentileIsMonotone(values: seq<real>, p: real, q: real)
    requires values != [] && 0.0 <= p <= q <= 100.0
    ensures Sort(values)[0] <= MetricsPercentile(values, p) <= MetricsPercentile(values, q) <= Last(Sort(values))
  {
    SortSpec(values);
    var x, y := Position(|values|, p / 100.0), Position(|values|, q / 100.0);
    PositionGrows(|values|, p / 100.0, q / 100.0);
    MetricsIsMonotone(Sort(values), x, y);
  }

  lemma PositionGrows(n: nat, p: real, q: real)
    requires n > 0 && 0.0 <= p <= q <= 1.0
    ensures Position(n, p) <= Position(n, q)
  {
    Scale((n - 1) as real, p, q);
  }

  lemma RollingIsMonotone(s: seq<real>, p: real, q: real)
    requires s != [] && Sorted(s) && p <= q
    ensures s[0] <= RollingPercentile(s, p) <= RollingPercentile(s, q) <= Last(s)
  {
    RollingIsInterpolation(s, p);
    RollingIsInterpolation(s, q);
    PositionGrows(|s|, Clamp(p), Clamp(q));
    AtIsMonotone(s, Position(|s|, Clamp(p)), Position(|s|, Clamp(q)));
  }

  lemma PositionAt(n: nat)
    requires n > 0
    ensures Position(n, 0.0) == 0.0 && Position(n, 1.0) == (n - 1) as real && (n == 2 ==> Position(n, 0.5) == 0.5)
  {
  }

  lemma AtHalf(s: seq<real>)
    requires |s| == 2
    ensures 2.0 * At(s, 0.5) == s[0] + s[1]
  {
    assert (0.5).Floor == 0;
  }

  /** The least value is percentile 0, and the greatest percentile 100. */
  lemma PercentileEnds(values: seq<real>)
    requires values != []
    ensures MetricsPercentile(values, 0.0) == Sort(values)[0] && MetricsPercentile(values, 100.0) == Last(Sort(values))
  {
    var s, n := Sort(values), |values|;
    PositionAt(n);
    InterpolationsAgree(s, 0.0);
    InterpolationsAgree(s, (n - 1) as real);
    AtSample(s, 0);
    AtSample(s, n - 1);
  }

  /** The median of two values lies halfway between them. */
  lemma MedianOfTwo(values: seq<real>)
    requires |values| == 2
    ensures 2.0 * MetricsPercentile(values, 50.0) == values[0] + values[1]
  {
    var s := Sort(values);
    PositionAt(2);
    InterpolationsAgree(s, 0.5);
    AtHalf(s);
    SumSort(values);
    assert s[1..] == [s[1]] && values[1..] == [values[1]] && s[1..][1..] == [] && values[1..][1..] == [];
    assert Sum(s) == s[0] + Sum(s[1..]) && Sum(values) == values[0] + Sum(values[1..]);
    assert Sum([s[1]]) == s[1] && Sum([values[1]]) == values[1];
  }

  /** Only the values count, not their order. */
  lemma OrderDoesNotMatter(a: seq<real>, b: seq<real>, p: real)
    requires multiset(a) == multiset(b) && 0.0 <= p <= 100.0
    ensures MetricsPercentile(a, p) == MetricsPercentile(b, p)
  {
    SortSpec(a);
    SortSpec(b);
    SortedIsUnique(Sort(a), Sort(b));
  }

  // ---------- The bounded window ----------

  datatype Summary =
    Summary(count: nat, minimum: real, mean: real, p50: real, p95: real, p99: real, maximum: real)

  const NO_SAMPLES := Summary(0, 0.0, 0.0, 0.0, 0.0, 0.0, 0.0)

  lemma SortedMean(s: seq<real>)
    requires s != [] && Sorted(s)
    ensures s[0] <= Mean(s) <= Last(s)
  {
    forall x | x in s ensures s[0] <= x <= Last(s) {
      var k :| 0 <= k < |s| && s[k] == x;
      SortedAt(s, 0, k);
      SortedAt(s, k, |s| - 1);
    }
    MeanBetween(s, s[0], Last(s));
  }

  lemma {:induction false} SumInsert(x: real, s: seq<real>)
    ensures Sum(Insert(x, s)) == x + Sum(s)
  {
    if s != [] && x >= s[0] { SumInsert(x, s[1..]); }
  }

  lemma {:induction false} SumSort(s: seq<real>)
    ensures Sum(Sort(s)) == Sum(s)
  {
    if s != [] {
      SumSort(s[1..]);
      SumInsert(s[0], Sort(s[1..]));
    }
  }

  function Summarize(samples: seq<real>): Summary {
    if samples == [] then NO_SAMPLES
    else
      var s := Sort(samples);
      Summary(|s|, s[0], Mean(s), RollingPercentile(s, 0.5), RollingPercentile(s, 0.95),
              RollingPercentile(s, 0.99), Last(s))
  }

  /** The summary of the samples is ordered. */
  lemma SummaryIsOrdered(samples: seq<real>)
    ensures var r := Summarize(samples);
            && r.count == |samples|
            && r.minimum <= r.p50 <= r.p95 <= r.p99 <= r.maximum && r.minimum <= r.mean <= r.maximum
  {
    if samples != [] {
      var s := Sort(samples);
      SortSpec(samples);
      RollingIsMonotone(s, 0.5, 0.95);
      RollingIsMonotone(s, 0.95, 0.99);
      SortedMean(s);
    }
  }

  lemma SortExtremes(samples: seq<real>, x: real)
    requires x in samples
    ensures Sort(samples)[0] in samples && Last(Sort(samples)) in samples
    ensures Sort(samples)[0] <= x <= Last(Sort(samples))
  {
    var s := Sort(samples);
    SortSpec(samples);
    assert s[0] in multiset(s) && Last(s) in multiset(s) && x in multiset(s);
    var k :| 0 <= k < |s| && s[k] == x;
    SortedAt(s, 0, k);
    SortedAt(s, k, |s| - 1);
  }

  /** The extremes are samples, and bound all of them. */
  lemma SummaryExtremes(samples: seq<real>, x: real)
    requires x in samples
    ensures var r := Summarize(samples);
            r.minimum in samples && r.maximum in samples && r.minimum <= x <= r.maximum
  {
    SortExtremes(samples, x);
  }

  lemma RollingIsMetrics(samples: seq<real>, quantile: real, p: real)
    requires samples != [] && 0.0 <= p <= 100.0 && quantile == p / 100.0
    ensures RollingPercentile(Sort(samples), quantile) == MetricsPercentile(samples, p)
  {
    ImplementationsAgree(samples, p);
  }

  /** The percentiles of a summary are those the benchmark metrics compute. */
  lemma SummaryMatchesMetrics(samples: seq<real>)
    requires samples != []
    ensures var r := Summarize(samples);
            && r.p50 == MetricsPercentile(samples, 50.0) && r.p95 == MetricsPercentile(samples, 95.0)
            && r.p99 == MetricsPercentile(samples, 99.0)
  {
    RollingIsMetrics(samples, 0.5, 50.0);
    RollingIsMetrics(samples, 0.95, 95.0);
    RollingIsMetrics(samples, 0.99, 99.0);
  }

  /** The mean of a summary is that of the samples. */
  lemma SummaryMean(samples: seq<real>)
    requires samples != []
    ensures Summarize(samples).mean == Mean(samples)
  {
    SumSort(samples);
  }

  /** The last `n` of a history. */
  function Latest(history: seq<real>, n: nat): seq<real> {
    if |history| <= n then history else history[|history| - n..]
  }

  lemma LatestIsSuffix(history: seq<real>, n: nat)
    ensures |Latest(history, n)| == if |history| < n then |history| else n
    ensures history == history[..|history| - |Latest(history, n)|] + Latest(history, n)
  {
  }

  function NonNegative(x: real): real {
    if x < 0.0 then 0.0 else x
  }

  class RollingLatency {
    const capacity: nat
    var samples: seq<real>
    ghost var history: seq<real>

    /** The samples are the latest of all observations, none of them negative. */
    ghost predicate Valid()
      reads this
    {
      && capacity >= 1 && samples == Latest(history, capacity)
      && forall k :: 0 <= k < |history| ==> history[k] >= 0.0
    }

    constructor (capacity: int)
      ensures Valid() && history == [] && this.capacity == if capacity < 1 then 1 else capacity
    {
      this.capacity := if capacity < 1 then 1 else capacity;
      samples := [];
      history := [];
    }

    method Observe(duration: real)
      requires Valid()
      modifies this
      ensures Valid() && history == old(history) + [if duration < 0.0 then 0.0 else duration]
      ensures |samples| == if old(|samples|) < capacity then old(|samples|) + 1 else capacity
    {
      var sample := NonNegative(duration);
      samples := samples + [sample];
      if |samples| > capacity {
        samples := samples[1..];
      }
      history := history + [sample];
    }

    /** After any history of observations. */
    method Snapshot() returns (r: Summary)
      requires Valid()
      ensures r == Summarize(Latest(history, capacity))
      ensures r.count <= capacity
      ensures 0.0 <= r.minimum <= r.p50 <= r.p95 <= r.p99 <= r.maximum && r.minimum <= r.mean <= r.maximum
    {
      r := Summarize(samples);
      SummaryIsOrdered(samples);
      if samples != [] { SummaryExtremes(samples, samples[0]); }
    }
  }

  // ---------- Jitter ----------

  function Abs(x: real): real {
    if x < 0.0 then -x else x
  }

  function Jumps(durations: seq<real>): (diffs: seq<real>)
    ensures |diffs| == if durations == [] then 0 else |durations| - 1
  {
    if |durations| < 2 then [] else [Abs(durations[1] - durations[0])] + Jumps(durations[1..])
  }

  /** The jumps are the distances between consecutive durations. */
  lemma {:induction false} JumpsAt(durations: seq<real>, k: nat)
    requires k + 1 < |durations|
    ensures var jump, step := Jumps(durations)[k], durations[k + 1] - durations[k];
            jump >= 0.0 && (jump == step || jump == -step)
  {
    if k > 0 { JumpsAt(durations[1..], k - 1); }
  }

  function Jitter(durations: seq<real>, p: real): real
    requires 0.0 <= p <= 100.0
  {
    if |durations| < 2 then 0.0 else MetricsPercentile(Jumps(durations), p)
  }

  lemma {:induction false} JumpsAppend(s: seq<real>, x: real)
    requires s != []
    ensures Jumps(s + [x]) == Jumps(s) + [Abs(x - s[|s| - 1])]
  {
    assert (s + [x])[1..] == s[1..] + [x];
    if |s| > 1 { JumpsAppend(s[1..], x); }
  }

  lemma {:induction false} JumpsOfReversed(s: seq<real>)
    ensures multiset(Jumps(Reverse(s))) == multiset(Jumps(s))
    ensures s != [] ==> Reverse(s)[|s| - 1] == s[0]
  {
    if |s| == 1 {
      assert Reverse(s) == [s[0]];
    } else if |s| > 1 {
      JumpsOfReversed(s[1..]);
      JumpsAppend(Reverse(s[1..]), s[0]);
    }
  }

  /** The jitter percentiles are ordered and never negative. */
  lemma JitterIsOrdered(durations: seq<real>)
    ensures 0.0 <= Jitter(durations, 50.0) <= Jitter(durations, 95.0) <= Jitter(durations, 99.0)
  {
    if |durations| >= 2 {
      var diffs := Jumps(durations);
      JumpsNonNegative(durations);
      LeastIsMember(diffs);
      PercentileIsMonotone(diffs, 50.0, 95.0);
      PercentileIsMonotone(diffs, 95.0, 99.0);
    }
  }

  lemma LeastIsMember(s: seq<real>)
    requires s != []
    ensures Sort(s)[0] in s
  {
    SortSpec(s);
    assert Sort(s)[0] in multiset(s);
  }

  /** Jitter is the same when time runs backwards. */
  lemma JitterReversed(durations: seq<real>, p: real)
    requires 0.0 <= p <= 100.0
    ensures Jitter(Reverse(durations), p) == Jitter(durations, p)
  {
    if |durations| >= 2 {
      JumpsOfReversed(durations);
      OrderDoesNotMatter(Jumps(Reverse(durations)), Jumps(durations), p);
    }
  }

  lemma {:induction false} JumpsNonNegative(durations: seq<real>)
    ensures forall d :: d in Jumps(durations) ==> d >= 0.0
  {
    if |durations| >= 2 { JumpsNonNegative(durations[1..]); }
  }
}
