/** Sums and means of real values. */
module Means {

  function Sum(values: seq<real>): real {
    if values == [] then 0.0 else values[0] + Sum(values[1..])
  }

  function Mean(values: seq<real>): real
    requires values != []
  {
    Sum(values) / |values| as real
  }

  lemma {:induction false} SumConcat(a: seq<real>, b: seq<real>)
    ensures Sum(a + b) == Sum(a) + Sum(b)
  {
    if a == [] {
      assert a + b == b;
    } else {
      SumConcat(a[1..], b);
      assert (a + b)[1..] == a[1..] + b;
    }
  }

  lemma {:induction false} SumBetween(values: seq<real>, low: real, high: real)
    requires forall v :: v in values ==> low <= v <= high
    ensures |values| as real * low <= Sum(values) <= |values| as real * high
  {
    if values != [] {
      assert values[0] in values && forall v :: v in values[1..] ==> v in values;
      SumBetween(values[1..], low, high);
    }
  }

  lemma Unscale(n: real, x: real, y: real)
    requires n > 0.0 && n * x <= n * y
    ensures x <= y
  {
  }

  lemma MeanTimesCount(values: seq<real>)
    requires values != []
    ensures |values| as real * Mean(values) == Sum(values)
  {
  }

  /** A mean lies between any bounds of its values. */
  lemma MeanBetween(values: seq<real>, low: real, high: real)
    requires values != [] && forall v :: v in values ==> low <= v <= high
    ensures low <= Mean(values) <= high
  {
    var n := |values| as real;
    SumBetween(values, low, high);
    MeanTimesCount(values);
    Unscale(n, low, Mean(values));
    Unscale(n, Mean(values), high);
  }

  /** Means weigh their values alike: each times its number of values adds up over concatenation. */
  lemma MeansAddUp(a: seq<real>, b: seq<real>)
    requires a != [] && b != []
    ensures |a + b| as real * Mean(a + b) == |a| as real * Mean(a) + |b| as real * Mean(b)
  {
    SumConcat(a, b);
    MeanTimesCount(a);
    MeanTimesCount(b);
    MeanTimesCount(a + b);
  }
}
