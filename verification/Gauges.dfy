/** Aggregating the samples of one gauge window: src/webhook/metrics/aggregation.rs. */
module Gauges {
  import opened Samples
  import opened Sums
  import opened Counters

  function Sum(vs: seq<real>): real {
    Total(vs, (v: real) => v)
  }

  function MaxOf(vs: seq<real>): (m: real)
    requires vs != []
    ensures m in vs && forall v | v in vs :: v <= m
  {
    if |vs| == 1 then vs[0]
    else
      var rest := MaxOf(vs[1..]);
      assert vs == [vs[0]] + vs[1..];
      if rest >= vs[0] then rest else vs[0]
  }

  function MinOf(vs: seq<real>): (m: real)
    requires vs != []
    ensures m in vs && forall v | v in vs :: m <= v
  {
    if |vs| == 1 then vs[0]
    else
      var rest := MinOf(vs[1..]);
      assert vs == [vs[0]] + vs[1..];
      if rest <= vs[0] then rest else vs[0]
  }

  ghost predicate IsSorted(vs: seq<real>) {
    forall i, j | 0 <= i < j < |vs| :: vs[i] <= vs[j]
  }

  lemma ConsSorted(x: real, vs: seq<real>)
    requires IsSorted(vs) && forall v | v in multiset(vs) :: x <= v
    ensures IsSorted([x] + vs) && multiset([x] + vs) == multiset{x} + multiset(vs)
  {
    forall j | 0 <= j < |vs| ensures x <= vs[j] {
      assert vs[j] in multiset(vs);
    }
  }

  lemma SplitSorted(vs: seq<real>)
    requires vs != [] && IsSorted(vs)
    ensures IsSorted(vs[1..]) && multiset(vs) == multiset{vs[0]} + multiset(vs[1..])
    ensures forall v | v in multiset(vs) :: vs[0] <= v
  {
    assert vs == [vs[0]] + vs[1..];
    forall v | v in multiset(vs) ensures vs[0] <= v {
      var i :| 0 <= i < |vs| && vs[i] == v;
    }
  }

  function Insert(v: real, vs: seq<real>): (r: seq<real>)
    requires IsSorted(vs)
    ensures IsSorted(r) && multiset(r) == multiset{v} + multiset(vs)
  {
    if vs == [] then [v]
    else
      SplitSorted(vs);
      if v <= vs[0] then ConsSorted(v, vs); [v] + vs
      else
        var rest := Insert(v, vs[1..]);
        ConsSorted(vs[0], rest);
        [vs[0]] + rest
  }

  /** Any sort will do: a sorted rearrangement is unique (SortedIsUnique). */
  function Sorted(vs: seq<real>): (r: seq<real>)
    ensures IsSorted(r) && multiset(r) == multiset(vs) && |r| == |vs|
  {
    if vs == [] then []
    else
      assert vs == [vs[0]] + vs[1..];
      var r := Insert(vs[0], Sorted(vs[1..]));
      assert |r| == |multiset(r)| && |vs| == |multiset(vs)|;
      r
  }

  function MedianOfSorted(vs: seq<real>): real
    requires vs != []
  {
    var mid := |vs| / 2;
    if |vs| % 2 == 0 then (vs[mid - 1] + vs[mid]) / 2.0 else vs[mid]
  }

  /** aggregate_samples on the sample values. */
  function Aggregate(vs: seq<real>, aggregation: AggregationType): real {
    if vs == [] then 0.0
    else match aggregation
      case Avg => Sum(vs) / |vs| as real
      case Max => MaxOf(vs)
      case Min => MinOf(vs)
      case Median => MedianOfSorted(Sorted(vs))
      case Last => vs[|vs| - 1]
  }

  // ---- the median ----

  lemma {:induction false} SortedIsUnique(a: seq<real>, b: seq<real>)
    requires IsSorted(a) && IsSorted(b) && multiset(a) == multiset(b)
    ensures a == b
    decreases |a|
  {
    SameLength(a, b);
    if a != [] {
      SameHead(a, b);
      SortedIsUnique(a[1..], b[1..]);
      assert a == [a[0]] + a[1..] && b == [b[0]] + b[1..];
    }
  }

  lemma SameHead(a: seq<real>, b: seq<real>)
    requires a != [] && b != [] && IsSorted(a) && IsSorted(b) && multiset(a) == multiset(b)
    ensures a[0] == b[0] && IsSorted(a[1..]) && IsSorted(b[1..])
    ensures multiset(a[1..]) == multiset(b[1..])
  {
    SplitSorted(a);
    SplitSorted(b);
    assert a[0] in multiset(a) && b[0] in multiset(b);
    assert multiset(a[1..]) == multiset(a) - multiset{a[0]};
    assert multiset(b[1..]) == multiset(b) - multiset{b[0]};
  }

  lemma {:induction false} AllSatisfy(vs: seq<real>, p: real -> bool)
    requires forall i | 0 <= i < |vs| :: p(vs[i])
    ensures Count(vs, p) == |vs|
  {
    if vs != [] { AllSatisfy(vs[1..], p); }
  }

  /** A stretch of k elements that satisfy p is a lower bound on how many do. */
  lemma CountStretch(vs: seq<real>, lo: nat, hi: nat, p: real -> bool)
    requires lo <= hi <= |vs| && forall i | lo <= i < hi :: p(vs[i])
    ensures Count(vs, p) >= hi - lo
  {
    assert vs == vs[..lo] + (vs[lo..hi] + vs[hi..]);
    CountConcat(vs[..lo], vs[lo..hi] + vs[hi..], p);
    CountConcat(vs[lo..hi], vs[hi..], p);
    AllSatisfy(vs[lo..hi], p);
  }

  function AtMost(m: real): real -> bool {
    (v: real) => v <= m
  }

  function AtLeast(m: real): real -> bool {
    (v: real) => v >= m
  }

  lemma SortedMedianSplits(s: seq<real>)
    requires s != [] && IsSorted(s)
    ensures var m := MedianOfSorted(s); s[0] <= m <= s[|s| - 1]
    ensures var m := MedianOfSorted(s); 2 * Count(s, AtMost(m)) >= |s| && 2 * Count(s, AtLeast(m)) >= |s|
  {
    var m, mid := MedianOfSorted(s), |s| / 2;
    if |s| % 2 == 0 {
      assert s[mid - 1] <= m <= s[mid];
      CountStretch(s, 0, mid, AtMost(m));
      CountStretch(s, mid, |s|, AtLeast(m));
    } else {
      CountStretch(s, 0, mid + 1, AtMost(m));
      CountStretch(s, mid, |s|, AtLeast(m));
    }
  }

  /** At least half of the samples are at most the median and at least half are at least it; it lies
      between the extremes. */
  lemma MedianIsMedian(vs: seq<real>)
    requires vs != []
    ensures var m := Aggregate(vs, Median);
      && 2 * Count(vs, AtMost(m)) >= |vs| && 2 * Count(vs, AtLeast(m)) >= |vs|
      && Aggregate(vs, Min) <= m <= Aggregate(vs, Max)
  {
    var s := Sorted(vs);
    var m := MedianOfSorted(s);
    SortedMedianSplits(s);
    CountIgnoresOrder(s, vs, AtMost(m));
    CountIgnoresOrder(s, vs, AtLeast(m));
    SameElement(s, vs, s[0]);
    SameElement(s, vs, s[|s| - 1]);
  }

  lemma SameElement(a: seq<real>, b: seq<real>, x: real)
    requires multiset(a) == multiset(b)
    ensures x in a <==> x in b
  {
    assert x in a <==> x in multiset(a);
    assert x in b <==> x in multiset(b);
  }

  /** No reordering of the samples changes the median, nor does the choice of the sort. */
  lemma MedianIgnoresOrder(vs: seq<real>, other: seq<real>)
    requires vs != [] && multiset(vs) == multiset(other)
    ensures other != [] && Aggregate(other, Median) == Aggregate(vs, Median)
    ensures IsSorted(other) ==> MedianOfSorted(other) == Aggregate(vs, Median)
  {
    SameLength(vs, other);
    SortedIsUnique(Sorted(vs), Sorted(other));
    if IsSorted(other) { SortedIsUnique(Sorted(vs), other); }
  }

  function Mirror(vs: seq<real>): (r: seq<real>)
    ensures |r| == |vs| && forall i | 0 <= i < |r| :: r[i] == -vs[|vs| - 1 - i]
  {
    seq(|vs|, i requires 0 <= i < |vs| => -vs[|vs| - 1 - i])
  }

  /** The median treats both sides alike: mirroring a sorted series about zero negates it. */
  lemma MirroredMedian(s: seq<real>)
    requires s != [] && IsSorted(s)
    ensures IsSorted(Mirror(s)) && MedianOfSorted(Mirror(s)) == -MedianOfSorted(s)
  {
    var n, m, mid := |s|, Mirror(s), |s| / 2;
    forall i, j | 0 <= i < j < n ensures m[i] <= m[j] {
      assert s[n - 1 - j] <= s[n - 1 - i];
    }
    if n % 2 == 0 {
      assert m[mid] == -s[mid - 1] && m[mid - 1] == -s[mid];
    } else {
      assert m[mid] == -s[mid];
    }
  }

  // ---- the average ----

  lemma {:induction false} SumBounds(vs: seq<real>, lo: real, hi: real)
    requires forall i | 0 <= i < |vs| :: lo <= vs[i] <= hi
    ensures |vs| as real * lo <= Sum(vs) <= |vs| as real * hi
  {
    if vs != [] {
      SumBounds(vs[1..], lo, hi);
      var n := |vs[1..]| as real;
      assert (n + 1.0) * lo == n * lo + lo && (n + 1.0) * hi == n * hi + hi;
    }
  }

  /** The average lies between the extremes. */
  lemma AverageIsBetween(vs: seq<real>)
    requires vs != []
    ensures Aggregate(vs, Min) <= Aggregate(vs, Avg) <= Aggregate(vs, Max)
  {
    var lo, hi := MinOf(vs), MaxOf(vs);
    forall i | 0 <= i < |vs| ensures lo <= vs[i] <= hi {
      assert vs[i] in vs;
    }
    SumBounds(vs, lo, hi);
    QuotientBetween(Sum(vs), |vs| as real, lo, hi);
  }

  /** As many averages as there are samples make up their sum, and their order is irrelevant. */
  lemma AverageSharesTheSum(vs: seq<real>, other: seq<real>)
    requires multiset(vs) == multiset(other)
    ensures vs != [] ==> Aggregate(vs, Avg) * |vs| as real == Sum(other)
    ensures Aggregate(other, Avg) == Aggregate(vs, Avg)
  {
    SameLength(vs, other);
    TotalIgnoresOrder(vs, other, (v: real) => v);
  }

  lemma QuotientBetween(x: real, n: real, lo: real, hi: real)
    requires n > 0.0 && n * lo <= x <= n * hi
    ensures lo <= x / n <= hi
  {
    assert (x / n) * n == x;
  }
  // ---- all aggregations ----

  /** x summarizes the values vs as the aggregation type says; `sorted` is a sorted rearrangement of them. */
  ghost predicate Summarizes(x: real, vs: seq<real>, aggregation: AggregationType, sorted: seq<real>)
    requires vs != []
  {
    var n := |vs|;
    |sorted| == n &&
    match aggregation
    case Max => x in vs && forall v | v in vs :: v <= x
    case Min => x in vs && forall v | v in vs :: x <= v
    case Last => x == vs[n - 1]
    case Avg => x * n as real == Sum(vs)
    case Median =>
      && x + x == sorted[(n - 1) / 2] + sorted[n / 2]
      && 2 * Count(vs, AtMost(x)) >= n && 2 * Count(vs, AtLeast(x)) >= n
  }

  lemma AggregateSummarizes(vs: seq<real>, aggregation: AggregationType, sorted: seq<real>)
    requires vs != [] && IsSorted(sorted) && multiset(sorted) == multiset(vs)
    ensures Summarizes(Aggregate(vs, aggregation), vs, aggregation, sorted)
  {
    SameLength(sorted, vs);
    match aggregation
    case Avg => AverageSharesTheSum(vs, vs);
    case Median =>
      MedianIsMedian(vs);
      MedianIgnoresOrder(vs, sorted);
      MiddleOfSorted(sorted);
    case _ =>
  }

  lemma MiddleOfSorted(s: seq<real>)
    requires s != []
    ensures MedianOfSorted(s) + MedianOfSorted(s) == s[(|s| - 1) / 2] + s[|s| / 2]
  {
  }
}
