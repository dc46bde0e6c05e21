/** Two-stage aggregation of one metric over all pods: src/webhook/metrics/aggregation.rs. */
module Aggregation {
  import opened Wrappers
  import opened Samples
  import opened Sums
  import opened Counters
  import opened Window
  import Gauges

  function Successful(samples: seq<LabeledSample>): (r: seq<LabeledSample>)
    ensures forall s | s in r :: s in samples && s.success
  {
    if samples == [] then []
    else if samples[0].success then [samples[0]] + Successful(samples[1..])
    else Successful(samples[1..])
  }

  /** Stage one: the value of one pod's window, or None when the pod does not contribute. */
  function PodValue(samples: seq<LabeledSample>, aggregation: AggregationType): Option<real> {
    var successful := Successful(samples);
    if successful == [] then None
    else if successful[0].metricType.Counter? then CalculateRate(successful)
    else Some(Gauges.Aggregate(Values(successful), aggregation))
  }

  /** A pod and the samples of its window. */
  type PodSamples = (string, seq<LabeledSample>)

  function Term(aggregation: AggregationType): PodSamples -> real {
    (w: PodSamples) => var v := PodValue(w.1, aggregation); if v.Some? then v.value else 0.0
  }

  function Contributes(aggregation: AggregationType): PodSamples -> bool {
    (w: PodSamples) => PodValue(w.1, aggregation).Some?
  }

  /** What aggregate_metric promises: the cross-pod sum and the number of contributing pods. */
  function Aggregate(windows: seq<PodSamples>, aggregation: AggregationType): (real, nat) {
    (Total(windows, Term(aggregation)), Count(windows, Contributes(aggregation)))
  }

  function Contents(windows: seq<(string, MetricWindow)>): (r: seq<PodSamples>)
    reads set i | 0 <= i < |windows| :: windows[i].1
    ensures |r| == |windows| && forall i | 0 <= i < |r| :: r[i] == (windows[i].0, windows[i].1.samples)
  {
    if windows == [] then []
    else Contents(windows[..|windows| - 1]) + [(windows[|windows| - 1].0, windows[|windows| - 1].1.samples)]
  }

  function Identity(x: real): real {
    x
  }

  /** aggregate_metric. */
  method AggregateMetric(windows: seq<(string, MetricWindow)>, aggregation: AggregationType)
    returns (total: real, pods: nat)
    ensures (total, pods) == Aggregate(Contents(windows), aggregation)
  {
    var perPodValues: seq<real> := [];
    ghost var contents := Contents(windows);
    for i := 0 to |windows|
      invariant Total(perPodValues, Identity) == Aggregate(contents[..i], aggregation).0
      invariant |perPodValues| == Aggregate(contents[..i], aggregation).1
    {
      AggregateAppend(contents[..i], contents[i], aggregation);
      assert contents[..i + 1] == contents[..i] + [contents[i]];
      var samples := windows[i].1.samples;
      if samples == [] {
        continue;
      }
      var successful := Successful(samples);
      if successful == [] {
        continue;
      }
      var podValue: real;
      match successful[0].metricType {
        case Counter =>
          var rate := CalculateRate(successful);
          if rate == None {
            continue;
          }
          podValue := rate.value;
        case Gauge =>
          podValue := Gauges.Aggregate(Values(successful), aggregation);
      }
      TotalAppend(perPodValues, podValue, Identity);
      perPodValues := perPodValues + [podValue];
    }
    assert contents[..|windows|] == contents;
    total, pods := Total(perPodValues, Identity), |perPodValues|;
  }

  lemma AggregateAppend(windows: seq<PodSamples>, w: PodSamples, aggregation: AggregationType)
    ensures Aggregate(windows + [w], aggregation).0 == Aggregate(windows, aggregation).0 + Term(aggregation)(w)
    ensures Aggregate(windows + [w], aggregation).1
      == Aggregate(windows, aggregation).1 + if Contributes(aggregation)(w) then 1 else 0
  {
    TotalAppend(windows, w, Term(aggregation));
    CountAppend(windows, w, Contributes(aggregation));
  }

  // ---- what the two stages promise ----

  ghost predicate FirstSuccess(samples: seq<LabeledSample>, i: nat) {
    i < |samples| && samples[i].success && forall j | 0 <= j < i :: !samples[j].success
  }

  lemma {:induction false} SuccessfulStartsAt(samples: seq<LabeledSample>, i: nat)
    requires FirstSuccess(samples, i)
    ensures Successful(samples) == [samples[i]] + Successful(samples[i + 1..])
  {
    if i > 0 {
      assert !samples[0].success;
      SuccessfulStartsAt(samples[1..], i - 1);
      assert samples[1..][i..] == samples[i + 1..];
    }
  }

  /** A pod contributes exactly when its first successful sample is a gauge or a second one follows it. */
  lemma {:induction false} ContributionRule(samples: seq<LabeledSample>, aggregation: AggregationType, i: nat)
    requires FirstSuccess(samples, i)
    ensures PodValue(samples, aggregation).Some? <==>
      samples[i].metricType.Gauge? || exists j | i < j < |samples| :: samples[j].success
  {
    var later := samples[i + 1..];
    SuccessfulStartsAt(samples, i);
    SuccessfulOfNone(later);
    assert forall j | i < j < |samples| :: later[j - i - 1] == samples[j];
    assert forall k | 0 <= k < |later| :: later[k] == samples[i + 1 + k];
  }

  lemma {:induction false} SuccessfulOfNone(samples: seq<LabeledSample>)
    ensures Successful(samples) == [] <==> forall s | s in samples :: !s.success
  {
    if samples != [] {
      SuccessfulOfNone(samples[1..]);
      assert samples == [samples[0]] + samples[1..];
    }
  }

  /** Sum and count are functions of the multiset of windows: the order of enumeration is irrelevant. */
  lemma AggregateIgnoresOrder(windows: seq<PodSamples>, other: seq<PodSamples>, aggregation: AggregationType)
    requires multiset(windows) == multiset(other)
    ensures Aggregate(windows, aggregation) == Aggregate(other, aggregation)
  {
    TotalIgnoresOrder(windows, other, Term(aggregation));
    CountIgnoresOrder(windows, other, Contributes(aggregation));
  }

  /** A pod without a successful sample changes neither the sum nor the count, wherever it is enumerated. */
  lemma SilentPodChangesNothing(windows: seq<PodSamples>, i: nat, aggregation: AggregationType)
    requires i < |windows| && forall s | s in windows[i].1 :: !s.success
    ensures Aggregate(windows[..i] + windows[i + 1..], aggregation) == Aggregate(windows, aggregation)
  {
    SuccessfulOfNone(windows[i].1);
    TotalRemove(windows, i, Term(aggregation));
    CountIsTotal(windows, Contributes(aggregation));
    CountIsTotal(windows[..i] + windows[i + 1..], Contributes(aggregation));
    TotalRemove(windows, i, Indicator(Contributes(aggregation)));
  }
  // ---- the value of one pod ----

  /** The filter keeps exactly the successful samples, each as often as it occurs and in order. */
  lemma {:induction false} SuccessfulFilters(samples: seq<LabeledSample>, more: seq<LabeledSample>, s: LabeledSample)
    ensures Successful(samples + more) == Successful(samples) + Successful(more)
    ensures Successful([s]) == if s.success then [s] else []
  {
    assert [s][1..] == [];
    if samples == [] {
      assert samples + more == more;
    } else {
      SuccessfulFilters(samples[1..], more, s);
      assert (samples + more)[1..] == samples[1..] + more;
    }
  }

  /** What a gauge pod contributes: the summary, by the configured aggregation, of its successful values. */
  lemma GaugeValue(samples: seq<LabeledSample>, aggregation: AggregationType, sorted: seq<real>)
    requires Successful(samples) != [] && Successful(samples)[0].metricType.Gauge?
    requires Gauges.IsSorted(sorted) && multiset(sorted) == multiset(Values(Successful(samples)))
    ensures PodValue(samples, aggregation).Some?
    ensures Gauges.Summarizes(PodValue(samples, aggregation).value, Values(Successful(samples)), aggregation, sorted)
  {
    Gauges.AggregateSummarizes(Values(Successful(samples)), aggregation, sorted);
  }

  /** What a counter pod contributes: nothing below two successful samples, else their rate. */
  lemma CounterValue(samples: seq<LabeledSample>, aggregation: AggregationType)
    requires Successful(samples) != [] && Successful(samples)[0].metricType.Counter?
    ensures PodValue(samples, aggregation).Some? <==> |Successful(samples)| >= 2
    ensures |Successful(samples)| >= 2 ==> IsRate(PodValue(samples, aggregation).value, Successful(samples))
  {
    if |Successful(samples)| >= 2 {
      RateIsRate(Successful(samples));
    }
  }

  /** The result is built up pod by pod: each contributing one adds its value and counts once. */
  lemma AggregateOneMore(windows: seq<PodSamples>, w: PodSamples, aggregation: AggregationType)
    ensures Aggregate([], aggregation) == (0.0, 0)
    ensures var (total, pods) := Aggregate(windows, aggregation);
      Aggregate(windows + [w], aggregation) ==
        match PodValue(w.1, aggregation)
        case Some(x) => (total + x, pods + 1)
        case None => (total, pods)
  {
    AggregateAppend(windows, w, aggregation);
  }
  /** Some pod is counted exactly if some window yields a value. */
  lemma {:induction false} CountedIffContributing(windows: seq<PodSamples>, aggregation: AggregationType)
    ensures Aggregate(windows, aggregation).1 == 0 <==>
      forall i | 0 <= i < |windows| :: PodValue(windows[i].1, aggregation) == None
  {
    if windows != [] {
      var before, last := windows[..|windows| - 1], windows[|windows| - 1];
      CountedIffContributing(before, aggregation);
      AggregateAppend(before, last, aggregation);
      assert windows == before + [last];
    }
  }
}
