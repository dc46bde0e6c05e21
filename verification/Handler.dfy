/** Answering a request for an external metric: get_external_metric in src/webhook/metrics/handlers.rs. */
module Handler {
  import opened Wrappers
  import opened Samples
  import opened Store
  import opened Aggregation
  import opened MetricName
  import opened Rendezvous
  import opened Ownership
  import Sums
  import Transitions
  import Forwarding

  const CACHE_TTL: nat := 10_000
  const INT64_MAX: int := 0x7FFF_FFFF_FFFF_FFFF
  const INT64_LIMIT: real := 0x8000_0000_0000_0000 as real

  type Int64 = n: int | -INT64_MAX - 1 <= n <= INT64_MAX

  /** The reported whole number: the value rounded towards zero, or the nearest 64-bit bound. */
  function Reported(value: real): (n: Int64)
    ensures value >= INT64_LIMIT ==> n == INT64_MAX
    ensures value <= -INT64_LIMIT ==> n == -INT64_MAX - 1
    ensures 0.0 <= value < INT64_LIMIT ==> 0 <= n && n as real <= value < n as real + 1.0
    ensures -INT64_LIMIT < value <= 0.0 ==> n <= 0 && n as real - 1.0 < value <= n as real
  {
    if value >= INT64_LIMIT then INT64_MAX
    else if value <= -INT64_LIMIT then -INT64_MAX - 1
    else if value >= 0.0 then value.Floor
    else -(-value).Floor
  }

  /** A larger value never reports a smaller number. */
  lemma ReportedIsMonotone(value: real, other: real)
    requires value <= other
    ensures Reported(value) <= Reported(other)
  {
  }

  /** Local processing: the cached value while it is valid, else a fresh aggregation, which is cached
      when some pod contributed.  `listed` is the enumeration of the metric's windows. */
  function Answer(v: StoreView, metric: CacheKey, listed: seq<PodSamples>, now: nat)
    : (StoreView, Result<Int64, ApiError>)
  {
    var cached := Cached(v, metric, now);
    if cached.Some? then (v, Success(Reported(cached.value)))
    else if listed == [] then (v, Failure(MetricUnavailable))
    else
      var (value, pods) := Aggregate(listed, ConfigOf(v, metric));
      if pods == 0 then (v, Failure(MetricUnavailable))
      else (WithCached(v, metric, value, CACHE_TTL, now), Success(Reported(value)))
  }

  /** The answer does not depend on the order in which the windows are listed. */
  lemma AnswerIgnoresOrder(v: StoreView, metric: CacheKey, listed: seq<PodSamples>, other: seq<PodSamples>, now: nat)
    requires Lists(listed, v, metric) && Lists(other, v, metric)
    ensures listed == [] <==> other == []
    ensures Answer(v, metric, listed, now) == Answer(v, metric, other, now)
  {
    ListingsAgree(listed, other, v, metric);
    Sums.SameLength(listed, other);
    AggregateIgnoresOrder(listed, other, ConfigOf(v, metric));
  }

  /** The answer over the current windows, in whatever order they are listed. */
  ghost predicate Answers(v: StoreView, metric: CacheKey, now: nat, v': StoreView, r: Result<Int64, ApiError>) {
    exists listed :: Lists(listed, v, metric) && (v', r) == Answer(v, metric, listed, now)
  }

  lemma ListingExists(v: StoreView, metric: CacheKey) returns (listed: seq<PodSamples>)
    ensures Lists(listed, v, metric)
  {
    listed := ListingOf(v, metric, v.windows.Keys);
    assert forall k | k in v.windows.Keys :: k in v.windows;
  }

  lemma ListingOf(v: StoreView, metric: CacheKey, keys: set<SampleKey>) returns (listed: seq<PodSamples>)
    requires keys <= v.windows.Keys
    ensures forall i, j | 0 <= i < j < |listed| :: listed[i].0 != listed[j].0
    ensures forall w | w in listed ::
      KeyFor(metric, w.0) in keys && v.windows[KeyFor(metric, w.0)].samples == w.1
    ensures forall k | k in keys && k == KeyFor(metric, k.podName) :: (k.podName, v.windows[k].samples) in listed
  {
    if keys == {} {
      listed := [];
    } else {
      var k :| k in keys;
      listed := ListingOf(v, metric, keys - {k});
      if k == KeyFor(metric, k.podName) {
        listed := listed + [(k.podName, v.windows[k].samples)];
      }
    }
  }

  method AnswerLocally(store: MetricsStore, metric: CacheKey, now: nat) returns (r: Result<Int64, ApiError>)
    requires store.Valid()
    modifies store`cache
    ensures store.Valid()
    ensures Answers(old(store.View()), metric, now, store.View(), r)
  {
    var cached := store.GetCached(metric, now);
    if cached.Some? {
      ghost var listed := ListingExists(store.View(), metric);
      assert (store.View(), Success(Reported(cached.value))) == Answer(store.View(), metric, listed, now);
      return Success(Reported(cached.value));
    }
    r := AnswerFresh(store, metric, now);
  }

  method AnswerFresh(store: MetricsStore, metric: CacheKey, now: nat) returns (r: Result<Int64, ApiError>)
    requires Cached(store.View(), metric, now) == None
    requires store.Valid()
    modifies store`cache
    ensures store.Valid()
    ensures Answers(old(store.View()), metric, now, store.View(), r)
  {
    ghost var v := store.View();
    var value, pods, listed := Recompute(store, metric);
    if pods == 0 {
      r := Failure(MetricUnavailable);
    } else {
      store.CacheResult(metric, value, CACHE_TTL, now);
      r := Success(Reported(value));
    }
    assert (store.View(), r) == Answer(v, metric, listed, now);
  }

  /** The aggregation over the current windows; no windows count as no contributing pods. */
  method Recompute(store: MetricsStore, metric: CacheKey)
    returns (value: real, pods: nat, ghost listed: seq<PodSamples>)
    requires store.Valid()
    ensures Lists(listed, store.View(), metric)
    ensures (value, pods) == Aggregate(listed, ConfigOf(store.View(), metric))
  {
    var windows := store.GetWindows(metric);
    listed := Contents(windows);
    if windows == [] {
      return 0.0, 0, listed;
    }
    value, pods := AggregateMetric(windows, store.GetMetricConfig(metric));
  }

  /** Local processing after a failed forward: only when there is local data. */
  method AnswerUnforwarded(store: MetricsStore, metric: CacheKey, now: nat) returns (r: Result<Int64, ApiError>)
    requires store.Valid()
    modifies store`cache
    ensures store.Valid()
    ensures AnswersIfAny(old(store.View()), metric, now, store.View(), r)
  {
    var windows := store.GetWindows(metric);
    assert windows == [] <==> Contents(windows) == [];
    EmptyListing(store.View(), metric, Contents(windows));
    if windows == [] {
      return Failure(MetricUnavailable);
    }
    r := AnswerLocally(store, metric, now);
  }

  /** The local answer if the metric has a window, else unavailable. */
  ghost predicate AnswersIfAny(v: StoreView, metric: CacheKey, now: nat, v': StoreView, r: Result<Int64, ApiError>) {
    if NoWindows(v, metric) then r == Failure(MetricUnavailable) && v' == v
    else Answers(v, metric, now, v', r)
  }

  ghost predicate NoWindows(v: StoreView, metric: CacheKey) {
    forall k | k in v.windows :: k != KeyFor(metric, k.podName)
  }

  lemma EmptyListing(v: StoreView, metric: CacheKey, listed: seq<PodSamples>)
    requires Lists(listed, v, metric)
    ensures listed == [] <==> NoWindows(v, metric)
  {
    if listed != [] {
      assert listed[0] in listed;
    }
  }

  // ---- what the local answer is ----

  /** A valid cached value is the answer; else the sum over the windows, cached for ten seconds, if some pod
      contributes to it; else the metric is unavailable. */
  lemma LocalAnswer(v: StoreView, metric: CacheKey, now: nat, v': StoreView, r: Result<Int64, ApiError>,
                    listed: seq<PodSamples>)
    requires Answers(v, metric, now, v', r) && Lists(listed, v, metric)
    ensures var cached, aggregation := Cached(v, metric, now), ConfigOf(v, metric);
      var total := Aggregate(listed, aggregation).0;
      if cached.Some? then r == Success(Reported(cached.value)) && v' == v
      else if forall i | 0 <= i < |listed| :: PodValue(listed[i].1, aggregation) == None then
        r == Failure(MetricUnavailable) && v' == v
      else
        && r == Success(Reported(total))
        && v' == StoreView(v.windows, v.cache[metric := CachedAggregation(total, now, 10_000)], v.configs)
  {
    var some :| Lists(some, v, metric) && (v', r) == Answer(v, metric, some, now);
    AnswerIgnoresOrder(v, metric, some, listed, now);
    CountedIffContributing(listed, ConfigOf(v, metric));
  }

  /** After a failed forward a metric without windows is unavailable, whatever the cache holds; any other is
      answered locally. */
  lemma UnforwardedAnswer(v: StoreView, metric: CacheKey, now: nat, v': StoreView, r: Result<Int64, ApiError>)
    requires AnswersIfAny(v, metric, now, v', r)
    ensures if exists pod :: SampleKey(metric.namespace, metric.epaName, metric.metricName, pod) in v.windows
      then Answers(v, metric, now, v', r)
      else r == Failure(MetricUnavailable) && v' == v
  {
    if !NoWindows(v, metric) {
      var k :| k in v.windows && k == KeyFor(metric, k.podName);
      assert SampleKey(metric.namespace, metric.epaName, metric.metricName, k.podName) in v.windows;
    }
  }

  /** What this replica decides for one EPA, in this call's iteration orders. */
  function DecisionOf(ownership: EpaOwnership, ns: string, epa: string, activeOrder: seq<string>,
                      allOrder: seq<string>, now: nat): Forwarding.Decision
    reads ownership, ownership.membership
    requires Enumerates(activeOrder, ownership.membership.active)
    requires Enumerates(allOrder, ownership.membership.active + ownership.membership.draining)
  {
    var me, previous := ownership.membership.myReplicaId, ownership.GetPreviousEpaOwner(ns, epa, allOrder);
    var serves := Transitions.ShouldServe(ownership.State(), EpaKey(ns, epa), now, me, previous);
    Forwarding.Decide(me, serves, ownership.GetEpaOwner(ns, epa, activeOrder), previous)
  }

  /** The decision by the refresh history: this replica processes the request if it has filled its window,
      remembers its loss, or owns the EPA and sees no other winner over active and draining; else the request
      goes to the elected owner, or from the elected owner to that other winner; else nowhere. */
  lemma DecisionMeans(o: EpaOwnership, ns: string, epa: string, activeOrder: seq<string>,
                      allOrder: seq<string>, now: nat)
    returns (owner: Option<string>, previous: Option<string>)
    requires o.Valid()
    requires Enumerates(activeOrder, o.membership.active)
    requires Enumerates(allOrder, o.membership.active + o.membership.draining)
    ensures Elects(owner, o.membership.active, ns, epa)
    ensures Elects(previous, o.membership.active + o.membership.draining, ns, epa)
    ensures var me, key := o.membership.myReplicaId, ns + "/" + epa;
      var serves :=
        || Transitions.FilledWindow(o.history, key, now)
        || Transitions.RemembersLoss(o.history, key)
        || (Transitions.Owning(o.history, key) && (previous == None || previous == Some(me)));
      Forwarding.Routes(DecisionOf(o, ns, epa, activeOrder, allOrder, now), me, serves, owner, previous)
  {
    owner, previous := o.GetEpaOwner(ns, epa, activeOrder), o.GetPreviousEpaOwner(ns, epa, allOrder);
    var me, key := o.membership.myReplicaId, EpaKey(ns, epa);
    Transitions.HistoryDecides(o.history, key, now);
    Forwarding.DecideRoutes(me, Transitions.ShouldServe(o.State(), key, now, me, previous), owner, previous);
  }

  /** Without ties it is the decision of the fleet model, to which the theorems on hops apply. */
  lemma DecisionIsNextHop(o: EpaOwnership, ns: string, epa: string, activeOrder: seq<string>, allOrder: seq<string>,
                          f: Forwarding.Fleet, owner: Option<string>, previous: Option<string>)
    requires Enumerates(activeOrder, o.membership.active)
    requires Enumerates(allOrder, o.membership.active + o.membership.draining)
    requires f.active == o.membership.active && f.draining == o.membership.draining
    requires f.key == EpaKey(ns, epa) && f.weight == WeightsFor(f.key)
    requires f.StateOf(o.membership.myReplicaId) == o.State() && Forwarding.Elected(f, owner, previous)
    ensures DecisionOf(o, ns, epa, activeOrder, allOrder, f.now)
      == Forwarding.NextHop(f, o.membership.myReplicaId, owner, previous)
  {
    Forwarding.DecisionsIgnoreOrder(f, o.membership.myReplicaId, owner, previous, activeOrder, allOrder);
  }

  /** forward(t) is what replica t answers over the network, None when the lease lookup, the request or its
      decoding fails. */
  method GetExternalMetric(ownership: EpaOwnership, store: MetricsStore, urlNamespace: string, metricName: string,
                           activeOrder: seq<string>, allOrder: seq<string>, forward: string -> Option<Int64>, now: nat)
    returns (r: Result<Int64, ApiError>)
    requires Enumerates(activeOrder, ownership.membership.active)
    requires Enumerates(allOrder, ownership.membership.active + ownership.membership.draining)
    requires store.Valid()
    modifies store`cache
    ensures store.Valid()
    ensures var parsed := ParseExternalMetricName(urlNamespace, metricName);
      if parsed.Failure? then r == Failure(BadRequest) && store.View() == old(store.View())
      else
        var metric := CacheKey(urlNamespace, parsed.value.epaName, parsed.value.metric);
        match old(DecisionOf(ownership, urlNamespace, parsed.value.epaName, activeOrder, allOrder, now))
        case Process => Answers(old(store.View()), metric, now, store.View(), r)
        case Forward(t) =>
          if forward(t).Some? then r == Success(forward(t).value) && store.View() == old(store.View())
          else AnswersIfAny(old(store.View()), metric, now, store.View(), r)
        case Fallback => AnswersIfAny(old(store.View()), metric, now, store.View(), r)
  {
    var parsed := ParseExternalMetricName(urlNamespace, metricName);
    if parsed.Failure? {
      return Failure(parsed.error);
    }
    var metric := CacheKey(urlNamespace, parsed.value.epaName, parsed.value.metric);
    var decision := DecisionOf(ownership, urlNamespace, parsed.value.epaName, activeOrder, allOrder, now);
    r := Carry(store, metric, decision, forward, now);
  }

  /** Carries out a forwarding decision. */
  method Carry(store: MetricsStore, metric: CacheKey, decision: Forwarding.Decision, forward: string -> Option<Int64>,
               now: nat)
    returns (r: Result<Int64, ApiError>)
    requires store.Valid()
    modifies store`cache
    ensures store.Valid()
    ensures match decision
      case Process => Answers(old(store.View()), metric, now, store.View(), r)
      case Forward(t) =>
        if forward(t).Some? then r == Success(forward(t).value) && store.View() == old(store.View())
        else AnswersIfAny(old(store.View()), metric, now, store.View(), r)
      case Fallback => AnswersIfAny(old(store.View()), metric, now, store.View(), r)
  {
    if decision.Process? {
      r := AnswerLocally(store, metric, now);
      return;
    }
    if decision.Forward? {
      var forwarded := forward(decision.target);
      if forwarded.Some? {
        return Success(forwarded.value);
      }
    }
    r := AnswerUnforwarded(store, metric, now);
  }
}
