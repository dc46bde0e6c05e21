/** Windows, cached aggregations and metric configurations: src/store/ops.rs. */
module Store {
  import opened Wrappers
  import opened Samples
  import opened Window
  import opened Aggregation
  import Sums

  datatype WindowView = WindowView(maxSamples: nat, samples: seq<LabeledSample>)

  /** The abstract value of the store. */
  datatype StoreView = StoreView(windows: map<SampleKey, WindowView>,
                                 cache: map<CacheKey, CachedAggregation>,
                                 configs: map<CacheKey, AggregationType>)

  const EMPTY := StoreView(map[], map[], map[])

  predicate OfEpa(namespace: string, epaName: string, keyNamespace: string, keyEpa: string) {
    keyNamespace == namespace && keyEpa == epaName
  }

  function KeyFor(metric: CacheKey, podName: string): SampleKey {
    SampleKey(metric.namespace, metric.epaName, metric.metricName, podName)
  }

  /** `windows` lists the windows of one metric, each pod once, in some order. */
  ghost predicate Lists(windows: seq<PodSamples>, v: StoreView, metric: CacheKey) {
    && (forall i, j | 0 <= i < j < |windows| :: windows[i].0 != windows[j].0)
    && (forall w | w in windows ::
          KeyFor(metric, w.0) in v.windows && v.windows[KeyFor(metric, w.0)].samples == w.1)
    && (forall k | k in v.windows && k == KeyFor(metric, k.podName) ::
          (k.podName, v.windows[k].samples) in windows)
  }

  /** Two listings of a metric differ in order only. */
  lemma ListingsAgree(windows: seq<PodSamples>, other: seq<PodSamples>, v: StoreView, metric: CacheKey)
    requires Lists(windows, v, metric) && Lists(other, v, metric)
    ensures multiset(windows) == multiset(other)
  {
    forall w: PodSamples ensures w in windows <==> w in other {
      var k := KeyFor(metric, w.0);
      assert k in v.windows && v.windows[k].samples == w.1 ==> w in windows && w in other;
    }
    Sums.SameElementsSameMultiset(windows, other);
  }

  /** The window of the key, created empty with this capacity unless it exists. */
  function Created(windows: map<SampleKey, WindowView>, key: SampleKey, maxSamples: nat): map<SampleKey, WindowView> {
    if key in windows then windows else windows[key := WindowView(maxSamples, [])]
  }

  function WithPush(windows: map<SampleKey, WindowView>, key: SampleKey, sample: LabeledSample)
    : map<SampleKey, WindowView>
    requires key in windows
  {
    var w := windows[key];
    windows[key := WindowView(w.maxSamples, Pushed(w.samples, w.maxSamples, sample))]
  }

  function WithSample(v: StoreView, key: SampleKey, sample: LabeledSample, maxSamples: nat): StoreView {
    v.(windows := WithPush(Created(v.windows, key, maxSamples), key, sample))
  }

  function Cached(v: StoreView, metric: CacheKey, now: nat): Option<real> {
    if metric in v.cache && v.cache[metric].IsValid(now) then Some(v.cache[metric].value) else None
  }

  function WithCached(v: StoreView, metric: CacheKey, value: real, ttl: nat, now: nat): StoreView {
    v.(cache := v.cache[metric := CachedAggregation(value, now, ttl)])
  }

  function ConfigOf(v: StoreView, metric: CacheKey): AggregationType {
    if metric in v.configs then v.configs[metric] else Avg
  }

  /** What `retain` leaves of a map. */
  function Only<K, V>(m: map<K, V>, keep: set<K>): (r: map<K, V>)
    ensures r.Keys == m.Keys * keep
  {
    map k | k in m && k in keep :: m[k]
  }

  function WithoutExpired(v: StoreView, now: nat): StoreView {
    v.(cache := Only(v.cache, set m | m in v.cache && v.cache[m].IsValid(now)))
  }

  function OtherWindows(keys: set<SampleKey>, namespace: string, epaName: string): set<SampleKey> {
    set k | k in keys && !OfEpa(namespace, epaName, k.namespace, k.epaName)
  }

  function OtherMetrics(keys: set<CacheKey>, namespace: string, epaName: string): set<CacheKey> {
    set m | m in keys && !OfEpa(namespace, epaName, m.namespace, m.epaName)
  }

  function WithoutEpa(v: StoreView, namespace: string, epaName: string): StoreView {
    StoreView(Only(v.windows, OtherWindows(v.windows.Keys, namespace, epaName)),
              Only(v.cache, OtherMetrics(v.cache.Keys, namespace, epaName)),
              Only(v.configs, OtherMetrics(v.configs.Keys, namespace, epaName)))
  }

  function KeptPods(keys: set<SampleKey>, namespace: string, epaName: string, pods: set<string>): set<SampleKey> {
    set k | k in keys && (!OfEpa(namespace, epaName, k.namespace, k.epaName) || k.podName in pods)
  }

  function WithPods(v: StoreView, namespace: string, epaName: string, pods: set<string>): StoreView {
    v.(windows := Only(v.windows, KeptPods(v.windows.Keys, namespace, epaName, pods)))
  }

  predicate Stale(samples: seq<LabeledSample>, maxAge: nat, now: nat) {
    && samples != []
    && var newest := samples[|samples| - 1].scrapedAt;
    (if newest <= now then now - newest else 0) > maxAge
  }

  function StaleIn(v: StoreView, maxAge: nat, now: nat): set<SampleKey> {
    set k | k in v.windows && Stale(v.windows[k].samples, maxAge, now)
  }

  function WithoutStale(v: StoreView, maxAge: nat, now: nat): StoreView {
    v.(windows := Only(v.windows, v.windows.Keys - StaleIn(v, maxAge, now)))
  }

  class MetricsStore {
    var windows: map<SampleKey, MetricWindow>
    var cache: map<CacheKey, CachedAggregation>
    var configs: map<CacheKey, AggregationType>

    /** The value of every window, kept in step with the window objects. */
    ghost var contents: map<SampleKey, WindowView>

    ghost function Objects(): set<object>
      reads this`windows
    {
      set k | k in windows :: windows[k]
    }

    /** No two keys share a window, and `contents` is up to date. */
    ghost predicate Valid()
      reads this`windows, this`contents, Objects()
    {
      && contents.Keys == windows.Keys
      && (forall k, l | k in windows && l in windows && k != l :: windows[k] != windows[l])
      && (forall k | k in windows :: contents[k] == WindowView(windows[k].maxSamples, windows[k].samples))
    }

    ghost function View(): StoreView
      reads this
    {
      StoreView(contents, cache, configs)
    }

    constructor ()
      ensures Valid() && View() == EMPTY && Objects() == {}
    {
      windows, cache, configs, contents := map[], map[], map[], map[];
    }

    method PushSample(key: SampleKey, sample: LabeledSample, maxSamples: nat)
      requires Valid()
      modifies this`windows, this`contents, Objects()
      ensures Valid() && fresh(Objects() - old(Objects()))
      ensures View() == WithSample(old(View()), key, sample, maxSamples)
      ensures windows.Keys == old(windows).Keys + {key}
      ensures forall k | k in old(windows) :: windows[k] == old(windows)[k]
      ensures forall k | k in old(windows) && k != key :: windows[k].samples == old(windows[k].samples)
    {
      ghost var created := Created(contents, key, maxSamples);
      CreateWindow(key, maxSamples);
      PushInto(key, sample);
      assert contents == WithPush(created, key, sample);
    }

    /** The entry call: a window of this capacity for the key, unless it has one. */
    method CreateWindow(key: SampleKey, maxSamples: nat)
      requires Valid()
      modifies this`windows, this`contents
      ensures Valid() && fresh(Objects() - old(Objects())) && key in windows
      ensures contents == Created(old(contents), key, maxSamples)
      ensures windows.Keys == old(windows).Keys + {key}
      ensures forall k | k in old(windows) :: windows[k] == old(windows)[k]
    {
      if key !in windows {
        var created := new MetricWindow(maxSamples);
        windows, contents := windows[key := created], contents[key := WindowView(maxSamples, [])];
      }
    }

    method PushInto(key: SampleKey, sample: LabeledSample)
      requires Valid() && key in windows
      modifies this`contents, windows[key]
      ensures Valid()
      ensures contents == WithPush(old(contents), key, sample)
    {
      windows[key].Push(sample);
      contents := contents[key := contents[key].(samples := windows[key].samples)];
    }

    function GetCached(metric: CacheKey, now: nat): Option<real>
      reads this
    {
      if metric in cache && cache[metric].IsValid(now) then Some(cache[metric].value) else None
    }

    method CacheResult(metric: CacheKey, value: real, ttl: nat, now: nat)
      modifies this`cache
      ensures View() == WithCached(old(View()), metric, value, ttl, now)
    {
      cache := cache[metric := CachedAggregation(value, now, ttl)];
    }

    method SetMetricConfig(metric: CacheKey, aggregation: AggregationType)
      modifies this`configs
      ensures View() == old(View()).(configs := old(configs)[metric := aggregation])
    {
      configs := configs[metric := aggregation];
    }

    function GetMetricConfig(metric: CacheKey): AggregationType
      reads this
    {
      if metric in configs then configs[metric] else Avg
    }

    method CleanupExpiredCache(now: nat) returns (removed: nat)
      modifies this`cache
      ensures View() == WithoutExpired(old(View()), now)
      ensures removed == |old(cache).Keys| - |cache.Keys|
    {
      var keep := set m | m in cache && cache[m].IsValid(now);
      RemovedCount(cache.Keys, cache.Keys - keep);
      removed := |cache.Keys - keep|;
      cache := Only(cache, keep);
      assert cache.Keys == keep;
    }

    /** Drops every window whose key is not in `keep`. */
    method KeepWindows(keep: set<SampleKey>)
      requires Valid()
      modifies this`windows, this`contents
      ensures Valid() && Objects() <= old(Objects())
      ensures View() == old(View()).(windows := Only(old(View()).windows, keep))
      ensures windows.Keys == old(windows).Keys * keep
    {
      windows, contents := Only(windows, keep), Only(contents, keep);
    }

    method RemoveEpaWindows(namespace: string, epaName: string)
      requires Valid()
      modifies this
      ensures Valid() && Objects() <= old(Objects())
      ensures View() == WithoutEpa(old(View()), namespace, epaName)
    {
      KeepWindows(OtherWindows(windows.Keys, namespace, epaName));
      cache := Only(cache, OtherMetrics(cache.Keys, namespace, epaName));
      configs := Only(configs, OtherMetrics(configs.Keys, namespace, epaName));
    }

    method RetainPodWindows(namespace: string, epaName: string, pods: set<string>) returns (removed: nat)
      requires Valid()
      modifies this`windows, this`contents
      ensures Valid() && Objects() <= old(Objects())
      ensures View() == WithPods(old(View()), namespace, epaName, pods)
      ensures removed == |old(windows).Keys| - |windows.Keys|
    {
      var before := windows.Keys;
      KeepWindows(KeptPods(windows.Keys, namespace, epaName, pods));
      KeptIsSmaller(windows.Keys, before);
      removed := |before| - |windows.Keys|;
    }

    method StaleKeys(maxAge: nat, now: nat) returns (stale: set<SampleKey>)
      requires Valid()
      ensures stale == StaleIn(View(), maxAge, now)
    {
      var entries := windows.Keys;
      stale := {};
      while entries != {}
        invariant entries <= windows.Keys && stale <= windows.Keys - entries
        invariant forall k | k in windows && k !in entries :: k in stale <==> Stale(windows[k].samples, maxAge, now)
        decreases |entries|
      {
        var k :| k in entries;
        entries := entries - {k};
        if Stale(windows[k].samples, maxAge, now) {
          stale := stale + {k};
        }
      }
    }

    /** The keys are snapshotted and checked one by one; the stale ones go in a separate pass. */
    method EvictStaleWindows(maxAge: nat, now: nat) returns (count: nat)
      requires Valid()
      modifies this`windows, this`contents
      ensures Valid() && Objects() <= old(Objects())
      ensures View() == WithoutStale(old(View()), maxAge, now)
      ensures count == |StaleIn(old(View()), maxAge, now)|
    {
      var stale := StaleKeys(maxAge, now);
      count := |stale|;
      KeepWindows(windows.Keys - stale);
    }

    /** All windows of one metric, in the iteration order of the map. */
    method GetWindows(metric: CacheKey) returns (found: seq<(string, MetricWindow)>)
      requires Valid()
      ensures forall pod, w :: (pod, w) in found <==>
        var k := SampleKey(metric.namespace, metric.epaName, metric.metricName, pod);
        k in windows && windows[k] == w
      ensures forall w | w in found :: w.1 in Objects()
      ensures Lists(Contents(found), View(), metric)
    {
      var entries := windows;
      found := [];
      while entries.Keys != {}
        invariant entries.Keys <= windows.Keys && forall k | k in entries :: entries[k] == windows[k]
        invariant Picked(found, windows, entries.Keys, metric)
        decreases |entries.Keys|
      {
        var k :| k in entries.Keys;
        var window := entries[k];
        PickedStep(found, windows, entries.Keys, metric, k);
        entries := entries - {k};
        if k.namespace == metric.namespace && k.epaName == metric.epaName && k.metricName == metric.metricName {
          found := found + [(k.podName, window)];
        }
      }
      ContentsList(found, metric);
      PickedAll(found, windows, metric);
    }

    lemma ContentsList(found: seq<(string, MetricWindow)>, metric: CacheKey)
      requires Valid() && Picked(found, windows, {}, metric)
      ensures forall w | w in found :: w.1 in Objects()
      ensures Lists(Contents(found), View(), metric)
    {
      var listed := Contents(found);
      forall w | w in listed
        ensures KeyFor(metric, w.0) in windows && windows[KeyFor(metric, w.0)].samples == w.1
      {
        var i :| 0 <= i < |listed| && listed[i] == w;
        assert found[i] in found;
      }
      forall k | k in windows && k == KeyFor(metric, k.podName)
        ensures (k.podName, windows[k].samples) in listed
      {
        var i :| 0 <= i < |found| && found[i] == (k.podName, windows[k]);
        assert listed[i] == (k.podName, windows[k].samples);
      }
    }
  }

  /** `found` lists the windows of the metric whose keys are not in `entries` any more, each pod once. */
  ghost predicate Picked(found: seq<(string, MetricWindow)>, windows: map<SampleKey, MetricWindow>,
                         entries: set<SampleKey>, metric: CacheKey)
  {
    && (forall i, j | 0 <= i < j < |found| :: found[i].0 != found[j].0)
    && (forall i | 0 <= i < |found| ::
          && KeyFor(metric, found[i].0) in windows && KeyFor(metric, found[i].0) !in entries
          && windows[KeyFor(metric, found[i].0)] == found[i].1)
    && (forall k | k in windows && k !in entries && k == KeyFor(metric, k.podName) ::
          exists i :: 0 <= i < |found| && found[i] == (k.podName, windows[k]))
  }

  lemma PickedAll(found: seq<(string, MetricWindow)>, windows: map<SampleKey, MetricWindow>, metric: CacheKey)
    requires Picked(found, windows, {}, metric)
    ensures forall pod, w :: (pod, w) in found <==>
      var k := SampleKey(metric.namespace, metric.epaName, metric.metricName, pod);
      k in windows && windows[k] == w
  {
    forall pod, w
      ensures (pod, w) in found <==> KeyFor(metric, pod) in windows && windows[KeyFor(metric, pod)] == w
    {
      if KeyFor(metric, pod) in windows && windows[KeyFor(metric, pod)] == w {
        var i :| 0 <= i < |found| && found[i] == (pod, w);
      }
    }
  }

  lemma PickedStep(found: seq<(string, MetricWindow)>, windows: map<SampleKey, MetricWindow>,
                   entries: set<SampleKey>, metric: CacheKey, k: SampleKey)
    requires Picked(found, windows, entries, metric) && k in entries && entries <= windows.Keys
    ensures var more := if k == KeyFor(metric, k.podName) then found + [(k.podName, windows[k])] else found;
      Picked(more, windows, entries - {k}, metric)
  {
    var more := if k == KeyFor(metric, k.podName) then found + [(k.podName, windows[k])] else found;
    assert forall i | 0 <= i < |found| :: more[i] == found[i];
    if k == KeyFor(metric, k.podName) {
      assert more[|found|] == (k.podName, windows[k]);
    }
  }

  lemma {:induction false} KeptIsSmaller<T>(kept: set<T>, all: set<T>)
    requires kept <= all
    ensures |kept| <= |all|
  {
    if kept != {} {
      var x :| x in kept;
      KeptIsSmaller(kept - {x}, all - {x});
    }
  }

  lemma RemovedCount<T>(all: set<T>, gone: set<T>)
    requires gone <= all
    ensures |all - gone| == |all| - |gone|
  {
    assert all == gone + (all - gone);
  }
}
