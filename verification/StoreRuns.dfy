/** Whole runs of the metrics store with the request handler on top, each operation atomic. */
module StoreRuns {
  import opened Wrappers
  import opened Samples
  import opened Window
  import opened Store
  import opened Aggregation
  import opened MetricName
  import opened Handler

  datatype Op =
    | Push(key: SampleKey, sample: LabeledSample, maxSamples: nat)
    | SetConfig(metric: CacheKey, aggregation: AggregationType)
    | RetainPods(namespace: string, epaName: string, pods: set<string>)
    | EvictStale(maxAge: nat)
    | RemoveEpa(namespace: string, epaName: string)
    | Cleanup
    | Request(metric: CacheKey, listed: seq<PodSamples>)

  type Reply = Option<Result<Int64, ApiError>>

  function Apply(v: StoreView, op: Op, now: nat): (StoreView, Reply) {
    match op
    case Push(key, sample, max) => (WithSample(v, key, sample, max), None)
    case SetConfig(metric, aggregation) => (v.(configs := v.configs[metric := aggregation]), None)
    case RetainPods(ns, epa, pods) => (WithPods(v, ns, epa, pods), None)
    case EvictStale(maxAge) => (WithoutStale(v, maxAge, now), None)
    case RemoveEpa(ns, epa) => (WithoutEpa(v, ns, epa), None)
    case Cleanup => (WithoutExpired(v, now), None)
    case Request(metric, listed) => var (v', r) := Answer(v, metric, listed, now); (v', Some(r))
  }

  datatype Run = Run(states: seq<StoreView>, ops: seq<Op>, times: seq<nat>)

  ghost predicate Steps(run: Run, i: nat)
    requires i < |run.ops| == |run.times| && |run.states| == |run.ops| + 1
  {
    && run.states[i + 1] == Apply(run.states[i], run.ops[i], run.times[i]).0
    && (run.ops[i].Request? ==> Lists(run.ops[i].listed, run.states[i], run.ops[i].metric))
  }

  ghost predicate Valid(run: Run) {
    && |run.ops| == |run.times| && |run.states| == |run.ops| + 1 && run.states[0] == EMPTY
    && forall i: nat | i < |run.ops| :: Steps(run, i)
  }

  // ---- what each operation leaves alone ----

  /** The operation takes the live window of the key, which holds these samples, out of the store. */
  predicate Takes(op: Op, key: SampleKey, samples: seq<LabeledSample>, now: nat) {
    match op
    case RemoveEpa(ns, epa) => key.namespace == ns && key.epaName == epa
    case RetainPods(ns, epa, pods) => key.namespace == ns && key.epaName == epa && key.podName !in pods
    case EvictStale(maxAge) => samples != [] && now > samples[|samples| - 1].scrapedAt + maxAge
    case _ => false
  }

  ghost predicate TakenAt(run: Run, n: nat, key: SampleKey)
    requires n < |run.ops| == |run.times| && |run.states| == |run.ops| + 1
  {
    && key in run.states[n].windows
    && Takes(run.ops[n], key, run.states[n].windows[key].samples, run.times[n])
  }

  predicate PushesTo(op: Op, key: SampleKey) {
    op.Push? && op.key == key
  }

  /** A window goes only if it is taken, comes only by a push to its key, and changes only by one. */
  lemma WindowStep(run: Run, n: nat, key: SampleKey)
    requires Valid(run) && n < |run.ops|
    ensures var before, after := run.states[n].windows, run.states[n + 1].windows;
      && (key in before ==> (key in after <==> !TakenAt(run, n, key)))
      && (key !in before ==> (key in after <==> PushesTo(run.ops[n], key)))
      && (key in before && key in after && !PushesTo(run.ops[n], key) ==> after[key] == before[key])
  {
    assert Steps(run, n);
  }

  /** The configured aggregation is that of the last setting since the EPA was last removed, or the average. */
  lemma ConfigStep(run: Run, n: nat, metric: CacheKey)
    requires Valid(run) && n < |run.ops|
    ensures ConfigOf(run.states[0], metric) == Avg
    ensures ConfigOf(run.states[n + 1], metric) ==
      match run.ops[n]
      case SetConfig(m, aggregation) => if m == metric then aggregation else ConfigOf(run.states[n], metric)
      case RemoveEpa(ns, epa) =>
        if metric.namespace == ns && metric.epaName == epa then Avg else ConfigOf(run.states[n], metric)
      case _ => ConfigOf(run.states[n], metric)
  {
    assert Steps(run, n);
  }

  /** A request that misses the cache and has a contributing pod leaves its sum there for ten seconds; else an
      entry stays as it is, until a cleanup after its time or the removal of its EPA. */
  lemma EntryStep(run: Run, n: nat, metric: CacheKey)
    requires Valid(run) && n < |run.ops|
    ensures var v, op, now, after := run.states[n], run.ops[n], run.times[n], run.states[n + 1].cache;
      if Refills(v, op, now, metric) then
        metric in after && after[metric] ==
          CachedAggregation(Aggregate(op.listed, ConfigOf(v, metric)).0, now, 10_000)
      else if metric in v.cache then
        var drops := op == RemoveEpa(metric.namespace, metric.epaName)
                     || (op.Cleanup? && !v.cache[metric].IsValid(now));
        (metric in after <==> !drops) && (metric in after ==> after[metric] == v.cache[metric])
      else metric !in after
  {
    assert Steps(run, n);
    if run.ops[n].Request? {
      RequestStep(run.states[n], run.ops[n], run.times[n], metric);
    }
  }

  lemma RequestStep(v: StoreView, op: Op, now: nat, metric: CacheKey)
    requires op.Request?
    ensures var after := Apply(v, op, now).0.cache;
      if Refills(v, op, now, metric) then
        after == v.cache[metric := CachedAggregation(Aggregate(op.listed, ConfigOf(v, metric)).0, now, CACHE_TTL)]
      else (metric in after <==> metric in v.cache) && (metric in after ==> after[metric] == v.cache[metric])
  {
    CountedIffContributing(op.listed, ConfigOf(v, op.metric));
  }

  ghost predicate Contributing(listed: seq<PodSamples>, aggregation: AggregationType) {
    exists i | 0 <= i < |listed| :: PodValue(listed[i].1, aggregation).Some?
  }

  ghost predicate Refills(v: StoreView, op: Op, now: nat, metric: CacheKey) {
    op.Request? && op.metric == metric && Cached(v, metric, now) == None
    && Contributing(op.listed, ConfigOf(v, metric))
  }

  // ---- the cache agrees with recomputation ----

  /** Operation j recomputed this value from the windows and the configuration of its moment, with some pod
      contributing, and the EPA has not been removed between j and n. */
  ghost predicate RecomputedAt(run: Run, j: nat, n: nat, metric: CacheKey, value: real)
    requires Valid(run)
  {
    && j < n <= |run.ops|
    && Recomputes(run.states[j], run.ops[j], run.times[j], metric, value)
    && Lists(run.ops[j].listed, run.states[j], metric)
    && forall i | j < i < n :: run.ops[i] != RemoveEpa(metric.namespace, metric.epaName)
  }

  /** This request recomputes the value. */
  predicate Recomputes(v: StoreView, op: Op, now: nat, metric: CacheKey, value: real) {
    && op.Request? && op.metric == metric && op.listed != []
    && Cached(v, metric, now) == None
    && var (total, pods) := Aggregate(op.listed, ConfigOf(v, metric));
    value == total && pods > 0
  }

  /** A cache entry either was there before, and its EPA was not removed, or was just recomputed. */
  lemma EntryOrigin(run: Run, n: nat, metric: CacheKey)
    requires Valid(run) && n < |run.ops| && metric in run.states[n + 1].cache
    ensures var entry := run.states[n + 1].cache[metric];
      || (&& metric in run.states[n].cache && entry == run.states[n].cache[metric]
          && run.ops[n] != RemoveEpa(metric.namespace, metric.epaName))
      || Explained(run, n, n + 1, metric, entry)
  {
    assert Steps(run, n);
  }

  /** What the cache says of a metric is a recomputation of the past. */
  ghost predicate Explained(run: Run, j: nat, n: nat, metric: CacheKey, entry: CachedAggregation)
    requires Valid(run)
  {
    RecomputedAt(run, j, n, metric, entry.value) && entry == CachedAggregation(entry.value, run.times[j], CACHE_TTL)
  }

  lemma StaysExplained(run: Run, j: nat, n: nat, metric: CacheKey, entry: CachedAggregation)
    requires Valid(run) && n < |run.ops| && Explained(run, j, n, metric, entry)
    requires run.ops[n] != RemoveEpa(metric.namespace, metric.epaName)
    ensures Explained(run, j, n + 1, metric, entry)
  {
  }

  lemma {:induction false} EntryWasRecomputed(run: Run, n: nat, metric: CacheKey) returns (j: nat)
    requires Valid(run) && n <= |run.ops| && metric in run.states[n].cache
    ensures Explained(run, j, n, metric, run.states[n].cache[metric])
  {
    var v, entry := run.states[n - 1], run.states[n].cache[metric];
    EntryOrigin(run, n - 1, metric);
    if && metric in v.cache && entry == v.cache[metric]
       && run.ops[n - 1] != RemoveEpa(metric.namespace, metric.epaName)
    {
      j := EntryWasRecomputed(run, n - 1, metric);
      StaysExplained(run, j, n - 1, metric, entry);
    } else {
      j := n - 1;
    }
  }

  /** A cached answer is what aggregation gave on the store and the configuration less than ten seconds
      ago, after the last removal of the EPA. */
  lemma CachedIsRecentRecomputation(run: Run, n: nat, metric: CacheKey, now: nat)
    requires Valid(run) && n <= |run.ops|
    requires Cached(run.states[n], metric, now).Some?
    ensures exists j: nat ::
      RecomputedAt(run, j, n, metric, Cached(run.states[n], metric, now).value) && now < run.times[j] + CACHE_TTL
  {
    var j := EntryWasRecomputed(run, n, metric);
    assert RecomputedAt(run, j, n, metric, run.states[n].cache[metric].value);
  }

  // ---- what a request is answered ----

  /** The clock never goes back. */
  ghost predicate Clocked(run: Run) {
    forall i, j | 0 <= i < j < |run.times| :: run.times[i] <= run.times[j]
  }

  ghost predicate ReachedBy(run: Run, n: nat, now: nat)
    requires n <= |run.times|
  {
    forall i | 0 <= i < n :: run.times[i] <= now
  }

  lemma EntryIsFilled(run: Run, j: nat, metric: CacheKey, value: real)
    requires Valid(run) && RecomputedAt(run, j, j + 1, metric, value)
    ensures metric in run.states[j + 1].cache
    ensures run.states[j + 1].cache[metric] == CachedAggregation(value, run.times[j], CACHE_TTL)
  {
    EntryStep(run, j, metric);
    CountedIffContributing(run.ops[j].listed, ConfigOf(run.states[j], metric));
  }

  /** A recomputed value stays in the cache for ten seconds, unless its EPA is removed. */
  lemma {:induction false} EntryPersists(run: Run, j: nat, n: nat, metric: CacheKey, value: real, now: nat)
    requires Valid(run) && Clocked(run) && RecomputedAt(run, j, n, metric, value)
    requires ReachedBy(run, n, now) && now < run.times[j] + CACHE_TTL
    ensures metric in run.states[n].cache
    ensures run.states[n].cache[metric] == CachedAggregation(value, run.times[j], CACHE_TTL)
    decreases n
  {
    if j == n - 1 {
      EntryIsFilled(run, j, metric, value);
    } else {
      EntryStep(run, n - 1, metric);
      assert RecomputedAt(run, j, n - 1, metric, value);
      EntryPersists(run, j, n - 1, metric, value, run.times[n - 1]);
      assert Cached(run.states[n - 1], metric, run.times[n - 1]).Some?;
    }
  }

  /** The value was recomputed less than ten seconds before `now`, and the EPA has not been removed since. */
  ghost predicate RecentlyComputed(run: Run, n: nat, metric: CacheKey, value: real, now: nat)
    requires Valid(run)
  {
    exists j: nat :: RecomputedAt(run, j, n, metric, value) && now < run.times[j] + 10_000
  }

  /** The cache answers exactly what was recomputed less than ten seconds ago. */
  lemma CachedIffRecent(run: Run, n: nat, metric: CacheKey, value: real, now: nat)
    requires Valid(run) && Clocked(run) && n <= |run.ops| && ReachedBy(run, n, now)
    ensures Cached(run.states[n], metric, now) == Some(value) <==> RecentlyComputed(run, n, metric, value, now)
  {
    if Cached(run.states[n], metric, now) == Some(value) {
      CachedIsRecentRecomputation(run, n, metric, now);
    }
    if RecentlyComputed(run, n, metric, value, now) {
      var j: nat :| RecomputedAt(run, j, n, metric, value) && now < run.times[j] + 10_000;
      EntryPersists(run, j, n, metric, value, now);
    }
  }

  /** What the request at step n is answered. */
  function ReplyAt(run: Run, n: nat): Result<Int64, ApiError>
    requires n < |run.ops| == |run.times| && |run.states| == |run.ops| + 1 && run.ops[n].Request?
  {
    Apply(run.states[n], run.ops[n], run.times[n]).1.value
  }

  /** The value that answers the request at step n: recomputed less than ten seconds ago or, failing that, the
      sum over the current windows under the current configuration, if some pod contributes to it. */
  ghost predicate AnswersWith(run: Run, n: nat, value: real)
    requires Valid(run) && n < |run.ops| && run.ops[n].Request?
  {
    var v, op := run.states[n], run.ops[n];
    || RecentlyComputed(run, n, op.metric, value, run.times[n])
    || (&& (forall other :: !RecentlyComputed(run, n, op.metric, other, run.times[n]))
        && Contributing(op.listed, ConfigOf(v, op.metric))
        && value == Aggregate(op.listed, ConfigOf(v, op.metric)).0)
  }

  /** A request is answered with the whole number of that value, and is unavailable exactly if there is none. */
  lemma ReplyMeans(run: Run, n: nat)
    requires Valid(run) && Clocked(run) && n < |run.ops| && run.ops[n].Request?
    ensures forall x :: ReplyAt(run, n) == Success(x) <==>
      exists value :: AnswersWith(run, n, value) && x == Reported(value)
    ensures ReplyAt(run, n) == Failure(MetricUnavailable) <==> forall value :: !AnswersWith(run, n, value)
  {
    var v, op, now := run.states[n], run.ops[n], run.times[n];
    var cached := Cached(v, op.metric, now);
    forall value ensures cached == Some(value) <==> RecentlyComputed(run, n, op.metric, value, now) {
      CachedIffRecent(run, n, op.metric, value, now);
    }
    CountedIffContributing(op.listed, ConfigOf(v, op.metric));
    var value := if cached.Some? then cached.value else Aggregate(op.listed, ConfigOf(v, op.metric)).0;
    if cached.Some? || Contributing(op.listed, ConfigOf(v, op.metric)) {
      assert AnswersWith(run, n, value);
      assert forall other :: AnswersWith(run, n, other) ==> other == value;
      assert ReplyAt(run, n) == Success(Reported(value));
    } else {
      assert forall other :: !AnswersWith(run, n, other);
      assert ReplyAt(run, n) == Failure(MetricUnavailable);
    }
  }

  /** A request that finds a cached value gets the very reply of the request that computed it. */
  lemma CachedReplyRepeats(run: Run, n: nat) returns (j: nat)
    requires Valid(run) && n < |run.ops| && run.ops[n].Request?
    requires Cached(run.states[n], run.ops[n].metric, run.times[n]).Some?
    ensures j < n && run.ops[j].Request? && run.ops[j].metric == run.ops[n].metric
    ensures run.times[n] < run.times[j] + 10_000 && ReplyAt(run, j) == ReplyAt(run, n)
  {
    var metric := run.ops[n].metric;
    j := EntryWasRecomputed(run, n, metric);
  }

  // ---- cleanup is invisible ----

  /** The two stores answer alike from `now` on. */
  ghost predicate AnswerAlike(v: StoreView, w: StoreView, now: nat) {
    && v.windows == w.windows && v.configs == w.configs
    && forall metric, t | now <= t :: Cached(v, metric, t) == Cached(w, metric, t)
  }

  lemma StaysAlike(v: StoreView, w: StoreView, now: nat, op: Op, at: nat)
    requires AnswerAlike(v, w, now) && now <= at
    ensures Apply(v, op, at).1 == Apply(w, op, at).1
    ensures AnswerAlike(Apply(v, op, at).0, Apply(w, op, at).0, at)
  {
    var v', w' := Apply(v, op, at).0, Apply(w, op, at).0;
    assert forall metric :: Cached(v, metric, at) == Cached(w, metric, at);
    forall metric, t | at <= t ensures Cached(v', metric, t) == Cached(w', metric, t) {
      assert Cached(v, metric, t) == Cached(w, metric, t);
    }
  }

  function Replies(v: StoreView, ops: seq<Op>, times: seq<nat>): seq<Reply>
    requires |ops| == |times|
    decreases |ops|
  {
    if ops == [] then []
    else var (v', reply) := Apply(v, ops[0], times[0]); [reply] + Replies(v', ops[1..], times[1..])
  }

  ghost predicate Monotone(now: nat, times: seq<nat>) {
    && (times != [] ==> now <= times[0])
    && forall i, j | 0 <= i < j < |times| :: times[i] <= times[j]
  }

  lemma {:induction false} AlikeStoresReplyAlike(v: StoreView, w: StoreView, now: nat, ops: seq<Op>, times: seq<nat>)
    requires AnswerAlike(v, w, now) && |ops| == |times| && Monotone(now, times)
    ensures Replies(v, ops, times) == Replies(w, ops, times)
    decreases |ops|
  {
    if ops != [] {
      StaysAlike(v, w, now, ops[0], times[0]);
      AlikeStoresReplyAlike(Apply(v, ops[0], times[0]).0, Apply(w, ops[0], times[0]).0, times[0], ops[1..], times[1..]);
    }
  }

  /** cleanup_expired_cache changes no present or future answer, whatever happens afterwards. */
  lemma CleanupIsInvisible(v: StoreView, now: nat, metric: CacheKey, ops: seq<Op>, times: seq<nat>)
    requires |ops| == |times| && Monotone(now, times)
    ensures Cached(WithoutExpired(v, now), metric, now) == Cached(v, metric, now)
    ensures Replies(WithoutExpired(v, now), ops, times) == Replies(v, ops, times)
  {
    AlikeStoresReplyAlike(WithoutExpired(v, now), v, now, ops, times);
  }

  // ---- windows refine the push history ----

  /** Pushes to the key, by position in the run and in order. */
  ghost predicate ArePushes(run: Run, pushes: seq<nat>, key: SampleKey) {
    && (forall p | 0 <= p < |pushes| :: pushes[p] < |run.ops| && PushesTo(run.ops[pushes[p]], key))
    && (forall p, q | 0 <= p < q < |pushes| :: pushes[p] < pushes[q])
  }

  lemma OneMorePush(run: Run, pushes: seq<nat>, key: SampleKey, n: nat)
    requires ArePushes(run, pushes, key) && n < |run.ops| && PushesTo(run.ops[n], key)
    requires forall p | 0 <= p < |pushes| :: pushes[p] < n
    ensures ArePushes(run, pushes + [n], key)
  {
  }

  /** The pushes, by position in the run, that the live window of the key has received since it was created. */
  ghost function Life(run: Run, n: nat, key: SampleKey): (life: seq<nat>)
    requires n <= |run.ops| == |run.times| && |run.states| == |run.ops| + 1
    ensures ArePushes(run, life, key) && forall p | 0 <= p < |life| :: life[p] < n
  {
    if n == 0 || key !in run.states[n].windows then []
    else if !PushesTo(run.ops[n - 1], key) then Life(run, n - 1, key)
    else if key in run.states[n - 1].windows then Life(run, n - 1, key) + [n - 1]
    else [n - 1]
  }

  function SamplesOf(run: Run, pushes: seq<nat>): (samples: seq<LabeledSample>)
    requires forall p | 0 <= p < |pushes| :: pushes[p] < |run.ops| && run.ops[pushes[p]].Push?
    ensures |samples| == |pushes|
    ensures forall p | 0 <= p < |pushes| :: samples[p] == run.ops[pushes[p]].sample
  {
    seq(|pushes|, p requires 0 <= p < |pushes| => run.ops[pushes[p]].sample)
  }

  /** A live window either was just pushed to or is as it was. */
  lemma WindowOrigin(run: Run, n: nat, key: SampleKey)
    requires Valid(run) && n < |run.ops| && key in run.states[n + 1].windows
    ensures var v, op, w := run.states[n], run.ops[n], run.states[n + 1].windows[key];
      if PushesTo(op, key) then
        var earlier := if key in v.windows then v.windows[key] else WindowView(op.maxSamples, []);
        w == WindowView(earlier.maxSamples, Pushed(earlier.samples, earlier.maxSamples, op.sample))
      else key in v.windows && w == v.windows[key]
  {
    assert Steps(run, n);
  }

  /** A live window stays, with everything pushed to it on record, until an operation takes it. */
  lemma {:induction false} WindowStaysUntilTaken(run: Run, m: nat, n: nat, key: SampleKey)
    requires Valid(run) && m <= n <= |run.ops| && key in run.states[m].windows
    requires forall i: nat | m <= i < n :: !TakenAt(run, i, key)
    ensures key in run.states[n].windows && Life(run, m, key) <= Life(run, n, key)
    decreases n
  {
    if m < n {
      WindowStaysUntilTaken(run, m, n - 1, key);
      WindowStep(run, n - 1, key);
    }
  }

  /** The live window of a key is the last part, in order, of the samples pushed to it since it was created,
      as long as the capacity its creating push gave; later pushes cannot change that capacity. */
  lemma {:induction false} WindowRefinesPushes(run: Run, n: nat, key: SampleKey)
    requires Valid(run) && n <= |run.ops| && key in run.states[n].windows
    ensures var life := Life(run, n, key);
      && life != []
      && var cap := run.ops[life[0]].maxSamples;
      run.states[n].windows[key] == WindowView(cap, LastN(SamplesOf(run, life), Capacity(cap)))
  {
    var before, op := run.states[n - 1], run.ops[n - 1];
    WindowOrigin(run, n - 1, key);
    if key in before.windows {
      WindowRefinesPushes(run, n - 1, key);
      if PushesTo(op, key) {
        var earlier := Life(run, n - 1, key);
        assert SamplesOf(run, earlier + [n - 1]) == SamplesOf(run, earlier) + [op.sample];
        PushKeepsLast(run.ops[earlier[0]].maxSamples, SamplesOf(run, earlier), op.sample);
      }
    } else {
      assert SamplesOf(run, [n - 1]) == [op.sample];
      PushKeepsLast(op.maxSamples, [], op.sample);
    }
  }

  function SamplesAt(v: StoreView, key: SampleKey): seq<LabeledSample> {
    if key in v.windows then v.windows[key].samples else []
  }

  /** What the push that creates the live window asks for, be it operation n itself. */
  ghost function CreatingCapacity(run: Run, n: nat, key: SampleKey): nat
    requires n < |run.ops| == |run.times| && |run.states| == |run.ops| + 1 && PushesTo(run.ops[n], key)
  {
    var life := Life(run, n, key);
    if life == [] then run.ops[n].maxSamples else run.ops[life[0]].maxSamples
  }

  lemma PushIsPushed(run: Run, n: nat, key: SampleKey)
    requires Valid(run) && n < |run.ops| && PushesTo(run.ops[n], key)
    ensures var before := LastN(SamplesOf(run, Life(run, n, key)), Capacity(CreatingCapacity(run, n, key)));
      && SamplesAt(run.states[n], key) == before
      && SamplesAt(run.states[n + 1], key) == Pushed(before, CreatingCapacity(run, n, key), run.ops[n].sample)
  {
    assert Steps(run, n);
    WindowOrigin(run, n, key);
    if key in run.states[n].windows {
      WindowRefinesPushes(run, n, key);
    }
  }

  /** Push n to the key evicts nothing from its live window, or exactly the sample of this earlier push. */
  ghost predicate Evicted(run: Run, n: nat, key: SampleKey, evicted: Option<nat>)
    requires n < |run.ops| && |run.states| == |run.ops| + 1 && PushesTo(run.ops[n], key)
  {
    var before, after := SamplesAt(run.states[n], key), SamplesAt(run.states[n + 1], key);
    match evicted
    case None => after == before + [run.ops[n].sample]
    case Some(e) =>
      e < n && PushesTo(run.ops[e], key) && Evicts(before, after, run.ops[e].sample, run.ops[n].sample)
  }

  function OneCapacityBack(life: seq<nat>, cap: nat): (e: Option<nat>)
    requires cap > 0
  {
    if |life| < cap then None else Some(life[|life| - cap])
  }

  /** A push into a full window evicts exactly the sample pushed one capacity earlier in the window's life. */
  lemma PushEvictsOldest(run: Run, n: nat, key: SampleKey)
    requires Valid(run) && n < |run.ops| && PushesTo(run.ops[n], key)
    ensures var cap := Capacity(CreatingCapacity(run, n, key));
      Evicted(run, n, key, OneCapacityBack(Life(run, n, key), cap))
  {
    PushIsPushed(run, n, key);
    FullEvicts(CreatingCapacity(run, n, key), SamplesOf(run, Life(run, n, key)), run.ops[n].sample);
  }

  /** The same, for a capacity that is known. */
  lemma EvictedByPush(run: Run, n: nat, key: SampleKey, cap: nat) returns (evicted: Option<nat>, life: seq<nat>)
    requires Valid(run) && n < |run.ops| && PushesTo(run.ops[n], key)
    requires cap > 0 && CreatingCapacity(run, n, key) == cap
    ensures life == Life(run, n, key) && ArePushes(run, life + [n], key)
    ensures Evicted(run, n, key, evicted) && evicted == OneCapacityBack(life, cap)
  {
    life := Life(run, n, key);
    evicted := OneCapacityBack(life, cap);
    PushEvictsOldest(run, n, key);
    OneMorePush(run, life, key, n);
  }

  // ---- removing an EPA ----

  /** After remove_epa_windows a metric of that EPA is unavailable, and every other metric is answered as
      if nothing had happened. */
  lemma RemovalIsIsolated(v: StoreView, namespace: string, epaName: string, metric: CacheKey,
                          listed: seq<PodSamples>, now: nat)
    requires Lists(listed, WithoutEpa(v, namespace, epaName), metric)
    ensures var ofEpa := OfEpa(namespace, epaName, metric.namespace, metric.epaName);
      var reply := Answer(WithoutEpa(v, namespace, epaName), metric, listed, now).1;
      && (ofEpa ==> reply == Failure(MetricUnavailable))
      && (!ofEpa ==> Lists(listed, v, metric) && reply == Answer(v, metric, listed, now).1)
  {
    EmptyListing(WithoutEpa(v, namespace, epaName), metric, listed);
  }
}
