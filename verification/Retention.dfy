/** The scheduler and the store together: no sample is pushed out of its window before its evaluation period
    has passed. */
module Retention {
  import opened Wrappers
  import opened Samples
  import opened Scheduler
  import Ownership
  import StoreRuns

  /** A job of this tick, for the pod of the key, asked for this capacity. */
  ghost predicate JobAsks(run: Run, at: seq<nat>, tick: nat, key: SampleKey, maxSamples: nat)
    requires |run.ticks| == |run.times| == |at| && |run.schedules| == |run.ticks| + 1
    requires forall i | 0 <= i < |at| :: at[i] < |run.ticks[i]|
  {
    && tick < |at|
    && exists job | job in Jobs(run.schedules[tick], run.ticks[tick][at[tick]], run.times[tick]) ::
         job.pod == key.podName && job.maxSamples == maxSamples
  }

  /** A run of the scheduler in which the EPA of the key stays registered and unchanged, and a run of the store
      in which every push to the key comes from a job: operation n from tick dispatched[n].  The samples of a
      key are pushed in the order in which their jobs were dispatched, one per job; a job whose scrape failed
      or did not find the metric pushes none. */
  ghost predicate Feeds(run: Run, at: seq<nat>, evaluationPeriod: nat, interval: nat,
                        store: StoreRuns.Run, key: SampleKey, dispatched: seq<nat>)
  {
    && Valid(run) && RegisteredThroughout(run, Ownership.EpaKey(key.namespace, key.epaName), interval, at)
    && (forall i | 0 <= i < |at| :: run.ticks[i][at[i]].evaluationPeriod == evaluationPeriod)
    && StoreRuns.Valid(store) && |dispatched| == |store.ops|
    && (forall n | 0 <= n < |store.ops| && StoreRuns.PushesTo(store.ops[n], key) ::
          JobAsks(run, at, dispatched[n], key, store.ops[n].maxSamples))
    && (forall m, n | 0 <= m < n < |store.ops|
                      && StoreRuns.PushesTo(store.ops[m], key) && StoreRuns.PushesTo(store.ops[n], key) ::
          dispatched[m] < dispatched[n])
  }

  /** Every push asks for the computed capacity and stems from a round. */
  lemma PushesStemFromRounds(run: Run, at: seq<nat>, evaluationPeriod: nat, interval: nat,
                             store: StoreRuns.Run, key: SampleKey, dispatched: seq<nat>, n: nat)
    requires Feeds(run, at, evaluationPeriod, interval, store, key, dispatched)
    requires n < |store.ops| && StoreRuns.PushesTo(store.ops[n], key)
    ensures store.ops[n].maxSamples == MaxSamples(evaluationPeriod, interval)
    ensures dispatched[n] < |at| && Round(run, at, dispatched[n])
  {
    assert JobAsks(run, at, dispatched[n], key, store.ops[n].maxSamples);
  }

  /** Push n stems from a tick at least this long after that of push m. */
  predicate DispatchedApart(run: Run, dispatched: seq<nat>, m: nat, n: nat, apart: nat) {
    && m < |dispatched| && n < |dispatched|
    && dispatched[m] < |run.times| && dispatched[n] < |run.times|
    && run.times[dispatched[n]] >= run.times[dispatched[m]] + apart
  }

  lemma PushesFollowRounds(run: Run, at: seq<nat>, evaluationPeriod: nat, interval: nat, store: StoreRuns.Run,
                           key: SampleKey, dispatched: seq<nat>, pushes: seq<nat>, rounds: seq<nat>)
    requires Feeds(run, at, evaluationPeriod, interval, store, key, dispatched)
    requires StoreRuns.ArePushes(store, pushes, key)
    requires |rounds| == |pushes| && forall p | 0 <= p < |pushes| :: rounds[p] == dispatched[pushes[p]]
    ensures Rounds(run, at, rounds)
  {
    forall p | 0 <= p < |pushes| ensures rounds[p] < |at| && Round(run, at, rounds[p]) {
      PushesStemFromRounds(run, at, evaluationPeriod, interval, store, key, dispatched, pushes[p]);
    }
  }

  function TicksOf(dispatched: seq<nat>, pushes: seq<nat>): (ticks: seq<nat>)
    requires forall p | 0 <= p < |pushes| :: pushes[p] < |dispatched|
    ensures |ticks| == |pushes| && forall p | 0 <= p < |pushes| :: ticks[p] == dispatched[pushes[p]]
  {
    seq(|pushes|, p requires 0 <= p < |pushes| => dispatched[pushes[p]])
  }

  /** The push that lies c back before push n stems from a tick at least c intervals earlier. */
  lemma ManyPushesTakeLong(run: Run, at: seq<nat>, evaluationPeriod: nat, interval: nat, store: StoreRuns.Run,
                           key: SampleKey, dispatched: seq<nat>, earlier: seq<nat>, n: nat, c: nat)
    requires Feeds(run, at, evaluationPeriod, interval, store, key, dispatched)
    requires StoreRuns.ArePushes(store, earlier + [n], key) && 0 < c <= |earlier|
    ensures DispatchedApart(run, dispatched, earlier[|earlier| - c], n, c * interval)
  {
    var pushes: seq<nat> := earlier + [n];
    forall p | 0 <= p < |pushes| ensures pushes[p] < |dispatched| {
      assert StoreRuns.PushesTo(store.ops[pushes[p]], key);
    }
    var rounds := TicksOf(dispatched, pushes);
    PushesFollowRounds(run, at, evaluationPeriod, interval, store, key, dispatched, pushes, rounds);
    assert pushes[|earlier|] == n && pushes[|earlier| - c] == earlier[|earlier| - c];
    ManyRoundsTakeLong(run, Ownership.EpaKey(key.namespace, key.epaName), interval, at, rounds, |earlier| - c, c);
  }

  /** The capacity of the window, which with an interval of at least a second (or an evaluation period below
      one) covers the whole seconds of the period. */
  lemma WindowCoversPeriod(run: Run, at: seq<nat>, evaluationPeriod: nat, interval: nat,
                           store: StoreRuns.Run, key: SampleKey, dispatched: seq<nat>, n: nat)
    returns (cap: nat)
    requires Feeds(run, at, evaluationPeriod, interval, store, key, dispatched)
    requires interval >= 1000 || evaluationPeriod < 1000
    requires n < |store.ops| && StoreRuns.PushesTo(store.ops[n], key)
    ensures cap > 0 && StoreRuns.CreatingCapacity(store, n, key) == cap
    ensures cap * interval >= AsSecs(evaluationPeriod) * 1000
  {
    var life := StoreRuns.Life(store, n, key);
    cap := MaxSamples(evaluationPeriod, interval);
    PushesStemFromRounds(run, at, evaluationPeriod, interval, store, key, dispatched,
                         if life == [] then n else life[0]);
    MaxSamplesCoverIff(evaluationPeriod, interval);
  }

  lemma OldestIsOld(run: Run, at: seq<nat>, evaluationPeriod: nat, interval: nat, store: StoreRuns.Run,
                    key: SampleKey, dispatched: seq<nat>, n: nat, life: seq<nat>, cap: nat, apart: nat)
    requires Feeds(run, at, evaluationPeriod, interval, store, key, dispatched)
    requires StoreRuns.ArePushes(store, life + [n], key) && 0 < cap <= |life| && cap * interval >= apart
    ensures DispatchedApart(run, dispatched, life[|life| - cap], n, apart)
  {
    ManyPushesTakeLong(run, at, evaluationPeriod, interval, store, key, dispatched, life, n, cap);
  }

  /** Then a push to the live window of the key either evicts nothing, or evicts the sample of a push whose job
      was dispatched at least the whole seconds of the evaluation period earlier. */
  lemma NoSampleEvictedEarly(run: Run, at: seq<nat>, evaluationPeriod: nat, interval: nat,
                             store: StoreRuns.Run, key: SampleKey, dispatched: seq<nat>, n: nat)
    returns (evicted: Option<nat>)
    requires Feeds(run, at, evaluationPeriod, interval, store, key, dispatched)
    requires interval >= 1000 || evaluationPeriod < 1000
    requires n < |store.ops| && StoreRuns.PushesTo(store.ops[n], key)
    ensures StoreRuns.Evicted(store, n, key, evicted)
    ensures evicted.Some? ==> DispatchedApart(run, dispatched, evicted.value, n, AsSecs(evaluationPeriod) * 1000)
  {
    var cap := WindowCoversPeriod(run, at, evaluationPeriod, interval, store, key, dispatched, n);
    var apart := AsSecs(evaluationPeriod) * 1000;
    var life;
    evicted, life := StoreRuns.EvictedByPush(store, n, key, cap);
    if evicted.Some? {
      OldestIsOld(run, at, evaluationPeriod, interval, store, key, dispatched, n, life, cap, apart);
    }
  }
}
