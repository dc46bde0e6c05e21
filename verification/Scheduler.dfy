/** The scrape schedule: src/scraper/scheduler.rs.  Times and durations are milliseconds. */
module Scheduler {
  import opened Wrappers

  const EVICTION_PERIOD: nat := 60_000

  /** The time of the next scrape, and the interval it was computed with. */
  datatype Slot = Slot(at: nat, interval: nat)

  /** One registered EPA as a tick finds it: whether this replica should scrape it, and the ready pods, or
      None when resolving the selector or listing the pods fails. */
  datatype Epa = Epa(key: string, evaluationPeriod: nat, interval: nat, scrape: bool, pods: Option<seq<string>>)

  datatype ScrapeJob = ScrapeJob(key: string, pod: string, maxSamples: nat)

  function AsSecs(ms: nat): nat {
    ms / 1000
  }

  function DivCeil(a: nat, b: nat): nat
    requires b > 0
  {
    (a + b - 1) / b
  }

  function AtLeastOne(n: nat): nat {
    if n == 0 then 1 else n
  }

  /** How many samples a window must hold to cover the evaluation period. */
  function MaxSamples(evaluationPeriod: nat, interval: nat): nat {
    AtLeastOne(DivCeil(AsSecs(evaluationPeriod), AtLeastOne(AsSecs(interval))))
  }

  predicate Due(next: map<string, Slot>, epa: Epa, now: nat) {
    !(epa.key in next && next[epa.key].interval == epa.interval && now < next[epa.key].at)
  }

  predicate Dispatches(next: map<string, Slot>, epa: Epa, now: nat) {
    epa.scrape && Due(next, epa, now) && epa.pods.Some?
  }

  /** What process_epa does to the schedule. */
  function Processed(next: map<string, Slot>, epa: Epa, now: nat): map<string, Slot> {
    if Dispatches(next, epa, now) then next[epa.key := Slot(now + epa.interval, epa.interval)] else next
  }

  function JobsFor(epa: Epa): (jobs: seq<ScrapeJob>)
    requires epa.pods.Some?
    ensures |jobs| == |epa.pods.value|
    ensures forall i | 0 <= i < |jobs| ::
      jobs[i] == ScrapeJob(epa.key, epa.pods.value[i], MaxSamples(epa.evaluationPeriod, epa.interval))
  {
    var pods := epa.pods.value;
    seq(|pods|, i requires 0 <= i < |pods| =>
      ScrapeJob(epa.key, pods[i], MaxSamples(epa.evaluationPeriod, epa.interval)))
  }

  function Jobs(next: map<string, Slot>, epa: Epa, now: nat): seq<ScrapeJob> {
    if Dispatches(next, epa, now) then JobsFor(epa) else []
  }

  function ProcessedAll(next: map<string, Slot>, epas: seq<Epa>, now: nat): map<string, Slot> {
    if epas == [] then next
    else Processed(ProcessedAll(next, epas[..|epas| - 1], now), epas[|epas| - 1], now)
  }

  function AllJobs(next: map<string, Slot>, epas: seq<Epa>, now: nat): seq<ScrapeJob> {
    if epas == [] then []
    else
      var before, last := epas[..|epas| - 1], epas[|epas| - 1];
      AllJobs(next, before, now) + Jobs(ProcessedAll(next, before, now), last, now)
  }

  ghost predicate DistinctKeys(epas: seq<Epa>) {
    forall i, j | 0 <= i < j < |epas| :: epas[i].key != epas[j].key
  }

  /** The schedule after one tick: entries of EPAs no longer registered are dropped. */
  function AfterTick(next: map<string, Slot>, epas: seq<Epa>, now: nat): map<string, Slot> {
    var processed := ProcessedAll(next, epas, now);
    map k | k in processed && k in (set i | 0 <= i < |epas| :: epas[i].key) :: processed[k]
  }

  class Scheduler {
    var nextScrape: map<string, Slot>
    var lastEviction: nat

    constructor (now: nat)
      ensures nextScrape == map[] && lastEviction == now
    {
      nextScrape, lastEviction := map[], now;
    }

    method ProcessEpa(epa: Epa, now: nat) returns (jobs: seq<ScrapeJob>)
      modifies this`nextScrape
      ensures nextScrape == Processed(old(nextScrape), epa, now)
      ensures jobs == Jobs(old(nextScrape), epa, now)
    {
      jobs := [];
      if !epa.scrape {
        return;
      }
      if epa.key in nextScrape {
        var slot := nextScrape[epa.key];
        if slot.interval == epa.interval && now < slot.at {
          return;
        }
      }
      var intervalSecs := AtLeastOne(AsSecs(epa.interval));
      var maxSamples := AtLeastOne(DivCeil(AsSecs(epa.evaluationPeriod), intervalSecs));
      if epa.pods.None? {
        return;
      }
      var pods := epa.pods.value;
      nextScrape := nextScrape[epa.key := Slot(now + epa.interval, epa.interval)];
      for i := 0 to |pods|
        invariant jobs == JobsFor(epa)[..i]
        invariant nextScrape == Processed(old(nextScrape), epa, now)
      {
        jobs := jobs + [ScrapeJob(epa.key, pods[i], maxSamples)];
      }
    }

    /** One iteration of the scheduler loop, and whether it evicts stale windows. */
    method Tick(epas: seq<Epa>, now: nat) returns (jobs: seq<ScrapeJob>, evict: bool)
      modifies this
      ensures evict <==> now >= old(lastEviction) + EVICTION_PERIOD
      ensures lastEviction == if evict then now else old(lastEviction)
      ensures nextScrape == AfterTick(old(nextScrape), epas, now)
      ensures jobs == AllJobs(old(nextScrape), epas, now)
    {
      jobs := [];
      for i := 0 to |epas|
        invariant nextScrape == ProcessedAll(old(nextScrape), epas[..i], now)
        invariant jobs == AllJobs(old(nextScrape), epas[..i], now) && lastEviction == old(lastEviction)
      {
        var more := ProcessEpa(epas[i], now);
        jobs := jobs + more;
        assert epas[..i + 1][..i] == epas[..i];
      }
      assert epas[..|epas|] == epas;
      var activeKeys := set i | 0 <= i < |epas| :: epas[i].key;
      nextScrape := map k | k in nextScrape && k in activeKeys :: nextScrape[k];
      evict := now >= lastEviction + EVICTION_PERIOD;
      if evict {
        lastEviction := now;
      }
    }
  }

  // ---- rounds are spaced by the interval ----

  /** Processing the other EPAs of a tick does not touch the slot of this one. */
  lemma {:induction false} OthersDoNotInterfere(next: map<string, Slot>, epas: seq<Epa>, now: nat, key: string)
    requires forall i | 0 <= i < |epas| :: epas[i].key != key
    ensures var after := ProcessedAll(next, epas, now);
      (key in after <==> key in next) && (key in next ==> after[key] == next[key])
  {
    if epas != [] {
      OthersDoNotInterfere(next, epas[..|epas| - 1], now, key);
    }
  }

  lemma {:induction false} OneEpaOfTick(next: map<string, Slot>, epas: seq<Epa>, now: nat, i: nat)
    requires DistinctKeys(epas) && i < |epas|
    ensures var key, before, after := epas[i].key, ProcessedAll(next, epas[..i], now), ProcessedAll(next, epas, now);
      && (Dispatches(before, epas[i], now) <==> Dispatches(next, epas[i], now))
      && (key in after <==> key in Processed(next, epas[i], now))
      && (key in after ==> after[key] == Processed(next, epas[i], now)[key])
    decreases |epas|
  {
    var n := |epas| - 1;
    if i < n {
      OneEpaOfTick(next, epas[..n], now, i);
      assert epas[..n][..i] == epas[..i];
    } else {
      OthersDoNotInterfere(next, epas[..i], now, epas[i].key);
    }
  }

  datatype Run = Run(schedules: seq<map<string, Slot>>, ticks: seq<seq<Epa>>, times: seq<nat>)

  ghost predicate Steps(run: Run, i: nat)
    requires i < |run.ticks| == |run.times| && |run.schedules| == |run.ticks| + 1
  {
    && DistinctKeys(run.ticks[i])
    && run.schedules[i + 1] == AfterTick(run.schedules[i], run.ticks[i], run.times[i])
  }

  ghost predicate Valid(run: Run) {
    && |run.ticks| == |run.times| && |run.schedules| == |run.ticks| + 1 && run.schedules[0] == map[]
    && (forall i: nat | i < |run.ticks| :: Steps(run, i))
    && (forall i, j | 0 <= i < j < |run.times| :: run.times[i] <= run.times[j])
  }

  /** Tick i finds the EPA registered, with this interval, at position at[i] of its iteration order. */
  ghost predicate RegisteredThroughout(run: Run, key: string, interval: nat, at: seq<nat>) {
    && |at| == |run.ticks|
    && forall i | 0 <= i < |at| ::
         at[i] < |run.ticks[i]| && run.ticks[i][at[i]].key == key && run.ticks[i][at[i]].interval == interval
  }

  /** Tick i dispatches a round of scrapes for the EPA. */
  predicate Round(run: Run, at: seq<nat>, i: nat)
    requires |run.ticks| == |run.times| == |at| && |run.schedules| == |run.ticks| + 1
    requires i < |at| && at[i] < |run.ticks[i]|
  {
    Dispatches(run.schedules[i], run.ticks[i][at[i]], run.times[i])
  }

  lemma SlotAfterTick(run: Run, key: string, interval: nat, at: seq<nat>, i: nat)
    requires Valid(run) && RegisteredThroughout(run, key, interval, at) && i < |at|
    ensures Round(run, at, i) ==>
      key in run.schedules[i + 1] && run.schedules[i + 1][key] == Slot(run.times[i] + interval, interval)
    ensures !Round(run, at, i) && key in run.schedules[i] ==>
      key in run.schedules[i + 1] && run.schedules[i + 1][key] == run.schedules[i][key]
  {
    assert Steps(run, i);
    OneEpaOfTick(run.schedules[i], run.ticks[i], run.times[i], at[i]);
  }

  /** After a round the slot of the EPA stays at least one interval past it. */
  lemma {:induction false} SlotStaysAhead(run: Run, key: string, interval: nat, at: seq<nat>, i: nat, n: nat)
    requires Valid(run) && RegisteredThroughout(run, key, interval, at)
    requires i < n <= |at| && Round(run, at, i)
    ensures key in run.schedules[n]
    ensures run.schedules[n][key].interval == interval && run.schedules[n][key].at >= run.times[i] + interval
    decreases n
  {
    SlotAfterTick(run, key, interval, at, n - 1);
    if i < n - 1 {
      SlotStaysAhead(run, key, interval, at, i, n - 1);
    }
  }

  /** Two rounds of an EPA lie at least an interval apart, however late or irregular the ticks are. */
  lemma RoundsAreSpaced(run: Run, key: string, interval: nat, at: seq<nat>, i: nat, j: nat)
    requires Valid(run) && RegisteredThroughout(run, key, interval, at)
    requires i < j < |at| && Round(run, at, i) && Round(run, at, j)
    ensures run.times[j] >= run.times[i] + interval
  {
    SlotStaysAhead(run, key, interval, at, i, j);
  }

  /** rounds lists ticks that dispatch the EPA, in order; it need not list all of them. */
  ghost predicate Rounds(run: Run, at: seq<nat>, rounds: seq<nat>)
    requires |run.ticks| == |run.times| == |at| && |run.schedules| == |run.ticks| + 1
    requires forall i | 0 <= i < |at| :: at[i] < |run.ticks[i]|
  {
    && (forall p | 0 <= p < |rounds| :: rounds[p] < |at| && Round(run, at, rounds[p]))
    && (forall p, q | 0 <= p < q < |rounds| :: rounds[p] < rounds[q])
  }

  lemma {:induction false} ManyRoundsTakeLong(run: Run, key: string, interval: nat, at: seq<nat>,
                                              rounds: seq<nat>, p: nat, c: nat)
    requires Valid(run) && RegisteredThroughout(run, key, interval, at) && Rounds(run, at, rounds)
    requires p + c < |rounds|
    ensures run.times[rounds[p + c]] >= run.times[rounds[p]] + c * interval
    decreases c
  {
    if c > 0 {
      ManyRoundsTakeLong(run, key, interval, at, rounds, p, c - 1);
      RoundsAreSpaced(run, key, interval, at, rounds[p + c - 1], rounds[p + c]);
      assert c * interval == (c - 1) * interval + interval;
    }
  }

  // ---- when an EPA is dispatched, in general ----

  /** The registered EPA of this key. */
  function EpaOf(epas: seq<Epa>, key: string): (e: Option<Epa>)
    ensures e.Some? ==> e.value.key == key && e.value in epas
    ensures e.None? ==> forall i | 0 <= i < |epas| :: epas[i].key != key
  {
    if epas == [] then None
    else if epas[|epas| - 1].key == key then Some(epas[|epas| - 1])
    else EpaOf(epas[..|epas| - 1], key)
  }

  predicate RoundOf(run: Run, key: string, i: nat)
    requires i < |run.ticks| == |run.times| && |run.schedules| == |run.ticks| + 1
  {
    var e := EpaOf(run.ticks[i], key);
    e.Some? && Dispatches(run.schedules[i], e.value, run.times[i])
  }

  /** Tick i is the latest round of the EPA before tick n, and the EPA has been registered ever since. */
  ghost predicate LatestRound(run: Run, key: string, n: nat, i: nat)
    requires n <= |run.ticks| == |run.times| && |run.schedules| == |run.ticks| + 1
  {
    && i < n && RoundOf(run, key, i)
    && forall k: nat | i < k < n :: EpaOf(run.ticks[k], key).Some? && !RoundOf(run, key, k)
  }

  /** A tick keeps slots of registered EPAs only, and moves the slot of an EPA exactly if it dispatches it. */
  lemma SlotStep(next: map<string, Slot>, epas: seq<Epa>, now: nat, key: string)
    requires DistinctKeys(epas)
    ensures var after := AfterTick(next, epas, now);
      match EpaOf(epas, key)
      case None => key !in after
      case Some(e) =>
        && (key in after <==> Dispatches(next, e, now) || key in next)
        && (Dispatches(next, e, now) ==> after[key] == Slot(now + e.interval, e.interval))
        && (!Dispatches(next, e, now) && key in next ==> after[key] == next[key])
  {
    var e := EpaOf(epas, key);
    if e.Some? {
      var i :| 0 <= i < |epas| && epas[i] == e.value;
      OneEpaOfTick(next, epas, now, i);
    }
  }

  /** The schedule remembers exactly the latest rounds. */
  lemma {:induction false} SlotMeaning(run: Run, key: string, n: nat) returns (i: nat)
    requires Valid(run) && n <= |run.ticks|
    ensures key in run.schedules[n] ==> LatestRound(run, key, n, i)
    ensures forall j: nat | LatestRound(run, key, n, j) ::
      && key in run.schedules[n] && EpaOf(run.ticks[j], key).Some?
      && var interval := EpaOf(run.ticks[j], key).value.interval;
      run.schedules[n][key] == Slot(run.times[j] + interval, interval)
  {
    i := 0;
    if n > 0 {
      assert Steps(run, n - 1);
      SlotStep(run.schedules[n - 1], run.ticks[n - 1], run.times[n - 1], key);
      i := SlotMeaning(run, key, n - 1);
      forall j: nat | LatestRound(run, key, n, j) && j != n - 1 ensures LatestRound(run, key, n - 1, j) {
      }
      if RoundOf(run, key, n - 1) {
        i := n - 1;
      }
    }
  }

  /** A tick dispatches an EPA exactly when it is registered, this replica scrapes it, its pods are known, and
      its latest round, if it has been registered since, had another interval or is that interval ago. */
  lemma RoundIff(run: Run, key: string, j: nat)
    requires Valid(run) && j < |run.ticks|
    ensures RoundOf(run, key, j) <==>
      && EpaOf(run.ticks[j], key).Some?
      && var e := EpaOf(run.ticks[j], key).value;
      && e.scrape && e.pods.Some?
      && forall i: nat | LatestRound(run, key, j, i) ::
           var before := EpaOf(run.ticks[i], key).value.interval;
           before != e.interval || run.times[j] >= run.times[i] + before
  {
    var i := SlotMeaning(run, key, j);
  }

  // ---- what a tick dispatches ----

  function JobsOf(jobs: seq<ScrapeJob>, key: string): seq<ScrapeJob> {
    if jobs == [] then []
    else
      var before, last := JobsOf(jobs[..|jobs| - 1], key), jobs[|jobs| - 1];
      if last.key == key then before + [last] else before
  }

  lemma {:induction false} JobsOfConcat(jobs: seq<ScrapeJob>, more: seq<ScrapeJob>, key: string)
    ensures JobsOf(jobs + more, key) == JobsOf(jobs, key) + JobsOf(more, key)
  {
    if more == [] {
      assert jobs + more == jobs;
    } else {
      JobsOfConcat(jobs, more[..|more| - 1], key);
      assert (jobs + more)[..|jobs + more| - 1] == jobs + more[..|more| - 1];
    }
  }

  lemma {:induction false} JobsOfOne(jobs: seq<ScrapeJob>, of: string, key: string)
    requires forall i | 0 <= i < |jobs| :: jobs[i].key == of
    ensures JobsOf(jobs, key) == if of == key then jobs else []
  {
    if jobs != [] {
      JobsOfOne(jobs[..|jobs| - 1], of, key);
    }
  }

  /** For every registered EPA that is due, and for no other, a tick dispatches one job for each ready pod, in
      their order, asking for the computed capacity. */
  lemma {:induction false} TickDispatches(next: map<string, Slot>, epas: seq<Epa>, now: nat, key: string)
    requires DistinctKeys(epas)
    ensures JobsOf(AllJobs(next, epas, now), key) ==
      match EpaOf(epas, key)
      case None => []
      case Some(e) => if Dispatches(next, e, now) then JobsFor(e) else []
  {
    if epas != [] {
      var before, last := epas[..|epas| - 1], epas[|epas| - 1];
      var jobs := Jobs(ProcessedAll(next, before, now), last, now);
      TickDispatches(next, before, now, key);
      JobsOfConcat(AllJobs(next, before, now), jobs, key);
      JobsOfOne(jobs, last.key, key);
      if last.key == key {
        NotAmongOthers(epas, key);
        OthersDoNotInterfere(next, before, now, key);
      }
    }
  }

  lemma NotAmongOthers(epas: seq<Epa>, key: string)
    requires DistinctKeys(epas) && epas != [] && epas[|epas| - 1].key == key
    ensures var others := epas[..|epas| - 1];
      EpaOf(others, key) == None && forall i | 0 <= i < |others| :: others[i].key != key
  {
    var others := epas[..|epas| - 1];
    forall o | o in others ensures o.key != key {
      var i :| 0 <= i < |others| && others[i] == o;
    }
  }

  // ---- the window covers the evaluation period ----

  lemma DivCeilCovers(a: nat, b: nat)
    requires b > 0
    ensures DivCeil(a, b) * b >= a
  {
    var x := a + b - 1;
    assert x == (x / b) * b + x % b;
  }

  lemma MultiplyMonotone(c: nat, a: nat, b: nat)
    requires a <= b
    ensures c * a <= c * b
  {
  }

  lemma SampleCountCovers(evaluationPeriod: nat, interval: nat)
    ensures MaxSamples(evaluationPeriod, interval) >= 1
    ensures MaxSamples(evaluationPeriod, interval) * AtLeastOne(AsSecs(interval)) >= AsSecs(evaluationPeriod)
    ensures interval < 1000 && evaluationPeriod >= 1000 ==>
      MaxSamples(evaluationPeriod, interval) == AsSecs(evaluationPeriod)
  {
    var e, s := AsSecs(evaluationPeriod), AtLeastOne(AsSecs(interval));
    DivCeilCovers(e, s);
    MultiplyMonotone(s, DivCeil(e, s), AtLeastOne(DivCeil(e, s)));
  }

  /** c intervals of at least s whole seconds each make up at least e seconds, if c times s does. */
  lemma SecondsAddUp(c: nat, s: nat, interval: nat, e: nat)
    requires c * s >= e && s * 1000 <= interval
    ensures c * interval >= e * 1000
  {
    MultiplyMonotone(c, s * 1000, interval);
    assert c * (s * 1000) == (c * s) * 1000;
  }

  /** max_samples intervals cover the evaluation period, in whole seconds, exactly when the interval is at
      least a second or the evaluation period is below one. */
  lemma MaxSamplesCoverIff(evaluationPeriod: nat, interval: nat)
    ensures MaxSamples(evaluationPeriod, interval) * interval >= AsSecs(evaluationPeriod) * 1000
      <==> interval >= 1000 || evaluationPeriod < 1000
  {
    var e, c := AsSecs(evaluationPeriod), MaxSamples(evaluationPeriod, interval);
    SampleCountCovers(evaluationPeriod, interval);
    if interval >= 1000 {
      SecondsAddUp(c, AsSecs(interval), interval, e);
    } else if evaluationPeriod >= 1000 {
      MultiplyMonotone(e, interval, 999);
    }
  }

  /** The least positive number of samples that covers the period at whole-second intervals: one sample fewer
      falls short. */
  lemma MaxSamplesIsLeast(evaluationPeriod: nat, interval: nat)
    ensures var c := MaxSamples(evaluationPeriod, interval);
      && c >= 1 && c * AtLeastOne(AsSecs(interval)) >= AsSecs(evaluationPeriod)
    ensures var c := MaxSamples(evaluationPeriod, interval);
      c == 1 || (c - 1) * AtLeastOne(AsSecs(interval)) < AsSecs(evaluationPeriod)
  {
    var e, s := AsSecs(evaluationPeriod), AtLeastOne(AsSecs(interval));
    var x := e + s - 1;
    assert x == (x / s) * s + x % s;
    var q := x / s;
    assert q > 0 ==> (q - 1) * s == q * s - s;
  }
}
