# Verified model of the external-pod-autoscaler

The external-pod-autoscaler runs as several replicas. They find each other through Kubernetes leases, divide the
ExternalPodAutoscaler resources (EPAs) among themselves by rendezvous hashing, scrape pod metrics into sliding
windows, and answer the external metrics API. This project models that logic in Dafny and proves what it promises.

## What is modelled

- **Leases and drain** (`Membership`, `Drain`): the active and draining sets a replica derives from a lease
  listing, the local draining flag, and whole runs of one replica.
- **Election** (`Fnv`, `Rendezvous`): FNV-1a weights and the highest-weight choice. The hash crate's source is not
  part of this model, so its behaviour is written out: the state starts at the offset basis, each string feeds its
  UTF-8 bytes and then one 0xFF byte, each byte is xored in and the state multiplied by the prime modulo 2^64.
- **Ownership handoff** (`Transitions`, `Ownership`, `Handoff`): the `owned` and `lost` maps, refreshed once per
  tick, and who serves during a handoff.
- **Forwarding** (`Forwarding`, `FleetRuns`, `Handler`): where a request goes, fleets of replicas that each went
  through a run of their own, and the whole handler.
- **Windows, store, schedule** (`Window`, `Store`, `StoreRuns`, `Scheduler`, `Retention`, `Stats`): the FIFO buffers,
  the TTL cache, the scrape gate and window sizing, and the scrape counters under all interleavings.
- **Aggregation** (`Counters`, `Gauges`, `Aggregation`): counter rates, gauge aggregates, the cross-pod sum.
- **Codecs** (`MetricName`, `Selector`): external metric names and label selectors.

The classes `MembershipManager`, `EpaOwnership`, `MetricWindow`, `MetricsStore`, `Scheduler` and `ScrapeStats` keep
the source's mutable fields; each method is proved against a function or relation on values, and the theorems are
about those. `EpaOwnership` and `ScrapeStats` also carry a ghost record of what happened to them, the refresh history
and the run of atomic accesses, which every method extends. Code that is an expression in the source is a function.

## Main results

- Along a handoff chain of any length there is no instant at which nobody serves, for any placement of the
  refreshes (`Handoff.NoServingGap`), **provided that** each handoff of the chain is undisturbed: before the successor's
  first evaluation period is over, the leaver neither wins the key back nor refreshes after its grace window. For an
  evaluation period above zero and a successor that wins for the first time, a handoff is without a gap if and only if
  it is undisturbed (`Handoff.SeamlessIff`). A successor that wins within the five-second buffer leaves only the winning
  back as a danger (`Handoff.TimelyTakeoverHandsOverIff`). Both dangers are real: `Handoff.LateTakeoverLeavesGap` and
  `Handoff.QuickRewinLeavesGap` give the inputs. The second is one the source permits
  (`src/membership/ownership.rs` lines 131-142): winning back drops the loss and with it the right to serve.
- The two-hop claim made for forwarding is **not** always true. `Forwarding.HopsBoundedIff` gives the exact condition,
  and `Forwarding.HopsBoundedByHistory` the same in terms of what each replica refreshed. When it fails the request
  bounces between the owner and its draining predecessor for ever. That takes no lateness: it happens to every EPA that
  is first refreshed while a heavier replica drains, through the whole first evaluation period of its owner
  (`FleetRuns.NewEpaBounces`), and also after a takeover later than the buffer (`FleetRuns.LateTakeoverBounces`). Both
  are reached by whole runs of the two replicas, from lease listings through elections to their maps. The comment at
  `src/webhook/metrics/handlers.rs` lines 92-99 and `docs/lease-membership.md` say that cycles are impossible; the
  model follows the code.
- `owned` and `lost` say exactly what the refresh history says (`Transitions.MapsRefineHistory`), and a drain is never
  undone (`Drain.DrainIsSticky`).
- Two replicas that tie on one EPA tie on all of them (`Fnv.TiesIgnoreTheKey`); without ties every replica elects the
  same owner, and a membership change moves only the EPAs it must.
- In every run of the store a request is answered with the whole number of a value recomputed less than ten seconds
  ago or, failing that, of the sum over the current windows (`StoreRuns.ReplyMeans`); a cached reply repeats the reply
  of the request that computed it (`StoreRuns.CachedReplyRepeats`), and cleaning the cache is invisible
  (`StoreRuns.CleanupIsInvisible`). A window stays until an operation that should take it
  (`StoreRuns.WindowStaysUntilTaken`).
- What a pod contributes is stated outright for every aggregation type and for counters (`Aggregation.GaugeValue`,
  `Aggregation.CounterValue`), and what the request handler decides outright by the refresh history
  (`Handler.DecisionMeans`).
- In every run of the scheduler together with a run of the store that its jobs feed, no sample is evicted before its
  evaluation period has passed (`Retention.NoSampleEvictedEarly`), provided that the scrape interval is at least a
  second or the evaluation period below one; `Scheduler.MaxSamplesCoverIff` shows that the window size covers the
  period exactly then.
- Scrape outcomes are conserved in every interleaving until a 32-bit counter wraps (`Stats.OutcomesConservedIff`), and
  so every report of the scheduler leaves exactly the unreported outcomes in the counters, whether its patch succeeds
  or not and whatever workers record meanwhile (`Stats.ScrapeStats.Report`); `Stats.LongRunLosesCount` shows that a
  counter can wrap.
- Both codecs round-trip exactly on the inputs named by `MetricName.PrintedParsesBackIff` and
  `Selector.RoundTripIffClean`.

## Conventions

Times and durations are natural numbers of milliseconds on one clock, and one call reads the clock once. `f64` is
`real`. A parameter named `order` is the iteration order of a hash set or map at that call; theorems hold for every
order. A network or API outcome is a parameter. Store operations are atomic, except in `Stats`, where every atomic
access is a step of its own.

Small facts that only guard the definitions, such as the published FNV-1a value of one letter
(`Fnv.HashOfLetterA`), the mirrored median and the sum behind the average, are proved in the files and have no row
below.

## Model

| member | source | states |
|---|---|---|
| Fnv.TiesIgnoreTheKey | src/membership/ownership.rs:265-276 | two replica IDs have equal weight for one EPA iff they have equal weight for every EPA |
| Fnv.WeightHashesBytes | src/membership/ownership.rs:271-276 | the weight is the hash of the bytes of replica ID and EPA key, in this order, each closed by 0xFF |
| Fnv.WeightTellsKeysApart | src/membership/ownership.rs:271-276 | every replica weighs two EPAs differently whose keys differ in one ASCII character |
| Fnv.FeedInjective | src/membership/ownership.rs:271-276 | one hash step with a given byte maps distinct 64-bit states to distinct states |
| Fnv.FeedStringInjective | src/membership/ownership.rs:272-274 | hashing a whole string, with its terminator byte, keeps distinct states distinct |
| Fnv.Utf8Injective | src/membership/ownership.rs:271-276 | the bytes fed to the hasher determine the string |
| Ownership.TieFreedomIgnoresTheKey | src/membership/ownership.rs:251-276 | a replica set free of ties for one EPA is free of ties for every EPA |
| Rendezvous.MaxByWeight | src/membership/ownership.rs:251-263 | the chosen candidate has maximal weight and is the last one that has it |
| Rendezvous.LastOfTheHeaviestWins | src/membership/ownership.rs:251-263 | elected is the last of the heaviest candidates of the iteration order, and someone as soon as there is a candidate |
| Rendezvous.ElectionIgnoresOrder | src/membership/ownership.rs:78-95 | none is chosen iff there are no candidates; the choice is a heaviest one; without ties it is the heaviest one in every iteration order |
| Rendezvous.Agreement | src/membership/ownership.rs:78-95 | without ties two replicas with the same view elect the same owner |
| Rendezvous.AddingMovesOnlyToNewcomer | src/membership/ownership.rs:39-46 | a new replica takes an EPA iff it outweighs all others; otherwise the owner does not change |
| Rendezvous.RemovingMovesOnlyItsOwn | src/membership/ownership.rs:39-46 | removing a replica changes the owner of an EPA iff that replica owned it |
| Rendezvous.PredecessorIsOwnerOrHeavierDraining | src/membership/ownership.rs:213-243 | the winner over active and draining replicas is the owner, or a draining replica of greater weight, and which of the two is decided by whether such a replica exists |
| Membership.MembershipManager.UpdateActiveReplicas | src/membership/manager.rs:238-312 | after a successful listing the sets are exactly the unexpired leases by label, with this replica moved to draining when its flag is up; a failed listing changes nothing |
| Membership.ViewMeans | src/membership/manager.rs:247-309 | after a successful update a replica is active (draining) iff a lease of its name without (with) the label is less than its duration and less than a day old; a locally draining replica is draining and never active |
| Membership.MembershipManager.MarkDraining | src/membership/manager.rs:364-391 | raises the flag, leaves both sets alone, and announces a lease labelled draining |
| Membership.MembershipManager.DeleteLease | src/membership/manager.rs:393-442 | raises the flag in every case; a lease already absent is no error |
| Membership.ActiveAndDrainingAreDisjoint | src/membership/manager.rs:338-355 | with unique lease names no replica is both active and draining |
| Membership.RenewedLeaseReadsBack | src/membership/manager.rs:120-169 | a renewed lease is read by any replica as its writer, with the flag it was written with, for exactly thirty seconds |
| Drain.SetsAndMapsStayDisjoint | src/membership/manager.rs:338-355 | in every reachable state active and draining are disjoint, and so are owned and lost |
| Drain.StaysDraining | src/membership/manager.rs:300-311 | from a successful update after the flag went up, the replica is never again in its own active set |
| Drain.NeverWinsAgain | src/membership/ownership.rs:123-131 | ... and never again wins an election |
| Drain.DrainIsSticky | src/membership/ownership.rs:131-151 | ... and each EPA it owned moves to lost at its next refresh, stamped with that time and period, and is never owned again |
| Transitions.MapsRefineHistory | src/membership/ownership.rs:129-155 | owned holds a key iff its winning run is unbroken, since the first win of that run and with the latest period; lost holds it iff its latest refresh run is a loss after a win and no refresh of any key came after the grace window; never both |
| Transitions.RunStartMeaning | src/membership/ownership.rs:131-143 | the remembered start is the first refresh of the current unbroken winning run |
| Transitions.LossIndexMeaning | src/membership/ownership.rs:143-155 | the remembered loss is the refresh that ended the last winning run, until a win or an expiry |
| Transitions.HistoryDecides | src/membership/ownership.rs:166-211 | a key is owned iff a winning run of it is unbroken, lost iff the loss that ended one is remembered, and served under any view iff that run is a period old or the loss is remembered |
| Ownership.EpaOwnership.RefreshOwnership | src/membership/ownership.rs:97-156 | this replica wins only if no active replica outweighs it for the EPA, and without ties also if; a win keeps or starts the ownership with the new period and forgets a loss, a loss of an owned EPA is stamped once, expired losses of all EPAs are dropped, nothing else changes, and the history grows by this outcome |
| Ownership.EpaOwnership.GetEpaOwner | src/membership/ownership.rs:86-95 | none iff no replica is active, else an active replica that no active one outweighs for namespace/name |
| Ownership.EpaOwnership.GetPreviousEpaOwner | src/membership/ownership.rs:229-243 | the same over active and draining replicas |
| Ownership.ElectedIsUnique | src/membership/ownership.rs:78-95 | without ties every replica and every iteration order elects the same for an EPA |
| Ownership.KeysTellEpasApart | src/membership/ownership.rs:86-95 | EPAs whose namespaces contain no slash have equal keys iff they are equal |
| Ownership.EpaOwnership.RecordElection | src/membership/ownership.rs:129-155 | the update under the lock: entry, remove, first loss time kept, expired entries of all keys dropped |
| Ownership.EpaOwnership.ShouldScrapeEpa | src/membership/ownership.rs:166-171 | true iff, in the history of all refreshes, a winning run of the EPA is unbroken or the loss that ended one is still within its grace window at every refresh since |
| Ownership.EpaOwnership.ShouldServeEpa | src/membership/ownership.rs:189-211 | true iff, in the refresh history, the winning run is a full period old, or the loss is remembered, or the run is unbroken and no other replica wins over active and draining |
| Ownership.OwnerHoldsBackForHeavierDraining | src/membership/ownership.rs:179-211 | inside its first period an owner holds back from serving iff a heavier draining replica is visible |
| Ownership.ExactlyOneOwner | src/membership/ownership.rs:78-95 | once every replica has refreshed on one non-empty tie-free view, exactly one of them owns the EPA |
| Handoff.NoServingGap | src/membership/ownership.rs:114-211 | along a chain of handoffs, none of which is disturbed before the successor's first period is over, some replica serves at every instant from the end of the first evaluation period on |
| Handoff.OwnerServesAfterPeriod | src/membership/ownership.rs:195-198 | a replica whose run of wins is at least a period old serves, whatever it sees of others |
| Handoff.SeamlessIff | src/membership/ownership.rs:114-211 | for a positive period, a leaver in time order and a successor that first wins at b and keeps the win: one of them serves under any view at every instant and cut from the loss on iff no refresh of the leaver before b plus the period wins the key back or comes after its grace window |
| Handoff.TimelyTakeoverHandsOverIff | src/membership/ownership.rs:10-12 | a takeover within the grace buffer is undisturbed iff the leaver does not win the key back before the successor's first period is over |
| Handoff.LoserServesUntilDisturbed | src/membership/ownership.rs:143-155 | a replica that lost serves after every further refresh, at any time, until one wins the key back or comes after the grace window |
| Handoff.DisturbanceStopsServing | src/membership/ownership.rs:131-155 | at the first such refresh it stops serving regardless of the view |
| Handoff.LateTakeoverLeavesGap | src/membership/ownership.rs:10-12 | for any takeover later than the buffer there are refreshes after which neither replica serves at some instant |
| Handoff.QuickRewinLeavesGap | src/membership/ownership.rs:131-142 | for any takeover within the buffer and any winning back inside the successor's first period there are refreshes after which both own the key and neither serves if it sees another previous owner |
| Forwarding.DecisionsIgnoreOrder | src/webhook/metrics/handlers.rs:60-128 | on a tie-free shared view a replica's decision is the same for all iteration orders |
| Forwarding.DecideRoutes | src/webhook/metrics/handlers.rs:60-128 | a replica keeps a request iff it serves; else it goes to an owner that is another replica, or from the owner to a predecessor that is another one; else nowhere |
| Forwarding.HopsBoundedIff | src/webhook/metrics/handlers.rs:88-128 | a request ends within two hops iff no replica is active, or the receiver, the owner or the predecessor serves, or owner and predecessor coincide; otherwise it never ends |
| Forwarding.BouncesForever | src/webhook/metrics/handlers.rs:100-128 | in the other case every hop swaps owner and predecessor and no visited replica serves |
| Forwarding.HopsBoundedByHistory | src/webhook/metrics/handlers.rs:88-128 | the same condition by refresh histories: the owner's or receiver's winning run is a period old or its loss remembered, or the predecessor has an unbroken run or a remembered loss |
| Forwarding.GraceBoundsHops | src/webhook/metrics/handlers.rs:88-99 | while the predecessor remembers its loss, or the owner has filled its window, two hops suffice |
| FleetRuns.RunReplaysOutcomes | src/membership/ownership.rs:114-156 | the maps of a replica after a run are those of its refreshes, each with the outcome of its election |
| FleetRuns.HopsBoundedByRuns | src/webhook/metrics/handlers.rs:88-128 | in every fleet that arises from lease listings the elections of its runs decide whether a request ends |
| FleetRuns.NewEpaBounces | src/webhook/metrics/handlers.rs:92-99 | for any two replicas of different weight, runs from lease listings after which an EPA first refreshed while the heavier one drains is forwarded for ever, at every instant of the owner's first period |
| FleetRuns.LateTakeoverBounces | src/webhook/metrics/handlers.rs:92-99 | the same after the heavier one owned the EPA, lost it and let its grace window pass, for any takeover later than the buffer by at most one period |
| Handler.GetExternalMetric | src/webhook/metrics/handlers.rs:35-454 | a bad name is rejected and changes nothing; a replica that decides to process answers locally; a successful forward is passed on and changes nothing; any other request is answered locally if the metric has a window and is unavailable if not |
| Handler.DecisionMeans | src/webhook/metrics/handlers.rs:60-128 | by the refresh history: process iff the window is filled, or the loss remembered, or the EPA owned with no other winner visible; else forward to the elected owner, or from that owner to the elected predecessor; else neither |
| Handler.DecisionIsNextHop | src/webhook/metrics/handlers.rs:60-128 | without ties the handler's decision is the next hop of the fleet model, so the theorems on hops apply to it |
| Handler.LocalAnswer | src/webhook/metrics/handlers.rs:291-454 | a valid cached value is reported and nothing changes; else the cross-pod sum is reported and cached for ten seconds if some pod has a value; else the metric is unavailable and nothing changes |
| Handler.UnforwardedAnswer | src/webhook/metrics/handlers.rs:265-286 | after a failed forward a metric without windows is unavailable even if cached; any other is answered locally |
| Handler.AnswerLocally | src/webhook/metrics/handlers.rs:291-454 | the cached value while valid, else a fresh aggregation, cached for ten seconds iff some pod contributed; reported as a 64-bit whole number |
| Handler.Reported | src/webhook/metrics/handlers.rs:435-442 | the value rounded towards zero, or the nearest 64-bit bound |
| Handler.Carry | src/webhook/metrics/handlers.rs:60-286 | serving replicas answer locally; a forward that succeeds is passed on; otherwise local data is used if there is any |
| Handler.AnswerIgnoresOrder | src/webhook/metrics/handlers.rs:347-380 | the answer does not depend on the order in which the windows are enumerated |
| Window.MetricWindow.Push | src/store/window.rs:26-32 | a full buffer loses its oldest sample; the new one goes last |
| Window.WindowIsLastSamples | src/store/window.rs:5-32 | after any pushes the buffer is the most recent min(n, max(1, capacity)) samples in order |
| Window.PushEvictsOneCapacityBack | src/store/window.rs:26-32 | push j evicts exactly the sample pushed one capacity earlier |
| Store.MetricsStore.PushSample | src/store/ops.rs:22-48 | creates the window with the given capacity if absent and pushes into that window only; every other window stays, with its samples |
| Store.MetricsStore.GetWindows | src/store/ops.rs:50-80 | a pod and window are listed iff the store holds that window for namespace, EPA, metric and pod; each pod once |
| Store.ListingsAgree | src/store/ops.rs:63-80 | two enumerations of the same windows differ in order only |
| Store.MetricsStore.CacheResult | src/store/ops.rs:107-136 | overwrites the entry of that metric and nothing else |
| Store.MetricsStore.CleanupExpiredCache | src/store/ops.rs:306-322 | keeps exactly the valid entries and counts the others |
| Store.MetricsStore.RemoveEpaWindows | src/store/ops.rs:269-296 | drops the windows, cache entries and configurations of that EPA and no others |
| Store.MetricsStore.RetainPodWindows | src/store/ops.rs:229-247 | drops the windows of that EPA's other pods and counts them |
| Store.MetricsStore.EvictStaleWindows | src/store/ops.rs:193-227 | drops exactly the non-empty windows whose newest sample is too old |
| StoreRuns.CachedIsRecentRecomputation | src/store/ops.rs:94-136 | in every run a cached answer is what aggregation gave on the store and configuration less than ten seconds before, after the last removal of the EPA |
| StoreRuns.CachedIffRecent | src/store/ops.rs:94-136 | with a clock that never goes back, a value is cached iff it was recomputed less than ten seconds ago and the EPA not removed since |
| StoreRuns.ReplyMeans | src/webhook/metrics/handlers.rs:291-454 | in every run a request is answered with the whole number of a value recomputed less than ten seconds ago or, if there is none, of the sum over the current windows; it is unavailable iff there is neither |
| StoreRuns.CachedReplyRepeats | src/webhook/metrics/handlers.rs:291-334 | a request that finds a cached value gets the very reply of the request that computed it, less than ten seconds before |
| StoreRuns.EntryStep | src/store/ops.rs:107-136 | an entry is replaced only by a request that misses and has a contributing pod, by its sum for ten seconds, and goes only by a cleanup after its time or the removal of its EPA |
| StoreRuns.ConfigStep | src/store/ops.rs:138-191 | the configured aggregation is that of the last setting since the EPA was removed, or the average |
| StoreRuns.EntryWasRecomputed | src/webhook/metrics/handlers.rs:341-422 | every cache entry stems from a request that missed the cache and had a contributing pod |
| StoreRuns.CleanupIsInvisible | src/store/ops.rs:306-322 | cleanup changes no present answer and no answer of any later operations |
| StoreRuns.WindowRefinesPushes | src/store/ops.rs:34-48 | a live window is the last part of the samples pushed since its creation, with the capacity of the creating push, whatever later pushes ask for |
| StoreRuns.WindowStep | src/store/ops.rs:193-296 | a window goes iff its EPA is removed, its pod is no longer kept, or its newest sample is older than the limit; comes only by a push to its key; and changes only by one |
| StoreRuns.WindowStaysUntilTaken | src/store/ops.rs:34-48 | over whole runs a live window stays, with every push to it on record, until such an operation |
| StoreRuns.PushEvictsOldest | src/store/window.rs:26-32 | in every run a push evicts nothing, or exactly the sample pushed one creating capacity earlier in the life of the window |
| StoreRuns.RemovalIsIsolated | src/store/ops.rs:269-296 | after removing an EPA its metrics are unavailable and all others are answered as before |
| Scheduler.Scheduler.ProcessEpa | src/scraper/scheduler.rs:141-273 | dispatches one job per ready pod, with the computed capacity, and moves the slot, iff this replica scrapes, the slot is due and the pods are known |
| Scheduler.Scheduler.Tick | src/scraper/scheduler.rs:88-130 | processes the registered EPAs in turn, drops slots of the others, and says when stale windows are due for eviction |
| Scheduler.RoundsAreSpaced | src/scraper/scheduler.rs:162-170 | two rounds of an EPA with a fixed interval lie at least the interval apart |
| Scheduler.RoundIff | src/scraper/scheduler.rs:158-223 | a tick is a round of an EPA iff it is registered, this replica scrapes it, its pods are known, and its latest round, if it has been registered since, had another interval or is that interval ago |
| Scheduler.SlotMeaning | src/scraper/scheduler.rs:116-223 | the schedule holds a slot for an EPA iff it had a round and has been registered ever since, and the slot is that round plus its interval |
| Scheduler.TickDispatches | src/scraper/scheduler.rs:99-114 | for each registered EPA that is due, and no other, a tick dispatches one job per ready pod, in order, with the computed capacity |
| Scheduler.ManyRoundsTakeLong | src/scraper/scheduler.rs:162-223 | c further rounds take at least c intervals |
| Scheduler.MaxSamplesCoverIff | src/scraper/scheduler.rs:185-186 | the window size covers the whole seconds of the evaluation period iff the interval is at least a second or the period below one |
| Scheduler.MaxSamplesIsLeast | src/scraper/scheduler.rs:185-186 | the window size is the least positive number of whole-second intervals that covers the whole seconds of the period |
| Retention.NoSampleEvictedEarly | src/scraper/scheduler.rs:185-273 | in a scheduler run and a store run whose pushes to a key carry the capacity of its dispatched jobs, a push to the live window evicts only a sample whose job was dispatched at least the whole seconds of the evaluation period earlier |
| Stats.OutcomesConservedIff | src/store/types.rs:157-175 | in every interleaving recorded = counter + in flight + reported, for successes and errors, up to a state iff no addition before it overflowed |
| Stats.StepConservesIff | src/scraper/scheduler.rs:172-183 | one step, including a failed patch and its restore, conserves both counts iff it does not overflow |
| Stats.FewOutstandingNeverOverflow | src/store/types.rs:157-175 | with fewer than 2^31 - 1 outcomes of either kind awaiting report, every step conserves them |
| Stats.LongRunLosesCount | src/store/types.rs:157-175 | a run of 2^31 unreported successes after which the count is wrong |
| Stats.ScrapeStats.SnapshotAndReset | src/store/types.rs:165-170 | the run takes the two swaps with what workers record between them; within the 32-bit range the values are every success unreported before the call and every error unreported before the second swap, and what is left is what came after |
| Stats.ScrapeStats.Restore | src/store/types.rs:172-175 | the run takes the two additions with what workers record between them; within the range the counters are again every recorded and unreported outcome |
| Stats.ScrapeStats.Report | src/scraper/scheduler.rs:172-183 | a whole report: counters hold exactly the recorded and unreported outcomes afterwards, and a successful patch reports every success recorded before it and every error before the second swap |
| Counters.IncreaseIdentity | src/webhook/metrics/aggregation.rs:103-112 | the increase is last minus first plus the values immediately before each drop |
| Counters.IncreaseSplits | src/webhook/metrics/aggregation.rs:103-112 | splitting a series at a sample splits its increase |
| Counters.IncreaseAtLeastNet | src/webhook/metrics/aggregation.rs:81-112 | for non-negative values the increase is at least last minus first, with equality iff the series never drops |
| Counters.RateBounds | src/webhook/metrics/aggregation.rs:81-115 | a rate exists iff there are two samples; it lies in [0, 1e9]; zero elapsed time gives zero; below the cap it accounts for the whole increase and at the cap the increase is at least that |
| Counters.RateIsRate | src/webhook/metrics/aggregation.rs:89-115 | for any values, rate times milliseconds is a thousand times the increase, up to the cap; no elapsed time gives zero |
| Gauges.MaxOf | src/webhook/metrics/aggregation.rs:131-134 | a sample that no sample exceeds |
| Gauges.MinOf | src/webhook/metrics/aggregation.rs:135-138 | a sample that exceeds no sample |
| Gauges.MedianIsMedian | src/webhook/metrics/aggregation.rs:139-149 | at least half of the samples are at most the median, at least half are at least it, and it lies between the extremes |
| Gauges.MedianIgnoresOrder | src/webhook/metrics/aggregation.rs:139-149 | the median depends on neither the order of the samples nor the sort used |
| Gauges.AverageIsBetween | src/webhook/metrics/aggregation.rs:127-130 | the average lies between the extremes |
| Aggregation.AggregateMetric | src/webhook/metrics/aggregation.rs:7-79 | the loop yields the aggregate of the windows, whose meaning AggregateOneMore, GaugeValue and CounterValue state |
| Aggregation.AggregateOneMore | src/webhook/metrics/aggregation.rs:14-79 | no windows give nothing, and each further window with a value adds that value and counts once |
| Aggregation.GaugeValue | src/webhook/metrics/aggregation.rs:51-54 | a gauge pod contributes, of its successful values, the maximum, the minimum, the last, a number that times their count is their sum, or the middle of their sorted order, as configured |
| Aggregation.CounterValue | src/webhook/metrics/aggregation.rs:40-50 | a counter pod contributes nothing below two successful samples, else the increase per second between the first and the last of them, up to the cap |
| Aggregation.SuccessfulFilters | src/webhook/metrics/aggregation.rs:29-30 | the filter keeps exactly the successful samples, in order |
| Aggregation.ContributionRule | src/webhook/metrics/aggregation.rs:29-56 | a pod contributes iff its first successful sample is a gauge or another successful one follows |
| Aggregation.AggregateIgnoresOrder | src/webhook/metrics/aggregation.rs:14-79 | sum and count are functions of the multiset of windows |
| Aggregation.SilentPodChangesNothing | src/webhook/metrics/aggregation.rs:29-35 | a pod without a successful sample changes neither sum nor count |
| MetricName.PrintedParsesBackIff | src/controller/externalpodautoscaler/reconcile.rs:376-378 | a printed name parses to its parts iff the EPA name is non-empty and the metric name is non-empty and hyphen-free |
| MetricName.ParsedPrintsBack | src/webhook/metrics/handlers.rs:456-516 | whatever parses prints back to its input, for the URL namespace, with non-empty parts and a hyphen-free metric |
| MetricName.NamesNeverCollide | src/controller/externalpodautoscaler/reconcile.rs:376-378 | distinct EPA and metric pairs of a namespace have distinct external metric names |
| Selector.BuildLabelSelectorString | src/scraper/worker.rs:318-369 | succeeds iff there is a constraint and every expression is In with one value; prints all of them in order; reports the absence of constraints, else the first unsupported expression and what is wrong with it |
| Selector.RoundTripIffClean | src/scraper/pod_cache.rs:236-258 | parsing the printed pairs gives them back iff all are of label syntax |
| Selector.PaddingIsIgnored | src/scraper/pod_cache.rs:240-258 | space around a key or a value does not matter |
| Selector.UnparsablePart | src/scraper/pod_cache.rs:240-258 | a part is skipped iff it has no equals sign or only space before one |
| Selector.PartsParseOneByOne | src/scraper/pod_cache.rs:240-258 | each further part adds its pair at the end or nothing |
| Selector.SelectorIsReadByParts | src/scraper/pod_cache.rs:240-258 | a comma-joined string parses as its parts do |
| Selector.TranslationKeepsMeaning | src/scraper/pod_cache.rs:240-310 | for label syntax a pod matches the printed and parsed selector iff it meets every matchLabels pair and every In requirement |

## Left out

- Kubernetes API calls, watches, HTTP scraping, TLS, routing, telemetry and logging: I/O over libraries that are not part of this model; their outcomes are parameters.
- `PodCache::ensure_namespace` and `is_pod_ready`: the first rests on reflector and wake-up behaviour that is not part of this model, the second is a chain of field tests.
- Prometheus text parsing and `matches_label_selector` of the scrape worker: they decide which samples are pushed, and the model takes the pushed samples as given.
- Admission, the rest of the HPA specification, status conditions and readiness flags: field copying and single-branch checks.
- Rounding, NaN and infinities of `f64`.
- Concurrent removal of a window while a worker still holds it: store operations are atomic here, as the source accepts that loss.
- Stored windows are not shared through reference counts beyond the store: two keys never share a window object.
- Forwarding.HopsBoundedIff: all replicas are taken on one view at one instant and no forward fails; `Handler.GetExternalMetric` covers failed forwards of a single replica.
- Handoff.NoServingGap: a leaver that wins the key back, or refreshes after its grace window, before the successor's first evaluation period is over is excluded, because a gap can then exist (`Handoff.SeamlessIff`, `Handoff.QuickRewinLeavesGap`).
- Handoff.NoServingGap: the replicas keep running and the evaluation period does not change during the chain; a lease renewal in flight when the draining flag goes up is not modelled.
- Handoff.SeamlessIff: stated for a positive evaluation period; with a period of zero an owner serves at once and winning back is harmless, and `Handoff.NoServingGap` covers that case with the instant of the successor's win included.
- Ownership.EpaOwnership.RefreshOwnership: one call reads the clock once, where the source reads it again when it drops expired entries.
- Scheduler.Scheduler.ProcessEpa: failures of the selector lookup and of the pod list are one outcome; the snapshot of the counters is in `Stats`, the pruning of windows and the configurations in `Store`; a closing job channel ends the program and is not modelled.
- Scheduler.Scheduler.Tick: the eviction itself is `Store.MetricsStore.EvictStaleWindows`; the two are not joined.
- Store.MetricsStore.RemoveEpaWindows: the multi-series warning set and the removal of the scrape counters are not modelled.
- Handler.GetExternalMetric: the reply is its number; metric name, labels and timestamp of the JSON object are not modelled.
- Scheduler.MaxSamplesCoverIff: ticks may fall at any time, so the one-second tick, which would slow down rounds of shorter intervals, is not used.
- Retention.NoSampleEvictedEarly: the samples of a pod are pushed in the order their jobs were dispatched, at most one per job, as distinct metric names give.
- Stats.ScrapeStats.Report: the counters of an EPA are one object; their removal with the EPA is not modelled.
- Gauges.MedianIgnoresOrder: the library sort is modelled as an insertion sort, which the lemma shows to be immaterial; its work in place is not modelled.
