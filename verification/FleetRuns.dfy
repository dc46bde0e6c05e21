/** Fleets of replicas that each went through a whole run of their own, from lease listings to ownership maps,
    and the forwarding cycles among them that the comment at src/webhook/metrics/handlers.rs:92-99 says
    cannot happen. */
module FleetRuns {
  import opened Wrappers
  import opened Rendezvous
  import opened Transitions
  import opened Membership
  import opened Forwarding
  import Drain

  type Run = Drain.Run

  /** The run ends in state r no later than `now`, and all its elections for the key use these weights. */
  ghost predicate Reaches(run: Run, key: string, weight: string -> nat, r: Drain.Replica, now: nat) {
    && Drain.ValidRun(run) && run.states[|run.steps|] == r
    && (forall i, j | 0 <= i < j < |run.times| :: run.times[i] <= run.times[j])
    && (forall i | 0 <= i < |run.times| :: run.times[i] <= now)
    && (forall i | 0 <= i < |run.steps| && run.steps[i].RefreshEpa? && run.steps[i].key == key ::
          run.steps[i].weight == weight)
  }

  /** Every replica of the fleet went through a run of its own and has just read the listing all share. */
  ghost predicate Arises(f: Fleet, runs: map<string, Run>, leases: seq<Lease>) {
    runs.Keys == f.states.Keys == f.All() && forall r | r in runs :: EndsIn(runs[r], f, r, leases)
  }

  ghost predicate EndsIn(run: Run, f: Fleet, r: string, leases: seq<Lease>) {
    && run.me == r && JustRead(run, leases, f.now)
    && var sets := ReplicaSets(f.active, f.draining, r in f.draining);
    Reaches(run, f.key, f.weight, Drain.Replica(sets, f.StateOf(r)), f.now)
  }

  ghost predicate JustRead(run: Run, leases: seq<Lease>, now: nat) {
    var n := |run.steps|;
    n > 0 && n == |run.times| && run.steps[n - 1] == Drain.Update(leases) && run.times[n - 1] == now
  }

  /** The refreshes of the first n steps of a run, with the outcomes of their elections. */
  function Outcomes(run: Run, n: nat): seq<Refresh>
    requires n <= |run.steps| == |run.times|
  {
    if n == 0 then []
    else if run.steps[n - 1].RefreshEpa? then
      Outcomes(run, n - 1) + [Drain.Outcome(run.me, run.steps[n - 1], run.times[n - 1])]
    else Outcomes(run, n - 1)
  }

  lemma {:induction false} RunReplaysOutcomes(run: Run, n: nat)
    requires Drain.ValidRun(run) && n <= |run.steps|
    ensures run.states[n].transitions == Replay(Outcomes(run, n), |Outcomes(run, n)|)
  {
    if n != 0 {
      RunReplaysOutcomes(run, n - 1);
      assert Drain.Next(run.me, run.states[n - 1], run.steps[n - 1], run.times[n - 1], run.states[n]);
      if run.steps[n - 1].RefreshEpa? {
        var earlier := Outcomes(run, n - 1);
        ReplayExtends(earlier, [Drain.Outcome(run.me, run.steps[n - 1], run.times[n - 1])], |earlier|);
      }
    }
  }

  /** What the runs of the fleet's replicas refreshed. */
  ghost predicate OutcomesOf(histories: map<string, seq<Refresh>>, runs: map<string, Run>) {
    && histories.Keys == runs.Keys
    && forall r | r in runs ::
         |runs[r].steps| == |runs[r].times| && histories[r] == Outcomes(runs[r], |runs[r].steps|)
  }

  lemma ArisingFleetRemembers(f: Fleet, runs: map<string, Run>, leases: seq<Lease>,
                              histories: map<string, seq<Refresh>>)
    requires Arises(f, runs, leases) && OutcomesOf(histories, runs)
    ensures Remembers(f, histories)
  {
    forall r ensures f.StateOf(r) == Replay(HistoryOf(histories, r), |HistoryOf(histories, r)|) {
      if r in runs {
        assert EndsIn(runs[r], f, r, leases);
        RunReplaysOutcomes(runs[r], |runs[r].steps|);
      }
    }
  }

  /** So whether requests end is decided, for every fleet that arises, by the elections of its runs. */
  lemma HopsBoundedByRuns(f: Fleet, runs: map<string, Run>, leases: seq<Lease>, histories: map<string, seq<Refresh>>,
                          r: string, owner: Option<string>, previous: Option<string>)
    requires Elected(f, owner, previous) && Arises(f, runs, leases) && OutcomesOf(histories, runs)
    ensures (exists n: nat :: EndsWithin(f, r, owner, previous, n)) <==>
      HistoriesSuffice(f, histories, r, owner, previous)
  {
    ArisingFleetRemembers(f, runs, leases, histories);
    HopsBoundedByHistory(f, histories, r, owner, previous);
  }

  // ---- cycles ----

  function Started(me: string): Run {
    Drain.Run(me, [Drain.START], [], [])
  }

  function Then(run: Run, step: Drain.Step, now: nat, r: Drain.Replica): Run {
    Drain.Run(run.me, run.states + [r], run.steps + [step], run.times + [now])
  }

  lemma OneMoreStep(run: Run, key: string, weight: string -> nat, r: Drain.Replica, before: nat,
                    step: Drain.Step, now: nat, r': Drain.Replica)
    requires Reaches(run, key, weight, r, before) && before <= now && Drain.Next(run.me, r, step, now, r')
    requires step.RefreshEpa? && step.key == key ==> step.weight == weight
    ensures Reaches(Then(run, step, now, r'), key, weight, r', now)
  {
    var more := Then(run, step, now, r');
    forall i | 0 <= i < |more.steps|
      ensures Drain.Next(more.me, more.states[i], more.steps[i], more.times[i], more.states[i + 1])
    {
      if i < |run.steps| {
        assert Drain.Next(run.me, run.states[i], run.steps[i], run.times[i], run.states[i + 1]);
      }
    }
  }

  /** Fresh leases of the two replicas, one of them draining. */
  function Listing(staying: string, leaving: string, now: nat): seq<Lease> {
    [LeaseOf(staying, false, now), LeaseOf(leaving, true, now)]
  }

  lemma ListingIsRead(staying: string, leaving: string, me: string, now: nat)
    requires staying != leaving && (me == staying || me == leaving)
    ensures UniqueNames(Listing(staying, leaving, now))
    ensures ReflectsListing(ReplicaSets({staying}, {leaving}, me == leaving), me, Listing(staying, leaving, now), now)
  {
    var leases := Listing(staying, leaving, now);
    LeaseReads(staying, false, now);
    LeaseReads(leaving, true, now);
    forall id, flag
      ensures Reported(leases, now, id, flag) <==> (id == staying && !flag) || (id == leaving && flag)
    {
      assert leases[0] == LeaseOf(staying, false, now) && leases[1] == LeaseOf(leaving, true, now);
    }
  }

  lemma LeaseReads(id: string, flag: bool, now: nat)
    ensures var lease := LeaseOf(id, flag, now);
      Unexpired(lease, now) && ReplicaId(lease) == Some(id) && LabelledDraining(lease) == flag
  {
    var lease := LeaseOf(id, flag, now);
    assert lease.name.value[|LEASE_PREFIX|..] == id;
  }

  /** The fleet of the two replicas, on the view of such a listing. */
  function FleetOf(staying: string, leaving: string, weight: string -> nat, key: string,
                   stayed: TransitionState, left: TransitionState, now: nat): Fleet
  {
    Fleet({staying}, {leaving}, weight, key, map[staying := stayed, leaving := left], now)
  }

  function Viewing(staying: string, leaving: string, me: string, s: TransitionState): Drain.Replica {
    Drain.Replica(ReplicaSets({staying}, {leaving}, me == leaving), s)
  }

  /** A replica that reads such a listing, refreshes the EPA, and reads another one later. */
  lemma ReadRefreshRead(run: Run, key: string, weight: string -> nat, r: Drain.Replica, before: nat,
                        staying: string, leaving: string, period: nat, at: nat, now: nat)
    returns (more: Run)
    requires Reaches(run, key, weight, r, before) && before <= at <= now
    requires staying != leaving && (run.me == staying || run.me == leaving)
    requires r.sets.localDraining == (run.me == leaving)
    ensures more.me == run.me && JustRead(more, Listing(staying, leaving, now), now)
    ensures var s := Refreshed(r.transitions, Refresh(key, run.me == staying, period, at));
      Reaches(more, key, weight, Viewing(staying, leaving, run.me, s), now)
  {
    var me, s := run.me, Refreshed(r.transitions, Refresh(key, run.me == staying, period, at));
    var viewed := Viewing(staying, leaving, me, r.transitions);
    var refreshed := Viewing(staying, leaving, me, s);
    var refresh := Drain.RefreshEpa(key, weight, [staying], period);
    ListingIsRead(staying, leaving, me, at);
    ListingIsRead(staying, leaving, me, now);
    OneMoreStep(run, key, weight, r, before, Drain.Update(Listing(staying, leaving, at)), at, viewed);
    more := Then(run, Drain.Update(Listing(staying, leaving, at)), at, viewed);
    assert Drain.Outcome(me, refresh, at) == Refresh(key, me == staying, period, at);
    OneMoreStep(more, key, weight, viewed, at, refresh, at, refreshed);
    more := Then(more, refresh, at, refreshed);
    OneMoreStep(more, key, weight, refreshed, at, Drain.Update(Listing(staying, leaving, now)), now, refreshed);
    more := Then(more, Drain.Update(Listing(staying, leaving, now)), now, refreshed);
  }

  lemma StartReaches(me: string, key: string, weight: string -> nat)
    ensures Reaches(Started(me), key, weight, Drain.START, 0)
  {
  }

  /** Between two such replicas a request bounces, to whichever replica it came. */
  lemma TwoReplicasBounce(f: Fleet, staying: string, leaving: string, r: string)
    requires f.active == {staying} && f.draining == {leaving} && f.weight(staying) < f.weight(leaving)
    requires f.states.Keys == {staying, leaving}
    requires f.key !in f.states[leaving].owned && f.key !in f.states[leaving].lost
    requires !ServesRegardless(f.states[staying], f.key, f.now)
    ensures Elected(f, Some(staying), Some(leaving))
    ensures forall hops: nat :: Holder(f, r, Some(staying), Some(leaving), hops).Some?
  {
    assert Elected(f, Some(staying), Some(leaving));
    forall hops: nat ensures Holder(f, r, Some(staying), Some(leaving), hops).Some? {
      BouncesForever(f, r, Some(staying), Some(leaving), hops);
    }
  }

  /** Two runs that end in such replicas make up the fleet. */
  lemma TwoRunsArise(stays: Run, leaves: Run, key: string, weight: string -> nat,
                     stayed: TransitionState, left: TransitionState, now: nat)
    requires stays.me != leaves.me
    requires Reaches(stays, key, weight, Viewing(stays.me, leaves.me, stays.me, stayed), now)
    requires Reaches(leaves, key, weight, Viewing(stays.me, leaves.me, leaves.me, left), now)
    requires JustRead(stays, Listing(stays.me, leaves.me, now), now)
    requires JustRead(leaves, Listing(stays.me, leaves.me, now), now)
    ensures Arises(FleetOf(stays.me, leaves.me, weight, key, stayed, left, now),
                   map[stays.me := stays, leaves.me := leaves], Listing(stays.me, leaves.me, now))
  {
    var f := FleetOf(stays.me, leaves.me, weight, key, stayed, left, now);
    assert EndsIn(stays, f, stays.me, Listing(stays.me, leaves.me, now));
    assert EndsIn(leaves, f, leaves.me, Listing(stays.me, leaves.me, now));
  }

  /** An EPA that is first refreshed while a heavier replica drains: through the whole first evaluation period
      of its owner every request for it bounces for ever, since nobody ever owned it before. */
  lemma NewEpaBounces(key: string, weight: string -> nat, leaving: string, staying: string,
                      period: nat, start: nat, now: nat, r: string)
    returns (f: Fleet, runs: map<string, Run>)
    requires weight(staying) < weight(leaving) && start <= now < start + period
    ensures Arises(f, runs, Listing(staying, leaving, now))
    ensures f.key == key && f.weight == weight && f.now == now && f.active == {staying} && f.draining == {leaving}
    ensures Elected(f, Some(staying), Some(leaving)) && key in f.states[staying].owned
    ensures forall hops: nat :: Holder(f, r, Some(staying), Some(leaving), hops).Some?
  {
    StartReaches(staying, key, weight);
    var stays := ReadRefreshRead(Started(staying), key, weight, Drain.START, 0, staying, leaving, period, start, now);
    var drained := Drain.Replica(ReplicaSets({}, {}, true), EMPTY);
    StartReaches(leaving, key, weight);
    OneMoreStep(Started(leaving), key, weight, Drain.START, 0, Drain.RaiseFlag, start, drained);
    var leaves := Then(Started(leaving), Drain.RaiseFlag, start, drained);
    leaves := ReadRefreshRead(leaves, key, weight, drained, start, staying, leaving, period, start, now);
    var owns := Refreshed(EMPTY, Refresh(key, true, period, start));
    var never := Refreshed(EMPTY, Refresh(key, false, period, start));
    TwoRunsArise(stays, leaves, key, weight, owns, never, now);
    f, runs := FleetOf(staying, leaving, weight, key, owns, never, now), map[staying := stays, leaving := leaves];
    TwoReplicasBounce(f, staying, leaving, r);
  }

  /** A replica that owned the EPA, drains, and lets its grace window pass. */
  lemma LeaverForgets(key: string, weight: string -> nat, leaving: string, staying: string,
                      period: nat, win: nat, loss: nat)
    returns (run: Run, end: nat)
    requires staying != leaving && win <= loss
    ensures run.me == leaving && end == loss + period + GRACE_BUFFER
    ensures Reaches(run, key, weight, Viewing(staying, leaving, leaving, EMPTY), end)
    ensures JustRead(run, Listing(staying, leaving, end), end)
  {
    end := loss + period + GRACE_BUFFER;
    var won := Refreshed(EMPTY, Refresh(key, true, period, win));
    var lost := Refreshed(won, Refresh(key, false, period, loss));
    assert won == TransitionState(map[key := OwnershipState(win, period)], map[]);
    assert lost == TransitionState(map[], map[key := LostOwnership(loss, period)]);
    assert Refreshed(lost, Refresh(key, false, period, end)) == EMPTY;
    var owner := Drain.Replica(ReplicaSets({leaving}, {}, false), won);
    run := Owned(key, weight, leaving, period, win);
    var drained := owner.(sets := owner.sets.(localDraining := true));
    OneMoreStep(run, key, weight, owner, win, Drain.RaiseFlag, loss, drained);
    run := Then(run, Drain.RaiseFlag, loss, drained);
    run := ReadRefreshRead(run, key, weight, drained, loss, staying, leaving, period, loss, loss);
    run := ReadRefreshRead(run, key, weight, Viewing(staying, leaving, leaving, lost), loss,
                           staying, leaving, period, end, end);
  }

  lemma Owned(key: string, weight: string -> nat, me: string, period: nat, win: nat) returns (run: Run)
    ensures run.me == me
    ensures Reaches(run, key, weight, Drain.Replica(ReplicaSets({me}, {}, false),
                    Refreshed(EMPTY, Refresh(key, true, period, win))), win)
  {
    var leases := [LeaseOf(me, false, win)];
    var viewed := Drain.Replica(ReplicaSets({me}, {}, false), EMPTY);
    var refresh := Drain.RefreshEpa(key, weight, [me], period);
    forall id, flag ensures Reported(leases, win, id, flag) <==> id == me && !flag {
      RenewedLeaseReadsBack(me, false, win, win, id, flag);
    }
    StartReaches(me, key, weight);
    OneMoreStep(Started(me), key, weight, Drain.START, 0, Drain.Update(leases), win, viewed);
    run := Then(Started(me), Drain.Update(leases), win, viewed);
    var owner := viewed.(transitions := Refreshed(EMPTY, Refresh(key, true, period, win)));
    assert Drain.Outcome(me, refresh, win) == Refresh(key, true, period, win);
    OneMoreStep(run, key, weight, viewed, win, refresh, win, owner);
    run := Then(run, refresh, win, owner);
  }

  /** A replica leaves, its grace window passes while it is still draining, and its only successor has won more
      than the grace buffer late: at that instant every request bounces for ever. */
  lemma LateTakeoverBounces(key: string, weight: string -> nat, leaving: string, staying: string,
                            period: nat, win: nat, loss: nat, lateWin: nat, r: string)
    returns (f: Fleet, runs: map<string, Run>)
    requires weight(staying) < weight(leaving)
    requires win <= loss && loss + GRACE_BUFFER < lateWin <= loss + GRACE_BUFFER + period
    ensures Arises(f, runs, Listing(staying, leaving, f.now)) && f.now == loss + period + GRACE_BUFFER
    ensures f.key == key && f.weight == weight && f.active == {staying} && f.draining == {leaving}
    ensures Elected(f, Some(staying), Some(leaving)) && key in f.states[staying].owned
    ensures forall hops: nat :: Holder(f, r, Some(staying), Some(leaving), hops).Some?
  {
    var leaves, now := LeaverForgets(key, weight, leaving, staying, period, win, loss);
    StartReaches(staying, key, weight);
    var stays := ReadRefreshRead(Started(staying), key, weight, Drain.START, 0, staying, leaving, period, lateWin, now);
    var owns := Refreshed(EMPTY, Refresh(key, true, period, lateWin));
    TwoRunsArise(stays, leaves, key, weight, owns, EMPTY, now);
    f, runs := FleetOf(staying, leaving, weight, key, owns, EMPTY, now), map[staying := stays, leaving := leaves];
    TwoReplicasBounce(f, staying, leaving, r);
  }
}
