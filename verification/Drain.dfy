/** Draining over whole runs of one replica: its lease-derived view together with its ownership maps. */
module Drain {
  import opened Wrappers
  import opened Rendezvous
  import opened Transitions
  import opened Membership

  datatype Replica = Replica(sets: ReplicaSets, transitions: TransitionState)

  datatype Step =
    | Update(leases: seq<Lease>)
    | FailedUpdate
    | RaiseFlag                  // mark_draining or delete_lease
    | RefreshEpa(key: string, weight: string -> nat, order: seq<string>, evaluationPeriod: nat)

  const START := Replica(ReplicaSets({}, {}, false), EMPTY)

  /** One step of the replica `me` at time `now`.  The API server keeps lease names unique. */
  ghost predicate Next(me: string, r: Replica, step: Step, now: nat, r': Replica) {
    match step
    case Update(leases) =>
      && UniqueNames(leases)
      && r'.transitions == r.transitions
      && r'.sets.localDraining == r.sets.localDraining
      && ReflectsListing(r'.sets, me, leases, now)
    case FailedUpdate =>
      r' == r
    case RaiseFlag =>
      r' == r.(sets := r.sets.(localDraining := true))
    case RefreshEpa(key, weight, order, period) =>
      && Enumerates(order, r.sets.active)
      && r' == r.(transitions := Refreshed(r.transitions, Outcome(me, step, now)))
  }

  function Outcome(me: string, step: Step, now: nat): Refresh
    requires step.RefreshEpa?
  {
    Refresh(step.key, HighestWeightReplica(step.order, step.weight) == Some(me), step.evaluationPeriod, now)
  }

  datatype Run = Run(me: string, states: seq<Replica>, steps: seq<Step>, times: seq<nat>)

  ghost predicate ValidRun(run: Run) {
    && |run.states| == |run.steps| + 1 && |run.times| == |run.steps| && run.states[0] == START
    && forall i | 0 <= i < |run.steps| :: Next(run.me, run.states[i], run.steps[i], run.times[i], run.states[i + 1])
  }

  /** No replica is ever active and draining at once, and no EPA owned and lost at once. */
  lemma {:induction false} SetsAndMapsStayDisjoint(run: Run, n: nat)
    requires ValidRun(run) && n < |run.states|
    ensures run.states[n].sets.active !! run.states[n].sets.draining
    ensures run.states[n].transitions.owned.Keys !! run.states[n].transitions.lost.Keys
  {
    if n != 0 {
      SetsAndMapsStayDisjoint(run, n - 1);
      var step := run.steps[n - 1];
      assert Next(run.me, run.states[n - 1], step, run.times[n - 1], run.states[n]);
      if step.Update? {
        ActiveAndDrainingAreDisjoint(run.states[n].sets, run.me, step.leases, run.times[n - 1]);
      }
    }
  }

  /** Step u is a successful update that came after the draining flag went up. */
  ghost predicate DrainObserved(run: Run, u: nat) {
    u < |run.steps| && run.steps[u].Update? && u < |run.states| && run.states[u].sets.localDraining
  }

  predicate ViewedAsDraining(me: string, r: Replica) {
    r.sets.localDraining && me !in r.sets.active && me in r.sets.draining
  }

  /** From that update on, the replica never again counts itself as active. */
  lemma {:induction false} StaysDraining(run: Run, u: nat, n: nat)
    requires ValidRun(run) && DrainObserved(run, u) && u < n < |run.states|
    ensures ViewedAsDraining(run.me, run.states[n])
    decreases n
  {
    assert Next(run.me, run.states[n - 1], run.steps[n - 1], run.times[n - 1], run.states[n]);
    if u + 1 < n {
      StaysDraining(run, u, n - 1);
    }
  }

  /** ... it never again wins an election ... */
  lemma NeverWinsAgain(run: Run, u: nat, n: nat)
    requires ValidRun(run) && DrainObserved(run, u) && u < n < |run.steps| && run.steps[n].RefreshEpa?
    ensures !Outcome(run.me, run.steps[n], run.times[n]).won
  {
    StaysDraining(run, u, n);
    var step := run.steps[n];
    assert Next(run.me, run.states[n], step, run.times[n], run.states[n + 1]);
    if step.order != [] {
      assert step.order[MaxByWeight(step.order, step.weight)] in run.states[n].sets.active;
    }
  }

  /** ... it acquires no EPA it did not own ... */
  lemma {:induction false} OwnsNothingNew(run: Run, u: nat, m: nat, n: nat, key: string)
    requires ValidRun(run) && DrainObserved(run, u) && u < m <= n < |run.states|
    requires key !in run.states[m].transitions.owned
    ensures key !in run.states[n].transitions.owned
    decreases n
  {
    if m < n {
      OwnsNothingNew(run, u, m, n - 1, key);
      assert Next(run.me, run.states[n - 1], run.steps[n - 1], run.times[n - 1], run.states[n]);
      if run.steps[n - 1].RefreshEpa? {
        NeverWinsAgain(run, u, n - 1);
      }
    }
  }

  /** ... and each EPA it still owns moves to `lost` at its next refresh, to be served through the grace
      window, and never comes back. */
  lemma DrainIsSticky(run: Run, u: nat, m: nat, n: nat, key: string)
    requires ValidRun(run) && DrainObserved(run, u) && u < m < n < |run.states|
    requires run.steps[m].RefreshEpa? && run.steps[m].key == key
    ensures key !in run.states[n].transitions.owned
    ensures key in run.states[m].transitions.owned ==>
      && key in run.states[m + 1].transitions.lost
      && run.states[m + 1].transitions.lost[key] == LostOwnership(run.times[m], run.steps[m].evaluationPeriod)
  {
    SetsAndMapsStayDisjoint(run, m);
    NeverWinsAgain(run, u, m);
    assert Next(run.me, run.states[m], run.steps[m], run.times[m], run.states[m + 1]);
    OwnsNothingNew(run, u, m + 1, n, key);
  }
}
