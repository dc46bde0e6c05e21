/** Which replica scrapes and serves an EPA: src/membership/ownership.rs. */
module Ownership {
  import opened Wrappers
  import opened Rendezvous
  import opened Transitions
  import opened Membership
  import Fnv

  function EpaKey(namespace: string, name: string): string {
    namespace + "/" + name
  }

  /** The weight of every replica for one EPA. */
  function WeightsFor(key: string): string -> nat {
    (replica: string) => Fnv.Weight(replica, key)
  }

  /** Whether a replica set is free of ties is a property of its IDs alone, the same for every EPA. */
  lemma TieFreedomIgnoresTheKey(replicas: set<string>, key: string, other: string)
    ensures TieFree(replicas, WeightsFor(key)) <==> TieFree(replicas, WeightsFor(other))
  {
    forall a: string, b: string
      ensures WeightsFor(key)(a) == WeightsFor(key)(b) <==> WeightsFor(other)(a) == WeightsFor(other)(b)
    {
      Fnv.TiesIgnoreTheKey(a, b, key, other);
    }
  }

  /** Different EPAs have different keys, as long as no namespace contains the separator. */
  lemma KeysTellEpasApart(namespace: string, name: string, otherNamespace: string, otherName: string)
    requires '/' !in namespace && '/' !in otherNamespace
    ensures EpaKey(namespace, name) == EpaKey(otherNamespace, otherName)
      <==> namespace == otherNamespace && name == otherName
  {
    var key, other := EpaKey(namespace, name), EpaKey(otherNamespace, otherName);
    if key == other {
      assert key[|namespace|] == '/' && key[|otherNamespace|] == '/';
      assert forall i | 0 <= i < |namespace| :: key[i] == namespace[i] && namespace[i] in namespace;
      assert forall i | 0 <= i < |otherNamespace| ::
        other[i] == otherNamespace[i] && otherNamespace[i] in otherNamespace;
      assert |namespace| == |otherNamespace|;
      assert key[..|namespace|] == namespace && key[..|otherNamespace|] == otherNamespace;
      assert key[|namespace| + 1..] == name && key[|otherNamespace| + 1..] == otherName;
    }
  }

  /** The election for an EPA among these candidates: one that no candidate outweighs, if there is any. */
  ghost predicate Elects(winner: Option<string>, candidates: set<string>, namespace: string, name: string) {
    if candidates == {} then winner == None
    else
      && winner.Some? && winner.value in candidates
      && forall r | r in candidates ::
           Fnv.Weight(r, namespace + "/" + name) <= Fnv.Weight(winner.value, namespace + "/" + name)
  }

  lemma ElectionElects(order: seq<string>, candidates: set<string>, namespace: string, name: string)
    requires Enumerates(order, candidates)
    ensures Elects(HighestWeightReplica(order, WeightsFor(EpaKey(namespace, name))), candidates, namespace, name)
  {
    var weight := WeightsFor(EpaKey(namespace, name));
    ElectionIgnoresOrder(order, candidates, weight);
    if candidates != {} {
      var w := HighestWeightReplica(order, weight).value;
      forall r | r in candidates
        ensures Fnv.Weight(r, namespace + "/" + name) <= Fnv.Weight(w, namespace + "/" + name)
      {
        assert weight(r) <= weight(w);
      }
    }
  }

  /** Without ties there is one winner: every replica and every iteration order elects the same. */
  lemma ElectedIsUnique(a: Option<string>, b: Option<string>, candidates: set<string>, namespace: string, name: string)
    requires Elects(a, candidates, namespace, name) && Elects(b, candidates, namespace, name)
    requires TieFree(candidates, WeightsFor(EpaKey(namespace, name)))
    ensures a == b
  {
    if candidates != {} {
      var weight := WeightsFor(EpaKey(namespace, name));
      assert weight(a.value) == weight(b.value);
    }
  }

  class EpaOwnership {
    const membership: MembershipManager
    var owned: map<string, OwnershipState>
    var lost: map<string, LostOwnership>
    /** Every refresh so far, with the outcome of its election. */
    ghost var history: seq<Refresh>

    function State(): TransitionState
      reads this
    {
      TransitionState(owned, lost)
    }

    ghost predicate Valid()
      reads this
    {
      State() == Replay(history, |history|)
    }

    constructor (membership: MembershipManager)
      ensures Valid() && State() == EMPTY && history == []
      ensures this.membership == membership
    {
      this.membership := membership;
      owned, lost, history := map[], map[], [];
    }

    /** `order` is the iteration order of the active set at this call. */
    function GetEpaOwner(namespace: string, name: string, order: seq<string>): (owner: Option<string>)
      reads membership
      requires Enumerates(order, membership.active)
      ensures Elects(owner, membership.active, namespace, name)
    {
      ElectionElects(order, membership.active, namespace, name);
      HighestWeightReplica(order, WeightsFor(EpaKey(namespace, name)))
    }

    /** `order` is the iteration order of active and then draining replicas at this call. */
    function GetPreviousEpaOwner(namespace: string, name: string, order: seq<string>): (previous: Option<string>)
      reads membership
      requires Enumerates(order, membership.active + membership.draining)
      ensures Elects(previous, membership.active + membership.draining, namespace, name)
    {
      ElectionElects(order, membership.active + membership.draining, namespace, name);
      HighestWeightReplica(order, WeightsFor(EpaKey(namespace, name)))
    }

    /** This replica wins exactly if it is elected, which on a tie-free view means exactly if no active replica
        outweighs it.  A win keeps the start of a running ownership, a loss is stamped unless it is already
        remembered, and the losses of all EPAs are dropped whose grace window is over. */
    method RefreshOwnership(namespace: string, name: string, evaluationPeriod: nat, order: seq<string>, now: nat)
      returns (ghost won: bool)
      requires Valid() && Enumerates(order, membership.active)
      modifies this
      ensures Valid()
      ensures won ==> Elects(Some(membership.myReplicaId), membership.active, namespace, name)
      ensures TieFree(membership.active, WeightsFor(EpaKey(namespace, name))) ==>
        (won <==> Elects(Some(membership.myReplicaId), membership.active, namespace, name))
      ensures history == old(history) + [Refresh(EpaKey(namespace, name), won, evaluationPeriod, now)]
      ensures Follows(old(State()), namespace + "/" + name, won, evaluationPeriod, now)
    {
      var winner := GetEpaOwner(namespace, name, order);
      RecordElection(EpaKey(namespace, name), winner == Some(membership.myReplicaId), evaluationPeriod, now);
      won := winner == Some(membership.myReplicaId);
      if TieFree(membership.active, WeightsFor(EpaKey(namespace, name)))
         && Elects(Some(membership.myReplicaId), membership.active, namespace, name)
      {
        ElectedIsUnique(winner, Some(membership.myReplicaId), membership.active, namespace, name);
      }
    }

    /** The maps after a refresh of the key, by those before it. */
    ghost predicate Follows(before: TransitionState, key: string, won: bool, period: nat, now: nat)
      reads this
    {
      && owned.Keys == (if won then before.owned.Keys + {key} else before.owned.Keys - {key})
      && (forall k | k in owned && k != key :: owned[k] == before.owned[k])
      && (won ==> key !in lost && owned[key].evaluationPeriod == period)
      && (won ==> owned[key].since == if key in before.owned then before.owned[key].since else now)
      && (forall k | k in before.lost && (k != key || !won) :: k in lost <==>
            now < before.lost[k].at + before.lost[k].evaluationPeriod + GRACE_BUFFER)
      && (forall k | k in lost && k in before.lost :: lost[k] == before.lost[k])
      && (forall k | k in lost && k !in before.lost :: k == key)
      && (!won && key !in before.lost ==> (key in lost <==> key in before.owned))
      && (key in lost && key !in before.lost ==> lost[key] == LostOwnership(now, period))
    }

    /** The part of refresh_ownership that runs under the write lock. */
    method RecordElection(key: string, won: bool, evaluationPeriod: nat, now: nat)
      requires Valid()
      modifies this
      ensures Valid()
      ensures var e := Refresh(key, won, evaluationPeriod, now);
        history == old(history) + [e] && State() == Refreshed(old(State()), e)
    {
      if won {
        if key in owned {
          owned := owned[key := owned[key].(evaluationPeriod := evaluationPeriod)];
        } else {
          owned := owned[key := OwnershipState(now, evaluationPeriod)];
        }
        lost := lost - {key};
      } else if key in owned {
        owned := owned - {key};
        if key !in lost {
          lost := lost[key := LostOwnership(now, evaluationPeriod)];
        }
      }
      lost := Retained(lost, now);
      ghost var e := Refresh(key, won, evaluationPeriod, now);
      ReplayExtends(history, [e], |history|);
      history := history + [e];
    }

    /** This replica scrapes while its winning run of the EPA lasts, and then for as long as its loss is
        remembered. */
    method ShouldScrapeEpa(namespace: string, name: string) returns (scrape: bool)
      requires Valid()
      ensures scrape <==> Owning(history, EpaKey(namespace, name)) || RemembersLoss(history, EpaKey(namespace, name))
    {
      var key := EpaKey(namespace, name);
      HistoryDecides(history, key, 0);
      scrape := key in owned || key in lost;
    }

    method ShouldServeEpa(namespace: string, name: string, order: seq<string>, now: nat) returns (serve: bool)
      requires Valid() && Enumerates(order, membership.active + membership.draining)
      ensures var key, previous := EpaKey(namespace, name), GetPreviousEpaOwner(namespace, name, order);
        serve <==>
          || FilledWindow(history, key, now)
          || RemembersLoss(history, key)
          || (Owning(history, key) && previous in {None, Some(membership.myReplicaId)})
      ensures serve <==> ShouldServe(State(), EpaKey(namespace, name), now, membership.myReplicaId,
                                     GetPreviousEpaOwner(namespace, name, order))
    {
      var key := EpaKey(namespace, name);
      HistoryDecides(history, key, now);
      if key in owned {
        if Elapsed(owned[key].since, now) >= owned[key].evaluationPeriod {
          return true;
        }
      } else {
        return key in lost;
      }
      var previous := GetPreviousEpaOwner(namespace, name, order);
      var hasPreviousOwner := previous.Some? && previous.value != membership.myReplicaId;
      return !hasPreviousOwner;
    }
  }

  /** On a tie-free view with an active replica, an owner inside its first evaluation period holds back
      from serving exactly when a heavier draining replica is visible. */
  lemma OwnerHoldsBackForHeavierDraining(s: TransitionState, key: string, now: nat, me: string,
                                         active: set<string>, draining: set<string>,
                                         activeOrder: seq<string>, allOrder: seq<string>, weight: string -> nat)
    requires Enumerates(activeOrder, active) && Enumerates(allOrder, active + draining)
    requires TieFree(active + draining, weight)
    requires HighestWeightReplica(activeOrder, weight) == Some(me)
    requires key in s.owned && Elapsed(s.owned[key].since, now) < s.owned[key].evaluationPeriod
    ensures ShouldServe(s, key, now, me, HighestWeightReplica(allOrder, weight))
      <==> !exists d | d in draining :: weight(me) < weight(d)
  {
    ElectionIgnoresOrder(activeOrder, active, weight);
    PredecessorIsOwnerOrHeavierDraining(active, draining, activeOrder, allOrder, weight);
  }

  /** Whether replica `me` owns the key right after it refreshes it. */
  predicate OwnsAfter(before: TransitionState, me: string, order: seq<string>, weight: string -> nat,
                      key: string, evaluationPeriod: nat, at: nat)
  {
    var won := HighestWeightReplica(order, weight) == Some(me);
    key in Refreshed(before, Refresh(key, won, evaluationPeriod, at)).owned
  }

  /** Once every replica of a fleet has refreshed the EPA on one non-empty tie-free view, each in its own
      iteration order and at its own time, exactly one of them owns it. */
  lemma ExactlyOneOwner(before: map<string, TransitionState>, active: set<string>, orders: map<string, seq<string>>,
                        weight: string -> nat, key: string, evaluationPeriod: nat, at: map<string, nat>)
    returns (owner: string)
    requires active != {} && active <= before.Keys && orders.Keys == at.Keys == before.Keys
    requires TieFree(active, weight)
    requires forall r | r in before :: Enumerates(orders[r], active)
    ensures owner in active && Heaviest(owner, active, weight)
    ensures forall r | r in before ::
      OwnsAfter(before[r], r, orders[r], weight, key, evaluationPeriod, at[r]) <==> r == owner
  {
    var some :| some in active;
    ElectionIgnoresOrder(orders[some], active, weight);
    owner := HighestWeightReplica(orders[some], weight).value;
    forall r | r in before
      ensures OwnsAfter(before[r], r, orders[r], weight, key, evaluationPeriod, at[r]) <==> r == owner
    {
      Agreement(orders[r], orders[some], active, weight);
    }
  }
}
