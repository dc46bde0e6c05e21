/** Rendezvous (highest random weight) election, for any weight function on replica IDs. */
module Rendezvous {
  import opened Wrappers

  /** `order` is one iteration order of the hash set `replicas`. */
  ghost predicate Enumerates(order: seq<string>, replicas: set<string>) {
    && (forall r :: r in order <==> r in replicas)
    && (forall i, j | 0 <= i < j < |order| :: order[i] != order[j])
  }

  ghost predicate TieFree(replicas: set<string>, weight: string -> nat) {
    forall a, b | a in replicas && b in replicas && weight(a) == weight(b) :: a == b
  }

  ghost predicate Heaviest(w: string, replicas: set<string>, weight: string -> nat) {
    w in replicas && forall r | r in replicas :: weight(r) <= weight(w)
  }

  ghost predicate IsLastMaximum(i: nat, order: seq<string>, weight: string -> nat) {
    && i < |order|
    && (forall j | 0 <= j < i :: weight(order[j]) <= weight(order[i]))
    && (forall j | i < j < |order| :: weight(order[j]) < weight(order[i]))
  }

  /** The left fold behind `max_by_key`: a later element of equal weight replaces the best so far. */
  function MaxByWeight(order: seq<string>, weight: string -> nat): (best: nat)
    requires order != []
    ensures IsLastMaximum(best, order, weight)
  {
    var last := |order| - 1;
    if last == 0 then 0
    else
      var best := MaxByWeight(order[..last], weight);
      if weight(order[best]) <= weight(order[last]) then last else best
  }

  /** highest_weight_replica over one enumeration of the candidates. */
  function HighestWeightReplica(order: seq<string>, weight: string -> nat): Option<string> {
    if order == [] then None else Some(order[MaxByWeight(order, weight)])
  }

  /** Elected is the last of the heaviest candidates, and someone as soon as there is a candidate. */
  lemma LastOfTheHeaviestWins(order: seq<string>, weight: string -> nat, i: nat)
    ensures IsLastMaximum(i, order, weight) ==> HighestWeightReplica(order, weight) == Some(order[i])
    ensures HighestWeightReplica(order, weight) == None <==> order == []
  {
  }

  /** Without ties the elected replica is the heaviest one, whatever the iteration order. */
  lemma ElectionIgnoresOrder(order: seq<string>, replicas: set<string>, weight: string -> nat)
    requires Enumerates(order, replicas)
    ensures HighestWeightReplica(order, weight) == None <==> replicas == {}
    ensures replicas != {} ==>
      && HighestWeightReplica(order, weight).Some?
      && Heaviest(HighestWeightReplica(order, weight).value, replicas, weight)
    ensures TieFree(replicas, weight) ==>
      forall w | Heaviest(w, replicas, weight) :: HighestWeightReplica(order, weight) == Some(w)
  {
    if order != [] {
      var i := MaxByWeight(order, weight);
      assert order[i] in replicas;
      forall r | r in replicas ensures weight(r) <= weight(order[i]) {
        var j :| 0 <= j < |order| && order[j] == r;
      }
    } else {
      assert replicas == {};
    }
  }

  lemma Agreement(order: seq<string>, other: seq<string>, replicas: set<string>, weight: string -> nat)
    requires Enumerates(order, replicas) && Enumerates(other, replicas) && TieFree(replicas, weight)
    ensures HighestWeightReplica(order, weight) == HighestWeightReplica(other, weight)
  {
    ElectionIgnoresOrder(order, replicas, weight);
    ElectionIgnoresOrder(other, replicas, weight);
  }

  /** Adding one replica moves an EPA only to that replica, and exactly when it outweighs them all. */
  lemma AddingMovesOnlyToNewcomer(before: seq<string>, after: seq<string>, replicas: set<string>, r: string,
                                  weight: string -> nat)
    requires r !in replicas && TieFree(replicas + {r}, weight)
    requires Enumerates(before, replicas) && Enumerates(after, replicas + {r})
    ensures HighestWeightReplica(after, weight) ==
      if forall s | s in replicas :: weight(s) < weight(r) then Some(r)
      else HighestWeightReplica(before, weight)
  {
    ElectionIgnoresOrder(before, replicas, weight);
    ElectionIgnoresOrder(after, replicas + {r}, weight);
    if !forall s | s in replicas :: weight(s) < weight(r) {
      var w := HighestWeightReplica(before, weight).value;
      assert Heaviest(w, replicas + {r}, weight);
    } else {
      assert Heaviest(r, replicas + {r}, weight);
    }
  }

  /** Removing one replica moves only the EPAs that replica owned. */
  lemma RemovingMovesOnlyItsOwn(before: seq<string>, after: seq<string>, replicas: set<string>, r: string,
                                weight: string -> nat)
    requires TieFree(replicas, weight)
    requires Enumerates(before, replicas) && Enumerates(after, replicas - {r})
    ensures HighestWeightReplica(after, weight) == HighestWeightReplica(before, weight)
      <==> HighestWeightReplica(before, weight) != Some(r)
  {
    ElectionIgnoresOrder(before, replicas, weight);
    ElectionIgnoresOrder(after, replicas - {r}, weight);
    if replicas != {} && HighestWeightReplica(before, weight) != Some(r) {
      assert Heaviest(HighestWeightReplica(before, weight).value, replicas - {r}, weight);
    }
  }

  /** Over active and draining replicas together, the winner is either the winner over the active ones
      or a draining replica that outweighs it. */
  lemma PredecessorIsOwnerOrHeavierDraining(active: set<string>, draining: set<string>,
                                            activeOrder: seq<string>, allOrder: seq<string>, weight: string -> nat)
    requires active != {} && TieFree(active + draining, weight)
    requires Enumerates(activeOrder, active) && Enumerates(allOrder, active + draining)
    ensures var owner, previous := HighestWeightReplica(activeOrder, weight), HighestWeightReplica(allOrder, weight);
      && owner.Some? && previous.Some?
      && (previous == owner <==> forall d | d in draining :: weight(d) <= weight(owner.value))
      && (previous != owner ==>
            previous.value in draining && previous.value !in active
            && weight(owner.value) < weight(previous.value))
  {
    ElectionIgnoresOrder(activeOrder, active, weight);
    ElectionIgnoresOrder(allOrder, active + draining, weight);
    var owner := HighestWeightReplica(activeOrder, weight).value;
    if forall d | d in draining :: weight(d) <= weight(owner) {
      assert Heaviest(owner, active + draining, weight);
    }
  }
}
