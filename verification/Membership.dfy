/** The lease-derived view of one replica: src/membership/manager.rs.  Times are milliseconds. */
module Membership {
  import opened Wrappers

  const LEASE_PREFIX := "epa-replica-"
  const LEASE_DURATION_SECONDS := 30
  const MAX_DURATION_SECONDS := 86400

  type Int32 = n: int | -0x8000_0000 <= n < 0x8000_0000

  datatype LeaseSpec = LeaseSpec(renewTime: Option<int>, durationSeconds: Option<Int32>)

  datatype Lease = Lease(name: Option<string>, labels: Option<map<string, string>>, spec: Option<LeaseSpec>)

  /** The Kubernetes API failed to answer. */
  datatype ApiError = ApiError

  datatype DeleteError = NotFound | Other

  datatype ReplicaSets = ReplicaSets(active: set<string>, draining: set<string>, localDraining: bool)

  predicate Unexpired(lease: Lease, now: int) {
    && lease.spec.Some?
    && lease.spec.value.renewTime.Some?
    && lease.spec.value.durationSeconds.Some?
    && var seconds := lease.spec.value.durationSeconds.value;
    && 0 <= seconds
    && now < lease.spec.value.renewTime.value
             + (if seconds < MAX_DURATION_SECONDS then seconds else MAX_DURATION_SECONDS) * 1000
  }

  function ReplicaId(lease: Lease): Option<string> {
    if lease.name.Some? && LEASE_PREFIX <= lease.name.value then Some(lease.name.value[|LEASE_PREFIX|..])
    else None
  }

  predicate LabelledDraining(lease: Lease) {
    && lease.labels.Some?
    && "draining" in lease.labels.value
    && lease.labels.value["draining"] == "true"
  }

  /** Some unexpired lease of the listing names replica `id` with this draining label. */
  ghost predicate Reported(leases: seq<Lease>, now: int, id: string, draining: bool) {
    exists i | 0 <= i < |leases| ::
      && Unexpired(leases[i], now)
      && ReplicaId(leases[i]) == Some(id)
      && LabelledDraining(leases[i]) == draining
  }

  /** What a successful listing must leave in the view of replica `me`: the unexpired leases by label,
      except that a locally draining replica never counts itself as active. */
  ghost predicate ReflectsListing(after: ReplicaSets, me: string, leases: seq<Lease>, now: int) {
    && (forall id :: id in after.active
          <==> Reported(leases, now, id, false) && !(after.localDraining && id == me))
    && (forall id :: id in after.draining
          <==> Reported(leases, now, id, true) || (after.localDraining && id == me))
  }

  /** The lease that replica `id` writes at `renewed`. */
  function LeaseOf(id: string, draining: bool, renewed: int): Lease {
    var labels := map["app" := "external-pod-autoscaler", "replica-id" := id];
    Lease(Some(LEASE_PREFIX + id),
          Some(if draining then labels["draining" := "true"] else labels),
          Some(LeaseSpec(Some(renewed), Some(LEASE_DURATION_SECONDS))))
  }

  class MembershipManager {
    const myReplicaId: string
    var active: set<string>
    var draining: set<string>
    var localDraining: bool

    function Sets(): ReplicaSets
      reads this
    {
      ReplicaSets(active, draining, localDraining)
    }

    constructor (replicaId: string)
      ensures myReplicaId == replicaId
      ensures Sets() == ReplicaSets({}, {}, false)
    {
      myReplicaId := replicaId;
      active, draining, localDraining := {}, {}, false;
    }

    /** The lease this replica creates or re-applies at `now`. */
    function RenewedLease(now: int): Lease
      reads this
    {
      LeaseOf(myReplicaId, localDraining, now)
    }

    method UpdateActiveReplicas(listing: Result<seq<Lease>, ApiError>, now: int) returns (r: Result<(), ApiError>)
      modifies this
      ensures r.Success? <==> listing.Success?
      ensures localDraining == old(localDraining)
      ensures listing.Failure? ==> Sets() == old(Sets())
      ensures listing.Success? ==> ReflectsListing(Sets(), myReplicaId, listing.value, now)
    {
      if listing.Failure? {
        return Failure(listing.error);
      }
      var leases := listing.value;
      var nowActive: set<string>, nowDraining: set<string> := {}, {};
      for i := 0 to |leases|
        invariant Sets() == old(Sets())
        invariant forall id :: id in nowActive <==> Reported(leases[..i], now, id, false)
        invariant forall id :: id in nowDraining <==> Reported(leases[..i], now, id, true)
      {
        ReportedAppend(leases, i, now);
        var lease := leases[i];
        if Unexpired(lease, now) {
          var id := ReplicaId(lease);
          if id.Some? {
            if LabelledDraining(lease) {
              nowDraining := nowDraining + {id.value};
            } else {
              nowActive := nowActive + {id.value};
            }
          }
        }
      }
      assert leases[..|leases|] == leases;
      if localDraining {
        nowActive := nowActive - {myReplicaId};
        nowDraining := nowDraining + {myReplicaId};
      }
      active, draining := nowActive, nowDraining;
      r := Success(());
    }

    /** Raises the flag and hands back the lease the immediate renewal writes; whether that write
        succeeds changes nothing here. */
    method MarkDraining(now: int) returns (announced: Lease)
      modifies this
      ensures Sets() == old(Sets()).(localDraining := true)
      ensures announced == RenewedLease(now) && LabelledDraining(announced)
    {
      localDraining := true;
      announced := RenewedLease(now);
    }

    /** A lease that is already absent counts as deleted; the flag stays up in every case. */
    method DeleteLease(response: Result<(), DeleteError>) returns (r: Result<(), ApiError>)
      modifies this
      ensures Sets() == old(Sets()).(localDraining := true)
      ensures r.Failure? <==> response == Failure(Other)
    {
      localDraining := true;
      r := if response == Failure(Other) then Failure(ApiError) else Success(());
    }
  }

  lemma ReportedAppend(leases: seq<Lease>, i: nat, now: int)
    requires i < |leases|
    ensures forall id, draining :: Reported(leases[..i + 1], now, id, draining) <==>
      || Reported(leases[..i], now, id, draining)
      || (Unexpired(leases[i], now) && ReplicaId(leases[i]) == Some(id)
          && LabelledDraining(leases[i]) == draining)
  {
    forall id, draining
      ensures Reported(leases[..i + 1], now, id, draining) <==>
        || Reported(leases[..i], now, id, draining)
        || (Unexpired(leases[i], now) && ReplicaId(leases[i]) == Some(id)
            && LabelledDraining(leases[i]) == draining)
    {
      var shorter, longer := leases[..i], leases[..i + 1];
      assert forall j | 0 <= j < i :: longer[j] == shorter[j];
      assert longer[i] == leases[i];
    }
  }

  // ---- properties of the view ----

  /** The lease speaks for replica `id`: it has that replica's lease name, a renewal time and a duration that is
      not negative, and its renewal is less than that duration, and less than a day, ago. */
  ghost predicate SpeaksFor(lease: Lease, id: string, now: int) {
    && lease.name == Some("epa-replica-" + id)
    && exists renewed, seconds: Int32 ::
         && lease.spec == Some(LeaseSpec(Some(renewed), Some(seconds)))
         && 0 <= seconds && now - renewed < seconds * 1000 && now - renewed < 86_400_000
  }

  ghost predicate SaysDraining(lease: Lease) {
    exists labels :: lease.labels == Some(labels) && "draining" in labels && labels["draining"] == "true"
  }

  lemma LeaseMeans(lease: Lease, id: string, now: int)
    ensures Unexpired(lease, now) && ReplicaId(lease) == Some(id) <==> SpeaksFor(lease, id, now)
    ensures LabelledDraining(lease) <==> SaysDraining(lease)
  {
    assert (LEASE_PREFIX + id)[|LEASE_PREFIX|..] == id;
    if lease.name.Some? && LEASE_PREFIX <= lease.name.value {
      assert lease.name.value == LEASE_PREFIX + lease.name.value[|LEASE_PREFIX|..];
    }
    if Unexpired(lease, now) {
      var spec := lease.spec.value;
      assert lease.spec == Some(LeaseSpec(Some(spec.renewTime.value), Some(spec.durationSeconds.value)));
    }
  }

  /** After a successful update a replica is active exactly if a lease without the draining label speaks for it,
      and draining exactly if one with that label does; except that this replica, once its flag is up, is
      draining and never active. */
  lemma ViewMeans(after: ReplicaSets, me: string, leases: seq<Lease>, now: int, id: string)
    requires ReflectsListing(after, me, leases, now)
    ensures id in after.active <==>
      && !(after.localDraining && id == me)
      && exists i | 0 <= i < |leases| :: SpeaksFor(leases[i], id, now) && !SaysDraining(leases[i])
    ensures id in after.draining <==>
      || (after.localDraining && id == me)
      || exists i | 0 <= i < |leases| :: SpeaksFor(leases[i], id, now) && SaysDraining(leases[i])
  {
    forall i | 0 <= i < |leases|
      ensures Unexpired(leases[i], now) && ReplicaId(leases[i]) == Some(id) <==> SpeaksFor(leases[i], id, now)
      ensures LabelledDraining(leases[i]) <==> SaysDraining(leases[i])
    {
      LeaseMeans(leases[i], id, now);
    }
  }

  ghost predicate UniqueNames(leases: seq<Lease>) {
    forall i, j | 0 <= i < j < |leases| && leases[i].name.Some? :: leases[i].name != leases[j].name
  }

  lemma StrippedNameDetermines(a: Lease, b: Lease)
    requires ReplicaId(a).Some? && ReplicaId(a) == ReplicaId(b)
    ensures a.name == b.name
  {
    assert a.name.value == LEASE_PREFIX + ReplicaId(a).value;
    assert b.name.value == LEASE_PREFIX + ReplicaId(b).value;
  }

  /** The API server keeps lease names unique, and then no replica is both active and draining. */
  lemma ActiveAndDrainingAreDisjoint(after: ReplicaSets, me: string, leases: seq<Lease>, now: int)
    requires UniqueNames(leases) && ReflectsListing(after, me, leases, now)
    ensures after.active !! after.draining
  {
    forall id | id in after.active && id in after.draining ensures false {
      if !(after.localDraining && id == me) {
        var i :| 0 <= i < |leases| && Unexpired(leases[i], now) && ReplicaId(leases[i]) == Some(id)
                 && !LabelledDraining(leases[i]);
        var j :| 0 <= j < |leases| && Unexpired(leases[j], now) && ReplicaId(leases[j]) == Some(id)
                 && LabelledDraining(leases[j]);
        StrippedNameDetermines(leases[i], leases[j]);
      }
    }
  }

  /** A lease is read back as its writer, with the draining flag it was written with, for exactly thirty
      seconds. */
  lemma RenewedLeaseReadsBack(writer: string, flag: bool, renewed: int, now: int, id: string, draining: bool)
    ensures Reported([LeaseOf(writer, flag, renewed)], now, id, draining) <==>
      now < renewed + 30_000 && id == writer && draining == flag
  {
    var lease := LeaseOf(writer, flag, renewed);
    assert lease.name.value[|LEASE_PREFIX|..] == writer;
    assert LabelledDraining(lease) == flag;
    assert Unexpired(lease, now) <==> now < renewed + 30_000;
    assert [lease][0] == lease;
  }
}
