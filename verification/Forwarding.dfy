/** Where a request for an external metric is forwarded: src/webhook/metrics/handlers.rs.  All replicas
    share one membership view; their iteration orders may differ. */
module Forwarding {
  import opened Wrappers
  import opened Rendezvous
  import opened Transitions

  /** Process the request here, hand it on, or fall back to whatever the local store holds. */
  datatype Decision = Process | Forward(target: string) | Fallback

  /** The forwarding decision of get_external_metric on replica `me`. */
  function Decide(me: string, serves: bool, owner: Option<string>, previous: Option<string>): Decision {
    if serves then Process
    else match owner
      case None => Fallback
      case Some(o) =>
        if o != me then Forward(o)
        else match previous
          case Some(p) => if p != o then Forward(p) else Fallback
          case None => Fallback
  }

  /** Replica `me` keeps a request exactly if it serves; else the request goes to an owner that is another
      replica, or from the owner to a predecessor that is another replica; else to nobody. */
  ghost predicate Routes(decision: Decision, me: string, serves: bool, owner: Option<string>, previous: Option<string>)
  {
    && (decision.Process? <==> serves)
    && (forall t :: decision == Forward(t) <==>
          !serves && t != me && (owner == Some(t) || (owner == Some(me) && previous == Some(t))))
    && (decision.Fallback? <==>
          !serves && (owner == None || (owner == Some(me) && (previous == None || previous == Some(me)))))
  }

  lemma DecideRoutes(me: string, serves: bool, owner: Option<string>, previous: Option<string>)
    ensures Routes(Decide(me, serves, owner, previous), me, serves, owner, previous)
  {
  }

  /** One EPA at one instant: the shared view, and every replica's ownership maps. */
  datatype Fleet = Fleet(active: set<string>, draining: set<string>, weight: string -> nat,
                         key: string, states: map<string, TransitionState>, now: nat)
  {
    function All(): set<string> {
      active + draining
    }

    function StateOf(r: string): TransitionState {
      if r in states then states[r] else EMPTY
    }
  }

  /** The winner of the election among `replicas`, in any iteration order. */
  ghost predicate Winner(w: Option<string>, replicas: set<string>, weight: string -> nat) {
    if replicas == {} then w == None else w.Some? && Heaviest(w.value, replicas, weight)
  }

  /** owner is the winner over the active replicas and previous the winner over all of them. */
  ghost predicate Elected(f: Fleet, owner: Option<string>, previous: Option<string>) {
    TieFree(f.All(), f.weight) && Winner(owner, f.active, f.weight) && Winner(previous, f.All(), f.weight)
  }

  predicate Serves(f: Fleet, r: string, previous: Option<string>) {
    ShouldServe(f.StateOf(r), f.key, f.now, r, previous)
  }

  function NextHop(f: Fleet, r: string, owner: Option<string>, previous: Option<string>): Decision {
    Decide(r, Serves(f, r, previous), owner, previous)
  }

  /** Every replica decides as if it knew the two winners, whatever its iteration orders. */
  lemma DecisionsIgnoreOrder(f: Fleet, r: string, owner: Option<string>, previous: Option<string>,
                             activeOrder: seq<string>, allOrder: seq<string>)
    requires Elected(f, owner, previous)
    requires Enumerates(activeOrder, f.active) && Enumerates(allOrder, f.All())
    ensures var o, p := HighestWeightReplica(activeOrder, f.weight), HighestWeightReplica(allOrder, f.weight);
      Decide(r, Serves(f, r, p), o, p) == NextHop(f, r, owner, previous)
  {
    ElectionIgnoresOrder(activeOrder, f.active, f.weight);
    ElectionIgnoresOrder(allOrder, f.All(), f.weight);
    assert TieFree(f.active, f.weight);
  }

  /** The replica that holds the request after n forwards, or None when an earlier one kept it. */
  function Holder(f: Fleet, r: string, owner: Option<string>, previous: Option<string>, n: nat): Option<string> {
    if n == 0 then Some(r)
    else
      var earlier := Holder(f, r, owner, previous, n - 1);
      if earlier == None then None
      else match NextHop(f, earlier.value, owner, previous)
        case Forward(target) => Some(target)
        case _ => None
  }

  /** The request stops at some replica after at most n forwards. */
  predicate EndsWithin(f: Fleet, r: string, owner: Option<string>, previous: Option<string>, n: nat) {
    Holder(f, r, owner, previous, n + 1) == None
  }

  lemma {:induction false} EndedStaysEnded(f: Fleet, r: string, owner: Option<string>, previous: Option<string>,
                                           m: nat, n: nat)
    requires m <= n && Holder(f, r, owner, previous, m) == None
    ensures Holder(f, r, owner, previous, n) == None
  {
    if m < n {
      EndedStaysEnded(f, r, owner, previous, m, n - 1);
    }
  }

  /** The condition under which the two-hop claim holds. */
  predicate TwoHopsSuffice(f: Fleet, r: string, owner: Option<string>, previous: Option<string>) {
    || owner == None
    || Serves(f, r, previous)
    || Serves(f, owner.value, previous)
    || previous == owner
    || (previous.Some? && Serves(f, previous.value, previous))
  }

  /** Otherwise the request bounces between the owner and its predecessor for ever. */
  lemma {:induction false} BouncesForever(f: Fleet, r: string, owner: Option<string>, previous: Option<string>, n: nat)
    requires Elected(f, owner, previous) && !TwoHopsSuffice(f, r, owner, previous)
    ensures var h := Holder(f, r, owner, previous, n);
      && h.Some? && !Serves(f, h.value, previous)
      && (n > 0 ==> h == owner || h == previous)
      && (h == owner ==> Holder(f, r, owner, previous, n + 1) == previous)
      && (h != owner ==> Holder(f, r, owner, previous, n + 1) == owner)
      && owner != previous
  {
    if n != 0 {
      BouncesForever(f, r, owner, previous, n - 1);
    }
  }

  /** The two-hop claim, exactly: it holds under the condition, and when it fails no number of hops ends
      the request. */
  lemma HopsBoundedIff(f: Fleet, r: string, owner: Option<string>, previous: Option<string>)
    requires Elected(f, owner, previous)
    ensures EndsWithin(f, r, owner, previous, 2) <==> TwoHopsSuffice(f, r, owner, previous)
    ensures (exists n: nat :: EndsWithin(f, r, owner, previous, n)) <==> TwoHopsSuffice(f, r, owner, previous)
    ensures owner == None <==> f.active == {}
  {
    if !TwoHopsSuffice(f, r, owner, previous) {
      forall n: nat ensures !EndsWithin(f, r, owner, previous, n) {
        BouncesForever(f, r, owner, previous, n + 1);
      }
    } else {
      TwoHops(f, r, owner, previous);
      assert EndsWithin(f, r, owner, previous, 2);
    }
  }

  lemma TwoHops(f: Fleet, r: string, owner: Option<string>, previous: Option<string>)
    requires TwoHopsSuffice(f, r, owner, previous)
    ensures EndsWithin(f, r, owner, previous, 2)
  {
    assert Holder(f, r, owner, previous, 0) == Some(r);
    var first := Holder(f, r, owner, previous, 1);
    var second := Holder(f, r, owner, previous, 2);
    assert first == None || first == owner || first == previous;
    assert first.Some? ==> !Serves(f, r, previous);
    if second.Some? {
      assert second == owner || second == previous;
    }
  }

  /** The condition by the refresh histories of the replicas: the request ends unless the owner is inside the
      first period of its winning run, its predecessor neither owns the EPA nor remembers losing it, and the
      receiver has no right to serve of its own. */
  ghost predicate HistoriesSuffice(f: Fleet, histories: map<string, seq<Refresh>>, r: string,
                                   owner: Option<string>, previous: Option<string>)
  {
    || owner == None
    || previous == owner
    || MayServeUnderAnyView(f, histories, r)
    || MayServeUnderAnyView(f, histories, owner.value)
    || (previous.Some? && Owning(HistoryOf(histories, previous.value), f.key))
    || (previous.Some? && RemembersLoss(HistoryOf(histories, previous.value), f.key))
  }

  lemma HopsBoundedByHistory(f: Fleet, histories: map<string, seq<Refresh>>, r: string,
                             owner: Option<string>, previous: Option<string>)
    requires Elected(f, owner, previous) && Remembers(f, histories)
    ensures EndsWithin(f, r, owner, previous, 2) <==> HistoriesSuffice(f, histories, r, owner, previous)
    ensures (exists n: nat :: EndsWithin(f, r, owner, previous, n)) <==>
      HistoriesSuffice(f, histories, r, owner, previous)
  {
    HopsBoundedIff(f, r, owner, previous);
    if owner.Some? {
      HistoryDecides(HistoryOf(histories, r), f.key, f.now);
      HistoryDecides(HistoryOf(histories, owner.value), f.key, f.now);
      HistoryDecides(HistoryOf(histories, previous.value), f.key, f.now);
    }
  }

  function HistoryOf(histories: map<string, seq<Refresh>>, r: string): seq<Refresh> {
    if r in histories then histories[r] else []
  }

  /** Every replica's maps are those its refreshes built. */
  ghost predicate Remembers(f: Fleet, histories: map<string, seq<Refresh>>) {
    forall r :: f.StateOf(r) == Replay(HistoryOf(histories, r), |HistoryOf(histories, r)|)
  }

  ghost predicate MayServeUnderAnyView(f: Fleet, histories: map<string, seq<Refresh>>, r: string) {
    FilledWindow(HistoryOf(histories, r), f.key, f.now) || RemembersLoss(HistoryOf(histories, r), f.key)
  }

  /** While the predecessor remembers its loss, or once the owner has filled its window, two hops suffice. */
  lemma GraceBoundsHops(f: Fleet, r: string, owner: string, previous: string, h: seq<Refresh>)
    requires Elected(f, Some(owner), Some(previous))
    requires f.StateOf(previous) == Replay(h, |h|)
    requires f.key in f.StateOf(previous).lost || ServesRegardless(f.StateOf(owner), f.key, f.now)
    ensures EndsWithin(f, r, Some(owner), Some(previous), 2)
  {
    MapsRefineHistory(h, f.key, |h|, 0);
    TwoHops(f, r, Some(owner), Some(previous));
  }
}
