/** The `owned` and `lost` maps behind an ownership handoff, and what they remember of the refreshes
    that built them: src/membership/ownership.rs.  Times and periods are milliseconds. */
module Transitions {
  import opened Wrappers

  const GRACE_BUFFER: nat := 5000

  datatype OwnershipState = OwnershipState(since: nat, evaluationPeriod: nat)

  datatype LostOwnership = LostOwnership(at: nat, evaluationPeriod: nat)

  datatype TransitionState = TransitionState(owned: map<string, OwnershipState>, lost: map<string, LostOwnership>)

  const EMPTY := TransitionState(map[], map[])

  /** One call of refresh_ownership, with the outcome of its election. */
  datatype Refresh = Refresh(key: string, won: bool, evaluationPeriod: nat, at: nat)

  function Elapsed(since: nat, now: nat): nat {
    if since <= now then now - since else 0
  }

  predicate InGrace(entry: LostOwnership, now: nat) {
    Elapsed(entry.at, now) < entry.evaluationPeriod + GRACE_BUFFER
  }

  function Retained(lost: map<string, LostOwnership>, now: nat): map<string, LostOwnership> {
    map k | k in lost && InGrace(lost[k], now) :: lost[k]
  }

  /** refresh_ownership on the two maps. */
  function Refreshed(s: TransitionState, e: Refresh): TransitionState {
    if e.won then
      var since := if e.key in s.owned then s.owned[e.key].since else e.at;
      TransitionState(s.owned[e.key := OwnershipState(since, e.evaluationPeriod)], Retained(s.lost - {e.key}, e.at))
    else if e.key in s.owned then
      var entry := if e.key in s.lost then s.lost[e.key] else LostOwnership(e.at, e.evaluationPeriod);
      TransitionState(s.owned - {e.key}, Retained(s.lost[e.key := entry], e.at))
    else
      TransitionState(s.owned, Retained(s.lost, e.at))
  }

  /** The part of should_serve_epa that holds whatever the membership view says. */
  predicate ServesRegardless(s: TransitionState, key: string, now: nat) {
    if key in s.owned then Elapsed(s.owned[key].since, now) >= s.owned[key].evaluationPeriod
    else key in s.lost
  }

  /** should_serve_epa on replica `me`; `previous` is the winner over active and draining replicas. */
  predicate ShouldServe(s: TransitionState, key: string, now: nat, me: string, previous: Option<string>) {
    || ServesRegardless(s, key, now)
    || (key in s.owned && (previous == None || previous == Some(me)))
  }

  // ---- the maps refine the refresh history ----

  /** The state after the first n refreshes of the history. */
  function Replay(h: seq<Refresh>, n: nat): TransitionState
    requires n <= |h|
  {
    if n == 0 then EMPTY else Refreshed(Replay(h, n - 1), h[n - 1])
  }

  lemma {:induction false} ReplayExtends(h: seq<Refresh>, more: seq<Refresh>, n: nat)
    requires n <= |h|
    ensures Replay(h + more, n) == Replay(h, n)
  {
    if n != 0 {
      ReplayExtends(h, more, n - 1);
    }
  }

  /** j is the latest refresh of the key before index i. */
  ghost predicate Latest(h: seq<Refresh>, key: string, i: nat, j: nat) {
    j < i <= |h| && h[j].key == key && forall m: nat | j < m < i :: h[m].key != key
  }

  /** Index i won the key although the refresh of the key before it, if any, had lost. */
  ghost predicate StartsRun(h: seq<Refresh>, key: string, i: nat) {
    && i < |h| && h[i].key == key && h[i].won
    && forall j: nat | Latest(h, key, i, j) :: !h[j].won
  }

  /** The unbroken winning run of the key that starts at i is still going after n refreshes. */
  ghost predicate WinningSince(h: seq<Refresh>, key: string, i: nat, n: nat) {
    && i < n <= |h| && StartsRun(h, key, i)
    && forall j: nat | i <= j < n && h[j].key == key :: h[j].won
  }

  /** Index i ended a winning run of the key; the key has not been won again since, and no refresh of any
      key has come at or after the end of the grace window. */
  ghost predicate LostSince(h: seq<Refresh>, key: string, i: nat, n: nat) {
    && i < n <= |h| && h[i].key == key && !h[i].won
    && (exists j: nat :: Latest(h, key, i, j) && h[j].won)
    && (forall j: nat | i <= j < n && h[j].key == key :: !h[j].won)
    && (forall m: nat | i < m < n :: h[m].at < h[i].at + h[i].evaluationPeriod + GRACE_BUFFER)
  }

  /** Where the current winning run of the key started. */
  ghost function RunStart(h: seq<Refresh>, key: string, n: nat): (r: Option<nat>)
    requires n <= |h|
    ensures r.Some? ==> r.value < n
  {
    if n == 0 then None
    else if h[n - 1].key != key then RunStart(h, key, n - 1)
    else if !h[n - 1].won then None
    else if RunStart(h, key, n - 1).Some? then RunStart(h, key, n - 1)
    else Some(n - 1)
  }

  ghost predicate StillInGrace(h: seq<Refresh>, i: nat, at: nat)
    requires i < |h|
  {
    at < h[i].at + h[i].evaluationPeriod + GRACE_BUFFER
  }

  /** Which refresh lost the key, while its grace window is remembered. */
  ghost function LossIndex(h: seq<Refresh>, key: string, n: nat): (r: Option<nat>)
    requires n <= |h|
    ensures r.Some? ==> r.value < n
  {
    if n == 0 then None
    else
      var e := h[n - 1];
      if e.key == key && e.won then None
      else if e.key == key && RunStart(h, key, n - 1).Some? then Some(n - 1)
      else
        var earlier := LossIndex(h, key, n - 1);
        if earlier.Some? && StillInGrace(h, earlier.value, e.at) then earlier else None
  }

  lemma {:induction false} MapsFollowIndices(h: seq<Refresh>, key: string, n: nat)
    requires n <= |h|
    ensures var s, run, loss := Replay(h, n), RunStart(h, key, n), LossIndex(h, key, n);
      && (key in s.owned <==> run.Some?)
      && (run.Some? ==> s.owned[key].since == h[run.value].at)
      && (key in s.lost <==> loss.Some?)
      && (loss.Some? ==> s.lost[key] == LostOwnership(h[loss.value].at, h[loss.value].evaluationPeriod))
      && !(run.Some? && loss.Some?)
  {
    if n != 0 {
      MapsFollowIndices(h, key, n - 1);
    }
  }

  lemma {:induction false} LatestExists(h: seq<Refresh>, key: string, i: nat, n: nat) returns (j: nat)
    requires i < n <= |h| && h[i].key == key
    ensures i <= j && Latest(h, key, n, j)
    decreases n
  {
    if h[n - 1].key == key {
      j := n - 1;
    } else {
      j := LatestExists(h, key, i, n - 1);
    }
  }

  /** The latest refresh of a key decides whether it is owned, and with which period. */
  lemma {:induction false} LatestDecides(h: seq<Refresh>, key: string, n: nat, j: nat)
    requires Latest(h, key, n, j)
    ensures RunStart(h, key, n).Some? <==> h[j].won
    ensures h[j].won ==>
      key in Replay(h, n).owned && Replay(h, n).owned[key].evaluationPeriod == h[j].evaluationPeriod
    decreases n
  {
    if j < n - 1 {
      LatestDecides(h, key, n - 1, j);
    }
  }

  lemma {:induction false} RunStartMeaning(h: seq<Refresh>, key: string, n: nat, i: nat)
    requires n <= |h|
    ensures RunStart(h, key, n) == Some(i) <==> WinningSince(h, key, i, n)
    decreases n
  {
    if n != 0 {
      var before := RunStart(h, key, n - 1);
      RunStartMeaning(h, key, n - 1, i);
      if h[n - 1].key == key && h[n - 1].won {
        if before.Some? {
          RunStartMeaning(h, key, n - 1, before.value);
          var j := LatestExists(h, key, before.value, n - 1);
        } else {
          forall j: nat | Latest(h, key, n - 1, j) ensures !h[j].won {
            LatestDecides(h, key, n - 1, j);
          }
        }
      }
    }
  }

  lemma {:induction false} LossIndexMeaning(h: seq<Refresh>, key: string, n: nat, i: nat)
    requires n <= |h|
    ensures LossIndex(h, key, n) == Some(i) <==> LostSince(h, key, i, n)
    decreases n
  {
    if n != 0 {
      LossIndexMeaning(h, key, n - 1, i);
      if h[n - 1].key == key && !h[n - 1].won {
        var before := RunStart(h, key, n - 1);
        if before.Some? {
          RunStartMeaning(h, key, n - 1, before.value);
          var j := LatestExists(h, key, before.value, n - 1);
          LatestDecides(h, key, n - 1, j);
        } else {
          forall j: nat | Latest(h, key, n - 1, j) ensures !h[j].won {
            LatestDecides(h, key, n - 1, j);
          }
        }
      }
    }
  }

  /** After every history the two maps say exactly what the history says, and share no key; so a losing
      refresh never finds an entry in `lost` already. */
  lemma MapsRefineHistory(h: seq<Refresh>, key: string, n: nat, i: nat)
    requires n <= |h|
    ensures var s := Replay(h, n);
      && (WinningSince(h, key, i, n) ==> key in s.owned && s.owned[key].since == h[i].at)
      && (key in s.owned ==> exists m: nat :: WinningSince(h, key, m, n))
      && (Latest(h, key, n, i) && key in s.owned ==>
            h[i].won && s.owned[key].evaluationPeriod == h[i].evaluationPeriod)
      && (LostSince(h, key, i, n) ==>
            key in s.lost && s.lost[key] == LostOwnership(h[i].at, h[i].evaluationPeriod))
      && (key in s.lost ==> exists m: nat :: LostSince(h, key, m, n))
      && !(key in s.owned && key in s.lost)
  {
    MapsFollowIndices(h, key, n);
    RunStartMeaning(h, key, n, i);
    LossIndexMeaning(h, key, n, i);
    var run, loss := RunStart(h, key, n), LossIndex(h, key, n);
    if run.Some? { RunStartMeaning(h, key, n, run.value); }
    if loss.Some? { LossIndexMeaning(h, key, n, loss.value); }
    if Latest(h, key, n, i) { LatestDecides(h, key, n, i); }
  }
  // ---- what a replica may do, by its history ----

  /** A winning run of the key is unbroken. */
  ghost predicate Owning(h: seq<Refresh>, key: string) {
    exists i: nat :: WinningSince(h, key, i, |h|)
  }

  /** The loss that ended a winning run of the key is still remembered. */
  ghost predicate RemembersLoss(h: seq<Refresh>, key: string) {
    exists i: nat :: LostSince(h, key, i, |h|)
  }

  /** The unbroken winning run of the key is at least as old as the evaluation period of its latest refresh. */
  ghost predicate FilledWindow(h: seq<Refresh>, key: string, now: nat) {
    exists i: nat, j: nat :: WinningSince(h, key, i, |h|) && Latest(h, key, |h|, j)
      && Elapsed(h[i].at, now) >= h[j].evaluationPeriod
  }

  lemma HistoryDecides(h: seq<Refresh>, key: string, now: nat)
    ensures key in Replay(h, |h|).owned <==> Owning(h, key)
    ensures key in Replay(h, |h|).lost <==> RemembersLoss(h, key)
    ensures ServesRegardless(Replay(h, |h|), key, now) <==> FilledWindow(h, key, now) || RemembersLoss(h, key)
  {
    MapsRefineHistory(h, key, |h|, 0);
    forall i: nat | WinningSince(h, key, i, |h|) || LostSince(h, key, i, |h|)
      ensures WinningSince(h, key, i, |h|) ==> key in Replay(h, |h|).owned && Replay(h, |h|).owned[key].since == h[i].at
      ensures LostSince(h, key, i, |h|) ==> key in Replay(h, |h|).lost
    {
      MapsRefineHistory(h, key, |h|, i);
    }
    forall j: nat | Latest(h, key, |h|, j)
      ensures key in Replay(h, |h|).owned ==> Replay(h, |h|).owned[key].evaluationPeriod == h[j].evaluationPeriod
    {
      MapsRefineHistory(h, key, |h|, j);
    }
    if key in Replay(h, |h|).owned {
      var i: nat :| WinningSince(h, key, i, |h|);
      var j := LatestExists(h, key, i, |h|);
    }
  }
}
