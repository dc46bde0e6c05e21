/** No serving gap along a chain of ownership handoffs. */
module Handoff {
  import opened Wrappers
  import opened Transitions

  /** At time t the replica has processed the first n refreshes of its history; refreshes that fall on t
      itself may be on either side of the cut. */
  ghost predicate Cut(h: seq<Refresh>, n: nat, t: nat) {
    && n <= |h|
    && (forall j | 0 <= j < n :: h[j].at <= t)
    && (forall j | n <= j < |h| :: t <= h[j].at)
  }

  /** From index w up to x every refresh of the key wins, with the one evaluation period. */
  ghost predicate HoldsFrom(h: seq<Refresh>, key: string, period: nat, w: nat, x: nat) {
    && w < x <= |h| && StartsRun(h, key, w)
    && forall j | w <= j < x && h[j].key == key :: h[j].won && h[j].evaluationPeriod == period
  }

  /** The win that started at w is lost at index x. */
  ghost predicate LosesAt(h: seq<Refresh>, key: string, period: nat, w: nat, x: nat) {
    && HoldsFrom(h, key, period, w, x)
    && x < |h| && h[x].key == key && !h[x].won && h[x].evaluationPeriod == period
  }

  /** Refresh j takes away the serving right that the loss at x left behind: it wins the key back, which
      starts a new evaluation period, or it is the first of any key after the grace window. */
  ghost predicate Disturbs(h: seq<Refresh>, key: string, period: nat, x: nat, j: nat)
    requires x < |h|
  {
    && x < j < |h|
    && ((h[j].key == key && h[j].won) || h[j].at >= h[x].at + period + GRACE_BUFFER)
  }

  /** One replica of the chain: its refreshes (of every key), and where it wins and loses this key.
      The last replica of the chain keeps the win: x is then the length of its history. */
  datatype Tenure = Tenure(h: seq<Refresh>, w: nat, x: nat)

  /** When the replica has owned the key for a full evaluation period.  (A period of zero is over at once,
      but not before the winning refresh.) */
  function FullAt(b: Tenure, period: nat): nat
    requires b.w < |b.h|
  {
    b.h[b.w].at + (if period == 0 then 1 else period)
  }

  /** Until the successor has owned the key for a full period, nothing disturbs the leaver. */
  ghost predicate HandsOver(a: Tenure, b: Tenure, key: string, period: nat)
    requires a.x < |a.h| && b.w < |b.h|
  {
    forall j: nat | Disturbs(a.h, key, period, a.x, j) :: a.h[j].at >= FullAt(b, period)
  }

  ghost predicate Chain(c: seq<Tenure>, key: string, period: nat) {
    && |c| > 0
    && (forall i | 0 <= i < |c| :: HoldsFrom(c[i].h, key, period, c[i].w, c[i].x))
    && (forall i | 0 <= i < |c| - 1 ::
          LosesAt(c[i].h, key, period, c[i].w, c[i].x) && HandsOver(c[i], c[i + 1], key, period))
    && c[|c| - 1].x == |c[|c| - 1].h|
  }

  ghost predicate AnswersAnyView(s: TransitionState, key: string, t: nat) {
    forall me, previous :: ShouldServe(s, key, t, me, previous)
  }

  lemma OwnerServesAfterPeriod(h: seq<Refresh>, key: string, period: nat, w: nat, x: nat, n: nat, t: nat)
    requires HoldsFrom(h, key, period, w, x) && w < n <= x
    requires h[w].at + period <= t
    ensures ServesRegardless(Replay(h, n), key, t)
  {
    assert WinningSince(h, key, w, n);
    MapsRefineHistory(h, key, n, w);
    var j := LatestExists(h, key, w, n);
    MapsRefineHistory(h, key, n, j);
  }

  lemma LoserServesUntilDisturbed(h: seq<Refresh>, key: string, period: nat, w: nat, x: nat, n: nat, t: nat)
    requires LosesAt(h, key, period, w, x) && x < n <= |h|
    requires forall j: nat | x < j < n :: !Disturbs(h, key, period, x, j)
    ensures LostSince(h, key, x, n) && ServesRegardless(Replay(h, n), key, t)
  {
    var won := LatestExists(h, key, w, x);
    forall j: nat | x < j < n
      ensures (h[j].key == key ==> !h[j].won) && h[j].at < h[x].at + period + GRACE_BUFFER
    {
      assert !Disturbs(h, key, period, x, j);
    }
    assert LostSince(h, key, x, n);
    MapsRefineHistory(h, key, n, x);
  }

  /** ... and no longer: at the first disturbing refresh the right to serve is gone. */
  lemma DisturbanceStopsServing(h: seq<Refresh>, key: string, period: nat, w: nat, x: nat, j: nat)
    requires LosesAt(h, key, period, w, x) && period > 0 && OnePeriod(h, key, period) && Disturbs(h, key, period, x, j)
    requires forall i: nat | x < i < j :: !Disturbs(h, key, period, x, i)
    ensures !ServesRegardless(Replay(h, j + 1), key, h[j].at)
  {
    LoserServesUntilDisturbed(h, key, period, w, x, j, h[j].at);
    LossIndexMeaning(h, key, j, x);
    MapsFollowIndices(h, key, j);
    MapsFollowIndices(h, key, j + 1);
    if h[j].key == key {
      LatestDecides(h, key, j + 1, j);
    }
  }

  lemma {:induction false} ServesFromTenure(c: seq<Tenure>, key: string, period: nat, cuts: seq<nat>, t: nat, i: nat)
    returns (server: nat)
    requires Chain(c, key, period) && |cuts| == |c| && i < |c|
    requires forall k | 0 <= k < |c| :: Cut(c[k].h, cuts[k], t)
    requires c[i].w < cuts[i] && c[i].h[c[i].w].at + period <= t
    ensures server < |c| && cuts[server] <= |c[server].h|
    ensures ServesRegardless(Replay(c[server].h, cuts[server]), key, t)
    decreases |c| - i
  {
    var a, n := c[i], cuts[i];
    server := i;
    if n <= a.x {
      OwnerServesAfterPeriod(a.h, key, period, a.w, a.x, n, t);
    } else if t < FullAt(c[i + 1], period) {
      LoserServesUntilDisturbed(a.h, key, period, a.w, a.x, n, t);
    } else {
      assert Cut(c[i + 1].h, cuts[i + 1], t);
      server := ServesFromTenure(c, key, period, cuts, t, i + 1);
    }
  }

  /** From the end of the first replica's first evaluation period on, some replica of the chain serves
      at every instant, wherever the refresh ticks of each replica fall and whatever it sees of the others. */
  lemma NoServingGap(c: seq<Tenure>, key: string, period: nat, cuts: seq<nat>, t: nat)
    requires Chain(c, key, period) && |cuts| == |c|
    requires forall k | 0 <= k < |c| :: Cut(c[k].h, cuts[k], t)
    requires c[0].w < cuts[0] && c[0].h[c[0].w].at + period <= t
    ensures exists k | 0 <= k < |c| :: cuts[k] <= |c[k].h| && AnswersAnyView(Replay(c[k].h, cuts[k]), key, t)
  {
    var k := ServesFromTenure(c, key, period, cuts, t, 0);
    assert AnswersAnyView(Replay(c[k].h, cuts[k]), key, t);
  }

  // ---- when a handoff of the chain is without a gap ----

  /** A successor that first wins within the grace buffer takes over without a gap if and only if the leaver
      does not win the key back before the successor's first evaluation period is over.  (With a period of
      zero the two could share the very instant at which the buffer ends.) */
  lemma TimelyTakeoverHandsOverIff(a: Tenure, b: Tenure, key: string, period: nat)
    requires a.x < |a.h| && b.w < |b.h|
    requires b.h[b.w].at <= a.h[a.x].at + GRACE_BUFFER
    requires period == 0 ==> b.h[b.w].at < a.h[a.x].at + GRACE_BUFFER
    ensures HandsOver(a, b, key, period) <==>
      forall j | a.x < j < |a.h| && a.h[j].key == key && a.h[j].at < FullAt(b, period) :: !a.h[j].won
  {
    if HandsOver(a, b, key, period) {
      forall j | a.x < j < |a.h| && a.h[j].key == key && a.h[j].at < FullAt(b, period) ensures !a.h[j].won {
        assert a.h[j].won ==> Disturbs(a.h, key, period, a.x, j);
      }
    }
  }

  ghost predicate InOrder(h: seq<Refresh>) {
    forall i, j | 0 <= i < j < |h| :: h[i].at <= h[j].at
  }

  ghost predicate OnePeriod(h: seq<Refresh>, key: string, period: nat) {
    forall j | 0 <= j < |h| && h[j].key == key :: h[j].evaluationPeriod == period
  }

  /** b wins the key for the first time at b.w and keeps it. */
  ghost predicate FirstWins(b: Tenure, key: string, period: nat) {
    && HoldsFrom(b.h, key, period, b.w, |b.h|)
    && forall j | 0 <= j < b.w && b.h[j].key == key :: !b.h[j].won
  }

  /** From the loss on, at every instant and at every cut, leaver or successor serves whatever it sees. */
  ghost predicate Seamless(a: Tenure, b: Tenure, key: string) {
    forall t: nat, m: nat, n: nat | a.x < m && Cut(a.h, m, t) && Cut(b.h, n, t) ::
      ServesRegardless(Replay(a.h, m), key, t) || ServesRegardless(Replay(b.h, n), key, t)
  }

  /** The exact condition for one handoff. */
  lemma SeamlessIff(a: Tenure, b: Tenure, key: string, period: nat)
    requires period > 0 && InOrder(a.h) && InOrder(b.h) && OnePeriod(a.h, key, period)
    requires LosesAt(a.h, key, period, a.w, a.x) && FirstWins(b, key, period)
    ensures Seamless(a, b, key) <==> HandsOver(a, b, key, period)
  {
    if HandsOver(a, b, key, period) {
      forall t: nat, m: nat, n: nat | a.x < m && Cut(a.h, m, t) && Cut(b.h, n, t)
        ensures ServesRegardless(Replay(a.h, m), key, t) || ServesRegardless(Replay(b.h, n), key, t)
      {
        if t < FullAt(b, period) {
          LoserServesUntilDisturbed(a.h, key, period, a.w, a.x, m, t);
        } else {
          OwnerServesAfterPeriod(b.h, key, period, b.w, |b.h|, n, t);
        }
      }
    } else {
      var j := FirstDisturbance(a, b, key, period);
      var t := a.h[j].at;
      DisturbanceStopsServing(a.h, key, period, a.w, a.x, j);
      var n := CutAt(b.h, t, |b.h|);
      SuccessorNotYetServing(b, key, period, n, t);
      assert Cut(a.h, j + 1, t);
    }
  }

  lemma FirstDisturbance(a: Tenure, b: Tenure, key: string, period: nat) returns (j: nat)
    requires a.x < |a.h| && b.w < |b.h| && InOrder(a.h) && !HandsOver(a, b, key, period)
    ensures Disturbs(a.h, key, period, a.x, j) && a.h[j].at < FullAt(b, period)
    ensures forall i: nat | a.x < i < j :: !Disturbs(a.h, key, period, a.x, i)
  {
    var some: nat :| Disturbs(a.h, key, period, a.x, some) && a.h[some].at < FullAt(b, period);
    j := a.x + 1;
    while !Disturbs(a.h, key, period, a.x, j)
      invariant a.x < j <= some
      invariant forall i: nat | a.x < i < j :: !Disturbs(a.h, key, period, a.x, i)
      decreases some - j
    {
      j := j + 1;
    }
  }

  lemma {:induction false} CutAt(h: seq<Refresh>, t: nat, n: nat) returns (m: nat)
    requires InOrder(h) && n <= |h| && forall j | n <= j < |h| :: t <= h[j].at
    ensures Cut(h, m, t)
  {
    if n == 0 || h[n - 1].at <= t {
      m := n;
    } else {
      m := CutAt(h, t, n - 1);
    }
  }

  lemma SuccessorNotYetServing(b: Tenure, key: string, period: nat, n: nat, t: nat)
    requires period > 0 && FirstWins(b, key, period) && n <= |b.h| && t < b.h[b.w].at + period
    ensures !ServesRegardless(Replay(b.h, n), key, t)
  {
    MapsFollowIndices(b.h, key, n);
    if n <= b.w {
      NeverWonNothingHeld(b.h, key, n);
    } else {
      assert WinningSince(b.h, key, b.w, n);
      MapsRefineHistory(b.h, key, n, b.w);
      var j := LatestExists(b.h, key, b.w, n);
      LatestDecides(b.h, key, n, j);
    }
  }

  lemma {:induction false} NeverWonNothingHeld(h: seq<Refresh>, key: string, n: nat)
    requires n <= |h| && forall j | 0 <= j < n && h[j].key == key :: !h[j].won
    ensures key !in Replay(h, n).owned && key !in Replay(h, n).lost
  {
    if n != 0 {
      NeverWonNothingHeld(h, key, n - 1);
    }
  }

  /** A successor that first wins later than the grace buffer can leave an instant at which neither replica
      serves, if it still sees the predecessor draining. */
  lemma LateTakeoverLeavesGap(key: string, period: nat, win: nat, loss: nat, lateWin: nat, a: string, b: string)
    returns (leaver: Tenure, successor: Tenure, t: nat, n: nat)
    requires a != b && win <= loss && loss + GRACE_BUFFER < lateWin
    ensures LosesAt(leaver.h, key, period, leaver.w, leaver.x)
    ensures leaver.h[leaver.w].at == win && leaver.h[leaver.x].at == loss
    ensures HoldsFrom(successor.h, key, period, successor.w, |successor.h|)
    ensures successor.h[successor.w].at == lateWin
    ensures win + period <= t && n <= |successor.h| && Cut(leaver.h, |leaver.h|, t) && Cut(successor.h, n, t)
    ensures t == loss + period + GRACE_BUFFER && (lateWin <= t <==> key in Replay(successor.h, n).owned)
    ensures forall previous :: !ShouldServe(Replay(leaver.h, |leaver.h|), key, t, a, previous)
    ensures !ShouldServe(Replay(successor.h, n), key, t, b, Some(a))
  {
    t := loss + period + GRACE_BUFFER;
    var h := [Refresh(key, true, period, win), Refresh(key, false, period, loss), Refresh(key, false, period, t)];
    var g := [Refresh(key, true, period, lateWin)];
    leaver, successor := Tenure(h, 0, 1), Tenure(g, 0, 1);
    assert Replay(h, 1) == TransitionState(map[key := OwnershipState(win, period)], map[]);
    assert Replay(h, 2) == TransitionState(map[], map[key := LostOwnership(loss, period)]);
    assert Replay(h, 3) == EMPTY;
    n := if lateWin <= t then 1 else 0;
    assert Replay(g, 1) == TransitionState(map[key := OwnershipState(lateWin, period)], map[]);
  }
  /** So can a leaver that wins the key back before the successor's first period is over, however soon the
      successor took over: from the new win until that period ends neither replica serves. */
  lemma QuickRewinLeavesGap(key: string, period: nat, win: nat, loss: nat, takeover: nat, rewin: nat, t: nat,
                            a: string, b: string)
    returns (leaver: Tenure, successor: Tenure)
    requires a != b && win <= loss <= takeover <= loss + GRACE_BUFFER
    requires takeover <= rewin <= t < takeover + period
    ensures LosesAt(leaver.h, key, period, leaver.w, leaver.x) && FirstWins(successor, key, period)
    ensures leaver.h[leaver.w].at == win && leaver.h[leaver.x].at == loss && successor.h[successor.w].at == takeover
    ensures Cut(leaver.h, |leaver.h|, t) && Cut(successor.h, |successor.h|, t)
    ensures key in Replay(leaver.h, |leaver.h|).owned && key in Replay(successor.h, |successor.h|).owned
    ensures forall previous :: previous != Some(a) && previous.Some? ==>
      !ShouldServe(Replay(leaver.h, |leaver.h|), key, t, a, previous)
    ensures forall previous :: previous != Some(b) && previous.Some? ==>
      !ShouldServe(Replay(successor.h, |successor.h|), key, t, b, previous)
  {
    var h := [Refresh(key, true, period, win), Refresh(key, false, period, loss), Refresh(key, true, period, rewin)];
    var g := [Refresh(key, true, period, takeover)];
    leaver, successor := Tenure(h, 0, 1), Tenure(g, 0, 1);
    assert Replay(h, 1) == TransitionState(map[key := OwnershipState(win, period)], map[]);
    assert Replay(h, 2) == TransitionState(map[], map[key := LostOwnership(loss, period)]);
    assert Replay(h, 3) == TransitionState(map[key := OwnershipState(rewin, period)], map[]);
    assert Replay(g, 1) == TransitionState(map[key := OwnershipState(takeover, period)], map[]);
  }
}
