/** The per-second rate of a counter: src/webhook/metrics/aggregation.rs. */
module Counters {
  import opened Wrappers
  import opened Samples

  const MAX_RATE := 1_000_000_000.0

  function Values(samples: seq<LabeledSample>): (vs: seq<real>)
    ensures |vs| == |samples| && forall i | 0 <= i < |vs| :: vs[i] == samples[i].value
  {
    seq(|samples|, i requires 0 <= i < |samples| => samples[i].value)
  }

  predicate Drops(from: real, to: real) {
    to < from
  }

  /** What one adjacent pair contributes: a drop is a counter restart and contributes the new value. */
  function PairIncrease(from: real, to: real): real {
    if to >= from then to - from else to
  }

  function Increase(vs: seq<real>): real {
    var n := |vs|;
    if n < 2 then 0.0 else Increase(vs[..n - 1]) + PairIncrease(vs[n - 2], vs[n - 1])
  }

  function ElapsedSeconds(from: nat, to: nat): real {
    (if from <= to then to - from else 0) as real / 1000.0
  }

  /** calculate_rate. */
  function CalculateRate(samples: seq<LabeledSample>): Option<real> {
    var n := |samples|;
    if n < 2 then None
    else
      var elapsed := ElapsedSeconds(samples[0].scrapedAt, samples[n - 1].scrapedAt);
      if elapsed == 0.0 then Some(0.0)
      else
        var rate := Increase(Values(samples)) / elapsed;
        Some(if rate < MAX_RATE then rate else MAX_RATE)
  }

  // ---- the counter-increase identity ----

  /** The sum of the values that stand immediately before a drop. */
  function LostToRestarts(vs: seq<real>): real {
    var n := |vs|;
    if n < 2 then 0.0
    else LostToRestarts(vs[..n - 1]) + (if Drops(vs[n - 2], vs[n - 1]) then vs[n - 2] else 0.0)
  }

  lemma {:induction false} IncreaseIdentity(vs: seq<real>)
    requires vs != []
    ensures Increase(vs) == vs[|vs| - 1] - vs[0] + LostToRestarts(vs)
  {
    if |vs| > 1 {
      IncreaseIdentity(vs[..|vs| - 1]);
    }
  }

  /** Splitting a series at one of its samples splits the increase. */
  lemma {:induction false} IncreaseSplits(vs: seq<real>, i: nat)
    requires i < |vs|
    ensures Increase(vs) == Increase(vs[..i + 1]) + Increase(vs[i..])
  {
    var n := |vs| - 1;
    if i == n {
      assert vs[..i + 1] == vs;
    } else {
      IncreaseSplits(vs[..n], i);
      assert vs[..n][..i + 1] == vs[..i + 1];
      assert vs[..n][i..] == vs[i..][..n - i];
    }
  }

  ghost predicate NonNegative(vs: seq<real>) {
    forall i | 0 <= i < |vs| :: vs[i] >= 0.0
  }

  ghost predicate NeverDrops(vs: seq<real>) {
    forall i | 0 < i < |vs| :: !Drops(vs[i - 1], vs[i])
  }

  lemma {:induction false} RestartsCostSomething(vs: seq<real>)
    requires NonNegative(vs)
    ensures LostToRestarts(vs) >= 0.0 && Increase(vs) >= 0.0
    ensures LostToRestarts(vs) == 0.0 <==> NeverDrops(vs)
  {
    var n := |vs|;
    if n > 1 {
      var shorter := vs[..n - 1];
      RestartsCostSomething(shorter);
      assert NeverDrops(vs) <==> NeverDrops(shorter) && !Drops(vs[n - 2], vs[n - 1]) by {
        if NeverDrops(vs) {
          forall i | 0 < i < |shorter| ensures !Drops(shorter[i - 1], shorter[i]) {
            assert !Drops(vs[i - 1], vs[i]);
          }
        }
        if NeverDrops(shorter) && !Drops(vs[n - 2], vs[n - 1]) {
          forall i | 0 < i < n ensures !Drops(vs[i - 1], vs[i]) {
            if i < n - 1 { assert !Drops(shorter[i - 1], shorter[i]); }
          }
        }
      }
    }
  }

  /** The increase of a non-negative counter is at least last - first, and more exactly when it restarts. */
  lemma {:induction false} IncreaseAtLeastNet(vs: seq<real>)
    requires vs != [] && NonNegative(vs)
    ensures Increase(vs) >= vs[|vs| - 1] - vs[0]
    ensures Increase(vs) == vs[|vs| - 1] - vs[0] <==> NeverDrops(vs)
  {
    IncreaseIdentity(vs);
    RestartsCostSomething(vs);
  }

  /** There is a rate exactly from two samples on; for a non-negative counter it lies in [0, MAX_RATE], and
      below the cap, over a positive time, it accounts for the whole increase. */
  lemma RateBounds(samples: seq<LabeledSample>)
    requires NonNegative(Values(samples))
    ensures CalculateRate(samples).Some? <==> |samples| >= 2
    ensures CalculateRate(samples).Some? ==>
      var rate, elapsed := CalculateRate(samples).value,
                           ElapsedSeconds(samples[0].scrapedAt, samples[|samples| - 1].scrapedAt);
      && 0.0 <= rate <= MAX_RATE
      && (elapsed == 0.0 ==> rate == 0.0)
      && (elapsed != 0.0 && rate < MAX_RATE ==> rate * elapsed == Increase(Values(samples)))
      && (elapsed != 0.0 && rate == MAX_RATE ==> Increase(Values(samples)) >= MAX_RATE * elapsed)
  {
    RestartsCostSomething(Values(samples));
    if |samples| >= 2 {
      var elapsed := ElapsedSeconds(samples[0].scrapedAt, samples[|samples| - 1].scrapedAt);
      if elapsed != 0.0 {
        Quotient(Increase(Values(samples)), elapsed, MAX_RATE);
      }
    }
  }

  lemma Quotient(x: real, y: real, bound: real)
    requires x >= 0.0 && y > 0.0
    ensures x / y >= 0.0 && (x / y) * y == x
    ensures x / y >= bound ==> x >= bound * y
  {
  }
  /** x is, up to MAX_RATE, the increase of the values per second between the first sample and the last;
      without time between them it is zero.  Times are milliseconds. */
  ghost predicate IsRate(x: real, samples: seq<LabeledSample>)
    requires samples != []
  {
    var first, last := samples[0].scrapedAt, samples[|samples| - 1].scrapedAt;
    if last <= first then x == 0.0
    else
      var ms := (last - first) as real;
      if 1000.0 * Increase(Values(samples)) <= MAX_RATE * ms then x * ms == 1000.0 * Increase(Values(samples))
      else x == MAX_RATE
  }

  lemma RateIsRate(samples: seq<LabeledSample>)
    requires |samples| >= 2
    ensures CalculateRate(samples).Some? && IsRate(CalculateRate(samples).value, samples)
  {
    var first, last := samples[0].scrapedAt, samples[|samples| - 1].scrapedAt;
    if first < last {
      PerSecond(Increase(Values(samples)), (last - first) as real, MAX_RATE);
    }
  }

  lemma PerSecond(increase: real, ms: real, bound: real)
    requires ms > 0.0
    ensures var rate := increase / (ms / 1000.0);
      rate * ms == 1000.0 * increase && (rate <= bound <==> 1000.0 * increase <= bound * ms)
  {
    var seconds := ms / 1000.0;
    var rate := increase / seconds;
    assert rate * seconds == increase;
    assert rate * ms == 1000.0 * increase;
    if rate <= bound {
      Scales(rate, bound, ms);
    } else {
      ScalesStrictly(bound, rate, ms);
    }
  }

  lemma Scales(a: real, b: real, c: real)
    requires a <= b && c > 0.0
    ensures a * c <= b * c
  {
  }

  lemma ScalesStrictly(a: real, b: real, c: real)
    requires a < b && c > 0.0
    ensures a * c < b * c
  {
  }
}
