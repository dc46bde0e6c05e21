/** The FIFO buffer of samples of one pod and metric: src/store/window.rs. */
module Window {
  import opened Samples

  /** What `push` makes of the buffer.  Popping an empty buffer does nothing. */
  function Pushed(samples: seq<LabeledSample>, maxSamples: nat, sample: LabeledSample): seq<LabeledSample> {
    (if |samples| >= maxSamples && samples != [] then samples[1..] else samples) + [sample]
  }

  class MetricWindow {
    var samples: seq<LabeledSample>
    const maxSamples: nat

    constructor (maxSamples: nat)
      ensures samples == [] && this.maxSamples == maxSamples
    {
      samples := [];
      this.maxSamples := maxSamples;
    }

    method Push(sample: LabeledSample)
      modifies this
      ensures samples == Pushed(old(samples), maxSamples, sample)
    {
      if |samples| >= maxSamples {
        if samples != [] {
          samples := samples[1..];
        }
      }
      samples := samples + [sample];
    }
  }

  function Capacity(maxSamples: nat): nat {
    if maxSamples == 0 then 1 else maxSamples
  }

  function LastN<T>(xs: seq<T>, n: nat): seq<T> {
    if |xs| <= n then xs else xs[|xs| - n..]
  }

  /** The buffer after pushing every sample of the history, oldest first. */
  function PushedAll(maxSamples: nat, history: seq<LabeledSample>): seq<LabeledSample> {
    if history == [] then []
    else Pushed(PushedAll(maxSamples, history[..|history| - 1]), maxSamples, history[|history| - 1])
  }

  lemma PushKeepsLast(maxSamples: nat, earlier: seq<LabeledSample>, sample: LabeledSample)
    ensures var c := Capacity(maxSamples);
      Pushed(LastN(earlier, c), maxSamples, sample) == LastN(earlier + [sample], c)
  {
    var n, c := |earlier|, Capacity(maxSamples);
    if n >= c {
      assert LastN(earlier, c) == earlier[n - c..];
      assert earlier[n - c..][1..] == earlier[n - c + 1..];
      assert (earlier + [sample])[n - c + 1..] == earlier[n - c + 1..] + [sample];
    }
  }

  /** A push into a full buffer evicts the sample one capacity back, and only then is any evicted. */
  lemma FullEvicts(maxSamples: nat, earlier: seq<LabeledSample>, sample: LabeledSample)
    ensures var c := Capacity(maxSamples);
      var before := LastN(earlier, c);
      if |earlier| < c then Pushed(before, maxSamples, sample) == before + [sample]
      else Evicts(before, Pushed(before, maxSamples, sample), earlier[|earlier| - c], sample)
  {
  }

  /** The oldest sample makes room for the newest. */
  predicate Evicts(before: seq<LabeledSample>, after: seq<LabeledSample>, oldest: LabeledSample,
                   newest: LabeledSample)
  {
    before != [] && before[0] == oldest && after == before[1..] + [newest]
  }

  /** The buffer is the most recent part of the history, in order, as long as the capacity allows. */
  lemma {:induction false} WindowIsLastSamples(maxSamples: nat, history: seq<LabeledSample>)
    ensures PushedAll(maxSamples, history) == LastN(history, Capacity(maxSamples))
  {
    if history != [] {
      var earlier, last := history[..|history| - 1], history[|history| - 1];
      WindowIsLastSamples(maxSamples, earlier);
      PushKeepsLast(maxSamples, earlier, last);
      assert history == earlier + [last];
    }
  }

  /** Exactly the push of sample j evicts the sample pushed a whole capacity earlier. */
  lemma PushEvictsOneCapacityBack(maxSamples: nat, history: seq<LabeledSample>, j: nat)
    requires j < |history|
    ensures var before, after := PushedAll(maxSamples, history[..j]), PushedAll(maxSamples, history[..j + 1]);
      var c := Capacity(maxSamples);
      if j < c then after == before + [history[j]] else Evicts(before, after, history[j - c], history[j])
  {
    WindowIsLastSamples(maxSamples, history[..j]);
    assert history[..j + 1][..j] == history[..j];
    FullEvicts(maxSamples, history[..j], history[j]);
  }
}
