/** Scrape counters shared by the workers and the scheduler: src/store/types.rs, src/scraper/scheduler.rs. */
module Stats {
  import opened Wrappers

  type Int32 = n: int | -0x8000_0000 <= n < 0x8000_0000

  /** Two's complement addition, as `fetch_add` on an AtomicI32. */
  function WrappingAdd(a: Int32, b: Int32): (r: Int32)
    ensures (r - (a + b)) % 0x1_0000_0000 == 0
  {
    var s := a + b;
    if s >= 0x8000_0000 then s - 0x1_0000_0000
    else if s < -0x8000_0000 then s + 0x1_0000_0000
    else s
  }

  /** Where the scheduler stands in reporting a snapshot. */
  datatype Phase =
    | Idle
    | TookScraped(scraped: Int32)
    | Patching(scraped: Int32, errors: Int32)
    | RestoredScraped(errors: Int32)

  /** The counters, the scheduler, and the whole history: what was recorded and what was reported by
      successful status patches. */
  datatype State = State(scraped: Int32, errors: Int32, phase: Phase,
                         successes: nat, failures: nat, reportedScraped: int, reportedErrors: int)

  const START := State(0, 0, Idle, 0, 0, 0, 0)

  /** Every atomic access is a step of its own, so every interleaving of the workers and the scheduler is a
      sequence of these. */
  datatype Step =
    | RecordSuccess | RecordError               // any worker
    | SwapScraped | SwapErrors                  // snapshot_and_reset
    | PatchSucceeds | PatchFails | NothingToPatch
    | RestoreErrors                             // the second half of restore

  /** When the scheduler can take the step; a worker can record at any time. */
  predicate Enabled(phase: Phase, step: Step) {
    match step
    case RecordSuccess => true
    case RecordError => true
    case SwapScraped => phase.Idle?
    case SwapErrors => phase.TookScraped?
    case NothingToPatch => phase.Patching? && !(phase.scraped > 0 || phase.errors > 0)
    case PatchSucceeds => phase.Patching? && (phase.scraped > 0 || phase.errors > 0)
    case PatchFails => phase.Patching? && (phase.scraped > 0 || phase.errors > 0)
    case RestoreErrors => phase.RestoredScraped?
  }

  function After(s: State, step: Step): State
    requires Enabled(s.phase, step)
  {
    match step
    case RecordSuccess =>
      s.(scraped := WrappingAdd(s.scraped, 1), successes := s.successes + 1)
    case RecordError =>
      s.(errors := WrappingAdd(s.errors, 1), failures := s.failures + 1)
    case SwapScraped =>
      s.(scraped := 0, phase := TookScraped(s.scraped))
    case SwapErrors =>
      s.(errors := 0, phase := Patching(s.phase.scraped, s.errors))
    case NothingToPatch =>
      s.(phase := Idle)
    case PatchSucceeds =>
      s.(phase := Idle, reportedScraped := s.reportedScraped + s.phase.scraped,
         reportedErrors := s.reportedErrors + s.phase.errors)
    case PatchFails =>  // and restore's first fetch_add
      s.(scraped := WrappingAdd(s.scraped, s.phase.scraped), phase := RestoredScraped(s.phase.errors))
    case RestoreErrors =>
      s.(errors := WrappingAdd(s.errors, s.phase.errors), phase := Idle)
  }

  ghost predicate Next(s: State, step: Step, s': State) {
    Enabled(s.phase, step) && s' == After(s, step)
  }

  /** What an in-flight snapshot holds. */
  function HeldScraped(phase: Phase): Int32 {
    if phase.TookScraped? || phase.Patching? then phase.scraped else 0
  }

  function HeldErrors(phase: Phase): Int32 {
    if phase.Patching? || phase.RestoredScraped? then phase.errors else 0
  }

  /** Nothing is lost or counted twice, and no counter is negative. */
  predicate Conserved(s: State) {
    && s.successes == s.scraped + HeldScraped(s.phase) + s.reportedScraped
    && s.failures == s.errors + HeldErrors(s.phase) + s.reportedErrors
    && s.scraped >= 0 && s.errors >= 0 && HeldScraped(s.phase) >= 0 && HeldErrors(s.phase) >= 0
  }

  const MAX: Int32 := 0x7FFF_FFFF

  /** The step adds past the largest 32-bit count. */
  predicate Overflows(s: State, step: Step) {
    match step
    case RecordSuccess => s.scraped == MAX
    case RecordError => s.errors == MAX
    case PatchFails => s.phase.Patching? && s.scraped + s.phase.scraped > MAX
    case RestoreErrors => s.phase.RestoredScraped? && s.errors + s.phase.errors > MAX
    case _ => false
  }

  datatype Run = Run(states: seq<State>, steps: seq<Step>)

  ghost predicate StepAt(run: Run, i: nat)
    requires i < |run.steps| && |run.states| == |run.steps| + 1
  {
    Next(run.states[i], run.steps[i], run.states[i + 1])
  }

  ghost predicate ValidRun(run: Run) {
    && |run.states| == |run.steps| + 1 && run.states[0] == START
    && forall i: nat | i < |run.steps| :: StepAt(run, i)
  }

  lemma StepConservesIff(s: State, step: Step, s': State)
    requires Conserved(s) && Next(s, step, s')
    ensures Conserved(s') <==> !Overflows(s, step)
  {
  }

  /** Every state up to the n-th is conserved. */
  predicate ConservedUpTo(run: Run, n: nat)
    requires n < |run.states|
  {
    Conserved(run.states[n]) && (n > 0 ==> ConservedUpTo(run, n - 1))
  }

  /** None of the first n steps overflows. */
  predicate NoOverflowBefore(run: Run, n: nat)
    requires n <= |run.steps| && n < |run.states|
  {
    n > 0 ==> !Overflows(run.states[n - 1], run.steps[n - 1]) && NoOverflowBefore(run, n - 1)
  }

  /** In every interleaving, recorded = counter + in-flight snapshot + reported, for successes and for errors,
      up to a state exactly when no addition before it ran past the 32-bit range. */
  lemma {:induction false} OutcomesConservedIff(run: Run, n: nat)
    requires ValidRun(run) && n < |run.states|
    ensures ConservedUpTo(run, n) <==> NoOverflowBefore(run, n)
  {
    if n > 0 {
      OutcomesConservedIff(run, n - 1);
      if Conserved(run.states[n - 1]) {
        ConservedStep(run, n - 1);
      }
    }
  }

  lemma ConservedStep(run: Run, n: nat)
    requires ValidRun(run) && n < |run.steps| && Conserved(run.states[n])
    ensures Conserved(run.states[n + 1]) <==> !Overflows(run.states[n], run.steps[n])
  {
    assert StepAt(run, n);
    StepConservesIff(run.states[n], run.steps[n], run.states[n + 1]);
  }

  /** That takes 2^31 outcomes of one kind awaiting their report. */
  lemma FewOutstandingNeverOverflow(s: State, step: Step, s': State)
    requires Conserved(s) && Next(s, step, s')
    requires s.successes - s.reportedScraped < MAX && s.failures - s.reportedErrors < MAX
    ensures Conserved(s')
  {
    StepConservesIff(s, step, s');
  }

  /** And it can happen: with no snapshot taken, the 2^31st success makes the counter negative. */
  lemma LongRunLosesCount() returns (run: Run)
    ensures ValidRun(run) && |run.steps| == MAX + 1
    ensures Conserved(run.states[MAX]) && !Conserved(run.states[MAX + 1])
  {
    run := Run(seq(MAX + 2, i requires 0 <= i < MAX + 2 => AfterSuccesses(i)), seq(MAX + 1, i => RecordSuccess));
  }

  function AfterSuccesses(n: nat): State
    requires n <= MAX + 1
  {
    START.(scraped := if n <= MAX then n else -0x8000_0000, successes := n)
  }
  // ---- the counters and their accesses ----

  function Last(run: Run): State
    requires run.states != []
  {
    run.states[|run.states| - 1]
  }

  function Extended(run: Run, step: Step): Run
    requires run.states != [] && Enabled(Last(run).phase, step)
  {
    Run(run.states + [After(Last(run), step)], run.steps + [step])
  }

  lemma ExtendedIsValid(run: Run, step: Step)
    requires ValidRun(run) && Enabled(Last(run).phase, step)
    ensures ValidRun(Extended(run, step))
  {
    var more := Extended(run, step);
    forall i: nat | i < |more.steps| ensures StepAt(more, i) {
      if i < |run.steps| {
        assert StepAt(run, i);
      }
    }
  }

  ghost predicate Continues(run: Run, more: Run) {
    run.steps <= more.steps && run.states <= more.states
  }

  /** No addition of the run went past the 32-bit range. */
  predicate WithinRange(run: Run)
    requires |run.states| == |run.steps| + 1
  {
    NoOverflowBefore(run, |run.steps|)
  }

  lemma {:induction false} ConservedBefore(run: Run, m: nat, n: nat)
    requires m <= n < |run.states| && ConservedUpTo(run, n)
    ensures Conserved(run.states[m])
  {
    if m < n {
      ConservedBefore(run, m, n - 1);
    }
  }

  lemma ConservedThroughout(run: Run, m: nat)
    requires ValidRun(run) && WithinRange(run) && m < |run.states|
    ensures Conserved(run.states[m])
  {
    OutcomesConservedIff(run, |run.steps|);
    ConservedBefore(run, m, |run.steps|);
  }

  lemma ConservedAlong(run: Run, more: Run)
    requires ValidRun(run) && ValidRun(more) && Continues(run, more) && WithinRange(more)
    ensures Conserved(Last(run)) && Conserved(Last(more))
  {
    ConservedThroughout(more, |more.steps|);
    ConservedThroughout(more, |run.steps|);
    assert Last(run) == more.states[|run.steps|];
  }

  /** What the workers record after these scrapes. */
  function Recordings(outcomes: seq<bool>): seq<Step> {
    seq(|outcomes|, i requires 0 <= i < |outcomes| =>
      if outcomes[i] then Step.RecordSuccess else Step.RecordError)
  }

  function Occurrences(outcomes: seq<bool>, succeeded: bool): nat {
    if outcomes == [] then 0
    else Occurrences(outcomes[..|outcomes| - 1], succeeded)
         + (if outcomes[|outcomes| - 1] == succeeded then 1 else 0)
  }

  /** One object shared by all workers and the scheduler.  Every atomic access is one step of `run`; the
      scheduler's methods take what the workers record between their accesses as parameters. */
  class ScrapeStats {
    var scraped: Int32
    var errors: Int32
    ghost var run: Run

    ghost predicate Valid()
      reads this
    {
      ValidRun(run) && Last(run).scraped == scraped && Last(run).errors == errors
    }

    constructor ()
      ensures Valid() && run == Run([START], [])
    {
      scraped, errors, run := 0, 0, Run([START], []);
    }

    method RecordSuccess()
      requires Valid()
      modifies this
      ensures Valid() && run == Extended(old(run), Step.RecordSuccess)
    {
      scraped := WrappingAdd(scraped, 1);
      Take(Step.RecordSuccess);
    }

    method RecordError()
      requires Valid()
      modifies this
      ensures Valid() && run == Extended(old(run), Step.RecordError)
    {
      errors := WrappingAdd(errors, 1);
      Take(Step.RecordError);
    }

    /** The step that has just been carried out on the counters goes on record. */
    ghost method Take(step: Step)
      requires ValidRun(run) && Enabled(Last(run).phase, step)
      requires After(Last(run), step).scraped == scraped && After(Last(run), step).errors == errors
      modifies this`run
      ensures Valid() && run == Extended(old(run), step)
    {
      ExtendedIsValid(run, step);
      run := Extended(run, step);
    }

    /** What the workers record between two accesses of the scheduler. */
    method RecordAll(outcomes: seq<bool>)
      requires Valid()
      modifies this
      ensures Valid() && Continues(old(run), run) && run.steps == old(run.steps) + Recordings(outcomes)
      ensures var before, after := old(Last(run)), Last(run);
        && after.phase == before.phase
        && after.reportedScraped == before.reportedScraped && after.reportedErrors == before.reportedErrors
        && after.successes == before.successes + Occurrences(outcomes, true)
        && after.failures == before.failures + Occurrences(outcomes, false)
    {
      for i := 0 to |outcomes|
        invariant Valid() && Continues(old(run), run)
        invariant run.steps == old(run.steps) + Recordings(outcomes[..i])
        invariant Last(run) == old(Last(run)).(scraped := scraped, errors := errors,
          successes := old(Last(run)).successes + Occurrences(outcomes[..i], true),
          failures := old(Last(run)).failures + Occurrences(outcomes[..i], false))
      {
        assert outcomes[..i + 1][..i] == outcomes[..i];
        assert Recordings(outcomes[..i + 1]) ==
          Recordings(outcomes[..i]) + [if outcomes[i] then Step.RecordSuccess else Step.RecordError];
        if outcomes[i] {
          RecordSuccess();
        } else {
          RecordError();
        }
      }
      assert outcomes[..|outcomes|] == outcomes;
    }

    /** Two separate atomic swaps.  The first value is every success recorded before the call and not reported
        yet, the second every such error recorded before the second swap. */
    method SnapshotAndReset(between: seq<bool>) returns (s: Int32, e: Int32)
      requires Valid() && Last(run).phase.Idle?
      modifies this
      ensures Valid() && Continues(old(run), run) && Last(run).phase == Patching(s, e)
      ensures run.steps == old(run.steps) + [SwapScraped] + Recordings(between) + [SwapErrors]
      ensures var before, after := old(Last(run)), Last(run);
        && after.reportedScraped == before.reportedScraped && after.reportedErrors == before.reportedErrors
        && after.successes == before.successes + Occurrences(between, true)
        && after.failures == before.failures + Occurrences(between, false)
      ensures s == old(scraped) && errors == 0
      ensures WithinRange(run) ==>
        && s == old(Last(run)).successes - Last(run).reportedScraped
        && e == Last(run).failures - Last(run).reportedErrors
        && scraped == Occurrences(between, true)
    {
      s, scraped := scraped, 0;
      Take(SwapScraped);
      RecordAll(between);
      e, errors := errors, 0;
      Take(SwapErrors);
      if WithinRange(run) {
        ConservedAlong(old(run), run);
      }
    }

    /** After a failed patch, two separate atomic additions: as if the snapshot had never been taken. */
    method Restore(s: Int32, e: Int32, between: seq<bool>)
      requires Valid() && Last(run).phase == Patching(s, e) && (s > 0 || e > 0)
      modifies this
      ensures Valid() && Continues(old(run), run) && Last(run).phase.Idle?
      ensures run.steps == old(run.steps) + [PatchFails] + Recordings(between) + [RestoreErrors]
      ensures var before, after := old(Last(run)), Last(run);
        && after.reportedScraped == before.reportedScraped && after.reportedErrors == before.reportedErrors
        && after.successes == before.successes + Occurrences(between, true)
        && after.failures == before.failures + Occurrences(between, false)
      ensures WithinRange(run) ==>
        && scraped == Last(run).successes - Last(run).reportedScraped
        && errors == Last(run).failures - Last(run).reportedErrors
    {
      scraped := WrappingAdd(scraped, s);
      Take(PatchFails);
      RecordAll(between);
      errors := WrappingAdd(errors, e);
      Take(RestoreErrors);
      if WithinRange(run) {
        ConservedAlong(old(run), run);
      }
    }

    /** Reports a snapshot that is not all zero, and restores it when the patch fails. */
    method Settle(s: Int32, e: Int32, patched: bool, duringPatch: seq<bool>, betweenAdditions: seq<bool>)
      requires Valid() && Last(run).phase == Patching(s, e)
      modifies this
      ensures Valid() && Continues(old(run), run) && Last(run).phase.Idle?
      ensures var reports, before, after := patched && (s > 0 || e > 0), old(Last(run)), Last(run);
        && after.reportedScraped == before.reportedScraped + (if reports then s else 0)
        && after.reportedErrors == before.reportedErrors + (if reports then e else 0)
    {
      if s > 0 || e > 0 {
        RecordAll(duringPatch);
        if patched {
          Take(PatchSucceeds);
        } else {
          Restore(s, e, betweenAdditions);
        }
      } else {
        Take(NothingToPatch);
      }
    }

    /** The scheduler's report at the start of a round.  Whether the patch succeeds or not, the counters hold
        exactly what has been recorded and not been reported; a success reports every success recorded before
        the round, and every error recorded before the second swap. */
    method Report(patched: bool, betweenSwaps: seq<bool>, duringPatch: seq<bool>, betweenAdditions: seq<bool>)
      requires Valid() && Last(run).phase.Idle?
      modifies this
      ensures Valid() && Continues(old(run), run) && Last(run).phase.Idle?
      ensures WithinRange(run) ==>
        && scraped == Last(run).successes - Last(run).reportedScraped
        && errors == Last(run).failures - Last(run).reportedErrors
        && Last(run).reportedScraped ==
             (if patched then old(Last(run)).successes else old(Last(run)).reportedScraped)
        && Last(run).reportedErrors ==
             (if patched then old(Last(run)).failures + Occurrences(betweenSwaps, false)
              else old(Last(run)).reportedErrors)
    {
      var s, e := SnapshotAndReset(betweenSwaps);
      ghost var taken := run;
      Settle(s, e, patched, duringPatch, betweenAdditions);
      if WithinRange(run) {
        ConservedAlong(old(run), run);
        ConservedAlong(taken, run);
      }
    }
  }
}
