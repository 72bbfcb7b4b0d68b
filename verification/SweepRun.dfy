/** The sweep's loop, variable by variable, proved against the state machine. */
module SweepRun {
  import opened Wrappers
  import opened Readings
  import opened FreePass
  import opened Proposals
  import opened Sweep
  import opened SweepSafety
  import opened SweepOutcome
  import opened SweepEnds
  import opened SweepRecord

  /** What a completed sweep leaves: a safe record, and a library whose last step reaches the maximum. */
  ghost predicate LibraryIsGood(inputs: Inputs, sim: Simulator, adopted: map<int, Scenario>, s: State) {
    Safe(inputs, sim, adopted, s) && LastStepOk(inputs, s)
  }

  /** The baseline: the adopted scenario at the minimum, or its first simulation, judged against nothing. */
  method Baseline(inputs: Inputs, adopted: map<int, Scenario>, sim: Simulator) returns (s: State)
    requires Keyed(adopted)
    ensures s == Start(inputs, adopted, sim)
  {
    var done, published: seq<int>, runs: seq<Run> := adopted, [], [];
    var ref: Scenario;
    if inputs.minQ in done {
      ref := done[inputs.minQ];
    } else {
      ref := Scenario(inputs.minQ, sim(inputs.minQ).reading);
      runs := runs + [Run(inputs.minQ, None)];
      published := published + [inputs.minQ];
    }
    done := done[inputs.minQ := ref];
    var comparisons := [Compare(inputs.bands, ref, None)];
    s := State(done, ref, ref, inputs.minQ + inputs.delta, false, published, comparisons, runs, [inputs.minQ]);
  }

  /** Re-judge what is in hand; what becomes a reference is published. */
  method TakeFreeAdvances(bands: Bands, ref: Scenario, done: map<int, Scenario>, published: seq<int>)
    returns (reuse: Reuse, now: seq<int>)
    requires Keyed(done)
    ensures reuse == Advance(bands, done, ref) && now == PublishAll(published, reuse.accepted)
  {
    reuse := ReuseFinishedRuns(bands, ref, done);
    now := PublishEach(published, reuse.accepted);
  }

  /** The second half of a pass: judge the trial in hand and move the sweep. */
  method JudgeTrial(inputs: Inputs, before: State, p: Proposal) returns (pass: Pass)
    requires WellFormed(before) && p.q in before.done
    ensures pass == Settle(inputs, before, p)
  {
    hide Judge, Advance, PublishAll;
    var trial, ref, current := before.done[p.q], before.reference, before.position;
    var published, entries, maxDone := before.published, before.entries, before.maxDone;
    var comparison := Compare(inputs.bands, trial, Some(ref));
    var s := before.(qTrial := p.q, comparisons := before.comparisons + [comparison]);
    var verdict := comparison.verdict;
    if p.atMax {
      published := Publish(published, p.q);
      maxDone := true;
      if verdict != RejectHigh {
        return Completed(s.(published := published, maxDone := maxDone));
      }
    } else if p.finest && verdict == RejectHigh {
      verdict := Accept;
    }
    if verdict == Accept {
      published := Publish(published, p.q);
      var reuse, now := TakeFreeAdvances(inputs.bands, trial, before.done, published);
      entries := Extend(entries + [p.q], reuse.accepted);
      published, ref, current := now, reuse.reference, reuse.position;
    } else if verdict == RejectLow {
      current := trial;
    }
    return Running(s.(reference := ref, position := current, published := published, maxDone := maxDone, entries := entries));
  }

  /** The whole sweep, whenever no pass stalls; that is exactly when it ends. What it ends with is the state machine's
      end; on readings that rise with discharge it never stalls and its last step is earned. */
  method RunSweep(inputs: Inputs, adopted: map<int, Scenario>, sim: Simulator) returns (end: Pass, passes: nat)
    requires Ranged(inputs) && Adoptable(inputs, adopted) && NeverStalls(inputs, adopted, sim)
    ensures passes > 0 && end == Passes(inputs, sim, Start(inputs, adopted, sim), passes)
    ensures !end.Running? && Ends(inputs, adopted, sim)
    ensures end.Completed? ==> Safe(inputs, sim, adopted, end.state)
    ensures end.Completed? ==> RecordOk(inputs, sim, adopted, end.state) && MaximumTold(inputs, end.state.comparisons)
    ensures end.Completed? && ProperBands(inputs.bands) && Physical(inputs, sim, adopted) ==>
      LibraryIsGood(inputs, sim, adopted, end.state)
    ensures end.Aborted? ==>
      AbortedOk(inputs, sim, adopted, Passes(inputs, sim, Start(inputs, adopted, sim), passes - 1).state, end.state)
  {
    hide Judge, Safe, Physical, Progress, LastStepOk, AbortedOk, Propose, Settle, Stalled, RecordOk, MaximumTold;
    var s := Baseline(inputs, adopted, sim);
    StartIsSafe(inputs, sim, adopted);
    ghost var start := s;
    EndsIffNeverStalls(inputs, adopted, sim);
    passes := 0;
    while true
      invariant WellFormed(s) && Safe(inputs, sim, adopted, s)
      invariant Passes(inputs, sim, start, passes) == Running(s)
      decreases Unsimulated(inputs, s), !s.maxDone, inputs.maxQ - s.reference.q, inputs.maxQ - s.position.q
    {
      ghost var before, next := s, Step(inputs, sim, s);
      StepKeepsSafe(inputs, sim, adopted, s);
      passes := passes + 1;
      assert Passes(inputs, sim, start, passes) == next;
      if next.Completed? && ProperBands(inputs.bands) && Physical(inputs, sim, adopted) {
        CompletionIsEarned(inputs, sim, adopted, s);
      }

      var p: Proposal;
      if |s.done| == 1 {
        p := Proposal(Smaller(s.qTrial, inputs.maxQ), s.qTrial >= inputs.maxQ, false);
      } else {
        p := Propose(inputs, s.done, s.reference.q, s.position.q);
      }
      EveryRecordIsRight(inputs, adopted, sim, passes);
      if p.atMax && s.maxDone {
        return Completed(s.(qTrial := p.q)), passes;
      }
      if p.q !in s.done {
        var outcome := sim(p.q);
        var run := Run(p.q, Some(s.position.q));
        if outcome.edgeError {
          return Aborted(s.(qTrial := p.q, runs := s.runs + [run])), passes;
        }
        s := s.(done := s.done[p.q := Scenario(p.q, outcome.reading)],
                published := Publish(s.published, p.q),
                runs := s.runs + [run]);
      }
      var pass := JudgeTrial(inputs, s, p);
      assert pass == next;
      if pass.Completed? {
        return pass, passes;
      }
      s := pass.state;
      assert !Stalled(inputs, before);
      ProgressUnlessStalled(inputs, sim, adopted, before);
      ProgressIsBounded(inputs, sim, adopted, before, s);
    }
  }

  /** Progress is measured by quantities that cannot fall for ever. */
  lemma ProgressIsBounded(inputs: Inputs, sim: Simulator, adopted: map<int, Scenario>, s: State, t: State)
    requires Safe(inputs, sim, adopted, s) && Safe(inputs, sim, adopted, t) && Progress(inputs, s, t)
    ensures t.reference.q <= inputs.maxQ && t.position.q <= inputs.maxQ
    ensures
      || Unsimulated(inputs, t) < Unsimulated(inputs, s)
      || (Unsimulated(inputs, t) == Unsimulated(inputs, s)
          && (|| (!s.maxDone && t.maxDone)
              || (s.maxDone == t.maxDone
                  && (|| t.reference.q > s.reference.q
                      || (t.reference.q == s.reference.q && t.position.q > s.position.q)))))
  {}
}
