/** Why the sweep ends, and what the library it leaves is worth. */
module SweepOutcome {
  import opened Wrappers
  import opened Readings
  import opened AcceptanceWindow
  import opened SteadyReadings
  import opened Proposals
  import opened Sweep
  import opened SweepSafety

  // ---------- Progress ----------

  /** The discharges of the range not simulated yet. */
  function Unsimulated(inputs: Inputs, s: State): set<int> {
    set q | inputs.minQ <= q <= inputs.maxQ && Missing(s.done, q)
  }

  predicate Missing(done: map<int, Scenario>, q: int) {
    q !in done
  }

  /** A pass makes progress when it simulates, settles the maximum, or raises the reference, or the position
      under the same reference. */
  predicate Progress(inputs: Inputs, s: State, t: State) {
    || Unsimulated(inputs, t) < Unsimulated(inputs, s)
    || (Unsimulated(inputs, t) == Unsimulated(inputs, s)
        && (|| (!s.maxDone && t.maxDone)
            || (s.maxDone == t.maxDone
                && (|| t.reference.q > s.reference.q
                    || (t.reference == s.reference && t.position.q > s.position.q)))))
  }

  function TrialVerdict(inputs: Inputs, s: State): Verdict
    requires inputs.grid > 0 && WellFormed(s) && NextTrial(inputs, s).q in s.done
  {
    Judge(inputs.bands, s.done[NextTrial(inputs, s).q].reading, s.reference.reading)
  }

  /** The trial is already in hand and its measured verdict moves nothing forward. */
  predicate Stalled(inputs: Inputs, s: State)
    requires inputs.grid > 0 && WellFormed(s)
  {
    var p := NextTrial(inputs, s);
    && !p.atMax
    && p.q in s.done
    && (|| (TrialVerdict(inputs, s) == RejectHigh && !p.finest)
        || (TrialVerdict(inputs, s) == RejectLow && p.q <= s.position.q))
  }

  lemma SimulatingShrinks(inputs: Inputs, s: State, t: State, q: int)
    requires q !in s.done && inputs.minQ <= q <= inputs.maxQ && t.done.Keys == s.done.Keys + {q}
    ensures Unsimulated(inputs, t) < Unsimulated(inputs, s)
  {
    assert Missing(s.done, q) && !Missing(t.done, q);
    assert forall k :: Missing(t.done, k) ==> Missing(s.done, k);
    assert q in Unsimulated(inputs, s) && q !in Unsimulated(inputs, t);
  }

  /** Whatever the simulator and the bands: a pass that goes on makes progress exactly when it is not stalled. */
  lemma ProgressUnlessStalled(inputs: Inputs, sim: Simulator, adopted: map<int, Scenario>, s: State)
    requires Ranged(inputs) && Safe(inputs, sim, adopted, s) && Step(inputs, sim, s).Running?
    ensures Progress(inputs, s, Step(inputs, sim, s).state) <==> !Stalled(inputs, s)
  {
    hide Judge, AdvanceTo, NextTrial, RunsOk, PublishedOk, LibraryOk;
    var p := NextTrial(inputs, s);
    var t := Step(inputs, sim, s).state;
    TrialLiesAhead(inputs, sim, adopted, s);
    if p.q in s.done {
      SettleMoves(inputs, sim, adopted, s, p);
    } else {
      SimulatedIsSafe(inputs, sim, adopted, s, p.q);
      SettleKeeps(inputs, sim, adopted, Simulated(s, p.q, sim(p.q).reading), p);
      SimulatingShrinks(inputs, s, t, p.q);
    }
  }

  /** Where a trial short of the maximum takes the sweep, verdict by verdict. */
  lemma SettleMoves(inputs: Inputs, sim: Simulator, adopted: map<int, Scenario>, s: State, p: Proposal)
    requires NearlySafe(inputs, sim, adopted, s) && p.q in s.done && inputs.grid > 0
    requires if p.atMax then p.q == inputs.maxQ else s.reference.q < p.q
    requires p.finest ==> p.q == s.position.q + inputs.grid
    ensures
      var t := Settle(inputs, s, p).state;
      var verdict := Judge(inputs.bands, s.done[p.q].reading, s.reference.reading);
      && t.done == s.done
      && (if p.atMax then t.maxDone
          else
            && t.maxDone == s.maxDone
            && (if verdict == Accept || (p.finest && verdict == RejectHigh) then t.reference.q > s.reference.q
                else t.reference == s.reference && t.position == if verdict == RejectLow then s.done[p.q] else s.position))
  {
    hide Judge, AdvanceTo;
    var trial := s.done[p.q];
    var comparison := Compare(inputs.bands, trial, Some(s.reference));
    var judged := s.(qTrial := p.q, comparisons := s.comparisons + [comparison]);
    JudgedIsNearlySafe(inputs, sim, adopted, s, p.q, comparison);
    AdvanceFrame(inputs, judged, trial);
    if !p.atMax && (comparison.verdict == Accept || (p.finest && comparison.verdict == RejectHigh)) {
      assert EntryStep(inputs, s.done, s.reference.q, p.q);
      AdvanceKeeps(inputs, sim, adopted, judged, trial);
    }
  }

  // ---------- Termination ----------

  /** What goes one way over the range goes that way over the scenarios in hand. */
  lemma HandIsPhysical(inputs: Inputs, sim: Simulator, adopted: map<int, Scenario>, s: State)
    requires HandOk(inputs, sim, adopted, s) && Physical(inputs, sim, adopted)
    ensures Steady(s.done) && Wet(s.done)
  {
    forall c ensures RisesIn(s.done, c) || FallsIn(s.done, c) {
      hide Value;
      if RisesOver(inputs, sim, adopted, c) {
        assert RisesIn(s.done, c);
      } else {
        assert FallsIn(s.done, c);
      }
    }
  }

  /** A trial already in hand gets the verdict the curves promised, so it always moves the sweep. */
  lemma PhysicalNeverStalls(inputs: Inputs, sim: Simulator, adopted: map<int, Scenario>, s: State)
    requires Ranged(inputs) && ProperBands(inputs.bands) && Physical(inputs, sim, adopted)
    requires Safe(inputs, sim, adopted, s)
    ensures !Stalled(inputs, s)
  {
    hide Judge, PromisedVerdict, Propose;
    var p := NextTrial(inputs, s);
    TrialLiesAhead(inputs, sim, adopted, s);
    if |s.done| == 1 {
      if p.q in s.done {
        OnlyMember(s.done, s.reference.q, p.q);
      }
    } else {
      HandIsPhysical(inputs, sim, adopted, s);
      assert |s.done| >= 2 by { AtLeastTwo(s.done, s.reference.q); }
      ProposalMeaning(inputs, s.done, s.reference.q, s.position.q);
      if p.q in s.done {
        SteadyPromiseIsKept(inputs.bands, s.done, s.reference.q, p.q);
      }
    }
  }

  lemma AtLeastTwo(done: map<int, Scenario>, q: int)
    requires q in done && |done| != 1
    ensures |done| >= 2
  {
    assert q in done.Keys;
  }

  /** Every pass that goes on makes progress, so no run goes on for ever. */
  lemma EveryPassProgresses(inputs: Inputs, sim: Simulator, adopted: map<int, Scenario>, s: State)
    requires Ranged(inputs) && ProperBands(inputs.bands) && Physical(inputs, sim, adopted)
    requires Safe(inputs, sim, adopted, s) && Step(inputs, sim, s).Running?
    ensures Progress(inputs, s, Step(inputs, sim, s).state)
  {
    hide Step, Stalled, Progress, Safe, Judge;
    PhysicalNeverStalls(inputs, sim, adopted, s);
    ProgressUnlessStalled(inputs, sim, adopted, s);
  }

  // ---------- The library a finished sweep leaves ----------

  /** The last step, from the final reference to the maximum: under every ceiling, or nothing finer was left. */
  ghost predicate LastStepOk(inputs: Inputs, s: State) {
    && Filed(s.done, s.reference)
    && inputs.maxQ in s.done && inputs.maxQ in s.published
    && (|| Judge(inputs.bands, s.done[inputs.maxQ].reading, s.reference.reading) != RejectHigh
        || s.position.q + inputs.grid >= inputs.maxQ)
  }

  /** When the sweep completes, its last step is as good as the grid allows. */
  lemma CompletionIsEarned(inputs: Inputs, sim: Simulator, adopted: map<int, Scenario>, s: State)
    requires Ranged(inputs) && ProperBands(inputs.bands) && Physical(inputs, sim, adopted)
    requires Safe(inputs, sim, adopted, s) && Step(inputs, sim, s).Completed?
    ensures LastStepOk(inputs, Step(inputs, sim, s).state)
  {
    hide Judge, PromisedVerdict, Propose, AdvanceTo, RunsOk, PublishedOk, LibraryOk;
    var p := NextTrial(inputs, s);
    var end := Step(inputs, sim, s).state;
    TrialLiesAhead(inputs, sim, adopted, s);
    StepKeepsSafe(inputs, sim, adopted, s);
    if p.atMax && s.maxDone {
      HandIsPhysical(inputs, sim, adopted, s);
      if |s.done| == 1 {
        OnlyMember(s.done, s.reference.q, p.q);
        SelfIsNeverHigh(inputs.bands, s.reference.reading);
      } else {
        AtLeastTwo(s.done, s.reference.q);
        ProposalMeaning(inputs, s.done, s.reference.q, s.position.q);
        SteadyPromiseIsKept(inputs.bands, s.done, s.reference.q, p.q);
      }
    }
  }
}
