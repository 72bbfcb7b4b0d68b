/** What the record of a run says: how it opens, where each simulation started from, what was compared with what, what is
    out, and why it went on. */
module SweepRecord {
  import opened Wrappers
  import opened Readings
  import opened FreePass
  import opened Proposals
  import opened Sweep
  import opened SweepSafety

  // ---------- The opening step ----------

  /** With nothing adopted but the minimum, the first pass simulates the authored step past it, or the maximum if that is
      nearer, from the minimum's depths; and that settles the maximum exactly when it is the maximum and met no edge. */
  lemma OpeningStep(inputs: Inputs, adopted: map<int, Scenario>, sim: Simulator)
    requires Ranged(inputs) && Adoptable(inputs, adopted) && adopted.Keys <= {inputs.minQ} && inputs.minQ < inputs.maxQ
    ensures
      var first := if inputs.minQ + inputs.delta < inputs.maxQ then inputs.minQ + inputs.delta else inputs.maxQ;
      var pass := Passes(inputs, sim, Start(inputs, adopted, sim), 1);
      && pass.state.runs == (if inputs.minQ in adopted then [] else [Run(inputs.minQ, None)]) + [Run(first, Some(inputs.minQ))]
      && (pass.Aborted? <==> sim(first).edgeError)
      && (pass.state.maxDone <==> inputs.minQ + inputs.delta >= inputs.maxQ && !sim(first).edgeError)
  {
    hide Compare, Settle;
    var start := Start(inputs, adopted, sim);
    assert start.done.Keys == {inputs.minQ};
    assert |start.done| == |start.done.Keys| == 1;
    assert Passes(inputs, sim, start, 1) == Step(inputs, sim, start);
    var p := NextTrial(inputs, start);
    if !sim(p.q).edgeError {
      SettleFrame(inputs, Simulated(start, p.q, sim(p.q).reading), p);
    }
  }

  /** When the range is one discharge, nothing more is simulated and the first pass ends the sweep. */
  lemma OneDischarge(inputs: Inputs, adopted: map<int, Scenario>, sim: Simulator)
    requires Ranged(inputs) && Adoptable(inputs, adopted) && ProperBands(inputs.bands) && inputs.minQ == inputs.maxQ
    ensures
      var start := Start(inputs, adopted, sim);
      var pass := Passes(inputs, sim, start, 1);
      pass.Completed? && pass.state.runs == start.runs && pass.state.entries == [inputs.minQ]
  {
    hide AdvanceTo, Judge;
    var start := Start(inputs, adopted, sim);
    forall q | q in start.done.Keys ensures q == inputs.minQ {
      assert q == inputs.minQ || q in adopted;
    }
    assert start.done.Keys == {inputs.minQ};
    assert |start.done| == |start.done.Keys| == 1;
    assert Passes(inputs, sim, start, 1) == Step(inputs, sim, start);
    SelfIsNeverHigh(inputs.bands, start.reference.reading);
  }

  lemma SettleFrame(inputs: Inputs, s: State, p: Proposal)
    requires WellFormed(s) && p.q in s.done
    ensures
      var t := Settle(inputs, s, p).state;
      t.done == s.done && t.runs == s.runs && (t.maxDone <==> s.maxDone || p.atMax)
  {
    hide Judge;
  }

  // ---------- Where each simulation starts from ----------

  /** A pass simulates at most once, a discharge not in hand, from the depths of the position it began at; whether or not it
      then aborts. */
  lemma SeededFromPosition(inputs: Inputs, adopted: map<int, Scenario>, sim: Simulator, n: nat)
    requires Ranged(inputs) && Adoptable(inputs, adopted)
    requires Passes(inputs, sim, Start(inputs, adopted, sim), n).Running?
    ensures
      var s := Passes(inputs, sim, Start(inputs, adopted, sim), n).state;
      var t := Passes(inputs, sim, Start(inputs, adopted, sim), n + 1).state;
      t.runs == s.runs || exists q :: q !in s.done && t.runs == s.runs + [Run(q, Some(s.position.q))]
  {
    hide Judge, NextTrial;
    var s := Passes(inputs, sim, Start(inputs, adopted, sim), n).state;
    hide Start, Adoptable;
    var p := NextTrial(inputs, s);
    if p.q in s.done {
      SettleFrame(inputs, s, p);
    } else if !sim(p.q).edgeError {
      SettleFrame(inputs, Simulated(s, p.q, sim(p.q).reading), p);
    }
  }

  // ---------- What is compared ----------

  /** A trial is compared with a library entry, on what this reach answers at the two discharges. */
  ghost predicate Told(inputs: Inputs, sim: Simulator, adopted: map<int, Scenario>, entries: seq<int>, c: Comparison) {
    && c.reference.Some? && c.reference.value in entries
    && c == Compare(inputs.bands, Scenario(c.trial, Response(sim, adopted, c.trial)),
                    Some(Scenario(c.reference.value, Response(sim, adopted, c.reference.value))))
  }

  /** Some comparison after the baseline's is of the maximum. */
  ghost predicate MaximumTold(inputs: Inputs, comparisons: seq<Comparison>) {
    exists i :: 1 <= i < |comparisons| && comparisons[i].trial == inputs.maxQ
  }

  ghost predicate ComparisonsOk(inputs: Inputs, sim: Simulator, adopted: map<int, Scenario>, s: State) {
    && s.comparisons != []
    && s.comparisons[0] == Comparison(None, inputs.minQ, 0.0, 0.0, 0.0, Accept)
    && (forall i :: 1 <= i < |s.comparisons| ==> Told(inputs, sim, adopted, s.entries, s.comparisons[i]))
    && (s.maxDone <==> MaximumTold(inputs, s.comparisons))
  }

  /** Whenever the maximum was compared, it was too high. */
  ghost predicate MaximumTooHigh(inputs: Inputs, comparisons: seq<Comparison>) {
    forall i :: 1 <= i < |comparisons| && comparisons[i].trial == inputs.maxQ ==> comparisons[i].verdict == RejectHigh
  }

  // ---------- What is out ----------

  function RunDischarges(runs: seq<Run>): set<int> {
    set i | 0 <= i < |runs| :: runs[i].q
  }

  /** Published is what was simulated, every library entry but the baseline, and the maximum once it is settled; nothing else. */
  ghost predicate PublishedExactly(inputs: Inputs, s: State) {
    s.entries != [] && forall q :: q in s.published <==>
      q in Otherwise(inputs, s.runs, s.maxDone) || q in s.entries[1..]
  }

  function Otherwise(inputs: Inputs, runs: seq<Run>, maxDone: bool): set<int> {
    RunDischarges(runs) + if maxDone then {inputs.maxQ} else {}
  }

  lemma {:induction false} PublishedWithEntries(other: set<int>, published: seq<int>, entries: seq<int>, accepted: seq<Scenario>)
    requires entries != [] && forall q :: q in published <==> q in other || q in entries[1..]
    ensures
      var now, longer := PublishAll(published, accepted), Extend(entries, accepted);
      longer != [] && forall q :: q in now <==> q in other || q in longer[1..]
    decreases |accepted|
  {
    if accepted != [] {
      EntryPublished(other, published, entries, accepted[0].q);
      PublishedWithEntries(other, Publish(published, accepted[0].q), entries + [accepted[0].q], accepted[1..]);
    }
  }

  lemma EntryPublished(other: set<int>, published: seq<int>, entries: seq<int>, q: int)
    requires entries != [] && forall k :: k in published <==> k in other || k in entries[1..]
    ensures forall k :: k in Publish(published, q) <==> k in other || k in (entries + [q])[1..]
  {
    assert (entries + [q])[1..] == entries[1..] + [q];
  }

  lemma RunDischargesPush(runs: seq<Run>, run: Run)
    ensures RunDischarges(runs + [run]) == RunDischarges(runs) + {run.q}
  {
    var longer := runs + [run];
    assert longer[|runs|] == run;
    forall i | 0 <= i < |runs| ensures longer[i].q in RunDischarges(longer) {}
    forall i | 0 <= i < |runs| ensures runs[i].q in RunDischarges(runs) && runs[i] == longer[i] {}
  }

  // ---------- Every pass keeps the record ----------

  ghost predicate RecordOk(inputs: Inputs, sim: Simulator, adopted: map<int, Scenario>, s: State) {
    ComparisonsOk(inputs, sim, adopted, s) && PublishedExactly(inputs, s)
  }

  lemma StartRecord(inputs: Inputs, sim: Simulator, adopted: map<int, Scenario>)
    requires Ranged(inputs) && Adoptable(inputs, adopted)
    ensures RecordOk(inputs, sim, adopted, Start(inputs, adopted, sim))
    ensures MaximumTooHigh(inputs, Start(inputs, adopted, sim).comparisons)
  {
    var s := Start(inputs, adopted, sim);
    assert s.entries[1..] == [];
    if inputs.minQ !in adopted {
      assert [] + [Run(inputs.minQ, None)] == [Run(inputs.minQ, None)];
      RunDischargesPush([], Run(inputs.minQ, None));
      assert RunDischarges([]) == {};
    }
  }

  lemma SimulatedRecord(inputs: Inputs, sim: Simulator, adopted: map<int, Scenario>, s: State, q: int, reading: Reading)
    requires WellFormed(s) && q !in s.done && RecordOk(inputs, sim, adopted, s)
    ensures RecordOk(inputs, sim, adopted, Simulated(s, q, reading))
  {
    hide Told, MaximumTold, RunDischarges;
    RunDischargesPush(s.runs, Run(q, Some(s.position.q)));
  }

  /** One more comparison, of the trial with the reference. */
  lemma ComparisonPush(inputs: Inputs, sim: Simulator, adopted: map<int, Scenario>, s: State, q: int)
    requires HandOk(inputs, sim, adopted, s) && ComparisonsOk(inputs, sim, adopted, s) && q in s.done
    requires s.reference.q in s.entries
    ensures
      var c := Compare(inputs.bands, s.done[q], Some(s.reference));
      var now := s.comparisons + [c];
      && (forall i :: 1 <= i < |now| ==> Told(inputs, sim, adopted, s.entries, now[i]))
      && (MaximumTold(inputs, now) <==> MaximumTold(inputs, s.comparisons) || q == inputs.maxQ)
      && (MaximumTooHigh(inputs, s.comparisons) && (q == inputs.maxQ ==> c.verdict == RejectHigh) ==> MaximumTooHigh(inputs, now))
  {
    hide Judge, Response;
    var c := Compare(inputs.bands, s.done[q], Some(s.reference));
    var now := s.comparisons + [c];
    assert now[|s.comparisons|] == c;
    assert s.done[q] == Scenario(q, Response(sim, adopted, q));
    assert s.reference == Scenario(s.reference.q, Response(sim, adopted, s.reference.q));
    if MaximumTold(inputs, s.comparisons) {
      var i :| 1 <= i < |s.comparisons| && s.comparisons[i].trial == inputs.maxQ;
      assert now[i].trial == inputs.maxQ;
    }
  }

  lemma {:induction false} ExtendKeeps(entries: seq<int>, accepted: seq<Scenario>)
    ensures entries <= Extend(entries, accepted)
    decreases |accepted|
  {
    if accepted != [] {
      ExtendKeeps(entries + [accepted[0].q], accepted[1..]);
    }
  }

  lemma ToldStill(inputs: Inputs, sim: Simulator, adopted: map<int, Scenario>, entries: seq<int>, longer: seq<int>, c: Comparison)
    requires entries <= longer && Told(inputs, sim, adopted, entries, c)
    ensures Told(inputs, sim, adopted, longer, c)
  {
    hide Compare, Response;
    var k :| 0 <= k < |entries| && entries[k] == c.reference.value;
    assert longer[k] == c.reference.value;
  }

  /** An accepted trial and what the free pass takes with it become entries and are published. */
  lemma AcceptedRecord(inputs: Inputs, sim: Simulator, adopted: map<int, Scenario>, s: State, trial: Scenario)
    requires WellFormed(s) && Filed(s.done, trial) && RecordOk(inputs, sim, adopted, s)
    ensures RecordOk(inputs, sim, adopted, AdvanceTo(inputs, s, trial))
    ensures AdvanceTo(inputs, s, trial).comparisons == s.comparisons
  {
    var t, reuse := AdvanceTo(inputs, s, trial), Advance(inputs.bands, s.done, trial);
    hide Judge, Told, MaximumTold, Advance, Otherwise;
    var other := Otherwise(inputs, s.runs, s.maxDone);
    EntryPublished(other, s.published, s.entries, trial.q);
    PublishedWithEntries(other, Publish(s.published, trial.q), s.entries + [trial.q], reuse.accepted);
    ExtendKeeps(s.entries + [trial.q], reuse.accepted);
    forall i | 1 <= i < |t.comparisons| ensures Told(inputs, sim, adopted, t.entries, t.comparisons[i]) {
      ToldStill(inputs, sim, adopted, s.entries, t.entries, t.comparisons[i]);
    }
  }

  /** Judging a trial keeps the record; and if the sweep goes on, the maximum has only been too high. */
  lemma SettleRecord(inputs: Inputs, sim: Simulator, adopted: map<int, Scenario>, s: State, p: Proposal)
    requires NearlySafe(inputs, sim, adopted, s) && RecordOk(inputs, sim, adopted, s) && p.q in s.done
    requires p.atMax <==> p.q == inputs.maxQ
    ensures RecordOk(inputs, sim, adopted, Settle(inputs, s, p).state)
    ensures Settle(inputs, s, p).Running? && MaximumTooHigh(inputs, s.comparisons) ==>
      MaximumTooHigh(inputs, Settle(inputs, s, p).state.comparisons)
  {
    hide Judge, Told, MaximumTold, MaximumTooHigh, RunsOk, EntriesOk, Stands, PublishedOk, RunDischarges, AdvanceTo, Response;
    ComparisonPush(inputs, sim, adopted, s, p.q);
    var comparison := Compare(inputs.bands, s.done[p.q], Some(s.reference));
    var judged := s.(qTrial := p.q, comparisons := s.comparisons + [comparison]);
    hide HandOk;
    if !p.atMax {
      assert RecordOk(inputs, sim, adopted, judged);
      AcceptedRecord(inputs, sim, adopted, judged, s.done[p.q]);
    }
  }

  /** One pass keeps the record. */
  lemma StepRecord(inputs: Inputs, sim: Simulator, adopted: map<int, Scenario>, s: State)
    requires Ranged(inputs) && Safe(inputs, sim, adopted, s) && RecordOk(inputs, sim, adopted, s)
    ensures
      var pass := Step(inputs, sim, s);
      && (!pass.Aborted? ==> RecordOk(inputs, sim, adopted, pass.state))
      && (pass.Completed? ==> pass.state.maxDone)
      && (pass.Running? && MaximumTooHigh(inputs, s.comparisons) ==> MaximumTooHigh(inputs, pass.state.comparisons))
  {
    hide Judge, NextTrial, RunsOk, LibraryOk, PublishedOk, Told, MaximumTold, MaximumTooHigh, Response, AdvanceTo;
    var p := NextTrial(inputs, s);
    TrialLiesAhead(inputs, sim, adopted, s);
    if p.atMax && s.maxDone {
    } else if p.q in s.done {
      SettleRecord(inputs, sim, adopted, s, p);
    } else if !sim(p.q).edgeError {
      SimulatedIsSafe(inputs, sim, adopted, s, p.q);
      SimulatedRecord(inputs, sim, adopted, s, p.q, sim(p.q).reading);
      SettleRecord(inputs, sim, adopted, Simulated(s, p.q, sim(p.q).reading), p);
    }
  }

  /** Whatever the simulator, after any number of passes not ended by an edge error: the record is right. A sweep that goes
      on has found the maximum too high every time it was compared; one that completed has settled it. */
  lemma {:induction false} EveryRecordIsRight(inputs: Inputs, adopted: map<int, Scenario>, sim: Simulator, n: nat)
    requires Ranged(inputs) && Adoptable(inputs, adopted)
    ensures
      var pass := Passes(inputs, sim, Start(inputs, adopted, sim), n);
      && (!pass.Aborted? ==> RecordOk(inputs, sim, adopted, pass.state))
      && (pass.Running? ==> MaximumTooHigh(inputs, pass.state.comparisons))
      && (pass.Completed? ==> MaximumTold(inputs, pass.state.comparisons))
  {
    hide Step, Safe, Told, MaximumTold, MaximumTooHigh, PublishedExactly;
    var start := Start(inputs, adopted, sim);
    if n == 0 {
      StartRecord(inputs, sim, adopted);
    } else {
      EveryRecordIsRight(inputs, adopted, sim, n - 1);
      SafeWhileRunning(inputs, sim, adopted, n - 1);
      var before := Passes(inputs, sim, start, n - 1);
      if before.Running? {
        StepRecord(inputs, sim, adopted, before.state);
      }
    }
  }

  // ---------- How far an accepted trial takes the reference ----------

  /** When a pass moves the reference, everything in hand above the new position is too far from the new reference; and if
      readings rise nothing above the reference is acceptable. */
  lemma AdvancesFully(inputs: Inputs, adopted: map<int, Scenario>, sim: Simulator, n: nat)
    requires Ranged(inputs) && Adoptable(inputs, adopted)
    requires Passes(inputs, sim, Start(inputs, adopted, sim), n).Running?
    ensures
      var s := Passes(inputs, sim, Start(inputs, adopted, sim), n).state;
      var t := Passes(inputs, sim, Start(inputs, adopted, sim), n + 1).state;
      t.reference != s.reference ==>
        && AllHighAbove(inputs.bands, t.done, t.reference, t.position.q)
        && (Rising(t.done) ==> Acceptable(inputs.bands, t.done, t.reference) == {})
  {
    hide Judge, NextTrial, Rising, Acceptable, AllHighAbove;
    var s := Passes(inputs, sim, Start(inputs, adopted, sim), n).state;
    hide Start, Adoptable;
    var p := NextTrial(inputs, s);
    if p.q in s.done {
      SettleGoesFar(inputs, s, p);
    } else if !sim(p.q).edgeError {
      SettleGoesFar(inputs, Simulated(s, p.q, sim(p.q).reading), p);
    }
  }

  lemma SettleGoesFar(inputs: Inputs, s: State, p: Proposal)
    requires WellFormed(s) && p.q in s.done
    ensures
      var t := Settle(inputs, s, p).state;
      t.reference != s.reference ==>
        && AllHighAbove(inputs.bands, t.done, t.reference, t.position.q)
        && (Rising(t.done) ==> Acceptable(inputs.bands, t.done, t.reference) == {})
  {
    hide Judge, Rising, Acceptable, AllHighAbove, PublishAll, Extend;
    AdvanceGoesFar(inputs.bands, s.done, s.done[p.q]);
    if Rising(s.done) {
      NothingLeftToAccept(inputs.bands, s.done, s.done[p.q]);
    }
    hide Advance;
  }
}
