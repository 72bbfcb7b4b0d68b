/** What every pass of the sweep keeps, whatever the simulator answers. */
module SweepSafety {
  import opened Wrappers
  import opened Readings
  import opened AcceptanceWindow
  import opened FreePass
  import opened Proposals
  import opened Sweep

  // ---------- The parts of the invariant ----------

  /** Every scenario in hand was adopted or simulated, inside the range, the minimum among them. */
  ghost predicate HandOk(inputs: Inputs, sim: Simulator, adopted: map<int, Scenario>, s: State) {
    && WellFormed(s)
    && inputs.minQ in s.done
    && adopted.Keys <= s.done.Keys
    && forall q :: q in s.done ==>
        inputs.minQ <= q <= inputs.maxQ && s.done[q].reading == Response(sim, adopted, q)
  }

  /** Each discharge is simulated at most once, never when adopted, and always published. */
  ghost predicate RunsOk(
      inputs: Inputs, adopted: map<int, Scenario>, done: map<int, Scenario>, runs: seq<Run>, published: seq<int>) {
    && (forall i, j :: 0 <= i < j < |runs| ==> runs[i].q != runs[j].q)
    && (forall i :: 0 <= i < |runs| ==> runs[i].q in done && runs[i].q !in adopted && runs[i].q in published)
    && (forall q :: q in done && q !in adopted ==> exists i :: 0 <= i < |runs| && runs[i].q == q)
    && (forall i :: 0 <= i < |runs| ==> HotStartOk(inputs, adopted, runs, i))
  }

  /** Only the very first run starts cold; every other is seeded by an adopted or an earlier run. */
  ghost predicate HotStartOk(inputs: Inputs, adopted: map<int, Scenario>, runs: seq<Run>, i: nat)
    requires i < |runs|
  {
    match runs[i].hotStart
    case None => i == 0 && runs[i].q == inputs.minQ
    case Some(h) => h in adopted || exists j :: 0 <= j < i && runs[j].q == h
  }

  /** Nothing is published twice, and only what is in hand. */
  ghost predicate PublishedOk(done: map<int, Scenario>, published: seq<int>) {
    && (forall i, j :: 0 <= i < j < |published| ==> published[i] != published[j])
    && (forall i :: 0 <= i < |published| ==> published[i] in done)
  }

  /** A library step was accepted, or it overshoots by the finest step there was: its upper end is the next
      grid value past the lower entry itself, or past a run judged too low against it. */
  ghost predicate EntryStep(inputs: Inputs, done: map<int, Scenario>, lo: int, hi: int) {
    && lo in done && hi in done && lo < hi
    && (|| Judge(inputs.bands, done[hi].reading, done[lo].reading) == Accept
        || (&& Judge(inputs.bands, done[hi].reading, done[lo].reading) == RejectHigh
            && hi - inputs.grid in done
            && (|| hi - inputs.grid == lo
                || (&& lo < hi - inputs.grid
                    && Judge(inputs.bands, done[hi - inputs.grid].reading, done[lo].reading) == RejectLow))))
  }

  ghost predicate EntriesOk(inputs: Inputs, done: map<int, Scenario>, entries: seq<int>) {
    && entries != [] && entries[0] == inputs.minQ
    && forall i :: 0 <= i < |entries| - 1 ==> EntryStep(inputs, done, entries[i], entries[i + 1])
  }

  /** The library so far, ending at the reference. */
  ghost predicate LibraryOk(inputs: Inputs, done: map<int, Scenario>, entries: seq<int>, refQ: int) {
    EntriesOk(inputs, done, entries) && entries[|entries| - 1] == refQ
  }

  ghost predicate Safe(inputs: Inputs, sim: Simulator, adopted: map<int, Scenario>, s: State) {
    && HandOk(inputs, sim, adopted, s)
    && RunsOk(inputs, adopted, s.done, s.runs, s.published)
    && PublishedOk(s.done, s.published)
    && LibraryOk(inputs, s.done, s.entries, s.reference.q)
    && Stands(inputs.bands, s.done, s.reference, s.position)
    && (s.maxDone ==> inputs.maxQ in s.done && inputs.maxQ in s.published)
    && (|s.done| == 1 ==> s.qTrial > inputs.minQ || s.qTrial >= inputs.maxQ)
  }

  // ---------- Publishing ----------

  lemma PublishKeeps(done: map<int, Scenario>, published: seq<int>, q: int)
    requires PublishedOk(done, published) && q in done
    ensures PublishedOk(done, Publish(published, q))
    ensures q in Publish(published, q) && published <= Publish(published, q)
  {
    var now := Publish(published, q);
    if now != published {
      assert now[|published|] == q;
    }
  }

  lemma {:induction false} PublishAllKeeps(done: map<int, Scenario>, published: seq<int>, accepted: seq<Scenario>)
    requires PublishedOk(done, published) && forall i :: 0 <= i < |accepted| ==> Filed(done, accepted[i])
    ensures PublishedOk(done, PublishAll(published, accepted))
    ensures published <= PublishAll(published, accepted)
    decreases |accepted|
  {
    if accepted != [] {
      PublishKeeps(done, published, accepted[0].q);
      PublishAllKeeps(done, Publish(published, accepted[0].q), accepted[1..]);
    }
  }

  // ---------- Library entries ----------

  lemma EntriesGrow(inputs: Inputs, done: map<int, Scenario>, entries: seq<int>, q: int)
    requires EntriesOk(inputs, done, entries)
    requires EntryStep(inputs, done, entries[|entries| - 1], q)
    ensures EntriesOk(inputs, done, entries + [q])
  {}

  lemma {:induction false} AcceptedGrowEntries(
      inputs: Inputs, done: map<int, Scenario>, entries: seq<int>, start: Scenario, accepted: seq<Scenario>)
    requires EntriesOk(inputs, done, entries) && entries[|entries| - 1] == start.q && Filed(done, start)
    requires StepsAccepted(inputs.bands, done, start, accepted)
    ensures
      var now := Extend(entries, accepted);
      && EntriesOk(inputs, done, now)
      && now[|now| - 1] == (if accepted == [] then start.q else accepted[|accepted| - 1].q)
    decreases |accepted|
  {
    hide Judge;
    if accepted != [] {
      EntriesGrow(inputs, done, entries, accepted[0].q);
      AcceptedGrowEntries(inputs, done, entries + [accepted[0].q], accepted[0], accepted[1..]);
    }
  }

  lemma EntriesPersist(inputs: Inputs, done: map<int, Scenario>, q: int, scenario: Scenario, entries: seq<int>)
    requires EntriesOk(inputs, done, entries) && q !in done
    ensures EntriesOk(inputs, done[q := scenario], entries)
  {
    hide Judge;
    var now := done[q := scenario];
    forall i | 0 <= i < |entries| - 1 ensures EntryStep(inputs, now, entries[i], entries[i + 1]) {
      assert EntryStep(inputs, done, entries[i], entries[i + 1]);
    }
  }

  // ---------- Each transition ----------

  lemma StartIsSafe(inputs: Inputs, sim: Simulator, adopted: map<int, Scenario>)
    requires Ranged(inputs) && Adoptable(inputs, adopted)
    ensures Safe(inputs, sim, adopted, Start(inputs, adopted, sim))
  {
    hide Judge;
    var s := Start(inputs, adopted, sim);
    forall q | q in s.done && q !in adopted ensures exists i :: 0 <= i < |s.runs| && s.runs[i].q == q {
      assert q == inputs.minQ && s.runs[0].q == q;
    }
    assert inputs.minQ !in adopted ==> s.published[0] == inputs.minQ;
  }

  /** The hand grows by the new scenario. */
  lemma SimulatedHand(inputs: Inputs, sim: Simulator, adopted: map<int, Scenario>, s: State, q: int)
    requires HandOk(inputs, sim, adopted, s) && q !in s.done && inputs.minQ <= q <= inputs.maxQ
    ensures HandOk(inputs, sim, adopted, Simulated(s, q, sim(q).reading))
    ensures |Simulated(s, q, sim(q).reading).done| >= 2
  {
    var t := Simulated(s, q, sim(q).reading);
    assert t.done.Keys == s.done.Keys + {q};
    assert |t.done.Keys| == |s.done.Keys| + 1;
    assert inputs.minQ in s.done.Keys;
  }

  lemma SimulatedStands(bands: Bands, s: State, q: int, reading: Reading)
    requires WellFormed(s) && q !in s.done && Stands(bands, s.done, s.reference, s.position)
    ensures Stands(bands, Simulated(s, q, reading).done, s.reference, s.position)
  {
    hide Judge;
  }

  lemma SimulatedIsSafe(inputs: Inputs, sim: Simulator, adopted: map<int, Scenario>, s: State, q: int)
    requires Safe(inputs, sim, adopted, s) && q !in s.done && inputs.minQ <= q <= inputs.maxQ
    ensures NearlySafe(inputs, sim, adopted, Simulated(s, q, sim(q).reading))
    ensures |Simulated(s, q, sim(q).reading).done| >= 2
  {
    var t := Simulated(s, q, sim(q).reading);
    SimulatedHand(inputs, sim, adopted, s, q);
    hide Judge, RunsOk, PublishedOk, EntryStep, EntriesOk, HandOk, Stands, HotStartOk;
    PublishKeeps(t.done, s.published, q);
    EntriesPersist(inputs, s.done, q, Scenario(q, sim(q).reading), s.entries);
    SimulatedRuns(inputs, sim, adopted, s, q);
    SimulatedStands(inputs.bands, s, q, sim(q).reading);
    if s.maxDone {
      StillPublished(s.published, t.published, inputs.maxQ);
    }
  }

  lemma HotStartsPersist(inputs: Inputs, adopted: map<int, Scenario>, runs: seq<Run>, run: Run)
    requires forall i :: 0 <= i < |runs| ==> HotStartOk(inputs, adopted, runs, i)
    requires run.hotStart.Some?
    requires run.hotStart.value in adopted || exists j :: 0 <= j < |runs| && runs[j].q == run.hotStart.value
    ensures forall i :: 0 <= i <= |runs| ==> HotStartOk(inputs, adopted, runs + [run], i)
  {
    var now := runs + [run];
    forall i | 0 <= i <= |runs| ensures HotStartOk(inputs, adopted, now, i) {
      var h := now[i].hotStart;
      assert i < |runs| ==> HotStartOk(inputs, adopted, runs, i);
      if h.Some? && h.value !in adopted {
        var j :| 0 <= j < i && runs[j].q == h.value;
        assert now[j].q == h.value;
      }
    }
  }

  lemma StillPublished(published: seq<int>, now: seq<int>, q: int)
    requires published <= now && q in published
    ensures q in now
  {
    var k :| 0 <= k < |published| && published[k] == q;
    assert now[k] == q;
  }

  lemma {:induction false} SimulatedRuns(inputs: Inputs, sim: Simulator, adopted: map<int, Scenario>, s: State, q: int)
    requires HandOk(inputs, sim, adopted, s) && RunsOk(inputs, adopted, s.done, s.runs, s.published) && PublishedOk(s.done, s.published)
    requires q !in s.done
    ensures
      var t := Simulated(s, q, sim(q).reading);
      RunsOk(inputs, adopted, t.done, t.runs, t.published)
  {
    hide HotStartOk, Judge, Response;
    var t := Simulated(s, q, sim(q).reading);
    var n, run := |s.runs|, Run(q, Some(s.position.q));
    assert t.runs == s.runs + [run] && t.runs[n] == run;
    forall i | 0 <= i <= n ensures t.runs[i].q in t.published {
      if i < n {
        StillPublished(s.published, t.published, s.runs[i].q);
      }
    }
    forall d | d in t.done && d !in adopted ensures exists i :: 0 <= i < |t.runs| && t.runs[i].q == d {
      if d != q {
        var i :| 0 <= i < n && s.runs[i].q == d;
        assert t.runs[i].q == d;
      }
    }
    assert s.position.q in s.done;
    HotStartsPersist(inputs, adopted, s.runs, run);
  }

  /** The sweep never looks back: a trial short of the maximum exceeds the reference, for any curves. */
  lemma TrialLiesAhead(inputs: Inputs, sim: Simulator, adopted: map<int, Scenario>, s: State)
    requires Ranged(inputs) && Safe(inputs, sim, adopted, s)
    ensures
      var p := NextTrial(inputs, s);
      && s.reference.q <= s.position.q
      && (if p.atMax then p.q == inputs.maxQ else s.reference.q < p.q < inputs.maxQ)
      && (p.finest ==> p.q == s.position.q + inputs.grid)
  {
    hide Judge, WindowAgainst, Placed;
    if |s.done| == 1 {
      OnlyMember(s.done, inputs.minQ, s.reference.q);
    } else {
      match WindowAgainst(inputs.bands, s.done, s.reference.q)
      case None =>
      case Some(w) =>
        if w.closes.Some? {
          PlacedWhere(inputs.grid, w.opens, w.closes.value, s.reference.q, s.position.q);
        }
    }
  }

  lemma OnlyMember(done: map<int, Scenario>, a: int, b: int)
    requires |done| == 1 && a in done && b in done
    ensures a == b
  {
    assert |done.Keys - {a}| == 0;
    assert done.Keys - {a} == {};
    assert b in done.Keys;
  }

  /** The reference moves to a trial that is a proper library step from it. */
  lemma AdvanceKeeps(inputs: Inputs, sim: Simulator, adopted: map<int, Scenario>, s: State, trial: Scenario)
    requires HandOk(inputs, sim, adopted, s) && PublishedOk(s.done, s.published) && LibraryOk(inputs, s.done, s.entries, s.reference.q)
    requires Filed(s.done, trial) && EntryStep(inputs, s.done, s.reference.q, trial.q)
    ensures
      var t := AdvanceTo(inputs, s, trial);
      && PublishedOk(t.done, t.published) && s.published <= t.published
      && LibraryOk(inputs, t.done, t.entries, t.reference.q)
      && Stands(inputs.bands, t.done, t.reference, t.position)
      && t.reference.q >= trial.q
  {
    hide Judge, Advance;
    var reuse := Advance(inputs.bands, s.done, trial);
    AdvanceIsSafe(inputs.bands, s.done, trial);
    AcceptedAreFiled(inputs.bands, s.done, trial, reuse.accepted);
    PublishKeeps(s.done, s.published, trial.q);
    PublishAllKeeps(s.done, Publish(s.published, trial.q), reuse.accepted);
    EntriesGrow(inputs, s.done, s.entries, trial.q);
    AcceptedGrowEntries(inputs, s.done, s.entries + [trial.q], trial, reuse.accepted);
  }

  /** All of the invariant but the clause about the opening step. */
  ghost predicate NearlySafe(inputs: Inputs, sim: Simulator, adopted: map<int, Scenario>, s: State) {
    && HandOk(inputs, sim, adopted, s)
    && RunsOk(inputs, adopted, s.done, s.runs, s.published)
    && PublishedOk(s.done, s.published)
    && LibraryOk(inputs, s.done, s.entries, s.reference.q)
    && Stands(inputs.bands, s.done, s.reference, s.position)
    && (s.maxDone ==> inputs.maxQ in s.done && inputs.maxQ in s.published)
  }

  /** Recording the trial and its comparison touches nothing the invariant speaks of. */
  lemma JudgedIsNearlySafe(inputs: Inputs, sim: Simulator, adopted: map<int, Scenario>, s: State, q: int, c: Comparison)
    requires NearlySafe(inputs, sim, adopted, s)
    ensures NearlySafe(inputs, sim, adopted, s.(qTrial := q, comparisons := s.comparisons + [c]))
  {
    hide Judge, RunsOk, LibraryOk, PublishedOk;
  }

  lemma AdvanceIsNearlySafe(inputs: Inputs, sim: Simulator, adopted: map<int, Scenario>, s: State, trial: Scenario)
    requires NearlySafe(inputs, sim, adopted, s)
    requires Filed(s.done, trial) && EntryStep(inputs, s.done, s.reference.q, trial.q)
    ensures NearlySafe(inputs, sim, adopted, AdvanceTo(inputs, s, trial))
  {
    hide Judge, AdvanceTo, RunsOk, LibraryOk, PublishedOk;
    var t := AdvanceTo(inputs, s, trial);
    AdvanceKeeps(inputs, sim, adopted, s, trial);
    AdvanceFrame(inputs, s, trial);
    PublishedGrows(inputs, adopted, s, t.published);
  }

  lemma TopIsNearlySafe(inputs: Inputs, sim: Simulator, adopted: map<int, Scenario>, s: State)
    requires NearlySafe(inputs, sim, adopted, s) && inputs.maxQ in s.done
    ensures NearlySafe(inputs, sim, adopted, s.(published := Publish(s.published, inputs.maxQ), maxDone := true))
  {
    hide Judge, RunsOk, LibraryOk, PublishedOk;
    PublishKeeps(s.done, s.published, inputs.maxQ);
    PublishedGrows(inputs, adopted, s, Publish(s.published, inputs.maxQ));
  }

  /** Settling a trial keeps everything. */
  lemma SettleKeeps(inputs: Inputs, sim: Simulator, adopted: map<int, Scenario>, s: State, p: Proposal)
    requires NearlySafe(inputs, sim, adopted, s) && p.q in s.done && inputs.grid > 0
    requires if p.atMax then p.q == inputs.maxQ else s.reference.q < p.q
    requires p.finest ==> p.q == s.position.q + inputs.grid
    ensures Safe(inputs, sim, adopted, Settle(inputs, s, p).state)
    ensures Settle(inputs, s, p).state.done == s.done
  {
    hide Judge, AdvanceTo, RunsOk, PublishedOk, LibraryOk;
    var trial := s.done[p.q];
    var comparison := Compare(inputs.bands, trial, Some(s.reference));
    var judged := s.(qTrial := p.q, comparisons := s.comparisons + [comparison]);
    JudgedIsNearlySafe(inputs, sim, adopted, s, p.q, comparison);
    var verdict := Judge(inputs.bands, trial.reading, s.reference.reading);
    if p.atMax {
      TopIsNearlySafe(inputs, sim, adopted, judged);
    } else if verdict == Accept || (p.finest && verdict == RejectHigh) {
      assert EntryStep(inputs, s.done, s.reference.q, p.q);
      AdvanceIsNearlySafe(inputs, sim, adopted, judged, trial);
      AdvanceFrame(inputs, judged, trial);
    }
    if |s.done| == 1 {
      OnlyMember(s.done, inputs.minQ, p.q);
      OnlyMember(s.done, inputs.minQ, s.reference.q);
    }
  }

  lemma AdvanceFrame(inputs: Inputs, s: State, trial: Scenario)
    requires WellFormed(s) && Filed(s.done, trial)
    ensures
      var t := AdvanceTo(inputs, s, trial);
      t.done == s.done && t.runs == s.runs && t.maxDone == s.maxDone && t.qTrial == s.qTrial
  {}

  /** Publishing more keeps everything known to be published. */
  lemma PublishedGrows(inputs: Inputs, adopted: map<int, Scenario>, s: State, now: seq<int>)
    requires RunsOk(inputs, adopted, s.done, s.runs, s.published) && s.published <= now
    ensures RunsOk(inputs, adopted, s.done, s.runs, now)
    ensures forall q :: q in s.published ==> q in now
  {
    forall q | q in s.published ensures q in now {
      StillPublished(s.published, now, q);
    }
  }

  /** The one simulation that is never published is the edge error that ends the sweep. */
  ghost predicate AbortedOk(inputs: Inputs, sim: Simulator, adopted: map<int, Scenario>, s: State, end: State) {
    && end.runs != []
    && (var last := end.runs[|end.runs| - 1];
        && end.runs == s.runs + [last]
        && last.q !in s.done
        && sim(last.q).edgeError
        && last.hotStart == Some(s.position.q))
    && end.done == s.done && end.published == s.published && end.entries == s.entries
  }

  /** One pass keeps the sweep safe, for every simulator and all bands. */
  lemma StepKeepsSafe(inputs: Inputs, sim: Simulator, adopted: map<int, Scenario>, s: State)
    requires Ranged(inputs) && Safe(inputs, sim, adopted, s)
    ensures
      var pass := Step(inputs, sim, s);
      if pass.Aborted? then AbortedOk(inputs, sim, adopted, s, pass.state)
      else Safe(inputs, sim, adopted, pass.state)
  {
    hide Judge, Settle, NextTrial, RunsOk, LibraryOk, PublishedOk;
    var p := NextTrial(inputs, s);
    TrialLiesAhead(inputs, sim, adopted, s);
    if p.atMax && s.maxDone {
    } else if p.q in s.done {
      SettleKeeps(inputs, sim, adopted, s, p);
    } else if !sim(p.q).edgeError {
      SimulatedIsSafe(inputs, sim, adopted, s, p.q);
      SettleKeeps(inputs, sim, adopted, Simulated(s, p.q, sim(p.q).reading), p);
    }
  }

  /** The sweep ended in an edge error right after `m` passes, and lost nothing else. */
  ghost predicate AbortsAfter(inputs: Inputs, sim: Simulator, adopted: map<int, Scenario>, m: nat, end: State)
    requires Ranged(inputs) && Adoptable(inputs, adopted)
  {
    var pass := Passes(inputs, sim, Start(inputs, adopted, sim), m);
    pass.Running? && Safe(inputs, sim, adopted, pass.state) && AbortedOk(inputs, sim, adopted, pass.state, end)
  }

  /** So is every state the sweep can reach, up to the run that aborts it. */
  lemma {:induction false} EveryRunIsSafe(inputs: Inputs, sim: Simulator, adopted: map<int, Scenario>, n: nat)
    requires Ranged(inputs) && Adoptable(inputs, adopted)
    ensures
      var pass := Passes(inputs, sim, Start(inputs, adopted, sim), n);
      if pass.Aborted? then exists m: nat :: m < n && AbortsAfter(inputs, sim, adopted, m, pass.state)
      else Safe(inputs, sim, adopted, pass.state)
  {
    hide Safe, Step, Judge, AbortedOk;
    var start := Start(inputs, adopted, sim);
    if n == 0 {
      StartIsSafe(inputs, sim, adopted);
    } else {
      EveryRunIsSafe(inputs, sim, adopted, n - 1);
      var before := Passes(inputs, sim, start, n - 1);
      if before.Running? {
        StepKeepsSafe(inputs, sim, adopted, before.state);
        if Passes(inputs, sim, start, n).Aborted? {
          assert AbortsAfter(inputs, sim, adopted, n - 1, Passes(inputs, sim, start, n).state);
        }
      }
    }
  }

  lemma SafeWhileRunning(inputs: Inputs, sim: Simulator, adopted: map<int, Scenario>, n: nat)
    requires Ranged(inputs) && Adoptable(inputs, adopted)
    ensures
      var pass := Passes(inputs, sim, Start(inputs, adopted, sim), n);
      pass.Running? ==> Safe(inputs, sim, adopted, pass.state)
  {
    hide Safe, Passes, AbortsAfter;
    EveryRunIsSafe(inputs, sim, adopted, n);
  }
}
