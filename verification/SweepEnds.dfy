/** Exactly when a sweep ends, for every simulator and all bands. */
module SweepEnds {
  import opened Readings
  import opened AcceptanceWindow
  import opened FreePass
  import opened Proposals
  import opened Sweep
  import opened SweepSafety
  import opened SweepOutcome

  // ---------- A stalled sweep is stuck ----------

  /** A placement under the position came from inside the window, so a lower position asks for it again. */
  lemma SameTrialFromBelow(inputs: Inputs, done: map<int, Scenario>, refQ: int, positionQ: int)
    requires inputs.grid > 0 && refQ in done
    requires
      var p := Propose(inputs, done, refQ, positionQ);
      !p.atMax && p.q <= positionQ
    ensures
      var p := Propose(inputs, done, refQ, positionQ);
      Propose(inputs, done, refQ, p.q) == p.(finest := false)
  {
    hide WindowAgainst, GridCeiling, GridFloor, Round;
  }

  /** A pass that moves nothing forward is followed by another one, at the same trial. */
  lemma StalledStaysStalled(inputs: Inputs, sim: Simulator, adopted: map<int, Scenario>, s: State)
    requires Ranged(inputs) && Safe(inputs, sim, adopted, s) && Stalled(inputs, s)
    ensures
      var pass := Step(inputs, sim, s);
      && pass.Running? && Safe(inputs, sim, adopted, pass.state) && Stalled(inputs, pass.state)
      && pass.state.done == s.done && pass.state.runs == s.runs && pass.state.reference == s.reference
      && pass.state.published == s.published && pass.state.entries == s.entries
      && NextTrial(inputs, pass.state).q == NextTrial(inputs, s).q
  {
    hide Judge, Propose, AdvanceTo, RunsOk, LibraryOk, PublishedOk, Stands;
    var p, t := NextTrial(inputs, s), Step(inputs, sim, s).state;
    TrialLiesAhead(inputs, sim, adopted, s);
    StepKeepsSafe(inputs, sim, adopted, s);
    if |s.done| == 1 {
      OnlyMember(s.done, s.reference.q, p.q);
    } else if TrialVerdict(inputs, s) == RejectLow {
      SameTrialFromBelow(inputs, s.done, s.reference.q, s.position.q);
    }
  }

  lemma {:induction false} StalledForEver(inputs: Inputs, sim: Simulator, adopted: map<int, Scenario>, m: nat, n: nat)
    requires Ranged(inputs) && Adoptable(inputs, adopted) && m <= n
    requires
      var pass := Passes(inputs, sim, Start(inputs, adopted, sim), m);
      pass.Running? && Stalled(inputs, pass.state)
    ensures
      var start := Start(inputs, adopted, sim);
      var pass := Passes(inputs, sim, start, n);
      && pass.Running? && Stalled(inputs, pass.state)
      && pass.state.runs == Passes(inputs, sim, start, m).state.runs
    decreases n - m
  {
    var start := Start(inputs, adopted, sim);
    var before := Passes(inputs, sim, start, m).state;
    hide Step, Stalled, Safe, Start, Adoptable, WellFormed;
    if m < n {
      SafeWhileRunning(inputs, sim, adopted, m);
      StalledStaysStalled(inputs, sim, adopted, before);
      assert Passes(inputs, sim, start, m + 1) == Step(inputs, sim, before);
      StalledForEver(inputs, sim, adopted, m + 1, n);
    }
  }

  // ---------- Progress cannot go on for ever ----------

  /** Two digits read as one number, the first worth `base` of the second. */
  function Digits(high: nat, base: nat, low: nat): nat {
    high * base + low
  }

  lemma HigherDigitWins(a: nat, b: nat, base: nat, x: nat, y: nat)
    requires a < b && x < base
    ensures Digits(a, base, x) < Digits(b, base, y)
  {
    var gap := b - a - 1;
    assert b * base == a * base + base + gap * base;
  }

  function Gap(inputs: Inputs, q: int): nat {
    if q < inputs.maxQ then inputs.maxQ - q else 0
  }

  /** An upper bound on the passes left: discharges not simulated, the maximum still due, the reference's and the
      position's distance from the top. */
  function Budget(inputs: Inputs, s: State): nat
    requires Ranged(inputs)
  {
    var base := inputs.maxQ - inputs.minQ + 1;
    Digits(Digits(Digits(|Unsimulated(inputs, s)|, 2, if s.maxDone then 0 else 1), base, Gap(inputs, s.reference.q)),
           base, Gap(inputs, s.position.q))
  }

  lemma FewerLeft(a: set<int>, b: set<int>)
    requires a < b
    ensures |a| < |b|
  {
    assert b == a + (b - a) && b - a != {};
    assert |b| == |a| + |b - a|;
  }

  lemma ProgressSpends(inputs: Inputs, sim: Simulator, adopted: map<int, Scenario>, s: State, t: State)
    requires Ranged(inputs) && Safe(inputs, sim, adopted, s) && Safe(inputs, sim, adopted, t) && Progress(inputs, s, t)
    ensures Budget(inputs, t) < Budget(inputs, s)
  {
    hide Unsimulated, Digits, RunsOk, PublishedOk, LibraryOk, Stands;
    var base := inputs.maxQ - inputs.minQ + 1;
    var left, due := |Unsimulated(inputs, t)|, |Unsimulated(inputs, s)|;
    var max', max := if t.maxDone then 0 else 1, if s.maxDone then 0 else 1;
    var ref', ref := Gap(inputs, t.reference.q), Gap(inputs, s.reference.q);
    var pos', pos := Gap(inputs, t.position.q), Gap(inputs, s.position.q);
    assert ref' < base && pos' < base;
    if Unsimulated(inputs, t) < Unsimulated(inputs, s) {
      FewerLeft(Unsimulated(inputs, t), Unsimulated(inputs, s));
      HigherDigitWins(left, due, 2, max', max);
      HigherDigitWins(Digits(left, 2, max'), Digits(due, 2, max), base, ref', ref);
    } else if s.maxDone != t.maxDone {
      LowerDigit(due, 2, max', max);
      HigherDigitWins(Digits(left, 2, max'), Digits(due, 2, max), base, ref', ref);
    } else if t.reference.q > s.reference.q {
      LowerDigit(Digits(due, 2, max), base, ref', ref);
    }
    if Digits(Digits(left, 2, max'), base, ref') < Digits(Digits(due, 2, max), base, ref) {
      HigherDigitWins(Digits(Digits(left, 2, max'), base, ref'), Digits(Digits(due, 2, max), base, ref), base, pos', pos);
    } else {
      LowerDigit(Digits(Digits(due, 2, max), base, ref), base, pos', pos);
    }
  }

  lemma LowerDigit(a: nat, base: nat, x: nat, y: nat)
    requires x < y
    ensures Digits(a, base, x) < Digits(a, base, y)
  {}

  // ---------- Exactly when a sweep ends ----------

  ghost predicate Ends(inputs: Inputs, adopted: map<int, Scenario>, sim: Simulator)
    requires Ranged(inputs) && Adoptable(inputs, adopted)
  {
    exists n: nat :: !Passes(inputs, sim, Start(inputs, adopted, sim), n).Running?
  }

  /** No pass finds its trial in hand, below the maximum, and measured so that nothing moves forward. */
  ghost predicate NeverStalls(inputs: Inputs, adopted: map<int, Scenario>, sim: Simulator)
    requires Ranged(inputs) && Adoptable(inputs, adopted)
  {
    forall n: nat :: Passes(inputs, sim, Start(inputs, adopted, sim), n).Running? ==>
      !Stalled(inputs, Passes(inputs, sim, Start(inputs, adopted, sim), n).state)
  }

  lemma PassSpends(inputs: Inputs, sim: Simulator, adopted: map<int, Scenario>, s: State)
    requires Ranged(inputs) && Safe(inputs, sim, adopted, s) && Step(inputs, sim, s).Running? && !Stalled(inputs, s)
    ensures Budget(inputs, Step(inputs, sim, s).state) < Budget(inputs, s)
  {
    var t := Step(inputs, sim, s).state;
    hide Step, Stalled, Safe, Budget, Progress;
    StepKeepsSafe(inputs, sim, adopted, s);
    ProgressUnlessStalled(inputs, sim, adopted, s);
    ProgressSpends(inputs, sim, adopted, s, t);
  }

  /** A pass that leaves the sweep running and unstalled found it so, with more budget. */
  lemma LastPassSpends(inputs: Inputs, sim: Simulator, adopted: map<int, Scenario>, n: nat)
    requires Ranged(inputs) && Adoptable(inputs, adopted) && n > 0
    requires
      var pass := Passes(inputs, sim, Start(inputs, adopted, sim), n);
      pass.Running? && !Stalled(inputs, pass.state)
    ensures
      var start := Start(inputs, adopted, sim);
      var before, pass := Passes(inputs, sim, start, n - 1), Passes(inputs, sim, start, n);
      before.Running? && !Stalled(inputs, before.state) && Budget(inputs, pass.state) < Budget(inputs, before.state)
  {
    hide Step, Stalled, Safe, Budget, Unsimulated, Propose, NextTrial, Judge;
    var start := Start(inputs, adopted, sim);
    var before := Passes(inputs, sim, start, n - 1);
    hide Start, Adoptable, WellFormed;
    if Stalled(inputs, before.state) {
      StalledForEver(inputs, sim, adopted, n - 1, n);
    }
    SafeWhileRunning(inputs, sim, adopted, n - 1);
    PassSpends(inputs, sim, adopted, before.state);
  }

  /** Until it ends or stalls, a sweep spends its budget, one a pass at least. */
  lemma {:induction false} BudgetIsSpent(inputs: Inputs, sim: Simulator, adopted: map<int, Scenario>, n: nat)
    requires Ranged(inputs) && Adoptable(inputs, adopted)
    ensures
      var start := Start(inputs, adopted, sim);
      var pass := Passes(inputs, sim, start, n);
      pass.Running? && !Stalled(inputs, pass.state) ==> Budget(inputs, pass.state) + n <= Budget(inputs, start)
  {
    hide Step, Stalled, Safe, Budget, Unsimulated, Propose, NextTrial, Judge;
    var start := Start(inputs, adopted, sim);
    var pass := Passes(inputs, sim, start, n);
    assert n == 0 ==> pass == Running(start);
    hide Passes, Start, Adoptable, WellFormed;
    if n > 0 && pass.Running? && !Stalled(inputs, pass.state) {
      LastPassSpends(inputs, sim, adopted, n);
      BudgetIsSpent(inputs, sim, adopted, n - 1);
    }
  }

  lemma {:induction false} EndedStaysEnded(inputs: Inputs, sim: Simulator, s: State, m: nat, n: nat)
    requires inputs.grid > 0 && WellFormed(s) && m <= n && !Passes(inputs, sim, s, m).Running?
    ensures Passes(inputs, sim, s, n) == Passes(inputs, sim, s, m)
    decreases n
  {
    hide Step;
    if m < n {
      EndedStaysEnded(inputs, sim, s, m, n - 1);
    }
  }

  /** A sweep ends if and only if no pass of it stalls; and then it ends within its budget. So watching that many passes
      settles the matter, whatever the readings do. */
  lemma EndsIffNeverStalls(inputs: Inputs, adopted: map<int, Scenario>, sim: Simulator)
    requires Ranged(inputs) && Adoptable(inputs, adopted)
    ensures Ends(inputs, adopted, sim) <==> NeverStalls(inputs, adopted, sim)
    ensures
      var start := Start(inputs, adopted, sim);
      Ends(inputs, adopted, sim) <==> !Passes(inputs, sim, start, Budget(inputs, start) + 1).Running?
  {
    hide Step, Stalled, Safe, Budget;
    var start := Start(inputs, adopted, sim);
    if n: nat :| !Passes(inputs, sim, start, n).Running? {
      forall m: nat | Passes(inputs, sim, start, m).Running? ensures !Stalled(inputs, Passes(inputs, sim, start, m).state) {
        if n < m {
          EndedStaysEnded(inputs, sim, start, n, m);
        } else if Stalled(inputs, Passes(inputs, sim, start, m).state) {
          StalledForEver(inputs, sim, adopted, m, n);
        }
      }
    }
    BudgetIsSpent(inputs, sim, adopted, Budget(inputs, start) + 1);
  }

  /** Readings that rise with discharge never stall, so every such sweep ends. */
  lemma PhysicalEnds(inputs: Inputs, adopted: map<int, Scenario>, sim: Simulator)
    requires Ranged(inputs) && Adoptable(inputs, adopted) && ProperBands(inputs.bands) && Physical(inputs, sim, adopted)
    ensures NeverStalls(inputs, adopted, sim) && Ends(inputs, adopted, sim)
  {
    hide Step, Stalled, Safe, Physical, Budget;
    var start := Start(inputs, adopted, sim);
    forall n: nat | Passes(inputs, sim, start, n).Running? ensures !Stalled(inputs, Passes(inputs, sim, start, n).state) {
      SafeWhileRunning(inputs, sim, adopted, n);
      PhysicalNeverStalls(inputs, sim, adopted, Passes(inputs, sim, start, n).state);
    }
    EndsIffNeverStalls(inputs, adopted, sim);
  }

  // ---------- Edge errors ----------

  /** No scenario in hand carries an edge error, but one: the first simulation's is never looked at. */
  ghost predicate EdgesSeen(inputs: Inputs, adopted: map<int, Scenario>, sim: Simulator, s: State) {
    forall q :: q in s.done && q !in adopted && q != inputs.minQ ==> !sim(q).edgeError
  }

  lemma {:induction false} OnlyTheFirstEdgeIsMissed(inputs: Inputs, adopted: map<int, Scenario>, sim: Simulator, n: nat)
    requires Ranged(inputs) && Adoptable(inputs, adopted)
    ensures EdgesSeen(inputs, adopted, sim, Passes(inputs, sim, Start(inputs, adopted, sim), n).state)
  {
    hide Step;
    var start := Start(inputs, adopted, sim);
    if n > 0 {
      OnlyTheFirstEdgeIsMissed(inputs, adopted, sim, n - 1);
      var before := Passes(inputs, sim, start, n - 1);
      if before.Running? {
        StepHand(inputs, sim, before.state);
      }
    }
  }

  /** A pass files at most its trial, and a new one only without an edge error. */
  lemma StepHand(inputs: Inputs, sim: Simulator, s: State)
    requires inputs.grid > 0 && WellFormed(s)
    ensures
      var now := Step(inputs, sim, s).state.done;
      forall q :: q in now && q !in s.done ==> !sim(q).edgeError
  {
    hide Judge, NextTrial;
  }

  /** When the minimum has to be simulated and meets an edge error, the run starts from it, published, all the same;
      and it stays in hand and out, however many passes follow. */
  lemma FirstEdgeIsKept(inputs: Inputs, adopted: map<int, Scenario>, sim: Simulator, n: nat)
    requires Ranged(inputs) && Adoptable(inputs, adopted)
    requires inputs.minQ !in adopted && sim(inputs.minQ).edgeError
    ensures
      var s := Passes(inputs, sim, Start(inputs, adopted, sim), n).state;
      && inputs.minQ in s.done && s.done[inputs.minQ].reading == sim(inputs.minQ).reading && inputs.minQ in s.published
  {
    hide Safe, Step;
    var pass := Passes(inputs, sim, Start(inputs, adopted, sim), n);
    EveryRunIsSafe(inputs, sim, adopted, n);
    if pass.Aborted? {
      var m: nat :| m < n && AbortsAfter(inputs, sim, adopted, m, pass.state);
      SafeHasMinimum(inputs, sim, adopted, Passes(inputs, sim, Start(inputs, adopted, sim), m).state);
    } else {
      SafeHasMinimum(inputs, sim, adopted, pass.state);
    }
  }

  lemma SafeHasMinimum(inputs: Inputs, sim: Simulator, adopted: map<int, Scenario>, s: State)
    requires Safe(inputs, sim, adopted, s) && inputs.minQ !in adopted
    ensures inputs.minQ in s.done && s.done[inputs.minQ].reading == sim(inputs.minQ).reading && inputs.minQ in s.published
  {}
}
