/** Every trial of a run lands on the discharge grid or on the maximum. */
module SweepAxis {
  import opened Readings
  import opened AcceptanceWindow
  import opened Proposals
  import opened Sweep
  import opened SweepSafety

  predicate OnAxis(inputs: Inputs, q: int)
    requires inputs.grid > 0
  {
    OnGrid(q, inputs.grid) || q == inputs.maxQ
  }

  /** Everything simulated or adopted is on the axis, and so is the opening step. */
  ghost predicate AxisOk(inputs: Inputs, s: State)
    requires inputs.grid > 0
  {
    && (forall q :: q in s.done ==> OnAxis(inputs, q))
    && (forall i :: 0 <= i < |s.runs| ==> OnAxis(inputs, s.runs[i].q))
    && (|s.done| == 1 ==> OnAxis(inputs, s.qTrial))
  }

  lemma PlacedOnAxis(inputs: Inputs, opens: real, closes: real, refQ: int, positionQ: int)
    requires inputs.grid > 0 && refQ <= positionQ
    requires OnAxis(inputs, refQ) && OnAxis(inputs, positionQ)
    ensures
      var trial := Placed(inputs.grid, opens, closes, refQ, positionQ);
      OnGrid(trial, inputs.grid) || trial >= inputs.maxQ
  {
    var grid := inputs.grid;
    GridCeilingBounds(opens, grid);
    GridFloorBounds(closes, grid);
    GridCeilingBounds(opens - grid as real, grid);
    MultipleOnGrid(Round((opens + closes) / 2.0 / grid as real), grid);
    PlacedWhere(grid, opens, closes, refQ, positionQ);
    if OnGrid(refQ, grid) {
      GridSteps(refQ, refQ, grid);
    }
    if OnGrid(positionQ, grid) {
      GridSteps(positionQ, positionQ, grid);
    }
  }

  lemma TrialOnAxis(inputs: Inputs, sim: Simulator, adopted: map<int, Scenario>, s: State)
    requires Ranged(inputs) && Safe(inputs, sim, adopted, s) && AxisOk(inputs, s)
    ensures OnAxis(inputs, NextTrial(inputs, s).q)
  {
    hide Judge, WindowAgainst, Placed;
    TrialLiesAhead(inputs, sim, adopted, s);
    if |s.done| != 1 {
      match WindowAgainst(inputs.bands, s.done, s.reference.q)
      case None =>
      case Some(w) =>
        if w.closes.Some? {
          PlacedOnAxis(inputs, w.opens, w.closes.value, s.reference.q, s.position.q);
        }
    }
  }

  lemma StepStaysOnAxis(inputs: Inputs, sim: Simulator, adopted: map<int, Scenario>, s: State)
    requires Ranged(inputs) && Safe(inputs, sim, adopted, s) && AxisOk(inputs, s)
    ensures AxisOk(inputs, Step(inputs, sim, s).state)
  {
    hide Judge, NextTrial, Settle, OnAxis;
    var p := NextTrial(inputs, s);
    TrialOnAxis(inputs, sim, adopted, s);
    TrialLiesAhead(inputs, sim, adopted, s);
    if p.q in s.done {
      AdvanceFrames(inputs, s, p);
    } else {
      SimulatedIsSafe(inputs, sim, adopted, s, p.q);
      AdvanceFrames(inputs, Simulated(s, p.q, sim(p.q).reading), p);
    }
  }

  lemma AdvanceFrames(inputs: Inputs, s: State, p: Proposal)
    requires WellFormed(s) && p.q in s.done
    ensures
      var t := Settle(inputs, s, p).state;
      t.done == s.done && t.runs == s.runs && t.qTrial == p.q
  {}

  /** With the minimum, the opening step and the adopted library on the axis, every run stays on it. */
  lemma {:induction false} EveryRunStaysOnAxis(inputs: Inputs, sim: Simulator, adopted: map<int, Scenario>, n: nat)
    requires Ranged(inputs) && Adoptable(inputs, adopted)
    requires OnAxis(inputs, inputs.minQ) && OnAxis(inputs, inputs.minQ + inputs.delta)
    requires forall q :: q in adopted ==> OnAxis(inputs, q)
    ensures AxisOk(inputs, Passes(inputs, sim, Start(inputs, adopted, sim), n).state)
  {
    hide Judge, Safe, Step, AxisOk;
    var start := Start(inputs, adopted, sim);
    hide OnAxis;
    if n == 0 {
      StartOnAxis(inputs, sim, adopted);
    } else {
      EveryRunStaysOnAxis(inputs, sim, adopted, n - 1);
      SafeWhileRunning(inputs, sim, adopted, n - 1);
      var before := Passes(inputs, sim, start, n - 1);
      if before.Running? {
        StepStaysOnAxis(inputs, sim, adopted, before.state);
      }
    }
  }

  lemma StartOnAxis(inputs: Inputs, sim: Simulator, adopted: map<int, Scenario>)
    requires Ranged(inputs) && Adoptable(inputs, adopted)
    requires OnAxis(inputs, inputs.minQ) && OnAxis(inputs, inputs.minQ + inputs.delta)
    requires forall q :: q in adopted ==> OnAxis(inputs, q)
    ensures AxisOk(inputs, Start(inputs, adopted, sim))
  {}
}
