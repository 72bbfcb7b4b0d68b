/** Without rising readings the sweep need not end: a concrete library that keeps it going for ever. */
module Livelock {
  import opened Readings
  import opened Curves
  import opened AcceptanceWindow
  import opened Proposals
  import opened Sweep

  /** The default bands on a 20 cms grid. */
  ghost predicate DefaultSetup(inputs: Inputs) {
    inputs == Inputs(20, 100, 20, 20, Bands(Band(0.75, 1.25), Band(0.25, 0.5), Band(10.0, 15.0)))
  }

  /** A library on its own grid whose max depth wobbles down past 40; the other criteria are flat. */
  ghost predicate Wobbles(done: map<int, Scenario>) {
    && done.Keys == {20, 40, 60, 80, 100}
    && done[20] == Scenario(20, Reading(0.0, 0.0, 1.0))
    && done[40] == Scenario(40, Reading(1.0, 0.0, 1.0))
    && done[60] == Scenario(60, Reading(0.5, 0.0, 1.0))
    && done[80] == Scenario(80, Reading(0.5, 0.0, 1.0))
    && done[100] == Scenario(100, Reading(2.0, 0.0, 1.0))
  }

  lemma {:induction false} SortedIsUnique(s: set<int>, qs: seq<int>)
    requires Ascending(qs) && (forall i :: 0 <= i < |qs| ==> qs[i] in s) && forall q :: q in s ==> q in qs
    ensures Sorted(s) == qs
    decreases |qs|
  {
    if qs == [] {
      assert s == {};
    } else {
      var q := qs[0];
      assert q in s;
      assert Lowest(s) == q;
      forall k | k in s - {q} ensures k in qs[1..] {
        var i :| 0 <= i < |qs| && qs[i] == k;
        assert qs[1..][i - 1] == k;
      }
      SortedIsUnique(s - {q}, qs[1..]);
    }
  }

  lemma {:induction false} RunningMaxPush(vs: seq<real>, x: real)
    requires vs != []
    ensures RunningMax(vs + [x]) == RunningMax(vs) + [Max(RunningMax(vs)[|vs| - 1], x)]
  {
    var longer := vs + [x];
    assert longer[..|longer| - 1] == vs && longer[|longer| - 1] == x;
    hide Max;
  }

  lemma RunningMaxOfFive(vs: seq<real>)
    requires |vs| == 5
    ensures
      var m1 := Max(vs[0], vs[1]);
      var m2 := Max(m1, vs[2]);
      var m3 := Max(m2, vs[3]);
      RunningMax(vs) == [vs[0], m1, m2, m3, Max(m3, vs[4])]
  {
    assert vs[..1] == [vs[0]];
    assert vs[..2] == vs[..1] + [vs[1]];
    assert vs[..3] == vs[..2] + [vs[2]];
    assert vs[..4] == vs[..3] + [vs[3]];
    assert vs == vs[..4] + [vs[4]];
    RunningMaxPush(vs[..1], vs[1]);
    RunningMaxPush(vs[..2], vs[2]);
    RunningMaxPush(vs[..3], vs[3]);
    RunningMaxPush(vs[..4], vs[4]);
  }

  predicate OnTheGrid(qs: seq<int>) {
    |qs| == 5 && qs[0] == 20 && qs[1] == 40 && qs[2] == 60 && qs[3] == 80 && qs[4] == 100
  }

  lemma KnotsOf(done: map<int, Scenario>, qs: seq<int>)
    requires Wobbles(done) && OnTheGrid(qs)
    ensures Knots(done) == qs && |done| == 5 && IndexOf(qs, 20) == 0
  {
    assert 20 in qs && 40 in qs && 60 in qs && 80 in qs && 100 in qs;
    SortedIsUnique(done.Keys, qs);
  }

  /** The curves the wobble leaves: the flattened max depth hides the dip. */
  predicate Flattened(ms: seq<Measure>) {
    && |ms| == 3 && (forall i :: 0 <= i < 3 ==> |ms[i].values| == 5)
    && ms[0].values[0] == 0.0 && ms[0].values[1] == 1.0 && ms[0].values[2] == 1.0 && ms[0].values[3] == 1.0 && ms[0].values[4] == 2.0
    && forall i :: 0 <= i < 5 ==> ms[1].values[i] == 0.0 && ms[2].values[i] == 1.0
  }

  lemma CurvesOfWobble(bands: Bands, rs: seq<Reading>)
    requires |rs| == 5
    requires rs[0] == Reading(0.0, 0.0, 1.0) && rs[1] == Reading(1.0, 0.0, 1.0)
    requires rs[2] == Reading(0.5, 0.0, 1.0) && rs[3] == Reading(0.5, 0.0, 1.0) && rs[4] == Reading(2.0, 0.0, 1.0)
    ensures Flattened(Measures(bands, rs))
  {
    RunningMaxOfFive(MaxDepths(rs));
    RunningMaxOfFive(MedianDepths(rs));
    RunningMaxOfFive(Areas(rs));
    hide RunningMax;
  }

  /** The curves promise an acceptance from before 40 to past 80, where the runs in hand fell short. */
  lemma WindowHoldsSixty(inputs: Inputs, done: map<int, Scenario>)
    requires DefaultSetup(inputs) && Wobbles(done)
    ensures
      var w := WindowAgainst(inputs.bands, done, 20);
      && w.Some? && w.value.closes.Some?
      && 20.0 < w.value.opens <= 40.0 && 80.0 < w.value.closes.value < 100.0
  {
    hide WindowAgainst, Sorted, Measures;
    var bands, qs := inputs.bands, [20, 40, 60, 80, 100];
    KnotsOf(done, qs);
    var rs := ReadingsOf(done, qs);
    CurvesOfWobble(bands, rs);
    PromiseAtWobble(bands, done, qs, Measures(bands, rs));
    assert CurvesOf(bands, done) == Measures(bands, rs);
    WindowIsExact(bands, done, 20, 40.0);
    WindowIsExact(bands, done, 20, 80.0);
    WindowIsExact(bands, done, 20, 100.0);
  }

  lemma PromiseAtWobble(bands: Bands, done: map<int, Scenario>, qs: seq<int>, ms: seq<Measure>)
    requires Wobbles(done) && |done| == 5 && qs == Knots(done) && ms == CurvesOf(bands, done)
    requires OnTheGrid(qs) && IndexOf(qs, 20) == 0 && Flattened(ms)
    requires bands == Bands(Band(0.75, 1.25), Band(0.25, 0.5), Band(10.0, 15.0))
    ensures PromisedVerdict(bands, done, 20, 40.0) == Accept
    ensures PromisedVerdict(bands, done, 20, 80.0) == Accept && StrictlyUnderCeilings(bands, done, 20, 80.0)
    ensures PromisedVerdict(bands, done, 20, 100.0) == RejectHigh
  {
    hide Sorted, Measures;
    ReadOffAtKnot(qs, ms, 0, Reading(0.0, 0.0, 1.0));
    ReadOffAtKnot(qs, ms, 1, Reading(1.0, 0.0, 1.0));
    ReadOffAtKnot(qs, ms, 3, Reading(1.0, 0.0, 1.0));
    ReadOffAtKnot(qs, ms, 4, Reading(2.0, 0.0, 1.0));
    CurveAtKnot(qs, ms[0].values, 3);
    CurveAtKnot(qs, ms[1].values, 3);
    CurveAtKnot(qs, ms[2].values, 3);
  }

  /** So a discharge between 40 and 80 is proposed, and the window's middle makes it 60, whatever the position. */
  lemma SixtyIsProposed(inputs: Inputs, done: map<int, Scenario>, positionQ: int)
    requires DefaultSetup(inputs) && Wobbles(done)
    ensures
      var p := Propose(inputs, done, 20, positionQ);
      p.q == 60 && !p.atMax
  {
    hide WindowAgainst, GridCeiling, GridFloor, Sorted;
    WindowHoldsSixty(inputs, done);
    var w := WindowAgainst(inputs.bands, done, 20).value;
    GridCeilingBounds(w.opens, 20);
    GridFloorBounds(w.closes.value, 20);
  }

  /** The state the sweep reaches at once, and never leaves. */
  ghost predicate Stuck(s: State) {
    && Wobbles(s.done) && s.reference == s.done[20] && !s.maxDone
    && (s.position == s.done[20] || s.position == s.done[60])
  }

  lemma StuckStaysStuck(inputs: Inputs, sim: Simulator, s: State)
    requires DefaultSetup(inputs) && WellFormed(s) && Stuck(s)
    ensures Step(inputs, sim, s).Running? && Stuck(Step(inputs, sim, s).state)
  {
    hide Propose, AdvanceTo, Sorted;
    KnotsOf(s.done, [20, 40, 60, 80, 100]);
    SixtyIsProposed(inputs, s.done, s.position.q);
    assert Judge(inputs.bands, s.done[60].reading, s.done[20].reading) == RejectLow;
  }

  /** However many passes are made, whatever the simulator would answer, the sweep is still running. */
  lemma {:induction false} SweepNeedNotEnd(inputs: Inputs, adopted: map<int, Scenario>, sim: Simulator, n: nat)
    requires DefaultSetup(inputs) && Wobbles(adopted)
    ensures Ranged(inputs) && ProperBands(inputs.bands) && Adoptable(inputs, adopted) && Wet(adopted)
    ensures
      var pass := Passes(inputs, sim, Start(inputs, adopted, sim), n);
      pass.Running? && Stuck(pass.state)
  {
    hide Step;
    var start := Start(inputs, adopted, sim);
    if n == 0 {
      assert adopted[20 := adopted[20]] == adopted;
    } else {
      SweepNeedNotEnd(inputs, adopted, sim, n - 1);
      StuckStaysStuck(inputs, sim, Passes(inputs, sim, start, n - 1).state);
    }
  }
}
