/** When each criterion goes one way with discharge, what the curves promise is what is measured. */
module SteadyReadings {
  import opened Readings
  import opened Curves
  import opened AcceptanceWindow

  ghost predicate NonIncreasing(vs: seq<real>) {
    forall i, j :: 0 <= i <= j < |vs| ==> vs[j] <= vs[i]
  }

  /** The running maximum of a falling column never leaves its first entry. */
  lemma RunningMaxOfFalling(vs: seq<real>, i: nat)
    requires NonIncreasing(vs) && i < |vs|
    ensures RunningMax(vs)[i] == vs[0]
  {
    RunningMaxIsMaximum(vs, i);
    var k :| 0 <= k < i + 1 && vs[..i + 1][k] == RunningMax(vs)[i];
    assert vs[k] == RunningMax(vs)[i];
  }

  /** Two readings of a criterion and what the curve makes of them: itself when it rises, a standstill when it falls. */
  predicate Agrees(promised: real, promisedRef: real, trial: real, ref: real) {
    || (promised == trial && promisedRef == ref)
    || (promised == promisedRef && trial <= ref && promisedRef >= ref)
  }

  lemma ColumnAgrees(vs: seq<real>, i: nat, j: nat)
    requires (NonDecreasing(vs) || NonIncreasing(vs)) && i <= j < |vs|
    ensures Agrees(RunningMax(vs)[j], RunningMax(vs)[i], vs[j], vs[i])
  {
    if NonDecreasing(vs) {
      RunningMaxOfRising(vs);
    } else {
      RunningMaxOfFalling(vs, i);
      RunningMaxOfFalling(vs, j);
    }
  }

  lemma PercentAgrees(p: real, r: real, trial: real, ref: real, band: Band)
    requires Agrees(p, r, trial, ref) && r > 0.0 && ref > 0.0 && Proper(band)
    ensures (p - r) / r * 100.0 > band.ceiling <==> (trial - ref) / ref * 100.0 > band.ceiling
    ensures (p - r) / r * 100.0 >= band.floor <==> (trial - ref) / ref * 100.0 >= band.floor
  {
    if p == r && trial <= ref {
      PercentRises(trial, ref, ref);
      assert (p - r) / r == 0.0 && (ref - ref) / ref == 0.0;
    }
  }

  /** A standstill and a fall are judged alike: neither reaches a floor. */
  lemma JudgedAlike(bands: Bands, p: Reading, r: Reading, trial: Reading, ref: Reading)
    requires ProperBands(bands) && r.area > 0.0 && ref.area > 0.0
    requires Agrees(p.maxDepth, r.maxDepth, trial.maxDepth, ref.maxDepth)
    requires Agrees(p.medianDepth, r.medianDepth, trial.medianDepth, ref.medianDepth)
    requires Agrees(p.area, r.area, trial.area, ref.area)
    ensures Judge(bands, p, r) == Judge(bands, trial, ref)
  {
    PercentAgrees(p.area, r.area, trial.area, ref.area, bands.area);
  }

  // ---------- At the scenarios in hand ----------

  /** What is promised at a simulated discharge: the running maxima there. */
  lemma PromisedAt(bands: Bands, done: map<int, Scenario>, q: int)
    requires |done| >= 2 && q in done
    ensures
      var rs, i := ReadingsOf(done, Knots(done)), IndexOf(Knots(done), q);
      Promised(bands, done, q as real)
        == Reading(RunningMax(MaxDepths(rs))[i], RunningMax(MedianDepths(rs))[i], RunningMax(Areas(rs))[i])
  {
    hide Sorted;
    var qs, ms := Knots(done), CurvesOf(bands, done);
    var i := IndexOf(qs, q);
    ReadOffAtKnot(qs, ms, i, Reading(ms[0].values[i], ms[1].values[i], ms[2].values[i]));
  }

  lemma ColumnsAreSteady(done: map<int, Scenario>)
    requires Steady(done)
    ensures
      var rs := ReadingsOf(done, Knots(done));
      && (NonDecreasing(MaxDepths(rs)) || NonIncreasing(MaxDepths(rs)))
      && (NonDecreasing(MedianDepths(rs)) || NonIncreasing(MedianDepths(rs)))
      && (NonDecreasing(Areas(rs)) || NonIncreasing(Areas(rs)))
  {
    hide Sorted, Steady;
    ColumnIsSteady(done, MaxDepths(ReadingsOf(done, Knots(done))), MaxDepth);
    ColumnIsSteady(done, MedianDepths(ReadingsOf(done, Knots(done))), MedianDepth);
    ColumnIsSteady(done, Areas(ReadingsOf(done, Knots(done))), Area);
  }

  lemma ColumnIsSteady(done: map<int, Scenario>, vs: seq<real>, c: Criterion)
    requires Steady(done) && |vs| == |Knots(done)|
    requires forall i :: 0 <= i < |vs| ==> vs[i] == Value(c, done[Knots(done)[i]].reading)
    ensures NonDecreasing(vs) || NonIncreasing(vs)
  {
    hide Sorted;
    var qs := Knots(done);
    if RisesIn(done, c) {
      forall i, j | 0 <= i <= j < |vs| ensures vs[i] <= vs[j] {
        var a, b := qs[i], qs[j];
        assert a in done && b in done && a <= b;
      }
    } else {
      forall i, j | 0 <= i <= j < |vs| ensures vs[j] <= vs[i] {
        var a, b := qs[i], qs[j];
        assert a in done && b in done && a <= b;
      }
    }
  }

  lemma LaterKnot(done: map<int, Scenario>, a: int, b: int)
    requires a in done && b in done && a <= b
    ensures IndexOf(Knots(done), a) <= IndexOf(Knots(done), b) < |done|
  {
    hide Sorted;
  }

  /** At simulated discharges from the reference up, the verdict promised is the one measured. */
  lemma SteadyPromiseIsKept(bands: Bands, done: map<int, Scenario>, refQ: int, q: int)
    requires ProperBands(bands) && Steady(done) && Wet(done) && |done| >= 2 && refQ in done && q in done && refQ <= q
    ensures PromisedVerdict(bands, done, refQ, q as real) == Judge(bands, done[q].reading, done[refQ].reading)
  {
    hide Judge, Sorted, Promised, Steady, Agrees, RunningMax, NonDecreasing, NonIncreasing, Knots, IndexOf;
    var rs, i, j := ReadingsOf(done, Knots(done)), IndexOf(Knots(done), refQ), IndexOf(Knots(done), q);
    PromisedAt(bands, done, refQ);
    PromisedAt(bands, done, q);
    ColumnsAreSteady(done);
    LaterKnot(done, refQ, q);
    ColumnAgrees(MaxDepths(rs), i, j);
    ColumnAgrees(MedianDepths(rs), i, j);
    ColumnAgrees(Areas(rs), i, j);
    RunningMaxIsMaximum(Areas(rs), i);
    JudgedAlike(bands, Promised(bands, done, q as real), Promised(bands, done, refQ as real), done[q].reading, done[refQ].reading);
  }
}
