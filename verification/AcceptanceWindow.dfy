/** Between which discharges the curves promise an acceptance against the reference. */
module AcceptanceWindow {
  import opened Wrappers
  import opened Readings
  import opened Curves

  /** A criterion's curve, drawn through what was simulated, with its band. */
  datatype Measure = Measure(values: seq<real>, band: Band, relative: bool)

  /** `closes` is absent when no criterion ever reaches its ceiling: the window never shuts. */
  datatype Window = Window(opens: real, closes: Option<real>)

  function Target(relative: bool, base: real, increase: real): real {
    if relative then base * (1.0 + increase / 100.0) else base + increase
  }

  // ---------- Assembling the curves from every scenario in hand ----------

  lemma HasLeast(s: set<int>)
    requires s != {}
    ensures exists m :: m in s && forall k :: k in s ==> m <= k
  {
    var x := Pick(s);
    if s == {x} {
    } else {
      HasLeast(s - {x});
      var m :| m in s - {x} && forall k :: k in s - {x} ==> m <= k;
      assert forall k :: k in s ==> k == x || k in s - {x};
      assert if m <= x then forall k :: k in s ==> m <= k else forall k :: k in s ==> x <= k;
    }
  }

  function Lowest(s: set<int>): (m: int)
    requires s != {}
    ensures m in s && forall k :: k in s ==> m <= k
  {
    HasLeast(s);
    var m :| m in s && forall k :: k in s ==> m <= k;
    m
  }

  /** The discharges in hand, lowest first. */
  function Sorted(s: set<int>): (qs: seq<int>)
    ensures Ascending(qs) && |qs| == |s|
    ensures forall i :: 0 <= i < |qs| ==> qs[i] in s
    ensures forall q :: q in s ==> q in qs
  {
    if s == {} then []
    else
      var m := Lowest(s);
      var rest := Sorted(s - {m});
      [m] + rest
  }

  function ReadingsOf(done: map<int, Scenario>, qs: seq<int>): (rs: seq<Reading>)
    requires forall i :: 0 <= i < |qs| ==> qs[i] in done
    ensures |rs| == |qs|
    ensures forall i :: 0 <= i < |qs| ==> rs[i] == done[qs[i]].reading
  {
    seq(|qs|, i requires 0 <= i < |qs| => done[qs[i]].reading)
  }

  function MaxDepths(rs: seq<Reading>): (vs: seq<real>)
    ensures |vs| == |rs| && forall i :: 0 <= i < |rs| ==> vs[i] == rs[i].maxDepth
  {
    seq(|rs|, i requires 0 <= i < |rs| => rs[i].maxDepth)
  }

  function MedianDepths(rs: seq<Reading>): (vs: seq<real>)
    ensures |vs| == |rs| && forall i :: 0 <= i < |rs| ==> vs[i] == rs[i].medianDepth
  {
    seq(|rs|, i requires 0 <= i < |rs| => rs[i].medianDepth)
  }

  function Areas(rs: seq<Reading>): (vs: seq<real>)
    ensures |vs| == |rs| && forall i :: 0 <= i < |rs| ==> vs[i] == rs[i].area
  {
    seq(|rs|, i requires 0 <= i < |rs| => rs[i].area)
  }

  function Measures(bands: Bands, rs: seq<Reading>): (ms: seq<Measure>)
    ensures Criteria(bands, ms)
    ensures forall i :: 0 <= i < 3 ==> |ms[i].values| == |rs|
  {
    [
      Measure(RunningMax(MaxDepths(rs)), bands.maxDepth, false),
      Measure(RunningMax(MedianDepths(rs)), bands.medianDepth, false),
      Measure(RunningMax(Areas(rs)), bands.area, true)
    ]
  }

  /** The three criteria in order, each with its own band. */
  predicate Criteria(bands: Bands, ms: seq<Measure>) {
    && |ms| == 3
    && ms[0].band == bands.maxDepth && !ms[0].relative
    && ms[1].band == bands.medianDepth && !ms[1].relative
    && ms[2].band == bands.area && ms[2].relative
  }

  function IndexOf(qs: seq<int>, q: int): (i: nat)
    requires q in qs
    ensures i < |qs| && qs[i] == q
  {
    if qs[0] == q then 0 else 1 + IndexOf(qs[1..], q)
  }

  // ---------- The window ----------

  function Present(xs: seq<Option<real>>): seq<real> {
    if xs == [] then []
    else
      var front := Present(xs[..|xs| - 1]);
      if xs[|xs| - 1].Some? then front + [xs[|xs| - 1].value] else front
  }

  function Least(xs: seq<real>): (m: real)
    requires xs != []
    ensures m in xs && forall i :: 0 <= i < |xs| ==> m <= xs[i]
  {
    if |xs| == 1 then xs[0]
    else
      var rest := Least(xs[1..]);
      if xs[0] <= rest then xs[0] else rest
  }

  function Earliest(xs: seq<Option<real>>): Option<real> {
    if Present(xs) == [] then None else Some(Least(Present(xs)))
  }

  predicate Aligned(qs: seq<int>, ms: seq<Measure>, index: nat) {
    index < |qs| && forall i :: 0 <= i < |ms| ==> |ms[i].values| == |qs|
  }

  function Opens(qs: seq<int>, ms: seq<Measure>, index: nat): (xs: seq<Option<real>>)
    requires Aligned(qs, ms, index) && Ascending(qs)
    ensures |xs| == |ms|
  {
    seq(|ms|, i requires 0 <= i < |ms| =>
      Crossing(qs, ms[i].values, Target(ms[i].relative, ms[i].values[index], ms[i].band.floor)))
  }

  function Closes(qs: seq<int>, ms: seq<Measure>, index: nat): (xs: seq<Option<real>>)
    requires Aligned(qs, ms, index) && Ascending(qs)
    ensures |xs| == |ms|
  {
    seq(|ms|, i requires 0 <= i < |ms| =>
      Crossing(qs, ms[i].values, Target(ms[i].relative, ms[i].values[index], ms[i].band.ceiling)))
  }

  /** The least floor crossing opens it and the least ceiling crossing shuts it. */
  function WindowOf(qs: seq<int>, ms: seq<Measure>, index: nat): Option<Window>
    requires Aligned(qs, ms, index) && Ascending(qs)
  {
    match Earliest(Opens(qs, ms, index))
    case None => None
    case Some(opens) => Some(Window(opens, Earliest(Closes(qs, ms, index))))
  }

  method FindWindow(qs: seq<int>, measures: seq<Measure>, refQ: int) returns (window: Option<Window>)
    requires Ascending(qs) && refQ in qs && Aligned(qs, measures, IndexOf(qs, refQ))
    ensures window == WindowOf(qs, measures, IndexOf(qs, refQ))
  {
    var index := IndexOf(qs, refQ);
    var starts: seq<real>, ends: seq<real> := [], [];
    ghost var allOpens, allCloses := Opens(qs, measures, index), Closes(qs, measures, index);
    for i := 0 to |measures|
      invariant starts == Present(allOpens[..i])
      invariant ends == Present(allCloses[..i])
    {
      var m := measures[i];
      var base := m.values[index];
      var opens := Crossing(qs, m.values, Target(m.relative, base, m.band.floor));
      var closes := Crossing(qs, m.values, Target(m.relative, base, m.band.ceiling));
      if opens.Some? {
        starts := starts + [opens.value];
      }
      if closes.Some? {
        ends := ends + [closes.value];
      }
      assert allOpens[..i + 1][..i] == allOpens[..i] && allCloses[..i + 1][..i] == allCloses[..i];
    }
    assert allOpens[..|measures|] == allOpens && allCloses[..|measures|] == allCloses;
    if starts == [] {
      return None;
    }
    return Some(Window(Least(starts), if ends == [] then None else Some(Least(ends))));
  }

  // ---------- What the window means ----------

  ghost predicate ReachesFloor(qs: seq<int>, m: Measure, index: nat, y: real)
    requires Ascending(qs) && index < |qs| == |m.values| && |qs| >= 2
  {
    CurveAt(qs, m.values, y) >= Target(m.relative, m.values[index], m.band.floor)
  }

  ghost predicate WithinCeiling(qs: seq<int>, m: Measure, index: nat, y: real)
    requires Ascending(qs) && index < |qs| == |m.values| && |qs| >= 2
  {
    CurveAt(qs, m.values, y) <= Target(m.relative, m.values[index], m.band.ceiling)
  }

  ghost predicate BelowCeiling(qs: seq<int>, m: Measure, index: nat, y: real)
    requires Ascending(qs) && index < |qs| == |m.values| && |qs| >= 2
  {
    CurveAt(qs, m.values, y) < Target(m.relative, m.values[index], m.band.ceiling)
  }

  predicate ShortOf(y: real, closes: Option<real>) {
    closes.Some? ==> y < closes.value
  }

  predicate NotAfter(y: real, closes: Option<real>) {
    closes.Some? ==> y <= closes.value
  }

  /** Curves drawn through the same points, whose bands ask for a genuine increase. */
  ghost predicate WellDrawn(qs: seq<int>, ms: seq<Measure>, index: nat) {
    && Aligned(qs, ms, index)
    && |qs| >= 2
    && Ascending(qs)
    && forall i :: 0 <= i < |ms| ==>
        && IsCurve(qs, ms[i].values)
        && Proper(ms[i].band)
        && (ms[i].relative ==> ms[i].values[index] > 0.0)
  }

  lemma {:induction false} PresentMembers(xs: seq<Option<real>>)
    ensures forall x :: x in Present(xs) <==> Some(x) in xs
  {
    if xs != [] {
      PresentMembers(xs[..|xs| - 1]);
      assert xs == xs[..|xs| - 1] + [xs[|xs| - 1]];
    }
  }

  lemma EarliestIsLeast(xs: seq<Option<real>>)
    ensures Earliest(xs).None? ==> forall i :: 0 <= i < |xs| ==> xs[i].None?
    ensures Earliest(xs).Some? ==> Earliest(xs) in xs
    ensures forall i :: 0 <= i < |xs| && xs[i].Some? ==>
      Earliest(xs).Some? && Earliest(xs).value <= xs[i].value
  {
    PresentMembers(xs);
    forall i | 0 <= i < |xs| && xs[i].Some?
      ensures Earliest(xs).Some? && Earliest(xs).value <= xs[i].value
    {
      var x := xs[i].value;
      assert Some(x) in xs;
      var k :| 0 <= k < |Present(xs)| && Present(xs)[k] == x;
    }
  }

  /** A target for the floor exceeds the base reading, and the ceiling's exceeds the floor's. */
  lemma TargetsAscend(m: Measure, base: real)
    requires Proper(m.band) && (m.relative ==> base > 0.0)
    ensures base < Target(m.relative, base, m.band.floor) < Target(m.relative, base, m.band.ceiling)
  {
    if m.relative {
      var f, c := m.band.floor / 100.0, m.band.ceiling / 100.0;
      assert 0.0 < f < c;
      assert base < base * (1.0 + f) < base * (1.0 + c);
    }
  }

  /** Both crossings of one criterion are exact, and its ceiling comes after its floor. */
  lemma CriterionIsExact(qs: seq<int>, ms: seq<Measure>, index: nat, i: nat)
    requires WellDrawn(qs, ms, index) && i < |ms|
    ensures FirstReach(qs, ms[i].values, Target(ms[i].relative, ms[i].values[index], ms[i].band.floor),
                       Opens(qs, ms, index)[i])
    ensures FirstReach(qs, ms[i].values, Target(ms[i].relative, ms[i].values[index], ms[i].band.ceiling),
                       Closes(qs, ms, index)[i])
    ensures Opens(qs, ms, index)[i].Some? ==> qs[index] as real < Opens(qs, ms, index)[i].value
    ensures Closes(qs, ms, index)[i].Some? ==>
      Opens(qs, ms, index)[i].Some? && Opens(qs, ms, index)[i].value < Closes(qs, ms, index)[i].value
  {
    var m := ms[i];
    var base := m.values[index];
    var floor, ceiling := Target(m.relative, base, m.band.floor), Target(m.relative, base, m.band.ceiling);
    TargetsAscend(m, base);
    CrossingIsFirstReach(qs, m.values, floor);
    CrossingIsFirstReach(qs, m.values, ceiling);
    CurveAtKnot(qs, m.values, index);
    var opens, closes := Opens(qs, ms, index)[i], Closes(qs, ms, index)[i];
    if opens.Some? && opens.value <= qs[index] as real {
      CurveRises(qs, m.values, opens.value, qs[index] as real);
    }
    if closes.Some? {
      assert CurveAt(qs, m.values, closes.value) == ceiling;
      if opens.Some? && closes.value <= opens.value {
        CurveRises(qs, m.values, closes.value, opens.value);
      }
    }
  }

  /** An absent window is final: every curve stays under its floor for ever. */
  lemma NoWindowNoFloor(qs: seq<int>, ms: seq<Measure>, index: nat, i: nat, y: real)
    requires WellDrawn(qs, ms, index) && i < |ms| && WindowOf(qs, ms, index).None?
    ensures !ReachesFloor(qs, ms[i], index, y)
  {
    EarliestIsLeast(Opens(qs, ms, index));
    CriterionIsExact(qs, ms, index, i);
  }

  /** Some criterion is at its floor exactly from the opening on. */
  lemma OpensExactly(qs: seq<int>, ms: seq<Measure>, index: nat, y: real)
    requires WellDrawn(qs, ms, index) && WindowOf(qs, ms, index).Some?
    ensures WindowOf(qs, ms, index).value.opens <= y <==>
      exists i :: 0 <= i < |ms| && ReachesFloor(qs, ms[i], index, y)
  {
    var xs := Opens(qs, ms, index);
    EarliestIsLeast(xs);
    var opens := Earliest(xs).value;
    if opens <= y {
      var i :| 0 <= i < |ms| && xs[i] == Some(opens);
      CriterionIsExact(qs, ms, index, i);
      CurveRises(qs, ms[i].values, opens, y);
      assert ReachesFloor(qs, ms[i], index, y);
    } else {
      forall i | 0 <= i < |ms| ensures !ReachesFloor(qs, ms[i], index, y) {
        CriterionIsExact(qs, ms, index, i);
      }
    }
  }

  /** Every criterion is under its ceiling exactly before the close, and at most at it up to the close. */
  lemma ClosesExactly(qs: seq<int>, ms: seq<Measure>, index: nat, y: real)
    requires WellDrawn(qs, ms, index) && WindowOf(qs, ms, index).Some?
    ensures ShortOf(y, WindowOf(qs, ms, index).value.closes) <==>
      forall i :: 0 <= i < |ms| ==> BelowCeiling(qs, ms[i], index, y)
    ensures NotAfter(y, WindowOf(qs, ms, index).value.closes) ==>
      forall i :: 0 <= i < |ms| ==> WithinCeiling(qs, ms[i], index, y)
  {
    var xs := Closes(qs, ms, index);
    EarliestIsLeast(xs);
    var closes := Earliest(xs);
    if NotAfter(y, closes) {
      forall i | 0 <= i < |ms|
        ensures WithinCeiling(qs, ms[i], index, y)
        ensures ShortOf(y, closes) ==> BelowCeiling(qs, ms[i], index, y)
      {
        CriterionIsExact(qs, ms, index, i);
        if xs[i].Some? {
          CurveRises(qs, ms[i].values, y, xs[i].value);
        }
      }
    }
    if !ShortOf(y, closes) {
      var i :| 0 <= i < |ms| && xs[i] == closes;
      CriterionIsExact(qs, ms, index, i);
      CurveRises(qs, ms[i].values, closes.value, y);
      assert !BelowCeiling(qs, ms[i], index, y);
    }
  }

  /** Every window has room in it, all of it past the reference. */
  lemma WindowLiesAhead(qs: seq<int>, ms: seq<Measure>, index: nat)
    requires WellDrawn(qs, ms, index) && WindowOf(qs, ms, index).Some?
    ensures
      var w := WindowOf(qs, ms, index).value;
      qs[index] as real < w.opens && ShortOf(w.opens, w.closes)
  {
    var starts, ends := Opens(qs, ms, index), Closes(qs, ms, index);
    EarliestIsLeast(starts);
    EarliestIsLeast(ends);
    var i :| 0 <= i < |ms| && starts[i] == Earliest(starts);
    CriterionIsExact(qs, ms, index, i);
    if Earliest(ends).Some? {
      var j :| 0 <= j < |ms| && ends[j] == Earliest(ends);
      CriterionIsExact(qs, ms, index, j);
    }
  }

  // ---------- The window over the scenarios in hand ----------

  function Knots(done: map<int, Scenario>): (qs: seq<int>)
    ensures Ascending(qs) && |qs| == |done|
    ensures forall i :: 0 <= i < |qs| ==> qs[i] in done
    ensures forall q :: q in done ==> q in qs
  {
    Sorted(done.Keys)
  }

  function CurvesOf(bands: Bands, done: map<int, Scenario>): (ms: seq<Measure>)
    ensures Criteria(bands, ms) && forall i :: 0 <= i < 3 ==> |ms[i].values| == |done|
  {
    Measures(bands, ReadingsOf(done, Knots(done)))
  }

  function WindowAgainst(bands: Bands, done: map<int, Scenario>, refQ: int): Option<Window>
    requires refQ in done
  {
    WindowOf(Knots(done), CurvesOf(bands, done), IndexOf(Knots(done), refQ))
  }

  /** The readings the curves take at a discharge. */
  function ReadOff(qs: seq<int>, ms: seq<Measure>, y: real): Reading
    requires Ascending(qs) && |qs| >= 2 && |ms| == 3
    requires forall i :: 0 <= i < 3 ==> |ms[i].values| == |qs|
  {
    Reading(CurveAt(qs, ms[0].values, y), CurveAt(qs, ms[1].values, y), CurveAt(qs, ms[2].values, y))
  }

  /** The readings promised at any discharge by the scenarios in hand. */
  function Promised(bands: Bands, done: map<int, Scenario>, y: real): Reading
    requires |done| >= 2
  {
    ReadOff(Knots(done), CurvesOf(bands, done), y)
  }

  /** The verdict the curves promise for a trial at `y` against the reference. */
  function PromisedVerdict(bands: Bands, done: map<int, Scenario>, refQ: int, y: real): Verdict
    requires |done| >= 2
  {
    Judge(bands, Promised(bands, done, y), Promised(bands, done, refQ as real))
  }

  ghost predicate Wet(done: map<int, Scenario>) {
    forall q :: q in done ==> done[q].reading.area > 0.0
  }

  lemma MeasuresAreReadable(bands: Bands, qs: seq<int>, rs: seq<Reading>, index: nat)
    requires ProperBands(bands) && Ascending(qs) && |qs| == |rs| && |qs| >= 2
    requires index < |qs| && rs[index].area > 0.0
    ensures WellDrawn(qs, Measures(bands, rs), index)
  {
    RunningMaxRises(MaxDepths(rs));
    RunningMaxRises(MedianDepths(rs));
    RunningMaxRises(Areas(rs));
    RunningMaxIsMaximum(Areas(rs), index);
  }

  lemma CurvesAreReadable(bands: Bands, done: map<int, Scenario>, refQ: int)
    requires ProperBands(bands) && Wet(done) && |done| >= 2 && refQ in done
    ensures WellDrawn(Knots(done), CurvesOf(bands, done), IndexOf(Knots(done), refQ))
  {
    MeasuresAreReadable(bands, Knots(done), ReadingsOf(done, Knots(done)), IndexOf(Knots(done), refQ));
  }

  /** A percentage band read as an absolute target. */
  lemma PercentIsTarget(trial: real, base: real, percent: real)
    requires base > 0.0
    ensures (trial - base) / base * 100.0 <= percent <==> trial <= Target(true, base, percent)
    ensures percent <= (trial - base) / base * 100.0 <==> Target(true, base, percent) <= trial
  {
    var p := (trial - base) / base;
    assert p * base == trial - base;
    var r := percent / 100.0;
    assert Target(true, base, percent) == base + base * r;
    assert p <= r ==> p * base <= r * base;
    assert r <= p ==> r * base <= p * base;
    assert p < r ==> p * base < r * base;
    assert r < p ==> r * base < p * base;
  }

  /** The verdict on the curves, criterion by criterion. */
  lemma VerdictByCriterion(bands: Bands, qs: seq<int>, ms: seq<Measure>, index: nat, y: real)
    requires WellDrawn(qs, ms, index) && Criteria(bands, ms)
    ensures
      var verdict := Judge(bands, ReadOff(qs, ms, y), ReadOff(qs, ms, qs[index] as real));
      && (verdict == RejectHigh <==> exists i :: 0 <= i < 3 && !WithinCeiling(qs, ms[i], index, y))
      && (verdict == RejectLow ==> forall i :: 0 <= i < 3 ==> !ReachesFloor(qs, ms[i], index, y))
      && (verdict == Accept ==> exists i :: 0 <= i < 3 && ReachesFloor(qs, ms[i], index, y))
  {
    CurveAtKnot(qs, ms[0].values, index);
    CurveAtKnot(qs, ms[1].values, index);
    CurveAtKnot(qs, ms[2].values, index);
    var base, promised := ms[2].values[index], ReadOff(qs, ms, y);
    PercentIsTarget(promised.area, base, bands.area.floor);
    PercentIsTarget(promised.area, base, bands.area.ceiling);
    assert ReachesFloor(qs, ms[0], index, y) <==> bands.maxDepth.floor <= promised.maxDepth - ms[0].values[index];
    assert ReachesFloor(qs, ms[1], index, y) <==> bands.medianDepth.floor <= promised.medianDepth - ms[1].values[index];
    assert ReachesFloor(qs, ms[2], index, y) <==> Target(true, base, bands.area.floor) <= promised.area;
    assert WithinCeiling(qs, ms[0], index, y) <==> promised.maxDepth - ms[0].values[index] <= bands.maxDepth.ceiling;
    assert WithinCeiling(qs, ms[1], index, y) <==>
      promised.medianDepth - ms[1].values[index] <= bands.medianDepth.ceiling;
    assert WithinCeiling(qs, ms[2], index, y) <==> promised.area <= Target(true, base, bands.area.ceiling);
  }

  /** Window exactness: what the window says about any discharge, in terms of the promised verdict. */
  lemma WindowIsExact(bands: Bands, done: map<int, Scenario>, refQ: int, y: real)
    requires ProperBands(bands) && Wet(done) && |done| >= 2 && refQ in done
    ensures
      var verdict := PromisedVerdict(bands, done, refQ, y);
      match WindowAgainst(bands, done, refQ)
      case None => verdict == RejectLow
      case Some(w) =>
        && refQ as real < w.opens && ShortOf(w.opens, w.closes)
        && (verdict == RejectLow <==> y < w.opens)
        && (w.opens <= y && NotAfter(y, w.closes) ==> verdict == Accept)
        && (verdict == RejectHigh ==> !NotAfter(y, w.closes))
        && (verdict == Accept && StrictlyUnderCeilings(bands, done, refQ, y) ==> w.opens <= y && ShortOf(y, w.closes))
  {
    var qs, ms := Knots(done), CurvesOf(bands, done);
    var index := IndexOf(qs, refQ);
    CurvesAreReadable(bands, done, refQ);
    VerdictByCriterion(bands, qs, ms, index, y);
    if WindowAgainst(bands, done, refQ).None? {
      forall i | 0 <= i < 3
        ensures !ReachesFloor(qs, ms[i], index, y) && WithinCeiling(qs, ms[i], index, y)
      {
        NoWindowNoFloor(qs, ms, index, i, y);
        TargetsAscend(ms[i], ms[i].values[index]);
      }
    } else {
      WindowLiesAhead(qs, ms, index);
      OpensExactly(qs, ms, index, y);
      ClosesExactly(qs, ms, index, y);
    }
  }

  ghost predicate StrictlyUnderCeilings(bands: Bands, done: map<int, Scenario>, refQ: int, y: real)
    requires |done| >= 2 && refQ in done
  {
    var qs, ms := Knots(done), CurvesOf(bands, done);
    forall i :: 0 <= i < 3 ==> BelowCeiling(qs, ms[i], IndexOf(qs, refQ), y)
  }

  lemma MeasuresOfRising(bands: Bands, rs: seq<Reading>)
    requires forall i, j :: 0 <= i <= j < |rs| ==> NoLower(rs[i], rs[j])
    ensures
      var ms := Measures(bands, rs);
      ms[0].values == MaxDepths(rs) && ms[1].values == MedianDepths(rs) && ms[2].values == Areas(rs)
  {
    RunningMaxOfRising(MaxDepths(rs));
    RunningMaxOfRising(MedianDepths(rs));
    RunningMaxOfRising(Areas(rs));
  }

  lemma ReadOffAtKnot(qs: seq<int>, ms: seq<Measure>, index: nat, r: Reading)
    requires Ascending(qs) && |qs| >= 2 && index < |qs| && |ms| == 3
    requires forall i :: 0 <= i < 3 ==> |ms[i].values| == |qs|
    requires r == Reading(ms[0].values[index], ms[1].values[index], ms[2].values[index])
    ensures ReadOff(qs, ms, qs[index] as real) == r
  {
    CurveAtKnot(qs, ms[0].values, index);
    CurveAtKnot(qs, ms[1].values, index);
    CurveAtKnot(qs, ms[2].values, index);
  }

  lemma RisingReadOff(bands: Bands, qs: seq<int>, rs: seq<Reading>, index: nat)
    requires Ascending(qs) && |qs| == |rs| && |qs| >= 2 && index < |qs|
    requires forall i, j :: 0 <= i <= j < |rs| ==> NoLower(rs[i], rs[j])
    ensures ReadOff(qs, Measures(bands, rs), qs[index] as real) == rs[index]
  {
    MeasuresOfRising(bands, rs);
    ReadOffAtKnot(qs, Measures(bands, rs), index, rs[index]);
  }

  lemma KnotsRise(done: map<int, Scenario>)
    requires Rising(done)
    ensures
      var rs := ReadingsOf(done, Knots(done));
      forall i, j :: 0 <= i <= j < |rs| ==> NoLower(rs[i], rs[j])
  {
    hide Sorted;
    var qs := Knots(done);
    var rs := ReadingsOf(done, qs);
    forall i, j | 0 <= i <= j < |rs| ensures NoLower(rs[i], rs[j]) {
      var a, b := qs[i], qs[j];
      assert a in done && b in done && a <= b;
    }
  }

  /** At simulated discharges with rising readings, the curves promise what was read. */
  lemma PromisedAtKnots(bands: Bands, done: map<int, Scenario>, q: int)
    requires Rising(done) && |done| >= 2 && q in done
    ensures Promised(bands, done, q as real) == done[q].reading
  {
    var qs := Knots(done);
    var rs := ReadingsOf(done, qs);
    var index := IndexOf(qs, q);
    KnotsRise(done);
    RisingReadOff(bands, qs, rs, index);
  }

  /** So at simulated discharges the window speaks of the verdict actually measured. */
  lemma PromiseIsKept(bands: Bands, done: map<int, Scenario>, refQ: int, q: int)
    requires Rising(done) && |done| >= 2 && refQ in done && q in done
    ensures PromisedVerdict(bands, done, refQ, q as real) == Judge(bands, done[q].reading, done[refQ].reading)
  {
    PromisedAtKnots(bands, done, q);
    PromisedAtKnots(bands, done, refQ);
  }
}
