/** Response curves: piecewise linear through what was simulated, and straight on past the top. */
module Curves {
  import opened Wrappers

  ghost predicate Ascending(qs: seq<int>) {
    forall i, j :: 0 <= i < j < |qs| ==> qs[i] < qs[j]
  }

  ghost predicate NonDecreasing(vs: seq<real>) {
    forall i, j :: 0 <= i <= j < |vs| ==> vs[i] <= vs[j]
  }

  /** A curve is drawn through at least two points and never falls. */
  ghost predicate IsCurve(qs: seq<int>, vs: seq<real>) {
    |qs| == |vs| >= 2 && Ascending(qs) && NonDecreasing(vs)
  }

  // ---------- The running maximum ----------

  function Max(a: real, b: real): real {
    if a < b then b else a
  }

  function RunningMax(values: seq<real>): (out: seq<real>)
    ensures |out| == |values|
  {
    if |values| <= 1 then values
    else
      var front := RunningMax(values[..|values| - 1]);
      front + [Max(front[|front| - 1], values[|values| - 1])]
  }

  method Monotone(values: seq<real>) returns (out: seq<real>)
    ensures out == RunningMax(values)
  {
    out := [];
    var high: Option<real> := None; // nothing read yet: minus infinity
    for i := 0 to |values|
      invariant out == RunningMax(values[..i])
      invariant high == if i == 0 then None else Some(out[i - 1])
    {
      high := Some(if high.None? then values[i] else Max(high.value, values[i]));
      out := out + [high.value];
      assert values[..i + 1][..i] == values[..i];
    }
    assert values[..|values|] == values;
  }

  /** Each entry is the maximum of the readings up to it. */
  lemma {:induction false} RunningMaxIsMaximum(values: seq<real>, i: nat)
    requires i < |values|
    ensures RunningMax(values)[i] in values[..i + 1]
    ensures forall j :: 0 <= j <= i ==> values[j] <= RunningMax(values)[i]
  {
    if |values| > 1 {
      var n := |values| - 1;
      var front := values[..n];
      RunningMaxIsMaximum(front, if i < n then i else n - 1);
      if i < n {
        assert front[..i + 1] == values[..i + 1];
      } else {
        assert forall j :: 0 <= j < n ==> values[j] == front[j];
        assert front[..n] == front;
        assert values[..i + 1] == front + [values[n]];
      }
    }
  }

  /** So the curve never falls, whatever was read. */
  lemma RunningMaxRises(values: seq<real>)
    ensures NonDecreasing(RunningMax(values))
  {
    var out := RunningMax(values);
    forall i, j | 0 <= i <= j < |out| ensures out[i] <= out[j] {
      RunningMaxIsMaximum(values, i);
      RunningMaxIsMaximum(values, j);
      var k :| 0 <= k < i + 1 && values[..i + 1][k] == out[i];
      assert values[k] == out[i];
    }
  }

  /** Readings that already rise are read as they are. */
  lemma {:induction false} RunningMaxOfRising(values: seq<real>)
    requires NonDecreasing(values)
    ensures RunningMax(values) == values
  {
    if |values| > 1 {
      var n := |values| - 1;
      RunningMaxOfRising(values[..n]);
      assert values == values[..n] + [values[n]];
    }
  }

  // ---------- Where a curve reaches a target ----------

  /** Where the straight segment between two points meets `target`. */
  function Interpolated(q0: int, v0: real, q1: int, v1: real, target: real): real
    requires v0 < v1
  {
    var span := (target - v0) / (v1 - v0);
    q0 as real + (q1 - q0) as real * span
  }

  function Slope(q0: int, v0: real, q1: int, v1: real): real
    requires q0 < q1
  {
    (v1 - v0) / (q1 - q0) as real
  }

  /** Where the last segment, carried on above its upper end, meets `target`. */
  function Extrapolated(q0: int, v0: real, q1: int, v1: real, target: real): real
    requires q0 < q1 && Slope(q0, v0, q1, v1) > 0.0
  {
    q1 as real + (target - v1) / Slope(q0, v0, q1, v1)
  }

  /** The first rising segment that spans `target` solves for it; failing that, the line past the top does. */
  function Crossing(qs: seq<int>, vs: seq<real>, target: real): Option<real>
    requires |qs| == |vs| && Ascending(qs)
  {
    if |qs| < 2 then None
    else if vs[1] > vs[0] && vs[0] <= target <= vs[1] then
      Some(Interpolated(qs[0], vs[0], qs[1], vs[1], target))
    else if |qs| > 2 then Crossing(qs[1..], vs[1..], target)
    else if target <= vs[1] then None
    else if Slope(qs[0], vs[0], qs[1], vs[1]) <= 0.0 then None
    else Some(Extrapolated(qs[0], vs[0], qs[1], vs[1], target))
  }

  // ---------- The curve itself ----------

  function Line(q0: int, v0: real, q1: int, v1: real, x: real): real
    requires q0 < q1
  {
    v0 + (v1 - v0) * ((x - q0 as real) / (q1 - q0) as real)
  }

  /** The response the curve promises at any discharge. */
  function CurveAt(qs: seq<int>, vs: seq<real>, x: real): real
    requires |qs| == |vs| >= 2 && Ascending(qs)
  {
    if |qs| == 2 || x <= qs[1] as real then Line(qs[0], vs[0], qs[1], vs[1], x)
    else CurveAt(qs[1..], vs[1..], x)
  }

  lemma Cancel(d: real, s: real)
    requires d != 0.0
    ensures d * s / d == s
  {}

  lemma Undo(a: real, d: real)
    requires d != 0.0
    ensures d * (a / d) == a && a / d * d == a
  {}

  lemma LineEnds(q0: int, v0: real, q1: int, v1: real)
    requires q0 < q1
    ensures Line(q0, v0, q1, v1, q0 as real) == v0
    ensures Line(q0, v0, q1, v1, q1 as real) == v1
  {
    Cancel((q1 - q0) as real, 1.0);
  }

  lemma DivRises(x: real, y: real, d: real)
    requires d > 0.0 && x <= y
    ensures x / d <= y / d
    ensures x < y ==> x / d < y / d
  {}

  lemma MulRises(rise: real, s: real, t: real)
    requires rise >= 0.0 && s <= t
    ensures rise * s <= rise * t
    ensures rise > 0.0 && s < t ==> rise * s < rise * t
  {}

  lemma LineRises(q0: int, v0: real, q1: int, v1: real, x: real, y: real)
    requires q0 < q1 && v0 <= v1 && x <= y
    ensures Line(q0, v0, q1, v1, x) <= Line(q0, v0, q1, v1, y)
    ensures v0 < v1 && x < y ==> Line(q0, v0, q1, v1, x) < Line(q0, v0, q1, v1, y)
  {
    var width := (q1 - q0) as real;
    DivRises(x - q0 as real, y - q0 as real, width);
    MulRises(v1 - v0, (x - q0 as real) / width, (y - q0 as real) / width);
  }

  lemma SlopeSign(q0: int, v0: real, q1: int, v1: real)
    requires q0 < q1
    ensures Slope(q0, v0, q1, v1) > 0.0 <==> v0 < v1
  {
    Undo(v1 - v0, (q1 - q0) as real);
  }

  /** A point that far along the segment's width is that far up its rise. */
  lemma LineAtShare(q0: int, v0: real, q1: int, v1: real, share: real, gain: real, x: real)
    requires q0 < q1 && x - q0 as real == (q1 - q0) as real * share && (v1 - v0) * share == gain
    ensures Line(q0, v0, q1, v1, x) == v0 + gain
  {
    var width := (q1 - q0) as real;
    Cancel(width, share);
    var along := (x - q0 as real) / width;
    assert along == share;
    assert Line(q0, v0, q1, v1, x) == v0 + (v1 - v0) * along;
  }

  lemma FlatLine(q0: int, v0: real, q1: int, x: real)
    requires q0 < q1
    ensures Line(q0, v0, q1, v0, x) == v0
  {}

  /** Both solutions are the point where the line takes the value `target`. */
  lemma LineSolved(q0: int, v0: real, q1: int, v1: real, target: real)
    requires q0 < q1 && v0 < v1
    ensures Line(q0, v0, q1, v1, Interpolated(q0, v0, q1, v1, target)) == target
  {
    var span := (target - v0) / (v1 - v0);
    Undo(target - v0, v1 - v0);
    LineAtShare(q0, v0, q1, v1, span, target - v0, Interpolated(q0, v0, q1, v1, target));
  }

  lemma SlopeSolved(q0: int, v0: real, q1: int, v1: real, target: real)
    requires q0 < q1 && v0 < v1 && Slope(q0, v0, q1, v1) > 0.0
    ensures Line(q0, v0, q1, v1, Extrapolated(q0, v0, q1, v1, target)) == target
  {
    var width, slope := (q1 - q0) as real, Slope(q0, v0, q1, v1);
    var rise, excess := v1 - v0, target - v1;
    var beyond := excess / slope;
    var share := (width + beyond) / width;
    assert slope * width == rise by { Undo(rise, width); }
    assert beyond * slope == excess by { Undo(excess, slope); }
    assert share * width == width + beyond by { Undo(width + beyond, width); }
    ExtrapolatedShare(width, rise, slope, beyond, share, excess);
    var x := Extrapolated(q0, v0, q1, v1, target);
    assert x - q0 as real == width * share;
    LineAtShare(q0, v0, q1, v1, share, rise + excess, x);
  }

  lemma ExtrapolatedShare(width: real, rise: real, slope: real, beyond: real, share: real, excess: real)
    requires slope * width == rise && share * width == width + beyond && beyond * slope == excess
    ensures rise * share == rise + excess
  {
    calc {
      rise * share;
      slope * width * share;
      slope * (share * width);
      slope * (width + beyond);
      rise + beyond * slope;
    }
  }

  /** The curve passes through every simulated point. */
  lemma {:induction false} CurveAtKnot(qs: seq<int>, vs: seq<real>, i: nat)
    requires |qs| == |vs| >= 2 && Ascending(qs) && i < |qs|
    ensures CurveAt(qs, vs, qs[i] as real) == vs[i]
  {
    LineEnds(qs[0], vs[0], qs[1], vs[1]);
    if i > 1 {
      CurveAtKnot(qs[1..], vs[1..], i - 1);
    }
  }

  lemma {:induction false} CurveRises(qs: seq<int>, vs: seq<real>, x: real, y: real)
    requires IsCurve(qs, vs) && x <= y
    ensures CurveAt(qs, vs, x) <= CurveAt(qs, vs, y)
  {
    var q0, q1 := qs[0] as real, qs[1] as real;
    if |qs| == 2 || y <= q1 {
      LineRises(qs[0], vs[0], qs[1], vs[1], x, y);
    } else if x <= q1 {
      LineRises(qs[0], vs[0], qs[1], vs[1], x, q1);
      LineEnds(qs[0], vs[0], qs[1], vs[1]);
      CurveAtKnot(qs[1..], vs[1..], 0);
      CurveRises(qs[1..], vs[1..], q1, y);
    } else {
      CurveRises(qs[1..], vs[1..], x, y);
    }
  }

  /** No discharge below `at` gets to `target`, and `at` does; absent when no discharge does. */
  ghost predicate FirstReach(qs: seq<int>, vs: seq<real>, target: real, at: Option<real>)
    requires |qs| == |vs| >= 2 && Ascending(qs)
  {
    match at
    case None => forall y: real :: CurveAt(qs, vs, y) < target
    case Some(x) => CurveAt(qs, vs, x) == target && forall y: real :: y < x ==> CurveAt(qs, vs, y) < target
  }

  /** Above the first reading the search is exact. */
  lemma {:induction false} CrossingIsFirstReach(qs: seq<int>, vs: seq<real>, target: real)
    requires IsCurve(qs, vs) && target > vs[0]
    ensures FirstReach(qs, vs, target, Crossing(qs, vs, target))
    ensures Crossing(qs, vs, target).Some? ==> Crossing(qs, vs, target).value > qs[0] as real
  {
    var q0, q1 := qs[0] as real, qs[1] as real;
    LineEnds(qs[0], vs[0], qs[1], vs[1]);
    SlopeSign(qs[0], vs[0], qs[1], vs[1]);
    if target <= vs[1] || (|qs| == 2 && vs[0] < vs[1]) {
      RisingSegment(qs, vs, target);
    } else if |qs| == 2 {
      forall y: real ensures CurveAt(qs, vs, y) < target {
        FlatLine(qs[0], vs[0], qs[1], y);
      }
    } else {
      CrossingIsFirstReach(qs[1..], vs[1..], target);
      CurveAtKnot(qs, vs, 1);
      forall y: real | y <= q1 ensures CurveAt(qs, vs, y) < target {
        CurveRises(qs, vs, y, q1);
      }
    }
  }

  /** What the search returns when the target lies on the first segment or its continuation. */
  lemma CrossingOnSegment(qs: seq<int>, vs: seq<real>, target: real) returns (x: real)
    requires IsCurve(qs, vs) && target > vs[0] && vs[0] < vs[1]
    requires target <= vs[1] || |qs| == 2
    ensures Crossing(qs, vs, target) == Some(x)
    ensures Line(qs[0], vs[0], qs[1], vs[1], x) == target
  {
    SlopeSign(qs[0], vs[0], qs[1], vs[1]);
    if target <= vs[1] {
      x := Interpolated(qs[0], vs[0], qs[1], vs[1], target);
      LineSolved(qs[0], vs[0], qs[1], vs[1], target);
    } else {
      x := Extrapolated(qs[0], vs[0], qs[1], vs[1], target);
      SlopeSolved(qs[0], vs[0], qs[1], vs[1], target);
    }
  }

  lemma RisingSegment(qs: seq<int>, vs: seq<real>, target: real)
    requires IsCurve(qs, vs) && target > vs[0] && vs[0] < vs[1]
    requires target <= vs[1] || |qs| == 2
    ensures FirstReach(qs, vs, target, Crossing(qs, vs, target))
    ensures Crossing(qs, vs, target).Some? && Crossing(qs, vs, target).value > qs[0] as real
  {
    var q0, q1 := qs[0] as real, qs[1] as real;
    var x := CrossingOnSegment(qs, vs, target);
    LineEnds(qs[0], vs[0], qs[1], vs[1]);
    if x <= q0 {
      LineRises(qs[0], vs[0], qs[1], vs[1], x, q0);
    }
    if x > q1 {
      LineRises(qs[0], vs[0], qs[1], vs[1], q1, x);
    }
    forall y: real | y < x ensures CurveAt(qs, vs, y) < target {
      LineRises(qs[0], vs[0], qs[1], vs[1], y, x);
    }
  }
}
