/** From a window of real discharges to one trial on the integer grid. */
module Proposals {
  import opened Readings
  import opened Curves
  import opened AcceptanceWindow

  datatype Inputs = Inputs(minQ: int, maxQ: int, delta: int, grid: int, bands: Bands)

  /** A trial; whether it is the top of the range, and whether it is the least step past the position. */
  datatype Proposal = Proposal(q: int, atMax: bool, finest: bool)

  // ---------- The discharge grid ----------

  function Ceiling(x: real): int {
    -((-x).Floor)
  }

  /** To the nearest whole number, halves to the even one. */
  function Round(x: real): int {
    var down := x.Floor;
    var part := x - down as real;
    if part < 0.5 || (part == 0.5 && down % 2 == 0) then down else down + 1
  }

  /** The lowest grid value not below `x`. */
  function GridCeiling(x: real, grid: int): int
    requires grid > 0
  {
    Ceiling(x / grid as real) * grid
  }

  /** The highest grid value not above `x`. */
  function GridFloor(x: real, grid: int): int
    requires grid > 0
  {
    (x / grid as real).Floor * grid
  }

  predicate OnGrid(q: int, grid: int)
    requires grid > 0
  {
    q % grid == 0
  }

  lemma MulSteps(d: int, a: int, b: int)
    requires d > 0
    ensures a < b ==> d * a + d <= d * b
  {
    if a < b {
      assert d * (a + 1) <= d * b;
    }
  }

  lemma MultipleOnGrid(k: int, grid: int)
    requires grid > 0
    ensures OnGrid(k * grid, grid)
  {
    var q, m := k * grid / grid, k * grid % grid;
    assert k * grid == grid * q + m;
    MulSteps(grid, q, k);
    MulSteps(grid, k, q);
  }

  lemma ScaleReal(lo: real, x: real, hi: real, grid: int)
    requires grid > 0 && lo <= x / grid as real < hi
    ensures lo * grid as real <= x < hi * grid as real
  {
    var g := grid as real;
    Undo(x, g);
    MulRises(g, lo, x / g);
    MulRises(g, x / g, hi);
  }

  lemma ProductAsReal(k: int, grid: int)
    ensures (k * grid) as real == k as real * grid as real
  {}

  lemma GridFloorBounds(x: real, grid: int)
    requires grid > 0
    ensures OnGrid(GridFloor(x, grid), grid)
    ensures GridFloor(x, grid) as real <= x < (GridFloor(x, grid) + grid) as real
  {
    var k := (x / grid as real).Floor;
    MultipleOnGrid(k, grid);
    ScaleReal(k as real, x, (k + 1) as real, grid);
    ProductAsReal(k, grid);
    ProductAsReal(k + 1, grid);
    assert (k + 1) * grid == k * grid + grid;
  }

  lemma GridCeilingBounds(x: real, grid: int)
    requires grid > 0
    ensures OnGrid(GridCeiling(x, grid), grid)
    ensures x <= GridCeiling(x, grid) as real < x + grid as real
  {
    var g := grid as real;
    GridFloorBounds(-x, grid);
    assert (-x) / g == -(x / g);
    var k := Ceiling(x / g);
    assert GridFloor(-x, grid) == -k * grid == -(k * grid);
    MultipleOnGrid(k, grid);
  }

  lemma GridSteps(a: int, b: int, grid: int)
    requires grid > 0 && OnGrid(a, grid) && OnGrid(b, grid)
    ensures OnGrid(a + grid, grid)
    ensures a < b ==> a + grid <= b
  {
    var i, j := a / grid, b / grid;
    assert a == grid * i && b == grid * j;
    assert a + grid == (i + 1) * grid;
    MultipleOnGrid(i + 1, grid);
    MulSteps(grid, i, j);
    MulSteps(grid, j, i);
  }

  // ---------- Placing the trial ----------

  function Larger(a: int, b: int): int {
    if a < b then b else a
  }

  function Smaller(a: int, b: int): int {
    if b < a then b else a
  }

  function LowestFit(grid: int, opens: real, refQ: int): int
    requires grid > 0
  {
    Larger(GridCeiling(opens, grid), refQ + grid)
  }

  /** The grid value aimed at, however high. */
  function Placed(grid: int, opens: real, closes: real, refQ: int, positionQ: int): int
    requires grid > 0
  {
    var lowest, highest := LowestFit(grid, opens, refQ), GridFloor(closes, grid);
    if lowest <= highest then
      var middle := Round((opens + closes) / 2.0 / grid as real) * grid;
      Smaller(Larger(middle, lowest), highest)
    else
      var under := GridCeiling(opens - grid as real, grid);
      if under <= positionQ then positionQ + grid else under
  }

  function Propose(inputs: Inputs, done: map<int, Scenario>, refQ: int, positionQ: int): Proposal
    requires inputs.grid > 0 && refQ in done
  {
    match WindowAgainst(inputs.bands, done, refQ)
    case None => Proposal(inputs.maxQ, true, false)
    case Some(w) =>
      if w.closes.None? then Proposal(inputs.maxQ, true, false)
      else
        var proposed := Placed(inputs.grid, w.opens, w.closes.value, refQ, positionQ);
        if proposed >= inputs.maxQ then Proposal(inputs.maxQ, true, false)
        else Proposal(proposed, false, proposed == positionQ + inputs.grid)
  }

  /** Wherever the window lies, the trial is ahead of the reference, and either inside the window,
      under it but past the position, or the very next grid step past the position. */
  lemma PlacedWhere(grid: int, opens: real, closes: real, refQ: int, positionQ: int)
    requires grid > 0 && refQ <= positionQ
    ensures
      var trial := Placed(grid, opens, closes, refQ, positionQ);
      && trial > refQ
      && (|| opens <= trial as real <= closes
          || (trial as real < opens && trial > positionQ)
          || trial == positionQ + grid)
  {
    GridCeilingBounds(opens, grid);
    GridFloorBounds(closes, grid);
    GridCeilingBounds(opens - grid as real, grid);
  }

  // ---------- Which grid value is chosen ----------

  function Distance(a: real, b: real): real {
    if a < b then b - a else a - b
  }

  lemma RoundIsNearest(x: real, n: int)
    ensures Distance(Round(x) as real, x) <= Distance(n as real, x)
    ensures n != Round(x) && Distance(n as real, x) == Distance(Round(x) as real, x) ==> Round(x) % 2 == 0
  {}

  lemma DistanceScales(a: real, b: real, g: real)
    requires g > 0.0
    ensures Distance(a * g, b * g) == g * Distance(a, b)
  {
    if a < b {
      MulRises(g, a, b);
      assert g * (b - a) == b * g - a * g;
    } else {
      MulRises(g, b, a);
      assert g * (a - b) == a * g - b * g;
    }
  }

  lemma StretchKeepsOrder(p: real, q: real, g: real)
    requires g > 0.0 && p <= q
    ensures g * p <= g * q && (g * p == g * q ==> p == q)
  {
    MulRises(g, p, q);
  }

  lemma DistanceOnGrid(n: int, x: real, grid: int)
    requires grid > 0
    ensures Distance((n * grid) as real, x) == grid as real * Distance(n as real, x / grid as real)
  {
    var g, y := grid as real, x / grid as real;
    Undo(x, g);
    ProductAsReal(n, grid);
    DistanceScales(n as real, y, g);
    hide Distance;
  }

  lemma NearerOnGrid(m: int, n: int, x: real, grid: int)
    requires grid > 0 && Distance(m as real, x / grid as real) <= Distance(n as real, x / grid as real)
    ensures Distance((m * grid) as real, x) <= Distance((n * grid) as real, x)
    ensures Distance((m * grid) as real, x) == Distance((n * grid) as real, x) ==>
      Distance(m as real, x / grid as real) == Distance(n as real, x / grid as real)
  {
    hide Distance;
    DistanceOnGrid(m, x, grid);
    DistanceOnGrid(n, x, grid);
    StretchKeepsOrder(Distance(m as real, x / grid as real), Distance(n as real, x / grid as real), grid as real);
  }

  /** Of all grid values the rounded one is nearest; of two equally near the even multiple. */
  lemma NearestMultiple(x: real, grid: int, n: int)
    requires grid > 0
    ensures
      var m := Round(x / grid as real);
      && Distance((m * grid) as real, x) <= Distance((n * grid) as real, x)
      && (n != m && Distance((n * grid) as real, x) == Distance((m * grid) as real, x) ==> m % 2 == 0)
  {
    hide Distance, Round;
    RoundIsNearest(x / grid as real, n);
    NearerOnGrid(Round(x / grid as real), n, x, grid);
  }

  lemma GridMultiple(k: int, grid: int)
    requires grid > 0 && OnGrid(k, grid)
    ensures k == k / grid * grid
  {}

  lemma MultipleOf(m: int, grid: int)
    requires grid > 0
    ensures m * grid / grid == m
  {
    var k := m * grid / grid;
    MultipleOnGrid(m, grid);
    GridMultiple(m * grid, grid);
    MulSteps(grid, k, m);
    MulSteps(grid, m, k);
  }

  /** A grid value at least one step past the reference, inside the window. */
  predicate Fits(grid: int, opens: real, closes: real, refQ: int, k: int)
    requires grid > 0
  {
    OnGrid(k, grid) && refQ + grid <= k && opens <= k as real <= closes
  }

  /** Keeping a value between two bounds keeps it nearest to what it was nearest to. */
  lemma ClampedIsNearest(middle: int, lowest: int, highest: int, k: int, x: real)
    requires lowest <= k <= highest && Distance(middle as real, x) <= Distance(k as real, x)
    ensures
      var trial := Smaller(Larger(middle, lowest), highest);
      && Distance(trial as real, x) <= Distance(k as real, x)
      && (trial != middle && trial != k ==> Distance(trial as real, x) < Distance(k as real, x))
  {}

  /** Whenever grid values fit, the trial is in the window too, and none of them is nearer to its middle; of two equally
      near ones it is the even multiple. When none fits it is the largest grid value below the window, or the next one
      past the position if that is taken. */
  lemma PlacedNearest(grid: int, opens: real, closes: real, refQ: int, positionQ: int)
    requires grid > 0
    ensures
      var trial, middle := Placed(grid, opens, closes, refQ, positionQ), (opens + closes) / 2.0;
      forall k :: Fits(grid, opens, closes, refQ, k) ==>
        && refQ + grid <= trial && opens <= trial as real <= closes
        && Distance(trial as real, middle) <= Distance(k as real, middle)
        && (k != trial && Distance(k as real, middle) == Distance(trial as real, middle) ==>
              OnGrid(trial, grid) && trial / grid % 2 == 0)
    ensures (forall k :: !Fits(grid, opens, closes, refQ, k)) ==>
      var under := GridCeiling(opens - grid as real, grid);
      Placed(grid, opens, closes, refQ, positionQ) == if under > positionQ then under else positionQ + grid
  {
    var lowest, highest := LowestFit(grid, opens, refQ), GridFloor(closes, grid);
    var trial, x := Placed(grid, opens, closes, refQ, positionQ), (opens + closes) / 2.0;
    var m := Round(x / grid as real);
    LowestAndHighest(grid, opens, closes, refQ);
    MultipleOnGrid(m, grid);
    MultipleOf(m, grid);
    hide Round, GridFloor, GridCeiling, LowestFit, Distance, OnGrid;
    forall k | Fits(grid, opens, closes, refQ, k)
      ensures Distance(trial as real, x) <= Distance(k as real, x)
      ensures k != trial && Distance(k as real, x) == Distance(trial as real, x) ==> OnGrid(trial, grid) && trial / grid % 2 == 0
    {
      GridMultiple(k, grid);
      NearestMultiple(x, grid, k / grid);
      ClampedIsNearest(m * grid, lowest, highest, k, x);
    }
  }

  /** What fits lies between the lowest fit and the highest grid value; and if those do not cross, the latter fits. */
  lemma LowestAndHighest(grid: int, opens: real, closes: real, refQ: int)
    requires grid > 0
    ensures
      var lowest, highest := LowestFit(grid, opens, refQ), GridFloor(closes, grid);
      && opens <= lowest as real && highest as real <= closes && refQ + grid <= lowest
      && (forall k :: Fits(grid, opens, closes, refQ, k) ==> lowest <= k <= highest)
      && (lowest <= highest ==> Fits(grid, opens, closes, refQ, highest))
  {
    var first, highest := GridCeiling(opens, grid), GridFloor(closes, grid);
    GridCeilingBounds(opens, grid);
    GridFloorBounds(closes, grid);
    forall k | Fits(grid, opens, closes, refQ, k) ensures first <= k <= highest {
      GridSteps(k, first, grid);
      GridSteps(highest, k, grid);
    }
  }

  /** With the reference on the grid below the window, whatever grid value is in the window fits, and so does the trial. */
  lemma PlacedOnGrid(grid: int, opens: real, closes: real, refQ: int, positionQ: int)
    requires grid > 0 && OnGrid(refQ, grid) && refQ as real < opens
    ensures
      var trial, middle := Placed(grid, opens, closes, refQ, positionQ), (opens + closes) / 2.0;
      var under := GridCeiling(opens - grid as real, grid);
      if exists k :: OnGrid(k, grid) && opens <= k as real <= closes
      then OnGrid(trial, grid) && opens <= trial as real <= closes
        && forall k :: OnGrid(k, grid) && opens <= k as real <= closes ==>
             Distance(trial as real, middle) <= Distance(k as real, middle)
      else trial == if under > positionQ then under else positionQ + grid
    ensures
      var under := GridCeiling(opens - grid as real, grid);
      && OnGrid(under, grid) && under as real < opens
      && forall k :: OnGrid(k, grid) && k as real < opens ==> k <= under
  {
    hide Placed, GridCeiling, Distance, Fits, OnGrid;
    LargestBelow(grid, opens);
    PlacedNearest(grid, opens, closes, refQ, positionQ);
    forall k ensures Fits(grid, opens, closes, refQ, k) <==> OnGrid(k, grid) && opens <= k as real <= closes {
      FitsAboveReference(grid, opens, closes, refQ, k);
    }
    if k :| Fits(grid, opens, closes, refQ, k) {
      PlacedKeepsGrid(grid, opens, closes, refQ, positionQ, k);
    }
  }

  lemma FitsAboveReference(grid: int, opens: real, closes: real, refQ: int, k: int)
    requires grid > 0 && OnGrid(refQ, grid) && refQ as real < opens
    ensures Fits(grid, opens, closes, refQ, k) <==> OnGrid(k, grid) && opens <= k as real <= closes
  {
    if OnGrid(k, grid) {
      GridSteps(refQ, k, grid);
    }
  }

  lemma LargestBelow(grid: int, opens: real)
    requires grid > 0
    ensures
      var under := GridCeiling(opens - grid as real, grid);
      && OnGrid(under, grid) && under as real < opens
      && forall k :: OnGrid(k, grid) && k as real < opens ==> k <= under
  {
    var under := GridCeiling(opens - grid as real, grid);
    GridCeilingBounds(opens - grid as real, grid);
    hide GridCeiling;
    forall k | OnGrid(k, grid) && k as real < opens ensures k <= under {
      GridSteps(under, k, grid);
    }
  }

  lemma PlacedKeepsGrid(grid: int, opens: real, closes: real, refQ: int, positionQ: int, k: int)
    requires grid > 0 && OnGrid(refQ, grid) && Fits(grid, opens, closes, refQ, k)
    ensures OnGrid(Placed(grid, opens, closes, refQ, positionQ), grid)
  {
    LowestAndHighest(grid, opens, closes, refQ);
    GridCeilingBounds(opens, grid);
    GridFloorBounds(closes, grid);
    GridSteps(refQ, refQ, grid);
    MultipleOnGrid(Round((opens + closes) / 2.0 / grid as real), grid);
    hide Round, GridCeiling, GridFloor, OnGrid, Fits;
  }

  /** What a proposal means on the curves it was read from. */
  lemma ProposalMeaning(inputs: Inputs, done: map<int, Scenario>, refQ: int, positionQ: int)
    requires inputs.grid > 0 && ProperBands(inputs.bands) && Wet(done)
    requires |done| >= 2 && refQ in done && refQ <= positionQ
    ensures
      var p := Propose(inputs, done, refQ, positionQ);
      if p.atMax then
        && p.q == inputs.maxQ
        && (PromisedVerdict(inputs.bands, done, refQ, p.q as real) != RejectHigh || positionQ + inputs.grid >= inputs.maxQ)
      else
        && refQ < p.q < inputs.maxQ
        && (|| PromisedVerdict(inputs.bands, done, refQ, p.q as real) == Accept
            || (PromisedVerdict(inputs.bands, done, refQ, p.q as real) == RejectLow && p.q > positionQ)
            || (p.finest && p.q == positionQ + inputs.grid))
  {
    hide Judge, PromisedVerdict, WindowAgainst, Placed;
    var p := Propose(inputs, done, refQ, positionQ);
    WindowIsExact(inputs.bands, done, refQ, p.q as real);
    match WindowAgainst(inputs.bands, done, refQ)
    case None =>
    case Some(w) =>
      if w.closes.Some? {
        PlacedWhere(inputs.grid, w.opens, w.closes.value, refQ, positionQ);
      }
  }

  /** A proposal short of the maximum is the fitting grid value nearest the window's middle; it goes to the maximum instead
      only when the window reaches that far. */
  lemma ProposalIsNearest(inputs: Inputs, done: map<int, Scenario>, refQ: int, positionQ: int, k: int)
    requires inputs.grid > 0 && refQ in done
    requires
      var w := WindowAgainst(inputs.bands, done, refQ);
      w.Some? && w.value.closes.Some? && Fits(inputs.grid, w.value.opens, w.value.closes.value, refQ, k)
    ensures
      var w := WindowAgainst(inputs.bands, done, refQ).value;
      var p, middle := Propose(inputs, done, refQ, positionQ), (w.opens + w.closes.value) / 2.0;
      if p.atMax then p.q == inputs.maxQ && inputs.maxQ as real <= w.closes.value
      else w.opens <= p.q as real <= w.closes.value && Distance(p.q as real, middle) <= Distance(k as real, middle)
  {
    hide WindowAgainst, Placed, Distance, Fits;
    var w := WindowAgainst(inputs.bands, done, refQ).value;
    PlacedNearest(inputs.grid, w.opens, w.closes.value, refQ, positionQ);
  }

  /** A trial is called the finest exactly when it is the next grid step past the position, short of the maximum. */
  lemma FinestIsNextStep(inputs: Inputs, done: map<int, Scenario>, refQ: int, positionQ: int)
    requires inputs.grid > 0 && refQ in done
    ensures
      var p := Propose(inputs, done, refQ, positionQ);
      && (p.finest <==> !p.atMax && p.q == positionQ + inputs.grid)
      && (p.atMax <==> p.q == inputs.maxQ)
  {
    hide WindowAgainst, Placed;
  }
}
