/** Scenario readings and the verdict one scenario gets against another. */
module Readings {
  import opened Wrappers

  /** [min, max] increase between two consecutive library entries. */
  datatype Band = Band(floor: real, ceiling: real)

  /** Depths step by metres, the area by percent of what the reference flooded. */
  datatype Bands = Bands(maxDepth: Band, medianDepth: Band, area: Band)

  datatype Reading = Reading(maxDepth: real, medianDepth: real, area: real)

  datatype Scenario = Scenario(q: int, reading: Reading)

  datatype Verdict = Accept | RejectLow | RejectHigh

  datatype Comparison = Comparison(
    reference: Option<int>,
    trial: int,
    maxDepthIncrease: real,
    medianDepthIncrease: real,
    areaPercentIncrease: real,
    verdict: Verdict
  )

  function AreaPercentIncrease(trial: Reading, reference: Reading): real {
    if reference.area > 0.0 then (trial.area - reference.area) / reference.area * 100.0 else 0.0
  }

  /** One excess is enough to reject, and without any, one sufficient increase is enough to accept. */
  function Judge(bands: Bands, trial: Reading, reference: Reading): Verdict {
    var maxDepth := trial.maxDepth - reference.maxDepth;
    var medianDepth := trial.medianDepth - reference.medianDepth;
    var area := AreaPercentIncrease(trial, reference);
    if maxDepth > bands.maxDepth.ceiling || medianDepth > bands.medianDepth.ceiling || area > bands.area.ceiling then
      RejectHigh
    else if bands.maxDepth.floor <= maxDepth || bands.medianDepth.floor <= medianDepth || bands.area.floor <= area then
      Accept
    else
      RejectLow
  }

  /** The baseline has no reference and is accepted as it comes. */
  function Compare(bands: Bands, trial: Scenario, reference: Option<Scenario>): Comparison {
    match reference
    case None => Comparison(None, trial.q, 0.0, 0.0, 0.0, Accept)
    case Some(r) =>
      Comparison(
        Some(r.q), trial.q,
        trial.reading.maxDepth - r.reading.maxDepth,
        trial.reading.medianDepth - r.reading.medianDepth,
        AreaPercentIncrease(trial.reading, r.reading),
        Judge(bands, trial.reading, r.reading))
  }

  /** Floors are positive and below their ceilings. */
  predicate Proper(band: Band) {
    0.0 < band.floor < band.ceiling
  }

  predicate ProperBands(bands: Bands) {
    Proper(bands.maxDepth) && Proper(bands.medianDepth) && Proper(bands.area)
  }

  predicate NoLower(a: Reading, b: Reading) {
    a.maxDepth <= b.maxDepth && a.medianDepth <= b.medianDepth && a.area <= b.area
  }

  /** No scenario in hand reads lower, in anything, than one at a smaller discharge. */
  ghost predicate Rising(done: map<int, Scenario>) {
    forall a, b :: a in done && b in done && a <= b ==> NoLower(done[a].reading, done[b].reading)
  }

  datatype Criterion = MaxDepth | MedianDepth | Area

  function Value(c: Criterion, r: Reading): real {
    match c
    case MaxDepth => r.maxDepth
    case MedianDepth => r.medianDepth
    case Area => r.area
  }

  ghost predicate RisesIn(done: map<int, Scenario>, c: Criterion) {
    forall a, b :: a in done && b in done && a <= b ==> Value(c, done[a].reading) <= Value(c, done[b].reading)
  }

  ghost predicate FallsIn(done: map<int, Scenario>, c: Criterion) {
    forall a, b :: a in done && b in done && a <= b ==> Value(c, done[b].reading) <= Value(c, done[a].reading)
  }

  /** Each criterion goes one way with discharge: median depth may fall as water spreads over shallow ground. */
  ghost predicate Steady(done: map<int, Scenario>) {
    forall c :: RisesIn(done, c) || FallsIn(done, c)
  }

  lemma PercentRises(a: real, b: real, base: real)
    requires a <= b && base > 0.0
    ensures (a - base) / base * 100.0 <= (b - base) / base * 100.0
  {
    assert (a - base) / base <= (b - base) / base;
  }

  /** A higher reading can only move the verdict from too low, through accept, to too high. */
  lemma {:induction false} VerdictRises(bands: Bands, a: Reading, b: Reading, reference: Reading)
    requires NoLower(a, b)
    ensures Judge(bands, a, reference) == RejectHigh ==> Judge(bands, b, reference) == RejectHigh
    ensures Judge(bands, b, reference) == RejectLow ==> Judge(bands, a, reference) == RejectLow
  {
    if reference.area > 0.0 {
      PercentRises(a.area, b.area, reference.area);
    }
  }

  function BandOf(bands: Bands, c: Criterion): Band {
    match c
    case MaxDepth => bands.maxDepth
    case MedianDepth => bands.medianDepth
    case Area => bands.area
  }

  function Increase(comparison: Comparison, c: Criterion): real {
    match c
    case MaxDepth => comparison.maxDepthIncrease
    case MedianDepth => comparison.medianDepthIncrease
    case Area => comparison.areaPercentIncrease
  }

  lemma PercentUndone(base: real, value: real)
    requires base > 0.0
    ensures base * (1.0 + (value - base) / base * 100.0 / 100.0) == value
  {
    assert base * ((value - base) / base) == value - base;
  }

  /** The reported increases lead from the reference's readings to the trial's: depths by adding, the area by so many percent,
      none of a dry reference. The verdict is read off them: too high if and only if some criterion is over its ceiling,
      accept if and only if none is and some is at its floor or over it. */
  lemma ComparisonReads(bands: Bands, trial: Scenario, reference: Scenario)
    ensures
      var c := Compare(bands, trial, Some(reference));
      && c.reference == Some(reference.q) && c.trial == trial.q
      && reference.reading.maxDepth + Increase(c, MaxDepth) == trial.reading.maxDepth
      && reference.reading.medianDepth + Increase(c, MedianDepth) == trial.reading.medianDepth
      && (if reference.reading.area > 0.0 then reference.reading.area * (1.0 + Increase(c, Area) / 100.0) == trial.reading.area
          else Increase(c, Area) == 0.0)
      && (c.verdict == RejectHigh <==> exists k :: Increase(c, k) > BandOf(bands, k).ceiling)
      && (c.verdict == Accept <==>
           (forall k :: Increase(c, k) <= BandOf(bands, k).ceiling) && exists k :: BandOf(bands, k).floor <= Increase(c, k))
  {
    var c := Compare(bands, trial, Some(reference));
    if reference.reading.area > 0.0 {
      PercentUndone(reference.reading.area, trial.reading.area);
    }
    OneOfThree(k => Increase(c, k) > BandOf(bands, k).ceiling);
    OneOfThree(k => BandOf(bands, k).floor <= Increase(c, k));
  }

  lemma OneOfThree(holds: Criterion -> bool)
    ensures (exists k :: holds(k)) <==> holds(MaxDepth) || holds(MedianDepth) || holds(Area)
  {
    forall k | holds(k) ensures holds(MaxDepth) || holds(MedianDepth) || holds(Area) {
      match k
      case MaxDepth =>
      case MedianDepth =>
      case Area =>
    }
  }

  /** A scenario judged against itself never steps too far. */
  lemma SelfIsNeverHigh(bands: Bands, r: Reading)
    requires ProperBands(bands)
    ensures Judge(bands, r, r) == RejectLow
  {}
}
