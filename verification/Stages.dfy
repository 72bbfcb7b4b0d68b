/** The rows and counters of a run, stage by stage: load, tag, coast, lakes, merge, order. */
module Stages {
  import opened Wrappers
  import opened Reaches
  import opened Explode
  import opened Tagging
  import opened Counters
  import C = Coastal
  import L = Lakes
  import opened Chains
  import opened Build
  import opened Merge
  import opened NaturalOrder

  datatype Feature = Feature(flowpath: Source, streamOrder: int)

  /** A lakes dataset: the polygons' lake ids, and how reaches meet them. */
  datatype LakeLayer = LakeLayer(ids: seq<Option<string>>, classify: seq<Reach> -> seq<L.Meeting>)

  /** What a run is given; a dataset not supplied is absent. */
  datatype RunInputs = RunInputs(
    features: seq<Feature>,
    streamOrder: Option<int>,
    coast: Option<seq<Reach> -> seq<C.Shape>>,
    lakes: Option<LakeLayer>,
    thresholds: Thresholds,
    join: seq<Reach> -> real,
    textBefore: (Id, Id) -> bool,
    byText: seq<Reach> -> seq<nat>
  )

  function Flowpaths(features: seq<Feature>): (sources: seq<Source>)
    ensures |sources| == |features| && forall i :: 0 <= i < |features| ==> sources[i] == features[i].flowpath
  {
    seq(|features|, i requires 0 <= i < |features| => features[i].flowpath)
  }

  ghost predicate ValidInputs(inp: RunInputs) {
    && Readable(Flowpaths(inp.features))
    && (inp.coast.Some? ==> forall rows :: |inp.coast.value(rows)| == |rows|)
    && (inp.lakes.Some? ==> forall rows :: L.WellClassified(rows, inp.lakes.value.classify(rows), inp.lakes.value.ids))
    && OneWay(inp.textBefore)
    && forall rows :: UniqueIds(rows) ==> InTextOrder(rows, inp.byText(rows), inp.textBefore)
  }

  // ---------- Loading ----------

  function Passing(inp: RunInputs): (mask: seq<bool>)
    ensures |mask| == |inp.features|
    ensures inp.streamOrder.None? ==> forall i :: 0 <= i < |mask| ==> mask[i]
  {
    seq(|inp.features|, i requires 0 <= i < |inp.features| =>
      inp.streamOrder.None? || inp.features[i].streamOrder >= inp.streamOrder.value)
  }

  /** The stream-order filter, pushed down to the read; no threshold, no filter. */
  function Sources(inp: RunInputs): (sources: seq<Source>)
    ensures |sources| <= |inp.features|
    ensures inp.streamOrder.None? ==> |sources| == |inp.features|
  {
    PositionsCount(Passing(inp));
    assert inp.streamOrder.None? ==> |Positions(Passing(inp))| == |Passing(inp)| by {
      if inp.streamOrder.None? {
        PositionsAll(Passing(inp));
      }
    }
    Select(Flowpaths(inp.features), Passing(inp))
  }

  /** With a threshold the network is read from exactly the features at it or above it, in their order, and the counter says
      how many lay below. */
  lemma SourcesByStreamOrder(inp: RunInputs) returns (at: seq<nat>)
    ensures |at| == |Sources(inp)| && forall j, k :: 0 <= j < k < |at| ==> at[j] < at[k]
    ensures forall k :: 0 <= k < |at| ==> at[k] < |inp.features| && Sources(inp)[k] == inp.features[at[k]].flowpath
    ensures forall i: nat :: i < |inp.features| ==>
      (Listed(at, i) <==> inp.streamOrder.Some? ==> inp.streamOrder.value <= inp.features[i].streamOrder)
    ensures AfterLoad(inp).belowStreamOrder ==
      match inp.streamOrder
      case None => None
      case Some(least) => Some(|set i: nat | i < |inp.features| && inp.features[i].streamOrder < least|)
  {
    var mask := Passing(inp);
    at := Positions(mask);
    forall i: nat | i < |inp.features| && mask[i] ensures Listed(at, i) {
      PositionsComplete(mask, i);
    }
    if inp.streamOrder.Some? {
      PositionsCount(mask);
      CountIsSize(Not(mask), set i: nat | i < |inp.features| && inp.features[i].streamOrder < inp.streamOrder.value);
    }
  }

  lemma SourcesReadable(inp: RunInputs)
    requires Readable(Flowpaths(inp.features))
    ensures Readable(Sources(inp))
  {}

  function AfterLoad(inp: RunInputs): Properties {
    Properties(Some(|inp.features|), if inp.streamOrder.Some? then Some(|inp.features| - |Sources(inp)|) else None,
               None, None, None, None, None, None, None, None, None, None, None, None, None, None)
  }

  // ---------- Finalizing ----------

  function IdsOf(rows: seq<Reach>): (ids: seq<Id>)
    ensures |ids| == |rows| && forall k :: 0 <= k < |rows| ==> ids[k] == rows[k].id
  {
    seq(|rows|, k requires 0 <= k < |rows| => rows[k].id)
  }

  function HeadwaterMask(rows: seq<Reach>): (mask: seq<bool>)
    ensures |mask| == |rows| && forall k :: 0 <= k < |rows| ==> mask[k] == rows[k].headwater
  {
    seq(|rows|, k requires 0 <= k < |rows| => rows[k].headwater)
  }

  function TerminalMask(rows: seq<Reach>): (mask: seq<bool>)
    ensures |mask| == |rows| && forall k :: 0 <= k < |rows| ==> mask[k] == rows[k].terminal
  {
    seq(|rows|, k requires 0 <= k < |rows| => rows[k].terminal)
  }

  /** The final counts are of the rows written. */
  lemma {:induction false} FinalCounts(out: seq<Reach>)
    ensures Count(HeadwaterMask(out)) == |set k: nat | k < |out| && out[k].headwater|
    ensures Count(TerminalMask(out)) == |set k: nat | k < |out| && out[k].terminal|
  {
    CountIsSize(HeadwaterMask(out), set k: nat | k < |out| && out[k].headwater);
    CountIsSize(TerminalMask(out), set k: nat | k < |out| && out[k].terminal);
  }

  /** The same rows, in natural order of their ids. */
  ghost predicate Ordered(rows: seq<Reach>, order: seq<nat>, out: seq<Reach>) {
    && Lists(order, |rows|) && |out| == |order|
    && (forall k :: 0 <= k < |out| ==> out[k] == rows[order[k]])
    && InIdOrder(IdsOf(rows), order)
  }

  // ---------- The stages ----------

  function AtLoad(inp: RunInputs): seq<Reach> {
    Exploded(Sources(inp))
  }

  function BeforeCoast(inp: RunInputs): seq<Reach> {
    Tagged(AtLoad(inp))
  }

  function Shapes(inp: RunInputs): (shapes: seq<C.Shape>)
    requires ValidInputs(inp) && inp.coast.Some?
    ensures |shapes| == |BeforeCoast(inp)|
  {
    inp.coast.value(BeforeCoast(inp))
  }

  ghost function BeforeLakes(inp: RunInputs): seq<Reach>
    requires ValidInputs(inp)
  {
    if inp.coast.Some? then C.AfterCoast(BeforeCoast(inp), Shapes(inp)) else BeforeCoast(inp)
  }

  ghost function Meetings(inp: RunInputs): (meetings: seq<L.Meeting>)
    requires ValidInputs(inp) && inp.lakes.Some?
    ensures L.WellClassified(BeforeLakes(inp), meetings, inp.lakes.value.ids)
  {
    inp.lakes.value.classify(BeforeLakes(inp))
  }

  ghost function BeforeMerge(inp: RunInputs): seq<Reach>
    requires ValidInputs(inp)
  {
    if inp.lakes.Some? then L.AfterLakes(BeforeLakes(inp), Meetings(inp), inp.lakes.value.ids) else BeforeLakes(inp)
  }

  /** The counters of the coastal pass, all null when it is skipped. */
  ghost function WithCoast(inp: RunInputs, p: Properties): Properties
    requires ValidInputs(inp)
  {
    if inp.coast.None? then p
    else
      var rows, shapes := BeforeCoast(inp), Shapes(inp);
      p.(encompassedCoastal := Some(Count(C.EncompassedMask(shapes))),
         coastalCascade := Some(Count(C.CascadeMask(rows, shapes))),
         trimmedCoastal := Some(Count(C.TrimMask(rows, shapes))),
         strandedCoastal := Some(Count(C.StrandedMask(C.Survivors(rows, shapes)))))
  }

  ghost function WithLakes(inp: RunInputs, p: Properties): Properties
    requires ValidInputs(inp)
  {
    if inp.lakes.None? then p
    else
      var rows, meetings, ids := BeforeLakes(inp), Meetings(inp), inp.lakes.value.ids;
      p.(encompassedLake := Some(Count(L.KindMask(rows, meetings, ids, L.Swallowed))),
         trimmedInletLake := Some(Count(L.KindMask(rows, meetings, ids, L.Enters))),
         trimmedOutletLake := Some(Count(L.KindMask(rows, meetings, ids, L.Leaves))),
         splitPassthroughLake := Some(Count(L.KindMask(rows, meetings, ids, L.Through))),
         trimmedBetweenLakes := Some(Count(L.KindMask(rows, meetings, ids, L.Between))),
         orphanedLake := Some(Count(L.OrphanMask(L.Standing(rows, meetings, ids)))))
  }

  ghost function Finished(p: Properties, head: seq<nat>, out: seq<Reach>): Properties {
    p.(merged := Some(Count(AbsorbedMask(head))), output := Some(|out|),
       headwaters := Some(Count(HeadwaterMask(out))), terminals := Some(Count(TerminalMask(out))))
  }

  ghost function FinalCounters(inp: RunInputs, head: seq<nat>, out: seq<Reach>): Properties
    requires ValidInputs(inp)
  {
    Finished(WithLakes(inp, WithCoast(inp, AfterLoad(inp))), head, out)
  }

  /** What a run merged, and the order it published the result in. */
  ghost predicate Published(inp: RunInputs, chains: seq<seq<nat>>, head: seq<nat>, merged: seq<Reach>, order: seq<nat>,
        out: seq<Reach>)
    requires ValidInputs(inp)
  {
    Merged(BeforeMerge(inp), inp.join, chains, head, merged) && Ordered(merged, order, out)
  }

  /** The coastal pass's own list: reaches it trimmed and left, under the ids they had. */
  ghost function CoastTouched(inp: RunInputs): set<Id>
    requires ValidInputs(inp)
  {
    if inp.coast.None? then {}
    else set i: nat | i < |BeforeCoast(inp)| && C.TrimMask(BeforeCoast(inp), Shapes(inp))[i] :: BeforeCoast(inp)[i].id
  }

  /** The lake pass's own list, under the ids it gave. */
  ghost function LakeTouched(inp: RunInputs): set<Id>
    requires ValidInputs(inp)
  {
    if inp.lakes.None? then {} else L.TouchedByLakes(BeforeLakes(inp), Meetings(inp), inp.lakes.value.ids)
  }

  /** Ids on both lists: what a run warns of. A reach a lake split is on them under different ids, so it is not here. */
  ghost function Ambiguous(inp: RunInputs): set<Id>
    requires ValidInputs(inp)
  {
    CoastTouched(inp) * LakeTouched(inp)
  }
}
