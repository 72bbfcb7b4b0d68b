/** The job: load, tag, coast, lakes, merge, finalize, and the manifest's validators. */
module Pipeline {
  import opened Wrappers
  import opened Reaches
  import opened Pointers
  import opened Explode
  import opened ExplodeProofs
  import opened Tagging
  import opened Counters
  import C = Coastal
  import L = Lakes
  import opened Chains
  import opened Grow
  import opened Build
  import opened Merge
  import opened MergeAgain
  import opened MergeTwice
  import opened NaturalOrder
  import opened Stages
  import opened StageProofs

  /** Repeated ids are an error; otherwise one row per part. The input count is taken before any part is split off. */
  method LoadReachNetwork(inp: RunInputs) returns (loaded: Option<seq<Reach>>, counters: NetworkCounters)
    requires Readable(Flowpaths(inp.features))
    ensures fresh(counters) && counters.Recorded() == AfterLoad(inp)
    ensures loaded.Some? <==> UniqueSources(Sources(inp))
    ensures loaded.Some? ==> loaded.value == Exploded(Sources(inp))
  {
    hide Sources, Exploded;
    SourcesReadable(inp);
    counters := new NetworkCounters();
    var gdf := Sources(inp);
    counters.input := Some(|inp.features|);
    if inp.streamOrder.Some? {
      counters.belowStreamOrder := Some(|inp.features| - |gdf|);
    }
    loaded := None;
    if UniqueSources(gdf) {
      var rows := ExplodeMultipart(gdf);
      loaded := Some(rows);
    }
  }

  method FinalizeNetwork(rows: seq<Reach>, counters: NetworkCounters) returns (out: seq<Reach>, ghost order: seq<nat>)
    modifies counters`output, counters`headwaters, counters`terminals
    ensures Ordered(rows, order, out)
    ensures counters.output == Some(|out|)
    ensures counters.headwaters == Some(Count(HeadwaterMask(out)))
    ensures counters.terminals == Some(Count(TerminalMask(out)))
  {
    hide Distinct, Listed, InIdOrder, Count;
    var positions := SortPositions(IdsOf(rows));
    order := positions;
    out := seq(|positions|, k requires 0 <= k < |positions| => rows[positions[k]]);
    counters.output := Some(|out|);
    counters.headwaters := Some(Count(HeadwaterMask(out)));
    counters.terminals := Some(Count(TerminalMask(out)));
  }

  /** Repeated ids stop the load; counters that fail a validator stop the manifest, before anything is copied. */
  datatype RunOutcome =
    | Unavailable
    | Rejected(properties: Properties)
    | Wrote(rows: seq<Reach>, properties: Properties, ambiguous: set<Id>)

  method CoastStep(inp: RunInputs, gdf: seq<Reach>, counters: NetworkCounters) returns (out: seq<Reach>, touched: set<Id>)
    requires ValidInputs(inp) && UniqueIds(gdf) && gdf == BeforeCoast(inp)
    modifies counters
    ensures out == BeforeLakes(inp) && counters.Recorded() == WithCoast(inp, old(counters.Recorded()))
    ensures touched == CoastTouched(inp)
  {
    hide UniqueIds, BeforeCoast, Count, C.AfterCoast, C.Survivors, C.Dropped, C.Cascaded, C.Trims, C.Encompassed;
    out, touched := gdf, {};
    if inp.coast.Some? {
      out, touched := C.ApplyCoastal(gdf, inp.coast.value(gdf), counters);
    }
  }

  method LakeStep(inp: RunInputs, gdf: seq<Reach>, counters: NetworkCounters) returns (out: seq<Reach>, touched: set<Id>)
    requires ValidInputs(inp) && gdf == BeforeLakes(inp)
    modifies counters
    ensures out == BeforeMerge(inp) && counters.Recorded() == WithLakes(inp, old(counters.Recorded()))
    ensures touched == LakeTouched(inp)
  {
    hide BeforeLakes, Count, L.KindMask, L.OrphanMask, L.Standing, L.AfterLakes, L.TouchedByLakes;
    out, touched := gdf, {};
    if inp.lakes.Some? {
      out, touched := L.ApplyLakes(gdf, inp.lakes.value.classify(gdf), inp.lakes.value.ids, counters);
    }
  }

  // ---------- The run ----------

  /** Load and tag. */
  method LoadAndTag(inp: RunInputs) returns (gdf: Option<seq<Reach>>, counters: NetworkCounters)
    requires ValidInputs(inp)
    ensures fresh(counters) && counters.Recorded() == AfterLoad(inp)
    ensures gdf.Some? <==> UniqueSources(Sources(inp))
    ensures gdf.Some? ==> gdf.value == BeforeCoast(inp)
  {
    hide Sources, TerminalsTagged, HeadwatersTagged, Exploded;
    gdf, counters := LoadReachNetwork(inp);
    if gdf.Some? {
      var rows := TagTerminalReaches(gdf.value);
      rows := TagHeadwaterReaches(rows);
      gdf := Some(rows);
    }
  }

  lemma TextOrder(inp: RunInputs, rows: seq<Reach>)
    requires ValidInputs(inp) && UniqueIds(rows)
    ensures Lists(inp.byText(rows), |rows|)
  {
    hide UniqueIds;
  }

  /** Merge and put in order. */
  method MergeAndFinalize(inp: RunInputs, gdf: seq<Reach>, counters: NetworkCounters, ghost rank: Option<seq<nat>>)
    returns (out: seq<Reach>, ghost run: Trace, ghost merged: seq<Reach>, ghost order: seq<nat>)
    requires ValidInputs(inp) && gdf == BeforeMerge(inp) && UniqueIds(gdf)
    requires rank.Some? ==> Ranked(Topology(gdf), rank.value)
    modifies counters
    ensures Published(inp, run.chains, run.head, merged, order, out)
    ensures MergeRun(gdf, inp.byText(gdf), inp.thresholds, inp.join, run, merged)
    ensures rank.Some? ==> CanonicalMerge(gdf, inp.thresholds, rank.value, inp.join, run.chains, run.head, merged)
    ensures counters.Recorded() == Finished(old(counters.Recorded()), run.head, out)
  {
    hide UniqueIds, BeforeMerge, Merged, Ordered, Lists, Topology, Count, LabelOf, Canonical, Worthwhile, Path, Ranked,
         ValidInputs, AbsorbedMask, Timed, Traversed;
    assert Lists(inp.byText(gdf), |gdf|) by { TextOrder(inp, gdf); }
    var rows;
    rows, run := MergeShortReaches(gdf, inp.byText(gdf), inp.thresholds, inp.join, counters, rank);
    merged := rows;
    out, order := FinalizeNetwork(rows, counters);
  }

  /** The three validators a manifest passes before anything is copied. */
  predicate Accepted(inp: RunInputs, p: Properties) {
    && SkippedStepsAreAllOrNothing(p) && CountersReconcile(p)
    && SkipCoherence(inp.lakes.Some?, inp.coast.Some?, inp.lakes.Some?, inp.coast.Some?, inp.lakes.Some?, p)
  }

  ghost predicate OnePartEach(sources: seq<Source>) {
    forall i :: 0 <= i < |sources| ==> |sources[i].parts| == 1
  }

  /** The run. Coast comes before lakes, so that a reach both would claim is the coast's; each is skipped when its
      dataset is absent. It publishes exactly when ids are unique and no reach was read in several parts; its pointers
      are sound exactly when the lakes met the contact assumption. */
  method ModifyNetwork(inp: RunInputs)
    returns (r: RunOutcome, ghost run: Trace, ghost merged: seq<Reach>, ghost order: seq<nat>)
    requires ValidInputs(inp)
    ensures r.Unavailable? <==> !UniqueSources(Sources(inp))
    ensures r.Wrote? <==> UniqueSources(Sources(inp)) && OnePartEach(Sources(inp))
    ensures r.Wrote? ==> Published(inp, run.chains, run.head, merged, order, r.rows) && r.properties == FinalCounters(inp, run.head, r.rows)
    ensures r.Wrote? ==> r.ambiguous == Ambiguous(inp) && (NoDangling(r.rows) <==> ContactHolds(inp))
    ensures r.Rejected? ==>
      exists out :: Published(inp, run.chains, run.head, merged, order, out) && r.properties == FinalCounters(inp, run.head, out)
    ensures r.Wrote? && AcyclicSources(Sources(inp)) ==> (Sound(r.rows) <==> ContactHolds(inp))
    ensures !r.Unavailable? ==>
      MergeRun(BeforeMerge(inp), inp.byText(BeforeMerge(inp)), inp.thresholds, inp.join, run, merged)
    ensures !r.Unavailable? && AcyclicSources(Sources(inp)) ==>
      exists rank :: CanonicalMerge(BeforeMerge(inp), inp.thresholds, rank, inp.join, run.chains, run.head, merged)
  {
    hide UniqueIds, BeforeCoast, BeforeLakes, BeforeMerge, Sources, UniqueSources, WithCoast, WithLakes, Published,
         CanonicalMerge, Ranked, Acyclic, AfterLoad, Finished, ValidInputs, ContactHolds, Sound, NoDangling, AcyclicSources,
         CoastTouched, LakeTouched, Accepted, MergeRun;
    run, merged, order := Trace([], 0, [], []), [], [];
    var loaded, counters := LoadAndTag(inp);
    if loaded.None? {
      return Unavailable, run, merged, order;
    }
    IdsStayApart(inp);
    var gdf := loaded.value;
    var coastTouched, lakeTouched: set<Id>;
    gdf, coastTouched := CoastStep(inp, gdf, counters);
    gdf, lakeTouched := LakeStep(inp, gdf, counters);
    ghost var rank := RankIfAcyclic(gdf);
    gdf, run, merged, order := MergeAndFinalize(inp, gdf, counters, rank);
    var properties := counters.Recorded();
    RunIsJudged(inp, run.chains, run.head, merged, order, gdf);
    if !Accepted(inp, properties) {
      return Rejected(properties), run, merged, order;
    }
    r := Wrote(gdf, properties, coastTouched * lakeTouched);
  }

  lemma RunIsJudged(inp: RunInputs, chains: seq<seq<nat>>, head: seq<nat>, merged: seq<Reach>, order: seq<nat>, out: seq<Reach>)
    requires ValidInputs(inp) && UniqueSources(Sources(inp)) && Published(inp, chains, head, merged, order, out)
    ensures Accepted(inp, FinalCounters(inp, head, out)) <==> OnePartEach(Sources(inp))
    ensures NoDangling(out) <==> ContactHolds(inp)
    ensures AcyclicSources(Sources(inp)) ==> Acyclic(BeforeMerge(inp)) && (Sound(out) <==> ContactHolds(inp))
  {
    hide Sources, Published, NoDangling, Sound, ContactHolds, Acyclic, AcyclicSources, BeforeMerge, FinalCounters,
         SkippedStepsAreAllOrNothing, CountersReconcile, SkipCoherence, UniqueSources;
    SkipsAlwaysCohere(inp, head, out);
    BalancedIffNothingSplitOff(inp, chains, head, merged, order, out);
    PublishedPointers(inp, chains, head, merged, order, out);
    if AcyclicSources(Sources(inp)) {
      assert WellRead(Sources(inp)) by { SourcesReadable(inp); Wrap(Sources(inp)); }
      StagesAcyclic(inp);
      PublishedIsSound(inp, chains, head, merged, order, out);
    }
  }

  lemma Wrap(sources: seq<Source>)
    requires Readable(sources) && UniqueSources(sources)
    ensures WellRead(sources)
  {}

  /** Merging what a run merged once more, with the same thresholds, would change nothing. */
  lemma NothingLeftToMerge(inp: RunInputs, run: Trace, merged: seq<Reach>, again: Trace, out: seq<Reach>)
    requires ValidInputs(inp) && Adds(inp.join)
    requires MergeRun(BeforeMerge(inp), inp.byText(BeforeMerge(inp)), inp.thresholds, inp.join, run, merged)
    requires MergeRun(merged, inp.byText(merged), inp.thresholds, inp.join, again, out)
    ensures out == merged && Count(AbsorbedMask(again.head)) == 0
  {
    var rows := BeforeMerge(inp);
    hide Merged, Timed, Traversed, UniqueIds, BeforeMerge, InTextOrder, Adds, Topology;
    MergeIsIdempotent(rows, inp.byText(rows), inp.thresholds, inp.join, run, merged, inp.byText(merged), again, out, inp.textBefore);
  }
}
