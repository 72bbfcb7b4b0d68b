/** What every run keeps, from the features read to the rows published. */
module StageProofs {
  import opened Wrappers
  import opened Reaches
  import opened Pointers
  import opened Explode
  import opened ExplodeProofs
  import opened Tagging
  import opened Counters
  import C = Coastal
  import L = Lakes
  import LP = LakeProofs
  import opened Chains
  import opened Build
  import opened Merge
  import opened MergeProofs
  import opened NaturalOrder
  import opened Stages

  // ---------- Ids never collide ----------

  lemma LoadedIsUntagged(inp: RunInputs)
    ensures Untagged(AtLoad(inp))
  {
    hide Sources, Cells;
  }

  /** Through splits and suffixes of suffixes, no id is ever another one or its beginning. */
  lemma IdsStayApart(inp: RunInputs)
    requires ValidInputs(inp) && UniqueSources(Sources(inp))
    ensures PrefixFree(AtLoad(inp)) && PrefixFree(BeforeCoast(inp))
    ensures PrefixFree(BeforeLakes(inp)) && PrefixFree(BeforeMerge(inp))
    ensures UniqueIds(AtLoad(inp)) && UniqueIds(BeforeCoast(inp))
    ensures UniqueIds(BeforeLakes(inp)) && UniqueIds(BeforeMerge(inp))
  {
    hide PrefixFree, UniqueIds, Sources, Exploded, Tagged, C.AfterCoast, L.AfterLakes, L.WellClassified, Untagged, UniqueSources;
    SourcesReadable(inp);
    ExplodedIsPrefixFree(Sources(inp));
    LoadedIsUntagged(inp);
    TaggingFixesPointers(AtLoad(inp));
    if inp.coast.Some? {
      C.CoastKeepsIdsApart(BeforeCoast(inp), Shapes(inp));
    }
    if inp.lakes.Some? {
      LP.LakesKeepIdsApart(BeforeLakes(inp), Meetings(inp), inp.lakes.value.ids);
    }
    PrefixFreeIsUnique(AtLoad(inp));
    PrefixFreeIsUnique(BeforeCoast(inp));
    PrefixFreeIsUnique(BeforeLakes(inp));
    PrefixFreeIsUnique(BeforeMerge(inp));
  }

  lemma RankIfAcyclic(rows: seq<Reach>) returns (rank: Option<seq<nat>>)
    ensures rank.Some? <==> Acyclic(rows)
    ensures rank.Some? ==> Ranked(Topology(rows), rank.value)
  {
    hide Topology;
    rank := None;
    if fall :| Falls(rows, fall) {
      assert forall i :: 0 <= i < |rows| ==> rows[i] in rows;
      rank := Some(seq(|rows|, i requires 0 <= i < |rows| => fall[rows[i].id]));
      forall i | 0 <= i < |rows| && Topology(rows)[i] >= 0 ensures rank.value[Topology(rows)[i]] < rank.value[i] {
        PointerFound(rows, i);
      }
    }
  }

  // ---------- The invariant through the stages ----------

  /** Flags agree with pointers at every stage, and before the lakes no pointer dangles, whatever was read. */
  lemma StagesCoherent(inp: RunInputs)
    requires ValidInputs(inp) && UniqueSources(Sources(inp))
    ensures AllCoherent(BeforeLakes(inp)) && NoDangling(BeforeLakes(inp)) && AllCoherent(BeforeMerge(inp))
  {
    hide PrefixFree, UniqueIds, Sources, Exploded, Tagged, L.AfterLakes, L.WellClassified, Untagged, UniqueSources, NoDangling,
         Coherent, AtLoad;
    IdsStayApart(inp);
    LoadedIsUntagged(inp);
    TaggingFixesPointers(AtLoad(inp));
    if inp.coast.Some? {
      CoastCoherent(BeforeCoast(inp), Shapes(inp));
      C.NothingDangles(BeforeCoast(inp), Shapes(inp));
    }
    if inp.lakes.Some? {
      LakesCoherent(BeforeLakes(inp), Meetings(inp), inp.lakes.value.ids);
    }
  }

  lemma CoastCoherent(rows: seq<Reach>, shapes: seq<C.Shape>)
    requires |shapes| == |rows| && AllCoherent(rows)
    ensures AllCoherent(C.AfterCoast(rows, shapes))
  {
    hide C.Dropped, C.AfterCoast, C.Survivors;
    var out := C.AfterCoast(rows, shapes);
    forall r | r in out ensures Coherent(r) {
      var k :| 0 <= k < |out| && out[k] == r;
      C.SurvivorRow(rows, shapes, k);
      assert rows[Positions(C.Survives(rows, shapes))[k]] in rows;
    }
  }

  lemma LakesCoherent(rows: seq<Reach>, meetings: seq<L.Meeting>, lakes: seq<Option<string>>)
    requires L.WellClassified(rows, meetings, lakes) && AllCoherent(rows)
    ensures AllCoherent(L.AfterLakes(rows, meetings, lakes))
  {
    hide L.Standing, Coherent, L.Orphan, L.Swept;
    LP.StandingCoherent(rows, meetings, lakes);
    LP.SweptRows(L.Standing(rows, meetings, lakes));
  }

  /** An acyclic hydrofabric stays acyclic at every stage, whatever the waterbodies. */
  lemma StagesAcyclic(inp: RunInputs)
    requires ValidInputs(inp) && WellRead(Sources(inp)) && AcyclicSources(Sources(inp))
    ensures Acyclic(BeforeCoast(inp)) && Acyclic(BeforeLakes(inp)) && Acyclic(BeforeMerge(inp))
  {
    hide PrefixFree, UniqueIds, Sources, Exploded, Tagged, L.WellClassified, Untagged, NoDangling, Acyclic,
         Coherent, WellRead, AcyclicSources, C.AfterCoast, L.AfterLakes;
    assert UniqueSources(Sources(inp)) by { Unwrap(Sources(inp)); }
    IdsStayApart(inp);
    StagesCoherent(inp);
    LoadedIsUntagged(inp);
    ExplodedIsAcyclic(Sources(inp));
    TaggingKeepsAcyclic(AtLoad(inp));
    TaggingFixesPointers(AtLoad(inp));
    if inp.coast.Some? {
      C.CoastKeepsSound(BeforeCoast(inp), Shapes(inp));
    }
    if inp.lakes.Some? {
      SweptAcyclic(BeforeLakes(inp), Meetings(inp), inp.lakes.value.ids);
    }
  }

  lemma Unwrap(sources: seq<Source>)
    requires WellRead(sources)
    ensures UniqueSources(sources)
  {}

  lemma SweptAcyclic(rows: seq<Reach>, meetings: seq<L.Meeting>, lakes: seq<Option<string>>)
    requires L.WellClassified(rows, meetings, lakes) && PrefixFree(rows) && NoDangling(rows) && Acyclic(rows)
    ensures Acyclic(L.AfterLakes(rows, meetings, lakes))
  {
    hide L.Standing, Falls, PrefixFree, NoDangling, L.Orphan, L.Swept;
    var standing := L.Standing(rows, meetings, lakes);
    LP.StandingAcyclic(rows, meetings, lakes);
    LP.SweptRows(standing);
    var rank :| Falls(standing, rank);
    PickedFalls(standing, L.Swept(standing), rank);
  }

  /** The lakes meet the network as the contact assumption says, or no lakes were supplied. */
  ghost predicate ContactHolds(inp: RunInputs)
    requires ValidInputs(inp)
  {
    inp.lakes.Some? ==> LP.LakeContact(BeforeLakes(inp), Meetings(inp), inp.lakes.value.ids)
  }

  lemma PointersBeforeMerge(inp: RunInputs)
    requires ValidInputs(inp) && UniqueSources(Sources(inp))
    ensures NoDangling(BeforeMerge(inp)) <==> ContactHolds(inp)
  {
    hide PrefixFree, UniqueIds, Sources, L.WellClassified, UniqueSources, NoDangling, AllCoherent, BeforeLakes, LP.LakeContact,
         L.AfterLakes;
    IdsStayApart(inp);
    StagesCoherent(inp);
    if inp.lakes.Some? {
      LP.PointersSoundIffContact(BeforeLakes(inp), Meetings(inp), inp.lakes.value.ids);
    }
  }

  // ---------- Merging neither hides a dangling pointer nor makes one ----------

  lemma MergeKeepsDangling(rows: seq<Reach>, join: seq<Reach> -> real, chains: seq<seq<nat>>, head: seq<nat>, out: seq<Reach>)
    requires UniqueIds(rows) && Merged(rows, join, chains, head, out)
    ensures NoDangling(out) <==> NoDangling(rows)
  {
    hide Merged, Headed, UniqueIds, Topology;
    StartRows(rows, join, chains, head, out);
    HeadsFixed(rows, head, out);
    forall r | r in out && r.to.Some? && r.to.value !in Ids(out) ensures r.to.value !in Ids(rows) {
      AbsorbedAreUnreferenced(rows, join, chains, head, out, r);
    }
    OutIdsAreRowIds(rows, head, out);
    forall r | r in rows && r.to.Some? && r.to.value !in Ids(rows) ensures exists s :: s in out && s.to == r.to {
      var i :| 0 <= i < |rows| && rows[i] == r;
      DanglingStays(rows, head, out, i);
    }
    if NoDangling(rows) {
      forall r | r in out && r.to.Some? ensures r.to.value in Ids(out) {
        PointerOfResult(rows, head, out, r);
      }
    }
  }

  lemma OutIdsAreRowIds(rows: seq<Reach>, head: seq<nat>, out: seq<Reach>)
    requires Contracted(rows, head, out)
    ensures Ids(out) <= Ids(rows)
  {
    hide Headed, Repointed;
    forall r | r in out ensures r.id in Ids(rows) {
      var i := SurvivorOf(rows, head, out, r);
      assert rows[i] in rows;
    }
  }

  /** A row of the result points somewhere exactly as some input row did. */
  lemma PointerOfResult(rows: seq<Reach>, head: seq<nat>, out: seq<Reach>, r: Reach)
    requires Contracted(rows, head, out) && r in out && r.to.Some? && NoDangling(rows)
    ensures r.to.value in Ids(rows)
  {
    hide Topology;
    var i := SurvivorOf(rows, head, out, r);
    assert rows[i] in rows;
    PointerFound(rows, i);
    var d := Topology(rows)[i];
    if d >= 0 {
      assert rows[head[d]] in rows;
    }
  }

  lemma DanglingStays(rows: seq<Reach>, head: seq<nat>, out: seq<Reach>, i: nat)
    requires Contracted(rows, head, out) && i < |rows| && rows[i].to.Some? && rows[i].to.value !in Ids(rows)
    ensures exists s :: s in out && s.to == rows[i].to
  {
    hide Topology;
    PointerFound(rows, i);
    forall d | 0 <= d < |rows| ensures rows[i].to != Some(rows[d].id) {
      assert rows[d] in rows;
    }
    var k := StartStands(head, i);
    assert StartRow(rows, head, Kept(head)[k], out[k]);
    assert out[k] in out;
  }

  // ---------- Ordering changes nothing but the order ----------

  lemma OrderedRows(rows: seq<Reach>, order: seq<nat>, out: seq<Reach>)
    requires Ordered(rows, order, out)
    ensures |out| == |rows| && Ids(out) == Ids(rows) && forall r :: r in out <==> r in rows
  {
    hide InIdOrder;
    forall r | r in rows ensures r in out {
      var i :| 0 <= i < |rows| && rows[i] == r;
      assert Listed(order, i);
      var k :| 0 <= k < |order| && order[k] == i;
      assert out[k] == r;
    }
    ListsCount(order, |rows|);
  }

  lemma {:induction false} ListsCount(s: seq<nat>, n: nat)
    requires Lists(s, n)
    ensures |s| == n
  {
    var mask, none := Everything(n), seq(n, _ => false);
    NoneSet(none);
    PositionsAll(mask);
    PositionsCount(mask);
    CountFlips(none, mask, s);
  }

  lemma OrderedSound(rows: seq<Reach>, order: seq<nat>, out: seq<Reach>)
    requires Ordered(rows, order, out)
    ensures PrefixFree(rows) ==> PrefixFree(out)
    ensures NoDangling(out) <==> NoDangling(rows)
    ensures Sound(rows) ==> Sound(out)
  {
    hide Falls, Ordered, Coherent;
    OrderedRows(rows, order, out);
    if PrefixFree(rows) {
      OrderedPrefixFree(rows, order, out);
    }
    if rank :| Falls(rows, rank) {
      OrderedFalls(rows, out, rank);
    }
  }

  lemma OrderedPrefixFree(rows: seq<Reach>, order: seq<nat>, out: seq<Reach>)
    requires Ordered(rows, order, out) && PrefixFree(rows)
    ensures PrefixFree(out)
  {
    hide PrefixFree, InIdOrder, Listed;
    PickedPrefixFree(rows, out, order);
  }

  lemma OrderedFalls(rows: seq<Reach>, out: seq<Reach>, rank: map<Id, nat>)
    requires Falls(rows, rank) && Ids(out) == Ids(rows) && forall r :: r in out <==> r in rows
    ensures Falls(out, rank)
  {}

  /** The graph is the same graph. */
  lemma OrderedGraph(rows: seq<Reach>, order: seq<nat>, out: seq<Reach>)
    requires Ordered(rows, order, out) && PrefixFree(rows)
    ensures GraphOf(out) == GraphOf(rows)
  {
    hide Ordered, PrefixFree;
    OrderedRows(rows, order, out);
    OrderedPrefixFree(rows, order, out);
    PrefixFreeIsUnique(rows);
    PrefixFreeIsUnique(out);
    GraphRows(rows);
    GraphRows(out);
    var g, h := GraphOf(rows), GraphOf(out);
    forall a | a in g ensures a in h && h[a] == g[a] {
      var r :| r in rows && r.id == a;
      assert Next(g, a) == r.to && Next(h, a) == r.to;
    }
  }

  // ---------- What is published ----------

  /** Published pointers are sound exactly when the contact assumption holds; nothing else can break them. */
  lemma PublishedPointers(inp: RunInputs, chains: seq<seq<nat>>, head: seq<nat>, merged: seq<Reach>, order: seq<nat>,
        out: seq<Reach>)
    requires ValidInputs(inp) && UniqueSources(Sources(inp)) && Published(inp, chains, head, merged, order, out)
    ensures NoDangling(out) <==> ContactHolds(inp)
  {
    hide NoDangling, ContactHolds, Merged, BeforeMerge, UniqueIds, PrefixFree, Ordered, Sound, UniqueSources, Sources,
         ValidInputs;
    IdsStayApart(inp);
    PointersBeforeMerge(inp);
    MergeKeepsDangling(BeforeMerge(inp), inp.join, chains, head, merged);
    OrderedSound(merged, order, out);
  }

  /** Given an acyclic hydrofabric and the contact assumption, what is published keeps the whole invariant. */
  lemma PublishedIsSound(inp: RunInputs, chains: seq<seq<nat>>, head: seq<nat>, merged: seq<Reach>, order: seq<nat>,
        out: seq<Reach>)
    requires ValidInputs(inp) && WellRead(Sources(inp)) && AcyclicSources(Sources(inp))
    requires Published(inp, chains, head, merged, order, out)
    ensures Sound(out) <==> ContactHolds(inp)
  {
    hide NoDangling, ContactHolds, Merged, BeforeMerge, UniqueIds, PrefixFree, Ordered, Sources, ValidInputs, WellRead,
         AcyclicSources, AllCoherent, Acyclic, UniqueSources;
    assert UniqueSources(Sources(inp)) by { Unwrap(Sources(inp)); }
    PublishedPointers(inp, chains, head, merged, order, out);
    if ContactHolds(inp) {
      IdsStayApart(inp);
      StagesCoherent(inp);
      StagesAcyclic(inp);
      PointersBeforeMerge(inp);
      MergeKeepsSound(BeforeMerge(inp), inp.join, chains, head, merged);
      OrderedSound(merged, order, out);
    }
  }

  /** In the published order, everything minted from one id stands together. */
  lemma DescendantsStandTogether(rows: seq<Reach>, order: seq<nat>, out: seq<Reach>, p: Id, i: nat, j: nat, k: nat)
    requires Ordered(rows, order, out) && i < j < k < |out| && p <= out[i].id && p <= out[k].id
    ensures p <= out[j].id
  {
    hide Before, Distinct, Listed;
    assert IdsOf(rows)[order[i]] == out[i].id && IdsOf(rows)[order[j]] == out[j].id && IdsOf(rows)[order[k]] == out[k].id;
    DescendantsAreContiguous(p, out[i].id, out[j].id, out[k].id);
  }

  /** The published order depends on the ids alone. */
  lemma PublishedOrderIsTheIds(rows: seq<Reach>, order: seq<nat>, out: seq<Reach>,
                               otherRows: seq<Reach>, otherOrder: seq<nat>, other: seq<Reach>)
    requires Ordered(rows, order, out) && Ordered(otherRows, otherOrder, other)
    requires UniqueIds(rows) && UniqueIds(otherRows) && Ids(rows) == Ids(otherRows)
    ensures IdsOf(out) == IdsOf(other)
  {
    hide Ordered, UniqueIds, StrictlyAscending, Included;
    StrictOrder(rows, order, out);
    StrictOrder(otherRows, otherOrder, other);
    OrderedRows(rows, order, out);
    OrderedRows(otherRows, otherOrder, other);
    SameIdsIncluded(out, other);
    SameIdsIncluded(other, out);
    OneOrder(IdsOf(out), IdsOf(other));
  }

  lemma StrictOrder(rows: seq<Reach>, order: seq<nat>, out: seq<Reach>)
    requires Ordered(rows, order, out) && UniqueIds(rows)
    ensures StrictlyAscending(IdsOf(out))
  {
    hide Before, Listed;
    forall j, k | 0 <= j < k < |out| ensures Before(out[j].id, out[k].id) && out[j].id != out[k].id {
      assert order[j] != order[k];
    }
  }

  lemma SameIdsIncluded(rows: seq<Reach>, other: seq<Reach>)
    requires Ids(rows) == Ids(other)
    ensures Included(IdsOf(rows), IdsOf(other))
  {
    forall k | 0 <= k < |rows| ensures rows[k].id in IdsOf(other) {
      assert rows[k] in rows && rows[k].id in Ids(rows);
      var r :| r in other && r.id == rows[k].id;
      var j :| 0 <= j < |other| && other[j] == r;
      assert IdsOf(other)[j] == rows[k].id;
    }
  }

  lemma MergedPrefixFree(rows: seq<Reach>, join: seq<Reach> -> real, chains: seq<seq<nat>>, head: seq<nat>, out: seq<Reach>)
    requires PrefixFree(rows) && Merged(rows, join, chains, head, out)
    ensures PrefixFree(out) && |head| == |rows|
  {
    hide PrefixFree, Merged, Headed, Repointed;
    StartRows(rows, join, chains, head, out);
    PickedPrefixFree(rows, out, Kept(head));
  }

  // ---------- Lake references ----------

  lemma LoadedReferences(inp: RunInputs)
    requires ValidInputs(inp)
    ensures Referenced(BeforeLakes(inp))
  {
    hide Sources, C.Dropped, C.AfterCoast, C.Survivors;
    NoLakeYet(AtLoad(inp));
    if inp.coast.Some? {
      var rows, shapes := BeforeCoast(inp), Shapes(inp);
      var out := C.AfterCoast(rows, shapes);
      forall r | r in out && (r.lakeInlet || r.lakeOutlet) ensures r.lakeTo.Some? {
        var k :| 0 <= k < |out| && out[k] == r;
        C.SurvivorRow(rows, shapes, k);
        assert rows[Positions(C.Survives(rows, shapes))[k]] in rows;
      }
    }
  }

  lemma NoLakeYet(rows: seq<Reach>)
    requires forall i :: 0 <= i < |rows| ==> !rows[i].lakeInlet && !rows[i].lakeOutlet
    ensures Referenced(Tagged(rows))
  {}

  /** With identified lakes or none, every published inlet or outlet names its lake. */
  lemma PublishedReferences(inp: RunInputs, chains: seq<seq<nat>>, head: seq<nat>, merged: seq<Reach>, order: seq<nat>,
        out: seq<Reach>)
    requires ValidInputs(inp) && Published(inp, chains, head, merged, order, out)
    requires inp.lakes.Some? ==> LP.Identified(inp.lakes.value.ids)
    ensures Referenced(out)
  {
    hide Merged, Ordered, BeforeLakes, L.AfterLakes, LP.Identified, L.WellClassified;
    LoadedReferences(inp);
    if inp.lakes.Some? {
      LP.LakesGiveReferences(BeforeLakes(inp), Meetings(inp), inp.lakes.value.ids);
    }
    MergeKeepsReferences(BeforeMerge(inp), inp.join, chains, head, merged);
    OrderedRows(merged, order, out);
  }

  // ---------- The books ----------

  /** For every network and every choice of skipped steps: rows out = rows loaded - encompassed - cascade - orphaned
      - merged + splits. */
  lemma EveryRowIsAccountedFor(inp: RunInputs, chains: seq<seq<nat>>, head: seq<nat>, merged: seq<Reach>, order: seq<nat>,
        out: seq<Reach>)
    requires ValidInputs(inp) && Published(inp, chains, head, merged, order, out)
    ensures
      var p := FinalCounters(inp, head, out);
      && p.output == Some(|out|) && p.merged.Some?
      && |out| == |AtLoad(inp)| - OrZero(p.encompassedCoastal) - OrZero(p.coastalCascade)
           - OrZero(p.encompassedLake) - OrZero(p.orphanedLake) - OrZero(p.merged) + OrZero(p.splitPassthroughLake)
  {
    hide Merged, Ordered, Count, Sources, AtLoad, C.AfterCoast, L.AfterLakes, L.Standing, L.WellClassified, C.Survivors;
    MergeAccounts(BeforeMerge(inp), inp.join, chains, head, merged);
    OrderedRows(merged, order, out);
    assert |BeforeCoast(inp)| == |AtLoad(inp)|;
    if inp.coast.Some? {
      C.CoastAccounts(BeforeCoast(inp), Shapes(inp));
    }
    if inp.lakes.Some? {
      LP.LakesAccount(BeforeLakes(inp), Meetings(inp), inp.lakes.value.ids);
    }
  }

  // ---------- The validators ----------

  /** Whatever is skipped, the counters of a pass are there together or not at all, as its dataset was or was not. */
  lemma SkipsAlwaysCohere(inp: RunInputs, head: seq<nat>, out: seq<Reach>)
    requires ValidInputs(inp)
    ensures
      var p := FinalCounters(inp, head, out);
      && SkippedStepsAreAllOrNothing(p)
      && SkipCoherence(inp.lakes.Some?, inp.coast.Some?, inp.lakes.Some?, inp.coast.Some?, inp.lakes.Some?, p)
  {
    hide Count, BeforeCoast, BeforeLakes, Sources, AllOrNothing, C.Survivors, L.Standing, L.WellClassified, L.KindMask;
    var p := FinalCounters(inp, head, out);
    AllAgree([p.encompassedLake, p.trimmedInletLake, p.trimmedOutletLake,
              p.splitPassthroughLake, p.trimmedBetweenLakes, p.orphanedLake], inp.lakes.Some?);
    AllAgree([p.encompassedCoastal, p.trimmedCoastal, p.coastalCascade, p.strandedCoastal], inp.coast.Some?);
  }

  lemma AllAgree(values: seq<Option<nat>>, given: bool)
    requires forall i :: 0 <= i < |values| ==> values[i].Some? == given
    ensures AllOrNothing(values)
  {}

  /** The input count is taken before parts are split off, so the books balance exactly when none was. */
  lemma BalancedIffNothingSplitOff(inp: RunInputs, chains: seq<seq<nat>>, head: seq<nat>, merged: seq<Reach>, order: seq<nat>,
        out: seq<Reach>)
    requires ValidInputs(inp) && Published(inp, chains, head, merged, order, out)
    ensures CountersReconcile(FinalCounters(inp, head, out)) <==>
      forall i :: 0 <= i < |Sources(inp)| ==> |Sources(inp)[i].parts| == 1
  {
    hide CountersReconcile, SkippedStepsAreAllOrNothing, Published, Count, Sources, BeforeCoast, BeforeLakes;
    var p := FinalCounters(inp, head, out);
    EveryRowIsAccountedFor(inp, chains, head, merged, order, out);
    ValidatorsRead(p);
    assert p.input == Some(|inp.features|) && OrZero(p.belowStreamOrder) == |inp.features| - |Sources(inp)|;
    SourcesReadable(inp);
    RowsPerPart(Sources(inp));
  }

  /** As many rows as sources, unless one has more parts. */
  lemma {:induction false} RowsPerPart(sources: seq<Source>)
    requires Readable(sources)
    ensures |Exploded(sources)| >= |sources|
    ensures |Exploded(sources)| == |sources| <==> forall i :: 0 <= i < |sources| ==> |sources[i].parts| == 1
  {
    if sources != [] {
      var n := |sources| - 1;
      RowsPerPart(sources[..n]);
      assert forall i :: 0 <= i < n ==> sources[..n][i] == sources[i];
    }
  }

  /** One reach with a gap in it is enough: two rows come out of one, and the manifest is refused. */
  lemma GapIsRefused(inp: RunInputs, chains: seq<seq<nat>>, head: seq<nat>, merged: seq<Reach>, order: seq<nat>,
        out: seq<Reach>)
    requires ValidInputs(inp) && inp.streamOrder.None? && Published(inp, chains, head, merged, order, out)
    requires inp.features == [Feature(Source([3434], None, 1.0, true, [0.5, 0.5]), 1)]
    ensures !CountersReconcile(FinalCounters(inp, head, out))
  {
    hide Published, CountersReconcile, FinalCounters;
    BalancedIffNothingSplitOff(inp, chains, head, merged, order, out);
    PositionsAll(Passing(inp));
    assert Sources(inp)[0].parts == [0.5, 0.5];
  }
}
