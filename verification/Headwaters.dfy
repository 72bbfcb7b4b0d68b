/** When a reach is still flagged a headwater exactly because nothing flows into it. */
module Headwaters {
  import opened Wrappers
  import opened Reaches
  import opened Pointers
  import opened Routes
  import opened Explode
  import opened Tagging
  import C = Coastal
  import CF = CoastFlow
  import L = Lakes
  import LP = LakeProofs
  import LF = LakeFlow
  import opened Chains
  import opened Build
  import opened Merge
  import opened MergeProofs
  import opened MergeAgain
  import opened Stages
  import opened StageProofs

  /** The flag says that nothing points here. */
  ghost predicate RightlyTagged(rows: seq<Reach>) {
    forall r :: r in rows ==> (r.headwater <==> !HasUpstream(rows, r.id))
  }

  lemma UpstreamByPosition(rows: seq<Reach>, j: nat)
    requires UniqueIds(rows) && j < |rows|
    ensures HasUpstream(rows, rows[j].id) <==> exists i: nat :: i < |rows| && Topology(rows)[i] == j
  {
    hide Topology;
    if s :| s in rows && s.to == Some(rows[j].id) {
      var i :| 0 <= i < |rows| && rows[i] == s;
      PointerFound(rows, i);
      assert rows[j] in rows;
    }
    if i: nat :| i < |rows| && Topology(rows)[i] == j {
      PointerFound(rows, i);
      assert rows[i] in rows;
    }
  }

  /** Tagging gets it right. */
  lemma TaggingIsRight(rows: seq<Reach>)
    requires Untagged(rows)
    ensures RightlyTagged(Tagged(rows))
  {
    hide Tagged, HasUpstream;
    var out := Tagged(rows);
    forall r | r in out ensures r.headwater <==> !HasUpstream(out, r.id) {
      var i :| 0 <= i < |out| && out[i] == r;
      TaggedRow(rows, i);
      assert rows[i] in rows;
      TaggedUpstream(rows, rows[i].id);
    }
  }

  lemma TaggedUpstream(rows: seq<Reach>, id: Id)
    requires Untagged(rows) && id in Ids(rows)
    ensures HasUpstream(Tagged(rows), id) <==> HasUpstream(rows, id)
  {
    hide Tagged;
    var out := Tagged(rows);
    if s :| s in rows && s.to == Some(id) {
      var i :| 0 <= i < |rows| && rows[i] == s;
      TaggedRow(rows, i);
      assert out[i] in out;
    }
    if s :| s in out && s.to == Some(id) {
      var i :| 0 <= i < |out| && out[i] == s;
      TaggedRow(rows, i);
      assert rows[i] in rows;
    }
  }

  // ---------- The coast ----------

  lemma SurvivorUpstream(rows: seq<Reach>, shapes: seq<C.Shape>, j: nat)
    requires |shapes| == |rows| && UniqueIds(rows) && j < |rows| && !C.Dropped(rows, shapes, j)
    ensures HasUpstream(C.AfterCoast(rows, shapes), rows[j].id) <==> HasUpstream(rows, rows[j].id)
  {
    hide C.Dropped, C.AfterCoast, UniqueIds, Topology;
    var out, a := C.AfterCoast(rows, shapes), rows[j].id;
    CF.CoastKeepsUnique(rows, shapes);
    GraphRows(rows);
    GraphRows(out);
    if s :| s in rows && s.to == Some(a) {
      var i :| 0 <= i < |rows| && rows[i] == s;
      PointerFound(rows, i);
      assert rows[j] in rows;
      SameRow(rows, Topology(rows)[i], j);
      assert Follow(Topology(rows), i, 1) == Follow(Topology(rows), j, 0);
      CF.UpstreamOfSurvivor(rows, shapes, i, j, 1);
      CF.SurvivorNext(rows, shapes, i);
      CF.SurvivorIn(rows, shapes, i);
      CF.SurvivorIn(rows, shapes, j);
      var t :| t in out && t.id == rows[i].id;
    }
    if s :| s in out && s.to == Some(a) {
      CF.CoastOnlyCuts(rows, shapes, s.id);
      assert s.id in GraphOf(rows);
      var t :| t in rows && t.id == s.id;
    }
  }

  /** The coastal pass keeps every tag right: it takes nothing from above what it leaves. */
  lemma CoastKeepsTags(rows: seq<Reach>, shapes: seq<C.Shape>)
    requires |shapes| == |rows| && UniqueIds(rows) && RightlyTagged(rows)
    ensures RightlyTagged(C.AfterCoast(rows, shapes))
  {
    hide C.Dropped, C.AfterCoast, C.Survivors, UniqueIds, HasUpstream;
    var out := C.AfterCoast(rows, shapes);
    forall r | r in out ensures r.headwater <==> !HasUpstream(out, r.id) {
      var k :| 0 <= k < |out| && out[k] == r;
      C.SurvivorRow(rows, shapes, k);
      var i := Positions(C.Survives(rows, shapes))[k];
      SurvivorUpstream(rows, shapes, i);
      assert rows[i] in rows;
    }
  }

  // ---------- The lakes ----------

  /** Some reach that keeps a pointer flows here. */
  ghost predicate Fed(rows: seq<Reach>, meetings: seq<L.Meeting>, lakes: seq<Option<string>>, j: nat)
    requires L.WellClassified(rows, meetings, lakes) && j < |rows|
  {
    exists i: nat :: i < |rows| && Feeds(rows, meetings, lakes, i, j)
  }

  ghost predicate Feeds(rows: seq<Reach>, meetings: seq<L.Meeting>, lakes: seq<Option<string>>, i: nat, j: nat)
    requires L.WellClassified(rows, meetings, lakes) && i < |rows| && j < |rows|
  {
    rows[i].to == Some(rows[j].id) && L.KindOf(rows[i], meetings[i], lakes) in {L.Plain, L.Leaves, L.Through}
  }

  /** What has to hold of the lakes for tags to stay right: nothing that stands flows into a reach that leaves a lake, and
      a reach no lake meets that goes on keeps something upstream if it had anything. */
  ghost predicate HeadwaterContact(rows: seq<Reach>, meetings: seq<L.Meeting>, lakes: seq<Option<string>>)
    requires L.WellClassified(rows, meetings, lakes)
  {
    forall j: nat :: j < |rows| ==> TagSurvives(rows, meetings, lakes, j)
  }

  ghost predicate TagSurvives(rows: seq<Reach>, meetings: seq<L.Meeting>, lakes: seq<Option<string>>, j: nat)
    requires L.WellClassified(rows, meetings, lakes) && j < |rows|
  {
    var kind := L.KindOf(rows[j], meetings[j], lakes);
    && (kind == L.Leaves || kind == L.Between ==> !Fed(rows, meetings, lakes, j))
    && (kind == L.Plain && rows[j].to.Some? && HasUpstream(rows, rows[j].id) ==> Fed(rows, meetings, lakes, j))
  }

  lemma PieceTag(r: Reach, m: L.Meeting, lakes: seq<Option<string>>, below: bool)
    requires m.Crosses? ==> L.InLayer(m, |lakes|)
    requires (below ==> L.KindOf(r, m, lakes) == L.Through) && L.KindOf(r, m, lakes) != L.Swallowed
    ensures
      var kind := L.KindOf(r, m, lakes);
      L.Piece(r, m, lakes, below).headwater == (r.headwater || kind == L.Leaves || kind == L.Between || below)
  {
    hide L.KindOf, L.Inside;
  }

  lemma FeedsHere(rows: seq<Reach>, meetings: seq<L.Meeting>, lakes: seq<Option<string>>, i: nat, below: bool, j: nat, belowJ: bool)
    requires L.WellClassified(rows, meetings, lakes) && PrefixFree(rows) && NoDangling(rows)
    requires LF.IsPiece(rows, meetings, lakes, i, below) && LF.IsPiece(rows, meetings, lakes, j, belowJ)
    ensures
      Next(GraphOf(L.Standing(rows, meetings, lakes)), LF.PieceName(rows, meetings, lakes, i, below))
        == Some(LF.PieceName(rows, meetings, lakes, j, belowJ))
      <==> !belowJ && LF.KeepsPointer(L.KindOf(rows[i], meetings[i], lakes), below) && rows[i].to == Some(rows[j].id)
  {
    hide L.KindOf, L.Standing, PrefixFree, NoDangling, LF.PieceName, LF.KeepsPointer, LF.Crossable;
    var g, h := GraphOf(rows), GraphOf(L.Standing(rows, meetings, lakes));
    var a, b := LF.PieceName(rows, meetings, lakes, i, below), LF.PieceName(rows, meetings, lakes, j, belowJ);
    LF.PieceRoute(rows, meetings, lakes, i, below, j, belowJ, 1);
    RouteOfOne(g, LF.Crossable(rows, meetings, lakes), rows[i].id, rows[j].id);
    PrefixFreeIsUnique(rows);
    GraphAt(rows, i);
    WalkStep(h, a, 1);
    WalkNone(h, Next(h, a));
  }

  /** A piece has something upstream exactly when it is its reach's upper piece and the reach is still fed. */
  lemma PieceFed(rows: seq<Reach>, meetings: seq<L.Meeting>, lakes: seq<Option<string>>, j: nat, belowJ: bool)
    requires L.WellClassified(rows, meetings, lakes) && PrefixFree(rows) && NoDangling(rows)
    requires LF.IsPiece(rows, meetings, lakes, j, belowJ)
    ensures HasUpstream(L.Standing(rows, meetings, lakes), LF.PieceName(rows, meetings, lakes, j, belowJ))
      <==> !belowJ && Fed(rows, meetings, lakes, j)
  {
    hide L.KindOf, L.Standing, PrefixFree, NoDangling, L.Piece, L.SplitMap;
    var standing, b := L.Standing(rows, meetings, lakes), LF.PieceName(rows, meetings, lakes, j, belowJ);
    L.StandingPrefixFree(rows, meetings, lakes);
    PrefixFreeIsUnique(standing);
    GraphRows(standing);
    if s :| s in standing && s.to == Some(b) {
      var i, below := LP.StandingSource(rows, meetings, lakes, s);
      LP.RemapKeeps(L.SplitMap(rows, meetings, lakes), L.Piece(rows[i], meetings[i], lakes, below));
      FeedsHere(rows, meetings, lakes, i, below, j, belowJ);
      assert Feeds(rows, meetings, lakes, i, j);
    }
    if i: nat :| !belowJ && i < |rows| && Feeds(rows, meetings, lakes, i, j) {
      var below := L.KindOf(rows[i], meetings[i], lakes) == L.Through;
      FeedsHere(rows, meetings, lakes, i, below, j, belowJ);
      LF.PieceNameStands(rows, meetings, lakes, i, below);
      var s :| s in standing && s.id == LF.PieceName(rows, meetings, lakes, i, below);
      assert s.to == Some(b);
    }
  }

  lemma SweptUpstream(standing: seq<Reach>, id: Id)
    ensures HasUpstream(L.Swept(standing), id) <==> HasUpstream(standing, id)
  {
    hide L.Swept;
    LP.SweptRows(standing);
    if s :| s in standing && s.to == Some(id) {
      assert !L.Orphan(standing, s);
    }
  }

  /** A standing piece: its tag, its pointer, and whether it is fed. */
  lemma PieceFacts(rows: seq<Reach>, meetings: seq<L.Meeting>, lakes: seq<Option<string>>, r: Reach, j: nat, below: bool)
    requires L.WellClassified(rows, meetings, lakes) && PrefixFree(rows) && NoDangling(rows)
    requires j < |rows| && LP.StandsFor(rows, meetings, lakes, r, j, below)
    ensures
      var kind := L.KindOf(rows[j], meetings[j], lakes);
      && LF.IsPiece(rows, meetings, lakes, j, below) && r.id == LF.PieceName(rows, meetings, lakes, j, below)
      && r.headwater == (rows[j].headwater || kind == L.Leaves || kind == L.Between || below)
      && (r.to.Some? <==> rows[j].to.Some? && LF.KeepsPointer(kind, below))
      && (HasUpstream(L.Standing(rows, meetings, lakes), r.id) <==> !below && Fed(rows, meetings, lakes, j))
  {
    hide L.KindOf, L.Standing, PrefixFree, NoDangling, L.Piece, L.SplitMap, HasUpstream, Fed;
    LP.RemapKeeps(L.SplitMap(rows, meetings, lakes), L.Piece(rows[j], meetings[j], lakes, below));
    PieceTag(rows[j], meetings[j], lakes, below);
    LP.PieceFields(rows[j], meetings[j], lakes, below);
    PieceFed(rows, meetings, lakes, j, below);
  }

  lemma FedHasUpstream(rows: seq<Reach>, meetings: seq<L.Meeting>, lakes: seq<Option<string>>, j: nat)
    requires L.WellClassified(rows, meetings, lakes) && j < |rows| && Fed(rows, meetings, lakes, j)
    ensures HasUpstream(rows, rows[j].id)
  {
    hide L.KindOf;
    var i: nat :| i < |rows| && Feeds(rows, meetings, lakes, i, j);
    assert rows[i] in rows;
  }

  lemma OrphanIs(standing: seq<Reach>, r: Reach)
    ensures L.Orphan(standing, r) <==> r.to.None? && !r.headwater && !HasUpstream(standing, r.id)
  {}

  /** After the lakes every tag is right if and only if the lakes meet the network so. */
  lemma TagsRightIffContact(rows: seq<Reach>, meetings: seq<L.Meeting>, lakes: seq<Option<string>>)
    requires L.WellClassified(rows, meetings, lakes) && PrefixFree(rows) && NoDangling(rows) && RightlyTagged(rows)
    ensures RightlyTagged(L.AfterLakes(rows, meetings, lakes)) <==> HeadwaterContact(rows, meetings, lakes)
  {
    hide L.KindOf, L.Standing, L.Swept, PrefixFree, NoDangling, HasUpstream, Fed, TagSurvives, L.Orphan;
    var standing, out := L.Standing(rows, meetings, lakes), L.AfterLakes(rows, meetings, lakes);
    LP.SweptRows(standing);
    if HeadwaterContact(rows, meetings, lakes) {
      forall r | r in out ensures r.headwater <==> !HasUpstream(out, r.id) {
        var j, below := LP.StandingSource(rows, meetings, lakes, r);
        SweptUpstream(standing, r.id);
        ContactTagsRight(rows, meetings, lakes, r, j, below);
      }
    }
    if RightlyTagged(out) {
      forall j: nat | j < |rows| ensures TagSurvives(rows, meetings, lakes, j) {
        RightTagsNeedContact(rows, meetings, lakes, j);
      }
    }
  }

  lemma ContactTagsRight(rows: seq<Reach>, meetings: seq<L.Meeting>, lakes: seq<Option<string>>, r: Reach, j: nat, below: bool)
    requires L.WellClassified(rows, meetings, lakes) && PrefixFree(rows) && NoDangling(rows) && RightlyTagged(rows)
    requires j < |rows| && LP.StandsFor(rows, meetings, lakes, r, j, below) && TagSurvives(rows, meetings, lakes, j)
    requires !L.Orphan(L.Standing(rows, meetings, lakes), r)
    ensures r.headwater <==> !HasUpstream(L.Standing(rows, meetings, lakes), r.id)
  {
    hide L.KindOf, L.Standing, PrefixFree, NoDangling, HasUpstream, Fed, L.Orphan, L.Piece, L.SplitMap;
    PieceFacts(rows, meetings, lakes, r, j, below);
    OrphanIs(L.Standing(rows, meetings, lakes), r);
    assert rows[j] in rows;
    if Fed(rows, meetings, lakes, j) {
      FedHasUpstream(rows, meetings, lakes, j);
    }
  }

  lemma RightTagsNeedContact(rows: seq<Reach>, meetings: seq<L.Meeting>, lakes: seq<Option<string>>, j: nat)
    requires L.WellClassified(rows, meetings, lakes) && PrefixFree(rows) && NoDangling(rows) && RightlyTagged(rows)
    requires RightlyTagged(L.AfterLakes(rows, meetings, lakes)) && j < |rows|
    ensures TagSurvives(rows, meetings, lakes, j)
  {
    hide L.KindOf, L.Standing, L.Swept, PrefixFree, NoDangling, HasUpstream, Fed, L.Orphan, L.Piece, L.SplitMap;
    var standing, kind := L.Standing(rows, meetings, lakes), L.KindOf(rows[j], meetings[j], lakes);
    if kind == L.Leaves || kind == L.Between || kind == L.Plain {
      L.PieceStands(rows, meetings, lakes, j, false);
      var r := Remap(L.SplitMap(rows, meetings, lakes), L.Piece(rows[j], meetings[j], lakes, false));
      PieceFacts(rows, meetings, lakes, r, j, false);
      OrphanIs(standing, r);
      LP.SweptRows(standing);
      SweptUpstream(standing, r.id);
      assert rows[j] in rows;
    }
  }

  /** A reach whose only neighbour upstream was swallowed, and which itself met no lake, is left with nothing above it and
      no tag: reach 1 lies within the lake, reach 2 begins on its shore and flows on to reach 3. */
  lemma HeadwaterCanBeMissed(rows: seq<Reach>, meetings: seq<L.Meeting>, lakes: seq<Option<string>>)
    requires rows == [
      Reach([1], Some([2]), 1.0, 1.0, true, false, false, false, false, None, None, None),
      Reach([2], Some([3]), 1.0, 1.0, false, false, false, false, false, None, None, None),
      Reach([3], None, 1.0, 1.0, false, true, false, false, false, Some(Reason.Outlet), None, None)]
    requires meetings == [L.Within, L.Clear, L.Clear] && lakes == [Some("lake")]
    ensures L.WellClassified(rows, meetings, lakes) && PrefixFree(rows) && NoDangling(rows) && RightlyTagged(rows)
    ensures !RightlyTagged(L.AfterLakes(rows, meetings, lakes))
  {
    hide L.Standing, L.Swept, L.SplitMap, L.Shaped, L.Below;
    assert rows[0].id[0] != rows[1].id[0] && rows[1].id[0] != rows[2].id[0] && rows[0].id[0] != rows[2].id[0];
    assert rows[0] in rows && rows[1] in rows && rows[2] in rows;
    assert rows[0].to == Some(rows[1].id) && rows[1].to == Some(rows[2].id);
    assert !Fed(rows, meetings, lakes, 1);
    assert !TagSurvives(rows, meetings, lakes, 1);
    TagsRightIffContact(rows, meetings, lakes);
  }

  // ---------- The merge ----------

  /** Of a merged reach, the tag is its top member's, and something points at it exactly when something points there. */
  lemma MergedTag(rows: seq<Reach>, byText: seq<nat>, t: Thresholds, join: seq<Reach> -> real, run: Trace, out: seq<Reach>, k: nat)
    returns (top: nat)
    requires MergeRun(rows, byText, t, join, run, out) && k < |out|
    ensures top < |rows| && out[k].headwater == rows[top].headwater
    ensures HasUpstream(out, out[k].id) <==> HasUpstream(rows, rows[top].id)
  {
    hide Topology, Merged, UniqueIds, Timed, Traversed, Partition, HasUpstream, Contracted, ChainOf, InFlowOrder, AnyTrimmed;
    var head := run.head;
    StartRows(rows, join, run.chains, head, out);
    MergedPartition(rows, join, run.chains, head, out);
    ContractedUnique(rows, head, out);
    HeadRow(rows, join, run.chains, head, out, k);
    var v := Kept(head)[k];
    ChainHeads(rows, run.chains, head, v);
    var members := ChainOf(run.chains, v);
    top := members[|members| - 1];
    assert |members| == 1 ==> top == v;
    LastListed(members);
    UpstreamByPosition(out, k);
    UpstreamByPosition(rows, top);
    if m: nat :| m < |out| && Topology(out)[m] == k {
      ResultTopology(rows, head, out, m);
      EntersAtTop(rows, t, run.topo, run.chains, head, v, Kept(head)[m]);
    }
    if u: nat :| u < |rows| && Topology(rows)[u] == top {
      LoneParentIsStart(rows, head, run.chains, members, v, u);
      var m := StartStands(head, u);
      ResultTopology(rows, head, out, m);
      StandsOnce(head, Topology(out)[m], k);
    }
  }

  lemma StandsOnce(head: seq<nat>, j: int, k: nat)
    requires 0 <= j < |Kept(head)| && k < |Kept(head)| && Kept(head)[j] == Kept(head)[k]
    ensures j == k
  {}

  /** Merging keeps every tag right. */
  lemma MergeKeepsTags(rows: seq<Reach>, byText: seq<nat>, t: Thresholds, join: seq<Reach> -> real, run: Trace, out: seq<Reach>)
    requires MergeRun(rows, byText, t, join, run, out) && RightlyTagged(rows)
    ensures RightlyTagged(out)
  {
    hide MergeRun, HasUpstream;
    forall r | r in out ensures r.headwater <==> !HasUpstream(out, r.id) {
      var k :| 0 <= k < |out| && out[k] == r;
      var top := MergedTag(rows, byText, t, join, run, out, k);
      assert rows[top] in rows;
    }
  }

  // ---------- The whole run ----------

  /** Every reach is rightly tagged before the lakes, whatever was read. */
  lemma TagsBeforeLakes(inp: RunInputs)
    requires ValidInputs(inp) && UniqueSources(Sources(inp))
    ensures RightlyTagged(BeforeLakes(inp))
  {
    hide AtLoad, Tagged, Untagged, PrefixFree, UniqueIds, RightlyTagged, C.AfterCoast, Sources, UniqueSources;
    IdsStayApart(inp);
    LoadedIsUntagged(inp);
    TaggingIsRight(AtLoad(inp));
    if inp.coast.Some? {
      CoastKeepsTags(BeforeCoast(inp), Shapes(inp));
    }
  }

  /** Before the merge the tags are right exactly when the lakes meet the network so, or there are none. */
  lemma TagsBeforeMerge(inp: RunInputs)
    requires ValidInputs(inp) && UniqueSources(Sources(inp))
    ensures RightlyTagged(BeforeMerge(inp)) <==>
      (inp.lakes.Some? ==> HeadwaterContact(BeforeLakes(inp), Meetings(inp), inp.lakes.value.ids))
  {
    hide PrefixFree, UniqueIds, RightlyTagged, L.AfterLakes, Sources, UniqueSources, BeforeLakes, HeadwaterContact, NoDangling;
    IdsStayApart(inp);
    StagesCoherent(inp);
    TagsBeforeLakes(inp);
    if inp.lakes.Some? {
      TagsRightIffContact(BeforeLakes(inp), Meetings(inp), inp.lakes.value.ids);
    }
  }

  /** And then they are right as published: a headwater is a reach no published reach points at. */
  lemma PublishedTags(inp: RunInputs, run: Trace, merged: seq<Reach>, order: seq<nat>, out: seq<Reach>)
    requires ValidInputs(inp) && UniqueSources(Sources(inp))
    requires MergeRun(BeforeMerge(inp), inp.byText(BeforeMerge(inp)), inp.thresholds, inp.join, run, merged)
    requires Ordered(merged, order, out)
    requires inp.lakes.Some? ==> HeadwaterContact(BeforeLakes(inp), Meetings(inp), inp.lakes.value.ids)
    ensures RightlyTagged(out)
  {
    hide MergeRun, RightlyTagged, Sources, UniqueSources, BeforeLakes, BeforeMerge, HeadwaterContact, Ordered;
    TagsBeforeMerge(inp);
    MergeKeepsTags(BeforeMerge(inp), inp.byText(BeforeMerge(inp)), inp.thresholds, inp.join, run, merged);
    OrderedRows(merged, order, out);
    SameRowsSameTags(merged, out);
  }

  lemma SameRowsSameTags(rows: seq<Reach>, out: seq<Reach>)
    requires (forall r :: r in out <==> r in rows) && RightlyTagged(rows)
    ensures RightlyTagged(out)
  {
    forall r | r in out ensures HasUpstream(out, r.id) <==> HasUpstream(rows, r.id) {}
  }
}
