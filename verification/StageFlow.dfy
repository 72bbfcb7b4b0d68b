/** Where the published network says the water goes, in terms of the network loaded. */
module StageFlow {
  import opened Wrappers
  import opened Reaches
  import opened Pointers
  import opened Routes
  import opened Explode
  import opened Tagging
  import C = Coastal
  import CF = CoastFlow
  import L = Lakes
  import LP = LakeProofs
  import LF = LakeFlow
  import opened Merge
  import opened MergeProofs
  import opened Stages
  import opened StageProofs

  // ---------- What stands before the merge ----------

  /** What the lakes made of a reach; without lakes, nothing. */
  ghost function KindAt(inp: RunInputs, i: nat): L.Kind
    requires ValidInputs(inp) && i < |BeforeLakes(inp)|
  {
    if inp.lakes.None? then L.Plain else L.KindOf(BeforeLakes(inp)[i], Meetings(inp)[i], inp.lakes.value.ids)
  }

  ghost predicate Stands(inp: RunInputs, i: nat, below: bool)
    requires ValidInputs(inp)
  {
    if inp.lakes.None? then i < |BeforeLakes(inp)| && !below
    else LF.IsPiece(BeforeLakes(inp), Meetings(inp), inp.lakes.value.ids, i, below)
  }

  /** The id a piece of a reach carries. */
  ghost function NameOf(inp: RunInputs, i: nat, below: bool): Id
    requires ValidInputs(inp) && i < |BeforeLakes(inp)|
  {
    if inp.lakes.None? then BeforeLakes(inp)[i].id
    else LF.PieceName(BeforeLakes(inp), Meetings(inp), inp.lakes.value.ids, i, below)
  }

  /** The loaded reaches water can still cross. */
  ghost function CrossableAt(inp: RunInputs): set<Id>
    requires ValidInputs(inp)
  {
    if inp.lakes.None? then Ids(AtLoad(inp)) else LF.Crossable(BeforeLakes(inp), Meetings(inp), inp.lakes.value.ids)
  }

  /** Two pieces are joined by the loaded network: they are the same piece, or the first keeps its reach's pointer, the
      second is the upper piece of its reach, and as loaded the one reach flows to the other across reaches that no lake
      swallows, ends or splits. */
  ghost predicate Joined(inp: RunInputs, i: nat, below: bool, j: nat, belowJ: bool)
    requires ValidInputs(inp) && i < |BeforeLakes(inp)| && j < |BeforeLakes(inp)|
  {
    || (i == j && below == belowJ)
    || (&& !belowJ && LF.KeepsPointer(KindAt(inp, i), below)
        && FlowsVia(GraphOf(AtLoad(inp)), CrossableAt(inp), BeforeLakes(inp)[i].id, BeforeLakes(inp)[j].id))
  }

  // ---------- Tagging and the coast reroute nothing ----------

  lemma FollowStays(ds: seq<int>, i: nat, m: nat, k: nat)
    requires InBounds(ds) && i < |ds| && m <= k && Follow(ds, i, k) >= 0
    ensures Follow(ds, i, m) >= 0
  {
    FollowSplits(ds, i, m, k - m);
  }

  lemma {:induction false} TaggingKeepsWays(rows: seq<Reach>, i: nat, j: nat)
    requires Untagged(rows) && PrefixFree(rows) && i < |rows| && j < |rows|
    ensures WalksAgree(GraphOf(rows), GraphOf(Tagged(rows)), rows[i].id, rows[j].id)
  {
    hide Tagged, PrefixFree, Topology, Walk, Follow, Untagged, UniqueIds;
    var out := Tagged(rows);
    TaggingFixesPointers(rows);
    PrefixFreeIsUnique(rows);
    PrefixFreeIsUnique(out);
    SameTopology(rows, out);
    TaggedRow(rows, i);
    SameTaggedIds(rows);
    assert rows[j] in rows;
    var g, h, ds := GraphOf(rows), GraphOf(out), Topology(rows);
    forall k: nat, m: nat
      | m <= k && (Walk(g, Some(rows[i].id), k) == Some(rows[j].id) || Walk(h, Some(rows[i].id), k) == Some(rows[j].id))
      ensures Walk(g, Some(rows[i].id), m) == Walk(h, Some(rows[i].id), m)
    {
      WalkIsFollow(rows, i, k);
      WalkIsFollow(out, i, k);
      FollowStays(ds, i, m, k);
      WalkIsFollow(rows, i, m);
      WalkIsFollow(out, i, m);
      TaggedRow(rows, Follow(ds, i, m));
    }
  }

  /** Which loaded reach a row before the lakes was, and that the coast left it. */
  lemma LoadedReach(inp: RunInputs, i: nat) returns (x: nat)
    requires ValidInputs(inp) && i < |BeforeLakes(inp)|
    ensures x < |AtLoad(inp)| && BeforeLakes(inp)[i].id == AtLoad(inp)[x].id == BeforeCoast(inp)[x].id
    ensures inp.coast.Some? ==> !C.Dropped(BeforeCoast(inp), Shapes(inp), x)
  {
    hide Tagged, C.Dropped, C.AfterCoast, C.Survivors, AtLoad, Untagged;
    LoadedIsUntagged(inp);
    if inp.coast.Some? {
      C.SurvivorRow(BeforeCoast(inp), Shapes(inp), i);
      x := Positions(C.Survives(BeforeCoast(inp), Shapes(inp)))[i];
    } else {
      x := i;
    }
    TaggedRow(AtLoad(inp), x);
  }

  lemma {:induction false} LoadKeepsWays(inp: RunInputs, i: nat, j: nat)
    requires ValidInputs(inp) && UniqueSources(Sources(inp)) && i < |BeforeLakes(inp)| && j < |BeforeLakes(inp)|
    ensures WalksAgree(GraphOf(AtLoad(inp)), GraphOf(BeforeLakes(inp)), BeforeLakes(inp)[i].id, BeforeLakes(inp)[j].id)
  {
    hide Tagged, C.Dropped, C.AfterCoast, AtLoad, Untagged, WalksAgree, PrefixFree, UniqueIds, UniqueSources, Sources;
    IdsStayApart(inp);
    LoadedIsUntagged(inp);
    var x := LoadedReach(inp, i);
    var y := LoadedReach(inp, j);
    TaggingKeepsWays(AtLoad(inp), x, y);
    if inp.coast.Some? {
      CF.CoastKeepsWays(BeforeCoast(inp), Shapes(inp), x, y);
      AgreeOn(GraphOf(AtLoad(inp)), GraphOf(BeforeCoast(inp)), GraphOf(BeforeLakes(inp)), AtLoad(inp)[x].id, AtLoad(inp)[y].id);
    }
  }

  // ---------- Before the merge ----------

  lemma {:induction false} BeforeMergeFlow(inp: RunInputs, i: nat, below: bool, j: nat, belowJ: bool)
    requires ValidInputs(inp) && UniqueSources(Sources(inp)) && Stands(inp, i, below) && Stands(inp, j, belowJ)
    ensures i < |BeforeLakes(inp)| && j < |BeforeLakes(inp)|
    ensures Flows(GraphOf(BeforeMerge(inp)), NameOf(inp, i, below), NameOf(inp, j, belowJ)) <==> Joined(inp, i, below, j, belowJ)
  {
    hide AtLoad, WalksAgree, PrefixFree, NoDangling, UniqueSources, Sources, BeforeLakes, Flows, FlowsVia, AllCoherent,
         L.KindOf, LF.PieceName, L.AfterLakes, LF.Crossable, LF.KeepsPointer, L.WellClassified, C.AfterCoast;
    var rows, g := BeforeLakes(inp), GraphOf(AtLoad(inp));
    var a, b, via := rows[i].id, rows[j].id, CrossableAt(inp);
    IdsStayApart(inp);
    StagesCoherent(inp);
    LoadKeepsWays(inp, i, j);
    AgreeKeepsFlow(g, GraphOf(rows), via, a, b);
    if inp.lakes.Some? {
      LF.LakesLeaveFlow(rows, Meetings(inp), inp.lakes.value.ids, i, below, j, belowJ);
    } else {
      GraphKeys(AtLoad(inp));
      FlowsViaAll(g, via, a, b);
      assert LF.KeepsPointer(L.Plain, below) by { PlainKeeps(below); }
    }
  }

  lemma PlainKeeps(below: bool)
    ensures LF.KeepsPointer(L.Plain, below)
  {}

  /** Every row to be merged is a piece of a reach the coast left. */
  lemma EveryRowIsAPiece(inp: RunInputs, x: nat) returns (i: nat, below: bool)
    requires ValidInputs(inp) && x < |BeforeMerge(inp)|
    ensures Stands(inp, i, below) && i < |BeforeLakes(inp)| && BeforeMerge(inp)[x].id == NameOf(inp, i, below)
  {
    hide BeforeLakes, L.KindOf, L.Standing, L.Piece, L.Swept, L.SplitMap;
    i, below := x, false;
    if inp.lakes.Some? {
      var rows, meetings, ids := BeforeLakes(inp), Meetings(inp), inp.lakes.value.ids;
      var r := BeforeMerge(inp)[x];
      LP.SweptRows(L.Standing(rows, meetings, ids));
      i, below := LP.StandingSource(rows, meetings, ids, r);
      LP.RemapKeeps(L.SplitMap(rows, meetings, ids), L.Piece(rows[i], meetings[i], ids, below));
    }
  }

  /** For every run, with any waterbodies or none: water from a piece x passes the survivor of piece y's chain, as published,
      exactly when the loaded network joins x to that survivor. Splitting, tagging, trimming, merging and ordering invent
      no connection, and lose only those a waterbody took. */
  lemma {:induction false} PublishedFlow(inp: RunInputs, chains: seq<seq<nat>>, head: seq<nat>, merged: seq<Reach>,
        order: seq<nat>,
                      out: seq<Reach>, x: nat, y: nat, i: nat, below: bool, j: nat, belowJ: bool)
    requires ValidInputs(inp) && UniqueSources(Sources(inp)) && Published(inp, chains, head, merged, order, out)
    requires x < |BeforeMerge(inp)| && y < |BeforeMerge(inp)| && |head| == |BeforeMerge(inp)| && head[y] < |head|
    requires Stands(inp, i, below) && i < |BeforeLakes(inp)| && BeforeMerge(inp)[x].id == NameOf(inp, i, below)
    requires Stands(inp, j, belowJ) && j < |BeforeLakes(inp)| && BeforeMerge(inp)[head[y]].id == NameOf(inp, j, belowJ)
    ensures head[x] < |head|
    ensures
      var rows := BeforeMerge(inp);
      Flows(GraphOf(out), rows[head[x]].id, rows[head[y]].id) <==> Joined(inp, i, below, j, belowJ)
  {
    hide Merged, UniqueIds, PrefixFree, Ordered, UniqueSources, Sources, ValidInputs, Flows, BeforeMerge, BeforeLakes, Joined,
         NameOf, Stands;
    IdsStayApart(inp);
    MergedPrefixFree(BeforeMerge(inp), inp.join, chains, head, merged);
    OrderedGraph(merged, order, out);
    MergePreservesFlow(BeforeMerge(inp), inp.join, chains, head, merged, x, y);
    BeforeMergeFlow(inp, i, below, j, belowJ);
  }

  /** Without lakes that is plain reachability in the loaded network, coast or no coast. */
  lemma {:induction false} PublishedFlowWithoutLakes(inp: RunInputs, chains: seq<seq<nat>>, head: seq<nat>,
        merged: seq<Reach>, order: seq<nat>,
                                  out: seq<Reach>, x: nat, y: nat)
    requires ValidInputs(inp) && UniqueSources(Sources(inp)) && Published(inp, chains, head, merged, order, out)
    requires inp.lakes.None? && x < |BeforeMerge(inp)| && y < |BeforeMerge(inp)| && |head| == |BeforeMerge(inp)|
    ensures head[x] < |head| && head[y] < |head|
    ensures
      var rows := BeforeMerge(inp);
      Flows(GraphOf(out), rows[head[x]].id, rows[head[y]].id) <==>
      Flows(GraphOf(AtLoad(inp)), rows[x].id, rows[head[y]].id)
  {
    hide Merged, UniqueIds, PrefixFree, Ordered, UniqueSources, Sources, ValidInputs, Flows, BeforeLakes, AtLoad, WalksAgree;
    IdsStayApart(inp);
    var rows := BeforeMerge(inp);
    MergedPrefixFree(rows, inp.join, chains, head, merged);
    OrderedGraph(merged, order, out);
    MergePreservesFlow(rows, inp.join, chains, head, merged, x, y);
    LoadKeepsWays(inp, x, head[y]);
    AgreeKeepsFlow(GraphOf(AtLoad(inp)), GraphOf(rows), {}, rows[x].id, rows[head[y]].id);
  }
}
