/** The coastal pass cuts the network; it reroutes nothing between the reaches it leaves. */
module CoastFlow {
  import opened Wrappers
  import opened Reaches
  import opened Pointers
  import opened Routes
  import opened Coastal

  lemma CoastKeepsUnique(rows: seq<Reach>, shapes: seq<Shape>)
    requires |shapes| == |rows| && UniqueIds(rows)
    ensures UniqueIds(AfterCoast(rows, shapes))
  {
    hide AfterCoast, Survivors, Dropped;
    var out := AfterCoast(rows, shapes);
    forall j, k | 0 <= j < |out| && 0 <= k < |out| && out[j].id == out[k].id ensures j == k {
      SurvivorRow(rows, shapes, j);
      SurvivorRow(rows, shapes, k);
    }
  }

  /** A survivor's pointer is kept, unless it was trimmed or what it pointed at is gone. */
  lemma {:induction false} SurvivorNext(rows: seq<Reach>, shapes: seq<Shape>, i: nat)
    requires |shapes| == |rows| && UniqueIds(rows) && i < |rows| && !Dropped(rows, shapes, i)
    ensures
      var out := AfterCoast(rows, shapes);
      Next(GraphOf(out), rows[i].id)
      == if Trims(shapes[i]) || (rows[i].to.Some? && rows[i].to.value !in Ids(out)) then None else rows[i].to
  {
    hide Dropped, UniqueIds, Trims;
    var out, keep := AfterCoast(rows, shapes), Survives(rows, shapes);
    PositionsComplete(keep, i);
    var k :| 0 <= k < |Positions(keep)| && Positions(keep)[k] == i;
    SurvivorRow(rows, shapes, k);
    CoastKeepsUnique(rows, shapes);
    GraphAt(out, k);
    SameIds(rows, shapes);
  }

  lemma SurvivorIn(rows: seq<Reach>, shapes: seq<Shape>, i: nat)
    requires |shapes| == |rows| && UniqueIds(rows) && i < |rows|
    ensures rows[i].id in Ids(AfterCoast(rows, shapes)) <==> !Dropped(rows, shapes, i)
  {
    hide Dropped, AfterCoast;
    SurvivorsAreExact(rows, shapes);
  }

  lemma {:induction false} CoastOnlyCuts(rows: seq<Reach>, shapes: seq<Shape>, a: Id)
    requires |shapes| == |rows| && UniqueIds(rows)
    ensures
      var g, cut := GraphOf(rows), GraphOf(AfterCoast(rows, shapes));
      Next(cut, a).None? || Next(cut, a) == Next(g, a)
  {
    hide Dropped, AfterCoast, UniqueIds;
    var out := AfterCoast(rows, shapes);
    GraphKeys(out);
    if a in Ids(out) {
      SurvivorsAreExact(rows, shapes);
      var i: nat :| i < |rows| && !Dropped(rows, shapes, i) && rows[i].id == a;
      SurvivorNext(rows, shapes, i);
      GraphAt(rows, i);
    }
  }

  lemma CascadeCarries(rows: seq<Reach>, shapes: seq<Shape>, i: nat, j: nat, k: nat)
    requires |shapes| == |rows| && i < |rows| && j < |rows|
    requires Cascaded(rows, shapes, i) && Follow(Topology(rows), i, k) == j
    ensures Cascaded(rows, shapes, j)
  {
    hide Topology;
    var ds := Topology(rows);
    var f :| 0 <= f < |rows| && (Encompassed(shapes[f]) || Trims(shapes[f])) && StrictlyDownstream(ds, f, i);
    var m: nat :| m > 0 && Follow(ds, f, m) == i;
    FollowSplits(ds, f, m, k);
    assert Follow(ds, f, m + k) == j;
  }

  /** Nothing upstream of a survivor was dropped or trimmed: it would have taken the survivor with it. */
  lemma {:induction false} UpstreamOfSurvivor(rows: seq<Reach>, shapes: seq<Shape>, i: nat, j: nat, k: nat)
    requires |shapes| == |rows| && i < |rows| && j < |rows| && !Dropped(rows, shapes, j)
    requires k > 0 && Follow(Topology(rows), i, k) == j
    ensures !Dropped(rows, shapes, i) && !Trims(shapes[i])
  {
    hide Topology;
    var ds := Topology(rows);
    assert StrictlyDownstream(ds, i, j);
    if Cascaded(rows, shapes, i) {
      CascadeCarries(rows, shapes, i, j, k);
    }
  }

  /** On its way to a survivor the water passes what it always passed. */
  lemma {:induction false} WayKept(rows: seq<Reach>, shapes: seq<Shape>, i: nat, j: nat, k: nat, m: nat)
    requires |shapes| == |rows| && UniqueIds(rows) && i < |rows| && j < |rows|
    requires !Dropped(rows, shapes, j) && Follow(Topology(rows), i, k) == j && m <= k
    ensures Walk(GraphOf(AfterCoast(rows, shapes)), Some(rows[i].id), m) == Walk(GraphOf(rows), Some(rows[i].id), m)
    decreases k
  {
    hide Topology, Dropped, AfterCoast, UniqueIds, Trims;
    if m > 0 {
      var g, cut, d := GraphOf(rows), GraphOf(AfterCoast(rows, shapes)), Topology(rows)[i];
      FollowLeaves(Topology(rows), i, k);
      PointerFound(rows, i);
      UpstreamOfSurvivor(rows, shapes, i, j, k);
      if k > 1 {
        UpstreamOfSurvivor(rows, shapes, d, j, k - 1);
      }
      SurvivorNext(rows, shapes, i);
      SurvivorIn(rows, shapes, d);
      GraphAt(rows, i);
      WayKept(rows, shapes, d, j, k - 1, m - 1);
      WalkStep(g, rows[i].id, m);
      WalkStep(cut, rows[i].id, m);
    }
  }

  /** Between any reach and a survivor, the water takes the same way before and after the pass. */
  lemma {:induction false} CoastKeepsWays(rows: seq<Reach>, shapes: seq<Shape>, i: nat, j: nat)
    requires |shapes| == |rows| && UniqueIds(rows) && i < |rows| && j < |rows| && !Dropped(rows, shapes, j)
    ensures WalksAgree(GraphOf(rows), GraphOf(AfterCoast(rows, shapes)), rows[i].id, rows[j].id)
  {
    hide Topology, Dropped, AfterCoast, UniqueIds;
    var g, cut, a, b := GraphOf(rows), GraphOf(AfterCoast(rows, shapes)), rows[i].id, rows[j].id;
    forall k: nat, m: nat | m <= k && (Walk(g, Some(a), k) == Some(b) || Walk(cut, Some(a), k) == Some(b))
      ensures Walk(g, Some(a), m) == Walk(cut, Some(a), m)
    {
      forall c ensures Next(cut, c).None? || Next(cut, c) == Next(g, c) {
        CoastOnlyCuts(rows, shapes, c);
      }
      CutWalks(g, cut, Some(a), k);
      WalkIsFollow(rows, i, k);
      assert rows[j] in rows;
      SameRowOf(rows, Follow(Topology(rows), i, k), j);
      WayKept(rows, shapes, i, j, k, m);
    }
  }

  lemma SameRowOf(rows: seq<Reach>, i: int, j: nat)
    requires UniqueIds(rows) && -1 <= i < |rows| && j < |rows|
    ensures i >= 0 && rows[i].id == rows[j].id ==> i == j
  {}

  /** Survivor j is downstream of survivor i after the pass exactly when it was before; cycles included. */
  lemma {:induction false} CoastPreservesFlow(rows: seq<Reach>, shapes: seq<Shape>, i: nat, j: nat)
    requires |shapes| == |rows| && UniqueIds(rows) && i < |rows| && j < |rows|
    requires !Dropped(rows, shapes, i) && !Dropped(rows, shapes, j)
    ensures Flows(GraphOf(AfterCoast(rows, shapes)), rows[i].id, rows[j].id) <==> Flows(GraphOf(rows), rows[i].id, rows[j].id)
  {
    hide Flows, WalksAgree, Dropped, AfterCoast;
    CoastKeepsWays(rows, shapes, i, j);
    AgreeKeepsFlow(GraphOf(rows), GraphOf(AfterCoast(rows, shapes)), {}, rows[i].id, rows[j].id);
  }
}
