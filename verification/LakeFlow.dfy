/** Where the water still goes once lakes are cut out of the network. */
module LakeFlow {
  import opened Wrappers
  import opened Reaches
  import opened Routes
  import opened Lakes
  import opened LakeProofs

  /** Water that enters the reach also leaves it by its pointer: it met no lake, or only leaves one. */
  predicate LetsThrough(kind: Kind) {
    kind == Plain || kind == Leaves
  }

  /** The piece keeps the reach's pointer; of a split reach, the lower one does. */
  predicate KeepsPointer(kind: Kind, below: bool) {
    LetsThrough(kind) || (kind == Through && below)
  }

  /** The reaches water can still cross. */
  ghost function Crossable(rows: seq<Reach>, meetings: seq<Meeting>, lakes: seq<Option<string>>): (ids: set<Id>)
    requires WellClassified(rows, meetings, lakes)
  {
    set i | 0 <= i < |rows| && LetsThrough(KindOf(rows[i], meetings[i], lakes)) :: rows[i].id
  }

  ghost predicate IsPiece(rows: seq<Reach>, meetings: seq<Meeting>, lakes: seq<Option<string>>, i: nat, below: bool)
    requires WellClassified(rows, meetings, lakes)
  {
    && i < |rows| && KindOf(rows[i], meetings[i], lakes) != Swallowed
    && (below ==> KindOf(rows[i], meetings[i], lakes) == Through)
  }

  ghost function PieceName(rows: seq<Reach>, meetings: seq<Meeting>, lakes: seq<Option<string>>, i: nat, below: bool): Id
    requires WellClassified(rows, meetings, lakes) && i < |rows|
  {
    Piece(rows[i], meetings[i], lakes, below).id
  }

  // ---------- One step ----------

  /** A standing piece points at the upper piece of what its reach pointed at, or at the retired id of a swallowed reach,
      or nowhere when the lake took its lower end. */
  lemma PieceNext(rows: seq<Reach>, meetings: seq<Meeting>, lakes: seq<Option<string>>, i: nat, below: bool)
    requires WellClassified(rows, meetings, lakes) && PrefixFree(rows) && IsPiece(rows, meetings, lakes, i, below)
    ensures
      var next := Next(GraphOf(Standing(rows, meetings, lakes)), PieceName(rows, meetings, lakes, i, below));
      if !KeepsPointer(KindOf(rows[i], meetings[i], lakes), below) then next.None?
      else next == Remap(SplitMap(rows, meetings, lakes), rows[i]).to
  {
    hide KindOf, Standing, PrefixFree, SplitMap, Piece;
    var standing := Standing(rows, meetings, lakes);
    var r := Remap(SplitMap(rows, meetings, lakes), Piece(rows[i], meetings[i], lakes, below));
    PieceStands(rows, meetings, lakes, i, below);
    StandingPrefixFree(rows, meetings, lakes);
    PrefixFreeIsUnique(standing);
    GraphRows(standing);
    PieceFields(rows[i], meetings[i], lakes, below);
    RemapKeeps(SplitMap(rows, meetings, lakes), Piece(rows[i], meetings[i], lakes, below));
  }

  /** A retired or live id, followed: the upper piece of a reach that stands, and nothing of one swallowed. */
  lemma TargetPiece(rows: seq<Reach>, meetings: seq<Meeting>, lakes: seq<Option<string>>, j: nat)
    requires WellClassified(rows, meetings, lakes) && PrefixFree(rows) && j < |rows|
    ensures
      var a, remap := rows[j].id, SplitMap(rows, meetings, lakes);
      var target := if a in remap then remap[a] else a;
      if KindOf(rows[j], meetings[j], lakes) == Swallowed then target !in Ids(Standing(rows, meetings, lakes))
      else target == PieceName(rows, meetings, lakes, j, false)
  {
    hide KindOf, Standing, Piece;
    if KindOf(rows[j], meetings[j], lakes) == Swallowed {
      SwallowedIdIsGone(rows, meetings, lakes, j);
    } else {
      PieceId(rows[j], meetings[j], lakes, false);
      if rows[j].id in SplitMap(rows, meetings, lakes) {
        var i :| 0 <= i < |rows| && KindOf(rows[i], meetings[i], lakes) == Through && rows[i].id == rows[j].id;
        assert rows[i].id <= rows[j].id;
      }
    }
  }

  lemma PieceNameStands(rows: seq<Reach>, meetings: seq<Meeting>, lakes: seq<Option<string>>, i: nat, below: bool)
    requires WellClassified(rows, meetings, lakes) && IsPiece(rows, meetings, lakes, i, below)
    ensures PieceName(rows, meetings, lakes, i, below) in Ids(Standing(rows, meetings, lakes))
  {
    hide KindOf, Standing, SplitMap, Piece;
    PieceStands(rows, meetings, lakes, i, below);
    RemapKeeps(SplitMap(rows, meetings, lakes), Piece(rows[i], meetings[i], lakes, below));
  }

  lemma PieceNamesDiffer(rows: seq<Reach>, meetings: seq<Meeting>, lakes: seq<Option<string>>,
                         i: nat, below: bool, j: nat, belowJ: bool)
    requires WellClassified(rows, meetings, lakes) && PrefixFree(rows)
    requires IsPiece(rows, meetings, lakes, i, below) && IsPiece(rows, meetings, lakes, j, belowJ)
    requires PieceName(rows, meetings, lakes, i, below) == PieceName(rows, meetings, lakes, j, belowJ)
    ensures i == j && below == belowJ
  {
    hide KindOf, Piece;
    PieceId(rows[i], meetings[i], lakes, below);
    PieceId(rows[j], meetings[j], lakes, belowJ);
    var name := PieceName(rows, meetings, lakes, i, below);
    assert rows[i].id <= name && rows[j].id <= name;
    TwoPrefixes(rows[i].id, name, rows[j].id, name);
    SuffixesDiffer(rows[i].id);
  }

  lemma SuffixesDiffer(a: Id)
    ensures a + [1] != a + [2]
  {
    assert (a + [1])[|a|] != (a + [2])[|a|];
  }

  /** The row a pointer names, in a network where none dangles. */
  lemma PointedAt(rows: seq<Reach>, i: nat) returns (d: nat)
    requires NoDangling(rows) && i < |rows| && rows[i].to.Some?
    ensures d < |rows| && rows[i].to == Some(rows[d].id)
  {
    assert rows[i] in rows;
    var t :| t in rows && t.id == rows[i].to.value;
    d :| 0 <= d < |rows| && rows[d] == t;
  }

  lemma CrossableIs(rows: seq<Reach>, meetings: seq<Meeting>, lakes: seq<Option<string>>, d: nat)
    requires WellClassified(rows, meetings, lakes) && PrefixFree(rows) && d < |rows|
    ensures rows[d].id in Crossable(rows, meetings, lakes) <==> LetsThrough(KindOf(rows[d], meetings[d], lakes))
  {
    hide KindOf;
    PrefixFreeIsUnique(rows);
  }

  /** A pointer kept leads to the upper piece of the reach below, or out of the network when that was swallowed. */
  lemma KeptStep(rows: seq<Reach>, meetings: seq<Meeting>, lakes: seq<Option<string>>, i: nat, below: bool, d: nat)
    requires WellClassified(rows, meetings, lakes) && PrefixFree(rows) && IsPiece(rows, meetings, lakes, i, below)
    requires KeepsPointer(KindOf(rows[i], meetings[i], lakes), below) && d < |rows| && rows[i].to == Some(rows[d].id)
    ensures
      var next := Next(GraphOf(Standing(rows, meetings, lakes)), PieceName(rows, meetings, lakes, i, below));
      && next.Some?
      && (if KindOf(rows[d], meetings[d], lakes) == Swallowed then next.value !in Ids(Standing(rows, meetings, lakes))
          else next.value == PieceName(rows, meetings, lakes, d, false))
  {
    hide KindOf, Standing, PrefixFree, SplitMap, PieceName, IsPiece, KeepsPointer;
    PieceNext(rows, meetings, lakes, i, below);
    TargetPiece(rows, meetings, lakes, d);
  }

  // ---------- The whole way ----------

  lemma FirstStep(rows: seq<Reach>, meetings: seq<Meeting>, lakes: seq<Option<string>>,
                  i: nat, below: bool, d: nat, j: nat, belowJ: bool)
    requires WellClassified(rows, meetings, lakes) && PrefixFree(rows)
    requires IsPiece(rows, meetings, lakes, i, below) && IsPiece(rows, meetings, lakes, j, belowJ)
    requires KeepsPointer(KindOf(rows[i], meetings[i], lakes), below) && d < |rows| && rows[i].to == Some(rows[d].id)
    ensures
      Walk(GraphOf(Standing(rows, meetings, lakes)), Some(PieceName(rows, meetings, lakes, i, below)), 1)
        == Some(PieceName(rows, meetings, lakes, j, belowJ))
      <==> !belowJ && Route(GraphOf(rows), Crossable(rows, meetings, lakes), rows[i].id, rows[j].id, 1)
  {
    hide KindOf, Standing, PrefixFree, SplitMap, PieceName, Crossable, KeepsPointer;
    var h := GraphOf(Standing(rows, meetings, lakes));
    KeptStep(rows, meetings, lakes, i, below, d);
    PieceNameStands(rows, meetings, lakes, j, belowJ);
    PrefixFreeIsUnique(rows);
    GraphAt(rows, i);
    RouteOfOne(GraphOf(rows), Crossable(rows, meetings, lakes), rows[i].id, rows[j].id);
    WalkStep(h, PieceName(rows, meetings, lakes, i, below), 1);
    var next := Next(h, PieceName(rows, meetings, lakes, i, below));
    WalkNone(h, next);
    if KindOf(rows[d], meetings[d], lakes) != Swallowed && next == Some(PieceName(rows, meetings, lakes, j, belowJ)) {
      PieceNamesDiffer(rows, meetings, lakes, d, false, j, belowJ);
    }
  }

  lemma LaterStep(rows: seq<Reach>, meetings: seq<Meeting>, lakes: seq<Option<string>>,
                  i: nat, below: bool, d: nat, j: nat, k: nat)
    requires WellClassified(rows, meetings, lakes) && PrefixFree(rows) && k > 1
    requires IsPiece(rows, meetings, lakes, i, below) && j < |rows|
    requires KeepsPointer(KindOf(rows[i], meetings[i], lakes), below) && d < |rows| && rows[i].to == Some(rows[d].id)
    ensures
      var g, h := GraphOf(rows), GraphOf(Standing(rows, meetings, lakes));
      var via, walk := Crossable(rows, meetings, lakes), Walk(h, Some(PieceName(rows, meetings, lakes, i, below)), k);
      if KindOf(rows[d], meetings[d], lakes) == Swallowed then walk.None? && !Route(g, via, rows[i].id, rows[j].id, k)
      else
        && walk == Walk(h, Some(PieceName(rows, meetings, lakes, d, false)), k - 1)
        && (Route(g, via, rows[i].id, rows[j].id, k) <==>
              LetsThrough(KindOf(rows[d], meetings[d], lakes)) && Route(g, via, rows[d].id, rows[j].id, k - 1))
  {
    hide KindOf, Standing, PrefixFree, SplitMap, PieceName, Crossable, KeepsPointer, Route;
    var g, h := GraphOf(rows), GraphOf(Standing(rows, meetings, lakes));
    var via, name := Crossable(rows, meetings, lakes), PieceName(rows, meetings, lakes, i, below);
    KeptStep(rows, meetings, lakes, i, below, d);
    PrefixFreeIsUnique(rows);
    GraphAt(rows, i);
    CrossableIs(rows, meetings, lakes, d);
    RouteStep(g, via, rows[i].id, rows[j].id, k);
    WalkStep(h, name, k);
    GraphKeys(Standing(rows, meetings, lakes));
    var next := Next(h, name).value;
    if next !in h {
      WalkStep(h, next, k - 1);
      NowhereToGo(h, k - 2);
    }
  }

  lemma NowhereToGo(g: Graph, k: nat)
    ensures Walk(g, None, k) == None
  {}

  /** From one piece to another the water takes k steps exactly when the reach's pointer was kept, k steps join the
      reaches as they were, across reaches that let it through, and it arrives at the upper piece. */
  lemma {:induction false} PieceRoute(rows: seq<Reach>, meetings: seq<Meeting>, lakes: seq<Option<string>>,
                                      i: nat, below: bool, j: nat, belowJ: bool, k: nat)
    requires WellClassified(rows, meetings, lakes) && PrefixFree(rows) && NoDangling(rows) && k > 0
    requires IsPiece(rows, meetings, lakes, i, below) && IsPiece(rows, meetings, lakes, j, belowJ)
    ensures
      Walk(GraphOf(Standing(rows, meetings, lakes)), Some(PieceName(rows, meetings, lakes, i, below)), k)
        == Some(PieceName(rows, meetings, lakes, j, belowJ))
      <==>
      && !belowJ && KeepsPointer(KindOf(rows[i], meetings[i], lakes), below)
      && Route(GraphOf(rows), Crossable(rows, meetings, lakes), rows[i].id, rows[j].id, k)
    decreases k
  {
    hide KindOf, Standing, PrefixFree, NoDangling, SplitMap, PieceName, Crossable, Route;
    var g, h, via := GraphOf(rows), GraphOf(Standing(rows, meetings, lakes)), Crossable(rows, meetings, lakes);
    PieceNext(rows, meetings, lakes, i, below);
    WalkStep(h, PieceName(rows, meetings, lakes, i, below), k);
    PrefixFreeIsUnique(rows);
    GraphAt(rows, i);
    if rows[i].to.None? || !KeepsPointer(KindOf(rows[i], meetings[i], lakes), below) {
      NowhereToGo(h, k - 1);
      if rows[i].to.None? {
        NoRouteFromEnd(g, via, rows[i].id, rows[j].id, k);
      }
    } else {
      var d := PointedAt(rows, i);
      if k == 1 {
        FirstStep(rows, meetings, lakes, i, below, d, j, belowJ);
      } else {
        LaterStep(rows, meetings, lakes, i, below, d, j, k);
        if KindOf(rows[d], meetings[d], lakes) != Swallowed {
          PieceRoute(rows, meetings, lakes, d, false, j, belowJ, k - 1);
        }
      }
    }
  }

  lemma NoRouteFromEnd(g: Graph, via: set<Id>, a: Id, b: Id, k: nat)
    requires Next(g, a).None? && k > 0
    ensures !Route(g, via, a, b, k)
  {
    WalkStep(g, a, k);
  }

  // ---------- After the sweep ----------

  /** An orphan points nowhere and nothing points at it, so the sweep moves no water. */
  lemma SweepKeepsNext(standing: seq<Reach>, a: Id)
    requires PrefixFree(standing)
    ensures Next(GraphOf(Swept(standing)), a) == Next(GraphOf(standing), a)
  {
    hide Orphan, Swept, PrefixFree;
    var out := Swept(standing);
    SweptPrefixFree(standing);
    PrefixFreeIsUnique(standing);
    PrefixFreeIsUnique(out);
    GraphRows(standing);
    GraphRows(out);
    SweptRows(standing);
    if r :| r in standing && r.id == a {
      if Orphan(standing, r) {
        OrphanEnds(standing, r);
        SameIdSameRow(standing);
        assert a !in Ids(out);
      }
    }
  }

  lemma OrphanEnds(standing: seq<Reach>, r: Reach)
    requires Orphan(standing, r)
    ensures r.to.None?
  {}

  lemma SameIdSameRow(rows: seq<Reach>)
    requires UniqueIds(rows)
    ensures forall r, s :: r in rows && s in rows && r.id == s.id ==> r == s
  {}

  lemma SweptPrefixFree(standing: seq<Reach>)
    requires PrefixFree(standing)
    ensures PrefixFree(Swept(standing))
  {
    hide PrefixFree, Orphan;
    PickedPrefixFree(standing, Swept(standing), Positions(Not(OrphanMask(standing))));
  }

  /** What the lake pass leaves of the flow: piece j is downstream of piece i exactly when they are the same piece, or i
      keeps its reach's pointer, j is the upper piece of its reach, and the water went from reach i to reach j across
      reaches that let it through. Cycles included. */
  lemma {:induction false} LakesLeaveFlow(rows: seq<Reach>, meetings: seq<Meeting>, lakes: seq<Option<string>>,
                       i: nat, below: bool, j: nat, belowJ: bool)
    requires WellClassified(rows, meetings, lakes) && PrefixFree(rows) && NoDangling(rows)
    requires IsPiece(rows, meetings, lakes, i, below) && IsPiece(rows, meetings, lakes, j, belowJ)
    ensures
      Flows(GraphOf(AfterLakes(rows, meetings, lakes)), PieceName(rows, meetings, lakes, i, below),
            PieceName(rows, meetings, lakes, j, belowJ))
      <==>
      || (i == j && below == belowJ)
      || (&& !belowJ && KeepsPointer(KindOf(rows[i], meetings[i], lakes), below)
          && FlowsVia(GraphOf(rows), Crossable(rows, meetings, lakes), rows[i].id, rows[j].id))
  {
    hide KindOf, Standing, PrefixFree, NoDangling, PieceName, Crossable, Route, KeepsPointer, Swept;
    var standing, via := Standing(rows, meetings, lakes), Crossable(rows, meetings, lakes);
    var g, h, out := GraphOf(rows), GraphOf(standing), GraphOf(AfterLakes(rows, meetings, lakes));
    var a, b := PieceName(rows, meetings, lakes, i, below), PieceName(rows, meetings, lakes, j, belowJ);
    StandingPrefixFree(rows, meetings, lakes);
    forall c ensures Next(out, c) == Next(h, c) {
      SweepKeepsNext(standing, c);
    }
    if k: nat :| Walk(out, Some(a), k) == Some(b) {
      SameNextSameWalk(out, h, Some(a), k);
      if k == 0 {
        PieceNamesDiffer(rows, meetings, lakes, i, below, j, belowJ);
      } else {
        PieceRoute(rows, meetings, lakes, i, below, j, belowJ, k);
      }
    }
    if i == j && below == belowJ {
      FlowsSelf(out, a);
    }
    if !belowJ && KeepsPointer(KindOf(rows[i], meetings[i], lakes), below) {
      if k: nat :| Route(g, via, rows[i].id, rows[j].id, k) {
        assert k > 0 by { RouteMoves(g, via, rows[i].id, rows[j].id, k); }
        PieceRoute(rows, meetings, lakes, i, below, j, belowJ, k);
        SameNextSameWalk(out, h, Some(a), k);
      }
    }
  }

  lemma RouteMoves(g: Graph, via: set<Id>, a: Id, b: Id, k: nat)
    requires Route(g, via, a, b, k)
    ensures k > 0
  {}
}
