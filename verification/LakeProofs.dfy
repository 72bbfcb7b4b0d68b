/** What the lake pass guarantees, and exactly when its pointers stay sound. */
module LakeProofs {
  import opened Wrappers
  import opened Reaches
  import opened Lakes

  // ---------- Rows of the result ----------

  /** The pointer a piece carries before retired ids are followed. */
  function PieceTo(r: Reach, kind: Kind, below: bool): Option<Id> {
    if kind == Enters || kind == Between || (kind == Through && !below) then None else r.to
  }

  lemma {:induction false} PieceFields(r: Reach, m: Meeting, lakes: seq<Option<string>>, below: bool)
    requires m.Crosses? ==> InLayer(m, |lakes|)
    requires below ==> KindOf(r, m, lakes) == Through
    requires KindOf(r, m, lakes) != Swallowed
    ensures
      var piece, kind := Piece(r, m, lakes, below), KindOf(r, m, lakes);
      && piece.to == PieceTo(r, kind, below)
      && (Coherent(r) ==> Coherent(piece))
  {
    hide KindOf, Inside;
  }

  /** A standing row: the piece of a source row, its pointer followed through the splits. */
  ghost predicate StandsFor(rows: seq<Reach>, meetings: seq<Meeting>, lakes: seq<Option<string>>, r: Reach, i: nat, below: bool)
    requires WellClassified(rows, meetings, lakes) && i < |rows|
  {
    && KindOf(rows[i], meetings[i], lakes) != Swallowed
    && (below ==> KindOf(rows[i], meetings[i], lakes) == Through)
    && r == Remap(SplitMap(rows, meetings, lakes), Piece(rows[i], meetings[i], lakes, below))
  }

  lemma StandingSource(rows: seq<Reach>, meetings: seq<Meeting>, lakes: seq<Option<string>>, r: Reach) returns (i: nat, below: bool)
    requires WellClassified(rows, meetings, lakes) && r in Standing(rows, meetings, lakes)
    ensures i < |rows| && StandsFor(rows, meetings, lakes, r, i, below)
  {
    hide KindOf, Piece, SplitMap, Remap, Standing;
    var standing := Standing(rows, meetings, lakes);
    var k :| 0 <= k < |standing| && standing[k] == r;
    StandingRow(rows, meetings, lakes, k);
    var o := Origin(rows, meetings, lakes, k);
    i, below := o.0, o.1;
  }

  lemma RemapKeeps(remap: map<Id, Id>, r: Reach)
    ensures
      var s := Remap(remap, r);
      && s.id == r.id && s.to.Some? == r.to.Some? && s.headwater == r.headwater
      && (Coherent(r) <==> Coherent(s))
  {}

  lemma SweptRows(standing: seq<Reach>)
    ensures forall r :: r in Swept(standing) <==> r in standing && !Orphan(standing, r)
  {
    hide Orphan;
    var keep := Not(OrphanMask(standing));
    SelectMembers(standing, keep);
    forall r | r in standing && !Orphan(standing, r) ensures r in Swept(standing) {
      var k :| 0 <= k < |standing| && standing[k] == r;
      assert keep[k];
    }
  }

  // ---------- The orphan sweep ----------

  /** One pass suffices: the sweep leaves no orphan. */
  lemma OneSweepSuffices(standing: seq<Reach>, r: Reach)
    requires r in Swept(standing)
    ensures !Orphan(Swept(standing), r)
  {
    SweptRows(standing);
    if r.to.None? && !r.headwater {
      var s :| s in standing && s.to == Some(r.id);
      assert s in Swept(standing);
    }
  }

  /** Nor does it leave a new dangling pointer, or hide an old one. */
  lemma SweepKeepsPointers(standing: seq<Reach>)
    ensures NoDangling(Swept(standing)) <==> NoDangling(standing)
  {
    SweptRows(standing);
    var out := Swept(standing);
    forall r | r in standing && r.to.Some? ensures r.to.value in Ids(out) <==> r.to.value in Ids(standing) {
      if t :| t in standing && t.id == r.to.value {
        assert t in out;
      }
    }
  }

  // ---------- When pointers stay sound ----------

  /** The contact assumption: whatever flows into a swallowed reach is itself swallowed, or ends in the lake. */
  ghost predicate LakeContact(rows: seq<Reach>, meetings: seq<Meeting>, lakes: seq<Option<string>>)
    requires WellClassified(rows, meetings, lakes)
  {
    forall i, j :: 0 <= i < |rows| && 0 <= j < |rows| && rows[i].to == Some(rows[j].id) ==>
      (KindOf(rows[j], meetings[j], lakes) == Swallowed ==>
        KindOf(rows[i], meetings[i], lakes) in {Swallowed, Enters, Between})
  }

  /** No piece of another reach ever takes the id of a swallowed one. */
  lemma SwallowedIdIsGone(rows: seq<Reach>, meetings: seq<Meeting>, lakes: seq<Option<string>>, j: nat)
    requires WellClassified(rows, meetings, lakes) && PrefixFree(rows) && j < |rows|
    requires KindOf(rows[j], meetings[j], lakes) == Swallowed
    ensures rows[j].id !in Ids(Standing(rows, meetings, lakes))
    ensures rows[j].id !in SplitMap(rows, meetings, lakes)
  {
    hide KindOf, Standing, Piece;
    PrefixFreeIsUnique(rows);
    forall r | r in Standing(rows, meetings, lakes) ensures r.id != rows[j].id {
      var i, below := StandingSource(rows, meetings, lakes, r);
      PieceId(rows[i], meetings[i], lakes, below);
      assert i != j && !(rows[i].id <= rows[j].id);
      assert rows[i].id <= r.id;
    }
  }

  /** A live id is found where its pointer now leads. */
  lemma TargetStands(rows: seq<Reach>, meetings: seq<Meeting>, lakes: seq<Option<string>>, j: nat)
    requires WellClassified(rows, meetings, lakes) && PrefixFree(rows) && j < |rows|
    requires KindOf(rows[j], meetings[j], lakes) != Swallowed
    ensures
      var remap, a := SplitMap(rows, meetings, lakes), rows[j].id;
      (if a in remap then remap[a] else a) in Ids(Standing(rows, meetings, lakes))
  {
    hide KindOf, Standing, Piece;
    var remap, a := SplitMap(rows, meetings, lakes), rows[j].id;
    PieceStands(rows, meetings, lakes, j, false);
    PieceId(rows[j], meetings[j], lakes, false);
    RemapKeeps(remap, Piece(rows[j], meetings[j], lakes, false));
    if a in remap {
      var i :| 0 <= i < |rows| && KindOf(rows[i], meetings[i], lakes) == Through && rows[i].id == a;
      assert rows[i].id <= rows[j].id;
    }
  }

  /** No pointer dangles after the lake pass if and only if the contact assumption holds. */
  lemma {:induction false} PointersSoundIffContact(rows: seq<Reach>, meetings: seq<Meeting>, lakes: seq<Option<string>>)
    requires WellClassified(rows, meetings, lakes) && PrefixFree(rows) && NoDangling(rows)
    ensures NoDangling(AfterLakes(rows, meetings, lakes)) <==> LakeContact(rows, meetings, lakes)
  {
    hide KindOf, Standing, PrefixFree, NoDangling, LakeContact, Swept;
    SweepKeepsPointers(Standing(rows, meetings, lakes));
    if LakeContact(rows, meetings, lakes) {
      ContactKeepsPointers(rows, meetings, lakes);
    }
    if NoDangling(Standing(rows, meetings, lakes)) {
      PointersNeedContact(rows, meetings, lakes);
    }
  }

  lemma ContactKeepsPointers(rows: seq<Reach>, meetings: seq<Meeting>, lakes: seq<Option<string>>)
    requires WellClassified(rows, meetings, lakes) && PrefixFree(rows) && NoDangling(rows)
    requires LakeContact(rows, meetings, lakes)
    ensures NoDangling(Standing(rows, meetings, lakes))
  {
    hide KindOf, Standing, PrefixFree, Piece, SplitMap;
    var standing := Standing(rows, meetings, lakes);
    forall r | r in standing && r.to.Some? ensures r.to.value in Ids(standing) {
      var i, below := StandingSource(rows, meetings, lakes, r);
      PieceFields(rows[i], meetings[i], lakes, below);
      assert rows[i] in rows && rows[i].to.Some?;
      var t :| t in rows && t.id == rows[i].to.value;
      var j :| 0 <= j < |rows| && rows[j] == t;
      assert rows[i].to == Some(rows[j].id);
      TargetStands(rows, meetings, lakes, j);
    }
  }

  lemma PointersNeedContact(rows: seq<Reach>, meetings: seq<Meeting>, lakes: seq<Option<string>>)
    requires WellClassified(rows, meetings, lakes) && PrefixFree(rows)
    requires NoDangling(Standing(rows, meetings, lakes))
    ensures LakeContact(rows, meetings, lakes)
  {
    hide KindOf, Standing, PrefixFree, Piece, SplitMap;
    var standing := Standing(rows, meetings, lakes);
    forall i, j | 0 <= i < |rows| && 0 <= j < |rows| && rows[i].to == Some(rows[j].id)
      && KindOf(rows[j], meetings[j], lakes) == Swallowed
      ensures KindOf(rows[i], meetings[i], lakes) in {Swallowed, Enters, Between}
    {
      var kind := KindOf(rows[i], meetings[i], lakes);
      SwallowedIdIsGone(rows, meetings, lakes, j);
      if kind !in {Swallowed, Enters, Between} {
        var below := kind == Through;
        PieceStands(rows, meetings, lakes, i, below);
        PieceFields(rows[i], meetings[i], lakes, below);
        assert false;
      }
    }
  }

  // ---------- The other invariants ----------

  lemma StandingCoherent(rows: seq<Reach>, meetings: seq<Meeting>, lakes: seq<Option<string>>)
    requires WellClassified(rows, meetings, lakes) && AllCoherent(rows)
    ensures AllCoherent(Standing(rows, meetings, lakes))
  {
    hide KindOf, Standing, Piece, SplitMap, Coherent, Remap;
    forall r | r in Standing(rows, meetings, lakes) ensures Coherent(r) {
      var i, below := StandingSource(rows, meetings, lakes, r);
      assert rows[i] in rows;
      PieceFields(rows[i], meetings[i], lakes, below);
      RemapKeeps(SplitMap(rows, meetings, lakes), Piece(rows[i], meetings[i], lakes, below));
    }
  }

  /** The rank of a piece is that of the reach it was cut from. */
  ghost function PieceRank(rows: seq<Reach>, rank: map<Id, nat>, a: Id): nat {
    if a in Ids(rows) && a in rank then rank[a]
    else if |a| > 0 && a[..|a| - 1] in rank then rank[a[..|a| - 1]]
    else 0
  }

  lemma PieceRankIs(rows: seq<Reach>, rank: map<Id, nat>, i: nat, a: Id)
    requires PrefixFree(rows) && Falls(rows, rank) && i < |rows|
    requires a == rows[i].id || a == rows[i].id + [1] || a == rows[i].id + [2]
    ensures rows[i].id in rank && PieceRank(rows, rank, a) == rank[rows[i].id]
  {
    assert rows[i] in rows;
    if a != rows[i].id {
      assert a[..|a| - 1] == rows[i].id;
      forall r | r in rows ensures r.id != a {
        var j :| 0 <= j < |rows| && rows[j] == r;
        assert rows[i].id <= a;
        assert i != j ==> !(rows[i].id <= rows[j].id);
      }
    }
  }

  lemma StandingAcyclic(rows: seq<Reach>, meetings: seq<Meeting>, lakes: seq<Option<string>>)
    requires WellClassified(rows, meetings, lakes) && PrefixFree(rows) && NoDangling(rows) && Acyclic(rows)
    ensures Acyclic(Standing(rows, meetings, lakes))
  {
    hide KindOf, Standing, Piece, PrefixFree, PieceRank;
    var standing := Standing(rows, meetings, lakes);
    var rank :| Falls(rows, rank);
    var now := map a | a in Ids(standing) :: PieceRank(rows, rank, a);
    forall r | r in standing && r.to.Some? && r.to.value in Ids(standing) ensures now[r.to.value] < now[r.id] {
      var i, below := StandingSource(rows, meetings, lakes, r);
      PieceFields(rows[i], meetings[i], lakes, below);
      PieceId(rows[i], meetings[i], lakes, below);
      PieceRankIs(rows, rank, i, r.id);
      assert rows[i] in rows && rows[i].to.Some?;
      var t :| t in rows && t.id == rows[i].to.value;
      var j :| 0 <= j < |rows| && rows[j] == t;
      PieceRankIs(rows, rank, j, r.to.value);
      assert r.id in Ids(standing);
    }
    assert Falls(standing, now);
  }

  /** A standing row's id is fresh, and the sweep picks among them. */
  lemma LakesKeepIdsApart(rows: seq<Reach>, meetings: seq<Meeting>, lakes: seq<Option<string>>)
    requires WellClassified(rows, meetings, lakes) && PrefixFree(rows)
    ensures PrefixFree(AfterLakes(rows, meetings, lakes))
  {
    hide Standing, PrefixFree, Orphan;
    var standing := Standing(rows, meetings, lakes);
    StandingPrefixFree(rows, meetings, lakes);
    PickedPrefixFree(standing, Swept(standing), Positions(Not(OrphanMask(standing))));
  }

  /** Under the contact assumption the whole invariant survives the lake pass. */
  lemma {:induction false} LakesKeepSound(rows: seq<Reach>, meetings: seq<Meeting>, lakes: seq<Option<string>>)
    requires WellClassified(rows, meetings, lakes) && Sound(rows) && LakeContact(rows, meetings, lakes)
    ensures Sound(AfterLakes(rows, meetings, lakes))
  {
    hide KindOf, Standing, PrefixFree, NoDangling, LakeContact, Falls, Coherent, Orphan;
    var standing := Standing(rows, meetings, lakes);
    StandingPrefixFree(rows, meetings, lakes);
    StandingCoherent(rows, meetings, lakes);
    StandingAcyclic(rows, meetings, lakes);
    PointersSoundIffContact(rows, meetings, lakes);
    var at := Positions(Not(OrphanMask(standing)));
    forall k | 0 <= k < |at| ensures PickedRow(standing[at[k]], Swept(standing)[k]) {
      assert standing[at[k]] in standing;
    }
    PickedSound(standing, Swept(standing), at);
  }

  // ---------- Accounting ----------

  /** Rows out = rows in - swallowed - orphaned + splits. */
  lemma {:induction false} LakesAccount(rows: seq<Reach>, meetings: seq<Meeting>, lakes: seq<Option<string>>)
    requires WellClassified(rows, meetings, lakes)
    ensures |AfterLakes(rows, meetings, lakes)|
      == |rows| - Count(KindMask(rows, meetings, lakes, Swallowed)) - Count(OrphanMask(Standing(rows, meetings, lakes)))
         + Count(KindMask(rows, meetings, lakes, Through))
  {
    hide KindOf, Orphan;
    PositionsCount(Not(OrphanMask(Standing(rows, meetings, lakes))));
    PositionsCount(OrphanMask(Standing(rows, meetings, lakes)));
    PositionsCount(KindMask(rows, meetings, lakes, Swallowed));
    PositionsCount(Not(KindMask(rows, meetings, lakes, Swallowed)));
    PositionsCount(KindMask(rows, meetings, lakes, Through));
  }

  // ---------- Lengths ----------

  /** Crossing distances come sorted, without repeats. */
  ghost predicate DistinctCuts(cuts: seq<real>) {
    forall i, j :: 0 <= i < j < |cuts| ==> cuts[i] < cuts[j]
  }

  lemma {:induction false} InsideRises(cuts: seq<real>, length: real, low: real)
    requires DistinctCuts(cuts) && forall k :: 0 <= k < |cuts| ==> low < cuts[k]
    ensures DistinctCuts(Inside(cuts, length))
    ensures forall k :: 0 <= k < |Inside(cuts, length)| ==> low < Inside(cuts, length)[k] && 0.0 < Inside(cuts, length)[k] < length
  {
    if cuts != [] {
      InsideRises(cuts[1..], length, cuts[0]);
    }
  }

  /** What is kept of a cut reach is never empty and never the whole of it; the two pieces of a split leave out the
      wet stretch between them. */
  lemma PiecesFit(r: Reach, m: Meeting, lakes: seq<Option<string>>)
    requires m.Crosses? && InLayer(m, |lakes|) && DistinctCuts(m.cuts)
    ensures
      var kind, kept, below := KindOf(r, m, lakes), Shaped(r, m, lakes).length, Below(r, m, lakes).length;
      && (kind in {Enters, Leaves, Between, Through} ==> 0.0 < kept < r.length)
      && (kind == Through ==> 0.0 < below && kept + below < r.length)
      && (kind == Plain ==> kept == r.length)
  {
    if m.cuts != [] {
      InsideRises(m.cuts, r.length, m.cuts[0] - 1.0);
    }
    var inner := Inside(m.cuts, r.length);
    if |inner| >= 2 {
      assert inner[0] < inner[|inner| - 1];
    }
  }

  // ---------- The contact assumption can fail ----------

  /** Reach 1 flows into reach 2. It only touches the shore, so it never met the lake; but reach 2 lies within the lake, or
      begins on its shore and runs dry before it enters, a cut at its very start. Either way reach 2 is swallowed while
      reach 1 still points at it. */
  lemma ContactCanFail(rows: seq<Reach>, meetings: seq<Meeting>, lakes: seq<Option<string>>)
    requires rows == [
      Reach([1], Some([2]), 1.0, 1.0, true, false, false, false, false, None, None, None),
      Reach([2], None, 1.0, 1.0, false, true, false, false, false, Some(Reason.Outlet), None, None)]
    requires meetings == [Clear, Within] || meetings == [Clear, Crosses(None, Some(0), [0.0, 0.5], 0)]
    requires lakes == [Some("lake")]
    ensures Sound(rows) && WellClassified(rows, meetings, lakes)
    ensures !NoDangling(AfterLakes(rows, meetings, lakes))
  {
    hide Standing, Swept, SplitMap, Shaped, Below, Inside;
    assert rows[0].id[0] != rows[1].id[0];
    assert rows[0] in rows && rows[1] in rows;
    var rank: map<Id, nat> := map[[1] := 1, [2] := 0];
    assert Falls(rows, rank);
    assert rows[0].to == Some(rows[1].id);
    assert !LakeContact(rows, meetings, lakes);
    PointersSoundIffContact(rows, meetings, lakes);
  }

  // ---------- Lake references ----------

  predicate Identified(lakes: seq<Option<string>>) {
    forall p :: 0 <= p < |lakes| ==> lakes[p].Some?
  }

  lemma PieceReference(r: Reach, m: Meeting, lakes: seq<Option<string>>, below: bool)
    requires (m.Crosses? ==> InLayer(m, |lakes|)) && Identified(lakes)
    requires below ==> KindOf(r, m, lakes) == Through
    requires r.lakeInlet || r.lakeOutlet ==> r.lakeTo.Some?
    ensures
      var piece := Piece(r, m, lakes, below);
      piece.lakeInlet || piece.lakeOutlet ==> piece.lakeTo.Some?
  {
    hide Inside;
  }

  /** When every lake has an id, no reach ends in a lake or leaves one without naming it. */
  lemma {:induction false} LakesGiveReferences(rows: seq<Reach>, meetings: seq<Meeting>, lakes: seq<Option<string>>)
    requires WellClassified(rows, meetings, lakes) && Identified(lakes) && Referenced(rows)
    ensures Referenced(AfterLakes(rows, meetings, lakes))
  {
    hide KindOf, Standing, Piece, SplitMap, Swept, Orphan, Identified;
    SweptRows(Standing(rows, meetings, lakes));
    forall r | r in AfterLakes(rows, meetings, lakes) && (r.lakeInlet || r.lakeOutlet) ensures r.lakeTo.Some? {
      var i, below := StandingSource(rows, meetings, lakes, r);
      assert rows[i] in rows;
      PieceReference(rows[i], meetings[i], lakes, below);
    }
  }
}
