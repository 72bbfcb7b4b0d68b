/** Which reaches a run reports as touched by both the coast and a lake. */
module Ambiguity {
  import opened Wrappers
  import opened Reaches
  import opened Pointers
  import opened Explode
  import opened Tagging
  import C = Coastal
  import CR = CoastRows
  import L = Lakes
  import opened Merge
  import opened Stages
  import opened StageProofs

  /** A reach trimmed at the coast and then met by a lake. */
  ghost predicate TrimmedAndMet(inp: RunInputs, i: nat)
    requires ValidInputs(inp)
  {
    && inp.lakes.Some? && i < |BeforeLakes(inp)|
    && BeforeLakes(inp)[i].id in CoastTouched(inp) && Meetings(inp)[i] != L.Clear
  }

  ghost predicate SplitByLake(inp: RunInputs, i: nat)
    requires ValidInputs(inp) && inp.lakes.Some? && i < |BeforeLakes(inp)|
  {
    L.KindOf(BeforeLakes(inp)[i], Meetings(inp)[i], inp.lakes.value.ids) == L.Through
  }

  /** The coast's list names reaches that stand before the lakes. */
  lemma TrimmedStands(inp: RunInputs, a: Id) returns (i: nat)
    requires ValidInputs(inp) && a in CoastTouched(inp)
    ensures i < |BeforeLakes(inp)| && BeforeLakes(inp)[i].id == a
  {
    hide C.AfterCoast, C.Dropped, BeforeCoast;
    var rows, shapes := BeforeCoast(inp), Shapes(inp);
    C.SurvivorsAreExact(rows, shapes);
    var x: nat :| x < |rows| && C.TrimMask(rows, shapes)[x] && rows[x].id == a;
    assert !C.Dropped(rows, shapes, x);
    assert a in Ids(BeforeLakes(inp));
    var r :| r in BeforeLakes(inp) && r.id == a;
    i :| 0 <= i < |BeforeLakes(inp)| && BeforeLakes(inp)[i] == r;
  }

  /** A piece named like a standing reach is that reach, and not split. */
  lemma PieceIsWhole(rows: seq<Reach>, meetings: seq<L.Meeting>, lakes: seq<Option<string>>, i: nat, j: nat, below: bool)
    requires L.WellClassified(rows, meetings, lakes) && PrefixFree(rows) && i < |rows| && j < |rows|
    requires below ==> L.KindOf(rows[j], meetings[j], lakes) == L.Through
    requires L.Piece(rows[j], meetings[j], lakes, below).id == rows[i].id
    ensures i == j && L.KindOf(rows[j], meetings[j], lakes) != L.Through
  {
    hide L.KindOf, L.Piece;
    L.PieceId(rows[j], meetings[j], lakes, below);
    assert rows[j].id <= rows[i].id;
  }

  /** The coast's list is the ids of reaches with a usable part above their contact and nothing upstream that meets the
      coverage. */
  lemma TrimmedAtCoast(inp: RunInputs, a: Id)
    requires ValidInputs(inp) && inp.coast.Some?
    ensures a in CoastTouched(inp) <==>
      exists i: nat :: i < |BeforeCoast(inp)| && BeforeCoast(inp)[i].id == a
        && Shapes(inp)[i].BeginsOutside? && Shapes(inp)[i].contact.Some? && !CR.CoastAbove(BeforeCoast(inp), Shapes(inp), i)
  {
    var rows, shapes := BeforeCoast(inp), Shapes(inp);
    hide CR.CoastAbove, C.Cascaded, BeforeCoast;
    forall i: nat | i < |rows| {
      CR.DroppedByShape(rows, shapes, i);
    }
  }

  /** Exactly the reaches trimmed at the coast that meet a lake and are not split by it are reported. */
  lemma ReportedExactly(inp: RunInputs, a: Id)
    requires ValidInputs(inp) && UniqueSources(Sources(inp))
    ensures a in Ambiguous(inp) <==>
      exists i: nat :: TrimmedAndMet(inp, i) && !SplitByLake(inp, i) && BeforeLakes(inp)[i].id == a
  {
    hide CoastTouched, BeforeLakes, L.KindOf, L.Shaped, L.Below, PrefixFree, Sources, UniqueSources;
    IdsStayApart(inp);
    if a in Ambiguous(inp) {
      var i := TrimmedStands(inp, a);
      var j, below := MetUnder(inp, a);
      PieceIsWhole(BeforeLakes(inp), Meetings(inp), inp.lakes.value.ids, i, j, below);
      assert TrimmedAndMet(inp, i) && !SplitByLake(inp, i);
    }
    if i: nat :| TrimmedAndMet(inp, i) && !SplitByLake(inp, i) && BeforeLakes(inp)[i].id == a {
      L.PieceId(BeforeLakes(inp)[i], Meetings(inp)[i], inp.lakes.value.ids, false);
    }
  }

  /** An id on the lakes' list is that of a piece of a reach some lake met. */
  lemma MetUnder(inp: RunInputs, a: Id) returns (j: nat, below: bool)
    requires ValidInputs(inp) && a in LakeTouched(inp)
    ensures inp.lakes.Some? && j < |BeforeLakes(inp)| && Meetings(inp)[j] != L.Clear
    ensures below ==> SplitByLake(inp, j)
    ensures L.Piece(BeforeLakes(inp)[j], Meetings(inp)[j], inp.lakes.value.ids, below).id == a
  {
    hide BeforeLakes, L.Shaped, L.Below;
    var rows, meetings, ids := BeforeLakes(inp), Meetings(inp), inp.lakes.value.ids;
    if i :| 0 <= i < |rows| && meetings[i] != L.Clear && L.Shaped(rows[i], meetings[i], ids).id == a {
      j, below := i, false;
    } else {
      j :| 0 <= j < |rows| && L.KindOf(rows[j], meetings[j], ids) == L.Through && L.Below(rows[j], meetings[j], ids).id == a;
      below := true;
    }
  }

  /** A reach both claim goes unreported when the lake splits it: neither its old id nor its pieces' are on both lists. */
  lemma SplitIsNotReported(inp: RunInputs, i: nat, below: bool)
    requires ValidInputs(inp) && UniqueSources(Sources(inp)) && TrimmedAndMet(inp, i) && SplitByLake(inp, i)
    ensures BeforeLakes(inp)[i].id !in Ambiguous(inp)
    ensures L.Piece(BeforeLakes(inp)[i], Meetings(inp)[i], inp.lakes.value.ids, below).id !in Ambiguous(inp)
    ensures L.Piece(BeforeLakes(inp)[i], Meetings(inp)[i], inp.lakes.value.ids, below).id in LakeTouched(inp)
  {
    hide CoastTouched, BeforeLakes, L.KindOf, L.Shaped, L.Below, PrefixFree, Sources, UniqueSources, Ambiguous;
    IdsStayApart(inp);
    var rows := BeforeLakes(inp);
    var name := L.Piece(rows[i], Meetings(inp)[i], inp.lakes.value.ids, below).id;
    ReportedExactly(inp, rows[i].id);
    ReportedExactly(inp, name);
    forall j: nat | j < |rows| ensures (rows[j].id == rows[i].id ==> j == i) && rows[j].id != name {
      L.PieceId(rows[i], Meetings(inp)[i], inp.lakes.value.ids, below);
      OneNameEach(rows, i, j, name);
    }
  }

  lemma OneNameEach(rows: seq<Reach>, i: nat, j: nat, name: Id)
    requires PrefixFree(rows) && i < |rows| && j < |rows| && rows[i].id < name
    ensures (rows[j].id == rows[i].id ==> j == i) && rows[j].id != name
  {
    assert i != j ==> !(rows[i].id <= rows[j].id);
  }

  /** One reach, trimmed at the coast and then passing through a lake, is claimed by both and reported by neither name. */
  lemma {:induction false} ClaimedTwiceReportedNever(inp: RunInputs)
    requires ValidInputs(inp) && inp.coast.Some? && inp.lakes.Some? && inp.streamOrder.None?
    requires |inp.features| == 1 && Lone(inp.features[0].flowpath) && inp.lakes.value.ids == [Some("lake")]
    requires forall rows, k :: 0 <= k < |rows| ==> inp.coast.value(rows)[k] == C.BeginsOutside(Some(C.Contact(0.9, None)))
    requires forall rows, k :: 0 <= k < |rows| ==> inp.lakes.value.classify(rows)[k] == L.Crosses(None, None, [0.2, 0.4], 0)
    ensures [7] in CoastTouched(inp) && {[7, 1], [7, 2]} <= LakeTouched(inp) && Ambiguous(inp) == {}
  {
    OneReachLoaded(inp);
    OneReachTrimmed(inp);
    hide CoastTouched, BeforeLakes, BeforeCoast, LakeTouched, Sources, L.KindOf, L.Piece, Lone, TrimmedAndMet, Ambiguous;
    var r, m, ids := BeforeLakes(inp)[0], Meetings(inp)[0], inp.lakes.value.ids;
    CutsInside(r, m, ids);
    assert TrimmedAndMet(inp, 0) by { MeetsAt(inp, 0); }
    SplitIsNotReported(inp, 0, false);
    SplitIsNotReported(inp, 0, true);
    L.PieceId(r, m, ids, false);
    L.PieceId(r, m, ids, true);
    assert [7] + [1] == [7, 1] && [7] + [2] == [7, 2];
    forall a ensures a !in Ambiguous(inp) {
      ReportedExactly(inp, a);
      forall i: nat | TrimmedAndMet(inp, i) ensures i == 0 {
        MetStands(inp, i);
      }
    }
  }

  lemma MeetsAt(inp: RunInputs, i: nat)
    requires ValidInputs(inp) && inp.lakes.Some? && i < |BeforeLakes(inp)|
    requires BeforeLakes(inp)[i].id in CoastTouched(inp) && Meetings(inp)[i] != L.Clear
    ensures TrimmedAndMet(inp, i)
  {}

  lemma MetStands(inp: RunInputs, i: nat)
    requires ValidInputs(inp) && TrimmedAndMet(inp, i)
    ensures i < |BeforeLakes(inp)|
  {}

  predicate Lone(s: Source) {
    s == Source([7], None, 1.0, false, [1.0])
  }

  lemma OneSource(inp: RunInputs)
    requires inp.streamOrder.None? && |inp.features| == 1
    ensures Sources(inp) == [inp.features[0].flowpath]
  {
    PositionsAll(Passing(inp));
  }

  lemma OneCell(sources: seq<Source>)
    requires |sources| == 1 && Lone(sources[0])
    ensures UniqueSources(sources) && Exploded(sources) == [PartRow(sources, Cell(0, 0))]
  {
    assert Cells(sources[..0]) == [] by { NoCells(sources); }
    assert Cells(sources) == [Cell(0, 0)];
  }

  lemma OneReachLoaded(inp: RunInputs)
    requires inp.streamOrder.None? && |inp.features| == 1 && Lone(inp.features[0].flowpath)
    ensures UniqueSources(Sources(inp)) && |BeforeCoast(inp)| == 1
    ensures BeforeCoast(inp)[0].id == [7] && BeforeCoast(inp)[0].to.None? && BeforeCoast(inp)[0].length == 1.0
  {
    OneSource(inp);
    OneCell(Sources(inp));
    hide Sources, Exploded, HasUpstream, FirstPart;
  }

  lemma OneReachTrimmed(inp: RunInputs)
    requires ValidInputs(inp) && inp.coast.Some? && |BeforeCoast(inp)| == 1 && BeforeCoast(inp)[0].to.None?
    requires BeforeCoast(inp)[0].id == [7]
    requires forall rows, k :: 0 <= k < |rows| ==> inp.coast.value(rows)[k] == C.BeginsOutside(Some(C.Contact(0.9, None)))
    ensures [7] in CoastTouched(inp) && |BeforeLakes(inp)| == 1
    ensures BeforeLakes(inp)[0].id == [7] && BeforeLakes(inp)[0].length == 0.9
  {
    hide BeforeCoast;
    var rows, shapes := BeforeCoast(inp), Shapes(inp);
    assert Topology(rows)[0] == -1;
    forall f: nat | f < 1 ensures !StrictlyDownstream(Topology(rows), f, 0) {
      C.StrictFromNext(Topology(rows), f, 0);
    }
    assert !C.Dropped(rows, shapes, 0);
    PositionsAll(C.Survives(rows, shapes));
    assert C.TrimMask(rows, shapes)[0];
    assert C.Survivors(rows, shapes)[0] == C.AtCoast(rows[0], shapes[0]);
  }

  lemma CutsInside(r: Reach, m: L.Meeting, lakes: seq<Option<string>>)
    requires r.length == 0.9 && m == L.Crosses(None, None, [0.2, 0.4], 0) && |lakes| == 1
    ensures L.KindOf(r, m, lakes) == L.Through
  {
    var cuts := [0.2, 0.4];
    assert cuts[1..] == [0.4] && [0.4][1..] == [];
    assert L.Inside([0.4], 0.9) == [0.4];
  }
}
