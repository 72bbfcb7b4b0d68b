/** Rows for the parts of flowpaths stored in several pieces. */
module Explode {
  import opened Wrappers
  import opened Reaches

  /** A flowpath as read: `parts` are the lengths of its disjoint lines, in stored order. */
  datatype Source = Source(id: Id, to: Option<Id>, drainageArea: real, multipart: bool, parts: seq<real>)

  /** Source ids carry no suffix; every geometry has a line, and only multiparts have more. */
  ghost predicate Readable(sources: seq<Source>) {
    forall i :: 0 <= i < |sources| ==>
      && |sources[i].id| == 1
      && (sources[i].to.Some? ==> |sources[i].to.value| == 1)
      && |sources[i].parts| >= 1
      && (!sources[i].multipart ==> |sources[i].parts| == 1)
  }

  predicate UniqueSources(sources: seq<Source>) {
    forall i, j :: 0 <= i < j < |sources| ==> sources[i].id != sources[j].id
  }

  ghost predicate WellRead(sources: seq<Source>) {
    Readable(sources) && UniqueSources(sources)
  }

  // ---------- What the rows of the exploded network are ----------

  /** One row of the exploded frame: which source it came from and which part of it. */
  datatype Cell = Cell(orig: nat, part: nat)

  function Cells(sources: seq<Source>): (cells: seq<Cell>)
    ensures forall k :: 0 <= k < |cells| ==> cells[k].orig < |sources| && cells[k].part < |sources[cells[k].orig].parts|
  {
    if sources == [] then []
    else
      var n := |sources| - 1;
      var last := seq(|sources[n].parts|, p requires 0 <= p < |sources[n].parts| => Cell(n, p));
      Cells(sources[..n]) + last
  }

  function PartId(s: Source, part: nat): Id {
    if s.multipart then s.id + [part + 1] else s.id
  }

  /** Where a pointer at `id` leads once multipart reaches are gone: to the first part. */
  function FirstPart(sources: seq<Source>, id: Id): Id {
    if exists i :: 0 <= i < |sources| && sources[i].multipart && sources[i].id == id then id + [1] else id
  }

  function PartTo(sources: seq<Source>, s: Source, part: nat): Option<Id> {
    if s.multipart && part + 1 < |s.parts| then Some(PartId(s, part + 1))
    else if s.to.Some? then Some(FirstPart(sources, s.to.value))
    else None
  }

  function PartRow(sources: seq<Source>, c: Cell): Reach
    requires c.orig < |sources| && c.part < |sources[c.orig].parts|
  {
    Fresh(PartId(sources[c.orig], c.part), PartTo(sources, sources[c.orig], c.part), sources[c.orig], c.part)
  }

  /** A row as loaded: no flag set, no waterbody met. */
  function Fresh(id: Id, to: Option<Id>, s: Source, part: nat): Reach
    requires part < |s.parts|
  {
    Reach(id, to, s.drainageArea, s.parts[part], false, false, false, false, false, None, None, None)
  }

  function Exploded(sources: seq<Source>): (rows: seq<Reach>)
    ensures |rows| == |Cells(sources)|
  {
    var cells := Cells(sources);
    seq(|cells|, k requires 0 <= k < |cells| => PartRow(sources, cells[k]))
  }

  // ---------- The pass ----------

  method ExplodeMultipart(sources: seq<Source>) returns (rows: seq<Reach>)
    requires WellRead(sources)
    ensures rows == Exploded(sources)
  {
    hide Cells, WellRead, PartTo, FirstPart, Chained, Fresh, FirstPartsOf;
    var cells, ids, downstream := OneRowPerPart(sources);
    var newIds := SuffixParts(sources, cells, ids);
    var chained, firstPart := ChainParts(sources, cells, ids, newIds, downstream);
    // Pointers enter a split flowpath at its top.
    rows := [];
    for k := 0 to |cells|
      invariant |rows| == k && forall j :: 0 <= j < k ==> rows[j] == PartRow(sources, cells[j])
    {
      RedirectedRight(sources, cells, ids, firstPart, k);
      var d := chained[k];
      if d.Some? && d.value in firstPart {
        d := Some(firstPart[d.value]);
      }
      rows := rows + [Fresh(newIds[k], d, sources[cells[k].orig], cells[k].part)];
    }
  }

  /** One row per part, with the columns of the row it came from. */
  method OneRowPerPart(sources: seq<Source>) returns (cells: seq<Cell>, ids: seq<Id>, downstream: seq<Option<Id>>)
    ensures cells == Cells(sources) && |ids| == |cells| && |downstream| == |cells|
    ensures forall k :: 0 <= k < |cells| ==>
      ids[k] == sources[cells[k].orig].id && downstream[k] == sources[cells[k].orig].to
  {
    hide Cells;
    cells, ids, downstream := [], [], [];
    assert Cells(sources[..0]) == [] by { NoCells(sources); }
    for i := 0 to |sources|
      invariant cells == Cells(sources[..i])
      invariant |ids| == |cells| && |downstream| == |cells|
      invariant forall k :: 0 <= k < |cells| ==>
        ids[k] == sources[cells[k].orig].id && downstream[k] == sources[cells[k].orig].to
    {
      var n := |sources[i].parts|;
      CellsStep(sources, i);
      cells := cells + seq(n, p requires 0 <= p < n => Cell(i, p));
      ids := ids + seq(n, _ => sources[i].id);
      downstream := downstream + seq(n, _ => sources[i].to);
    }
    assert sources[..|sources|] == sources;
  }

  lemma NoCells(sources: seq<Source>)
    ensures Cells(sources[..0]) == []
  {}

  lemma CellsStep(sources: seq<Source>, i: nat)
    requires i < |sources|
    ensures
      var n := |sources[i].parts|;
      Cells(sources[..i + 1]) == Cells(sources[..i]) + seq(n, p requires 0 <= p < n => Cell(i, p))
  {
    assert sources[..i + 1][..i] == sources[..i];
  }

  /** Parts take their flowpath's id with a running number behind it. */
  method SuffixParts(sources: seq<Source>, cells: seq<Cell>, ids: seq<Id>) returns (newIds: seq<Id>)
    requires |ids| == |cells| && forall k :: 0 <= k < |cells| ==> cells[k].orig < |sources| && ids[k] == sources[cells[k].orig].id
    ensures |newIds| == |cells|
    ensures forall k :: 0 <= k < |cells| ==> newIds[k] == PartId(sources[cells[k].orig], cells[k].part)
  {
    newIds := ids;
    for k := 0 to |cells|
      invariant |newIds| == |cells|
      invariant forall j :: 0 <= j < |cells| ==>
        newIds[j] == if j < k then PartId(sources[cells[j].orig], cells[j].part) else ids[j]
    {
      if sources[cells[k].orig].multipart {
        newIds := newIds[k := ids[k] + [cells[k].part + 1]];
      }
    }
  }

  /** Water runs from each part into the next, and out of the bottom one as before; meanwhile the top ones are noted. */
  method ChainParts(sources: seq<Source>, cells: seq<Cell>, ids: seq<Id>, newIds: seq<Id>, downstream: seq<Option<Id>>)
    returns (chained: seq<Option<Id>>, firstPart: map<Id, Id>)
    requires WellRead(sources) && cells == Cells(sources)
    requires |ids| == |cells| && |newIds| == |cells| && |downstream| == |cells|
    requires forall k :: 0 <= k < |cells| ==>
      && ids[k] == sources[cells[k].orig].id && downstream[k] == sources[cells[k].orig].to
      && newIds[k] == PartId(sources[cells[k].orig], cells[k].part)
    ensures |chained| == |cells|
    ensures forall k :: 0 <= k < |cells| ==> chained[k] == Chained(sources, cells[k])
    ensures FirstPartsOf(sources, cells, ids, |cells|, firstPart)
  {
    hide Cells, FirstPart, FirstPartsOf, WellRead, Chained, PartId;
    var n := |cells|;
    assert FirstPartsOf(sources, cells, ids, 0, map[]) by { NoFirstParts(sources, cells, ids); }
    chained, firstPart := downstream, map[];
    for k := 0 to n
      invariant |chained| == n
      invariant forall j :: 0 <= j < n ==> chained[j] == if j < k then Chained(sources, cells[j]) else downstream[j]
      invariant FirstPartsOf(sources, cells, ids, k, firstPart)
    {
      FirstPartsStep(sources, cells, ids, k, firstPart);
      ChainedRight(sources, cells, newIds, k);
      if sources[cells[k].orig].multipart {
        if k + 1 < n && cells[k + 1].orig == cells[k].orig {
          chained := chained[k := Some(newIds[k + 1])];
        }
        if k == 0 || cells[k - 1].orig != cells[k].orig {
          firstPart := firstPart[ids[k] := newIds[k]];
        }
      }
    }
  }

  /** What the neighbouring cells say about a part. */
  lemma {:induction false} ChainedRight(sources: seq<Source>, cells: seq<Cell>, newIds: seq<Id>, k: nat)
    requires WellRead(sources) && cells == Cells(sources) && |newIds| == |cells| && k < |cells|
    requires forall k :: 0 <= k < |cells| ==> newIds[k] == PartId(sources[cells[k].orig], cells[k].part)
    ensures
      var s := sources[cells[k].orig];
      && Chained(sources, cells[k]) ==
          (if s.multipart && k + 1 < |cells| && cells[k + 1].orig == cells[k].orig then Some(newIds[k + 1]) else s.to)
      && (cells[k].part == 0 <==> k == 0 || cells[k - 1].orig != cells[k].orig)
      && (s.multipart && cells[k].part == 0 ==> newIds[k] == s.id + [1])
  {
    hide Cells;
    CellInOrder(sources, k);
  }

  lemma NoFirstParts(sources: seq<Source>, cells: seq<Cell>, ids: seq<Id>)
    requires |ids| == |cells| && forall k :: 0 <= k < |cells| ==> cells[k].orig < |sources|
    ensures FirstPartsOf(sources, cells, ids, 0, map[])
  {}

  lemma FirstPartsStep(sources: seq<Source>, cells: seq<Cell>, ids: seq<Id>, k: nat, firstPart: map<Id, Id>)
    requires k < |ids| == |cells| && forall k :: 0 <= k < |cells| ==> cells[k].orig < |sources|
    requires FirstPartsOf(sources, cells, ids, k, firstPart)
    ensures
      var first := sources[cells[k].orig].multipart && cells[k].part == 0;
      FirstPartsOf(sources, cells, ids, k + 1, if first then firstPart[ids[k] := ids[k] + [1]] else firstPart)
  {
    var first := sources[cells[k].orig].multipart && cells[k].part == 0;
    var now := if first then firstPart[ids[k] := ids[k] + [1]] else firstPart;
    forall a | a in now
      ensures now[a] == a + [1] && exists j :: 0 <= j < k + 1 && sources[cells[j].orig].multipart && ids[j] == a
    {
      if first && a == ids[k] {
      } else {
        var j :| 0 <= j < k && sources[cells[j].orig].multipart && ids[j] == a;
      }
    }
  }

  /** The table of exploded reaches: each multipart id seen at part 0, with its first part's id. */
  ghost predicate FirstPartsOf(sources: seq<Source>, cells: seq<Cell>, ids: seq<Id>, n: nat, firstPart: map<Id, Id>)
    requires n <= |ids| == |cells| && forall k :: 0 <= k < |cells| ==> cells[k].orig < |sources|
  {
    && (forall j :: 0 <= j < n && sources[cells[j].orig].multipart && cells[j].part == 0 ==> ids[j] in firstPart)
    && (forall a :: a in firstPart ==>
          && firstPart[a] == a + [1]
          && exists j :: 0 <= j < n && sources[cells[j].orig].multipart && ids[j] == a)
  }

  /** The pointer of a cell before pointers at exploded reaches are moved. */
  function Chained(sources: seq<Source>, c: Cell): Option<Id>
    requires c.orig < |sources|
  {
    var s := sources[c.orig];
    if s.multipart && c.part + 1 < |s.parts| then Some(PartId(s, c.part + 1)) else s.to
  }

  /** Parts of one source are neighbours, in order, from part 0. */
  lemma {:induction false} CellInOrder(sources: seq<Source>, k: nat)
    requires k < |Cells(sources)| && forall i :: 0 <= i < |sources| ==> |sources[i].parts| >= 1
    ensures
      var cells := Cells(sources);
      var c := cells[k];
      && (if c.part + 1 < |sources[c.orig].parts| then k + 1 < |cells| && cells[k + 1] == Cell(c.orig, c.part + 1)
          else k + 1 < |cells| ==> cells[k + 1].orig != c.orig)
      && (if c.part > 0 then k > 0 && cells[k - 1].orig == c.orig
          else k > 0 ==> cells[k - 1].orig != c.orig)
  {
    var n := |sources| - 1;
    var front := Cells(sources[..n]);
    if k < |front| {
      CellInOrder(sources[..n], k);
    }
  }

  /** Every part of every source has its row. */
  lemma {:induction false} CellsComplete(sources: seq<Source>, i: nat, p: nat)
    requires i < |sources| && p < |sources[i].parts|
    ensures Cell(i, p) in Cells(sources)
  {
    var n := |sources| - 1;
    if i < n {
      CellsComplete(sources[..n], i, p);
    } else {
      var front := Cells(sources[..n]);
      assert Cells(sources)[|front| + p] == Cell(i, p);
    }
  }

  lemma {:induction false} RedirectedRight(sources: seq<Source>, cells: seq<Cell>, ids: seq<Id>, firstPart: map<Id, Id>, k: nat)
    requires WellRead(sources) && cells == Cells(sources) && |ids| == |cells| && k < |cells|
    requires forall k :: 0 <= k < |cells| ==> ids[k] == sources[cells[k].orig].id
    requires FirstPartsOf(sources, cells, ids, |cells|, firstPart)
    ensures PartTo(sources, sources[cells[k].orig], cells[k].part) == Redirect(firstPart, Chained(sources, cells[k]))
  {
    hide Cells, FirstPartsOf, FirstPart, PartTo, Redirect, Chained, WellRead;
    var c := cells[k];
    assert |sources[c.orig].id| == 1 by { SourceIdIsBare(sources, c.orig); }
    OnlySourcesMove(sources, cells, ids, firstPart);
    if sources[c.orig].to.Some? {
      FirstPartKnown(sources, cells, ids, firstPart, sources[c.orig].to.value);
    }
    RedirectedPart(sources, c, firstPart);
  }

  lemma SourceIdIsBare(sources: seq<Source>, i: nat)
    requires WellRead(sources) && i < |sources|
    ensures |sources[i].id| == 1
  {}

  /** The ids moved are those of sources, never those of parts. */
  lemma OnlySourcesMove(sources: seq<Source>, cells: seq<Cell>, ids: seq<Id>, firstPart: map<Id, Id>)
    requires WellRead(sources) && cells == Cells(sources) && |ids| == |cells|
    requires forall k :: 0 <= k < |cells| ==> ids[k] == sources[cells[k].orig].id
    requires FirstPartsOf(sources, cells, ids, |cells|, firstPart)
    ensures forall a :: a in firstPart ==> |a| == 1
  {
    hide Cells;
  }

  lemma RedirectedPart(sources: seq<Source>, c: Cell, firstPart: map<Id, Id>)
    requires c.orig < |sources| && |sources[c.orig].id| == 1 && forall a :: a in firstPart ==> |a| == 1
    requires
      var to := sources[c.orig].to;
      to.Some? ==> (if to.value in firstPart then firstPart[to.value] else to.value) == FirstPart(sources, to.value)
    ensures PartTo(sources, sources[c.orig], c.part) == Redirect(firstPart, Chained(sources, c))
  {
    hide FirstPart;
    assert |PartId(sources[c.orig], c.part + 1)| == if sources[c.orig].multipart then 2 else 1;
  }

  lemma {:induction false} FirstPartKnown(sources: seq<Source>, cells: seq<Cell>, ids: seq<Id>, firstPart: map<Id, Id>, a: Id)
    requires WellRead(sources) && cells == Cells(sources) && |ids| == |cells|
    requires forall k :: 0 <= k < |cells| ==> ids[k] == sources[cells[k].orig].id
    requires FirstPartsOf(sources, cells, ids, |cells|, firstPart)
    ensures (if a in firstPart then firstPart[a] else a) == FirstPart(sources, a)
  {
    hide Cells;
    if i :| 0 <= i < |sources| && sources[i].multipart && sources[i].id == a {
      CellsComplete(sources, i, 0);
      var j :| 0 <= j < |cells| && cells[j] == Cell(i, 0);
      assert ids[j] == a;
    }
  }

  function Redirect(firstPart: map<Id, Id>, d: Option<Id>): Option<Id> {
    if d.Some? && d.value in firstPart then Some(firstPart[d.value]) else d
  }
}
