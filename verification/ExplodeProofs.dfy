/** Exploding a multipart reach changes the rows, not where the water goes. */
module ExplodeProofs {
  import opened Wrappers
  import opened Reaches
  import opened Explode

  /** The pointers as read, before any row is split. */
  function SourceGraph(sources: seq<Source>): Graph {
    if sources == [] then map[]
    else SourceGraph(sources[..|sources| - 1])[sources[|sources| - 1].id := sources[|sources| - 1].to]
  }

  lemma {:induction false} SourceGraphAt(sources: seq<Source>, i: nat)
    requires WellRead(sources) && i < |sources|
    ensures Next(SourceGraph(sources), sources[i].id) == sources[i].to
  {
    var n := |sources| - 1;
    if i < n {
      SourceGraphAt(sources[..n], i);
    }
  }

  lemma {:induction false} SourceGraphKeys(sources: seq<Source>, a: Id)
    requires a in SourceGraph(sources)
    ensures exists i :: 0 <= i < |sources| && sources[i].id == a
  {
    var n := |sources| - 1;
    if a != sources[n].id {
      SourceGraphKeys(sources[..n], a);
      var i :| 0 <= i < |sources[..n]| && sources[..n][i].id == a;
      assert sources[i].id == a;
    }
  }

  // ---------- Ids ----------

  lemma FirstPartOfSource(sources: seq<Source>, i: nat)
    requires WellRead(sources) && i < |sources|
    ensures FirstPart(sources, sources[i].id) == PartId(sources[i], 0)
  {}

  lemma PartIdsDiffer(sources: seq<Source>, c: Cell, d: Cell)
    requires WellRead(sources) && c.orig < |sources| && d.orig < |sources|
    requires c.part < |sources[c.orig].parts| && d.part < |sources[d.orig].parts|
    requires PartId(sources[c.orig], c.part) <= PartId(sources[d.orig], d.part)
    ensures c == d
  {
    var s, t := sources[c.orig], sources[d.orig];
    assert s.id[0] == PartId(s, c.part)[0] == PartId(t, d.part)[0] == t.id[0];
    assert s.id == [s.id[0]] && t.id == [t.id[0]];
    assert c.orig == d.orig;
    if s.multipart {
      assert PartId(s, c.part)[1] == c.part + 1 && PartId(t, d.part)[1] == d.part + 1;
    }
  }

  /** Suffixed ids of underscore-free sources never begin one another. */
  lemma {:induction false} ExplodedIsPrefixFree(sources: seq<Source>)
    requires WellRead(sources)
    ensures PrefixFree(Exploded(sources))
  {
    hide Cells, WellRead, PartTo;
    var rows, cells := Exploded(sources), Cells(sources);
    forall i, j | 0 <= i < |rows| && 0 <= j < |rows| && i != j ensures !(rows[i].id <= rows[j].id) {
      if rows[i].id <= rows[j].id {
        PartIdsDiffer(sources, cells[i], cells[j]);
        CellsDiffer(sources, i, j);
        assert false;
      }
    }
  }

  lemma {:induction false} CellsDiffer(sources: seq<Source>, j: nat, k: nat)
    requires j < |Cells(sources)| && k < |Cells(sources)| && j != k
    ensures Cells(sources)[j] != Cells(sources)[k]
  {
    var front := Cells(sources[..|sources| - 1]);
    if j < |front| && k < |front| {
      CellsDiffer(sources[..|sources| - 1], j, k);
    }
  }

  // ---------- The rows ----------

  ghost predicate HasParts(sources: seq<Source>, id: Id) {
    exists i :: 0 <= i < |sources| && sources[i].multipart && sources[i].id == id
  }

  /** The row of part `p`, counting from 0: 3434 in three parts becomes 3434_1, 3434_2 and 3434_3, each flowing into the next and
      the last one on, to the first part of what it flows into if that is in parts. Nothing is tagged yet. */
  ghost predicate RowOfPart(sources: seq<Source>, s: Source, p: nat, r: Reach)
    requires p < |s.parts|
  {
    && r.id == (if s.multipart then s.id + [p + 1] else s.id)
    && r.to == (if p + 1 < |s.parts| then Some(s.id + [p + 2])
                else if s.to.Some? && HasParts(sources, s.to.value) then Some(s.to.value + [1])
                else s.to)
    && r.drainageArea == s.drainageArea && r.length == s.parts[p]
    && !r.headwater && !r.terminal && !r.lakeInlet && !r.lakeOutlet && !r.trimmed
    && r.reason.None? && r.lakeTo.None? && r.coastTo.None?
  }

  ghost predicate IsAPart(sources: seq<Source>, r: Reach) {
    exists i, p :: 0 <= i < |sources| && 0 <= p < |sources[i].parts| && RowOfPart(sources, sources[i], p, r)
  }

  /** The exploded network is the rows of all parts, and nothing else. */
  lemma {:induction false} ExplodedRows(sources: seq<Source>, r: Reach)
    requires WellRead(sources)
    ensures r in Exploded(sources) <==> IsAPart(sources, r)
  {
    hide Cells, UniqueSources;
    var rows, cells := Exploded(sources), Cells(sources);
    if r in rows {
      var k :| 0 <= k < |rows| && rows[k] == r;
      var c := cells[k];
      PartRowIsRowOfPart(sources, c);
      assert RowOfPart(sources, sources[c.orig], c.part, r);
    }
    if i, p :| 0 <= i < |sources| && 0 <= p < |sources[i].parts| && RowOfPart(sources, sources[i], p, r) {
      CellsComplete(sources, i, p);
      var k :| 0 <= k < |cells| && cells[k] == Cell(i, p);
      PartRowIsRowOfPart(sources, cells[k]);
      assert rows[k] == r;
    }
  }

  lemma PartRowIsRowOfPart(sources: seq<Source>, c: Cell)
    requires Readable(sources) && c.orig < |sources| && c.part < |sources[c.orig].parts|
    ensures RowOfPart(sources, sources[c.orig], c.part, PartRow(sources, c))
  {
    var s := sources[c.orig];
    if s.to.Some? {
      assert HasParts(sources, s.to.value) <==> FirstPart(sources, s.to.value) != s.to.value;
    }
  }

  // ---------- Where the water goes ----------

  /** The row of one part, in the exploded graph. */
  lemma PartNext(sources: seq<Source>, i: nat, p: nat)
    requires WellRead(sources) && i < |sources| && p < |sources[i].parts|
    ensures Next(GraphOf(Exploded(sources)), PartId(sources[i], p)) == PartTo(sources, sources[i], p)
  {
    hide Cells, WellRead, PartTo, PartId;
    var rows, cells := Exploded(sources), Cells(sources);
    ExplodedIsPrefixFree(sources);
    PrefixFreeIsUnique(rows);
    CellsComplete(sources, i, p);
    var k :| 0 <= k < |cells| && cells[k] == Cell(i, p);
    assert rows[k] == PartRow(sources, cells[k]);
    GraphAt(rows, k);
  }

  /** From a reach's first part, the pointers visit its parts in order. */
  lemma {:induction false} PartsInOrder(sources: seq<Source>, i: nat, p: nat)
    requires WellRead(sources) && i < |sources| && p < |sources[i].parts|
    ensures Walk(GraphOf(Exploded(sources)), Some(PartId(sources[i], 0)), p) == Some(PartId(sources[i], p))
  {
    hide GraphOf, Exploded, Cells, FirstPart;
    var g := GraphOf(Exploded(sources));
    if p > 0 {
      PartsInOrder(sources, i, p - 1);
      PartNext(sources, i, p - 1);
      WalkSplits(g, Some(PartId(sources[i], 0)), p - 1, 1);
      assert Walk(g, Some(PartId(sources[i], p - 1)), 1) == Walk(g, Some(PartId(sources[i], p)), 0);
    }
  }

  function Entry(sources: seq<Source>, to: Option<Id>): Option<Id> {
    if to.Some? then Some(FirstPart(sources, to.value)) else None
  }

  /** ... and then the first part of its original downstream reach. */
  lemma LeavesByLastPart(sources: seq<Source>, i: nat, k: nat)
    requires WellRead(sources) && i < |sources| && k >= |sources[i].parts|
    ensures Walk(GraphOf(Exploded(sources)), Some(PartId(sources[i], 0)), k)
         == Walk(GraphOf(Exploded(sources)), Entry(sources, sources[i].to), k - |sources[i].parts|)
  {
    hide GraphOf, Exploded, Cells, FirstPart;
    var g, last := GraphOf(Exploded(sources)), |sources[i].parts| - 1;
    PartsInOrder(sources, i, last);
    PartNext(sources, i, last);
    WalkSplits(g, Some(PartId(sources[i], 0)), last, k - last);
  }

  /** Downstream in the source, downstream between first parts. */
  lemma {:induction false} ExplodeKeepsFlow(sources: seq<Source>, i: nat, j: nat, k: nat)
    requires WellRead(sources) && i < |sources| && j < |sources|
    requires Walk(SourceGraph(sources), Some(sources[i].id), k) == Some(sources[j].id)
    ensures Flows(GraphOf(Exploded(sources)), PartId(sources[i], 0), PartId(sources[j], 0))
    decreases k
  {
    var g, s := GraphOf(Exploded(sources)), sources[i];
    if k == 0 {
      assert i == j;
      FlowsSelf(g, PartId(s, 0));
    } else {
      SourceGraphAt(sources, i);
      var t := s.to.value;
      SourceReached(sources, t, k - 1, j);
      var m :| 0 <= m < |sources| && sources[m].id == t;
      ExplodeKeepsFlow(sources, m, j, k - 1);
      LeavesByLastPart(sources, i, |s.parts|);
      FirstPartOfSource(sources, m);
      assert Flows(g, PartId(s, 0), PartId(sources[m], 0));
      FlowsOn(g, PartId(s, 0), PartId(sources[m], 0), PartId(sources[j], 0));
    }
  }

  /** A walk that arrives at a source reach started at one. */
  lemma SourceReached(sources: seq<Source>, t: Id, k: nat, j: nat)
    requires WellRead(sources) && j < |sources| && Walk(SourceGraph(sources), Some(t), k) == Some(sources[j].id)
    ensures exists m :: 0 <= m < |sources| && sources[m].id == t
  {
    if k > 0 {
      if t in SourceGraph(sources) {
        SourceGraphKeys(sources, t);
      }
    }
  }

  /** Downstream between first parts, downstream in the source. */
  lemma {:induction false} ExplodeAddsNoFlow(sources: seq<Source>, i: nat, j: nat, k: nat)
    requires WellRead(sources) && i < |sources| && j < |sources|
    requires Walk(GraphOf(Exploded(sources)), Some(PartId(sources[i], 0)), k) == Some(PartId(sources[j], 0))
    ensures Flows(SourceGraph(sources), sources[i].id, sources[j].id)
    decreases k
  {
    var g, s := GraphOf(Exploded(sources)), sources[i];
    if k < |s.parts| {
      PartsInOrder(sources, i, k);
      PartIdsDiffer(sources, Cell(i, k), Cell(j, 0));
      FlowsSelf(SourceGraph(sources), s.id);
    } else {
      LeavesByLastPart(sources, i, k);
      var t := s.to.value;
      EntryIsSource(sources, t, k - |s.parts|, j);
      var m :| 0 <= m < |sources| && sources[m].id == t;
      FirstPartOfSource(sources, m);
      ExplodeAddsNoFlow(sources, m, j, k - |s.parts|);
      SourceGraphAt(sources, i);
      FlowsStep(SourceGraph(sources), s.id, t);
      FlowsOn(SourceGraph(sources), s.id, t, sources[j].id);
    }
  }

  /** A pointer out of the extract leads nowhere, so it cannot arrive at a first part. */
  lemma EntryIsSource(sources: seq<Source>, t: Id, k: nat, j: nat)
    requires WellRead(sources) && j < |sources| && |t| == 1
    requires Walk(GraphOf(Exploded(sources)), Some(FirstPart(sources, t)), k) == Some(PartId(sources[j], 0))
    ensures exists m :: 0 <= m < |sources| && sources[m].id == t
  {
    hide Cells;
    var rows, g := Exploded(sources), GraphOf(Exploded(sources));
    var a := FirstPart(sources, t);
    if a == t {
      GraphKeys(rows);
      if k == 0 {
        assert PartId(sources[j], 0) == t;
        assert !sources[j].multipart by { assert |sources[j].id + [1]| == 2; }
      } else {
        assert t in g;
        var r :| r in rows && r.id == t;
        var n :| 0 <= n < |rows| && rows[n] == r;
        var c := Cells(sources)[n];
        assert !sources[c.orig].multipart by { assert |sources[c.orig].id + [c.part + 1]| == 2; }
      }
    } else {
      assert |a| == 2;
    }
  }

  /** Explode preserves connectivity, both ways. */
  lemma {:induction false} ExplodePreservesFlow(sources: seq<Source>, i: nat, j: nat)
    requires WellRead(sources) && i < |sources| && j < |sources|
    ensures Flows(SourceGraph(sources), sources[i].id, sources[j].id) <==>
      Flows(GraphOf(Exploded(sources)), FirstPart(sources, sources[i].id), FirstPart(sources, sources[j].id))
  {
    hide WellRead, Cells;
    FirstPartOfSource(sources, i);
    FirstPartOfSource(sources, j);
    if Flows(SourceGraph(sources), sources[i].id, sources[j].id) {
      var k: nat :| Walk(SourceGraph(sources), Some(sources[i].id), k) == Some(sources[j].id);
      ExplodeKeepsFlow(sources, i, j, k);
    }
    var g := GraphOf(Exploded(sources));
    if Flows(g, PartId(sources[i], 0), PartId(sources[j], 0)) {
      var k: nat :| Walk(g, Some(PartId(sources[i], 0)), k) == Some(PartId(sources[j], 0));
      ExplodeAddsNoFlow(sources, i, j, k);
    }
  }

  // ---------- No cycle is made ----------

  /** A rank that falls along every pointer between flowpaths as read. */
  ghost predicate SourcesFall(sources: seq<Source>, rank: map<Id, nat>) {
    && (forall i :: 0 <= i < |sources| ==> sources[i].id in rank)
    && forall i, j :: 0 <= i < |sources| && 0 <= j < |sources| && sources[i].to == Some(sources[j].id) ==>
        rank[sources[j].id] < rank[sources[i].id]
  }

  ghost predicate AcyclicSources(sources: seq<Source>) {
    exists rank :: SourcesFall(sources, rank)
  }

  function MostParts(sources: seq<Source>): (most: nat)
    ensures forall i :: 0 <= i < |sources| ==> |sources[i].parts| <= most
  {
    if sources == [] then 0
    else
      var rest, last := MostParts(sources[..|sources| - 1]), |sources[|sources| - 1].parts|;
      if last > rest then last else rest
  }

  /** Parts rank within their source's step, later parts lower. */
  ghost function PartRank(rank: map<Id, nat>, most: nat, id: Id): nat {
    if |id| == 0 || [id[0]] !in rank then 0
    else Ladder(rank[[id[0]]], most, if |id| == 2 && id[1] <= most then most - id[1] else most)
  }

  function Ladder(step: nat, most: nat, rung: nat): nat {
    step * (most + 1) + rung
  }

  lemma LadderFalls(low: nat, high: nat, most: nat, a: nat, b: nat)
    requires low < high && a <= most
    ensures Ladder(low, most, a) < Ladder(high, most, b)
  {
    var gap := high - low - 1;
    assert high * (most + 1) == low * (most + 1) + (most + 1) + gap * (most + 1);
  }

  lemma PartRankOf(sources: seq<Source>, rank: map<Id, nat>, c: Cell)
    requires WellRead(sources) && SourcesFall(sources, rank)
    requires c.orig < |sources| && c.part < |sources[c.orig].parts|
    ensures
      var s, most := sources[c.orig], MostParts(sources);
      && s.id in rank && c.part + 1 <= most
      && PartRank(rank, most, PartId(s, c.part)) == Ladder(rank[s.id], most, if s.multipart then most - (c.part + 1) else most)
  {
    hide MostParts, Ladder;
    var s := sources[c.orig];
    assert s.id == [s.id[0]];
  }

  /** The cell a row comes from. */
  lemma RowCell(sources: seq<Source>, r: Reach) returns (c: Cell)
    requires r in Exploded(sources)
    ensures c.orig < |sources| && c.part < |sources[c.orig].parts| && r == PartRow(sources, c)
  {
    hide Cells;
    var k :| 0 <= k < |Exploded(sources)| && Exploded(sources)[k] == r;
    c := Cells(sources)[k];
  }

  lemma PointerDescends(sources: seq<Source>, rank: map<Id, nat>, c: Cell, d: Cell)
    requires WellRead(sources) && SourcesFall(sources, rank)
    requires c.orig < |sources| && c.part < |sources[c.orig].parts|
    requires d.orig < |sources| && d.part < |sources[d.orig].parts|
    requires PartTo(sources, sources[c.orig], c.part) == Some(PartId(sources[d.orig], d.part))
    ensures
      var most := MostParts(sources);
      PartRank(rank, most, PartId(sources[d.orig], d.part)) < PartRank(rank, most, PartId(sources[c.orig], c.part))
  {
    hide Cells, MostParts, PartRank;
    var s, t := sources[c.orig], sources[d.orig];
    PartRankOf(sources, rank, c);
    PartRankOf(sources, rank, d);
    if s.multipart && c.part + 1 < |s.parts| {
      PartIdsDiffer(sources, Cell(c.orig, c.part + 1), d);
    } else {
      assert PartId(t, d.part)[0] == t.id[0] && FirstPart(sources, s.to.value)[0] == s.to.value[0];
      assert s.to.value == [s.to.value[0]] && t.id == [t.id[0]];
      var most := MostParts(sources);
      LadderFalls(rank[t.id], rank[s.id], most, if t.multipart then most - (d.part + 1) else most,
                  if s.multipart then most - (c.part + 1) else most);
    }
  }

  /** Splitting into parts makes no cycle. */
  lemma {:induction false} ExplodedIsAcyclic(sources: seq<Source>)
    requires WellRead(sources) && AcyclicSources(sources)
    ensures Acyclic(Exploded(sources))
  {
    hide Exploded, WellRead, SourcesFall, PartRank, PartTo, PartId, MostParts;
    var rank :| SourcesFall(sources, rank);
    var rows, most := Exploded(sources), MostParts(sources);
    var now := map a | a in Ids(rows) :: PartRank(rank, most, a);
    forall r | r in rows && r.to.Some? && r.to.value in Ids(rows) ensures now[r.to.value] < now[r.id] {
      var c := RowCell(sources, r);
      var t :| t in rows && t.id == r.to.value;
      var d := RowCell(sources, t);
      PointerDescends(sources, rank, c, d);
      assert r.id in Ids(rows);
    }
    assert Falls(rows, now);
  }
}
