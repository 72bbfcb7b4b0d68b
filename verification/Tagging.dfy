/** Tagging the loaded network: outlets and headwaters. */
module Tagging {
  import opened Wrappers
  import opened Reaches
  import opened Pointers

  /** A pointer out of the extract is nulled, and a reach without one is an outlet. */
  function Outletted(rows: seq<Reach>, r: Reach): Reach {
    if r.to.None? || Locate(rows, r.to.value) < 0 then r.(to := None, terminal := true, reason := Some(Outlet)) else r
  }

  function TerminalsTagged(rows: seq<Reach>): (out: seq<Reach>)
    ensures |out| == |rows| && forall i :: 0 <= i < |rows| ==> out[i] == Outletted(rows, rows[i])
  {
    seq(|rows|, i requires 0 <= i < |rows| => Outletted(rows, rows[i]))
  }

  predicate HasUpstream(rows: seq<Reach>, id: Id) {
    exists s :: s in rows && s.to == Some(id)
  }

  function HeadwatersTagged(rows: seq<Reach>): (out: seq<Reach>)
    ensures |out| == |rows|
    ensures forall i :: 0 <= i < |rows| ==>
      out[i] == if HasUpstream(rows, rows[i].id) then rows[i] else rows[i].(headwater := true)
  {
    seq(|rows|, i requires 0 <= i < |rows| =>
      if HasUpstream(rows, rows[i].id) then rows[i] else rows[i].(headwater := true))
  }

  function Tagged(rows: seq<Reach>): (out: seq<Reach>)
    ensures |out| == |rows|
  {
    HeadwatersTagged(TerminalsTagged(rows))
  }

  method TagTerminalReaches(rows: seq<Reach>) returns (out: seq<Reach>)
    ensures out == TerminalsTagged(rows)
  {
    out := rows;
    for i := 0 to |rows|
      invariant |out| == |rows|
      invariant forall j :: 0 <= j < i ==> out[j] == Outletted(rows, rows[j])
      invariant forall j :: i <= j < |rows| ==> out[j] == rows[j]
    {
      if rows[i].to.Some? && Locate(rows, rows[i].to.value) < 0 {
        out := out[i := out[i].(to := None)];
      }
      if out[i].to.None? {
        out := out[i := out[i].(terminal := true, reason := Some(Outlet))];
      }
    }
  }

  method TagHeadwaterReaches(rows: seq<Reach>) returns (out: seq<Reach>)
    ensures out == HeadwatersTagged(rows)
  {
    out := rows;
    for i := 0 to |rows|
      invariant |out| == |rows|
      invariant forall j :: 0 <= j < |rows| ==> out[j] == if j < i then HeadwatersTagged(rows)[j] else rows[j]
    {
      if !HasUpstream(rows, rows[i].id) {
        out := out[i := out[i].(headwater := true)];
      }
    }
  }

  // ---------- What tagging establishes ----------

  /** Rows as loaded carry no tag yet. */
  ghost predicate Untagged(rows: seq<Reach>) {
    forall i :: 0 <= i < |rows| ==> !rows[i].terminal && rows[i].reason.None? && !rows[i].headwater
  }

  lemma OutlettedRow(rows: seq<Reach>, r: Reach)
    requires !r.terminal && r.reason.None?
    ensures
      var t := Outletted(rows, r);
      && t.id == r.id && Coherent(t) && t.headwater == r.headwater
      && t.to == (if r.to.Some? && r.to.value in Ids(rows) then r.to else None)
  {
    if r.to.Some? {
      var a := r.to.value;
      if Locate(rows, a) < 0 {
        forall s | s in rows ensures s.id != a {
          var k :| 0 <= k < |rows| && rows[k] == s;
        }
      } else {
        assert rows[Locate(rows, a)] in rows;
      }
    }
  }

  lemma UpstreamKept(rows: seq<Reach>, id: Id)
    requires Untagged(rows) && id in Ids(rows)
    ensures HasUpstream(TerminalsTagged(rows), id) <==> HasUpstream(rows, id)
  {
    hide Outletted;
    var once := TerminalsTagged(rows);
    if s :| s in rows && s.to == Some(id) {
      var j :| 0 <= j < |rows| && rows[j] == s;
      OutlettedRow(rows, s);
      assert once[j] in once;
    }
    if s :| s in once && s.to == Some(id) {
      var j :| 0 <= j < |once| && once[j] == s;
      OutlettedRow(rows, rows[j]);
      assert rows[j] in rows;
    }
  }

  /** A tagged row: same reach, its pointer kept when it names a row, and flags that say what they mean. */
  lemma {:induction false} TaggedRow(rows: seq<Reach>, i: nat)
    requires Untagged(rows) && i < |rows|
    ensures
      var r := Tagged(rows)[i];
      && r.id == rows[i].id && Coherent(r)
      && r.to == (if rows[i].to.Some? && rows[i].to.value in Ids(rows) then rows[i].to else None)
      && (r.headwater <==> !HasUpstream(rows, r.id))
  {
    hide HasUpstream, Outletted;
    assert rows[i] in rows;
    OutlettedRow(rows, rows[i]);
    UpstreamKept(rows, rows[i].id);
  }

  /** Nothing else of it changes: a reach without a pointer is an outlet, and no other reason is given. */
  lemma {:induction false} TagsOnly(rows: seq<Reach>, i: nat)
    requires Untagged(rows) && i < |rows|
    ensures
      var r := Tagged(rows)[i];
      r == rows[i].(to := r.to, headwater := r.headwater, terminal := r.to.None?,
                    reason := if r.to.None? then Some(Outlet) else None)
  {
    hide HasUpstream;
    OutlettedRow(rows, rows[i]);
  }

  lemma SameTaggedIds(rows: seq<Reach>)
    requires Untagged(rows)
    ensures Ids(Tagged(rows)) == Ids(rows)
  {
    hide Tagged, HasUpstream, Coherent;
    var out := Tagged(rows);
    forall i | 0 <= i < |rows| ensures out[i].id == rows[i].id && out[i] in out && rows[i] in rows {
      TaggedRow(rows, i);
    }
    IdsByPosition(rows, out);
  }

  lemma IdsByPosition(rows: seq<Reach>, out: seq<Reach>)
    requires |out| == |rows| && forall i :: 0 <= i < |rows| ==> out[i].id == rows[i].id
    ensures Ids(out) == Ids(rows)
  {
    assert forall i :: 0 <= i < |rows| ==> out[i] in out && rows[i] in rows;
  }

  /** After tagging no pointer dangles and every flag agrees with its pointer, whatever was read. */
  lemma {:induction false} TaggingFixesPointers(rows: seq<Reach>)
    requires Untagged(rows) && PrefixFree(rows)
    ensures PrefixFree(Tagged(rows)) && NoDangling(Tagged(rows)) && AllCoherent(Tagged(rows))
  {
    hide Tagged;
    var out := Tagged(rows);
    SameTaggedIds(rows);
    forall i | 0 <= i < |rows|
      ensures out[i].id == rows[i].id && Coherent(out[i]) && (out[i].to.Some? ==> out[i].to.value in Ids(rows))
    {
      TaggedRow(rows, i);
    }
  }

  lemma TaggingKeepsAcyclic(rows: seq<Reach>)
    requires Untagged(rows) && Acyclic(rows)
    ensures Acyclic(Tagged(rows))
  {
    hide Tagged, Falls;
    var out := Tagged(rows);
    var rank :| Falls(rows, rank);
    forall r | r in out ensures exists s :: s in rows && s.id == r.id && (r.to.None? || r.to == s.to) {
      var i :| 0 <= i < |out| && out[i] == r;
      TaggedRow(rows, i);
      assert rows[i] in rows;
    }
    PickedFalls(rows, out, rank);
  }

  /** Nulling pointers out of the extract changes no flow between its reaches. */
  lemma {:induction false} TaggingKeepsFlow(rows: seq<Reach>, i: nat, j: nat)
    requires Untagged(rows) && PrefixFree(rows) && i < |rows| && j < |rows|
    ensures Flows(GraphOf(Tagged(rows)), rows[i].id, rows[j].id) <==> Flows(GraphOf(rows), rows[i].id, rows[j].id)
  {
    hide Tagged, Flows, PrefixFree;
    var out := Tagged(rows);
    TaggingFixesPointers(rows);
    PrefixFreeIsUnique(rows);
    PrefixFreeIsUnique(out);
    TaggedRow(rows, i);
    TaggedRow(rows, j);
    FlowsIsDownstream(rows, i, j);
    FlowsIsDownstream(out, i, j);
    SameTopology(rows, out);
  }

  lemma SameTopology(rows: seq<Reach>, out: seq<Reach>)
    requires Untagged(rows) && UniqueIds(rows) && UniqueIds(out) && out == Tagged(rows)
    ensures Topology(out) == Topology(rows)
  {
    hide Tagged, Topology;
    SameTaggedIds(rows);
    forall i | 0 <= i < |rows| ensures Topology(out)[i] == Topology(rows)[i] {
      TaggedRow(rows, i);
      PointerFound(rows, i);
      PointerFound(out, i);
      var d, e := Topology(rows)[i], Topology(out)[i];
      if d >= 0 {
        assert rows[d] in rows;
      }
      if e >= 0 {
        TaggedRow(rows, e);
      }
    }
  }
}
