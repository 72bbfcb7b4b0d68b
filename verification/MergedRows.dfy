/** What a merged row says, column by column, read off the rows that went into it. */
module MergedRows {
  import opened Wrappers
  import opened Reaches
  import opened Pointers
  import opened Chains
  import opened Grow
  import opened Build
  import opened Merge
  import opened MergeAgain

  /** The rows at these positions. */
  function RowsAt(rows: seq<Reach>, at: seq<nat>): seq<Reach>
    requires forall m :: 0 <= m < |at| ==> at[m] < |rows|
  {
    seq(|at|, m requires 0 <= m < |at| => rows[at[m]])
  }

  /** Positions along the water's way: each row flows into the next. */
  ghost predicate AlongTheFlow(rows: seq<Reach>, way: seq<nat>) {
    && way != [] && Distinct(way) && (forall m :: 0 <= m < |way| ==> way[m] < |rows|)
    && forall m :: 0 <= m < |way| - 1 ==> rows[way[m]].to == Some(rows[way[m + 1]].id)
  }

  ghost predicate SomeTrimmed(rows: seq<Reach>, head: seq<nat>, v: nat)
    requires |head| == |rows|
  {
    exists i :: 0 <= i < |rows| && head[i] == v && rows[i].trimmed
  }

  function Reversed(members: seq<nat>): (way: seq<nat>)
    ensures |way| == |members| && forall m :: 0 <= m < |way| ==> way[m] == members[|members| - 1 - m]
  {
    seq(|members|, m requires 0 <= m < |members| => members[|members| - 1 - m])
  }

  /** A chain read from its top down is a way along the flow. */
  lemma ChainIsWay(rows: seq<Reach>, head: seq<nat>, members: seq<nat>, v: nat)
    requires |head| == |rows| && Heads(rows, head, members, v)
    ensures AlongTheFlow(rows, Reversed(members))
    ensures forall i: nat :: i < |rows| ==> (Listed(Reversed(members), i) <==> head[i] == v)
  {
    hide Topology;
    var way := Reversed(members);
    forall m | 0 <= m < |way| - 1 ensures rows[way[m]].to == Some(rows[way[m + 1]].id) {
      PointerFound(rows, way[m]);
      assert Topology(rows)[members[|members| - 1 - m]] == members[|members| - 2 - m];
    }
    forall i: nat ensures Listed(way, i) <==> Listed(members, i) {
      if Listed(members, i) {
        var j :| 0 <= j < |members| && members[j] == i;
        assert way[|members| - 1 - j] == i;
      }
    }
  }

  lemma AnyTrimmedIsSome(rows: seq<Reach>, head: seq<nat>, members: seq<nat>, v: nat)
    requires |head| == |rows| && Heads(rows, head, members, v) && Members(rows, members)
    ensures AnyTrimmed(rows, members) <==> SomeTrimmed(rows, head, v)
  {
    hide Topology, Path, Distinct;
    if i :| 0 <= i < |rows| && head[i] == v && rows[i].trimmed {
      assert Listed(members, i);
    }
    if k :| 0 <= k < |members| && rows[members[k]].trimmed {
      assert Listed(members, members[k]);
    }
  }

  /** On every network: the rows that went into a row of the result lie along the flow and end at the row whose id it keeps.
      Everything is that last row's, but for what tells of the upstream end, which is the first row's; the length is theirs
      joined in that order; a lake is named by the last or else by the first; and it is trimmed if any of them was. */
  lemma {:induction false} MergedColumns(rows: seq<Reach>, byText: seq<nat>, t: Thresholds,
                                         join: seq<Reach> -> real, run: Trace, out: seq<Reach>, k: nat)
    returns (way: seq<nat>)
    requires MergeRun(rows, byText, t, join, run, out) && k < |out|
    ensures AlongTheFlow(rows, way) && |run.head| == |rows| && k < |Kept(run.head)|
    ensures way[|way| - 1] == Kept(run.head)[k]
    ensures forall i: nat :: i < |rows| ==> (Listed(way, i) <==> run.head[i] == Kept(run.head)[k])
    ensures
      var first, last := rows[way[0]], rows[way[|way| - 1]];
      out[k] == last.(
        to := out[k].to, headwater := first.headwater, lakeOutlet := first.lakeOutlet,
        length := if |way| == 1 then last.length else join(RowsAt(rows, way)),
        lakeTo := if last.lakeTo.Some? then last.lakeTo else first.lakeTo,
        trimmed := SomeTrimmed(rows, run.head, Kept(run.head)[k]))
  {
    hide Topology, Merged, UniqueIds, Timed, Traversed, Partition, ChainOf, Distinct, Path, Listed, AlongTheFlow, AnyTrimmed,
         SomeTrimmed, Repointed;
    var head := run.head;
    MergedPartition(rows, join, run.chains, head, out);
    HeadRow(rows, join, run.chains, head, out, k);
    var v := Kept(head)[k];
    ChainHeads(rows, run.chains, head, v);
    var members := ChainOf(run.chains, v);
    way := Reversed(members);
    ChainIsWay(rows, head, members, v);
    AnyTrimmedIsSome(rows, head, members, v);
    assert InFlowOrder(rows, members) == RowsAt(rows, way);
    if |members| == 1 {
      AloneIsTrimmed(rows, members);
    }
  }

  lemma AloneIsTrimmed(rows: seq<Reach>, members: seq<nat>)
    requires Members(rows, members) && |members| == 1
    ensures AnyTrimmed(rows, members) <==> rows[members[0]].trimmed
  {}

  /** No trim is lost and none appears: a row of the result is trimmed if and only if some row that went into it was. */
  lemma {:induction false} TrimsCarryOver(rows: seq<Reach>, byText: seq<nat>, t: Thresholds,
                                          join: seq<Reach> -> real, run: Trace, out: seq<Reach>, k: nat)
    requires MergeRun(rows, byText, t, join, run, out) && k < |out|
    ensures |run.head| == |rows| && k < |Kept(run.head)|
    ensures out[k].trimmed <==> exists i :: 0 <= i < |rows| && run.head[i] == Kept(run.head)[k] && rows[i].trimmed
  {
    hide MergeRun, AlongTheFlow;
    var way := MergedColumns(rows, byText, t, join, run, out, k);
  }

  /** Where it points: at the survivor of what its last row flowed into. */
  lemma {:induction false} MergedPointer(rows: seq<Reach>, byText: seq<nat>, t: Thresholds,
                                         join: seq<Reach> -> real, run: Trace, out: seq<Reach>, k: nat)
    requires MergeRun(rows, byText, t, join, run, out) && k < |out|
    ensures |run.head| == |rows| && k < |Kept(run.head)| && forall i :: 0 <= i < |rows| ==> run.head[i] < |rows|
    ensures
      var last := rows[Kept(run.head)[k]];
      && (forall d :: 0 <= d < |rows| && last.to == Some(rows[d].id) ==> out[k].to == Some(rows[run.head[d]].id))
      && (last.to.None? || last.to.value !in Ids(rows) ==> out[k].to == last.to)
  {
    hide Topology, Merged, Timed, Traversed, ChainOf, MergedRow, Partition, UniqueIds;
    MergedPartition(rows, join, run.chains, run.head, out);
    HeadRow(rows, join, run.chains, run.head, out, k);
    var v := Kept(run.head)[k];
    PointerFound(rows, v);
    var e := Topology(rows)[v];
    forall d | 0 <= d < |rows| && rows[v].to == Some(rows[d].id) ensures e == d {
      assert rows[d] in rows;
      SameRow(rows, e, d);
    }
    if e >= 0 {
      assert rows[e] in rows;
    }
  }
}
