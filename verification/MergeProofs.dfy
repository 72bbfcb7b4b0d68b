/** What merging short reaches guarantees on every network, and what it keeps of a sound one. */
module MergeProofs {
  import opened Wrappers
  import opened Reaches
  import opened Pointers
  import opened Chains
  import opened Grow
  import opened Build
  import opened Merge

  // ---------- Heads ----------

  /** Each reach's chain start, and the pointers that lead to it. */
  ghost predicate Headed(rows: seq<Reach>, head: seq<nat>) {
    && |head| == |rows|
    && forall i :: 0 <= i < |rows| ==>
        && head[i] < |rows| && head[head[i]] == head[i]
        && Downstream(Topology(rows), i, head[i])
        && (head[i] != i ==> Topology(rows)[i] >= 0 && head[Topology(rows)[i]] == head[i])
  }

  lemma {:induction false} ChainFollows(ds: seq<int>, members: seq<nat>, k: nat)
    requires InBounds(ds) && Path(ds, members) && k < |members|
    ensures Follow(ds, members[k], k) == members[0]
    decreases k
  {
    if k > 0 {
      ChainFollows(ds, members, k - 1);
    }
  }

  lemma PartitionIsHeaded(rows: seq<Reach>, head: seq<nat>, chains: seq<seq<nat>>)
    requires Partition(Topology(rows), Everything(|rows|), head, chains)
    ensures Headed(rows, head)
  {
    hide Topology, Distinct, Downstream;
    var ds := Topology(rows);
    forall i | 0 <= i < |rows|
      ensures Downstream(ds, i, head[i]) && (head[i] != i ==> ds[i] >= 0 && head[ds[i]] == head[i])
    {
      if head[i] != i {
        assert HasChain(chains, head[i]);
        var c :| 0 <= c < |chains| && chains[c] != [] && chains[c][0] == head[i];
        InChain(ds, head, chains, c, i);
      } else {
        DownstreamSelf(ds, i);
      }
    }
  }

  lemma DownstreamSelf(ds: seq<int>, i: nat)
    requires InBounds(ds) && i < |ds|
    ensures Downstream(ds, i, i)
  {
    assert Follow(ds, i, 0) == i;
  }

  lemma InChain(ds: seq<int>, head: seq<nat>, chains: seq<seq<nat>>, c: nat, i: nat)
    requires Partition(ds, Everything(|ds|), head, chains) && InBounds(ds) && c < |chains|
    requires i < |ds| && chains[c] != [] && chains[c][0] == head[i] != i
    ensures Downstream(ds, i, head[i]) && ds[i] >= 0 && head[ds[i]] == head[i]
  {
    hide Distinct, HasChain;
    var members := chains[c];
    assert Listed(members, i);
    var k :| 0 <= k < |members| && members[k] == i;
    assert Listed(members, members[k - 1]);
    ChainFollows(ds, members, k);
  }

  // ---------- Rows of the result ----------

  /** What a start's row keeps, and where it points. */
  ghost predicate StartRow(rows: seq<Reach>, head: seq<nat>, i: nat, r: Reach)
    requires i < |rows| && Headed(rows, head)
  {
    && r.id == rows[i].id && r.to == Repointed(rows, head, i) && r.drainageArea == rows[i].drainageArea
    && r.terminal == rows[i].terminal && r.reason == rows[i].reason && r.lakeInlet == rows[i].lakeInlet
  }

  /** The result read without its chains: one row per start, repointed. */
  ghost predicate Contracted(rows: seq<Reach>, head: seq<nat>, out: seq<Reach>) {
    && |head| == |rows| && Headed(rows, head) && |out| == |Kept(head)|
    && forall k :: 0 <= k < |out| ==> StartRow(rows, head, Kept(head)[k], out[k])
  }

  lemma StartRows(rows: seq<Reach>, join: seq<Reach> -> real, chains: seq<seq<nat>>, head: seq<nat>, out: seq<Reach>)
    requires Merged(rows, join, chains, head, out)
    ensures Contracted(rows, head, out)
  {
    PartitionIsHeaded(rows, head, chains);
    hide Partition, Headed, Repointed, Path, Distinct;
    forall k | 0 <= k < |out| ensures StartRow(rows, head, Kept(head)[k], out[k]) {
      if c :| 0 <= c < |chains| && chains[c] != [] && chains[c][0] == Kept(head)[k] {
        assert out[k] == MergedRow(rows, chains[c], join).(to := Repointed(rows, head, Kept(head)[k]));
      }
    }
  }

  /** Where each start stands in the result. */
  lemma StartStands(head: seq<nat>, i: nat) returns (k: nat)
    requires i < |head| && head[i] == i
    ensures k < |Kept(head)| && Kept(head)[k] == i
  {
    PositionsComplete(Not(AbsorbedMask(head)), i);
    k :| 0 <= k < |Positions(Not(AbsorbedMask(head)))| && Positions(Not(AbsorbedMask(head)))[k] == i;
  }

  lemma HeadsFixed(rows: seq<Reach>, head: seq<nat>, out: seq<Reach>)
    requires Contracted(rows, head, out)
    ensures Headed(rows, head)
    ensures |head| == |rows| && forall i :: 0 <= i < |rows| ==> head[i] < |rows| && head[head[i]] == head[i]
    ensures forall i :: 0 <= i < |rows| ==> Downstream(Topology(rows), i, head[i])
  {
    hide Topology, Downstream;
  }

  /** The start a row of the result was. */
  lemma SurvivorOf(rows: seq<Reach>, head: seq<nat>, out: seq<Reach>, r: Reach) returns (i: nat)
    requires Contracted(rows, head, out) && r in out
    ensures i < |rows| == |head| && head[i] == i && Headed(rows, head) && StartRow(rows, head, i, r)
  {
    hide Headed, Repointed;
    var k :| 0 <= k < |out| && out[k] == r;
    i := Kept(head)[k];
  }

  /** Exactly the starts' ids survive. */
  lemma SurvivingIds(rows: seq<Reach>, head: seq<nat>, out: seq<Reach>, i: nat)
    requires UniqueIds(rows) && Contracted(rows, head, out) && i < |rows| == |head|
    ensures rows[i].id in Ids(out) <==> head[i] == i
  {
    hide Headed, Repointed;
    if head[i] == i {
      var k := StartStands(head, i);
      assert out[k] in out && out[k].id == rows[i].id;
    } else {
      forall r | r in out ensures r.id != rows[i].id {
        var m := SurvivorOf(rows, head, out, r);
      }
    }
  }

  lemma ContractedUnique(rows: seq<Reach>, head: seq<nat>, out: seq<Reach>)
    requires UniqueIds(rows) && Contracted(rows, head, out)
    ensures UniqueIds(out)
  {
    hide Repointed, Headed;
    forall j, k | 0 <= j < |out| && 0 <= k < |out| && out[j].id == out[k].id ensures j == k {
      assert Kept(head)[j] == Kept(head)[k];
    }
  }

  lemma HeadNext(rows: seq<Reach>, head: seq<nat>, out: seq<Reach>, i: nat)
    requires UniqueIds(rows) && Contracted(rows, head, out) && i < |rows| == |head| && head[i] == i
    ensures Headed(rows, head) && Next(GraphOf(out), rows[i].id) == Repointed(rows, head, i)
  {
    hide Repointed, Headed;
    ContractedUnique(rows, head, out);
    var k := StartStands(head, i);
    GraphAt(out, k);
  }

  // ---------- Merging is a contraction ----------

  /** Water reaching a start in the input reaches it in the result. */
  lemma {:induction false} FlowSurvives(rows: seq<Reach>, head: seq<nat>, out: seq<Reach>, i: nat, j: nat, k: nat)
    requires UniqueIds(rows) && Contracted(rows, head, out) && i < |rows| && j < |rows|
    requires Follow(Topology(rows), i, k) == j && head[j] == j
    ensures Flows(GraphOf(out), rows[head[i]].id, rows[j].id)
    decreases k
  {
    hide UniqueIds, Topology, Flows;
    var g := GraphOf(out);
    if k == 0 {
      FlowsSelf(g, rows[j].id);
    } else {
      FollowLeaves(Topology(rows), i, k);
      var d := Topology(rows)[i];
      FlowSurvives(rows, head, out, d, j, k - 1);
      if head[i] == i {
        HeadNext(rows, head, out, i);
        FlowsStep(g, rows[i].id, rows[head[d]].id);
        FlowsOn(g, rows[i].id, rows[head[d]].id, rows[j].id);
      }
    }
  }

  /** Water reaching a start in the result reached it in the input. */
  lemma {:induction false} NoNewFlow(rows: seq<Reach>, head: seq<nat>, out: seq<Reach>, i: nat, j: nat, k: nat)
    requires UniqueIds(rows) && Contracted(rows, head, out) && i < |rows| && j < |rows| && head[i] == i
    requires Walk(GraphOf(out), Some(rows[i].id), k) == Some(rows[j].id)
    ensures Downstream(Topology(rows), i, j)
    decreases k
  {
    hide Topology, Downstream, Contracted;
    var ds, g := Topology(rows), GraphOf(out);
    if k == 0 {
      DownstreamSelf(ds, i);
    } else {
      HeadsFixed(rows, head, out);
      HeadNext(rows, head, out, i);
      assert rows[j] in rows;
      PointerFound(rows, i);
      var d := ds[i];
      if d >= 0 {
        NoNewFlow(rows, head, out, head[d], j, k - 1);
        DownstreamSelf(ds, i);
        DownstreamStep(ds, i, i);
        DownstreamOn(ds, i, d, head[d]);
        DownstreamOn(ds, i, head[d], j);
      } else {
        OutOfNetwork(rows, head, out, rows[i].to, k - 1);
      }
    }
  }

  /** A pointer out of the network arrives at no row. */
  lemma OutOfNetwork(rows: seq<Reach>, head: seq<nat>, out: seq<Reach>, to: Option<Id>, k: nat)
    requires Contracted(rows, head, out) && (to.None? || to.value !in Ids(rows))
    ensures Walk(GraphOf(out), to, k).None? || Walk(GraphOf(out), to, k).value !in Ids(rows)
  {
    hide Headed, Repointed;
    if to.Some? && k > 0 {
      GraphKeys(out);
      forall r | r in out ensures r.id in Ids(rows) {
        var m := SurvivorOf(rows, head, out, r);
        assert rows[m] in rows;
      }
      assert Next(GraphOf(out), to.value) == None;
    }
  }

  /** A reach's water passes a survivor exactly when, in the result, its chain's water does. */
  lemma {:induction false} MergePreservesFlow(rows: seq<Reach>, join: seq<Reach> -> real, chains: seq<seq<nat>>,
        head: seq<nat>, out: seq<Reach>,
                           i: nat, j: nat)
    requires UniqueIds(rows) && Merged(rows, join, chains, head, out) && i < |rows| && j < |rows|
    ensures head[i] < |rows| && head[j] < |rows|
    ensures Flows(GraphOf(out), rows[head[i]].id, rows[head[j]].id) <==> Flows(GraphOf(rows), rows[i].id, rows[head[j]].id)
  {
    hide UniqueIds, Topology, Downstream, Merged;
    StartRows(rows, join, chains, head, out);
    FlowsIsDownstream(rows, i, head[j]);
    var ds := Topology(rows);
    if k: nat :| Walk(GraphOf(out), Some(rows[head[i]].id), k) == Some(rows[head[j]].id) {
      NoNewFlow(rows, head, out, head[i], head[j], k);
      DownstreamOn(ds, i, head[i], head[j]);
    }
    if Downstream(ds, i, head[j]) {
      DownstreamSteps(ds, i, head[j]);
      var k: nat :| Follow(ds, i, k) == head[j];
      FlowSurvives(rows, head, out, i, head[j], k);
    }
  }

  lemma DownstreamSteps(ds: seq<int>, i: nat, j: nat)
    requires InBounds(ds) && i < |ds| && Downstream(ds, i, j)
    ensures exists k: nat :: Follow(ds, i, k) == j
  {}

  /** Some member of b's chain lies downstream of some member of a's. */
  ghost predicate ChainIsDownstream(rows: seq<Reach>, head: seq<nat>, a: nat, b: nat)
    requires |head| == |rows|
  {
    exists i: nat, j: nat :: i < |rows| && j < |rows| && ChainsMeet(rows, head, a, b, i, j)
  }

  ghost predicate ChainsMeet(rows: seq<Reach>, head: seq<nat>, a: nat, b: nat, i: nat, j: nat)
    requires |head| == |rows| && i < |rows| && j < |rows|
  {
    head[i] == a && head[j] == b && Flows(GraphOf(rows), rows[i].id, rows[j].id)
  }

  /** Survivor b is downstream of survivor a in the result exactly when b's chain is downstream of a's in the input. */
  lemma {:induction false} MergeIsContraction(rows: seq<Reach>, join: seq<Reach> -> real, chains: seq<seq<nat>>,
        head: seq<nat>, out: seq<Reach>,
                           a: nat, b: nat)
    requires UniqueIds(rows) && Merged(rows, join, chains, head, out)
    requires a < |rows| == |head| && b < |rows| && head[a] == a && head[b] == b
    ensures Flows(GraphOf(out), rows[a].id, rows[b].id) <==> ChainIsDownstream(rows, head, a, b)
  {
    hide UniqueIds, Flows, Merged, Topology, Downstream;
    StartRows(rows, join, chains, head, out);
    MergePreservesFlow(rows, join, chains, head, out, a, b);
    if Flows(GraphOf(rows), rows[a].id, rows[b].id) {
      assert ChainsMeet(rows, head, a, b, a, b);
    }
    if ChainIsDownstream(rows, head, a, b) {
      var i: nat, j: nat :| i < |rows| && j < |rows| && ChainsMeet(rows, head, a, b, i, j);
      FlowsIsDownstream(rows, j, b);
      FlowsOn(GraphOf(rows), rows[i].id, rows[j].id, rows[b].id);
      MergePreservesFlow(rows, join, chains, head, out, i, j);
    }
  }

  // ---------- What is kept ----------

  /** Whatever network came in: a pointer of the result names a survivor or no input row at all, so no absorbed id is
      referenced; and each row is still terminal for the same reason, if it was. */
  lemma {:induction false} AbsorbedAreUnreferenced(rows: seq<Reach>, join: seq<Reach> -> real, chains: seq<seq<nat>>,
        head: seq<nat>, out: seq<Reach>,
                                r: Reach)
    requires UniqueIds(rows) && Merged(rows, join, chains, head, out) && r in out
    ensures r.to.Some? && r.to.value in Ids(rows) ==> r.to.value in Ids(out)
    ensures forall m :: 0 <= m < |rows| && head[m] != m ==> r.to != Some(rows[m].id) && rows[m].id !in Ids(out)
    ensures exists s :: s in rows && s.id == r.id && s.to.Some? == r.to.Some? && s.terminal == r.terminal && s.reason == r.reason
  {
    hide Topology, Merged, Headed, Contracted, UniqueIds;
    StartRows(rows, join, chains, head, out);
    HeadsFixed(rows, head, out);
    var i := SurvivorOf(rows, head, out, r);
    PointerFound(rows, i);
    assert rows[i] in rows;
    var d := Topology(rows)[i];
    if d >= 0 {
      SurvivingIds(rows, head, out, head[d]);
    }
    forall m | 0 <= m < |rows| && head[m] != m ensures r.to != Some(rows[m].id) && rows[m].id !in Ids(out) {
      SurvivingIds(rows, head, out, m);
      assert rows[m] in rows;
    }
  }

  lemma {:induction false} RankFallsToHead(rows: seq<Reach>, rank: map<Id, nat>, i: nat, k: nat)
    requires Falls(rows, rank) && i < |rows| && Follow(Topology(rows), i, k) >= 0
    ensures rows[i].id in rank
    ensures rows[Follow(Topology(rows), i, k)].id in rank && rank[rows[Follow(Topology(rows), i, k)].id] <= rank[rows[i].id]
    decreases k
  {
    hide Topology;
    assert rows[i] in rows;
    if k > 0 {
      var d := Topology(rows)[i];
      PointerFound(rows, i);
      FollowLeaves(Topology(rows), i, k);
      assert rows[d] in rows;
      RankFallsToHead(rows, rank, d, k - 1);
    }
  }

  lemma MergedFalls(rows: seq<Reach>, head: seq<nat>, out: seq<Reach>, rank: map<Id, nat>)
    requires Contracted(rows, head, out) && Falls(rows, rank) && NoDangling(rows)
    ensures Falls(out, rank) && NoDangling(out)
  {
    hide Topology;
    forall r | r in out
      ensures r.id in rank
      ensures r.to.Some? ==> r.to.value in Ids(out) && r.to.value in rank && rank[r.to.value] < rank[r.id]
    {
      var i := SurvivorOf(rows, head, out, r);
      assert rows[i] in rows;
      PointerFound(rows, i);
      if r.to.Some? {
        PointerFalls(rows, head, out, rank, i);
      }
    }
  }

  lemma PointerFalls(rows: seq<Reach>, head: seq<nat>, out: seq<Reach>, rank: map<Id, nat>, i: nat)
    requires Contracted(rows, head, out) && Falls(rows, rank) && NoDangling(rows) && i < |rows| && rows[i].to.Some?
    ensures Topology(rows)[i] >= 0
    ensures
      var a := rows[head[Topology(rows)[i]]].id;
      a in Ids(out) && a in rank && rows[i].id in rank && rank[a] < rank[rows[i].id]
  {
    hide Topology;
    PointerFound(rows, i);
    assert rows[i] in rows;
    var d: nat := Topology(rows)[i];
    assert rows[d] in rows;
    var h := head[d];
    var n: nat :| Follow(Topology(rows), d, n) == h;
    RankFallsToHead(rows, rank, d, n);
    var k := StartStands(head, h);
    assert out[k].id == rows[h].id && out[k] in out;
  }

  lemma RepointedSome(rows: seq<Reach>, head: seq<nat>, i: nat)
    requires Headed(rows, head) && i < |rows|
    ensures Repointed(rows, head, i).Some? == rows[i].to.Some?
  {
    hide Topology;
    PointerFound(rows, i);
  }

  /** Merging keeps the whole invariant. */
  lemma {:induction false} MergeKeepsSound(rows: seq<Reach>, join: seq<Reach> -> real, chains: seq<seq<nat>>,
        head: seq<nat>, out: seq<Reach>)
    requires Sound(rows) && Merged(rows, join, chains, head, out)
    ensures Sound(out)
  {
    hide Falls, Merged, NoDangling, Topology, Headed, Repointed;
    StartRows(rows, join, chains, head, out);
    HeadsFixed(rows, head, out);
    PickedPrefixFree(rows, out, Kept(head));
    forall r | r in out ensures Coherent(r) {
      var i := SurvivorOf(rows, head, out, r);
      assert rows[i] in rows;
      RepointedSome(rows, head, i);
    }
    var rank :| Falls(rows, rank);
    MergedFalls(rows, head, out, rank);
  }

  lemma ChainReference(rows: seq<Reach>, members: seq<nat>, join: seq<Reach> -> real)
    requires Members(rows, members) && Referenced(rows)
    ensures
      var r := MergedRow(rows, members, join);
      r.lakeInlet || r.lakeOutlet ==> r.lakeTo.Some?
  {
    hide InFlowOrder, AnyTrimmed;
    assert rows[members[0]] in rows && rows[members[|members| - 1]] in rows;
  }

  /** A start that ends in a lake keeps its own reference; one whose top leaves a lake has its own, or the top's. */
  lemma {:induction false} MergeKeepsReferences(rows: seq<Reach>, join: seq<Reach> -> real, chains: seq<seq<nat>>,
        head: seq<nat>, out: seq<Reach>)
    requires Merged(rows, join, chains, head, out) && Referenced(rows)
    ensures Referenced(out)
  {
    PartitionHeads(rows, head, chains);
    hide Partition, Repointed, MergedRow;
    forall r | r in out && (r.lakeInlet || r.lakeOutlet) ensures r.lakeTo.Some? {
      var k :| 0 <= k < |out| && out[k] == r;
      var i := Kept(head)[k];
      assert rows[i] in rows;
      if c :| 0 <= c < |chains| && chains[c] != [] && chains[c][0] == i {
        ChainReference(rows, chains[c], join);
      }
    }
  }

  /** Rows out = rows in - merged, on every network. */
  lemma MergeAccounts(rows: seq<Reach>, join: seq<Reach> -> real, chains: seq<seq<nat>>, head: seq<nat>, out: seq<Reach>)
    requires Merged(rows, join, chains, head, out)
    ensures |head| == |rows| && |out| == |rows| - Count(AbsorbedMask(head))
  {
    PositionsCount(Not(AbsorbedMask(head)));
    PositionsCount(AbsorbedMask(head));
  }
}
