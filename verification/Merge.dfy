/** Merging short reaches: the rows once the chains are known. */
module Merge {
  import opened Wrappers
  import opened Reaches
  import opened Pointers
  import opened Counters
  import opened Chains
  import opened Grow
  import opened Build

  function NetOf(rows: seq<Reach>): (net: Net)
    ensures ValidNet(net) && net.ds == Topology(rows)
    ensures forall i :: 0 <= i < |rows| ==> net.da[i] == rows[i].drainageArea && net.ln[i] == rows[i].length
  {
    Net(Topology(rows),
        seq(|rows|, i requires 0 <= i < |rows| => rows[i].drainageArea),
        seq(|rows|, i requires 0 <= i < |rows| => rows[i].length))
  }

  // ---------- What a chain becomes ----------

  predicate Members(rows: seq<Reach>, members: seq<nat>) {
    members != [] && forall k :: 0 <= k < |members| ==> members[k] < |rows|
  }

  ghost predicate AllMembers(rows: seq<Reach>, chains: seq<seq<nat>>) {
    forall c :: 0 <= c < |chains| ==> Members(rows, chains[c])
  }

  /** A chain runs downstream to upstream; its geometry is joined the other way. */
  function InFlowOrder(rows: seq<Reach>, members: seq<nat>): (lines: seq<Reach>)
    requires Members(rows, members)
  {
    seq(|members|, k requires 0 <= k < |members| => rows[members[|members| - 1 - k]])
  }

  predicate AnyTrimmed(rows: seq<Reach>, members: seq<nat>)
    requires Members(rows, members)
  {
    exists k :: 0 <= k < |members| && rows[members[k]].trimmed
  }

  /** The start's row, with the joined line and what describes its upstream end taken from the top member. */
  function MergedRow(rows: seq<Reach>, members: seq<nat>, join: seq<Reach> -> real): Reach
    requires Members(rows, members)
  {
    var start, top := rows[members[0]], rows[members[|members| - 1]];
    start.(length := join(InFlowOrder(rows, members)), headwater := top.headwater, lakeOutlet := top.lakeOutlet,
           lakeTo := if start.lakeTo.None? then top.lakeTo else start.lakeTo, trimmed := AnyTrimmed(rows, members))
  }

  /** The rows left standing: the chain starts, in place. */
  ghost function Kept(head: seq<nat>): (kept: seq<nat>)
    ensures forall k :: 0 <= k < |kept| ==> kept[k] < |head| && head[kept[k]] == kept[k]
    ensures forall j, k :: 0 <= j < k < |kept| ==> kept[j] < kept[k]
  {
    Positions(Not(AbsorbedMask(head)))
  }

  /** A pointer into a chain leads to the chain's start. */
  ghost function Repointed(rows: seq<Reach>, head: seq<nat>, i: nat): Option<Id>
    requires i < |rows| == |head| && forall i :: 0 <= i < |head| ==> head[i] < |rows|
  {
    var d := Topology(rows)[i];
    if d >= 0 then Some(rows[head[d]].id) else rows[i].to
  }

  /** The row a start leaves behind. */
  ghost predicate RowAfter(rows: seq<Reach>, join: seq<Reach> -> real, chains: seq<seq<nat>>, head: seq<nat>, i: nat, r: Reach)
    requires i < |rows| == |head| && forall i :: 0 <= i < |head| ==> head[i] < |rows|
    requires AllMembers(rows, chains)
  {
    && (!HasChain(chains, i) ==> r == rows[i].(to := Repointed(rows, head, i)))
    && forall c :: 0 <= c < |chains| && chains[c][0] == i ==>
        r == MergedRow(rows, chains[c], join).(to := Repointed(rows, head, i))
  }

  /** Every reach belongs to one chain start; the starts are what is left, rewritten and repointed. */
  ghost predicate Merged(rows: seq<Reach>, join: seq<Reach> -> real, chains: seq<seq<nat>>, head: seq<nat>, out: seq<Reach>) {
    && Partition(Topology(rows), Everything(|rows|), head, chains)
    && AllMembers(rows, chains)
    && |out| == |Kept(head)|
    && forall k :: 0 <= k < |out| ==> RowAfter(rows, join, chains, head, Kept(head)[k], out[k])
  }

  // ---------- The rewriting ----------

  /** The retired ids so far, each with the id of its chain's start. */
  ghost predicate Retired(rows: seq<Reach>, head: seq<nat>, absorbed: seq<bool>, remap: map<Id, Id>)
    requires |head| == |absorbed| == |rows| && forall i :: 0 <= i < |head| ==> head[i] < |rows|
  {
    && (forall i :: 0 <= i < |rows| && absorbed[i] ==> rows[i].id in remap)
    && forall a :: a in remap ==>
        exists i :: 0 <= i < |rows| && absorbed[i] && rows[i].id == a && remap[a] == rows[head[i]].id
  }

  /** Absorb every member of a chain but its start. */
  method AbsorbMembers(rows: seq<Reach>, members: seq<nat>, absorbed0: seq<bool>, remap0: map<Id, Id>, ghost head: seq<nat>)
    returns (absorbed: seq<bool>, remap: map<Id, Id>)
    requires UniqueIds(rows) && Members(rows, members) && |absorbed0| == |head| == |rows|
    requires forall i :: 0 <= i < |head| ==> head[i] < |rows|
    requires forall k :: 0 <= k < |members| ==> head[members[k]] == members[0]
    requires Retired(rows, head, absorbed0, remap0)
    ensures |absorbed| == |rows| && Retired(rows, head, absorbed, remap)
    ensures forall i: nat :: i < |rows| ==> (absorbed[i] <==> absorbed0[i] || Listed(members[1..], i))
  {
    hide UniqueIds, Listed;
    absorbed, remap := absorbed0, remap0;
    NothingListed(members);
    for k := 1 to |members|
      invariant |absorbed| == |rows| && Retired(rows, head, absorbed, remap)
      invariant forall i: nat :: i < |rows| ==> (absorbed[i] <==> absorbed0[i] || Listed(members[1..k], i))
    {
      var m := members[k];
      RetiredGrows(rows, head, absorbed, remap, m);
      absorbed := absorbed[m := true];
      remap := remap[rows[m].id := rows[members[0]].id];
      assert members[1..k + 1] == members[1..k] + [m];
      ListedPush(members[1..k], m);
    }
    assert members[1..|members|] == members[1..];
  }

  lemma NothingListed(members: seq<nat>)
    requires members != []
    ensures forall j :: !Listed(members[1..1], j)
  {}

  lemma {:induction false} RetiredGrows(rows: seq<Reach>, head: seq<nat>, absorbed: seq<bool>, remap: map<Id, Id>, m: nat)
    requires |head| == |absorbed| == |rows| && (forall i :: 0 <= i < |head| ==> head[i] < |rows|)
    requires UniqueIds(rows) && m < |rows| && Retired(rows, head, absorbed, remap)
    ensures Retired(rows, head, absorbed[m := true], remap[rows[m].id := rows[head[m]].id])
  {
    hide UniqueIds;
    var now, later := absorbed[m := true], remap[rows[m].id := rows[head[m]].id];
    forall a | a in later
      ensures exists i :: 0 <= i < |rows| && now[i] && rows[i].id == a && later[a] == rows[head[i]].id
    {
      if a == rows[m].id {
        assert now[m];
      } else {
        var i :| 0 <= i < |rows| && absorbed[i] && rows[i].id == a && remap[a] == rows[head[i]].id;
        assert now[i];
      }
    }
  }

  /** The rows rewritten so far: the starts of the chains already joined. */
  ghost predicate Rewritten(rows: seq<Reach>, join: seq<Reach> -> real, chains: seq<seq<nat>>, done: nat, now: seq<Reach>)
    requires done <= |chains| && AllMembers(rows, chains)
  {
    && |now| == |rows|
    && (forall c :: 0 <= c < done ==> now[chains[c][0]] == MergedRow(rows, chains[c], join))
    && forall i :: 0 <= i < |rows| && !HasChain(chains[..done], i) ==> now[i] == rows[i]
  }

  /** Join every chain into its start and retire the rest of it. */
  method RewriteChains(rows: seq<Reach>, chains: seq<seq<nat>>, join: seq<Reach> -> real, ghost head: seq<nat>)
    returns (now: seq<Reach>, absorbed: seq<bool>, remap: map<Id, Id>)
    requires UniqueIds(rows) && Partition(Topology(rows), Everything(|rows|), head, chains)
    requires AllMembers(rows, chains)
    ensures |now| == |rows| && Rewritten(rows, join, chains, |chains|, now)
    ensures |absorbed| == |rows| && absorbed == AbsorbedMask(head) && Retired(rows, head, absorbed, remap)
  {
    hide UniqueIds, Partition, Rewritten, Retired, HasChain, MergedRow, Listed;
    now, absorbed, remap := rows, seq(|rows|, _ => false), map[];
    PartitionHeads(rows, head, chains);
    NothingRewritten(rows, join, chains, head);
    for c := 0 to |chains|
      invariant |now| == |rows| && Rewritten(rows, join, chains, c, now)
      invariant |absorbed| == |rows| && Retired(rows, head, absorbed, remap)
      invariant forall i :: 0 <= i < |rows| ==> (absorbed[i] <==> head[i] != i && HasChain(chains[..c], head[i]))
    {
      var members := chains[c];
      var start, top := members[0], members[|members| - 1];
      RewriteReads(rows, join, chains, head, c, now);
      var row := now[start];
      row := row.(length := join(InFlowOrder(now, members)));
      row := row.(headwater := now[top].headwater);
      row := row.(lakeOutlet := now[top].lakeOutlet);
      if row.lakeTo.None? {
        row := row.(lakeTo := now[top].lakeTo);
      }
      row := row.(trimmed := AnyTrimmed(now, members));
      assert row == MergedRow(now, members, join) by { MergedInSteps(now, members, join, row); }
      now := now[start := row];
      ghost var before := absorbed;
      absorbed, remap := AbsorbMembers(rows, members, absorbed, remap, head);
      AbsorbedSoFar(rows, chains, head, c, before, absorbed);
    }
    AllAbsorbed(rows, chains, head, absorbed);
  }

  lemma MergedInSteps(now: seq<Reach>, members: seq<nat>, join: seq<Reach> -> real, row: Reach)
    requires Members(now, members)
    requires
      var start, top := now[members[0]], now[members[|members| - 1]];
      row == start.(length := join(InFlowOrder(now, members)), headwater := top.headwater, lakeOutlet := top.lakeOutlet,
                    lakeTo := if start.lakeTo.None? then top.lakeTo else start.lakeTo, trimmed := AnyTrimmed(now, members))
    ensures row == MergedRow(now, members, join)
  {}

  lemma PartitionHeads(rows: seq<Reach>, head: seq<nat>, chains: seq<seq<nat>>)
    requires Partition(Topology(rows), Everything(|rows|), head, chains)
    ensures |head| == |rows| && forall i :: 0 <= i < |head| ==> head[i] < |rows|
    ensures forall c, k :: 0 <= c < |chains| && 0 <= k < |chains[c]| ==>
      chains[c][k] < |rows| && head[chains[c][k]] == chains[c][0]
  {
    hide HasChain, Distinct;
    forall c, k | 0 <= c < |chains| && 0 <= k < |chains[c]| ensures chains[c][k] < |rows| && head[chains[c][k]] == chains[c][0] {
      assert Listed(chains[c], chains[c][k]);
    }
  }

  lemma NothingRewritten(rows: seq<Reach>, join: seq<Reach> -> real, chains: seq<seq<nat>>, head: seq<nat>)
    requires AllMembers(rows, chains)
    requires |head| == |rows| && forall i :: 0 <= i < |head| ==> head[i] < |rows|
    ensures Rewritten(rows, join, chains, 0, rows)
    ensures Retired(rows, head, seq(|rows|, _ => false), map[])
    ensures forall i :: !HasChain(chains[..0], i)
  {}

  /** What is read of a chain is still as it was: the chains share no reach. */
  lemma RewriteReads(rows: seq<Reach>, join: seq<Reach> -> real, chains: seq<seq<nat>>, head: seq<nat>, c: nat, now: seq<Reach>)
    requires Partition(Topology(rows), Everything(|rows|), head, chains) && c < |chains|
    requires AllMembers(rows, chains)
    requires Rewritten(rows, join, chains, c, now)
    ensures Members(now, chains[c])
    ensures Rewritten(rows, join, chains, c + 1, now[chains[c][0] := MergedRow(now, chains[c], join)])
  {
    hide MergedRow, Path, Distinct, HasChain, Topology;
    var members := chains[c];
    PartitionHeads(rows, head, chains);
    forall k | 0 <= k < |members| ensures now[members[k]] == rows[members[k]] {
      forall d | 0 <= d < c ensures chains[d][0] != members[k] {
        assert head[chains[d][0]] == chains[d][0] && head[members[k]] == members[0];
      }
      NoEarlierChain(chains, c, members[k]);
    }
    MergedRowReads(rows, now, members, join);
    RewrittenStep(rows, join, chains, c, now, MergedRow(now, members, join));
  }

  lemma RewrittenStep(rows: seq<Reach>, join: seq<Reach> -> real, chains: seq<seq<nat>>, c: nat, now: seq<Reach>, row: Reach)
    requires AllMembers(rows, chains) && c < |chains| && Rewritten(rows, join, chains, c, now)
    requires Members(rows, chains[c]) && row == MergedRow(rows, chains[c], join)
    requires forall d :: 0 <= d < c ==> chains[d] != [] && chains[d][0] != chains[c][0]
    ensures Rewritten(rows, join, chains, c + 1, now[chains[c][0] := row])
  {
    hide MergedRow, HasChain;
    var v := chains[c][0];
    var later := now[v := row];
    forall i | 0 <= i < |rows| && !HasChain(chains[..c + 1], i) ensures later[i] == rows[i] {
      ChainSoFar(chains, c, i);
    }
    forall d | 0 <= d < c + 1 ensures later[chains[d][0]] == MergedRow(rows, chains[d], join) {
      if d < c {
        assert chains[d][0] != v && now[chains[d][0]] == MergedRow(rows, chains[d], join);
      }
    }
  }

  lemma NoEarlierChain(chains: seq<seq<nat>>, c: nat, i: nat)
    requires c <= |chains| && forall d :: 0 <= d < c ==> chains[d] != [] && chains[d][0] != i
    ensures !HasChain(chains[..c], i)
  {}

  lemma ChainSoFar(chains: seq<seq<nat>>, c: nat, i: nat)
    requires c < |chains| && chains[c] != []
    ensures HasChain(chains[..c + 1], i) <==> HasChain(chains[..c], i) || chains[c][0] == i
  {
    var before, now := chains[..c], chains[..c + 1];
    assert now == before + [chains[c]];
    if HasChain(before, i) {
      var d :| 0 <= d < |before| && before[d] != [] && before[d][0] == i;
      assert now[d][0] == i;
    }
    assert now[c] == chains[c];
  }

  lemma MergedRowReads(rows: seq<Reach>, now: seq<Reach>, members: seq<nat>, join: seq<Reach> -> real)
    requires |now| == |rows| && Members(rows, members)
    requires forall k :: 0 <= k < |members| ==> now[members[k]] == rows[members[k]]
    ensures MergedRow(now, members, join) == MergedRow(rows, members, join)
  {
    assert InFlowOrder(now, members) == InFlowOrder(rows, members);
  }

  lemma AbsorbedSoFar(rows: seq<Reach>, chains: seq<seq<nat>>, head: seq<nat>, c: nat, before: seq<bool>, absorbed: seq<bool>)
    requires Partition(Topology(rows), Everything(|rows|), head, chains) && c < |chains|
    requires |head| == |before| == |absorbed| == |rows|
    requires forall i :: 0 <= i < |rows| ==> (before[i] <==> head[i] != i && HasChain(chains[..c], head[i]))
    requires forall i: nat :: i < |rows| ==> (absorbed[i] <==> before[i] || Listed(chains[c][1..], i))
    ensures forall i :: 0 <= i < |rows| ==> (absorbed[i] <==> head[i] != i && HasChain(chains[..c + 1], head[i]))
  {
    hide Path, HasChain, Listed;
    PathStarts(Topology(rows), chains[c]);
    TailListed(chains[c]);
    forall i | 0 <= i < |rows| ensures absorbed[i] <==> head[i] != i && HasChain(chains[..c + 1], head[i]) {
      ChainSoFar(chains, c, head[i]);
    }
  }

  lemma AllAbsorbed(rows: seq<Reach>, chains: seq<seq<nat>>, head: seq<nat>, absorbed: seq<bool>)
    requires Partition(Topology(rows), Everything(|rows|), head, chains) && |head| == |absorbed| == |rows|
    requires forall i :: 0 <= i < |rows| ==> (absorbed[i] <==> head[i] != i && HasChain(chains[..|chains|], head[i]))
    ensures absorbed == AbsorbedMask(head)
  {
    assert chains[..|chains|] == chains;
  }

  // ---------- The pass ----------

  /** The order of ids as text never puts two ids both ways. */
  ghost predicate OneWay(before: (Id, Id) -> bool) {
    forall a, b :: before(a, b) ==> !before(b, a)
  }

  /** The rows listed in the order of their ids' text. */
  ghost predicate InTextOrder(rows: seq<Reach>, byText: seq<nat>, before: (Id, Id) -> bool) {
    && Lists(byText, |rows|)
    && forall p, q :: 0 <= p < q < |byText| ==> before(rows[byText[p]].id, rows[byText[q]].id)
  }

  /** How a run went: the order of its turns, how many of them drain to a terminal, the chains, and each reach's start. */
  datatype Trace = Trace(topo: seq<nat>, front: nat, chains: seq<seq<nat>>, head: seq<nat>)

  /** A run of the merge on any network, cycles included, as the pass leaves it. */
  ghost predicate MergeRun(rows: seq<Reach>, byText: seq<nat>, t: Thresholds, join: seq<Reach> -> real, run: Trace, out: seq<Reach>) {
    && UniqueIds(rows) && Merged(rows, join, run.chains, run.head, out)
    && Traversed(Topology(rows), byText, run.topo, run.front)
    && Timed(NetOf(rows), t, run.topo, |run.topo|, Everything(|rows|), run.head, run.chains)
  }

  /** The whole pass: order the rows, grow the chains, then rewrite and repoint what they leave. */
  method MergeShortReaches(rows: seq<Reach>, byText: seq<nat>, t: Thresholds, join: seq<Reach> -> real,
                           counters: NetworkCounters, ghost rank: Option<seq<nat>>)
    returns (out: seq<Reach>, ghost run: Trace)
    requires UniqueIds(rows) && Lists(byText, |rows|)
    requires rank.Some? ==> Ranked(Topology(rows), rank.value)
    modifies counters`merged
    ensures MergeRun(rows, byText, t, join, run, out) && |run.head| == |rows|
    ensures counters.merged == Some(Count(AbsorbedMask(run.head)))
    ensures forall c :: 0 <= c < |run.chains| ==> Path(Topology(rows), run.chains[c])
    ensures rank.Some? ==> run.front == |run.topo|
    ensures rank.Some? ==> forall i: nat :: i < |rows| ==> run.head[i] == LabelOf(NetOf(rows), t, rank.value, i).start
    ensures rank.Some? ==> forall c :: 0 <= c < |run.chains| ==> Canonical(NetOf(rows), t, rank.value, run.chains[c])
  {
    hide UniqueIds, Partition, LabelOf, Canonical, Worthwhile, Path, DownstreamFirst, Merged, Rewritten, Retired, Lists,
         Ranked, Topology, Traversed, Timed;
    var net := NetOf(rows);
    var topo;
    ghost var front;
    topo, front := Traverse(net.ds, byText);
    var chains: seq<seq<nat>>;
    ghost var head;
    chains, head := BuildChains(net, t, topo, rank);
    run := Trace(topo, front, chains, head);
    counters.merged := Some(Absorbed(chains));
    ChainsAreMembers(rows, chains, head);
    PartitionHeads(rows, head, chains);
    if chains == [] {
      NothingMerged(rows, join, head);
      out := rows;
      return;
    }
    var now, absorbed, remap := RewriteChains(rows, chains, join, head);
    out := RemapAll(remap, Select(now, Not(absorbed)));
    RewrittenIsMerged(rows, join, chains, head, now, absorbed, remap);
  }

  lemma ChainsAreMembers(rows: seq<Reach>, chains: seq<seq<nat>>, head: seq<nat>)
    requires Partition(Topology(rows), Everything(|rows|), head, chains)
    ensures AllMembers(rows, chains)
  {
    hide HasChain, Distinct;
  }

  lemma {:induction false} PositionsAll(keep: seq<bool>)
    requires forall i :: 0 <= i < |keep| ==> keep[i]
    ensures |Positions(keep)| == |keep| && forall k :: 0 <= k < |keep| ==> Positions(keep)[k] == k
  {
    if keep != [] {
      PositionsAll(keep[..|keep| - 1]);
    }
  }

  lemma NothingMerged(rows: seq<Reach>, join: seq<Reach> -> real, head: seq<nat>)
    requires UniqueIds(rows) && Partition(Topology(rows), Everything(|rows|), head, [])
    ensures Merged(rows, join, [], head, rows)
  {
    hide Topology, UniqueIds;
    forall i | 0 <= i < |rows| ensures head[i] == i {
      assert !HasChain([], head[i]);
    }
    PositionsAll(Not(AbsorbedMask(head)));
    forall k | 0 <= k < |rows| ensures RowAfter(rows, join, [], head, k, rows[k]) {
      PointerFound(rows, k);
    }
  }

  lemma RewrittenIsMerged(rows: seq<Reach>, join: seq<Reach> -> real, chains: seq<seq<nat>>, head: seq<nat>,
                          now: seq<Reach>, absorbed: seq<bool>, remap: map<Id, Id>)
    requires UniqueIds(rows) && Partition(Topology(rows), Everything(|rows|), head, chains)
    requires AllMembers(rows, chains)
    requires Rewritten(rows, join, chains, |chains|, now) && |absorbed| == |rows|
    requires absorbed == AbsorbedMask(head) && Retired(rows, head, absorbed, remap)
    ensures Merged(rows, join, chains, head, RemapAll(remap, Select(now, Not(absorbed))))
  {
    hide UniqueIds, Path, Distinct, Topology, Retired, Repointed;
    var out, kept := RemapAll(remap, Select(now, Not(absorbed))), Kept(head);
    assert chains[..|chains|] == chains;
    forall k | 0 <= k < |out| ensures RowAfter(rows, join, chains, head, kept[k], out[k]) {
      var i := kept[k];
      assert now[i].to == rows[i].to by {
        if HasChain(chains, i) {
          var c :| 0 <= c < |chains| && chains[c] != [] && chains[c][0] == i;
          assert now[i] == MergedRow(rows, chains[c], join);
        }
      }
      RemapIsRepointed(rows, head, absorbed, remap, i, now[i]);
    }
  }

  lemma RemapIsRepointed(rows: seq<Reach>, head: seq<nat>, absorbed: seq<bool>, remap: map<Id, Id>, i: nat, r: Reach)
    requires UniqueIds(rows) && |head| == |absorbed| == |rows| && i < |rows| && r.to == rows[i].to
    requires forall i :: 0 <= i < |head| ==> head[i] < |rows|
    requires absorbed == AbsorbedMask(head) && Retired(rows, head, absorbed, remap)
    ensures Remap(remap, r) == r.(to := Repointed(rows, head, i))
  {
    hide Topology;
    PointerFound(rows, i);
    var d := Topology(rows)[i];
    if r.to.Some? && r.to.value in remap {
      var j :| 0 <= j < |rows| && absorbed[j] && rows[j].id == r.to.value && remap[r.to.value] == rows[head[j]].id;
      assert rows[j] in rows;
    }
  }
}
