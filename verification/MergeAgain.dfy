/** The merge is canonical on acyclic networks; on every network it leaves reaches long enough unless something stopped
    them, and a second run finds nothing more to do. */
module MergeAgain {
  import opened Reaches
  import opened Pointers
  import opened Chains
  import opened Grow
  import opened Build
  import opened Merge
  import opened MergeProofs

  // ---------- The chain a start heads ----------

  /** The chain a start heads: itself alone when it absorbed nothing. */
  ghost function ChainOf(chains: seq<seq<nat>>, v: nat): seq<nat> {
    if HasChain(chains, v) then
      var c :| 0 <= c < |chains| && chains[c] != [] && chains[c][0] == v;
      chains[c]
    else [v]
  }

  /** A start's chain: its members are exactly the reaches that belong to the start. */
  ghost predicate Heads(rows: seq<Reach>, head: seq<nat>, members: seq<nat>, v: nat)
    requires |head| == |rows|
  {
    && Path(Topology(rows), members) && Distinct(members) && members[0] == v
    && forall x: nat :: x < |rows| ==> (Listed(members, x) <==> head[x] == v)
  }

  lemma ChainHeads(rows: seq<Reach>, chains: seq<seq<nat>>, head: seq<nat>, v: nat)
    requires Partition(Topology(rows), Everything(|rows|), head, chains) && v < |rows| && |head| == |rows| && head[v] == v
    ensures Heads(rows, head, ChainOf(chains, v), v)
  {
    hide Topology;
    if HasChain(chains, v) {
      var c :| 0 <= c < |chains| && chains[c] != [] && chains[c][0] == v && ChainOf(chains, v) == chains[c];
    } else {
      ListedPush([], v);
      assert [] + [v] == [v];
    }
  }

  lemma LastListed(members: seq<nat>)
    requires members != []
    ensures Listed(members, members[|members| - 1])
  {
    assert members[|members| - 1] == members[|members| - 1];
  }

  // ---------- The order of the traversal does not matter ----------

  /** A merge of an acyclic network: every reach belongs to the start its label names. */
  ghost predicate CanonicalMerge(rows: seq<Reach>, t: Thresholds, rank: seq<nat>, join: seq<Reach> -> real,
                                 chains: seq<seq<nat>>, head: seq<nat>, out: seq<Reach>) {
    && UniqueIds(rows) && Ranked(Topology(rows), rank) && Merged(rows, join, chains, head, out) && |head| == |rows|
    && forall i: nat :: i < |rows| ==> head[i] == LabelOf(NetOf(rows), t, rank, i).start
  }

  /** Two chains with the same start and the same members are the same chain. */
  lemma {:induction false} SameOrder(ds: seq<int>, a: seq<nat>, b: seq<nat>, k: nat)
    requires Path(ds, a) && Path(ds, b) && Distinct(a) && Distinct(b) && a[0] == b[0] && k < |a|
    requires forall m :: 0 <= m < |a| ==> Listed(b, a[m])
    ensures k < |b| && a[k] == b[k]
    decreases k
  {
    if k > 0 {
      SameOrder(ds, a, b, k - 1);
      assert Listed(b, a[k]);
      var j :| 0 <= j < |b| && b[j] == a[k];
      assert ds[b[j]] == a[k - 1] && j > 0;
      assert b[j - 1] == b[k - 1];
    }
  }

  lemma SameMembers(ds: seq<int>, a: seq<nat>, b: seq<nat>)
    requires Path(ds, a) && Path(ds, b) && Distinct(a) && Distinct(b) && a[0] == b[0]
    requires forall x: nat :: x < |ds| ==> (Listed(a, x) <==> Listed(b, x))
    ensures a == b
  {
    hide Distinct;
    forall m | 0 <= m < |a| ensures Listed(b, a[m]) {
      assert Listed(a, a[m]);
    }
    forall m | 0 <= m < |b| ensures Listed(a, b[m]) {
      assert Listed(b, b[m]);
    }
    SameOrder(ds, a, b, |a| - 1);
    SameOrder(ds, b, a, |b| - 1);
    forall k | 0 <= k < |a| ensures a[k] == b[k] {
      SameOrder(ds, a, b, k);
    }
  }

  /** A row of the result, from the chain its start heads. */
  lemma HeadRow(rows: seq<Reach>, join: seq<Reach> -> real, chains: seq<seq<nat>>, head: seq<nat>, out: seq<Reach>, k: nat)
    requires Merged(rows, join, chains, head, out) && k < |out|
    ensures k < |Kept(head)| == |out| && |head| == |rows| && forall i :: 0 <= i < |head| ==> head[i] < |rows|
    ensures
      var v := Kept(head)[k];
      var members := ChainOf(chains, v);
      && Members(rows, members)
      && out[k] == (if |members| > 1 then MergedRow(rows, members, join) else rows[v]).(to := Repointed(rows, head, v))
  {
    hide Topology, MergedRow, Repointed, Distinct, Path;
    PartitionHeads(rows, head, chains);
    var v := Kept(head)[k];
    if HasChain(chains, v) {
      var c :| 0 <= c < |chains| && chains[c] != [] && chains[c][0] == v && ChainOf(chains, v) == chains[c];
      assert |chains[c]| >= 2;
    }
  }

  lemma MergedPartition(rows: seq<Reach>, join: seq<Reach> -> real, chains: seq<seq<nat>>, head: seq<nat>, out: seq<Reach>)
    requires Merged(rows, join, chains, head, out)
    ensures Partition(Topology(rows), Everything(|rows|), head, chains) && |head| == |rows| && |out| == |Kept(head)|
  {
    hide Topology, RowAfter;
  }

  /** Any two merges of one acyclic network are the same merge, whatever order the reaches were visited in. */
  lemma MergeIsCanonical(rows: seq<Reach>, t: Thresholds, join: seq<Reach> -> real,
                         rank: seq<nat>, chains: seq<seq<nat>>, head: seq<nat>, out: seq<Reach>,
                         otherRank: seq<nat>, otherChains: seq<seq<nat>>, otherHead: seq<nat>, otherOut: seq<Reach>)
    requires CanonicalMerge(rows, t, rank, join, chains, head, out)
    requires CanonicalMerge(rows, t, otherRank, join, otherChains, otherHead, otherOut)
    ensures otherHead == head && otherOut == out
    ensures forall v :: 0 <= v < |rows| && head[v] == v ==> ChainOf(otherChains, v) == ChainOf(chains, v)
  {
    hide LabelOf, Topology, MergedRow, Repointed, Merged, ChainOf, Distinct, Listed, Path, Partition;
    forall i: nat | i < |rows| ensures head[i] == otherHead[i] {
      LabelsAreCanonical(NetOf(rows), t, rank, otherRank, i);
    }
    assert head == otherHead;
    MergedPartition(rows, join, chains, head, out);
    MergedPartition(rows, join, otherChains, otherHead, otherOut);
    forall v | 0 <= v < |rows| && head[v] == v ensures ChainOf(otherChains, v) == ChainOf(chains, v) {
      ChainHeads(rows, chains, head, v);
      ChainHeads(rows, otherChains, otherHead, v);
      SameMembers(Topology(rows), ChainOf(chains, v), ChainOf(otherChains, v));
    }
    forall k | 0 <= k < |out| ensures out[k] == otherOut[k] {
      HeadRow(rows, join, chains, head, out, k);
      HeadRow(rows, join, otherChains, otherHead, otherOut, k);
    }
  }

  // ---------- Lengths ----------

  function Lengths(lines: seq<Reach>): real {
    if lines == [] then 0.0 else lines[0].length + Lengths(lines[1..])
  }

  /** Joining end to end adds the lengths up. */
  ghost predicate Adds(join: seq<Reach> -> real) {
    forall lines: seq<Reach> :: join(lines) == Lengths(lines)
  }

  lemma {:induction false} JoinedLength(rows: seq<Reach>, members: seq<nat>)
    requires Members(rows, members)
    ensures Lengths(InFlowOrder(rows, members)) == TotalLength(NetOf(rows).ln, members)
    decreases |members|
  {
    hide Topology;
    var lines, n := InFlowOrder(rows, members), |members| - 1;
    if n > 0 {
      JoinedLength(rows, members[..n]);
      assert lines[1..] == InFlowOrder(rows, members[..n]);
    } else {
      assert members[..0] == [] && lines[1..] == [];
    }
  }

  /** The length a start ends up with is that of its chain. */
  lemma MergedLength(rows: seq<Reach>, join: seq<Reach> -> real, chains: seq<seq<nat>>, head: seq<nat>, out: seq<Reach>, k: nat)
    requires Merged(rows, join, chains, head, out) && k < |out| && Adds(join)
    ensures k < |Kept(head)| && |head| == |rows| && Kept(head)[k] < |rows| && head[Kept(head)[k]] == Kept(head)[k]
    ensures
      var v := Kept(head)[k];
      var members := ChainOf(chains, v);
      && Heads(rows, head, members, v) && Members(rows, members)
      && out[k].length == TotalLength(NetOf(rows).ln, members)
      && out[k].id == rows[v].id && out[k].drainageArea == rows[v].drainageArea
  {
    hide Topology, Repointed, Merged, ChainOf, Distinct, Listed, Partition;
    MergedPartition(rows, join, chains, head, out);
    HeadRow(rows, join, chains, head, out, k);
    var v := Kept(head)[k];
    ChainHeads(rows, chains, head, v);
    var members := ChainOf(chains, v);
    JoinedLength(rows, members);
    if |members| == 1 {
      assert members == [v] && members[..0] == [];
    }
  }

  // ---------- Turns ----------

  /** A start's chain was grown in its turn. */
  lemma HeadInTurn(rows: seq<Reach>, t: Thresholds, topo: seq<nat>, chains: seq<seq<nat>>, head: seq<nat>, v: nat)
    requires Timed(NetOf(rows), t, topo, |topo|, Everything(|rows|), head, chains) && v < |rows| == |head| && head[v] == v
    ensures InTurn(NetOf(rows), t, topo, Everything(|rows|), head, ChainOf(chains, v))
  {
    hide InTurn, Topology, Listed;
  }

  lemma PrecedesOnce(s: seq<nat>, i: nat, j: nat)
    requires Distinct(s) && Precedes(s, i, j)
    ensures i != j && !Precedes(s, j, i)
  {}

  /** An absorbed reach was alone above the one below it, in the same chain. */
  lemma AbsorbedAlone(rows: seq<Reach>, t: Thresholds, topo: seq<nat>, chains: seq<seq<nat>>, head: seq<nat>, w: nat)
    requires Timed(NetOf(rows), t, topo, |topo|, Everything(|rows|), head, chains)
    requires Partition(Topology(rows), Everything(|rows|), head, chains) && w < |rows| == |head| && head[w] != w
    ensures
      var d := Topology(rows)[w];
      d >= 0 && head[d] == head[w] && |Parents(Topology(rows), d)| == 1
  {
    hide Topology, Parents, SameFlow, TotalLength, Timed, Partition, Stopped;
    PartitionIsHeaded(rows, head, chains);
    var v := head[w];
    assert v < |rows| && head[v] == v && Topology(rows)[w] >= 0 && head[Topology(rows)[w]] == v by { HeadedAt(rows, head, w); }
    HeadInTurn(rows, t, topo, chains, head, v);
    ChainHeads(rows, chains, head, v);
    var members := ChainOf(chains, v);
    assert Listed(members, w);
    var k :| 0 <= k < |members| && members[k] == w;
    assert AbsorbedRightly(NetOf(rows), t, members, k);
  }

  lemma HeadedAt(rows: seq<Reach>, head: seq<nat>, w: nat)
    requires Headed(rows, head) && w < |rows|
    ensures |head| == |rows| && head[w] < |rows| && head[head[w]] == head[w]
    ensures head[w] != w ==> Topology(rows)[w] >= 0 && head[Topology(rows)[w]] == head[w]
  {
    hide Topology, Downstream;
  }

  // ---------- The result's pointers ----------

  /** The result's pointers by position: a start points at the start of the chain below it. */
  lemma ResultTopology(rows: seq<Reach>, head: seq<nat>, out: seq<Reach>, k: nat)
    requires UniqueIds(rows) && Contracted(rows, head, out) && k < |out|
    ensures
      var i, j := Kept(head)[k], Topology(out)[k];
      && i < |rows| == |head|
      && (j >= 0 <==> Topology(rows)[i] >= 0)
      && (j >= 0 ==> Kept(head)[j] == head[Topology(rows)[i]])
  {
    hide Topology, Headed, UniqueIds;
    HeadsFixed(rows, head, out);
    ContractedUnique(rows, head, out);
    var i, j := Kept(head)[k], Topology(out)[k];
    PointerFound(out, k);
    PointerFound(rows, i);
    var d := Topology(rows)[i];
    assert StartRow(rows, head, i, out[k]);
    if d >= 0 {
      SurvivingIds(rows, head, out, head[d]);
    }
    if j >= 0 {
      assert StartRow(rows, head, Kept(head)[j], out[j]);
      assert rows[Kept(head)[j]] in rows;
      if d >= 0 {
        SameRow(rows, Kept(head)[j], head[d]);
      }
    }
  }

  lemma SameRow(rows: seq<Reach>, i: nat, j: nat)
    requires UniqueIds(rows) && i < |rows| && j < |rows| && rows[i].id == rows[j].id
    ensures i == j
  {}

  /** A start does not flow into the inside of a chain. */
  lemma EntersAtTop(rows: seq<Reach>, t: Thresholds, topo: seq<nat>, chains: seq<seq<nat>>, head: seq<nat>, v: nat, u: nat)
    requires Timed(NetOf(rows), t, topo, |topo|, Everything(|rows|), head, chains)
    requires Partition(Topology(rows), Everything(|rows|), head, chains) && |head| == |rows| && v < |rows| && head[v] == v
    requires u < |rows| && head[u] == u && Topology(rows)[u] >= 0 && head[Topology(rows)[u]] == v
    ensures
      var members := ChainOf(chains, v);
      members != [] && Topology(rows)[u] == members[|members| - 1]
  {
    hide Topology, Timed, Partition, SameFlow, TotalLength, Parents, Stopped;
    var ds, c, members := Topology(rows), Topology(rows)[u], ChainOf(chains, v);
    ChainHeads(rows, chains, head, v);
    HeadInTurn(rows, t, topo, chains, head, v);
    assert Listed(members, c);
    var m :| 0 <= m < |members| && members[m] == c;
    if m < |members| - 1 {
      assert AbsorbedRightly(NetOf(rows), t, members, m + 1);
      assert Listed(members, members[m + 1]);
      OnlyParent(ds, c, u);
      OnlyParent(ds, c, members[m + 1]);
    }
  }

  // ---------- The front ----------

  lemma FrontGoesDown(ds: seq<int>, byText: seq<nat>, topo: seq<nat>, front: nat, i: nat)
    requires Traversed(ds, byText, topo, front) && i < |ds| && Listed(topo[..front], i) && ds[i] >= 0
    ensures Listed(topo[..front], ds[i]) && Precedes(topo, ds[i], i)
  {
    var b :| 0 <= b < front && topo[..front][b] == i;
    var a :| 0 <= a < b && topo[..front][a] == ds[topo[..front][b]];
    assert topo[a] == ds[i] && topo[b] == i;
  }

  lemma {:induction false} FrontFollows(ds: seq<int>, byText: seq<nat>, topo: seq<nat>, front: nat, i: nat, k: nat)
    requires InBounds(ds) && Traversed(ds, byText, topo, front) && i < |ds| && Listed(topo[..front], i) && Follow(ds, i, k) >= 0
    ensures Listed(topo[..front], Follow(ds, i, k))
    decreases k
  {
    hide Traversed, Listed;
    if k > 0 {
      FollowLeaves(ds, i, k);
      FrontGoesDown(ds, byText, topo, front, i);
      FrontFollows(ds, byText, topo, front, ds[i], k - 1);
    }
  }

  lemma FrontGoesUp(ds: seq<int>, byText: seq<nat>, topo: seq<nat>, front: nat, i: nat)
    requires Traversed(ds, byText, topo, front) && i < |ds| && (ds[i] < 0 || Listed(topo[..front], ds[i]))
    ensures Listed(topo[..front], i)
  {
    hide DownstreamFirst, Precedes;
  }

  /** A chain drains to a terminal as its start does. */
  lemma {:induction false} FrontClimbs(ds: seq<int>, byText: seq<nat>, topo: seq<nat>, front: nat, members: seq<nat>, k: nat)
    requires Traversed(ds, byText, topo, front) && Path(ds, members) && k < |members| && Listed(topo[..front], members[0])
    ensures Listed(topo[..front], members[k])
    decreases k
  {
    hide Traversed, Listed;
    if k > 0 {
      FrontClimbs(ds, byText, topo, front, members, k - 1);
      FrontGoesUp(ds, byText, topo, front, members[k]);
    }
  }

  lemma MemberInFront(rows: seq<Reach>, byText: seq<nat>, topo: seq<nat>, front: nat, chains: seq<seq<nat>>, head: seq<nat>, c: nat)
    requires Traversed(Topology(rows), byText, topo, front) && Partition(Topology(rows), Everything(|rows|), head, chains)
    requires c < |rows| == |head| && head[c] < |rows| && Listed(topo[..front], head[c])
    ensures Listed(topo[..front], c)
  {
    hide Traversed, Topology, Partition;
    PartitionIsHeaded(rows, head, chains);
    HeadedAt(rows, head, c);
    ChainHeads(rows, chains, head, head[c]);
    var members := ChainOf(chains, head[c]);
    assert Listed(members, c);
    var k :| 0 <= k < |members| && members[k] == c;
    FrontClimbs(Topology(rows), byText, topo, front, members, k);
  }

  /** Where water drains to a terminal, a lone parent is never claimed before its turn. */
  lemma DrainedNotClaimed(rows: seq<Reach>, byText: seq<nat>, t: Thresholds, topo: seq<nat>, front: nat,
                          chains: seq<seq<nat>>, head: seq<nat>, v: nat, p: nat)
    requires Traversed(Topology(rows), byText, topo, front)
    requires Timed(NetOf(rows), t, topo, |topo|, Everything(|rows|), head, chains)
    requires Partition(Topology(rows), Everything(|rows|), head, chains) && |head| == |rows|
    requires v < |rows| && head[v] == v && p < |rows| && Heads(rows, head, ChainOf(chains, v), v)
    requires
      var members := ChainOf(chains, v);
      Topology(rows)[p] == members[|members| - 1] && NoLater(topo, head[p], v)
    ensures !Listed(topo[..front], v)
  {
    hide Topology, Timed, Partition, Traversed, Worthwhile, Stopped, Precedes, ChainOf;
    var ds, members := Topology(rows), ChainOf(chains, v);
    var last := |members| - 1;
    HeadInTurn(rows, t, topo, chains, head, v);
    assert Distinct(topo) by { TraversedDistinct(ds, byText, topo, front); }
    LoneParentIsStart(rows, head, chains, members, v, p);
    FrontIsPart(ds, byText, topo, front);
    if Listed(topo[..front], v) {
      FrontClimbs(ds, byText, topo, front, members, last);
      FrontGoesUp(ds, byText, topo, front, p);
      FrontGoesDown(ds, byText, topo, front, p);
      if last > 0 {
        PrecedesOn(topo, v, members[last], p);
      }
      PrecedesOnce(topo, v, p);
    }
  }

  lemma TraversedDistinct(ds: seq<int>, byText: seq<nat>, topo: seq<nat>, front: nat)
    requires Traversed(ds, byText, topo, front)
    ensures Distinct(topo) && Lists(topo, |ds|)
  {
    hide Precedes, DownstreamFirst;
  }

  lemma PrecedesOn(s: seq<nat>, i: nat, j: nat, k: nat)
    requires Distinct(s) && Precedes(s, i, j) && Precedes(s, j, k)
    ensures Precedes(s, i, k)
  {}

  /** What flows into the top of a chain is not of the chain, unless it is its start; so it is a start itself. */
  lemma LoneParentIsStart(rows: seq<Reach>, head: seq<nat>, chains: seq<seq<nat>>, members: seq<nat>, v: nat, p: nat)
    requires Partition(Topology(rows), Everything(|rows|), head, chains) && |head| == |rows| && v < |rows|
    requires Heads(rows, head, members, v) && p < |rows| && Topology(rows)[p] == members[|members| - 1]
    ensures head[p] == p
  {
    hide Topology, Partition;
    LastListed(members);
    PartitionIsHeaded(rows, head, chains);
    HeadedAt(rows, head, p);
    if head[p] != p {
      assert Listed(members, p);
      NoneAboveTop(Topology(rows), members, p);
    }
  }

  lemma NoneAboveTop(ds: seq<int>, members: seq<nat>, p: nat)
    requires Path(ds, members) && Distinct(members) && p < |ds| && ds[p] == members[|members| - 1]
    ensures Listed(members, p) ==> p == members[0]
  {
    forall k | 1 <= k < |members| ensures members[k] != p {
      assert ds[members[k]] == members[k - 1];
    }
  }

  // ---------- The floor ----------

  /** On every network: a reach of the result is long enough, or a junction or source, or the flow, stopped its chain, or,
      where water drains to no terminal, a lone parent claimed no later; a chain exceeds the floor by less than the last
      reach it absorbed; and every member carries nearly the flow of the start. */
  lemma LongEnoughUnlessStopped(rows: seq<Reach>, byText: seq<nat>, t: Thresholds, join: seq<Reach> -> real, run: Trace,
                                out: seq<Reach>, k: nat)
    requires MergeRun(rows, byText, t, join, run, out) && k < |out| && Adds(join)
    ensures k < |Kept(run.head)| && Kept(run.head)[k] < |rows| == |run.head| && run.front <= |run.topo|
    ensures
      var v := Kept(run.head)[k];
      var members := ChainOf(run.chains, v);
      && Members(rows, members)
      && var top := members[|members| - 1];
      && var above := Parents(Topology(rows), top);
      && (|| out[k].length >= t.minLength || |above| != 1
          || !SameFlow(t, rows[v].drainageArea, rows[above[0]].drainageArea)
          || (!Listed(run.topo[..run.front], v) && NoLater(run.topo, run.head[above[0]], v)))
      && (|members| > 1 ==> out[k].length < t.minLength + rows[top].length)
      && forall m :: 1 <= m < |members| ==> SameFlow(t, rows[v].drainageArea, rows[members[m]].drainageArea)
  {
    hide Topology, Merged, Distinct, SameFlow, UniqueIds, ChainOf, Timed, Traversed, Partition, Precedes, Parents, NoLater;
    MergedLength(rows, join, run.chains, run.head, out, k);
    MergedPartition(rows, join, run.chains, run.head, out);
    FrontIsPart(Topology(rows), byText, run.topo, run.front);
    var v := Kept(run.head)[k];
    HeadInTurn(rows, t, run.topo, run.chains, run.head, v);
    var members := ChainOf(run.chains, v);
    var last := |members| - 1;
    var above := Parents(Topology(rows), members[last]);
    if last > 0 {
      assert AbsorbedRightly(NetOf(rows), t, members, last);
    }
    forall m | 1 <= m < |members| ensures SameFlow(t, rows[v].drainageArea, rows[members[m]].drainageArea) {
      assert AbsorbedRightly(NetOf(rows), t, members, m);
    }
    if |above| == 1 && NoLater(run.topo, run.head[above[0]], v) {
      assert Topology(rows)[above[0]] == members[last];
      DrainedNotClaimed(rows, byText, t, run.topo, run.front, run.chains, run.head, v, above[0]);
    }
  }

  lemma FrontIsPart(ds: seq<int>, byText: seq<nat>, topo: seq<nat>, front: nat)
    requires Traversed(ds, byText, topo, front)
    ensures front <= |topo|
  {}
}
