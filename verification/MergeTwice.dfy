/** Merging is idempotent on every network: a second run with the same thresholds absorbs nothing. */
module MergeTwice {
  import opened Reaches
  import opened Pointers
  import opened Chains
  import opened Grow
  import opened Build
  import opened Merge
  import opened MergeProofs
  import opened MergeAgain

  lemma TextPrecedes(rows: seq<Reach>, byText: seq<nat>, before: (Id, Id) -> bool, i: nat, j: nat)
    requires InTextOrder(rows, byText, before) && Precedes(byText, i, j)
    ensures i < |rows| && j < |rows| && before(rows[i].id, rows[j].id)
  {}

  /** Two reaches upstream of one are not an only parent. */
  lemma TwoParents(ds: seq<int>, c: nat, i: nat) returns (u: nat)
    requires i < |ds| && ds[i] == c && |Parents(ds, c)| != 1
    ensures u < |ds| && ds[u] == c && u != i
  {
    ParentsComplete(ds, c, i);
    ParentsAscend(ds, c);
    var ps := Parents(ds, c);
    var k :| 0 <= k < |ps| && ps[k] == i;
    u := if k == 0 then ps[1] else ps[0];
  }

  lemma ParentsAscend(ds: seq<int>, c: nat)
    ensures forall j, k :: 0 <= j < k < |Parents(ds, c)| ==> Parents(ds, c)[j] < Parents(ds, c)[k]
  {}

  lemma SecondParent(ds: seq<int>, j: nat, k: nat, m: nat)
    requires k < |ds| && m < |ds| && k != m && ds[k] == j && ds[m] == j
    ensures |Parents(ds, j)| != 1
  {
    if |Parents(ds, j)| == 1 {
      OnlyParent(ds, j, k);
      OnlyParent(ds, j, m);
    }
  }

  // ---------- What the first run left apart ----------

  /** The two starts a second run would join: the lower is still short, the upper the only one above it, their flow nearly
      the same. */
  ghost predicate WouldJoin(t: Thresholds, out: seq<Reach>, k: nat, m: nat) {
    && k < |out| && m < |out| && k != m && Topology(out)[m] == k
    && out[k].length < t.minLength && |Parents(Topology(out), k)| == 1
    && SameFlow(t, out[k].drainageArea, out[m].drainageArea)
  }

  /** Then the first run left them apart because the upper one's turn had come before; and no water from there drains. */
  lemma UpperCameFirst(rows: seq<Reach>, byText: seq<nat>, t: Thresholds, join: seq<Reach> -> real, run: Trace, out: seq<Reach>,
                       k: nat, m: nat)
    requires MergeRun(rows, byText, t, join, run, out) && Adds(join) && WouldJoin(t, out, k, m)
    ensures k < |Kept(run.head)| && m < |Kept(run.head)| && run.front <= |run.topo|
    ensures
      var v, u := Kept(run.head)[k], Kept(run.head)[m];
      Precedes(run.topo, u, v) && !Listed(run.topo[..run.front], v) && !Listed(run.topo[..run.front], u)
  {
    hide Topology, Merged, UniqueIds, Timed, Traversed, Partition, Precedes, Parents, SameFlow, Contracted, TotalLength,
         Distinct, ChainOf, Worthwhile, Headed;
    var ds, head := Topology(rows), run.head;
    StartRows(rows, join, run.chains, head, out);
    MergedPartition(rows, join, run.chains, head, out);
    FrontIsPart(ds, byText, run.topo, run.front);
    MergedLength(rows, join, run.chains, head, out, k);
    MergedLength(rows, join, run.chains, head, out, m);
    ResultTopology(rows, head, out, m);
    var v, u := Kept(head)[k], Kept(head)[m];
    assert u != v by { KeptApart(head, k, m); }
    EntersAtTop(rows, t, run.topo, run.chains, head, v, u);
    var members := ChainOf(run.chains, v);
    var top := members[|members| - 1];
    HeadInTurn(rows, t, run.topo, run.chains, head, v);
    OnlyOneAbove(rows, t, run, join, out, k, m, top);
    OnlyParent(ds, top, u);
    assert NoLater(run.topo, head[u], v);
    DrainedNotClaimed(rows, byText, t, run.topo, run.front, run.chains, head, v, u);
    UpstreamLeftOver(rows, byText, run, u, v);
  }

  lemma KeptApart(head: seq<nat>, k: nat, m: nat)
    requires k < |Kept(head)| && m < |Kept(head)| && k != m
    ensures Kept(head)[k] != Kept(head)[m]
  {}

  /** A second reach above the top would be a start too, and the lower start's second parent in the result. */
  lemma OnlyOneAbove(rows: seq<Reach>, t: Thresholds, run: Trace, join: seq<Reach> -> real, out: seq<Reach>, k: nat, m: nat, top: nat)
    requires UniqueIds(rows) && Contracted(rows, run.head, out) && Partition(Topology(rows), Everything(|rows|), run.head, run.chains)
    requires Timed(NetOf(rows), t, run.topo, |run.topo|, Everything(|rows|), run.head, run.chains) && |run.head| == |rows|
    requires WouldJoin(t, out, k, m) && k < |Kept(run.head)| && m < |Kept(run.head)| && top < |rows|
    requires Topology(rows)[Kept(run.head)[m]] == top && run.head[top] == Kept(run.head)[k]
    ensures |Parents(Topology(rows), top)| == 1
  {
    hide Topology, UniqueIds, Timed, Partition, Contracted, SameFlow, Parents;
    var ds, head := Topology(rows), run.head;
    if |Parents(ds, top)| != 1 {
      var w := TwoParents(ds, top, Kept(head)[m]);
      AbsorbedOrStart(rows, t, run, w);
      var n := StartStands(head, w);
      SameSize(rows, head, out);
      ResultTopology(rows, head, out, n);
      KeptOnce(head, Topology(out)[n], k);
      SecondParent(Topology(out), k, m, n);
    }
  }

  lemma AbsorbedOrStart(rows: seq<Reach>, t: Thresholds, run: Trace, w: nat)
    requires Partition(Topology(rows), Everything(|rows|), run.head, run.chains) && |run.head| == |rows| && w < |rows|
    requires Timed(NetOf(rows), t, run.topo, |run.topo|, Everything(|rows|), run.head, run.chains)
    requires Topology(rows)[w] >= 0 && |Parents(Topology(rows), Topology(rows)[w])| != 1
    ensures run.head[w] == w
  {
    hide Topology, Timed, Partition, Parents;
    if run.head[w] != w {
      AbsorbedAlone(rows, t, run.topo, run.chains, run.head, w);
    }
  }

  lemma SameSize(rows: seq<Reach>, head: seq<nat>, out: seq<Reach>)
    requires Contracted(rows, head, out)
    ensures |out| == |Kept(head)|
  {
    hide Headed;
  }

  lemma KeptOnce(head: seq<nat>, j: int, k: nat)
    requires 0 <= j < |Kept(head)| && k < |Kept(head)|
    ensures Kept(head)[j] == Kept(head)[k] ==> j == k
  {}

  /** What flows into a chain that does not drain does not drain either. */
  lemma UpstreamLeftOver(rows: seq<Reach>, byText: seq<nat>, run: Trace, u: nat, v: nat)
    requires Traversed(Topology(rows), byText, run.topo, run.front) && run.front <= |run.topo| && |run.head| == |rows|
    requires Partition(Topology(rows), Everything(|rows|), run.head, run.chains)
    requires u < |rows| && Topology(rows)[u] >= 0 && run.head[Topology(rows)[u]] == v && v < |rows|
    requires !Listed(run.topo[..run.front], v)
    ensures !Listed(run.topo[..run.front], u)
  {
    hide Topology, Traversed, Partition, Listed, Headed;
    var ds := Topology(rows);
    if Listed(run.topo[..run.front], u) {
      FrontGoesDown(ds, byText, run.topo, run.front, u);
      PartitionIsHeaded(rows, run.head, run.chains);
      var n := StepsToHead(rows, run.head, ds[u]);
      FrontFollows(ds, byText, run.topo, run.front, ds[u], n);
    }
  }

  lemma StepsToHead(rows: seq<Reach>, head: seq<nat>, i: nat) returns (n: nat)
    requires Headed(rows, head) && i < |rows|
    ensures |head| == |rows| && Follow(Topology(rows), i, n) == head[i]
  {
    hide Topology;
    n :| Follow(Topology(rows), i, n) == head[i];
  }

  // ---------- The second run ----------

  /** What drains in the result drained before. */
  lemma {:induction false} FrontWasFront(rows: seq<Reach>, byText: seq<nat>, run: Trace, out: seq<Reach>,
                                        byText2: seq<nat>, topo2: seq<nat>, front2: nat, a: nat)
    requires UniqueIds(rows) && Contracted(rows, run.head, out) && Partition(Topology(rows), Everything(|rows|), run.head, run.chains)
    requires Traversed(Topology(rows), byText, run.topo, run.front) && run.front <= |run.topo|
    requires Traversed(Topology(out), byText2, topo2, front2) && a < front2 <= |topo2| && |run.head| == |rows|
    ensures topo2[a] < |out| == |Kept(run.head)| && Listed(run.topo[..run.front], Kept(run.head)[topo2[a]])
    decreases a
  {
    hide Topology, UniqueIds, Traversed, Partition, Contracted, Listed;
    SameSize(rows, run.head, out);
    FrontStep(Topology(out), byText2, topo2, front2, a);
    var k := topo2[a];
    var i := Kept(run.head)[k];
    ResultTopology(rows, run.head, out, k);
    if Topology(rows)[i] >= 0 {
      var b :| 0 <= b < a && topo2[b] == Topology(out)[topo2[a]];
      FrontWasFront(rows, byText, run, out, byText2, topo2, front2, b);
      MemberInFront(rows, byText, run.topo, run.front, run.chains, run.head, Topology(rows)[i]);
    }
    FrontGoesUp(Topology(rows), byText, run.topo, run.front, i);
  }

  lemma FrontStep(ds: seq<int>, byText: seq<nat>, topo: seq<nat>, front: nat, a: nat)
    requires Traversed(ds, byText, topo, front) && a < front <= |topo|
    ensures topo[a] < |ds| && (ds[topo[a]] >= 0 ==> exists b :: 0 <= b < a && topo[b] == ds[topo[a]])
  {
    if ds[topo[..front][a]] >= 0 {
      var b :| 0 <= b < a && topo[..front][b] == ds[topo[..front][a]];
      assert topo[b] == ds[topo[a]];
    }
  }

  /** Turns among reaches that do not drain follow the text. */
  lemma LeftoversInOrder(ds: seq<int>, byText: seq<nat>, topo: seq<nat>, front: nat, i: nat, j: nat)
    requires Traversed(ds, byText, topo, front) && front <= |topo| && Precedes(topo, i, j) && !Listed(topo[..front], i)
    ensures Precedes(byText, i, j)
  {
    hide Precedes, DownstreamFirst, Lists;
    PrecedesAt(topo, i, j);
    NotListedAt(topo, front, i);
    var a, b :| 0 <= a < b < |topo| && topo[a] == i && topo[b] == j;
    assert a >= front;
  }

  lemma NotListedAt(s: seq<nat>, n: nat, i: nat)
    requires n <= |s| && !Listed(s[..n], i)
    ensures forall a :: 0 <= a < n ==> s[a] != i
  {
    forall a | 0 <= a < n ensures s[a] != i {
      assert s[..n][a] == s[a];
    }
  }

  lemma PrecedesAt(s: seq<nat>, i: nat, j: nat)
    requires Precedes(s, i, j)
    ensures exists a, b :: 0 <= a < b < |s| && s[a] == i && s[b] == j
  {}

  /** The runs meet rows in the same order: either every reach drains to a terminal, or both list ids in one text order. */
  ghost predicate SameOrderTwice(rows: seq<Reach>, byText: seq<nat>, run: Trace, out: seq<Reach>, byText2: seq<nat>,
                                 before: (Id, Id) -> bool)
  {
    || run.front == |run.topo|
    || (OneWay(before) && InTextOrder(rows, byText, before) && InTextOrder(out, byText2, before))
  }

  /** So what a second run would join comes the wrong way round in its turns. */
  lemma LowerComesLater(rows: seq<Reach>, byText: seq<nat>, t: Thresholds, join: seq<Reach> -> real, run: Trace, out: seq<Reach>,
                        byText2: seq<nat>, topo2: seq<nat>, front2: nat, before: (Id, Id) -> bool, k: nat, m: nat)
    requires MergeRun(rows, byText, t, join, run, out) && Adds(join) && WouldJoin(t, out, k, m)
    requires Traversed(Topology(out), byText2, topo2, front2) && SameOrderTwice(rows, byText, run, out, byText2, before)
    ensures !Precedes(topo2, k, m)
  {
    hide Topology, Merged, Timed, Traversed, Partition, Contracted, UniqueIds, Precedes, Parents, SameFlow, InTextOrder;
    var head := run.head;
    UpperCameFirst(rows, byText, t, join, run, out, k, m);
    StartRows(rows, join, run.chains, head, out);
    MergedPartition(rows, join, run.chains, head, out);
    var v, u := Kept(head)[k], Kept(head)[m];
    if run.front == |run.topo| {
      EveryoneDrains(Topology(rows), byText, run.topo, v);
    }
    LeftoversInOrder(Topology(rows), byText, run.topo, run.front, u, v);
    TextPrecedes(rows, byText, before, u, v);
    FrontIsPart(Topology(out), byText2, topo2, front2);
    if Listed(topo2[..front2], k) {
      var a :| 0 <= a < front2 && topo2[..front2][a] == k;
      FrontWasFront(rows, byText, run, out, byText2, topo2, front2, a);
    }
    if Precedes(topo2, k, m) {
      LeftoversInOrder(Topology(out), byText2, topo2, front2, k, m);
      TextPrecedes(out, byText2, before, k, m);
      SameNames(rows, head, out, k);
      SameNames(rows, head, out, m);
    }
  }

  lemma SameNames(rows: seq<Reach>, head: seq<nat>, out: seq<Reach>, k: nat)
    requires Contracted(rows, head, out) && k < |out|
    ensures k < |Kept(head)| && Kept(head)[k] < |rows| && out[k].id == rows[Kept(head)[k]].id
  {
    hide Headed, Repointed;
    assert StartRow(rows, head, Kept(head)[k], out[k]);
  }

  lemma EveryoneDrains(ds: seq<int>, byText: seq<nat>, topo: seq<nat>, i: nat)
    requires Traversed(ds, byText, topo, |topo|) && i < |ds|
    ensures Listed(topo[..|topo|], i)
  {
    hide Precedes, DownstreamFirst;
    assert topo[..|topo|] == topo;
  }

  /** A run that absorbs anything joins a lone reach to a short start whose turn came first. */
  lemma FirstJoin(rows: seq<Reach>, byText: seq<nat>, t: Thresholds, join: seq<Reach> -> real, run: Trace, out: seq<Reach>, i: nat)
    returns (k: nat, m: nat)
    requires MergeRun(rows, byText, t, join, run, out) && i < |rows| == |run.head| && run.head[i] != i
    ensures WouldJoin(t, rows, k, m) && Precedes(run.topo, k, m)
  {
    hide Topology, UniqueIds, Timed, Traversed, Partition, Precedes, Parents, SameFlow, Stopped, ChainOf, RowAfter;
    MergedPartition(rows, join, run.chains, run.head, out);
    PartitionIsHeaded(rows, run.head, run.chains);
    HeadedAt(rows, run.head, i);
    k := run.head[i];
    HeadInTurn(rows, t, run.topo, run.chains, run.head, k);
    ChainHeads(rows, run.chains, run.head, k);
    var members := ChainOf(run.chains, k);
    SecondMember(members, k, i);
    m := members[1];
    assert AbsorbedRightly(NetOf(rows), t, members, 1);
    assert members[..1] == [k];
    AloneLength(NetOf(rows).ln, k);
  }

  lemma SecondMember(members: seq<nat>, v: nat, i: nat)
    requires members != [] && members[0] == v && Distinct(members) && Listed(members, i) && i != v
    ensures |members| > 1 && members[1] != v
  {}

  lemma AloneLength(ln: seq<real>, v: nat)
    requires v < |ln|
    ensures TotalLength(ln, [v]) == ln[v]
  {
    assert [] + [v] == [v];
    TotalLengthPush(ln, [], v);
  }

  /** A second run with the same thresholds absorbs nothing: every reach of the result stays its own start. */
  lemma SecondRunAbsorbsNothing(rows: seq<Reach>, byText: seq<nat>, t: Thresholds, join: seq<Reach> -> real, run: Trace,
                                out: seq<Reach>, byText2: seq<nat>, run2: Trace, out2: seq<Reach>,
                                before: (Id, Id) -> bool, i: nat)
    requires MergeRun(rows, byText, t, join, run, out) && MergeRun(out, byText2, t, join, run2, out2) && Adds(join)
    requires SameOrderTwice(rows, byText, run, out, byText2, before) && i < |out| == |run2.head|
    ensures run2.head[i] == i
  {
    hide Merged, Timed, Traversed, UniqueIds, SameOrderTwice, WouldJoin, Precedes, Topology;
    if run2.head[i] != i {
      var k, m := FirstJoin(out, byText2, t, join, run2, out2, i);
      LowerComesLater(rows, byText, t, join, run, out, byText2, run2.topo, run2.front, before, k, m);
    }
  }

  /** Merging is idempotent when joined lengths add up, on every network, cycles included: the second result is the first. */
  lemma MergeIsIdempotent(rows: seq<Reach>, byText: seq<nat>, t: Thresholds, join: seq<Reach> -> real, run: Trace,
                          out: seq<Reach>, byText2: seq<nat>, run2: Trace, out2: seq<Reach>, before: (Id, Id) -> bool)
    requires MergeRun(rows, byText, t, join, run, out) && MergeRun(out, byText2, t, join, run2, out2) && Adds(join)
    requires SameOrderTwice(rows, byText, run, out, byText2, before)
    ensures out2 == out && Count(AbsorbedMask(run2.head)) == 0
  {
    hide Topology, Timed, Traversed, UniqueIds, SameOrderTwice, Repointed, RowAfter, Partition;
    MergedPartition(out, join, run2.chains, run2.head, out2);
    forall i | 0 <= i < |out| ensures run2.head[i] == i {
      SecondRunAbsorbsNothing(rows, byText, t, join, run, out, byText2, run2, out2, before, i);
    }
    NoneSet(AbsorbedMask(run2.head));
    StillTheSame(out, join, run2.chains, run2.head, out2);
  }

  lemma StillTheSame(rows: seq<Reach>, join: seq<Reach> -> real, chains: seq<seq<nat>>, head: seq<nat>, out: seq<Reach>)
    requires UniqueIds(rows) && Merged(rows, join, chains, head, out) && |head| == |rows|
    requires forall i :: 0 <= i < |rows| ==> head[i] == i
    ensures out == rows
  {
    hide Topology, UniqueIds, MergedRow;
    MergedPartition(rows, join, chains, head, out);
    NoChains(Topology(rows), head, chains);
    PositionsAll(Not(AbsorbedMask(head)));
    forall k | 0 <= k < |out| ensures out[k] == rows[k] {
      assert RowAfter(rows, join, chains, head, k, out[k]);
      PointerFound(rows, k);
    }
  }

  /** A listed chain absorbs something. */
  lemma ChainAbsorbs(ds: seq<int>, head: seq<nat>, chains: seq<seq<nat>>, c: nat)
    requires Partition(ds, Everything(|ds|), head, chains) && c < |chains|
    ensures |chains[c]| >= 2 && chains[c][1] < |ds| == |head| && head[chains[c][1]] != chains[c][1]
  {
    hide HasChain;
    assert Listed(chains[c], chains[c][1]) && chains[c][0] != chains[c][1];
  }

  lemma NoChains(ds: seq<int>, head: seq<nat>, chains: seq<seq<nat>>)
    requires Partition(ds, Everything(|ds|), head, chains) && forall k :: 0 <= k < |ds| ==> head[k] == k
    ensures chains == []
  {
    if chains != [] {
      ChainAbsorbs(ds, head, chains, 0);
    }
  }
}
