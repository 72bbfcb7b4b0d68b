/** All the chains of a network, one start at a time, and when each reach was taken. */
module Build {
  import opened Wrappers
  import opened Reaches
  import opened Chains
  import opened Grow

  // ---------- Who belongs where ----------

  /** Every taken reach belongs to one start; the chains of two or more members are listed, once each. */
  ghost predicate Partition(ds: seq<int>, taken: seq<bool>, head: seq<nat>, chains: seq<seq<nat>>) {
    && |taken| == |ds| && |head| == |ds|
    && (forall i :: 0 <= i < |ds| ==>
          && head[i] < |ds| && (!taken[i] ==> head[i] == i)
          && (taken[i] ==> taken[head[i]] && head[head[i]] == head[i]))
    && (forall c :: 0 <= c < |chains| ==>
          && Path(ds, chains[c]) && Distinct(chains[c]) && |chains[c]| >= 2
          && forall i: nat :: i < |ds| ==> (Listed(chains[c], i) <==> taken[i] && head[i] == chains[c][0]))
    && (forall c, d :: 0 <= c < d < |chains| ==> chains[c][0] != chains[d][0])
    && (forall i :: 0 <= i < |ds| && head[i] != i ==> HasChain(chains, head[i]))
  }

  function Everything(n: nat): (mask: seq<bool>)
    ensures |mask| == n && forall i :: 0 <= i < n ==> mask[i]
  {
    seq(n, _ => true)
  }

  ghost predicate HasChain(chains: seq<seq<nat>>, start: nat) {
    exists c :: 0 <= c < |chains| && chains[c] != [] && chains[c][0] == start
  }

  /** How many rows the chains absorb. */
  function Absorbed(chains: seq<seq<nat>>): int {
    if chains == [] then 0 else Absorbed(chains[..|chains| - 1]) + |chains[|chains| - 1]| - 1
  }

  ghost function AbsorbedMask(head: seq<nat>): (mask: seq<bool>)
    ensures |mask| == |head| && forall i :: 0 <= i < |head| ==> (mask[i] <==> head[i] != i)
  {
    seq(|head|, i requires 0 <= i < |head| => head[i] != i)
  }

  ghost function Claim(head: seq<nat>, members: seq<nat>, v: nat): (now: seq<nat>)
    ensures |now| == |head| && forall i: nat :: i < |head| ==> now[i] == if Listed(members, i) then v else head[i]
  {
    seq(|head|, i requires 0 <= i < |head| => if Listed(members, i) then v else head[i])
  }

  ghost function Extended(chains: seq<seq<nat>>, members: seq<nat>): (lists: seq<seq<nat>>)
    ensures |members| > 1 ==> lists == chains + [members]
    ensures |members| <= 1 ==> lists == chains
  {
    if |members| > 1 then chains + [members] else chains
  }

  lemma PartitionGrows(ds: seq<int>, before: seq<bool>, taken: seq<bool>, head: seq<nat>, chains: seq<seq<nat>>, members: seq<nat>)
    requires Partition(ds, before, head, chains) && Path(ds, members) && Distinct(members) && |taken| == |ds|
    requires forall i: nat :: i < |ds| && Listed(members, i) ==> !before[i]
    requires forall i: nat :: i < |ds| ==> (taken[i] <==> before[i] || Listed(members, i))
    ensures members != [] && Partition(ds, taken, Claim(head, members, members[0]), Extended(chains, members))
  {
    PathStarts(ds, members);
    var v := members[0];
    var now, lists := Claim(head, members, v), Extended(chains, members);
    HeadsGrow(ds, before, taken, head, chains, members);
    ListsGrow(ds, before, taken, head, chains, members);
    forall i | 0 <= i < |ds| && now[i] != i ensures HasChain(lists, now[i]) {
      ChainGrows(ds, before, head, chains, members, i);
    }
    forall c, d | 0 <= c < d < |lists| ensures lists[c][0] != lists[d][0] {
      if d == |chains| {
        StartIsListed(ds, chains[c]);
        StartIsListed(ds, members);
      }
    }
  }

  lemma HeadsGrow(ds: seq<int>, before: seq<bool>, taken: seq<bool>, head: seq<nat>, chains: seq<seq<nat>>, members: seq<nat>)
    requires Partition(ds, before, head, chains) && Path(ds, members) && |taken| == |ds|
    requires forall i: nat :: i < |ds| && Listed(members, i) ==> !before[i]
    requires forall i: nat :: i < |ds| ==> (taken[i] <==> before[i] || Listed(members, i))
    ensures
      var now := Claim(head, members, members[0]);
      forall i :: 0 <= i < |ds| ==>
        && now[i] < |ds| && (!taken[i] ==> now[i] == i) && (taken[i] ==> taken[now[i]] && now[now[i]] == now[i])
  {
    StartIsListed(ds, members);
    hide Path, Distinct, HasChain, Listed;
  }

  lemma ListsGrow(ds: seq<int>, before: seq<bool>, taken: seq<bool>, head: seq<nat>, chains: seq<seq<nat>>, members: seq<nat>)
    requires Partition(ds, before, head, chains) && Path(ds, members) && Distinct(members) && |taken| == |ds|
    requires forall i: nat :: i < |ds| && Listed(members, i) ==> !before[i]
    requires forall i: nat :: i < |ds| ==> (taken[i] <==> before[i] || Listed(members, i))
    ensures
      var now, lists := Claim(head, members, members[0]), Extended(chains, members);
      forall c :: 0 <= c < |lists| ==>
        && Path(ds, lists[c]) && Distinct(lists[c]) && |lists[c]| >= 2
        && forall i: nat :: i < |ds| ==> (Listed(lists[c], i) <==> taken[i] && now[i] == lists[c][0])
  {
    PathStarts(ds, members);
    StartIsListed(ds, members);
    hide Distinct, HasChain, Path;
    var v := members[0];
    var now, lists := Claim(head, members, v), Extended(chains, members);
    forall c, i: nat | 0 <= c < |lists| && i < |ds| ensures Listed(lists[c], i) <==> taken[i] && now[i] == lists[c][0] {
      hide Listed;
      if c < |chains| {
        StartIsListed(ds, chains[c]);
        assert before[chains[c][0]] && !before[v];
      } else if !Listed(members, i) && before[i] {
        assert before[head[i]];
      }
    }
  }

  lemma ChainGrows(ds: seq<int>, before: seq<bool>, head: seq<nat>, chains: seq<seq<nat>>, members: seq<nat>, i: nat)
    requires Partition(ds, before, head, chains) && members != [] && i < |ds|
    requires Claim(head, members, members[0])[i] != i
    ensures HasChain(Extended(chains, members), Claim(head, members, members[0])[i])
  {
    hide Path, Distinct;
    var v, lists := members[0], Extended(chains, members);
    if Listed(members, i) {
      var k :| 0 <= k < |members| && members[k] == i;
      assert lists[|lists| - 1][0] == v;
    } else {
      var c :| 0 <= c < |chains| && chains[c] != [] && chains[c][0] == head[i];
      assert lists[c][0] == head[i];
    }
  }

  lemma PathStarts(ds: seq<int>, members: seq<nat>)
    requires Path(ds, members)
    ensures members != [] && members[0] < |ds|
  {}

  lemma StartIsListed(ds: seq<int>, members: seq<nat>)
    requires Path(ds, members)
    ensures members != [] && members[0] < |ds| && Listed(members, members[0])
  {
    assert members[0] == members[0];
  }

  lemma {:induction false} CountFlips(before: seq<bool>, now: seq<bool>, flipped: seq<nat>)
    requires |before| == |now| && Distinct(flipped)
    requires forall k :: 0 <= k < |flipped| ==> flipped[k] < |before| && !before[flipped[k]]
    requires forall i: nat :: i < |before| ==> (now[i] <==> before[i] || Listed(flipped, i))
    ensures Count(now) == Count(before) + |flipped|
    decreases |flipped|
  {
    if flipped == [] {
      assert now == before;
    } else {
      var n := |flipped| - 1;
      var u, rest := flipped[n], flipped[..n];
      assert flipped == rest + [u];
      ListedPush(rest, u);
      var middle := now[u := false];
      forall k | 0 <= k < |rest| ensures rest[k] != u {
        assert flipped[k] != flipped[n];
      }
      CountFlips(before, middle, rest);
      CountSet(middle, u);
      assert middle[u := true] == now;
    }
  }

  lemma {:induction false} CountSet(mask: seq<bool>, u: nat)
    requires u < |mask| && !mask[u]
    ensures Count(mask[u := true]) == Count(mask) + 1
  {
    var n := |mask| - 1;
    if u < n {
      CountSet(mask[..n], u);
      assert mask[u := true][..n] == mask[..n][u := true];
    } else {
      assert mask[u := true][..n] == mask[..n];
    }
  }

  lemma AbsorbedGrows(ds: seq<int>, before: seq<bool>, head: seq<nat>, chains: seq<seq<nat>>, members: seq<nat>)
    requires Partition(ds, before, head, chains) && Path(ds, members) && Distinct(members)
    requires forall i: nat :: i < |ds| && Listed(members, i) ==> !before[i]
    requires Absorbed(chains) == Count(AbsorbedMask(head))
    ensures members != []
    ensures Absorbed(Extended(chains, members)) == Count(AbsorbedMask(Claim(head, members, members[0])))
  {
    PathStarts(ds, members);
    var rest, v := members[1..], members[0];
    var was, now := AbsorbedMask(head), AbsorbedMask(Claim(head, members, v));
    TailListed(members);
    forall k | 0 <= k < |rest| ensures rest[k] < |ds| && !was[rest[k]] && rest[k] != v {
      assert members[k + 1] == rest[k];
      assert Listed(members, rest[k]);
    }
    forall i: nat | i < |ds| ensures now[i] <==> was[i] || Listed(rest, i) {
      hide Path, Distinct, Listed, Count;
      assert !Listed(rest, v);
    }
    CountFlips(was, now, rest);
    assert (chains + [members])[..|chains|] == chains;
  }

  lemma TailListed(members: seq<nat>)
    requires members != [] && Distinct(members)
    ensures !Listed(members[1..], members[0])
    ensures forall j :: Listed(members, j) <==> j == members[0] || Listed(members[1..], j)
  {
    var rest := members[1..];
    forall j ensures Listed(members, j) <==> j == members[0] || Listed(rest, j) {
      if Listed(members, j) {
        var k :| 0 <= k < |members| && members[k] == j;
        if k > 0 {
          assert rest[k - 1] == j;
        }
      }
      if Listed(rest, j) {
        var k :| 0 <= k < |rest| && rest[k] == j;
        assert members[k + 1] == j;
      }
      assert members[0] == members[0];
    }
  }

  /** On an acyclic network visited downstream first, what is taken is exactly the chains already started. */
  ghost predicate InOrder(net: Net, t: Thresholds, rank: seq<nat>, topo: seq<nat>, taken: seq<bool>, head: seq<nat>)
    requires ValidNet(net) && Ranked(net.ds, rank)
  {
    && |taken| == |net.ds| && |head| == |net.ds|
    && forall i: nat :: i < |net.ds| ==>
        && (taken[i] <==> Listed(topo, LabelOf(net, t, rank, i).start))
        && (taken[i] ==> head[i] == LabelOf(net, t, rank, i).start)
  }

  /** A reach not yet taken when its turn comes starts its own chain. */
  lemma {:induction false} StartComesFirst(net: Net, t: Thresholds, rank: seq<nat>, topo: seq<nat>, b: nat)
    requires ValidNet(net) && Ranked(net.ds, rank) && Lists(topo, |net.ds|) && DownstreamFirst(net.ds, topo) && b < |topo|
    ensures
      var v := LabelOf(net, t, rank, topo[b]).start;
      v == topo[b] || Listed(topo[..b], v)
  {
    hide Joins, Distinct;
    var i := topo[b];
    var v := LabelOf(net, t, rank, i).start;
    if v != i {
      var a :| 0 <= a < b && topo[a] == net.ds[i];
      StartComesFirst(net, t, rank, topo, a);
      if v == topo[a] {
        assert topo[..b][a] == v;
      } else {
        var c :| 0 <= c < a && topo[..a][c] == v;
        assert topo[..b][c] == v;
      }
    }
  }

  lemma SkipKeepsOrder(net: Net, t: Thresholds, rank: seq<nat>, topo: seq<nat>, x: nat, taken: seq<bool>, head: seq<nat>)
    requires ValidNet(net) && Ranked(net.ds, rank) && Lists(topo, |net.ds|) && x < |topo|
    requires InOrder(net, t, rank, topo[..x], taken, head) && taken[topo[x]]
    ensures InOrder(net, t, rank, topo[..x + 1], taken, head)
  {
    hide LabelOf;
    var v := topo[x];
    assert topo[..x + 1] == topo[..x] + [v];
    ListedPush(topo[..x], v);
    forall i: nat | i < |net.ds| ensures LabelOf(net, t, rank, i).start != v {
      StartIsItsOwn(net, t, rank, i);
    }
  }

  lemma ClaimKeepsOrder(net: Net, t: Thresholds, rank: seq<nat>, topo: seq<nat>, x: nat, before: seq<bool>, taken: seq<bool>,
                        head: seq<nat>, members: seq<nat>)
    requires ValidNet(net) && Ranked(net.ds, rank) && Lists(topo, |net.ds|) && x < |topo|
    requires InOrder(net, t, rank, topo[..x], before, head) && Path(net.ds, members) && members[0] == topo[x]
    requires Canonical(net, t, rank, members) && |taken| == |net.ds|
    requires forall i: nat :: i < |net.ds| ==> (taken[i] <==> before[i] || Listed(members, i))
    ensures InOrder(net, t, rank, topo[..x + 1], taken, Claim(head, members, topo[x]))
  {
    hide LabelOf;
    assert topo[..x + 1] == topo[..x] + [topo[x]];
    ListedPush(topo[..x], topo[x]);
  }

  lemma FreshStart(net: Net, t: Thresholds, rank: seq<nat>, topo: seq<nat>, x: nat, taken: seq<bool>, head: seq<nat>)
    requires ValidNet(net) && Ranked(net.ds, rank) && Lists(topo, |net.ds|) && DownstreamFirst(net.ds, topo) && x < |topo|
    requires InOrder(net, t, rank, topo[..x], taken, head) && !taken[topo[x]]
    ensures LabelOf(net, t, rank, topo[x]) == Label(topo[x], net.ln[topo[x]])
    ensures forall i: nat :: i < |net.ds| && taken[i] ==> LabelOf(net, t, rank, i).start != topo[x]
  {
    hide LabelOf;
    StartComesFirst(net, t, rank, topo, x);
    StartIsItsOwn(net, t, rank, topo[x]);
    assert !Listed(topo[..x], topo[x]);
  }

  // ---------- When each reach was taken ----------

  ghost predicate NoLater(topo: seq<nat>, i: nat, j: nat) {
    i == j || Precedes(topo, i, j)
  }

  /** What stopped a chain: its length, a junction or a source, the flow, or a lone parent claimed no later than this. */
  ghost predicate Stopped(net: Net, t: Thresholds, topo: seq<nat>, taken: seq<bool>, head: seq<nat>, members: seq<nat>)
    requires ValidNet(net) && Path(net.ds, members) && |taken| == |head| == |net.ds|
  {
    var above := Parents(net.ds, members[|members| - 1]);
    || TotalLength(net.ln, members) >= t.minLength || |above| != 1
    || !SameFlow(t, net.da[members[0]], net.da[above[0]])
    || (taken[above[0]] && NoLater(topo, head[above[0]], members[0]))
  }

  /** A chain grown in its turn: rightly, out of reaches whose own turn was still to come, until something stopped it. */
  ghost predicate InTurn(net: Net, t: Thresholds, topo: seq<nat>, taken: seq<bool>, head: seq<nat>, members: seq<nat>)
    requires ValidNet(net) && |taken| == |head| == |net.ds|
  {
    && Path(net.ds, members) && Worthwhile(net, t, members)
    && (forall k :: 1 <= k < |members| ==> Precedes(topo, members[0], members[k]))
    && Stopped(net, t, topo, taken, head, members)
  }

  /** After `x` turns. */
  ghost predicate Timed(net: Net, t: Thresholds, topo: seq<nat>, x: nat, taken: seq<bool>, head: seq<nat>, chains: seq<seq<nat>>)
    requires ValidNet(net)
  {
    && |taken| == |head| == |net.ds| && x <= |topo|
    && (forall i :: 0 <= i < |taken| && taken[i] ==> Listed(topo[..x], head[i]))
    && (forall c :: 0 <= c < |chains| ==> InTurn(net, t, topo, taken, head, chains[c]))
    && forall i: nat :: i < |taken| && taken[i] && head[i] == i && !HasChain(chains, i) ==>
        InTurn(net, t, topo, taken, head, [i])
  }

  lemma StillInTurn(net: Net, t: Thresholds, topo: seq<nat>, before: seq<bool>, taken: seq<bool>, head: seq<nat>, now: seq<nat>,
                    members: seq<nat>)
    requires ValidNet(net) && |before| == |head| == |net.ds| && |taken| == |now| == |net.ds|
    requires forall i :: 0 <= i < |before| && before[i] ==> taken[i] && now[i] == head[i]
    requires InTurn(net, t, topo, before, head, members)
    ensures InTurn(net, t, topo, taken, now, members)
  {
    hide Worthwhile, Precedes, SameFlow, TotalLength;
  }

  /** A chain just grown. */
  lemma JustInTurn(net: Net, t: Thresholds, topo: seq<nat>, x: nat, before: seq<bool>, taken: seq<bool>, head: seq<nat>,
                   chains: seq<seq<nat>>, members: seq<nat>)
    requires ValidNet(net) && Lists(topo, |net.ds|) && Timed(net, t, topo, x, before, head, chains) && x < |topo|
    requires Path(net.ds, members) && Distinct(members) && members[0] == topo[x] && Worthwhile(net, t, members)
    requires |taken| == |net.ds| && Halted(net, t, members, taken)
    requires forall i: nat :: i < |net.ds| && Listed(members, i) ==> !before[i]
    requires forall i: nat :: i < |net.ds| ==> (taken[i] <==> before[i] || Listed(members, i))
    requires forall y :: 0 <= y < x ==> before[topo[y]]
    ensures InTurn(net, t, topo, taken, Claim(head, members, topo[x]), members)
  {
    hide Worthwhile, SameFlow, TotalLength, HasChain, InTurn;
    var v, now := topo[x], Claim(head, members, topo[x]);
    forall k | 1 <= k < |members| ensures Precedes(topo, v, members[k]) {
      assert Listed(members, members[k]) && members[0] != members[k];
      assert Listed(topo, members[k]);
      var y :| 0 <= y < |topo| && topo[y] == members[k];
      assert y > x;
    }
    var above := Parents(net.ds, members[|members| - 1]);
    if |above| == 1 && taken[above[0]] {
      if !Listed(members, above[0]) {
        ListedPrecedes(topo, x, now[above[0]]);
      }
    }
    assert Stopped(net, t, topo, taken, now, members);
    MakeInTurn(net, t, topo, taken, now, members);
  }

  lemma MakeInTurn(net: Net, t: Thresholds, topo: seq<nat>, taken: seq<bool>, head: seq<nat>, members: seq<nat>)
    requires ValidNet(net) && |taken| == |head| == |net.ds|
    requires Path(net.ds, members) && Worthwhile(net, t, members) && Stopped(net, t, topo, taken, head, members)
    requires forall k :: 1 <= k < |members| ==> Precedes(topo, members[0], members[k])
    ensures InTurn(net, t, topo, taken, head, members)
  {
    hide Worthwhile, Stopped, Precedes, Path;
  }

  lemma ClaimTimed(net: Net, t: Thresholds, topo: seq<nat>, x: nat, before: seq<bool>, taken: seq<bool>, head: seq<nat>,
                   chains: seq<seq<nat>>, members: seq<nat>)
    requires ValidNet(net) && Lists(topo, |net.ds|) && Timed(net, t, topo, x, before, head, chains) && x < |topo|
    requires Partition(net.ds, before, head, chains)
    requires Path(net.ds, members) && Distinct(members) && members[0] == topo[x] && Worthwhile(net, t, members)
    requires |taken| == |net.ds| && Halted(net, t, members, taken)
    requires forall i: nat :: i < |net.ds| && Listed(members, i) ==> !before[i]
    requires forall i: nat :: i < |net.ds| ==> (taken[i] <==> before[i] || Listed(members, i))
    requires forall y :: 0 <= y < x ==> before[topo[y]]
    ensures Timed(net, t, topo, x + 1, taken, Claim(head, members, topo[x]), Extended(chains, members))
  {
    JustInTurn(net, t, topo, x, before, taken, head, chains, members);
    StartIsListed(net.ds, members);
    hide Worthwhile, Halted, InTurn, HasChain, Listed, Distinct, Path, Partition;
    var v, now, lists := topo[x], Claim(head, members, topo[x]), Extended(chains, members);
    assert topo[..x + 1] == topo[..x] + [v];
    ListedPush(topo[..x], v);
    forall c | 0 <= c < |chains| ensures InTurn(net, t, topo, taken, now, chains[c]) {
      StillInTurn(net, t, topo, before, taken, head, now, chains[c]);
    }
    forall i: nat | i < |taken| && taken[i] && now[i] == i && !HasChain(lists, i) ensures InTurn(net, t, topo, taken, now, [i]) {
      if Listed(members, i) {
        AloneInTurn(chains, members, i);
      } else {
        StillNoChain(chains, members, i);
        StillInTurn(net, t, topo, before, taken, head, now, [i]);
      }
    }
  }

  lemma AloneInTurn(chains: seq<seq<nat>>, members: seq<nat>, v: nat)
    requires members != [] && members[0] == v && !HasChain(Extended(chains, members), v)
    ensures members == [v]
  {
    if |members| > 1 {
      OwnChain(chains, members);
    }
  }

  lemma OwnChain(chains: seq<seq<nat>>, members: seq<nat>)
    requires |members| > 1
    ensures HasChain(Extended(chains, members), members[0])
  {
    assert Extended(chains, members)[|chains|][0] == members[0];
  }

  lemma StillNoChain(chains: seq<seq<nat>>, members: seq<nat>, i: nat)
    requires !HasChain(Extended(chains, members), i)
    ensures !HasChain(chains, i)
  {
    forall c | 0 <= c < |chains| && chains[c] != [] ensures chains[c][0] != i {
      assert Extended(chains, members)[c] == chains[c];
    }
  }

  lemma SkipTimed(net: Net, t: Thresholds, topo: seq<nat>, x: nat, taken: seq<bool>, head: seq<nat>, chains: seq<seq<nat>>)
    requires ValidNet(net) && Timed(net, t, topo, x, taken, head, chains) && x < |topo|
    ensures Timed(net, t, topo, x + 1, taken, head, chains)
  {
    hide InTurn, HasChain, Listed;
    assert topo[..x + 1] == topo[..x] + [topo[x]];
    ListedPush(topo[..x], topo[x]);
  }

  /** Grow a chain from every reach not yet taken, downstream first. */
  method BuildChains(net: Net, t: Thresholds, topo: seq<nat>, ghost rank: Option<seq<nat>>)
    returns (chains: seq<seq<nat>>, ghost head: seq<nat>)
    requires ValidNet(net) && Lists(topo, |net.ds|)
    requires rank.Some? ==> Ranked(net.ds, rank.value) && DownstreamFirst(net.ds, topo)
    ensures Partition(net.ds, Everything(|net.ds|), head, chains)
    ensures Timed(net, t, topo, |topo|, Everything(|net.ds|), head, chains)
    ensures forall c :: 0 <= c < |chains| ==> Path(net.ds, chains[c])
    ensures Absorbed(chains) == Count(AbsorbedMask(head))
    ensures rank.Some? ==> forall i: nat :: i < |net.ds| ==> head[i] == LabelOf(net, t, rank.value, i).start
    ensures rank.Some? ==> forall c :: 0 <= c < |chains| ==> Canonical(net, t, rank.value, chains[c])
  {
    hide LabelOf, Partition, InOrder, Canonical, Worthwhile, Path, Distinct, Listed, DownstreamFirst, Ranked, Absorbed, Count,
         Timed, Halted;
    var n := |net.ds|;
    var taken := new bool[n](_ => false);
    chains, head := [], seq(n, i => i);
    NothingTaken(net, t, rank, topo, taken[..], head);
    for x := 0 to |topo|
      invariant |head| == n && Partition(net.ds, taken[..], head, chains)
      invariant forall y :: 0 <= y < x ==> taken[topo[y]]
      invariant Timed(net, t, topo, x, taken[..], head, chains)
      invariant forall c :: 0 <= c < |chains| ==> Path(net.ds, chains[c])
      invariant Absorbed(chains) == Count(AbsorbedMask(head))
      invariant rank.Some? ==> InOrder(net, t, rank.value, topo[..x], taken[..], head)
      invariant rank.Some? ==> forall c :: 0 <= c < |chains| ==> Canonical(net, t, rank.value, chains[c])
    {
      var v := topo[x];
      ghost var before := taken[..];
      if taken[v] {
        SkipTimed(net, t, topo, x, before, head, chains);
        if rank.Some? {
          SkipKeepsOrder(net, t, rank.value, topo, x, before, head);
        }
        continue;
      }
      if rank.Some? {
        FreshStart(net, t, rank.value, topo, x, before, head);
      }
      var members := GrowChain(net, t, v, taken, rank);
      assert members != [] by { PathStarts(net.ds, members); }
      PartitionGrows(net.ds, before, taken[..], head, chains, members);
      ClaimTimed(net, t, topo, x, before, taken[..], head, chains, members);
      AbsorbedGrows(net.ds, before, head, chains, members);
      if rank.Some? {
        ClaimKeepsOrder(net, t, rank.value, topo, x, before, taken[..], head, members);
      }
      assert Listed(members, v) by { StartIsListed(net.ds, members); }
      head := Claim(head, members, v);
      if |members| > 1 {
        chains := chains + [members];
      }
    }
    forall y | 0 <= y < |topo| ensures taken[..][topo[y]] {
      assert taken[topo[y]];
    }
    assert topo[..|topo|] == topo;
    AllTaken(net, t, rank, topo, taken[..], head);
    assert taken[..] == Everything(n);
  }

  lemma NothingTaken(net: Net, t: Thresholds, rank: Option<seq<nat>>, topo: seq<nat>, taken: seq<bool>, head: seq<nat>)
    requires ValidNet(net) && (rank.Some? ==> Ranked(net.ds, rank.value))
    requires |taken| == |net.ds| && |head| == |net.ds| && forall i: nat :: i < |net.ds| ==> !taken[i] && head[i] == i
    ensures Partition(net.ds, taken, head, [])
    ensures Absorbed([]) == Count(AbsorbedMask(head))
    ensures Timed(net, t, topo, 0, taken, head, [])
    ensures rank.Some? ==> InOrder(net, t, rank.value, topo[..0], taken, head)
  {
    NoneSet(AbsorbedMask(head));
  }

  lemma {:induction false} NoneSet(mask: seq<bool>)
    requires forall i :: 0 <= i < |mask| ==> !mask[i]
    ensures Count(mask) == 0
  {
    if mask != [] {
      NoneSet(mask[..|mask| - 1]);
    }
  }

  lemma AllTaken(net: Net, t: Thresholds, rank: Option<seq<nat>>, topo: seq<nat>, taken: seq<bool>, head: seq<nat>)
    requires ValidNet(net) && (rank.Some? ==> Ranked(net.ds, rank.value)) && Lists(topo, |net.ds|)
    requires |taken| == |net.ds| && |head| == |net.ds| && forall y :: 0 <= y < |topo| ==> taken[topo[y]]
    requires rank.Some? ==> InOrder(net, t, rank.value, topo[..|topo|], taken, head)
    ensures forall i: nat :: i < |net.ds| ==> taken[i]
    ensures rank.Some? ==> forall i: nat :: i < |net.ds| ==> head[i] == LabelOf(net, t, rank.value, i).start
  {
    hide LabelOf;
    forall i: nat | i < |net.ds| ensures taken[i] {
      assert Listed(topo, i);
    }
  }
}
