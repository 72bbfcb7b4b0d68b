/** Growing the chains, one start at a time in traversal order. */
module Grow {
  import opened Wrappers
  import opened Chains

  /** Each member is the only thing the next one flows into. */
  ghost predicate Path(ds: seq<int>, members: seq<nat>) {
    && members != [] && (forall k :: 0 <= k < |members| ==> members[k] < |ds|)
    && forall k :: 0 <= k < |members| - 1 ==> ds[members[k + 1]] == members[k]
  }

  function TotalLength(ln: seq<real>, members: seq<nat>): real
    requires forall k :: 0 <= k < |members| ==> members[k] < |ln|
  {
    if members == [] then 0.0
    else TotalLength(ln, members[..|members| - 1]) + ln[members[|members| - 1]]
  }

  /** Member `k` was absorbed while the chain was short, as the only reach above the last, with nearly the start's flow. */
  ghost predicate AbsorbedRightly(net: Net, t: Thresholds, members: seq<nat>, k: nat)
    requires ValidNet(net) && Path(net.ds, members) && 1 <= k < |members|
  {
    && TotalLength(net.ln, members[..k]) < t.minLength
    && |Parents(net.ds, members[k - 1])| == 1
    && SameFlow(t, net.da[members[0]], net.da[members[k]])
  }

  /** What a grown chain is worth, whatever the network. */
  ghost predicate Worthwhile(net: Net, t: Thresholds, members: seq<nat>)
    requires ValidNet(net) && Path(net.ds, members)
  {
    forall k: nat :: 1 <= k < |members| ==> AbsorbedRightly(net, t, members, k)
  }

  /** What stops a chain, whatever the network. */
  ghost predicate Halted(net: Net, t: Thresholds, members: seq<nat>, taken: seq<bool>)
    requires ValidNet(net) && Path(net.ds, members) && |taken| == |net.ds|
  {
    var above := Parents(net.ds, members[|members| - 1]);
    || TotalLength(net.ln, members) >= t.minLength || |above| != 1
    || !SameFlow(t, net.da[members[0]], net.da[above[0]]) || taken[above[0]]
  }

  /** The members are exactly the reaches labelled with the start, and the chain's length is the last label's. */
  ghost predicate Canonical(net: Net, t: Thresholds, rank: seq<nat>, members: seq<nat>)
    requires ValidNet(net) && Ranked(net.ds, rank) && Path(net.ds, members)
  {
    && (forall i: nat :: i < |net.ds| ==> (Listed(members, i) <==> LabelOf(net, t, rank, i).start == members[0]))
    && LabelOf(net, t, rank, members[|members| - 1]).length == TotalLength(net.ln, members)
  }

  lemma TotalLengthPush(ln: seq<real>, members: seq<nat>, u: nat)
    requires (forall k :: 0 <= k < |members| ==> members[k] < |ln|) && u < |ln|
    ensures TotalLength(ln, members + [u]) == TotalLength(ln, members) + ln[u]
  {
    assert (members + [u])[..|members|] == members;
  }

  /** Labels along a chain still growing. */
  ghost predicate Labelled(net: Net, t: Thresholds, rank: seq<nat>, members: seq<nat>)
    requires ValidNet(net) && Ranked(net.ds, rank) && Path(net.ds, members)
  {
    && (forall k :: 0 <= k < |members| ==>
          LabelOf(net, t, rank, members[k]).start == members[0] && rank[members[k]] <= rank[members[|members| - 1]])
    && LabelOf(net, t, rank, members[|members| - 1]).length == TotalLength(net.ln, members)
  }

  lemma LabelledGrows(net: Net, t: Thresholds, rank: seq<nat>, members: seq<nat>, u: nat)
    requires ValidNet(net) && Ranked(net.ds, rank) && Path(net.ds, members) && Labelled(net, t, rank, members)
    requires u < |net.ds| && net.ds[u] == members[|members| - 1]
    requires Joins(net, t, LabelOf(net, t, rank, members[|members| - 1]), u)
    ensures Path(net.ds, members + [u]) && Labelled(net, t, rank, members + [u])
  {
    TotalLengthPush(net.ln, members, u);
  }

  /** Nothing with this start is left out once the last member has nothing more to absorb. */
  lemma {:induction false} NoneLeftOut(net: Net, t: Thresholds, rank: seq<nat>, members: seq<nat>, i: nat)
    requires ValidNet(net) && Ranked(net.ds, rank) && Path(net.ds, members) && Labelled(net, t, rank, members)
    requires forall u: nat :: u < |net.ds| && net.ds[u] == members[|members| - 1] ==>
      !Joins(net, t, LabelOf(net, t, rank, members[|members| - 1]), u)
    requires i < |net.ds| && LabelOf(net, t, rank, i).start == members[0]
    ensures Listed(members, i)
    decreases rank[i]
  {
    if i == members[0] {
      assert members[0] == i;
    } else {
      var d: nat := net.ds[i];
      NoneLeftOut(net, t, rank, members, d);
      var k :| 0 <= k < |members| && members[k] == d;
      if k < |members| - 1 {
        OnlyParent(net.ds, d, i);
        OnlyParent(net.ds, d, members[k + 1]);
        assert members[k + 1] == i;
      }
    }
  }

  /** A chain being grown, on any network; on an acyclic one its labels are known too. */
  ghost predicate Growing(net: Net, t: Thresholds, rank: Option<seq<nat>>, members: seq<nat>)
    requires ValidNet(net) && (rank.Some? ==> Ranked(net.ds, rank.value))
  {
    && Path(net.ds, members) && Distinct(members) && Worthwhile(net, t, members)
    && (rank.Some? ==> Labelled(net, t, rank.value, members))
  }

  lemma GrowingStarts(net: Net, t: Thresholds, rank: Option<seq<nat>>, v: nat)
    requires ValidNet(net) && v < |net.ds|
    requires rank.Some? ==> Ranked(net.ds, rank.value) && LabelOf(net, t, rank.value, v) == Label(v, net.ln[v])
    ensures Growing(net, t, rank, [v]) && TotalLength(net.ln, [v]) == net.ln[v]
    ensures forall j :: Listed([v], j) <==> j == v
  {
    ListedPush([], v);
    assert [] + [v] == [v];
    TotalLengthPush(net.ln, [], v);
  }

  lemma DistinctPush(members: seq<nat>, u: nat)
    requires Distinct(members) && !Listed(members, u)
    ensures Distinct(members + [u])
  {}

  lemma GrowingGrows(net: Net, t: Thresholds, rank: Option<seq<nat>>, members: seq<nat>, u: nat)
    requires ValidNet(net) && (rank.Some? ==> Ranked(net.ds, rank.value)) && Growing(net, t, rank, members)
    requires u < |net.ds| && net.ds[u] == members[|members| - 1] && |Parents(net.ds, net.ds[u])| == 1
    requires TotalLength(net.ln, members) < t.minLength && SameFlow(t, net.da[members[0]], net.da[u])
    requires !Listed(members, u)
    ensures Growing(net, t, rank, members + [u])
    ensures TotalLength(net.ln, members + [u]) == TotalLength(net.ln, members) + net.ln[u]
    ensures forall j :: Listed(members + [u], j) <==> Listed(members, j) || j == u
  {
    DistinctPush(members, u);
    WorthwhileGrows(net, t, members, u);
    if rank.Some? {
      LabelledGrows(net, t, rank.value, members, u);
    }
    TotalLengthPush(net.ln, members, u);
    ListedPush(members, u);
    hide Worthwhile, Distinct, Labelled, Path, Listed, TotalLength, Ranked, SameFlow;
  }

  lemma WorthwhileGrows(net: Net, t: Thresholds, members: seq<nat>, u: nat)
    requires ValidNet(net) && Path(net.ds, members) && Worthwhile(net, t, members)
    requires u < |net.ds| && net.ds[u] == members[|members| - 1] && |Parents(net.ds, net.ds[u])| == 1
    requires TotalLength(net.ln, members) < t.minLength && SameFlow(t, net.da[members[0]], net.da[u])
    ensures Path(net.ds, members + [u]) && Worthwhile(net, t, members + [u])
  {
    hide SameFlow, TotalLength, Parents;
    var now, n := members + [u], |members|;
    forall k: nat | 1 <= k < |now| ensures AbsorbedRightly(net, t, now, k) {
      assert now[..k] == members[..k];
      if k < n {
        assert AbsorbedRightly(net, t, members, k);
      } else {
        assert members[..k] == members;
      }
    }
  }

  /** Absorb upstream neighbours while the chain is short, the neighbour is alone and the flow is the same. */
  method GrowChain(net: Net, t: Thresholds, v: nat, taken: array<bool>, ghost rank: Option<seq<nat>>)
    returns (members: seq<nat>)
    requires ValidNet(net) && taken.Length == |net.ds| && v < |net.ds| && !taken[v]
    requires rank.Some? ==> Ranked(net.ds, rank.value) && LabelOf(net, t, rank.value, v) == Label(v, net.ln[v])
    requires rank.Some? ==>
      forall i :: 0 <= i < |net.ds| && taken[i] ==> LabelOf(net, t, rank.value, i).start != v
    modifies taken
    ensures Path(net.ds, members) && members[0] == v && Distinct(members) && Worthwhile(net, t, members)
    ensures forall i: nat :: i < |net.ds| && Listed(members, i) ==> !old(taken[i])
    ensures forall i: nat :: i < |net.ds| ==> (taken[i] <==> old(taken[i]) || Listed(members, i))
    ensures Halted(net, t, members, taken[..])
    ensures rank.Some? ==> Canonical(net, t, rank.value, members)
  {
    hide LabelOf, SameFlow, Ranked, Worthwhile, Labelled, Listed, Canonical, Distinct, Joins, TotalLength;
    taken[v] := true;
    members := [v];
    var chainLen, startDa, cur := net.ln[v], net.da[v], v;
    GrowingStarts(net, t, rank, v);
    while true
      invariant Growing(net, t, rank, members) && members[0] == v && members[|members| - 1] == cur
      invariant chainLen == TotalLength(net.ln, members)
      invariant forall i: nat :: i < |net.ds| && Listed(members, i) ==> !old(taken[i])
      invariant forall i: nat :: i < |net.ds| ==> (taken[i] <==> old(taken[i]) || Listed(members, i))
      decreases set i | 0 <= i < |net.ds| && !taken[i]
    {
      if chainLen >= t.minLength {
        break;
      }
      var parents := Parents(net.ds, cur);
      if |parents| != 1 {
        break;
      }
      var u := parents[0];
      FlowTest(t, startDa, net.da[u]);
      if taken[u] || startDa <= 0.0 {
        break;
      }
      if Abs(net.da[u] - startDa) / startDa * 100.0 >= t.areaPercent {
        break;
      }
      ghost var free := set i | 0 <= i < |net.ds| && !taken[i];
      assert u in free;
      GrowingGrows(net, t, rank, members, u);
      taken[u] := true;
      members := members + [u];
      chainLen := chainLen + net.ln[u];
      cur := u;
    }
    if rank.Some? {
      forall u: nat | u < |net.ds| && net.ds[u] == cur ensures !Joins(net, t, LabelOf(net, t, rank.value, cur), u) {
        NothingToJoin(net, t, rank.value, members, u);
        FlowTest(t, startDa, net.da[u]);
      }
      Completed(net, t, rank.value, members);
    }
  }

  /** What stops a chain on an acyclic network: length, a junction or a source, or the flow; never a taken neighbour. */
  lemma NothingToJoin(net: Net, t: Thresholds, rank: seq<nat>, members: seq<nat>, u: nat)
    requires ValidNet(net) && Ranked(net.ds, rank) && Path(net.ds, members) && Labelled(net, t, rank, members)
    requires u < |net.ds| && net.ds[u] == members[|members| - 1]
    ensures !Listed(members, u)
    ensures Joins(net, t, LabelOf(net, t, rank, net.ds[u]), u) ==>
      && TotalLength(net.ln, members) < t.minLength
      && |Parents(net.ds, net.ds[u])| == 1 && Parents(net.ds, net.ds[u])[0] == u
      && SameFlow(t, net.da[members[0]], net.da[u])
      && LabelOf(net, t, rank, u).start == members[0]
  {
    hide SameFlow;
    if Joins(net, t, LabelOf(net, t, rank, net.ds[u]), u) {
      OnlyParent(net.ds, net.ds[u], u);
    }
  }

  lemma FlowTest(t: Thresholds, startArea: real, area: real)
    ensures SameFlow(t, startArea, area) <==>
      !(startArea <= 0.0) && !(Abs(area - startArea) / startArea * 100.0 >= t.areaPercent)
  {}

  /** The flow a chain may differ by: less than the threshold's share of a positive flow at the start. */
  lemma SameFlowReads(t: Thresholds, startArea: real, area: real)
    ensures SameFlow(t, startArea, area) <==>
      && startArea > 0.0
      && (area - startArea) * 100.0 < t.areaPercent * startArea && (startArea - area) * 100.0 < t.areaPercent * startArea
  {
    if startArea > 0.0 {
      ShareBelow(Abs(area - startArea), startArea, t.areaPercent);
    }
  }

  lemma ShareBelow(x: real, base: real, percent: real)
    requires base > 0.0
    ensures x / base * 100.0 < percent <==> x * 100.0 < percent * base
  {
    var share := x / base;
    assert share * base == x;
    assert x * 100.0 == (share * 100.0) * base;
    LessTimes(share * 100.0, percent, base);
    LessTimes(percent, share * 100.0, base);
  }

  lemma LessTimes(a: real, b: real, base: real)
    requires base > 0.0
    ensures a < b ==> a * base < b * base
  {}

  lemma Completed(net: Net, t: Thresholds, rank: seq<nat>, members: seq<nat>)
    requires ValidNet(net) && Ranked(net.ds, rank) && Path(net.ds, members) && Labelled(net, t, rank, members)
    requires forall u: nat :: u < |net.ds| && net.ds[u] == members[|members| - 1] ==>
      !Joins(net, t, LabelOf(net, t, rank, members[|members| - 1]), u)
    ensures Canonical(net, t, rank, members)
  {
    hide LabelOf, Joins;
    forall i: nat | i < |net.ds| && LabelOf(net, t, rank, i).start == members[0] ensures Listed(members, i) {
      NoneLeftOut(net, t, rank, members, i);
    }
  }
}
