/** Which short reaches are absorbed into which: the traversal and the chains it grows. */
module Chains {
  import opened Reaches
  import opened Pointers

  datatype Thresholds = Thresholds(areaPercent: real, minLength: real)

  /** The columns the merge reads: downstream positions, drainage areas, lengths. */
  datatype Net = Net(ds: seq<int>, da: seq<real>, ln: seq<real>)

  ghost predicate ValidNet(net: Net) {
    InBounds(net.ds) && |net.da| == |net.ds| && |net.ln| == |net.ds|
  }

  /** The positions whose pointer is `j`, ascending. */
  function Parents(ds: seq<int>, j: nat): (ps: seq<nat>)
    ensures forall k :: 0 <= k < |ps| ==> ps[k] < |ds| && ds[ps[k]] == j
  {
    Positions(seq(|ds|, i requires 0 <= i < |ds| => ds[i] == j))
  }

  lemma ParentsComplete(ds: seq<int>, j: nat, u: nat)
    requires u < |ds| && ds[u] == j
    ensures exists k :: 0 <= k < |Parents(ds, j)| && Parents(ds, j)[k] == u
  {
    var mask := seq(|ds|, i requires 0 <= i < |ds| => ds[i] == j);
    PositionsComplete(mask, u);
    var k :| 0 <= k < |Positions(mask)| && Positions(mask)[k] == u;
    assert Parents(ds, j)[k] == u;
  }

  /** An only parent is the parent. */
  lemma OnlyParent(ds: seq<int>, j: nat, u: nat)
    requires u < |ds| && ds[u] == j && |Parents(ds, j)| == 1
    ensures Parents(ds, j)[0] == u
  {
    ParentsComplete(ds, j, u);
  }

  function Abs(x: real): real {
    if x < 0.0 then -x else x
  }

  /** The neighbour carries nearly the flow of the chain's start. */
  predicate SameFlow(t: Thresholds, startArea: real, area: real) {
    startArea > 0.0 && Abs(area - startArea) / startArea * 100.0 < t.areaPercent
  }

  // ---------- The canonical chains ----------

  /** A rank falling along the pointers. */
  ghost predicate Ranked(ds: seq<int>, rank: seq<nat>) {
    |rank| == |ds| && InBounds(ds) && forall i :: 0 <= i < |ds| && ds[i] >= 0 ==> rank[ds[i]] < rank[i]
  }

  /** The chain a reach belongs to, and the chain's length up to and including it. */
  datatype Label = Label(start: nat, length: real)

  /** A reach joins the chain below it when it is the only one upstream there, the chain is still short, and the
      flow is nearly that of the chain's start. */
  predicate Joins(net: Net, t: Thresholds, below: Label, i: nat)
    requires |net.da| == |net.ds| && i < |net.ds| && net.ds[i] >= 0 && below.start < |net.ds|
  {
    && below.length < t.minLength
    && |Parents(net.ds, net.ds[i])| == 1
    && SameFlow(t, net.da[below.start], net.da[i])
  }

  ghost function LabelOf(net: Net, t: Thresholds, rank: seq<nat>, i: nat): (r: Label)
    requires ValidNet(net) && Ranked(net.ds, rank) && i < |net.ds|
    ensures r.start < |net.ds|
    decreases rank[i]
  {
    if net.ds[i] < 0 then Label(i, net.ln[i])
    else
      var below := LabelOf(net, t, rank, net.ds[i]);
      if Joins(net, t, below, i) then Label(below.start, below.length + net.ln[i]) else Label(i, net.ln[i])
  }

  /** The labels do not depend on the rank that proves the network acyclic. */
  lemma {:induction false} LabelsAreCanonical(net: Net, t: Thresholds, rank: seq<nat>, other: seq<nat>, i: nat)
    requires ValidNet(net) && Ranked(net.ds, rank) && Ranked(net.ds, other) && i < |net.ds|
    ensures LabelOf(net, t, rank, i) == LabelOf(net, t, other, i)
    decreases rank[i]
  {
    if net.ds[i] >= 0 {
      LabelsAreCanonical(net, t, rank, other, net.ds[i]);
    }
  }

  /** The start of a chain is its own start, at its own length, no higher in rank than any member. */
  lemma {:induction false} StartIsItsOwn(net: Net, t: Thresholds, rank: seq<nat>, i: nat)
    requires ValidNet(net) && Ranked(net.ds, rank) && i < |net.ds|
    ensures
      var v := LabelOf(net, t, rank, i).start;
      && LabelOf(net, t, rank, v) == Label(v, net.ln[v])
      && rank[v] <= rank[i] && (v != i ==> rank[v] < rank[i])
    decreases rank[i]
  {
    if net.ds[i] >= 0 {
      StartIsItsOwn(net, t, rank, net.ds[i]);
    }
  }

  /** And it lies downstream of every member. */
  lemma {:induction false} StartIsDownstream(net: Net, t: Thresholds, rank: seq<nat>, i: nat)
    requires ValidNet(net) && Ranked(net.ds, rank) && i < |net.ds|
    ensures Downstream(net.ds, i, LabelOf(net, t, rank, i).start)
    decreases rank[i]
  {
    var v := LabelOf(net, t, rank, i).start;
    if v == i {
      assert Follow(net.ds, i, 0) == v;
    } else {
      StartIsDownstream(net, t, rank, net.ds[i]);
      var k: nat :| Follow(net.ds, net.ds[i], k) == v;
      assert Follow(net.ds, i, k + 1) == v;
    }
  }

  // ---------- The traversal ----------

  ghost predicate Distinct(s: seq<nat>) {
    forall i, j :: 0 <= i < j < |s| ==> s[i] != s[j]
  }

  ghost predicate Lists(s: seq<nat>, n: nat) {
    Distinct(s) && (forall k :: 0 <= k < |s| ==> s[k] < n) && forall i: nat :: i < n ==> Listed(s, i)
  }

  /** Each reach comes after its downstream reach. */
  ghost predicate DownstreamFirst(ds: seq<int>, topo: seq<nat>)
    requires forall k :: 0 <= k < |topo| ==> topo[k] < |ds|
  {
    forall b :: 0 <= b < |topo| && ds[topo[b]] >= 0 ==> exists a :: 0 <= a < b && topo[a] == ds[topo[b]]
  }

  /** Rows pushed or visited so far: no row twice, everything visited after its downstream. */
  ghost predicate Frontier(ds: seq<int>, seen: seq<bool>, topo: seq<nat>, stack: seq<nat>) {
    && |seen| == |ds| && InBounds(ds)
    && (forall k :: 0 <= k < |topo| ==> topo[k] < |ds|) && (forall k :: 0 <= k < |stack| ==> stack[k] < |ds|)
    && Distinct(topo) && Distinct(stack) && (forall k :: 0 <= k < |stack| ==> !Listed(topo, stack[k]))
    && (forall i: nat :: i < |ds| ==> (seen[i] <==> Listed(topo, i) || Listed(stack, i)))
    && (forall k :: 0 <= k < |stack| && ds[stack[k]] >= 0 ==> Listed(topo, ds[stack[k]]))
    && DownstreamFirst(ds, topo)
  }

  ghost predicate Listed(s: seq<nat>, j: int) {
    exists a :: 0 <= a < |s| && s[a] == j
  }

  lemma ListedPush(s: seq<nat>, u: nat)
    ensures forall j :: Listed(s + [u], j) <==> Listed(s, j) || j == u
  {
    var now := s + [u];
    assert now[|s|] == u;
    forall j | Listed(s, j) ensures Listed(now, j) {
      var a :| 0 <= a < |s| && s[a] == j;
      assert now[a] == j;
    }
  }

  lemma PushKeeps(ds: seq<int>, seen: seq<bool>, topo: seq<nat>, stack: seq<nat>, u: nat)
    requires Frontier(ds, seen, topo, stack) && u < |ds| && !seen[u]
    requires ds[u] >= 0 ==> Listed(topo, ds[u])
    ensures Frontier(ds, seen[u := true], topo, stack + [u])
  {
    ListedPush(stack, u);
  }

  lemma PopKeeps(ds: seq<int>, seen: seq<bool>, topo: seq<nat>, stack: seq<nat>)
    requires Frontier(ds, seen, topo, stack) && stack != []
    ensures Frontier(ds, seen, topo + [stack[|stack| - 1]], stack[..|stack| - 1])
  {
    var n := |stack| - 1;
    var v, now := stack[n], topo + [stack[n]];
    assert stack == stack[..n] + [v];
    ListedPush(topo, v);
    ListedPush(stack[..n], v);
    forall b | 0 <= b < |now| && ds[now[b]] >= 0 ensures exists a :: 0 <= a < b && now[a] == ds[now[b]] {
      if b < |topo| {
        var a :| 0 <= a < b && topo[a] == ds[topo[b]];
        assert now[a] == ds[now[b]];
      } else {
        var a :| 0 <= a < |topo| && topo[a] == ds[v];
        assert now[a] == ds[now[b]];
      }
    }
  }

  /** One thing stands before another in a list. */
  ghost predicate Precedes(s: seq<nat>, i: nat, j: nat) {
    exists p, q :: 0 <= p < q < |s| && s[p] == i && s[q] == j
  }

  /** What the traversal visits, on any graph: first a front of reaches that drain to a terminal, each after its downstream
      reach and none missing; then whatever is left, in text order. */
  ghost predicate Traversed(ds: seq<int>, byText: seq<nat>, topo: seq<nat>, front: nat) {
    && Lists(topo, |ds|) && front <= |topo| && DownstreamFirst(ds, topo[..front])
    && (forall i: nat :: i < |ds| && (ds[i] < 0 || Listed(topo[..front], ds[i])) ==> Listed(topo[..front], i))
    && forall a, b :: front <= a < b < |topo| ==> Precedes(byText, topo[a], topo[b])
  }

  /** Downstream-first traversal from the terminals, `byText` listing the rows in the order of their ids' text. */
  method Traverse(ds: seq<int>, byText: seq<nat>) returns (topo: seq<nat>, ghost front: nat)
    requires InBounds(ds) && Lists(byText, |ds|)
    ensures Lists(topo, |ds|) && Traversed(ds, byText, topo, front)
    ensures (exists rank :: Ranked(ds, rank)) ==> front == |topo| && DownstreamFirst(ds, topo)
  {
    hide Frontier, DownstreamFirst, Lists, Traversed;
    var n := |ds|;
    var seen := seq(n, _ => false);
    var stack: seq<nat>;
    seen, stack := PushRoots(ds, byText);
    topo := [];
    while stack != []
      invariant |seen| == n && Frontier(ds, seen, topo, stack)
      invariant forall i :: 0 <= i < n && ds[i] < 0 ==> seen[i]
      invariant forall i :: 0 <= i < n && ds[i] >= 0 && Listed(topo, ds[i]) ==> seen[i]
      decreases set i: nat | i < n && !Listed(topo, i)
    {
      var v := stack[|stack| - 1];
      PopKeeps(ds, seen, topo, stack);
      Popped(ds, seen, topo, stack);
      stack := stack[..|stack| - 1];
      topo := topo + [v];
      seen, stack := PushParents(ds, byText, v, seen, topo, stack);
    }
    front := |topo|;
    topo := AppendLeftovers(ds, byText, seen, topo);
  }

  lemma Popped(ds: seq<int>, seen: seq<bool>, topo: seq<nat>, stack: seq<nat>)
    requires Frontier(ds, seen, topo, stack) && stack != []
    ensures
      var v := stack[|stack| - 1];
      && v < |ds| && Listed(topo + [v], v)
      && (set i: nat | i < |ds| && !Listed(topo + [v], i)) < (set i: nat | i < |ds| && !Listed(topo, i))
      && forall j :: Listed(topo + [v], j) <==> Listed(topo, j) || j == v
  {
    var v := stack[|stack| - 1];
    ListedPush(topo, v);
    var before := set i: nat | i < |ds| && !Listed(topo, i);
    var after := set i: nat | i < |ds| && !Listed(topo + [v], i);
    assert v in before && v !in after;
    forall i | i in after ensures i in before {
      assert i < |ds| && !Listed(topo + [v], i);
    }
    assert after < before;
  }

  /** Push the terminals so that the first in text order is popped first. */
  method PushRoots(ds: seq<int>, byText: seq<nat>) returns (seen: seq<bool>, stack: seq<nat>)
    requires InBounds(ds) && Lists(byText, |ds|)
    ensures |seen| == |ds| && Frontier(ds, seen, [], stack)
    ensures forall i :: 0 <= i < |ds| && ds[i] < 0 ==> seen[i]
  {
    seen, stack := seq(|ds|, _ => false), [];
    for k := |byText| downto 0
      invariant Frontier(ds, seen, [], stack)
      invariant forall j :: k <= j < |byText| && ds[byText[j]] < 0 ==> seen[byText[j]]
    {
      var u := byText[k];
      if ds[u] < 0 && !seen[u] {
        PushKeeps(ds, seen, [], stack, u);
        seen, stack := seen[u := true], stack + [u];
      }
    }
    forall i: nat | i < |ds| && ds[i] < 0 ensures seen[i] {
      assert Listed(byText, i);
    }
  }

  /** Push the unseen upstream neighbours of a visited row, again in reverse text order. */
  method PushParents(ds: seq<int>, byText: seq<nat>, v: nat, seen0: seq<bool>, topo: seq<nat>, stack0: seq<nat>)
    returns (seen: seq<bool>, stack: seq<nat>)
    requires Lists(byText, |ds|) && Frontier(ds, seen0, topo, stack0) && v < |ds| && Listed(topo, v)
    requires forall i :: 0 <= i < |ds| && ds[i] < 0 ==> seen0[i]
    requires forall i :: 0 <= i < |ds| && ds[i] >= 0 && Listed(topo, ds[i]) && ds[i] != v ==> seen0[i]
    ensures |seen| == |ds| && Frontier(ds, seen, topo, stack)
    ensures forall i :: 0 <= i < |ds| && ds[i] < 0 ==> seen[i]
    ensures forall i :: 0 <= i < |ds| && ds[i] >= 0 && Listed(topo, ds[i]) ==> seen[i]
  {
    hide DownstreamFirst, Distinct;
    seen, stack := seen0, stack0;
    for k := |byText| downto 0
      invariant Frontier(ds, seen, topo, stack)
      invariant forall i :: 0 <= i < |ds| && seen0[i] ==> seen[i]
      invariant forall j :: k <= j < |byText| && ds[byText[j]] == v ==> seen[byText[j]]
    {
      var u := byText[k];
      if ds[u] == v && !seen[u] {
        assert Listed(topo, ds[u]);
        PushKeeps(ds, seen, topo, stack, u);
        seen, stack := seen[u := true], stack + [u];
      }
    }
    forall i: nat | i < |ds| && ds[i] == v ensures seen[i] {
      assert Listed(byText, i);
    }
  }

  /** The rows appended so far: among the first `k` in text order those not seen, in that order. */
  ghost predicate Appended(seen: seq<bool>, byText: seq<nat>, topo0: seq<nat>, topo: seq<nat>, k: nat) {
    && k <= |byText| && Distinct(topo) && (forall j :: 0 <= j < |topo| ==> topo[j] < |seen|)
    && |topo0| <= |topo| && topo[..|topo0|] == topo0
    && (forall a :: |topo0| <= a < |topo| ==> Listed(byText[..k], topo[a]))
    && (forall a, b :: |topo0| <= a < b < |topo| ==> Precedes(byText, topo[a], topo[b]))
    && ((forall i :: 0 <= i < |seen| ==> seen[i]) ==> topo == topo0)
    && forall i: nat :: i < |seen| ==> (Listed(topo, i) <==> seen[i] || Listed(byText[..k], i))
  }

  lemma AppendedGrows(seen: seq<bool>, byText: seq<nat>, topo0: seq<nat>, topo: seq<nat>, k: nat)
    requires Lists(byText, |seen|) && Appended(seen, byText, topo0, topo, k) && k < |byText|
    ensures Appended(seen, byText, topo0, if seen[byText[k]] then topo else topo + [byText[k]], k + 1)
  {
    hide Precedes;
    var u := byText[k];
    NotYetListed(byText, k);
    assert byText[..k + 1] == byText[..k] + [u];
    ListedPush(byText[..k], u);
    if !seen[u] {
      ListedPush(topo, u);
      forall a | |topo0| <= a < |topo| ensures Precedes(byText, topo[a], u) {
        ListedPrecedes(byText, k, topo[a]);
      }
      assert (topo + [u])[..|topo0|] == topo[..|topo0|];
      assert !Listed(topo, u);
      hide Listed;
    }
  }

  lemma NotYetListed(s: seq<nat>, k: nat)
    requires Distinct(s) && k < |s|
    ensures !Listed(s[..k], s[k])
  {}

  lemma NothingAppended(ds: seq<int>, seen: seq<bool>, byText: seq<nat>, topo: seq<nat>)
    requires Frontier(ds, seen, topo, [])
    ensures Appended(seen, byText, topo, topo, 0) && |seen| == |ds|
  {
    FrontierListed(ds, seen, topo);
    hide Frontier;
    assert byText[..0] == [];
  }

  lemma AllAppended(ds: seq<int>, seen: seq<bool>, byText: seq<nat>, topo0: seq<nat>, topo: seq<nat>)
    requires Lists(byText, |ds|) && Frontier(ds, seen, topo0, []) && |seen| == |ds|
    requires forall i :: 0 <= i < |ds| && ds[i] < 0 ==> seen[i]
    requires forall i :: 0 <= i < |ds| && ds[i] >= 0 && Listed(topo0, ds[i]) ==> seen[i]
    requires Appended(seen, byText, topo0, topo, |byText|)
    ensures Lists(topo, |ds|) && Traversed(ds, byText, topo, |topo0|)
    ensures (forall i :: 0 <= i < |ds| ==> seen[i]) ==> |topo| == |topo0| && DownstreamFirst(ds, topo)
  {
    FrontierListed(ds, seen, topo0);
    hide Frontier, DownstreamFirst, Precedes, Listed, Distinct;
    assert byText[..|byText|] == byText;
  }

  /** Rows no terminal is reached from, in text order; on an acyclic network there are none. */
  method AppendLeftovers(ds: seq<int>, byText: seq<nat>, seen: seq<bool>, topo0: seq<nat>) returns (topo: seq<nat>)
    requires Lists(byText, |ds|) && Frontier(ds, seen, topo0, [])
    requires forall i :: 0 <= i < |ds| && ds[i] < 0 ==> seen[i]
    requires forall i :: 0 <= i < |ds| && ds[i] >= 0 && Listed(topo0, ds[i]) ==> seen[i]
    ensures Lists(topo, |ds|) && Traversed(ds, byText, topo, |topo0|)
    ensures (exists rank :: Ranked(ds, rank)) ==> |topo| == |topo0| && DownstreamFirst(ds, topo)
  {
    hide Frontier, DownstreamFirst, Appended, Traversed, Listed, Distinct;
    topo := topo0;
    NothingAppended(ds, seen, byText, topo0);
    for k := 0 to |byText|
      invariant Appended(seen, byText, topo0, topo, k)
    {
      AppendedGrows(seen, byText, topo0, topo, k);
      if !seen[byText[k]] {
        topo := topo + [byText[k]];
      }
    }
    AllAppended(ds, seen, byText, topo0, topo);
    if rank :| Ranked(ds, rank) {
      forall i: nat | i < |ds| ensures seen[i] {
        RankedIsSeen(ds, rank, seen, topo0, i);
      }
    }
  }

  lemma ListedPrecedes(s: seq<nat>, k: nat, i: nat)
    requires k < |s| && Listed(s[..k], i)
    ensures Precedes(s, i, s[k])
  {
    var p :| 0 <= p < |s[..k]| && s[..k][p] == i;
    assert s[p] == i;
  }

  lemma FrontierListed(ds: seq<int>, seen: seq<bool>, topo: seq<nat>)
    requires Frontier(ds, seen, topo, [])
    ensures |seen| == |ds| && Distinct(topo) && forall j :: 0 <= j < |topo| ==> topo[j] < |ds|
    ensures forall i: nat :: i < |ds| ==> (seen[i] <==> Listed(topo, i))
    ensures DownstreamFirst(ds, topo)
  {
  }

  lemma {:induction false} RankedIsSeen(ds: seq<int>, rank: seq<nat>, seen: seq<bool>, topo: seq<nat>, i: nat)
    requires Ranked(ds, rank) && Frontier(ds, seen, topo, []) && i < |ds|
    requires forall i :: 0 <= i < |ds| && ds[i] < 0 ==> seen[i]
    requires forall i :: 0 <= i < |ds| && ds[i] >= 0 && Listed(topo, ds[i]) ==> seen[i]
    ensures seen[i]
    decreases rank[i]
  {
    if ds[i] >= 0 {
      var d: nat := ds[i];
      RankedIsSeen(ds, rank, seen, topo, d);
      var a :| 0 <= a < |topo| && topo[a] == d;
    }
  }
}
