/** The network's pointers as row positions, and what lies downstream along them. */
module Pointers {
  import opened Wrappers
  import opened Reaches

  /** The position of the row with this id, or -1. */
  function Locate(rows: seq<Reach>, id: Id): (i: int)
    ensures -1 <= i < |rows|
    ensures i >= 0 ==> rows[i].id == id
    ensures i < 0 ==> forall k :: 0 <= k < |rows| ==> rows[k].id != id
  {
    if rows == [] then -1
    else if rows[|rows| - 1].id == id then |rows| - 1
    else Locate(rows[..|rows| - 1], id)
  }

  /** Downstream pointers as positions, -1 for none; always read from the live pointers. */
  function Topology(rows: seq<Reach>): (ds: seq<int>)
    ensures |ds| == |rows| && InBounds(ds)
  {
    seq(|rows|, i requires 0 <= i < |rows| => if rows[i].to.Some? then Locate(rows, rows[i].to.value) else -1)
  }

  predicate InBounds(ds: seq<int>) {
    forall i :: 0 <= i < |ds| ==> -1 <= ds[i] < |ds|
  }

  /** Following pointers `k` times from a position; -1 once the water has left. */
  function Follow(ds: seq<int>, i: int, k: nat): (j: int)
    requires InBounds(ds) && -1 <= i < |ds|
    ensures -1 <= j < |ds|
    decreases k
  {
    if k == 0 || i < 0 then i else Follow(ds, ds[i], k - 1)
  }

  ghost predicate Downstream(ds: seq<int>, i: nat, j: nat)
    requires InBounds(ds) && i < |ds|
  {
    exists k: nat :: Follow(ds, i, k) == j
  }

  ghost predicate StrictlyDownstream(ds: seq<int>, i: nat, j: nat)
    requires InBounds(ds) && i < |ds|
  {
    exists k: nat :: k > 0 && Follow(ds, i, k) == j
  }

  lemma {:induction false} FollowSplits(ds: seq<int>, i: int, j: nat, k: nat)
    requires InBounds(ds) && -1 <= i < |ds|
    ensures Follow(ds, i, j + k) == Follow(ds, Follow(ds, i, j), k)
    decreases j
  {
    if j > 0 && i >= 0 {
      FollowSplits(ds, ds[i], j - 1, k);
    }
  }

  lemma DownstreamStep(ds: seq<int>, i: nat, j: nat)
    requires InBounds(ds) && i < |ds| && j < |ds| && Downstream(ds, i, j) && ds[j] >= 0
    ensures Downstream(ds, i, ds[j])
  {
    var k: nat :| Follow(ds, i, k) == j;
    FollowSplits(ds, i, k, 1);
    assert Follow(ds, j, 1) == Follow(ds, ds[j], 0) == ds[j];
    assert Follow(ds, i, k + 1) == ds[j];
  }

  /** A located pointer is the pointer of the row it names. */
  lemma PointerFound(rows: seq<Reach>, i: nat)
    requires i < |rows|
    ensures
      var d := Topology(rows)[i];
      && (d >= 0 ==> rows[i].to == Some(rows[d].id))
      && (d < 0 ==> rows[i].to.None? || rows[i].to.value !in Ids(rows))
  {
    if rows[i].to.Some? {
      var a := rows[i].to.value;
      if Locate(rows, a) < 0 {
        forall r | r in rows ensures r.id != a {
          var k :| 0 <= k < |rows| && rows[k] == r;
        }
      }
    }
  }

  lemma DownstreamOn(ds: seq<int>, i: nat, j: nat, k: nat)
    requires InBounds(ds) && i < |ds| && j < |ds| && k < |ds| && Downstream(ds, i, j) && Downstream(ds, j, k)
    ensures Downstream(ds, i, k)
  {
    var m: nat :| Follow(ds, i, m) == j;
    var n: nat :| Follow(ds, j, n) == k;
    FollowSplits(ds, i, m, n);
  }

  lemma FollowLeaves(ds: seq<int>, i: nat, k: nat)
    requires InBounds(ds) && i < |ds|
    ensures ds[i] < 0 && k > 0 ==> Follow(ds, i, k) == -1
  {
    if ds[i] < 0 && k > 0 {
      assert Follow(ds, -1, k - 1) == -1;
    }
  }

  /** Following positions is walking ids, as long as there is a row to stand on. */
  lemma {:induction false} WalkIsFollow(rows: seq<Reach>, i: nat, k: nat)
    requires UniqueIds(rows) && i < |rows|
    ensures
      var j, w := Follow(Topology(rows), i, k), Walk(GraphOf(rows), Some(rows[i].id), k);
      if j >= 0 then w == Some(rows[j].id) else w.None? || w.value !in Ids(rows)
    decreases k
  {
    hide Topology, UniqueIds;
    var ds, g := Topology(rows), GraphOf(rows);
    if k > 0 {
      PointerFound(rows, i);
      GraphAt(rows, i);
      if ds[i] >= 0 {
        WalkIsFollow(rows, ds[i], k - 1);
      } else {
        FollowLeaves(ds, i, k);
        if rows[i].to.Some? && k > 1 {
          GraphKeys(rows);
          assert Walk(g, Next(g, rows[i].to.value), k - 2) == None;
        }
      }
    }
  }

  lemma FlowsIsDownstream(rows: seq<Reach>, i: nat, j: nat)
    requires UniqueIds(rows) && i < |rows| && j < |rows|
    ensures Flows(GraphOf(rows), rows[i].id, rows[j].id) <==> Downstream(Topology(rows), i, j)
  {
    hide Topology;
    var ds := Topology(rows);
    if k: nat :| Walk(GraphOf(rows), Some(rows[i].id), k) == Some(rows[j].id) {
      WalkIsFollow(rows, i, k);
      assert rows[j] in rows;
      assert Follow(ds, i, k) == j;
    }
    if Downstream(ds, i, j) {
      var k: nat :| Follow(ds, i, k) == j;
      WalkIsFollow(rows, i, k);
    }
  }

  // ---------- The closure ----------

  ghost predicate Closed(ds: seq<int>, visited: seq<bool>)
    requires InBounds(ds) && |visited| == |ds|
  {
    forall i :: 0 <= i < |ds| && visited[i] && ds[i] >= 0 ==> visited[ds[i]]
  }

  lemma {:induction false} ClosedFollows(ds: seq<int>, visited: seq<bool>, i: nat, k: nat)
    requires InBounds(ds) && |visited| == |ds| && Closed(ds, visited) && i < |ds| && visited[i]
    ensures Follow(ds, i, k) >= 0 ==> visited[Follow(ds, i, k)]
    decreases k
  {
    if k > 0 && ds[i] >= 0 {
      ClosedFollows(ds, visited, ds[i], k - 1);
    } else if k > 0 {
      assert Follow(ds, -1, k - 1) == -1;
    }
  }

  /** Walk one seed's pointers, marking as it goes, until the water leaves or meets a marked reach. */
  method MarkDownstream(ds: seq<int>, seed: nat, visited: array<bool>)
    requires InBounds(ds) && visited.Length == |ds| && seed < |ds| && Closed(ds, visited[..])
    modifies visited
    ensures Closed(ds, visited[..]) && visited[seed]
    ensures forall i :: 0 <= i < |ds| ==> (visited[i] ==> old(visited[i]) || Downstream(ds, seed, i))
    ensures forall i :: 0 <= i < |ds| && old(visited[i]) ==> visited[i]
  {
    var cur: int := seed;
    assert Follow(ds, cur, 0) == cur;
    while cur >= 0 && !visited[cur]
      invariant -1 <= cur < |ds|
      invariant cur >= 0 ==> Downstream(ds, seed, cur)
      invariant cur == seed || visited[seed]
      invariant forall i :: 0 <= i < |ds| && visited[i] && ds[i] >= 0 ==> visited[ds[i]] || ds[i] == cur
      invariant forall i :: 0 <= i < |ds| ==> (visited[i] ==> old(visited[i]) || Downstream(ds, seed, i))
      invariant forall i :: 0 <= i < |ds| && old(visited[i]) ==> visited[i]
      decreases set i | 0 <= i < |ds| && !visited[i]
    {
      if ds[cur] >= 0 {
        DownstreamStep(ds, seed, cur);
      }
      ghost var unvisited := set i | 0 <= i < |ds| && !visited[i];
      assert cur in unvisited;
      visited[cur] := true;
      cur := ds[cur];
    }
  }

  /** Positions reachable downstream from the seeds, inclusive: exactly those, whatever cycles there are. */
  method DownstreamClosure(ds: seq<int>, seeds: seq<nat>) returns (mask: seq<bool>)
    requires InBounds(ds) && forall s :: 0 <= s < |seeds| ==> seeds[s] < |ds|
    ensures |mask| == |ds|
    ensures forall i :: 0 <= i < |ds| ==> (mask[i] <==> exists s :: 0 <= s < |seeds| && Downstream(ds, seeds[s], i))
  {
    hide Downstream;
    var visited := new bool[|ds|](_ => false);
    for s := 0 to |seeds|
      invariant Closed(ds, visited[..])
      invariant forall r :: 0 <= r < s ==> visited[seeds[r]]
      invariant forall i :: 0 <= i < |ds| && visited[i] ==> exists r :: 0 <= r < s && Downstream(ds, seeds[r], i)
    {
      MarkDownstream(ds, seeds[s], visited);
    }
    mask := visited[..];
    forall i, s | 0 <= i < |ds| && 0 <= s < |seeds| && Downstream(ds, seeds[s], i) ensures mask[i] {
      ClosedIsDownstream(ds, mask, seeds[s], i);
    }
  }

  lemma ClosedIsDownstream(ds: seq<int>, visited: seq<bool>, i: nat, j: nat)
    requires InBounds(ds) && |visited| == |ds| && Closed(ds, visited) && i < |ds| && j < |ds| && visited[i]
    requires Downstream(ds, i, j)
    ensures visited[j]
  {
    var k: nat :| Follow(ds, i, k) == j;
    ClosedFollows(ds, visited, i, k);
  }
}
