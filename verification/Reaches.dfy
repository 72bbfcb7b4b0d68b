/** The reach network: rows, the pointer graph they form, and what every pass must keep. */
module Reaches {
  import opened Wrappers

  /** The whole numbers of an id's text: 3434_2_1 is [3434, 2, 1]. */
  type Id = seq<nat>

  datatype Reason = Outlet | Coast | Lake

  datatype Reach = Reach(
    id: Id,
    to: Option<Id>,
    drainageArea: real,
    length: real,
    headwater: bool,
    terminal: bool,
    lakeInlet: bool,
    lakeOutlet: bool,
    trimmed: bool,
    reason: Option<Reason>,
    lakeTo: Option<string>,
    coastTo: Option<string>
  )

  // ---------- Boolean masks over rows ----------

  /** The positions a mask keeps, ascending. */
  function Positions(keep: seq<bool>): (ps: seq<nat>)
    ensures forall k :: 0 <= k < |ps| ==> ps[k] < |keep| && keep[ps[k]]
    ensures forall j, k :: 0 <= j < k < |ps| ==> ps[j] < ps[k]
  {
    if keep == [] then []
    else
      var n := |keep| - 1;
      if keep[n] then Positions(keep[..n]) + [n] else Positions(keep[..n])
  }

  lemma {:induction false} PositionsComplete(keep: seq<bool>, i: nat)
    requires i < |keep| && keep[i]
    ensures exists k :: 0 <= k < |Positions(keep)| && Positions(keep)[k] == i
  {
    var n := |keep| - 1;
    if i < n {
      PositionsComplete(keep[..n], i);
      var k :| 0 <= k < |Positions(keep[..n])| && Positions(keep[..n])[k] == i;
      assert Positions(keep)[k] == i;
    } else {
      assert Positions(keep)[|Positions(keep)| - 1] == i;
    }
  }

  function Select<T>(xs: seq<T>, keep: seq<bool>): (ys: seq<T>)
    requires |xs| == |keep|
    ensures |ys| == |Positions(keep)|
    ensures forall k :: 0 <= k < |ys| ==> ys[k] == xs[Positions(keep)[k]]
  {
    seq(|Positions(keep)|, k requires 0 <= k < |Positions(keep)| => xs[Positions(keep)[k]])
  }

  lemma SelectMembers<T>(xs: seq<T>, keep: seq<bool>)
    requires |xs| == |keep|
    ensures forall i :: 0 <= i < |xs| && keep[i] ==> xs[i] in Select(xs, keep)
    ensures forall y :: y in Select(xs, keep) ==> exists i :: 0 <= i < |xs| && keep[i] && xs[i] == y
  {
    var ys := Select(xs, keep);
    forall i | 0 <= i < |xs| && keep[i] ensures xs[i] in ys {
      PositionsComplete(keep, i);
      var k :| 0 <= k < |Positions(keep)| && Positions(keep)[k] == i;
      assert ys[k] == xs[i];
    }
    forall y | y in ys ensures exists i :: 0 <= i < |xs| && keep[i] && xs[i] == y {
      var k :| 0 <= k < |ys| && ys[k] == y;
      assert xs[Positions(keep)[k]] == y;
    }
  }

  function Count(mask: seq<bool>): nat {
    if mask == [] then 0 else Count(mask[..|mask| - 1]) + if mask[|mask| - 1] then 1 else 0
  }

  function Not(mask: seq<bool>): (r: seq<bool>)
    ensures |r| == |mask| && forall i :: 0 <= i < |mask| ==> r[i] == !mask[i]
  {
    seq(|mask|, i requires 0 <= i < |mask| => !mask[i])
  }

  lemma {:induction false} PositionsCount(keep: seq<bool>)
    ensures |Positions(keep)| == Count(keep)
    ensures Count(keep) + Count(Not(keep)) == |keep|
  {
    if keep != [] {
      var n := |keep| - 1;
      PositionsCount(keep[..n]);
      assert Not(keep)[..n] == Not(keep[..n]);
    }
  }

  /** Counting a mask counts the positions it marks. */
  lemma {:induction false} CountIsSize(mask: seq<bool>, marked: set<nat>)
    requires forall i: nat :: i in marked <==> i < |mask| && mask[i]
    ensures Count(mask) == |marked|
  {
    if mask == [] {
      assert marked == {};
    } else {
      var n: nat := |mask| - 1;
      assert forall i: nat :: i in marked - {n} <==> i < n && mask[..n][i];
      CountIsSize(mask[..n], marked - {n});
      if mask[n] {
        assert marked == (marked - {n}) + {n};
      } else {
        assert marked == marked - {n};
      }
    }
  }

  // ---------- The pointer graph ----------

  /** Each reach's downstream pointer. */
  type Graph = map<Id, Option<Id>>

  function Next(g: Graph, a: Id): Option<Id> {
    if a in g then g[a] else None
  }

  /** Following pointers `k` times. */
  function Walk(g: Graph, a: Option<Id>, k: nat): Option<Id>
    decreases k
  {
    if k == 0 || a.None? then a else Walk(g, Next(g, a.value), k - 1)
  }

  /** Water leaving `a` passes `b`. */
  ghost predicate Flows(g: Graph, a: Id, b: Id) {
    exists k: nat :: Walk(g, Some(a), k) == Some(b)
  }

  lemma {:induction false} WalkSplits(g: Graph, a: Option<Id>, j: nat, k: nat)
    ensures Walk(g, a, j + k) == Walk(g, Walk(g, a, j), k)
    decreases j
  {
    if j > 0 && a.Some? {
      WalkSplits(g, Next(g, a.value), j - 1, k);
    }
  }

  lemma FlowsOn(g: Graph, a: Id, b: Id, c: Id)
    requires Flows(g, a, b) && Flows(g, b, c)
    ensures Flows(g, a, c)
  {
    var j: nat :| Walk(g, Some(a), j) == Some(b);
    var k: nat :| Walk(g, Some(b), k) == Some(c);
    WalkSplits(g, Some(a), j, k);
  }

  lemma FlowsStep(g: Graph, a: Id, b: Id)
    requires Next(g, a) == Some(b)
    ensures Flows(g, a, b)
  {
    assert Walk(g, Some(b), 0) == Some(b);
    assert Walk(g, Some(a), 1) == Some(b);
  }

  lemma FlowsSelf(g: Graph, a: Id)
    ensures Flows(g, a, a)
  {
    assert Walk(g, Some(a), 0) == Some(a);
  }

  // ---------- Rows and their graph ----------

  ghost function Ids(rows: seq<Reach>): set<Id> {
    set r | r in rows :: r.id
  }

  /** No id is another id, or the beginning of one; so ids are unique, and stay so when pieces are suffixed. */
  ghost predicate PrefixFree(rows: seq<Reach>) {
    forall i, j :: 0 <= i < |rows| && 0 <= j < |rows| && i != j ==> !(rows[i].id <= rows[j].id)
  }

  ghost predicate UniqueIds(rows: seq<Reach>) {
    forall i, j :: 0 <= i < |rows| && 0 <= j < |rows| && rows[i].id == rows[j].id ==> i == j
  }

  function GraphOf(rows: seq<Reach>): Graph {
    if rows == [] then map[]
    else GraphOf(rows[..|rows| - 1])[rows[|rows| - 1].id := rows[|rows| - 1].to]
  }

  lemma {:induction false} GraphKeys(rows: seq<Reach>)
    ensures GraphOf(rows).Keys == Ids(rows)
  {
    if rows != [] {
      var n := |rows| - 1;
      GraphKeys(rows[..n]);
      assert rows == rows[..n] + [rows[n]];
      assert Ids(rows) == Ids(rows[..n]) + {rows[n].id};
    }
  }

  lemma {:induction false} GraphAt(rows: seq<Reach>, i: nat)
    requires UniqueIds(rows) && i < |rows|
    ensures Next(GraphOf(rows), rows[i].id) == rows[i].to
  {
    var n := |rows| - 1;
    if i < n {
      GraphAt(rows[..n], i);
    }
  }

  lemma GraphRows(rows: seq<Reach>)
    requires UniqueIds(rows)
    ensures forall r :: r in rows ==> r.id in GraphOf(rows) && Next(GraphOf(rows), r.id) == r.to
    ensures GraphOf(rows).Keys == Ids(rows)
  {
    GraphKeys(rows);
    forall r | r in rows ensures r.id in GraphOf(rows) && Next(GraphOf(rows), r.id) == r.to {
      var i :| 0 <= i < |rows| && rows[i] == r;
      GraphAt(rows, i);
    }
  }

  // ---------- Following renamed ids ----------

  /** A pointer at a retired id follows it to the id that took its place. */
  function Remap(remap: map<Id, Id>, r: Reach): Reach {
    if r.to.Some? && r.to.value in remap then r.(to := Some(remap[r.to.value])) else r
  }

  function RemapAll(remap: map<Id, Id>, rows: seq<Reach>): (out: seq<Reach>)
    ensures |out| == |rows| && forall k :: 0 <= k < |rows| ==> out[k] == Remap(remap, rows[k])
  {
    seq(|rows|, k requires 0 <= k < |rows| => Remap(remap, rows[k]))
  }

  // ---------- What every pass must keep ----------

  /** A reach is terminal exactly when it points nowhere, and then it says why. */
  ghost predicate Coherent(r: Reach) {
    (r.terminal <==> r.to.None?) && (r.reason.Some? <==> r.to.None?)
  }

  ghost predicate AllCoherent(rows: seq<Reach>) {
    forall r :: r in rows ==> Coherent(r)
  }

  ghost predicate NoDangling(rows: seq<Reach>) {
    forall r :: r in rows && r.to.Some? ==> r.to.value in Ids(rows)
  }

  /** A reach that ends in a lake or leaves one names a lake. */
  ghost predicate Referenced(rows: seq<Reach>) {
    forall r :: r in rows && (r.lakeInlet || r.lakeOutlet) ==> r.lakeTo.Some?
  }

  /** A rank that falls along every pointer: the witness that there is no cycle. */
  ghost predicate Falls(rows: seq<Reach>, rank: map<Id, nat>) {
    && Ids(rows) <= rank.Keys
    && forall r :: r in rows && r.to.Some? && r.to.value in Ids(rows) ==> rank[r.to.value] < rank[r.id]
  }

  ghost predicate Acyclic(rows: seq<Reach>) {
    exists rank :: Falls(rows, rank)
  }

  ghost predicate Sound(rows: seq<Reach>) {
    PrefixFree(rows) && AllCoherent(rows) && NoDangling(rows) && Acyclic(rows)
  }

  lemma PrefixFreeIsUnique(rows: seq<Reach>)
    requires PrefixFree(rows)
    ensures UniqueIds(rows)
  {
    forall i, j | 0 <= i < |rows| && 0 <= j < |rows| && rows[i].id == rows[j].id ensures i == j {
      assert rows[i].id <= rows[j].id;
    }
  }

  /** Rows picked out of a prefix-free network, by distinct positions, keeping their ids. */
  lemma PickedPrefixFree(rows: seq<Reach>, out: seq<Reach>, at: seq<nat>)
    requires PrefixFree(rows) && |at| == |out|
    requires forall k :: 0 <= k < |at| ==> at[k] < |rows| && out[k].id == rows[at[k]].id
    requires forall j, k :: 0 <= j < k < |at| ==> at[j] != at[k]
    ensures PrefixFree(out)
  {
    forall i, j | 0 <= i < |out| && 0 <= j < |out| && i != j ensures !(out[i].id <= out[j].id) {
      assert at[i] != at[j];
    }
  }

  /** Rows whose pointers were kept or cut, among fewer rows, fall by the same rank. */
  lemma PickedFalls(rows: seq<Reach>, out: seq<Reach>, rank: map<Id, nat>)
    requires Falls(rows, rank)
    requires forall r :: r in out ==> exists s :: s in rows && s.id == r.id && (r.to.None? || r.to == s.to)
    ensures Falls(out, rank)
  {
    forall a | a in Ids(out) ensures a in Ids(rows) {
      var r :| r in out && r.id == a;
      var s :| s in rows && s.id == r.id && (r.to.None? || r.to == s.to);
    }
    forall r | r in out && r.to.Some? && r.to.value in Ids(out) ensures rank[r.to.value] < rank[r.id] {
      var s :| s in rows && s.id == r.id && (r.to.None? || r.to == s.to);
      assert s.to.value in Ids(rows);
    }
  }

  /** A network of rows picked from a prefix-free, acyclic one, with pointers kept or cut. */
  lemma PickedSound(rows: seq<Reach>, out: seq<Reach>, at: seq<nat>)
    requires PrefixFree(rows) && Acyclic(rows) && |at| == |out|
    requires forall j, k :: 0 <= j < k < |at| ==> at[j] != at[k]
    requires forall k :: 0 <= k < |at| ==> at[k] < |rows| && PickedRow(rows[at[k]], out[k])
    requires NoDangling(out)
    ensures Sound(out)
  {
    hide PrefixFree, Falls, NoDangling;
    PickedPrefixFree(rows, out, at);
    forall r | r in out ensures Coherent(r) && exists s :: s in rows && s.id == r.id && (r.to.None? || r.to == s.to) {
      var k :| 0 <= k < |out| && out[k] == r;
      assert rows[at[k]] in rows && PickedRow(rows[at[k]], out[k]);
    }
    var rank :| Falls(rows, rank);
    PickedFalls(rows, out, rank);
  }

  ghost predicate PickedRow(s: Reach, r: Reach) {
    r.id == s.id && (r.to.None? || r.to == s.to) && Coherent(r)
  }

  /** Acyclic means what it says: no water comes back to where it left. */
  lemma AcyclicNeverReturns(rows: seq<Reach>, a: Id, k: nat)
    requires Acyclic(rows) && UniqueIds(rows) && k > 0
    ensures a in Ids(rows) ==> Walk(GraphOf(rows), Some(a), k) != Some(a)
  {
    var rank :| Falls(rows, rank);
    GraphRows(rows);
    if a in Ids(rows) {
      RankFallsAlong(rows, rank, a, k);
    }
  }

  lemma {:induction false} RankFallsAlong(rows: seq<Reach>, rank: map<Id, nat>, a: Id, k: nat)
    requires Falls(rows, rank) && UniqueIds(rows) && a in Ids(rows)
    ensures
      var b := Walk(GraphOf(rows), Some(a), k);
      b.Some? && b.value in Ids(rows) ==> rank[b.value] + k <= rank[a]
    decreases k
  {
    GraphRows(rows);
    if k > 0 {
      var r :| r in rows && r.id == a;
      var g := GraphOf(rows);
      if r.to.Some? {
        if r.to.value in Ids(rows) {
          RankFallsAlong(rows, rank, r.to.value, k - 1);
        } else if k > 1 {
          assert r.to.value !in g;
          assert Walk(g, Next(g, r.to.value), k - 2) == None;
        }
      }
    }
  }
}
