/** A pointer graph has a falling rank exactly when no water comes back to where it left. */
module Cycles {
  import opened Wrappers
  import opened Reaches
  import opened Explode
  import opened ExplodeProofs

  ghost predicate NeverReturns(g: Graph) {
    forall a, k: nat :: a in g && k > 0 ==> Walk(g, Some(a), k) != Some(a)
  }

  /** A rank of the graph's reaches, falling along every pointer to one of them. */
  ghost predicate RankFalls(g: Graph, rank: map<Id, nat>) {
    && g.Keys <= rank.Keys
    && forall a :: a in g && g[a].Some? && g[a].value in g ==> rank[g[a].value] < rank[a]
  }

  // ---------- From no return to a rank ----------

  /** Still at a reach of the graph. */
  predicate Inside(g: Graph, a: Option<Id>) {
    a.Some? && a.value in g
  }

  lemma {:induction false} InsideBefore(g: Graph, a: Option<Id>, m: nat, k: nat)
    requires m <= k && Inside(g, Walk(g, a, k))
    ensures Inside(g, Walk(g, a, m))
  {
    WalkSplits(g, a, m, k - m);
    var w := Walk(g, a, m);
    if m < k && w.Some? {
      assert Walk(g, w, k - m) == Walk(g, Next(g, w.value), k - m - 1);
    }
  }

  /** The reaches passed in the first `k` steps. */
  ghost function Passed(g: Graph, a: Id, k: nat): (ids: set<Id>)
    requires Inside(g, Walk(g, Some(a), k))
    ensures ids <= g.Keys
    decreases k
  {
    if k == 0 then {a}
    else
      InsideBefore(g, Some(a), k - 1, k);
      Passed(g, a, k - 1) + {Walk(g, Some(a), k).value}
  }

  lemma {:induction false} PassedNot(g: Graph, a: Id, k: nat, b: Id)
    requires Inside(g, Walk(g, Some(a), k))
    requires forall m: nat :: m <= k ==> Walk(g, Some(a), m) != Some(b)
    ensures b !in Passed(g, a, k)
    decreases k
  {
    assert Walk(g, Some(a), 0) == Some(a);
    if k > 0 {
      InsideBefore(g, Some(a), k - 1, k);
      PassedNot(g, a, k - 1, b);
    }
  }

  /** A walk that stays in the graph and never returns keeps finding new reaches. */
  lemma {:induction false} PassedGrows(g: Graph, a: Id, k: nat)
    requires NeverReturns(g) && Inside(g, Walk(g, Some(a), k))
    ensures |Passed(g, a, k)| == k + 1
    decreases k
  {
    if k > 0 {
      InsideBefore(g, Some(a), k - 1, k);
      PassedGrows(g, a, k - 1);
      var b := Walk(g, Some(a), k).value;
      forall m: nat | m <= k - 1 ensures Walk(g, Some(a), m) != Some(b) {
        WalkSplits(g, Some(a), m, k - m);
        assert Walk(g, Some(b), k - m) != Some(b);
      }
      PassedNot(g, a, k - 1, b);
    }
  }

  /** So it leaves within as many steps as there are reaches. */
  lemma WalkLeaves(g: Graph, a: Id)
    requires NeverReturns(g)
    ensures !Inside(g, Walk(g, Some(a), |g.Keys|))
  {
    if Inside(g, Walk(g, Some(a), |g.Keys|)) {
      PassedGrows(g, a, |g.Keys|);
      Contained(Passed(g, a, |g.Keys|), g.Keys);
    }
  }

  lemma Contained(a: set<Id>, b: set<Id>)
    requires a <= b
    ensures |a| <= |b|
  {
    assert b == a + (b - a);
    assert |b| == |a| + |b - a|;
  }

  /** Steps until the water leaves, counted up to a limit. */
  ghost function StepsLeft(g: Graph, a: Option<Id>, limit: nat): (n: nat)
    ensures n <= limit
    decreases limit
  {
    if limit == 0 || !Inside(g, a) then 0 else 1 + StepsLeft(g, Next(g, a.value), limit - 1)
  }

  lemma {:induction false} LimitIsEnough(g: Graph, a: Option<Id>, limit: nat)
    requires !Inside(g, Walk(g, a, limit))
    ensures StepsLeft(g, a, limit + 1) == StepsLeft(g, a, limit)
    decreases limit
  {
    if limit > 0 && Inside(g, a) {
      LimitIsEnough(g, Next(g, a.value), limit - 1);
    }
  }

  lemma NoReturnHasRank(g: Graph)
    requires NeverReturns(g)
    ensures exists rank :: RankFalls(g, rank)
  {
    var n := |g.Keys|;
    var rank := map a | a in g :: StepsLeft(g, Some(a), n);
    forall a | a in g && g[a].Some? && g[a].value in g ensures rank[g[a].value] < rank[a] {
      WalkLeaves(g, a);
      assert n > 0 by { Contained({a}, g.Keys); }
      LimitIsEnough(g, g[a], n - 1);
    }
    assert RankFalls(g, rank);
  }

  /** The rank that makes a network acyclic exists exactly when no reach's water ever returns to it. */
  lemma AcyclicIffNeverReturns(rows: seq<Reach>)
    requires UniqueIds(rows)
    ensures Acyclic(rows) <==> NeverReturns(GraphOf(rows))
  {
    var g := GraphOf(rows);
    GraphRows(rows);
    if Acyclic(rows) {
      forall a, k: nat | a in g && k > 0 ensures Walk(g, Some(a), k) != Some(a) {
        AcyclicNeverReturns(rows, a, k);
      }
    }
    if NeverReturns(g) {
      NoReturnHasRank(g);
      var rank :| RankFalls(g, rank);
      forall r | r in rows && r.to.Some? && r.to.value in Ids(rows) ensures rank[r.to.value] < rank[r.id] {
        assert g[r.id] == Next(g, r.id);
      }
      assert Falls(rows, rank);
    }
  }

  // ---------- The same for flowpaths as read ----------

  lemma {:induction false} FallsAlongWalk(g: Graph, rank: map<Id, nat>, a: Id, k: nat)
    requires RankFalls(g, rank) && a in g
    ensures Inside(g, Walk(g, Some(a), k)) ==> rank[Walk(g, Some(a), k).value] + k <= rank[a]
    decreases k
  {
    if k > 0 && Inside(g, Walk(g, Some(a), k)) {
      assert Walk(g, Some(a), k) == Walk(g, Next(g, a), k - 1);
      InsideBefore(g, Next(g, a), 0, k - 1);
      FallsAlongWalk(g, rank, g[a].value, k - 1);
    }
  }

  lemma SourcesAcyclicIffNeverReturns(sources: seq<Source>)
    requires WellRead(sources)
    ensures AcyclicSources(sources) <==> NeverReturns(SourceGraph(sources))
  {
    var g := SourceGraph(sources);
    forall i | 0 <= i < |sources| ensures sources[i].id in g && g[sources[i].id] == sources[i].to {
      SourceGraphAt(sources, i);
      SourceGraphHas(sources, i);
    }
    if rank :| SourcesFall(sources, rank) {
      SourceRankFalls(sources, rank);
      forall a, k: nat | a in g && k > 0 ensures Walk(g, Some(a), k) != Some(a) {
        FallsAlongWalk(g, rank, a, k);
      }
    }
    if NeverReturns(g) {
      NoReturnHasRank(g);
      var rank :| RankFalls(g, rank);
      assert SourcesFall(sources, rank);
    }
  }

  lemma {:induction false} SourceGraphHas(sources: seq<Source>, i: nat)
    requires i < |sources|
    ensures sources[i].id in SourceGraph(sources)
  {
    if i < |sources| - 1 {
      SourceGraphHas(sources[..|sources| - 1], i);
    }
  }

  lemma {:induction false} SourceRankFalls(sources: seq<Source>, rank: map<Id, nat>)
    requires WellRead(sources) && SourcesFall(sources, rank)
    ensures RankFalls(SourceGraph(sources), rank)
  {
    var g := SourceGraph(sources);
    forall a | a in g ensures a in rank {
      SourceGraphKeys(sources, a);
    }
    forall a | a in g ensures g[a].Some? && g[a].value in g ==> rank[g[a].value] < rank[a] {
      SourceGraphKeys(sources, a);
      var i :| 0 <= i < |sources| && sources[i].id == a;
      SourceGraphAt(sources, i);
      if g[a].Some? && g[a].value in g {
        SourceGraphKeys(sources, g[a].value);
        var j :| 0 <= j < |sources| && sources[j].id == g[a].value;
      }
    }
  }
}
