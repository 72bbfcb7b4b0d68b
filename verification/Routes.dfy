/** Routes through a pointer graph: which reaches the water passes on its way. */
module Routes {
  import opened Wrappers
  import opened Reaches

  /** After `k` pointers from `a` the water is at `b`, and everything it passed in between is in `via`. */
  ghost predicate Route(g: Graph, via: set<Id>, a: Id, b: Id, k: nat) {
    && k > 0 && Walk(g, Some(a), k) == Some(b)
    && forall m: nat :: 0 < m < k ==> Walk(g, Some(a), m).Some? && Walk(g, Some(a), m).value in via
  }

  ghost predicate FlowsVia(g: Graph, via: set<Id>, a: Id, b: Id) {
    exists k: nat :: Route(g, via, a, b, k)
  }

  lemma WalkStep(g: Graph, a: Id, k: nat)
    requires k > 0
    ensures Walk(g, Some(a), k) == Walk(g, Next(g, a), k - 1)
  {}

  /** A route is a step to a reach it may pass, and a route from there. */
  lemma RouteStep(g: Graph, via: set<Id>, a: Id, b: Id, k: nat)
    requires k > 1
    ensures Route(g, via, a, b, k) <==>
      Next(g, a).Some? && Next(g, a).value in via && Route(g, via, Next(g, a).value, b, k - 1)
  {
    hide Walk;
    WalkStep(g, a, k);
    WalkStep(g, a, 1);
    assert Walk(g, Next(g, a), 0) == Next(g, a) by { WalkNone(g, Next(g, a)); }
    if Route(g, via, a, b, k) {
      assert Walk(g, Some(a), 1).Some?;
      var c := Next(g, a).value;
      forall m: nat | 0 < m < k - 1 ensures Walk(g, Some(c), m).Some? && Walk(g, Some(c), m).value in via {
        WalkStep(g, a, m + 1);
      }
    }
    if Next(g, a).Some? && Next(g, a).value in via && Route(g, via, Next(g, a).value, b, k - 1) {
      forall m: nat | 0 < m < k ensures Walk(g, Some(a), m).Some? && Walk(g, Some(a), m).value in via {
        WalkStep(g, a, m);
      }
    }
  }

  lemma WalkNone(g: Graph, a: Option<Id>)
    ensures Walk(g, a, 0) == a
  {}

  lemma RouteOfOne(g: Graph, via: set<Id>, a: Id, b: Id)
    ensures Route(g, via, a, b, 1) <==> Next(g, a) == Some(b)
  {
    assert Walk(g, Some(a), 1) == Walk(g, Next(g, a), 0);
  }

  /** Following every pointer is flowing through anything. */
  lemma FlowsViaAll(g: Graph, via: set<Id>, a: Id, b: Id)
    requires g.Keys <= via
    ensures Flows(g, a, b) <==> a == b || FlowsVia(g, via, a, b)
  {
    if k: nat :| Walk(g, Some(a), k) == Some(b) {
      if k > 0 {
        forall m: nat | 0 < m < k ensures Walk(g, Some(a), m).Some? && Walk(g, Some(a), m).value in via {
          PassedIsRow(g, a, m, k);
        }
        assert Route(g, via, a, b, k);
      }
    }
    FlowsSelf(g, a);
  }

  lemma PassedIsRow(g: Graph, a: Id, m: nat, k: nat)
    requires m < k && Walk(g, Some(a), k).Some?
    ensures Walk(g, Some(a), m).Some? && Walk(g, Some(a), m).value in g
  {
    WalkSplits(g, Some(a), m, k - m);
    var w := Walk(g, Some(a), m);
    if w.Some? {
      assert Walk(g, w, k - m) == Walk(g, Next(g, w.value), k - m - 1);
    }
  }

  // ---------- Two graphs, one way ----------

  /** However the water gets from `a` to `b` in one graph, it gets there by the same reaches in the other. */
  ghost predicate WalksAgree(g: Graph, h: Graph, a: Id, b: Id) {
    forall k: nat, m: nat :: m <= k && (Walk(g, Some(a), k) == Some(b) || Walk(h, Some(a), k) == Some(b)) ==>
      Walk(g, Some(a), m) == Walk(h, Some(a), m)
  }

  lemma AgreeOn(f: Graph, g: Graph, h: Graph, a: Id, b: Id)
    requires WalksAgree(f, g, a, b) && WalksAgree(g, h, a, b)
    ensures WalksAgree(f, h, a, b)
  {
    forall k: nat, m: nat | m <= k && (Walk(f, Some(a), k) == Some(b) || Walk(h, Some(a), k) == Some(b))
      ensures Walk(f, Some(a), m) == Walk(h, Some(a), m)
    {
      assert Walk(f, Some(a), k) == Walk(g, Some(a), k) == Walk(h, Some(a), k);
    }
  }

  lemma AgreeKeepsFlow(g: Graph, h: Graph, via: set<Id>, a: Id, b: Id)
    requires WalksAgree(g, h, a, b)
    ensures Flows(g, a, b) <==> Flows(h, a, b)
    ensures FlowsVia(g, via, a, b) <==> FlowsVia(h, via, a, b)
  {
    if k: nat :| Walk(g, Some(a), k) == Some(b) {
      assert Walk(h, Some(a), k) == Some(b);
    }
    if k: nat :| Walk(h, Some(a), k) == Some(b) {
      assert Walk(g, Some(a), k) == Some(b);
    }
    if k: nat :| Route(g, via, a, b, k) {
      AgreeKeepsRoute(g, h, via, a, b, k);
    }
    if k: nat :| Route(h, via, a, b, k) {
      AgreeKeepsRoute(g, h, via, a, b, k);
    }
  }

  lemma AgreeKeepsRoute(g: Graph, h: Graph, via: set<Id>, a: Id, b: Id, k: nat)
    requires WalksAgree(g, h, a, b)
    ensures Route(g, via, a, b, k) <==> Route(h, via, a, b, k)
  {
    hide Walk;
  }

  /** Graphs with the same pointers have the same walks. */
  lemma {:induction false} SameNextSameWalk(g: Graph, h: Graph, a: Option<Id>, k: nat)
    requires forall c :: Next(g, c) == Next(h, c)
    ensures Walk(g, a, k) == Walk(h, a, k)
    decreases k
  {
    if k > 0 && a.Some? {
      SameNextSameWalk(g, h, Next(g, a.value), k - 1);
    }
  }

  /** Pointers only cut: what the water still passes, it passed before. */
  lemma {:induction false} CutWalks(g: Graph, cut: Graph, a: Option<Id>, k: nat)
    requires forall c :: Next(cut, c).None? || Next(cut, c) == Next(g, c)
    ensures Walk(cut, a, k).Some? ==> Walk(g, a, k) == Walk(cut, a, k)
    decreases k
  {
    if k > 0 && a.Some? && Next(cut, a.value).Some? {
      CutWalks(g, cut, Next(cut, a.value), k - 1);
    } else if k > 0 && a.Some? {
      assert Walk(cut, a, k) == Walk(cut, None, k - 1) == None;
    }
  }
}
