/** The published order: ids as paths of whole numbers, compared number by number. */
module NaturalOrder {
  import opened Reaches
  import opened Chains

  predicate Before(a: Id, b: Id) {
    a == [] || (b != [] && (a[0] < b[0] || (a[0] == b[0] && Before(a[1..], b[1..]))))
  }

  lemma {:induction false} BeforeIsTotal(a: Id, b: Id)
    ensures Before(a, b) || Before(b, a)
  {
    if a != [] && b != [] && a[0] == b[0] {
      BeforeIsTotal(a[1..], b[1..]);
    }
  }

  lemma {:induction false} BeforeIsAntisymmetric(a: Id, b: Id)
    requires Before(a, b) && Before(b, a)
    ensures a == b
  {
    if a != [] && b != [] {
      BeforeIsAntisymmetric(a[1..], b[1..]);
      assert a == [a[0]] + a[1..] && b == [b[0]] + b[1..];
    }
  }

  lemma {:induction false} BeforeIsTransitive(a: Id, b: Id, c: Id)
    requires Before(a, b) && Before(b, c)
    ensures Before(a, c)
  {
    if a != [] && a[0] == b[0] == c[0] {
      BeforeIsTransitive(a[1..], b[1..], c[1..]);
    }
  }

  /** The two ids agree before place `k`, and there the first has the lower number. */
  predicate LowerAt(a: Id, b: Id, k: int) {
    0 <= k < |a| && k < |b| && a[..k] == b[..k] && a[k] < b[k]
  }

  /** One id comes before another exactly when it begins it, or has the lower number, as a number, at the first place where
      they differ. */
  lemma {:induction false} BeforeReads(a: Id, b: Id)
    ensures Before(a, b) <==> a <= b || exists k :: LowerAt(a, b, k)
  {
    if a != [] && b != [] {
      assert a == [a[0]] + a[1..] && b == [b[0]] + b[1..];
      if a[0] == b[0] {
        BeforeReads(a[1..], b[1..]);
        if k :| LowerAt(a, b, k) {
          assert a[1..][..k - 1] == a[..k][1..] == b[..k][1..] == b[1..][..k - 1];
          assert LowerAt(a[1..], b[1..], k - 1);
        }
        if k :| LowerAt(a[1..], b[1..], k) {
          assert a[..k + 1] == [a[0]] + a[1..][..k] == [b[0]] + b[1..][..k] == b[..k + 1];
          assert LowerAt(a, b, k + 1);
        }
      } else {
        DiffersAtOnce(a, b);
      }
    }
  }

  lemma DiffersAtOnce(a: Id, b: Id)
    requires a != [] && b != [] && a[0] != b[0]
    ensures !(a <= b) && ((exists k :: LowerAt(a, b, k)) <==> a[0] < b[0])
  {
    forall k | 0 < k <= |a| && k <= |b| ensures a[..k] != b[..k] {
      assert a[..k][0] != b[..k][0];
    }
    assert a[0] < b[0] ==> LowerAt(a, b, 0);
  }

  /** So 2 sorts before 10, and a parent before its parts. */
  lemma TwoBeforeTen(parent: Id, part: nat)
    ensures Before([2], [10]) && !Before([10], [2])
    ensures Before(parent, parent + [part]) && !Before(parent + [part], parent)
  {
    BeforeReads(parent, parent + [part]);
    if Before(parent + [part], parent) {
      BeforeIsAntisymmetric(parent, parent + [part]);
    }
  }

  /** Everything minted under one id sorts together: what lies between two of its descendants is another. */
  lemma {:induction false} DescendantsAreContiguous(p: Id, a: Id, b: Id, c: Id)
    requires p <= a && p <= c && Before(a, b) && Before(b, c)
    ensures p <= b
  {
    if p != [] {
      DescendantsAreContiguous(p[1..], a[1..], b[1..], c[1..]);
      assert p == [p[0]] + p[1..] && b == [b[0]] + b[1..];
    }
  }

  /** Positions in ascending order of their ids; equal ids keep their order. */
  ghost predicate InIdOrder(ids: seq<Id>, order: seq<nat>)
    requires forall k :: 0 <= k < |order| ==> order[k] < |ids|
  {
    forall j, k :: 0 <= j < k < |order| ==>
      Before(ids[order[j]], ids[order[k]]) && (ids[order[j]] == ids[order[k]] ==> order[j] < order[k])
  }

  /** Where the next position goes: after everything not after it. */
  method Slot(ids: seq<Id>, order: seq<nat>, i: nat) returns (at: nat)
    requires (forall k :: 0 <= k < |order| ==> order[k] < i) && i < |ids| && InIdOrder(ids, order)
    ensures at <= |order|
    ensures forall k :: 0 <= k < at ==> Before(ids[order[k]], ids[i])
    ensures forall k :: at <= k < |order| ==> Before(ids[i], ids[order[k]]) && ids[i] != ids[order[k]]
  {
    at := |order|;
    while at > 0 && !Before(ids[order[at - 1]], ids[i])
      invariant at <= |order|
      invariant forall k :: at <= k < |order| ==> Before(ids[i], ids[order[k]]) && ids[i] != ids[order[k]]
    {
      BeforeIsTotal(ids[order[at - 1]], ids[i]);
      at := at - 1;
    }
    if at > 0 {
      forall k | 0 <= k < at ensures Before(ids[order[k]], ids[i]) {
        if k < at - 1 {
          BeforeIsTransitive(ids[order[k]], ids[order[at - 1]], ids[i]);
        }
      }
    }
  }

  /** The stable order of the positions by id. */
  method SortPositions(ids: seq<Id>) returns (order: seq<nat>)
    ensures Lists(order, |ids|) && InIdOrder(ids, order)
  {
    hide Distinct, Listed, Before;
    order := [];
    NothingSorted();
    for i := 0 to |ids|
      invariant Lists(order, i) && InIdOrder(ids, order)
    {
      var at := Slot(ids, order, i);
      InsertKeeps(ids, order, i, at);
      order := order[..at] + [i] + order[at..];
    }
  }

  lemma NothingSorted()
    ensures Lists([], 0)
  {}

  lemma InsertKeeps(ids: seq<Id>, order: seq<nat>, i: nat, at: nat)
    requires i < |ids| && Lists(order, i) && InIdOrder(ids, order) && at <= |order|
    requires forall k :: 0 <= k < at ==> Before(ids[order[k]], ids[i])
    requires forall k :: at <= k < |order| ==> Before(ids[i], ids[order[k]]) && ids[i] != ids[order[k]]
    ensures Lists(order[..at] + [i] + order[at..], i + 1)
    ensures InIdOrder(ids, order[..at] + [i] + order[at..])
  {
    hide Before;
    var now := order[..at] + [i] + order[at..];
    forall j: nat | j < i + 1 ensures Listed(now, j) {
      if j == i {
        assert now[at] == i;
      } else {
        assert Listed(order, j);
        var k :| 0 <= k < |order| && order[k] == j;
        assert now[if k < at then k else k + 1] == j;
      }
    }
    InsertDistinct(order, i, at);
  }

  lemma InsertDistinct(order: seq<nat>, i: nat, at: nat)
    requires Distinct(order) && at <= |order| && forall k :: 0 <= k < |order| ==> order[k] < i
    ensures Distinct(order[..at] + [i] + order[at..])
  {}

  // ---------- The order is the ids' own ----------

  ghost predicate StrictlyAscending(ids: seq<Id>) {
    forall j, k :: 0 <= j < k < |ids| ==> Before(ids[j], ids[k]) && ids[j] != ids[k]
  }

  ghost predicate Included(a: seq<Id>, b: seq<Id>) {
    forall k :: 0 <= k < |a| ==> a[k] in b
  }

  lemma FirstIncluded(a: seq<Id>, b: seq<Id>)
    requires Included(a, b)
    ensures a != [] ==> b != [] && a[0] in b
  {}

  lemma RestAscends(a: seq<Id>)
    requires StrictlyAscending(a) && a != []
    ensures StrictlyAscending(a[1..])
  {
    hide Before;
  }

  lemma FirstIsFirst(a: seq<Id>, b: seq<Id>)
    requires StrictlyAscending(a) && StrictlyAscending(b) && a != [] && b != []
    requires a[0] in b && b[0] in a
    ensures a[0] == b[0]
  {
    var j :| 0 <= j < |b| && b[j] == a[0];
    var i :| 0 <= i < |a| && a[i] == b[0];
    BeforeIsTotal(a[0], a[0]);
    BeforeIsTotal(b[0], b[0]);
    BeforeIsAntisymmetric(a[0], b[0]);
  }

  lemma RestIsRest(a: seq<Id>, b: seq<Id>)
    requires StrictlyAscending(a) && a != [] && b != [] && a[0] == b[0]
    requires Included(a, b)
    ensures Included(a[1..], b[1..])
  {
    hide Before;
    forall k | 0 <= k < |a[1..]| ensures a[1..][k] in b[1..] {
      var m :| 0 <= m < |b| && b[m] == a[k + 1];
      assert a[0] != a[k + 1];
      assert b[1..][m - 1] == a[1..][k];
    }
  }

  /** Distinct ids can be published in one order only, however the rows stood before. */
  lemma {:induction false} OneOrder(a: seq<Id>, b: seq<Id>)
    requires StrictlyAscending(a) && StrictlyAscending(b)
    requires Included(a, b) && Included(b, a)
    ensures a == b
  {
    hide Before, Included, StrictlyAscending;
    FirstIncluded(a, b);
    FirstIncluded(b, a);
    if a != [] {
      FirstIsFirst(a, b);
      RestIsRest(a, b);
      RestIsRest(b, a);
      RestAscends(a);
      RestAscends(b);
      OneOrder(a[1..], b[1..]);
      assert a == [a[0]] + a[1..] && b == [b[0]] + b[1..];
    }
  }
}
