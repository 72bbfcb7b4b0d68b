/** What the coastal pass leaves, row by row, read off how each reach meets the coverage. */
module CoastRows {
  import opened Wrappers
  import opened Reaches
  import opened Pointers
  import opened Coastal
  import opened CoastFlow

  /** It never meets the coverage, or begins outside it with something usable above the contact. */
  predicate HasDryPart(shape: Shape) {
    shape == Clear || (shape.BeginsOutside? && shape.contact.Some?)
  }

  /** Some reach that meets the coverage, in any way, lies strictly upstream. */
  ghost predicate CoastAbove(rows: seq<Reach>, shapes: seq<Shape>, i: nat)
    requires |shapes| == |rows| && i < |rows|
  {
    exists f: nat :: f < |rows| && shapes[f] != Clear && StrictlyDownstream(Topology(rows), f, i)
  }

  lemma DroppedByShape(rows: seq<Reach>, shapes: seq<Shape>, i: nat)
    requires |shapes| == |rows| && i < |rows|
    ensures Encompassed(shapes[i]) <==> !HasDryPart(shapes[i])
    ensures Cascaded(rows, shapes, i) <==> CoastAbove(rows, shapes, i)
  {
    hide StrictlyDownstream, Topology;
    if f: nat :| f < |rows| && shapes[f] != Clear && StrictlyDownstream(Topology(rows), f, i) {
      assert Encompassed(shapes[f]) || Trims(shapes[f]);
    }
  }

  /** A reach survives if and only if it has a dry part and nothing upstream of it meets the coverage. */
  lemma {:induction false} SurvivesByShape(rows: seq<Reach>, shapes: seq<Shape>, i: nat)
    requires |shapes| == |rows| && UniqueIds(rows) && i < |rows|
    ensures rows[i].id in Ids(AfterCoast(rows, shapes)) <==> HasDryPart(shapes[i]) && !CoastAbove(rows, shapes, i)
  {
    hide HasDryPart, CoastAbove, Encompassed, Cascaded, AfterCoast;
    SurvivorIn(rows, shapes, i);
    DroppedByShape(rows, shapes, i);
  }

  /** The row a survivor leaves: cut at its contact and ended there, naming the polygon; or as it was, ended where it stands
      when what it flowed into is gone. */
  ghost predicate LeftByCoast(r: Reach, shape: Shape, ids: set<Id>, now: Reach) {
    match shape
    case Clear =>
      now == if r.to.None? || r.to.value in ids then r else r.(to := None, terminal := true, reason := Some(Coast))
    case BeginsOutside(Some(contact)) =>
      now == r.(length := contact.cut, trimmed := true, coastTo := contact.coastId, to := None, terminal := true,
                reason := Some(Coast))
    case _ => false
  }

  lemma {:induction false} SurvivorByShape(rows: seq<Reach>, shapes: seq<Shape>, i: nat, now: Reach)
    requires |shapes| == |rows| && UniqueIds(rows) && i < |rows|
    requires now in AfterCoast(rows, shapes) && now.id == rows[i].id
    ensures LeftByCoast(rows[i], shapes[i], Ids(AfterCoast(rows, shapes)), now)
  {
    hide Dropped, Survivors;
    var out, kept := AfterCoast(rows, shapes), Survivors(rows, shapes);
    var k :| 0 <= k < |out| && out[k] == now;
    SurvivorRow(rows, shapes, k);
    SameIds(rows, shapes);
    SurvivorIn(rows, shapes, i);
    SurvivesByShape(rows, shapes, i);
    hide AfterCoast, CoastAbove, UniqueIds;
    var j := Positions(Survives(rows, shapes))[k];
    assert now == if Stranded(kept, kept[k]) then Terminated(kept[k]) else kept[k] by { RowOfSurvivor(rows, shapes, k); }
    SameRowOf(rows, j, i);
  }

  lemma RowOfSurvivor(rows: seq<Reach>, shapes: seq<Shape>, k: nat)
    requires |shapes| == |rows| && k < |AfterCoast(rows, shapes)|
    ensures
      var kept := Survivors(rows, shapes);
      AfterCoast(rows, shapes)[k] == if Stranded(kept, kept[k]) then Terminated(kept[k]) else kept[k]
  {}

  // ---------- The counters ----------

  /** Counting what was selected is counting it where it came from. */
  lemma {:induction false} CountSelected(keep: seq<bool>, some: seq<bool>, all: seq<bool>)
    requires |some| == |Positions(keep)| && |all| == |keep|
    requires forall k :: 0 <= k < |some| ==> some[k] == all[Positions(keep)[k]]
    requires forall i :: 0 <= i < |all| && all[i] ==> keep[i]
    ensures Count(some) == Count(all)
  {
    if keep != [] {
      var n := |keep| - 1;
      if keep[n] {
        CountSelected(keep[..n], some[..|some| - 1], all[..n]);
      } else {
        CountSelected(keep[..n], some, all[..n]);
      }
    }
  }

  /** A survivor that never met the coverage and flowed into what is gone. */
  ghost predicate StrandedAt(rows: seq<Reach>, shapes: seq<Shape>, i: nat)
    requires |shapes| == |rows| && i < |rows|
  {
    && shapes[i] == Clear && !CoastAbove(rows, shapes, i)
    && rows[i].to.Some? && rows[i].to.value !in Ids(AfterCoast(rows, shapes))
  }

  lemma StrandedSurvivor(rows: seq<Reach>, shapes: seq<Shape>, k: nat)
    requires |shapes| == |rows| && k < |Positions(Survives(rows, shapes))|
    ensures |Survivors(rows, shapes)| == |Positions(Survives(rows, shapes))|
    ensures
      var i := Positions(Survives(rows, shapes))[k];
      i < |rows| && (Stranded(Survivors(rows, shapes), Survivors(rows, shapes)[k]) <==> StrandedAt(rows, shapes, i))
  {
    hide Dropped, Cascaded, Encompassed, CoastAbove;
    SurvivorRow(rows, shapes, k);
    SameIds(rows, shapes);
    hide AfterCoast, Survivors;
    var i := Positions(Survives(rows, shapes))[k];
    DroppedByShape(rows, shapes, i);
    assert !Encompassed(shapes[i]) && !Cascaded(rows, shapes, i) by { NotDropped(rows, shapes, i); }
  }

  lemma NotDropped(rows: seq<Reach>, shapes: seq<Shape>, i: nat)
    requires |shapes| == |rows| && i < |rows|
    ensures Dropped(rows, shapes, i) <==> Encompassed(shapes[i]) || Cascaded(rows, shapes, i)
  {}

  lemma StrandedCount(rows: seq<Reach>, shapes: seq<Shape>)
    requires |shapes| == |rows|
    ensures Count(StrandedMask(Survivors(rows, shapes))) == |set i: nat | i < |rows| && StrandedAt(rows, shapes, i)|
  {
    hide StrandedAt, Stranded, Survivors, Dropped;
    var keep, n := Survives(rows, shapes), |rows|;
    var all := seq(n, i requires 0 <= i < n => StrandedAt(rows, shapes, i));
    forall k | 0 <= k < |Positions(keep)|
      ensures |Survivors(rows, shapes)| == |Positions(keep)|
      ensures StrandedMask(Survivors(rows, shapes))[k] == all[Positions(keep)[k]]
    {
      StrandedSurvivor(rows, shapes, k);
    }
    forall i | 0 <= i < n && all[i] ensures keep[i] {
      StrandedSurvives(rows, shapes, i);
    }
    SurvivorCount(rows, shapes);
    CountSelected(keep, StrandedMask(Survivors(rows, shapes)), all);
    CountIsSize(all, set i: nat | i < |rows| && StrandedAt(rows, shapes, i));
  }

  lemma StrandedSurvives(rows: seq<Reach>, shapes: seq<Shape>, i: nat)
    requires |shapes| == |rows| && i < |rows| && StrandedAt(rows, shapes, i)
    ensures !Dropped(rows, shapes, i)
  {
    hide CoastAbove, Cascaded, AfterCoast;
    DroppedByShape(rows, shapes, i);
  }

  lemma SurvivorCount(rows: seq<Reach>, shapes: seq<Shape>)
    requires |shapes| == |rows|
    ensures |Survivors(rows, shapes)| == |Positions(Survives(rows, shapes))|
  {}

  /** Each of the four counters is the size of the set of reaches it names, read off their shapes and the pointers. */
  lemma {:induction false} CountersByShape(rows: seq<Reach>, shapes: seq<Shape>)
    requires |shapes| == |rows|
    ensures Count(EncompassedMask(shapes)) == |set i: nat | i < |rows| && !HasDryPart(shapes[i])|
    ensures Count(CascadeMask(rows, shapes)) == |set i: nat | i < |rows| && HasDryPart(shapes[i]) && CoastAbove(rows, shapes, i)|
    ensures Count(TrimMask(rows, shapes))
         == |set i: nat | i < |rows| && HasDryPart(shapes[i]) && shapes[i] != Clear && !CoastAbove(rows, shapes, i)|
    ensures Count(StrandedMask(Survivors(rows, shapes))) == |set i: nat | i < |rows| && StrandedAt(rows, shapes, i)|
  {
    hide CoastAbove, Cascaded, Count, StrandedAt, Survivors, StrandedMask;
    forall i: nat | i < |rows| {
      DroppedByShape(rows, shapes, i);
    }
    StrandedCount(rows, shapes);
    CountIsSize(EncompassedMask(shapes), set i: nat | i < |rows| && !HasDryPart(shapes[i]));
    CountIsSize(CascadeMask(rows, shapes), set i: nat | i < |rows| && HasDryPart(shapes[i]) && CoastAbove(rows, shapes, i));
    CountIsSize(TrimMask(rows, shapes),
      set i: nat | i < |rows| && HasDryPart(shapes[i]) && shapes[i] != Clear && !CoastAbove(rows, shapes, i));
  }
}
