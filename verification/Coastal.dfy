/** The coastal pass: trims, drops, the downstream cascade and the stranded sweep. */
module Coastal {
  import opened Wrappers
  import opened Reaches
  import opened Pointers
  import opened Counters

  /** Where a reach first meets coastal coverage, and the polygon's id if it has one. */
  datatype Contact = Contact(cut: real, coastId: Option<string>)

  /** How a reach's geometry meets the coverage; `contact` is absent when nothing usable lies above it. */
  datatype Shape = Clear | Within | BeginsInside | BeginsOutside(contact: Option<Contact>)

  // ---------- What the pass does to each row ----------

  predicate Encompassed(shape: Shape) {
    shape.Within? || shape.BeginsInside? || (shape.BeginsOutside? && shape.contact.None?)
  }

  predicate Trims(shape: Shape) {
    shape.BeginsOutside? && shape.contact.Some?
  }

  function Trimmed(r: Reach, shape: Shape): Reach {
    if Trims(shape) then r.(length := shape.contact.value.cut, trimmed := true, coastTo := shape.contact.value.coastId)
    else r
  }

  function Terminated(r: Reach): Reach {
    r.(terminal := true, reason := Some(Coast), to := None)
  }

  /** A reach is dropped when it is encompassed, or strictly downstream of one encompassed or trimmed. */
  ghost predicate Dropped(rows: seq<Reach>, shapes: seq<Shape>, i: nat)
    requires |shapes| == |rows| && i < |rows|
  {
    Encompassed(shapes[i]) || Cascaded(rows, shapes, i)
  }

  ghost predicate Cascaded(rows: seq<Reach>, shapes: seq<Shape>, i: nat)
    requires |shapes| == |rows| && i < |rows|
  {
    exists f :: 0 <= f < |rows| && (Encompassed(shapes[f]) || Trims(shapes[f])) && StrictlyDownstream(Topology(rows), f, i)
  }

  ghost function Survives(rows: seq<Reach>, shapes: seq<Shape>): (keep: seq<bool>)
    requires |shapes| == |rows|
    ensures |keep| == |rows| && forall i :: 0 <= i < |rows| ==> (keep[i] <==> !Dropped(rows, shapes, i))
  {
    seq(|rows|, i requires 0 <= i < |rows| => !Dropped(rows, shapes, i))
  }

  /** A trimmed survivor ends at the coast. */
  function AtCoast(r: Reach, shape: Shape): Reach {
    if Trims(shape) then Terminated(Trimmed(r, shape)) else r
  }

  ghost function Survivors(rows: seq<Reach>, shapes: seq<Shape>): seq<Reach>
    requires |shapes| == |rows|
  {
    Select(seq(|rows|, i requires 0 <= i < |rows| => AtCoast(rows[i], shapes[i])), Survives(rows, shapes))
  }

  /** A survivor left pointing at a dropped reach is stranded: made terminal where it stands. */
  ghost predicate Stranded(kept: seq<Reach>, r: Reach) {
    r.to.Some? && r.to.value !in Ids(kept)
  }

  ghost function AfterCoast(rows: seq<Reach>, shapes: seq<Shape>): (out: seq<Reach>)
    requires |shapes| == |rows|
    ensures |out| == |Survivors(rows, shapes)|
  {
    var kept := Survivors(rows, shapes);
    seq(|kept|, k requires 0 <= k < |kept| => if Stranded(kept, kept[k]) then Terminated(kept[k]) else kept[k])
  }

  // ---------- The masks the counters count ----------

  function EncompassedMask(shapes: seq<Shape>): (mask: seq<bool>)
    ensures |mask| == |shapes| && forall i :: 0 <= i < |mask| ==> mask[i] == Encompassed(shapes[i])
  {
    seq(|shapes|, i requires 0 <= i < |shapes| => Encompassed(shapes[i]))
  }

  ghost function CascadeMask(rows: seq<Reach>, shapes: seq<Shape>): (mask: seq<bool>)
    requires |shapes| == |rows|
    ensures |mask| == |rows|
    ensures forall i :: 0 <= i < |rows| ==> (mask[i] <==> Cascaded(rows, shapes, i) && !Encompassed(shapes[i]))
  {
    seq(|rows|, i requires 0 <= i < |rows| => Cascaded(rows, shapes, i) && !Encompassed(shapes[i]))
  }

  ghost function TrimMask(rows: seq<Reach>, shapes: seq<Shape>): (mask: seq<bool>)
    requires |shapes| == |rows|
    ensures |mask| == |rows|
    ensures forall i :: 0 <= i < |rows| ==> (mask[i] <==> Trims(shapes[i]) && !Dropped(rows, shapes, i))
  {
    seq(|rows|, i requires 0 <= i < |rows| => Trims(shapes[i]) && !Dropped(rows, shapes, i))
  }

  ghost function StrandedMask(kept: seq<Reach>): (mask: seq<bool>)
    ensures |mask| == |kept| && forall k :: 0 <= k < |kept| ==> (mask[k] <==> Stranded(kept, kept[k]))
  {
    seq(|kept|, k requires 0 <= k < |kept| => Stranded(kept, kept[k]))
  }

  lemma TopologyReadsPointers(rows: seq<Reach>, now: seq<Reach>)
    requires |now| == |rows| && UniqueIds(rows)
    requires forall i :: 0 <= i < |rows| ==> now[i].id == rows[i].id && now[i].to == rows[i].to
    ensures Topology(now) == Topology(rows)
  {
    forall i | 0 <= i < |rows| ensures Topology(now)[i] == Topology(rows)[i] {
      if rows[i].to.Some? {
        var a := rows[i].to.value;
        var j, k := Locate(rows, a), Locate(now, a);
        assert j >= 0 ==> now[j].id == a;
        assert k >= 0 ==> rows[k].id == a;
      }
    }
  }

  // ---------- The pass ----------

  /** Trim every reach that begins outside and has a usable part; drop whole the ones that have none. */
  method TrimAtContact(rows: seq<Reach>, shapes: seq<Shape>) returns (now: seq<Reach>, encompassed: seq<bool>, trimmedPos: seq<nat>)
    requires |shapes| == |rows|
    ensures |now| == |rows| && forall i :: 0 <= i < |rows| ==> now[i] == Trimmed(rows[i], shapes[i])
    ensures encompassed == EncompassedMask(shapes)
    ensures trimmedPos == Positions(seq(|shapes|, i requires 0 <= i < |shapes| => Trims(shapes[i])))
  {
    now, trimmedPos := rows, [];
    encompassed := seq(|rows|, i requires 0 <= i < |rows| => shapes[i].Within? || shapes[i].BeginsInside?);
    ghost var trims := seq(|shapes|, i requires 0 <= i < |shapes| => Trims(shapes[i]));
    for p := 0 to |rows|
      invariant |now| == |encompassed| == |rows|
      invariant forall i :: 0 <= i < |rows| ==> now[i] == if i < p then Trimmed(rows[i], shapes[i]) else rows[i]
      invariant forall i :: 0 <= i < |rows| ==>
        encompassed[i] == if i < p then Encompassed(shapes[i]) else shapes[i].Within? || shapes[i].BeginsInside?
      invariant trimmedPos == Positions(trims[..p])
    {
      assert trims[..p + 1][..p] == trims[..p];
      if shapes[p].BeginsOutside? {
        if shapes[p].contact.None? {
          encompassed := encompassed[p := true]; // nothing dry left of it
        } else {
          var first := shapes[p].contact.value;
          now := now[p := now[p].(length := first.cut, trimmed := true, coastTo := first.coastId)];
          trimmedPos := trimmedPos + [p];
        }
      }
    }
    assert trims[..|rows|] == trims;
  }

  predicate Breaks(encompassed: seq<bool>, trimmedPos: seq<nat>, f: nat)
    requires f < |encompassed|
  {
    encompassed[f] || f in trimmedPos
  }

  /** Water that was stopped at a break reaches nothing below it: all of that is marked. */
  method Cascade(ds: seq<int>, encompassed: seq<bool>, trimmedPos: seq<nat>) returns (closure: seq<bool>)
    requires InBounds(ds) && |encompassed| == |ds|
    ensures |closure| == |ds|
    ensures forall i :: 0 <= i < |ds| ==>
      (closure[i] <==> exists f :: 0 <= f < |ds| && Breaks(encompassed, trimmedPos, f) && StrictlyDownstream(ds, f, i))
  {
    hide StrictlyDownstream, Breaks;
    var seeds: seq<nat> := [];
    ghost var breaks: seq<nat> := []; // the break each seed comes from
    for f := 0 to |ds|
      invariant |breaks| == |seeds|
      invariant forall s :: 0 <= s < |seeds| ==>
        breaks[s] < f && Breaks(encompassed, trimmedPos, breaks[s]) && ds[breaks[s]] == seeds[s] < |ds|
      invariant forall g: nat :: g < f && Breaks(encompassed, trimmedPos, g) && ds[g] >= 0 ==> g in breaks
    {
      if Breaks(encompassed, trimmedPos, f) && ds[f] >= 0 {
        seeds, breaks := seeds + [ds[f]], breaks + [f];
      }
    }
    closure := DownstreamClosure(ds, seeds);
    forall i | 0 <= i < |ds|
      ensures closure[i] <==> exists f :: 0 <= f < |ds| && Breaks(encompassed, trimmedPos, f) && StrictlyDownstream(ds, f, i)
    {
      if closure[i] {
        var s :| 0 <= s < |seeds| && Downstream(ds, seeds[s], i);
        StrictFromNext(ds, breaks[s], i);
      }
      if f :| 0 <= f < |ds| && Breaks(encompassed, trimmedPos, f) && StrictlyDownstream(ds, f, i) {
        StrictFromNext(ds, f, i);
        var s :| 0 <= s < |breaks| && breaks[s] == f;
      }
    }
  }

  /** Strictly downstream is downstream of the next reach. */
  lemma StrictFromNext(ds: seq<int>, f: nat, i: nat)
    requires InBounds(ds) && f < |ds| && i < |ds|
    ensures StrictlyDownstream(ds, f, i) <==> ds[f] >= 0 && Downstream(ds, ds[f], i)
  {
    if StrictlyDownstream(ds, f, i) {
      var k: nat :| k > 0 && Follow(ds, f, k) == i;
      assert Follow(ds, ds[f], k - 1) == i;
    }
    if ds[f] >= 0 && Downstream(ds, ds[f], i) {
      var k: nat :| Follow(ds, ds[f], k) == i;
      assert Follow(ds, f, k + 1) == i;
    }
  }

  lemma TrimPositions(shapes: seq<Shape>, trimmedPos: seq<nat>)
    requires trimmedPos == Positions(seq(|shapes|, i requires 0 <= i < |shapes| => Trims(shapes[i])))
    ensures forall p: nat :: p < |shapes| ==> (p in trimmedPos <==> Trims(shapes[p]))
    ensures forall k :: 0 <= k < |trimmedPos| ==> trimmedPos[k] < |shapes|
  {
    var trims := seq(|shapes|, i requires 0 <= i < |shapes| => Trims(shapes[i]));
    forall p: nat | p < |shapes| && Trims(shapes[p]) ensures p in trimmedPos {
      PositionsComplete(trims, p);
    }
  }

  /** Mark the trimmed survivors, drop what goes, and strand what is left pointing at it. */
  method MarkAndDrop(now: seq<Reach>, trimmedPos: seq<nat>, deletion: seq<bool>)
    returns (marked: seq<Reach>, surviving: seq<bool>, touched: set<Id>)
    requires |now| == |deletion| && forall k :: 0 <= k < |trimmedPos| ==> trimmedPos[k] < |now|
    requires forall j, k :: 0 <= j < k < |trimmedPos| ==> trimmedPos[j] != trimmedPos[k]
    ensures |marked| == |now| && |surviving| == |now|
    ensures forall i: nat :: i < |now| ==> surviving[i] == (i in trimmedPos && !deletion[i])
    ensures forall i :: 0 <= i < |now| ==> marked[i] == if surviving[i] then Terminated(now[i]) else now[i]
    ensures touched == set i: nat | i < |now| && surviving[i] :: now[i].id
  {
    marked, surviving, touched := now, seq(|now|, _ => false), {};
    for k := 0 to |trimmedPos|
      invariant |marked| == |surviving| == |now|
      invariant forall i: nat :: i < |now| ==> surviving[i] == (i in trimmedPos[..k] && !deletion[i])
      invariant forall i :: 0 <= i < |now| ==> marked[i] == if surviving[i] then Terminated(now[i]) else now[i]
      invariant touched == set i: nat | i < |now| && surviving[i] :: now[i].id
    {
      var p := trimmedPos[k];
      ghost var before := surviving;
      assert trimmedPos[..k + 1] == trimmedPos[..k] + [p];
      if !deletion[p] {
        marked := marked[p := marked[p].(terminal := true, reason := Some(Coast), to := None)];
        surviving := surviving[p := true];
        touched := touched + {now[p].id};
        assert forall i: nat :: i < |now| ==> (surviving[i] <==> before[i] || i == p);
      }
    }
    assert trimmedPos[..|trimmedPos|] == trimmedPos;
  }

  method Strand(kept: seq<Reach>) returns (out: seq<Reach>, stranded: seq<bool>)
    ensures |out| == |kept|
    ensures stranded == StrandedMask(kept)
    ensures forall k :: 0 <= k < |kept| ==> out[k] == if Stranded(kept, kept[k]) then Terminated(kept[k]) else kept[k]
  {
    out, stranded := kept, seq(|kept|, _ => false);
    for k := 0 to |kept|
      invariant |out| == |stranded| == |kept|
      invariant forall j :: 0 <= j < |kept| ==>
        (stranded[j] <==> j < k && Stranded(kept, kept[j]))
        && out[j] == if stranded[j] then Terminated(kept[j]) else kept[j]
    {
      if kept[k].to.Some? && Locate(kept, kept[k].to.value) < 0 {
        out := out[k := out[k].(terminal := true, reason := Some(Coast), to := None)];
        stranded := stranded[k := true];
      } else if kept[k].to.Some? {
        assert kept[Locate(kept, kept[k].to.value)] in kept;
      }
    }
  }

  /** The reaches removed: the encompassed ones, and separately those removed only by the cascade. */
  method FindDropped(rows: seq<Reach>, shapes: seq<Shape>)
    returns (now: seq<Reach>, encompassed: seq<bool>, trimmedPos: seq<nat>, cascaded: seq<bool>, deletion: seq<bool>)
    requires UniqueIds(rows) && |shapes| == |rows|
    ensures |now| == |rows| && forall i :: 0 <= i < |rows| ==> now[i] == Trimmed(rows[i], shapes[i])
    ensures encompassed == EncompassedMask(shapes) && cascaded == CascadeMask(rows, shapes)
    ensures trimmedPos == Positions(seq(|shapes|, i requires 0 <= i < |shapes| => Trims(shapes[i])))
    ensures |deletion| == |rows| && forall i :: 0 <= i < |rows| ==> (deletion[i] <==> Dropped(rows, shapes, i))
  {
    hide Cascaded, Topology, UniqueIds, Breaks;
    now, encompassed, trimmedPos := TrimAtContact(rows, shapes);
    TrimPositions(shapes, trimmedPos);
    TopologyReadsPointers(rows, now);
    var closure := Cascade(Topology(now), encompassed, trimmedPos);
    ClosureIsCascade(rows, shapes, trimmedPos, closure);
    deletion := seq(|rows|, i requires 0 <= i < |rows| => encompassed[i] || closure[i]);
    cascaded := seq(|rows|, i requires 0 <= i < |rows| => closure[i] && !encompassed[i]);
  }

  method ApplyCoastal(rows: seq<Reach>, shapes: seq<Shape>, counters: NetworkCounters)
    returns (out: seq<Reach>, touched: set<Id>)
    requires UniqueIds(rows) && |shapes| == |rows|
    modifies counters`encompassedCoastal, counters`coastalCascade, counters`trimmedCoastal, counters`strandedCoastal
    ensures out == AfterCoast(rows, shapes)
    ensures counters.encompassedCoastal == Some(Count(EncompassedMask(shapes)))
    ensures counters.coastalCascade == Some(Count(CascadeMask(rows, shapes)))
    ensures counters.trimmedCoastal == Some(Count(TrimMask(rows, shapes)))
    ensures counters.strandedCoastal == Some(Count(StrandedMask(Survivors(rows, shapes))))
    ensures touched == set i: nat | i < |rows| && TrimMask(rows, shapes)[i] :: rows[i].id
  {
    hide Dropped, UniqueIds, Survivors, Count, Trims;
    var now, encompassed, trimmedPos, cascaded, deletion := FindDropped(rows, shapes);
    TrimPositions(shapes, trimmedPos);
    counters.encompassedCoastal := Some(Count(encompassed));
    counters.coastalCascade := Some(Count(cascaded));

    var marked, surviving, ids := MarkAndDrop(now, trimmedPos, deletion);
    assert surviving == TrimMask(rows, shapes);
    counters.trimmedCoastal := Some(Count(surviving));
    touched := ids;

    assert Not(deletion) == Survives(rows, shapes);
    SelectedSurvivors(rows, shapes, marked);
    var stranded: seq<bool>;
    out, stranded := Strand(Select(marked, Not(deletion)));
    counters.strandedCoastal := Some(Count(stranded));
    assert out == AfterCoast(rows, shapes);
  }

  lemma ClosureIsCascade(rows: seq<Reach>, shapes: seq<Shape>, trimmedPos: seq<nat>, closure: seq<bool>)
    requires |shapes| == |rows| && |closure| == |rows|
    requires forall p: nat :: p < |shapes| ==> (p in trimmedPos <==> Trims(shapes[p]))
    requires forall i :: 0 <= i < |rows| ==>
      (closure[i] <==>
        exists f :: 0 <= f < |rows| && Breaks(EncompassedMask(shapes), trimmedPos, f) && StrictlyDownstream(Topology(rows), f, i))
    ensures forall i: nat :: i < |rows| ==> (closure[i] <==> Cascaded(rows, shapes, i))
  {
    hide Topology, StrictlyDownstream;
  }

  lemma SelectedSurvivors(rows: seq<Reach>, shapes: seq<Shape>, marked: seq<Reach>)
    requires |shapes| == |rows| == |marked|
    requires forall i :: 0 <= i < |rows| ==>
      marked[i] == if TrimMask(rows, shapes)[i] then Terminated(Trimmed(rows[i], shapes[i])) else Trimmed(rows[i], shapes[i])
    ensures Select(marked, Survives(rows, shapes)) == Survivors(rows, shapes)
  {
    var keep := Survives(rows, shapes);
    var ps := Positions(keep);
    forall k | 0 <= k < |ps| ensures marked[ps[k]] == AtCoast(rows[ps[k]], shapes[ps[k]]) {
      assert keep[ps[k]];
    }
  }

  // ---------- What the pass guarantees ----------

  /** A row of the result: which survivor it is, and what became of its pointer. */
  lemma SurvivorRow(rows: seq<Reach>, shapes: seq<Shape>, k: nat)
    requires |shapes| == |rows| && k < |AfterCoast(rows, shapes)|
    ensures |AfterCoast(rows, shapes)| == |Positions(Survives(rows, shapes))|
    ensures
      var i := Positions(Survives(rows, shapes))[k];
      var r := AfterCoast(rows, shapes)[k];
      && i < |rows| && !Dropped(rows, shapes, i)
      && r.id == rows[i].id
      && Survivors(rows, shapes)[k] == AtCoast(rows[i], shapes[i])
      && (r == AtCoast(rows[i], shapes[i]) || r == Terminated(AtCoast(rows[i], shapes[i])))
  {}

  /** Survivors are exact: the rows kept are those neither encompassed nor strictly downstream of a break. */
  lemma {:induction false} SurvivorsAreExact(rows: seq<Reach>, shapes: seq<Shape>)
    requires |shapes| == |rows|
    ensures Ids(AfterCoast(rows, shapes)) == set i: nat | i < |rows| && !Dropped(rows, shapes, i) :: rows[i].id
  {
    var out, keep := AfterCoast(rows, shapes), Survives(rows, shapes);
    forall a | a in Ids(out) ensures exists i: nat :: i < |rows| && !Dropped(rows, shapes, i) && rows[i].id == a {
      var r :| r in out && r.id == a;
      var k :| 0 <= k < |out| && out[k] == r;
      SurvivorRow(rows, shapes, k);
    }
    forall i: nat | i < |rows| && !Dropped(rows, shapes, i) ensures rows[i].id in Ids(out) {
      PositionsComplete(keep, i);
      var k :| 0 <= k < |Positions(keep)| && Positions(keep)[k] == i;
      SurvivorRow(rows, shapes, k);
      assert out[k] in out;
    }
  }

  lemma SameIds(rows: seq<Reach>, shapes: seq<Shape>)
    requires |shapes| == |rows|
    ensures Ids(AfterCoast(rows, shapes)) == Ids(Survivors(rows, shapes))
  {
    var out, kept := AfterCoast(rows, shapes), Survivors(rows, shapes);
    assert forall k :: 0 <= k < |out| ==> out[k].id == kept[k].id;
    assert forall k :: 0 <= k < |out| ==> out[k] in out && kept[k] in kept;
  }

  lemma CoastKeepsIdsApart(rows: seq<Reach>, shapes: seq<Shape>)
    requires |shapes| == |rows| && PrefixFree(rows)
    ensures PrefixFree(AfterCoast(rows, shapes))
  {
    hide PrefixFree, AfterCoast, Survivors, Dropped;
    var out, at := AfterCoast(rows, shapes), Positions(Survives(rows, shapes));
    NothingDangles(rows, shapes);
    forall k | 0 <= k < |out| ensures at[k] < |rows| && out[k].id == rows[at[k]].id {
      SurvivorRow(rows, shapes, k);
    }
    PickedPrefixFree(rows, out, at);
  }

  /** Whatever pointers came in, none dangles; flags, unique ids and acyclicity are kept. */
  lemma {:induction false} CoastKeepsSound(rows: seq<Reach>, shapes: seq<Shape>)
    requires |shapes| == |rows| && PrefixFree(rows) && AllCoherent(rows) && Acyclic(rows)
    ensures Sound(AfterCoast(rows, shapes))
  {
    hide PrefixFree, Acyclic, AfterCoast, Survivors, Dropped;
    var out, at := AfterCoast(rows, shapes), Positions(Survives(rows, shapes));
    NothingDangles(rows, shapes);
    forall k | 0 <= k < |out| ensures at[k] < |rows| && PickedRow(rows[at[k]], out[k]) {
      SurvivorRow(rows, shapes, k);
      assert rows[at[k]] in rows;
    }
    PickedSound(rows, out, at);
  }

  /** The stranded sweep leaves every pointer on a row that is still there. */
  lemma {:induction false} NothingDangles(rows: seq<Reach>, shapes: seq<Shape>)
    requires |shapes| == |rows|
    ensures NoDangling(AfterCoast(rows, shapes))
    ensures |AfterCoast(rows, shapes)| == |Positions(Survives(rows, shapes))|
  {
    hide Dropped;
    var out, kept := AfterCoast(rows, shapes), Survivors(rows, shapes);
    SameIds(rows, shapes);
    forall r | r in out && r.to.Some? ensures r.to.value in Ids(out) {
      var k :| 0 <= k < |out| && out[k] == r;
      assert !Stranded(kept, kept[k]);
    }
  }

  /** Every row lost is counted once: as encompassed, or as cascade. */
  lemma {:induction false} CoastAccounts(rows: seq<Reach>, shapes: seq<Shape>)
    requires |shapes| == |rows|
    ensures |AfterCoast(rows, shapes)|
         == |rows| - Count(EncompassedMask(shapes)) - Count(CascadeMask(rows, shapes))
  {
    var keep, enc, cas := Survives(rows, shapes), EncompassedMask(shapes), CascadeMask(rows, shapes);
    PositionsCount(keep);
    DisjointCount(enc, cas, Not(keep));
  }

  lemma {:induction false} DisjointCount(a: seq<bool>, b: seq<bool>, either: seq<bool>)
    requires |a| == |b| == |either|
    requires forall i :: 0 <= i < |a| ==> !(a[i] && b[i]) && (either[i] <==> a[i] || b[i])
    ensures Count(either) == Count(a) + Count(b)
  {
    if a != [] {
      var n := |a| - 1;
      DisjointCount(a[..n], b[..n], either[..n]);
    }
  }
}
