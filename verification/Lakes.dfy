/** The lake pass: encompassed, inlet, outlet, between two lakes, pass-through split, orphan sweep. */
module Lakes {
  import opened Wrappers
  import opened Reaches
  import opened Counters

  /** How a reach's geometry meets the lakes: the polygons holding its two ends, the crossing distances along it
      in ascending order, and the first polygon it crosses. */
  datatype Meeting = Clear | Within | Crosses(up: Option<nat>, dn: Option<nat>, cuts: seq<real>, first: nat)

  ghost predicate WellClassified(rows: seq<Reach>, meetings: seq<Meeting>, lakes: seq<Option<string>>) {
    && |meetings| == |rows|
    && forall i :: 0 <= i < |rows| && meetings[i].Crosses? ==> InLayer(meetings[i], |lakes|)
  }

  predicate InLayer(m: Meeting, n: nat)
    requires m.Crosses?
  {
    (m.up.Some? ==> m.up.value < n) && (m.dn.Some? ==> m.dn.value < n) && m.first < n
  }

  /** What a reach turns out to be. */
  datatype Kind = Plain | Swallowed | Enters | Leaves | Between | Through

  function Inside(cuts: seq<real>, length: real): seq<real> {
    if cuts == [] then []
    else if 0.0 < cuts[0] < length then [cuts[0]] + Inside(cuts[1..], length)
    else Inside(cuts[1..], length)
  }

  /** Polygons belong to one lake when their ids say so; without an id a polygon stands alone. */
  predicate SameLake(lakes: seq<Option<string>>, a: nat, b: nat)
    requires a < |lakes| && b < |lakes|
  {
    a == b || (lakes[a].Some? && lakes[a] == lakes[b])
  }

  function KindOf(r: Reach, m: Meeting, lakes: seq<Option<string>>): Kind
    requires m.Crosses? ==> InLayer(m, |lakes|)
  {
    match m
    case Clear => Plain
    case Within => Swallowed
    case Crosses(Some(up), Some(dn), cuts, _) =>
      if SameLake(lakes, up, dn) || |Inside(cuts, r.length)| < 2 then Swallowed else Between
    case Crosses(None, Some(dn), cuts, _) =>
      if cuts == [] || cuts[0] <= 0.0 || cuts[0] >= r.length then Swallowed else Enters
    case Crosses(Some(up), None, cuts, _) =>
      if cuts == [] || cuts[|cuts| - 1] <= 0.0 || cuts[|cuts| - 1] >= r.length then Swallowed else Leaves
    case Crosses(None, None, cuts, _) =>
      if |Inside(cuts, r.length)| < 2 then Plain else Through
  }

  /** The row that stays in place: trimmed to its dry part, or the piece above the lake. */
  function Shaped(r: Reach, m: Meeting, lakes: seq<Option<string>>): Reach
    requires m.Crosses? ==> InLayer(m, |lakes|)
  {
    match KindOf(r, m, lakes)
    case Plain => r
    case Swallowed => r
    case Enters =>
      r.(length := m.cuts[0], lakeInlet := true, terminal := true, reason := Some(Lake), to := None,
         trimmed := true, lakeTo := lakes[m.dn.value])
    case Leaves =>
      r.(length := r.length - m.cuts[|m.cuts| - 1], lakeOutlet := true, headwater := true, trimmed := true,
         lakeTo := lakes[m.up.value])
    case Between =>
      var inner := Inside(m.cuts, r.length);
      r.(length := inner[|inner| - 1] - inner[0], lakeOutlet := true, lakeInlet := true, headwater := true,
         terminal := true, reason := Some(Lake), to := None, trimmed := true, lakeTo := lakes[m.dn.value])
    case Through =>
      r.(id := r.id + [1], length := Inside(m.cuts, r.length)[0], lakeInlet := true, terminal := true,
         reason := Some(Lake), to := None, trimmed := true, lakeTo := lakes[m.first])
  }

  /** The new row below the lake, which keeps the downstream pointer. */
  function Below(r: Reach, m: Meeting, lakes: seq<Option<string>>): Reach
    requires m.Crosses? ==> InLayer(m, |lakes|)
  {
    if KindOf(r, m, lakes) != Through then r
    else
      var inner := Inside(m.cuts, r.length);
      r.(id := r.id + [2], length := r.length - inner[|inner| - 1], lakeOutlet := true, lakeInlet := false,
         headwater := true, trimmed := true, lakeTo := lakes[m.first])
  }

  // ---------- The network after the pass ----------

  function KindMask(rows: seq<Reach>, meetings: seq<Meeting>, lakes: seq<Option<string>>, kind: Kind): (mask: seq<bool>)
    requires WellClassified(rows, meetings, lakes)
    ensures |mask| == |rows|
    ensures forall i :: 0 <= i < |rows| ==> (mask[i] <==> KindOf(rows[i], meetings[i], lakes) == kind)
  {
    seq(|rows|, i requires 0 <= i < |rows| => KindOf(rows[i], meetings[i], lakes) == kind)
  }

  function ShapedRows(rows: seq<Reach>, meetings: seq<Meeting>, lakes: seq<Option<string>>): (out: seq<Reach>)
    requires WellClassified(rows, meetings, lakes)
    ensures |out| == |rows| && forall i :: 0 <= i < |rows| ==> out[i] == Shaped(rows[i], meetings[i], lakes)
  {
    seq(|rows|, i requires 0 <= i < |rows| => Shaped(rows[i], meetings[i], lakes))
  }

  function BelowRows(rows: seq<Reach>, meetings: seq<Meeting>, lakes: seq<Option<string>>): (out: seq<Reach>)
    requires WellClassified(rows, meetings, lakes)
    ensures |out| == |rows| && forall i :: 0 <= i < |rows| ==> out[i] == Below(rows[i], meetings[i], lakes)
  {
    seq(|rows|, i requires 0 <= i < |rows| => Below(rows[i], meetings[i], lakes))
  }

  /** The split reaches, each with the id of its upstream piece. */
  ghost predicate Splits(rows: seq<Reach>, meetings: seq<Meeting>, lakes: seq<Option<string>>, remap: map<Id, Id>)
    requires WellClassified(rows, meetings, lakes)
  {
    && (forall i :: 0 <= i < |rows| && KindOf(rows[i], meetings[i], lakes) == Through ==> rows[i].id in remap)
    && (forall a :: a in remap ==> remap[a] == a + [1] && SplitAt(rows, meetings, lakes, a))
  }

  ghost predicate SplitAt(rows: seq<Reach>, meetings: seq<Meeting>, lakes: seq<Option<string>>, a: Id)
    requires WellClassified(rows, meetings, lakes)
  {
    exists i :: 0 <= i < |rows| && KindOf(rows[i], meetings[i], lakes) == Through && rows[i].id == a
  }

  /** The ids retired by a split, each with the id of its upstream piece. */
  function SplitMap(rows: seq<Reach>, meetings: seq<Meeting>, lakes: seq<Option<string>>): (remap: map<Id, Id>)
    requires WellClassified(rows, meetings, lakes)
  {
    var retired := set i | 0 <= i < |rows| && KindOf(rows[i], meetings[i], lakes) == Through :: rows[i].id;
    map a | a in retired :: a + [1]
  }

  /** Rows standing once lakes are cut out and pointers at split reaches are moved to the upstream piece. */
  function Standing(rows: seq<Reach>, meetings: seq<Meeting>, lakes: seq<Option<string>>): seq<Reach>
    requires WellClassified(rows, meetings, lakes)
  {
    RemapAll(SplitMap(rows, meetings, lakes),
      Select(ShapedRows(rows, meetings, lakes), Not(KindMask(rows, meetings, lakes, Swallowed)))
      + Select(BelowRows(rows, meetings, lakes), KindMask(rows, meetings, lakes, Through)))
  }

  /** Nothing upstream, nothing downstream, and it had something upstream once. */
  ghost predicate Orphan(standing: seq<Reach>, r: Reach) {
    r.to.None? && !r.headwater && forall s :: s in standing ==> s.to != Some(r.id)
  }

  ghost function OrphanMask(standing: seq<Reach>): (mask: seq<bool>)
    ensures |mask| == |standing| && forall k :: 0 <= k < |standing| ==> (mask[k] <==> Orphan(standing, standing[k]))
  {
    seq(|standing|, k requires 0 <= k < |standing| => Orphan(standing, standing[k]))
  }

  ghost function Swept(standing: seq<Reach>): seq<Reach> {
    Select(standing, Not(OrphanMask(standing)))
  }

  // ---------- The pass ----------

  /** One reach, case by case: both ends inside, downstream end inside, upstream end inside, passing through. */
  method CutRow(r: Reach, m: Meeting, lakes: seq<Option<string>>) returns (kind: Kind, now: Reach, below: Reach)
    requires m.Crosses? ==> InLayer(m, |lakes|)
    ensures kind == KindOf(r, m, lakes) && now == Shaped(r, m, lakes) && below == Below(r, m, lakes)
  {
    kind, now, below := if m.Within? then Swallowed else Plain, r, r;
    if m.Crosses? {
      var inner := Inside(m.cuts, r.length);
      if m.up.Some? && m.dn.Some? {
        if SameLake(lakes, m.up.value, m.dn.value) || |inner| < 2 {
          kind := Swallowed; // wet from end to end
        } else {
          kind := Between;
          now := r.(length := inner[|inner| - 1] - inner[0], lakeOutlet := true, lakeInlet := true, headwater := true,
                    terminal := true, reason := Some(Lake), to := None, trimmed := true, lakeTo := lakes[m.dn.value]);
        }
      } else if m.dn.Some? {
        if m.cuts == [] || m.cuts[0] <= 0.0 || m.cuts[0] >= r.length {
          kind := Swallowed;
        } else {
          kind := Enters;
          now := r.(length := m.cuts[0], lakeInlet := true, terminal := true, reason := Some(Lake), to := None,
                    trimmed := true, lakeTo := lakes[m.dn.value]);
        }
      } else if m.up.Some? {
        var last := |m.cuts| - 1;
        if m.cuts == [] || m.cuts[last] <= 0.0 || m.cuts[last] >= r.length {
          kind := Swallowed;
        } else {
          kind := Leaves;
          now := r.(length := r.length - m.cuts[last], lakeOutlet := true, headwater := true, trimmed := true,
                    lakeTo := lakes[m.up.value]);
        }
      } else if |inner| >= 2 {
        kind := Through; // fewer crossings are a tangent contact, left untouched
        below := r.(id := r.id + [2], length := r.length - inner[|inner| - 1], lakeOutlet := true, lakeInlet := false,
                    headwater := true, trimmed := true, lakeTo := lakes[m.first]);
        now := r.(id := r.id + [1], length := inner[0], lakeInlet := true, terminal := true, reason := Some(Lake),
                  to := None, trimmed := true, lakeTo := lakes[m.first]);
      }
    }
  }

  /** Cut every reach to what it turns out to be. The cases touch different rows, so their order is free. */
  method CutRows(rows: seq<Reach>, meetings: seq<Meeting>, lakes: seq<Option<string>>)
    returns (now: seq<Reach>, encompassed: seq<bool>, newRows: seq<Reach>, remap: map<Id, Id>, counts: map<Kind, nat>)
    requires WellClassified(rows, meetings, lakes)
    ensures now == ShapedRows(rows, meetings, lakes)
    ensures encompassed == KindMask(rows, meetings, lakes, Swallowed)
    ensures newRows == Select(BelowRows(rows, meetings, lakes), KindMask(rows, meetings, lakes, Through))
    ensures remap == SplitMap(rows, meetings, lakes)
    ensures forall kind :: kind in counts && counts[kind] == Count(KindMask(rows, meetings, lakes, kind))
  {
    hide KindOf, Shaped, Below, Splits, SplitMap, Count, Select, BelowRows, ShapedRows, KindMask, NoneYet;
    now, newRows, remap := rows, [], map[];
    encompassed := seq(|rows|, _ => false);
    counts := NoneYet();
    NothingCut(meetings, lakes);
    forall kind ensures kind in counts && counts[kind] == 0 {
      NoneYetAtAll(kind);
    }
    assert rows[..0] == [] && meetings[..0] == [];
    for p := 0 to |rows|
      invariant |now| == |rows| && |encompassed| == |rows|
      invariant forall i :: 0 <= i < p ==> now[i] == Shaped(rows[i], meetings[i], lakes)
      invariant forall i :: 0 <= i < p ==> encompassed[i] == (KindOf(rows[i], meetings[i], lakes) == Swallowed)
      invariant forall i :: p <= i < |rows| ==> now[i] == rows[i]
      invariant newRows == Select(BelowRows(rows[..p], meetings[..p], lakes), KindMask(rows[..p], meetings[..p], lakes, Through))
      invariant Splits(rows[..p], meetings[..p], lakes, remap)
      invariant forall kind :: kind in counts && counts[kind] == Count(KindMask(rows[..p], meetings[..p], lakes, kind))
    {
      PrefixStep(rows, meetings, lakes, p);
      SplitsStep(rows, meetings, lakes, p, remap);
      var kind, cut, below := CutRow(rows[p], meetings[p], lakes);
      now := now[p := cut];
      encompassed := encompassed[p := kind == Swallowed];
      counts := counts[kind := counts[kind] + 1];
      if kind == Through {
        remap := remap[rows[p].id := rows[p].id + [1]];
        newRows := newRows + [below];
      }
    }
    assert rows[..|rows|] == rows && meetings[..|rows|] == meetings;
    SplitsIsMap(rows, meetings, lakes, remap);
  }

  lemma SplitsIsMap(rows: seq<Reach>, meetings: seq<Meeting>, lakes: seq<Option<string>>, remap: map<Id, Id>)
    requires WellClassified(rows, meetings, lakes) && Splits(rows, meetings, lakes, remap)
    ensures remap == SplitMap(rows, meetings, lakes)
  {
    hide KindOf;
  }

  function NoneYet(): map<Kind, nat> {
    map[Plain := 0, Swallowed := 0, Enters := 0, Leaves := 0, Between := 0, Through := 0]
  }

  lemma NoneYetAtAll(kind: Kind)
    ensures kind in NoneYet() && NoneYet()[kind] == 0
  {
    match kind
    case Plain =>
    case Swallowed =>
    case Enters =>
    case Leaves =>
    case Between =>
    case Through =>
  }

  lemma NothingCut(meetings: seq<Meeting>, lakes: seq<Option<string>>)
    ensures WellClassified([], [], lakes) && Splits([], [], lakes, map[])
    ensures Select(BelowRows([], [], lakes), KindMask([], [], lakes, Through)) == []
    ensures forall kind :: Count(KindMask([], [], lakes, kind)) == 0
  {}

  /** One more row, one more entry in every mask and one more piece below when it is split. */
  lemma PrefixStep(rows: seq<Reach>, meetings: seq<Meeting>, lakes: seq<Option<string>>, p: nat)
    requires WellClassified(rows, meetings, lakes) && p < |rows|
    ensures WellClassified(rows[..p + 1], meetings[..p + 1], lakes)
    ensures forall kind ::
      Count(KindMask(rows[..p + 1], meetings[..p + 1], lakes, kind))
      == Count(KindMask(rows[..p], meetings[..p], lakes, kind))
         + if KindOf(rows[p], meetings[p], lakes) == kind then 1 else 0
    ensures
      Select(BelowRows(rows[..p + 1], meetings[..p + 1], lakes), KindMask(rows[..p + 1], meetings[..p + 1], lakes, Through))
      == Select(BelowRows(rows[..p], meetings[..p], lakes), KindMask(rows[..p], meetings[..p], lakes, Through))
         + if KindOf(rows[p], meetings[p], lakes) == Through then [Below(rows[p], meetings[p], lakes)] else []
  {
    hide KindOf, Shaped, Below;
    forall kind
      ensures KindMask(rows[..p + 1], meetings[..p + 1], lakes, kind)[..p] == KindMask(rows[..p], meetings[..p], lakes, kind)
    {}
  }

  lemma SplitsStep(rows: seq<Reach>, meetings: seq<Meeting>, lakes: seq<Option<string>>, p: nat, remap: map<Id, Id>)
    requires WellClassified(rows, meetings, lakes) && p < |rows|
    requires Splits(rows[..p], meetings[..p], lakes, remap)
    ensures Splits(rows[..p + 1], meetings[..p + 1], lakes,
      if KindOf(rows[p], meetings[p], lakes) == Through then remap[rows[p].id := rows[p].id + [1]] else remap)
  {
    hide KindOf, Shaped, Below;
    var through := KindOf(rows[p], meetings[p], lakes) == Through;
    var now := if through then remap[rows[p].id := rows[p].id + [1]] else remap;
    forall a | a in now ensures now[a] == a + [1] && SplitAt(rows[..p + 1], meetings[..p + 1], lakes, a) {
      if through && a == rows[p].id {
        assert rows[..p + 1][p].id == a;
      } else {
        var i :| 0 <= i < p && KindOf(rows[..p][i], meetings[..p][i], lakes) == Through && rows[..p][i].id == a;
        assert rows[..p + 1][i] == rows[..p][i];
      }
    }
    var rows', meetings' := rows[..p + 1], meetings[..p + 1];
    forall i | 0 <= i < p + 1 && KindOf(rows'[i], meetings'[i], lakes) == Through
      ensures rows'[i].id in now
    {
      if i < p {
        assert rows[..p][i] == rows'[i] && meetings[..p][i] == meetings'[i];
      }
    }
  }

  /** Mark the rows whose both ends the lakes cut off, though water once reached them. */
  method FindOrphans(standing: seq<Reach>) returns (orphaned: seq<bool>)
    ensures orphaned == OrphanMask(standing)
  {
    orphaned := [];
    for k := 0 to |standing|
      invariant |orphaned| == k && forall j :: 0 <= j < k ==> (orphaned[j] <==> Orphan(standing, standing[j]))
    {
      var r := standing[k];
      var hasUpstream := exists s :: s in standing && s.to == Some(r.id);
      orphaned := orphaned + [!hasUpstream && r.to.None? && !r.headwater];
    }
  }

  method ApplyLakes(rows: seq<Reach>, meetings: seq<Meeting>, lakes: seq<Option<string>>, counters: NetworkCounters)
    returns (out: seq<Reach>, touched: set<Id>)
    requires WellClassified(rows, meetings, lakes)
    modifies counters`encompassedLake, counters`trimmedInletLake, counters`trimmedOutletLake,
             counters`splitPassthroughLake, counters`trimmedBetweenLakes, counters`orphanedLake
    ensures out == AfterLakes(rows, meetings, lakes)
    ensures touched == TouchedByLakes(rows, meetings, lakes)
    ensures counters.encompassedLake == Some(Count(KindMask(rows, meetings, lakes, Swallowed)))
    ensures counters.trimmedInletLake == Some(Count(KindMask(rows, meetings, lakes, Enters)))
    ensures counters.trimmedOutletLake == Some(Count(KindMask(rows, meetings, lakes, Leaves)))
    ensures counters.splitPassthroughLake == Some(Count(KindMask(rows, meetings, lakes, Through)))
    ensures counters.trimmedBetweenLakes == Some(Count(KindMask(rows, meetings, lakes, Between)))
    ensures counters.orphanedLake == Some(Count(OrphanMask(Standing(rows, meetings, lakes))))
  {
    hide KindOf, Orphan, TouchedByLakes, Count, KindMask, Standing;
    var standing, ids, counts := CutAtLakes(rows, meetings, lakes);
    touched := ids;
    counters.encompassedLake := Some(counts[Swallowed]);
    counters.trimmedInletLake := Some(counts[Enters]);
    counters.trimmedOutletLake := Some(counts[Leaves]);
    counters.splitPassthroughLake := Some(counts[Through]);
    counters.trimmedBetweenLakes := Some(counts[Between]);
    var orphaned := FindOrphans(standing);
    counters.orphanedLake := Some(Count(orphaned));
    out := Select(standing, Not(orphaned));
  }

  /** Cut the rows, append the pieces below lakes, and let tributaries follow a retired id to its upstream piece. */
  method CutAtLakes(rows: seq<Reach>, meetings: seq<Meeting>, lakes: seq<Option<string>>)
    returns (standing: seq<Reach>, touched: set<Id>, counts: map<Kind, nat>)
    requires WellClassified(rows, meetings, lakes)
    ensures standing == Standing(rows, meetings, lakes)
    ensures touched == TouchedByLakes(rows, meetings, lakes)
    ensures forall kind :: kind in counts && counts[kind] == Count(KindMask(rows, meetings, lakes, kind))
  {
    hide KindOf, Shaped, Below, TouchedByLakes, SplitMap, Select, Count, KindMask;
    var now, encompassed, newRows, splitRemap, numbers := CutRows(rows, meetings, lakes);
    counts := numbers;
    TouchedRight(rows, meetings, lakes, now, newRows);
    touched := (set i | 0 <= i < |rows| && meetings[i] != Clear :: now[i].id) + (set r | r in newRows :: r.id);
    standing := RemapAll(splitRemap, Select(now, Not(encompassed)) + newRows);
  }

  ghost function AfterLakes(rows: seq<Reach>, meetings: seq<Meeting>, lakes: seq<Option<string>>): seq<Reach>
    requires WellClassified(rows, meetings, lakes)
  {
    Swept(Standing(rows, meetings, lakes))
  }

  /** Ids of reaches a lake touched, as they are after the cut, and of the pieces below. */
  function TouchedByLakes(rows: seq<Reach>, meetings: seq<Meeting>, lakes: seq<Option<string>>): set<Id>
    requires WellClassified(rows, meetings, lakes)
  {
    (set i | 0 <= i < |rows| && meetings[i] != Clear :: Shaped(rows[i], meetings[i], lakes).id)
    + (set i | 0 <= i < |rows| && KindOf(rows[i], meetings[i], lakes) == Through :: Below(rows[i], meetings[i], lakes).id)
  }

  lemma TouchedRight(rows: seq<Reach>, meetings: seq<Meeting>, lakes: seq<Option<string>>, now: seq<Reach>, newRows: seq<Reach>)
    requires WellClassified(rows, meetings, lakes) && now == ShapedRows(rows, meetings, lakes)
    requires newRows == Select(BelowRows(rows, meetings, lakes), KindMask(rows, meetings, lakes, Through))
    ensures TouchedByLakes(rows, meetings, lakes)
      == (set i | 0 <= i < |rows| && meetings[i] != Clear :: now[i].id) + (set r | r in newRows :: r.id)
  {
    hide KindOf, Shaped, Below;
    NewRowIds(rows, meetings, lakes, newRows);
    assert (set i | 0 <= i < |rows| && meetings[i] != Clear :: now[i].id)
        == (set i | 0 <= i < |rows| && meetings[i] != Clear :: Shaped(rows[i], meetings[i], lakes).id);
  }

  lemma NewRowIds(rows: seq<Reach>, meetings: seq<Meeting>, lakes: seq<Option<string>>, newRows: seq<Reach>)
    requires WellClassified(rows, meetings, lakes)
    requires newRows == Select(BelowRows(rows, meetings, lakes), KindMask(rows, meetings, lakes, Through))
    ensures (set r | r in newRows :: r.id) ==
      set i | 0 <= i < |rows| && KindOf(rows[i], meetings[i], lakes) == Through :: Below(rows[i], meetings[i], lakes).id
  {
    hide KindOf, Below;
    SelectMembers(BelowRows(rows, meetings, lakes), KindMask(rows, meetings, lakes, Through));
  }

  // ---------- Where each standing row came from ----------

  /** The source row of a standing row, and whether it is the piece below a lake. */
  ghost function Origin(rows: seq<Reach>, meetings: seq<Meeting>, lakes: seq<Option<string>>, k: nat): (o: (nat, bool))
    requires WellClassified(rows, meetings, lakes)
    requires k < |Positions(Not(KindMask(rows, meetings, lakes, Swallowed)))| + |Positions(KindMask(rows, meetings, lakes, Through))|
    ensures o.0 < |rows|
    ensures if o.1 then KindOf(rows[o.0], meetings[o.0], lakes) == Through
            else KindOf(rows[o.0], meetings[o.0], lakes) != Swallowed
  {
    var kept := Positions(Not(KindMask(rows, meetings, lakes, Swallowed)));
    if k < |kept| then (kept[k], false) else (Positions(KindMask(rows, meetings, lakes, Through))[k - |kept|], true)
  }

  function Piece(r: Reach, m: Meeting, lakes: seq<Option<string>>, below: bool): Reach
    requires m.Crosses? ==> InLayer(m, |lakes|)
  {
    if below then Below(r, m, lakes) else Shaped(r, m, lakes)
  }

  lemma StandingRow(rows: seq<Reach>, meetings: seq<Meeting>, lakes: seq<Option<string>>, k: nat)
    requires WellClassified(rows, meetings, lakes) && k < |Standing(rows, meetings, lakes)|
    ensures |Standing(rows, meetings, lakes)|
      == |Positions(Not(KindMask(rows, meetings, lakes, Swallowed)))| + |Positions(KindMask(rows, meetings, lakes, Through))|
    ensures
      var o := Origin(rows, meetings, lakes, k);
      Standing(rows, meetings, lakes)[k] == Remap(SplitMap(rows, meetings, lakes), Piece(rows[o.0], meetings[o.0], lakes, o.1))
  {
    hide KindOf, Shaped, Below, Remap;
  }

  lemma OriginsDiffer(rows: seq<Reach>, meetings: seq<Meeting>, lakes: seq<Option<string>>, j: nat, k: nat)
    requires WellClassified(rows, meetings, lakes)
    requires j < k < |Positions(Not(KindMask(rows, meetings, lakes, Swallowed)))| + |Positions(KindMask(rows, meetings, lakes, Through))|
    ensures Origin(rows, meetings, lakes, j) != Origin(rows, meetings, lakes, k)
  {
    hide KindOf;
  }

  /** Every piece of a reach not swallowed stands somewhere. */
  lemma PieceStands(rows: seq<Reach>, meetings: seq<Meeting>, lakes: seq<Option<string>>, i: nat, below: bool)
    requires WellClassified(rows, meetings, lakes) && i < |rows|
    requires KindOf(rows[i], meetings[i], lakes) != Swallowed
    requires below ==> KindOf(rows[i], meetings[i], lakes) == Through
    ensures Remap(SplitMap(rows, meetings, lakes), Piece(rows[i], meetings[i], lakes, below)) in Standing(rows, meetings, lakes)
  {
    hide KindOf, Shaped, Below, Remap;
    var shaped, lower := ShapedRows(rows, meetings, lakes), BelowRows(rows, meetings, lakes);
    var keep, through := Not(KindMask(rows, meetings, lakes, Swallowed)), KindMask(rows, meetings, lakes, Through);
    var standing := Select(shaped, keep) + Select(lower, through);
    SelectMembers(shaped, keep);
    SelectMembers(lower, through);
    var piece := Piece(rows[i], meetings[i], lakes, below);
    assert piece in standing;
    var k :| 0 <= k < |standing| && standing[k] == piece;
    var remap := SplitMap(rows, meetings, lakes);
    assert RemapAll(remap, standing)[k] == Remap(remap, piece);
  }

  // ---------- Ids ----------

  /** The id of a piece: its row's own, or that with a 1 or a 2 behind it when the row is split. */
  lemma PieceId(r: Reach, m: Meeting, lakes: seq<Option<string>>, below: bool)
    requires m.Crosses? ==> InLayer(m, |lakes|)
    requires below ==> KindOf(r, m, lakes) == Through
    ensures Piece(r, m, lakes, below).id
      == if KindOf(r, m, lakes) != Through then r.id else r.id + [if below then 2 else 1]
  {}

  /** Two ids that begin the same id begin one another. */
  lemma TwoPrefixes(a: Id, pieceA: Id, b: Id, pieceB: Id)
    requires a <= pieceA && b <= pieceB
    ensures pieceA <= pieceB ==> a <= b || b <= a
  {}

  /** Minted ids are always fresh: suffixing keeps the network prefix-free, at any depth. */
  lemma StandingPrefixFree(rows: seq<Reach>, meetings: seq<Meeting>, lakes: seq<Option<string>>)
    requires WellClassified(rows, meetings, lakes) && PrefixFree(rows)
    ensures PrefixFree(Standing(rows, meetings, lakes))
  {
    hide KindOf, Shaped, Below, Standing, Piece, Origin, SplitMap;
    var standing := Standing(rows, meetings, lakes);
    forall j, k | 0 <= j < |standing| && 0 <= k < |standing| && j != k ensures !(standing[j].id <= standing[k].id) {
      StandingRow(rows, meetings, lakes, j);
      StandingRow(rows, meetings, lakes, k);
      OriginsDiffer(rows, meetings, lakes, if j < k then j else k, if j < k then k else j);
      var o, q := Origin(rows, meetings, lakes, j), Origin(rows, meetings, lakes, k);
      PieceId(rows[o.0], meetings[o.0], lakes, o.1);
      PieceId(rows[q.0], meetings[q.0], lakes, q.1);
      PiecesApart(rows[o.0].id, rows[q.0].id, standing[j].id, standing[k].id);
    }
  }

  /** If one piece's id began the other's, one source id would begin the other. */
  lemma PiecesApart(a: Id, b: Id, pieceA: Id, pieceB: Id)
    requires a == b || (!(a <= b) && !(b <= a))
    requires pieceA == a || pieceA == a + [1] || pieceA == a + [2]
    requires pieceB == b || pieceB == b + [1] || pieceB == b + [2]
    requires a == b ==> (pieceA == a + [1] && pieceB == b + [2]) || (pieceA == a + [2] && pieceB == b + [1])
    ensures !(pieceA <= pieceB)
  {
    TwoPrefixes(a, pieceA, b, pieceB);
    if a == b {
      assert pieceA[|a|] != pieceB[|a|];
    }
  }
}
