/** Where a lake cuts a reach: what must be left of it, read off how it meets the lakes alone. */
module LakeCuts {
  import opened Wrappers
  import opened Reaches
  import opened Lakes
  import opened LakeProofs

  // ---------- Crossings ----------

  ghost predicate IsFirst(cuts: seq<real>, d: real) {
    d in cuts && forall c :: c in cuts ==> d <= c
  }

  ghost predicate IsLast(cuts: seq<real>, d: real) {
    d in cuts && forall c :: c in cuts ==> c <= d
  }

  /** No crossing inside the reach comes before this one. */
  ghost predicate FirstInside(cuts: seq<real>, length: real, d: real) {
    d in cuts && 0.0 < d < length && forall c :: c in cuts && 0.0 < c < length ==> d <= c
  }

  ghost predicate LastInside(cuts: seq<real>, length: real, d: real) {
    d in cuts && 0.0 < d < length && forall c :: c in cuts && 0.0 < c < length ==> c <= d
  }

  ghost predicate TwoInside(cuts: seq<real>, length: real) {
    exists c, d :: c in cuts && d in cuts && 0.0 < c < d < length
  }

  // ---------- What must be left ----------

  /** Nothing dry is left: the reach lies within a lake; or both its ends do, in one lake or without two crossings to hold a
      dry stretch between them; or, with one end in, the crossing nearest the dry end is not inside the reach. */
  ghost predicate Drowned(r: Reach, m: Meeting, lakes: seq<Option<string>>)
    requires m.Crosses? ==> InLayer(m, |lakes|)
  {
    match m
    case Clear => false
    case Within => true
    case Crosses(Some(up), Some(dn), cuts, _) =>
      up == dn || (lakes[up].Some? && lakes[up] == lakes[dn]) || !TwoInside(cuts, r.length)
    case Crosses(None, Some(_), cuts, _) => forall d :: IsFirst(cuts, d) ==> d <= 0.0 || r.length <= d
    case Crosses(Some(_), None, cuts, _) => forall d :: IsLast(cuts, d) ==> d <= 0.0 || r.length <= d
    case Crosses(None, None, _, _) => false
  }

  /** Untouched, but for where its pointer now leads. */
  ghost predicate AsItWas(r: Reach, piece: Reach) {
    piece.(to := r.to) == r
  }

  /** Dry down to `d`, where it ends in the lake. */
  ghost predicate EndsInLake(r: Reach, piece: Reach, id: Id, d: real, lake: Option<string>) {
    piece == r.(id := id, length := d, lakeInlet := true, terminal := true, reason := Some(Lake), to := None, trimmed := true,
                lakeTo := lake)
  }

  /** Dry from `d` on, where it leaves the lake. */
  ghost predicate LeavesLake(r: Reach, piece: Reach, id: Id, d: real, inlet: bool, lake: Option<string>) {
    piece.(to := r.to) ==
      r.(id := id, length := r.length - d, lakeOutlet := true, lakeInlet := inlet, headwater := true, trimmed := true, lakeTo := lake)
  }

  /** A piece of a reach that is not drowned. With one end in a lake it runs from the dry end to the nearest crossing; between
      two lakes from the first crossing inside to the last, naming the lake it flows into; a reach that passes through is left
      in two pieces, down to the first crossing inside and from the last on, unless it only touches. */
  ghost predicate LeftOf(r: Reach, m: Meeting, lakes: seq<Option<string>>, piece: Reach)
    requires m.Crosses? ==> InLayer(m, |lakes|)
  {
    match m
    case Clear => AsItWas(r, piece)
    case Within => false
    case Crosses(Some(_), Some(dn), cuts, _) =>
      exists d, e :: FirstInside(cuts, r.length, d) && LastInside(cuts, r.length, e) && d < e
        && piece == r.(length := e - d, lakeOutlet := true, lakeInlet := true, headwater := true, terminal := true,
                       reason := Some(Lake), to := None, trimmed := true, lakeTo := lakes[dn])
    case Crosses(None, Some(dn), cuts, _) =>
      exists d :: IsFirst(cuts, d) && 0.0 < d < r.length && EndsInLake(r, piece, r.id, d, lakes[dn])
    case Crosses(Some(up), None, cuts, _) =>
      exists d :: IsLast(cuts, d) && 0.0 < d < r.length && LeavesLake(r, piece, r.id, d, r.lakeInlet, lakes[up])
    case Crosses(None, None, cuts, first) =>
      if !TwoInside(cuts, r.length) then AsItWas(r, piece)
      else
        || (exists d :: FirstInside(cuts, r.length, d) && EndsInLake(r, piece, r.id + [1], d, lakes[first]))
        || (exists d :: LastInside(cuts, r.length, d) && LeavesLake(r, piece, r.id + [2], d, false, lakes[first]))
  }

  /** A reach that passes through, with two crossings inside at least. */
  ghost predicate PassesThrough(r: Reach, m: Meeting) {
    m.Crosses? && m.up.None? && m.dn.None? && TwoInside(m.cuts, r.length)
  }

  // ---------- The cuts are at those crossings ----------

  lemma {:induction false} InsideMembers(cuts: seq<real>, length: real, c: real)
    ensures c in Inside(cuts, length) <==> c in cuts && 0.0 < c < length
  {
    if cuts != [] {
      InsideMembers(cuts[1..], length, c);
      assert cuts == [cuts[0]] + cuts[1..];
    }
  }

  lemma EndsOfDistinct(cuts: seq<real>)
    requires DistinctCuts(cuts) && cuts != []
    ensures IsFirst(cuts, cuts[0]) && IsLast(cuts, cuts[|cuts| - 1])
    ensures forall d :: IsFirst(cuts, d) ==> d == cuts[0]
    ensures forall d :: IsLast(cuts, d) ==> d == cuts[|cuts| - 1]
  {}

  lemma InsideIsDistinct(cuts: seq<real>, length: real)
    requires DistinctCuts(cuts)
    ensures DistinctCuts(Inside(cuts, length))
  {
    if cuts != [] {
      InsideRises(cuts, length, cuts[0] - 1.0);
    }
  }

  lemma TwoAreInside(cuts: seq<real>, length: real, inner: seq<real>)
    requires DistinctCuts(inner) && forall c :: c in inner <==> c in cuts && 0.0 < c < length
    ensures |inner| >= 2 <==> TwoInside(cuts, length)
  {
    if |inner| >= 2 {
      assert inner[0] in inner && inner[1] in inner;
    }
    if c, d :| c in cuts && d in cuts && 0.0 < c < d < length {
      assert c in inner && d in inner;
    }
  }

  lemma EndsOfInside(cuts: seq<real>, length: real)
    requires DistinctCuts(cuts)
    ensures
      var inner := Inside(cuts, length);
      && (|inner| >= 2 <==> TwoInside(cuts, length))
      && (inner != [] ==> FirstInside(cuts, length, inner[0]) && LastInside(cuts, length, inner[|inner| - 1]))
      && (|inner| >= 2 ==> inner[0] < inner[|inner| - 1])
  {
    hide Inside, TwoInside;
    var inner := Inside(cuts, length);
    InsideIsDistinct(cuts, length);
    forall c ensures c in inner <==> c in cuts && 0.0 < c < length {
      InsideMembers(cuts, length, c);
    }
    TwoAreInside(cuts, length, inner);
    if inner != [] {
      EndsOfDistinct(inner);
    }
  }

  /** What the cases make of a reach is what its meeting says. */
  lemma KindByMeeting(r: Reach, m: Meeting, lakes: seq<Option<string>>)
    requires m.Crosses? ==> InLayer(m, |lakes|) && DistinctCuts(m.cuts)
    ensures KindOf(r, m, lakes) == Swallowed <==> Drowned(r, m, lakes)
    ensures KindOf(r, m, lakes) == Enters <==> m.Crosses? && m.up.None? && m.dn.Some? && !Drowned(r, m, lakes)
    ensures KindOf(r, m, lakes) == Leaves <==> m.Crosses? && m.up.Some? && m.dn.None? && !Drowned(r, m, lakes)
    ensures KindOf(r, m, lakes) == Between <==> m.Crosses? && m.up.Some? && m.dn.Some? && !Drowned(r, m, lakes)
    ensures KindOf(r, m, lakes) == Through <==> PassesThrough(r, m)
  {
    if m.Crosses? {
      EndsOfInside(m.cuts, r.length);
      if m.cuts != [] {
        EndsOfDistinct(m.cuts);
      }
      hide Inside, IsFirst, IsLast, FirstInside, LastInside, TwoInside, DistinctCuts;
    }
  }

  /** Each piece of a split is cut at the crossing next to it. */
  lemma SplitIsLeft(r: Reach, m: Meeting, lakes: seq<Option<string>>, below: bool)
    requires m.Crosses? && InLayer(m, |lakes|) && DistinctCuts(m.cuts) && KindOf(r, m, lakes) == Through
    ensures LeftOf(r, m, lakes, Piece(r, m, lakes, below))
  {
    var inner := Inside(m.cuts, r.length);
    EndsOfInside(m.cuts, r.length);
    hide Inside, IsFirst, IsLast, FirstInside, LastInside, TwoInside, DistinctCuts;
    if below {
      assert LeavesLake(r, Below(r, m, lakes), r.id + [2], inner[|inner| - 1], false, lakes[m.first]);
    } else {
      assert EndsInLake(r, Shaped(r, m, lakes), r.id + [1], inner[0], lakes[m.first]);
    }
  }

  lemma MiddleIsLeft(r: Reach, m: Meeting, lakes: seq<Option<string>>)
    requires m.Crosses? && InLayer(m, |lakes|) && DistinctCuts(m.cuts) && KindOf(r, m, lakes) == Between
    ensures LeftOf(r, m, lakes, Shaped(r, m, lakes))
  {
    EndsOfInside(m.cuts, r.length);
    hide Inside, IsFirst, IsLast, FirstInside, LastInside, TwoInside, DistinctCuts, EndsInLake, LeavesLake;
  }

  lemma OneEndIsLeft(r: Reach, m: Meeting, lakes: seq<Option<string>>)
    requires m.Crosses? && InLayer(m, |lakes|) && DistinctCuts(m.cuts) && KindOf(r, m, lakes) in {Enters, Leaves}
    ensures LeftOf(r, m, lakes, Shaped(r, m, lakes))
  {
    EndsOfDistinct(m.cuts);
    hide Inside, IsFirst, IsLast, FirstInside, LastInside, TwoInside, DistinctCuts;
    if m.dn.Some? {
      assert EndsInLake(r, Shaped(r, m, lakes), r.id, m.cuts[0], lakes[m.dn.value]);
    } else {
      assert LeavesLake(r, Shaped(r, m, lakes), r.id, m.cuts[|m.cuts| - 1], r.lakeInlet, lakes[m.up.value]);
    }
  }

  lemma PieceIsLeft(r: Reach, m: Meeting, lakes: seq<Option<string>>, below: bool)
    requires m.Crosses? ==> InLayer(m, |lakes|) && DistinctCuts(m.cuts)
    requires KindOf(r, m, lakes) != Swallowed && (below ==> KindOf(r, m, lakes) == Through)
    ensures LeftOf(r, m, lakes, Piece(r, m, lakes, below))
  {
    hide Inside;
    match KindOf(r, m, lakes)
    case Through => SplitIsLeft(r, m, lakes, below);
    case Between => MiddleIsLeft(r, m, lakes);
    case Enters => OneEndIsLeft(r, m, lakes);
    case Leaves => OneEndIsLeft(r, m, lakes);
    case Plain =>
      if m.Crosses? {
        EndsOfInside(m.cuts, r.length);
      }
  }

  // ---------- What stands after the cuts ----------

  ghost predicate DistinctMeetings(meetings: seq<Meeting>) {
    forall i :: 0 <= i < |meetings| && meetings[i].Crosses? ==> DistinctCuts(meetings[i].cuts)
  }

  lemma RemapMovesPointer(remap: map<Id, Id>, piece: Reach, to: Option<Id>)
    ensures Remap(remap, piece).(to := to) == piece.(to := to)
    ensures piece.to.None? ==> Remap(remap, piece) == piece
  {}

  /** Following retired ids changes nothing of a piece but where it points. */
  lemma LeftAfterRemap(r: Reach, m: Meeting, lakes: seq<Option<string>>, piece: Reach, remap: map<Id, Id>)
    requires (m.Crosses? ==> InLayer(m, |lakes|)) && LeftOf(r, m, lakes, piece)
    ensures LeftOf(r, m, lakes, Remap(remap, piece))
  {
    hide IsFirst, IsLast, FirstInside, LastInside, TwoInside, Remap;
    RemapMovesPointer(remap, piece, r.to);
  }

  /** A row that stands and carries a reach's id, or one made from it, is what must be left of that reach. */
  lemma StandingIsLeft(rows: seq<Reach>, meetings: seq<Meeting>, lakes: seq<Option<string>>, i: nat, r: Reach)
    requires WellClassified(rows, meetings, lakes) && PrefixFree(rows) && DistinctMeetings(meetings) && i < |rows|
    requires r in Standing(rows, meetings, lakes) && rows[i].id <= r.id
    ensures LeftOf(rows[i], meetings[i], lakes, r) && !Drowned(rows[i], meetings[i], lakes)
  {
    hide KindOf, Standing, Piece, SplitMap, LeftOf, Drowned, Remap, DistinctCuts;
    var j, below := StandingSource(rows, meetings, lakes, r);
    PieceId(rows[j], meetings[j], lakes, below);
    RemapKeeps(SplitMap(rows, meetings, lakes), Piece(rows[j], meetings[j], lakes, below));
    TwoPrefixes(rows[i].id, r.id, rows[j].id, r.id);
    assert i == j;
    PieceIsLeft(rows[i], meetings[i], lakes, below);
    LeftAfterRemap(rows[i], meetings[i], lakes, Piece(rows[i], meetings[i], lakes, below), SplitMap(rows, meetings, lakes));
    KindByMeeting(rows[i], meetings[i], lakes);
  }

  lemma PieceStandsUnder(rows: seq<Reach>, meetings: seq<Meeting>, lakes: seq<Option<string>>, i: nat, below: bool)
    requires WellClassified(rows, meetings, lakes) && i < |rows| && KindOf(rows[i], meetings[i], lakes) != Swallowed
    requires below ==> KindOf(rows[i], meetings[i], lakes) == Through
    ensures (if KindOf(rows[i], meetings[i], lakes) != Through then rows[i].id else rows[i].id + [if below then 2 else 1])
      in Ids(Standing(rows, meetings, lakes))
  {
    hide KindOf, Standing, Piece, SplitMap, Remap;
    var piece := Piece(rows[i], meetings[i], lakes, below);
    PieceStands(rows, meetings, lakes, i, below);
    PieceId(rows[i], meetings[i], lakes, below);
    RemapKeeps(SplitMap(rows, meetings, lakes), piece);
  }

  /** The cuts, reach by reach: nothing of a drowned one stands; both pieces of one that is passed through do; any other stands
      under its own id; and whatever stands under its id is the stretch its meeting with the lakes leaves. */
  lemma {:induction false} CutsAreRight(rows: seq<Reach>, meetings: seq<Meeting>, lakes: seq<Option<string>>, i: nat)
    requires WellClassified(rows, meetings, lakes) && PrefixFree(rows) && DistinctMeetings(meetings) && i < |rows|
    ensures
      var standing, id := Standing(rows, meetings, lakes), rows[i].id;
      && (forall r :: r in standing && id <= r.id ==> LeftOf(rows[i], meetings[i], lakes, r) && !Drowned(rows[i], meetings[i], lakes))
      && (PassesThrough(rows[i], meetings[i]) ==> id + [1] in Ids(standing) && id + [2] in Ids(standing))
      && (!PassesThrough(rows[i], meetings[i]) && !Drowned(rows[i], meetings[i], lakes) ==> id in Ids(standing))
  {
    hide KindOf, Standing, LeftOf, Drowned, PassesThrough, PrefixFree;
    var standing := Standing(rows, meetings, lakes);
    forall r | r in standing && rows[i].id <= r.id
      ensures LeftOf(rows[i], meetings[i], lakes, r) && !Drowned(rows[i], meetings[i], lakes)
    {
      StandingIsLeft(rows, meetings, lakes, i, r);
    }
    KindByMeeting(rows[i], meetings[i], lakes);
    if PassesThrough(rows[i], meetings[i]) {
      PieceStandsUnder(rows, meetings, lakes, i, false);
      PieceStandsUnder(rows, meetings, lakes, i, true);
    } else if !Drowned(rows[i], meetings[i], lakes) {
      PieceStandsUnder(rows, meetings, lakes, i, false);
    }
  }

  /** What stands is left, but for what has nothing above it, nowhere to go, and had something above it once. */
  lemma {:induction false} SweptExactly(rows: seq<Reach>, meetings: seq<Meeting>, lakes: seq<Option<string>>, r: Reach)
    requires WellClassified(rows, meetings, lakes)
    ensures
      var standing := Standing(rows, meetings, lakes);
      r in AfterLakes(rows, meetings, lakes) <==>
        r in standing && (r.to.Some? || r.headwater || exists s :: s in standing && s.to == Some(r.id))
  {
    hide Standing, Swept;
    SweptRows(Standing(rows, meetings, lakes));
  }

  // ---------- The counters ----------

  ghost function DrownedAt(rows: seq<Reach>, meetings: seq<Meeting>, lakes: seq<Option<string>>): set<nat>
    requires WellClassified(rows, meetings, lakes)
  {
    set i: nat | i < |rows| && Drowned(rows[i], meetings[i], lakes)
  }

  /** Reaches left with these of their ends in a lake. */
  ghost function LeftWith(rows: seq<Reach>, meetings: seq<Meeting>, lakes: seq<Option<string>>, up: bool, dn: bool): set<nat>
    requires WellClassified(rows, meetings, lakes)
  {
    set i: nat | i < |rows| && meetings[i].Crosses? && meetings[i].up.Some? == up && meetings[i].dn.Some? == dn
      && !Drowned(rows[i], meetings[i], lakes)
  }

  /** Each counter is the size of the set of reaches that meet the lakes so. */
  lemma {:induction false} CountersByMeeting(rows: seq<Reach>, meetings: seq<Meeting>, lakes: seq<Option<string>>)
    requires WellClassified(rows, meetings, lakes) && DistinctMeetings(meetings)
    ensures Count(KindMask(rows, meetings, lakes, Swallowed)) == |DrownedAt(rows, meetings, lakes)|
    ensures Count(KindMask(rows, meetings, lakes, Enters)) == |LeftWith(rows, meetings, lakes, false, true)|
    ensures Count(KindMask(rows, meetings, lakes, Leaves)) == |LeftWith(rows, meetings, lakes, true, false)|
    ensures Count(KindMask(rows, meetings, lakes, Between)) == |LeftWith(rows, meetings, lakes, true, true)|
    ensures Count(KindMask(rows, meetings, lakes, Through)) == |set i: nat | i < |rows| && PassesThrough(rows[i], meetings[i])|
  {
    hide KindOf, Drowned, PassesThrough, Count;
    forall i: nat | i < |rows| {
      KindByMeeting(rows[i], meetings[i], lakes);
    }
    CountIsSize(KindMask(rows, meetings, lakes, Swallowed), DrownedAt(rows, meetings, lakes));
    CountIsSize(KindMask(rows, meetings, lakes, Enters), LeftWith(rows, meetings, lakes, false, true));
    CountIsSize(KindMask(rows, meetings, lakes, Leaves), LeftWith(rows, meetings, lakes, true, false));
    CountIsSize(KindMask(rows, meetings, lakes, Between), LeftWith(rows, meetings, lakes, true, true));
    CountIsSize(KindMask(rows, meetings, lakes, Through), set i: nat | i < |rows| && PassesThrough(rows[i], meetings[i]));
  }
}
