/** Advancing the reference over scenarios already simulated, at no cost. */
module FreePass {
  import opened Wrappers
  import opened Readings
  import opened AcceptanceWindow

  /** Where re-judging leaves the sweep, and the references it stepped over. */
  datatype Reuse = Reuse(reference: Scenario, accepted: seq<Scenario>, position: Scenario)

  /** Every scenario is filed under its own discharge. */
  ghost predicate Keyed(done: map<int, Scenario>) {
    forall q :: q in done ==> done[q].q == q
  }

  function Above(done: map<int, Scenario>, refQ: int): set<int> {
    set q | q in done && q > refQ
  }

  /** Simulated discharges above the reference that are not rejected high against it. */
  function InReach(bands: Bands, done: map<int, Scenario>, reference: Scenario): set<int> {
    set q | q in done && q > reference.q && Judge(bands, done[q].reading, reference.reading) != RejectHigh
  }

  function Highest(s: set<int>): (m: int)
    requires s != {}
    ensures m in s && forall k :: k in s ==> k <= m
  {
    HasGreatest(s);
    var m :| m in s && forall k :: k in s ==> k <= m;
    m
  }

  lemma HasGreatest(s: set<int>)
    requires s != {}
    ensures exists m :: m in s && forall k :: k in s ==> k <= m
  {
    var x := Pick(s);
    if s == {x} {
    } else {
      HasGreatest(s - {x});
      var m :| m in s - {x} && forall k :: k in s - {x} ==> k <= m;
      assert forall k :: k in s ==> k == x || k in s - {x};
      assert if m >= x then forall k :: k in s ==> k <= m else forall k :: k in s ==> k <= x;
    }
  }

  function Preceded(accepted: seq<Scenario>, onward: Reuse): Reuse {
    onward.(accepted := accepted + onward.accepted)
  }

  /** Jump to the furthest scenario not too far, as long as it is accepted. */
  function Advance(bands: Bands, done: map<int, Scenario>, reference: Scenario): Reuse
    requires Keyed(done)
    decreases Above(done, reference.q)
  {
    var reach := InReach(bands, done, reference);
    if reach == {} then Reuse(reference, [], reference)
    else
      var q := Highest(reach);
      if Judge(bands, done[q].reading, reference.reading) == Accept then
        assert q in Above(done, reference.q) && q !in Above(done, q);
        Preceded([done[q]], Advance(bands, done, done[q]))
      else
        Reuse(reference, [], done[q])
  }

  method ReuseFinishedRuns(bands: Bands, reference: Scenario, done: map<int, Scenario>) returns (reuse: Reuse)
    requires Keyed(done)
    ensures reuse == Advance(bands, done, reference)
  {
    hide Judge, Sorted;
    var ref, accepted := reference, [];
    while true
      invariant Advance(bands, done, reference) == Preceded(accepted, Advance(bands, done, ref))
      decreases Above(done, ref.q)
    {
      var candidates := Sorted(Above(done, ref.q));
      var best: Option<Scenario> := None;
      var position := ref;
      var i := |candidates|;
      while i > 0
        invariant 0 <= i <= |candidates|
        invariant best.None? && position == ref
        invariant forall k :: i <= k < |candidates| ==> candidates[k] !in InReach(bands, done, ref)
      {
        i := i - 1;
        var q := candidates[i];
        var outcome := Judge(bands, done[q].reading, ref.reading);
        if outcome == RejectHigh {
          continue;
        }
        HighestInReach(bands, done, ref, candidates, i);
        if outcome == Accept {
          best := Some(done[q]);
        } else {
          position := done[q];
        }
        break;
      }
      if best.None? {
        if position == ref {
          NoneInReach(bands, done, ref, candidates);
        }
        return Reuse(ref, accepted, position);
      }
      assert best.value.q in Above(done, ref.q) && best.value.q !in Above(done, best.value.q);
      var onward := Advance(bands, done, best.value);
      assert accepted + ([best.value] + onward.accepted) == (accepted + [best.value]) + onward.accepted;
      accepted := accepted + [best.value];
      ref := best.value;
    }
  }

  lemma NoneInReach(bands: Bands, done: map<int, Scenario>, ref: Scenario, candidates: seq<int>)
    requires candidates == Sorted(Above(done, ref.q))
    requires forall k :: 0 <= k < |candidates| ==> candidates[k] !in InReach(bands, done, ref)
    ensures InReach(bands, done, ref) == {}
  {
    hide Judge, Sorted;
    forall q | q in Above(done, ref.q) ensures q !in InReach(bands, done, ref) {
      assert q in candidates;
    }
    assert InReach(bands, done, ref) <= Above(done, ref.q);
  }

  /** Everything above the point where the scan stopped has been rejected high. */
  lemma HighestInReach(bands: Bands, done: map<int, Scenario>, ref: Scenario, candidates: seq<int>, i: nat)
    requires candidates == Sorted(Above(done, ref.q)) && i < |candidates|
    requires forall k :: i < k < |candidates| ==> candidates[k] !in InReach(bands, done, ref)
    requires candidates[i] in InReach(bands, done, ref)
    ensures Highest(InReach(bands, done, ref)) == candidates[i]
  {
    hide Judge, Sorted, Highest;
    var h := Highest(InReach(bands, done, ref));
    assert h in Above(done, ref.q);
    assert h in candidates;
    var k :| 0 <= k < |candidates| && candidates[k] == h;
  }

  // ---------- Whatever the readings ----------

  /** Each entry is a simulated scenario above the one before it and accepted against it. */
  ghost predicate StepsAccepted(bands: Bands, done: map<int, Scenario>, start: Scenario, accepted: seq<Scenario>)
    decreases |accepted|
  {
    accepted == [] ||
    (&& accepted[0].q in done && done[accepted[0].q] == accepted[0]
     && accepted[0].q > start.q
     && Judge(bands, accepted[0].reading, start.reading) == Accept
     && StepsAccepted(bands, done, accepted[0], accepted[1..]))
  }

  /** The scenario the sweep stands on: the reference, or a run above it judged too low against it. */
  ghost predicate Stands(bands: Bands, done: map<int, Scenario>, reference: Scenario, position: Scenario) {
    position == reference ||
    (&& position.q in done && done[position.q] == position
     && position.q > reference.q
     && Judge(bands, position.reading, reference.reading) == RejectLow)
  }

  lemma {:induction false} AdvanceIsSafe(bands: Bands, done: map<int, Scenario>, start: Scenario)
    requires Keyed(done)
    ensures
      var reuse := Advance(bands, done, start);
      && StepsAccepted(bands, done, start, reuse.accepted)
      && reuse.reference == (if reuse.accepted == [] then start else reuse.accepted[|reuse.accepted| - 1])
      && Stands(bands, done, reuse.reference, reuse.position)
      && start.q <= reuse.reference.q
    decreases Above(done, start.q)
  {
    hide Judge;
    var reach := InReach(bands, done, start);
    if reach != {} {
      var q := Highest(reach);
      if Judge(bands, done[q].reading, start.reading) == Accept {
        assert q in Above(done, start.q) && q !in Above(done, q);
        AdvanceIsSafe(bands, done, done[q]);
        var reuse, onward := Advance(bands, done, start), Advance(bands, done, done[q]);
        assert reuse.accepted[1..] == onward.accepted;
      }
    }
  }

  /** Every scenario in hand above this discharge is too far from the reference. */
  ghost predicate AllHighAbove(bands: Bands, done: map<int, Scenario>, reference: Scenario, q: int) {
    forall k :: k in done && k > q ==> Judge(bands, done[k].reading, reference.reading) == RejectHigh
  }

  /** Each jump went as far as anything not too far. */
  ghost predicate JumpsFar(bands: Bands, done: map<int, Scenario>, start: Scenario, accepted: seq<Scenario>)
    decreases |accepted|
  {
    accepted == [] ||
    (AllHighAbove(bands, done, start, accepted[0].q) && JumpsFar(bands, done, accepted[0], accepted[1..]))
  }

  /** For any readings: what a jump passes over from above is too far from where it began, and so is everything above the
      position from the last reference. */
  lemma {:induction false} AdvanceGoesFar(bands: Bands, done: map<int, Scenario>, start: Scenario)
    requires Keyed(done)
    ensures
      var reuse := Advance(bands, done, start);
      && JumpsFar(bands, done, start, reuse.accepted)
      && AllHighAbove(bands, done, reuse.reference, reuse.position.q)
    decreases Above(done, start.q)
  {
    hide Judge, Highest;
    var reach := InReach(bands, done, start);
    if reach != {} {
      var q := Highest(reach);
      HighAboveReach(bands, done, start, q);
      if Judge(bands, done[q].reading, start.reading) == Accept {
        assert q in Above(done, start.q) && q !in Above(done, q);
        AdvanceGoesFar(bands, done, done[q]);
        var reuse, onward := Advance(bands, done, start), Advance(bands, done, done[q]);
        assert reuse.accepted[1..] == onward.accepted;
      }
    } else {
      forall k | k in done && k > start.q ensures Judge(bands, done[k].reading, start.reading) == RejectHigh {
        assert k !in reach;
      }
    }
  }

  lemma HighAboveReach(bands: Bands, done: map<int, Scenario>, start: Scenario, q: int)
    requires
      var reach := InReach(bands, done, start);
      q in reach && forall k :: k in reach ==> k <= q
    ensures AllHighAbove(bands, done, start, q)
  {
    hide Judge;
    forall k | k in done && k > q ensures Judge(bands, done[k].reading, start.reading) == RejectHigh {
      assert k !in InReach(bands, done, start);
    }
  }

  // ---------- With readings that rise, the scan is exhaustive ----------

  function Acceptable(bands: Bands, done: map<int, Scenario>, reference: Scenario): set<int> {
    set q | q in done && q > reference.q && Judge(bands, done[q].reading, reference.reading) == Accept
  }

  function TooLow(bands: Bands, done: map<int, Scenario>, reference: Scenario): set<int> {
    set q | q in done && q > reference.q && Judge(bands, done[q].reading, reference.reading) == RejectLow
  }

  /** The exhaustive search: judge everything, jump to the highest accepted, start over. */
  function Exhaustive(bands: Bands, done: map<int, Scenario>, reference: Scenario): Reuse
    requires Keyed(done)
    decreases Above(done, reference.q)
  {
    var best, low := Acceptable(bands, done, reference), TooLow(bands, done, reference);
    if best != {} then
      var q := Highest(best);
      assert q in Above(done, reference.q) && q !in Above(done, q);
      Preceded([done[q]], Exhaustive(bands, done, done[q]))
    else
      Reuse(reference, [], if low == {} then reference else done[Highest(low)])
  }

  /** Whatever lies above the furthest run in reach is too far, so nothing acceptable is missed. */
  lemma {:induction false} FreePassIsExhaustive(bands: Bands, done: map<int, Scenario>, start: Scenario)
    requires Keyed(done) && Rising(done)
    ensures Advance(bands, done, start) == Exhaustive(bands, done, start)
    decreases Above(done, start.q)
  {
    hide Judge;
    var best, low := Acceptable(bands, done, start), TooLow(bands, done, start);
    var reach := InReach(bands, done, start);
    assert reach == best + low;
    if reach != {} {
      var f := Highest(reach);
      if f in best {
        assert Highest(best) == f;
        assert f in Above(done, start.q) && f !in Above(done, f);
        FreePassIsExhaustive(bands, done, done[f]);
      } else {
        forall q | q in reach ensures q !in best {
          VerdictRises(bands, done[q].reading, done[f].reading, start.reading);
        }
        assert best == {} && Highest(low) == f;
      }
    }
  }

  /** On return nothing simulated above the reference is acceptable. */
  lemma {:induction false} NothingLeftToAccept(bands: Bands, done: map<int, Scenario>, start: Scenario)
    requires Keyed(done) && Rising(done)
    ensures Acceptable(bands, done, Advance(bands, done, start).reference) == {}
    decreases Above(done, start.q)
  {
    hide Judge;
    FreePassIsExhaustive(bands, done, start);
    var best := Acceptable(bands, done, start);
    if best != {} {
      var q := Highest(best);
      assert q in Above(done, start.q) && q !in Above(done, q);
      NothingLeftToAccept(bands, done, done[q]);
      FreePassIsExhaustive(bands, done, done[q]);
    }
  }
}
