/** The adaptive discharge sweep as a state machine over its passes. */
module Sweep {
  import opened Wrappers
  import opened Readings
  import opened FreePass
  import opened Proposals

  /** What the simulator answers at a discharge; an edge error aborts the sweep. */
  datatype Outcome = Outcome(reading: Reading, edgeError: bool)

  type Simulator = int -> Outcome

  /** One simulation, and the scenario whose depth grid seeded it. */
  datatype Run = Run(q: int, hotStart: Option<int>)

  /** The loop's variables, with the simulations and the references in the order they came. */
  datatype State = State(
    done: map<int, Scenario>,
    reference: Scenario,
    position: Scenario,
    qTrial: int,
    maxDone: bool,
    published: seq<int>,
    comparisons: seq<Comparison>,
    runs: seq<Run>,
    entries: seq<int>
  )

  datatype Pass = Running(state: State) | Completed(state: State) | Aborted(state: State)

  function Publish(published: seq<int>, q: int): seq<int> {
    if q in published then published else published + [q]
  }

  function PublishAll(published: seq<int>, accepted: seq<Scenario>): seq<int>
    decreases |accepted|
  {
    if accepted == [] then published else PublishAll(Publish(published, accepted[0].q), accepted[1..])
  }

  function Extend(entries: seq<int>, accepted: seq<Scenario>): seq<int>
    decreases |accepted|
  {
    if accepted == [] then entries else Extend(entries + [accepted[0].q], accepted[1..])
  }

  ghost predicate Filed(done: map<int, Scenario>, scenario: Scenario) {
    scenario.q in done && done[scenario.q] == scenario
  }

  ghost predicate WellFormed(s: State) {
    Keyed(s.done) && Filed(s.done, s.reference) && Filed(s.done, s.position)
  }

  // ---------- The transitions ----------

  function Start(inputs: Inputs, adopted: map<int, Scenario>, sim: Simulator): (s: State)
    requires Keyed(adopted)
    ensures WellFormed(s)
  {
    var minQ := inputs.minQ;
    var known := minQ in adopted;
    var baseline := if known then adopted[minQ] else Scenario(minQ, sim(minQ).reading);
    State(
      adopted[minQ := baseline], baseline, baseline, minQ + inputs.delta, false,
      if known then [] else [minQ],
      [Compare(inputs.bands, baseline, None)],
      if known then [] else [Run(minQ, None)],
      [minQ])
  }

  function NextTrial(inputs: Inputs, s: State): Proposal
    requires inputs.grid > 0 && WellFormed(s)
  {
    if |s.done| == 1 then Proposal(Smaller(s.qTrial, inputs.maxQ), s.qTrial >= inputs.maxQ, false)
    else Propose(inputs, s.done, s.reference.q, s.position.q)
  }

  /** A new simulation is filed and published whatever its verdict will be. */
  function Simulated(s: State, q: int, reading: Reading): (t: State)
    requires WellFormed(s) && q !in s.done
    ensures WellFormed(t)
  {
    s.(done := s.done[q := Scenario(q, reading)],
       published := Publish(s.published, q),
       runs := s.runs + [Run(q, Some(s.position.q))])
  }

  function AdvanceTo(inputs: Inputs, s: State, trial: Scenario): (t: State)
    requires WellFormed(s) && Filed(s.done, trial)
    ensures WellFormed(t)
  {
    AdvanceIsSafe(inputs.bands, s.done, trial);
    var reuse := Advance(inputs.bands, s.done, trial);
    AcceptedAreFiled(inputs.bands, s.done, trial, reuse.accepted);
    s.(published := PublishAll(Publish(s.published, trial.q), reuse.accepted),
       reference := reuse.reference,
       position := reuse.position,
       entries := Extend(s.entries + [trial.q], reuse.accepted))
  }

  /** Judge a trial already in hand and move the sweep accordingly. */
  function Settle(inputs: Inputs, s: State, p: Proposal): (pass: Pass)
    requires WellFormed(s) && p.q in s.done
    ensures WellFormed(pass.state) && !pass.Aborted?
  {
    var trial := s.done[p.q];
    var comparison := Compare(inputs.bands, trial, Some(s.reference));
    var judged := s.(qTrial := p.q, comparisons := s.comparisons + [comparison]);
    if p.atMax then
      var top := judged.(published := Publish(s.published, p.q), maxDone := true);
      if comparison.verdict != RejectHigh then Completed(top) else Running(top)
    else if comparison.verdict == Accept || (p.finest && comparison.verdict == RejectHigh) then
      Running(AdvanceTo(inputs, judged, trial))
    else if comparison.verdict == RejectLow then
      Running(judged.(position := trial))
    else
      Running(judged)
  }

  /** One pass of the loop. */
  function Step(inputs: Inputs, sim: Simulator, s: State): (pass: Pass)
    requires inputs.grid > 0 && WellFormed(s)
    ensures WellFormed(pass.state)
  {
    var p := NextTrial(inputs, s);
    if p.atMax && s.maxDone then Completed(s.(qTrial := p.q))
    else if p.q in s.done then Settle(inputs, s, p)
    else if sim(p.q).edgeError then
      Aborted(s.(qTrial := p.q, runs := s.runs + [Run(p.q, Some(s.position.q))]))
    else Settle(inputs, Simulated(s, p.q, sim(p.q).reading), p)
  }

  /** The sweep after a number of passes; an ended sweep stays as it ended. */
  function Passes(inputs: Inputs, sim: Simulator, s: State, n: nat): (pass: Pass)
    requires inputs.grid > 0 && WellFormed(s)
    ensures WellFormed(pass.state)
  {
    if n == 0 then Running(s)
    else
      var before := Passes(inputs, sim, s, n - 1);
      if before.Running? then Step(inputs, sim, before.state) else before
  }

  lemma {:induction false} AcceptedAreFiled(bands: Bands, done: map<int, Scenario>, start: Scenario, accepted: seq<Scenario>)
    requires StepsAccepted(bands, done, start, accepted)
    ensures forall i :: 0 <= i < |accepted| ==> Filed(done, accepted[i])
    decreases |accepted|
  {
    if accepted != [] {
      AcceptedAreFiled(bands, done, accepted[0], accepted[1..]);
      assert accepted == [accepted[0]] + accepted[1..];
    }
  }

  // ---------- The loop itself ----------

  method PublishEach(published: seq<int>, accepted: seq<Scenario>) returns (now: seq<int>)
    ensures now == PublishAll(published, accepted)
  {
    now := published;
    for i := 0 to |accepted|
      invariant PublishAll(published, accepted) == PublishAll(now, accepted[i..])
    {
      assert accepted[i..][1..] == accepted[i + 1..];
      var q := accepted[i].q;
      if q !in now {
        now := now + [q];
      }
    }
  }

  /** A positive grid and opening step, and a range to sweep. */
  ghost predicate Ranged(inputs: Inputs) {
    inputs.grid > 0 && inputs.delta > 0 && inputs.minQ <= inputs.maxQ
  }

  /** Adopted scenarios are filed under their discharges, inside the range. */
  ghost predicate Adoptable(inputs: Inputs, adopted: map<int, Scenario>) {
    Keyed(adopted) && forall q :: q in adopted ==> inputs.minQ <= q <= inputs.maxQ
  }

  /** The reading this reach has at a discharge: as adopted, or as the simulator answers. */
  function Response(sim: Simulator, adopted: map<int, Scenario>, q: int): Reading {
    if q in adopted then adopted[q].reading else sim(q).reading
  }

  ghost predicate RisesOver(inputs: Inputs, sim: Simulator, adopted: map<int, Scenario>, c: Criterion) {
    forall a, b :: inputs.minQ <= a <= b <= inputs.maxQ ==>
      Value(c, Response(sim, adopted, a)) <= Value(c, Response(sim, adopted, b))
  }

  ghost predicate FallsOver(inputs: Inputs, sim: Simulator, adopted: map<int, Scenario>, c: Criterion) {
    forall a, b :: inputs.minQ <= a <= b <= inputs.maxQ ==>
      Value(c, Response(sim, adopted, b)) <= Value(c, Response(sim, adopted, a))
  }

  /** Over the range each criterion goes one way, up or down, and every flood wets some ground. */
  ghost predicate Physical(inputs: Inputs, sim: Simulator, adopted: map<int, Scenario>) {
    && (forall c :: RisesOver(inputs, sim, adopted, c) || FallsOver(inputs, sim, adopted, c))
    && forall q :: inputs.minQ <= q <= inputs.maxQ ==> Response(sim, adopted, q).area > 0.0
  }
}
