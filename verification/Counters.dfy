/** Per-branch counters of a network run, and the validators its manifest must pass. */
module Counters {
  import opened Wrappers

  /** What a run reports; a counter nobody filled in is absent. */
  datatype Properties = Properties(
    input: Option<nat>,
    belowStreamOrder: Option<nat>,
    encompassedLake: Option<nat>,
    encompassedCoastal: Option<nat>,
    trimmedInletLake: Option<nat>,
    trimmedOutletLake: Option<nat>,
    trimmedCoastal: Option<nat>,
    coastalCascade: Option<nat>,
    strandedCoastal: Option<nat>,
    splitPassthroughLake: Option<nat>,
    trimmedBetweenLakes: Option<nat>,
    orphanedLake: Option<nat>,
    merged: Option<nat>,
    output: Option<nat>,
    headwaters: Option<nat>,
    terminals: Option<nat>
  )

  /** The counters as the passes fill them in. */
  class NetworkCounters {
    var input: Option<nat>
    var belowStreamOrder: Option<nat>
    var encompassedLake: Option<nat>
    var encompassedCoastal: Option<nat>
    var trimmedInletLake: Option<nat>
    var trimmedOutletLake: Option<nat>
    var trimmedCoastal: Option<nat>
    var coastalCascade: Option<nat>
    var strandedCoastal: Option<nat>
    var splitPassthroughLake: Option<nat>
    var trimmedBetweenLakes: Option<nat>
    var orphanedLake: Option<nat>
    var merged: Option<nat>
    var output: Option<nat>
    var headwaters: Option<nat>
    var terminals: Option<nat>

    constructor ()
      ensures Recorded() == Properties(None, None, None, None, None, None, None, None, None, None, None, None, None, None, None, None)
    {
      input, belowStreamOrder, encompassedLake, encompassedCoastal := None, None, None, None;
      trimmedInletLake, trimmedOutletLake, trimmedCoastal, coastalCascade := None, None, None, None;
      strandedCoastal, splitPassthroughLake, trimmedBetweenLakes, orphanedLake := None, None, None, None;
      merged, output, headwaters, terminals := None, None, None, None;
    }

    function Recorded(): Properties
      reads this
    {
      Properties(input, belowStreamOrder, encompassedLake, encompassedCoastal, trimmedInletLake, trimmedOutletLake,
                 trimmedCoastal, coastalCascade, strandedCoastal, splitPassthroughLake, trimmedBetweenLakes,
                 orphanedLake, merged, output, headwaters, terminals)
    }
  }

  // ---------- The validators ----------

  predicate AllOrNothing(values: seq<Option<nat>>) {
    (forall i :: 0 <= i < |values| ==> values[i].None?) || (forall i :: 0 <= i < |values| ==> values[i].Some?)
  }

  /** The lake counters agree on whether there was a lake pass, and the coastal ones on a coastal pass. */
  predicate SkippedStepsAreAllOrNothing(p: Properties) {
    && AllOrNothing([p.encompassedLake, p.trimmedInletLake, p.trimmedOutletLake,
                     p.splitPassthroughLake, p.trimmedBetweenLakes, p.orphanedLake])
    && AllOrNothing([p.encompassedCoastal, p.trimmedCoastal, p.coastalCascade, p.strandedCoastal])
  }

  function Sum(values: seq<Option<nat>>): nat {
    if values == [] then 0 else (if values[0].Some? then values[0].value else 0) + Sum(values[1..])
  }

  /** Output balances input, less what was removed, plus what was split off; absent counters weigh nothing. */
  predicate CountersReconcile(p: Properties) {
    p.input.None? || p.output.None? ||
    p.output.value == p.input.value
      - Sum([p.belowStreamOrder, p.encompassedLake, p.encompassedCoastal, p.coastalCascade, p.orphanedLake, p.merged])
      + Sum([p.splitPassthroughLake])
  }

  /** A step is skipped consistently: its dataset, its hash, its asset and its counters go together. */
  predicate SkipCoherence(lakesGiven: bool, coastalGiven: bool, lakesHash: bool, coastalHash: bool, lakesAsset: bool, p: Properties) {
    && lakesHash == lakesGiven
    && lakesAsset == lakesGiven
    && p.encompassedLake.Some? == lakesGiven
    && coastalHash == coastalGiven
    && p.encompassedCoastal.Some? == coastalGiven
  }

  function OrZero(n: Option<nat>): nat {
    if n.Some? then n.value else 0
  }

  /** The validators, spelled out. A manifest is refused when some counters of a pass are there and others not, or when the rows
      written and removed are not the rows read and split off. */
  lemma ValidatorsRead(p: Properties)
    ensures SkippedStepsAreAllOrNothing(p) <==>
      && p.encompassedLake.Some? == p.trimmedInletLake.Some? == p.trimmedOutletLake.Some? == p.splitPassthroughLake.Some?
         == p.trimmedBetweenLakes.Some? == p.orphanedLake.Some?
      && p.encompassedCoastal.Some? == p.trimmedCoastal.Some? == p.coastalCascade.Some? == p.strandedCoastal.Some?
    ensures p.input.Some? && p.output.Some? ==>
      (CountersReconcile(p) <==>
        p.output.value + OrZero(p.belowStreamOrder) + OrZero(p.encompassedLake) + OrZero(p.encompassedCoastal)
          + OrZero(p.coastalCascade) + OrZero(p.orphanedLake) + OrZero(p.merged)
        == p.input.value + OrZero(p.splitPassthroughLake))
  {
    SixAlike(p.encompassedLake, p.trimmedInletLake, p.trimmedOutletLake,
             p.splitPassthroughLake, p.trimmedBetweenLakes, p.orphanedLake);
    FourAlike(p.encompassedCoastal, p.trimmedCoastal, p.coastalCascade, p.strandedCoastal);
    SumOfSix(p.belowStreamOrder, p.encompassedLake, p.encompassedCoastal, p.coastalCascade, p.orphanedLake, p.merged);
    SumOfOne(p.splitPassthroughLake);
    hide AllOrNothing, Sum;
  }

  lemma SixAlike(a: Option<nat>, b: Option<nat>, c: Option<nat>, d: Option<nat>, e: Option<nat>, f: Option<nat>)
    ensures AllOrNothing([a, b, c, d, e, f]) <==> a.Some? == b.Some? == c.Some? == d.Some? == e.Some? == f.Some?
  {
    var v := [a, b, c, d, e, f];
    assert v[0] == a && v[1] == b && v[2] == c && v[3] == d && v[4] == e && v[5] == f;
  }

  lemma FourAlike(a: Option<nat>, b: Option<nat>, c: Option<nat>, d: Option<nat>)
    ensures AllOrNothing([a, b, c, d]) <==> a.Some? == b.Some? == c.Some? == d.Some?
  {
    var v := [a, b, c, d];
    assert v[0] == a && v[1] == b && v[2] == c && v[3] == d;
  }

  lemma SumFirst(first: Option<nat>, rest: seq<Option<nat>>)
    ensures Sum([first] + rest) == OrZero(first) + Sum(rest)
  {
    assert ([first] + rest)[1..] == rest;
  }

  lemma NothingSums()
    ensures Sum([]) == 0
  {}

  lemma SumOfSix(a: Option<nat>, b: Option<nat>, c: Option<nat>, d: Option<nat>, e: Option<nat>, f: Option<nat>)
    ensures Sum([a, b, c, d, e, f]) == OrZero(a) + OrZero(b) + OrZero(c) + OrZero(d) + OrZero(e) + OrZero(f)
  {
    hide OrZero, Sum;
    assert [a, b, c, d, e, f] == [a] + ([b] + ([c] + ([d] + ([e] + ([f] + [])))));
    NothingSums();
    SumFirst(f, []);
    SumFirst(e, [f] + []);
    SumFirst(d, [e] + ([f] + []));
    SumFirst(c, [d] + ([e] + ([f] + [])));
    SumFirst(b, [c] + ([d] + ([e] + ([f] + []))));
    SumFirst(a, [b] + ([c] + ([d] + ([e] + ([f] + [])))));
  }

  lemma SumOfOne(a: Option<nat>)
    ensures Sum([a]) == OrZero(a)
  {
    SumFirst(a, []);
    NothingSums();
    assert [a] + [] == [a];
  }
}
