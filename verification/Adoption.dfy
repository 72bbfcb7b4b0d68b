/** Which of the scenarios found in storage the sweep starts from. */
module Adoption {
  import opened Wrappers
  import opened Readings
  import opened Proposals
  import opened Sweep

  /** The reach, the model and the run a scenario belongs to. */
  datatype Library = Library(reachId: string, modelId: string, identityHash: string)

  datatype Manifest = Manifest(library: Library, q: int, reading: Reading)

  /** The stored scenario could be read, belongs to this library, lies in the range and has discharge `q`. */
  predicate Names(inputs: Inputs, ours: Library, stored: Option<Manifest>, q: int) {
    stored.Some? && stored.value.library == ours && stored.value.q == q && inputs.minQ <= q <= inputs.maxQ
  }

  /** The last of the first `n` stored scenarios that names `q` gives the reading. */
  ghost predicate TakenFrom(inputs: Inputs, ours: Library, stored: seq<Option<Manifest>>, n: nat, q: int, scenario: Scenario)
    requires n <= |stored|
  {
    exists i :: 0 <= i < n && Names(inputs, ours, stored[i], q) && scenario == Scenario(q, stored[i].value.reading)
      && forall j :: i < j < n ==> !Names(inputs, ours, stored[j], q)
  }

  method AdoptExisting(inputs: Inputs, ours: Library, stored: seq<Option<Manifest>>) returns (adopted: map<int, Scenario>)
    ensures Adoptable(inputs, adopted)
    ensures forall q :: q in adopted ==> TakenFrom(inputs, ours, stored, |stored|, q, adopted[q])
    ensures forall i :: 0 <= i < |stored| && stored[i].Some? ==>
      (stored[i].value.library == ours && inputs.minQ <= stored[i].value.q <= inputs.maxQ ==> stored[i].value.q in adopted)
  {
    adopted := map[];
    for n := 0 to |stored|
      invariant Adoptable(inputs, adopted)
      invariant forall q :: q in adopted ==> TakenFrom(inputs, ours, stored, n, q, adopted[q])
      invariant forall i, q :: 0 <= i < n && Names(inputs, ours, stored[i], q) ==> q in adopted
    {
      ghost var before := adopted;
      if stored[n].Some? {
        var manifest := stored[n].value;
        if manifest.library == ours && inputs.minQ <= manifest.q <= inputs.maxQ {
          adopted := adopted[manifest.q := Scenario(manifest.q, manifest.reading)];
        }
      }
      forall q | q in adopted ensures TakenFrom(inputs, ours, stored, n + 1, q, adopted[q]) {
        if Names(inputs, ours, stored[n], q) {
          assert adopted[q] == Scenario(q, stored[n].value.reading);
        } else {
          assert TakenFrom(inputs, ours, stored, n, q, before[q]);
        }
      }
    }
    forall i | 0 <= i < |stored| && stored[i].Some? && stored[i].value.library == ours
        && inputs.minQ <= stored[i].value.q <= inputs.maxQ
      ensures stored[i].value.q in adopted
    {
      assert Names(inputs, ours, stored[i], stored[i].value.q);
    }
  }
}
