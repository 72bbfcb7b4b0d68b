# Verified model of the discharge sweep and the reach-network transformer

Two components of the flood-mapping jobs carry guarantees that no single function shows. This project models both in
Dafny and proves those guarantees.

**The adaptive discharge sweep** (`twod_fim_jobs/jobs/run_nd_scenarios.py`) chooses which discharges of a reach to
simulate. It draws monotone curves through what has been simulated, solves them for the window in which a trial would be
accepted, rounds that window to an integer grid, simulates, judges, and re-judges old runs for free. The simulator is an
arbitrary function from discharge to readings, which may also report an edge error.

- `Readings`, `Curves`, `AcceptanceWindow`, `SteadyReadings`: the verdict, the curves, the exactness of the window, and when
  it promises what is measured.
- `FreePass`: the downward scan and why it finds what an exhaustive search finds.
- `Proposals`: rounding to the grid. `Adoption`: which stored scenarios are believed.
- `Sweep`: the loop as a state machine. `SweepSafety` (every simulator, all bands), `SweepRecord` (how a run opens, what it
  compares, seeds and publishes), `SweepOutcome` (progress and the worth of the finished library), `SweepEnds` (exactly when
  it ends; edge errors), `SweepRun` (the loop itself, proved against the state machine), `SweepAxis` (every run on the grid),
  `Livelock` (a library on which it never ends).

**The reach-network transformer** (`twod_fim_jobs/utils/network.py`, driven by `twod_fim_jobs/jobs/modify_network.py`)
rewrites a pointer graph pass by pass: explode, tag, coast, lakes, merge, order. How a reach's geometry meets a waterbody is
input data; what the passes do with it is modelled in full.

- `Reaches`, `Pointers`, `Routes`, `Cycles`: rows, ids as integer paths, the pointer graph, reachability, routes, and the
  invariant every pass keeps: no id is another one or its beginning, terminal flag, reason and null pointer agree, no pointer
  dangles, no cycle.
- `Explode`, `ExplodeProofs`, `Tagging`, `Coastal`, `CoastFlow`, `Lakes`, `LakeProofs`, `LakeFlow`: the passes and their
  theorems. `CoastRows`, `LakeCuts`: which rows a pass leaves and what is in them, read off how each reach meets the water.
- `Chains`, `Grow`, `Build`, `Merge`: the stack traversal, the chains and their turns, the rewriting. `MergeProofs`: merging
  is a contraction. `MergeAgain`: canonical and long enough. `MergeTwice`: idempotent. `MergedRows`: what a
  merged row says, column by column.
- `NaturalOrder`, `Counters`, `Stages`, `StageProofs`, `StageFlow`, `Headwaters`, `Ambiguity`, `Pipeline`: the published
  order, the counters and their validators, flow, flags and warnings of the whole run, and the run.

`Wrappers` holds shared vocabulary. `dafny verify dfyconfig.toml` checks everything.

## Hypotheses

- Sweep safety, hot starts, publication, grid placement and the exact condition for termination hold for every simulator
  and all bands; minimum <= maximum, and grid and opening step are positive. That the condition is met, and the quality of the
  last step, need each criterion to go one way over the range, up or down, over simulated and adopted scenarios alike,
  flooded areas to be positive, and bands to have a positive floor below their ceiling.
- The network theorems about ranks and canonical chains need an acyclic network, one where no water returns to where it
  left; flow through every pass, accounting, coastal survivors, flags, pointer soundness and idempotence hold for cyclic
  ones too. Idempotence needs joined lengths to add up and, where water circles, both runs to list rows in one text order. What
  is left of a cut reach is stated for crossing distances sorted without repeats, as they come.

## Where the code falls short of its own words

- The sweep need not end. The curves use running maxima and the verdict uses raw readings; when an adopted library's
  max depth dips, the same discharge can be proposed and rejected for ever (`Livelock.SweepNeedNotEnd`). In general, for
  every simulator, it ends exactly when no pass stalls, that is, has its trial in hand, below the maximum, and measured too
  high without being the finest step, or too low at or under the position; one such pass and it never ends, none and it ends
  within a budget fixed by the range (`SweepEnds.EndsIffNeverStalls`).
- The lake pass can leave a dangling pointer. A tributary that only touches the shore never meets the lake, so it keeps
  pointing at the reach below, which is dropped because it lies within the lake, or because it begins on the shore, runs dry
  before it enters, and is cut at its very start (`LakeProofs.ContactCanFail`).
  Pointers are sound exactly when nothing but swallowed reaches and inlets flow into swallowed reaches
  (`LakeProofs.PointersSoundIffContact`, carried through to the published network by `StageProofs.PublishedPointers`).
- The lake pass can leave a reach with nothing above it unflagged: its only neighbour upstream was swallowed, and it itself
  only touches the shore (`Headwaters.HeadwaterCanBeMissed`; exactly when, `Headwaters.TagsRightIffContact`).
- `docs/jobs/modify_network/modify_network.md:72` promises a warning for a reach flagged by both lake and coastal logic. One
  trimmed at the coast and then split by a lake is listed by the two passes under different ids and never reported
  (`Ambiguity.SplitIsNotReported`, `Ambiguity.ClaimedTwiceReportedNever`; all others are, `Ambiguity.ReportedExactly`).
- The counters do not reconcile when the load splits a multipart reach, because the input count is taken before the split
  and added parts have no term; the manifest is then refused. They reconcile exactly when every loaded reach has one part
  (`StageProofs.BalancedIffNothingSplitOff`, `StageProofs.GapIsRefused`).
- `docs/jobs/run_scenarios/run_nd_scenarios.md` says rejected trials are not uploaded; the code publishes every completed
  trial, and so does the model. A comment in `_propose` calls the position the highest discharge run; it is the reference,
  or a run above it judged too low against it.
- The first simulation's edge error is not looked at: the sweep starts from that reading and publishes it
  (`SweepEnds.FirstEdgeIsKept`). It is the only one missed (`SweepEnds.OnlyTheFirstEdgeIsMissed`).

## Model

| member | source | states |
|---|---|---|
| Readings.VerdictRises | twod_fim_jobs/jobs/run_nd_scenarios.py:687-732 | A trial whose three readings are no lower than another's never gets a lower verdict against the same reference (too low, accept, too high), for any bands. |
| Readings.SelfIsNeverHigh | twod_fim_jobs/jobs/run_nd_scenarios.py:719-725 | With positive ceilings a scenario compared with itself is never rejected high, whatever its readings. |
| Readings.ComparisonReads | twod_fim_jobs/jobs/run_nd_scenarios.py:703-740 | The reported increases lead from the reference's readings to the trial's: depths by adding, the area by so many percent, none of a dry reference; rejected high if and only if some increase is over its ceiling, accepted if and only if none is and some is at its floor or over it. |
| Curves.Monotone | twod_fim_jobs/jobs/run_nd_scenarios.py:139-152 | The loop returns the running maximum; its entries, stated separately, are true maxima of the readings so far. |
| Curves.RunningMaxIsMaximum | twod_fim_jobs/jobs/run_nd_scenarios.py:139-152 | Entry i is at least every reading up to i and equals one of them. |
| Curves.RunningMaxOfRising | twod_fim_jobs/jobs/run_nd_scenarios.py:139-152 | Readings that already rise come back unchanged, so curve and measurement agree exactly then. |
| Curves.CrossingIsFirstReach | twod_fim_jobs/jobs/run_nd_scenarios.py:155-177 | For a target above the first reading, the segment search returns the least discharge at which the piecewise-linear curve (with its last slope carried on) reaches it, and nothing exactly when no discharge does. |
| Curves.CurveAtKnot | twod_fim_jobs/jobs/run_nd_scenarios.py:155-161 | The curve passes through every simulated point. |
| Curves.CurveRises | twod_fim_jobs/jobs/run_nd_scenarios.py:155-177 | The curve never falls between any two discharges, extrapolation included. |
| AcceptanceWindow.FindWindow | twod_fim_jobs/jobs/run_nd_scenarios.py:208-245 | The two-list loop computes the earliest floor and the earliest ceiling, or none when no criterion has a floor crossing; no upper end when no criterion has a ceiling crossing. |
| AcceptanceWindow.OpensExactly | twod_fim_jobs/jobs/run_nd_scenarios.py:213-245 | At a discharge y some criterion is at its floor if and only if y is at or past the opening. |
| AcceptanceWindow.ClosesExactly | twod_fim_jobs/jobs/run_nd_scenarios.py:213-245 | Every criterion is strictly under its ceiling if and only if y is before the close, and at most at it if y is not past the close. |
| AcceptanceWindow.NoWindowNoFloor | twod_fim_jobs/jobs/run_nd_scenarios.py:222-223 | When there is no window, no criterion reaches its floor at any real discharge. |
| AcceptanceWindow.WindowLiesAhead | twod_fim_jobs/jobs/run_nd_scenarios.py:213-220 | Whenever a window exists, reference < opens < closes, although the two ends are minima over different criteria. |
| AcceptanceWindow.WindowIsExact | twod_fim_jobs/jobs/run_nd_scenarios.py:208-245 | Against the verdict the curves promise at any real discharge: none means too low everywhere; too low if and only if below the opening; inside means accepted; rejected high only past the close; accepted strictly under all ceilings only inside. |
| AcceptanceWindow.PromisedAtKnots | twod_fim_jobs/jobs/run_nd_scenarios.py:180-205 | With rising readings the curves promise, at every simulated discharge, exactly what was measured. |
| AcceptanceWindow.PromiseIsKept | twod_fim_jobs/jobs/run_nd_scenarios.py:703-732 | So at simulated discharges the promised verdict is the verdict the comparison gives. |
| FreePass.ReuseFinishedRuns | twod_fim_jobs/jobs/run_nd_scenarios.py:57-106 | The nested downward scan terminates and equals the recursive jump to the furthest run not too far. |
| FreePass.AdvanceIsSafe | twod_fim_jobs/jobs/run_nd_scenarios.py:75-106 | For any readings: references strictly rise, each accepted entry is a simulated run accepted against the one before it, and the position is the last reference or a run above it judged too low against it. |
| FreePass.AdvanceGoesFar | twod_fim_jobs/jobs/run_nd_scenarios.py:75-106 | For any readings: what each jump passes over from above is too high against the reference it left, and on return so is everything above the position against the last reference. |
| FreePass.FreePassIsExhaustive | twod_fim_jobs/jobs/run_nd_scenarios.py:66-71 | With rising readings the scan gives the same references, accepted list and position as judging every run and jumping to the highest acceptable one until none is left. |
| FreePass.NothingLeftToAccept | twod_fim_jobs/jobs/run_nd_scenarios.py:66-71 | On return no simulated discharge above the new reference is acceptable against it. |
| Proposals.PlacedWhere | twod_fim_jobs/jobs/run_nd_scenarios.py:281-308 | Wherever the window lies the trial is ahead of the reference, and inside the window, or under it and past the position, or exactly one grid step past the position. |
| Proposals.PlacedNearest | twod_fim_jobs/jobs/run_nd_scenarios.py:281-308 | For any reference: whenever a grid value at least one step past the reference fits the window, the trial is in the window too and no fitting grid value is nearer the window's middle, and of two equally near ones it is the even multiple; when none fits it is the largest grid value below the window if that is past the position, else the next step past the position. |
| Proposals.PlacedOnGrid | twod_fim_jobs/jobs/run_nd_scenarios.py:281-308 | With the reference on the grid and the window above it, the trial is a grid value inside the window whenever one exists, and as near the window's middle as every grid value inside it; otherwise the largest grid value strictly below the window if it is past the position, else the next one past the position. |
| Proposals.ProposalIsNearest | twod_fim_jobs/jobs/run_nd_scenarios.py:284-326 | When a grid value fits the window read off the curves, the proposal is in the window and at least as near its middle, unless the window reaches the maximum and the proposal is the maximum. |
| Proposals.FinestIsNextStep | twod_fim_jobs/jobs/run_nd_scenarios.py:309-326 | A proposal is called the finest if and only if it is one grid step past the position and short of the maximum. |
| Proposals.ProposalMeaning | twod_fim_jobs/jobs/run_nd_scenarios.py:263-326 | Read back on the curves: going to the maximum overshoots only when one grid step from the position reaches it; any other trial is promised accept, or too low and past the position, or is the finest step. |
| SweepAxis.PlacedOnAxis | twod_fim_jobs/jobs/run_nd_scenarios.py:278-326 | Placement keeps grid values on the grid. |
| SweepAxis.EveryRunStaysOnAxis | twod_fim_jobs/jobs/run_nd_scenarios.py:429-446 | When the minimum, the opening step and the adopted discharges are grid values or the maximum, so is every discharge ever simulated, after any number of passes and for any simulator. |
| Adoption.AdoptExisting | twod_fim_jobs/jobs/run_nd_scenarios.py:329-371 | A discharge is adopted if and only if some readable manifest of this reach, model and run names it inside the range, and the last such manifest gives its readings. |
| Sweep.PublishEach | twod_fim_jobs/jobs/run_nd_scenarios.py:109-119 | Publishing each accepted scenario in turn, skipping those already out, is the fold of the idempotent publish. |
| SweepSafety.StepKeepsSafe | twod_fim_jobs/jobs/run_nd_scenarios.py:435-525 | One pass keeps the safety invariant for every simulator and all bands: hand, runs, hot starts, publications, position and library steps; a pass that aborts adds only the one unpublished edge-error run, seeded from the position. |
| SweepSafety.EveryRunIsSafe | twod_fim_jobs/jobs/run_nd_scenarios.py:395-525 | After any number of passes, unless aborted: every scenario was adopted or simulated in range; each discharge is simulated at most once, never when adopted, and published exactly once; only the first run starts cold and later ones are seeded by an adopted or earlier run; the position is the reference or a run above it judged too low; every library step was accepted, or overshoots by one grid step past the lower entry or past a run too low against it. An aborted sweep was in such a state one pass before, and differs from it by the one unpublished edge-error run. |
| SweepSafety.TrialLiesAhead | twod_fim_jobs/jobs/run_nd_scenarios.py:436-446 | A trial is the maximum itself or lies strictly between the reference and the maximum; a finest one is exactly one grid step past the position. |
| SweepRecord.OpeningStep | twod_fim_jobs/jobs/run_nd_scenarios.py:429-439 | With nothing adopted but possibly the minimum, and a range of more than one discharge: the first pass simulates the authored step past the minimum, or the maximum if that is nearer, seeded from the minimum; it aborts exactly on an edge error, and settles the maximum exactly when the step reaches it without one. |
| SweepRecord.OneDischarge | twod_fim_jobs/jobs/run_nd_scenarios.py:435-500 | When the range is one discharge, the first pass completes and simulates nothing more. |
| SweepRecord.SeededFromPosition | twod_fim_jobs/jobs/run_nd_scenarios.py:457-471 | Every pass, aborting or not, simulates at most one discharge, not yet in hand, seeded from the position the pass began at. |
| SweepRecord.EveryRecordIsRight | twod_fim_jobs/jobs/run_nd_scenarios.py:395-525 | For every simulator, after any number of passes not ended by an edge error: the baseline's comparison has no reference and accepts; every later one compares, on this reach's own answers, a trial with a library entry; published is exactly what was simulated, every library entry past the baseline, and the maximum once settled. A sweep still going has found the maximum too high each time it was compared; a completed one has compared it. |
| SweepRecord.AdvancesFully | twod_fim_jobs/jobs/run_nd_scenarios.py:515-522 | When a pass moves the reference, everything in hand above the new position is too high against the new reference; when readings rise nothing above it is acceptable. |
| SweepOutcome.ProgressUnlessStalled | twod_fim_jobs/jobs/run_nd_scenarios.py:435-525 | For any simulator and bands: a pass that goes on simulates a new discharge, settles the maximum, raises the reference, or raises the position under the same reference, if and only if it is not the case that its trial is already in hand, below the maximum, and measured too high without being the finest step, or too low at or under the position. |
| SweepEnds.StalledStaysStalled | twod_fim_jobs/jobs/run_nd_scenarios.py:435-525 | For any simulator and bands: a pass whose trial is in hand and moves nothing forward is followed by another one at the same trial, with nothing simulated, published or added, even when its too-low verdict moved the position down. |
| SweepEnds.ProgressSpends | twod_fim_jobs/jobs/run_nd_scenarios.py:435-525 | Every pass that makes progress spends at least one of a budget fixed by the range: discharges left, the maximum due, the distances of reference and position from the top. |
| SweepEnds.EndsIffNeverStalls | twod_fim_jobs/jobs/run_nd_scenarios.py:435-525 | For every simulator, any bands and any adopted library in range, falling readings included: the sweep ends if and only if no pass of it stalls, and if and only if it has ended within its starting budget plus one pass. |
| SweepEnds.PhysicalEnds | twod_fim_jobs/jobs/run_nd_scenarios.py:142-151 | When each criterion separately rises or falls over the range, areas are positive and bands proper, no pass stalls, so the sweep ends. |
| SweepEnds.OnlyTheFirstEdgeIsMissed | twod_fim_jobs/jobs/run_nd_scenarios.py:406-421 | For any simulator and number of passes: no scenario in hand that was neither adopted nor simulated at the minimum carries an edge error. |
| SweepEnds.FirstEdgeIsKept | twod_fim_jobs/jobs/run_nd_scenarios.py:410-421 | When the minimum must be simulated and meets an edge error, its reading is in hand and published after any number of passes all the same. |
| SweepOutcome.SettleMoves | twod_fim_jobs/jobs/run_nd_scenarios.py:486-525 | How judging a trial below the maximum moves reference and position, branch by branch. |
| SteadyReadings.SteadyPromiseIsKept | twod_fim_jobs/jobs/run_nd_scenarios.py:142-151 | When each criterion goes one way over the scenarios in hand, up or down, the verdict the curves promise at any of them from the reference up is the verdict measured: a falling criterion's curve stands still, and neither reaches a floor. |
| SweepOutcome.PhysicalNeverStalls | twod_fim_jobs/jobs/run_nd_scenarios.py:142-151 | With each criterion rising or falling over the range the stalled case cannot arise. |
| SweepOutcome.EveryPassProgresses | twod_fim_jobs/jobs/run_nd_scenarios.py:435-525 | So every pass that goes on makes progress, median depths that fall included. |
| SweepOutcome.CompletionIsEarned | twod_fim_jobs/jobs/run_nd_scenarios.py:447-500 | With each criterion rising or falling over the range: when the sweep completes, the step from its last reference to the maximum was measured not too high, or one grid step past the position reaches the maximum. |
| SweepSafety.StartIsSafe | twod_fim_jobs/jobs/run_nd_scenarios.py:406-434 | The state before the first pass is safe, for every simulator and any adopted library in range: the minimum is in hand, published if it was simulated, and both reference and position. |
| SweepRun.TakeFreeAdvances | twod_fim_jobs/jobs/run_nd_scenarios.py:109-119 | Runs the free pass and publishes whatever it accepts. |
| SweepRun.JudgeTrial | twod_fim_jobs/jobs/run_nd_scenarios.py:486-525 | The second half of a pass, variable by variable, equals the transition function. |
| SweepRun.RunSweep | twod_fim_jobs/jobs/run_nd_scenarios.py:379-529 | The loop itself, for every simulator and any bands on which no pass stalls, which is exactly when it ends: it terminates, ends where the state machine ends, leaves a safe record whose comparisons and publications are right and which compared the maximum, or an abort that lost only the edge-error run; when each criterion rises or falls over the range the last step of its library is earned. |
| Livelock.SweepNeedNotEnd | twod_fim_jobs/jobs/run_nd_scenarios.py:431-525 | A concrete adopted library on its own 20 cms grid whose max depth wobbles (default bands): after every number of passes, whatever the simulator would answer, the sweep is still running at the same reference. |
| Explode.ExplodeMultipart | twod_fim_jobs/utils/network.py:208-264 | The column-wise pass gives exactly the rows of the exploded network: one per part, parts suffixed and chained, pointers at a split reach moved to its first part. |
| ExplodeProofs.ExplodedIsPrefixFree | twod_fim_jobs/utils/network.py:217-239 | With suffix-free source ids, no id of the exploded network is another id or the beginning of one. |
| ExplodeProofs.ExplodedRows | twod_fim_jobs/utils/network.py:208-264 | The rows are exactly those of the parts: part k of a multipart 3434 is 3434_k, flows into the next part, the last one to where 3434 flowed, or its first part if that is multipart; drainage area is the reach's, length the part's, and no flag is set. |
| ExplodeProofs.PartsInOrder | twod_fim_jobs/utils/network.py:241-245 | From a reach's first part, following pointers p times reaches its part p. |
| ExplodeProofs.LeavesByLastPart | twod_fim_jobs/utils/network.py:241-254 | After its last part the water enters the first part of the reach it originally flowed to. |
| ExplodeProofs.ExplodePreservesFlow | twod_fim_jobs/utils/network.py:217-254 | Reach j is downstream of reach i as read if and only if j's first part is downstream of i's first part. |
| ExplodeProofs.ExplodedIsAcyclic | twod_fim_jobs/utils/network.py:208-264 | Splitting an acyclic hydrofabric into parts makes no cycle. |
| Tagging.TagTerminalReaches | twod_fim_jobs/utils/network.py:282-309 | Pointers out of the extract are nulled and every reach without a pointer is tagged an outlet; nothing else changes. |
| Tagging.TagHeadwaterReaches | twod_fim_jobs/utils/network.py:312-320 | Exactly the reaches nothing points at gain the headwater flag. |
| Tagging.TaggedRow | twod_fim_jobs/utils/network.py:282-320 | Per row after both tags: same id, the pointer kept exactly when it names a row, terminal flag and reason agree with it, headwater if and only if no loaded reach pointed at it. |
| Tagging.TagsOnly | twod_fim_jobs/utils/network.py:282-320 | Tagging changes nothing else of a row, and the only reason it gives is outlet. |
| Headwaters.CoastKeepsTags | twod_fim_jobs/utils/network.py:517-607 | If headwater flags say exactly that nothing points here, they still do after the coastal pass, cycles included. |
| Headwaters.TagsRightIffContact | twod_fim_jobs/utils/network.py:702-826 | After the lakes they do if and only if nothing that stands flows into a reach leaving a lake, and every reach no lake meets that goes on keeps something upstream if it had anything. |
| Headwaters.HeadwaterCanBeMissed | twod_fim_jobs/utils/network.py:432-446 | A concrete three-reach network where they do not: the only reach upstream lies within the lake, the next only touches its shore. |
| Headwaters.MergedTag | twod_fim_jobs/utils/network.py:962-966 | A merged reach carries its top member's flag, and something points at it if and only if something pointed at the top; on every network. |
| Headwaters.MergeKeepsTags | twod_fim_jobs/utils/network.py:962-966 | So merging keeps headwater flags right. |
| Headwaters.TagsBeforeMerge | twod_fim_jobs/jobs/modify_network.py:105-138 | In a run they are right before the lakes, whatever was read, and before the merge if and only if that lake condition holds or lakes were skipped. |
| Headwaters.PublishedTags | twod_fim_jobs/jobs/modify_network.py:92-146 | And then they are right as published. |
| Tagging.TaggingFixesPointers | twod_fim_jobs/utils/network.py:282-320 | Whatever was read, after tagging no pointer dangles and flags, reasons and null pointers agree. |
| Tagging.TaggingKeepsFlow | twod_fim_jobs/utils/network.py:282-309 | Nulling pointers out of the extract changes no flow between its reaches. |
| Cycles.AcyclicIffNeverReturns | twod_fim_jobs/utils/network.py:915-920 | The falling rank by which acyclic is defined exists if and only if no reach's water ever returns to it. |
| Cycles.SourcesAcyclicIffNeverReturns | twod_fim_jobs/utils/network.py:185-205 | The same for the pointers as read. |
| Pointers.MarkDownstream | twod_fim_jobs/utils/network.py:404-409 | The walk from one seed marks only what is downstream of it and leaves the marked set closed, on cyclic graphs too. |
| Pointers.DownstreamClosure | twod_fim_jobs/utils/network.py:398-410 | For every pointer graph, cycles included: the mask is set exactly on the positions downstream of some seed. |
| Pointers.FlowsIsDownstream | twod_fim_jobs/utils/network.py:386-395 | Following positional pointers and following ids agree: id-level flow between rows is position-level reachability. |
| Coastal.TrimAtContact | twod_fim_jobs/utils/network.py:557-570 | Trims exactly the reaches that begin outside with a usable part, and escalates the others to encompassed. |
| Coastal.Cascade | twod_fim_jobs/utils/network.py:572-578 | The closure from the next-downstream seeds is exactly what lies strictly downstream of an encompassed or trimmed reach. |
| Coastal.Strand | twod_fim_jobs/utils/network.py:593-605 | Exactly the survivors pointing at a removed reach are made terminal where they stand. |
| Coastal.ApplyCoastal | twod_fim_jobs/utils/network.py:517-607 | The pass computes the specified network and sets all four counters to the sizes of the sets they name; touched ids are those of surviving trims. |
| Coastal.SurvivorsAreExact | twod_fim_jobs/utils/network.py:572-605 | For every pointer graph: the surviving ids are exactly those of reaches neither encompassed nor strictly downstream of an encompassed or trimmed one. |
| CoastRows.SurvivesByShape | twod_fim_jobs/utils/network.py:543-580 | With unique ids a reach survives if and only if it never meets the coverage, or begins outside it with a usable part above the contact, and no reach strictly upstream of it meets the coverage in any way. |
| CoastRows.SurvivorByShape | twod_fim_jobs/utils/network.py:557-605 | The row a survivor leaves: cut at its contact, ended there for the coast and naming the polygon; or unchanged, but ended for the coast when what it flowed into is gone, its polygon left as it was. |
| CoastRows.CountersByShape | twod_fim_jobs/utils/network.py:579-605 | The four counters are the sizes of the sets they name, read off shapes and pointers: within, beginning inside or without a usable part; usable but below something that meets the coverage; trimmed and left; never met but flowing into what is gone. |
| Coastal.NothingDangles | twod_fim_jobs/utils/network.py:593-605 | No pointer dangles after the pass, whatever came in. |
| Coastal.CoastKeepsSound | twod_fim_jobs/utils/network.py:517-607 | Prefix-free ids, flag coherence and acyclicity survive, and pointers are sound even if they were not before. |
| CoastFlow.CoastKeepsWays | twod_fim_jobs/utils/network.py:572-605 | Whatever the pointers: however the water gets to a survivor, before the pass or after, it gets there by the same reaches in the other. |
| CoastFlow.CoastPreservesFlow | twod_fim_jobs/utils/network.py:572-605 | Survivor j is downstream of survivor i after the pass if and only if it was before, on any network with unique ids. |
| Coastal.CoastAccounts | twod_fim_jobs/utils/network.py:579-580 | Rows out = rows in - encompassed - cascade. |
| LakeProofs.PieceFields | twod_fim_jobs/utils/network.py:661-791 | Of any reach not swallowed: an inlet, a reach between lakes and the upper piece of a split point nowhere, every other piece keeps its reach's pointer, and each piece's terminal flag, reason and pointer agree if its reach's did. |
| Lakes.CutRows | twod_fim_jobs/utils/network.py:680-791 | All rows cut, lower pieces collected, retired ids mapped, and each kind counted. |
| LakeCuts.CutsAreRight | twod_fim_jobs/utils/network.py:641-765 | Reach by reach, read off its meeting with the lakes: nothing stands of one that lies within a lake, has both ends in one lake or fewer than two crossings between two, or whose crossing nearest the dry end is not inside it; an inlet stands down to its first crossing, an outlet from its last, a reach between lakes from the first crossing inside to the last, naming the lower lake; one that passes through stands in two pieces, suffixed 1 and 2, down to the first crossing inside and from the last on, unless there are fewer than two; flags and lake are as stated, nothing else changes but pointers. |
| LakeCuts.KindByMeeting | twod_fim_jobs/utils/network.py:641-748 | Which of the six cases a reach falls in, read off its end polygons and crossings with quantifiers over the crossings. |
| LakeCuts.SweptExactly | twod_fim_jobs/utils/network.py:824-831 | After the sweep exactly the standing rows are left that point somewhere, are headwaters, or have something pointing at them. |
| LakeCuts.CountersByMeeting | twod_fim_jobs/utils/network.py:789-797 | Five counters are the sizes of the sets of reaches that meet the lakes so. |
| Lakes.FindOrphans | twod_fim_jobs/utils/network.py:824-826 | The mask is exactly the rows with no upstream, no downstream and no headwater flag. |
| Lakes.ApplyLakes | twod_fim_jobs/utils/network.py:613-832 | The pass computes the specified network, all six counters and the touched ids. |
| Lakes.StandingPrefixFree | twod_fim_jobs/utils/network.py:743-765 | Ids minted by a split are always fresh, at any suffix depth: the network stays prefix-free. |
| LakeProofs.OneSweepSuffices | twod_fim_jobs/utils/network.py:822-823 | After one orphan sweep there is no orphan. |
| LakeProofs.SweepKeepsPointers | twod_fim_jobs/utils/network.py:822-823 | The sweep makes no pointer dangle and hides none that did. |
| LakeProofs.PointersSoundIffContact | twod_fim_jobs/utils/network.py:593-599 | After the lake pass no pointer dangles if and only if every reach flowing into a swallowed one is itself swallowed or ends in the lake; the code's comment assumes that side. |
| LakeProofs.ContactCanFail | twod_fim_jobs/utils/network.py:432-446 | A concrete two-reach network where it does not, twice: the tributary only touches the shore, so it never meets the lake, while the reach below lies within it, or begins on its shore and is cut at its very start; the tributary is left pointing at a dropped reach. |
| LakeFlow.LakesLeaveFlow | twod_fim_jobs/utils/network.py:680-826 | For any network, cycles included: piece j is downstream of piece i after the pass if and only if they are the same piece, or i keeps its reach's pointer, j is the upper piece of its reach, and reach i flowed to reach j across reaches that no lake swallows, ends or splits. |
| LakeProofs.LakesGiveReferences | twod_fim_jobs/utils/network.py:702-765 | When every lake has an id, no reach ends in a lake or leaves one without naming it. |
| LakeProofs.LakesKeepSound | twod_fim_jobs/utils/network.py:613-832 | Under the contact assumption the whole network invariant survives the pass. |
| LakeProofs.PiecesFit | twod_fim_jobs/utils/network.py:693-765 | With crossing distances sorted and distinct: what is kept of a cut reach is never empty and never the whole of it, and the two pieces of a split together are shorter than the reach. |
| LakeProofs.LakesAccount | twod_fim_jobs/utils/network.py:799-831 | Rows out = rows in - encompassed - orphaned + splits. |
| Chains.Traverse | twod_fim_jobs/utils/network.py:900-920 | On any graph the explicit-stack traversal lists every row exactly once: first a front holding exactly what drains to a terminal, each after its downstream reach, then the rest in text order; on an acyclic graph there is no rest. |
| Chains.LabelsAreCanonical | twod_fim_jobs/utils/network.py:927-951 | The chain a reach belongs to does not depend on which downstream-first order is used. |
| Chains.StartIsDownstream | twod_fim_jobs/utils/network.py:927-951 | A chain's start lies downstream of each of its members. |
| Grow.GrowChain | twod_fim_jobs/utils/network.py:924-953 | Grows one chain of distinct, untaken reaches, each the next one's downstream; each was absorbed while the chain was short, alone above the last and within the flow threshold; it stops because it is long enough, at a junction or source, at a different flow, or at a taken neighbour; on an acyclic network it is exactly the set of reaches labelled with that start. |
| Grow.NothingToJoin | twod_fim_jobs/utils/network.py:937-951 | On an acyclic network the neighbour a chain could absorb is never one it already holds; only length, the junction or source, or the flow can stop it. |
| Build.BuildChains | twod_fim_jobs/utils/network.py:922-955 | On any network every reach ends up in one chain, grown in its turn out of reaches whose own turn was still to come, and a neighbour that stopped it belongs to a start no later than its own; the chains absorb as many rows as there are non-starts; on an acyclic one the starts are the canonical labels. |
| Build.ClaimTimed | twod_fim_jobs/utils/network.py:922-953 | Each turn keeps that chronicle: what was taken belongs to a start whose turn has come, and each chain says rightly why it stopped. |
| Merge.RewriteChains | twod_fim_jobs/utils/network.py:960-983 | Each start's row becomes the joined, retagged row of its chain, other rows are untouched, and exactly the other members are retired, mapped to their start. |
| Merge.MergeShortReaches | twod_fim_jobs/utils/network.py:838-990 | The pass, on any network: one row per chain start, in place, repointed to chain starts, the rest counted as merged, with the traversal and the turns that produced it. |
| MergedRows.MergedColumns | twod_fim_jobs/utils/network.py:955-979 | On every network, for each row of the result: the rows that went into it lie along the flow, each flowing into the next, and end at the row whose id it keeps; headwater and outlet flags are the first's, the length is theirs joined in that order, the lake is the last's or else the first's, trimmed if any was, everything else the last's. |
| MergedRows.TrimsCarryOver | twod_fim_jobs/utils/network.py:978-980 | On every network a row of the result is trimmed if and only if some input row whose chain start it is was trimmed. |
| MergedRows.MergedPointer | twod_fim_jobs/utils/network.py:981-990 | A row of the result points at the survivor of what its start flowed into; a pointer that named no row is kept. |
| Grow.SameFlowReads | twod_fim_jobs/utils/network.py:941-948 | The flow test reads: the start's area is positive and the difference either way, times 100, is less than the threshold times the start's area. |
| MergeProofs.MergePreservesFlow | twod_fim_jobs/utils/network.py:955-990 | On any network, cycles included: water from reach i passes survivor b in the input if and only if, in the result, the survivor of i's chain does. |
| MergeProofs.MergeIsContraction | twod_fim_jobs/utils/network.py:955-990 | Survivor b is downstream of survivor a in the result if and only if some member of b's chain is downstream of some member of a's chain in the input. |
| MergeProofs.AbsorbedAreUnreferenced | twod_fim_jobs/utils/network.py:980-990 | No absorbed id survives or is pointed at, a pointer to an input row leads to a survivor, and terminal flags and reasons are those of the same-id input row. |
| MergeProofs.MergeKeepsSound | twod_fim_jobs/utils/network.py:838-990 | Prefix-free ids, coherent flags, sound pointers and acyclicity are kept. |
| MergeProofs.MergeKeepsReferences | twod_fim_jobs/utils/network.py:967-976 | If every lake inlet and outlet names a lake before the merge, every one does after it. |
| MergeProofs.MergeAccounts | twod_fim_jobs/utils/network.py:955-990 | Rows out = rows in - merged, on every network. |
| MergeAgain.MergeIsCanonical | twod_fim_jobs/utils/network.py:900-953 | Two merges of one acyclic network give the same starts, the same chains member by member and the same rows, whatever order reaches were visited in. |
| MergeAgain.LongEnoughUnlessStopped | twod_fim_jobs/utils/network.py:853-858 | On every network: a reach of the result is at least the threshold long, unless the top of its chain has not exactly one reach above it, or that one carries a different flow, or, only where water drains to no terminal, that one was claimed no later than the chain itself; a chain exceeds the threshold by less than its last member; every member is within the area threshold of the start. |
| MergeTwice.UpperCameFirst | twod_fim_jobs/utils/network.py:904-951 | On every network: two survivors a second run would join were left apart by the first only because the upper one's turn came before the lower one's; and no water from either drains to a terminal. |
| MergeTwice.SecondRunAbsorbsNothing | twod_fim_jobs/utils/network.py:838-990 | On every network, cycles included, when joined lengths add up: each reach of the result stays its own start in a second run that lists rows in the same text order (where every reach drains, in any order). |
| MergeTwice.MergeIsIdempotent | twod_fim_jobs/utils/network.py:838-990 | On every network, cycles included: that second run with the same thresholds returns the same rows and merges nothing. |
| NaturalOrder.SortPositions | twod_fim_jobs/utils/network.py:1067-1084 | The order is a permutation, ascending by integer path, and stable. |
| NaturalOrder.BeforeReads | twod_fim_jobs/utils/network.py:1067-1084 | One id comes before another if and only if it begins it, or has the lower number at the first place where they differ. |
| NaturalOrder.TwoBeforeTen | twod_fim_jobs/utils/network.py:1067-1073 | So 2 sorts before 10, and a parent before its parts. |
| NaturalOrder.DescendantsAreContiguous | twod_fim_jobs/utils/network.py:1070-1073 | Between two ids beginning with a prefix, in path order, every id begins with it. |
| NaturalOrder.OneOrder | twod_fim_jobs/utils/network.py:1067-1084 | Two strictly ascending lists of the same ids are the same list. |
| StageProofs.IdsStayApart | twod_fim_jobs/jobs/modify_network.py:95-146 | Through explode, tags, coast and nested lake splits, no live id is another one or its beginning. |
| StageProofs.StagesCoherent | twod_fim_jobs/jobs/modify_network.py:105-127 | Flags, reasons and null pointers agree at every stage, and no pointer dangles before the lake pass, whatever was read. |
| StageProofs.StagesAcyclic | twod_fim_jobs/jobs/modify_network.py:95-146 | An acyclic hydrofabric stays acyclic at every stage, with any waterbodies and even when the contact assumption fails. |
| StageProofs.MergeKeepsDangling | twod_fim_jobs/utils/network.py:986-990 | Merging neither hides a dangling pointer nor makes one. |
| StageProofs.PublishedPointers | twod_fim_jobs/jobs/modify_network.py:92-146 | The published pointers are sound if and only if lakes were skipped or met the contact assumption. |
| StageProofs.PublishedIsSound | twod_fim_jobs/jobs/modify_network.py:92-146 | For an acyclic hydrofabric the published network keeps the whole invariant if and only if the contact assumption holds. |
| StageProofs.DescendantsStandTogether | twod_fim_jobs/utils/network.py:1070-1073 | In the published order all descendants of one id form a contiguous block. |
| StageProofs.PublishedOrderIsTheIds | twod_fim_jobs/utils/network.py:1038-1038 | Two networks with the same ids are published in the same order. |
| StageFlow.BeforeMergeFlow | twod_fim_jobs/jobs/modify_network.py:92-138 | With any waterbodies or none: what stands before the merge is connected exactly as the loaded network joins it. |
| StageFlow.EveryRowIsAPiece | twod_fim_jobs/jobs/modify_network.py:92-138 | Every row to be merged is a piece of a reach the coast left. |
| StageFlow.PublishedFlow | twod_fim_jobs/jobs/modify_network.py:92-146 | For every run, with coast, lakes, both or neither: water from a piece passes the survivor of a chain, as published, if and only if the loaded network joins the piece to that survivor: the piece keeps its pointer, and the water crosses no reach that a lake swallows, ends or splits. |
| StageFlow.PublishedFlowWithoutLakes | twod_fim_jobs/jobs/modify_network.py:92-146 | Without lakes that is reachability in the loaded network, coast or no coast. |
| StageProofs.PublishedReferences | twod_fim_jobs/utils/network.py:967-976 | With identified lakes or none, every published inlet or outlet names its lake. |
| StageProofs.EveryRowIsAccountedFor | twod_fim_jobs/models/modify_network.py:294-323 | For every network and every choice of skipped steps: rows out = rows after load - coastal encompassed - cascade - lake encompassed - orphaned - merged + splits. |
| StageProofs.SkipsAlwaysCohere | twod_fim_jobs/models/modify_network.py:279-293 | Lake counters are all set or all null, coastal ones likewise, and both agree with the datasets given. |
| Counters.ValidatorsRead | twod_fim_jobs/models/modify_network.py:279-323 | A manifest is refused exactly when some counters of a pass are set and others not, or when rows written plus rows removed are not rows read plus rows split off. |
| Stages.SourcesByStreamOrder | twod_fim_jobs/utils/network.py:128-171 | With a threshold the network is read from exactly the features at or above it, in their order, and the counter is the number below it; without one, from all, and the counter is null. |
| Stages.FinalCounts | twod_fim_jobs/utils/network.py:1061-1063 | Headwaters and terminals are counted over the rows written. |
| StageProofs.BalancedIffNothingSplitOff | twod_fim_jobs/models/modify_network.py:294-323 | The reconciliation identity holds if and only if every loaded reach has exactly one part: the input count is taken before multipart reaches are split. |
| StageProofs.GapIsRefused | twod_fim_jobs/utils/network.py:168-171 | One source reach with two disjoint parts makes the counters fail to reconcile, so the manifest is refused. |
| Pipeline.LoadReachNetwork | twod_fim_jobs/utils/network.py:116-205 | Repeated ids make the network unavailable; otherwise the rows are the exploded sources, with the input count taken before the split and the filtered rows counted. |
| Pipeline.FinalizeNetwork | twod_fim_jobs/utils/network.py:1028-1064 | The same rows in natural order, with output, headwater and terminal counts of what is written. |
| Ambiguity.TrimmedAtCoast | twod_fim_jobs/utils/network.py:582-587 | The coast's list is exactly the ids of reaches with a usable part above their contact and nothing upstream that meets the coverage. |
| Ambiguity.ReportedExactly | twod_fim_jobs/jobs/modify_network.py:149-153 | Exactly the reaches trimmed at the coast and left, that meet a lake and are not split by it, are reported as ambiguous. |
| Ambiguity.SplitIsNotReported | twod_fim_jobs/jobs/modify_network.py:149-153 | A reach trimmed at the coast and split by a lake is reported under none of its ids, although its pieces are on the lake pass's list. |
| Ambiguity.ClaimedTwiceReportedNever | twod_fim_jobs/jobs/modify_network.py:149-153 | A concrete one-reach run where both passes claim the reach and nothing is reported. |
| Pipeline.NothingLeftToMerge | twod_fim_jobs/jobs/modify_network.py:140-145 | Merging what a run merged once more would change nothing. |
| Pipeline.CoastStep | twod_fim_jobs/jobs/modify_network.py:111-118 | Runs the coastal pass when its dataset is given and records all its counters; otherwise leaves rows and counters alone. |
| Pipeline.LakeStep | twod_fim_jobs/jobs/modify_network.py:120-138 | The same for lakes. |
| Pipeline.ModifyNetwork | twod_fim_jobs/jobs/modify_network.py:92-180 | The run publishes if and only if source ids are unique and no reach has several parts; what it publishes is the merged network in order with exactly the recorded counters; its pointers are sound if and only if the contact assumption holds, and with an acyclic hydrofabric so is everything else. |

## Left out

- Floating point: readings, lengths and areas are exact reals, discharges exact integers.
- The simulator's dependence on its hot start: a discharge has one reading, whichever depth grid seeded the run.
- Log lines.
- Geometry: crossing distances, containment, first contact, the shape of a joined line and lake buffering are inputs; the
  length of a joined line is an arbitrary function of its members, added up only where a theorem says so.
- Text and non-numeric ids: an id is its path of whole numbers; source ids carry no underscore. How ids compare as text is
  any relation that never puts two ids both ways.
- The reverse adjacency in compressed form and the visiting of seeds in sorted order: a parent list is read off the
  pointers, and the closure is proved for seeds in any order.
- Lakes.CutRows: visits the rows once instead of once per kind; the kinds are disjoint and touch different rows.
- Rows are sequences the methods rebuild, not data frames updated through an index; columns the passes never read are left out.
- Reading and writing of files, storage, hashing, naming, caching, the network_exists shortcut, the command line and logging.
- The hydraulic solver process, rasters, boundary conditions and domain snapping.
