# A verified model of the reconciler fuzzer

The fuzzer drives a Kubernetes controller with random sequences of ops, injects
faults into its API traffic, and judges what it did. This project models the
parts of it that decide: the verdict arithmetic over a run's timeline, the
emulated garbage collector, the generator, validator and shrinker of sequences,
the settle wait, the proxy's faults, the version store, the process supervisor,
JSON merge patch, and two of the generic checks' algorithms. It proves what each
promises over every input, every run or every interleaving.

`dafny verify dfyconfig.toml` verifies everything.

## How the program is modelled

* An instant is an integer; 0 is the zero time, which the program compares like
  any other instant and reads as "has not come" in an optional field. Every other
  recorded instant is above 0.
* Clocks, random draws, exec results, context ends, API answers and the reading
  of names against globs are parameters or free choices, so every theorem holds
  for all of them. The Ready predicate and CRD admission are such choices too.
* A section under a lock, and an API call, is one step of a state machine; the
  steps interleave in any order. `Collector`, `Wakeups`, `FaultRuns`,
  `RunnerFaults` and `Supervisor` are such machines, and a run is any sequence of
  their steps.
* A loop of the program is a method with a loop, proved against a function or a
  stated property. The proxy, the version store and the launcher are classes
  whose methods change their fields.

* Most of what the methods compute is named by a function, which keeps the proofs
  short. What each such function means is then stated again without it, in terms of
  the values it is given: `VerdictMeaning` for verdicts, `BoundMeaning` for the
  bound, and the lemmas whose names end in `Means` elsewhere.

| files | what they model |
|---|---|
| `Instants`, `Options`, `Sorting`, `Recording`, `States` | a run as the checks see it, and its state at an instant |
| `Verdicts`, `VerdictMeaning`, `VerdictStability`, `VerdictOverturns` | what faults, restarts and deletions excuse, whether a later look agrees and exactly when it does not |
| `LateFaults`, `LateRecords` | what is recorded after a verdict of what came before it |
| `Owners`, `Collector`, `CollectorCascade`, `Wakeups` | the garbage-collector emulation |
| `Sequences`, `Removal`, `Bound`, `BoundMeaning`, `Shrink` | validating, shortening, bounding and shrinking a sequence |
| `Names`, `Generator`, `GeneratorSoundness` | drawing a sequence |
| `FaultProxy`, `FaultRuns`, `RunnerFaults` | faults in the proxy and in the Runner |
| `SettleWait` | the settle wait |
| `VersionStore` | the Observer's store |
| `Supervisor` | the target's process |
| `MergePatch`, `ErrorLoop`, `Evidence` | merge patch, G6's sliding window, G5's evidence |

## What turned out false, and exactly where it holds

* *The Runner and the engine cannot disagree about an expired wait*
  (`internal/invariant/readiness.go:16-18`). They can, in three ways. Whether the
  target elects a leader is read off the whole log, so a lease read that comes
  after the wait changes what counts as the target's return
  (`ElectionComingToLightOverturns`). The proxy logs a request before its status is
  known, so the answer to a lease write that was pending can show the target back
  just in time to be owed more (`PendingWriteOverturns`), or back too long ago
  (`PendingWriteEndsExcuse`). And requests, versions and applications of faults are
  stamped before they are recorded, so one stamped by the end of the wait can be
  recorded after its verdict (`LateRequestOverturns`, `LateVersionOverturns`,
  `LateFaultOverturns`).
  That nothing is late in this way is a premise of its own (`NothingLate`). Under
  it, a later recording of the same run overturns a verdict if and only if nothing
  but the target's return after an exit can excuse the wait and either it does,
  with no request showing election, or the target elects and its pending lease
  writes can end every such excuse, or make one where there is none
  (`OverturnedExactlyWhere`). For faults the premise is a fact about the proxy:
  the windows by t stay as they are, late requests included, if and only if each
  fault is stopped, or was applied and another application neither spends a count
  nor reopens a delay that had ended by t (`UnmovedExactlyWhere`).
* *The generator draws only what the validator accepts.* A drawn delay is rounded
  to a millisecond, so a target whose stable window is under two milliseconds can
  draw a delay of zero, which is a fault with no action. A drawn sequence is
  accepted if and only if its fault has an action (`EveryDrawIsSound`), and
  everything the generator draws is if and only if it can draw no fault, may draw
  only the create, or the window is at least two milliseconds
  (`SoundExactlyWhere`).
* *A closed fault window is final and holds every application.* A request reads
  the clock before it takes the proxy's lock. One that read it before a fault's
  deadline is still faulted after a reader found the fault closed
  (`StaleRequestReopens`), and two that pass each other leave a count fault whose
  window ends before it begins (`StaleRequestsInvertWindow`). Which readings agree
  and which requests reach a closed fault is characterised exactly
  (`ReadingsAgreeExactlyWhere`, `ReopensExactlyWhere`), and so is which windows
  hold everything: those whose first request read the clock first and whose
  spending request read it last, where a delay needs only the first
  (`WindowHoldsAllExactlyWhere`).
* *Nothing starts after Stop until Start.* It holds once Stop has let the process
  go. `Stop` waits on the exit and on timers of its own at once; where both have
  come it may take the timer, leave the process recorded as running, and leave the
  timer that restarts it (`MissedExitRestarts`). Stop brings rest if and only if it
  sees the exit or no such timer is pending (`StopBringsRest`).

The version store and the checks' sweep read the same log in two ways. They show
the same version of an object at an instant exactly where its last recorded version
by then is its newest (`AgreeExactlyWhere`). The Observer records each kind's
versions in the order of their times, so in a run they always do
(`SweepAgreesWithSnapshot`).

## Model

| member | source | states |
|---|---|---|
| `Sorting.StableSortSorts` | internal/invariant/invariant.go:356-363 | the window the checks read is in time order |
| `Sorting.StableSortKeeps` | internal/invariant/invariant.go:356-363 | sorting a window neither drops nor adds a version |
| `States.UpToStableSort` | internal/invariant/invariant.go:350-363 | cutting a log at an instant and sorting it stably commute, so a longer recording reads the same at an earlier instant |
| `States.StatesAt` | internal/invariant/state.go:23-35 | one sweep with a cursor gives at each of several ordered instants the state that looking it up alone gives |
| `States.StateAgrees` | internal/invariant/state.go:23-37 | the state at an instant is the same in any two recordings that hold the same versions by then |
| `Verdicts.ComputeLastConverged` | internal/invariant/recovery.go:113-121 | the latest converged checkpoint by t, or zero when there is none |
| `Verdicts.ComputeFaulted` | internal/invariant/invariant.go:338-345 | true exactly where some fault window overlaps the interval |
| `Verdicts.StoppedSpanIsSpan` | internal/invariant/recovery.go:58-77 | the span is the earliest start and the latest end of exactly the faults that stopped by t since the target recovered, both attained |
| `Verdicts.ComputeFaultsOwed` | internal/invariant/recovery.go:58-77 | the loop gives as long after that span as it lasted, and a settle timeout more, or zero where no fault stopped |
| `Verdicts.FirstIsFirst` | internal/invariant/running.go:29-37 | the earliest request after an instant that shows a sign, and zero exactly where none does |
| `Verdicts.ComputeFirst` | internal/invariant/running.go:29-37 | the loop over an unordered log finds that request |
| `Verdicts.ComputeOwed` | internal/invariant/recovery.go:14-28 | the loop over exits gives the latest instant owed by the faults or by an exit that counts |
| `Verdicts.BeforeOwed` | internal/invariant/recovery.go:14-28 | an instant is before what is owed exactly where it is before what the faults owe or some counted exit owes |
| `Verdicts.ComputeDeletionsBy` | internal/invariant/g3.go:100-114 | the loop with a seen map lists each primary CR's deletion, in the order first seen |
| `Verdicts.DeletionsDiffer` | internal/invariant/g3.go:100-114 | no two deletions have one UID |
| `Verdicts.DeletionsCover` | internal/invariant/g3.go:100-114 | every CR seen going by t has exactly one deletion, that of the first version that shows it, so stamped no later than any other where its versions are in order |
| `Verdicts.DeletionsDue` | internal/invariant/g3.go:100-114 | each deletion is that of the first version by t to show its UID going, and is due the delete timeout later |
| `Verdicts.ComputeDeletionOverdue` | internal/invariant/deletion.go:47-57 | true exactly where some deletion's deadline passed with no fault over it and the wait still saw the CR held by its finalizers |
| `Verdicts.ComputeExcused` | internal/invariant/deletion.go:40-42 | an expired wait is excused exactly where the target is recovering or a deletion is overdue |
| `Verdicts.ReportExpiredWaits` | internal/invariant/g4.go:94-106 | the engine reports the expired waits that nothing excuses, in the order of their checkpoints |
| `Verdicts.ExpiredWaitsAre` | internal/invariant/g4.go:94-106 | those are exactly the checkpoints whose wait expired and is not excused |
| `VerdictMeaning.FaultsOweTheirLength` | internal/invariant/recovery.go:58-84 | with no exits and no fault active, the faults that ended since the target recovered excuse it until the last end, as long again as they lasted from the first start or the recovery, and a settle timeout more |
| `VerdictMeaning.NoFaultOwesNothing` | internal/invariant/recovery.go:58-84 | where no fault ended since, nothing is excused |
| `VerdictMeaning.FaultsOweMeans` | internal/invariant/recovery.go:58-77 | what faults owe, in terms of the checkpoints and windows alone |
| `VerdictMeaning.BackMeans` | internal/invariant/running.go:17-61 | the target came back with the first lease it won after reading it, where any request reads one, and with its first request outside leader election otherwise |
| `VerdictMeaning.DueMeans` | internal/invariant/running.go:66-72 | a restarted target is due a settle timeout after its return if that came within one of the restart, and after the restart otherwise |
| `VerdictMeaning.OwedMeans` | internal/invariant/recovery.go:14-51 | an instant is before what is owed exactly where faults owe it or an exit does that came since the recovery, that faults excused, and that, while a fault is active, is the first excused since the last op before its due time |
| `VerdictMeaning.RecoveringIs` | internal/invariant/recovery.go:82-90 | a target is recovering exactly where a fault is active or one of these owes it time |
| `VerdictMeaning.StateMeans` | internal/invariant/state.go:23-78 | the state at an instant holds each key's newest version by then, the last recorded of several at one instant, unless it is a deletion |
| `VerdictMeaning.DeletionOverdueMeans` | internal/invariant/deletion.go:47-57 | a deletion is overdue exactly where its delete timeout ran out by the wait's end with no fault over it and finalizers still held the CR then, or where the wait began if that was later |
| `VerdictMeaning.ExcusedIs` | internal/invariant/deletion.go:40-57 | the whole verdict in terms of the recording alone, without the functions that compute it |
| `VerdictStability.VerdictStable` | internal/invariant/deletion.go:40-57 | the verdict on a wait that expired at t is the same in any two recordings that agree up to t and show election alike |
| `VerdictStability.FaultsOwedAgrees` | internal/invariant/recovery.go:58-90 | what faults owe at an instant by t does not depend on faults that start or end after t |
| `VerdictStability.SettledAgrees` | internal/invariant/running.go:17-72 | whether t is before what a restart owes does not depend on what the target does after t |
| `VerdictStability.DeletionOverdueIn` | internal/invariant/deletion.go:47-57 | an overdue deletion is overdue in every recording that agrees up to the wait |
| `VerdictStability.WaitedItsTime` | internal/run/runner.go:965-976 | a wait that read that its owed time was up, with no fault active or ended since, is recovering from no fault in any later recording |
| `VerdictStability.WaitedOnlyDeletionExcuses` | internal/invariant/deletion.go:40-42 | so only an overdue deletion excuses it |
| `VerdictOverturns.ElectionOverturns` | internal/invariant/running.go:17-72 | between a recording that shows election and one that does not, the verdict differs exactly where it hangs on a return, and only from excused to reported |
| `VerdictOverturns.AnswersBringWinForward` | internal/invariant/running.go:57-59 | answers to pending requests can only bring the first win of a lease forward, to a write that was pending |
| `VerdictOverturns.OverturnedExactlyWhere` | internal/invariant/readiness.go:16-18 | where nothing stamped by the wait's end is recorded late, some later recording overturns a verdict if and only if only a return may excuse the wait and either no request shows whether the target elects, or the answers to pending lease writes decide when it returned |
| `VerdictOverturns.OverturnedOnlyWhere` | internal/invariant/deletion.go:40-57 | a later recording with nothing late judges a wait otherwise only where its verdict hangs on one of these |
| `VerdictOverturns.RunnerAndEngineAgree` | internal/run/runner.go:705-734 | over a whole growing run with nothing late, where the verdict hangs on neither or what it hangs on never comes, the engine at every later checkpoint reports a wait after an op exactly where the Runner did, and never a wait the Runner let pass |
| `VerdictOverturns.RecoveryWaitsAgree` | internal/run/runner.go:965-981 | in such a run, Runner and engine agree in both directions on the wait after the last fault stopped |
| `VerdictOverturns.ElectionComingToLightOverturns` | internal/invariant/running.go:47-51 | a run in which a later lease read overturns an excused wait |
| `VerdictOverturns.PendingWriteOverturns` | internal/proxy/proxy.go:145-176 | a run in which the answer to a pending lease write overturns a reported wait |
| `VerdictOverturns.PendingWriteEndsExcuse` | internal/proxy/proxy.go:145-176 | a run in which such an answer overturns an excused one |
| `VerdictOverturns.LateRequestOverturns` | internal/proxy/proxy.go:141-146 | the premise is needed: a request stamped by the wait's end and logged after its verdict overturns it |
| `LateRecords.LateFaultOverturns` | internal/proxy/fault.go:247-250 | the premise is needed: in a run of Runner and proxy, an application stamped by the wait's end and made after its verdict overturns it |
| `LateRecords.LateVersionOverturns` | internal/observe/observe.go:115-125 | the premise is needed: a version stamped by the wait's end and stored after its verdict overturns it |
| `LateFaults.UnmovedExactlyWhere` | internal/proxy/fault.go:189-263 | what the checks see of a fault's window at t stays as it is in every run of the proxy, late requests included, if and only if the fault is stopped, or was applied and is a delay that had not ended by t or another action with no count |
| `LateFaults.QuietStays` | internal/proxy/fault.go:189-274 | no run changes what the checks see at t of such a fault |
| `LateFaults.OthersMove` | internal/proxy/fault.go:189-263 | some run changes what they see of any other |
| `LateRecords.QuietFaultsAreOnTime` | internal/run/runner.go:948-955 | where every fault in the proxy is such, nothing about faults is late |
| `LateRecords.UnappliedMayExcuse` | internal/proxy/fault.go:189-204 | a fault never applied, not stopped and not past its deadline at t can be applied late so that any wait that expired at t is excused |
| `LateRecords.DelayMayReopen` | internal/proxy/fault.go:247-263 | a delay applied by t and not stopped can be applied late so that its window lies open over t |
| `Owners.ComputeCollectible` | internal/cluster/collector.go:473-494 | an object is collected exactly where it names owners and each is of a resolvable kind, was read, and is missing or has another UID; it names every owner that cannot be resolved |
| `Collector.NextKeepsInv` | internal/cluster/collector.go:244-336 | every API call of the sweep or of any other writer keeps that an owner the sweep found gone does not exist |
| `Collector.CollectsOnlyOrphans` | internal/cluster/collector.go:244-336 | in every interleaving, a delete the API server accepts changes exactly the object judged, which names owners of watched kinds at served versions, of which none exists at that instant by kind, name and UID |
| `Collector.OrphanIsCollected` | internal/cluster/collector.go:244-336 | a run in which an owner is removed and a sweep reads so and deletes the object it owned |
| `CollectorCascade.LiveOwners` | internal/cluster/collector.go:283-308 | every resolvable owner the objects name is read, and each read is what the API server holds |
| `CollectorCascade.Sweep` | internal/cluster/collector.go:244-255 | with no other writer, one sweep deletes exactly the objects whose owners are all gone, whatever order they are listed in |
| `CollectorCascade.SweepSpares` | internal/cluster/collector.go:244-308 | no sweep takes an object from a set in which each has a reason to stay |
| `CollectorCascade.Cascade` | internal/cluster/collector.go:244-308 | repeated sweeps end within one more than there are objects and leave the greatest set that keeps itself |
| `Wakeups.NoLostWakeup` | internal/cluster/collector.go:222-241 | whenever a cached event is unread, a token, a notify or a running sweep will still read it; a failed sweep is always followed by another |
| `Wakeups.AtRestNothingIsUnread` | internal/cluster/collector.go:222-278 | once nothing is pending, every event has been read |
| `Sequences.Validate` | internal/run/sequence.go:236-301 | accepts exactly the non-empty sequences whose ops carry just the fields their types take, whose faults have one action and end after they begin, whose last op is judged and whose deleted fixtures come back before another op acts on them |
| `Sequences.FieldsMean` | internal/run/sequence.go:308-344 | an op carries exactly the fields the table of its type names |
| `Sequences.FaultMeans` | internal/run/sequence.go:440-477 | a fault has exactly one action, a matcher that can match and an end after its op |
| `Sequences.ValidateFixtures` | internal/run/sequence.go:263-282 | one pass that remembers each fixture's last delete accepts exactly where each deleted fixture comes back by the last op and no op acts on it while it is gone |
| `Sequences.OnlyLastMatters` | internal/run/sequence.go:263-282 | an op clear of a fixture's last delete is clear of every earlier one |
| `Sequences.CheckCRs` | internal/run/sequence.go:369-407 | one pass over two maps accepts exactly where each op suits the last earlier op that created, recreated or deleted its CR: a create follows none or a delete with a settling op from it on, a recreate any, an update or delete a writer |
| `Sequences.LastTouchIsLast` | internal/run/sequence.go:370-405 | that op touches the CR and no op after it does |
| `Removal.ComputeWithout` | internal/run/shrink.go:181-206 | deleting, renumbering and re-targeting in place puts each op left, with what ends it moved, where the op it was stood |
| `Removal.RemovalKeepsMeaning` | internal/run/shrink.go:181-206 | after removing an op, each fault stands and each deleted fixture is absent over exactly the surviving ops it was |
| `Removal.RemovalValidExactlyWhere` | internal/run/shrink.go:181-206 | the result is valid if and only if an op is left, the last settles and no deleteFixture named the removed last op |
| `Bound.ComputeBound` | internal/run/bound.go:31-94 | the loop over ops and the doubling loop over fault stops compute the bound, each sum rounded as the program rounds it |
| `BoundMeaning.TallyTells` | internal/run/bound.go:39-80 | with exact sums, the running totals after each op are what the ops so far wait for, type by type |
| `BoundMeaning.BoundMeans` | internal/run/bound.go:81-94 | with exact sums, n stops double n times what the run waits before them, each adding twice the longest delay, a settle wait, a hold and an exit, with the teardown and stop budget on top |
| `Bound.ComputeTotal` | internal/run/bound.go:18-29 | several runs' bounds add up, rounded, and are cut to the longest duration, which the result never exceeds |
| `Bound.RemovalNeverRaises` | internal/run/bound.go:31-94 | removing any op never raises the bound, under every rounding that keeps order |
| `Bound.MilderNeverRaises` | internal/run/bound.go:31-94 | putting a milder fault in place of a fault never raises the bound, under every such rounding |
| `Shrink.Halved` | internal/run/shrink.go:129-137 | a duration above the floor halves to a smaller one not below the floor |
| `Shrink.HalvingKeepsValid` | internal/run/shrink.go:103-137 | halving any axis of a fault keeps the sequence valid, makes the fault milder and lighter |
| `Shrink.Reproducing` | internal/run/shrink.go:73-91 | a candidate is taken only if it is valid and its replay fails the same check; malformed and unchanged ones are not replayed |
| `Shrink.Weaken` | internal/run/shrink.go:51-70 | an op that could not be weakened fails no more with half its count, half its duration or half its delay, down to ten milliseconds |
| `Shrink.Pass` | internal/run/shrink.go:27-46 | a pass that simplified nothing before the deadline leaves a local minimum |
| `Shrink.Minimize` | internal/run/shrink.go:17-46 | shrinking ends at a valid sequence that is the input or a simpler one that fails the same check; with no deadline, removing an op or halving a count, duration or delay never leaves a failing valid one; every replay is valid, simpler and within the original's bound |
| `Names.NamesDiffer` | internal/generate/generate.go:302-307 | no two CRs of a sequence share a name |
| `Generator.BringBack` | internal/generate/generate.go:240-244 | each deleted fixture comes back at the first later op that settles |
| `Generator.Checkpoint` | internal/generate/generate.go:215-246 | the result is the drawn ops in order and settles: one before each restart or deleteManaged that no settling op precedes, one after each restart that no drawn settle follows, one at an unsettled end, and none elsewhere; each deleted fixture comes back at the first later settling op |
| `Generator.CheckpointedMeans` | internal/generate/generate.go:215-246 | the same of the function the method computes, with the place of each drawn op |
| `Generator.EligibleStarts` | internal/generate/faults.go:124-132 | lists exactly the positions after an op that settles whose op is not a settle, restart or deleteManaged |
| `Generator.InsertFault` | internal/generate/faults.go:60-116 | the fault goes in at its place and ends at a settle right after the first op from there that settles; every other op keeps its order; the ops stay as they were where none settles |
| `Generator.InsertedMeans` | internal/generate/faults.go:60-116 | the same of the function the method computes |
| `GeneratorSoundness.UntilsMakeValid` | internal/generate/generate.go:215-246 | once each deleted fixture comes back by the next settling op, a judgeable sequence passes the validator |
| `GeneratorSoundness.JudgedIsPartial` | internal/generate/generate.go:215-246 | with the waits in, every prefix of ops that delete no fixture still gone is well shaped, brackets its restarts and deletes no fixture twice without a settle between |
| `GeneratorSoundness.CheckpointedIsJudgeable` | internal/generate/generate.go:158-246 | every draw, with its waits in, ends on an op that settles, is well shaped, brackets its restarts, deletes no fixture twice without a settle between and holds no fault yet |
| `GeneratorSoundness.InsertedIsJudgeable` | internal/generate/faults.go:60-116 | inserting a fault keeps all of that |
| `GeneratorSoundness.FaultEndsAtItsSettle` | internal/generate/faults.go:60-116 | the inserted fault ends at the settle inserted for it, right after an op that settles |
| `GeneratorSoundness.NothingUnjudgedUnderAFault` | internal/generate/faults.go:60-132 | no restart or deleteManaged lies between a fault and the settle that ends it |
| `GeneratorSoundness.RosterImpliesCRs` | internal/run/sequence.go:369-407 | a sequence that creates no CR twice and acts only on CRs it created passes the CR check |
| `GeneratorSoundness.EveryDrawIsSound` | internal/generate/generate.go:158-169 | every drawable sequence brackets each restart, follows a settling op with each deleteManaged and holds at most three ops per op drawn; it passes both checks exactly where its fault, if any, has an action |
| `GeneratorSoundness.ShortWindowDrawsNoAction` | internal/generate/faults.go:154-170 | a shorter stable window can draw a sequence the validator refuses |
| `GeneratorSoundness.SoundExactlyWhere` | internal/generate/faults.go:135-170 | everything drawable passes both checks if and only if no fault can be drawn, only the create may be drawn, or the stable window is at least two milliseconds |
| `FaultProxy.Proxy.AddFault` | internal/proxy/fault.go:92-102 | the new fault goes last, unapplied, and its ID is its position |
| `FaultProxy.Proxy.RemoveFault` | internal/proxy/fault.go:105-109 | only the named fault changes, stamped the first time it is removed |
| `FaultProxy.Proxy.ClearFaults` | internal/proxy/fault.go:112-118 | every fault is removed and keeps an earlier stamp |
| `FaultProxy.Proxy.FaultFor` | internal/proxy/fault.go:189-263 | only the first fault that has not stopped and whose matcher takes the request changes: one application more, its first and last stamped, and for a delay one open hold |
| `FaultProxy.Proxy.Release` | internal/proxy/fault.go:268-274 | only the hold's release changes |
| `FaultProxy.Proxy.Window` | internal/proxy/fault.go:134-140 | zero while the fault is active or holds a request, else the later of its retirement and its last release |
| `FaultProxy.Proxy.Held` | internal/proxy/fault.go:146-161 | of the requests that arrived before t, whether one is held and the latest release, both directions |
| `FaultProxy.RetirementMeans` | internal/proxy/fault.go:210-216 | a fault is retired at the earliest of its spent count, its removal and its deadline if that has come, and not before one of them |
| `FaultProxy.EndMeans` | internal/proxy/fault.go:220-234 | it ended at the later of that and the last release, once every hold is released |
| `FaultProxy.TakesMeans` | internal/proxy/fault.go:38-52 | an active fault takes a request exactly where every field its matcher sets fits and the fraction draw falls within it |
| `FaultProxy.LastReleaseIsLast` | internal/proxy/fault.go:220-234 | a window ends no earlier than any release, and at one or at the retirement |
| `FaultRuns.RunKeepsInv` | internal/proxy/fault.go:189-216 | in every run, however stale the readings, applications, stamps and holds of each fault stay consistent |
| `FaultRuns.Perform` | internal/proxy/fault.go:92-274 | the proxy's methods take its faults from each state of the machine to the next |
| `FaultRuns.CountIsKept` | internal/proxy/fault.go:189-204 | in every run a count fault is applied at most that many times |
| `FaultRuns.ClosedWindowIsFinal` | internal/proxy/fault.go:134-274 | once a window reads as closed, no later step applies the fault, opens a hold or moves either end; only a fault with a duration asks that no older reading reach it |
| `FaultRuns.ReadingsAgreeExactlyWhere` | internal/proxy/fault.go:210-234 | two readings report the same end if and only if the fault has no duration, they fall on the same side of its deadline, or its stop decides the end on both |
| `FaultRuns.ReopensExactlyWhere` | internal/proxy/fault.go:247-253 | a request reaches a closed fault exactly where only its deadline closed it and the request's reading is older |
| `FaultRuns.WindowHoldsAllExactlyWhere` | internal/proxy/fault.go:120-140 | in every run, in any order, a fault's window holds every application and release if and only if the request served first read the clock first and, unless a delay held them, the one that spent the count read it last |
| `FaultRuns.WindowHoldsAll` | internal/proxy/fault.go:120-140 | so it does wherever the fault's requests reach the lock in the order they read the clock |
| `FaultRuns.StaleRequestReopens` | internal/proxy/fault.go:247-250 | a run in which a stale request is faulted after its fault's window closed |
| `FaultRuns.StaleRequestsInvertWindow` | internal/proxy/fault.go:189-204 | a run in which a count fault's window ends before it begins |
| `RunnerFaults.DoKeepsFinal` | internal/run/runner.go:933-955 | no move of the Runner or the proxy changes a final window, unless a read finds it open |
| `RunnerFaults.DroppedFaultIsFinal` | internal/run/runner.go:920-955 | in every run, a fault the Runner dropped has a closed window in the timeline, the one the proxy reports at every later reading |
| `RunnerFaults.FinalWindowStays` | internal/run/runner.go:933-955 | a final window that no read finds open again stays as it is, and the fault is not applied again, whatever the run goes on to do |
| `RunnerFaults.DroppedWindowStays` | internal/run/runner.go:933-941 | so does that of any dropped fault |
| `RunnerFaults.InOrderIsCurrent` | internal/proxy/fault.go:134-140 | readings that reach the lock in the order they were made meet what these ask of readings |
| `RunnerFaults.DroppedWindowHoldsAllExactlyWhere` | internal/run/runner.go:930-955 | the window of a dropped fault that the checks receive holds every application and release exactly where those two readings are in order |
| `RunnerFaults.DroppedWindowHoldsAll` | internal/run/runner.go:930-955 | so it does where that fault's requests come in order |
| `RunnerFaults.EngineFaults` | internal/run/checks.go:135-144 | the checks receive exactly the windows of faults the proxy applied |
| `SettleWait.HeldOpen` | internal/run/settle.go:110-119 | the answer lies ahead of now exactly while the deadline does or a request that arrived before it is held or was released less than a settle timeout ago |
| `SettleWait.Turn` | internal/run/settle.go:69-103 | a poll converges exactly where the target is ready and all has been quiet for the stable window, and gives up exactly where the settle timeout, the floor and what is owed are up and no request that arrived before the latest of them was held within a settle timeout |
| `SettleWait.UndecidedIsEarly` | internal/run/settle.go:87-99 | a poll that may not give up reads the clock before the limit |
| `SettleWait.Run` | internal/run/settle.go:67-104 | the wait returns at the first poll that may converge or give up in those terms; every earlier poll read the clock before the latest deadline plus the longest handoff and hold plus a settle timeout, and the last one no later than a poll past that |
| `VersionStore.PositionsAreExact` | internal/observe/store.go:203-212 | a key's positions are exactly where the log holds it, each once and in order |
| `VersionStore.DeliveredAgain` | internal/observe/store.go:69-73 | a delivery the store already holds changes nothing |
| `VersionStore.Store.Record` | internal/observe/store.go:203-212 | the index stays exact and no key's history repeats a UID, resourceVersion and deletion in a row |
| `VersionStore.DeliveredMeans` | internal/observe/store.go:203-212 | a delivery is ignored exactly where the key's last version in the log has its UID, resourceVersion and deletion |
| `VersionStore.Store.History` | internal/observe/store.go:90-99 | the versions of the key in the log, in order, with no repeats |
| `VersionStore.Store.LatestAt` | internal/observe/store.go:239-248 | the last recorded version of the key by t, as reading the whole log gives it |
| `VersionStore.Store.SnapshotAt` | internal/observe/store.go:179-194 | exactly the keys live at t, each with its last recorded version |
| `VersionStore.StateOfMeans` | internal/observe/store.go:179-248 | the snapshot holds the last version recorded by t of each key that it does not show deleted, and nothing else |
| `VersionStore.HistoryGivesLatest` | internal/observe/store.go:239-248 | one object's history gives the same last version as the whole log |
| `VersionStore.SweepGivesNewest` | internal/invariant/state.go:23-35 | sweeping the sorted log gives each object's newest version, the last recorded at one instant |
| `VersionStore.AgreeExactlyWhere` | internal/invariant/invariant.go:347-363 | store and sweep show the same version of an object at t if and only if its last recorded version by t is its newest |
| `VersionStore.SweepAgreesWithSnapshot` | internal/invariant/state.go:23-78 | where each key's times never decrease, the sweep and the store show the same live objects at every instant watched |
| `Supervisor.OneProcessAtATime` | internal/launch/binary.go:134-177 | in every interleaving at most one process that was started has not exited |
| `Supervisor.ReplacedStaysReplaced` | internal/launch/binary.go:272-284 | a replaced process never runs again, so its timer starts nothing |
| `Supervisor.NothingStartsAfterStop` | internal/launch/binary.go:313-325 | after a Stop that ended the process nothing starts until Start |
| `Supervisor.NothingStartsAtRest` | internal/launch/binary.go:313-358 | once Stop brought rest, nothing starts until a caller starts, supervises or restarts the target |
| `Supervisor.NothingStartsOnceEnded` | internal/launch/binary.go:259-284 | once supervision has ended, no exit and no timer starts the target again |
| `Supervisor.StopBringsRest` | internal/launch/binary.go:313-340 | Stop leaves nothing supervised and no timer that could start the target if and only if it sees the exit it waits for or no timer is pending for the running process |
| `Supervisor.MissedExitRestarts` | internal/launch/binary.go:327-340 | a whole run from the start in which a Stop whose select takes its own timer over the exit leaves a timer that starts the target |
| `Supervisor.NextIsWatched` | internal/launch/binary.go:236-289 | while supervised, a target seen to exit has a pending timer or is said to stay down |
| `Supervisor.WaitsNeverDecrease` | internal/launch/binary.go:291-308 | in every run the waits before restarts start at none, never decrease and never exceed the cap |
| `Supervisor.WaitDoubles` | internal/launch/binary.go:291-308 | the first restart waits for nothing, the second for the base, each later one twice the one before, up to five minutes |
| `Supervisor.Binary.Backoff` | internal/launch/binary.go:293-308 | the doubling loop gives none for the first restart, then the base times a power of two, up to the cap |
| `Supervisor.Binary.Start` | internal/launch/binary.go:134-144 | starts a process exactly where none runs, the context stands and the exec succeeds |
| `Supervisor.Binary.Supervise` | internal/launch/binary.go:236-243 | supervision begins, and a target already seen to exit is given a timer or up |
| `Supervisor.Binary.Reap` | internal/launch/binary.go:247-254 | only an exit of the running, supervised process leads to a restart |
| `Supervisor.Binary.Fire` | internal/launch/binary.go:272-284 | starts the target again unless the process was replaced, supervision ended or the exec fails |
| `Supervisor.Binary.Stop` | internal/launch/binary.go:313-325 | supervision ends, and the process is let go exactly where it has exited and Stop sees so |
| `Supervisor.Binary.Restart` | internal/launch/binary.go:344-358 | another process starts only once the running one has exited |
| `MergePatch.Apply` | internal/run/merge.go:8-25 | the loop, in any field order, gives the result section 2 of RFC 7386 defines |
| `MergePatch.UnmentionedStays` | internal/run/merge.go:8-25 | a field the patch does not mention stays as it was, present or not |
| `MergePatch.UnmentionedStaysDeep` | internal/run/merge.go:8-25 | so does any path of fields the patch does not mention, at any depth |
| `MergePatch.MentionedIsSet` | internal/run/merge.go:13-21 | a value in the patch that is no object stands at its path in the result, and a null leaves nothing there |
| `MergePatch.ObjectIsMade` | internal/run/merge.go:19-22 | where the patch has an object, so has the result |
| `MergePatch.Idempotent` | internal/run/merge.go:8-25 | applying a patch twice is applying it once, for every target and patch |
| `MergePatch.PatchStoresNoNull` | internal/run/merge.go:8-11 | a null removes a field and is never stored |
| `ErrorLoop.ComputeSpecSetAt` | internal/invariant/g6.go:107-118 | the last op by t that gave a spec or fixture, or the teardown if it came later |
| `ErrorLoop.LastGivenMeans` | internal/invariant/g6.go:107-113 | it is the time of the last op of the log, in its order, that gave anything by t |
| `ErrorLoop.Densest` | internal/invariant/g6.go:122-134 | a run of neighbours within the window such that no window, wherever it begins, holds more |
| `ErrorLoop.NoLargerSet` | internal/invariant/g6.go:122-134 | no set of requests within a window of each other, contiguous or not, is larger |
| `ErrorLoop.SortKeepsCounts` | internal/invariant/g6.go:57-85 | sorting a group changes no window's count |
| `ErrorLoop.Grouped` | internal/invariant/g6.go:57-85 | each group holds exactly the failing, unfaulted requests of its key and stretch |
| `ErrorLoop.NoErrorLoop` | internal/invariant/g6.go:17-32 | a group is reported if and only if more than the threshold of its requests start within one settle timeout, once, in the order of first requests, with a run of neighbours that no window exceeds |
| `Evidence.Turn` | internal/invariant/g5.go:184-191 | one turn keeps one more of each object that has one left, until the bound, and at least one |
| `Evidence.Allot` | internal/invariant/g5.go:178-191 | exactly the lesser of the total and the bound is kept, never more than an object has, max-min fairly |
| `Evidence.Spread` | internal/invariant/g5.go:178-197 | the excerpt quotes the first of each object's differences, in order, in those shares, and counts them all |

## Left out

- API clients, informers, HTTP serving, process signals and file output: only their outcomes enter, as free choices.
- CEL predicates, CRD schemas and value drawing: Ready, admission and drawn values are free choices.
- Violation statements, notes, reports and error wording: a check's result is which wait, group or sequence it names.
- `WaitOwed`, `RecreateOwed`, `restartOwed` and the other bounds a wait is given: the settle wait takes what is owed as any instant a poll reads.
- G1, G2, G5's comparison and the rest of G3 and G4: shallower reads of the same timeline.
- Runner teardown, readiness before the run and target-log scraping.
- The claim that the bound covers a run's wall time, which rests on API latency.
- Closing of the supervisor's `gone` channel, and `failed` staying set after a later restart.
- Glob syntax and fraction generators: a request carries the patterns it matches, and each fault's next draw is free.
- VerdictStability.VerdictStable: assumes that both recordings hold everything stamped by the wait's end, requests with their final status, and that both show election or neither does; `VerdictOverturns.OverturnedExactlyWhere` says exactly when a verdict changes as statuses and election come in.
- VerdictOverturns.OverturnedExactlyWhere: assumes that no request, version, exit or fault stamped by the wait's end is recorded after the first recording (`NothingLate`), which the source does not ensure; a request with status 0 that the proxy did not drop may yet be answered; one whose client hung up never is, which the log does not show.
- FaultRuns.ClosedWindowIsFinal: for a fault with a duration it asks that no request reach the fault with an older reading, because the source reads the clock before the lock and finality fails otherwise, as `FaultRuns.ReopensExactlyWhere` says exactly.
- BoundMeaning.BoundMeans: the closed form is that of exact sums.
- VerdictMeaning.ExcusedIs: for waits that ended by the end of the recording, in runs whose exits are stamped above zero.
- Bound.ComputeBound: the rounding is any that keeps order and keeps round numbers, 0 and 1 among them, so it does not fix which numbers a float64 holds.
- ErrorLoop.NoErrorLoop: groups whose first requests started at one instant come in any order, where the source goes on to compare their names.
- VerdictOverturns.RunnerAndEngineAgree: assumes the same of every snapshot of the run (`OnTime`).
- LateRecords.QuietFaultsAreOnTime: assumes that no fault injected later is applied at a reading by t, which only a request that waited for the lock across the injection could do.
- RunnerFaults.DroppedFaultIsFinal: the Runner's calls are steps on values between which the proxy may move, so updating its fields in place is not modelled.
- MergePatch.Apply: maps are values, so it does not model that the object is changed in place and shares the patch's values.
- VersionStore.Store.SnapshotAt: gives a map, so it does not model the order by kind and name.
- CollectorCascade.Cascade: an object with a finalizer stays, marked for deletion, because what removes the finalizer is another writer.
- Generator.InsertFault: the draw of start and fault is a parameter, so shrinking inside the random source is not modelled.
