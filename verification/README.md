# Verified model of the orb operator

The operator has two controllers. A ClusterObjectDeployment stamps out numbered revisions, which are
ClusterObjectSets, and archives and prunes the old ones. A ClusterObjectSet rolls its phases out in order
through the boxcutter library, records what it saw in its status, and tears the phases down again when it is
archived or deleted. Both read through a cache that may lag behind the API server, and any call may fail.
This project models both controllers and proves what holds in every run of them.

`dafny verify dfyconfig.toml` checks everything.

## How the model is built

Each loop and each object that the Go code changes step by step is a Dafny method or class, proved equal to a
specification function; the theorems are about those functions.

| file | models |
|---|---|
| Api, Boxcutter | the API types with the CRD's validation rules on a status; what boxcutter may answer |
| Engine, EngineProofs, EngineCalls | one reconcile of a revision: gated walk, drift phases, read-only phases; teardown; what it calls, exactly |
| Status, StatusProofs, PhaseLaws | folding an outcome into the stored status; what it shows of each phase, exactly |
| Resolver, ContentPinning | slices and their index, resolving contents, and why one hash pins every object |
| CosController | one pass of the ClusterObjectSet controller against a store with a lagging cache |
| CosRuns, CosRollout, CosStored | all runs of it: finalizer, order of the rollout, stored statuses |
| CosLaws | one pass of it: when the finalizer comes and goes, and what is reported, exactly |
| Witness | one definite run of it: a rollout, an internal error and the recovery |
| Revisions, Chain, Naming, Progress | revision lists, chain and siblings, names, the progress deadline |
| CodController | one pass of the ClusterObjectDeployment controller: the calls it makes and what the server does |
| CodListing, CodEffects, CodConvergence | what a pass on a fresh view comes to, and where passes come to rest |
| CodLaws | what a pass calls, keeps and reports, exactly |
| CodGroup, CodRuns | all runs of it, under lagging caches, each revision with a run of its own controller |

A run is a sequence of steps. For a ClusterObjectSet: a pass with any answers, errors and lost writes; the
cache catching up by any amount; and others archiving, deleting, orphaning, touching or removing the object.
For a deployment: a pass that is cut off after any number of calls; both caches catching up; the template
changing; a step of the object of one of its revisions, which carries a run of its own from the moment it was
created; and an object that was released going away.

### What is assumed of the surroundings

- Phase names of one revision are distinct. The CRD does not enforce it; `SplitLosesNothingIff` says exactly
  when the code is right without it.
- boxcutter (`Boxcutter.Contract`, `TeardownContract`): a gated reconcile walks the phases in order and stops at
  the first incomplete one, a complete one covers all phases, a paused reconcile finds a phase complete only if
  this revision wrote it before, teardown walks backwards, and without an error there is a result.
- A status write and a finalizer patch succeed only on the current version of the object; a cache never goes
  back; nobody else removes the finalizer, and neither `archived` nor `deleting` is ever undone.
- In runs of the deployment controller, only it creates, archives and deletes revisions of the group, and the
  history limit stays as it is. `PassOutcome`, `SomeActiveLeftIff` and `Converges` drop this.
- Two revisions with one number have one name, so the second create fails (`NamesIdentify`), and the CRD refuses
  number 0 (api/v1alpha1/types_clusterobjectset.go:81), which is what follows the highest 32-bit number.
- The server refuses a second controller reference on an object, and a claim that would make an archived revision
  active again (api/v1alpha1/types_clusterobjectset.go:68).
- A server-side apply creates what it does not find, from the copy the controller holds, except for the
  finalizer: that apply carries no spec, so it fails on an object that is gone.
- SHA-256, gzip, the JSON decoder, the template hash and the clock are parameters.

### Where the code and its documentation differ

- The history limit defaults to 5 (internal/controller/cod/controller.go:33); the API documentation says 10
  (api/v1alpha1/types_clusterobjectdeployment.go:37). The model has 5.
- A phase's `completedAt` is documented as never cleared (api/v1alpha1/types_clusterobjectset.go:219-223). An
  internal error, or an error without a result, empties the phase list. `ListEmptiedIff` is the exact
  condition and `WipedTimeIsSetAnew` a run that shows it.
- A phase's total is documented as its number of objects. A revision that fails validation shows zeros:
  `TotalsExactIff`.
- `activeRevisions` is documented to include any revision just created
  (api/v1alpha1/types_clusterobjectdeployment.go:112-113). The in-memory list is not updated, so the revision a
  pass creates is missing: `AllReportedIff` is the exact condition and `FirstRevisionIsNotReported` an input.
- Nor does pruning see what the same pass archived; `OnePassIsEnoughIff` says when that matters. And a revision
  that is being deleted still counts against the limit, so that deleting a high one by hand costs another one:
  `Converges` has the exact condition and `HandDeletionLeavesFewer` is an input.
- Once `resolvedContentHash` is stored, content substitution is meant to be detected. A pass on a cached copy
  from before still runs on other contents: `HashBindsRuns` says of which runs the hash holds, and
  `StaleCopyIsNotPinned` shows the others.
- The CRD caps each message at 1024 characters (api/v1alpha1/types_clusterobjectset.go:309). The messages of a
  paused object are not truncated (internal/status/cos/status.go:419-434), so a long enough list of changed
  fields gives a status that the server refuses. Messages are not part of this model.

## Model

| member | source | states |
|---|---|---|
| RevisionEngine.SplitPhases | internal/revision/engine.go:201-222 | for any phase list, the loop's two groups are those of the simple specification: the longest completed run of the remaining phases and one more, or none; and the rest, less repeats of the name at the cut |
| RevisionEngine.PhasesAfter | internal/revision/engine.go:225-242 | the phases after the first one of that name, without gated ones |
| EngineProofs.CompletedPrefix | internal/revision/engine.go:201-222 | the run that the split counts is the longest prefix of completed phases |
| RevisionEngine.SplitLosesNothingIff | internal/revision/engine.go:201-242 | for any phase list, drift followed by read-only is all remaining phases in order if and only if the phase at the cut shares its name with no later one |
| RevisionEngine.SplitLosesRepeatedPhase | internal/revision/engine.go:225-242 | an input, with any objects, on which a phase is lost |
| RevisionEngine.SplitIsACut | internal/revision/engine.go:201-242 | with distinct names the two groups are the remaining phases cut at one place |
| RevisionEngine.ExceptPrefix | internal/revision/engine.go:145-175 | after a gated walk over a prefix, the remaining phases are the suffix |
| RevisionEngine.Engine.CompletedPhaseNames | internal/revision/engine.go:244-252 | the names with a stored completion time, as the specification has them; what a pass makes of them is EngineCalls.PassExactly |
| RevisionEngine.Engine.ReconcileEach | internal/revision/engine.go:175-199 | phases are reconciled one by one until a call fails; results and calls are kept in order |
| RevisionEngine.Engine.Reconcile | internal/revision/engine.go:145-199 | result, error and calls are those of the specification, for every answer of boxcutter |
| EngineProofs.PassShape | internal/revision/engine.go:145-222 | within the contract, one pass calls the phases in spec order, each at most once, writes a phase only if every earlier one was just found complete or lies at or before one with a stored time, and reports on a prefix of the spec; without errors, on all of it |
| EngineCalls.PassExactly | internal/revision/engine.go:145-252 | within the contract, every pass call by call, from the stored list and the answers: after the gated walk, phases are called in order until a call fails; call i writes if and only if the first phase not reached and all up to just before i have a stored completion time, whatever else is stored of them; the pass fails if and only if the walk or such a writing call did |
| EngineCalls.ReportIsResult | internal/revision/engine.go:175-199 | the pass reports on each phase exactly the answer to its call, and nothing once an earlier call failed |
| EngineCalls.CompleteIsAllWritten | internal/revision/engine.go:66-76 | for any phase list and any gated walk, a pass without error is complete if and only if the walk was and every phase it still had to write was found complete |
| RevisionEngine.Teardown | internal/revision/engine.go:86-119 | waiting phases are added as incomplete read-only results with the objects that still exist |
| CosStatus.SumObjectCounts | internal/status/cos/status.go:40-52 | none for an empty list, otherwise the four sums that the CRD demands |
| CosStatus.Apply | internal/status/cos/status.go:28-38 | the new status, with the completion time set once and the counts recomputed from the phases |
| CosStatus.MapSpecPhases | internal/status/cos/status.go:314-354 | one entry for each phase of the spec, in spec order, from the last result of its name |
| CosStatus.BuildIncompletePhase | internal/status/cos/status.go:209-255 | the loop computes the specification's entry, which PhaseLaws.IncompletePhaseExactly pins down |
| CosStatus.InvalidPhases | internal/status/cos/status.go:163-186 | phases with errors are Invalid, the others unevaluated, and all counts are zero |
| CosStatus.PreserveCompletionTimes | internal/status/cos/status.go:398-413 | in place: a stored time is carried over by name, a newly available phase gets the time of now |
| CosStatus.FromReconcile | internal/status/cos/status.go:54-93 | the update of the specification, which CosLaws.ReportedExactly, PhasesExactly and RejectedExactly pin down |
| CosStatus.FromTeardown | internal/status/cos/status.go:95-121 | the update of the specification, which CosLaws.ReportedExactly and TornDownExactly pin down |
| CosStatusProofs.UpdateIsAdmissible | api/v1alpha1/types_clusterobjectset.go:101-107 | from any admissible status, with the hash set at most once, folding in an update gives an admissible status by an admissible change |
| CosStatusProofs.ReconcileUpdateFolds | internal/status/cos/status.go:54-93 | every reconcile outcome gives an update of the kind that lemma needs |
| CosStatusProofs.TeardownUpdateFolds | internal/status/cos/status.go:95-121 | and so does every teardown outcome |
| CosStatusProofs.AvailableIsExact | internal/status/cos/status.go:54-93 | within the contract, an error-free reconcile sets Available=True if and only if every phase of the spec is shown as Available, and then each has a completion time and full counts |
| CosStatusProofs.ErrorFreeShowsAll | internal/status/cos/status.go:314-354 | an error-free pass shows every phase of the spec once, in order, none as Unknown |
| CosStatusProofs.IncompleteCounts | internal/status/cos/status.go:209-255 | synced ≤ present ≤ evaluated, available plus listed is evaluated, and WaitingForAssertions exactly when nothing is paused and all objects of the spec are synced |
| PhaseLaws.IncompletePhaseExactly | internal/status/cos/status.go:209-255 | present, synced and available are the numbers of the objects that exist, are in sync and are complete; the listed ones are the incomplete ones in order; and each status holds exactly when it should |
| CosStatusProofs.TotalsExactIff | internal/status/cos/status.go:150-186 | the totals are the numbers of objects of the spec if and only if the revision did not fail its validation, or has no objects |
| CosStatusProofs.TeardownShape | internal/status/cos/status.go:273-312 | within the contract, a teardown status reads, in spec order, waiting phases, at most one being torn down, then finished ones; finished ones have nothing present, and present never exceeds total |
| PhaseLaws.PresentExactly | internal/revision/engine.go:86-119 | a waiting phase lists exactly the objects that the reader still finds, in order |
| PhaseLaws.FailedTeardownExactly | internal/revision/engine.go:86-90 | a teardown that failed shows the last result of each phase, whatever boxcutter returned, and phases without one as unevaluated, even those that wait |
| Resolver.ClusterObjectSlice.Transform | internal/object/transform.go:9-21 | in place: the objects become a map from key to content, the list is emptied |
| Resolver.LookupInSlice | internal/object/resolver.go:134-145 | the indexed content, or without an index the first entry of that key |
| Resolver.IndexAgreesWithScan | internal/object/transform.go:9-21 | for distinct keys, every lookup, present or absent, is the same with and without the index |
| Resolver.IndexAgreesIff | internal/object/resolver.go:134-145 | for any list, the two agree on a key if and only if its first and its last entry have the same content |
| Resolver.TransformTwiceIsEmpty | internal/object/transform.go:9-21 | a second transform loses every entry |
| Resolver.ResolveRaw | internal/object/resolver.go:80-106 | inline content, or the slice's, unzipped if it is gzip |
| Resolver.Resolve | internal/object/resolver.go:44-78 | the contents of all objects in spec order and the bytes hashed, or an error if any is missing or does not parse |
| Resolver.ContentsIff | internal/object/resolver.go:44-78 | objects resolve to a list of contents if and only if each one resolves to its own, and that parses |
| Resolver.StorageIsTransparent | internal/object/resolver.go:80-106 | an object inline, or zipped in a slice, stands for the same content; plain in a slice it does if and only if it does not start like gzip, or unzips to itself |
| ContentPinning.CutUndoesConcat | internal/object/resolver.go:44-78 | the hashed bytes, which have no separators, can be cut back into the texts of the single objects |
| ContentPinning.SameHashSameObjects | internal/object/resolver.go:124-132 | for a hash without collision on the two inputs, equal hashes mean the same object texts one by one |
| ContentPinning.JsonObjectIsOneText | internal/object/resolver.go:156-162 | every JSON object, whatever its strings and escapes hold, is one brace-delimited text |
| ContentPinning.JsonObjectIsContent | internal/object/resolver.go:156-162 | a JSON object with white space around it is one such text and nothing else, as the cutting needs |
| CosController.Reconciler.Reconcile | internal/controller/cos/controller.go:130-146 | a pass changes store, cache and log as specified, for every outcome of every call |
| CosController.Reconciler.ReconcileActive | internal/controller/cos/controller.go:148-170 | siblings, finalizer first, then the engine and a status write if the status changed |
| CosController.Reconciler.DoReconcile | internal/controller/cos/controller.go:172-191 | the hash is verified or pinned in the copy before the engine runs |
| CosController.Reconciler.EnsureFinalizer | internal/controller/cos/controller.go:288-301 | the finalizer is stored, unless the object is gone or being deleted |
| CosController.Reconciler.Teardown | internal/controller/cos/controller.go:193-220 | orphan deletes release at once; otherwise tear down, report, and release only if that worked and nothing is left; when the finalizer goes is CosLaws.FinalizerGoesIff |
| CosController.Reconciler.ReleaseFinalizer | internal/controller/cos/controller.go:303-314 | the finalizer goes only on the version acted on |
| CosLaws.FinalizerGoesIff | internal/controller/cos/controller.go:193-220 | from any world whose current version shows the finalizer, a pass leaves it without if and only if it acts on that version, retired and not gone, freeing and patching work, and it is an orphan delete or a complete teardown without error whose status is unchanged or written |
| CosLaws.FinalizerComesIff | internal/controller/cos/controller.go:148-161 | a pass adds the finalizer if and only if its view is active and shows none, no call fails, and the object is there and not being deleted |
| CosLaws.LiveExactly | internal/controller/cos/controller.go:148-220 | a phase counts as live after a pass if and only if the pass wrote it, or it was live and no teardown without error reported it complete; an orphan delete takes none down |
| CosLaws.MarksExactly | internal/controller/cos/controller.go:193-220 | a pass marks the object as retired, released or orphaned if and only if its view is retired, it removed the finalizer, and it did so by an orphan delete |
| CosLaws.EngineRunsIff | internal/controller/cos/controller.go:148-191 | the engine runs, once, if and only if the view is active with the finalizer, siblings, contents and access are there, and the stored hash allows them |
| CosLaws.ReportedExactly | internal/status/cos/status.go:54-139 | the condition of every pass, its status and reason, and its hash and completion time, from the copy and the environment: which calls failed, whether the contents fit the stored hash, and what the gated walk returned |
| CosLaws.PhasesExactly | internal/status/cos/status.go:200-255 | phase by phase, what a pass that gets to boxcutter shows: unevaluated, complete or incomplete with exact counts, by the answer to its call, and the completion time |
| CosLaws.RejectedExactly | internal/status/cos/status.go:150-198 | and what it shows of a revision that failed its validation or was superseded |
| CosLaws.TornDownExactly | internal/status/cos/status.go:273-312 | and what a teardown without error shows: waiting, being torn down or done, with the objects that are left |
| CosRuns.FinalizerProtectsObjects | internal/controller/cos/controller.go:141-220 | in every run: objects written and not torn down imply a stored finalizer, unless the object was deleted as an orphan; and the finalizer is removed only with nothing left, or by an orphan delete |
| CosRuns.NothingWrittenAfterRetiring | internal/controller/cos/controller.go:141-146 | in every run: after a pass acted on an archived or deleting version, no phase is reconciled and the engine does not run |
| CosRollout.PhasesRollOutInOrder | internal/revision/engine.go:145-222 | in every run, with regressions, errors, lost writes, wiped lists and stale copies: a phase is written only after each earlier one was found complete |
| CosStored.EveryStatusIsAdmissible | api/v1alpha1/types_clusterobjectset.go:101-107 | in every run, each stored status, and each change of it, meets the CEL rules of the CRD, and its phase list is keyed by name, and empty or the phases of the spec |
| CosStored.SetOnce | api/v1alpha1/types_clusterobjectset.go:101-102 | in every run, completion time and hash never change between any two versions once set |
| CosStored.PhaseTimesSurvive | api/v1alpha1/types_clusterobjectset.go:201 | in every run, a phase's time survives between any two versions with no emptied list in between |
| CosStored.PhasesEmptiedIff | internal/status/cos/status.go:123-161 | a pass computes an empty phase list if and only if, with the objects resolved, it had no access to the cluster or boxcutter gave no result |
| CosStored.ListEmptiedIff | internal/controller/cos/controller.go:148-220 | in every run, a stored list goes from filled to empty if and only if such a pass acts on the current version and its status is written |
| CosStored.AvailableIsSound | internal/status/cos/status.go:54-93 | in every run, a stored Available=True means all phases Available with times, a completion time, all four counts equal to the number of objects, and one single recorded pass that wrote all phases in order and found each complete |
| CosStored.CompletePassIsAvailable | internal/controller/cos/controller.go:148-191 | from any history, a pass that meets no obstacle and whose gated walk finds every phase complete leaves the object Available |
| CosStored.FirstTimes | internal/status/cos/status.go:398-413 | a pass without errors over an empty list gives its own time to exactly the phases it found complete |
| CosWitness.RolloutAndRecovery | internal/controller/cos/controller.go:148-191 | a definite run: finalizer, first phase complete, both complete and Available, internal error with the list emptied, Available again with other times; so the assumptions can be met together |
| CosWitness.WipedTimeIsSetAnew | internal/status/cos/status.go:133-139 | that run stores two versions with different completion times of one phase, by changes that the CRD allows |
| CosStored.HashBindsRuns | internal/controller/cos/controller.go:172-191 | in every run, a stored hash is that of the contents of every engine run, the one that stored it included, unless that run's copy showed no hash and its status write was refused |
| CosStored.ContentIsPinned | internal/object/resolver.go:124-132 | in every run, any two engine runs that stored the hash or saw it used the same object texts, one by one |
| CosStored.StaleCopyIsNotPinned | internal/controller/cos/controller.go:148-170 | two passes on a copy without the hash run the engine on whatever each resolved; the hash of the first is stored, and the second is of the refused kind |
| CosStored.MilestoneNeverEarlier | internal/status/cod/progress.go:34-39 | in every run, the last milestone never moves back while no list is emptied |
| RevisionChain.BuildChain | internal/revision/chain.go:19-39 | sorts the members in place, newest first, and returns their chain |
| RevisionChain.SiblingsOf | internal/revision/chain.go:41-52 | the chain's active members but the revision itself, in order |
| RevisionChain.FilterByOwner | internal/revision/chain.go:67-76 | the members of the same controlling owner, in order |
| RevisionChain.ClassifiedPartitions | internal/revision/chain.go:19-39 | every member is in exactly one part of the chain, and the parts are what their names say |
| RevisionChain.OneNotionOfLatest | internal/controller/cod/controller.go:171-178 | chain head, backward scan and last of the filtered list are the same revision, the active one with the highest number, for any members |
| RevisionChain.ChainDescends | internal/revision/chain.go:19-52 | for any members, each part of the chain, and the siblings, run from the newest to the oldest |
| RevisionChain.SiblingsExactly | internal/controller/cos/controller.go:267-275 | siblings are exactly the other active revisions with a controller of the same kind and name, or with none as well; among active ones the relation is symmetric |
| Naming.NamesIdentify | internal/template/template.go:24-53 | two stamped names are equal if and only if group and number are |
| Naming.DigitsAreDecimal | internal/template/template.go:24-53 | the number in a name is its plain decimal numeral, without leading zeros |
| Progress.EvaluateDeadline | internal/status/cod/progress.go:12-57 | condition and wake-up, in wrapping 64-bit durations |
| Progress.MilestoneIsLatest | internal/status/cod/progress.go:32-39 | the milestone is the latest of creation and phase completions |
| Progress.ExceededExactly | internal/status/cod/progress.go:32-49 | while the product is exact, exceeded if and only if that much time has passed |
| Progress.WakeUpIsExact | internal/status/cod/progress.go:32-56 | after a wake-up of d, the same state is exceeded at t if and only if t is at least now + d |
| Progress.WakeUpFitsIff | internal/status/cod/progress.go:42-56 | a running deadline asks to be woken when it is due if and only if the time left fits a 64-bit duration, and otherwise not at all |
| Progress.MinutesFitIff | internal/status/cod/progress.go:42-44 | the product is exact if and only if there are at most 153722867 minutes; one more is exceeded at once |
| Progress.LaterMilestoneDelays | internal/status/cod/progress.go:32-49 | a later milestone only delays the deadline |
| Progress.VerdictExactly | internal/status/cod/progress.go:12-57 | which reasons are False, what each reason needs, and that only a running deadline asks to be woken |
| CodController.Reconciler.AdoptOrphans | internal/controller/cod/controller.go:129-148 | orphans are adopted in order, foreign revisions skipped, and the first error stops |
| CodController.Reconciler.SyncRevision | internal/controller/cod/controller.go:165-185 | a new revision unless the newest active one has the current template, and then field ownership is put right |
| CodController.Reconciler.CreateRevision | internal/controller/cod/controller.go:187-236 | the next number in 32 bits, a create, then the claim |
| CodController.Reconciler.UpdateStatus | internal/controller/cod/controller.go:238-262 | the status of the specification for the owned revisions, which CodLaws.ReportedExactly and ReportedInOrder pin down |
| CodController.Reconciler.ArchiveSuperseded | internal/controller/cod/controller.go:264-291 | all but the newest are archived, if that one is available |
| CodController.Reconciler.PruneArchived | internal/controller/cod/controller.go:293-317 | the oldest archived ones in excess of the limit are deleted |
| CodController.Reconciler.Reconcile | internal/controller/cod/controller.go:90-116 | the calls of a pass, made in order until one fails, whatever order the list came in |
| CodListing.AnyOrderIsListing | internal/controller/cod/controller.go:118-127 | sorting the cache's list, in any order, gives the listing that the pass is planned from |
| CodEffects.ScanDecides | internal/controller/cod/controller.go:171-184 | the backward scan asks for a new revision if and only if no revision is both the newest active one and of the template |
| CodEffects.NumberIsNext | internal/controller/cod/controller.go:228-236 | the number computed is one above all others, and 0 if and only if the highest 32-bit one is taken |
| CodEffects.PassOutcome | internal/controller/cod/controller.go:90-116 | for every group seen fresh: a pass goes through if and only if no call is cut off and the numbers are not used up, and then every revision is as specified without reference to the code's lists |
| CodEffects.ReconcileHasOutcome | internal/controller/cod/controller.go:90-127 | and so it is after the controller's Reconcile |
| CodLaws.PlanExactly | internal/controller/cod/controller.go:90-116 | for every group, the calls of a pass are exactly those due, each once: adoptions, then the new revision and its claim, or a claim of the newest, then archivings, then deletions, each kind in order of the number |
| CodLaws.AddedExactly | internal/template/template.go:24-53 | what a pass adds to a group is current and active, owned by the deployment, has the next number and the name made of it, counts from now, and has no status |
| CodLaws.HistoryLeft | internal/controller/cod/controller.go:293-317 | a pass keeps as many of the archived revisions as the limit says, 5 if it is not set and none if it is 0, or all if there are fewer |
| CodEffects.SomeActiveLeftIff | internal/controller/cod/controller.go:264-274 | for every group: a pass leaves an active revision if and only if it creates one, or the newest is active or not available |
| CodEffects.HandDeletionTakesAllDown | internal/controller/cod/controller.go:264-274 | an input, with any status that shows Available, on which it leaves none |
| CodEffects.AllReportedIff | internal/controller/cod/controller.go:90-116 | after a pass that goes through, its status names every active revision if and only if it did not have to create one |
| CodEffects.FirstRevisionIsNotReported | internal/controller/cod/controller.go:238-262 | an input: the first pass creates revision 1 and names none |
| CodEffects.ReportsActive | internal/controller/cod/controller.go:238-262 | the status names exactly the revisions that were active when the pass listed them |
| CodLaws.ReportedExactly | internal/controller/cod/controller.go:238-262 | for every group, counts and deadline are those of the newest active revision; availability is none, in transition, or by the condition of the only one, exactly as there are none, several or one; with none there is nothing to report |
| CodLaws.ReportedInOrder | internal/status/cod/availability.go:44-56 | the status names the active revisions, each once, oldest first |
| CodConvergence.Converges | internal/controller/cod/controller.go:90-116 | from any history, whatever is being deleted, once the newest revision is current and available, two passes leave it the only active one and other owners' revisions untouched, and a third changes nothing; the others left are exactly the highest within the limit if and only if what was being deleted was in excess of it |
| CodConvergence.HandDeletionLeavesFewer | internal/controller/cod/controller.go:293-317 | an input: deleting a higher archived revision by hand leaves fewer than the limit |
| CodConvergence.RestIsReported | internal/controller/cod/controller.go:238-262 | at rest the deployment reports exactly the newest revision, as available, with its counts, and as progressed once that revision completed |
| CodConvergence.OnePassIsEnoughIff | internal/controller/cod/controller.go:264-317 | the second pass changes nothing if and only if those left after the first are within the limit, whatever is being deleted |
| CodConvergence.KeptCount | internal/controller/cod/controller.go:293-317 | the revisions without `limit` higher ones are as many as the limit, or all if fewer |
| CodConvergence.RoundsAgreeIff | internal/controller/cod/controller.go:293-317 | pruning some of the excess and losing any others first, and pruning the rest later, keeps what pruning all at once keeps if and only if the lost ones were in excess |
| CodGroup.CallsAreExecuted | internal/controller/cod/controller.go:90-116 | a pass within a run changes the store as the controller's calls do |
| CodRuns.NumbersNeverReused | internal/controller/cod/controller.go:187-236 | in every run, the k-th revision created has number k, and there are at most one more than the changes of the template |
| CodRuns.NewestSurvives | internal/controller/cod/controller.go:264-317 | in every run, once a revision was created the newest is always stored and active |
| CodRuns.ArchivedOnlyBelowRolledOut | internal/controller/cod/controller.go:264-291 | in every run, an archived revision is below one for which one single recorded pass of its own controller wrote all phases and found each complete |
| CodRuns.GoneIsTornDown | internal/controller/cos/controller.go:193-220 | in every run of both controllers, a revision that is gone is archived and its teardown left nothing, unless it was deleted as an orphan |
| CodRuns.HistoryIsKept | internal/controller/cod/controller.go:293-317 | in every run, under lagging caches, above each removed revision at least as many archived ones as the limit are left |
| CodRuns.ReachedDeletionsInExcess | internal/controller/cod/controller.go:293-317 | in every run, what is being deleted is in excess of the limit, as Converges needs |
| CodRuns.EveryRunConverges | internal/controller/cod/controller.go:90-116 | from wherever a run got to, once the newest revision is current and available, two passes keep exactly the highest of the others within the limit, and a third changes nothing |

## Left out

- Messages, reasons meant for people, transition times and diff listings: only statuses, counts and listed objects are kept.
- boxcutter itself, probes, CEL evaluation, gzip, JSON decoding, SHA-256 and the template hash: contracts or parameters.
- Collision protection and the sibling list as passed to boxcutter (internal/revision/builder.go): its effect lies in boxcutter.
- Server-side apply beyond its effect on the store: managed fields and field ownership (internal/cosutil) appear only as the input `drifted`.
- Watches, indexes, the work queue and manager wiring: a pass may happen at any time.
- A ClusterObjectSet deleted and created again under the same name: a run is of one object.
- The sort of the Go library is replaced by an insertion sort with the same result on distinct numbers.
- The detail loop of tearingDownPhase and the all-superseded list are written as expressions.
- Limits on list lengths and text, and 64-bit overflow of the counts: at most 20 phases of 50 objects cannot reach it.
- Stored times keep nanoseconds; the API rounds them to seconds.
- Template changes, status reports and a lagging cache during the three passes of Converges: it is about a group that stays as it is.
- A change of the history limit during a run of the deployment controller.
- The creation time of an object that a server-side apply creates anew: it stays that of the controller's copy.
- CosStored.ContentIsPinned: does not speak of engine runs whose copies showed no hash and whose status write was refused, because the code does not guarantee it of them, as StaleCopyIsNotPinned shows.
- CosStored.EveryStatusIsAdmissible: does not cover the CRD's limits on the length of messages and lists, because messages are not modelled; the untruncated messages of a paused object can exceed one.
- CodRuns.NewestSurvives: holds while nobody else archives or deletes revisions; CodEffects.SomeActiveLeftIff covers one pass without that.
