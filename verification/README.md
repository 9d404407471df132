# Models of the Nudgebee agent

This project models the parts of the agent whose guarantees range over whole runs or over all
inputs, and proves those guarantees: the PVC downsize migration, concurrent edits of a
PrometheusRule, reverting recorded field changes on a live object, the batched discovery snapshot
and the pod index, the sharded event intake, the canonical JSON printer, the in-place Prometheus
sample scanner, the replay cache of signed relay requests, chained kubectl commands, pod-shell
sessions, multi-window burn rates and the reconnect backoff.

`dafny verify dfyconfig.toml` checks everything. All results are about the models; nothing was
executed.

## Layout

- `PvcCluster`, `PvcMachine`: the cluster (claims, volumes with their reclaim policy and files, the
  workload) and the downsize as a step machine. At every call of the agent a run chooses success,
  failure with or without effect on the server, or a version conflict; between calls the cluster
  starts and stops pods, lets them write, finalizes deletions, reclaims volumes and fills the
  StatefulSet's template claim. `PvcSafety`, `PvcLoss` and `PvcRollback` prove what every run keeps,
  exactly when data can be lost, and what a rollback restores; `PvcOutcome` and `PvcFailure` what a run
  that succeeds has done and leaves, and what one that fails takes back. `PvcMigrator` is the code as it runs,
  with its local flags and deferred rollback; each of its executions is a run of the machine.
- `AlertRules`, `AlertRuleEdits`, `AlertRuleStore`: the rule-list edits as functions, the loops that
  compute them, and any number of writers doing read, edit, versioned update, retry.
- `RevertTree`, `RevertPath`, `RevertText`, `RevertRemoval`, `RevertWorkload`: live objects as trees, paths
  resolved against them, what written-out paths mean, when undoing an addition twice is harmless, and the loops of the tokenizer, of the batch
  and of the read-modify-write cycle against a versioned server.
- `DiscoverySnapshot`, `PodIndex`: batching with a terminal marker against a collector that
  reconciles on it, and the owner index against a scan.
- `AlertIntake`, `IntakeFates`: one atomic operation per step, over senders, shards and workers; and what
  becomes of every event.
- `Utf8`, `CanonJson`, `CanonParser`, `CanonBytes`, `CanonEncoder`: UTF-8, the canonical text, a parser that
  inverts it, what its bytes are, and the encoder with its buffer.
- `FastFloat`, `PromSamples`, `PromStrings`, `PromRefinement`, `PromScanner`: plain decimals, the concrete syntax
  of a sample array with its generic decode, the scanner as functions and as code, and their equality.
- `RelayReplay`, `KubectlChain`, `PodShell`, `BurnRate`, `ReconnectBackoff`: as their names say.

## Where the code does not keep its promise

- A StatefulSet downsize whose wait for the deleted claim fails is treated as if the claim had not
  been deleted (the flag is set only after the wait, `runner/pkg/mutate/pvcdownsize.go:338`): the
  rollback deletes the temporary claim and restores the reclaim policy, and the cluster may then
  destroy every copy. `PvcLoss.StatefulSetKeepsACopyIff` shows that a copy survives every run exactly
  when the volume was on Retain before, or the storage class retains the volumes it provisions.
- The same rollback scales the workload up although its claim is about to vanish, and pods may start on
  an empty one. `PvcLoss.StatefulSetPodsOnACopyIff`: pods run only on a complete volume in every run
  exactly when the workload had no replicas.
- The sample scanner promises to hand every exotic case to the generic decoder, but rejects a `null`
  element, which that decoder reads as a zero sample (`PromRefinement.NullElementDiverges`).
  `PromRefinement.ScannerAgreesIff` gives the exact documents.
- Undoing an addition is not idempotent: with a key `a.b` and a nested `a`, `b`, the path `a.b` removes
  the one and then the other (`RevertRemoval.RemovalCanRepeat`). `RevertRemoval.RemovalTwiceIff` gives the
  condition on the object before the call.
- The comment on `checkAndRecordNonce` says that evicted nonces can never pass the skew check again.
  The skew check reads the clock before the lock is taken, so an eviction by another call in between
  breaks this. `RelayReplay.DelayBoundIff`: when no request is signed more than `ahead` seconds in the
  future of its check, a bound on the delay excludes replays exactly when the bound and `ahead` together
  do not exceed the skew.
- A shell reader can be told to exit before the last output, when the session was closed or reaped
  first. `PodShell.DeliveredIsFinalIff` gives the exact condition.
- A shed warning promises the sheds since the previous warning, but a sender that stalls between its
  count and its log counts them again (`AlertIntake.WarningsCanOvercount`).
  `AlertIntake.WarningsExactIff`: the counts are exact exactly when no warning is logged in between.
- A negative reconnect delay below the limit can wrap around to a positive wait.
  `ReconnectBackoff.PromiseKeptIff`: the ceiling is the promised one exactly for a base that is not
  negative, not below the limit, or minus a power of two.

## Model

| member | source | states |
|---|---|---|
| `PvcSafety.QuietStep` | runner/pkg/mutate/pvcdownsize.go:194-257 | every step keeps the workload at zero replicas without pods between the pod wait and the scale-up |
| `PvcSafety.CopyIsComplete` | runner/pkg/mutate/pvcdownsize_helpers.go:213-247 | a copy taken while no pod runs makes the target a complete copy and leaves the source one |
| `PvcSafety.DeploymentStep` | runner/pkg/mutate/pvcdownsize.go:180-260 | every step, whatever fails, keeps the Deployment invariant: where a complete copy is at each point, and that pods run only on one |
| `PvcSafety.DeploymentKeepsACopy` | runner/pkg/mutate/pvcdownsize.go:180-260 | in every state of every run a complete copy exists, also when failed calls took effect, and pods only run on a complete volume |
| `PvcSafety.HavenEnv` | runner/pkg/mutate/pvcdownsize.go:281-306 | nothing the cluster does by itself destroys a copy that is claimed, or on Retain out of the rollback's reach |
| `PvcSafety.UndoEffect` | runner/pkg/mutate/pvcdownsize.go:281-306 | no rollback call destroys the copy the rollback relies on |
| `PvcSafety.StatefulSetStep` | runner/pkg/mutate/pvcdownsize.go:265-367 | every step keeps the StatefulSet invariant, if the deletion is timely, the volume was on Retain, or the class retains |
| `PvcSafety.StatefulSetKeepsACopyWhenTimely` | runner/pkg/mutate/pvcdownsize.go:265-367 | in every run in which the deletion of the original claim is refused without effect or completes, a complete copy exists throughout and pods run only on a complete volume |
| `PvcLoss.ReachOverdue` | runner/pkg/mutate/pvcdownsize.go:331-338 | a run exists in which the wait after an accepted deletion fails and the agent starts to undo |
| `PvcLoss.ReachNothing` | runner/pkg/mutate/pvcdownsize.go:281-338 | from there, without Retain on either side, a state without any volume is reachable |
| `PvcLoss.StatefulSetKeepsACopyIff` | runner/pkg/mutate/pvcdownsize.go:265-367 | with arbitrary failures a copy exists in every run if and only if the volume was on Retain or the storage class retains |
| `PvcLoss.ReachEmptyPods` | runner/pkg/mutate/pvcdownsize.go:281-338 | with replicas and data, a run exists in which the agent scales up after a failed wait and pods start on an empty claim |
| `PvcLoss.StatefulSetPodsOnACopyIff` | runner/pkg/mutate/pvcdownsize.go:265-367 | with arbitrary failures pods run only on a complete volume in every run if and only if the workload had no replicas |
| `PvcRollback.RollbackRestores` | runner/pkg/mutate/pvcdownsize.go:194-257 | a run that ends rolled back, with undo calls that succeed, has the replicas, reclaim policy, claims and claim reference of its start |
| `PvcRollback.RollbackRestoresClaims` | runner/pkg/mutate/pvcdownsize.go:194-257 | once the cluster has finalized the temporary claim, the claims after a clean rollback are exactly those of the start |
| `PvcRollback.CopiesOnlyWhenQuiet` | runner/pkg/mutate/pvcdownsize.go:281-355 | data is copied, in either direction, only at zero replicas and without pods |
| `PvcRollback.SavedIsPrior` | runner/pkg/mutate/pvcdownsize_helpers.go:96-142 | the count that is restored is the one before the downsize, also when a conflicting scale-down took effect |
| `PvcRollback.ScaledUpOntoACopy` | runner/pkg/mutate/pvcdownsize.go:194-257 | whenever the agent is about to scale up, the claim the workload names holds a complete copy, or is being deleted so that no pod can start on it |
| `PvcOutcome.PlanIsFollowed` | runner/pkg/mutate/pvcdownsize.go:180-367 | a run that succeeds made exactly the planned calls, with their arguments and in order, the scale-up with the replicas from before; only a failed clean-up of the volume may be missing |
| `PvcOutcome.SuccessFinishes` | runner/pkg/mutate/pvcdownsize.go:180-367 | after every run that succeeds the workload has the replicas of the start and names a live claim with a complete copy on a new volume; the other claim is gone |
| `PvcOutcome.DownsizeCanFinish` | runner/pkg/mutate/pvcdownsize.go:180-367 | from every start some run succeeds |
| `PvcFailure.FailureIsTakenBack` | runner/pkg/mutate/pvcdownsize.go:180-367 | a run that fails before the repoint, or before the deleted claim is gone, attempts to take back exactly what it had done, the latest first; one that fails later takes back nothing |
| `PvcMigrator.Migrator.constructor` | runner/pkg/mutate/pvcdownsize.go:109-143 | a validated downsize starts as the empty run |
| `PvcMigrator.Migrator.Interfere` | runner/pkg/mutate/pvcdownsize.go:180-367 | whatever the cluster does between calls extends the run without moving the agent |
| `PvcMigrator.Migrator.Call` | runner/pkg/mutate/pvcdownsize_helpers.go:339-352 | a call extends the run and moves to the success or the failure point of the machine |
| `PvcMigrator.Migrator.Await` | runner/pkg/mutate/pvcdownsize_helpers.go:354-371 | a poll loop succeeds only when the awaited condition holds, and changes nothing |
| `PvcMigrator.Migrator.Update` | runner/pkg/mutate/pvcdownsize_helpers.go:96-142 | one versioned update is done, failed for good, or answered with a conflict that may be retried, each a step of the machine |
| `PvcMigrator.Migrator.ScaleWorkload` | runner/pkg/mutate/pvcdownsize_helpers.go:96-142 | three attempts with conflicts are a run of the machine; the reported prior count is what the first read saw |
| `PvcMigrator.Migrator.RepointWorkload` | runner/pkg/mutate/pvcdownsize_helpers.go:294-337 | five attempts, with an already repointed reference counting as done, are a run of the machine |
| `PvcMigrator.Migrator.DeploymentPhaseA` | runner/pkg/mutate/pvcdownsize.go:215-237 | the flags determine at which undo point a failed phase A stands |
| `PvcMigrator.Migrator.DeploymentPhaseBC` | runner/pkg/mutate/pvcdownsize.go:239-259 | the flag tells a failure before the repoint from one after it; the scale-up is by the captured count |
| `PvcMigrator.Migrator.DownsizeDeployment` | runner/pkg/mutate/pvcdownsize.go:180-260 | the code with its deferred rollback ends at a final point; a copy existed at every moment; success made the planned calls and left the workload with its replicas on a complete copy; failure took back what was done or came past the repoint, and a clean rollback restored the start |
| `PvcMigrator.Migrator.StatefulSetPhaseA` | runner/pkg/mutate/pvcdownsize.go:308-329 | the flags determine at which undo point a failed phase A stands |
| `PvcMigrator.Migrator.StatefulSetPhaseB` | runner/pkg/mutate/pvcdownsize.go:331-355 | the flag tells a failure before the end of the deletion from one after it; the scale-up is by the captured count |
| `PvcMigrator.Migrator.StatefulSetPhaseC` | runner/pkg/mutate/pvcdownsize.go:357-367 | clean-up ends done or stuck; a failed volume deletion is ignored |
| `PvcMigrator.Migrator.UndoStatefulSet` | runner/pkg/mutate/pvcdownsize.go:281-306 | from whichever point the flags stand for, the rollback reaches the rolled-back point |
| `PvcMigrator.Migrator.DownsizeStatefulSet` | runner/pkg/mutate/pvcdownsize.go:265-367 | the same for a StatefulSet; that a copy existed at every moment holds for protected runs |
| `PvcMigrator.DeploymentTrace` | runner/pkg/mutate/pvcdownsize.go:180-260 | every prefix of the recorded run has a copy, a clean rollback restores, success finishes and failure is taken back |
| `PvcMigrator.StatefulSetTrace` | runner/pkg/mutate/pvcdownsize.go:265-367 | the same for a StatefulSet run that is protected |
| `PvcMigrator.SuccessTrace` | runner/pkg/mutate/pvcdownsize.go:180-367 | a recorded run that succeeds followed the plan and left the workload as promised |
| `PvcMigrator.FailureTrace` | runner/pkg/mutate/pvcdownsize.go:180-367 | a recorded run that fails took back what it had done, or was past the point of no return |
| `AlertRules.UpsertFrame` | runner/pkg/mutate/alertrules.go:180-194 | create-or-replace puts the rule in, adds none of its name when there was one, and leaves every other rule and its order |
| `AlertRules.UpsertPlace` | runner/pkg/mutate/alertrules.go:180-194 | the rule stands where the first rule of its name stood, else at the end of the first group, else in a new legacy group; all else is the same |
| `AlertRules.RemoveFrame` | runner/pkg/mutate/alertrules.go:241-260 | delete leaves no rule of the name and every other rule in order |
| `AlertRules.UpsertKeepsUnique` | runner/pkg/mutate/alertrules.go:180-194 | at most one rule per alert name is preserved |
| `AlertRules.RemoveKeepsUnique` | runner/pkg/mutate/alertrules.go:241-260 | at most one rule per alert name is preserved |
| `AlertRules.PatchedFields` | runner/pkg/mutate/alertrules.go:440-447 | a patch writes expr, writes for only when given, and keeps every other field |
| `AlertRules.PatchFrame` | runner/pkg/mutate/alertrules.go:440-447 | a located patch leaves every other rule, the order and every count |
| `AlertRules.DropFrame` | runner/pkg/mutate/alertrules.go:489-492 | a located delete leaves every other rule in order and lowers exactly the counts that include the rule |
| `AlertRules.AppendFrame` | runner/pkg/mutate/alertrules.go:502-514 | an appended rule adds one to the count of its group and alert and to no other |
| `AlertRuleEdits.AppendKeepsOthers` | runner/pkg/mutate/alertrules.go:502-514 | the existing groups keep their other rules in order, and a group is added exactly when none has the name |
| `AlertRuleEdits.MatchesExact` | runner/pkg/mutate/alertrules.go:387-402 | the match list holds exactly the located rules, each once |
| `AlertRuleEdits.FindLocatedRules` | runner/pkg/mutate/alertrules.go:387-402 | the nested loops return exactly the located rules, as many as there are |
| `AlertRuleEdits.ReplaceLegacyRuleInPlace` | runner/pkg/mutate/alertrules.go:275-294 | in place: true exactly when the alert exists, and then the first rule of the name is replaced and nothing else |
| `AlertRuleEdits.EditUpsert` | runner/pkg/mutate/alertrules.go:180-194 | the closure computes the create-or-replace edit, also for an empty group list |
| `AlertRuleEdits.KeepOthers` | runner/pkg/mutate/alertrules.go:248-257 | the inner loop keeps the other rules in order and notices whether it dropped one |
| `AlertRuleEdits.EditRemove` | runner/pkg/mutate/alertrules.go:241-260 | the closure computes the delete edit and reports a change exactly when the alert exists |
| `AlertRuleEdits.AppendRuleToGroup` | runner/pkg/mutate/alertrules.go:502-514 | the loop computes the append edit |
| `AlertRuleEdits.EditPatch` | runner/pkg/mutate/alertrules.go:417-460 | not found, ambiguous or one located rule, as the counts of the groups say; the accepted groups hold exactly one such rule with the requested expression and duration, and otherwise its old fields, or the request's when it was absent; at most one rule per group name and alert is kept |
| `AlertRuleEdits.EditDrop` | runner/pkg/mutate/alertrules.go:474-497 | not found exactly without such a rule, ambiguous exactly with several; else the groups without that one rule and otherwise unchanged |
| `AlertRuleEdits.PatchAnswers` | runner/pkg/mutate/alertrules.go:417-460 | what a located patch answers, in terms of the groups before and after alone |
| `AlertRuleEdits.DropAnswers` | runner/pkg/mutate/alertrules.go:474-497 | what a located delete answers, in terms of the groups before and after alone |
| `AlertRuleEdits.PatchKeepsUnique` | runner/pkg/mutate/alertrules.go:417-460 | at most one rule per group name and alert is preserved by a located patch |
| `AlertRuleEdits.DropKeepsUnique` | runner/pkg/mutate/alertrules.go:474-497 | at most one rule per group name and alert is preserved by a located delete |
| `AlertRuleStore.StepKeepsInv` | runner/pkg/mutate/alertrules.go:160-210 | every read, write, conflict, create race or outside removal keeps the store equal to the replayed log |
| `AlertRuleStore.Serialisable` | runner/pkg/mutate/alertrules.go:160-210 | for every interleaving the resource is the fold of the committed edits in commit order; each committed writer is in it once, each other writer not at all, and a writer with nothing to write was right when it read |
| `AlertRuleStore.ApplyMeans` | runner/pkg/mutate/alertrules.go:160-269 | what each operation makes of the resource as read, an absent one included, without naming the edits |
| `AlertRuleStore.CommittedMeans` | runner/pkg/mutate/alertrules.go:160-210 | in every run each committed write did what its operation asks to the resource as the log before it left it |
| `AlertRuleStore.UndisturbedAnswers` | runner/pkg/mutate/alertrules.go:160-210 | a writer that reads and writes with nothing in between is answered and, if it has something to write, commits it |
| `AlertRuleStore.RunKeepsUnique` | runner/pkg/mutate/alertrules.go:233-269 | uniqueness per alert name, and per group and alert, over every run of the respective writers |
| `RevertTree.SetThenGet` | runner/pkg/mutate/revert.go:117-165 | after a successful write the location holds the value |
| `RevertTree.SetSucceedsIff` | runner/pkg/mutate/revert.go:317-346 | a write succeeds if and only if every container on the way has the kind its accessor needs, missing ones being created as objects |
| `RevertTree.SetElsewhere` | runner/pkg/mutate/revert.go:317-346 | every location off the path is unchanged, also when the write fails |
| `RevertTree.SetTwice` | runner/pkg/mutate/revert.go:117-165 | a second write to the location overwrites the first completely |
| `RevertTree.RemoveElsewhere` | runner/pkg/mutate/revert.go:117-165 | a removal leaves every location off the path |
| `RevertTree.RemoveThenGet` | runner/pkg/mutate/revert.go:117-165 | after a successful removal the location is gone |
| `RevertTree.RemoveBelowNothing` | runner/pkg/mutate/revert.go:317-346 | removing a field below anything missing, or below a null member, succeeds and changes nothing |
| `RevertTree.NoRemovalIff` | runner/pkg/mutate/revert.go:117-165 | a removal succeeds and changes nothing if and only if the way to its location breaks off |
| `RevertTree.FailedRemoval` | runner/pkg/mutate/revert.go:117-165 | a removal that fails leaves the object as it was |
| `RevertTree.RemoveFailsIff` | runner/pkg/mutate/revert.go:117-165 | a removal fails if and only if its parent is there and the last accessor is an index, or a key of something that is no object |
| `RevertTree.NormalizeNormalizes` | runner/pkg/mutate/revert.go:352-378 | no whole float is left at any depth, and normalised values are untouched |
| `RevertTree.NormalizeKeepsValue` | runner/pkg/mutate/revert.go:352-378 | normalising keeps the value at every depth: numbers of the same size, the same keys, the same lengths, equal leaves |
| `RevertPath.KeyStays` | runner/pkg/mutate/revert.go:273-296 | the key chosen for a segment is still chosen once it is present |
| `RevertPath.TokensStay` | runner/pkg/mutate/revert.go:191-247 | resolving the same path on the written object gives the same steps |
| `RevertPath.RevertWrites` | runner/pkg/mutate/revert.go:117-165 | a successful write-back leaves the old value, whole numbers as integers, at the path's location and changes nothing off the path |
| `RevertPath.RevertSucceedsIff` | runner/pkg/mutate/revert.go:117-165 | an entry is undone if and only if its path names a location that can be written, or at which a removal is not refused |
| `RevertPath.RevertTwice` | runner/pkg/mutate/revert.go:117-165 | after a write-back the path resolves to the same location, and writing back again changes nothing |
| `RevertPath.RevertRemoves` | runner/pkg/mutate/revert.go:117-165 | undoing an addition removes the location and keeps everything off the path; nothing changes if and only if the way breaks off, as below anything missing or null |
| `RevertText.AtoiSigned` | runner/pkg/mutate/revert.go:206-228 | written indices are read with their sign, within 64 bits |
| `RevertText.BracketedReads` | runner/pkg/mutate/revert.go:206-228 | any accessors written in brackets, with either quotes, are read back on every object |
| `RevertText.BadBracket` | runner/pkg/mutate/revert.go:206-228 | an unclosed bracket, and one with neither a quoted key nor a number, is an error |
| `RevertText.DottedReads` | runner/pkg/mutate/revert.go:229-245 | dotted plain keys are read as these keys, present or not, on an object whose own keys hold no dots and brackets |
| `RevertText.FlatReads` | runner/pkg/mutate/revert.go:229-245 | behind the name of a flat map the rest of the path is one key, dots included |
| `RevertText.QualifierIsDropped` | runner/pkg/mutate/revert.go:191-198 | a leading workload kind, in any case, is dropped, with or without a leading dot |
| `RevertText.OtherPathsStay` | runner/pkg/mutate/revert.go:191-198 | any other path stays, but for a leading dot |
| `RevertRemoval.LongestWithout` | runner/pkg/mutate/revert.go:273-296 | with the longest fitting key gone, the next shorter one is chosen |
| `RevertRemoval.RemovalAgainIff` | runner/pkg/mutate/revert.go:191-247 | along any path a second removal succeeds without effect if and only if it is harmless at the last container |
| `RevertRemoval.RemovalTwiceIff` | runner/pkg/mutate/revert.go:117-165 | undoing an addition twice is undoing it once if and only if the first undo fails, or at the last container the accessor is bracketed or in a flat map, the key is absent, or what the path means next leads to nothing |
| `RevertRemoval.RemovalCanRepeat` | runner/pkg/mutate/revert.go:117-165 | an object on which the second undo removes another field |
| `RevertWorkload.MatchKey` | runner/pkg/mutate/revert.go:273-296 | in any map order the loop finds the longest key that ends at a segment boundary, else the first segment |
| `RevertWorkload.ReadBracket` | runner/pkg/mutate/revert.go:206-228 | one bracketed accessor is read as specified, errors included, and consumes input |
| `RevertWorkload.ReadKey` | runner/pkg/mutate/revert.go:229-245 | one key is read as specified, the whole remainder in a flat map, and consumes input |
| `RevertWorkload.TokenizePath` | runner/pkg/mutate/revert.go:191-247 | the index loop terminates and returns the steps of the recursive specification |
| `RevertWorkload.ApplyRevert` | runner/pkg/mutate/revert.go:117-165 | the path is tokenized on the live object and the write or removal done there, errors included; what that means is `RevertPath.RevertWrites`, `RevertRemoves` and `RevertSucceedsIff` |
| `RevertWorkload.ApplyAll` | runner/pkg/mutate/revert.go:74-78 | entries are undone in order, each on the result of the one before, up to the first failure |
| `RevertWorkload.BatchFrame` | runner/pkg/mutate/revert.go:74-78 | after a batch that succeeds, every location apart from all its locations is unchanged |
| `RevertWorkload.BatchHolds` | runner/pkg/mutate/revert.go:74-78 | after a batch that succeeds, an entry apart from all later ones still has its old value, or nothing when it was added |
| `RevertWorkload.BatchSucceedsIff` | runner/pkg/mutate/revert.go:74-78 | a batch succeeds if and only if every entry can be undone on the object that the entries before it leave |
| `RevertWorkload.ApiServer.Update` | runner/pkg/mutate/revert.go:80-91 | an update takes effect only at the version it was made from; any request may fail with or without effect |
| `RevertWorkload.ApiServer.Others` | runner/pkg/mutate/revert.go:62-92 | other clients write any number of versions in between |
| `RevertWorkload.Attempt` | runner/pkg/mutate/revert.go:62-92 | one read, edit and update writes at most one version, made from the version before it, and sends exactly what undoing the entries on the object read gives |
| `RevertWorkload.ReadModifyWrite` | runner/pkg/mutate/revert.go:42-107 | whatever others write meanwhile, the call writes at most one version, exactly the one before it with all entries undone, so no other update is lost; it reports success exactly when its update was accepted, and gives up only without entries, on a failed read, an object that cannot be reverted, a refused update, or a third conflict |
| `DiscoverySnapshot.Emitter.Flush` | runner/pkg/discovery/service.go:623-653 | one numbered envelope with the pending items is posted; the chunk is empty again |
| `DiscoverySnapshot.RoomForOneMore` | runner/pkg/discovery/service.go:617-653 | full batches out of fewer objects leave room for one more below the advertised total |
| `DiscoverySnapshot.TotalIsExact` | runner/pkg/discovery/service.go:617-653 | the advertised total is the number of batches that the objects fill, and one for none |
| `DiscoverySnapshot.TotalIsReached` | runner/pkg/discovery/service.go:597-680 | a complete stream from which no object was left out has exactly as many batches as advertised |
| `DiscoverySnapshot.AddItem` | runner/pkg/discovery/service.go:655-676 | one turn keeps the chunking state, or stops with a stream that has no last batch |
| `DiscoverySnapshot.EmitTypeBatched` | runner/pkg/discovery/service.go:597-680 | under any failures: sequences from 1 within the advertised total, batches of the configured size, 1000 by default, before the final one, a last batch only when every item was sent; without a failing post all converted items in order |
| `DiscoverySnapshot.CollectorIsSafe` | runner/pkg/discovery/service.go:569-680 | a collector that reconciles on the last batch never deactivates an item of the snapshot, whichever posts fail or arrive |
| `DiscoverySnapshot.AddHandler` | runner/pkg/discovery/service.go:541-548 | one handler's converted items go to the end of its type's list |
| `DiscoverySnapshot.EmitSingle` | runner/pkg/discovery/service.go:540-567 | the unbatched list of a type is what the batches of that type concatenate to |
| `DiscoverySnapshot.ConvertedHas` | runner/pkg/discovery/service.go:540-567 | an item is sent if and only if a converter makes it of a cached object |
| `DiscoverySnapshot.FlattenHas` | runner/pkg/discovery/service.go:597-616 | the objects of a type are exactly those in the caches of its handlers |
| `DiscoverySnapshot.TypesInOrder` | runner/pkg/discovery/service.go:573-582 | every registered type once |
| `DiscoverySnapshot.EmitBatched` | runner/pkg/discovery/service.go:573-589 | one such stream per registered type, complete when its posts succeed |
| `PodIndex.ControllerOwner` | runner/pkg/discovery/converters.go:775-785 | the marked controller, else the first owner, else none |
| `PodIndex.WorkloadOwnerUids` | runner/pkg/discovery/service.go:260-276 | exactly the workloads the pod belongs to, directly or through its ReplicaSet |
| `PodIndex.BuildPodIndex` | runner/pkg/discovery/service.go:234-254 | every lookup answers as a scan of the pod list for that workload would |
| `PodIndex.ScanFindsFirst` | runner/pkg/discovery/service.go:228-254 | the scan finds the first status-bearing pod of the workload, and nothing exactly when there is none |
| `AlertIntake.SenderKeepsCounters` | runner/pkg/alerts/k8s_intake.go:118-137 | every atomic operation of a sender keeps both counters equal to what is in flight |
| `AlertIntake.WorkerKeepsCounters` | runner/pkg/alerts/k8s_intake.go:139-148 | every atomic operation of a worker does |
| `AlertIntake.BudgetHolds` | runner/pkg/alerts/k8s_intake.go:92-148 | over all interleavings, with shards sized as configured, waiting jobs stay within the byte limit and the larger of queue size and workers, and the counts in warnings plus the residual are all sheds |
| `AlertIntake.CountersDrain` | runner/pkg/alerts/k8s_intake.go:118-148 | when nothing is in flight both counters are zero |
| `AlertIntake.CapacityIsBounded` | runner/pkg/alerts/k8s_intake.go:92-114 | the shards together hold at most the larger of queue size and worker count, and miss the queue size by less than one job per worker |
| `AlertIntake.PerObjectOrder` | runner/pkg/alerts/k8s_intake.go:86-148 | over all interleavings an object's events begin matching in admission order, none skipped, and never in two workers |
| `AlertIntake.SameObjectSameKey` | runner/pkg/alerts/k8s_intake.go:215-217 | the case of the kind does not change the key |
| `AlertIntake.SameKeySameObject` | runner/pkg/alerts/k8s_intake.go:215-217 | events about different objects have different keys |
| `IntakeFates.EveryEventIsDecided` | runner/pkg/alerts/k8s_intake.go:118-137 | over all interleavings each event is shed if and only if its own addition put the counter over the limit or its shard was full at its offer; the admissions are exactly the others, in the order of their offers, and once no sender is busy the sheds counted are exactly those |
| `IntakeFates.SendersFinish` | runner/pkg/alerts/k8s_intake.go:118-137 | a sender finishes within seven operations of its own, whatever the others do |
| `IntakeFates.QueuedJobsStart` | runner/pkg/alerts/k8s_intake.go:139-148 | whatever else happens, a queued job begins matching after a known number of operations of its worker |
| `AlertIntake.WarningsExactIff` | runner/pkg/alerts/server.go:315-325 | over all runs every warning carries exactly the sheds since the previous one if and only if none is logged between another's count and log |
| `AlertIntake.WarningsCanOvercount` | runner/pkg/alerts/server.go:315-325 | a run exists in which warnings report three sheds out of two |
| `Utf8.EncodeRunes` | runner/pkg/canonjson/canonjson.go:174-209 | decoding valid UTF-8 and encoding it again is the identity |
| `Utf8.RunesEncode` | runner/pkg/canonjson/canonjson.go:174-209 | encoding gives valid UTF-8 that decodes to the same code points |
| `Utf8.DecodeRuneIff` | runner/pkg/canonjson/canonjson.go:174-209 | the decoder gives the rune whose encoding the bytes begin with; without one, the error rune for one byte |
| `Utf8.EncodePreservesOrder` | runner/pkg/canonjson/canonjson.go:131-154 | byte order of encodings is code point order |
| `Utf8.ByteOrderIsRuneOrder` | runner/pkg/canonjson/canonjson.go:12 | on valid UTF-8 the byte-wise sort order is the promised code point order |
| `CanonJson.ListingUnique` | runner/pkg/canonjson/canonjson.go:131-154 | a set of keys has one increasing listing, so map order cannot show |
| `CanonJson.KeysInCodePointOrder` | runner/pkg/canonjson/canonjson.go:131-154 | objects are written in code point order of their keys |
| `CanonParser.ParseRuneInverts` | runner/pkg/canonjson/canonjson.go:174-209 | every escape, surrogate pairs included, reads back as its code point |
| `CanonParser.ParseStringInverts` | runner/pkg/canonjson/canonjson.go:174-209 | a string literal reads back as its string |
| `CanonParser.QuoteDeterminesRunes` | runner/pkg/canonjson/canonjson.go:174-209 | for all byte strings, literals are equal if and only if the decoded code points are |
| `CanonParser.ParseIntegerInverts` | runner/pkg/canonjson/canonjson.go:71-115 | an integer reads back, whatever delimiter follows |
| `CanonParser.ParseInvertsText` | runner/pkg/canonjson/canonjson.go:71-154 | parsing the text of any value, followed by anything, gives the value without nil members and the rest |
| `CanonParser.TextIsInjective` | runner/pkg/canonjson/canonjson.go:71-154 | for both separator styles two values have equal texts if and only if they are equal once nil members are dropped at every depth |
| `CanonBytes.EscapeIff` | runner/pkg/canonjson/canonjson.go:174-209 | the text of a rune: printable ASCII is itself, seven characters have their short escapes, all else is one or two `\u` escapes with lower-case digits; and nothing else is its text |
| `CanonBytes.QuoteIff` | runner/pkg/canonjson/canonjson.go:174-209 | a string is written as the texts of its runes between two quotes, and as nothing else |
| `CanonBytes.PlainQuote` | runner/pkg/canonjson/canonjson.go:174-209 | a string of printable ASCII without quotes and backslashes is itself between two quotes |
| `CanonBytes.IntegerIs` | runner/pkg/canonjson/canonjson.go:71-115 | an integer is its decimal digits without leading zeros, behind a minus sign exactly when negative |
| `CanonBytes.TextIsPrintable` | runner/pkg/canonjson/canonjson.go:6-18 | every character of a canonical text is printable ASCII |
| `CanonBytes.ExampleText` | runner/pkg/canonjson/canonjson.go:71-154 | the exact text of an object with sorted keys, a dropped null member, a kept null item and an escape, for any separators |
| `CanonEncoder.SortStrings` | runner/pkg/canonjson/canonjson.go:139 | the keys in increasing byte order |
| `CanonEncoder.Encoder.WriteString` | runner/pkg/canonjson/canonjson.go:174-209 | the loop over the bytes appends the literal of the string: its runes, each in its one canonical form, between two quotes |
| `CanonEncoder.Encoder.Encode` | runner/pkg/canonjson/canonjson.go:71-115 | appends the canonical text to the shared buffer |
| `CanonEncoder.Encoder.WriteArray` | runner/pkg/canonjson/canonjson.go:117-129 | appends the text of an array |
| `CanonEncoder.Encoder.WriteObject` | runner/pkg/canonjson/canonjson.go:131-154 | whatever the map order, appends the text of the object without nil members |
| `CanonEncoder.EncodeWith` | runner/pkg/canonjson/canonjson.go:58-69 | the text is printable when the separators are, and reads back as the value without nil members |
| `CanonEncoder.Encode` | runner/pkg/canonjson/canonjson.go:42-44 | the compact text: printable ASCII that reads back as the value without nil members |
| `CanonEncoder.EncodeForSignature` | runner/pkg/canonjson/canonjson.go:54-56 | the same with the separators of the signature |
| `FastFloat.ReadDigits` | runner/pkg/enrichers/prom_result.go:381-403 | the accumulator is the number read and stays below 10^18 |
| `FastFloat.Combine` | runner/pkg/enrichers/prom_result.go:390-408 | the two accumulators add up to the number written |
| `FastFloat.Parse` | runner/pkg/enrichers/prom_result.go:368-413 | accepts exactly the plain decimals of at most 18 bytes, with their value |
| `FastFloat.PlainBodyIff` | runner/pkg/enrichers/prom_result.go:381-408 | a plain body is digits, or digits, a dot and digits |
| `FastFloat.ValueOfSigned` | runner/pkg/enrichers/prom_result.go:368-413 | a minus sign negates and a plus sign does nothing |
| `FastFloat.ValueOfDecimal` | runner/pkg/enrichers/prom_result.go:390-408 | digits behind the dot add their number over the power of ten of their length |
| `PromSamples.UnquoteVerbatim` | runner/pkg/enrichers/prom_result.go:244-252 | a string body without escapes that is valid UTF-8 stands for itself |
| `PromStrings.UnquoteInverts` | runner/pkg/enrichers/prom_result.go:244-252 | the unquoter reads every canonical literal back, escapes and surrogate pairs included |
| `PromRefinement.FastEqualsGeneric` | runner/pkg/enrichers/prom_result.go:254-297 | the conversions of a token equal those of the decoded value |
| `PromRefinement.SampleEqualsUnpack` | runner/pkg/enrichers/prom_result.go:527-539 | the sample of a row equals decode-then-unpack, short rows and extra members included |
| `PromRefinement.MembersRead` | runner/pkg/enrichers/prom_result.go:201-233 | the member loop reads all members, or stops at the first array or object |
| `PromRefinement.ScannerRefinesGeneric` | runner/pkg/enrichers/prom_result.go:64-133 | on every valid array of arrays, with any white space, the scanner with its fallback returns the columns of the generic decode |
| `PromRefinement.ScannerAgreesIff` | runner/pkg/enrichers/prom_result.go:81-133 | on every JSON array, scanner and generic decode agree, errors included, if and only if the first element that is no array of scalars is no null, or some element is neither array nor null |
| `PromRefinement.NullElementDiverges` | runner/pkg/enrichers/prom_result.go:111-121 | on `[null]` the scanner fails where the generic decode gives one zero sample |
| `PromScanner.SampleScanner.SkipSpaces` | runner/pkg/enrichers/prom_result.go:174-183 | moves to the first byte that is no space, inside the buffer |
| `PromScanner.SampleScanner.Take` | runner/pkg/enrichers/prom_result.go:185-191 | takes the byte exactly when it comes next |
| `PromScanner.SampleScanner.StringBody` | runner/pkg/enrichers/prom_result.go:316-346 | stops behind the closing quote, inside the buffer also after a trailing backslash, and notes escapes exactly |
| `PromScanner.SampleScanner.Token` | runner/pkg/enrichers/prom_result.go:309-362 | reads the specified scalar; the cursor stays in the buffer and advances |
| `PromScanner.SampleScanner.Pair` | runner/pkg/enrichers/prom_result.go:201-233 | reads the specified members and terminates |
| `PromScanner.ToFloat` | runner/pkg/enrichers/prom_result.go:254-268 | converts as specified, through the fast parser where it applies |
| `PromScanner.UnmarshalJSON` | runner/pkg/enrichers/prom_result.go:89-133 | the cursor code computes the specified decode on every input, malformed ones included |
| `RelayReplay.Verifier.CheckAndRecordNonce` | runner/pkg/relaysig/verify.go:225-243 | accepts exactly unseen nonces; the new cache is the recorded one, evicted when due; a rejection changes nothing |
| `RelayReplay.Verifier.VerifyBody` | runner/pkg/relaysig/verify.go:99-146 | accepts exactly well-formed, authentic requests signed within 300 seconds of the check whose nonce is unseen; a rejection changes nothing |
| `RelayReplay.RecordedMeans` | runner/pkg/relaysig/verify.go:225-243 | a recorded nonce is held; the others are too, except that past 10000 entries, at most once a minute, those older than ten minutes are dropped |
| `RelayReplay.CheckThenLock` | runner/pkg/relaysig/verify.go:99-146 | a call that nothing overlaps does in the run model what the verifier does |
| `RelayReplay.PromptRunsAreSafe` | runner/pkg/relaysig/verify.go:99-146 | in every run of overlapping calls without an eviction between check and lock, no nonce is accepted twice with one signed-at time |
| `RelayReplay.BoundedRunsAreSafe` | runner/pkg/relaysig/verify.go:99-146 | overlapping calls are safe when the delay bound and the lead of the signatures fit the skew |
| `RelayReplay.DelayBoundIff` | runner/pkg/relaysig/verify.go:225-243 | from every start, with signatures at most `ahead` seconds in the future, a bound on the delay between check and lock excludes replays if and only if bound and lead together do not exceed the skew |
| `RelayReplay.LateLockAcceptsReplay` | runner/pkg/relaysig/verify.go:225-243 | from every start and past that condition, a run exists in which a replay is accepted after an eviction |
| `KubectlChain.SplitSegments` | runner/pkg/kube/exec.go:277-318 | the accumulator loop computes the specified segments, errors included |
| `KubectlChain.SplitRejoins` | runner/pkg/kube/exec.go:277-318 | segments are non-empty and operator-free, and re-join to the tokens up to stripped kubectl words and a trailing semicolon |
| `KubectlChain.SplitIff` | runner/pkg/kube/exec.go:277-318 | tokens split into given segments if and only if they are a way to write these segments down |
| `KubectlChain.FirstVerb` | runner/pkg/kube/exec.go:118-148 | the verb behind the known flags, an unknown flag, or none |
| `KubectlChain.ValidateSegment` | runner/pkg/kube/exec.go:322-345 | accepts a command if and only if the policy allows it |
| `KubectlChain.RunSegments` | runner/pkg/kube/exec.go:392-441 | the carried-exit loop runs exactly the segments that are due by the exit of the last command run, ends with the status of that command, and stops with an error at a hard failure or a context that is done |
| `KubectlChain.ObeysIff` | runner/pkg/kube/exec.go:362-441 | from the commands' own exits: behind `&&` a segment runs exactly after a zero exit of the last command run, behind `||` exactly after another, and status and break are those of the last command run; this determines the chain |
| `KubectlChain.ChainIsShellList` | runner/pkg/kube/exec.go:362-441 | for every behaviour of the commands, the chain runs the same commands with the same status as evaluating the AND-OR lists of section 2.9.3 of the POSIX Shell Command Language |
| `KubectlChain.Run` | runner/pkg/kube/exec.go:236-272 | something runs if and only if every segment is allowed and no token is a pipe or redirect, and then exactly the segments that are due, as the shell would, up to where the context is done |
| `PodShell.Conservation` | runner/pkg/podshell/session.go:435-468 | over all interleavings what readers got plus what is buffered is what the stream wrote, in order |
| `PodShell.DrainTakesAll` | runner/pkg/podshell/session.go:460-468 | after a read the readers hold all the output so far |
| `PodShell.ExitReplyIff` | runner/pkg/podshell/session.go:190-200 | a reader is told to exit if and only if it finds no session, or reads one that the stream or the manager ended before |
| `PodShell.DeliveredIsFinalIff` | runner/pkg/podshell/session.go:286-302 | the readers hold the output of every continuation if and only if the stream ended before any close and the buffer is empty |
| `PodShell.ExitCompletesOutput` | runner/pkg/podshell/session.go:190-200 | while the session is listed, the read that says exit completes the output, for ever |
| `PodShell.ExitAfterCloseLosesOutput` | runner/pkg/podshell/session.go:476-486 | a run exists in which a closed session says exit before the last output |
| `PodShell.Session.Write` | runner/pkg/podshell/session.go:435-441 | appends to the buffer and records the event |
| `PodShell.Session.StreamEnded` | runner/pkg/podshell/session.go:286-302 | closes and leaves the notice in one critical section |
| `PodShell.Session.TakeBuffer` | runner/pkg/podshell/session.go:460-468 | hands over exactly what the trace says is waiting, with the exit flag |
| `PodShell.Session.Shut` | runner/pkg/podshell/session.go:476-486 | closes a session that was taken off the list |
| `PodShell.Manager.Open` | runner/pkg/podshell/session.go:304-307 | lists a new session and keeps the others |
| `PodShell.Manager.Lookup` | runner/pkg/podshell/session.go:384-388 | the listed session, or none |
| `PodShell.Reply` | runner/pkg/podshell/session.go:190-200 | without a session an exit and no data; otherwise what is buffered at that moment, also when the session was closed since the lookup |
| `PodShell.Manager.DropAndClose` | runner/pkg/podshell/session.go:390-398 | takes off and closes that session only |
| `PodShell.Manager.Reap` | runner/pkg/podshell/session.go:400-417 | takes off and closes exactly the sessions idle for longer than the timeout |
| `PodShell.Manager.CloseAll` | runner/pkg/podshell/session.go:419-430 | takes off and closes every session |
| `BurnRate.CalcBurnRates` | runner/pkg/enrichers/slo_burnrate.go:181-214 | one report per rule that can be judged, in order; none when the goal leaves no budget |
| `BurnRate.WorstSeverity` | runner/pkg/enrichers/slo_burnrate.go:219-230 | critical exactly when some report is, fine exactly when all are; the highest severity and the first report that has it |
| `BurnRate.Evaluate` | runner/pkg/enrichers/slo_burnrate.go:181-230 | some rule fires if and only if the severity is not OK, which is then the highest of those that fire |
| `BurnRate.AttachBurnRates` | runner/pkg/enrichers/slo_burnrate.go:470-486 | a report marked valid gets the rules' reports and an alert if and only if some rule fires, with the highest severity and a report that has it; another gets nothing |
| `BurnRate.Round1Nearest` | runner/pkg/enrichers/slo_burnrate.go:488-490 | rounding moves a rate by at most 0.05 and keeps the order |
| `BurnRate.AboveThreshold` | runner/pkg/enrichers/slo_burnrate.go:204-210 | a rounded rate exceeds a one-decimal threshold if and only if the rate reaches it plus 0.05 |
| `BurnRate.FiresIff` | runner/pkg/enrichers/slo_burnrate.go:181-214 | a rule fires if and only if, in the counts alone, the bad events of both windows reach that multiple of the budget and half of each window reported |
| `BurnRate.AlertsIff` | runner/pkg/enrichers/slo_burnrate.go:48-51 | the shipped rules alert if and only if an hour and its last five minutes burn at 14.45 times the budget, or six hours and fifteen minutes at 6.05 times |
| `BurnRate.BadRatioMeans` | runner/pkg/enrichers/slo_burnrate.go:121-149 | which windows are judged, and that their ratio is the bad events among all |
| `BurnRate.ReportMeans` | runner/pkg/enrichers/slo_burnrate.go:181-214 | a report carries its rule's windows and threshold, the percentages within half a millionth, the rates within 0.05, and the severity exactly when both rates exceed the threshold |
| `BurnRate.ReportsInOrder` | runner/pkg/enrichers/slo_burnrate.go:181-214 | the reports are those of the two rules that can be judged, in order |
| `BurnRate.RulesAreMonotone` | runner/pkg/enrichers/slo_burnrate.go:121-149 | more bad events, or fewer good ones under a fixed valid total, never turn a rule off, rounding included |
| `BurnRate.AlertsAreMonotone` | runner/pkg/enrichers/slo_burnrate.go:181-230 | nor an alert |
| `BurnRate.CanFireIff` | runner/pkg/enrichers/slo_burnrate.go:181-214 | a rule can fire on some counts if and only if the budget times the threshold plus 0.05 is at most one |
| `BurnRate.DeadRule` | runner/pkg/enrichers/slo_burnrate.go:181-214 | with a budget of at least one over the threshold the rule never fires |
| `BurnRate.AlertPossibleIff` | runner/pkg/enrichers/slo_burnrate.go:48-51 | with the shipped rules an objective can alert if and only if its budget is positive and at most 1/6.05 |
| `ReconnectBackoff.CeilingLoop` | runner/pkg/relay/client.go:169-177 | the loop, with doubling that wraps around in 64 bits, computes the specified ceiling |
| `ReconnectBackoff.TurnsKeepPromise` | runner/pkg/relay/client.go:169-177 | from a base that is not negative the loop gives min(limit, base * 2^attempt) and never wraps around |
| `ReconnectBackoff.PromiseKeptIff` | runner/pkg/relay/client.go:166-185 | for every base and limit the ceiling is the promised one at every attempt if and only if the base is not negative, not below the limit, or minus a power of two |
| `ReconnectBackoff.ReconnectWait` | runner/pkg/relay/client.go:169-185 | the wait is a draw of at most the ceiling |
| `ReconnectBackoff.RunCeilings` | runner/pkg/relay/client.go:139-164 | each reconnect has one attempt number, the short sessions since one held, and uses its ceiling |

## Left out

- Network and cluster clients, HTTP, WebSocket and SPDY transport, gzip, clocks, randomness and polling intervals: environment choices, or parameters.
- Cryptography and key parsing: the predicate `authentic` on a request. The relay's clock counts whole seconds.
- Floating point: counts and rates are reals, sample numbers are exact rationals read by a parameter `parse`; infinities, NaN, range errors such as 1e999, IEEE rounding and float formatting are not modelled, and canonical JSON has no floats.
- PromRefinement.ScannerAgreesIff: the text of arrays and objects inside a sample, and of elements that are neither array nor null, is not parsed, as the scanner does not look into it; a document that is no array is not covered.
- PVC downsize: one template claim stands for the volume list, volumes are bound at creation, nobody else scales the workload or touches the claims, and prerequisites are taken as validated; sizes, labels and annotations are not modelled, so the parity check is a call that may fail (`verifyParity` itself is left out as easy).
- PvcMigrator.Migrator.Call: the mover pod and its waits are one copy call that may fail with part of the files copied.
- PvcRollback.RollbackRestores: assumes that failed calls had no effect (except for files on the temporary volume), that undo calls succeed and that no deletion of the original was left pending; the temporary claim is deleted, and gone once the cluster finalizes it.
- PvcRollback.ScaledUpOntoACopy: for StatefulSets covers runs whose deletion is timely, since in others it is false, as `PvcLoss.StatefulSetPodsOnACopyIff` shows.
- Rule edits: metadata, selector labels, and creating or deleting whole resources; a group without a rule list is an empty list to the edits; the bound on conflict retries is left open, so that a writer may retry for ever.
- Revert: trees are values, so the step-by-step navigation that changes a live object in place, and aliasing inside it, are not modelled; case folding of kind names is ASCII; kind resolution and parsing of the request are left out.
- Discovery: converters are functions, the incremental path with its tombstones and work queues, and the sharing of the index between goroutines.
- AlertIntake: the counters and channels are a state that atomic steps change, not objects; matching itself, forwarding and its semaphore are not modelled; the hash is any function of the key; which sender wins the warning interval is a free choice.
- KubectlChain: shell tokenizing, the verb and flag tables (parameters), output capture and encoding.
- PodShell: stdin, container choice and waiting for the pod; identifiers are fresh numbers.
- Workload right-sizing, discovery field mapping, Grafana, Loki and ClickHouse proxies, profilers, lookup tables, configuration and metrics: mostly wiring and record copying.
