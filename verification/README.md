# ya-router: a verified model of its state machines

ya-router is a gateway that routes model requests to several providers. This project models the
parts of it that are hard to get right and proves, for every input, every run or every
interleaving, what those parts promise. `dafny verify dfyconfig.toml` checks everything.

| part | modules |
|---|---|
| snapshots, leases, retirement, draining, provider lifecycle | `RuntimeSnapshot`, `DrainProtocol`, `DrainProofs`, `ProviderManager`, `Lifecycle`, `DrainConservation` |
| crash-safe revisioned configuration, mutations with compensation, config diff | `ConfigState`, `ConfigRuns`, `ConfigLimits`, `Mutation`, `ConfigDiff` |
| durable operations and their workers | `Operations`, `OperationRuns`, `OperationStore`, `OperationRunner` |
| cooldowns, availability, virtual models, failover | `Names`, `Cooldowns`, `CooldownFile`, `Availability`, `QuotaHolds`, `VirtualModels`, `VirtualResponse`, `Attempts`, `ResponseWriters`, `Failover` |
| incremental stream writers | `Splitting`, `VirtualResponse`, `ChatWriter`, `AnthropicEvents`, `AnthropicProofs`, `AnthropicLaws`, `AnthropicWriter`, `AnthropicTranslator` |
| idempotency keys, account rotation | `Idempotency`, `IdempotencyStore`, `AccountPool` |

## How it is modelled

Code that updates an object in place is a class with the source's fields; each of its methods is
proved equal to a function on values. Where goroutines interleave or a machine may fail, the same
functions are the steps of a state machine: `Exec` runs any sequence of steps, a step that is not
possible leaves the state alone, and the theorems range over all sequences. Clocks, file contents
after a crash, the behaviour of providers, JSON, digests and the outcome of disk writes are
parameters. A digest is assumed to separate normalised configurations and normalising is assumed
to be idempotent (`ConfigState.Lawful`); factories are assumed to return instances that did not
exist before (the protocol's `Build` step, `ProviderManager.FreshBuilder`), and the provider manager
is the only publisher of snapshots. In `Mutation` the reload of the provider runtime is its outcome,
success or failure; that a failed reload leaves the runtime as it was is what
`ProviderManager.Manager.Reconcile` proves.

## What turned out not to hold as stated

Each has a lemma that exhibits it and a theorem that says exactly when the property does hold.

- A provider error does not always lead to the next target. An unset status counts as 200, so an
  attempt that fails without output is delivered as an empty success
  (`Attempts.ErrorsRetryExactly`, `Attempts.CommitsExactly`).
- A quota failure holds a target only if the configured spelling starts with its provider prefix:
  the selector trims a target and the outcome recorder does not (`Availability.HoldExactly`,
  `Availability.PaddedTargetEscapes`).
- A hold does not survive every restart. A write that fails is only logged, and a restart reads no
  more than the first 4096 holds of the file (`QuotaHolds.HoldSurvivesExactly`,
  `CooldownFile.ReopenedExactly`, `QuotaHolds.UnsavedHoldIsLost`, `QuotaHolds.CrowdedHoldIsLost`).
- Block indices of the Anthropic stream repeat when upstream repeats item ids
  (`AnthropicProofs.IndicesIncreaseExactly`, `AnthropicProofs.RepeatedItemReusesIndex`).
- The Anthropic writer normalises line endings chunk by chunk, so a chunk boundary inside a CR LF
  changes the stream (`AnthropicWriter.NormalisesExactly`, `AnthropicWriter.CutHidesEvent`).
- Metadata with revision 0 whose digest matches can give one revision to two configurations
  (`ConfigLimits.ZeroRevisionExactly`, `ConfigLimits.ZeroRevisionConflicts`). A dry run answers with a
  revision that is never stored, and two of them contradict each other exactly when they preview
  different configurations (`ConfigLimits.PreviewsExactly`).
- An open that keeps metadata which was never synced can serve a revision that a power loss takes
  back (`ConfigLimits.UnsyncedOpenCanRegress`). `ConfigRuns.RegressesExactly` says on which
  directories, and `ConfigRuns.SettledExactly` that excluding just those opens is exactly enough.
- The operation store has the same gap: a file whose rename was not synced can be adopted by a
  restart and then lost, and an operation served as Succeeded becomes Failed
  (`OperationRuns.UnsyncedEndingCanChange`, `OperationRuns.AdoptsExactly`).
- A Retry-After of more than 9223372036 seconds overflows. What becomes of it depends on where the
  product wraps to (`Cooldowns.RetryAfterExactly`, `Cooldowns.HintBecomesQuotaExactly`,
  `Cooldowns.LongHintsOverflow`).

Code and comment differ in one place: the comment on virtual-model validation says targets are
examined in sorted order, the code examines them in configured order, and the model follows the code.

## Model

| member | source | states |
|---|---|---|
| `DrainProofs.RunsKeepInv` | internal/runtime/manager.go:85-172 | in every interleaving of acquire, release, publish, retire, close, drain and timeout, lease counts are exact, the pointer never rests on a retired snapshot, a publication has captured every undrained older snapshot, and no instance is used, waiting and closed at once |
| `DrainConservation.NothingIsLeaked` | internal/provider/manager.go:491-628 | in every reachable state every instance a factory ever returned is in use, waits in exactly one drain, or was closed exactly once, and only one of the three |
| `DrainConservation.DrainClosesAll` | internal/provider/manager.go:536-585 | an instance handed to a drain stays there until it is closed, once, so a drain that is empty has closed all it was given, timed out or not |
| `DrainConservation.DrainCanFinish` | internal/provider/manager.go:536-608 | as soon as the snapshots a drain waits for have drained, closing what is left is possible and closes all of it |
| `DrainProofs.CloseIsSafe` | internal/provider/manager.go:536-628 | whenever any step of any run closes an instance, no unreleased lease pins a snapshot containing it, it is not effective, and it was never closed before |
| `DrainProofs.ClosedStaysUnpinned` | internal/provider/manager.go:536-585 | a closed instance is never pinned by any lease held or taken later and was closed exactly once |
| `DrainProofs.RunEvolves` | internal/runtime/snapshot.go:71-113 | retired and drained are permanent, and a drained snapshot never regains a lease |
| `DrainProofs.LeaseSeesPublication` | internal/runtime/manager.go:85-144 | a lease taken after a publication has retired its predecessor is on that generation or a later one, whenever its pointer was loaded |
| `DrainProofs.ReachableSnapshots` | internal/runtime/manager.go:123-172 | in every reachable state active counts equal unreleased leases, drained means retired with none, generations are dense, the current snapshot is the newest and not retired, and undrained snapshots are live |
| `DrainProofs.AbortIsInvisible` | internal/provider/manager.go:230-290 | a mutation that fails at a build or at the publication leaves the effective set and the published snapshot alone and closes, once each, exactly the instances its factories returned |
| `RuntimeSnapshot.Snapshot.TryAcquire` | internal/runtime/snapshot.go:71-79 | a lease is granted exactly while the snapshot is not retired |
| `RuntimeSnapshot.Snapshot.Release` | internal/runtime/snapshot.go:81-91 | the last release of a retired snapshot drains it, and draining is never undone |
| `RuntimeSnapshot.Snapshot.Retire` | internal/runtime/snapshot.go:93-101 | retiring an idle snapshot drains it; drained stays equivalent to retired and idle |
| `ProviderManager.Manager.ProvidersInOrder` | internal/provider/manager.go:717-739 | the instances of the records in registration order, each exactly once |
| `ProviderManager.Manager.Index` | internal/provider/manager.go:197-237 | a request is accepted exactly when its ids are registered, pairwise different and carry valid accounts |
| `ProviderManager.Manager.Plan` | internal/provider/manager.go:230-270 | equal fingerprints reuse the instance, everything else enabled is built in registration order, and planning stops at the first build that fails, with exactly the instances returned until then |
| `ProviderManager.Manager.Reconcile` | internal/provider/manager.go:197-315 | failures leave desired and effective alone and close exactly what the factories returned; nothing is published exactly when nothing differs; a success makes exactly the enabled providers effective and hands the rest to draining |
| `ProviderManager.TwoRequests` | internal/provider/manager.go:239-315 | over two successful requests a provider enabled in both keeps its instance if and only if both carry a fingerprint for it and they are equal; repeating a request with all its fingerprints changes nothing |
| `ProviderManager.RequestIsRecorded` | internal/provider/manager.go:271-276 | a successful request is on record provider by provider, as it came |
| `ProviderManager.ReturnedExactly` | internal/provider/manager.go:491-518 | the instances to close after a failure are those of every factory asked so far that returned one, rejected or not |
| `ProviderManager.Manager.Adopt` | internal/provider/manager.go:271-315 | the published set becomes effective at its generation, and exactly the instances it does not reuse are retired |
| `ProviderManager.Manager.Replace` | internal/provider/manager.go:319-374 | one provider is exchanged and its old instance retired, or nothing changes and the new instance is closed |
| `ProviderManager.Manager.Remove` | internal/provider/manager.go:400-439 | the provider leaves the effective set and is retired; an inactive one is only marked disabled; a failed publication changes nothing |
| `ProviderManager.PlanReplaces` | internal/provider/manager.go:230-300 | a completed plan gives every id its own instance, kept or newly built, and what it does not reuse is exactly what the replacement drops |
| `Lifecycle.HandoverIsARun` | internal/provider/manager.go:197-315 | what a mutation hands over is reached by atomic steps of the drain protocol from any reachable idle state: the published instances are the new snapshot's members and exactly the retired ones wait behind every live snapshot |
| `ConfigState.Manager.PersistSnapshot` | internal/state/persistence.go:15-82 | the backup copies, the two renames and the syncs happen in order, and a fault stops after a prefix of them |
| `ConfigState.Manager.Load` | internal/state/manager.go:40-111 | the stored or initial configuration is served normalised, missing or stale metadata is repaired with a new revision, and a failure serves nothing |
| `ConfigState.Manager.Apply` | internal/state/manager.go:160-205 | compare-and-swap: a stale revision, an invalid request or a closed manager changes nothing; a stored request is in force and on disk as it came, one revision on; an unchanged digest or a dry run writes nothing |
| `ConfigState.Manager.Rollback` | internal/state/manager.go:242-274 | the backup is in force and on disk, normalised, at a new revision with the effective configuration kept, or nothing changes |
| `ConfigState.Manager.SetEffective` | internal/state/manager.go:276-310 | the given configuration, normalised, is effective at a new revision and the desired one does not change |
| `ConfigRuns.RunsKeep` | internal/state/manager.go:40-310 | every step other than an open that regresses keeps the directory such that no power loss can bring back an earlier revision, or another configuration at the same one |
| `ConfigRuns.RevisionsAreConsistent` | internal/state/manager.go:160-310 | over every run of the operations with faults, crashes, exits and reopens in which no open regresses, served revisions never decrease and one revision never stands for two normalised configurations |
| `ConfigRuns.RegressesExactly` | internal/state/manager.go:40-87 | an open serves what a power loss can contradict if and only if it keeps metadata without writing and the durable metadata, with the visible or the durable configuration, is shown at an earlier revision or at the same one with another configuration |
| `ConfigRuns.SettledExactly` | internal/state/manager.go:40-87 | from any reachable state, every continuation whose later opens do not regress stays consistent if and only if this open does not regress |
| `ConfigRuns.InterruptedRepairIsHarmless` | internal/state/manager.go:65-78 | an open that keeps the unsynced repair of a synced configuration does not regress |
| `ConfigRuns.CrashRunsAreConsistent` | internal/state/persistence.go:15-64 | consistency for every run in which, between two power losses, no open follows both a cut step and an end of the process, from any directory the store wrote |
| `ConfigRuns.CrashRecovers` | internal/state/persistence.go:15-64 | a persist interrupted anywhere, the first one of a fresh directory included, with any subset of its renames surviving, is recovered to the old or the new configuration at a revision that did not decrease and grew if the configuration changed |
| `ConfigRuns.ReopenChangesNothing` | internal/state/manager.go:40-87 | opening what an open left serves the same snapshot and writes nothing |
| `ConfigRuns.RollbackUndoesApply` | internal/state/manager.go:160-274 | from a state that serves a and has it on disk, applying b and rolling back serves a again two revisions on with the effective configuration as the apply left it, and a second rollback serves b |
| `ConfigRuns.CutOpenLeavesRepair` | internal/state/manager.go:60-78 | an open cut after its rename serves nothing and leaves repaired metadata visible but not durable |
| `ConfigLimits.PreviewsExactly` | internal/state/manager.go:160-205 | dry runs answer with the next revision; two contradict each other if and only if they preview different configurations, and a preview is what the same request would store if and only if there is something to store |
| `ConfigLimits.ZeroRevisionConflicts` | internal/state/manager.go:40-87 | a run from metadata at revision 0 in which one revision stands for two configurations |
| `ConfigLimits.ZeroRevisionExactly` | internal/state/manager.go:40-87 | a directory at revision 0 is consistent over all runs without a regressing open if and only if its recorded digest is not that of its configuration |
| `ConfigLimits.UnsyncedOpenCanRegress` | internal/state/manager.go:40-87 | a run in which an open of unsynced metadata is followed by a lower revision for another configuration |
| `Mutation.ApplyManagedMutation` | src/mutation_runtime.go:49-116 | exactly when a mutation is rejected, applied, compensated or stranded; a compensated one restores the old configuration two revisions on; configuration and runtime differ only after a failed compensation |
| `ConfigDiff.ReportedExactly` | internal/state/diff.go:36-68 | a path is reported if and only if every proper prefix leads to objects on both sides and the values at it differ and are not both objects |
| `ConfigDiff.DifferencesAreCovered` | internal/state/diff.go:36-68 | every difference that is not between two objects lies at or under a reported path |
| `ConfigDiff.SilentExactly` | internal/state/diff.go:36-68 | nothing is reported if and only if the trees are equal once null fields are dropped, that is, with a missing key read as null |
| `ConfigDiff.WalkDiff` | internal/state/diff.go:36-68 | the walk prints, after what was already found, the reported paths, each exactly once |
| `ConfigDiff.PathsReadDotted` | internal/state/diff.go:55-67 | a path reads as its keys joined by dots, and as $ for the whole configuration |
| `Operations.EmitReflects` | internal/operation/store.go:456-468 | appending an event keeps the log the newest run of consecutive numbers and every record's sequence that of its latest event |
| `Operations.TransitionsExactly` | internal/operation/store.go:481-495 | a live operation may go to any state but back to pending and where it already is; an ended one nowhere |
| `Operations.TransitionChanges` | internal/operation/store.go:215-232 | of one record, only state, bounded progress, result, failure, time and number change |
| `Operations.ProgressChanges` | internal/operation/store.go:246-286 | of one record, only bounded progress, the given result, time and number change |
| `Operations.CreateIsIdempotent` | internal/operation/store.go:110-169 | while an operation is kept its key and payload find it again and its key with another payload is refused |
| `Operations.LogKeepsNewest` | internal/operation/store.go:461-468 | the log holds the newest events, as many as fit |
| `Operations.PrunesOldestFirst` | internal/operation/store.go:387-418 | what pruning removes has ended and is past its retention, or is at least as old as every ending it keeps while the store is full |
| `Operations.RecoveryEndsEverything` | internal/operation/store.go:356-385 | after recovery every record is terminal |
| `Operations.OneTerminalEvent` | internal/operation/store.go:481-495 | a terminal record has exactly one terminal event in its history, and it is the last one |
| `OperationRuns.RunsKeep` | internal/operation/store.go:100-298 | over every run with failed writes, restarts and power losses, memory and both the visible and the durable file reflect lawful histories; the history only grows as long as no open adopts a file that a loss takes back |
| `OperationRuns.TerminalIsForever` | internal/operation/store.go:197-244 | a terminal record keeps its state and sequence through every later run without power losses, and through every run with them in which no open adopts an unsynced file |
| `OperationRuns.AdoptsExactly` | internal/operation/store.go:43-95 | an open is safe for every continuation whose later opens are if and only if it does not serve, without writing, a file whose events a power loss takes back |
| `OperationRuns.UnsyncedEndingCanChange` | internal/operation/persistence.go:75-85 | a run in which an operation is served as Succeeded and, after a power loss, as Failed |
| `OperationRuns.RecordsFollowTheStateMachine` | internal/operation/store.go:481-495 | every operation's history follows the transition relation from its creation |
| `OperationRuns.StoreStaysBounded` | internal/operation/store.go:387-418 | the number of operations never exceeds the limit once open, even from an oversized file |
| `OperationRuns.PublishedIsDurable` | internal/operation/store.go:442-479 | an event that reached subscribers is in the durable file and in every later history and file, whatever fails |
| `OperationRuns.PublishesWhatItCommits` | internal/operation/store.go:241-244 | while the daemon runs, what a call adds to the history is what it publishes |
| `OperationRuns.RefusalChangesNothing` | internal/operation/store.go:110-140 | a creation refused for its key or for lack of room leaves everything as it was, pruning included |
| `OperationStore.LiveStore.Mutate` | internal/operation/store.go:420-454 | a failed persist restores records, events and numbering deeply although the record was changed in place; the file is then the old or the new one |
| `OperationRuns.CursorMissesNothing` | internal/operation/store.go:300-310 | a cursor inside the retained window gets exactly the events after it |
| `OperationStore.LiveStore.Start` | internal/operation/store.go:43-95 | opening recovers every record in id order, prunes, and writes back only if that changed something; the limit holds afterwards |
| `OperationStore.LiveStore.Create` | internal/operation/store.go:100-169 | replays or refuses a known key, refuses at capacity, or adds a pending record; a replay writes only what pruning changed; an error leaves the store deeply as it was |
| `OperationStore.LiveStore.Transition` | internal/operation/store.go:197-244 | an allowed transition is applied and published only if persisted, otherwise everything is as before although records were changed in place |
| `OperationStore.LiveStore.UpdateProgress` | internal/operation/store.go:246-286 | progress of a live record is clamped, stored and published, or rolled back; a terminal record is refused |
| `OperationStore.LiveStore.Recover` | internal/operation/store.go:356-385 | every live record becomes expired or interrupted, with one event each |
| `OperationStore.LiveStore.Prune` | internal/operation/store.go:387-418 | exactly the records outside retention go, then the oldest terminal ones beyond capacity |
| `OperationStore.LiveStore.Restore` | internal/operation/store.go:436-440 | the checkpoint is the store again, deeply |
| `OperationStore.LiveStore.EventsSince` | internal/operation/store.go:300-310 | the retained events with a number above the cursor, in order |
| `OperationRunner.RunsKeep` | internal/operation/manager.go:61-195 | every interleaving of workers, Cancel, Close and power cuts keeps the store's invariant and one goroutine per registered operation |
| `OperationRunner.FirstEndingWins` | internal/operation/manager.go:97-163 | whichever of completion, Cancel, expiry and restart ends an operation first decides, and no later interleaving overwrites it, power cuts included as long as no process adopts an unsynced file |
| `OperationRunner.OneWorkerPerOperation` | internal/operation/manager.go:61-95 | at most one goroutine works on an operation in every reachable state |
| `OperationRunner.ClosingLeavesTheEnding` | internal/operation/manager.go:97-195 | once the daemon is closing, an operation whose goroutine has not read that does not end in this process, in any interleaving, unless it is cancelled |
| `OperationRunner.ClosingAdmitsNobody` | internal/operation/manager.go:72-80 | once the daemon is closing the set of running operations only shrinks |
| `OperationRunner.WorkerDecides` | internal/operation/manager.go:125-149 | what a worker returns is what its operation becomes: success, failure, or expiry when its time ran out |
| `OperationRunner.CancelEndsExactly` | internal/operation/store.go:288-298 | a written cancellation ends an operation if and only if it has not ended and may be cancelled |
| `OperationRunner.EndedIsLeftAlone` | internal/operation/manager.go:61-71 | nobody begins to work on an operation that ended, and a worker that comes back to one leaves it as it is |
| `OperationRunner.RecoveryDecides` | internal/operation/store.go:356-385 | an operation that was live in the file is expired after the next open if its time is up or it asked for that, and failed otherwise |
| `Cooldowns.CooldownDuration` | internal/routing/cooldown.go:187-211 | the loop computes the larger of 15 s doubled per failure and the hint, each capped at 300 s; a quota hold is 24 h or a longer hint |
| `Cooldowns.QuotaPolicyExactly` | internal/routing/cooldown.go:342-364 | an outcome earns a quota hold if and only if it is a 402, 403, or 429 without a usable Retry-After, and was not cancelled |
| `Cooldowns.EarnsHoldExactly` | internal/routing/cooldown.go:321-361 | an outcome earns a hold if and only if it was not cancelled and is an error, a 401, 402, 403, 408, 429 or at least 500 |
| `Cooldowns.HoldIsNamed` | internal/routing/cooldown.go:321-361 | which hold each outcome earns: the status decides over the error on money, permission and rate, and running out of time is named as such |
| `Cooldowns.FailuresEscalate` | internal/routing/cooldown.go:157-185 | the n-th failure in a row counts as the n-th and is held accordingly; other targets are untouched |
| `Cooldowns.RetryAfterExactly` | src/proxy.go:787-797 | a hint is the header in nanoseconds, capped at 5 min, if and only if it is at most 9223372036 s or its 64-bit product wraps to at least the cap |
| `Cooldowns.HintBecomesQuotaExactly` | src/proxy.go:787-797 | a rate limit with a hint becomes an exhausted quota if and only if the product wraps to zero or less |
| `Cooldowns.LongHintsOverflow` | src/proxy.go:787-797 | one hint that becomes negative and a quota hold, and a longer one that becomes 0.29 s and stays a rate limit |
| `Cooldowns.Registry.Record` | internal/routing/cooldown.go:157-185 | a hold is started or extended; it never ends earlier than before nor before a first hold of its reason would |
| `Cooldowns.Registry.RecordOutcome` | internal/routing/cooldown.go:366-387 | a success clears the target, a policy failure records it, anything else changes nothing |
| `Cooldowns.Registry.Active` | internal/routing/cooldown.go:228-253 | exactly the provider's unexpired holds are returned and exactly its expired ones dropped |
| `Cooldowns.Reopen` | internal/routing/cooldown.go:71-137 | the first 4096 stored entries that decode and have not expired, later ones winning |
| `Cooldowns.RestartKeepsHolds` | internal/routing/cooldown.go:264-289 | reading back any listing of a registry of at most 4096 entries yields exactly the unexpired ones |
| `CooldownFile.Persist` | internal/routing/cooldown.go:264-289 | the file lists every hold, ordered by provider, then capability, then folded model |
| `CooldownFile.ReopenedExactly` | internal/routing/cooldown.go:71-137 | a hold is found again if and only if it was written, has not expired, and fewer than 4096 holds come before it in the file |
| `CooldownFile.SmallRegistryIsKept` | internal/routing/cooldown.go:71-137 | a registry of at most 4096 holds comes back as exactly the unexpired ones |
| `Names.TrimIsIdempotent` | internal/availability/availability.go:276-278 | trimming yields a trimmed name and leaves trimmed names alone |
| `Names.TrimsExactly` | internal/availability/availability.go:276-278 | trimming takes all blanks off both ends and nothing else |
| `Names.FoldsExactly` | internal/availability/availability.go:276-278 | two names fold together if and only if they differ in nothing but the case of letters |
| `Names.PrefixesName` | internal/routing/prefixes.go:59-70 | which provider and model each prefix stands for |
| `Names.StripIgnoresRightPadding` | internal/routing/prefixes.go:59-70 | a padded target that starts with its prefix names the same provider and normal model as its trimmed form |
| `Availability.NewSnapshot` | internal/availability/availability.go:140-176 | one entry per provider with its running cooldowns, later views winning |
| `Availability.ProvidersAreViews` | internal/availability/availability.go:140-176 | every entry of a snapshot is that of one of its views and every view is represented |
| `Availability.RoutableExactly` | internal/availability/availability.go:197-262 | a target is routable if and only if its provider, as last reported, is enabled, ready, capable, not cooling down for that model and capability, allowed to serve it and known to have it |
| `Availability.Select` | internal/routing/selector.go:68-111 | the first target that is routable and not excluded, with the reason every earlier one was passed over |
| `QuotaHolds.HoldSurvivesExactly` | internal/routing/cooldown.go:71-289 | over every run of outcomes, purges, writes that may fail and restarts, short of a success of its target, a hold stands throughout if and only if every restart finds it among the first 4096 entries of the file |
| `QuotaHolds.StoredHoldReopens` | internal/routing/cooldown.go:255-289 | a hold that was written once stays in the file through every later write, so restarts lose it only by the limit |
| `QuotaHolds.QuotaHoldIsRespected` | internal/routing/cooldown.go:342-387 | after a quota failure at t no selection before t + 24 h picks the target under any spelling, whatever else happens short of a success of that target and of a restart that does not find the hold |
| `QuotaHolds.StoredQuotaReopens` | internal/routing/cooldown.go:157-185 | a quota hold that was written is found by every restart before which fewer than 4096 stored holds come first |
| `QuotaHolds.FileFollowsMemory` | internal/routing/cooldown.go:213-262 | while writes succeed the file holds what the registry holds; what changes nothing is not written |
| `QuotaHolds.UnsavedHoldIsLost` | internal/routing/cooldown.go:255-262 | a hold whose write failed is gone after a restart |
| `QuotaHolds.CrowdedHoldIsLost` | internal/routing/cooldown.go:101-104 | the 4097th hold of a stored registry is gone after a restart |
| `Availability.HoldExactly` | internal/routing/cooldown.go:366-387 | a quota failure holds a configured target if and only if it starts with a provider prefix untrimmed, or was held already |
| `Availability.PaddedTargetEscapes` | internal/routing/cooldown.go:366-387 | a target with a leading space is routable wherever its provider serves the model, and a quota failure holds nothing |
| `VirtualModels.ValidateVirtualModels` | internal/config/validate.go:22-72 | a configuration is accepted if and only if every virtual model in it is well formed |
| `VirtualModels.ValidatedTargetsResolve` | internal/config/validate.go:53-69 | a validated target names a provider and never another virtual model |
| `VirtualModels.ValidatedModelOffersTargets` | internal/config/validate.go:33-70 | a validated model offers as many different targets as it lists, at least one, under a known strategy |
| `VirtualModels.ReorderTargets` | internal/routing/router.go:229-248 | the preferred target first, the others in their order; an unknown preference changes nothing |
| `VirtualModels.ReorderingKeepsTargets` | internal/routing/router.go:229-248 | reordering loses, adds and repeats no target |
| `VirtualModels.OthersKeepOrder` | internal/routing/router.go:240-247 | the targets behind the preferred one are all the others, in their configured order |
| `VirtualResponse.OutputIsBatch` | src/virtual_model_response.go:24-103 | for every sequence of statuses, writes and flushes, what the wrapped writer receives is the batch rewrite of the whole: it depends on the bytes, the status in force and whether anything was flushed |
| `VirtualResponse.EveryLineIsRewritten` | src/virtual_model_response.go:80-103 | for every rewriter and every flushed run the n-th body is the n-th line of the input, with the payload rewritten if it is a data line and byte for byte otherwise, an unterminated last line likewise, and nothing else |
| `VirtualResponse.LinesJoin` | src/virtual_model_response.go:80-94 | the lines and what follows the last one are the input, in order and complete |
| `VirtualResponse.NothingIsLost` | src/virtual_model_response.go:32-103 | where no payload needs rewriting the client gets the provider's bytes in order and complete, with at most one newline added |
| `Attempts.CommitsExactly` | src/proxy.go:487-522 | an attempt goes out by itself if and only if its status is a 2xx and something reached the buffering writer; otherwise nothing of it has gone out |
| `Attempts.DeliveredIsOutput` | src/proxy.go:487-543 | a delivered attempt is one header with its own status and then exactly the bytes of its batch rewrite |
| `Attempts.OutcomeStatusExactly` | src/proxy.go:660-664 | an outcome is judged by the first status the provider set, an unset or impossible one reading as 200, and by the status of the error where that leaves 200 |
| `Attempts.FailuresRetryExactly` | src/proxy.go:548-562 | a response without an error leads to the next target if and only if nothing of it went out and the first status set is 401, 402, 403, 408, 429, 504 or at least 500 |
| `Attempts.MovesOnExactlyWhenHeld` | src/proxy.go:548-562 | of the attempts of which nothing went out, those are retried whose outcome earns the target a hold |
| `Attempts.ErrorsRetryExactly` | src/proxy.go:651-703 | a provider error leads to the next target if and only if no success went out; with no output at all it is delivered as an empty 200 |
| `ResponseWriters.AttemptWriter.Write` | src/proxy.go:495-507 | pass through once committed, commit on the first write of a 2xx, buffer anything else |
| `ResponseWriters.AttemptWriter.CommitToReal` | src/proxy.go:531-543 | status and buffer go out once; a second commit sends nothing |
| `ResponseWriters.VirtualModelWriter.WriteStream` | src/virtual_model_response.go:80-94 | the complete lines of what is pending go out rewritten and the rest is kept |
| `ResponseWriters.VirtualModelWriter.Flush` | src/virtual_model_response.go:39-51 | the first flush sends the header and turns the buffered body into a stream; later ones send nothing |
| `ResponseWriters.VirtualModelWriter.Commit` | src/virtual_model_response.go:60-73 | an unfinished last line, or header and rewritten body, go out |
| `ResponseWriters.RunAttempt` | src/proxy.go:651-664 | the stack of writers behaves as the composition of the two value models, and the outcome status is the error's where the writer's reads 200 |
| `Failover.Resolve` | internal/routing/router.go:186-225 | the first routable candidate in preferred order, if its provider is still registered |
| `Failover.OrderExactly` | internal/routing/router.go:186-196 | only the priority strategy remembers: there a remembered target that is still configured is considered first and the others in their order, otherwise the configured order is |
| `Failover.Serve` | src/proxy.go:612-731 | for all providers, at most one attempt per target, none twice, each picked afresh after an eligible failure that sent nothing; the loop ends exactly as its last attempt and the router dictate; every outcome is reported, and a success under the priority strategy is remembered |
| `Failover.OneAttemptIsSeen` | src/proxy.go:473-543 | status and body bytes from at most one attempt reach the client, and they are that attempt's complete rewrite |
| `Failover.ExhaustedMeansTried` | src/proxy.go:715-728 | giving up with every candidate routable means each of them was dispatched |
| `Splitting.SplitAppend` | src/virtual_model_response.go:80-94 | splitting what has arrived and later the remainder with what follows is splitting it all |
| `ChatWriter.DeltasAreBatch` | src/ws_chat_writer.go:47-98 | however an event stream is cut into writes, the deltas are those of its complete lines, and bytes of other content types are kept apart |
| `ChatWriter.EveryLineContributes` | src/ws_chat_writer.go:87-121 | for every chunking the deltas are what the complete lines contribute in turn: the non-empty texts of a data payload that is not empty or the end marker, and nothing for other lines |
| `ChatWriter.LineEndingsAgree` | src/ws_chat_writer.go:87-98 | a line ended by CR LF carries the deltas of the same line ended by LF |
| `ChatWriter.Writer.Write` | src/ws_chat_writer.go:47-59 | the writer follows the value model under whatever content type is set |
| `ChatWriter.Writer.Drain` | src/ws_chat_writer.go:87-98 | the loop delivers the deltas of every complete line and keeps the rest |
| `ChatWriter.Writer.Handle` | src/ws_chat_writer.go:100-121 | non-empty texts of a data line other than the end marker, in order |
| `ChatWriter.Writer.Finish` | src/ws_chat_writer.go:66-85 | a response that was not a stream is one delta; a stream adds nothing |
| `AnthropicProofs.StreamIsLegal` | src/anthropic_sse_events.go:9-147 | for every upstream stream: message_start first and once, every stop closes an open block, every message_stop finds none open and follows a message_delta whose reason says whether a tool was used, nothing after an error |
| `AnthropicProofs.SilentAfterError` | src/anthropic_sse.go:37-60 | nothing is emitted after the sticky error |
| `AnthropicProofs.IndicesIncreaseExactly` | src/anthropic_sse_events.go:75-112 | block indices strictly increase if and only if no item starts a block after one whose ids were all known |
| `AnthropicProofs.IndicesIncrease` | src/anthropic_sse_events.go:75-112 | they do when no item id repeats an earlier item or call id |
| `AnthropicProofs.RepeatedItemReusesIndex` | src/anthropic_sse_events.go:90-98 | a repeated item id gives two later blocks one index |
| `AnthropicProofs.StopMatchesStart` | src/anthropic_sse_finish.go:109-122 | every stop matches an earlier start of its block with no other stop in between |
| `AnthropicProofs.BlocksStopOnce` | src/anthropic_sse_finish.go:32-122 | with fresh item ids no block is stopped twice |
| `AnthropicProofs.TextIsConserved` | src/anthropic_sse_events.go:114-147 | the deltas emitted are those received, in order and unaltered, until the stream fails |
| `AnthropicLaws.FailsExactly` | src/anthropic_sse_events.go:9-42 | the stream fails exactly at an event that is malformed, reports a failure or refers to an unannounced item; only a reported failure is told to the client |
| `AnthropicLaws.ItemOpensItsBlock` | src/anthropic_sse_events.go:75-112 | an item opens the block numbered by the ids known before it, as a tool call with its id and name or as text |
| `AnthropicLaws.DeltasReachTheirBlock` | src/anthropic_sse_events.go:114-147 | with ids that do not repeat, a delta is sent unaltered to the block of the item it refers to |
| `AnthropicLaws.DoneStopsItsBlock` | src/anthropic_sse_finish.go:32-51 | an item that is done stops its own block unless that has been stopped |
| `AnthropicLaws.MessageCarriesId` | src/anthropic_sse_events.go:44-73 | the message goes by the id of the response that began it |
| `AnthropicLaws.CompletionEndsTheMessage` | src/anthropic_sse_finish.go:53-107 | a completed response stops every open block in order, then reports the usage received and stops the message |
| `AnthropicLaws.EndedExactly` | src/anthropic_sse.go:75-83 | a stream is finished if and only if a completed response was handled |
| `AnthropicWriter.EventsAreBatch` | src/anthropic_sse.go:37-60 | for every chunking the client receives the translation of the whole stream's events up to the first chunk that makes an unfinished event too long, where the stream fails |
| `AnthropicWriter.NormalisesExactly` | src/anthropic_sse.go:41-42 | normalising chunk by chunk is normalising the whole if and only if no boundary cuts a CR LF |
| `AnthropicWriter.ChunkingDoesNotMatter` | src/anthropic_sse.go:37-60 | two ways of cutting the same bytes, neither inside a CR LF nor over the limit, give the same events |
| `AnthropicWriter.CutHidesEvent` | src/anthropic_sse.go:41-54 | a cut inside a CR LF that hides the end of an event |
| `AnthropicTranslator.Writer.StartOutputItem` | src/anthropic_sse_events.go:75-112 | a new block gets the size of the index map, under its item id and, for a tool, its call id |
| `AnthropicTranslator.Writer.WriteDelta` | src/anthropic_sse_events.go:114-147 | a delta goes to the block of its item or fails the stream |
| `AnthropicTranslator.Writer.StopOutputItem` | src/anthropic_sse_finish.go:32-51 | an active block is stopped, a stopped one is left alone, an unknown one fails the stream |
| `AnthropicTranslator.Writer.CompleteMessage` | src/anthropic_sse_finish.go:53-107 | every open block is stopped, lowest first, before the message ends |
| `AnthropicTranslator.Writer.HandleEvent` | src/anthropic_sse_events.go:9-42 | each event moves the stream as the value model says |
| `AnthropicTranslator.Writer.Finish` | src/anthropic_sse.go:75-83 | finishing succeeds if and only if there was no error and the response completed |
| `AnthropicTranslator.Writer.Write` | src/anthropic_sse.go:37-60 | the buffer is drained event by event until one is incomplete or one fails, and the error is kept |
| `Idempotency.RunsKeepInv` | internal/control/idempotency.go:92-182 | every run of requests keeps unfinished entries retained, replies and entries consistent, and the size bounded |
| `Idempotency.CompleteFindsItsEntry` | internal/control/idempotency.go:142-151 | an owner that completes always finds its own entry, so its waiters are released |
| `Idempotency.WaitersGetTheOwnersResponse` | internal/control/idempotency.go:92-114 | a waiter is answered with the response of the one owner of its key and payload |
| `Idempotency.WaitersAreReleased` | internal/control/idempotency.go:92-97 | once an owner has replied each of its waiters can take the response, and gets just that |
| `Idempotency.ForgetsExactly` | internal/control/idempotency.go:124-182 | begin forgets exactly the finished entries past their time and, for a new key in a full store, one oldest finished entry |
| `Idempotency.OneOwnerPerRetainedKey` | internal/control/idempotency.go:124-140 | of two owners of a key the earlier one has finished and is no longer retained |
| `Idempotency.DuplicatesDoNotRun` | internal/control/idempotency.go:124-140 | while an owner runs, the same key waits or conflicts, whatever expires or is evicted |
| `Idempotency.StoreIsBounded` | internal/control/idempotency.go:124-182 | the entry count never exceeds the limit or the peak number in flight |
| `Idempotency.PeakWasReached` | internal/control/idempotency.go:124-151 | that peak was the number in flight at some moment of the run |
| `IdempotencyStore.Store.Cleanup` | internal/control/idempotency.go:153-164 | exactly the finished entries older than the time to live go |
| `IdempotencyStore.Store.EvictOldest` | internal/control/idempotency.go:166-182 | an oldest finished entry goes, or nothing if none is finished |
| `IdempotencyStore.Store.Begin` | internal/control/idempotency.go:124-140 | join, conflict, or own a new entry, after cleanup and at most one eviction |
| `IdempotencyStore.Store.Complete` | internal/control/idempotency.go:142-151 | the retained entry is filled in and any other is left alone |
| `AccountPool.Pool.AdvanceFrom` | src/copilot_provider.go:97-122 | succeeds if and only if another account is out of cooldown, moves the cursor to the first such in cyclic order, stamps only the failed account, and keeps the cursor on failure |
| `AccountPool.MovesToNextHealthy` | src/copilot_provider.go:107-120 | the account moved to was never limited or is past its cooldown, and every account met before it, from behind the failed one or from the cursor, is the failed one or still cooling |
| `AccountPool.Pool.FirstHealthy` | src/copilot_provider.go:77-87 | the first account out of cooldown, or 0 |
| `AccountPool.RotationNeverReturns` | src/codex_provider.go:128-152 | accounts that fail one after the other, at clock readings within one cooldown of the first, are all different |
| `AccountPool.RotationEnds` | src/codex_provider.go:128-152 | so the rotation ends after as many failures as there are accounts |

## Left out

- HTTP transport, TLS, sockets, OAuth flows, token refresh, upstream retries, the terminal and web interfaces, logging, telemetry and metrics: I/O or presentation.
- JSON, SHA-256 and file formats: uninterpreted functions; `rewriteModelJSON` and the decoding of one event are parameters.
- Configuration defaults and validation other than virtual models: an idempotent normaliser stands for them.
- Counters and revisions are unbounded; 64-bit wrap-around is modelled only for the Retry-After product.
- Restart-required lists, timestamps, actors and the effective digest of configuration snapshots.
- Characters outside ASCII fold to themselves; keys joined with NUL in the source are tuples here.
- The final sorting of diff paths, and which of several validation errors is reported.
- Errors when writing to the client's connection: an attempt's own commit cannot fail here.
- Response headers other than the status: they are shared between failover attempts.
- Live delivery of operation events after the lock is dropped, where events can arrive reordered.
- `ConfigState.Manager.SetEffective` ignores the closed flag as the source does; a closed handle racing a new manager on the same directory is not modelled.
- Routing by model map, provider prefix and catalog, and the single-dispatch path: each dispatches once and would only add easy members.
- WebSocket chat start, cancel and frame numbering.
- VirtualResponse.NothingIsLost: assumes a payload rewriter that changes nothing, because the rewriter itself is uninterpreted.
- QuotaHolds.QuotaHoldIsRespected: one registry shared by all routers, every snapshot is built from what that registry said at its reading, and capabilities carry no padding, as the gateway's own constants do not.
- Cooldowns.Registry.Record: the class does not hold the state file; writes, failed ones included, are events of `QuotaHolds`, and an unreadable file counts as an empty one there.
- A power loss that undoes the rename of the cooldown file, which is not followed by a directory sync: for `QuotaHolds` such a write is one that failed.
- Mutation.ApplyManagedMutation: the reload is its success or failure, and its 30 s limit is not modelled.
- AccountPool.Pool.AdvanceFrom: one clock reading per call, where the source reads the clock once per account.
