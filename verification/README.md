# Accelerator manager: model and proofs

The accelerator manager is a Kubernetes operator. A `GpuNodePolicy` claims nodes by a label selector,
takes ownership of them through a `managed-by` label, stamps mode labels on them, keeps one
content-hashed entry in two shared ConfigMaps, and cleans up behind a finalizer. An `NpuNodePolicy`
does the same for NPUs without the ConfigMaps. This project models both controllers in Dafny and
proves what they keep, over single writes, single reconciles and whole runs.

`dafny verify dfyconfig.toml` checks everything.

## How the model is built

* **The code.** `GpuReconciler`, `NpuReconciler`, `GpuControls`, `NpuControls`, `ModeTable`,
  `NodeLists` and `ConfigEntries.FindPrefixKey` are imperative: label maps edited in place, the loops
  over node lists, the manager's fields, the API server as an object. Loops over Go maps pick their
  next key freely, so the proofs hold for every iteration order; where the order shows in the outcome
  it is a ghost result of the method (the keys a lookup came upon, the nodes a panic left out).
* **Failures.** Every call of a reconcile may fail; the environment chooses the set of failing calls.
  A crash after some write is the choice in which every later call fails. A stale adoption is refused
  by the version check of the full update; the other node writes are merge patches (section 2 of
  RFC 7396), modelled in `MergePatch` with its one sharp edge: an edit that empties the whole map
  clears the map and not its keys.
* **One step as a function.** `GpuProtocol.ReconcileStepAt` and `NpuReconciler.NpuStep` give the outcome
  of a reconcile as a function of state, policy, failing calls and the keys its lookups report. The
  `Reconcile` methods are proved to compute them; `ReconcileStep` is the case of at most one entry per
  policy, which every run keeps, and everything below is proved about it. Calls that a panic cuts off
  are among the failing ones.
* **Runs.** `Runs` interleaves reconciles of any policies, each with its own failing calls, with
  users creating, editing and deleting policies, nodes joining and leaving, users editing their own
  labels, and the MIG manager reporting. `MicroSteps` goes below that: single writes computed from
  lists of any age, lost writes, any interleaving.
* **Ownership.** `Ownership` is the abstract machine of owners and claims with its termination
  measure; `Convergence` proves that undisturbed reconciles are its visits, and reconciles with any
  calls failing sequences of its single writes.

## Main results

* Crash, retry and repetition: `Retry.RetryConverges`, `StepSafety.RetriesConverge`,
  `Retry.ReconcileIdempotent`.
* What one reconcile leaves, under any failing calls and in literal values: `LiveOutcome.LiveLabels`,
  `LiveOutcome.EntriesAfter`, `LiveOutcome.LiveStatus`, `LiveOutcome.SuccessIff`,
  `DeletionOutcome.DrainPass`, `DeletionOutcome.ReleaseStages`, `NpuOutcome.NpuLiveStatus`.
* Progress: `DeletionOutcome.DeletionCompletes`.
* Safety of all runs: `Runs.RunGood`, `Runs.ReconcileIsolated`, `StepSafety.DeletionOrdered`,
  `RunProperties.RunKeepsBuiltIns`, `RunProperties.RunKeepsForeignLabels`, `RunProperties.RunShaped`.
* Histories: `History.RunFresh` (nothing of an earlier owner survives), `References.RunReferences`
  (labels name existing entries), `RunProperties.DrainOrdering` (MIG is drained before hand-back).
* Convergence: `Convergence.ClusterSettles`, and, write by write and with any calls failing,
  `Convergence.OwnerChangesBounded`.
* Outdated lists: `MicroSteps.NoHandOff`, `MicroSteps.UnownedBetween`, with `MicroSteps.PassIsBehavior`.
* NPU policies over all runs: `NpuRuns.OwnedUntilReleased`, `NpuOutcome.RunRegisters`.

## Where a natural expectation fails, and exactly when

* Prefix lookup takes another policy's entry if and only if `p-` begins that policy's name
  (`ConfigEntries.HijackExactly`).
* A selector may mention labels the controller writes. One reconcile then settles every node if and
  only if `Selectors.CanSettle` holds; selecting switched-off operands never settles
  (`Selectors.SettlesIff`, `Selectors.NeverSettles`).
* An undisturbed reconcile panics exactly when it reads the removed mig block of a policy that has a mig
  entry, when it adds an entry to a configuration that has none at all, whose map is then nil, or when
  it adopts a node without labels, whose label map is nil (`Convergence.DoneIffReady`; with any calls
  failing, `LiveOutcome.PanicIff`). As long as such a node is claimed the policy neither updates nor
  releases anything (`Convergence.BareNodeStarves`). A built-in entry rules the second case out;
  without one a deletion brings it about when the policy's entry was the last
  (`RunProperties.BuiltInsPreventNilMap`, `RunProperties.DeletionLeavesNilMapIff`).
* A node is left naming an entry that is gone exactly when the entry is renamed and the reconcile does
  not get as far as writing the node (`Dangling.DpDanglesIff`, `Dangling.MigDanglesIff`).
* From an outdated list a release strips whoever owns the node by then (`MicroSteps.OwnerAfterWrite`),
  again and again (`MicroSteps.StaleChangesUnbounded`), so the bound on ownership changes needs current
  items (`MicroSteps.CurrentStepPaid`); and a deletion lets the policy go although a node the list
  missed is still owned (`MicroSteps.StaleDeletionOrphansIff`).
* From an outdated read, a removal may wipe the device-plugin map
  (`ConfigEntries.StaleDropKeepsOthersIff`), a replacement may leave two entries
  (`ConfigEntries.StalePlaceUniqueIff`), and the mig file loses newer entries
  (`ConfigEntries.StaleBlobKeepsIff`).
* The NPU controller forgets a failed adoption unless a node being let go is not restored yet: the
  flag set at lines 163 and 169 is overwritten at line 172, although the log calls it a failure
  (`NpuProperties.AdoptFailureRetriedIff`, `NpuProperties.AdoptFailureForgotten`).
* An NPU deletion goes by selector and skips nodes marked `restored`. The agent on a node answers the
  deletion by itself, so it may come first: a deleted policy's node loses its labels exactly when a
  release write reaches it before that mark (`NpuRuns.OwnedUntilReleased`, `NpuRuns.AgentFirst`).

The code and its comments disagree on priorities: the API says that policies of higher priority
override lower ones, but no controller reads the field. The model follows the code: the first owner
keeps the node.

## Assumptions

* Node names in a list are distinct, as the API server guarantees. Lists selected by an owner label hold
  no item without labels; other lists may.
* Policy names are prefix-free: no `p-` begins another policy's name. Hashes contain no hyphen; the
  hash is otherwise arbitrary, collisions included. The empty string is no configuration key.
* Selectors mention none of the controller's labels, except in `Selectors`, which treats them all.
* The mode of a policy never changes (the API enforces it), nodes join without controller labels,
  and users edit only other labels. The MIG manager alone writes `nvidia.com/mig.config.state`.

## Model

| member | source | states |
|---|---|---|
| `GpuReconciler.GpuNodePolicyReconciler.Reconcile` | internal/controller/gpunodepolicy_controller.go:108-262 | whichever calls fail and whatever Go's map order: a reconcile leaves nodes, policies and both configurations in the state of the step function for the keys its lookups came upon, with its result and exactly its writes issued; where a bare node makes it panic, `late` are the nodes not come to |
| `GpuReconciler.OneChoice` | internal/controller/gpunodepolicy_controller.go:287-342 | with at most one entry per policy the map order makes no difference |
| `GpuReconciler.GpuNodePolicyReconciler.ReconcileLiving` | internal/controller/gpunodepolicy_controller.go:128-137 | registering the finalizer comes first and is a write of its own; if it fails nothing else happens |
| `GpuReconciler.GpuNodePolicyReconciler.ReconcileRegistered` | internal/controller/gpunodepolicy_controller.go:185-262 | lists and split first; nothing happens after a failed list |
| `GpuReconciler.GpuNodePolicyReconciler.SplitNodes` | internal/controller/gpunodepolicy_controller.go:187-207 | the claimed list and the exact split of the claimed and the managed nodes, or failure of a list |
| `GpuReconciler.GpuNodePolicyReconciler.ReconcileSplit` | internal/controller/gpunodepolicy_controller.go:209-261 | configurations, then nodes and status; nothing happens after a failed or panicking configuration step |
| `GpuReconciler.GpuNodePolicyReconciler.SetupNodes` | internal/controller/gpunodepolicy_controller.go:229-261 | after the node passes the status is stored only if it changed; the result collects the failures; a panic in the first pass skips the rest |
| `GpuReconciler.GpuNodePolicyReconciler.WriteNodes` | internal/controller/gpunodepolicy_controller.go:231-247 | the three passes over the split lists add up to one independent write per node, a failed pass does not stop the next; the first panics exactly when a claimed node has no labels, and then what was written is exact |
| `GpuReconciler.GpuNodePolicyReconciler.ReconcileDeletion` | internal/controller/gpunodepolicy_controller.go:138-183 | deletion waits while some MIG node is not drained, and goes past the release only when every release write was accepted |
| `GpuReconciler.GpuNodePolicyReconciler.FinishDeletion` | internal/controller/gpunodepolicy_controller.go:163-180 | the finalizer is removed only after both entries |
| `GpuReconciler.GpuNodePolicyReconciler.RevertConfigs` | internal/controller/gpunodepolicy_controller.go:163-171 | both entries are removed, the second only after the first succeeded |
| `GpuReconciler.GpuNodePolicyReconciler.SetupTimeSlicingMode` | internal/controller/gpunodepolicy_controller.go:264-266 | the time-slicing mode touches the device-plugin configuration only |
| `GpuReconciler.GpuNodePolicyReconciler.SetupMigMode` | internal/controller/gpunodepolicy_controller.go:268-276 | the mig file is touched only after the device-plugin configuration succeeded; both names are stamped |
| `GpuReconciler.GpuNodePolicyReconciler.SetupConfigs` | internal/controller/gpunodepolicy_controller.go:209-227 | which configurations a mode touches, in which order, and the names stamped afterwards |
| `LiveOutcome.LivePolicy` | internal/controller/gpunodepolicy_controller.go:128-137 | a living policy's object under any failing calls: the finalizer is appended behind the earlier ones unless present; spec, deletion flag and every other policy stay |
| `LiveOutcome.EntriesAfter` | internal/controller/gpunodepolicy_controller.go:278-415 | after a success the policy has a device-plugin entry if and only if it had one, or has a time-slicing block, or a mig block with slices and a strategy; a mig entry by the mig block alone; each holds the converted spec under its hashed name; other modes leave the maps alone |
| `LiveOutcome.LiveLabels` | internal/controller/gpunodepolicy_controller.go:229-247 | every label of every node after any reconcile of a living policy, as literal values by mode: foreign nodes and nodes not come to stay, claimed ones are stamped, own ones no longer claimed are stripped |
| `LiveOutcome.SuccessLabels` | internal/controller/gpu_controls.go:20-69 | after a success every claimed node that was unowned or own names the policy, the configuration `default` in Default mode, the policy's own entries in TimeSlicing and MIG mode, and `all-disabled` outside MIG mode; other modes keep the device-plugin label |
| `LiveOutcome.LiveStatus` | internal/controller/gpunodepolicy_controller.go:633-726 | every record of the stored status from what the reconcile changed in the cluster: enabled from the first, sync flags raised where a configuration changed and cleared where the node was written, records of other nodes as before |
| `LiveOutcome.SuccessIff` | internal/controller/gpunodepolicy_controller.go:128-261 | a reconcile succeeds if and only if an undisturbed one does and none of the calls that one makes fails, and then it is that one |
| `LiveOutcome.StageFailures` | internal/controller/gpunodepolicy_controller.go:278-415 | when a configuration stage fails, by the fields of the spec, the entries there and the failing calls: an unreadable map, a first entry for a map without any, a lost write of a new or different entry, a mig entry whose mig block is gone |
| `LiveOutcome.PanicIff` | internal/controller/gpunodepolicy_controller.go:278-415 | whatever calls fail: a living policy's reconcile panics if and only if it comes as far as adding the first entry of a map, reading a mig block that is gone, or adopting a node without labels; it never asks to wait |
| `LiveOutcome.WritesWhatChanges` | internal/controller/gpunodepolicy_controller.go:229-254 | a success issues exactly the writes that change something, each written node moving on by one version |
| `DeletionOutcome.DrainPass` | internal/controller/gpunodepolicy_controller.go:603-631 | while an own node of a deleted MIG policy is not drained, the reconcile waits; every own node not yet disabled whose write arrives gets MIG disabled, loses its report and has the MIG manager switched on, all other labels and nodes staying |
| `DeletionOutcome.ReleasePass` | internal/controller/gpunodepolicy_controller.go:574-601 | otherwise every own node whose write arrives loses owner and stamped labels and has its operands switched off, all other labels and nodes staying |
| `DeletionOutcome.ReleaseStages` | internal/controller/gpunodepolicy_controller.go:157-182 | nodes, device-plugin entry, mig entry, finalizer: each stage is carried out exactly when the ones before it and itself got through; the result and the writes issued; the object goes with its last finalizer |
| `DeletionOutcome.NothingLeft` | internal/controller/gpunodepolicy_controller.go:113-126 | a policy that is gone, or deleted without the finalizer, needs no write |
| `DeletionOutcome.LostRead` | internal/controller/gpunodepolicy_controller.go:113-150 | a policy or list of nodes that cannot be read is a failure that leaves everything as it is |
| `DeletionOutcome.DeletionCompletes` | internal/controller/gpunodepolicy_controller.go:138-183 | progress: a reconcile, success reports from at least every own node in any order, another reconcile, and the policy is let go, with no node and no entry left |
| `NpuOutcome.NpuLivePolicy` | internal/controller/npunodepolicy_controller.go:89-98 | a living NPU policy's object under any failing calls: the finalizer is appended behind the earlier ones; spec, deletion flag and other policies stay |
| `NpuOutcome.NpuLiveStatus` | internal/controller/npunodepolicy_controller.go:155-182 | every record of the stored status: Initialized where the node was written, otherwise Initializing for a claimed node without a record, otherwise as before |
| `NpuOutcome.NpuLiveWrites` | internal/controller/npunodepolicy_controller.go:131-182 | a node is written exactly where an undisturbed reconcile changes it, whatever else fails, and then it is left as that one leaves it; the status is written where it changes |
| `NpuOutcome.NpuLiveResult` | internal/controller/npunodepolicy_controller.go:131-188 | the result from the cluster before it: panic at a claimed bare node, otherwise failure exactly where a call on the policy, a list or a changed status is lost or an own node let go is not restored |
| `NpuOutcome.NpuUnfinishedPass` | internal/controller/npunodepolicy_controller.go:101-117 | a deletion pass with nodes not restored strips exactly those, keeps the policy, and asks for another pass, as a failure exactly where a write was lost |
| `NpuOutcome.NpuLastPass` | internal/controller/npunodepolicy_controller.go:119-128 | the last pass takes this finalizer and no other off, writes nothing else, and the object goes with its last finalizer |
| `NpuOutcome.NpuNothingLeft` | internal/controller/npunodepolicy_controller.go:78-86 | a policy that is gone, or deleted without the finalizer, needs no write |
| `NpuOutcome.NpuLostRead` | internal/controller/npunodepolicy_controller.go:77-111 | a policy or list of nodes that cannot be read is a failure that leaves everything as it is |
| `NpuOutcome.GivenIsRegistered` | internal/controller/npunodepolicy_controller.go:89-98 | only a policy's own reconcile gives it a node, and it is registered then |
| `NpuOutcome.RunRegisters` | internal/controller/npunodepolicy_controller.go:89-98 | in every run: whenever a node becomes a policy's, the policy is registered at that moment |
| `NodeLists.FilterNodes` | internal/controller/gpunodepolicy_controller.go:492-510 | exact three-way split by name, each node once: claimed minus managed, both, managed minus claimed; the in-place deletions refine the set expressions |
| `GpuReconciler.GpuNodePolicyReconciler.AdoptNodes` | internal/controller/gpunodepolicy_controller.go:512-542 | on any list, outdated or not: a versioned full write for each node that is unowned or own and needs a change, nothing for other nodes; the failed names and the status of the written ones; it panics exactly at the first item without labels |
| `GpuReconciler.GpuNodePolicyReconciler.UpdateNodes` | internal/controller/gpunodepolicy_controller.go:544-572 | the same with merge patches computed from the list item |
| `GpuReconciler.GpuNodePolicyReconciler.ReleaseNodes` | internal/controller/gpunodepolicy_controller.go:574-601 | the same for the release patches; the failed names |
| `GpuReconciler.GpuNodePolicyReconciler.RevertMigNodes` | internal/controller/gpunodepolicy_controller.go:603-631 | true exactly when every listed node was drained on entry, and then nothing is written; otherwise the revert patches are sent |
| `NodePasses.PassStep` | internal/controller/gpunodepolicy_controller.go:515-537 | a pass over items of distinct names is its items one at a time in any order |
| `NodePasses.ThreePasses` | internal/controller/gpunodepolicy_controller.go:231-247 | adopt, update and release over a fresh split equal one simultaneous write per node, and all succeed exactly when each of those writes is accepted |
| `NodePasses.PanicPass` | internal/controller/gpunodepolicy_controller.go:231-235 | an adoption pass that panics leaves the nodes as if the writes it did not come to had failed |
| `ModeTable.RemoveKeys` | internal/controller/gpu_controls.go:77-87 | deletes exactly the listed keys that are not spared; the flag tells whether the map changed |
| `ModeTable.RemoveForeign` | internal/controller/gpu_controls.go:71-90 | deletes exactly the keys that only other modes use, in every iteration order; exact flag |
| `ModeTable.SetEntries` | internal/controller/gpu_controls.go:46-52 | sets exactly the mode's entries; exact flag |
| `ModeTable.RemoveTable` | internal/controller/gpu_controls.go:118-128 | deletes exactly the keys of the modes that are not skipped; exact flag |
| `ModeTable.FindRewrite` | internal/controller/gpu_controls.go:38-90 | closed form of remove-then-add for any table, key by key: bookkeeping, then the mode's own, then nothing for keys of other modes, else as before |
| `ModeTable.RewriteForgets` | internal/controller/gpu_controls.go:38-90 | a rewrite hides every earlier rewrite with the same bookkeeping keys; idempotence is the special case |
| `ModeTable.FlagsExact` | internal/controller/gpu_controls.go:38-42 | removed-or-added is true exactly when the map as a whole changed |
| `GpuControls.GpuModeManager.constructor` | internal/controller/gpu_controls.go:20-36 | the initial configuration names per mode |
| `GpuControls.GpuModeManager.UpdateGPUStateLabels` | internal/controller/gpu_controls.go:38-42 | the node's labels become the closed form; the flag is true exactly when they changed |
| `GpuControls.GpuModeManager.AddGPUModeLabels` | internal/controller/gpu_controls.go:44-69 | own entries and bookkeeping are overlaid; exact flag |
| `GpuControls.GpuModeManager.StampBook` | internal/controller/gpu_controls.go:53-67 | owner always, configuration names only when not empty; exact flag |
| `GpuControls.RemoveAllGPUModeLabels` | internal/controller/gpu_controls.go:116-146 | release removes the four stamped keys and switches the operands off; exact flag |
| `GpuControls.UpdatedAt` | internal/controller/gpu_controls.go:38-69 | value of every label key after an update, for the concrete table |
| `GpuControls.ModeLabels` | internal/controller/gpu_controls.go:148-160 | the workload and operands labels of an owned node for each device mode |
| `GpuControls.UpdatedIdempotent` | internal/controller/gpu_controls.go:38-42 | a second update changes nothing |
| `GpuControls.ReleaseAbsorbs` | internal/controller/gpu_controls.go:116-146 | releasing after any sequence of updates by any policies equals releasing the original labels |
| `GpuControls.ReleasedIdempotent` | internal/controller/gpu_controls.go:116-146 | a second release changes nothing |
| `GpuControls.ReleaseThenUpdateForgets` | internal/controller/gpu_controls.go:44-69 | after release and update the stamped labels depend on the stamp alone |
| `GpuControls.OnlyGpuKeys` | internal/controller/gpu_controls.go:38-146 | update, release and revert touch no key outside the fixed set |
| `GpuControls.KeysDistinct` | internal/controller/gpunodepolicy_controller.go:43-63 | the label keys are pairwise different strings |
| `NpuControls.UpdateNPUStateLabels` | internal/controller/npu_controls.go:24-28 | the labels become the closed form of the NPU table; exact flag |
| `NpuControls.AddNPUModeLabels` | internal/controller/npu_controls.go:30-45 | own entries and the owner are overlaid; exact flag |
| `NpuControls.RemoveAllNPUModeLabels` | internal/controller/npu_controls.go:68-83 | removes the mode labels and the owner; exact flag |
| `NpuControls.NpuUpdatedAt` | internal/controller/npunodepolicy_controller.go:38-47 | value of every label key after an update, for the concrete table |
| `NpuControls.NpuUpdatedIdempotent` | internal/controller/npu_controls.go:24-66 | a second update changes nothing |
| `NpuControls.NpuReleaseAbsorbs` | internal/controller/npu_controls.go:24-83 | release after an update equals release of the original labels, and a second release changes nothing |
| `MergePatch.ApplyDiff` | internal/controller/gpunodepolicy_controller.go:550-558 | round trip: a patch applied to its own base yields the edited object (section 2 of RFC 7396) |
| `MergePatch.ApplyElsewhere` | internal/controller/gpunodepolicy_controller.go:578-589 | on a newer object a patch sets exactly the keys that were edited |
| `MergePatch.UntouchedKeySurvives` | internal/controller/gpunodepolicy_controller.go:349-351 | a key the edit left alone survives on a newer object if and only if the edit did not empty the member or the key is not there |
| `MergePatch.EmptyDiff` | internal/controller/gpunodepolicy_controller.go:551-558 | nothing to send exactly when nothing was edited |
| `ConfigEntries.FindPrefixKey` | internal/controller/gpunodepolicy_controller.go:750-757 | returns some key with the prefix, or nothing exactly when there is none |
| `ConfigEntries.LookupByOwner` | internal/controller/gpunodepolicy_controller.go:287-289 | the result is the same for every iteration order if and only if the policy has at most one entry |
| `ConfigEntries.ExactPrefix` | internal/controller/gpunodepolicy_controller.go:287-318 | `p-` begins an entry of q exactly when p is q or `p-` begins q |
| `ConfigEntries.EntryNameInjective` | internal/controller/gpunodepolicy_controller.go:318-319 | two entries of the same name belong to the same policy |
| `ConfigEntries.PlaceDoes` | internal/controller/gpunodepolicy_controller.go:287-319 | afterwards exactly one entry, named after its content and holding it; every key outside the prefix unmoved; the change flag exact |
| `ConfigEntries.PlaceTwice` | internal/controller/gpunodepolicy_controller.go:289-311 | placing again finds the name and changes nothing |
| `ConfigEntries.DropDoes` | internal/controller/gpunodepolicy_controller.go:342-351 | no entry left, everything else unmoved, a change exactly when there was one |
| `ConfigEntries.OthersKept` | internal/controller/gpunodepolicy_controller.go:287-319 | with prefix-free names the entries of every other policy survive any edit inside the prefix |
| `ConfigEntries.HijackExactly` | internal/controller/gpunodepolicy_controller.go:287-319 | in any configuration an entry of q survives p placing different content if and only if `p-` does not begin q |
| `ConfigEntries.StalePlaceKeepsOthers` | internal/controller/gpunodepolicy_controller.go:284-321 | a replacement patch from an outdated read leaves other keys of the device-plugin map alone |
| `ConfigEntries.StaleDropKeepsOthersIff` | internal/controller/gpunodepolicy_controller.go:349-351 | a removal patch from an outdated read does so if and only if the removed entry was not the last one it saw |
| `ConfigEntries.StalePlaceUniqueIff` | internal/controller/gpunodepolicy_controller.go:284-321 | a replacement from an outdated read leaves one entry if and only if the current ones are the one deleted or the one written |
| `ConfigEntries.StaleBlobKeepsIff` | internal/controller/gpunodepolicy_controller.go:401-407 | the mig file is replaced whole: another entry keeps its current value if and only if the outdated read already had it |
| `GpuReconciler.GpuNodePolicyReconciler.AddDevicePluginConfigMapData` | internal/controller/gpunodepolicy_controller.go:278-329 | installs the conversion of the spec under its hashed name unless the policy has no entry and needs none; name, flag, failure, and exactly when it writes to a nil map |
| `GpuReconciler.GpuNodePolicyReconciler.RemoveDevicePluginConfigMapData` | internal/controller/gpunodepolicy_controller.go:331-358 | removes the policy's entry; a missing ConfigMap is no failure |
| `GpuReconciler.GpuNodePolicyReconciler.AddMigConfigMapData` | internal/controller/gpunodepolicy_controller.go:360-415 | the same for the mig file, and exactly when it writes to a nil map or reads a missing mig block |
| `GpuReconciler.GpuNodePolicyReconciler.RemoveMigConfigMapData` | internal/controller/gpunodepolicy_controller.go:417-455 | removes the policy's mig entry; a missing ConfigMap is no failure |
| `GpuReconciler.GpuNodePolicyReconciler.ConvertSlices` | internal/controller/gpunodepolicy_controller.go:385-390 | the mig slices in order, MIG enabled on each |
| `ConfigStage.DpRoundTrip` | internal/controller/gpunodepolicy_controller.go:297-306 | the entry in the fields of the spec: in MIG mode the policy's own strategy if its mig block has slices and a strategy, otherwise "none", and no strategy in other modes; sharing is absent exactly without a time-slicing block or under the single strategy, otherwise the block is read back from it; version "v1" |
| `ConfigStage.MigRoundTrip` | internal/controller/gpunodepolicy_controller.go:471-479 | a mig entry gives the slices back in order, each with MIG enabled |
| `ConfigStage.InstallFacts` | internal/controller/gpunodepolicy_controller.go:278-329 | whatever fails, the configuration stays well-formed, other keys unmoved, and a reported name is the policy's only entry with the wanted content |
| `ConfigStage.SetUpNames` | internal/controller/gpunodepolicy_controller.go:264-276 | the names a successful stage stamps are existing, only entries that hold the conversion of the spec |
| `ConfigStage.SetUpAgain` | internal/controller/gpunodepolicy_controller.go:264-276 | the stage cut off anywhere and repeated ends as one clean run; after a success it has nothing to do |
| `GpuReconciler.UpdateGpuNodePolicyStatus` | internal/controller/gpunodepolicy_controller.go:649-726 | one node's status takes the mode's shape with the given flags, the others unchanged |
| `GpuReconciler.InitGpuNodePolicyStatus` | internal/controller/gpunodepolicy_controller.go:633-647 | every claimed node is recorded, with a sync request exactly where a configuration was rewritten |
| `GpuReconciler.RemoveFinalizer` | internal/controller/gpunodepolicy_controller.go:737-748 | the list without the finalizer, and whether it was there |
| `StepFacts.WithoutFinalizerRemoves` | internal/controller/gpunodepolicy_controller.go:737-748 | exactly the release finalizer disappears |
| `StepFacts.OwnerNext` | internal/controller/gpunodepolicy_controller.go:207-247 | who owns a node after an undisturbed reconcile: unowned claimed nodes are taken, own unclaimed ones let go, all others as before |
| `StepFacts.OthersUntouched` | internal/controller/gpunodepolicy_controller.go:517-520 | a node of another policy keeps every label |
| `StepFacts.NextIdempotent` | internal/controller/gpunodepolicy_controller.go:207-247 | a second round with the same names changes no label of any node |
| `StepFacts.StepNodeAt` | internal/controller/gpunodepolicy_controller.go:231-247 | each node takes its next labels with one version step exactly when they differ and its write arrives, and is unchanged otherwise |
| `Selectors.SettlesIff` | internal/controller/gpunodepolicy_controller.go:188-207 | for arbitrary selectors: every node is at rest after one reconcile if and only if a condition on selector and stamp holds |
| `Selectors.SafeCanSettle` | internal/controller/gpunodepolicy_controller.go:188-207 | selectors that avoid the controller's keys meet that condition |
| `Selectors.NeverSettles` | internal/controller/gpunodepolicy_controller.go:188-207 | a selector on the operands label makes adopt and release alternate for ever |
| `Retry.RetryConverges` | internal/controller/gpunodepolicy_controller.go:108-262 | cut off after any write or with any calls failing, then repeated on fresh reads: labels, configurations, policies and result equal those of an undisturbed reconcile, for living and deleted policies |
| `StepSafety.RetriesConverge` | internal/controller/gpunodepolicy_controller.go:108-262 | the same after any number of cuts in a row |
| `Retry.ReconcileIdempotent` | internal/controller/gpunodepolicy_controller.go:108-262 | after a success the next reconcile leaves the whole cluster identical, versions and status included, and issues no write |
| `Retry.NodesAgain` | internal/controller/gpunodepolicy_controller.go:231-247 | node writes cut off anywhere and repeated give the labels of one clean pass |
| `Retry.RevertAgain` | internal/controller/gpunodepolicy_controller.go:603-631 | reverting, cut off and repeated, reverts the same nodes and drains none by itself |
| `Retry.ReleaseAgain` | internal/controller/gpunodepolicy_controller.go:574-601 | releasing, cut off and repeated, ends like one clean pass; unreleased nodes are untouched; success leaves none owned |
| `Retry.TouchSettled` | internal/controller/gpunodepolicy_controller.go:633-726 | the status merge is a fixpoint when nothing new is flagged |
| `StepSafety.ReconcileNodesFrame` | internal/controller/gpunodepolicy_controller.go:108-262 | on every state, any calls failing: nodes of other owners keep everything, the only owner given or taken is p, no foreign label moves |
| `StepSafety.ReconcileConfigFrame` | internal/controller/gpunodepolicy_controller.go:278-455 | every key outside the policy's prefix is unmoved in both configurations and the policy's own entry stays unique and well-named |
| `StepSafety.ReconcilePolicies` | internal/controller/gpunodepolicy_controller.go:128-183 | only the policy's own object changes, its spec never, and a living policy that changed anything is registered |
| `StepSafety.DeletionOrdered` | internal/controller/gpunodepolicy_controller.go:138-183 | wherever a deletion is cut off: while a node is owned every entry is still there, and the finalizer is gone only when neither node nor entry is left |
| `StepSafety.ReconcileNoOrphan` | internal/controller/gpunodepolicy_controller.go:128-183 | what a policy holds keeps being covered by its finalizer |
| `Runs.ReconcileIsolated` | internal/controller/gpunodepolicy_controller.go:108-262 | a reconcile of p changes no node, no entry and nothing in the object of another policy |
| `Runs.RunGood` | internal/controller/gpunodepolicy_controller.go:108-262 | over all runs of any number of policies with any failures: no orphaned node or entry, and at most one entry per policy in each configuration, named after its content |
| `RunProperties.RunKeepsBuiltIns` | internal/controller/gpunodepolicy_controller.go:278-455 | over all runs an entry that no policy name is a prefix of keeps its value |
| `RunProperties.BuiltInsPreventNilMap` | internal/controller/gpunodepolicy_controller.go:317-319 | over all runs a configuration with a built-in entry never becomes the nil map that cannot be written |
| `RunProperties.DeletionLeavesNilMapIff` | internal/controller/gpunodepolicy_controller.go:349-351 | a finished deletion leaves that nil map if and only if the policy's entries were all there was |
| `RunProperties.RunKeepsForeignLabels` | internal/controller/gpunodepolicy_controller.go:512-631 | over all runs a label outside the controller's keys changes only by a user's hand |
| `RunProperties.DrainStages` | internal/controller/gpunodepolicy_controller.go:143-162 | a node of a deleted MIG policy passes through the revert write before anything else can move it on |
| `RunProperties.DrainOrdering` | internal/controller/gpunodepolicy_controller.go:143-162 | such a node is handed back only after the MIG manager reported success later than a revert write of that policy |
| `RunProperties.ReconcileStatus` | internal/controller/gpunodepolicy_controller.go:229-254 | a stored status records exactly the nodes recorded before and the claimed ones, in the mode's shape |
| `RunProperties.NewFlags` | internal/controller/gpunodepolicy_controller.go:633-726 | the sync flags of a claimed node: cleared where it was written, requested where the configuration was rewritten, otherwise as before; unclaimed nodes unchanged |
| `RunProperties.RunShaped` | internal/controller/gpu_controls.go:92-114 | over all runs the mode's status is there and no other, so the sync flags can always be read |
| `History.CleanStart` | internal/controller/gpunodepolicy_controller.go:108-262 | a cluster before its first policy meets the hypotheses of the run theorems |
| `History.StampAfter` | internal/controller/gpu_controls.go:53-67 | the stamp a reconcile used can be read off the mode and the entries it left |
| `History.RunFresh` | internal/controller/gpunodepolicy_controller.go:512-601 | over error-free runs the stamped labels of a node are those of a blank node stamped once by its owner |
| `References.RunReferences` | internal/controller/gpunodepolicy_controller.go:209-247 | from a policy's reconcile on, every node it owns names exactly its existing entries, which hold the conversion of its spec, whatever other policies do |
| `Dangling.SetUpWhen` | internal/controller/gpunodepolicy_controller.go:264-415 | decided on the state before and the failing calls: when the configuration step succeeds, and when each entry moves to another key |
| `Dangling.DpDanglesIff` | internal/controller/gpunodepolicy_controller.go:312-326 | an own node, claimed or not, is left naming a device-plugin entry that is gone if and only if the entry was renamed and a later call before the node's write, or that write, did not get through |
| `Dangling.MigDanglesIff` | internal/controller/gpunodepolicy_controller.go:391-412 | the same for the mig entry |
| `Dangling.NodeLeftDangling` | internal/controller/gpunodepolicy_controller.go:312-326 | a concrete cluster in which it happens |
| `Ownership.SettledIffFixpoint` | internal/controller/gpunodepolicy_controller.go:207-247 | no misplaced and no open node is exactly the fixpoint of every visit |
| `Ownership.TwoRoundsSettle` | internal/controller/gpunodepolicy_controller.go:207-247 | any two rounds settle every node from any owners |
| `Ownership.OneRoundMayNotSettle` | internal/controller/gpunodepolicy_controller.go:207-247 | one round is not enough |
| `Ownership.WriteDecreases` | internal/controller/gpunodepolicy_controller.go:512-601 | every single owner-changing write of the ownership machine decreases misplaced and open nodes lexicographically |
| `Ownership.ChangesBounded` | internal/controller/gpunodepolicy_controller.go:512-601 | sequences of those writes change owners at most twice per misplaced and once per open node |
| `Ownership.PartialVisit` | internal/controller/gpunodepolicy_controller.go:231-247 | a visit that reached only some of its nodes is exactly as many single writes as it changed owners |
| `Convergence.AttemptStep` | internal/controller/gpunodepolicy_controller.go:108-262 | a living policy's reconcile with any calls failing is such a partial visit and leaves every claim as it is |
| `Convergence.OwnerChangesBounded` | internal/controller/gpunodepolicy_controller.go:108-262 | with specs fixed and no deletions, reconciles in any order, each cut off anywhere and for however long, change owners at most twice per misplaced and once per open node |
| `Convergence.DoneIffReady` | internal/controller/gpunodepolicy_controller.go:209-261 | an undisturbed reconcile of a living policy succeeds if and only if nothing is missing, and panics if and only if it assigns into a nil map (of a configuration or of a node's labels) or reads a missing mig block |
| `Convergence.DeletionNeverPanics` | internal/controller/gpunodepolicy_controller.go:138-183 | a deleted policy's reconcile never panics |
| `Convergence.BareNodeStarves` | internal/controller/gpunodepolicy_controller.go:512-535 | while a claimed node has no labels, no reconcile of the policy succeeds or writes any node it owns |
| `Convergence.BareNodePanics` | internal/controller/gpu_controls.go:44-52 | a concrete cluster in which it happens |
| `Convergence.VisitStep` | internal/controller/gpunodepolicy_controller.go:185-262 | such a reconcile is one visit of the ownership machine and keeps every policy ready |
| `Convergence.ClusterSettles` | internal/controller/gpunodepolicy_controller.go:185-262 | two rounds of reconciles in any order settle the cluster and no later one changes an owner |
| `MicroSteps.PatchAt` | internal/controller/gpunodepolicy_controller.go:550-558 | a patch from an outdated item sets on the current node exactly the keys edited on the item |
| `MicroSteps.OwnerAfterWrite` | internal/controller/gpunodepolicy_controller.go:512-631 | owner after each kind of accepted write from any outdated list: a release strips whoever owns the node by then |
| `MicroSteps.NoHandOff` | internal/controller/gpunodepolicy_controller.go:512-631 | no write, however outdated its list, hands a node from one policy to another |
| `MicroSteps.ForeignLabelsKept` | internal/controller/gpunodepolicy_controller.go:512-631 | no write from an outdated list moves a label outside the controller's keys |
| `MicroSteps.UnownedBetween` | internal/controller/gpunodepolicy_controller.go:512-601 | in every interleaving there is an unowned moment between two owners of a node |
| `MicroSteps.PassIsBehavior` | internal/controller/gpunodepolicy_controller.go:515-537 | a pass over any list of items ever shown is a behavior of single enabled writes, lost or not, with the same outcome |
| `MicroSteps.StaysEnabled` | internal/controller/gpunodepolicy_controller.go:515-537 | an item once listed can be written from at any later time, so passes interleave freely |
| `MicroSteps.CurrentStepPaid` | internal/controller/gpunodepolicy_controller.go:512-601 | a write from a current item that changes an owner is one write of the ownership machine and decreases its measure |
| `MicroSteps.StaleChangesUnbounded` | internal/controller/gpunodepolicy_controller.go:574-601 | from outdated items no bound holds: one old item lets a policy strip the node's new owner any number of times |
| `MicroSteps.StaleReleaseLeavesIff` | internal/controller/gpunodepolicy_controller.go:574-601 | a release from an outdated list meets no error if and only if every listed node is there and every write arrives, and then leaves a node owned if and only if the list missed it |
| `MicroSteps.StaleDeletionOrphansIff` | internal/controller/gpunodepolicy_controller.go:143-181 | a deletion from an outdated list lets the policy go if and only if it succeeds, and then leaves an owned node behind if and only if the list missed it |
| `MicroSteps.StaleDeletionSucceeds` | internal/controller/gpunodepolicy_controller.go:143-181 | such a deletion succeeds when nothing fails, whatever the list missed |
| `NpuReconciler.NpuNodePolicyReconciler.Reconcile` | internal/controller/npunodepolicy_controller.go:69-190 | whichever calls fail and whatever the map order, a reconcile leaves nodes and policies in the state of the step function, with its result and exactly its writes issued; where a bare node makes it panic, `late` are the nodes not come to |
| `NpuReconciler.NpuNodePolicyReconciler.ReconcileDeletion` | internal/controller/npunodepolicy_controller.go:99-129 | nodes are taken by selector; the finalizer is removed only after a release pass that asked for no other |
| `NpuReconciler.NpuNodePolicyReconciler.SetupNodes` | internal/controller/npunodepolicy_controller.go:133-189 | the three passes, the status, and a result decided by the release pass alone |
| `NpuReconciler.NpuNodePolicyReconciler.AdoptNodes` | internal/controller/npunodepolicy_controller.go:212-241 | versioned writes for unowned or own nodes, failed names, status of the written ones; it panics exactly at the first item without labels |
| `NpuReconciler.NpuNodePolicyReconciler.UpdateNodes` | internal/controller/npunodepolicy_controller.go:243-270 | merge patches for the own nodes, failed names, status of the written ones |
| `NpuReconciler.NpuNodePolicyReconciler.ReleaseNodes` | internal/controller/npunodepolicy_controller.go:272-304 | asks for no further pass exactly when every listed node was restored on entry, and then writes nothing |
| `NpuReconciler.UpdateNpuNodePolicyStatus` | internal/controller/npunodepolicy_controller.go:315-325 | one node's sync status is set when forced or empty, the others unchanged |
| `NpuReconciler.InitNpuNodePolicyStatus` | internal/controller/npunodepolicy_controller.go:306-313 | every claimed node without a sync status becomes Initializing |
| `NpuProperties.NpuTakesOver` | internal/controller/npunodepolicy_controller.go:131-175 | value of every label of every node after a living policy's reconcile, any calls failing: foreign nodes untouched, claimed ones stamped, unclaimed own ones stripped unless restored, and what a panic leaves undone |
| `NpuProperties.AdoptFailureRetriedIff` | internal/controller/npunodepolicy_controller.go:160-189 | short of a panic a failed adoption leads to another try if and only if some node being let go is not restored |
| `NpuProperties.AdoptFailureForgotten` | internal/controller/npunodepolicy_controller.go:160-189 | a concrete cluster in which the failure is reported as success |
| `NpuProperties.FinalizerAfterQuietPass` | internal/controller/npunodepolicy_controller.go:99-129 | the finalizer goes if and only if every selected node is restored and the calls succeed; that pass writes no node |
| `NpuRuns.OwnedUntilReleased` | internal/controller/npunodepolicy_controller.go:99-129 | over all runs of any policies and agents: a node of a deleted policy stays owned with all its NPU labels if and only if no release write reached it before its agent had marked it restored |
| `NpuRuns.CleanIffReleased` | internal/controller/npunodepolicy_controller.go:272-304 | where only the deleted policy is at work, a node ends free of NPU labels if and only if such a write reached it or it was free at the start |
| `NpuRuns.EverReleasesIff` | internal/controller/npunodepolicy_controller.go:276-299 | what it means that a write reached the node in time |
| `NpuRuns.AgentFirst` | internal/controller/npuconfig_controller.go:78-93 | a concrete run in which the agent answers the deletion first, the policy goes and its node keeps every NPU label |
| `NpuProperties.KeysApart` | internal/controller/npunodepolicy_controller.go:24-29 | an NPU reconcile moves no label outside the NPU keys, which are disjoint from the GPU keys |

## Left out

- GpuReconciler.GpuNodePolicyReconciler.AddMigConfigMapData: a configuration without entries is the nil map, as it reads back after the controller wrote it; a mig file whose map is spelled out empty by hand is not told apart, nor is a mig file that does not parse.
- Retry.RetryConverges: leaves out the sync flags of the status and the version counters, which a repeated reconcile may set differently; where a bare node makes both runs panic, it compares those that come to the other nodes first.
- Retry.ReconcileIdempotent: selectors avoid the controller's labels; `Selectors.SettlesIff` gives the exact condition for the labels of a node.
- References.RunReferences: error-free runs only; `Dangling.DpDanglesIff` and `Dangling.MigDanglesIff` say when failing calls break it.
- MicroSteps.NoHandOff: a node that is deleted and created again under its name is not modelled at this level; at the level of `Runs` it is.
- NpuReconciler.NpuNodePolicyReconciler.Reconcile: of a node's status only the sync status is kept; templates and devices belong to the agent on the node.
- The API server's cache, the work queue, leader election, watches, logging, `cmd/` and manifests; an API call is atomic and the two lists of a reconcile fail together.
- A write that is applied while its response is lost: the repeated reconcile starts from a state in which it was applied, which is one of the modelled ones, but the first one's bookkeeping of it is not.
- The agent on NPU nodes (internal/controller/npuconfig_controller.go): its two operations are stubs; it appears as an environment that may set its state label to anything at any time.
- NPU policies under outdated lists; their passes have the same shape as the GPU ones.
- Label keys are a datatype with one case per key of the controllers (`GpuControls.KeysDistinct`) and one for every other string.
- YAML text and MD5: entries are stored as values, and the hash is any hyphen-free function of the value.
- Go's difference between nil and empty slices and maps in `reflect.DeepEqual`.
- Policy `Priority`, which no controller reads.
- Generated deep copies, and the hardware's MIG state beyond its label handshake.
- The MIG state and mig-manager labels set by the revert are not cleaned up by the release, in the source as in the model.
