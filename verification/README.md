# InferOps verification

A Dafny model of the parts of InferOps that decide who may use a GPU, which backend a request
reaches, when a model cache is ready, and whether a CRD upgrade is safe, with proofs of what those
parts promise. `dafny verify dfyconfig.toml` checks the whole project.

## What is modelled

**GPU slots and replacement transactions** (`GpuPlanner`, `Deployments`, `SlotSafety`,
`Charges`, `ReplacementRuns`, `Lifecycle`, `LifecycleCases`, `TakeoverRun`, `StrandedTakeover`,
`HandoffAccounting`, `SecondRequester`, `ConflictExposure`, `Autoscaling`). The cluster is a map of
ModelDeployments, a map of runtime Deployment objects and the nodes. `LifecycleCases` says field by field what
a reconcile comes to. `Lifecycle.Controller` performs one reconcile at a time as a sequence
of single-object writes; `writesLeft` kills it after any of them, and its ghost `log` keeps the cluster
after every single write. Between reconciles the world moves: users edit, create and delete
deployments, runtime objects report or disappear, nodes are cordoned. `Lifecycle.Controller.Run` proves
that in every logged state no single-unit slot has two runtime objects with positive replicas or two
deployments reported Active. `ReplacementRuns` proves that transactions only move forward, and
`TakeoverRun` that undisturbed takeovers and rollbacks complete. `SlotSafety.Inv` is the invariant every
write keeps. Its hard step is `ClearLeavesOnlyOwnTarget`: a handoff hides its target from every view, so a
view without charges proves something only after following handoffs back to the first requester, by
induction on the time at which each transaction started.

Three results are negative. First, the exclusivity of a slot has an exception in the code. A permanent
conflict on a Service, ConfigMap or ModelCache fails a requester that is still draining (or rolling
back) without dropping its stored reservation. If the user then edits the spec, the next reconcile
forgets the transaction in memory only, while the reservation it reads back from the API server still
hides the target, and it may bring the requester's runtime up beside the target's.
`ConflictExposure.ReopeningIsSafeExactlyWhen` says when: such a reconcile keeps the slot exclusive if and
only if the target runs nothing and the two are not about to be both reported Active. The run theorem
covers conflicts and edits and leaves out exactly the reconciles on the unsafe side of that equivalence
(`Lifecycle.Admissible`). `ConflictExposure.TwoModelsOnOneGpu` takes the controller from an empty cluster,
by its own steps, to a state in which the next reconcile puts two models on the only GPU.
Second, a handoff is charged once to outsiders unless a second requester claims the same target, which
happens when the controller dies between the requester's patch and the target's mark: the conservation
lemmas of `HandoffAccounting` give the exact difference, and `SecondRequester` the concrete cluster.
Third, a takeover that cannot go on does not give the slot back: when the target has left and the
requester's pod then fails its preflight, the requester is stored Failed with its transaction, no
reconcile of either moves again, and the displaced model waits beside a free GPU until a user edits or
deletes the requester (`StrandedTakeover`).

**Gateway** (`RoutePath`, `RoundRobin`, `Registry`, `RateLimiter`, `Discovery`). `Registry.MemoryRegistry`
keeps routes, sorted prefixes and round-robin scores in place; `RoundRobin` holds the arithmetic of smooth
weighted round-robin; `RateLimiter.Limiter` is the token bucket over exact reals; `Discovery.Discovery`
is the refresh loop over an explicit clock in milliseconds.

**Model caches** (`ModelCache`, `Downloader`). `ModelCache.Controller` reconciles one cache, its Job and
the nodes over any run of edits, retry tokens, Job results, Job expiry, node replacement and crashes. The
SHA-256 input hash is the identity itself, which makes it injective. The planner's answer is an argument
constrained by `PlanFor`. Another negative result: a finished download survives every valid spec but not
an invalid one in between (`InvalidDetour`), because a failed validation sets the Downloaded condition to
Unknown. `Downloader.Disk` is the downloader on a file system that may stop between any two operations.

**Two algorithms** (`SchemaUpgrade`, `PodGpu`). The recursive CRD comparison, and the effective GPU
request of a pod with init sidecars. The comparison reads `additionalProperties` only where the old one is
a schema, so it accepts a map of anything that becomes a map of something; `StaysValidExactlyWhen` says of
any schemas and any value when it stays valid, and `Covered` is a condition on the two schemas under which
every stored value does.

`Wrappers`, `Text`, `Arithmetic`, `Sorting` and `Sums` are helpers.

## Model

| member | source | states |
|---|---|---|
| GpuPlanner.OccupiedByNode | operator/internal/scheduler/gpu.go:100-105 | The accumulated map gives, for every node, the sum of the positive reservations of the requested resource there. |
| GpuPlanner.Plan | operator/internal/scheduler/gpu.go:85-158 | The result is a fitting placement no fitting node precedes in the documented order, and each error is returned exactly when its reason holds. |
| GpuPlanner.NodeFitsExactlyWhen | operator/internal/scheduler/gpu.go:113-132 | A node fits if and only if it is Ready and schedulable, carries every selected label and the GPU type asked for, and has the slots left. |
| GpuPlanner.PlannedIsBest | operator/internal/scheduler/gpu.go:148-157 | Against any other fitting node the planned one is the preferred one, or has more slots left, or as many and the lesser name. |
| GpuPlanner.AnswerExactlyWhen | operator/internal/scheduler/gpu.go:85-158 | Each error and each success is the answer if and only if its reason holds, and a success reports the node's total, occupied and free slots. |
| GpuPlanner.PlanIsOrderIndependent | operator/internal/scheduler/gpu.go:85-158 | For distinctly named nodes, plans over permuted nodes and permuted reservations are equal. |
| GpuPlanner.PreferredNodeWins | operator/internal/scheduler/gpu.go:148-157 | A preferred node with room is the node planned, whatever room other nodes have. |
| GpuPlanner.OccupiedPermutation | operator/internal/scheduler/gpu.go:100-105 | What is occupied does not depend on the order of the reservations. |
| Deployments.HandoffTargets | operator/controllers/modeldeployment_lifecycle_controller.go:1132-1148 | The first pass finds exactly the deployments whose slot a requester's reserving transaction stands for. |
| Deployments.GpuAllocations | operator/controllers/modeldeployment_lifecycle_controller.go:1122-1238 | The reservations one deployment must respect are exactly the charged statuses followed by the live runtimes that no status covers. |
| Deployments.StatusChargedExactlyWhen | operator/controllers/modeldeployment_lifecycle_controller.go:1132-1188 | A status is charged if and only if it has a node where it is activating or active or which it hands over, and neither a requester stands for its slot nor is it handing the slot back to the viewer. |
| Deployments.RuntimeChargedExactlyWhen | operator/controllers/modeldeployment_lifecycle_controller.go:1189-1236 | A runtime is charged if and only if it has replicas, no requester stands for its slot and its status is not charged. |
| Deployments.UncoveredRuntimes | operator/controllers/modeldeployment_lifecycle_controller.go:1189-1236 | The runtime pass adds exactly the live runtimes that are neither hidden by a handoff nor already charged. |
| SlotSafety.ClearLeavesOnlyOwnTarget | operator/controllers/modeldeployment_lifecycle_controller.go:1131-1238 | If a deployment is charged nothing on its slot, then apart from its own target nobody else runs there, and others hold it only to give it back. |
| SlotSafety.ClearMeansGranted | operator/controllers/modeldeployment_lifecycle_controller.go:1131-1238 | With the own target vacant, a clear view means that nobody else runs on the slot. |
| SlotSafety.GrantIsSafeExactlyWhen | operator/controllers/modeldeployment_lifecycle_controller.go:1050-1238 | Using a granted reservation keeps slots exclusive if and only if the requester's own handoff hides no live runtime. |
| SlotSafety.PlannedExactlyWhenClear | operator/controllers/modeldeployment_lifecycle_controller.go:1050-1083 | On a single-unit slot the planner grants a reservation if and only if the view is clear and the cache node is compatible. |
| SlotSafety.QuietWrite | operator/controllers/modeldeployment_lifecycle_controller.go:1837-1884 | A status write that takes nothing new keeps the cluster invariant. |
| SlotSafety.ClaimWrite | operator/controllers/modeldeployment_lifecycle_controller.go:410-425 | Claiming the slot after a granted reservation keeps the cluster invariant. |
| SlotSafety.StartWrite | operator/controllers/modeldeployment_lifecycle_transitions.go:309-349 | Patching only the requester, before the target is marked, already keeps the cluster invariant. |
| SlotSafety.RunWrite | operator/controllers/modeldeployment_lifecycle_controller.go:884-942 | Creating or scaling up the runtime after a grant keeps the invariant and the grant. |
| SlotSafety.IdleWrite | operator/controllers/modeldeployment_lifecycle_controller.go:990-1024 | Any change of a runtime object that does not start it keeps the invariant. |
| SlotSafety.EditWrite | operator/controllers/modeldeployment_lifecycle_controller.go:1967-1979 | A user's edit of desired state, policy or priority keeps the invariant. |
| SlotSafety.GoneWrite | operator/controllers/modeldeployment_lifecycle_controller.go:990-1024 | The end of an asynchronous deletion, or any disappearance of a runtime, keeps the invariant. |
| SlotSafety.RemoveWrite | operator/controllers/modeldeployment_lifecycle_controller.go:139-167 | Deleting a deployment while its runtime still exists keeps the invariant. |
| SlotSafety.AddWrite | operator/controllers/modeldeployment_lifecycle_controller.go:139-167 | Creating a deployment under a fresh UID keeps the invariant. |
| SlotSafety.NodeWrite | operator/controllers/modeldeployment_lifecycle_controller.go:1050-1069 | Cordoning or relabelling nodes keeps the invariant. |
| ReplacementRuns.OneDirection | operator/controllers/modeldeployment_lifecycle_transitions.go:556-737 | Over any stretch of a run a transaction keeps its target and either keeps its phase or strictly advances in rank. |
| ReplacementRuns.AtMostThreeChanges | operator/controllers/modeldeployment_lifecycle_transitions.go:907-1141 | A transaction changes phase at most three times in its life. |
| ReplacementRuns.TargetLeftFirst | operator/controllers/modeldeployment_lifecycle_transitions.go:665-737 | Whatever a transaction reached past Draining other than RollbackFailed, an earlier state of the run shows it draining with its target without runtime object and without assigned node. |
| Lifecycle.SelectReplacementTarget | operator/controllers/modeldeployment_lifecycle_transitions.go:363-417 | None exactly when nobody is eligible; otherwise an eligible deployment with, under ReplaceLowestPriority, the lowest priority of all and a lower one than the requester's, among equals and under ReplaceOldest the longest active, and among those the first name. |
| Lifecycle.EligibleExactlyWhen | operator/controllers/modeldeployment_lifecycle_transitions.go:375-395 | A deployment may be displaced if and only if it is another one of the requester's namespace, wanted, observed, Active on the requester's node and resource, in no transaction or past a successful one of its own, and of lower priority where the policy goes by priority. |
| Lifecycle.MoveIsOk | operator/controllers/modeldeployment_lifecycle_controller.go:2284-2300 | Every admissible event of the environment keeps the invariant and moves no transaction back. |
| Lifecycle.Controller.Write | operator/controllers/modeldeployment_lifecycle_controller.go:1837-1884 | One write happens completely or, when the process dies first, not at all; the log gains exactly the new state. |
| Lifecycle.Controller.PatchStatus | operator/controllers/modeldeployment_lifecycle_controller.go:1837-1884 | A status patch replaces one status and keeps every run property. |
| Lifecycle.Controller.DeleteRuntimeWorkload | operator/controllers/modeldeployment_lifecycle_controller.go:990-1024 | The runtime object is only marked for deletion; nothing else changes. |
| Lifecycle.Controller.ReleaseReplacementTarget | operator/controllers/modeldeployment_lifecycle_transitions.go:1143-1173 | A target is released exactly when it is still marked by this requester; its drain start survives only if it is to be inactive. |
| Lifecycle.Controller.MarkReplacementTarget | operator/controllers/modeldeployment_lifecycle_transitions.go:444-508 | The target ends up requested by this requester, after letting go of whomever it displaced itself. |
| Lifecycle.Controller.ReconcileDeactivation | operator/controllers/modeldeployment_lifecycle_transitions.go:26-195 | One stage of draining: drain, delete, wait for the object to go, then report Cached without a node. |
| Lifecycle.Controller.BeginReplacementRollback | operator/controllers/modeldeployment_lifecycle_transitions.go:1097-1141 | A failed takeover deletes its runtime and keeps the slot reserved for the displaced model. |
| Lifecycle.Controller.CancelPendingReplacement | operator/controllers/modeldeployment_lifecycle_transitions.go:739-768 | A superseded draining transaction releases its target and its node. |
| Lifecycle.Controller.EndReplacement | operator/controllers/modeldeployment_lifecycle_transitions.go:607-696 | Ending a transaction without the slot drops the node and fails the requester. |
| Lifecycle.Controller.ReconcileReplacementRollback | operator/controllers/modeldeployment_lifecycle_transitions.go:907-1095 | RolledBack exactly when the displaced model serves again, RollbackFailed exactly when it cannot be restored, otherwise still reserved; the displaced model is asked back once the requester's runtime is gone and let go when the rollback ends. |
| Lifecycle.Controller.ReserveAndActivate | operator/controllers/modeldeployment_lifecycle_controller.go:410-498 | Activation follows exactly when the reservation can be granted, on single-unit slots and on all others; otherwise the policy for a full slot decides. |
| Lifecycle.Controller.AwaitRestoration | operator/controllers/modeldeployment_lifecycle_transitions.go:963-1095 | With the slot free, the displaced model is asked back and its phase alone decides how the rollback goes on. |
| Lifecycle.Controller.ReconcileReplacementParticipant | operator/controllers/modeldeployment_lifecycle_transitions.go:775-905 | A deployment is handled as displaced exactly while a requester owns its slot, and leaves it stage by stage. |
| Lifecycle.Controller.ReconcileReplacementRequester | operator/controllers/modeldeployment_lifecycle_transitions.go:510-737 | An active requester goes on to activation if and only if no transaction stands in the way or its slot has been left; otherwise the transaction advances as stated. |
| Lifecycle.Controller.AwaitTarget | operator/controllers/modeldeployment_lifecycle_transitions.go:605-725 | A draining transaction fails exactly when its target is deleted, taken by another or failed; otherwise it waits, and a serving unclaimed target is marked. |
| Lifecycle.Controller.MarkAndWait | operator/controllers/modeldeployment_lifecycle_transitions.go:632-637 | A serving unclaimed target is marked by the draining requester, which keeps waiting. |
| Lifecycle.Controller.ReserveGpu | operator/controllers/modeldeployment_lifecycle_controller.go:1050-1083 | The reservation is granted if and only if the cache node is compatible and offers more of the resource than is charged to the deployment for others; on a single-unit slot, if and only if nobody is charged there. |
| Lifecycle.Controller.StartReplacement | operator/controllers/modeldeployment_lifecycle_transitions.go:264-361 | A transaction against the eligible deployment that the policy names, by priority, age and name, is stored on both sides, or the deployment fails exactly when nobody is eligible. |
| Lifecycle.Controller.HandleGpuCapacityError | operator/controllers/modeldeployment_lifecycle_controller.go:1273-1319 | A refused reservation rolls a takeover back, queues, fails or opens a transaction, by policy. |
| Lifecycle.Controller.ScaleToZero | operator/controllers/modeldeployment_lifecycle_controller.go:373-409 | An idle deployment keeps a runtime object without replicas and is reported Cached; one that cannot be built fails the deployment. |
| Lifecycle.Controller.Activate | operator/controllers/modeldeployment_lifecycle_controller.go:450-498 | After a grant the runtime runs one replica on the slot and its report is stored; an unfit node gives the reservation back; a budget or runtime object that cannot be built fails the deployment with its node stored. |
| Lifecycle.Controller.Abandon | operator/controllers/modeldeployment_lifecycle_controller.go:463-487 | A budget or runtime object that cannot be built deletes the runtime and fails the deployment; node and transaction stay stored. |
| Lifecycle.Controller.Report | operator/controllers/modeldeployment_lifecycle_controller.go:1482-1593 | A ready takeover becomes Active and Succeeded, a failed one starts its rollback. |
| Lifecycle.Controller.Unplaceable | operator/controllers/modeldeployment_lifecycle_controller.go:597-651 | A failed preflight deletes the runtime and gives up the node. |
| Lifecycle.Controller.TerminalFailure | operator/controllers/modeldeployment_lifecycle_controller.go:185-258 | A terminal failure deletes the runtime and the node; only a failed validation also ends the transaction. |
| Lifecycle.Controller.CacheNotReady | operator/controllers/modeldeployment_lifecycle_controller.go:297-354 | Without a ready cache there is neither a runtime nor a transaction. |
| Lifecycle.Controller.FailOnConflict | operator/controllers/modeldeployment_lifecycle_controller.go:261-290 | A resource conflict deletes the runtime and fails any deployment, exposed requesters included; node and transaction stay stored, and every run property is kept. |
| Lifecycle.Controller.ReconcileWithCache | operator/controllers/modeldeployment_lifecycle_controller.go:357-498 | With a ready cache an uninterrupted reconcile ends in the outcome its stage demands; cut anywhere it keeps every run property. |
| Lifecycle.Controller.Reconcile | operator/controllers/modeldeployment_lifecycle_controller.go:169-499 | Cut short or not, a reconcile keeps every slot exclusive and every transaction moving forward, unless it forgets a transaction after an edit while the target it hides is still there; uninterrupted it ends in the stated outcome. |
| Lifecycle.Controller.Step | operator/controllers/modeldeployment_lifecycle_controller.go:139-167 | One event has the stated effect and keeps every run property; a reconcile killed before its first write changes nothing. |
| Lifecycle.Controller.Run | operator/controllers/modeldeployment_lifecycle_controller.go:1050-1252 | The states of any run follow one another by the events, up to the first event that is not admissible, which is where it stops; in every state after every single write no single-unit slot has two runtime objects with positive replicas or two deployments reported Active. |
| LifecycleCases.NeverTwoModels | operator/controllers/modeldeployment_lifecycle_controller.go:1050-1252 | In every state of the log, on a node that offers at most one GPU of a resource, no two runtime objects have replicas there and no two deployments are reported Active there. |
| LifecycleCases.InvalidSpecFails | operator/controllers/modeldeployment_lifecycle_controller.go:185-258 | An invalid spec ends in Failed without node, runtime or own transaction, and the transaction's target is let go; nothing else changes. |
| LifecycleCases.FailureStays | operator/controllers/modeldeployment_lifecycle_controller.go:185-258 | A failure that neither an edit nor a repaired spec followed stays Failed and gives the node up; it keeps its transaction. |
| LifecycleCases.ValidatedEnters | operator/controllers/modeldeployment_lifecycle_controller.go:173-184 | A new deployment, one blocked by a spec that is now valid and one edited after a failure start over as Pending; only the last forgets its transaction. |
| LifecycleCases.ConflictFails | operator/controllers/modeldeployment_lifecycle_controller.go:261-290 | A conflict fails the deployment and stops its runtime, with node and transaction kept; only a cache conflict is retried. |
| LifecycleCases.NewCacheIsAwaited | operator/controllers/modeldeployment_lifecycle_controller.go:291-294 | A cache object just created leaves the deployment Pending and everything else as it is. |
| LifecycleCases.MissingCacheWithdraws | operator/controllers/modeldeployment_lifecycle_controller.go:297-354 | A broken, downloading or pending cache takes runtime, node and own transaction away, lets the target go, and decides the phase. |
| LifecycleCases.DisplacedExactlyWhen | operator/controllers/modeldeployment_lifecycle_transitions.go:775-905 | A deployment is displaced if and only if it is wanted and a live requester of its namespace names it as target and is draining it, taking over, or has succeeded and serves. |
| LifecycleCases.UndisplacedGoesOn | operator/controllers/modeldeployment_lifecycle_transitions.go:775-905 | A deployment no longer displaced keeps answering to its requester exactly during the rollback, and otherwise forgets it. |
| LifecycleCases.MayActivateExactlyWhen | operator/controllers/modeldeployment_lifecycle_transitions.go:510-737 | A requester goes on if and only if no transaction is under way, or one whose request stands and that is already taking over or whose target is idle without node and runtime. |
| LifecycleCases.WithdrawnRequestIsCanceled | operator/controllers/modeldeployment_lifecycle_transitions.go:556-596 | A draining transaction whose generation or policy was edited away ends with the requester queued, without node, and the target let go. |
| LifecycleCases.WithdrawnTakeoverRollsBack | operator/controllers/modeldeployment_lifecycle_transitions.go:556-596 | A takeover whose generation or policy was edited away starts its rollback and keeps the node. |
| LifecycleCases.LostTargetFails | operator/controllers/modeldeployment_lifecycle_transitions.go:605-725 | A draining transaction ends as RollbackFailed, without a node, exactly when its target is deleted, failed, or in another's transaction instead of serving; otherwise it waits. |
| LifecycleCases.IdleKeepsNoReplica | operator/controllers/modeldeployment_lifecycle_controller.go:373-409 | An idle deployment is Cached and its runtime object, new or not, has no replicas. |
| LifecycleCases.PlaceableExactlyWhen | operator/controllers/modeldeployment_lifecycle_controller.go:1050-1083 | Only the node of the cache counts, for one GPU of the deployment's resource and type. |
| LifecycleCases.UnfitNodeIsGivenBack | operator/controllers/modeldeployment_lifecycle_controller.go:597-651 | A node that cannot run the pod is given back with the runtime; the deployment waits exactly when compute is short and its policy queues, and fails otherwise. |
| LifecycleCases.UnbuildableRuntimeFails | operator/controllers/modeldeployment_lifecycle_controller.go:463-487 | A runtime that cannot be built fails the deployment, which keeps the node. |
| LifecycleCases.FreeSlotIsActivated | operator/controllers/modeldeployment_lifecycle_controller.go:450-498 | When the reservation is granted the runtime runs one replica and only an unchanged one keeps its report; ready ends the takeover as Succeeded and Active, failed rolls a takeover back and fails any other deployment, else it is Activating. |
| LifecycleCases.TransactionIsStored | operator/controllers/modeldeployment_lifecycle_transitions.go:309-361 | An opened transaction reserves the target's node for the waiting requester at its present generation; the target answers to it, keeps its duty and lets go of whomever it displaced; nobody else changes. |
| Charges.OccupiedIsTaken | operator/controllers/modeldeployment_lifecycle_controller.go:1122-1238 | What the planner finds occupied is the sum of the charges of all objects, whatever the listing order. |
| Charges.PlannedExactlyWhenAffordable | operator/controllers/modeldeployment_lifecycle_controller.go:1050-1083 | On a node with any number of units the planner grants a reservation if and only if the node is compatible and offers more units than are charged there. |
| HandoffAccounting.PairChargedOnce | operator/controllers/modeldeployment_lifecycle_controller.go:1132-1188 | An outsider is charged exactly one unit for requester and target in every reserving phase and whenever one of the two serves alone. |
| HandoffAccounting.RequesterIsNoTarget | operator/controllers/modeldeployment_lifecycle_controller.go:1132-1155 | On a single-unit slot no requester is itself a handoff target, so its pair is always charged once. |
| HandoffAccounting.RequesterSeesNoTarget | operator/controllers/modeldeployment_lifecycle_controller.go:1132-1155 | A requester never finds the slot taken by its target. |
| HandoffAccounting.RestoredSeesRequesterRuntime | operator/controllers/modeldeployment_lifecycle_controller.go:1159-1168 | A target being restored finds the slot taken by its requester exactly while the requester's runtime is live. |
| HandoffAccounting.OnlyThePairChanges | operator/controllers/modeldeployment_lifecycle_controller.go:1122-1238 | A step of a pair changes what outsiders find taken by exactly the change of the pair's own charges. |
| HandoffAccounting.PairStepIsConserved | operator/controllers/modeldeployment_lifecycle_controller.go:1122-1238 | Any step of a pair between states in which a handoff is under way or one of the two serves alone leaves what outsiders find taken unchanged. |
| HandoffAccounting.MarkIsInvisible | operator/controllers/modeldeployment_lifecycle_transitions.go:444-508 | Marking a target changes nobody's view. |
| HandoffAccounting.StartIsConserved | operator/controllers/modeldeployment_lifecycle_transitions.go:309-361 | Opening a transaction leaves what outsiders find taken unchanged, except that it grows by one unit exactly when another requester already stands for the target. |
| HandoffAccounting.TakeoverIsConserved | operator/controllers/modeldeployment_lifecycle_controller.go:1496-1525 | A successful takeover is invisible to outsiders. |
| HandoffAccounting.RestorationIsConserved | operator/controllers/modeldeployment_lifecycle_transitions.go:1025-1046 | Ending a rollback after restoration leaves what outsiders find taken unchanged, except that it shrinks by one unit exactly when another requester stands for the restored model. |
| SecondRequester.SecondRequesterIsChargedToo | operator/controllers/modeldeployment_lifecycle_transitions.go:344-358 | A concrete cluster, left by a death between the requester's patch and the target's mark, in which the controller's next start charges outsiders one unit more of a slot that has only one. |
| ConflictExposure.ConflictOpensTheSlot | operator/controllers/modeldeployment_lifecycle_controller.go:179-290 | Whatever the conflict was about, after it and an edit an exposed requester's transaction is forgotten in memory, while what it sees and what it hides are as before the conflict. |
| ConflictExposure.ReopeningIsSafeExactlyWhen | operator/controllers/modeldeployment_lifecycle_controller.go:179-184 | A reconcile that forgets a stored transaction after an edit and brings the runtime up keeps the slot exclusive, in runtimes and in reports, if and only if the stored handoff hides nothing. |
| ConflictExposure.TwoModelsOnOneGpu | operator/controllers/modeldeployment_lifecycle_controller.go:179-290 | For either kind of conflict, the controller's own steps from an empty cluster reach a state in which the requester's next reconcile has an outcome, and every outcome has two models on the only GPU. |
| ConflictExposure.OpenTransaction | operator/controllers/modeldeployment_lifecycle_transitions.go:264-361 | From an empty cluster with one GPU the controller activates one deployment and opens a second one's transaction against it. |
| TakeoverRun.TargetYields | operator/controllers/modeldeployment_lifecycle_transitions.go:812-837 | Each calm reconcile of a displaced deployment takes it one stage further, from Active over Draining and Deactivating to Cached without a node. |
| TakeoverRun.RequesterTakesOver | operator/controllers/modeldeployment_lifecycle_transitions.go:698-737 | Once the target has left, a calm reconcile of the requester starts its runtime on the slot and stores the Activating phase. |
| TakeoverRun.RequesterServes | operator/controllers/modeldeployment_lifecycle_controller.go:1496-1525 | A ready runtime makes the requester Active and its transaction Succeeded. |
| TakeoverRun.Takeover | operator/controllers/modeldeployment_lifecycle_transitions.go:510-905 | From an opened transaction, with others at most waiting for the slot, five calm reconciles, with the target's runtime going and the requester's becoming ready, end with the requester serving alone. |
| TakeoverRun.FailureBeginsRollback | operator/controllers/modeldeployment_lifecycle_controller.go:1549-1557 | A failed runtime turns the takeover into a rollback that keeps the slot reserved. |
| TakeoverRun.RestoredSeesFreeSlot | operator/controllers/modeldeployment_lifecycle_controller.go:1159-1168 | With the requester's runtime gone the displaced model finds its slot free. |
| TakeoverRun.TargetReturns | operator/controllers/modeldeployment_lifecycle_transitions.go:888-899 | During the rollback the displaced model starts its runtime again and serves once it is ready. |
| TakeoverRun.RollbackEnds | operator/controllers/modeldeployment_lifecycle_transitions.go:1025-1046 | With the displaced model serving, the rollback ends as RolledBack and the requester gives up its node. |
| TakeoverRun.Rollback | operator/controllers/modeldeployment_lifecycle_transitions.go:907-1141 | A takeover whose runtime fails gives the slot back: the displaced model serves again and the requester ends as RolledBack. |
| StrandedTakeover.UnfitPodStrands | operator/controllers/modeldeployment_lifecycle_controller.go:597-651 | A takeover whose target has left and whose pod fails its preflight leaves both without the slot and the displaced model still answering to the failed requester. |
| StrandedTakeover.RequesterStaysStranded | operator/controllers/modeldeployment_lifecycle_controller.go:185-258 | Every valid reconcile of the failed requester keeps its transaction. |
| StrandedTakeover.TargetStaysStranded | operator/controllers/modeldeployment_lifecycle_transitions.go:775-853 | Every reconcile of the displaced model, whatever it observes, leaves it waiting for the failed requester. |
| StrandedTakeover.WorldKeepsStranded | operator/controllers/modeldeployment_lifecycle_controller.go:2284-2300 | No event of the environment ends this, short of a user editing or deleting one of the two. |
| StrandedTakeover.DeletionFrees | operator/controllers/modeldeployment_lifecycle_transitions.go:775-811 | Deleting the requester sets the displaced model free. |
| StrandedTakeover.EditFrees | operator/controllers/modeldeployment_lifecycle_controller.go:179-184 | After an edit of the requester its next valid reconcile, whatever it observes, forgets the transaction and sets the displaced model free. |
| StrandedTakeover.Wait | operator/controllers/modeldeployment_lifecycle_transitions.go:775-853 | Any number of reconciles of the two leave the displaced model waiting. |
| Autoscaling.DesiredIsBounded | operator/controllers/modeldeployment_lifecycle_controller.go:1372-1430 | For all metric values and wrap-around the wish is zero exactly when idling, else within base and maximum. |
| Autoscaling.BaseIsClamped | operator/controllers/modeldeployment_lifecycle_controller.go:1992-2009 | The maximum is the given one but at least one, the base the given minimum kept between one and the maximum. |
| Autoscaling.DesiredIsCalledForExactlyWhen | operator/controllers/modeldeployment_lifecycle_controller.go:1404-1418 | The wish counts exactly the base replicas and those without which the ones asked for in addition to the current count leave requests over, if and only if that number fits into 32 bits or the maximum is reached all the same. |
| Autoscaling.ScaleUpIsCeilingExactlyWhen | operator/controllers/modeldeployment_lifecycle_controller.go:1404-1411 | The scale-up is the least number of replicas whose targets cover the pending requests if and only if that number fits into 32 bits. |
| Autoscaling.HugeBacklogWraps | operator/controllers/modeldeployment_lifecycle_controller.go:1409-1410 | A backlog of 2^32 requests with target one asks for no further replica. |
| Autoscaling.PlannedHasMostRoom | operator/controllers/modeldeployment_lifecycle_controller.go:1463-1472 | The placement found for one replica has the most room of all considered nodes. |
| Autoscaling.RoomForExactlyWhen | operator/controllers/modeldeployment_lifecycle_controller.go:1441-1471 | There is room for a number of replicas if and only if some node, the cache's if there is one, fits that many times the GPUs of one. |
| Autoscaling.CappedKeepsRoom | operator/controllers/modeldeployment_lifecycle_controller.go:1472-1479 | The capped count has room exactly when the base count has, even when the conversion to 32 bits wraps. |
| Autoscaling.CappedIsMost | operator/controllers/modeldeployment_lifecycle_controller.go:1472-1479 | Without wrap-around no count between the capped and the desired one has room. |
| Autoscaling.CappedIsMostExactlyWhen | operator/controllers/modeldeployment_lifecycle_controller.go:1472-1479 | With room for the base the capped count is the greatest up to the wish that fits, if and only if the division does not wrap into the range between base and wish. |
| Autoscaling.HugeNodeWraps | operator/controllers/modeldeployment_lifecycle_controller.go:1472-1473 | With 2^32 + 1 free GPUs a wish for four replicas is capped at one. |
| Autoscaling.CapByGpuCapacity | operator/controllers/modeldeployment_lifecycle_controller.go:1432-1480 | The wish stays where not even the base fits; otherwise, unless 2^31 replicas have room, a count up to the wish is kept if and only if it has room. In any case the answer lies between base and wish and has room exactly when the base has. |
| Autoscaling.PlanAndReserve | operator/controllers/modeldeployment_lifecycle_controller.go:1321-1370 | The plan is zero exactly when a deployment that may scale to zero is held or found idle; a nonzero plan is granted if and only if the base replicas fit; and as long as nothing wraps a replica is planned if and only if the base or the backlog calls for it and, where the base fits, it fits as well. |
| RoutePath.NormalFormsAreFixed | internal/routingpath/path.go:25-49 | A normalized prefix is its own normal form, also with a trailing slash, and never covers the gateway's own endpoints. |
| RoutePath.NormalizeExactlyWhen | internal/routingpath/path.go:25-49 | A prefix is accepted if and only if, but for one trailing slash, it is rooted, has no empty, dot or dot-dot segment and no query, fragment, backslash, escape or control character, and is no endpoint of the gateway nor below one; that slash is dropped. |
| RoutePath.SegmentsJoin | internal/routingpath/path.go:25-49 | Segments hold no slash and make up the path again. |
| RoutePath.MatchesExactlyWhen | gateway/internal/routing/router.go:149-152 | A prefix matches a path if and only if its segments are the first segments of the path. |
| RoutePath.MatchedPrefixes | gateway/internal/routing/router.go:149-152 | Two equally long matching prefixes of a path are equal. |
| RoundRobin.NextKeepsTotal | gateway/internal/routing/router.go:365-379 | A selection among any rivals with any weights leaves the sum of the scores unchanged. |
| RoundRobin.ScoresStayBalanced | gateway/internal/routing/router.go:365-379 | From zero scores the scores always cancel out and stay above minus the total weight. |
| RoundRobin.ScoresBounded | gateway/internal/routing/router.go:365-379 | From zero scores with n rivals every score stays strictly between -W and (n-1)*W. |
| RoundRobin.ScoreIsDebt | gateway/internal/routing/router.go:365-379 | A score is exactly what the rival was owed less what it was paid. |
| RoundRobin.ChosenAtMostItsShare | gateway/internal/routing/router.go:365-379 | After t selections a rival was chosen fewer than t*w/W + 1 times. |
| RoundRobin.RoundIsFair | gateway/internal/routing/router.go:365-379 | The first W selections choose each rival exactly its weight and return all scores to zero. |
| RoundRobin.AnyWindowIsFair | gateway/internal/routing/router.go:365-379 | Any W consecutive selections of a run from zero scores choose rival i exactly w_i times. |
| RoundRobin.WindowInRunIsFair | gateway/internal/routing/router.go:365-379 | The same holds for every window inside a longer run. |
| Registry.FirstIsLongest | gateway/internal/routing/router.go:149-159 | The first matching prefix in the rebuilt order is the one longest registered match. |
| Registry.Upstream | gateway/internal/routing/router.go:154-157 | Prefix and upstream path rebuild the request path, with "/" standing for an empty remainder. |
| Registry.NormalizedIsOk | gateway/internal/routing/router.go:411-444 | A normalized backend keeps its identity, has a canonical prefix, a weight that is not negative and an endpoint if Ready. |
| Registry.NormalizeBackendExactlyWhen | gateway/internal/routing/router.go:411-444 | A backend is accepted if and only if its name is one segment, its prefix or the default one is acceptable, its weight is not negative and, if it is Ready, its endpoint is http or https with a host; nothing but the prefix changes. |
| Registry.LeastLoadedAre | gateway/internal/routing/router.go:330-341 | The tied backends are exactly those of minimal load. |
| Registry.RivalsAre | gateway/internal/routing/router.go:309-343 | The rivals are, by namespace and name, exactly the Ready backends of positive weight that, unless one of these is weighted or no load is known, have the least load of these. |
| Registry.TieGoesToFirst | gateway/internal/routing/router.go:365-379 | Nobody stands higher than the chosen rival, and of those that stand equal it is the first by namespace and then name. |
| Registry.RivalIsChosen | gateway/internal/routing/router.go:309-343 | Whichever rival is picked is Ready with a positive weight and, unless one such backend is weighted or no load is known, of least load among them. |
| Registry.GroupedAre | gateway/internal/routing/router.go:230-254 | A snapshot publishes exactly the first valid entry of each identity on each route. |
| Registry.PrunedScores | gateway/internal/routing/router.go:383-400 | Pruning keeps the scores of live backends and drops all others. |
| Registry.MemoryRegistry.RaiseScores | gateway/internal/routing/router.go:365-369 | Every rival gains its weight, nobody else changes, and the score sum grows by the total. |
| Registry.MemoryRegistry.WeightedBackend | gateway/internal/routing/router.go:358-381 | Several rivals take one round-robin turn, whose scores are those of `RoundRobin.Next` and whose score sum over the whole route is unchanged. |
| Registry.MemoryRegistry.LeastLoadedBackends | gateway/internal/routing/router.go:330-341 | The one-pass scan returns the backends of minimal load, in order. |
| Registry.MemoryRegistry.NoPositiveWeightBackend | gateway/internal/routing/router.go:345-356 | A route without a usable backend answers with its first Ready backend, withdrawn, or with its first if none is Ready. |
| Registry.MemoryRegistry.SelectBackend | gateway/internal/routing/router.go:309-343 | The answer is Ready if and only if the route has a Ready backend of positive weight, and then it is one, of least load unless weights decide alone; otherwise it is the first Ready backend withdrawn, or the first. |
| Registry.MemoryRegistry.Select | gateway/internal/routing/router.go:143-161 | A route is found if and only if some registered prefix matches on a segment boundary; it is the longest one, and prefix and upstream path rebuild the path. |
| Registry.MemoryRegistry.RebuildPrefixes | gateway/internal/routing/router.go:296-307 | The prefixes are exactly the registered ones, strictly ordered by decreasing length, then name. |
| Registry.MemoryRegistry.Upsert | gateway/internal/routing/router.go:164-191 | Exactly the backend of the same identity on the normalized route is replaced, or the new one added; an invalid one changes nothing. |
| Registry.MemoryRegistry.Delete | gateway/internal/routing/router.go:194-204 | Exactly the normalized route and its scores go. |
| Registry.MemoryRegistry.Replace | gateway/internal/routing/router.go:225-268 | The registry then holds exactly the first valid entry of each identity on each route, scores of surviving backends stay, and the call succeeds if and only if every entry is valid and the first of its identity on its route. |
| Registry.MemoryRegistry.MarkReadyUnavailable | gateway/internal/routing/router.go:273-294 | Every Ready backend becomes Unavailable without endpoint and with the reason; everything else stays. |
| Registry.MemoryRegistry.ServeWithdrawn | gateway/internal/routing/router.go:273-294 | After a withdrawal no sequence of selections, deletions and further withdrawals gets a Ready backend. |
| Registry.MemoryRegistry.SelectRepeatedly | gateway/internal/routing/router.go:143-161 | On an unchanging route that weights decide alone, under whatever loads, the selections follow the round-robin run from zero scores, and any W of them in a row return each backend exactly its weight. |
| RateLimiter.VisitIsAccounted | gateway/internal/proxy/proxy.go:391-398 | A call turns at most what the elapsed time refilled into tokens left and tokens spent. |
| RateLimiter.TokensAreAccounted | gateway/internal/proxy/proxy.go:370-404 | Tokens left plus admissions never exceed burst plus rate times the time since creation, even with out-of-order timestamps. |
| RateLimiter.AdmissionsAreBounded | gateway/internal/proxy/proxy.go:370-404 | Up to an admitted call at time t at most burst + rate * (t - creation) calls were admitted. |
| RateLimiter.EarnedPerMinute | gateway/internal/proxy/proxy.go:391-394 | A minute refills the policy's requests per minute. |
| RateLimiter.VisitIsCapped | gateway/internal/proxy/proxy.go:391-398 | However long a key was left alone, tokens left plus the token spent never exceed the burst. |
| RateLimiter.StretchIsBounded | gateway/internal/proxy/proxy.go:370-404 | Over any stretch of a key's calls whose times are in order or whose last call is admitted, at most burst + rate * (times[j] - times[i]) are admitted. |
| RateLimiter.StretchIsWithinRate | gateway/internal/proxy/proxy.go:370-404 | The same in the policy's own numbers, requests per minute and burst. |
| RateLimiter.RefusedExactlyWhen | gateway/internal/proxy/proxy.go:391-404 | A call is refused if and only if less than one token is left after a refill that stops at the burst. |
| RateLimiter.NewPolicyStartsFull | gateway/internal/proxy/proxy.go:378-390 | A new key, or one whose policy changed, starts with a full bucket, less the token of this call. |
| RateLimiter.BurstIsAdmitted | gateway/internal/proxy/proxy.go:370-404 | Of the first calls on a fresh key at one instant exactly the burst is admitted, and the next one is not. |
| RateLimiter.RetryAfterIsLeast | gateway/internal/proxy/proxy.go:399-403 | Retry-After is positive and the least whole number of seconds after which an undisturbed call is admitted. |
| RateLimiter.Limiter.Allow | gateway/internal/proxy/proxy.go:370-404 | Exactly the key's bucket changes, as one visit; a refusal's delay is admitted exactly from that many whole seconds on. |
| RateLimiter.Limiter.AllowAll | gateway/internal/proxy/proxy.go:370-404 | Over any calls on any keys, a key under one policy throughout gets the answers of its own run, and over any stretch of its calls in order at most burst + rate * elapsed are admitted. |
| Discovery.Discovery.Turn | gateway/internal/discovery/discovery.go:117-150 | A failed list withdraws every Ready backend as stale exactly when the last success is three intervals old or more, and changes nothing before; the delay starts at 250 milliseconds and doubles up to the interval; a snapshot restarts the clock. |
| Discovery.Discovery.Run | gateway/internal/discovery/discovery.go:112-151 | In any run a snapshot that may still serve is younger than five intervals, and every retry delay lies between the first delay and the interval. |
| Discovery.Discovery.FailClosed | gateway/internal/discovery/discovery.go:195-202 | After a success, failures alone withdraw every Ready backend before five intervals have passed. |
| ModelCache.ReadyIsWitnessed | operator/controllers/modelcache_controller.go:593-608 | A Ready cache whose spec was observed is exactly what some completed Job downloaded: repository, revision, path, size, node and node UID. |
| ModelCache.LookupIsWitnessed | operator/internal/cachecontract/cache.go:97-117 | A runtime is only given a node, path and revision that a completed Job downloaded. |
| ModelCache.ReadyIsHandedOut | operator/internal/cachecontract/cache.go:97-117 | Node, path and revision are handed out if and only if the cache is Ready. |
| ModelCache.FittingExactlyWhen | operator/controllers/modelcache_controller.go:305-326 | A recorded download fits the spec if and only if repository, effective revision, path and size are the same and the node is one the spec allows. |
| ModelCache.Controller.DeleteDownloaderJob | operator/controllers/modelcache_controller.go:357-381 | The Job is only marked for deletion, and is still there until it is gone. |
| ModelCache.Controller.ReadyPlacementMatches | operator/controllers/modelcache_controller.go:421-484 | For a finished download: ready exactly when place, node and identity still match, lost exactly when only the node does not; the second look at the Job never matters. |
| ModelCache.Controller.ReconcileDownloaderJob | operator/controllers/modelcache_controller.go:517-561 | The Job returned is live and for the current identity; one is created only when none exists, and one that is stale, due for a retry or of other settings is marked for deletion. |
| ModelCache.Controller.ProjectJobStatus | operator/controllers/modelcache_controller.go:563-625 | The status follows the Job's outcome and records its identity and placement. |
| ModelCache.Controller.ReconcileInFlight | operator/controllers/modelcache_controller.go:198-245 | A download that no longer fits the spec has its Job marked for deletion and, once that is gone, is stored Pending without an identity; one whose node is lost has its Job stopped first and is placed anew exactly when it is homeless; any other one goes on. |
| ModelCache.Controller.Fetch | operator/controllers/modelcache_controller.go:224-245 | A download goes on at its recorded place: a Job is created, awaited, replaced or reported as its own state demands. |
| ModelCache.Controller.EditMidDownload | operator/controllers/modelcache_controller.go:198-223 | After an edit of the identity during a download, reconciles, with the old Job going away and a planner that finds a place, end with a Job for the new identity. |
| ModelCache.Controller.Place | operator/controllers/modelcache_controller.go:246-302 | The place, or why there is none, is stored field by field, and a new place is recorded before any Job is created there. |
| ModelCache.Controller.ReconcileFinished | operator/controllers/modelcache_controller.go:177-197 | A finished download is Ready exactly when it still is what the spec asks for on its node, and otherwise waits or fails without being touched. |
| ModelCache.Controller.Reconcile | operator/controllers/modelcache_controller.go:167-303 | A finished download with a valid spec keeps place, identity and Job, and is Ready if and only if it still is what the spec asks for on its node; an invalid spec forgets it. |
| ModelCache.Controller.Step | operator/controllers/modelcache_controller.go:136-165 | One event keeps the invariant and keeps a finished download while its spec is valid. |
| ModelCache.Controller.Run | operator/controllers/modelcache_controller.go:136-303 | The states of any run follow one another by the events, up to the first event that is not admissible; in every one Ready is witnessed by a completed Job, and a finished download whose specs stay valid is never moved and never downloaded again. |
| ModelCache.Controller.EditAndRevert | operator/controllers/modelcache_controller.go:177-197 | Editing the identity and reverting it returns the cache to Ready while its node is the same. |
| ModelCache.Controller.InvalidDetour | operator/controllers/modelcache_controller.go:687-703 | After an invalid spec in between, the finished download is forgotten: the cache moves, or is downloaded again. |
| Downloader.Disk.RemoveStaging | runtimes/model-downloader/download.py:79-80 | Staging is gone unless the process was killed on the way. |
| Downloader.Disk.Download | runtimes/model-downloader/download.py:131-158 | A completed download holds exactly the snapshot's files. |
| Downloader.SizeIsTotal | runtimes/model-downloader/download.py:161-166 | The recorded size is the total of all files, in whatever order they came. |
| Downloader.Disk.WriteManifest | runtimes/model-downloader/download.py:169-183 | The marker appears complete or not at all. |
| Downloader.Disk.Publish | runtimes/model-downloader/download.py:49-109 | Killed anywhere, the destination is untouched or was missing and is now complete; a marked destination is left alone, with exit code zero if and only if its manifest is of this source, repository, revision and input hash, resolved, sized and completed. |
| Downloader.Disk.Attempts | runtimes/model-downloader/download.py:49-109 | From no destination, any attempts cut off anywhere leave it absent or the complete download of one of them. |
| Downloader.Disk.Rerun | runtimes/model-downloader/download.py:65-76 | On a complete destination the same identity succeeds, any other fails, and neither changes it. |
| SchemaUpgrade.CompatibleEverywhere | scripts/check_yaml.py:214-280 | The comparison passes if and only if every place of the old schema is still there and locally compatible. |
| SchemaUpgrade.BreakingPath | scripts/check_yaml.py:214-280 | A rejected upgrade has a place and a cause there: a keyword that differs, an enum where there was none, a value removed, a field newly required, a property, the items or the additional schema gone. |
| SchemaUpgrade.RejectedExactlyWhen | scripts/check_yaml.py:214-280 | An upgrade is rejected if and only if such a cause holds at some place of the old schema. |
| SchemaUpgrade.CompatibleReflexive | scripts/check_yaml.py:214-280 | Every schema is an accepted upgrade of itself. |
| SchemaUpgrade.CompatibleTransitive | scripts/check_yaml.py:214-280 | Accepted upgrades compose. |
| SchemaUpgrade.StaysValidExactlyWhen | scripts/check_yaml.py:257-280 | For all schemas and values, a value valid under the old schema is valid under an accepted new one if and only if the new schema accepts its parts that lie where the comparison never looks. |
| SchemaUpgrade.CoveredUpgradesAreSound | scripts/check_yaml.py:214-280 | If nothing is declared where the old schema stored undeclared fields and no map of anything is restricted, every pruned valid value stays valid under an accepted upgrade. |
| SchemaUpgrade.StructuralIsCovered | scripts/check_yaml.py:214-280 | Accepted upgrades between structural schemas whose maps of anything stay so meet that condition. |
| SchemaUpgrade.AcceptedUpgradesAreSound | scripts/check_yaml.py:214-280 | Between structural schemas whose maps of anything stay so, every pruned value valid under the old schema is valid under the new one and stays pruned, whatever the unchanged keywords mean. |
| SchemaUpgrade.NarrowedMapIsAccepted | scripts/check_yaml.py:257-280 | Outside structural schemas an accepted upgrade that narrows a map by a property invalidates a stored value. |
| SchemaUpgrade.TypedMapIsAccepted | scripts/check_yaml.py:273-280 | Between structural schemas, a map of anything that becomes a map of something is accepted and invalidates a stored value. |
| SchemaUpgrade.DeclaredMapIsAccepted | scripts/check_yaml.py:257-280 | Between structural schemas, a map of anything that becomes declared fields is accepted and invalidates a stored value. |
| SchemaUpgrade.ClosedMapIsAccepted | scripts/check_yaml.py:273-280 | A map of anything that is closed is accepted and invalidates a stored value. |
| PodGpu.PeakIsReached | cli/inferops_cli/cluster_resources.py:117-146 | The peak of a lifecycle is reached at some moment and exceeded at none. |
| PodGpu.AloneInUse | cli/inferops_cli/cluster_resources.py:117-126 | A container alone uses what it requests, and nothing of a resource it does not name. |
| PodGpu.RegularRequests | cli/inferops_cli/cluster_resources.py:122-126 | The first loop adds up what the regular containers request. |
| PodGpu.InitPeak | cli/inferops_cli/cluster_resources.py:128-141 | The one-pass totals are the running sidecars and the peak of the init phase. |
| PodGpu.EffectiveRequests | cli/inferops_cli/cluster_resources.py:117-146 | For every resource the effective request is the peak of the pod's whole lifecycle. |

## Left out

- Surge rollouts (Rolling, BlueGreen, Canary), several replicas or GPUs per deployment, and exclusivity on nodes with more than one unit of a resource: the replacement model has Recreate rollouts of one replica with one GPU, and its exclusivity theorem is about single-unit slots.
- Deployments without a GPU, and changes of a deployment's cache node or GPU request after creation.
- Reuse of a deployment name under a new UID, and references without a UID.
- Environment events inside a reconcile: reads within one reconcile are linearizable and nothing else writes between them; the controller's death between any two writes is modelled.
- Lifecycle.Controller.Run: stops before a reconcile that reopens a slot whose hidden target is still there, because exactly there the code is not safe (`ConflictExposure.ReopeningIsSafeExactlyWhen`).
- Services, ConfigMaps, disruption budgets, events, metrics, condition messages and timestamps beyond their order: no modelled branch reads them; `activeSince` is an uninterpreted number of the deployment.
- Disruption budgets and runtime objects under the controller's names that belong to somebody else: the source's own deletion then fails its ownership check and the reconcile returns, which is the modelled death of the process at that point.
- Transient API errors: a reconcile that stops on one has done the writes before it, which is the modelled death of the process.
- Library sorts are modelled by insertion or by a scan for the minimum; only their results are.
- The integer width of round-robin scores and token counts; tokens and time are exact reals and not floating point.
- Trimming of backend names, rate-limit and logging fields of a backend's policy, and unknown backend states: they only add refused inputs.
- The in-flight request tracker, drain status, reverse proxying, bearer tokens and access logs: easy counting or input and output.
- Which backends discovery builds from a snapshot's objects: the snapshot's backends are an argument.
- The cache planner's ranking and capacity rules: its answer is an argument that respects the pinned node, the path and the size.
- Cache statuses written without a node UID by other versions, and several caches sharing a path.
- A model repository that itself contains a file named like the completion marker.
- The allow-list of reviewed default changes, a schema's `items` given as a list, and schema keywords the comparison does not read (maxItems, nullable, preserve-unknown-fields and others).
- The CLI, Helm command building, dashboard, SDK examples and diagnostics.
