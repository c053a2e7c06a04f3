/** The API objects the deployment controller reads and writes, and the pure helpers over them.
    Every deployment here requests one GPU for one replica and rolls out with Recreate. */
module Deployments {
  import opened Wrappers
  import opened GpuPlanner

  /** Namespace, name and UID together; names are not reused for a new UID. */
  datatype Ref = Ref(namespace: string, name: string, uid: string)

  /** One GPU resource on one node. */
  datatype Slot = Slot(node: string, resource: string)

  datatype WhenFull = Queue | Reject | ReplaceOldest | ReplaceLowestPriority

  datatype Phase =
    | Unset | Pending | Downloading | Cached | WaitingForCapacity | WaitingForGPU
    | Activating | Active | Draining | Deactivating | Failed

  datatype ReplacementPhase =
    | Draining | Activating | Succeeded | Displaced | RollingBack | RolledBack | RollbackFailed

  /** `startedAt` is a logical time: it numbers the replacement transactions of the cluster. */
  datatype Replacement = Replacement(
    phase: ReplacementPhase,
    requestGeneration: int,
    target: Option<Ref>,
    requestedBy: Option<Ref>,
    startedAt: nat)

  /** The reasons of the Ready condition that some branch reads back. */
  datatype ReadyReason = CacheFailed | OtherReason

  datatype Status = Status(
    phase: Phase,
    assignedNode: string,
    replacement: Option<Replacement>,
    observedGeneration: int,
    drainStarted: bool,
    readyReason: ReadyReason,
    validationFailed: bool)

  /** `slot` is the GPU resource on the node holding the deployment's cache. */
  datatype Spec = Spec(active: bool, whenFull: WhenFull, priority: int, slot: Slot, gpuType: string)

  datatype Deployment = Deployment(spec: Spec, generation: int, activeSince: int, status: Status)

  /** A runtime Deployment object; it exists until its asynchronous deletion ends. */
  datatype Runtime = Runtime(slot: Slot, replicas: nat, ready: bool, failed: bool, deleting: bool)

  datatype Cluster = Cluster(
    deployments: map<Ref, Deployment>,
    runtimes: map<Ref, Runtime>,
    nodes: seq<Node>,
    known: set<Ref>,
    clock: nat)

  // ---------- pure helpers of the controller ----------

  predicate IsReplacementPolicy(policy: WhenFull) {
    policy.ReplaceOldest? || policy.ReplaceLowestPriority?
  }

  /** A requester's transaction that still reserves the slot being handed over. */
  predicate Reserves(replacement: Option<Replacement>) {
    && replacement.Some?
    && replacement.value.target.Some?
    && var phase := replacement.value.phase;
       phase.Draining? || phase.Activating? || phase.RollingBack?
  }

  predicate CandidateAvailable(replacement: Option<Replacement>) {
    || replacement.None?
    || (replacement.value.requestedBy.None? && replacement.value.target.Some? && replacement.value.phase.Succeeded?)
  }

  predicate Handoff(status: Status) {
    status.assignedNode != "" && Reserves(status.replacement)
  }

  predicate RollingBackTo(status: Status, self: Ref) {
    && status.replacement.Some?
    && status.replacement.value.target == Some(self)
    && status.replacement.value.phase.RollingBack?
  }

  /** A status that charges its slot to other deployments. */
  predicate Holds(status: Status) {
    && status.assignedNode != ""
    && (status.phase.Activating? || status.phase.Active? || Reserves(status.replacement))
  }

  predicate Serving(status: Status) {
    status.assignedNode != "" && status.phase.Active?
  }

  predicate Live(c: Cluster, e: Ref) {
    e in c.runtimes && c.runtimes[e].replicas > 0
  }

  predicate HandoffFrom(c: Cluster, x: Ref, e: Ref) {
    && x in c.deployments && Handoff(c.deployments[x].status)
    && c.deployments[x].status.replacement.value.target == Some(e)
  }

  predicate HandoffTarget(c: Cluster, e: Ref) {
    exists x <- c.deployments :: HandoffFrom(c, x, e)
  }

  // ---------- who is charged for a slot, seen by one deployment ----------

  predicate StatusCharged(c: Cluster, self: Ref, e: Ref) {
    && e in c.deployments && e != self
    && !HandoffTarget(c, e)
    && !RollingBackTo(c.deployments[e].status, self)
    && Holds(c.deployments[e].status)
  }

  predicate RuntimeCharged(c: Cluster, self: Ref, e: Ref) {
    e != self && Live(c, e) && !HandoffTarget(c, e) && !StatusCharged(c, self, e)
  }

  /** x hands its slot over or back: it is assigned a node, and its transaction with target t is under way. */
  ghost predicate Hands(c: Cluster, x: Ref, t: Ref) {
    && x in c.deployments && c.deployments[x].status.assignedNode != ""
    && var r := c.deployments[x].status.replacement;
       && r.Some? && r.value.target == Some(t)
       && r.value.phase in {ReplacementPhase.Draining, ReplacementPhase.Activating, ReplacementPhase.RollingBack}
  }

  /** Another deployment's status is charged exactly when it is assigned a node where it is activating or active
      or which it hands over, unless its slot is being handed over to a third one or back to the viewer. */
  lemma StatusChargedExactlyWhen(c: Cluster, self: Ref, e: Ref)
    ensures StatusCharged(c, self, e) <==>
      && e != self && e in c.deployments && c.deployments[e].status.assignedNode != ""
      && (c.deployments[e].status.phase in {Phase.Activating, Phase.Active} || exists t :: Hands(c, e, t))
      && (forall x <- c.deployments :: !Hands(c, x, e))
      && !(Hands(c, e, self) && c.deployments[e].status.replacement.value.phase == ReplacementPhase.RollingBack)
  {
    forall x: Ref, t: Ref ensures Hands(c, x, t) <==> HandoffFrom(c, x, t) {}
    if e in c.deployments && Handoff(c.deployments[e].status) {
      assert Hands(c, e, c.deployments[e].status.replacement.value.target.value);
    }
  }

  /** Another runtime is charged exactly when it has replicas, nobody answers for its slot, and its status is not
      charged already. */
  lemma RuntimeChargedExactlyWhen(c: Cluster, self: Ref, e: Ref)
    ensures RuntimeCharged(c, self, e) <==>
      && e != self && e in c.runtimes && c.runtimes[e].replicas > 0
      && (forall x <- c.deployments :: !Hands(c, x, e))
      && !StatusCharged(c, self, e)
  {
    forall x: Ref ensures Hands(c, x, e) <==> HandoffFrom(c, x, e) {}
  }

  function StatusCharge(d: Deployment): Allocation {
    Allocation(d.status.assignedNode, d.spec.slot.resource, 1)
  }

  function RuntimeCharge(r: Runtime): Allocation {
    Allocation(r.slot.node, r.slot.resource, r.replicas)
  }

  function StatusAllocations(c: Cluster, self: Ref, items: seq<Ref>): seq<Allocation>
    requires forall e <- items :: e in c.deployments
  {
    if items == [] then []
    else
      var last := items[|items| - 1];
      StatusAllocations(c, self, items[..|items| - 1])
      + (if StatusCharged(c, self, last) then [StatusCharge(c.deployments[last])] else [])
  }

  function RuntimeAllocations(c: Cluster, self: Ref, items: seq<Ref>): seq<Allocation>
    requires forall e <- items :: e in c.runtimes
  {
    if items == [] then []
    else
      var last := items[|items| - 1];
      RuntimeAllocations(c, self, items[..|items| - 1])
      + (if RuntimeCharged(c, self, last) then [RuntimeCharge(c.runtimes[last])] else [])
  }

  ghost predicate Distinct(items: seq<Ref>) {
    forall i, j | 0 <= i < j < |items| :: items[i] != items[j]
  }

  /** A listing of a set of objects: each one once, in any order. */
  ghost predicate Lists(items: seq<Ref>, objects: set<Ref>) {
    (forall e :: e in items <==> e in objects) && Distinct(items)
  }

  /** First pass: the deployments whose slot a requester already answers for. */
  method HandoffTargets(c: Cluster, items: seq<Ref>) returns (targets: set<Ref>)
    requires Lists(items, c.deployments.Keys)
    ensures forall e :: e in targets <==> HandoffTarget(c, e)
  {
    targets := {};
    for i := 0 to |items|
      invariant forall e :: e in targets <==> exists j :: 0 <= j < i && HandoffFrom(c, items[j], e)
    {
      var status := c.deployments[items[i]].status;
      if Handoff(status) {
        targets := targets + {status.replacement.value.target.value};
      }
    }
  }

  /** The reservations a deployment must respect: statuses first, then runtimes no status covers. */
  method GpuAllocations(c: Cluster, self: Ref, items: seq<Ref>, runtimeItems: seq<Ref>)
    returns (allocations: seq<Allocation>)
    requires Lists(items, c.deployments.Keys) && Lists(runtimeItems, c.runtimes.Keys)
    ensures allocations == StatusAllocations(c, self, items) + RuntimeAllocations(c, self, runtimeItems)
  {
    var targets := HandoffTargets(c, items);
    allocations := [];
    var reserved: set<Ref> := {};
    for i := 0 to |items|
      invariant allocations == StatusAllocations(c, self, items[..i])
      invariant forall j :: 0 <= j < i ==>
        (items[j] in reserved <==> HandoffTarget(c, items[j]) || StatusCharged(c, self, items[j]))
      invariant forall e <- reserved :: e in items[..i]
    {
      var e := items[i];
      assert items[..i + 1][..i] == items[..i];
      var status := c.deployments[e].status;
      if e in targets {
        reserved := reserved + {e};
      } else if e != self && !RollingBackTo(status, self) && Holds(status) {
        allocations := allocations + [StatusCharge(c.deployments[e])];
        reserved := reserved + {e};
      }
    }
    assert items[..|items|] == items;
    var scanned := UncoveredRuntimes(c, self, runtimeItems, targets, reserved);
    allocations := allocations + scanned;
  }

  /** Last pass: the managed runtime Deployments that no reservation accounts for yet. */
  method UncoveredRuntimes(c: Cluster, self: Ref, items: seq<Ref>, targets: set<Ref>, reserved: set<Ref>)
    returns (allocations: seq<Allocation>)
    requires forall e <- items :: e in c.runtimes
    requires forall e :: e in targets <==> HandoffTarget(c, e)
    requires forall e :: e in reserved <==> e in c.deployments && (HandoffTarget(c, e) || StatusCharged(c, self, e))
    ensures allocations == RuntimeAllocations(c, self, items)
  {
    allocations := [];
    for i := 0 to |items|
      invariant allocations == RuntimeAllocations(c, self, items[..i])
    {
      var e := items[i];
      assert items[..i + 1][..i] == items[..i];
      if e != self && e !in targets && e !in reserved && c.runtimes[e].replicas > 0 {
        allocations := allocations + [RuntimeCharge(c.runtimes[e])];
      }
    }
    assert items[..|items|] == items;
  }

  // ---------- single-object writes ----------

  function WithStatus(c: Cluster, d: Ref, status: Status): Cluster
    requires d in c.deployments
  {
    c.(deployments := c.deployments[d := c.deployments[d].(status := status)])
  }

  function WithRuntime(c: Cluster, d: Ref, runtime: Runtime): Cluster {
    c.(runtimes := c.runtimes[d := runtime])
  }
}
