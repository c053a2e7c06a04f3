/** Where exclusivity ends: a failed requester that is edited forgets its transaction in memory only,
    while the reservation it reads back still hides its target. */
module ConflictExposure {
  import opened Wrappers
  import opened GpuPlanner
  import opened Deployments
  import opened SlotSafety
  import opened ReplacementRuns
  import opened Lifecycle

  // ---------- exactly when the reconcile after the edit is safe ----------

  /** A reconcile that reopens a slot ends in the activation of d without its transaction. */
  lemma ReopeningActivates(c: Cluster, c': Cluster, config: Config, d: Ref, o: Observed)
    requires d in c.deployments && Reopens(c, config, d, o)
    ensures var status := Validated(c.deployments[d], true).(drainStarted := false);
      && status.replacement.None? && !status.phase.Failed?
      && (ReconcileOutcome(c, c', config, d, o) <==> c' == Activated(c, d, status, o.templateChanged))
  {
    hide Activated, Clear, Placeable, Single;
    var status := Validated(c.deployments[d], true);
    assert Undisplaced(c, d, status) == status && !IsDisplaced(c, d, status);
    assert MayActivate(c, d, status);
  }

  /** Two models run on d's slot, or two are reported Active there. */
  lemma HiddenTargetCollides(c: Cluster, d: Ref, status: Status, templateChanged: bool)
    requires Inv(c) && d in c.deployments && Single(c.nodes, c.deployments[d].spec.slot)
    requires Handoff(c.deployments[d].status) && !HidesNothing(c, d, templateChanged)
    requires status.replacement.None?
    ensures var c' := Activated(c, d, status, templateChanged);
      !(Exclusive(c'.runtimes, c'.nodes) && OneActive(c'))
  {
    hide Exclusive, OneActive;
    var c' := Activated(c, d, status, templateChanged);
    var t := c.deployments[d].status.replacement.value.target.value;
    assert EdgeOk(c, d) && StatusOk(c, d, c.deployments[d].spec.slot, c.deployments[d].status);
    LocalSlot(c, d);
    if Live(c, t) {
      NotExclusive(c', d, t);
    } else {
      NotOneActive(c', d, t);
    }
  }

  lemma NotExclusive(c: Cluster, a: Ref, b: Ref)
    requires a != b && Live(c, a) && Live(c, b) && c.runtimes[a].slot == c.runtimes[b].slot
    requires Single(c.nodes, c.runtimes[a].slot)
    ensures !Exclusive(c.runtimes, c.nodes)
  {
    assert !Apart(c.runtimes, c.nodes, a, b);
  }

  lemma NotOneActive(c: Cluster, a: Ref, b: Ref)
    requires a != b && a in c.deployments && b in c.deployments
    requires c.deployments[a].spec.slot == c.deployments[b].spec.slot
    requires Single(c.nodes, c.deployments[a].spec.slot)
    requires Serving(c.deployments[a].status) && Serving(c.deployments[b].status)
    ensures !OneActive(c)
  {
    assert !OneServes(c, a, b);
  }

  lemma UnhiddenSlotIsKept(c: Cluster, d: Ref, status: Status, templateChanged: bool)
    requires Inv(c) && d in c.deployments && Single(c.nodes, c.deployments[d].spec.slot)
    requires Clear(c, d) && HidesNothing(c, d, templateChanged) && status.replacement.None?
    requires StatusOk(c, d, c.deployments[d].spec.slot, status)
    ensures Inv(Activated(c, d, status, templateChanged))
  {
    hide Inv, Yields, HidesNothing, Clear;
    var runtime := RuntimeAtOne(c, d, templateChanged);
    forall e ensures Yields(c, d, e, runtime.ready) {
      Reopened(c, d, e, templateChanged);
    }
    LocalSlot(c, d);
    RunWrite(c, d, runtime, runtime.ready);
    var running := WithRuntime(c, d, runtime);
    YieldsLess(running, d, runtime.ready, runtime.ready);
    var claimed := Projected(status.(assignedNode := c.deployments[d].spec.slot.node), runtime);
    ClaimWrite(running, d, claimed);
  }

  /** A reconcile that reopens a slot keeps it exclusive, in runtimes and in reports, if and only if the
      stored handoff hides nothing: the run theorem leaves out exactly the reconciles that break it. */
  lemma ReopeningIsSafeExactlyWhen(c: Cluster, c': Cluster, config: Config, d: Ref, o: Observed)
    requires Inv(c) && d in c.deployments && Reopens(c, config, d, o) && ReconcileOutcome(c, c', config, d, o)
    ensures Exclusive(c'.runtimes, c'.nodes) && OneActive(c') <==> HidesNothing(c, d, o.templateChanged)
  {
    var status := Validated(c.deployments[d], true).(drainStarted := false);
    ReopeningActivates(c, c', config, d, o);
    if HidesNothing(c, d, o.templateChanged) {
      assert StatusOk(c, d, c.deployments[d].spec.slot, c.deployments[d].status);
      UnhiddenSlotIsKept(c, d, status, o.templateChanged);
    } else {
      HiddenTargetCollides(c, d, status, o.templateChanged);
    }
  }

  // ---------- how a requester gets there ----------

  /** The cluster after a conflict failed d and its user then edited it. */
  ghost function ConflictThenEdit(c: Cluster, d: Ref, reason: ReadyReason, whenFull: WhenFull, priority: int): Cluster
    requires d in c.deployments
  {
    Edited(Conflicted(c, d, Validated(c.deployments[d], true), reason), d, true, whenFull, priority)
  }

  /** Whatever the conflict was about: after the edit d forgets its transaction, and what it sees and what
      it hides are as before the conflict. */
  lemma ConflictOpensTheSlot(c: Cluster, config: Config, d: Ref, reason: ReadyReason, whenFull: WhenFull,
                             priority: int, o: Observed)
    requires Inv(c) && d in c.deployments && Exposed(c, d) && !c.deployments[d].status.phase.Failed?
    requires c.deployments[d].spec.active
    ensures var c' := ConflictThenEdit(c, d, reason, whenFull, priority);
      && (Reopens(c', config, d, o) <==> o.valid && BringsUp(c, config, d, o))
      && (HidesNothing(c', d, o.templateChanged) <==> HidesNothing(c, d, o.templateChanged))
  {
    assert c.deployments[d].status.replacement.value.target != Some(d) by {
      assert StatusOk(c, d, c.deployments[d].spec.slot, c.deployments[d].status);
    }
    hide Inv, Clear, Placeable, Single, HidesNothing, ConflictThenEdit;
    var c' := ConflictThenEdit(c, d, reason, whenFull, priority);
    ForgottenAfterEdit(c, d, reason, whenFull, priority);
    SameView(c, c', d);
    SamePlace(c, c', config, d);
    SameHidden(c, d, reason, whenFull, priority, o.templateChanged);
  }

  /** The failure and the edit leave node, transaction, slot and everybody else alone. */
  lemma ForgottenAfterEdit(c: Cluster, d: Ref, reason: ReadyReason, whenFull: WhenFull, priority: int)
    requires d in c.deployments && !c.deployments[d].status.phase.Failed?
    ensures var c', x := ConflictThenEdit(c, d, reason, whenFull, priority), c.deployments[d];
      && c'.nodes == c.nodes && c'.deployments.Keys == c.deployments.Keys && c'.runtimes.Keys == c.runtimes.Keys
      && (forall e <- c.deployments | e != d :: c'.deployments[e] == c.deployments[e])
      && (forall e <- c.runtimes | e != d :: c'.runtimes[e] == c.runtimes[e])
      && EditedAfterFailure(c'.deployments[d]) && c'.deployments[d].spec.active
      && c'.deployments[d].spec.slot == x.spec.slot && c'.deployments[d].spec.gpuType == x.spec.gpuType
      && c'.deployments[d].status.assignedNode == x.status.assignedNode
      && c'.deployments[d].status.replacement == x.status.replacement
  {}

  lemma SamePlace(c: Cluster, c': Cluster, config: Config, d: Ref)
    requires d in c.deployments && d in c'.deployments && c'.nodes == c.nodes
    requires c'.deployments[d].spec.slot == c.deployments[d].spec.slot
    requires c'.deployments[d].spec.gpuType == c.deployments[d].spec.gpuType
    ensures Placeable(c', config, d) <==> Placeable(c, config, d)
  {
    assert RequestFor(c'.deployments[d].spec) == RequestFor(c.deployments[d].spec);
  }

  lemma SameHidden(c: Cluster, d: Ref, reason: ReadyReason, whenFull: WhenFull, priority: int, templateChanged: bool)
    requires d in c.deployments && Exposed(c, d) && !c.deployments[d].status.phase.Failed?
    requires c.deployments[d].status.replacement.value.target != Some(d)
    ensures HidesNothing(ConflictThenEdit(c, d, reason, whenFull, priority), d, templateChanged)
      <==> HidesNothing(c, d, templateChanged)
  {}

  /** d keeps its node and its transaction, so everybody's charges in d's view stay. */
  lemma SameView(c: Cluster, c': Cluster, d: Ref)
    requires d in c.deployments && c'.runtimes.Keys == c.runtimes.Keys && c'.deployments.Keys == c.deployments.Keys
    requires forall e <- c.deployments | e != d :: c'.deployments[e] == c.deployments[e]
    requires forall e <- c.runtimes | e != d :: c'.runtimes[e] == c.runtimes[e]
    requires c'.deployments[d].spec.slot == c.deployments[d].spec.slot
    requires c'.deployments[d].status.assignedNode == c.deployments[d].status.assignedNode
    requires c'.deployments[d].status.replacement == c.deployments[d].status.replacement
    ensures Clear(c', d) <==> Clear(c, d)
  {
    forall e ensures HandoffTarget(c', e) <==> HandoffTarget(c, e) {
      forall x <- c.deployments ensures HandoffFrom(c', x, e) <==> HandoffFrom(c, x, e) {}
    }
    forall e ensures StatusCharged(c', d, e) <==> StatusCharged(c, d, e) {}
  }

  // ---------- the concrete run ----------

  const Old := Ref("models", "a", "1")
  const New := Ref("models", "b", "2")
  const Gpu := Slot("node", "gpu")
  const OneGpu := Node("node", true, map[], map["gpu" := 1])
  const AnyNode := Config(map[], "")
  const OldSpec := Deployments.Spec(true, Queue, 0, Gpu, "")
  const NewSpec := Deployments.Spec(true, ReplaceOldest, 0, Gpu, "")

  /** Nothing interferes with a reconcile, except the given conflict. */
  function Seen(conflict: Conflict): Observed {
    Observed(true, conflict, CacheReady, false, false, NodeFits, false, false)
  }

  function StatusIn(phase: Phase, node: string): Status {
    Status(phase, node, None, 1, false, OtherReason, false)
  }

  /** One node with one GPU; `Old` is to run there, in the given status and with the given runtime. */
  function Alone(status: Status, runtimes: map<Ref, Runtime>): Cluster {
    Cluster(map[Old := Deployment(OldSpec, 1, 0, status)], runtimes, [OneGpu], {Old}, 0)
  }

  /** `Old` serves and `New` wants its GPU. */
  const Full: Cluster :=
    WithDeployment(Alone(StatusIn(Phase.Active, "node"), map[Old := Runtime(Gpu, 1, true, false, false)]), New, NewSpec)

  /** `New` has just opened its transaction against `Old`. */
  const Opened: Cluster := Marked(Started(Full, New, StatusIn(Phase.Pending, ""), Old), Old, New)

  lemma NodeIsFit(c: Cluster, d: Ref)
    requires d in c.deployments && c.deployments[d].spec.slot == Gpu
    requires c.deployments[d].spec.gpuType == "" && c.nodes == [OneGpu]
    ensures Placeable(c, AnyNode, d) && Single(c.nodes, Gpu)
  {
    assert NodesNamed([OneGpu], "node") == [OneGpu];
    assert OneGpu in [OneGpu] && Compatible(AnyNode, RequestFor(c.deployments[d].spec), OneGpu);
  }

  /** Alone on its node, `Old` activates and then reports what its runtime says. */
  lemma OldActivates(c: Cluster, c': Cluster)
    requires c == Alone(FreshStatus, map[])
             || c == Alone(StatusIn(Phase.Activating, "node"), map[Old := Runtime(Gpu, 1, true, false, false)])
    requires ReconcileOutcome(c, c', AnyNode, Old, Seen(NoConflict))
    ensures c' == if c.runtimes == map[]
                  then Alone(StatusIn(Phase.Activating, "node"), map[Old := Runtime(Gpu, 1, false, false, false)])
                  else Alone(StatusIn(Phase.Active, "node"), map[Old := Runtime(Gpu, 1, true, false, false)])
  {
    NodeIsFit(c, Old);
    assert Clear(c, Old);
    PlainReconcile(c, c', Old);
    hide ReconcileOutcome, Clear, Placeable;
  }

  /** A deployment without any transaction: the reservation alone decides. */
  lemma PlainReconcile(c: Cluster, c': Cluster, d: Ref)
    requires d in c.deployments && c.deployments[d].spec.active && c.deployments[d].status.replacement.None?
    requires !c.deployments[d].status.phase.Failed? && Single(c.nodes, c.deployments[d].spec.slot)
    requires ReconcileOutcome(c, c', AnyNode, d, Seen(NoConflict))
    ensures var status := Validated(c.deployments[d], true).(drainStarted := false);
      if Clear(c, d) && Placeable(c, AnyNode, d) then c' == Activated(c, d, status, false)
      else RefusedOutcome(c, c', d, status)
  {
    hide Single, Clear, Placeable, Activated, RefusedOutcome;
    var status := Validated(c.deployments[d], true);
    assert !IsDisplaced(c, d, status) && Undisplaced(c, d, status) == status && MayActivate(c, d, status);
  }

  /** `New` finds the GPU taken and opens a transaction against `Old`. */
  lemma NewOpens(c': Cluster)
    requires ReconcileOutcome(Full, c', AnyNode, New, Seen(NoConflict))
    ensures c' == Opened
  {
    NodeIsFit(Full, New);
    assert StatusCharged(Full, New, Old) && !Clear(Full, New);
    PlainReconcile(Full, c', New);
    hide ReconcileOutcome, Clear, Placeable, Activated;
    assert Validated(Full.deployments[New], true) == StatusIn(Phase.Pending, "");
    assert Eligible(Full, New, Old);
    assert !Eligible(Full, New, New);
  }

  /** What the outcome of a calm reconcile of `New` is: both models on the only GPU. */
  ghost predicate Doubles(c: Cluster, config: Config) {
    && New in c.deployments
    && (exists c' :: ReconcileOutcome(c, c', config, New, Seen(NoConflict)))
    && forall c' | ReconcileOutcome(c, c', config, New, Seen(NoConflict)) ::
         Live(c', Old) && Live(c', New) && !Exclusive(c'.runtimes, c'.nodes)
  }

  lemma OpenedIsClear()
    ensures Clear(Opened, New) && Exposed(Opened, New) && Opened.nodes == [OneGpu] && New !in Opened.runtimes
    ensures !Opened.deployments[New].status.phase.Failed? && Opened.deployments[New].spec.active
    ensures Opened.deployments[New].spec.slot == Gpu && HandoffFrom(Opened, New, Old)
    ensures Live(Opened, Old) && Opened.runtimes[Old].slot == Gpu && !HidesNothing(Opened, New, false)
  {
    assert HandoffFrom(Opened, New, Old) && HandoffTarget(Opened, Old);
  }

  /** An activation runs d on its slot and touches no other runtime. */
  lemma ActivationRuns(c: Cluster, d: Ref, status: Status, templateChanged: bool)
    requires d in c.deployments && d !in c.runtimes
    ensures var c' := Activated(c, d, status, templateChanged);
      && c'.nodes == c.nodes && Live(c', d) && c'.runtimes[d].slot == c.deployments[d].spec.slot
      && forall e <- c.runtimes | e != d :: e in c'.runtimes && c'.runtimes[e] == c.runtimes[e]
  {}

  lemma ReopenedDoubles(reason: ReadyReason)
    requires Inv(Opened)
    ensures var c := ConflictThenEdit(Opened, New, reason, ReplaceOldest, 0);
      !Admissible(c, AnyNode, ReconcileEvent(New, Seen(NoConflict), 4)) && Doubles(c, AnyNode)
  {
    hide Inv, Clear, Placeable, ReconcileOutcome, ConflictThenEdit, Activated, Validated;
    var c, o := ConflictThenEdit(Opened, New, reason, ReplaceOldest, 0), Seen(NoConflict);
    NodeIsFit(Opened, New);
    OpenedIsClear();
    ConflictOpensTheSlot(Opened, AnyNode, New, reason, ReplaceOldest, 0, o);
    ForgottenAfterEdit(Opened, New, reason, ReplaceOldest, 0);
    var status := Validated(c.deployments[New], true).(drainStarted := false);
    ReopeningActivates(c, Activated(c, New, status, o.templateChanged), AnyNode, New, o);
    forall c' | ReconcileOutcome(c, c', AnyNode, New, o)
      ensures Live(c', Old) && Live(c', New) && !Exclusive(c'.runtimes, c'.nodes)
    {
      ReopeningActivates(c, c', AnyNode, New, o);
      ActivationRuns(c, New, status, o.templateChanged);
      NotExclusive(c', Old, New);
    }
  }

  /** The controller's own steps lead from an empty cluster to the opened transaction. */
  method OpenTransaction() returns (k: Controller)
    ensures fresh(k) && k.Valid() && k.config == AnyNode && k.c == Opened
  {
    hide LogOk, Inv, ReconcileOutcome;
    k := new Controller(AnyNode, [OneGpu]);
    k.Step(CreateEvent(Old, OldSpec));
    assert k.c == Alone(FreshStatus, map[]);
    k.Step(ReconcileEvent(Old, Seen(NoConflict), 4));
    OldActivates(Alone(FreshStatus, map[]), k.c);
    k.Step(ReportEvent(Old, true, false));
    ghost var before := Alone(StatusIn(Phase.Activating, "node"), map[Old := Runtime(Gpu, 1, true, false, false)]);
    assert k.c == before;
    k.Step(ReconcileEvent(Old, Seen(NoConflict), 4));
    OldActivates(before, k.c);
    k.Step(CreateEvent(New, NewSpec));
    assert k.c == Full;
    k.Step(ReconcileEvent(New, Seen(NoConflict), 4));
    NewOpens(k.c);
  }

  /** A conflict on the draining requester and an edit, both of which the run theorem covers, lead to a
      state in which the next reconcile of the requester puts two models on the only GPU. */
  method TwoModelsOnOneGpu(conflict: Conflict) returns (k: Controller)
    requires !conflict.NoConflict?
    ensures k.Valid() && k.config == AnyNode && Doubles(k.c, k.config)
    ensures !Admissible(k.c, k.config, ReconcileEvent(New, Seen(NoConflict), 4))
  {
    hide LogOk, Inv, ReconcileOutcome, Doubles;
    k := OpenTransaction();
    k.Now();
    var reason := if conflict.CacheConflict? then CacheFailed else OtherReason;
    k.Step(ReconcileEvent(New, Seen(conflict), 4));
    ConflictStored(k.c, conflict);
    k.Step(EditEvent(New, true, ReplaceOldest, 0));
    k.Now();
    ReopenedDoubles(reason);
  }

  lemma ConflictStored(c': Cluster, conflict: Conflict)
    requires !conflict.NoConflict? && ReconcileOutcome(Opened, c', AnyNode, New, Seen(conflict))
    ensures c' == Conflicted(Opened, New, Validated(Opened.deployments[New], true),
                             if conflict.CacheConflict? then CacheFailed else OtherReason)
  {}
}
