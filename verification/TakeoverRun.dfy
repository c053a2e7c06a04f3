/** An undisturbed takeover completes: the displaced model leaves and the requester serves in its place. */
module TakeoverRun {
  import opened Wrappers
  import opened GpuPlanner
  import opened Deployments
  import opened SlotSafety
  import opened ReplacementRuns
  import opened Lifecycle

  /** Nothing interferes: valid spec, ready cache, idle gateway, a node that fits. */
  const Calm := Observed(true, NoConflict, CacheReady, true, false, NodeFits, false, false)

  /** d and t want one single-unit slot that others at most wait for, on a node that can run either. */
  ghost predicate Duel(c: Cluster, config: Config, d: Ref, t: Ref) {
    && d in c.deployments && t in c.deployments && d != t && d.namespace == t.namespace
    && c.deployments[d].spec.slot == c.deployments[t].spec.slot && c.deployments[d].spec.slot.node != ""
    && c.deployments[d].spec.active && c.deployments[t].spec.active
    && Single(c.nodes, c.deployments[d].spec.slot) && Placeable(c, config, d) && Placeable(c, config, t)
    && (d in c.runtimes ==> c.runtimes[d].slot == c.deployments[d].spec.slot)
    && Bystanders(c, d, t, c.deployments[d].spec.slot)
  }

  ghost predicate Bystanders(c: Cluster, d: Ref, t: Ref, s: Slot) {
    forall e | e != d && e != t ::
      && (e in c.deployments && c.deployments[e].spec.slot == s ==> !Holds(c.deployments[e].status))
      && (Live(c, e) ==> c.runtimes[e].slot != s)
  }

  /** Only d's and t's statuses and runtimes differ. */
  ghost predicate SameField(c: Cluster, c': Cluster, d: Ref, t: Ref) {
    && c'.nodes == c.nodes && c'.deployments.Keys == c.deployments.Keys
    && (forall e <- c.deployments :: c'.deployments[e].spec == c.deployments[e].spec)
    && (forall e <- c.deployments | e != t && e != d :: c'.deployments[e] == c.deployments[e])
    && (forall e <- c'.runtimes | e != t && e != d :: e in c.runtimes && c'.runtimes[e] == c.runtimes[e])
    && (d in c'.runtimes && d in c.deployments ==> c'.runtimes[d].slot == c.deployments[d].spec.slot)
  }

  lemma DuelGoesOn(c: Cluster, c': Cluster, config: Config, d: Ref, t: Ref)
    requires Duel(c, config, d, t) && SameField(c, c', d, t)
    ensures Duel(c', config, d, t)
  {
    assert NodesNamed(c'.nodes, c'.deployments[d].spec.slot.node)
      == NodesNamed(c.nodes, c.deployments[d].spec.slot.node);
  }

  /** d's transaction against t is in the given phase and still wanted. */
  ghost predicate Requesting(c: Cluster, d: Ref, t: Ref, phase: Phase, stage: ReplacementPhase)
    requires d in c.deployments
  {
    var x := c.deployments[d];
    && x.status.phase == phase && x.status.assignedNode != ""
    && x.status.replacement.Some?
    && x.status.replacement.value.phase == stage
    && x.status.replacement.value.target == Some(t) && x.status.replacement.value.requestedBy.None?
    && !Superseded(c, d, x.status.replacement.value)
  }

  ghost predicate Leaving(c: Cluster, d: Ref, t: Ref, phase: Phase)
    requires t in c.deployments
  {
    c.deployments[t].status.phase == phase && RequestedBy(c, t, d)
  }

  lemma InDuel(c: Cluster, config: Config, d: Ref, t: Ref)
    requires Duel(c, config, d, t)
    ensures d in c.deployments && t in c.deployments && d != t && d.namespace == t.namespace
    ensures c.deployments[t].spec.active && c.deployments[t].spec.slot.node != ""
    ensures c.deployments[d].spec.slot == c.deployments[t].spec.slot
    ensures d in c.runtimes ==> c.runtimes[d].slot == c.deployments[d].spec.slot
  {}

  /** An activation touches nothing but e's status and runtime. */
  lemma ActivatedField(c: Cluster, d: Ref, t: Ref, e: Ref, status: Status)
    requires d in c.deployments && t in c.deployments && (e == d || e == t)
    requires d in c.runtimes ==> c.runtimes[d].slot == c.deployments[d].spec.slot
    ensures SameField(c, Activated(c, e, status, false), d, t)
    ensures d != t ==> var other := if e == d then t else d;
      && Activated(c, e, status, false).deployments[other] == c.deployments[other]
      && (other in Activated(c, e, status, false).runtimes <==> other in c.runtimes)
  {
    var runtime := RuntimeAtOne(c, e, false);
    if !runtime.ready && runtime.failed && Reserves(status.replacement) {
      assert DeletionRequested(WithRuntime(c, e, runtime), e) == WithRuntime(c, e, runtime.(deleting := true));
    }
  }

  lemma OutcomeYields(c: Cluster, c': Cluster, config: Config, d: Ref, t: Ref)
    requires Duel(c, config, d, t) && Requesting(c, d, t, Phase.WaitingForGPU, ReplacementPhase.Draining)
    requires RequestedBy(c, t, d) && !c.deployments[t].status.phase.Failed? && !c.deployments[t].status.phase.Unset?
    requires ReconcileOutcome(c, c', config, t, Calm)
    ensures var status := Validated(c.deployments[t], true);
      IsDisplaced(c, t, status) && c' == Yielded(c, t, status, true)
  {
    hide Yielded, Deactivated, Placeable, Single, Bystanders;
    assert IsDisplaced(c, t, Validated(c.deployments[t], true));
  }

  lemma YieldedInDuel(c: Cluster, config: Config, d: Ref, t: Ref, phase: Phase)
    requires Duel(c, config, d, t) && Requesting(c, d, t, Phase.WaitingForGPU, ReplacementPhase.Draining)
    requires Leaving(c, d, t, phase)
    requires phase.Active? || phase.Draining? || phase.Deactivating?
    requires IsDisplaced(c, t, Validated(c.deployments[t], true))
    ensures var c' := Yielded(c, t, Validated(c.deployments[t], true), true);
      && Duel(c', config, d, t) && Requesting(c', d, t, Phase.WaitingForGPU, ReplacementPhase.Draining)
      && c'.runtimes.Keys == c.runtimes.Keys
      && (phase.Active? && t in c.runtimes ==> Leaving(c', d, t, Phase.Draining))
      && (phase.Draining? ==> Leaving(c', d, t, Phase.Deactivating))
      && (phase.Deactivating? && t !in c.runtimes ==>
            Leaving(c', d, t, Phase.Cached) && c'.deployments[t].status.assignedNode == "")
  {
    var status := Validated(c.deployments[t], true);
    YieldedField(c, d, t, status) by { InDuel(c, config, d, t); }
    YieldedStage(c, d, t, phase);
    hide Duel, Yielded, SameField, Leaving, IsDisplaced;
    DuelGoesOn(c, Yielded(c, t, status, true), config, d, t);
  }

  /** Giving way touches nothing but the target's status and its own runtime. */
  lemma YieldedField(c: Cluster, d: Ref, t: Ref, status: Status)
    requires d in c.deployments && t in c.deployments && d != t && IsDisplaced(c, t, status)
    requires d in c.runtimes ==> c.runtimes[d].slot == c.deployments[d].spec.slot
    ensures OnlyTargetChanged(c, Yielded(c, t, status, true), d, t)
  {
    hide Deactivated, OnlyTargetChanged;
    var stage := c.deployments[status.replacement.value.requestedBy.value].status.replacement.value.phase;
    if stage.Draining? {
      DeactivatedField(c, d, t, status.(replacement := InPhase(status.replacement, ReplacementPhase.Draining)));
    } else if stage.Activating? && (t in c.runtimes || status.assignedNode != "") {
      DeactivatedField(c, d, t, status);
    } else {
      StatusField(c, d, t, Yielded(c, t, status, true).deployments[t].status);
    }
  }

  ghost predicate OnlyTargetChanged(c: Cluster, c': Cluster, d: Ref, t: Ref) {
    && SameField(c, c', d, t) && d in c.deployments && c'.deployments[d] == c.deployments[d]
    && c'.runtimes.Keys == c.runtimes.Keys
  }

  lemma StatusField(c: Cluster, d: Ref, t: Ref, next: Status)
    requires d in c.deployments && t in c.deployments && d != t
    requires d in c.runtimes ==> c.runtimes[d].slot == c.deployments[d].spec.slot
    ensures OnlyTargetChanged(c, WithStatus(c, t, next), d, t)
    ensures OnlyTargetChanged(c, WithStatus(DeletionRequested(c, t), t, next), d, t)
  {}

  lemma DeactivatedField(c: Cluster, d: Ref, t: Ref, status: Status)
    requires d in c.deployments && t in c.deployments && d != t
    requires d in c.runtimes ==> c.runtimes[d].slot == c.deployments[d].spec.slot
    ensures OnlyTargetChanged(c, Deactivated(c, t, status, true), d, t)
  {
    hide OnlyTargetChanged;
    StatusField(c, d, t, Deactivated(c, t, status, true).deployments[t].status);
  }

  lemma YieldedStage(c: Cluster, d: Ref, t: Ref, phase: Phase)
    requires d in c.deployments && t in c.deployments && Leaving(c, d, t, phase)
    requires phase.Active? || phase.Draining? || phase.Deactivating?
    requires IsDisplaced(c, t, Validated(c.deployments[t], true))
    requires Requesting(c, d, t, Phase.WaitingForGPU, ReplacementPhase.Draining)
    ensures var c' := Yielded(c, t, Validated(c.deployments[t], true), true);
      && (phase.Active? && t in c.runtimes ==> Leaving(c', d, t, Phase.Draining))
      && (phase.Draining? ==> Leaving(c', d, t, Phase.Deactivating))
      && (phase.Deactivating? && t !in c.runtimes ==>
            Leaving(c', d, t, Phase.Cached) && c'.deployments[t].status.assignedNode == "")
  {}

  /** A displaced deployment gives way, whatever it was doing: one calm reconcile of the target. */
  lemma TargetYields(c: Cluster, c': Cluster, config: Config, d: Ref, t: Ref, phase: Phase)
    requires Duel(c, config, d, t) && Requesting(c, d, t, Phase.WaitingForGPU, ReplacementPhase.Draining)
    requires Leaving(c, d, t, phase)
    requires phase.Active? || phase.Draining? || phase.Deactivating?
    requires ReconcileOutcome(c, c', config, t, Calm)
    ensures Duel(c', config, d, t) && Requesting(c', d, t, Phase.WaitingForGPU, ReplacementPhase.Draining)
    ensures c'.runtimes.Keys == c.runtimes.Keys
    ensures phase.Active? && t in c.runtimes ==> Leaving(c', d, t, Phase.Draining)
    ensures phase.Draining? ==> Leaving(c', d, t, Phase.Deactivating)
    ensures phase.Deactivating? && t !in c.runtimes ==>
      Leaving(c', d, t, Phase.Cached) && c'.deployments[t].status.assignedNode == ""
  {
    hide Duel, ReconcileOutcome;
    OutcomeYields(c, c', config, d, t);
    YieldedInDuel(c, config, d, t, phase);
  }

  /** The view of the requester of a duel is clear once the handoff hides its target. */
  lemma RequesterSeesFreeSlot(c: Cluster, config: Config, d: Ref, t: Ref)
    requires Duel(c, config, d, t) && HandoffFrom(c, d, t)
    ensures Clear(c, d)
  {
    assert HandoffTarget(c, t);
  }

  /** A requester that may go on activates: one calm reconcile of it. */
  lemma RequesterActivates(c: Cluster, c': Cluster, config: Config, d: Ref, t: Ref)
    requires Duel(c, config, d, t) && HandoffFrom(c, d, t)
    requires c.deployments[d].status.replacement.value.requestedBy.None?
    requires !c.deployments[d].status.phase.Failed? && !c.deployments[d].status.phase.Unset?
    requires MayActivate(c, d, Validated(c.deployments[d], true))
    requires ReconcileOutcome(c, c', config, d, Calm)
    ensures var status := Validated(c.deployments[d], true);
      c' == Activated(c, d, TakingOver(status).(drainStarted := false), false)
  {
    hide Activated, Placeable, Bystanders, Yielded, MayActivate, TakingOver;
    var status := Validated(c.deployments[d], true);
    RequesterSeesFreeSlot(c, config, d, t);
    assert !IsDisplaced(c, d, status) && Undisplaced(c, d, status) == status;
  }

  lemma RequesterTakesOver(c: Cluster, c': Cluster, config: Config, d: Ref, t: Ref)
    requires Duel(c, config, d, t) && Requesting(c, d, t, Phase.WaitingForGPU, ReplacementPhase.Draining)
    requires SlotLeft(c, d, t) && d !in c.runtimes
    requires ReconcileOutcome(c, c', config, d, Calm)
    ensures Duel(c', config, d, t) && Requesting(c', d, t, Phase.Activating, ReplacementPhase.Activating)
    ensures Live(c', d) && c'.runtimes[d].replicas == 1 && t !in c'.runtimes
  {
    InDuel(c, config, d, t);
    RequesterActivates(c, c', config, d, t);
    var status := TakingOver(Validated(c.deployments[d], true)).(drainStarted := false);
    ActivatedField(c, d, t, d, status);
    hide ReconcileOutcome, Duel, SameField;
    DuelGoesOn(c, c', config, d, t);
  }

  lemma RequesterServes(c: Cluster, c': Cluster, config: Config, d: Ref, t: Ref)
    requires Duel(c, config, d, t) && Requesting(c, d, t, Phase.Activating, ReplacementPhase.Activating)
    requires d in c.runtimes && c.runtimes[d].replicas == 1 && c.runtimes[d].ready
    requires ReconcileOutcome(c, c', config, d, Calm)
    ensures c'.runtimes == c.runtimes && d in c'.deployments
    ensures Serving(c'.deployments[d].status) && c'.deployments[d].status.replacement.Some?
    ensures Current(c', d).phase.Succeeded? && Current(c', d).target == Some(t)
  {
    RequesterActivates(c, c', config, d, t);
  }

  /** From an opened transaction, three calm reconciles of the target and two of the requester, with
      the target's runtime going and the requester's becoming ready in between, complete the takeover. */
  method Takeover(k: Controller, d: Ref, t: Ref)
    requires k.Valid() && Duel(k.c, k.config, d, t) && t in k.c.runtimes && d !in k.c.runtimes
    requires Requesting(k.c, d, t, Phase.WaitingForGPU, ReplacementPhase.Draining) && Leaving(k.c, d, t, Phase.Active)
    modifies k
    ensures k.Valid() && old(k.log) <= k.log
    ensures Live(k.c, d) && t !in k.c.runtimes
    ensures d in k.c.deployments && Serving(k.c.deployments[d].status) && k.c.deployments[d].status.replacement.Some?
    ensures Current(k.c, d).phase.Succeeded? && Current(k.c, d).target == Some(t)
  {
    hide LogOk, ReconcileOutcome, Duel, Requesting, Leaving;
    CalmReconcile(k, d, t, Phase.Active);
    CalmReconcile(k, d, t, Phase.Draining);
    RuntimeGoes(k, d, t);
    CalmReconcile(k, d, t, Phase.Deactivating);
    Succeed(k, d, t);
  }

  method CalmReconcile(k: Controller, d: Ref, t: Ref, phase: Phase)
    requires k.Valid() && Duel(k.c, k.config, d, t) && d !in k.c.runtimes
    requires Requesting(k.c, d, t, Phase.WaitingForGPU, ReplacementPhase.Draining) && Leaving(k.c, d, t, phase)
    requires phase.Active? || phase.Draining? || phase.Deactivating?
    modifies k
    ensures k.Valid() && old(k.log) <= k.log && k.c.runtimes.Keys == old(k.c.runtimes.Keys)
    ensures Duel(k.c, k.config, d, t) && Requesting(k.c, d, t, Phase.WaitingForGPU, ReplacementPhase.Draining)
    ensures phase.Active? && t in old(k.c.runtimes) ==> Leaving(k.c, d, t, Phase.Draining)
    ensures phase.Draining? ==> Leaving(k.c, d, t, Phase.Deactivating)
    ensures phase.Deactivating? && t !in old(k.c.runtimes) ==> SlotLeft(k.c, d, t)
  {
    hide LogOk, ReconcileOutcome;
    ghost var before := k.c;
    k.Step(ReconcileEvent(t, Calm, 4));
    TargetYields(before, k.c, k.config, d, t, phase);
  }

  method RuntimeGoes(k: Controller, d: Ref, t: Ref)
    requires k.Valid() && Duel(k.c, k.config, d, t) && d !in k.c.runtimes
    requires Requesting(k.c, d, t, Phase.WaitingForGPU, ReplacementPhase.Draining)
    requires Leaving(k.c, d, t, Phase.Deactivating)
    modifies k
    ensures k.Valid() && old(k.log) <= k.log && k.c.runtimes.Keys == old(k.c.runtimes.Keys) - {t}
    ensures Duel(k.c, k.config, d, t)
    ensures Requesting(k.c, d, t, Phase.WaitingForGPU, ReplacementPhase.Draining)
    ensures Leaving(k.c, d, t, Phase.Deactivating)
  {
    hide LogOk;
    k.Step(GoneEvent(t));
  }

  method Succeed(k: Controller, d: Ref, t: Ref)
    requires k.Valid() && Duel(k.c, k.config, d, t) && d !in k.c.runtimes && SlotLeft(k.c, d, t)
    requires Requesting(k.c, d, t, Phase.WaitingForGPU, ReplacementPhase.Draining)
    modifies k
    ensures k.Valid() && old(k.log) <= k.log
    ensures Live(k.c, d) && t !in k.c.runtimes
    ensures d in k.c.deployments && Serving(k.c.deployments[d].status) && k.c.deployments[d].status.replacement.Some?
    ensures Current(k.c, d).phase.Succeeded? && Current(k.c, d).target == Some(t)
  {
    hide LogOk, ReconcileOutcome;
    ghost var before := k.c;
    k.Step(ReconcileEvent(d, Calm, 4));
    RequesterTakesOver(before, k.c, k.config, d, t);
    BecomeReady(k, d, t);
  }

  method BecomeReady(k: Controller, d: Ref, t: Ref)
    requires k.Valid() && Duel(k.c, k.config, d, t)
    requires Requesting(k.c, d, t, Phase.Activating, ReplacementPhase.Activating)
    requires d in k.c.runtimes && k.c.runtimes[d].replicas == 1 && t !in k.c.runtimes
    modifies k
    ensures k.Valid() && old(k.log) <= k.log
    ensures Live(k.c, d) && t !in k.c.runtimes
    ensures d in k.c.deployments && Serving(k.c.deployments[d].status) && k.c.deployments[d].status.replacement.Some?
    ensures Current(k.c, d).phase.Succeeded? && Current(k.c, d).target == Some(t)
  {
    hide LogOk, ReconcileOutcome, Duel;
    ReportKeepsSlot(k.c, k.config, d, t, true, false);
    k.Step(ReportEvent(d, true, false));
    ghost var before := k.c;
    k.Step(ReconcileEvent(d, Calm, 4));
    RequesterServes(before, k.c, k.config, d, t);
  }

  // ---------- the failed takeover ----------

  /** t gave way to d and waits: marked by d, nothing running, no node. */
  ghost predicate Waiting(c: Cluster, d: Ref, t: Ref) {
    && t in c.deployments && RequestedBy(c, t, d) && c.deployments[t].status.replacement.value.target.None?
    && t !in c.runtimes && c.deployments[t].status.phase.Cached?
  }

  ghost predicate RollingBack(c: Cluster, d: Ref, t: Ref)
    requires d in c.deployments
  {
    var x := c.deployments[d];
    && x.status.phase.Deactivating? && x.status.assignedNode != ""
    && x.status.replacement.Some? && x.status.replacement.value.phase.RollingBack?
    && x.status.replacement.value.target == Some(t) && x.status.replacement.value.requestedBy.None?
  }

  /** A failed runtime turns the takeover into a rollback that keeps the slot reserved. */
  lemma FailureBeginsRollback(c: Cluster, c': Cluster, config: Config, d: Ref, t: Ref)
    requires Duel(c, config, d, t)
    requires Requesting(c, d, t, Phase.Activating, ReplacementPhase.Activating) && Waiting(c, d, t)
    requires d in c.runtimes && c.runtimes[d].replicas == 1 && !c.runtimes[d].ready && c.runtimes[d].failed
    requires ReconcileOutcome(c, c', config, d, Calm)
    ensures Duel(c', config, d, t) && RollingBack(c', d, t) && Waiting(c', d, t)
  {
    InDuel(c, config, d, t);
    RequesterActivates(c, c', config, d, t);
    var status := TakingOver(Validated(c.deployments[d], true)).(drainStarted := false);
    ActivatedField(c, d, t, d, status);
    hide ReconcileOutcome, Duel, SameField;
    DuelGoesOn(c, c', config, d, t);
    hide Activated;
    FailedTakeover(c, d, t, status);
  }

  lemma FailedTakeover(c: Cluster, d: Ref, t: Ref, status: Status)
    requires d in c.deployments && d in c.runtimes && c.runtimes[d].replicas == 1
    requires !c.runtimes[d].ready && c.runtimes[d].failed
    requires Reserves(status.replacement) && status.replacement.value.target == Some(t)
    requires status.replacement.value.requestedBy.None?
    requires c.deployments[d].spec.slot.node != ""
    ensures RollingBack(Activated(c, d, status, false), d, t)
  {}

  /** With the requester's runtime gone, the displaced model finds its slot free. */
  lemma RestoredSeesFreeSlot(c: Cluster, config: Config, d: Ref, t: Ref)
    requires Duel(c, config, d, t) && RollingBack(c, d, t) && d !in c.runtimes
    ensures Clear(c, t)
  {
    assert RollingBackTo(c.deployments[d].status, t);
  }

  lemma OutcomeReturns(c: Cluster, c': Cluster, config: Config, d: Ref, t: Ref)
    requires Duel(c, config, d, t) && RollingBack(c, d, t) && d !in c.runtimes
    requires RequestedBy(c, t, d) && c.deployments[t].status.replacement.value.target.None?
    requires c.deployments[t].status.phase.Cached? || c.deployments[t].status.phase.Activating?
    requires ReconcileOutcome(c, c', config, t, Calm)
    ensures c' == Activated(c, t, ActivationStatus(c, t, Validated(c.deployments[t], true)), false)
  {
    hide Activated, Placeable, Bystanders, Yielded;
    var status := Validated(c.deployments[t], true);
    RestoredSeesFreeSlot(c, config, d, t);
    assert RestoredBy(c, t, status) && !IsDisplaced(c, t, status);
    assert MayActivate(c, t, Undisplaced(c, t, status));
  }

  lemma ReturnedInDuel(c: Cluster, config: Config, d: Ref, t: Ref)
    requires Duel(c, config, d, t) && RollingBack(c, d, t) && d !in c.runtimes && RequestedBy(c, t, d)
    requires c.deployments[t].status.replacement.value.target.None?
    ensures var c' := Activated(c, t, ActivationStatus(c, t, Validated(c.deployments[t], true)), false);
      Duel(c', config, d, t) && RollingBack(c', d, t) && d !in c'.runtimes
  {
    hide Duel, SameField, Activated;
    InDuel(c, config, d, t);
    var status := ActivationStatus(c, t, Validated(c.deployments[t], true));
    ActivatedField(c, d, t, t, status);
    DuelGoesOn(c, Activated(c, t, status, false), config, d, t);
  }

  lemma ReturnedReports(c: Cluster, d: Ref, t: Ref)
    requires d in c.deployments && t in c.deployments && d != t && d.namespace == t.namespace
    requires RollingBack(c, d, t) && c.deployments[t].spec.active
    requires RequestedBy(c, t, d) && c.deployments[t].status.replacement.value.target.None?
    requires c.deployments[t].spec.slot.node != ""
    requires c.deployments[t].status.phase.Cached? || c.deployments[t].status.phase.Activating?
    requires t in c.runtimes ==> c.runtimes[t].replicas == 1 && c.runtimes[t].ready
    ensures var c' := Activated(c, t, ActivationStatus(c, t, Validated(c.deployments[t], true)), false);
      && RequestedBy(c', t, d) && c'.deployments[t].status.replacement.value.target.None?
      && Live(c', t) && c'.runtimes[t].replicas == 1
      && if t in c.runtimes then Serving(c'.deployments[t].status) else c'.deployments[t].status.phase.Activating?
  {
    assert RestoredBy(c, t, Validated(c.deployments[t], true));
  }

  /** One calm reconcile of the displaced model during the rollback: it runs, or reports what runs. */
  lemma TargetReturns(c: Cluster, c': Cluster, config: Config, d: Ref, t: Ref)
    requires Duel(c, config, d, t) && RollingBack(c, d, t) && d !in c.runtimes
    requires RequestedBy(c, t, d) && c.deployments[t].status.replacement.value.target.None?
    requires c.deployments[t].status.phase.Cached? || c.deployments[t].status.phase.Activating?
    requires t in c.runtimes ==> c.runtimes[t].replicas == 1 && c.runtimes[t].ready
    requires ReconcileOutcome(c, c', config, t, Calm)
    ensures Duel(c', config, d, t) && RollingBack(c', d, t) && d !in c'.runtimes
    ensures RequestedBy(c', t, d) && c'.deployments[t].status.replacement.value.target.None?
    ensures Live(c', t) && c'.runtimes[t].replicas == 1
    ensures if t in c.runtimes then Serving(c'.deployments[t].status) else c'.deployments[t].status.phase.Activating?
  {
    hide ReconcileOutcome, Duel, RollingBack, Activated, ActivationStatus;
    InDuel(c, config, d, t);
    OutcomeReturns(c, c', config, d, t);
    ReturnedInDuel(c, config, d, t);
    ReturnedReports(c, d, t);
  }

  /** Once the displaced model serves again the rollback ends. */
  lemma RollbackEnds(c: Cluster, c': Cluster, config: Config, d: Ref, t: Ref)
    requires Duel(c, config, d, t) && RollingBack(c, d, t) && d !in c.runtimes
    requires RequestedBy(c, t, d) && c.deployments[t].status.phase.Active?
    requires ReconcileOutcome(c, c', config, d, Calm)
    ensures c'.runtimes == c.runtimes
    ensures t in c'.deployments && Serving(c'.deployments[t].status) == Serving(c.deployments[t].status)
    ensures d in c'.deployments && c'.deployments[d].status.replacement.Some? && Current(c', d).phase.RolledBack?
    ensures c'.deployments[d].status.assignedNode == ""
  {
    var status := Validated(c.deployments[d], true);
    assert !IsDisplaced(c, d, status) && Undisplaced(c, d, status) == status;
    assert Restored(c, d, t);
    assert RollbackAdvanced(c, c', d, status.replacement.value);
  }

  /** A takeover whose runtime fails gives the slot back: the displaced model serves again and the
      requester ends as RolledBack without a node. */
  method Rollback(k: Controller, d: Ref, t: Ref)
    requires k.Valid() && Duel(k.c, k.config, d, t) && Waiting(k.c, d, t)
    requires Requesting(k.c, d, t, Phase.Activating, ReplacementPhase.Activating)
    requires d in k.c.runtimes && k.c.runtimes[d].replicas == 1
    modifies k
    ensures k.Valid() && old(k.log) <= k.log
    ensures t in k.c.deployments && Serving(k.c.deployments[t].status) && Live(k.c, t)
    ensures d in k.c.deployments && k.c.deployments[d].status.replacement.Some? && Current(k.c, d).phase.RolledBack?
    ensures k.c.deployments[d].status.assignedNode == ""
  {
    hide LogOk, ReconcileOutcome, Duel, Requesting;
    Fail(k, d, t);
    Clean(k, d, t);
    Restore(k, d, t);
  }

  /** The requester's runtime reports failure and the requester is reconciled. */
  method Fail(k: Controller, d: Ref, t: Ref)
    requires k.Valid() && Duel(k.c, k.config, d, t) && Waiting(k.c, d, t)
    requires Requesting(k.c, d, t, Phase.Activating, ReplacementPhase.Activating)
    requires d in k.c.runtimes && k.c.runtimes[d].replicas == 1
    modifies k
    ensures k.Valid() && old(k.log) <= k.log
    ensures Duel(k.c, k.config, d, t) && RollingBack(k.c, d, t) && Waiting(k.c, d, t)
  {
    hide LogOk, ReconcileOutcome, Duel;
    ghost var before := k.c;
    k.Step(ReportEvent(d, false, true));
    ReportKeepsSlot(before, k.config, d, t, false, true);
    before := k.c;
    k.Step(ReconcileEvent(d, Calm, 4));
    FailureBeginsRollback(before, k.c, k.config, d, t);
  }

  lemma ReportKeepsSlot(c: Cluster, config: Config, d: Ref, t: Ref, ready: bool, failed: bool)
    requires Duel(c, config, d, t) && d in c.runtimes
    ensures Duel(Moved(c, ReportEvent(d, ready, failed)), config, d, t)
  {
    DuelGoesOn(c, Moved(c, ReportEvent(d, ready, failed)), config, d, t);
  }

  /** The failed runtime is gone. */
  method Clean(k: Controller, d: Ref, t: Ref)
    requires k.Valid() && Duel(k.c, k.config, d, t) && RollingBack(k.c, d, t) && Waiting(k.c, d, t)
    modifies k
    ensures k.Valid() && old(k.log) <= k.log
    ensures Returning(k.c, k.config, d, t) && t !in k.c.runtimes && k.c.deployments[t].status.phase.Cached?
  {
    hide LogOk;
    ghost var before := k.c;
    k.Step(GoneEvent(d));
    assert SameField(before, k.c, d, t);
    DuelGoesOn(before, k.c, k.config, d, t);
  }

  /** The displaced model, asked back, with a runtime that is absent or ready. */
  ghost predicate Returning(c: Cluster, config: Config, d: Ref, t: Ref) {
    && d in c.deployments && t in c.deployments
    && Duel(c, config, d, t) && RollingBack(c, d, t) && d !in c.runtimes
    && RequestedBy(c, t, d) && c.deployments[t].status.replacement.value.target.None?
  }

  method Return(k: Controller, d: Ref, t: Ref)
    requires k.Valid() && Returning(k.c, k.config, d, t)
    requires k.c.deployments[t].status.phase.Cached? || k.c.deployments[t].status.phase.Activating?
    requires t in k.c.runtimes ==> k.c.runtimes[t].replicas == 1 && k.c.runtimes[t].ready
    modifies k
    ensures k.Valid() && old(k.log) <= k.log
    ensures Returning(k.c, k.config, d, t) && Live(k.c, t) && k.c.runtimes[t].replicas == 1
    ensures if t in old(k.c.runtimes) then Serving(k.c.deployments[t].status)
            else k.c.deployments[t].status.phase.Activating?
  {
    hide LogOk, ReconcileOutcome;
    ghost var before := k.c;
    k.Step(ReconcileEvent(t, Calm, 4));
    TargetReturns(before, k.c, k.config, d, t);
  }

  lemma ReportKeepsDuel(c: Cluster, config: Config, d: Ref, t: Ref)
    requires Returning(c, config, d, t) && Live(c, t)
    ensures Returning(Moved(c, ReportEvent(t, true, false)), config, d, t)
  {}

  method Restore(k: Controller, d: Ref, t: Ref)
    requires k.Valid() && Returning(k.c, k.config, d, t)
    requires t !in k.c.runtimes && k.c.deployments[t].status.phase.Cached?
    modifies k
    ensures k.Valid() && old(k.log) <= k.log
    ensures t in k.c.deployments && Serving(k.c.deployments[t].status) && Live(k.c, t)
    ensures d in k.c.deployments && k.c.deployments[d].status.replacement.Some? && Current(k.c, d).phase.RolledBack?
    ensures k.c.deployments[d].status.assignedNode == ""
  {
    hide LogOk, ReconcileOutcome, Duel;
    Return(k, d, t);
    Serve(k, d, t);
    ghost var before := k.c;
    k.Step(ReconcileEvent(d, Calm, 4));
    RollbackEnds(before, k.c, k.config, d, t);
  }

  method Serve(k: Controller, d: Ref, t: Ref)
    requires k.Valid() && Returning(k.c, k.config, d, t) && Live(k.c, t) && k.c.runtimes[t].replicas == 1
    requires k.c.deployments[t].status.phase.Activating?
    modifies k
    ensures k.Valid() && old(k.log) <= k.log
    ensures Returning(k.c, k.config, d, t) && Live(k.c, t) && Serving(k.c.deployments[t].status)
  {
    hide LogOk, ReconcileOutcome, Duel, RollingBack;
    ReportKeepsDuel(k.c, k.config, d, t);
    k.Step(ReportEvent(t, true, false));
    Return(k, d, t);
  }
}
