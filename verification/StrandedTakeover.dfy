/** A takeover that cannot go on: when the slot has been left but the requester's pod fits nowhere, the
    displaced model waits for a requester that will never move again. */
module StrandedTakeover {
  import opened Wrappers
  import opened GpuPlanner
  import opened Deployments
  import opened SlotSafety
  import opened ReplacementRuns
  import opened Lifecycle
  import opened TakeoverRun

  /** d failed for good in the middle of taking t's slot over, and t still answers to d. */
  ghost predicate Stranded(c: Cluster, d: Ref, t: Ref) {
    && d in c.deployments && t in c.deployments && d != t && d.namespace == t.namespace
    && FailedTaking(c.deployments[d], t)
    && c.deployments[t].spec.active && RequestedBy(c, t, d)
    && c.deployments[t].status.replacement.value.target.None?
    && !EditedAfterFailure(c.deployments[t])
  }

  predicate FailedTaking(x: Deployment, t: Ref) {
    && x.status.phase.Failed? && x.status.readyReason.OtherReason? && !x.status.validationFailed
    && x.generation == x.status.observedGeneration
    && x.status.replacement.Some? && x.status.replacement.value.phase.Activating?
    && x.status.replacement.value.target == Some(t) && x.status.replacement.value.requestedBy.None?
  }

  /** t is displaced: none of its reconciles gets as far as a reservation. */
  lemma StrandedIsDisplaced(c: Cluster, d: Ref, t: Ref, valid: bool)
    requires Stranded(c, d, t)
    ensures IsDisplaced(c, t, Validated(c.deployments[t], valid))
  {}

  // ---------- how it comes about ----------

  /** A takeover whose target has left strands as soon as the requester's pod fails its preflight; by then
      neither of the two holds the slot. */
  lemma UnfitPodStrands(c: Cluster, c': Cluster, config: Config, d: Ref, t: Ref, preflight: Preflight)
    requires Duel(c, config, d, t) && Requesting(c, d, t, Phase.WaitingForGPU, ReplacementPhase.Draining)
    requires SlotLeft(c, d, t) && RequestedBy(c, t, d) && c.deployments[t].status.replacement.value.target.None?
    requires !preflight.NodeFits? && ReconcileOutcome(c, c', config, d, Calm.(preflight := preflight))
    ensures Stranded(c', d, t)
    ensures !Holds(c'.deployments[d].status) && !Holds(c'.deployments[t].status) && t !in c'.runtimes
  {
    hide Placeable, Single, Bystanders;
    var status := Validated(c.deployments[d], true);
    RequesterSeesFreeSlot(c, config, d, t);
    assert !IsDisplaced(c, d, status) && Undisplaced(c, d, status) == status && MayActivate(c, d, status);
    assert c' == ActivationOutcome(c, d, TakingOver(status).(drainStarted := false), Calm.(preflight := preflight));
  }

  // ---------- that it stays ----------

  lemma RequesterStaysStranded(c: Cluster, c': Cluster, config: Config, d: Ref, t: Ref, o: Observed)
    requires Stranded(c, d, t) && o.valid && ReconcileOutcome(c, c', config, d, o)
    ensures Stranded(c', d, t) && c'.deployments[d].status.assignedNode == ""
  {
    var status := Validated(c.deployments[d], true);
    assert c' == WithStatus(DeletionRequested(c, d), d, Terminal(status));
  }

  /** Whatever a reconcile of the displaced model observes, it goes on waiting. */
  lemma TargetStaysStranded(c: Cluster, c': Cluster, config: Config, d: Ref, t: Ref, o: Observed)
    requires Stranded(c, d, t) && ReconcileOutcome(c, c', config, t, o)
    ensures Stranded(c', d, t)
  {
    StrandedIsDisplaced(c, d, t, o.valid);
    var status := Validated(c.deployments[t], o.valid);
    assert Answers(status, d, c.deployments[t].generation);
    if status.phase.Failed? && !status.readyReason.CacheFailed? {
      MarkStays(c, c', d, t, Terminal(status));
    } else if !o.conflict.NoConflict? {
      MarkStays(c, c', d, t, c'.deployments[t].status);
    } else if o.cache.CacheReady? {
      YieldedAnswers(c, d, t, status, o.drained);
      MarkStays(c, c', d, t, c'.deployments[t].status);
    } else {
      MarkStays(c, c', d, t, c'.deployments[t].status);
    }
  }

  /** A status that answers to d and has observed the given generation. */
  predicate Answers(status: Status, d: Ref, generation: int) {
    && status.replacement.Some? && status.replacement.value.requestedBy == Some(d)
    && status.replacement.value.target.None? && status.observedGeneration == generation
  }

  lemma MarkStays(c: Cluster, c': Cluster, d: Ref, t: Ref, next: Status)
    requires Stranded(c, d, t) && Answers(next, d, c.deployments[t].generation)
    requires c' == WithStatus(c, t, next) || c' == WithStatus(DeletionRequested(c, t), t, next)
    ensures Stranded(c', d, t)
  {}

  /** Giving way keeps the mark. */
  lemma YieldedAnswers(c: Cluster, d: Ref, t: Ref, status: Status, drained: bool)
    requires t in c.deployments && IsDisplaced(c, t, status) && Answers(status, d, c.deployments[t].generation)
    ensures OnlyAnswers(c, Yielded(c, t, status, drained), d, t)
  {
    hide Deactivated, OnlyAnswers;
    var stage := c.deployments[status.replacement.value.requestedBy.value].status.replacement.value.phase;
    if stage.Draining? {
      var draining := status.(replacement := InPhase(status.replacement, ReplacementPhase.Draining));
      DeactivatedAnswers(c, d, t, draining, drained);
    } else if stage.Activating? && (t in c.runtimes || status.assignedNode != "") {
      DeactivatedAnswers(c, d, t, status, drained);
    } else {
      StatusAnswers(c, d, t, Yielded(c, t, status, drained).deployments[t].status);
    }
  }

  /** Nothing but t's status is written, after asking for its runtime's deletion or not, and it answers to d. */
  ghost predicate OnlyAnswers(c: Cluster, c': Cluster, d: Ref, t: Ref) {
    && t in c.deployments && t in c'.deployments
    && Answers(c'.deployments[t].status, d, c.deployments[t].generation)
    && (c' == WithStatus(c, t, c'.deployments[t].status)
        || c' == WithStatus(DeletionRequested(c, t), t, c'.deployments[t].status))
  }

  lemma StatusAnswers(c: Cluster, d: Ref, t: Ref, next: Status)
    requires t in c.deployments && Answers(next, d, c.deployments[t].generation)
    ensures OnlyAnswers(c, WithStatus(c, t, next), d, t)
    ensures OnlyAnswers(c, WithStatus(DeletionRequested(c, t), t, next), d, t)
  {}

  lemma DeactivatedAnswers(c: Cluster, d: Ref, t: Ref, status: Status, drained: bool)
    requires t in c.deployments && Answers(status, d, c.deployments[t].generation)
    ensures OnlyAnswers(c, Deactivated(c, t, status, drained), d, t)
  {
    hide OnlyAnswers;
    StatusAnswers(c, d, t, Deactivated(c, t, status, drained).deployments[t].status);
  }

  /** The world moving on changes nothing either, short of a user touching one of the two. */
  lemma WorldKeepsStranded(c: Cluster, config: Config, e: Event, d: Ref, t: Ref)
    requires Local(c) && Stranded(c, d, t) && Admissible(c, config, e)
    requires e.EditEvent? || e.RemoveEvent? ==> e.d != d && e.d != t
    ensures Stranded(Moved(c, e), d, t)
  {
    assert d in c.known && t in c.known;
  }

  // ---------- what ends it ----------

  /** Deleting the requester sets the displaced model free. */
  lemma DeletionFrees(c: Cluster, d: Ref, t: Ref, valid: bool)
    requires Stranded(c, d, t)
    ensures !IsDisplaced(WithoutDeployment(c, d), t, Validated(c.deployments[t], valid))
  {}

  /** So does editing the requester: its next valid reconcile, whatever it observes, forgets the
      transaction, and can open a new one only against a serving deployment. */
  lemma EditFrees(c: Cluster, c': Cluster, config: Config, d: Ref, t: Ref,
                  active: bool, whenFull: WhenFull, priority: int, o: Observed)
    requires Stranded(c, d, t) && !c.deployments[t].status.phase.Active?
    requires Single(c.nodes, c.deployments[d].spec.slot)
    requires o.valid && ReconcileOutcome(Edited(c, d, active, whenFull, priority), c', config, d, o)
    ensures d in c'.deployments && TargetOf(c'.deployments[d].status) != Some(t)
    ensures forall status: Status | status.replacement == c.deployments[t].status.replacement ::
      !IsDisplaced(c', t, status)
  {
    hide ReconcileOutcome, Single;
    ForgottenStaysForgotten(Edited(c, d, active, whenFull, priority), c', config, d, t, o);
  }

  /** A deployment that starts without a transaction ends with none against a deployment that is not serving. */
  lemma ForgottenStaysForgotten(c: Cluster, c': Cluster, config: Config, d: Ref, t: Ref, o: Observed)
    requires d in c.deployments && Single(c.nodes, c.deployments[d].spec.slot) && o.valid
    requires t in c.deployments ==> !c.deployments[t].status.phase.Active?
    requires var status := Validated(c.deployments[d], true);
      status.replacement.None? && !status.phase.Failed?
    requires ReconcileOutcome(c, c', config, d, o)
    ensures d in c'.deployments && TargetOf(c'.deployments[d].status) != Some(t)
  {
    hide Clear, Placeable, Single, Eligible, RefusedOutcome, ActivationOutcome, Validated, Yielded;
    var status := Validated(c.deployments[d], true);
    assert !IsDisplaced(c, d, status) && Undisplaced(c, d, status) == status && MayActivate(c, d, status);
    if o.conflict.NoConflict? && o.cache.CacheReady? && c.deployments[d].spec.active && !o.idle {
      var next := status.(drainStarted := false);
      if Clear(c, d) && Placeable(c, config, d) {
        ActivatedForgotten(c, d, next, o);
      } else {
        RefusedForgotten(c, c', d, t, next);
      }
    }
  }

  lemma ActivatedForgotten(c: Cluster, d: Ref, status: Status, o: Observed)
    requires d in c.deployments && status.replacement.None?
    ensures var c' := ActivationOutcome(c, d, status, o);
      d in c'.deployments && c'.deployments[d].status.replacement.None?
  {}

  lemma RefusedForgotten(c: Cluster, c': Cluster, d: Ref, t: Ref, status: Status)
    requires d in c.deployments && status.replacement.None? && RefusedOutcome(c, c', d, status)
    requires t in c.deployments ==> !c.deployments[t].status.phase.Active?
    ensures d in c'.deployments && TargetOf(c'.deployments[d].status) != Some(t)
  {
    var freed, idle := DeletionRequested(c, d), status.(assignedNode := "");
    if IsReplacementPolicy(c.deployments[d].spec.whenFull) && exists e <- freed.deployments :: Eligible(freed, d, e) {
      var u :| TransactionOpened(freed, c', d, idle, u);
      assert u != t && u != d;
      OpenedTargets(freed, d, idle, u);
    }
  }

  lemma OpenedTargets(c: Cluster, d: Ref, status: Status, u: Ref)
    requires d in c.deployments && u in c.deployments && u != d
    ensures var c' := Marked(Started(c, d, status, u), u, d);
      && d in c'.deployments
      && (TargetOf(c'.deployments[d].status) == Some(u) || TargetOf(c'.deployments[d].status) == None)
  {}

  /** Any number of reconciles of the two, the requester's valid: the displaced model keeps waiting. */
  method Wait(k: Controller, d: Ref, t: Ref, turns: seq<(bool, Observed)>)
    requires k.Valid() && Stranded(k.c, d, t)
    modifies k
    ensures k.Valid() && old(k.log) <= k.log && Stranded(k.c, d, t)
  {
    hide LogOk, ReconcileOutcome;
    for i := 0 to |turns|
      invariant k.Valid() && old(k.log) <= k.log && Stranded(k.c, d, t)
    {
      ghost var before := k.c;
      var o := turns[i].1;
      if turns[i].0 {
        k.Step(ReconcileEvent(d, o.(valid := true), 4));
        RequesterStaysStranded(before, k.c, k.config, d, t, o.(valid := true));
      } else {
        k.Step(ReconcileEvent(t, o, 4));
        TargetStaysStranded(before, k.c, k.config, d, t, o);
      }
    }
  }
}
