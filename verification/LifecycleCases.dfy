/** What an uninterrupted reconcile of the deployment controller comes to, case by case and field by field. */
module LifecycleCases {
  import opened Wrappers
  import opened GpuPlanner
  import opened Deployments
  import opened SlotSafety
  import opened ReplacementRuns
  import opened Lifecycle

  // ---------- the writes ----------

  /** y after its requester lets it go: a drain goes on only if it is wanted without the requester, too. */
  ghost predicate LetGo(y: Deployment, y': Deployment) {
    y' == y.(status := Status(y.status.phase, y.status.assignedNode, None, y.status.observedGeneration,
                              if y.spec.active then false else y.status.drainStarted,
                              y.status.readyReason, y.status.validationFailed))
  }

  /** e is the deployment that d's transaction named, and it answers to d. */
  ghost predicate Answering(c: Cluster, target: Option<Ref>, d: Ref, e: Ref)
    requires e in c.deployments
  {
    var r := c.deployments[e].status.replacement;
    target == Some(e) && e.namespace == d.namespace && r.Some? && r.value.requestedBy == Some(d)
  }

  /** d is stored with status `next`; of the others only a target that answers to d changes, and is let go. */
  ghost predicate Stored(c: Cluster, c': Cluster, d: Ref, next: Status, target: Option<Ref>)
    requires d in c.deployments
  {
    && c'.deployments.Keys == c.deployments.Keys && c'.deployments[d] == c.deployments[d].(status := next)
    && (forall e <- c.deployments | e != d ::
          if Answering(c, target, d, e) then LetGo(c.deployments[e], c'.deployments[e])
          else c'.deployments[e] == c.deployments[e])
    && c'.nodes == c.nodes && c'.known == c.known && c'.clock == c.clock
  }

  /** The deletion of d's runtime is under way, and no other runtime has changed. */
  ghost predicate Stopping(c: Cluster, c': Cluster, d: Ref) {
    && c'.runtimes.Keys == c.runtimes.Keys
    && (forall e <- c.runtimes | e != d :: c'.runtimes[e] == c.runtimes[e])
    && (d in c.runtimes ==>
          var r := c.runtimes[d];
          c'.runtimes[d] == Runtime(r.slot, r.replicas, r.ready, r.failed, true))
  }

  lemma WithdrawnIsStored(c: Cluster, d: Ref, target: Option<Ref>, next: Status)
    requires d in c.deployments && target != Some(d)
    ensures var c' := WithStatus(DeletionRequested(Released(c, target, d), d), d, next);
      Stored(c, c', d, next, target) && Stopping(c, c', d)
  {}

  lemma OwnTargetIsAnother(c: Cluster, d: Ref)
    requires Local(c) && d in c.deployments
    ensures TargetOf(c.deployments[d].status) != Some(d)
  {
    assert StatusOk(c, d, c.deployments[d].spec.slot, c.deployments[d].status);
  }

  // ---------- validation ----------

  /** Failed before, and since then either edited or blocked by a spec that is now valid. */
  ghost predicate Retried(x: Deployment) {
    x.status.phase == Phase.Failed && (x.status.validationFailed || x.generation > x.status.observedGeneration)
  }

  /** What a valid deployment goes on with: a new or retried one starts over, and an edit after a failure
      also forgets the transaction. */
  ghost predicate Enters(x: Deployment, s: Status) {
    && s.assignedNode == x.status.assignedNode && s.drainStarted == x.status.drainStarted
    && s.observedGeneration == x.generation && !s.validationFailed
    && (if x.status.phase == Phase.Unset || Retried(x)
        then s.phase == Phase.Pending && s.readyReason == OtherReason
        else s.phase == x.status.phase && s.readyReason == x.status.readyReason)
    && s.replacement == (if x.status.phase == Phase.Failed && x.generation > x.status.observedGeneration
                         then None else x.status.replacement)
  }

  lemma ValidatedEnters(x: Deployment)
    ensures Enters(x, Validated(x, true))
  {}

  /** An invalid spec fails the deployment for good: node, runtime and its own transaction are given up, and
      the transaction's target is let go. */
  lemma InvalidSpecFails(c: Cluster, c': Cluster, config: Config, d: Ref, o: Observed)
    requires Local(c) && d in c.deployments && !o.valid && ReconcileOutcome(c, c', config, d, o)
    ensures var x := c.deployments[d]; var r := x.status.replacement;
      var target := if r.Some? then r.value.target else None;
      var next := Status(Phase.Failed, "", if target.Some? then None else r, x.generation, x.status.drainStarted,
                         OtherReason, true);
      Stored(c, c', d, next, target) && Stopping(c, c', d)
  {
    OwnTargetIsAnother(c, d);
    var status := Validated(c.deployments[d], false);
    WithdrawnIsStored(c, d, TargetOf(status), Terminal(status));
  }

  /** A failure that no edit followed stays, with the transaction it ended in, but gives up the node. */
  lemma FailureStays(c: Cluster, c': Cluster, config: Config, d: Ref, o: Observed)
    requires d in c.deployments && o.valid && ReconcileOutcome(c, c', config, d, o)
    requires var x := c.deployments[d];
      x.status.phase == Phase.Failed && !Retried(x) && x.status.readyReason != CacheFailed
    ensures var x := c.deployments[d];
      var next := Status(Phase.Failed, "", x.status.replacement, x.generation, x.status.drainStarted,
                         OtherReason, false);
      Stored(c, c', d, next, None) && Stopping(c, c', d)
  {
    WithdrawnIsStored(c, d, None, Terminal(Validated(c.deployments[d], true)));
  }

  // ---------- resources and cache ----------

  /** The reconcile of a valid deployment gets past validation with status s. */
  ghost predicate Goes(c: Cluster, d: Ref, o: Observed, s: Status) {
    && d in c.deployments && o.valid && Enters(c.deployments[d], s)
    && (s.phase == Phase.Failed ==> s.readyReason == CacheFailed)
  }

  lemma GoesAsValidated(c: Cluster, d: Ref, o: Observed, s: Status)
    requires Goes(c, d, o, s)
    ensures s == Validated(c.deployments[d], o.valid) && !(s.phase.Failed? && !s.readyReason.CacheFailed?)
  {
    ValidatedEnters(c.deployments[d]);
  }

  /** A conflicting resource fails the deployment and stops its runtime; node and transaction stay. */
  lemma ConflictFails(c: Cluster, c': Cluster, config: Config, d: Ref, o: Observed, s: Status)
    requires Goes(c, d, o, s) && o.conflict != NoConflict && ReconcileOutcome(c, c', config, d, o)
    ensures var reason := if o.conflict == CacheConflict then CacheFailed else OtherReason;
      Stored(c, c', d, s.(phase := Phase.Failed, readyReason := reason), None) && Stopping(c, c', d)
  {
    GoesAsValidated(c, d, o, s);
  }

  /** A cache object just created: the deployment waits, and nothing else happens. */
  lemma NewCacheIsAwaited(c: Cluster, c': Cluster, config: Config, d: Ref, o: Observed, s: Status)
    requires Goes(c, d, o, s) && o.conflict == NoConflict && o.cache == CacheCreated
    requires ReconcileOutcome(c, c', config, d, o)
    ensures Stored(c, c', d, s.(phase := Phase.Pending, readyReason := OtherReason), None)
    ensures c'.runtimes == c.runtimes
  {
    GoesAsValidated(c, d, o, s);
  }

  /** Without a ready cache there is no runtime, no node and no transaction, and the target of one is let go. */
  lemma MissingCacheWithdraws(c: Cluster, c': Cluster, config: Config, d: Ref, o: Observed, s: Status)
    requires Local(c) && Goes(c, d, o, s) && o.conflict == NoConflict && ReconcileOutcome(c, c', config, d, o)
    requires o.cache in {CacheBroken, CacheDownloading, CachePending}
    ensures var target := if s.replacement.Some? then s.replacement.value.target else None;
      var next := s.(
        phase := if o.cache == CacheBroken then Phase.Failed
                 else if o.cache == CacheDownloading then Phase.Downloading else Phase.Pending,
        readyReason := if o.cache == CacheBroken then CacheFailed else OtherReason,
        assignedNode := "", replacement := if target.Some? then None else s.replacement);
      Stored(c, c', d, next, target) && Stopping(c, c', d)
  {
    GoesAsValidated(c, d, o, s);
    OwnTargetIsAnother(c, d);
    WithdrawnIsStored(c, d, TargetOf(s), WithoutCache(s, o.cache));
  }

  // ---------- who is displaced, and who may go on ----------

  /** d is wanted, and in the transaction of the deployment it answers to, which is of its namespace and names
      it as the target. */
  ghost predicate Claimed(c: Cluster, d: Ref, s: Status, r: Ref, phase: ReplacementPhase) {
    && d in c.deployments && c.deployments[d].spec.active
    && s.replacement.Some? && s.replacement.value.requestedBy == Some(r)
    && r in c.deployments && r.namespace == d.namespace
    && var own := c.deployments[r].status.replacement;
       own.Some? && own.value.target == Some(d) && own.value.phase == phase
  }

  /** A deployment is displaced exactly while some transaction drains it, takes its slot over, or has
      succeeded and its requester serves. */
  lemma DisplacedExactlyWhen(c: Cluster, d: Ref, s: Status)
    ensures IsDisplaced(c, d, s) <==> exists r: Ref ::
      || Claimed(c, d, s, r, ReplacementPhase.Draining)
      || Claimed(c, d, s, r, ReplacementPhase.Activating)
      || (Claimed(c, d, s, r, ReplacementPhase.Succeeded) && c.deployments[r].status.phase == Phase.Active)
  {
    if IsDisplaced(c, d, s) {
      var r := s.replacement.value.requestedBy.value;
      assert Claimed(c, d, s, r, c.deployments[r].status.replacement.value.phase);
    }
  }

  /** A deployment that is not displaced keeps answering only to a requester that gives the slot back. */
  lemma UndisplacedGoesOn(c: Cluster, d: Ref, s: Status)
    ensures var next, r := Undisplaced(c, d, s), s.replacement;
      if r.None? || r.value.requestedBy.None? then next == s
      else if exists q: Ref :: Claimed(c, d, s, q, ReplacementPhase.RollingBack)
      then next == s.(drainStarted := false, replacement := Some(r.value.(phase := ReplacementPhase.RollingBack)))
      else next == s.(replacement := None)
  {
    if RestoredBy(c, d, s) {
      assert Claimed(c, d, s, s.replacement.value.requestedBy.value, ReplacementPhase.RollingBack);
    }
  }

  /** The transaction's request stands: it was made for this generation, under a policy that replaces. */
  ghost predicate Standing(x: Deployment, r: Replacement) {
    && (r.requestGeneration <= 0 || r.requestGeneration == x.generation)
    && x.spec.whenFull in {ReplaceOldest, ReplaceLowestPriority}
  }

  /** The target is idle without node or runtime, and in nobody else's transaction. */
  ghost predicate Left(c: Cluster, d: Ref, t: Ref) {
    && t in c.deployments && t !in c.runtimes
    && var y := c.deployments[t].status;
    && y.assignedNode == "" && y.phase in {Phase.Cached, Phase.WaitingForGPU}
    && (y.replacement.Some? ==> y.replacement.value.requestedBy == Some(d))
  }

  /** A requester goes on to reserve the slot exactly when it has no transaction under way, or one whose request
      stands and that is already taking over or whose target has left. */
  lemma MayActivateExactlyWhen(c: Cluster, d: Ref, s: Status)
    requires d in c.deployments
    ensures MayActivate(c, d, s) <==>
      || s.replacement.None? || s.replacement.value.target.None?
      || s.replacement.value.phase in {Succeeded, Displaced, RolledBack, RollbackFailed}
      || (&& Standing(c.deployments[d], s.replacement.value)
          && (|| s.replacement.value.phase == ReplacementPhase.Activating
              || (&& s.replacement.value.phase == ReplacementPhase.Draining
                  && Left(c, d, s.replacement.value.target.value))))
  {}

  /** A reconcile that may not go on, of an active deployment that nobody displaces. */
  ghost predicate Held(c: Cluster, c': Cluster, config: Config, d: Ref, o: Observed, s: Status, r: Replacement) {
    && Goes(c, d, o, s) && o.conflict == NoConflict && o.cache == CacheReady && c.deployments[d].spec.active
    && s.replacement == Some(r) && r.target.Some? && r.requestedBy.None?
    && ReconcileOutcome(c, c', config, d, o)
  }

  lemma HeldAdvances(c: Cluster, c': Cluster, config: Config, d: Ref, o: Observed, s: Status, r: Replacement)
    requires Held(c, c', config, d, o, s, r) && !MayActivate(c, d, s)
    ensures Advanced(c, c', d, s)
  {
    GoesAsValidated(c, d, o, s);
  }

  /** A draining request that no longer stands is taken back: the requester queues without node or transaction,
      and the target is let go. */
  lemma WithdrawnRequestIsCanceled(c: Cluster, c': Cluster, config: Config, d: Ref, o: Observed, s: Status,
                                   r: Replacement)
    requires Local(c) && Held(c, c', config, d, o, s, r)
    requires r.phase == ReplacementPhase.Draining && !Standing(c.deployments[d], r)
    ensures var next := s.(phase := Phase.WaitingForGPU, assignedNode := "", replacement := None,
                           readyReason := OtherReason);
      Stored(c, c', d, next, r.target) && c'.runtimes == c.runtimes
  {
    hide Local, Enters, ReconcileOutcome, MayActivate, Canceled;
    MayActivateExactlyWhen(c, d, s);
    HeldAdvances(c, c', config, d, o, s, r);
    OwnTransaction(c, d, o, s);
    CanceledIsStored(c, d, s);
  }

  lemma OwnTransaction(c: Cluster, d: Ref, o: Observed, s: Status)
    requires Local(c) && Goes(c, d, o, s)
    ensures TargetOf(s) != Some(d)
  {
    OwnTargetIsAnother(c, d);
  }

  lemma CanceledIsStored(c: Cluster, d: Ref, s: Status)
    requires d in c.deployments && s.replacement.Some? && s.replacement.value.target != Some(d)
    ensures var next := s.(phase := Phase.WaitingForGPU, assignedNode := "", replacement := None,
                           readyReason := OtherReason);
      Stored(c, Canceled(c, d, s), d, next, s.replacement.value.target) && Canceled(c, d, s).runtimes == c.runtimes
  {}

  /** A takeover that no longer stands is rolled back: the runtime is deleted while the node stays reserved. */
  lemma WithdrawnTakeoverRollsBack(c: Cluster, c': Cluster, config: Config, d: Ref, o: Observed, s: Status,
                                   r: Replacement)
    requires Held(c, c', config, d, o, s, r)
    requires r.phase == ReplacementPhase.Activating && !Standing(c.deployments[d], r)
    ensures var rolling := Replacement(ReplacementPhase.RollingBack, r.requestGeneration, r.target, r.requestedBy,
                                       r.startedAt);
      Stored(c, c', d, s.(phase := Phase.Deactivating, replacement := Some(rolling)), None) && Stopping(c, c', d)
  {
    MayActivateExactlyWhen(c, d, s);
    HeldAdvances(c, c', config, d, o, s, r);
  }

  /** A draining target is given up exactly when it is gone, failed, or in another's transaction instead of
      serving; the requester then fails without a node. */
  lemma LostTargetFails(c: Cluster, c': Cluster, config: Config, d: Ref, o: Observed, s: Status, r: Replacement)
    requires Held(c, c', config, d, o, s, r)
    requires r.phase == ReplacementPhase.Draining && Standing(c.deployments[d], r) && !Left(c, d, r.target.value)
    ensures var t := r.target.value;
      var lost := t !in c.deployments || (
        var y := c.deployments[t]; var claim := y.status.replacement;
        || y.status.phase == Phase.Failed
        || (&& claim.Some? && claim.value.requestedBy != Some(d)
            && !(&& y.spec.active && y.status.phase == Phase.Active && claim.value.requestedBy == None
                 && claim.value.target != None && claim.value.phase == Succeeded)));
      d in c'.deployments && c'.deployments[d].status
        == if lost then Status(Phase.Failed, "", Some(r.(phase := RollbackFailed)), s.observedGeneration,
                               s.drainStarted, OtherReason, s.validationFailed)
           else s.(phase := Phase.WaitingForGPU, readyReason := OtherReason)
  {
    MayActivateExactlyWhen(c, d, s);
    HeldAdvances(c, c', config, d, o, s, r);
  }

  // ---------- activation ----------

  /** A deployment that nobody displaces, that is wanted and that goes on to reserve its slot as s'. */
  ghost predicate Activates(c: Cluster, c': Cluster, config: Config, d: Ref, o: Observed, s: Status, s': Status) {
    && Goes(c, d, o, s) && o.conflict == NoConflict && o.cache == CacheReady && c.deployments[d].spec.active
    && !IsDisplaced(c, d, s) && MayActivate(c, d, Undisplaced(c, d, s))
    && ReconcileOutcome(c, c', config, d, o)
    && var r := Undisplaced(c, d, s).replacement;
       s' == Undisplaced(c, d, s).(
         drainStarted := false,
         replacement := if r.Some? && r.value.target.Some? && r.value.phase == ReplacementPhase.Draining
                        then Some(r.value.(phase := ReplacementPhase.Activating)) else r)
  }

  lemma ActivatesAs(c: Cluster, c': Cluster, config: Config, d: Ref, o: Observed, s: Status, s': Status)
    requires Activates(c, c', config, d, o, s, s')
    ensures s' == ActivationStatus(c, d, s)
    ensures if o.idle then c' == IdleOutcome(c, d, s', o.buildFails) else ReservationOutcome(c, c', config, d, s', o)
  {
    GoesAsValidated(c, d, o, s);
  }

  /** An idle deployment keeps a runtime object without replicas and reports Cached. */
  lemma IdleKeepsNoReplica(c: Cluster, c': Cluster, config: Config, d: Ref, o: Observed, s: Status, s': Status)
    requires Activates(c, c', config, d, o, s, s') && o.idle && !o.buildFails
    ensures Stored(c, c', d, s'.(phase := Phase.Cached, readyReason := OtherReason), None)
    ensures c'.runtimes.Keys == c.runtimes.Keys + {d}
    ensures forall e <- c.runtimes | e != d :: c'.runtimes[e] == c.runtimes[e]
    ensures c'.runtimes[d] == if d in c.runtimes
      then Runtime(c.runtimes[d].slot, 0, false, c.runtimes[d].failed, c.runtimes[d].deleting)
      else Runtime(c.deployments[d].spec.slot, 0, false, false, false)
  {
    ActivatesAs(c, c', config, d, o, s, s');
  }

  /** d can be placed exactly when its cache's node is Ready and schedulable, carries the selected labels and d's
      GPU type, if it has one, and offers the resource. */
  lemma PlaceableExactlyWhen(c: Cluster, config: Config, d: Ref)
    requires d in c.deployments
    ensures Placeable(c, config, d) <==> exists n <- c.nodes ::
      && n.name == c.deployments[d].spec.slot.node
      && Compatible(config, Request(c.deployments[d].spec.slot.resource, 1, c.deployments[d].spec.gpuType,
                                    c.deployments[d].spec.slot.node), n)
  {
    NamedAre(c.nodes, c.deployments[d].spec.slot.node);
  }

  /** A node that cannot run the pod is given back, together with the runtime; only a queueing deployment waits
      for compute, any other one fails. */
  lemma UnfitNodeIsGivenBack(c: Cluster, c': Cluster, config: Config, d: Ref, o: Observed, s: Status, s': Status)
    requires Activates(c, c', config, d, o, s, s') && !o.idle && Grantable(c, config, d) && o.preflight != NodeFits
    ensures var waits := o.preflight == ComputeShort && c.deployments[d].spec.whenFull == Queue;
      var next := s'.(phase := if waits then Phase.WaitingForCapacity else Phase.Failed, assignedNode := "",
                      readyReason := OtherReason);
      Stored(c, c', d, next, None) && Stopping(c, c', d)
  {
    hide Grantable, Undisplaced, IsDisplaced, MayActivate;
    ActivatesAs(c, c', config, d, o, s, s');
  }

  /** A runtime that cannot be built fails the deployment, which keeps the node. */
  lemma UnbuildableRuntimeFails(c: Cluster, c': Cluster, config: Config, d: Ref, o: Observed, s: Status, s': Status)
    requires Activates(c, c', config, d, o, s, s') && !o.idle && Grantable(c, config, d)
    requires o.preflight == NodeFits && o.buildFails
    ensures var next := s'.(phase := Phase.Failed, assignedNode := c.deployments[d].spec.slot.node,
                            readyReason := OtherReason);
      Stored(c, c', d, next, None) && Stopping(c, c', d)
  {
    hide Grantable, Undisplaced, IsDisplaced, MayActivate;
    ActivatesAs(c, c', config, d, o, s, s');
  }

  /** What d's runtime says once one replica is asked for: an unchanged runtime is left alone, any other one is
      neither ready nor failed yet. */
  ghost predicate Runs(c: Cluster, c': Cluster, d: Ref, templateChanged: bool)
    requires d in c.deployments
  {
    && c'.runtimes.Keys == c.runtimes.Keys + {d}
    && (forall e <- c.runtimes | e != d :: c'.runtimes[e] == c.runtimes[e])
    && (if d in c.runtimes && c.runtimes[d].replicas == 1 && !templateChanged then c'.runtimes[d] == c.runtimes[d]
        else c'.runtimes[d] == Runtime(if d in c.runtimes then c.runtimes[d].slot else c.deployments[d].spec.slot,
                                       1, false, false, d in c.runtimes && c.runtimes[d].deleting))
  }

  /** The cluster with d's runtime running one replica and a status that says what it reports: Active ends the
      takeover as Succeeded, a failure outside a takeover fails the deployment, and until then it is Activating. */
  ghost predicate Reported(c: Cluster, c': Cluster, d: Ref, s: Status, templateChanged: bool)
    requires d in c.deployments
  {
    var kept := d in c.runtimes && c.runtimes[d].replicas == 1 && !templateChanged;
    var ready, failed := kept && c.runtimes[d].ready, kept && c.runtimes[d].failed;
    var r, claimed := s.replacement, s.(assignedNode := c.deployments[d].spec.slot.node);
    var takeover := r.Some? && r.value.target.Some? && r.value.phase == ReplacementPhase.Activating;
    if ready then
      && Runs(c, c', d, templateChanged)
      && Stored(c, c', d, claimed.(
           phase := Phase.Active, readyReason := OtherReason,
           replacement := if takeover then Some(r.value.(phase := Succeeded)) else r), None)
    else if failed && takeover then
      && Stopping(c, c', d)
      && Stored(c, c', d, claimed.(
           phase := Phase.Deactivating, replacement := Some(r.value.(phase := ReplacementPhase.RollingBack))), None)
    else
      && Runs(c, c', d, templateChanged)
      && Stored(c, c', d, claimed.(
           phase := if failed then Phase.Failed else Phase.Activating, readyReason := OtherReason), None)
  }

  lemma ActivatedIsReported(c: Cluster, d: Ref, s: Status, templateChanged: bool)
    requires d in c.deployments
    requires Reserves(s.replacement) ==> s.replacement.value.phase.Activating?
    ensures Reported(c, Activated(c, d, s, templateChanged), d, s, templateChanged)
  {
    hide Stored, WithStatus;
    var runtime := RuntimeAtOne(c, d, templateChanged);
    var claimed, running := s.(assignedNode := c.deployments[d].spec.slot.node), WithRuntime(c, d, runtime);
    StatusIsStored(c, running, d, Projected(claimed, runtime));
    if Reserves(s.replacement) {
      var rolling := claimed.(phase := Phase.Deactivating,
                              replacement := InPhase(s.replacement, ReplacementPhase.RollingBack));
      StatusIsStored(c, DeletionRequested(running, d), d, rolling);
    }
  }

  lemma StatusIsStored(c: Cluster, between: Cluster, d: Ref, next: Status)
    requires d in c.deployments && between == c.(runtimes := between.runtimes)
    ensures Stored(c, WithStatus(between, d, next), d, next, None)
    ensures WithStatus(between, d, next).runtimes == between.runtimes
  {}

  /** With a unit to be had, the runtime runs and is reported. */
  lemma FreeSlotIsActivated(c: Cluster, c': Cluster, config: Config, d: Ref, o: Observed, s: Status, s': Status)
    requires Activates(c, c', config, d, o, s, s') && !o.idle && Grantable(c, config, d)
    requires o.preflight == NodeFits && !o.buildFails
    ensures Reported(c, c', d, s', o.templateChanged)
  {
    hide Reported, Activated, Grantable, Undisplaced, IsDisplaced;
    ActivatesAs(c, c', config, d, o, s, s');
    MayActivateExactlyWhen(c, d, Undisplaced(c, d, s));
    ActivatedIsReported(c, d, s', o.templateChanged);
  }

  /** Only t and the deployment that t displaced itself, which is let go, change when t is marked. */
  ghost predicate MarkedFor(c: Cluster, c': Cluster, d: Ref, t: Ref)
    requires t in c.deployments
  {
    var y := c.deployments[t]; var r := y.status.replacement;
    && c'.deployments.Keys == c.deployments.Keys && c'.runtimes == c.runtimes
    && c'.deployments[t] == y.(status := y.status.(
         replacement := Some(Replacement(ReplacementPhase.Draining, 0, None, Some(d), c.clock))))
    && forall e <- c.deployments | e != t ::
         if Answering(c, if r.Some? then r.value.target else None, t, e)
         then LetGo(c.deployments[e], c'.deployments[e]) else c'.deployments[e] == c.deployments[e]
  }

  lemma MarkedIsFor(c: Cluster, d: Ref, t: Ref)
    requires t in c.deployments && TargetOf(c.deployments[t].status) != Some(t)
    ensures MarkedFor(c, Marked(c, t, d), d, t)
  {}

  /** An opened transaction is stored on both sides: the requester waits with the target's node reserved, for its
      present generation; the target keeps its duty but answers to the requester, and lets go of whomever it
      displaced itself; nobody else changes, and nothing is started or stopped. */
  lemma TransactionIsStored(c: Cluster, c': Cluster, d: Ref, s: Status, t: Ref)
    requires Local(c) && d in c.deployments && TransactionOpened(c, c', d, s, t)
    ensures var x := c.deployments[d];
      var next := Status(Phase.WaitingForGPU, x.spec.slot.node,
                         Some(Replacement(ReplacementPhase.Draining, x.generation, Some(t), None, c.clock)),
                         s.observedGeneration, s.drainStarted, OtherReason, s.validationFailed);
      var between := c.(deployments := c.deployments[d := x.(status := next)], clock := c.clock + 1);
      d != t && t in between.deployments && MarkedFor(between, c', d, t) && c'.deployments[d] == between.deployments[d]
  {
    hide Marked, MarkedFor, Local, ChosenByPolicy, RequestedBy;
    EligibleExactlyWhen(c, d, t);
    OwnTargetIsAnother(c, t);
    var between := Started(c, d, s, t);
    MarkedIsFor(between, d, t);
    RequesterStays(between, c', d, t);
  }

  lemma RequesterStays(c: Cluster, c': Cluster, d: Ref, t: Ref)
    requires d in c.deployments && t in c.deployments && d != t && MarkedFor(c, c', d, t)
    requires var r := c.deployments[d].status.replacement; r.Some? && r.value.requestedBy.None?
    ensures c'.deployments[d] == c.deployments[d]
  {}

  // ---------- safety, spelled out ----------

  /** At no moment of a run do two runtime Deployments have replicas on the one GPU of a node, nor are two
      deployments reported Active on it. */
  lemma NeverTwoModels(log: seq<Cluster>, i: nat, a: Ref, b: Ref, slot: Slot)
    requires LogOk(log) && i < |log| && a != b
    requires forall n <- log[i].nodes :: n.name == slot.node && slot.resource in n.allocatable ==>
      n.allocatable[slot.resource] <= 1
    ensures var runtimes := log[i].runtimes;
      a in runtimes && b in runtimes && runtimes[a].slot == runtimes[b].slot == slot ==>
        runtimes[a].replicas == 0 || runtimes[b].replicas == 0
    ensures var deployments := log[i].deployments;
      a in deployments && b in deployments && deployments[a].spec.slot == deployments[b].spec.slot == slot ==>
        !(deployments[a].status.phase == Phase.Active == deployments[b].status.phase)
  {
    hide Forward;
    assert Inv(log[i]) && Apart(log[i].runtimes, log[i].nodes, a, b) && Single(log[i].nodes, slot);
    if a in log[i].deployments && b in log[i].deployments {
      assert OneServes(log[i], a, b);
    }
  }
}
