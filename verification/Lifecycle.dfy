/** The deployment controller: one reconcile at a time, each a sequence of single-object writes that
    a crash may cut short after any of them. */
module Lifecycle {
  import opened Wrappers
  import opened GpuPlanner
  import opened Deployments
  import opened SlotSafety
  import opened ReplacementRuns
  import Charges
  import Text

  // ---------- what a reconcile learns from outside the modelled objects ----------

  datatype Conflict = NoConflict | ResourceConflict | CacheConflict

  datatype CacheState = CacheCreated | CachePending | CacheDownloading | CacheBroken | CacheReady

  datatype Preflight = NodeFits | SchedulingBlocked | ComputeShort

  /** `conflict`: a Service, ConfigMap or ModelCache the controller may not touch or cannot build;
      `buildFails`: the disruption budget or the runtime object cannot be built; `drained`: the grace
      period ended or the gateway is idle; `idle`: autoscaling wants zero replicas; `templateChanged`: the
      pod template differs. */
  datatype Observed = Observed(
    valid: bool,
    conflict: Conflict,
    cache: CacheState,
    drained: bool,
    idle: bool,
    preflight: Preflight,
    buildFails: bool,
    templateChanged: bool)

  // ---------- single writes as functions ----------

  function DeletionRequested(c: Cluster, d: Ref): Cluster {
    if d in c.runtimes then WithRuntime(c, d, c.runtimes[d].(deleting := true)) else c
  }

  predicate RequestedBy(c: Cluster, t: Ref, requester: Ref) {
    && t in c.deployments
    && c.deployments[t].status.replacement.Some?
    && c.deployments[t].status.replacement.value.requestedBy == Some(requester)
  }

  function Released(c: Cluster, target: Option<Ref>, requester: Ref): Cluster {
    if target.Some? && target.value.namespace == requester.namespace && RequestedBy(c, target.value, requester) then
      var status := c.deployments[target.value].status;
      var drainStarted := status.drainStarted && !c.deployments[target.value].spec.active;
      WithStatus(c, target.value, status.(replacement := None, drainStarted := drainStarted))
    else c
  }

  function FailedStatus(status: Status, reason: ReadyReason): Status {
    status.(phase := Phase.Failed, readyReason := reason)
  }

  /** A failed deployment whose spec is newer than what was last observed: it starts afresh. */
  predicate EditedAfterFailure(x: Deployment) {
    x.status.phase.Failed? && x.generation > x.status.observedGeneration
  }

  /** The validation layer: the in-memory status the rest of the reconcile starts from. */
  function Validated(x: Deployment, valid: bool): Status {
    var status := x.status.(observedGeneration := x.generation);
    if !valid then
      status.(phase := Phase.Failed, validationFailed := true, readyReason := OtherReason)
    else
      var editedAfterFailure := EditedAfterFailure(x);
      var wasBlocked := x.status.phase.Failed? && x.status.validationFailed;
      var passed := status.(validationFailed := false);
      if x.status.phase.Unset? || wasBlocked || editedAfterFailure then
        passed.(phase := Phase.Pending, readyReason := OtherReason,
                replacement := if editedAfterFailure then None else passed.replacement)
      else passed
  }

  /** One reconcile of a deactivation: drain, then wait for the runtime object to go, then report Cached. */
  function Deactivated(c: Cluster, d: Ref, status: Status, drained: bool): Cluster
    requires d in c.deployments
  {
    var running := d in c.runtimes;
    if status.phase.Draining? then
      WithStatus(DeletionRequested(c, d), d,
                 status.(phase := if drained then Phase.Deactivating else Phase.Draining, drainStarted := true))
    else if status.phase.Deactivating? && running then
      WithStatus(DeletionRequested(c, d), d, status)
    else if running then
      WithStatus(c, d, status.(phase := Phase.Draining, drainStarted := true))
    else
      WithStatus(c, d, status.(phase := Phase.Cached, assignedNode := "", drainStarted := false,
                               readyReason := OtherReason))
  }

  function InPhase(r: Option<Replacement>, phase: ReplacementPhase): Option<Replacement>
    requires r.Some?
  {
    Some(r.value.(phase := phase))
  }

  /** Activation failed: the runtime is deleted while the slot stays reserved for the displaced model. */
  function RollbackBegun(c: Cluster, d: Ref, status: Status): Cluster
    requires d in c.deployments && status.replacement.Some?
  {
    WithStatus(DeletionRequested(c, d), d,
               status.(phase := Phase.Deactivating,
                       replacement := InPhase(status.replacement, ReplacementPhase.RollingBack)))
  }

  function Canceled(c: Cluster, d: Ref, status: Status): Cluster
    requires d in c.deployments && status.replacement.Some?
  {
    WithStatus(Released(c, status.replacement.value.target, d), d,
               status.(phase := Phase.WaitingForGPU, replacement := None, assignedNode := "",
                       readyReason := OtherReason))
  }

  /** A transaction that ends without the slot: the reservation is dropped and the requester fails. */
  function Ended(status: Status, phase: ReplacementPhase): Status
    requires status.replacement.Some?
  {
    FailedStatus(status.(replacement := InPhase(status.replacement, phase), assignedNode := ""), OtherReason)
  }

  function Marked(c: Cluster, t: Ref, requester: Ref): Cluster
    requires t in c.deployments
  {
    var r := c.deployments[t].status.replacement;
    var released := if r.Some? then Released(c, r.value.target, t) else c;
    WithStatus(released, t, released.deployments[t].status.(
      replacement := Some(Replacement(ReplacementPhase.Draining, 0, None, Some(requester), c.clock))))
  }

  predicate Markable(c: Cluster, t: Ref, requester: Ref) {
    && t in c.deployments && t.namespace == requester.namespace
    && (RequestedBy(c, t, requester) || CandidateAvailable(c.deployments[t].status.replacement))
  }

  function Started(c: Cluster, d: Ref, status: Status, t: Ref): Cluster
    requires d in c.deployments && t in c.deployments
  {
    WithStatus(c, d, status.(
      phase := Phase.WaitingForGPU, readyReason := OtherReason,
      assignedNode := c.deployments[t].status.assignedNode,
      replacement := Some(Replacement(ReplacementPhase.Draining, c.deployments[d].generation, Some(t), None, c.clock))))
    .(clock := c.clock + 1)
  }

  // ---------- which deployment a requester displaces ----------

  predicate Eligible(c: Cluster, d: Ref, e: Ref)
    requires d in c.deployments && e in c.deployments
  {
    var x, y := c.deployments[d], c.deployments[e];
    && e.namespace == d.namespace && e.name != d.name
    && y.spec.active
    && y.status.observedGeneration >= y.generation
    && y.status.phase.Active?
    && y.status.assignedNode != ""
    && y.status.assignedNode == x.spec.slot.node
    && y.spec.slot.resource == x.spec.slot.resource
    && CandidateAvailable(y.status.replacement)
    && (x.spec.whenFull.ReplaceLowestPriority? ==> y.spec.priority < x.spec.priority)
  }

  predicate Precedes(c: Cluster, d: Ref, e: Ref, f: Ref)
    requires d in c.deployments && e in c.deployments && f in c.deployments
  {
    var y, z := c.deployments[e], c.deployments[f];
    if c.deployments[d].spec.whenFull.ReplaceLowestPriority? && y.spec.priority != z.spec.priority
    then y.spec.priority < z.spec.priority
    else if y.activeSince != z.activeSince then y.activeSince < z.activeSince
    else if e.namespace != f.namespace then Text.Less(e.namespace, f.namespace)
    else Text.Less(e.name, f.name)
  }

  lemma PrecedesTransitive(c: Cluster, d: Ref, e: Ref, f: Ref, g: Ref)
    requires d in c.deployments && e in c.deployments && f in c.deployments && g in c.deployments
    requires Precedes(c, d, e, f) && Precedes(c, d, f, g)
    ensures Precedes(c, d, e, g)
  {
    if Text.Less(e.namespace, f.namespace) && Text.Less(f.namespace, g.namespace) {
      Text.LessTransitive(e.namespace, f.namespace, g.namespace);
    }
    if Text.Less(e.name, f.name) && Text.Less(f.name, g.name) {
      Text.LessTransitive(e.name, f.name, g.name);
    }
    Text.LessTotal(e.namespace, f.namespace);
  }

  /** Whom a requester may displace: a deployment of its namespace that is wanted, observed and reported
      Active on the requester's node and resource, in no transaction or past a successful one of its own,
      and of lower priority where the policy goes by priority. */
  lemma EligibleExactlyWhen(c: Cluster, d: Ref, e: Ref)
    requires d in c.deployments && e in c.deployments
    ensures var x, y, r := c.deployments[d].spec, c.deployments[e], c.deployments[e].status.replacement;
      Eligible(c, d, e) <==>
        && e.namespace == d.namespace && e.name != d.name
        && y.spec.active && y.generation <= y.status.observedGeneration
        && y.status.phase == Phase.Active && x.slot.node == y.status.assignedNode != ""
        && x.slot.resource == y.spec.slot.resource
        && (r != None ==> r.value.requestedBy == None && r.value.target != None && r.value.phase == Succeeded)
        && (x.whenFull == ReplaceLowestPriority ==> y.spec.priority < x.priority)
  {}

  /** Where the policy goes by priority, t has the lowest and lower than the requester's; among equals, and
      under any other policy, it has been active longest; among those its name comes first. */
  ghost predicate ChosenByPolicy(c: Cluster, d: Ref, t: Ref) {
    && d in c.deployments && t in c.deployments
    && var x, z := c.deployments[d].spec, c.deployments[t];
    && (x.whenFull == ReplaceLowestPriority ==> z.spec.priority < x.priority)
    && forall e <- c.deployments | Eligible(c, d, e) ::
         var y := c.deployments[e];
         && (x.whenFull == ReplaceLowestPriority ==> z.spec.priority <= y.spec.priority)
         && ((x.whenFull == ReplaceLowestPriority && z.spec.priority < y.spec.priority)
             || z.activeSince < y.activeSince
             || (z.activeSince == y.activeSince && (t.name == e.name || Text.Less(t.name, e.name))))
  }

  /** No eligible deployment precedes the one that the policy names. */
  lemma FirstIsChosen(c: Cluster, d: Ref, t: Ref)
    requires d in c.deployments && t in c.deployments && Eligible(c, d, t)
    requires forall e <- c.deployments | Eligible(c, d, e) :: !Precedes(c, d, e, t)
    ensures ChosenByPolicy(c, d, t)
  {
    forall e <- c.deployments | Eligible(c, d, e)
      ensures !Precedes(c, d, e, t) && (t.name == e.name || Text.Less(t.name, e.name) || Text.Less(e.name, t.name))
    {
      Text.LessTotal(t.name, e.name);
    }
  }

  /** The lowest-priority or oldest serving deployment the requester may displace, if there is one. */
  method SelectReplacementTarget(c: Cluster, d: Ref, items: seq<Ref>) returns (target: Option<Ref>)
    requires d in c.deployments && Lists(items, c.deployments.Keys)
    ensures target.None? ==> forall e <- c.deployments :: !Eligible(c, d, e)
    ensures target.Some? ==> target.value in c.deployments && Eligible(c, d, target.value)
    ensures target.Some? ==> forall e <- c.deployments | Eligible(c, d, e) :: !Precedes(c, d, e, target.value)
    ensures target.Some? ==> ChosenByPolicy(c, d, target.value)
  {
    target := None;
    for i := 0 to |items|
      invariant target.None? ==> forall j | 0 <= j < i :: !Eligible(c, d, items[j])
      invariant target.Some? ==> target.value in c.deployments && Eligible(c, d, target.value)
      invariant target.Some? ==>
        forall j | 0 <= j < i && Eligible(c, d, items[j]) :: !Precedes(c, d, items[j], target.value)
    {
      var e := items[i];
      Text.LessTotal(e.name, e.name);
      if Eligible(c, d, e) && (target.None? || Precedes(c, d, e, target.value)) {
        forall j | 0 <= j < i && Eligible(c, d, items[j])
          ensures !Precedes(c, d, items[j], e)
        {
          if target.Some? && Precedes(c, d, items[j], e) {
            PrecedesTransitive(c, d, items[j], e, target.value);
          }
        }
        target := Some(e);
      }
    }
    if target.Some? {
      FirstIsChosen(c, d, target.value);
    }
  }

  // ---------- the in-memory status between reads and writes ----------

  /** What writing replacement `r` on d does to d's transaction is a step forward. */
  ghost predicate StepsTo(c: Cluster, d: Ref, r: Option<Replacement>)
    requires d in c.deployments
  {
    r.Some? && r.value.target.Some? ==>
      && Requests(c, d, r.value.startedAt)
      && r.value.target == Current(c, d).target
      && (r.value.phase != Current(c, d).phase ==>
            && PhaseStep(Current(c, d).phase, r.value.phase)
            && (Current(c, d).phase.Draining? && !r.value.phase.RollbackFailed?
                ==> Vacated(c, Current(c, d).target.value)))
  }

  lemma StatusForward(c: Cluster, d: Ref, next: Status)
    requires d in c.deployments && StepsTo(c, d, next.replacement)
    ensures Forward(c, WithStatus(c, d, next))
  {
    var c' := WithStatus(c, d, next);
    forall e <- c'.deployments ensures ForwardAt(c, c', e) {}
  }

  /** The status being worked on claims no more than the stored one. */
  ghost predicate InMemory(c: Cluster, d: Ref, status: Status)
    requires d in c.deployments
  {
    var stored := c.deployments[d].status;
    && StatusOk(c, d, c.deployments[d].spec.slot, status)
    && status.assignedNode == stored.assignedNode
    && (status.phase == stored.phase || status.phase.Pending? || status.phase.Failed?)
    && (Reserves(status.replacement) ==> status.replacement == stored.replacement)
    && StepsTo(c, d, status.replacement)
    && (Reserves(status.replacement) ==> status.assignedNode != "")
    && !status.validationFailed
  }

  /** Past the replacement checks: a transaction still carried is taking over a slot that was left. */
  ghost predicate Prepared(c: Cluster, d: Ref, status: Status)
    requires d in c.deployments
  {
    var x := c.deployments[d];
    && StatusOk(c, d, x.spec.slot, status)
    && status.assignedNode == x.status.assignedNode
    && !status.validationFailed
    && (Reserves(status.replacement) ==>
          && SameTransaction(x.status.replacement, status.replacement) && status.replacement.value.phase.Activating?
          && status.assignedNode != "" && IsReplacementPolicy(x.spec.whenFull)
          && (Single(c.nodes, x.spec.slot) ==> OwnTargetVacant(c, d)))
    && StepsTo(c, d, status.replacement)
  }

  /** A takeover that is given up: the transaction is d's stored one, with the slot still reserved. */
  ghost predicate Failing(c: Cluster, d: Ref, status: Status)
    requires d in c.deployments
  {
    var x := c.deployments[d];
    && StatusOk(c, d, x.spec.slot, status) && Reserves(status.replacement)
    && status.assignedNode == x.status.assignedNode != ""
    && SameTransaction(x.status.replacement, status.replacement) && status.replacement.value.phase.Activating?
    && StepsTo(c, d, status.replacement)
  }

  lemma KeepsTransaction(c: Cluster, d: Ref, status: Status)
    requires d in c.deployments && status.replacement == c.deployments[d].status.replacement
    ensures StepsTo(c, d, status.replacement)
  {}

  /** Giving the node up takes nothing, whatever the runtime's deletion still waits for. */
  lemma UnfitIsQuiet(c: Cluster, d: Ref, status: Status, preflight: Preflight)
    requires d in c.deployments && Prepared(c, d, status)
    ensures var next := Unfit(status, preflight, c.deployments[d].spec.whenFull);
      Quiet(c, d, next) && StepsTo(c, d, next.replacement)
  {}

  lemma PreparedSurvivesDeletion(c: Cluster, d: Ref, status: Status)
    requires d in c.deployments && Prepared(c, d, status)
    ensures Prepared(DeletionRequested(c, d), d, status)
  {}

  lemma AbandonedIsClaim(c: Cluster, d: Ref, status: Status, claimed: Status)
    requires d in c.deployments && Prepared(c, d, status) && c.deployments[d].spec.slot.node != ""
    requires claimed == status.(assignedNode := c.deployments[d].spec.slot.node)
    requires Reserves(status.replacement) ==> AllYield(c, d, false)
    ensures Claim(c, d, FailedStatus(claimed, OtherReason)) && StepsTo(c, d, claimed.replacement)
  {
    hide AllYield;
  }

  // ---------- who owns the slot of a displaced deployment ----------

  /** The live requester's transaction that the in-memory status of d answers to, if any. */
  predicate AnswersTo(c: Cluster, d: Ref, status: Status, r: Ref) {
    && status.replacement.Some? && status.replacement.value.requestedBy == Some(r)
    && r.namespace == d.namespace
    && r in c.deployments
    && c.deployments[r].status.replacement.Some?
    && c.deployments[r].status.replacement.value.target == Some(d)
    && d in c.deployments && c.deployments[d].spec.active
  }

  predicate IsDisplaced(c: Cluster, d: Ref, status: Status) {
    && status.replacement.Some? && status.replacement.value.requestedBy.Some?
    && var r := status.replacement.value.requestedBy.value;
    && AnswersTo(c, d, status, r)
    && var requester := c.deployments[r].status;
       || requester.replacement.value.phase.Draining?
       || requester.replacement.value.phase.Activating?
       || (requester.replacement.value.phase.Succeeded? && requester.phase.Active?)
  }

  /** How a displaced deployment leaves its slot, stage by stage of its requester's transaction. */
  function Yielded(c: Cluster, d: Ref, status: Status, drained: bool): Cluster
    requires d in c.deployments && IsDisplaced(c, d, status)
  {
    var stage := c.deployments[status.replacement.value.requestedBy.value].status.replacement.value.phase;
    if stage.Draining? then
      Deactivated(c, d, status.(replacement := InPhase(status.replacement, ReplacementPhase.Draining)), drained)
    else if stage.Activating? && (d in c.runtimes || status.assignedNode != "") then
      Deactivated(c, d, status, drained)
    else
      var left := status.(replacement := InPhase(status.replacement, ReplacementPhase.Displaced));
      WithStatus(c, d, if stage.Activating? then left.(phase := Phase.Cached)
                       else left.(phase := Phase.WaitingForGPU, assignedNode := "", readyReason := OtherReason))
  }

  predicate RestoredBy(c: Cluster, d: Ref, status: Status) {
    && status.replacement.Some? && status.replacement.value.requestedBy.Some?
    && var r := status.replacement.value.requestedBy.value;
    && AnswersTo(c, d, status, r)
    && c.deployments[r].status.replacement.value.phase.RollingBack?
  }

  /** What a deployment nobody displaces any more carries on with. */
  function Undisplaced(c: Cluster, d: Ref, status: Status): Status {
    if status.replacement.None? || status.replacement.value.requestedBy.None? then status
    else if RestoredBy(c, d, status)
    then status.(drainStarted := false, replacement := InPhase(status.replacement, ReplacementPhase.RollingBack))
    else status.(replacement := None)
  }

  predicate Restored(c: Cluster, d: Ref, t: Ref) {
    && t in c.deployments && c.deployments[t].spec.active && d !in c.runtimes
    && (c.deployments[t].status.replacement.None? || RequestedBy(c, t, d))
    && c.deployments[t].status.phase.Active?
  }

  predicate Unrestorable(c: Cluster, d: Ref, t: Ref) {
    t !in c.deployments || !c.deployments[t].spec.active ||
    (d !in c.runtimes && ((c.deployments[t].status.replacement.Some? && !RequestedBy(c, t, d))
                          || c.deployments[t].status.phase.Failed?))
  }

  /** The target of a draining transaction is gone from the slot and nobody else owns it. */
  predicate SlotLeft(c: Cluster, d: Ref, t: Ref) {
    && t in c.deployments
    && (c.deployments[t].status.replacement.None? || RequestedBy(c, t, d))
    && t !in c.runtimes
    && c.deployments[t].status.assignedNode == ""
    && (c.deployments[t].status.phase.Cached? || c.deployments[t].status.phase.WaitingForGPU?)
  }

  /** A serving deployment that no transaction has claimed. */
  predicate Takeable(c: Cluster, t: Ref)
    requires t in c.deployments
  {
    var y := c.deployments[t];
    CandidateAvailable(y.status.replacement) && y.spec.active && y.status.phase.Active?
  }

  /** A draining transaction's target is deleted, taken by another transaction, or failed. */
  predicate TargetLost(c: Cluster, d: Ref, t: Ref) {
    || t !in c.deployments
    || (!Takeable(c, t) && c.deployments[t].status.replacement.Some? && !RequestedBy(c, t, d))
    || c.deployments[t].status.phase.Failed?
  }

  /** What one uninterrupted wait leaves: the end of the transaction, or the target asked to leave. */
  ghost predicate TargetAwaited(c: Cluster, c': Cluster, d: Ref, status: Status)
    requires Reserves(status.replacement)
  {
    var t := status.replacement.value.target.value;
    && Requests(c', d, status.replacement.value.startedAt)
    && (if TargetLost(c, d, t) then c'.deployments[d].status == Ended(status, ReplacementPhase.RollbackFailed)
        else c'.deployments[d].status == status.(phase := Phase.WaitingForGPU, readyReason := OtherReason))
    && (t in c.deployments && Takeable(c, t) ==> RequestedBy(c', t, d))
    && c'.runtimes == c.runtimes
  }

  /** The request behind a transaction was edited away. */
  predicate Superseded(c: Cluster, d: Ref, r: Replacement)
    requires d in c.deployments
  {
    (r.requestGeneration > 0 && r.requestGeneration != c.deployments[d].generation)
    || !IsReplacementPolicy(c.deployments[d].spec.whenFull)
  }

  /** What an uninterrupted reconcile makes of an active requester's transaction that cannot go on yet. */
  ghost predicate Advanced(c: Cluster, c': Cluster, d: Ref, status: Status)
    requires d in c.deployments
  {
    Reserves(status.replacement) &&
    (var r := status.replacement.value;
     if r.phase.RollingBack? then RollbackAdvanced(c, c', d, r)
     else if Superseded(c, d, r) then c' == if r.phase.Draining? then Canceled(c, d, status)
                                            else RollbackBegun(c, d, status)
     else r.phase.Draining? && TargetAwaited(c, c', d, status))
  }

  /** A rollback ends as RolledBack exactly when the displaced model serves again, and as RollbackFailed
      exactly when it cannot be restored; otherwise the slot stays reserved. */
  ghost predicate RollbackAdvanced(c: Cluster, c': Cluster, d: Ref, r: Replacement)
    requires r.target.Some?
  {
    && Requests(c', d, r.startedAt)
    && (Current(c', d).phase.RolledBack? <==> Restored(c, d, r.target.value))
    && (Current(c', d).phase.RollbackFailed? <==> Unrestorable(c, d, r.target.value))
    && (c'.deployments[d].status.assignedNode != "" ==> Current(c', d).phase.RollingBack?)
    && (d !in c.runtimes ==> c'.runtimes == c.runtimes)
    && SameDuty(c, c', r.target.value)
    && AskedBack(c, c', d, r.target.value)
  }

  /** Once d's runtime is gone the displaced model is asked back, and it is let go when the rollback ends. */
  ghost predicate AskedBack(c: Cluster, c': Cluster, d: Ref, t: Ref) {
    t in c.deployments ==>
      && t in c'.deployments
      && (Restored(c, d, t) || Unrestorable(c, d, t) ==> !RequestedBy(c', t, d))
      && (!Restored(c, d, t) && !Unrestorable(c, d, t) && d !in c.runtimes ==>
            && RequestedBy(c', t, d)
            && c'.deployments[t].status.replacement.value.phase == ReplacementPhase.RollingBack)
  }

  /** The displaced model's phase decides how the rollback goes on; its place and phase stay. */
  ghost predicate Settled(c: Cluster, c': Cluster, d: Ref, status: Status)
    requires Reserves(status.replacement) && status.replacement.value.target.value in c.deployments
  {
    var t := status.replacement.value.target.value;
    var phase := c.deployments[t].status.phase;
    && Requests(c', d, status.replacement.value.startedAt)
    && Current(c', d).phase == (if phase.Active? then ReplacementPhase.RolledBack
                                else if phase.Failed? then ReplacementPhase.RollbackFailed
                                else ReplacementPhase.RollingBack)
    && (c'.deployments[d].status.assignedNode != "" ==> Current(c', d).phase.RollingBack?)
    && c'.runtimes == c.runtimes && SameDuty(c, c', t)
    && t in c'.deployments
    && (if phase.Active? || phase.Failed? then !RequestedBy(c', t, d)
        else c'.deployments[t].status.replacement == Some(Restoring(c.deployments[t].status.replacement, d)))
  }

  /** The target's side of a rollback: asked back by d. */
  function Restoring(r: Option<Replacement>, d: Ref): Replacement {
    if r.None? then Replacement(ReplacementPhase.RollingBack, 0, None, Some(d), 0)
    else r.value.(phase := ReplacementPhase.RollingBack)
  }

  /** The deployment's place and phase are as before. */
  predicate SameDuty(c: Cluster, c': Cluster, t: Ref) {
    t in c.deployments ==>
      && t in c'.deployments
      && c'.deployments[t].status.phase == c.deployments[t].status.phase
      && c'.deployments[t].status.assignedNode == c.deployments[t].status.assignedNode
  }

  /** When an active deployment may go on to reserve its slot. */
  predicate MayActivate(c: Cluster, d: Ref, status: Status)
    requires d in c.deployments
  {
    !Reserves(status.replacement) ||
    (var r := status.replacement.value;
     && !Superseded(c, d, r)
     && (r.phase.Activating? || (r.phase.Draining? && SlotLeft(c, d, r.target.value))))
  }

  function TakingOver(status: Status): Status {
    if Reserves(status.replacement) && status.replacement.value.phase.Draining?
    then status.(replacement := InPhase(status.replacement, ReplacementPhase.Activating)) else status
  }

  lemma StartForward(c: Cluster, d: Ref, status: Status, t: Ref)
    requires Inv(c) && d in c.deployments && t in c.deployments
    ensures Forward(c, Started(c, d, status, t))
  {
    var c' := Started(c, d, status, t);
    forall e <- c'.deployments ensures ForwardAt(c, c', e) {
      assert StatusOk(c, e, c.deployments[e].spec.slot, c.deployments[e].status);
    }
  }

  lemma StartIsOk(c: Cluster, d: Ref, status: Status, t: Ref)
    requires Inv(c) && d in c.deployments && t in c.deployments && Eligible(c, d, t)
    ensures Inv(Started(c, d, status, t)) && Forward(c, Started(c, d, status, t))
  {
    hide Inv;
    var next := Started(c, d, status, t).deployments[d].status;
    assert Start(c, d, t, next) by { StoredFits(c, t); }
    StartWrite(c, d, t, next);
    StartForward(c, d, status, t);
  }

  lemma StoredFits(c: Cluster, t: Ref)
    requires Inv(c) && t in c.deployments
    ensures StatusOk(c, t, c.deployments[t].spec.slot, c.deployments[t].status)
  {}

  /** d's transaction against the best candidate t is stored on both sides. */
  ghost predicate TransactionOpened(c: Cluster, c': Cluster, d: Ref, status: Status, t: Ref)
    requires d in c.deployments
  {
    && t in c.deployments && Eligible(c, d, t)
    && ChosenByPolicy(c, d, t)
    && c' == Marked(Started(c, d, status, t), t, d)
    && RequestedBy(c', t, d)
  }

  lemma RuntimeForward(c: Cluster, d: Ref, runtime: Runtime)
    ensures Forward(c, WithRuntime(c, d, runtime))
  {}

  lemma LocalKnown(c: Cluster)
    requires Inv(c)
    ensures Local(c)
  {}

  lemma LocalSlot(c: Cluster, d: Ref)
    requires Inv(c) && d in c.deployments
    ensures d in c.runtimes ==> c.runtimes[d].slot == c.deployments[d].spec.slot
    ensures c.deployments[d].spec.slot.node != ""
  {}

  function RuntimeAtZero(c: Cluster, d: Ref): Runtime
    requires d in c.deployments
  {
    if d in c.runtimes then c.runtimes[d].(replicas := 0, ready := false)
    else FreshRuntime(c.deployments[d].spec).(replicas := 0)
  }

  /** The runtime object as the activation leaves it; any change of its spec resets what it reports. */
  function RuntimeAtOne(c: Cluster, d: Ref, templateChanged: bool): Runtime
    requires d in c.deployments
  {
    if d !in c.runtimes then FreshRuntime(c.deployments[d].spec)
    else if c.runtimes[d].replicas == 1 && !templateChanged then c.runtimes[d]
    else c.runtimes[d].(replicas := 1, ready := false, failed := false)
  }

  /** The status an activation reports for what the runtime object says. */
  function Projected(status: Status, runtime: Runtime): Status {
    if runtime.ready then
      status.(phase := Phase.Active, readyReason := OtherReason,
              replacement := if Reserves(status.replacement) && status.replacement.value.phase.Activating?
                             then InPhase(status.replacement, ReplacementPhase.Succeeded) else status.replacement)
    else if runtime.failed then FailedStatus(status, OtherReason)
    else status.(phase := Phase.Activating, readyReason := OtherReason)
  }

  lemma ReleaseLeavesOthers(c: Cluster, target: Option<Ref>, d: Ref)
    requires d in c.deployments && target != Some(d)
    ensures var c' := Released(c, target, d);
      && d in c'.deployments && c'.deployments[d] == c.deployments[d]
      && c'.runtimes == c.runtimes && c'.nodes == c.nodes && c'.known == c.known && c'.clock == c.clock
  {}

  function TargetOf(status: Status): Option<Ref> {
    if status.replacement.Some? then status.replacement.value.target else None
  }

  /** Only a failed validation ends the transaction as well. */
  function DroppedTarget(status: Status): Option<Ref> {
    if status.validationFailed then TargetOf(status) else None
  }

  /** Without the transaction the deployment requested. */
  function Dropped(status: Status): Status {
    if TargetOf(status).Some? then status.(replacement := None) else status
  }

  function Terminal(status: Status): Status {
    status.(assignedNode := "", replacement := if DroppedTarget(status).Some? then None else status.replacement)
  }

  function WithoutCache(status: Status, cache: CacheState): Status {
    var next := status.(assignedNode := "", replacement := if TargetOf(status).Some? then None else status.replacement);
    if cache.CacheBroken? then FailedStatus(next, CacheFailed)
    else if cache.CacheDownloading? then next.(phase := Phase.Downloading, readyReason := OtherReason)
    else next.(phase := Phase.Pending, readyReason := OtherReason)
  }

  function ActivationStatus(c: Cluster, d: Ref, status: Status): Status {
    TakingOver(Undisplaced(c, d, status)).(drainStarted := false)
  }

  /** What an uninterrupted reconcile with a ready cache does, stage by stage. */
  ghost predicate CachedOutcome(c: Cluster, c': Cluster, config: Config, d: Ref, status: Status, o: Observed)
    requires d in c.deployments
  {
    var x, next := c.deployments[d], Undisplaced(c, d, status);
    if IsDisplaced(c, d, status) then c' == Yielded(c, d, status, o.drained)
    else if !x.spec.active then c' == Deactivated(Released(c, TargetOf(next), d), d, Dropped(next), o.drained)
    else if !MayActivate(c, d, next) then Advanced(c, c', d, next)
    else if o.idle then c' == IdleOutcome(c, d, ActivationStatus(c, d, status), o.buildFails)
    else ReservationOutcome(c, c', config, d, ActivationStatus(c, d, status), o)
  }

  /** The reservation is granted: on a single-unit slot nobody else is charged there, on any other one the node
      offers more than others are charged for. */
  ghost predicate Grantable(c: Cluster, config: Config, d: Ref)
    requires d in c.deployments
  {
    if Single(c.nodes, c.deployments[d].spec.slot) then Clear(c, d) && Placeable(c, config, d)
    else Charges.Affordable(c, config, d)
  }

  /** A slot is activated exactly when there is a unit left for d and its node is compatible. */
  ghost predicate ReservationOutcome(c: Cluster, c': Cluster, config: Config, d: Ref, status: Status, o: Observed)
    requires d in c.deployments
  {
    if Grantable(c, config, d) then c' == ActivationOutcome(c, d, status, o) else RefusedOutcome(c, c', d, status)
  }

  /** A refused reservation: roll the takeover back, queue, fail, or open a transaction. */
  ghost predicate RefusedOutcome(c: Cluster, c': Cluster, d: Ref, status: Status)
    requires d in c.deployments
  {
    var freed, idle := DeletionRequested(c, d), status.(assignedNode := "");
    if Reserves(status.replacement) then c' == RollbackBegun(c, d, status)
    else match c.deployments[d].spec.whenFull
      case Queue => c' == WithStatus(freed, d, idle.(phase := Phase.WaitingForGPU, readyReason := OtherReason))
      case Reject => c' == WithStatus(freed, d, FailedStatus(idle, OtherReason))
      case _ => ReplacementOutcome(freed, c', d, idle)
  }

  /** A transaction against the best candidate, or failure exactly when there is none. */
  ghost predicate ReplacementOutcome(c: Cluster, c': Cluster, d: Ref, status: Status)
    requires d in c.deployments
  {
    if exists e <- c.deployments :: Eligible(c, d, e) then exists t :: TransactionOpened(c, c', d, status, t)
    else c' == WithStatus(c, d, FailedStatus(status, OtherReason))
  }

  /** What an uninterrupted reconcile does: validation, resources, cache, then the rest. */
  ghost predicate ReconcileOutcome(c: Cluster, c': Cluster, config: Config, d: Ref, o: Observed)
    requires d in c.deployments
  {
    var status := Validated(c.deployments[d], o.valid);
    if status.phase.Failed? && !status.readyReason.CacheFailed? then
      c' == WithStatus(DeletionRequested(Released(c, DroppedTarget(status), d), d), d, Terminal(status))
    else if !o.conflict.NoConflict? then
      c' == Conflicted(c, d, status, if o.conflict.CacheConflict? then CacheFailed else OtherReason)
    else match o.cache
      case CacheCreated => c' == WithStatus(c, d, status.(phase := Phase.Pending, readyReason := OtherReason))
      case CacheReady => CachedOutcome(c, c', config, d, status, o)
      case _ => c' == WithStatus(DeletionRequested(Released(c, TargetOf(status), d), d), d,
                                 WithoutCache(status, o.cache))
  }

  /** A transaction that is d's stored one, now taking the slot over from a target that has left. */
  ghost predicate TakesOver(c: Cluster, d: Ref, r: Option<Replacement>)
    requires d in c.deployments
  {
    var x := c.deployments[d];
    && SameTransaction(x.status.replacement, r) && r.value.phase.Activating? && x.status.assignedNode != ""
    && (Single(c.nodes, x.spec.slot) ==> OwnTargetVacant(c, d))
  }

  lemma YieldsLess(c: Cluster, d: Ref, serves: bool, less: bool)
    requires d in c.deployments && AllYield(c, d, serves) && (less ==> serves)
    ensures AllYield(c, d, less)
  {
    if Single(c.nodes, c.deployments[d].spec.slot) {
      forall e ensures Yields(c, d, e, less) {
        assert Yields(c, d, e, serves);
      }
    }
  }

  /** A dropped transaction that hides nothing leaves the slot to d. */
  lemma Reopened(c: Cluster, d: Ref, e: Ref, templateChanged: bool)
    requires Inv(c) && d in c.deployments && Single(c.nodes, c.deployments[d].spec.slot)
    requires Clear(c, d) && HidesNothing(c, d, templateChanged)
    ensures Yields(c, d, e, RuntimeAtOne(c, d, templateChanged).ready)
  {
    assert TargetVacant(c, d);
    if !HandoffFrom(c, d, e) {
      ClearLeavesOnlyOwnTarget(c, d, e);
      assert e in c.deployments ==> StatusOk(c, e, c.deployments[e].spec.slot, c.deployments[e].status);
    }
  }

  lemma YieldSurvivesDeletion(c: Cluster, d: Ref, serves: bool)
    requires d in c.deployments && AllYield(c, d, serves)
    ensures AllYield(DeletionRequested(c, d), d, serves)
  {
    if Single(c.nodes, c.deployments[d].spec.slot) {
      forall e ensures Yields(DeletionRequested(c, d), d, e, serves) {
        assert Yields(c, d, e, serves);
      }
    }
  }

  /** The cluster an uninterrupted activation leaves behind. */
  function Activated(c: Cluster, d: Ref, status: Status, templateChanged: bool): Cluster
    requires d in c.deployments
  {
    var runtime := RuntimeAtOne(c, d, templateChanged);
    var claimed := status.(assignedNode := c.deployments[d].spec.slot.node);
    var running := WithRuntime(c, d, runtime);
    if !runtime.ready && runtime.failed && Reserves(status.replacement)
    then RollbackBegun(running, d, claimed)
    else WithStatus(running, d, Projected(claimed, runtime))
  }

  /** A node that cannot run the pod: wait for compute if the policy queues, else fail; no node either way. */
  function Unfit(status: Status, preflight: Preflight, whenFull: WhenFull): Status {
    var next := status.(assignedNode := "");
    if preflight.ComputeShort? && whenFull.Queue?
    then next.(phase := Phase.WaitingForCapacity, readyReason := OtherReason)
    else FailedStatus(next, OtherReason)
  }

  /** What an activation with a granted reservation comes to. */
  function ActivationOutcome(c: Cluster, d: Ref, status: Status, o: Observed): Cluster
    requires d in c.deployments
  {
    if !o.preflight.NodeFits? then
      WithStatus(DeletionRequested(c, d), d, Unfit(status, o.preflight, c.deployments[d].spec.whenFull))
    else if o.buildFails then
      WithStatus(DeletionRequested(c, d), d,
                 FailedStatus(status.(assignedNode := c.deployments[d].spec.slot.node), OtherReason))
    else Activated(c, d, status, o.templateChanged)
  }

  /** What idling comes to: a runtime object without replicas, or failure if it cannot be built. */
  function IdleOutcome(c: Cluster, d: Ref, status: Status, buildFails: bool): Cluster
    requires d in c.deployments
  {
    if buildFails then WithStatus(DeletionRequested(c, d), d, FailedStatus(status, OtherReason))
    else WithStatus(WithRuntime(c, d, RuntimeAtZero(c, d)), d,
                    status.(phase := Phase.Cached, readyReason := OtherReason))
  }

  // ---------- runs ----------

  datatype Event =
    | ReconcileEvent(d: Ref, observed: Observed, writes: nat)
    | EditEvent(d: Ref, active: bool, whenFull: WhenFull, priority: int)
    | ReportEvent(d: Ref, ready: bool, failed: bool)
    | GoneEvent(d: Ref)
    | NodeEvent(nodes: seq<Node>)
    | RemoveEvent(d: Ref)
    | CreateEvent(d: Ref, spec: Spec)

  /** A requester whose stored handoff may hide a target that has not left yet. */
  predicate Exposed(c: Cluster, d: Ref)
    requires d in c.deployments
  {
    Handoff(c.deployments[d].status) && !c.deployments[d].status.replacement.value.phase.Activating?
  }

  /** The reconcile gets as far as bringing d's runtime up on a single-unit slot. */
  predicate BringsUp(c: Cluster, config: Config, d: Ref, o: Observed)
    requires d in c.deployments
  {
    && o.conflict.NoConflict? && o.cache.CacheReady? && c.deployments[d].spec.active && !o.idle
    && Single(c.nodes, c.deployments[d].spec.slot) && Clear(c, d) && Placeable(c, config, d)
    && o.preflight.NodeFits? && !o.buildFails
  }

  /** What d's stored handoff hides from d can stand d's runtime: the target runs nothing, and it is
      not reported Active if d is about to be. */
  predicate HidesNothing(c: Cluster, d: Ref, templateChanged: bool)
    requires d in c.deployments
  {
    Handoff(c.deployments[d].status) ==>
      var t := c.deployments[d].status.replacement.value.target.value;
      && !Live(c, t)
      && (t in c.deployments && Serving(c.deployments[t].status) ==> !RuntimeAtOne(c, d, templateChanged).ready)
  }

  /** The reconcile forgets d's transaction in memory, after a failure and an edit, while the stored
      one still hides its target; and it brings d's runtime up. */
  predicate Reopens(c: Cluster, config: Config, d: Ref, o: Observed)
    requires d in c.deployments
  {
    o.valid && EditedAfterFailure(c.deployments[d]) && Exposed(c, d) && BringsUp(c, config, d, o)
  }

  /** Users create deployments under fresh names, nodes keep their capacity, and no reconcile reopens a
      slot whose hidden target is still there. */
  predicate Admissible(c: Cluster, config: Config, e: Event) {
    match e
    case ReconcileEvent(d, o, writes) =>
      writes > 0 && d in c.deployments && Reopens(c, config, d, o) ==> HidesNothing(c, d, o.templateChanged)
    case NodeEvent(nodes) => SameCapacity(c.nodes, nodes)
    case CreateEvent(d, spec) => FreshName(c, d) && spec.slot.node != "" && spec.slot.resource != ""
    case _ => true
  }

  /** No deployment of that name was ever there. */
  predicate FreshName(c: Cluster, d: Ref) {
    forall e <- c.known :: e.namespace != d.namespace || e.name != d.name
  }

  /** A transaction dropped from memory does not stand in the way of bringing d's runtime up. */
  ghost predicate Reusable(c: Cluster, config: Config, d: Ref, status: Status, o: Observed)
    requires d in c.deployments
  {
    BringsUp(c, config, d, o) && !Reserves(status.replacement) ==> HidesNothing(c, d, o.templateChanged)
  }

  /** The cluster after an event of the environment. */
  function Moved(c: Cluster, e: Event): Cluster {
    match e
    case ReconcileEvent(_, _, _) => c
    case EditEvent(d, active, whenFull, priority) =>
      if d in c.deployments then Edited(c, d, active, whenFull, priority) else c
    case ReportEvent(d, ready, failed) =>
      if d in c.runtimes
      then WithRuntime(c, d, c.runtimes[d].(ready := ready && c.runtimes[d].replicas > 0, failed := failed)) else c
    case GoneEvent(d) => WithoutRuntime(c, d)
    case NodeEvent(nodes) => c.(nodes := nodes)
    case RemoveEvent(d) => WithoutDeployment(c, d)
    case CreateEvent(d, spec) => WithDeployment(c, d, spec)
  }

  /** What one event does to the cluster; of a reconcile that may be cut short, that it only ever stops
      between two of its writes is for the log to say. */
  ghost predicate Happens(c: Cluster, c': Cluster, config: Config, e: Event) {
    match e
    case ReconcileEvent(d, o, writes) =>
      && (writes == 0 || d !in c.deployments ==> c' == c)
      && (writes >= 4 && d in c.deployments ==> ReconcileOutcome(c, c', config, d, o))
    case _ => c' == Moved(c, e)
  }

  /** The states of a run: each follows from the one before by the next event, and the run stops at the
      first event that is not admissible. */
  ghost predicate Follows(states: seq<Cluster>, config: Config, events: seq<Event>, stopped: bool) {
    && 0 < |states| <= |events| + 1
    && (forall k | 0 <= k < |states| - 1 ::
          Admissible(states[k], config, events[k]) && Happens(states[k], states[k + 1], config, events[k]))
    && (if stopped then |states| <= |events| && !Admissible(states[|states| - 1], config, events[|states| - 1])
        else |states| == |events| + 1)
  }

  lemma MoveIsOk(c: Cluster, config: Config, e: Event)
    requires Inv(c) && Admissible(c, config, e)
    ensures Inv(Moved(c, e)) && Forward(c, Moved(c, e))
  {
    MoveIsForward(c, config, e);
    match e
    case ReconcileEvent(_, _, _) =>
    case EditEvent(d, active, whenFull, priority) =>
      if d in c.deployments { EditWrite(c, d, active, whenFull, priority); }
    case ReportEvent(d, ready, failed) =>
      if d in c.runtimes { IdleWrite(c, d, Moved(c, e).runtimes[d]); }
    case GoneEvent(d) => GoneWrite(c, d);
    case NodeEvent(nodes) => NodeWrite(c, nodes);
    case RemoveEvent(d) => RemoveWrite(c, d);
    case CreateEvent(d, spec) => AddWrite(c, d, spec);
  }

  lemma MoveIsForward(c: Cluster, config: Config, e: Event)
    requires Inv(c) && Admissible(c, config, e)
    ensures Forward(c, Moved(c, e))
  {
    hide Exclusive, Serves, VacantTargets, Edges;
    forall d <- Moved(c, e).deployments ensures ForwardAt(c, Moved(c, e), d) {}
  }

  function Conflicted(c: Cluster, d: Ref, status: Status, reason: ReadyReason): Cluster
    requires d in c.deployments
  {
    WithStatus(DeletionRequested(c, d), d, FailedStatus(status, reason))
  }

  lemma VacancyKnown(c: Cluster, d: Ref)
    requires Inv(c) && d in c.deployments
    ensures TargetVacant(c, d)
  {}

  class Controller {
    const config: Config
    var c: Cluster
    /** How many more writes the process completes before it is killed. */
    var writesLeft: nat
    /** The cluster after every write so far. */
    ghost var log: seq<Cluster>

    ghost predicate Valid()
      reads this
    {
      LogOk(log) && log[|log| - 1] == c
    }

    constructor (config: Config, nodes: seq<Node>)
      ensures Valid() && c == Cluster(map[], map[], nodes, {}, 0) && this.config == config
    {
      this.config := config;
      c := Cluster(map[], map[], nodes, {}, 0);
      writesLeft := 0;
      log := [Cluster(map[], map[], nodes, {}, 0)];
    }

    /** One API write; `ok` is false when the process dies before it. */
    method Write(next: Cluster) returns (ok: bool)
      requires Valid() && Inv(next) && Forward(c, next)
      modifies this
      ensures Valid() && log == if ok then old(log) + [next] else old(log)
      ensures c == if ok then next else old(c)
      ensures ok == (old(writesLeft) > 0) && writesLeft == if ok then old(writesLeft) - 1 else 0
    {
      ok := writesLeft > 0;
      if ok {
        writesLeft := writesLeft - 1;
        c := next;
        log := log + [next];
      }
    }

    method PatchStatus(d: Ref, status: Status) returns (ok: bool)
      requires Valid() && d in c.deployments && Quiet(c, d, status) && StepsTo(c, d, status.replacement)
      modifies this
      ensures Valid() && old(log) <= log
      ensures writesLeft + 1 >= old(writesLeft) && (old(writesLeft) >= 1 ==> ok)
      ensures c == if ok then WithStatus(old(c), d, status) else old(c)
    {
      QuietWrite(c, d, status);
      StatusForward(c, d, status);
      ok := Write(WithStatus(c, d, status));
    }

    method ClaimStatus(d: Ref, status: Status) returns (ok: bool)
      requires Valid() && d in c.deployments && Claim(c, d, status) && StepsTo(c, d, status.replacement)
      modifies this
      ensures Valid() && old(log) <= log
      ensures writesLeft + 1 >= old(writesLeft) && (old(writesLeft) >= 1 ==> ok)
      ensures c == if ok then WithStatus(old(c), d, status) else old(c)
    {
      ClaimWrite(c, d, status);
      StatusForward(c, d, status);
      ok := Write(WithStatus(c, d, status));
    }

    method DeleteRuntimeWorkload(d: Ref) returns (ok: bool)
      requires Valid()
      modifies this
      ensures Valid() && old(log) <= log
      ensures writesLeft + 1 >= old(writesLeft) && (old(writesLeft) >= 1 ==> ok)
      ensures c == if ok then DeletionRequested(old(c), d) else old(c)
    {
      ok := true;
      if d in c.runtimes {
        IdleWrite(c, d, c.runtimes[d].(deleting := true));
        ok := Write(DeletionRequested(c, d));
      }
    }

    method ReleaseReplacementTarget(target: Option<Ref>, requester: Ref) returns (ok: bool)
      requires Valid()
      modifies this
      ensures Valid() && old(log) <= log
      ensures writesLeft + 1 >= old(writesLeft) && (old(writesLeft) >= 1 ==> ok)
      ensures c == if ok then Released(old(c), target, requester) else old(c)
    {
      ok := true;
      if target.Some? && target.value.namespace == requester.namespace && RequestedBy(c, target.value, requester) {
        var t := target.value;
        assert StatusOk(c, t, c.deployments[t].spec.slot, c.deployments[t].status);
        ok := PatchStatus(t, Released(c, target, requester).deployments[t].status);
      }
    }

    /** Asks the target to leave; a target that displaced somebody earlier first lets that one go. */
    method MarkReplacementTarget(t: Ref, requester: Ref) returns (done: bool)
      requires Valid() && t in c.deployments && t != requester
      modifies this
      ensures Valid() && old(log) <= log
      ensures writesLeft + 2 >= old(writesLeft)
      ensures old(writesLeft) >= 2 && Markable(old(c), t, requester) ==> done
      ensures done ==> c == if RequestedBy(old(c), t, requester) then old(c) else Marked(old(c), t, requester)
      ensures done ==> RequestedBy(c, t, requester)
    {
      hide LogOk;
      var status := c.deployments[t].status;
      if t.namespace != requester.namespace {
        return false;
      }
      if RequestedBy(c, t, requester) {
        return true;
      }
      if !CandidateAvailable(status.replacement) {
        return false;
      }
      assert StatusOk(c, t, c.deployments[t].spec.slot, status) by { StoredOk(t); }
      if status.replacement.Some? {
        var released := ReleaseReplacementTarget(status.replacement.value.target, t);
        if !released {
          return false;
        }
      }
      assert c.deployments[t].status == status;
      var marked := Replacement(ReplacementPhase.Draining, 0, None, Some(requester), c.clock);
      done := PatchStatus(t, status.(replacement := Some(marked)));
    }

    lemma StoredOk(d: Ref)
      requires Valid() && d in c.deployments
      ensures Inv(c)
      ensures StatusOk(c, d, c.deployments[d].spec.slot, c.deployments[d].status)
    {
      assert Inv(log[|log| - 1]);
    }

    method ReconcileDeactivation(d: Ref, status: Status, drained: bool) returns (done: bool)
      requires Valid() && d in c.deployments
      requires StatusOk(c, d, c.deployments[d].spec.slot, status)
      requires status.assignedNode == c.deployments[d].status.assignedNode
      requires !Reserves(status.replacement) && StepsTo(c, d, status.replacement)
      modifies this
      ensures Valid() && old(log) <= log
      ensures writesLeft + 2 >= old(writesLeft) && (old(writesLeft) >= 2 ==> done)
      ensures done ==> c == Deactivated(old(c), d, status, drained)
    {
      hide LogOk, Inv;
      var runtimeExists := d in c.runtimes;
      if status.phase.Draining? {
        done := DeleteRuntimeWorkload(d);
        if !done { return; }
        var next := if drained then status.(phase := Phase.Deactivating) else status;
        done := PatchStatus(d, next.(drainStarted := true));
      } else if status.phase.Deactivating? && runtimeExists {
        done := DeleteRuntimeWorkload(d);
        if !done { return; }
        done := PatchStatus(d, status);
      } else if runtimeExists {
        done := PatchStatus(d, status.(phase := Phase.Draining, drainStarted := true));
      } else {
        done := PatchStatus(d, status.(phase := Phase.Cached, assignedNode := "", drainStarted := false,
                                       readyReason := OtherReason));
      }
    }

    /** Anything written here keeps the transaction and gives the node up or keeps it. */
    method BeginReplacementRollback(d: Ref, status: Status) returns (done: bool)
      requires Valid() && d in c.deployments && Failing(c, d, status)
      modifies this
      ensures Valid() && old(log) <= log
      ensures writesLeft + 2 >= old(writesLeft) && (old(writesLeft) >= 2 ==> done)
      ensures done ==> c == RollbackBegun(old(c), d, status)
    {
      hide LogOk, Inv;
      done := DeleteRuntimeWorkload(d);
      if !done { return; }
      done := PatchStatus(d, status.(phase := Phase.Deactivating,
                                     replacement := InPhase(status.replacement, ReplacementPhase.RollingBack)));
    }

    method CancelPendingReplacement(d: Ref, status: Status) returns (done: bool)
      requires Valid() && d in c.deployments && InMemory(c, d, status) && Reserves(status.replacement)
      modifies this
      ensures Valid() && old(log) <= log
      ensures writesLeft + 2 >= old(writesLeft) && (old(writesLeft) >= 2 ==> done)
      ensures done ==> c == Canceled(old(c), d, status)
    {
      hide LogOk, Inv;
      done := ReleaseReplacementTarget(status.replacement.value.target, d);
      if !done { return; }
      done := PatchStatus(d, status.(phase := Phase.WaitingForGPU, replacement := None, assignedNode := "",
                                     readyReason := OtherReason));
    }

    /** Ends d's transaction in `phase` after letting the target go. */
    method EndReplacement(d: Ref, status: Status, phase: ReplacementPhase, release: bool) returns (done: bool)
      requires Valid() && d in c.deployments && InMemory(c, d, status) && Reserves(status.replacement)
      requires phase.RollbackFailed? || (phase.RolledBack? && status.replacement.value.phase.RollingBack?)
      requires PhaseStep(status.replacement.value.phase, phase)
      modifies this
      ensures Valid() && old(log) <= log
      ensures writesLeft + 2 >= old(writesLeft) && (old(writesLeft) >= 2 ==> done)
      ensures done ==> c == WithStatus(if release then Released(old(c), status.replacement.value.target, d) else old(c),
                                       d, Ended(status, phase))
    {
      hide LogOk, Inv;
      if release {
        done := ReleaseReplacementTarget(status.replacement.value.target, d);
        if !done { return; }
      }
      done := PatchStatus(d, Ended(status, phase));
    }

    /** A rollback ends as RolledBack exactly when the displaced model serves again, and is given up
        when it cannot be restored; until then the slot stays reserved for it. */
    method ReconcileReplacementRollback(d: Ref, status: Status) returns (done: bool)
      requires Valid() && d in c.deployments && InMemory(c, d, status)
      requires Reserves(status.replacement) && status.replacement.value.phase.RollingBack?
      modifies this
      ensures Valid() && old(log) <= log
      ensures writesLeft + 3 >= old(writesLeft) && (old(writesLeft) >= 3 ==> done)
      ensures done ==> RollbackAdvanced(old(c), c, d, status.replacement.value)
    {
      hide LogOk, Inv;
      var t := status.replacement.value.target.value;
      if t !in c.deployments {
        done := EndReplacement(d, status, ReplacementPhase.RollbackFailed, false);
        return;
      }
      if !c.deployments[t].spec.active {
        done := EndReplacement(d, status, ReplacementPhase.RollbackFailed, true);
        return;
      }
      if d in c.runtimes {
        done := DeleteRuntimeWorkload(d);
        if !done { return; }
        KeepsTransaction(c, d, status);
        done := PatchStatus(d, status);
        return;
      }
      var r := c.deployments[t].status.replacement;
      if r.Some? && r.value.requestedBy != Some(d) {
        done := EndReplacement(d, status, ReplacementPhase.RollbackFailed, false);
        return;
      }
      done := AwaitRestoration(d, status);
    }

    /** The slot is free again: ask the displaced model back and wait for it. */
    method AwaitRestoration(d: Ref, status: Status) returns (done: bool)
      requires Valid() && d in c.deployments && InMemory(c, d, status)
      requires Reserves(status.replacement) && status.replacement.value.phase.RollingBack?
      requires var t := status.replacement.value.target.value;
        t in c.deployments && (c.deployments[t].status.replacement.None? || RequestedBy(c, t, d))
      modifies this
      ensures Valid() && old(log) <= log
      ensures writesLeft + 3 >= old(writesLeft) && (old(writesLeft) >= 3 ==> done)
      ensures done ==> Settled(old(c), c, d, status)
    {
      hide LogOk, Inv, Forward;
      var t := status.replacement.value.target.value;
      var r := c.deployments[t].status.replacement;
      if r.None? || !r.value.phase.RollingBack? {
        done := AskBack(d, status);
        if !done { return; }
      }
      done := Settle(d, status);
    }

    method AskBack(d: Ref, status: Status) returns (done: bool)
      requires Valid() && d in c.deployments && InMemory(c, d, status) && Reserves(status.replacement)
      requires var t := status.replacement.value.target.value;
        t in c.deployments && (c.deployments[t].status.replacement.None? || RequestedBy(c, t, d))
      modifies this
      ensures Valid() && old(log) <= log
      ensures writesLeft + 1 >= old(writesLeft) && (old(writesLeft) >= 1 ==> done)
      ensures d in c.deployments && InMemory(c, d, status)
      ensures done ==>
        var t := status.replacement.value.target.value;
        var y := old(c).deployments[t].status;
        c == WithStatus(old(c), t, y.(replacement := Some(Restoring(y.replacement, d))))
    {
      hide LogOk, Inv, Forward;
      var t := status.replacement.value.target.value;
      assert StatusOk(c, t, c.deployments[t].spec.slot, c.deployments[t].status) by { StoredOk(t); }
      var y := c.deployments[t].status;
      done := PatchStatus(t, y.(replacement := Some(Restoring(y.replacement, d))));
    }

    method Settle(d: Ref, status: Status) returns (done: bool)
      requires Valid() && d in c.deployments && InMemory(c, d, status)
      requires Reserves(status.replacement) && status.replacement.value.phase.RollingBack?
      requires var t := status.replacement.value.target.value;
        RequestedBy(c, t, d) && c.deployments[t].status.replacement.value.phase.RollingBack?
      modifies this
      ensures Valid() && old(log) <= log
      ensures writesLeft + 2 >= old(writesLeft) && (old(writesLeft) >= 2 ==> done)
      ensures done ==> Settled(old(c), c, d, status)
    {
      hide LogOk, Inv, Forward;
      var phase := c.deployments[status.replacement.value.target.value].status.phase;
      if phase.Active? || phase.Failed? {
        var end := if phase.Active? then ReplacementPhase.RolledBack else ReplacementPhase.RollbackFailed;
        done := EndReplacement(d, status, end, true);
      } else {
        done := PatchStatus(d, status.(phase := Phase.Deactivating, readyReason := OtherReason));
      }
    }

    /** The displaced side: handled here exactly while a requester owns the slot. */
    method ReconcileReplacementParticipant(d: Ref, status: Status, drained: bool) returns (handled: bool, next: Status)
      requires Valid() && d in c.deployments && InMemory(c, d, status)
      modifies this
      ensures Valid() && old(log) <= log
      ensures handled <==> IsDisplaced(old(c), d, status)
      ensures !handled ==> c == old(c) && InMemory(c, d, next) && next == Undisplaced(c, d, status)
      ensures !handled ==> writesLeft == old(writesLeft)
      ensures handled && old(writesLeft) >= 2 ==> c == Yielded(old(c), d, status, drained)
    {
      hide LogOk, Inv;
      next := status;
      handled := IsDisplaced(c, d, status);
      if !handled {
        next := Undisplaced(c, d, status);
        return;
      }
      var r := c.deployments[status.replacement.value.requestedBy.value].status;
      if r.replacement.value.phase.Draining? {
        var draining := status.(replacement := InPhase(status.replacement, ReplacementPhase.Draining));
        var _ := ReconcileDeactivation(d, draining, drained);
      } else if r.replacement.value.phase.Activating? {
        if d in c.runtimes || status.assignedNode != "" {
          var _ := ReconcileDeactivation(d, status, drained);
        } else {
          var _ := PatchStatus(d, status.(
            phase := Phase.Cached, replacement := InPhase(status.replacement, ReplacementPhase.Displaced)));
        }
      } else {
        var _ := PatchStatus(d, status.(
          phase := Phase.WaitingForGPU, assignedNode := "", readyReason := OtherReason,
          replacement := InPhase(status.replacement, ReplacementPhase.Displaced)));
      }
    }

    /** The requester's side. It lets the reconcile go on to activation exactly when no transaction
        stands in the way, or when the transaction's slot has been left. */
    method ReconcileReplacementRequester(d: Ref, status: Status) returns (handled: bool, next: Status)
      requires Valid() && d in c.deployments && InMemory(c, d, status)
      modifies this
      ensures Valid() && old(log) <= log
      ensures old(c.deployments[d].spec.active) ==> (!handled <==> MayActivate(old(c), d, status))
      ensures !handled && old(c.deployments[d].spec.active) ==>
        c == old(c) && Prepared(c, d, next) && next == TakingOver(status)
      ensures !handled && old(c.deployments[d].spec.active) ==> writesLeft == old(writesLeft)
      ensures handled && old(c.deployments[d].spec.active) && old(writesLeft) >= 3 ==> Advanced(old(c), c, d, status)
      ensures !old(c.deployments[d].spec.active) ==>
        && writesLeft + 1 >= old(writesLeft) && (old(writesLeft) >= 1 ==> !handled)
        && (!handled ==> c == Released(old(c), TargetOf(status), d) && next == Dropped(status))
      ensures !handled && !old(c.deployments[d].spec.active) ==>
        && d in c.deployments && !c.deployments[d].spec.active
        && StatusOk(c, d, c.deployments[d].spec.slot, next)
        && next.assignedNode == c.deployments[d].status.assignedNode
        && !Reserves(next.replacement) && StepsTo(c, d, next.replacement)
    {
      hide LogOk, Inv;
      next := status;
      handled := false;
      if status.replacement.None? || status.replacement.value.target.None? {
        FinishedIsPrepared(d, status);
        return;
      }
      var r := status.replacement.value;
      var x := c.deployments[d];
      if !x.spec.active {
        var ok := ReleaseReplacementTarget(r.target, d);
        handled := !ok;
        next := status.(replacement := None);
        return;
      }
      if Superseded(c, d, r) {
        if r.phase.Draining? {
          handled := true;
          var _ := CancelPendingReplacement(d, status);
          return;
        } else if r.phase.Activating? {
          handled := true;
          var _ := BeginReplacementRollback(d, status);
          return;
        }
      }
      if r.phase.RollingBack? {
        handled := true;
        var _ := ReconcileReplacementRollback(d, status);
        return;
      }
      if !r.phase.Draining? {
        FinishedIsPrepared(d, status);
        return;
      }
      handled := !MayActivate(c, d, status);
      if handled {
        var _ := AwaitTarget(d, status);
      } else {
        next := TakingOver(status);
      }
    }

    lemma FinishedIsPrepared(d: Ref, status: Status)
      requires Valid() && d in c.deployments && InMemory(c, d, status)
      requires Reserves(status.replacement) ==>
        status.replacement.value.phase.Activating? && IsReplacementPolicy(c.deployments[d].spec.whenFull)
      ensures Prepared(c, d, status)
    {
      assert Inv(log[|log| - 1]);
      assert TargetVacant(c, d);
    }

    /** Draining: mark the target, give up exactly when it is lost, or keep waiting for it to leave. */
    method AwaitTarget(d: Ref, status: Status) returns (done: bool)
      requires Valid() && d in c.deployments && InMemory(c, d, status)
      requires Reserves(status.replacement) && status.replacement.value.phase.Draining?
      modifies this
      ensures Valid() && old(log) <= log
      ensures old(writesLeft) >= 3 ==> done
      ensures done ==> TargetAwaited(old(c), c, d, status)
    {
      hide LogOk, Inv, Forward;
      var t := status.replacement.value.target.value;
      if t !in c.deployments {
        done := EndReplacement(d, status, ReplacementPhase.RollbackFailed, false);
        return;
      }
      var y := c.deployments[t];
      if Takeable(c, t) {
        done := MarkAndWait(d, status);
        return;
      }
      if y.status.replacement.Some? && y.status.replacement.value.requestedBy != Some(d) {
        done := EndReplacement(d, status, ReplacementPhase.RollbackFailed, false);
        return;
      }
      if y.status.phase.Failed? {
        done := EndReplacement(d, status, ReplacementPhase.RollbackFailed, true);
      } else {
        done := PatchStatus(d, status.(phase := Phase.WaitingForGPU, readyReason := OtherReason));
      }
    }

    /** The target serves unclaimed: ask it to leave, then wait. */
    method MarkAndWait(d: Ref, status: Status) returns (done: bool)
      requires Valid() && d in c.deployments && InMemory(c, d, status)
      requires Reserves(status.replacement) && status.replacement.value.phase.Draining?
      requires status.replacement.value.target.value in c.deployments
      requires Takeable(c, status.replacement.value.target.value)
      modifies this
      ensures Valid() && old(log) <= log
      ensures old(writesLeft) >= 3 ==> done
      ensures done ==> TargetAwaited(old(c), c, d, status)
    {
      hide LogOk, Inv, Forward;
      done := MarkReplacementTarget(status.replacement.value.target.value, d);
      if !done { return; }
      done := PatchStatus(d, status.(phase := Phase.WaitingForGPU, readyReason := OtherReason));
    }

    method Listing(objects: set<Ref>) returns (items: seq<Ref>)
      ensures Lists(items, objects)
    {
      items := [];
      var rest := objects;
      while rest != {}
        invariant rest <= objects
        invariant forall e :: e in items <==> e in objects && e !in rest
        invariant forall i, j :: 0 <= i < j < |items| ==> items[i] != items[j]
      {
        var e :| e in rest;
        items := items + [e];
        rest := rest - {e};
      }
    }

    /** Asks the planner for the one slot the deployment needs on its cache node. */
    method ReserveGpu(d: Ref) returns (granted: bool)
      requires Valid() && d in c.deployments
      ensures granted <==> Charges.Affordable(c, config, d)
      ensures granted <==> Grantable(c, config, d)
    {
      hide LogOk, Inv, Charges.Affordable, IsPlan;
      var items := Listing(c.deployments.Keys);
      var runtimeItems := Listing(c.runtimes.Keys);
      var allocations := GpuAllocations(c, d, items, runtimeItems);
      var spec := c.deployments[d].spec;
      var plan := Plan(config, RequestFor(spec), NodesNamed(c.nodes, spec.slot.node), allocations);
      granted := plan.Planned?;
      LocalKnown(c) by { StoredOk(d); }
      Charges.PlannedExactlyWhenAffordable(c, config, d, items, runtimeItems, plan);
      if Single(c.nodes, spec.slot) {
        PlannedExactlyWhenClear(c, config, d, items, runtimeItems, plan);
      }
    }

    /** Opens a transaction against the least eligible serving deployment, or fails for want of one. */
    method StartReplacement(d: Ref, status: Status) returns (done: bool)
      requires Valid() && d in c.deployments
      requires StatusOk(c, d, c.deployments[d].spec.slot, status.(phase := Phase.WaitingForGPU))
      requires status.assignedNode == "" && !Reserves(status.replacement) && StepsTo(c, d, status.replacement)
      modifies this
      ensures Valid() && old(log) <= log
      ensures writesLeft + 3 >= old(writesLeft) && (old(writesLeft) >= 3 ==> done)
      ensures done ==> ReplacementOutcome(old(c), c, d, status)
    {
      hide LogOk, Inv, Forward, Start;
      var items := Listing(c.deployments.Keys);
      var target := SelectReplacementTarget(c, d, items);
      if target.None? {
        done := PatchStatus(d, FailedStatus(status, OtherReason));
        return;
      }
      var t := target.value;
      StoredOk(t);
      ghost var before := c;
      var next := Started(c, d, status, t);
      StartIsOk(c, d, status, t);
      done := Write(next);
      if !done { return; }
      done := MarkReplacementTarget(t, d);
      assert done ==> TransactionOpened(before, c, d, status, t);
    }

    method HandleGpuCapacityError(d: Ref, status: Status) returns (done: bool)
      requires Valid() && d in c.deployments && Prepared(c, d, status)
      modifies this
      ensures Valid() && old(log) <= log
      ensures writesLeft + 4 >= old(writesLeft) && (old(writesLeft) >= 4 ==> done)
      ensures done ==> RefusedOutcome(old(c), c, d, status)
    {
      hide LogOk, Inv;
      if Reserves(status.replacement) {
        done := BeginReplacementRollback(d, status);
        return;
      }
      done := DeleteRuntimeWorkload(d);
      if !done { return; }
      var next := status.(assignedNode := "");
      match c.deployments[d].spec.whenFull {
        case Queue =>
          done := PatchStatus(d, next.(phase := Phase.WaitingForGPU, readyReason := OtherReason));
        case Reject =>
          done := PatchStatus(d, FailedStatus(next, OtherReason));
        case _ =>
          done := StartReplacement(d, next);
      }
    }

    /** Idle deployments keep a runtime object with no replicas and no claim on the slot. */
    method ScaleToZero(d: Ref, status: Status, buildFails: bool) returns (done: bool)
      requires Valid() && d in c.deployments && Prepared(c, d, status)
      modifies this
      ensures Valid() && old(log) <= log
      ensures writesLeft + 2 >= old(writesLeft) && (old(writesLeft) >= 2 ==> done)
      ensures done ==> c == IdleOutcome(old(c), d, status, buildFails)
    {
      hide LogOk, Inv, Forward;
      if buildFails {
        done := DeleteRuntimeWorkload(d);
        if !done { return; }
        done := PatchStatus(d, FailedStatus(status, OtherReason));
        return;
      }
      done := StoreIdleRuntime(d);
      if !done { return; }
      done := PatchStatus(d, status.(phase := Phase.Cached, readyReason := OtherReason));
    }

    method StoreIdleRuntime(d: Ref) returns (done: bool)
      requires Valid() && d in c.deployments
      modifies this
      ensures Valid() && old(log) <= log
      ensures writesLeft + 1 >= old(writesLeft) && (old(writesLeft) >= 1 ==> done)
      ensures c == if done then WithRuntime(old(c), d, RuntimeAtZero(old(c), d)) else old(c)
    {
      hide LogOk, Inv;
      var runtime := RuntimeAtZero(c, d);
      StoredOk(d);
      LocalSlot(c, d);
      IdleWrite(c, d, runtime);
      RuntimeForward(c, d, runtime);
      done := Write(WithRuntime(c, d, runtime));
    }

    /** After a granted reservation: check the node, bring the runtime up, report what it says. */
    method Activate(d: Ref, status: Status, o: Observed) returns (done: bool)
      requires Valid() && d in c.deployments && Prepared(c, d, status)
      requires Single(c.nodes, c.deployments[d].spec.slot) ==> Clear(c, d)
      requires Single(c.nodes, c.deployments[d].spec.slot) && o.preflight.NodeFits? && !o.buildFails ==>
        Reserves(status.replacement) || HidesNothing(c, d, o.templateChanged)
      modifies this
      ensures Valid() && old(log) <= log
      ensures writesLeft + 3 >= old(writesLeft) && (old(writesLeft) >= 3 ==> done)
      ensures done ==> c == ActivationOutcome(old(c), d, status, o)
    {
      hide LogOk, Inv, Yields;
      if !o.preflight.NodeFits? {
        done := Unplaceable(d, status, o.preflight);
        return;
      }
      LocalSlot(c, d) by { StoredOk(d); }
      var claimed := status.(assignedNode := c.deployments[d].spec.slot.node);
      if o.buildFails {
        done := Abandon(d, status, claimed);
        return;
      }
      var runtime := RuntimeAtOne(c, d, o.templateChanged);
      ghost var serves := runtime.ready || Reserves(status.replacement);
      Reserved(d, status, o.templateChanged);
      done := BringUp(d, runtime, serves);
      if !done { return; }
      done := Report(d, claimed, runtime);
    }

    /** The runtime cannot be built: the reservation stays stored on a failed deployment. */
    method Abandon(d: Ref, status: Status, claimed: Status) returns (done: bool)
      requires Valid() && d in c.deployments && Prepared(c, d, status)
      requires Single(c.nodes, c.deployments[d].spec.slot) ==> Clear(c, d)
      requires claimed == status.(assignedNode := c.deployments[d].spec.slot.node)
      modifies this
      ensures Valid() && old(log) <= log
      ensures writesLeft + 2 >= old(writesLeft) && (old(writesLeft) >= 2 ==> done)
      ensures done ==> c == WithStatus(DeletionRequested(old(c), d), d, FailedStatus(claimed, OtherReason))
    {
      hide LogOk, Inv, Yields, Forward, Claim;
      LocalSlot(c, d) by { StoredOk(d); }
      PreparedSurvivesDeletion(c, d, status);
      if Reserves(status.replacement) {
        Reserved(d, status, false);
        YieldSurvivesDeletion(c, d, true);
      }
      done := DeleteRuntimeWorkload(d);
      if !done { return; }
      if Reserves(status.replacement) {
        YieldsLess(c, d, true, false);
      }
      AbandonedIsClaim(c, d, status, claimed);
      hide Claim, Prepared, StepsTo, AllYield;
      done := ClaimStatus(d, FailedStatus(claimed, OtherReason));
    }

    /** Reports the runtime of a reserved slot; a failed takeover starts its rollback. */
    method Report(d: Ref, claimed: Status, runtime: Runtime) returns (done: bool)
      requires Valid() && d in c.deployments && AllYield(c, d, runtime.ready || Reserves(claimed.replacement))
      requires StatusOk(c, d, c.deployments[d].spec.slot, claimed)
      requires claimed.assignedNode != "" && StepsTo(c, d, claimed.replacement)
      requires Reserves(claimed.replacement) ==> TakesOver(c, d, claimed.replacement)
      modifies this
      ensures Valid() && old(log) <= log
      ensures writesLeft + 2 >= old(writesLeft) && (old(writesLeft) >= 2 ==> done)
      ensures done ==> c == if !runtime.ready && runtime.failed && Reserves(claimed.replacement)
                            then RollbackBegun(old(c), d, claimed)
                            else WithStatus(old(c), d, Projected(claimed, runtime))
    {
      hide LogOk, Inv, Yields;
      if !runtime.ready && runtime.failed && Reserves(claimed.replacement) {
        YieldSurvivesDeletion(c, d, true);
        done := DeleteRuntimeWorkload(d);
        if !done { return; }
        YieldsLess(c, d, true, false);
        done := ClaimStatus(d, claimed.(phase := Phase.Deactivating,
                                        replacement := InPhase(claimed.replacement, ReplacementPhase.RollingBack)));
      } else {
        YieldsLess(c, d, runtime.ready || Reserves(claimed.replacement), runtime.ready);
        done := ClaimStatus(d, Projected(claimed, runtime));
      }
    }

    /** A clear view grants the slot: to a takeover whose target has left, and otherwise to a
        deployment whose stored handoff hides nothing. */
    lemma Reserved(d: Ref, status: Status, templateChanged: bool)
      requires Valid() && d in c.deployments && Prepared(c, d, status)
      requires Single(c.nodes, c.deployments[d].spec.slot) ==> Clear(c, d)
      requires Single(c.nodes, c.deployments[d].spec.slot) && !Reserves(status.replacement) ==>
        HidesNothing(c, d, templateChanged)
      ensures AllYield(c, d, RuntimeAtOne(c, d, templateChanged).ready || Reserves(status.replacement))
    {
      StoredOk(d);
      if Single(c.nodes, c.deployments[d].spec.slot) {
        var serves := RuntimeAtOne(c, d, templateChanged).ready || Reserves(status.replacement);
        forall e ensures Yields(c, d, e, serves) {
          if Reserves(status.replacement) { ClearMeansGranted(c, d, e); } else { Reopened(c, d, e, templateChanged); }
          assert e in c.deployments ==> StatusOk(c, e, c.deployments[e].spec.slot, c.deployments[e].status);
        }
      }
    }

    method BringUp(d: Ref, runtime: Runtime, ghost serves: bool) returns (done: bool)
      requires Valid() && d in c.deployments && AllYield(c, d, serves)
      requires runtime.slot == c.deployments[d].spec.slot
      modifies this
      ensures Valid() && old(log) <= log
      ensures writesLeft + 1 >= old(writesLeft) && (old(writesLeft) >= 1 ==> done)
      ensures c == if done then WithRuntime(old(c), d, runtime) else old(c)
      ensures d in c.deployments && AllYield(c, d, serves)
    {
      hide LogOk;
      StoredOk(d);
      RunWrite(c, d, runtime, serves);
      RuntimeForward(c, d, runtime);
      done := Write(WithRuntime(c, d, runtime));
    }

    /** The selected node cannot run the pod: the reservation is given back. */
    method Unplaceable(d: Ref, status: Status, preflight: Preflight) returns (done: bool)
      requires Valid() && d in c.deployments && Prepared(c, d, status)
      modifies this
      ensures Valid() && old(log) <= log
      ensures writesLeft + 2 >= old(writesLeft) && (old(writesLeft) >= 2 ==> done)
      ensures done ==> c == WithStatus(DeletionRequested(old(c), d), d,
                                       Unfit(status, preflight, old(c.deployments[d].spec.whenFull)))
    {
      hide LogOk, Inv, Forward, Prepared, Quiet, StepsTo, Unfit;
      PreparedSurvivesDeletion(c, d, status);
      done := DeleteRuntimeWorkload(d);
      if !done { return; }
      UnfitIsQuiet(c, d, status, preflight);
      done := PatchStatus(d, Unfit(status, preflight, c.deployments[d].spec.whenFull));
    }

    /** Gives everything up: releases the named target, deletes the runtime, stores `next` without a node. */
    method Withdraw(d: Ref, target: Option<Ref>, next: Status) returns (done: bool)
      requires Valid() && d in c.deployments && target != Some(d)
      requires next.assignedNode == "" && StatusOk(c, d, c.deployments[d].spec.slot, next)
      requires TargetOf(next).None? || next.replacement == c.deployments[d].status.replacement
      modifies this
      ensures Valid() && old(log) <= log
      ensures writesLeft + 3 >= old(writesLeft) && (old(writesLeft) >= 3 ==> done)
      ensures done ==> c == WithStatus(DeletionRequested(Released(old(c), target, d), d), d, next)
    {
      hide LogOk, Inv, Released;
      ReleaseLeavesOthers(c, target, d);
      done := ReleaseReplacementTarget(target, d);
      if !done { return; }
      done := DeleteRuntimeWorkload(d);
      if !done { return; }
      done := PatchStatus(d, next);
    }

    /** Invalid or permanently failed deployments lose their runtime and their node. */
    method TerminalFailure(d: Ref, status: Status) returns (done: bool)
      requires Valid() && d in c.deployments && status.phase.Failed? && status.readyReason.OtherReason?
      requires status.replacement == c.deployments[d].status.replacement
      modifies this
      ensures Valid() && old(log) <= log
      ensures writesLeft + 3 >= old(writesLeft) && (old(writesLeft) >= 3 ==> done)
      ensures done ==> c == WithStatus(DeletionRequested(Released(old(c), DroppedTarget(status), d), d), d,
                                       Terminal(status))
    {
      hide LogOk, Inv;
      StoredOk(d);
      done := Withdraw(d, DroppedTarget(status), Terminal(status));
    }

    /** Without a verified cache there is neither a runtime nor a transaction. */
    method CacheNotReady(d: Ref, status: Status, cache: CacheState) returns (done: bool)
      requires Valid() && d in c.deployments && InMemory(c, d, status)
      modifies this
      ensures Valid() && old(log) <= log
      ensures writesLeft + 3 >= old(writesLeft) && (old(writesLeft) >= 3 ==> done)
      ensures done ==> c == WithStatus(DeletionRequested(Released(old(c), TargetOf(status), d), d), d,
                                       WithoutCache(status, cache))
    {
      hide LogOk, Inv;
      done := Withdraw(d, TargetOf(status), WithoutCache(status, cache));
    }

    /** A resource the controller may not touch fails the deployment; node and transaction stay stored. */
    method FailOnConflict(d: Ref, status: Status, reason: ReadyReason) returns (done: bool)
      requires Valid() && d in c.deployments && InMemory(c, d, status)
      modifies this
      ensures Valid() && old(log) <= log
      ensures writesLeft + 2 >= old(writesLeft) && (old(writesLeft) >= 2 ==> done)
      ensures done ==> c == Conflicted(old(c), d, status, reason)
    {
      hide LogOk, Inv;
      assert TargetVacant(c, d) by { StoredOk(d); VacancyKnown(c, d); }
      done := DeleteRuntimeWorkload(d);
      if !done { return; }
      done := PatchStatus(d, FailedStatus(status, reason));
    }

    /** One reconcile. Cut short or not, it keeps every slot exclusive and every transaction moving
        forward, provided it does not reopen a slot whose hidden target is still there. */
    method Reconcile(d: Ref, o: Observed)
      requires Valid()
      requires d in c.deployments && Reopens(c, config, d, o) ==> HidesNothing(c, d, o.templateChanged)
      modifies this
      ensures Valid() && old(log) <= log
      ensures d !in old(c.deployments) ==> c == old(c)
      ensures d in old(c.deployments) && old(writesLeft) >= 4 ==> ReconcileOutcome(old(c), c, config, d, o)
    {
      hide LogOk, Inv, CachedOutcome, Released, DeletionRequested, Validated, InMemory, Quiet;
      hide Reusable, Reopens, HidesNothing;
      if d !in c.deployments {
        return;
      }
      ValidatedIsReady(d, o);
      var status := Validated(c.deployments[d], o.valid);
      if status.phase.Failed? && !status.readyReason.CacheFailed? {
        var _ := TerminalFailure(d, status);
        return;
      }
      if !o.conflict.NoConflict? {
        var _ := FailOnConflict(d, status, if o.conflict.CacheConflict? then CacheFailed else OtherReason);
        return;
      }
      if o.cache.CacheCreated? {
        CreatedCacheIsQuiet(d, status);
        StepsAlong(d, status);
        var _ := PatchStatus(d, status.(phase := Phase.Pending, readyReason := OtherReason));
        return;
      }
      if !o.cache.CacheReady? {
        var _ := CacheNotReady(d, status, o.cache);
        return;
      }
      ReconcileWithCache(d, status, o);
    }

    /** With the cache in place: replacement first, then deactivation, idling or activation. */
    method ReconcileWithCache(d: Ref, status: Status, o: Observed)
      requires Valid() && d in c.deployments && InMemory(c, d, status) && o.conflict.NoConflict? && o.cache.CacheReady?
      requires Reusable(c, config, d, status, o)
      modifies this
      ensures Valid() && old(log) <= log
      ensures old(writesLeft) >= 4 ==> CachedOutcome(old(c), c, config, d, status, o)
    {
      hide LogOk, Inv, ReservationOutcome, IdleOutcome, Yielded, Advanced, Deactivated, IsDisplaced, MayActivate;
      var handled, next := ReconcileReplacementParticipant(d, status, o.drained);
      if handled { return; }
      handled, next := ReconcileReplacementRequester(d, next);
      if handled { return; }
      if !c.deployments[d].spec.active {
        var _ := ReconcileDeactivation(d, next, o.drained);
        return;
      }
      next := next.(drainStarted := false);
      if o.idle {
        var _ := ScaleToZero(d, next, o.buildFails);
        return;
      }
      ReserveAndActivate(d, next, o);
    }

    /** The reservation decides between activation and the policy for a full slot. */
    method ReserveAndActivate(d: Ref, status: Status, o: Observed)
      requires Valid() && d in c.deployments && Prepared(c, d, status)
      requires o.conflict.NoConflict? && o.cache.CacheReady? && !o.idle && c.deployments[d].spec.active
      requires Reusable(c, config, d, status, o)
      modifies this
      ensures Valid() && old(log) <= log
      ensures old(writesLeft) >= 4 ==> ReservationOutcome(old(c), c, config, d, status, o)
    {
      hide LogOk, Inv, ActivationOutcome, RefusedOutcome;
      var granted := ReserveGpu(d);
      if granted {
        var _ := Activate(d, status, o);
      } else {
        var _ := HandleGpuCapacityError(d, status);
      }
    }

    /** What the validation layer hands on is fit to be stored at once, or to be worked on. */
    lemma ValidatedIsReady(d: Ref, o: Observed)
      requires Valid() && d in c.deployments
      requires Reopens(c, config, d, o) ==> HidesNothing(c, d, o.templateChanged)
      ensures var status := Validated(c.deployments[d], o.valid);
        if status.phase.Failed? && !status.readyReason.CacheFailed?
        then status.replacement == c.deployments[d].status.replacement
        else InMemory(c, d, status) && (o.conflict.NoConflict? && o.cache.CacheReady? ==>
          Reusable(c, config, d, status, o))
    {
      hide Inv, Clear, Placeable, Single, LogOk;
      StoredOk(d);
      VacancyKnown(c, d);
      KeepsTransaction(c, d, c.deployments[d].status);
    }

    lemma StepsAlong(d: Ref, status: Status)
      requires d in c.deployments && InMemory(c, d, status)
      ensures StepsTo(c, d, status.replacement)
    {}

    lemma CreatedCacheIsQuiet(d: Ref, status: Status)
      requires Valid() && d in c.deployments && InMemory(c, d, status)
      ensures Quiet(c, d, status.(phase := Phase.Pending, readyReason := OtherReason))
    {
      StoredOk(d);
      VacancyKnown(c, d);
    }

    /** One event of a run: a reconcile that dies after some number of writes, or the world moving on. */
    method Step(e: Event)
      requires Valid() && Admissible(c, config, e)
      modifies this
      ensures Valid() && old(log) <= log
      ensures Happens(old(c), c, config, e)
    {
      hide LogOk, ReconcileOutcome;
      match e {
        case ReconcileEvent(d, o, writes) =>
          writesLeft := writes;
          if writes == 0 {
            return;
          }
          Reconcile(d, o);
        case _ =>
          Now();
          MoveIsOk(c, config, e);
          World(Moved(c, e));
      }
    }

    lemma Now()
      requires Valid()
      ensures Inv(c)
    {
      assert Inv(log[|log| - 1]);
    }

    method World(next: Cluster)
      requires Valid() && Inv(next) && Forward(c, next)
      modifies this
      ensures Valid() && old(log) <= log && c == next
    {
      writesLeft := 1;
      var _ := Write(next);
    }

    /** Any schedule of events: after every single write no single-unit slot runs two models or has two
        reported Active, and every transaction moved forward. The run stops at an event that is not
        admissible. */
    method Run(events: seq<Event>) returns (stopped: bool, ghost states: seq<Cluster>)
      requires Valid()
      modifies this
      ensures Valid() && old(log) <= log
      ensures Follows(states, config, events, stopped) && states[0] == old(c) && states[|states| - 1] == c
      ensures forall k | 0 <= k < |states| :: states[k] in log
      ensures forall i | 0 <= i < |log| :: Exclusive(log[i].runtimes, log[i].nodes) && OneActive(log[i])
    {
      hide LogOk, Happens, Admissible, Exclusive, OneActive;
      stopped, states := false, [c];
      LastIsLogged();
      for k := 0 to |events|
        invariant Valid() && old(log) <= log
        invariant |states| == k + 1 && states[0] == old(c) && states[k] == c
        invariant forall j | 0 <= j < k ::
          Admissible(states[j], config, events[j]) && Happens(states[j], states[j + 1], config, events[j])
        invariant forall j | 0 <= j <= k :: states[j] in log
      {
        if !Admissible(c, config, events[k]) {
          stopped := true;
          break;
        }
        Step(events[k]);
        LastIsLogged();
        states := states + [c];
      }
      LogIsExclusive();
    }

    lemma LastIsLogged()
      requires Valid()
      ensures c in log
    {}

    lemma LogIsExclusive()
      requires Valid()
      ensures forall i | 0 <= i < |log| :: Exclusive(log[i].runtimes, log[i].nodes) && OneActive(log[i])
    {
      hide Exclusive, OneActive;
      forall i | 0 <= i < |log| ensures Exclusive(log[i].runtimes, log[i].nodes) && OneActive(log[i]) {
        assert Inv(log[i]);
      }
    }
  }
}
