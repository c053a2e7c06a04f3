/** Whole runs of the controller: a log holds the cluster after every single write. */
module ReplacementRuns {
  import opened Deployments
  import opened SlotSafety

  /** How far a requester's transaction has come. */
  function Rank(p: ReplacementPhase): nat {
    match p
    case Draining => 0
    case Activating => 1
    case Succeeded | RollingBack => 2
    case RolledBack | RollbackFailed | Displaced => 3
  }

  predicate PhaseStep(p: ReplacementPhase, q: ReplacementPhase) {
    match p
    case Draining => q.Activating? || q.Succeeded? || q.RollingBack? || q.RollbackFailed?
    case Activating => q.Succeeded? || q.RollingBack?
    case RollingBack => q.RolledBack? || q.RollbackFailed?
    case _ => false
  }

  /** The target has left: no runtime object and no assigned node. */
  predicate Vacated(c: Cluster, t: Ref) {
    t !in c.runtimes && (t in c.deployments ==> c.deployments[t].status.assignedNode == "")
  }

  /** Whether d is the requester of transaction number `tx`. */
  predicate Requests(c: Cluster, d: Ref, tx: nat) {
    && d in c.deployments
    && c.deployments[d].status.replacement.Some?
    && c.deployments[d].status.replacement.value.target.Some?
    && c.deployments[d].status.replacement.value.startedAt == tx
  }

  function Current(c: Cluster, d: Ref): Replacement
    requires d in c.deployments && c.deployments[d].status.replacement.Some?
  {
    c.deployments[d].status.replacement.value
  }

  ghost predicate ForwardAt(c: Cluster, c': Cluster, d: Ref)
    requires d in c'.deployments
  {
    if d !in c.deployments then d !in c.known && c'.deployments[d].status.replacement.None?
    else
      var r' := c'.deployments[d].status.replacement;
      r'.Some? && r'.value.target.Some? ==>
        if Requests(c, d, r'.value.startedAt) then
          var r := Current(c, d);
          && r'.value.target == r.target
          && (r'.value.phase != r.phase ==>
                && PhaseStep(r.phase, r'.value.phase)
                && (r.phase.Draining? && !r'.value.phase.RollbackFailed? ==> Vacated(c, r.target.value)))
        else
          r'.value.phase.Draining? && r'.value.startedAt >= c.clock
  }

  /** One write moves every transaction forward, starts it at Draining, or ends it. */
  ghost predicate Forward(c: Cluster, c': Cluster) {
    && c.clock <= c'.clock
    && c.known <= c'.known
    && (forall d <- c'.deployments :: ForwardAt(c, c', d))
  }

  ghost predicate LogOk(log: seq<Cluster>) {
    && log != []
    && log[0].deployments == map[] && log[0].runtimes == map[]
    && (forall i | 0 <= i < |log| :: Inv(log[i]))
    && (forall i | 0 < i < |log| :: Forward(log[i - 1], log[i]))
  }

  lemma {:induction false} LogGrows(log: seq<Cluster>, i: nat, j: nat)
    requires LogOk(log) && i <= j < |log|
    ensures log[i].clock <= log[j].clock && log[i].known <= log[j].known
  {
    hide Inv;
    if i < j {
      LogGrows(log, i, j - 1);
      assert Forward(log[j - 1], log[j]);
    }
  }

  lemma LogStep(log: seq<Cluster>, j: nat, d: Ref)
    requires LogOk(log) && 0 < j < |log| && d in log[j].deployments
    ensures ForwardAt(log[j - 1], log[j], d)
  {
    hide Inv;
    assert Forward(log[j - 1], log[j]);
  }

  /** A transaction seen at i and again at j was there in between. */
  lemma Continues(log: seq<Cluster>, i: nat, j: nat, d: Ref, tx: nat)
    requires LogOk(log) && i < j < |log|
    requires Requests(log[i], d, tx) && Requests(log[j], d, tx)
    ensures Requests(log[j - 1], d, tx)
  {
    hide LogOk;
    LogGrows(log, i, j - 1);
    StartedBefore(log, i, d, tx);
    LogStep(log, j, d);
  }

  lemma StartedBefore(log: seq<Cluster>, i: nat, d: Ref, tx: nat)
    requires LogOk(log) && i < |log| && Requests(log[i], d, tx)
    ensures tx < log[i].clock && d in log[i].known
  {
    hide Forward;
    assert Inv(log[i]) && StatusOk(log[i], d, log[i].deployments[d].spec.slot, log[i].deployments[d].status);
  }

  /** Over any stretch of a run a transaction keeps its target and never steps back. */
  lemma {:induction false} OneDirection(log: seq<Cluster>, i: nat, j: nat, d: Ref, tx: nat)
    requires LogOk(log) && i <= j < |log|
    requires Requests(log[i], d, tx) && Requests(log[j], d, tx)
    ensures Current(log[i], d).target == Current(log[j], d).target
    ensures Rank(Current(log[i], d).phase) < Rank(Current(log[j], d).phase)
            || Current(log[i], d).phase == Current(log[j], d).phase
  {
    hide LogOk;
    if i < j {
      Continues(log, i, j, d, tx);
      OneDirection(log, i, j - 1, d, tx);
      LogStep(log, j, d);
    }
  }

  ghost function PhaseChanges(log: seq<Cluster>, i: nat, j: nat, d: Ref, tx: nat): nat
    requires i <= j < |log|
    decreases j
  {
    if i == j then 0
    else
      var changed := Requests(log[j - 1], d, tx) && Requests(log[j], d, tx)
                     && Current(log[j - 1], d).phase != Current(log[j], d).phase;
      PhaseChanges(log, i, j - 1, d, tx) + (if changed then 1 else 0)
  }

  /** A transaction changes phase at most three times in its life. */
  lemma {:induction false} AtMostThreeChanges(log: seq<Cluster>, i: nat, j: nat, d: Ref, tx: nat)
    requires LogOk(log) && i <= j < |log|
    requires Requests(log[i], d, tx) && Requests(log[j], d, tx)
    ensures PhaseChanges(log, i, j, d, tx) <= Rank(Current(log[j], d).phase) - Rank(Current(log[i], d).phase) <= 3
  {
    hide LogOk;
    if i < j {
      Continues(log, i, j, d, tx);
      AtMostThreeChanges(log, i, j - 1, d, tx);
      LogStep(log, j, d);
    }
  }

  /** Every takeover, successful or rolled back, was preceded by a moment at which the still
      draining transaction's target had no runtime object and no assigned node. */
  lemma {:induction false} TargetLeftFirst(log: seq<Cluster>, j: nat, d: Ref, tx: nat) returns (i: nat)
    requires LogOk(log) && j < |log| && Requests(log[j], d, tx)
    requires !Current(log[j], d).phase.Draining? && !Current(log[j], d).phase.RollbackFailed?
    ensures i < j && Requests(log[i], d, tx) && Current(log[i], d).phase.Draining?
    ensures Current(log[i], d).target == Current(log[j], d).target
    ensures var t := Current(log[j], d).target.value;
      t !in log[i].runtimes && (t in log[i].deployments ==> log[i].deployments[t].status.assignedNode == "")
  {
    hide Inv;
    LogStep(log, j, d);
    if Current(log[j - 1], d).phase.Draining? {
      i := j - 1;
    } else {
      i := TargetLeftFirst(log, j - 1, d, tx);
    }
  }
}
