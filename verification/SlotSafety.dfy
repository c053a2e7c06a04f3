/** What every write of the deployment controller keeps, and why one GPU slot never runs two models. */
module SlotSafety {
  import opened Wrappers
  import opened GpuPlanner
  import opened Deployments

  /** The node advertises at most one unit of the slot's resource. */
  predicate Single(nodes: seq<Node>, s: Slot) {
    forall n <- nodes | n.name == s.node && s.resource in n.allocatable :: n.allocatable[s.resource] <= 1
  }

  ghost predicate Apart(runtimes: map<Ref, Runtime>, nodes: seq<Node>, a: Ref, b: Ref) {
    a in runtimes && b in runtimes && a != b && runtimes[a].slot == runtimes[b].slot && Single(nodes, runtimes[a].slot)
    ==> runtimes[a].replicas == 0 || runtimes[b].replicas == 0
  }

  /** No two runtime Deployments with positive replicas share a single-unit slot. */
  ghost predicate Exclusive(runtimes: map<Ref, Runtime>, nodes: seq<Node>) {
    forall a, b :: Apart(runtimes, nodes, a, b)
  }

  // ---------- the invariant ----------

  ghost predicate StatusOk(c: Cluster, d: Ref, slot: Slot, status: Status) {
    && (status.assignedNode == "" || status.assignedNode == slot.node)
    && (status.replacement.Some? ==>
          var r := status.replacement.value;
          && (r.target.None? || r.requestedBy.None?)
          && (r.target.Some? ==>
                && r.target.value != d && r.target.value.namespace == d.namespace
                && r.target.value in c.known && r.startedAt < c.clock))
    && (status.phase.Active? ==> status.assignedNode != "" && !Reserves(status.replacement))
    && (Reserves(status.replacement) && status.assignedNode == "" ==>
          status.phase.Failed? && status.readyReason.OtherReason? && !status.validationFailed)
  }

  ghost predicate Local(c: Cluster) {
    && c.deployments.Keys <= c.known
    && c.runtimes.Keys <= c.known
    && (forall d <- c.deployments :: c.deployments[d].spec.slot.node != "" && c.deployments[d].spec.slot.resource != "")
    && (forall d <- c.deployments :: StatusOk(c, d, c.deployments[d].spec.slot, c.deployments[d].status))
    && (forall d <- c.deployments | d in c.runtimes :: c.runtimes[d].slot == c.deployments[d].spec.slot)
  }

  ghost predicate EdgeOk(c: Cluster, a: Ref)
    requires a in c.deployments
  {
    var x := c.deployments[a];
    Reserves(x.status.replacement) ==>
      var t := x.status.replacement.value.target.value;
      && (t in c.runtimes ==> c.runtimes[t].slot == x.spec.slot)
      && (t in c.deployments ==>
            var y := c.deployments[t];
            && y.spec.slot == x.spec.slot
            && (Reserves(y.status.replacement) ==>
                  x.status.replacement.value.startedAt < y.status.replacement.value.startedAt))
  }

  /** Transactions stay on one slot, and a target that turns requester did so later: no cycles. */
  ghost predicate Edges(c: Cluster) {
    forall a <- c.deployments :: EdgeOk(c, a)
  }

  ghost predicate OneServes(c: Cluster, a: Ref, b: Ref)
    requires a in c.deployments && b in c.deployments
  {
    var x, y := c.deployments[a], c.deployments[b];
    a != b && x.spec.slot == y.spec.slot && Single(c.nodes, x.spec.slot)
    ==> !(Serving(x.status) && Serving(y.status))
  }

  /** While a slot is being handed over, nobody but the target can be serving on it. */
  ghost predicate OnlyTargetServes(c: Cluster, z: Ref, e: Ref)
    requires z in c.deployments && e in c.deployments
  {
    var x, y := c.deployments[z], c.deployments[e];
    x.spec.slot == y.spec.slot && Single(c.nodes, x.spec.slot) && Handoff(x.status) && Serving(y.status)
    ==> x.status.replacement.value.target == Some(e)
  }

  ghost predicate Vacant(c: Cluster, t: Ref) {
    !Live(c, t) && (t in c.deployments ==> !Holds(c.deployments[t].status))
  }

  /** A target hands nothing over itself, and once the requester took over it neither runs nor holds the slot. */
  ghost predicate TargetVacant(c: Cluster, z: Ref)
    requires z in c.deployments
  {
    var x := c.deployments[z];
    Handoff(x.status) && Single(c.nodes, x.spec.slot) ==>
      var t := x.status.replacement.value.target.value;
      && (t in c.deployments ==> !Handoff(c.deployments[t].status))
      && (x.status.replacement.value.phase.Activating? ==> Vacant(c, t))
  }

  /** No two deployments are reported Active on one single-unit slot. */
  ghost predicate OneActive(c: Cluster) {
    forall a <- c.deployments, b <- c.deployments :: OneServes(c, a, b)
  }

  ghost predicate Serves(c: Cluster) {
    && OneActive(c)
    && (forall z <- c.deployments, e <- c.deployments :: OnlyTargetServes(c, z, e))
  }

  ghost predicate VacantTargets(c: Cluster) {
    forall z <- c.deployments :: TargetVacant(c, z)
  }

  ghost predicate Inv(c: Cluster) {
    Local(c) && Edges(c) && Exclusive(c.runtimes, c.nodes) && Serves(c) && VacantTargets(c)
  }

  // ---------- what a granted reservation means ----------

  /** Nobody is charged for d's slot in d's view: the planner grants the reservation. */
  predicate Clear(c: Cluster, d: Ref)
    requires d in c.deployments
  {
    && (forall e <- c.deployments | StatusCharged(c, d, e) :: c.deployments[e].spec.slot != c.deployments[d].spec.slot)
    && (forall e <- c.runtimes | RuntimeCharged(c, d, e) :: c.runtimes[e].slot != c.deployments[d].spec.slot)
  }

  /** The slot d's own handoff hides from d's view is really free. */
  ghost predicate OwnTargetVacant(c: Cluster, d: Ref)
    requires d in c.deployments
  {
    var status := c.deployments[d].status;
    Handoff(status) ==> Vacant(c, status.replacement.value.target.value)
  }

  /** Others run nothing on the slot and hold it only to give it back to d. */
  ghost predicate Granted(c: Cluster, d: Ref, e: Ref)
    requires d in c.deployments
  {
    var slot := c.deployments[d].spec.slot;
    e != d ==>
      && (Live(c, e) ==> c.runtimes[e].slot != slot)
      && (e in c.deployments && c.deployments[e].spec.slot == slot && Holds(c.deployments[e].status)
          ==> RollingBackTo(c.deployments[e].status, d))
  }

  /** What a write that uses the slot needs of e: it runs nothing there and hands the slot over to
      nobody but d; if d is to serve, e does not. */
  ghost predicate Yields(c: Cluster, d: Ref, e: Ref, serves: bool)
    requires d in c.deployments
  {
    var slot := c.deployments[d].spec.slot;
    e != d ==>
      && (Live(c, e) ==> c.runtimes[e].slot != slot)
      && (e in c.deployments && c.deployments[e].spec.slot == slot ==>
            && (Handoff(c.deployments[e].status) ==> RollingBackTo(c.deployments[e].status, d))
            && (serves ==> !Serving(c.deployments[e].status)))
  }

  ghost predicate AllYield(c: Cluster, d: Ref, serves: bool)
    requires d in c.deployments
  {
    Single(c.nodes, c.deployments[d].spec.slot) ==> forall e :: Yields(c, d, e, serves)
  }

  ghost function Depth(c: Cluster, e: Ref): nat {
    if e in c.deployments && Reserves(c.deployments[e].status.replacement)
    then c.deployments[e].status.replacement.value.startedAt else c.clock
  }

  /** Handoffs hide their targets from the view. Following them up to the first requester, which is
      never hidden, shows that a clear view leaves nothing behind except what d itself hides. */
  lemma {:induction false} ClearLeavesOnlyOwnTarget(c: Cluster, d: Ref, e: Ref)
    requires Local(c) && Edges(c) && d in c.deployments && Clear(c, d)
    requires !HandoffFrom(c, d, e) && OwnTargetPassive(c, d)
    ensures Granted(c, d, e)
    decreases Depth(c, e)
  {
    if e != d && HandoffTarget(c, e) {
      var z :| z in c.deployments && HandoffFrom(c, z, e);
      assert EdgeOk(c, z);
      ClearLeavesOnlyOwnTarget(c, d, z);
    }
  }

  ghost predicate OwnTargetPassive(c: Cluster, d: Ref)
    requires d in c.deployments
  {
    forall t <- c.deployments :: HandoffFrom(c, d, t) ==> !Handoff(c.deployments[t].status)
  }

  lemma ClearMeansGranted(c: Cluster, d: Ref, e: Ref)
    requires Local(c) && Edges(c) && d in c.deployments && Clear(c, d) && OwnTargetVacant(c, d)
    ensures Granted(c, d, e)
  {
    if !HandoffFrom(c, d, e) {
      ClearLeavesOnlyOwnTarget(c, d, e);
    }
  }

  function FreshRuntime(spec: Spec): Runtime {
    Runtime(spec.slot, 1, false, false, false)
  }

  /** A granted reservation is safe to use exactly when the requester's own handoff hides no runtime. */
  lemma GrantIsSafeExactlyWhen(c: Cluster, d: Ref)
    requires Local(c) && Edges(c) && Exclusive(c.runtimes, c.nodes)
    requires d in c.deployments && d !in c.runtimes && Single(c.nodes, c.deployments[d].spec.slot)
    requires Clear(c, d) && OwnTargetPassive(c, d)
    ensures Exclusive(WithRuntime(c, d, FreshRuntime(c.deployments[d].spec)).runtimes, c.nodes)
            <==> !exists t :: HandoffFrom(c, d, t) && Live(c, t)
  {
    var runtimes := WithRuntime(c, d, FreshRuntime(c.deployments[d].spec)).runtimes;
    assert EdgeOk(c, d);
    if t :| HandoffFrom(c, d, t) && Live(c, t) {
      assert !Apart(runtimes, c.nodes, d, t);
    } else {
      forall a, b ensures Apart(runtimes, c.nodes, a, b) {
        assert Apart(c.runtimes, c.nodes, a, b);
        if !HandoffFrom(c, d, a) { ClearLeavesOnlyOwnTarget(c, d, a); }
        if !HandoffFrom(c, d, b) { ClearLeavesOnlyOwnTarget(c, d, b); }
      }
    }
  }

  // ---------- the writes ----------

  /** A status write that takes nothing: at most it keeps what the deployment already had. */
  ghost predicate Quiet(c: Cluster, d: Ref, next: Status)
    requires d in c.deployments
  {
    var status := c.deployments[d].status;
    && StatusOk(c, d, c.deployments[d].spec.slot, next)
    && (next.assignedNode != "" ==> status.assignedNode != "")
    && (Holds(next) ==> Holds(status))
    && (Serving(next) ==> Serving(status))
    && (Reserves(next.replacement) ==> SameTransaction(status.replacement, next.replacement))
    && (Handoff(next) && next.replacement.value.phase.Activating? && Single(c.nodes, c.deployments[d].spec.slot)
        ==> Vacant(c, next.replacement.value.target.value))
  }

  ghost predicate SameTransaction(r: Option<Replacement>, r': Option<Replacement>) {
    && Reserves(r) && r'.Some?
    && r'.value.target == r.value.target && r'.value.startedAt == r.value.startedAt
  }

  lemma QuietWrite(c: Cluster, d: Ref, next: Status)
    requires Inv(c) && d in c.deployments && Quiet(c, d, next)
    ensures Inv(WithStatus(c, d, next))
  {
    var c' := WithStatus(c, d, next);
    hide Local, StatusOk, EdgeOk, TargetVacant, OneServes, OnlyTargetServes, Vacant, Exclusive, SameTransaction;
    assert Local(c') by { StatusWriteLocal(c, d, next); }
    forall a <- c'.deployments
      ensures EdgeOk(c', a) && TargetVacant(c', a)
    {
      QuietEdge(c, d, next, a);
    }
    forall a <- c'.deployments, b <- c'.deployments
      ensures OneServes(c', a, b) && OnlyTargetServes(c', a, b)
    {
      QuietServes(c, d, next, a, b);
    }
  }

  lemma StatusWriteLocal(c: Cluster, d: Ref, next: Status)
    requires Local(c) && d in c.deployments && StatusOk(c, d, c.deployments[d].spec.slot, next)
    ensures Local(WithStatus(c, d, next))
  {}

  lemma QuietEdge(c: Cluster, d: Ref, next: Status, a: Ref)
    requires Inv(c) && d in c.deployments && Quiet(c, d, next) && a in c.deployments
    ensures EdgeOk(WithStatus(c, d, next), a) && TargetVacant(WithStatus(c, d, next), a)
  {
    assert EdgeOk(c, a) && TargetVacant(c, a);
  }

  lemma QuietServes(c: Cluster, d: Ref, next: Status, a: Ref, b: Ref)
    requires Inv(c) && d in c.deployments && Quiet(c, d, next) && a in c.deployments && b in c.deployments
    ensures OneServes(WithStatus(c, d, next), a, b) && OnlyTargetServes(WithStatus(c, d, next), a, b)
  {
    assert OneServes(c, a, b) && OnlyTargetServes(c, a, b);
  }

  /** Taking the slot after a granted reservation. */
  ghost predicate Claim(c: Cluster, d: Ref, next: Status)
    requires d in c.deployments
  {
    var status := c.deployments[d].status;
    && StatusOk(c, d, c.deployments[d].spec.slot, next)
    && (Reserves(next.replacement) ==>
          SameTransaction(status.replacement, next.replacement) && status.assignedNode != "")
    && (Holds(next) ==> AllYield(c, d, Serving(next)))
    && (Handoff(next) && next.replacement.value.phase.Activating? && Single(c.nodes, c.deployments[d].spec.slot)
        ==> Vacant(c, next.replacement.value.target.value))
  }

  lemma ClaimWrite(c: Cluster, d: Ref, next: Status)
    requires Inv(c) && d in c.deployments && Claim(c, d, next)
    ensures Inv(WithStatus(c, d, next))
  {
    var c' := WithStatus(c, d, next);
    hide Local, StatusOk, EdgeOk, TargetVacant, OneServes, OnlyTargetServes, Yields, Exclusive, SameTransaction;
    assert Local(c') by { StatusWriteLocal(c, d, next); }
    forall a <- c'.deployments
      ensures EdgeOk(c', a) && TargetVacant(c', a)
    {
      ClaimedEdge(c, d, next, a);
      ClaimedTargetVacant(c, d, next, a);
    }
    forall a <- c'.deployments, b <- c'.deployments
      ensures OneServes(c', a, b) && OnlyTargetServes(c', a, b)
    {
      ClaimedServes(c, d, next, a, b);
    }
  }

  lemma ClaimedEdge(c: Cluster, d: Ref, next: Status, a: Ref)
    requires Inv(c) && d in c.deployments && Claim(c, d, next) && a in c.deployments
    ensures EdgeOk(WithStatus(c, d, next), a)
  {
    assert EdgeOk(c, a);
  }

  lemma ClaimedServes(c: Cluster, d: Ref, next: Status, a: Ref, b: Ref)
    requires Inv(c) && d in c.deployments && a in c.deployments && b in c.deployments && Claim(c, d, next)
    ensures OneServes(WithStatus(c, d, next), a, b) && OnlyTargetServes(WithStatus(c, d, next), a, b)
  {
    assert OneServes(c, a, b) && OnlyTargetServes(c, a, b);
    if c.deployments[a].spec.slot == c.deployments[b].spec.slot == c.deployments[d].spec.slot
       && Single(c.nodes, c.deployments[d].spec.slot) && Holds(next) {
      assert Yields(c, d, a, Serving(next)) && Yields(c, d, b, Serving(next));
    }
  }

  lemma ClaimedTargetVacant(c: Cluster, d: Ref, next: Status, z: Ref)
    requires Inv(c) && d in c.deployments && z in c.deployments && Claim(c, d, next)
    ensures TargetVacant(WithStatus(c, d, next), z)
  {
    assert TargetVacant(c, z) && EdgeOk(c, z);
    var status := WithStatus(c, d, next).deployments[z].status;
    if Handoff(status) && Single(c.nodes, c.deployments[z].spec.slot) && Holds(next) {
      var t := status.replacement.value.target.value;
      if t == d {
        assert Yields(c, d, z, Serving(next));
      }
    }
  }

  /** Opening a transaction: the requester reserves the slot a serving deployment will leave. */
  ghost predicate Start(c: Cluster, d: Ref, t: Ref, next: Status)
    requires d in c.deployments
  {
    && t in c.deployments && t != d && t.namespace == d.namespace
    && c.deployments[t].spec.slot == c.deployments[d].spec.slot
    && Serving(c.deployments[t].status)
    && CandidateAvailable(c.deployments[t].status.replacement)
    && next.assignedNode == c.deployments[t].status.assignedNode
    && next.phase.WaitingForGPU?
    && next.replacement.Some?
    && next.replacement.value.phase.Draining?
    && next.replacement.value.target == Some(t)
    && next.replacement.value.requestedBy.None?
    && next.replacement.value.startedAt == c.clock
  }

  lemma StartWrite(c: Cluster, d: Ref, t: Ref, next: Status)
    requires Inv(c) && d in c.deployments && Start(c, d, t, next)
    ensures Inv(WithStatus(c, d, next).(clock := c.clock + 1))
  {
    hide StatusOk, EdgeOk, TargetVacant, OneServes, OnlyTargetServes, Start;
    var c' := WithStatus(c, d, next).(clock := c.clock + 1);
    forall a <- c'.deployments
      ensures StatusOk(c', a, c'.deployments[a].spec.slot, c'.deployments[a].status)
      ensures EdgeOk(c', a) && TargetVacant(c', a)
    {
      StartedOk(c, d, t, next, a);
    }
    forall a <- c'.deployments, b <- c'.deployments
      ensures OneServes(c', a, b) && OnlyTargetServes(c', a, b)
    {
      StartedServes(c, d, t, next, a, b);
    }
  }

  lemma StartedServes(c: Cluster, d: Ref, t: Ref, next: Status, a: Ref, b: Ref)
    requires Inv(c) && d in c.deployments && Start(c, d, t, next) && a in c.deployments && b in c.deployments
    ensures var c' := WithStatus(c, d, next).(clock := c.clock + 1);
      OneServes(c', a, b) && OnlyTargetServes(c', a, b)
  {
    assert OneServes(c, a, b) && OnlyTargetServes(c, a, b) && OneServes(c, t, b);
  }

  lemma StartedOk(c: Cluster, d: Ref, t: Ref, next: Status, a: Ref)
    requires Inv(c) && d in c.deployments && Start(c, d, t, next) && a in c.deployments
    ensures var c' := WithStatus(c, d, next).(clock := c.clock + 1);
      StatusOk(c', a, c'.deployments[a].spec.slot, c'.deployments[a].status) && EdgeOk(c', a) && TargetVacant(c', a)
  {
    assert StatusOk(c, t, c.deployments[t].spec.slot, c.deployments[t].status);
    assert StatusOk(c, a, c.deployments[a].spec.slot, c.deployments[a].status);
    assert EdgeOk(c, a) && TargetVacant(c, a) && OnlyTargetServes(c, a, t);
  }

  /** Creating d's runtime object, or scaling it up, after a granted reservation. */
  lemma RunWrite(c: Cluster, d: Ref, runtime: Runtime, serves: bool)
    requires Inv(c) && d in c.deployments && runtime.slot == c.deployments[d].spec.slot
    requires AllYield(c, d, serves)
    ensures Inv(WithRuntime(c, d, runtime))
    ensures AllYield(WithRuntime(c, d, runtime), d, serves)
  {
    var c' := WithRuntime(c, d, runtime);
    forall a <- c'.deployments
      ensures EdgeOk(c', a) && TargetVacant(c', a)
    {
      assert EdgeOk(c, a) && TargetVacant(c, a);
      if Single(c.nodes, runtime.slot) {
        assert Yields(c, d, a, serves);
      }
    }
    forall a <- c'.deployments, b <- c'.deployments
      ensures OneServes(c', a, b) && OnlyTargetServes(c', a, b)
    {
      assert OneServes(c, a, b) && OnlyTargetServes(c, a, b);
    }
    forall a, b ensures Apart(c'.runtimes, c'.nodes, a, b) {
      assert Apart(c.runtimes, c.nodes, a, b);
      if Single(c.nodes, runtime.slot) {
        assert Yields(c, d, a, serves) && Yields(c, d, b, serves);
      }
    }
    if Single(c.nodes, runtime.slot) {
      forall e ensures Yields(c', d, e, serves) {
        assert Yields(c, d, e, serves);
      }
    }
  }

  /** Any change of a runtime object that does not start it: deletion requests, reports, scaling down. */
  lemma IdleWrite(c: Cluster, d: Ref, runtime: Runtime)
    requires Inv(c)
    requires d in c.runtimes || d in c.deployments
    requires d in c.runtimes ==> runtime.slot == c.runtimes[d].slot
    requires d in c.deployments ==> runtime.slot == c.deployments[d].spec.slot
    requires runtime.replicas > 0 ==> Live(c, d)
    ensures Inv(WithRuntime(c, d, runtime))
  {
    var c' := WithRuntime(c, d, runtime);
    forall a <- c'.deployments
      ensures EdgeOk(c', a) && TargetVacant(c', a)
    {
      assert EdgeOk(c, a) && TargetVacant(c, a);
    }
    forall a <- c'.deployments, b <- c'.deployments
      ensures OneServes(c', a, b) && OnlyTargetServes(c', a, b)
    {
      assert OneServes(c, a, b) && OnlyTargetServes(c, a, b);
    }
    forall a, b ensures Apart(c'.runtimes, c'.nodes, a, b) {
      assert Apart(c.runtimes, c.nodes, a, b);
    }
  }

  // ---------- the view and the planner ----------

  function RequestFor(spec: Spec): Request {
    Request(spec.slot.resource, 1, spec.gpuType, spec.slot.node)
  }

  function NodesNamed(nodes: seq<Node>, name: string): (r: seq<Node>)
    ensures forall n <- r :: n in nodes && n.name == name
  {
    if nodes == [] then []
    else (if nodes[0].name == name then [nodes[0]] else []) + NodesNamed(nodes[1..], name)
  }

  lemma {:induction false} NamedAre(nodes: seq<Node>, name: string)
    ensures forall n: Node :: n in NodesNamed(nodes, name) <==> n in nodes && n.name == name
  {
    if nodes != [] {
      NamedAre(nodes[1..], name);
    }
  }

  lemma {:induction false} OccupiedCoversMember(allocations: seq<Allocation>, a: Allocation)
    requires a in allocations && a.count > 0
    ensures Occupied(allocations, a.resource, a.node) >= a.count
  {
    if a != allocations[0] {
      OccupiedCoversMember(allocations[1..], a);
    }
  }

  lemma {:induction false} StatusListed(c: Cluster, self: Ref, items: seq<Ref>, e: Ref)
    requires (forall x <- items :: x in c.deployments) && e in items && StatusCharged(c, self, e)
    ensures StatusCharge(c.deployments[e]) in StatusAllocations(c, self, items)
  {
    if e != items[|items| - 1] {
      StatusListed(c, self, items[..|items| - 1], e);
    }
  }

  lemma {:induction false} RuntimeListed(c: Cluster, self: Ref, items: seq<Ref>, e: Ref)
    requires (forall x <- items :: x in c.runtimes) && e in items && RuntimeCharged(c, self, e)
    ensures RuntimeCharge(c.runtimes[e]) in RuntimeAllocations(c, self, items)
  {
    if e != items[|items| - 1] {
      RuntimeListed(c, self, items[..|items| - 1], e);
    }
  }

  lemma {:induction false} NoneOccupied(allocations: seq<Allocation>, s: Slot)
    requires forall a <- allocations :: !(a.resource == s.resource && a.node == s.node)
    ensures Occupied(allocations, s.resource, s.node) == 0
  {
    if allocations != [] {
      NoneOccupied(allocations[1..], s);
    }
  }

  lemma {:induction false} StatusSource(c: Cluster, self: Ref, items: seq<Ref>, a: Allocation)
    requires (forall x <- items :: x in c.deployments) && a in StatusAllocations(c, self, items)
    ensures exists e :: StatusCharged(c, self, e) && a == StatusCharge(c.deployments[e])
  {
    var last := items[|items| - 1];
    if !(StatusCharged(c, self, last) && a == StatusCharge(c.deployments[last])) {
      StatusSource(c, self, items[..|items| - 1], a);
    }
  }

  lemma {:induction false} RuntimeSource(c: Cluster, self: Ref, items: seq<Ref>, a: Allocation)
    requires (forall x <- items :: x in c.runtimes) && a in RuntimeAllocations(c, self, items)
    ensures exists e :: RuntimeCharged(c, self, e) && a == RuntimeCharge(c.runtimes[e])
  {
    var last := items[|items| - 1];
    if !(RuntimeCharged(c, self, last) && a == RuntimeCharge(c.runtimes[last])) {
      RuntimeSource(c, self, items[..|items| - 1], a);
    }
  }

  lemma FreeMeansClear(c: Cluster, d: Ref, items: seq<Ref>, runtimeItems: seq<Ref>)
    requires Local(c) && d in c.deployments
    requires Lists(items, c.deployments.Keys) && Lists(runtimeItems, c.runtimes.Keys)
    requires var slot := c.deployments[d].spec.slot;
      Occupied(StatusAllocations(c, d, items) + RuntimeAllocations(c, d, runtimeItems), slot.resource, slot.node) == 0
    ensures Clear(c, d)
  {
    var slot := c.deployments[d].spec.slot;
    var allocations := StatusAllocations(c, d, items) + RuntimeAllocations(c, d, runtimeItems);
    forall e | StatusCharged(c, d, e) ensures c.deployments[e].spec.slot != slot {
      StatusListed(c, d, items, e);
      OccupiedCoversMember(allocations, StatusCharge(c.deployments[e]));
      assert StatusOk(c, e, c.deployments[e].spec.slot, c.deployments[e].status);
    }
    forall e | RuntimeCharged(c, d, e) ensures c.runtimes[e].slot != slot {
      RuntimeListed(c, d, runtimeItems, e);
      OccupiedCoversMember(allocations, RuntimeCharge(c.runtimes[e]));
    }
  }

  lemma ClearMeansFree(c: Cluster, d: Ref, items: seq<Ref>, runtimeItems: seq<Ref>)
    requires Local(c) && d in c.deployments && Clear(c, d)
    requires Lists(items, c.deployments.Keys) && Lists(runtimeItems, c.runtimes.Keys)
    ensures var slot := c.deployments[d].spec.slot;
      Occupied(StatusAllocations(c, d, items) + RuntimeAllocations(c, d, runtimeItems), slot.resource, slot.node) == 0
  {
    var slot := c.deployments[d].spec.slot;
    forall a <- StatusAllocations(c, d, items) ensures !(a.resource == slot.resource && a.node == slot.node) {
      StatusSource(c, d, items, a);
      var e :| StatusCharged(c, d, e) && a == StatusCharge(c.deployments[e]);
      assert StatusOk(c, e, c.deployments[e].spec.slot, c.deployments[e].status);
    }
    forall a <- RuntimeAllocations(c, d, runtimeItems) ensures !(a.resource == slot.resource && a.node == slot.node) {
      RuntimeSource(c, d, runtimeItems, a);
    }
    NoneOccupied(StatusAllocations(c, d, items) + RuntimeAllocations(c, d, runtimeItems), slot);
  }

  /** Some node is eligible to run d on its cache node. */
  predicate Placeable(c: Cluster, config: Config, d: Ref)
    requires d in c.deployments
  {
    exists n <- NodesNamed(c.nodes, c.deployments[d].spec.slot.node) ::
      Compatible(config, RequestFor(c.deployments[d].spec), n)
  }

  /** On a single-unit slot the planner grants a reservation exactly when the requester's view is clear. */
  lemma PlannedExactlyWhenClear(c: Cluster, config: Config, d: Ref, items: seq<Ref>, runtimeItems: seq<Ref>, r: Result)
    requires Local(c) && d in c.deployments && Single(c.nodes, c.deployments[d].spec.slot)
    requires Lists(items, c.deployments.Keys) && Lists(runtimeItems, c.runtimes.Keys)
    requires IsPlan(config, RequestFor(c.deployments[d].spec), NodesNamed(c.nodes, c.deployments[d].spec.slot.node),
                    StatusAllocations(c, d, items) + RuntimeAllocations(c, d, runtimeItems), r)
    ensures r.Planned? <==> Clear(c, d) && Placeable(c, config, d)
  {
    if r.Planned? {
      FreeMeansClear(c, d, items, runtimeItems);
    } else if Clear(c, d) && Placeable(c, config, d) {
      ClearMeansFree(c, d, items, runtimeItems);
      var n :| n in NodesNamed(c.nodes, c.deployments[d].spec.slot.node)
        && Compatible(config, RequestFor(c.deployments[d].spec), n);
      assert Fits(config, RequestFor(c.deployments[d].spec), n,
                  StatusAllocations(c, d, items) + RuntimeAllocations(c, d, runtimeItems));
      assert false;
    }
  }

  // ---------- the environment's writes ----------

  /** A user edits the activation policy; the cache node and the GPU request stay. */
  function Edited(c: Cluster, d: Ref, active: bool, whenFull: WhenFull, priority: int): Cluster
    requires d in c.deployments
  {
    var x := c.deployments[d];
    c.(deployments := c.deployments[d :=
      x.(spec := x.spec.(active := active, whenFull := whenFull, priority := priority),
         generation := x.generation + 1)])
  }

  lemma EditWrite(c: Cluster, d: Ref, active: bool, whenFull: WhenFull, priority: int)
    requires Inv(c) && d in c.deployments
    ensures Inv(Edited(c, d, active, whenFull, priority))
  {
    hide Local, EdgeOk, TargetVacant, OneServes, OnlyTargetServes, Exclusive;
    var c' := Edited(c, d, active, whenFull, priority);
    EditedLocal(c, d, active, whenFull, priority);
    forall a <- c'.deployments ensures EdgeOk(c', a) && TargetVacant(c', a) {
      assert EdgeOk(c, a) && TargetVacant(c, a);
      EditedEdge(c, d, active, whenFull, priority, a);
    }
    forall a <- c'.deployments, b <- c'.deployments ensures OneServes(c', a, b) && OnlyTargetServes(c', a, b) {
      assert OneServes(c, a, b) && OnlyTargetServes(c, a, b);
      EditedServes(c, d, active, whenFull, priority, a, b);
    }
  }

  lemma EditedLocal(c: Cluster, d: Ref, active: bool, whenFull: WhenFull, priority: int)
    requires Local(c) && d in c.deployments
    ensures Local(Edited(c, d, active, whenFull, priority))
  {}

  lemma EditedEdge(c: Cluster, d: Ref, active: bool, whenFull: WhenFull, priority: int, a: Ref)
    requires d in c.deployments && a in c.deployments && EdgeOk(c, a) && TargetVacant(c, a)
    ensures EdgeOk(Edited(c, d, active, whenFull, priority), a)
    ensures TargetVacant(Edited(c, d, active, whenFull, priority), a)
  {}

  lemma EditedServes(c: Cluster, d: Ref, active: bool, whenFull: WhenFull, priority: int, a: Ref, b: Ref)
    requires d in c.deployments && a in c.deployments && b in c.deployments
    requires OneServes(c, a, b) && OnlyTargetServes(c, a, b)
    ensures var c' := Edited(c, d, active, whenFull, priority);
      OneServes(c', a, b) && OnlyTargetServes(c', a, b)
  {}

  /** A runtime object is gone, whether the controller asked for it or not. */
  function WithoutRuntime(c: Cluster, d: Ref): Cluster {
    c.(runtimes := c.runtimes - {d})
  }

  lemma GoneWrite(c: Cluster, d: Ref)
    requires Inv(c)
    ensures Inv(WithoutRuntime(c, d))
  {
    var c' := WithoutRuntime(c, d);
    forall a <- c'.deployments ensures EdgeOk(c', a) && TargetVacant(c', a) {
      assert EdgeOk(c, a) && TargetVacant(c, a);
    }
    forall a <- c'.deployments, b <- c'.deployments ensures OneServes(c', a, b) && OnlyTargetServes(c', a, b) {
      assert OneServes(c, a, b) && OnlyTargetServes(c, a, b);
    }
    forall a, b ensures Apart(c'.runtimes, c'.nodes, a, b) {
      assert Apart(c.runtimes, c.nodes, a, b);
    }
  }

  /** A deployment is deleted; its runtime is collected later. */
  function WithoutDeployment(c: Cluster, d: Ref): Cluster {
    c.(deployments := c.deployments - {d})
  }

  lemma RemoveWrite(c: Cluster, d: Ref)
    requires Inv(c)
    ensures Inv(WithoutDeployment(c, d))
  {
    var c' := WithoutDeployment(c, d);
    forall a <- c'.deployments ensures EdgeOk(c', a) && TargetVacant(c', a) {
      assert EdgeOk(c, a) && TargetVacant(c, a);
    }
    forall a <- c'.deployments, b <- c'.deployments ensures OneServes(c', a, b) && OnlyTargetServes(c', a, b) {
      assert OneServes(c, a, b) && OnlyTargetServes(c, a, b);
    }
  }

  const FreshStatus := Status(Unset, "", None, 0, false, OtherReason, false)

  function WithDeployment(c: Cluster, d: Ref, spec: Spec): Cluster {
    c.(deployments := c.deployments[d := Deployment(spec, 1, 0, FreshStatus)], known := c.known + {d})
  }

  lemma AddWrite(c: Cluster, d: Ref, spec: Spec)
    requires Inv(c) && d !in c.known && spec.slot.node != "" && spec.slot.resource != ""
    ensures Inv(WithDeployment(c, d, spec))
  {
    var c' := WithDeployment(c, d, spec);
    forall a <- c'.deployments
      ensures StatusOk(c', a, c'.deployments[a].spec.slot, c'.deployments[a].status)
      ensures EdgeOk(c', a) && TargetVacant(c', a)
    {
      if a != d {
        assert StatusOk(c, a, c.deployments[a].spec.slot, c.deployments[a].status);
        assert EdgeOk(c, a) && TargetVacant(c, a);
      }
    }
    forall a <- c'.deployments, b <- c'.deployments ensures OneServes(c', a, b) && OnlyTargetServes(c', a, b) {
      if a != d && b != d {
        assert OneServes(c, a, b) && OnlyTargetServes(c, a, b);
      }
    }
  }

  /** Nodes are cordoned, relabelled or lose readiness; what they can allocate stays. */
  predicate SameCapacity(nodes: seq<Node>, nodes': seq<Node>) {
    |nodes| == |nodes'| && forall i | 0 <= i < |nodes| ::
      nodes'[i].name == nodes[i].name && nodes'[i].allocatable == nodes[i].allocatable
  }

  lemma SameSingle(nodes: seq<Node>, nodes': seq<Node>, s: Slot)
    requires SameCapacity(nodes, nodes')
    ensures Single(nodes, s) == Single(nodes', s)
  {
    forall i | 0 <= i < |nodes| ensures nodes[i] in nodes && nodes'[i] in nodes' {}
  }

  lemma NodeWrite(c: Cluster, nodes: seq<Node>)
    requires Inv(c) && SameCapacity(c.nodes, nodes)
    ensures Inv(c.(nodes := nodes))
  {
    var c' := c.(nodes := nodes);
    forall a <- c'.deployments ensures EdgeOk(c', a) && TargetVacant(c', a) {
      SameSingle(c.nodes, nodes, c.deployments[a].spec.slot);
      assert EdgeOk(c, a) && TargetVacant(c, a);
    }
    forall a <- c'.deployments, b <- c'.deployments ensures OneServes(c', a, b) && OnlyTargetServes(c', a, b) {
      SameSingle(c.nodes, nodes, c.deployments[a].spec.slot);
      assert OneServes(c, a, b) && OnlyTargetServes(c, a, b);
    }
    forall a, b ensures Apart(c'.runtimes, c'.nodes, a, b) {
      assert Apart(c.runtimes, c.nodes, a, b);
      if a in c.runtimes {
        SameSingle(c.nodes, nodes, c.runtimes[a].slot);
      }
    }
  }
}
