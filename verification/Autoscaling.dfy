/** How many replicas a deployment plans for, and why planning more never costs it its slot. */
module Autoscaling {
  import opened Arithmetic
  import opened GpuPlanner
  import opened SlotSafety

  type int32 = x: int | -0x8000_0000 <= x < 0x8000_0000
  type int64 = x: int | -0x8000_0000_0000_0000 <= x < 0x8000_0000_0000_0000

  /** Two's-complement conversion. */
  function ToInt32(x: int): int32 {
    var m := x % 0x1_0000_0000;
    if m < 0x8000_0000 then m else m - 0x1_0000_0000
  }

  function ToInt64(x: int): int64 {
    var m := x % 0x1_0000_0000_0000_0000;
    if m < 0x8000_0000_0000_0000 then m else m - 0x1_0000_0000_0000_0000
  }

  /** Integer division that truncates toward zero. */
  function Quotient(a: int, b: int): int
    requires b > 0
  {
    if a >= 0 then a / b else -((-a) / b)
  }

  /** `idleSet`: an idle timeout is given; `idleUsable`: it parses to a positive duration; `gpuCount` is
      at least one by validation. */
  datatype Spec = Spec(
    minReplicas: int32, maxReplicas: int32, targetPending: int32, idleSet: bool, idleUsable: bool,
    resource: string, gpuCount: int32, gpuType: string, cacheNode: string)

  /** `held`: the current generation was last reported idle at zero. */
  datatype Metrics =
    | NoScraper
    | ScrapeFails(held: bool)
    | Scraped(held: bool, pending: int64, running: int64, idleTooLong: bool)

  function Max(spec: Spec): int32 {
    if spec.maxReplicas < 1 then 1 else spec.maxReplicas
  }

  function Base(spec: Spec): int32 {
    var replicas := if spec.minReplicas < 1 then 1 else spec.minReplicas;
    if replicas > Max(spec) then Max(spec) else replicas
  }

  predicate Autoscaled(spec: Spec) {
    spec.targetPending > 0 || spec.idleSet
  }

  predicate GoesIdle(spec: Spec, metrics: Metrics) {
    && spec.minReplicas == 0 && spec.idleSet && !metrics.NoScraper?
    && (metrics.held
        || (metrics.Scraped? && spec.idleUsable && metrics.pending == 0 && metrics.running == 0 && metrics.idleTooLong))
  }

  function ScaleUp(pending: int64, target: int32): int32
    requires target > 0
  {
    ToInt32(Quotient(ToInt64(pending + target - 1), target))
  }

  function Desired(spec: Spec, current: int32, metrics: Metrics): int32 {
    var floor := Base(spec);
    if !Autoscaled(spec) || metrics.NoScraper? then floor
    else if GoesIdle(spec, metrics) then 0
    else if metrics.ScrapeFails? then floor
    else
      var from: int32 := if current < floor then floor else current;
      var wanted: int32 := if spec.targetPending > 0 && metrics.pending > 0
                           then ToInt32(from + ScaleUp(metrics.pending, spec.targetPending)) else floor;
      var capped: int32 := if wanted > Max(spec) then Max(spec) else wanted;
      if capped < floor then floor else capped
  }

  /** Whatever the metrics and however the arithmetic wraps, the plan is zero or within [base, max]. */
  lemma DesiredIsBounded(spec: Spec, current: int32, metrics: Metrics)
    ensures 1 <= Base(spec) <= Max(spec)
    ensures Desired(spec, current, metrics) == 0 || Base(spec) <= Desired(spec, current, metrics) <= Max(spec)
    ensures Desired(spec, current, metrics) == 0 <==> GoesIdle(spec, metrics)
  {}

  /** The maximum is what is asked for but at least one, the base the minimum kept between one and that. */
  lemma BaseIsClamped(spec: Spec, k: int)
    requires k >= 1
    ensures k <= Max(spec) <==> k <= spec.maxReplicas || k == 1
    ensures k <= Base(spec) <==> (k <= spec.minReplicas || k == 1) && (k <= spec.maxReplicas || k == 1)
  {}

  /** k replicas take on all pending requests at the target each. */
  predicate Covers(k: int, pending: int, target: int) {
    k * target >= pending
  }

  /** The scale-up is the least number of replicas that covers the pending requests if and only if that
      number fits into 32 bits. */
  lemma ScaleUpIsCeilingExactlyWhen(pending: int64, target: int32)
    requires target > 0 && pending > 0
    ensures (forall k: int :: k >= ScaleUp(pending, target) <==> Covers(k, pending, target))
            <==> pending <= target * 0x7fff_ffff
  {
    hide ScaleUp;
    if pending <= target * 0x7fff_ffff {
      ScaleUpFits(pending, target);
      forall k: int ensures k >= ScaleUp(pending, target) <==> Covers(k, pending, target) {
        Ceiling(pending, target, k);
      }
    } else {
      assert 0x7fff_ffff >= ScaleUp(pending, target) && !Covers(0x7fff_ffff, pending, target);
    }
  }

  /** Neither conversion wraps as long as the result fits into 32 bits. */
  lemma ScaleUpFits(pending: int64, target: int32)
    requires target > 0 && 0 < pending <= target * 0x7fff_ffff
    ensures ScaleUp(pending, target) == (pending + target - 1) / target
  {
    OrderedProducts(target, 0x7fff_ffff, 0x7fff_ffff);
    Ceiling(pending, target, 0x7fff_ffff);
    DivisionBounds(pending + target - 1, target);
  }

  lemma Ceiling(pending: int, target: int, k: int)
    requires target > 0 && pending > 0
    ensures k >= (pending + target - 1) / target <==> k * target >= pending
  {
    var q := (pending + target - 1) / target;
    DivisionBounds(pending + target - 1, target);
    if k >= q {
      OrderedProducts(q, k, target);
    } else {
      OrderedProducts(k, q - 1, target);
    }
  }

  lemma DivisionBounds(a: int, b: int)
    requires a >= 0 && b > 0
    ensures 0 <= a / b && (a / b) * b <= a < (a / b) * b + b
    ensures (a / b - 1) * b == (a / b) * b - b
  {}

  function From(spec: Spec, current: int32): int32 {
    if current < Base(spec) then Base(spec) else current
  }

  /** The metrics ask for more than the base. */
  predicate Backlogged(spec: Spec, metrics: Metrics) {
    metrics.Scraped? && spec.targetPending > 0 && metrics.pending > 0
  }

  /** The k-th replica is the base's, or the ones before it that are not running yet leave requests over. */
  predicate CalledFor(spec: Spec, current: int32, metrics: Metrics, k: int) {
    || k <= Base(spec)
    || (&& metrics.Scraped? && spec.targetPending > 0 && metrics.pending > 0
        && var running := if current < Base(spec) then Base(spec) else current;
           !Covers(k - 1 - running, metrics.pending, spec.targetPending))
  }

  /** The replicas that the backlog calls for can be counted in 32 bits. */
  predicate Countable(spec: Spec, current: int32, metrics: Metrics) {
    Backlogged(spec, metrics) ==> Covers(0x7fff_ffff - From(spec, current), metrics.pending, spec.targetPending)
  }

  /** The wish is exactly the replicas called for, if and only if their number fits into 32 bits or the
      maximum is reached all the same, by the base or by what wrapping leaves of it. */
  lemma DesiredIsCalledForExactlyWhen(spec: Spec, current: int32, metrics: Metrics)
    requires !GoesIdle(spec, metrics)
    ensures (forall k: int | 1 <= k <= Max(spec) ::
               k <= Desired(spec, current, metrics) <==> CalledFor(spec, current, metrics, k))
      <==> Countable(spec, current, metrics)
           || Base(spec) == Max(spec)
           || ToInt32(From(spec, current) + ScaleUp(metrics.pending, spec.targetPending)) >= Max(spec)
  {
    hide ScaleUp;
    DesiredIsBounded(spec, current, metrics);
    if Countable(spec, current, metrics) {
      forall k: int | 1 <= k <= Max(spec)
        ensures k <= Desired(spec, current, metrics) <==> CalledFor(spec, current, metrics, k)
      {
        DesiredIsCalledFor(spec, current, metrics, k);
      }
    } else {
      forall k: int | 1 <= k <= Max(spec) ensures CalledFor(spec, current, metrics, k) {
        OrderedProducts(k - 1 - From(spec, current), 0x7fff_ffff - From(spec, current), spec.targetPending);
      }
      assert CalledFor(spec, current, metrics, Max(spec));
    }
  }

  lemma DesiredIsCalledFor(spec: Spec, current: int32, metrics: Metrics, k: int)
    requires !GoesIdle(spec, metrics) && Countable(spec, current, metrics) && 1 <= k <= Max(spec)
    ensures k <= Desired(spec, current, metrics) <==> CalledFor(spec, current, metrics, k)
  {
    hide ScaleUp, Max, Base, GoesIdle;
    DesiredIsBounded(spec, current, metrics);
    if Backlogged(spec, metrics) {
      var from, most := From(spec, current), 0x7fff_ffff - From(spec, current);
      OrderedProducts(most, 0x7fff_ffff, spec.targetPending);
      ScaleUpFits(metrics.pending, spec.targetPending);
      Ceiling(metrics.pending, spec.targetPending, most);
      Ceiling(metrics.pending, spec.targetPending, k - 1 - from);
      Ceiling(metrics.pending, spec.targetPending, 0);
    }
  }

  /** Beyond 32 bits the count wraps: a backlog of 2^32 requests asks for no replica at all. */
  lemma HugeBacklogWraps()
    ensures ScaleUp(0x1_0000_0000, 1) == 0 && ScaleUp(0x8000_0000, 1) < 0
  {}

  // ---------- capacity ----------

  /** The nodes a reservation looks at. */
  function Considered(spec: Spec, nodes: seq<Node>): seq<Node> {
    if spec.cacheNode != "" then NodesNamed(nodes, spec.cacheNode) else nodes
  }

  function RequestOf(spec: Spec, count: int): Request {
    Request(spec.resource, count, spec.gpuType, spec.cacheNode)
  }

  predicate HasRoom(config: Config, spec: Spec, nodes: seq<Node>, allocations: seq<Allocation>, count: int) {
    exists n <- Considered(spec, nodes) :: Fits(config, RequestOf(spec, count), n, allocations)
  }

  predicate NodesOk(nodes: seq<Node>) {
    forall n <- nodes :: n.name != "" && forall r <- n.allocatable ::
      -0x8000_0000_0000_0000 <= n.allocatable[r] < 0x8000_0000_0000_0000
  }

  /** A plan is granted exactly when some considered node has room. */
  lemma PlannedExactlyWhenRoom(config: Config, spec: Spec, nodes: seq<Node>, allocations: seq<Allocation>, count: int,
                               r: Result)
    requires spec.resource != "" && count > 0
    requires IsPlan(config, RequestOf(spec, count), Considered(spec, nodes), allocations, r)
    ensures r.Planned? <==> HasRoom(config, spec, nodes, allocations, count)
  {
    if n :| n in Considered(spec, nodes) && Fits(config, RequestOf(spec, count), n, allocations) {
      assert Compatible(config, RequestOf(spec, count), n);
    }
  }

  /** A granted single-replica plan names the most room there is anywhere. */
  lemma PlannedHasMostRoom(config: Config, spec: Spec, nodes: seq<Node>, allocations: seq<Allocation>, per: int,
                           r: Result, count: int)
    requires spec.resource != "" && 0 < per <= count && NodesOk(nodes)
    requires IsPlan(config, RequestOf(spec, per), Considered(spec, nodes), allocations, r) && r.Planned?
    ensures HasRoom(config, spec, nodes, allocations, count) <==> r.placement.available >= count
    ensures per <= r.placement.available < 0x8000_0000_0000_0000
  {
    var request, wide := RequestOf(spec, per), RequestOf(spec, count);
    var best :| best in Considered(spec, nodes) && Fits(config, request, best, allocations)
                && r.placement == PlacementOn(request, best, allocations);
    assert best in nodes;
    if r.placement.available >= count {
      assert Fits(config, wide, best, allocations);
    }
    if n :| n in Considered(spec, nodes) && Fits(config, wide, n, allocations) {
      assert Fits(config, request, n, allocations);
      assert !Before(request, PlacementOn(request, n, allocations), r.placement);
    }
  }

  /** Some considered node can take this many replicas. */
  predicate RoomFor(config: Config, spec: Spec, nodes: seq<Node>, allocations: seq<Allocation>, replicas: int) {
    HasRoom(config, spec, nodes, allocations, spec.gpuCount * replicas)
  }

  /** Only the cache's node counts, if there is one. */
  lemma RoomForExactlyWhen(config: Config, spec: Spec, nodes: seq<Node>, allocations: seq<Allocation>, replicas: int)
    ensures RoomFor(config, spec, nodes, allocations, replicas) <==>
      exists n <- nodes ::
        && (spec.cacheNode == "" || n.name == spec.cacheNode)
        && Fits(config, Request(spec.resource, spec.gpuCount * replicas, spec.gpuType, spec.cacheNode), n, allocations)
  {
    hide Fits;
    NamedAre(nodes, spec.cacheNode);
    var request := RequestOf(spec, spec.gpuCount * replicas);
    if n :| n in nodes && (spec.cacheNode == "" || n.name == spec.cacheNode) && Fits(config, request, n, allocations) {
      assert n in Considered(spec, nodes);
    }
  }

  lemma LessRoom(config: Config, spec: Spec, nodes: seq<Node>, allocations: seq<Allocation>, per: int, count: int)
    requires 0 < per <= count && HasRoom(config, spec, nodes, allocations, count)
    ensures HasRoom(config, spec, nodes, allocations, per)
  {
    var n :| n in Considered(spec, nodes) && Fits(config, RequestOf(spec, count), n, allocations);
    assert Fits(config, RequestOf(spec, per), n, allocations);
  }

  /** The replica count left after the capacity check, from the room found for one replica. */
  function Capped(available: int, per: int, base: int32, desired: int32): int32
    requires available >= 0 && per > 0
  {
    var fitting := ToInt32(available / per);
    if base <= fitting < desired then fitting else desired
  }

  /** Capping keeps room exactly when there is room for the base, even when the division wraps. */
  lemma CappedKeepsRoom(available: int, per: int, base: int32, desired: int32)
    requires available >= 0 && per > 0 && 0 < base <= desired
    ensures base <= Capped(available, per, base, desired) <= desired
    ensures available >= per * Capped(available, per, base, desired) <==> available >= per * base
  {
    var q := available / per;
    DivisionBounds(available, per);
    FitsExactlyWhen(available, per, base);
    FitsExactlyWhen(available, per, desired);
    FitsExactlyWhen(available, per, Capped(available, per, base, desired));
  }

  /** Unless the division wraps, no more replicas than the capped count would fit. */
  lemma CappedIsMost(available: int, per: int, base: int32, desired: int32, k: int)
    requires available >= 0 && per > 0 && 0 < base <= desired
    requires available / per < 0x8000_0000 && available >= per * base
    requires Capped(available, per, base, desired) < k <= desired
    ensures available < per * k
  {
    FitsExactlyWhen(available, per, base);
    FitsExactlyWhen(available, per, k);
  }

  /** With room for the base, the capped count is the greatest that fits if and only if the division does
      not wrap into the range between base and wish. */
  lemma CappedIsMostExactlyWhen(available: int, per: int, base: int32, desired: int32)
    requires available >= 0 && per > 0 && 0 < base <= desired && available >= per * base
    ensures (forall k: int | base <= k <= desired ::
               k <= Capped(available, per, base, desired) <==> available >= per * k)
      <==> var q := available / per; q < 0x8000_0000 || !(base <= q % 0x1_0000_0000 < desired)
  {
    hide ToInt32;
    var q, capped := available / per, Capped(available, per, base, desired);
    Truncated(q);
    forall k: int | base <= k <= desired ensures available >= per * k <==> q >= k {
      FitsExactlyWhen(available, per, k);
    }
    if q >= 0x8000_0000 && base <= q % 0x1_0000_0000 < desired {
      assert !(desired <= capped) && available >= per * desired;
    }
  }

  lemma Truncated(q: nat)
    ensures q < 0x8000_0000 ==> ToInt32(q) == q
    ensures q % 0x1_0000_0000 < 0x8000_0000 ==> ToInt32(q) == q % 0x1_0000_0000
    ensures q % 0x1_0000_0000 >= 0x8000_0000 ==> ToInt32(q) < 0
  {}

  /** A node with 2^32 + 1 free GPUs holds a deployment that wants four replicas at one. */
  lemma HugeNodeWraps()
    ensures Capped(0x1_0000_0001, 1, 1, 4) == 1
  {}

  lemma FitsExactlyWhen(available: int, per: int, k: int)
    requires available >= 0 && per > 0
    ensures available >= per * k <==> available / per >= k
  {
    DivisionBounds(available, per);
    if available / per >= k {
      OrderedProducts(k, available / per, per);
    } else {
      OrderedProducts(available / per + 1, k, per);
    }
  }

  /** Lowers the wish to what fits, unless not even the base fits. No node has room for 2^31 replicas
      unless the division wraps. */
  method CapByGpuCapacity(config: Config, spec: Spec, nodes: seq<Node>, allocations: seq<Allocation>, desired: int32)
    returns (capped: int32)
    requires spec.resource != "" && spec.gpuCount >= 1 && NodesOk(nodes) && Base(spec) <= desired <= Max(spec)
    ensures Base(spec) <= capped <= desired
    ensures RoomFor(config, spec, nodes, allocations, capped) <==> RoomFor(config, spec, nodes, allocations, Base(spec))
    ensures !RoomFor(config, spec, nodes, allocations, Base(spec)) ==> capped == desired
    ensures RoomFor(config, spec, nodes, allocations, Base(spec))
            && !RoomFor(config, spec, nodes, allocations, 0x8000_0000) ==>
      forall k: int | 1 <= k <= desired :: k <= capped <==> RoomFor(config, spec, nodes, allocations, k)
  {
    hide RoomFor, HasRoom, IsPlan, Base, Max, Capped, NodesOk;
    var per, base := spec.gpuCount, Base(spec);
    DesiredIsBounded(spec, 0, NoScraper);
    var plan := Plan(config, RequestOf(spec, per), Considered(spec, nodes), allocations);
    forall k: int | k >= 1
      ensures plan.Refused? ==> !RoomFor(config, spec, nodes, allocations, k)
      ensures plan.Planned? ==>
        && plan.placement.available >= 0
        && (RoomFor(config, spec, nodes, allocations, k) <==> plan.placement.available >= per * k)
    {
      RoomPlanned(config, spec, nodes, allocations, plan, k);
    }
    assert plan.Refused? ==> !RoomFor(config, spec, nodes, allocations, base);
    if plan.Refused? {
      return desired;
    }
    var available := plan.placement.available;
    assert RoomFor(config, spec, nodes, allocations, base) <==> available >= per * base;
    capped := Capped(available, per, base, desired);
    CapIsMost(available, per, base, desired);
  }

  /** What the plan for one replica says about the room for k. */
  lemma RoomPlanned(config: Config, spec: Spec, nodes: seq<Node>, allocations: seq<Allocation>, plan: Result, k: int)
    requires spec.resource != "" && spec.gpuCount >= 1 && NodesOk(nodes) && k >= 1
    requires IsPlan(config, RequestOf(spec, spec.gpuCount), Considered(spec, nodes), allocations, plan)
    ensures plan.Refused? ==> !RoomFor(config, spec, nodes, allocations, k)
    ensures plan.Planned? ==>
      && plan.placement.available >= 0
      && (RoomFor(config, spec, nodes, allocations, k) <==> plan.placement.available >= spec.gpuCount * k)
  {
    hide IsPlan, HasRoom, NodesOk;
    var per := spec.gpuCount;
    OrderedProducts(1, k, per);
    if plan.Planned? {
      PlannedHasMostRoom(config, spec, nodes, allocations, per, plan, per * k);
    } else if RoomFor(config, spec, nodes, allocations, k) {
      LessRoom(config, spec, nodes, allocations, per, per * k);
      PlannedExactlyWhenRoom(config, spec, nodes, allocations, per, plan);
    }
  }

  lemma CapIsMost(available: int, per: int, base: int32, desired: int32)
    requires available >= 0 && per > 0 && 0 < base <= desired
    ensures var capped := Capped(available, per, base, desired);
      && base <= capped <= desired
      && (available >= per * capped <==> available >= per * base)
      && (available < per * base ==> capped == desired)
      && (available >= per * base && available < per * 0x8000_0000 ==>
            forall k: int | 1 <= k <= desired :: k <= capped <==> available >= per * k)
  {
    hide Capped;
    CappedKeepsRoom(available, per, base, desired);
    FitsExactlyWhen(available, per, base);
    if available < per * base {
      NothingCapped(available, per, base, desired);
    } else if available < per * 0x8000_0000 {
      FitsExactlyWhen(available, per, 0x8000_0000);
      CappedIsMostExactlyWhen(available, per, base, desired);
      forall k: int | 1 <= k <= desired
        ensures k <= Capped(available, per, base, desired) <==> available >= per * k
      {
        if k < base {
          FitsExactlyWhen(available, per, k);
        }
      }
    }
  }

  lemma NothingCapped(available: int, per: int, base: int32, desired: int32)
    requires available >= 0 && per > 0 && available / per < base
    ensures Capped(available, per, base, desired) == desired
  {}

  /** Plans the replicas and reserves their GPUs. Autoscaling never turns a capacity success into a
      failure: a nonzero plan is granted exactly when the base replicas fit. As long as nothing wraps, the
      k-th replica is planned exactly when it is called for and fits. */
  method PlanAndReserve(config: Config, spec: Spec, current: int32, metrics: Metrics, nodes: seq<Node>,
                        allocations: seq<Allocation>)
    returns (replicas: int32, granted: bool)
    requires spec.resource != "" && spec.gpuCount >= 1 && NodesOk(nodes)
    ensures replicas == 0 || Base(spec) <= replicas <= Max(spec)
    ensures replicas == 0 <==>
      && spec.minReplicas == 0 && spec.idleSet && !metrics.NoScraper?
      && (metrics.held || (&& metrics.Scraped? && spec.idleUsable && metrics.idleTooLong
                           && metrics.pending == 0 && metrics.running == 0))
    ensures replicas > 0 ==> (granted <==> RoomFor(config, spec, nodes, allocations, Base(spec)))
    ensures replicas > 0 && Countable(spec, current, metrics)
            && !RoomFor(config, spec, nodes, allocations, 0x8000_0000) ==>
      forall k: int | 1 <= k <= Max(spec) ::
        k <= replicas <==> CalledFor(spec, current, metrics, k)
                           && (granted ==> RoomFor(config, spec, nodes, allocations, k))
  {
    hide HasRoom, CalledFor, Countable, Desired, Base, Max, IsPlan;
    DesiredIsBounded(spec, current, metrics);
    var desired := Desired(spec, current, metrics);
    if desired == 0 {
      return 0, false;
    }
    replicas := CapByGpuCapacity(config, spec, nodes, allocations, desired);
    var plan := Plan(config, RequestOf(spec, spec.gpuCount * replicas), Considered(spec, nodes), allocations);
    OrderedProducts(1, replicas, spec.gpuCount);
    PlannedExactlyWhenRoom(config, spec, nodes, allocations, spec.gpuCount * replicas, plan);
    granted := plan.Planned?;
    assert granted <==> RoomFor(config, spec, nodes, allocations, replicas);
    if Countable(spec, current, metrics) {
      forall k: int | 1 <= k <= Max(spec) ensures k <= desired <==> CalledFor(spec, current, metrics, k) {
        DesiredIsCalledFor(spec, current, metrics, k);
      }
    }
  }
}
