/** Whole-GPU placement: which node, if any, can take one activation reservation. */
module GpuPlanner {
  import Text

  datatype Request = Request(resource: string, count: int, gpuType: string, preferred: string)

  datatype Allocation = Allocation(node: string, resource: string, count: int)

  /** `eligible` stands for "Ready and schedulable"; a missing label reads as "". */
  datatype Node = Node(name: string, eligible: bool, labels: map<string, string>, allocatable: map<string, int>) {
    function Label(key: string): string {
      if key in labels then labels[key] else ""
    }
  }

  datatype Config = Config(selector: map<string, string>, typeLabel: string)

  datatype Placement = Placement(node: string, total: int, occupied: int, available: int)

  datatype PlanError = MissingResource | NonPositiveCount | NoCompatibleNode | InsufficientCapacity

  datatype Result = Planned(placement: Placement) | Refused(error: PlanError)

  // ---------- what a plan is, independently of how it is searched for ----------

  function Occupied(allocations: seq<Allocation>, resource: string, node: string): (n: nat) {
    if allocations == [] then 0
    else
      var a := allocations[0];
      (if a.resource == resource && a.count > 0 && a.node == node then a.count else 0)
      + Occupied(allocations[1..], resource, node)
  }

  predicate Compatible(config: Config, request: Request, node: Node) {
    && node.eligible
    && (forall key <- config.selector :: node.Label(key) == config.selector[key])
    && (request.gpuType == "" || node.Label(config.typeLabel) == request.gpuType)
    && request.resource in node.allocatable
    && node.allocatable[request.resource] > 0
  }

  function PlacementOn(request: Request, node: Node, allocations: seq<Allocation>): Placement
    requires request.resource in node.allocatable
  {
    var total := node.allocatable[request.resource];
    var used := Occupied(allocations, request.resource, node.name);
    Placement(node.name, total, used, total - used)
  }

  predicate Fits(config: Config, request: Request, node: Node, allocations: seq<Allocation>) {
    && Compatible(config, request, node)
    && PlacementOn(request, node, allocations).available >= request.count
  }

  /** The documented order: the preferred node, then most free slots, then least name. */
  predicate Before(request: Request, p: Placement, q: Placement) {
    var pp, qp := p.node == request.preferred, q.node == request.preferred;
    if pp != qp then pp
    else if p.available != q.available then p.available > q.available
    else Text.Less(p.node, q.node)
  }

  ghost predicate IsPlan(config: Config, request: Request, nodes: seq<Node>, allocations: seq<Allocation>,
                         result: Result) {
    if request.resource == "" then result == Refused(MissingResource)
    else if request.count <= 0 then result == Refused(NonPositiveCount)
    else match result
      case Planned(p) =>
        && (exists node <- nodes ::
              Fits(config, request, node, allocations) && p == PlacementOn(request, node, allocations))
        && (forall node <- nodes | Fits(config, request, node, allocations) ::
              !Before(request, PlacementOn(request, node, allocations), p))
      case Refused(InsufficientCapacity) =>
        && (exists node <- nodes :: Compatible(config, request, node))
        && (forall node <- nodes :: !Fits(config, request, node, allocations))
      case Refused(NoCompatibleNode) =>
        forall node <- nodes :: !Compatible(config, request, node)
      case Refused(_) => false
  }

  /** A node fits exactly when it is Ready and schedulable, carries every selected label (an absent one counts
      as empty) and the GPU type, if one is asked for, and has the slots left. */
  lemma NodeFitsExactlyWhen(config: Config, request: Request, node: Node, allocations: seq<Allocation>)
    ensures Fits(config, request, node, allocations) <==>
      && node.eligible
      && (forall key <- config.selector ::
            if key in node.labels then node.labels[key] == config.selector[key] else config.selector[key] == "")
      && (request.gpuType != "" ==>
            config.typeLabel in node.labels && node.labels[config.typeLabel] == request.gpuType)
      && request.resource in node.allocatable && node.allocatable[request.resource] > 0
      && node.allocatable[request.resource] >= request.count + Occupied(allocations, request.resource, node.name)
  {
    hide Occupied;
  }

  /** The granted node is fitting, and against any other fitting one it is the preferred one, or has more slots
      left, or as many and the lesser name. */
  lemma PlannedIsBest(config: Config, request: Request, nodes: seq<Node>, allocations: seq<Allocation>, p: Placement,
                      other: Node)
    requires request.count > 0 && IsPlan(config, request, nodes, allocations, Planned(p))
    requires other in nodes && Fits(config, request, other, allocations)
    ensures var left := other.allocatable[request.resource] - Occupied(allocations, request.resource, other.name);
      || p.node == other.name
      || p.node == request.preferred
      || (&& other.name != request.preferred
          && (p.available > left || (p.available == left && Text.Less(p.node, other.name))))
  {
    hide Occupied;
    Text.LessTotal(p.node, other.name);
  }

  /** Which of the answers there is. */
  lemma AnswerExactlyWhen(config: Config, request: Request, nodes: seq<Node>, allocations: seq<Allocation>, r: Result)
    requires IsPlan(config, request, nodes, allocations, r)
    ensures r == Refused(MissingResource) <==> request.resource == ""
    ensures r == Refused(NonPositiveCount) <==> request.resource != "" && request.count <= 0
    ensures r == Refused(NoCompatibleNode) <==>
      && request.resource != "" && request.count > 0
      && forall n <- nodes :: !Compatible(config, request, n)
    ensures r.Planned? <==>
      request.resource != "" && request.count > 0 && exists n <- nodes :: Fits(config, request, n, allocations)
    ensures r.Planned? ==> exists n <- nodes ::
      && Fits(config, request, n, allocations)
      && var total, used := n.allocatable[request.resource], Occupied(allocations, request.resource, n.name);
         r.placement == Placement(n.name, total, used, total - used)
  {
    hide Occupied;
    if n :| n in nodes && Fits(config, request, n, allocations) {
      assert Compatible(config, request, n);
    }
  }

  lemma BeforeTransitive(request: Request, p: Placement, q: Placement, r: Placement)
    requires Before(request, p, q) && Before(request, q, r)
    ensures Before(request, p, r)
  {
    if Text.Less(p.node, q.node) && Text.Less(q.node, r.node) {
      Text.LessTransitive(p.node, q.node, r.node);
    }
  }

  /** The reserved slots per node, accumulated as the planner does. */
  method OccupiedByNode(request: Request, allocations: seq<Allocation>) returns (occupied: map<string, int>)
    ensures forall node: string ::
      (if node in occupied then occupied[node] else 0) == Occupied(allocations, request.resource, node)
  {
    occupied := map[];
    for i := 0 to |allocations|
      invariant forall node: string ::
        (if node in occupied then occupied[node] else 0) == Occupied(allocations[..i], request.resource, node)
    {
      var a := allocations[i];
      forall node: string {
        OccupiedSnoc(allocations[..i], a, request.resource, node);
      }
      assert allocations[..i + 1] == allocations[..i] + [a];
      if a.resource == request.resource && a.count > 0 {
        occupied := occupied[a.node := (if a.node in occupied then occupied[a.node] else 0) + a.count];
      }
    }
    assert allocations[..|allocations|] == allocations;
  }

  lemma {:induction false} OccupiedSnoc(allocations: seq<Allocation>, a: Allocation, resource: string, node: string)
    ensures Occupied(allocations + [a], resource, node) == Occupied(allocations, resource, node)
      + (if a.resource == resource && a.count > 0 && a.node == node then a.count else 0)
  {
    if allocations != [] {
      OccupiedSnoc(allocations[1..], a, resource, node);
      assert (allocations + [a])[1..] == allocations[1..] + [a];
    }
  }

  method Plan(config: Config, request: Request, nodes: seq<Node>, allocations: seq<Allocation>) returns (result: Result)
    ensures IsPlan(config, request, nodes, allocations, result)
  {
    if request.resource == "" {
      return Refused(MissingResource);
    }
    if request.count <= 0 {
      return Refused(NonPositiveCount);
    }
    var occupied := OccupiedByNode(request, allocations);
    var compatible, found := false, false;
    var best := Placement("", 0, 0, 0);
    for i := 0 to |nodes|
      invariant compatible <==> exists node <- nodes[..i] :: Compatible(config, request, node)
      invariant found <==> exists node <- nodes[..i] :: Fits(config, request, node, allocations)
      invariant found ==> exists node <- nodes[..i] ::
        Fits(config, request, node, allocations) && best == PlacementOn(request, node, allocations)
      invariant found ==> forall node <- nodes[..i] | Fits(config, request, node, allocations) ::
        !Before(request, PlacementOn(request, node, allocations), best)
    {
      var node := nodes[i];
      assert nodes[..i + 1] == nodes[..i] + [node];
      if Compatible(config, request, node) {
        compatible := true;
        var total := node.allocatable[request.resource];
        var used := if node.name in occupied then occupied[node.name] else 0;
        assert Fits(config, request, node, allocations) <==> total - used >= request.count;
        if total - used >= request.count {
          var candidate := Placement(node.name, total, used, total - used);
          assert candidate == PlacementOn(request, node, allocations);
          Text.LessTotal(node.name, node.name);
          if !found || Before(request, candidate, best) {
            forall other <- nodes[..i] | Fits(config, request, other, allocations) && found
              ensures !Before(request, PlacementOn(request, other, allocations), candidate)
            {
              if Before(request, PlacementOn(request, other, allocations), candidate) {
                BeforeTransitive(request, PlacementOn(request, other, allocations), candidate, best);
              }
            }
            best := candidate;
          }
          found := true;
        }
      }
    }
    assert nodes[..|nodes|] == nodes;
    result := if found then Planned(best)
              else if compatible then Refused(InsufficientCapacity)
              else Refused(NoCompatibleNode);
  }

  // ---------- order independence ----------

  lemma {:induction false} OccupiedRemove(allocations: seq<Allocation>, k: nat, resource: string, node: string)
    requires k < |allocations|
    ensures Occupied(allocations, resource, node)
      == Occupied([allocations[k]], resource, node) + Occupied(allocations[..k] + allocations[k + 1..], resource, node)
  {
    assert [allocations[k]][1..] == [];
    if k == 0 {
      assert allocations[..0] + allocations[1..] == allocations[1..];
    } else {
      OccupiedRemove(allocations[1..], k - 1, resource, node);
      assert (allocations[..k] + allocations[k + 1..])[1..] == allocations[1..][..k - 1] + allocations[1..][k..];
    }
  }

  /** Where `a`'s first allocation stands in a permutation of it, and what is left of each. */
  lemma MatchHead(a: seq<Allocation>, b: seq<Allocation>) returns (k: nat)
    requires a != [] && multiset(a) == multiset(b)
    ensures k < |b| && b[k] == a[0]
    ensures multiset(a[1..]) == multiset(b[..k] + b[k + 1..])
  {
    assert a[0] in multiset(b);
    k :| k < |b| && b[k] == a[0];
    var rest := b[..k] + b[k + 1..];
    assert a == [a[0]] + a[1..];
    assert b == b[..k] + [b[k]] + b[k + 1..];
    assert multiset(b) == multiset(rest) + multiset{b[k]};
    assert multiset(a) == multiset(a[1..]) + multiset{a[0]};
    assert multiset(rest) == multiset(b) - multiset{b[k]};
    assert multiset(a[1..]) == multiset(a) - multiset{a[0]};
  }

  lemma {:induction false} OccupiedPermutation(a: seq<Allocation>, b: seq<Allocation>, resource: string, node: string)
    requires multiset(a) == multiset(b)
    ensures Occupied(a, resource, node) == Occupied(b, resource, node)
    decreases |a|
  {
    if a != [] {
      var k := MatchHead(a, b);
      OccupiedPermutation(a[1..], b[..k] + b[k + 1..], resource, node);
      OccupiedRemove(b, k, resource, node);
      assert [b[k]][1..] == [];
    } else {
      assert |multiset(b)| == |b|;
    }
  }

  /** Any two plans for the same nodes and allocations, listed in any order, agree. */
  lemma PlanIsOrderIndependent(config: Config, request: Request,
                               nodes: seq<Node>, allocations: seq<Allocation>, r: Result,
                               nodes': seq<Node>, allocations': seq<Allocation>, r': Result)
    requires multiset(nodes) == multiset(nodes') && multiset(allocations) == multiset(allocations')
    requires forall a <- nodes, b <- nodes :: a.name == b.name ==> a == b
    requires IsPlan(config, request, nodes, allocations, r)
    requires IsPlan(config, request, nodes', allocations', r')
    ensures r == r'
  {
    forall n: Node ensures n in nodes <==> n in nodes' {
      assert n in nodes <==> n in multiset(nodes);
      assert n in nodes' <==> n in multiset(nodes');
    }
    forall n <- nodes
      ensures Fits(config, request, n, allocations) == Fits(config, request, n, allocations')
      ensures Compatible(config, request, n) ==>
        PlacementOn(request, n, allocations) == PlacementOn(request, n, allocations')
    {
      OccupiedPermutation(allocations, allocations', request.resource, n.name);
    }
    if request.resource != "" && request.count > 0 && r.Planned? && r'.Planned? {
      Text.LessTotal(r.placement.node, r'.placement.node);
    }
  }

  /** A preferred node with room is always the one planned. */
  lemma PreferredNodeWins(config: Config, request: Request, nodes: seq<Node>, allocations: seq<Allocation>, r: Result,
                          node: Node)
    requires request.resource != "" && request.count > 0
    requires IsPlan(config, request, nodes, allocations, r)
    requires node in nodes && node.name == request.preferred && Fits(config, request, node, allocations)
    ensures r.Planned? && r.placement.node == request.preferred
  {
    assert Compatible(config, request, node);
  }
}
