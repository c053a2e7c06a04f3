/** How much of a slot one deployment finds taken, object by object. */
module Charges {
  import opened GpuPlanner
  import opened Sums
  import opened Deployments
  import opened SlotSafety

  ghost function StatusPart(c: Cluster, self: Ref, s: Slot, e: Ref): nat {
    if StatusCharged(c, self, e) && c.deployments[e].status.assignedNode == s.node
       && c.deployments[e].spec.slot.resource == s.resource then 1 else 0
  }

  ghost function RuntimePart(c: Cluster, self: Ref, s: Slot, e: Ref): nat {
    if RuntimeCharged(c, self, e) && c.runtimes[e].slot == s then c.runtimes[e].replicas else 0
  }

  /** The units of s that self must leave to e. */
  ghost function Charge(c: Cluster, self: Ref, s: Slot, e: Ref): nat {
    StatusPart(c, self, s, e) + RuntimePart(c, self, s, e)
  }

  /** The units of s that self finds taken. */
  ghost function Taken(c: Cluster, self: Ref, s: Slot): int {
    Sum(c.known, e => Charge(c, self, s, e))
  }

  lemma {:induction false} OccupiedConcat(a: seq<Allocation>, b: seq<Allocation>, s: Slot)
    ensures Occupied(a + b, s.resource, s.node) == Occupied(a, s.resource, s.node) + Occupied(b, s.resource, s.node)
  {
    if a == [] {
      assert a + b == b;
    } else {
      OccupiedConcat(a[1..], b, s);
      assert (a + b)[1..] == a[1..] + b;
    }
  }

  ghost function Objects(items: seq<Ref>): set<Ref> {
    set e <- items
  }

  lemma ObjectsOfRest(items: seq<Ref>)
    requires items != [] && Distinct(items)
    ensures items[|items| - 1] in Objects(items)
    ensures Objects(items[..|items| - 1]) == Objects(items) - {items[|items| - 1]}
  {
    var last, rest := items[|items| - 1], items[..|items| - 1];
    assert items == rest + [last];
    assert last !in rest;
  }

  lemma {:induction false} StatusTally(c: Cluster, self: Ref, items: seq<Ref>, s: Slot, f: Ref -> int)
    requires Distinct(items) && (forall e <- items :: e in c.deployments)
    requires (forall e :: f(e) == StatusPart(c, self, s, e))
    ensures Occupied(StatusAllocations(c, self, items), s.resource, s.node) == Sum(Objects(items), f)
  {
    hide StatusCharged, RuntimeCharged;
    if items != [] {
      var last, rest := items[|items| - 1], items[..|items| - 1];
      StatusTally(c, self, rest, s, f);
      ObjectsOfRest(items);
      SumTake(Objects(items), f, last);
      if StatusCharged(c, self, last) {
        OccupiedSnoc(StatusAllocations(c, self, rest), StatusCharge(c.deployments[last]), s.resource, s.node);
      } else {
        assert StatusAllocations(c, self, items) == StatusAllocations(c, self, rest);
      }
    }
  }

  lemma {:induction false} RuntimeTally(c: Cluster, self: Ref, items: seq<Ref>, s: Slot, f: Ref -> int)
    requires Distinct(items) && (forall e <- items :: e in c.runtimes)
    requires (forall e :: f(e) == RuntimePart(c, self, s, e))
    ensures Occupied(RuntimeAllocations(c, self, items), s.resource, s.node) == Sum(Objects(items), f)
  {
    hide StatusCharged, RuntimeCharged;
    if items != [] {
      var last, rest := items[|items| - 1], items[..|items| - 1];
      RuntimeTally(c, self, rest, s, f);
      ObjectsOfRest(items);
      SumTake(Objects(items), f, last);
      if RuntimeCharged(c, self, last) {
        OccupiedSnoc(RuntimeAllocations(c, self, rest), RuntimeCharge(c.runtimes[last]), s.resource, s.node);
      } else {
        assert RuntimeAllocations(c, self, items) == RuntimeAllocations(c, self, rest);
      }
    }
  }

  lemma UnlistedAreFree(c: Cluster, self: Ref, s: Slot)
    ensures forall e | e !in c.deployments :: StatusPart(c, self, s, e) == 0
    ensures forall e | e !in c.runtimes :: RuntimePart(c, self, s, e) == 0
  {}

  /** What the planner finds occupied, whatever the listing order, is the sum of these charges. */
  lemma OccupiedIsTaken(c: Cluster, self: Ref, items: seq<Ref>, runtimeItems: seq<Ref>, s: Slot)
    requires Local(c) && Lists(items, c.deployments.Keys) && Lists(runtimeItems, c.runtimes.Keys)
    ensures Occupied(StatusAllocations(c, self, items) + RuntimeAllocations(c, self, runtimeItems), s.resource, s.node)
            == Taken(c, self, s)
  {
    hide StatusCharged, RuntimeCharged, Occupied, StatusAllocations, RuntimeAllocations, Sum;
    OccupiedConcat(StatusAllocations(c, self, items), RuntimeAllocations(c, self, runtimeItems), s);
    var statuses: Ref -> int := e => StatusPart(c, self, s, e);
    var runtimes: Ref -> int := e => RuntimePart(c, self, s, e);
    StatusTally(c, self, items, s, statuses);
    RuntimeTally(c, self, runtimeItems, s, runtimes);
    assert c.deployments.Keys == Objects(items);
    assert c.runtimes.Keys == Objects(runtimeItems);
    UnlistedAreFree(c, self, s);
    SumNarrow(c.known, c.deployments.Keys, statuses);
    SumNarrow(c.known, c.runtimes.Keys, runtimes);
    SumSplit(c.known, statuses, runtimes, e => Charge(c, self, s, e));
  }

  /** The cache's node suits d and offers more of the slot's resource than d finds taken. */
  ghost predicate Affordable(c: Cluster, config: Config, d: Ref)
    requires d in c.deployments
  {
    var spec := c.deployments[d].spec;
    exists n <- c.nodes ::
      && n.name == spec.slot.node && Compatible(config, RequestFor(spec), n)
      && n.allocatable[spec.slot.resource] > Taken(c, d, spec.slot)
  }

  /** On any node, whatever it offers, the planner grants the reservation exactly when it is affordable. */
  lemma PlannedExactlyWhenAffordable(c: Cluster, config: Config, d: Ref, items: seq<Ref>, runtimeItems: seq<Ref>,
                                     r: Result)
    requires Local(c) && d in c.deployments
    requires Lists(items, c.deployments.Keys) && Lists(runtimeItems, c.runtimes.Keys)
    requires IsPlan(config, RequestFor(c.deployments[d].spec), NodesNamed(c.nodes, c.deployments[d].spec.slot.node),
                    StatusAllocations(c, d, items) + RuntimeAllocations(c, d, runtimeItems), r)
    ensures r.Planned? <==> Affordable(c, config, d)
  {
    hide Taken, StatusAllocations, RuntimeAllocations, NodesNamed, IsPlan, Occupied;
    var spec := c.deployments[d].spec;
    var nodes := NodesNamed(c.nodes, spec.slot.node);
    var allocations := StatusAllocations(c, d, items) + RuntimeAllocations(c, d, runtimeItems);
    OccupiedIsTaken(c, d, items, runtimeItems, spec.slot);
    NamedAre(c.nodes, spec.slot.node);
    AnswerExactlyWhen(config, RequestFor(spec), nodes, allocations, r);
    forall n <- nodes
      ensures Fits(config, RequestFor(spec), n, allocations) <==>
        Compatible(config, RequestFor(spec), n) && n.allocatable[spec.slot.resource] > Taken(c, d, spec.slot)
    {}
  }
}
