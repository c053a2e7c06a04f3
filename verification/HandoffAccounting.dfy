/** How a handoff looks to the other deployments: the slot of a requester and its target is charged
    once, whichever of the two stands for it. */
module HandoffAccounting {
  import opened Wrappers
  import opened GpuPlanner
  import opened Sums
  import opened Deployments
  import opened SlotSafety
  import opened Charges
  import opened ReplacementRuns
  import opened Lifecycle

  // ---------- one pair, one charge ----------

  /** d's transaction against t reserves their common slot, and nobody is replacing d. */
  ghost predicate HandingOver(c: Cluster, d: Ref, t: Ref) {
    HandoffFrom(c, d, t) && !HandoffTarget(c, d)
  }

  /** One of the two serves and the other takes nothing. */
  ghost predicate ServesAlone(c: Cluster, d: Ref, t: Ref) {
    && d in c.deployments && Serving(c.deployments[d].status) && !HandoffTarget(c, d)
    && Vacant(c, t)
  }

  /** An outsider is charged exactly one unit for the pair in every phase of the handoff, before it
      starts and after it ends either way. */
  lemma PairChargedOnce(c: Cluster, self: Ref, d: Ref, t: Ref)
    requires Local(c) && d in c.deployments && self != d && self != t && d != t
    requires HandingOver(c, d, t) || ServesAlone(c, d, t)
    ensures Charge(c, self, c.deployments[d].spec.slot, d) == 1
    ensures Charge(c, self, c.deployments[d].spec.slot, t) == 0
  {
    assert StatusOk(c, d, c.deployments[d].spec.slot, c.deployments[d].status);
  }

  /** On a single-unit slot nobody replaces a requester. */
  lemma RequesterIsNoTarget(c: Cluster, d: Ref, t: Ref)
    requires Inv(c) && HandoffFrom(c, d, t) && Single(c.nodes, c.deployments[d].spec.slot)
    ensures HandingOver(c, d, t)
  {
    forall x <- c.deployments ensures !HandoffFrom(c, x, d) {
      assert EdgeOk(c, x) && TargetVacant(c, x);
    }
  }

  /** The requester never finds its target's slot taken by the target. */
  lemma RequesterSeesNoTarget(c: Cluster, d: Ref, t: Ref, s: Slot)
    requires HandoffFrom(c, d, t)
    ensures Charge(c, d, s, t) == 0
  {}

  /** The target of a rollback finds the slot taken by its requester exactly while the requester's
      runtime is still there. */
  lemma RestoredSeesRequesterRuntime(c: Cluster, d: Ref, t: Ref, s: Slot)
    requires Local(c) && d in c.deployments && d != t
    requires RollingBackTo(c.deployments[d].status, t) && !HandoffTarget(c, d)
    ensures Charge(c, t, s, d) > 0 <==> Live(c, d) && c.deployments[d].spec.slot == s
  {}

  // ---------- conservation across the steps of a handoff ----------

  /** The step changes nothing but d's and t's own objects, and hides nothing else from third parties. */
  ghost predicate StepOfPair(c: Cluster, c': Cluster, d: Ref, t: Ref) {
    && c'.known == c.known && d in c.known && t in c.known && d != t
    && (forall e | e != d && e != t ::
          && (e in c'.deployments <==> e in c.deployments)
          && (e in c.deployments ==> c'.deployments[e] == c.deployments[e])
          && (e in c'.runtimes <==> e in c.runtimes)
          && (e in c.runtimes ==> c'.runtimes[e] == c.runtimes[e])
          && (HandoffTarget(c', e) <==> HandoffTarget(c, e)))
  }

  /** Outsiders feel such a step only through the pair's own charges. */
  lemma OnlyThePairChanges(c: Cluster, c': Cluster, self: Ref, d: Ref, t: Ref, s: Slot)
    requires StepOfPair(c, c', d, t)
    ensures Taken(c', self, s) + Charge(c, self, s, d) + Charge(c, self, s, t)
            == Taken(c, self, s) + Charge(c', self, s, d) + Charge(c', self, s, t)
  {
    forall e <- c.known - {d, t} ensures Charge(c, self, s, e) == Charge(c', self, s, e) {
      assert StatusCharged(c', self, e) == StatusCharged(c, self, e);
    }
    SumPair(c.known, e => Charge(c, self, s, e), e => Charge(c', self, s, e), d, t);
  }

  /** One of the pair stands for their slot: a handoff is under way, or one of the two serves alone. */
  ghost predicate OneStands(c: Cluster, d: Ref, t: Ref) {
    && d in c.deployments && t in c.deployments && c.deployments[d].spec.slot == c.deployments[t].spec.slot
    && (HandingOver(c, d, t) || ServesAlone(c, d, t) || ServesAlone(c, t, d))
  }

  /** Any step of the pair between two such states is invisible to outsiders. */
  lemma PairStepIsConserved(c: Cluster, c': Cluster, d: Ref, t: Ref, self: Ref)
    requires Local(c) && Local(c') && StepOfPair(c, c', d, t) && self != d && self != t
    requires OneStands(c, d, t) && OneStands(c', d, t) && c'.deployments[d].spec.slot == c.deployments[d].spec.slot
    ensures Taken(c', self, c.deployments[d].spec.slot) == Taken(c, self, c.deployments[d].spec.slot)
  {
    hide Taken, Charge, Local, StepOfPair;
    OnlyThePairChanges(c, c', self, d, t, c.deployments[d].spec.slot);
    ChargedForPair(c, d, t, self);
    ChargedForPair(c', d, t, self);
  }

  lemma ChargedForPair(c: Cluster, d: Ref, t: Ref, self: Ref)
    requires Local(c) && OneStands(c, d, t) && d != t && self != d && self != t
    ensures Charge(c, self, c.deployments[d].spec.slot, d) + Charge(c, self, c.deployments[d].spec.slot, t) == 1
  {
    if ServesAlone(c, t, d) {
      PairChargedOnce(c, self, t, d);
    } else {
      PairChargedOnce(c, self, d, t);
    }
  }

  /** Writes to d and t that move no handoff but d's own, which is onto t before and after. */
  lemma PairStep(c: Cluster, c': Cluster, d: Ref, t: Ref)
    requires c'.known == c.known && d in c.known && t in c.known && d != t
    requires c'.deployments.Keys == c.deployments.Keys && d in c.deployments && t in c.deployments
    requires forall e <- c.deployments | e != d && e != t :: c'.deployments[e] == c.deployments[e]
    requires forall e | e != d && e != t ::
      (e in c'.runtimes <==> e in c.runtimes) && (e in c.runtimes ==> c'.runtimes[e] == c.runtimes[e])
    requires forall e | e != t :: !HandoffFrom(c, d, e) && !HandoffFrom(c', d, e)
    requires forall e :: HandoffFrom(c', t, e) <==> HandoffFrom(c, t, e)
    ensures StepOfPair(c, c', d, t)
    ensures HandoffTarget(c', d) <==> HandoffTarget(c, d)
  {
    forall e | e != t ensures HandoffTarget(c', e) <==> HandoffTarget(c, e) {
      forall x <- c.deployments ensures HandoffFrom(c', x, e) <==> HandoffFrom(c, x, e) {}
    }
  }

  /** What a participant's status notes about a transaction that reserves nothing is invisible to everybody. */
  lemma NoteIsInvisible(c: Cluster, e: Ref, next: Status, self: Ref, s: Slot)
    requires e in c.deployments
    requires var status := c.deployments[e].status;
      next.assignedNode == status.assignedNode && next.phase == status.phase
      && !Reserves(status.replacement) && !Reserves(next.replacement)
    ensures Taken(WithStatus(c, e, next), self, s) == Taken(c, self, s)
  {
    var c' := WithStatus(c, e, next);
    forall t ensures HandoffTarget(c', t) <==> HandoffTarget(c, t) {
      forall x <- c.deployments ensures HandoffFrom(c', x, t) <==> HandoffFrom(c, x, t) {}
    }
    forall x <- c.known ensures Charge(c', self, s, x) == Charge(c, self, s, x) {
      assert StatusCharged(c', self, x) == StatusCharged(c, self, x);
    }
    SumSame(c.known, x => Charge(c', self, s, x), x => Charge(c, self, s, x));
  }

  lemma ReleaseIsInvisible(c: Cluster, target: Option<Ref>, requester: Ref, self: Ref, s: Slot)
    requires target.Some? && RequestedBy(c, target.value, requester) ==>
      c.deployments[target.value].status.replacement.value.target.None?
    ensures Taken(Released(c, target, requester), self, s) == Taken(c, self, s)
  {
    if target.Some? && target.value.namespace == requester.namespace && RequestedBy(c, target.value, requester) {
      NoteIsInvisible(c, target.value, Released(c, target, requester).deployments[target.value].status, self, s);
    }
  }

  lemma MarkIsInvisible(c: Cluster, t: Ref, requester: Ref, self: Ref, s: Slot)
    requires Local(c) && t in c.deployments && CandidateAvailable(c.deployments[t].status.replacement)
    ensures Taken(Marked(c, t, requester), self, s) == Taken(c, self, s)
  {
    var r := c.deployments[t].status.replacement;
    assert StatusOk(c, t, c.deployments[t].spec.slot, c.deployments[t].status);
    var released := c;
    if r.Some? {
      var v := r.value.target.value;
      assert v in c.deployments ==> StatusOk(c, v, c.deployments[v].spec.slot, c.deployments[v].status);
      ReleaseIsInvisible(c, r.value.target, t, self, s);
      released := Released(c, r.value.target, t);
    }
    NoteIsInvisible(released, t, Marked(c, t, requester).deployments[t].status, self, s);
  }

  /** Opening a transaction and marking its target leaves what outsiders find taken unchanged, unless
      another requester already stands for the target: then they find one unit more taken. */
  lemma StartIsConserved(c: Cluster, d: Ref, t: Ref, status: Status, self: Ref)
    requires Inv(c) && d in c.deployments && t in c.deployments
    requires Start(c, d, t, Started(c, d, status, t).deployments[d].status)
    requires Vacant(c, d) && !Handoff(c.deployments[d].status) && !HandoffTarget(c, d)
    requires self != d && self != t
    ensures var c' := Marked(Started(c, d, status, t), t, d);
      Taken(c', self, c.deployments[d].spec.slot)
      == Taken(c, self, c.deployments[d].spec.slot) + (if HandoffTarget(c, t) then 1 else 0)
  {
    hide Inv, Taken, Started, Marked;
    var c' := Started(c, d, status, t);
    OpeningIsConserved(c, d, t, status, self);
    MarkIsInvisible(c', t, d, self, c.deployments[d].spec.slot);
  }

  lemma OpeningIsConserved(c: Cluster, d: Ref, t: Ref, status: Status, self: Ref)
    requires Inv(c) && d in c.deployments && t in c.deployments
    requires Start(c, d, t, Started(c, d, status, t).deployments[d].status)
    requires Vacant(c, d) && !Handoff(c.deployments[d].status) && !HandoffTarget(c, d)
    requires self != d && self != t
    ensures var c' := Started(c, d, status, t);
      && Local(c') && t in c'.deployments && c'.deployments[t] == c.deployments[t]
      && Taken(c', self, c.deployments[d].spec.slot)
         == Taken(c, self, c.deployments[d].spec.slot) + (if HandoffTarget(c, t) then 1 else 0)
  {
    hide Inv, Taken, Charge;
    var s := c.deployments[d].spec.slot;
    var c' := Started(c, d, status, t);
    Placed(c') by { StartWrite(c, d, t, c'.deployments[d].status); }
    Kept(c, d);
    Kept(c, t);
    PairStep(c, c', d, t);
    OnlyThePairChanges(c, c', self, d, t, s);
    OpenedCharges(c, c', d, t, self);
  }

  lemma OpenedCharges(c: Cluster, c': Cluster, d: Ref, t: Ref, self: Ref)
    requires Local(c) && Local(c') && self != d && self != t && d != t
    requires d in c.deployments && t in c.deployments && d in c'.deployments && t in c'.deployments
    requires c'.deployments[t] == c.deployments[t]
    requires c'.deployments[d].spec.slot == c.deployments[d].spec.slot == c.deployments[t].spec.slot
    requires Vacant(c, d) && Serving(c.deployments[t].status) && HandingOver(c', d, t)
    ensures var s := c.deployments[d].spec.slot;
      && Charge(c', self, s, d) == 1 && Charge(c', self, s, t) == 0
      && Charge(c, self, s, d) == 0 && Charge(c, self, s, t) == if HandoffTarget(c, t) then 0 else 1
  {
    PairChargedOnce(c', self, d, t);
    assert StatusOk(c, t, c.deployments[t].spec.slot, c.deployments[t].status);
  }

  /** A takeover that succeeds is invisible to outsiders. */
  lemma TakeoverIsConserved(c: Cluster, d: Ref, t: Ref, status: Status, self: Ref)
    requires Inv(c) && t in c.deployments && HandingOver(c, d, t) && Single(c.nodes, c.deployments[d].spec.slot)
    requires c.deployments[d].status.replacement.value.phase.Activating?
    requires Prepared(c, d, status) && Reserves(status.replacement)
    requires RuntimeAtOne(c, d, false).ready && self != d && self != t
    ensures Current(Activated(c, d, status, false), d).phase.Succeeded?
    ensures Taken(Activated(c, d, status, false), self, c.deployments[d].spec.slot)
      == Taken(c, self, c.deployments[d].spec.slot)
  {
    hide Inv, Taken, Charge;
    var s := c.deployments[d].spec.slot;
    var c' := Activated(c, d, status, false);
    Kept(c, d);
    Kept(c, t);
    PairStep(c, c', d, t);
    OnlyThePairChanges(c, c', self, d, t, s);
    PairChargedOnce(c, self, d, t);
    TakenOverCharges(c, c', d, t, self);
  }

  /** The requester serves in its own name; its target is hidden no more but takes nothing. */
  lemma TakenOverCharges(c: Cluster, c': Cluster, d: Ref, t: Ref, self: Ref)
    requires d in c.deployments && d in c'.deployments && t in c.deployments
    requires t in c'.deployments && d != t && self != d && self != t
    requires Serving(c'.deployments[d].status)
    requires c'.deployments[d].status.assignedNode == c.deployments[d].spec.slot.node
    requires c'.deployments[d].spec == c.deployments[d].spec && !Reserves(c'.deployments[d].status.replacement)
    requires !HandoffTarget(c', d) && Vacant(c', t)
    ensures Charge(c', self, c.deployments[d].spec.slot, d) == 1 && Charge(c', self, c.deployments[d].spec.slot, t) == 0
  {}

  /** Ending a rollback once the displaced model serves again is invisible to outsiders, exactly when
      no other requester stands for that model. */
  lemma RestorationIsConserved(c: Cluster, d: Ref, t: Ref, status: Status, self: Ref)
    requires Inv(c) && HandingOver(c, d, t) && Restored(c, d, t)
    requires status.replacement == c.deployments[d].status.replacement
    requires self != d && self != t
    ensures var c' := WithStatus(Released(c, Some(t), d), d, Ended(status, ReplacementPhase.RolledBack));
      Taken(c', self, c.deployments[d].spec.slot)
      == Taken(c, self, c.deployments[d].spec.slot) - (if exists x :: HandoffFrom(c, x, t) && x != d then 1 else 0)
  {
    hide Inv, Taken, Released;
    Kept(c, d);
    Kept(c, t);
    ReleaseIsInvisible(c, Some(t), d, self, c.deployments[d].spec.slot);
    var released := Released(c, Some(t), d);
    ReleaseKeepsPlaces(c, t, d);
    ClosingIsConserved(released, d, t, Ended(status, ReplacementPhase.RolledBack), self);
  }

  /** A release changes only what the target notes about the transaction. */
  lemma ReleaseKeepsPlaces(c: Cluster, t: Ref, d: Ref)
    requires Local(c) && t in c.deployments && d in c.deployments && d != t
    ensures var c' := Released(c, Some(t), d);
      && Local(c') && c'.runtimes == c.runtimes && c'.known == c.known && c'.deployments.Keys == c.deployments.Keys
      && c'.deployments[d] == c.deployments[d] && c'.deployments[t].spec == c.deployments[t].spec
      && Serving(c'.deployments[t].status) == Serving(c.deployments[t].status)
      && (forall x, e :: HandoffFrom(c', x, e) <==> HandoffFrom(c, x, e))
  {
    hide Local, HandoffFrom;
    if t.namespace == d.namespace && RequestedBy(c, t, d) {
      StoredStatus(c, t);
      StatusWriteLocal(c, t, Released(c, Some(t), d).deployments[t].status);
      NoteMovesNoHandoff(c, t, Released(c, Some(t), d).deployments[t].status);
    }
  }

  lemma StoredStatus(c: Cluster, t: Ref)
    requires Local(c) && t in c.deployments
    ensures StatusOk(c, t, c.deployments[t].spec.slot, c.deployments[t].status)
  {}

  lemma NoteMovesNoHandoff(c: Cluster, e: Ref, next: Status)
    requires e in c.deployments && !Reserves(c.deployments[e].status.replacement) && !Reserves(next.replacement)
    ensures forall x, t :: HandoffFrom(WithStatus(c, e, next), x, t) <==> HandoffFrom(c, x, t)
  {}

  lemma ClosingIsConserved(c: Cluster, d: Ref, t: Ref, next: Status, self: Ref)
    requires Local(c) && HandingOver(c, d, t) && t in c.deployments && d != t
    requires d !in c.runtimes && Serving(c.deployments[t].status)
    requires c.deployments[d].spec.slot == c.deployments[t].spec.slot
    requires next.assignedNode == "" && self != d && self != t
    ensures Taken(WithStatus(c, d, next), self, c.deployments[d].spec.slot)
      == Taken(c, self, c.deployments[d].spec.slot) - (if exists x :: HandoffFrom(c, x, t) && x != d then 1 else 0)
  {
    var s := c.deployments[d].spec.slot;
    var c' := WithStatus(c, d, next);
    PairStep(c, c', d, t);
    hide Taken, Charge, Local;
    OnlyThePairChanges(c, c', self, d, t, s);
    PairChargedOnce(c, self, d, t);
    ClosedCharges(c, d, t, next, self);
  }

  /** Without its node the requester is charged nothing; the target is, unless another requester hides it. */
  lemma ClosedCharges(c: Cluster, d: Ref, t: Ref, next: Status, self: Ref)
    requires Local(c) && d in c.deployments && t in c.deployments && d != t
    requires d !in c.runtimes && Serving(c.deployments[t].status)
    requires c.deployments[d].spec.slot == c.deployments[t].spec.slot
    requires next.assignedNode == "" && self != d && self != t
    ensures var c', s := WithStatus(c, d, next), c.deployments[d].spec.slot;
      && Charge(c', self, s, d) == 0
      && Charge(c', self, s, t) == if exists x :: HandoffFrom(c, x, t) && x != d then 0 else 1
  {
    OthersHide(c, d, t, next);
    assert StatusOk(c, t, c.deployments[t].spec.slot, c.deployments[t].status);
  }

  /** Without d's handoff the target is hidden only by other requesters. */
  lemma OthersHide(c: Cluster, d: Ref, t: Ref, next: Status)
    requires d in c.deployments && next.assignedNode == ""
    ensures HandoffTarget(WithStatus(c, d, next), t) <==> exists x :: HandoffFrom(c, x, t) && x != d
  {
    var c' := WithStatus(c, d, next);
    forall x ensures HandoffFrom(c', x, t) <==> HandoffFrom(c, x, t) && x != d {}
    if x :| HandoffFrom(c, x, t) && x != d {
      assert HandoffFrom(c', x, t);
    }
  }

  lemma Placed(c: Cluster)
    requires Inv(c)
    ensures Local(c)
  {}

  lemma Kept(c: Cluster, d: Ref)
    requires Inv(c) && d in c.deployments
    ensures Local(c)
    ensures StatusOk(c, d, c.deployments[d].spec.slot, c.deployments[d].status) && EdgeOk(c, d) && TargetVacant(c, d)
    ensures d in c.known && c.deployments[d].spec.slot.node != ""
    ensures d in c.runtimes ==> c.runtimes[d].slot == c.deployments[d].spec.slot
  {}
}
