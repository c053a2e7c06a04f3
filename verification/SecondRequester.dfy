/** A target claimed twice: the controller dies between the first requester's patch and the target's mark,
    and a second requester finds the same target unmarked. */
module SecondRequester {
  import opened Wrappers
  import opened Deployments
  import opened SlotSafety
  import opened Lifecycle
  import opened Charges
  import opened HandoffAccounting
  import opened ConflictExposure

  const Third := Ref("models", "c", "3")
  const Outsider := Ref("models", "d", "4")

  /** `Old` serves; `New` and `Third` both want its GPU. */
  const Contested: Cluster := WithDeployment(Full, Third, NewSpec)

  /** `New` reserved the slot and the controller died before it could mark `Old`. */
  const Unmarked: Cluster := Started(Contested, New, StatusIn(Phase.Pending, ""), Old)

  /** `Third` has opened its own transaction against `Old`. */
  const Twice: Cluster := Marked(Started(Unmarked, Third, StatusIn(Phase.Pending, ""), Old), Old, Third)

  lemma ContestedIsFine()
    ensures Inv(Contested)
  {
    FullIsFine();
    AddWrite(Full, Third, NewSpec);
  }

  lemma FullIsFine()
    ensures Inv(Full)
  {
    forall a <- Full.deployments, b <- Full.deployments
      ensures OneServes(Full, a, b) && OnlyTargetServes(Full, a, b)
    {}
    forall a, b ensures Apart(Full.runtimes, Full.nodes, a, b) {}
  }

  lemma UnmarkedIsFine()
    ensures Inv(Unmarked)
  {
    hide Inv;
    ContestedIsFine();
    assert Start(Contested, New, Old, Unmarked.deployments[New].status);
    StartWrite(Contested, New, Old, Unmarked.deployments[New].status);
    assert WithStatus(Contested, New, Unmarked.deployments[New].status).(clock := 1) == Unmarked;
  }

  /** The second start is the controller's own choice, and after it an outsider is charged once for each
      requester: it finds one unit more taken than before, of a slot that has only one. */
  lemma SecondRequesterIsChargedToo()
    ensures Inv(Unmarked) && Eligible(Unmarked, Third, Old) && HandoffTarget(Unmarked, Old)
    ensures Charge(Twice, Outsider, Gpu, New) == 1 && Charge(Twice, Outsider, Gpu, Third) == 1
    ensures Taken(Twice, Outsider, Gpu) == Taken(Unmarked, Outsider, Gpu) + 1
  {
    hide Inv, Taken, Charge;
    UnmarkedIsFine();
    BothAreCharged();
    UnmarkedIsOpen();
    StartIsConserved(Unmarked, Third, Old, StatusIn(Phase.Pending, ""), Outsider);
  }

  lemma UnmarkedIsOpen()
    ensures HandoffTarget(Unmarked, Old) && !HandoffTarget(Unmarked, Third) && Vacant(Unmarked, Third)
    ensures Start(Unmarked, Third, Old,
                  Started(Unmarked, Third, StatusIn(Phase.Pending, ""), Old).deployments[Third].status)
  {
    assert HandoffFrom(Unmarked, New, Old);
  }

  lemma BothAreCharged()
    ensures Charge(Twice, Outsider, Gpu, New) == 1 && Charge(Twice, Outsider, Gpu, Third) == 1
  {
    var started := Started(Unmarked, Third, StatusIn(Phase.Pending, ""), Old);
    assert Twice.deployments[New] == Unmarked.deployments[New];
    assert Twice.deployments[Third] == started.deployments[Third];
    assert Twice.runtimes == Full.runtimes && Twice.deployments.Keys == {Old, New, Third};
    hide Unmarked, Twice;
    ChargedOnce(Twice, New);
    ChargedOnce(Twice, Third);
  }

  /** A requester of the only GPU that nobody replaces is charged for it. */
  lemma ChargedOnce(c: Cluster, d: Ref)
    requires d in c.deployments && d != Outsider && Handoff(c.deployments[d].status) && !HandoffTarget(c, d)
    requires c.deployments[d].status.assignedNode == Gpu.node && c.deployments[d].spec.slot == Gpu
    requires c.deployments[d].status.replacement.value.target != Some(Outsider)
    ensures Charge(c, Outsider, Gpu, d) == 1
  {}
}
