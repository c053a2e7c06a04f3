/** The model cache controller: one cache, its downloader Job and the nodes, reconciled over any run
    of edits, Job results, Job expiry, node replacement and crashes. */
module ModelCache {
  import opened Wrappers

  const DefaultRevision := "main"

  /** `accepted` stands for the validation rules that no later branch reads; `settings` for the
      downloader image, node selector and tolerations that the Job's own hash covers. */
  datatype Spec = Spec(
    repo: string, revision: string, path: string, node: string, size: int,
    secretRef: string, settings: string, accepted: bool)
  {
    predicate Valid() {
      accepted && repo != "" && path != "" && size > 0
    }

    function Revision(): string {
      if revision == "" then DefaultRevision else revision
    }
  }

  datatype Placement = Placement(node: string, nodeUid: string, path: string, size: int)

  /** What a cache artifact is and where it lies. The source keeps the SHA-256 of this; here the hash
      is the value itself, which makes it injective. */
  datatype Identity = Identity(repo: string, revision: string, placement: Placement)

  function IdentityOf(spec: Spec, placement: Placement): Identity {
    Identity(spec.repo, spec.Revision(), placement)
  }

  datatype Truth = True | False | Unknown

  datatype Phase = Unset | Pending | Downloading | Ready | Failed

  datatype Status = Status(
    phase: Phase,
    observedGeneration: int,
    recorded: Placement,
    revision: string,
    inputHash: Option<Identity>,
    downloaded: Truth,
    readyCondition: bool)

  datatype Outcome = Running | Complete | FailedTerminal

  datatype Job = Job(identity: Identity, secretRef: string, settings: string, retryToken: string, outcome: Outcome,
                     deleting: bool)

  const Nowhere := Placement("", "", "", 0)

  const NewStatus := Status(Unset, 0, Nowhere, "", None, Unknown, false)

  /** What the planner answers: it respects a pinned node and reserves exactly what the spec asks for. */
  datatype Plan = Placed(placement: Placement) | Unplaceable | PlannerError

  predicate PlanFor(plan: Plan, spec: Spec, nodes: map<string, string>) {
    plan.Placed? ==>
      && plan.placement.node in nodes && plan.placement.nodeUid == nodes[plan.placement.node]
      && plan.placement.path == spec.path && plan.placement.size == spec.size
      && (spec.node != "" ==> plan.placement.node == spec.node)
  }

  // ---------- the statuses a reconcile can leave ----------

  function PendingStatus(s: Status, generation: int, nodeLost: bool): Status {
    s.(phase := Pending, observedGeneration := generation, readyCondition := false,
       downloaded := if nodeLost && s.phase.Ready? then True else s.downloaded)
  }

  function FailedStatus(s: Status, generation: int, specInvalid: bool): Status {
    s.(phase := Failed, observedGeneration := generation, readyCondition := false,
       downloaded := if specInvalid then Unknown else s.downloaded)
  }

  function ReadyStatus(s: Status, generation: int, spec: Spec, nodeUid: string): Status {
    var recorded := s.recorded.(nodeUid := nodeUid, size := spec.size);
    Status(Ready, generation, recorded, spec.Revision(), Some(IdentityOf(spec, recorded)), True, true)
  }

  function PlacedStatus(generation: int, spec: Spec, placement: Placement): Status {
    Status(Pending, generation, placement, spec.Revision(), None, False, false)
  }

  function ProjectedStatus(generation: int, spec: Spec, placement: Placement, job: Job): Status {
    var phase := match job.outcome case Complete => Ready case FailedTerminal => Failed case Running => Downloading;
    Status(phase, generation, placement, spec.Revision(), Some(job.identity),
           if job.outcome.Complete? then True else False, job.outcome.Complete?)
  }

  // ---------- the invariant ----------

  predicate RecordedAs(s: Status, id: Identity) {
    id.placement == s.recorded && id.revision == s.revision
  }

  predicate StatusOk(spec: Spec, generation: int, s: Status, completed: set<Identity>) {
    && s.observedGeneration <= generation
    && (s.inputHash.Some? ==> RecordedAs(s, s.inputHash.value) && s.recorded.node != "")
    && (s.recorded.node != "" ==>
          s.recorded.nodeUid != "" && s.recorded.path != "" && s.recorded.size > 0 && s.revision != "")
    && (s.downloaded.True? ==> s.inputHash.Some? && s.inputHash.value in completed)
    && (s.phase.Ready? ==> s.downloaded.True?) && (s.phase.Downloading? ==> !s.downloaded.True?)
    && (s.readyCondition <==> s.phase.Ready?)
    && (s.phase.Ready? && s.observedGeneration == generation ==>
          SamePlace(s, spec) && s.inputHash == Some(Expected(s, spec)))
  }

  /** A completed Job's identity is known, and once the download is finished no other Job exists. */
  predicate JobOk(job: Option<Job>, s: Status, completed: set<Identity>) {
    job.Some? ==>
      && (job.value.outcome.Complete? ==> job.value.identity in completed)
      && (s.downloaded.True? ==> s.inputHash == Some(job.value.identity))
  }

  predicate NodesOk(nodes: map<string, string>) {
    forall n <- nodes :: n != "" && nodes[n] != ""
  }

  /** A Ready cache whose spec was observed is exactly what some completed Job downloaded. */
  lemma ReadyIsWitnessed(spec: Spec, generation: int, s: Status, completed: set<Identity>)
    requires StatusOk(spec, generation, s, completed) && s.phase.Ready? && s.observedGeneration == generation
    ensures Identity(spec.repo, spec.Revision(),
                     Placement(s.recorded.node, s.recorded.nodeUid, spec.path, spec.size)) in completed
    ensures spec.node != "" ==> spec.node == s.recorded.node
  {}

  /** The node still holding a recorded placement: same name and same UID. */
  predicate NodeKept(s: Status, nodes: map<string, string>) {
    s.recorded.node in nodes && nodes[s.recorded.node] == s.recorded.nodeUid
  }

  /** The spec still asks for the recorded place. */
  predicate SamePlace(s: Status, spec: Spec) {
    spec.path == s.recorded.path && (spec.node != "" ==> spec.node == s.recorded.node)
  }

  /** The identity the current spec has at the recorded place. */
  function Expected(s: Status, spec: Spec): Identity {
    IdentityOf(spec, s.recorded.(size := spec.size))
  }

  predicate Delivers(job: Job, id: Identity) {
    job.identity == id && job.outcome.Complete?
  }

  function DeletionRequested(job: Option<Job>): Option<Job> {
    if job.Some? then Some(job.value.(deleting := true)) else None
  }

  /** A recorded download whose identity and node are still the ones asked for. */
  predicate Continues(s: Status, spec: Spec, nodes: map<string, string>) {
    SamePlace(s, spec) && s.inputHash == Some(Expected(s, spec)) && NodeKept(s, nodes)
  }

  /** The Job that would be created now already exists, and no retry of it is due. */
  predicate Current(job: Option<Job>, spec: Spec, placement: Placement, retryToken: string) {
    && job.Some? && !job.value.deleting
    && job.value.identity == IdentityOf(spec, placement)
    && job.value.secretRef == spec.secretRef && job.value.settings == spec.settings
    && (retryToken == "" || retryToken == job.value.retryToken)
  }

  datatype Event =
    | ReconcileEvent(secretReady: bool, plan: Plan, writes: nat)
    | EditEvent(spec: Spec)
    | RetryEvent(token: string)
    | JobEnds(outcome: Outcome)
    | JobGone
    | NodeAppears(name: string, uid: string)
    | NodeGone(name: string)

  /** Everything the controller and the world can change; `created` counts the Jobs ever created and
      `completed` holds the identities of those that completed. */
  datatype World = World(
    spec: Spec, generation: int, retryToken: string, status: Status, job: Option<Job>,
    nodes: map<string, string>, completed: set<Identity>, created: nat)

  /** What a reconcile with the given number of writes left does. */
  ghost predicate Reconciled(w: World, w': World, secretReady: bool, plan: Plan, writes: nat) {
    var s, s' := w.status, w'.status;
    && w' == w.(status := s', job := w'.job, created := w'.created)
    && (writes == 0 ==> w' == w)
    && (w.created != w'.created ==> w.spec.Valid() && !s.downloaded.True? && w'.created == w.created + 1)
    && (!w.spec.Valid() ==>
          && w'.job == w.job && w'.created == w.created
          && (writes > 0 ==> s' == s.(phase := Failed, observedGeneration := w.generation, downloaded := Unknown,
                                      readyCondition := false)))
    && (w.spec.Valid() && s.downloaded.True? ==>
          && Kept(s, s') && w'.job == w.job && w'.created == w.created
          && (writes > 0 ==>
                && s'.observedGeneration == w.generation
                && s'.phase == if Continues(s', w.spec, w.nodes) then Ready
                               else if SamePlace(s', w.spec) && !NodeKept(s', w.nodes) then Pending else Failed))
    && (w.spec.Valid() && !s.downloaded.True? && writes > 0 ==> Downloads(w, w', secretReady, plan, writes))
  }

  /** What becomes of a cache that is not downloaded yet: a download under way is dropped when the spec no
      longer fits it, goes on where it is, or is placed again once its lost node's Job is gone. */
  ghost predicate Downloads(w: World, w': World, secretReady: bool, plan: Plan, writes: nat) {
    if w.status.phase == Downloading && w.status.inputHash != None && !Homeless(w) then Proceeds(w, w', writes)
    else Places(w, w', secretReady, plan, writes)
  }

  /** The download's node is gone, and so is its Job. */
  predicate Homeless(w: World) {
    Fitting(w) && !NodeKept(w.status, w.nodes) && w.job == None
  }

  /** The recorded download is the one the spec asks for. */
  predicate Fitting(w: World) {
    SamePlace(w.status, w.spec) && w.status.inputHash == Some(Expected(w.status, w.spec))
  }

  /** Same repository and effective revision, same path and size, on a node the spec allows. */
  lemma FittingExactlyWhen(w: World)
    requires w.status.inputHash.Some?
    ensures var id, at := w.status.inputHash.value, w.status.recorded;
      Fitting(w) <==>
        && id.repo == w.spec.repo && id.revision == (if w.spec.revision == "" then "main" else w.spec.revision)
        && id.placement == Placement(at.node, at.nodeUid, at.path, w.spec.size)
        && at.path == w.spec.path && (w.spec.node == "" || w.spec.node == at.node)
  {}

  ghost predicate Proceeds(w: World, w': World, writes: nat) {
    if !Fitting(w) then Drops(w, w')
    else if NodeKept(w.status, w.nodes) then Fetches(w, w', w.status.recorded, writes)
    else Stops(w, w')
  }

  /** The Job is asked to go; nothing else changes. */
  ghost predicate Stops(w: World, w': World) {
    && w.job.Some? && w'.job.Some? && w'.job.value.deleting
    && w'.job.value.(deleting := w.job.value.deleting) == w.job.value
    && w'.status == w.status && w'.created == w.created
  }

  /** A download that no longer fits: its Job is stopped first, and once it is gone the hash is forgotten. */
  ghost predicate Drops(w: World, w': World) {
    if w.job.Some? then Stops(w, w')
    else
      && w'.job == None && w'.created == w.created
      && w'.status.phase == Pending && w'.status.inputHash == None && w'.status.observedGeneration == w.generation
      && w'.status.downloaded == False && !w'.status.readyCondition && w'.status.recorded == w.status.recorded
  }

  /** The one Job at a place: created if there is none, left alone while it goes, stopped if it would be
      built differently today or a retry is due, and otherwise reported. */
  ghost predicate Fetches(w: World, w': World, p: Placement, writes: nat) {
    var id := Identity(w.spec.repo, w.spec.Revision(), p);
    if w.job.None? then
      && w'.created == w.created + 1
      && w'.job == Some(Job(id, w.spec.secretRef, w.spec.settings, w.retryToken, Running, false))
      && (if writes >= 2 then Reports(w, w'.status, p, w'.job.value) else w'.status == w.status)
    else if w.job.value.deleting then w' == w
    else if w.job.value.identity != id || w.job.value.secretRef != w.spec.secretRef
            || w.job.value.settings != w.spec.settings
            || (w.retryToken != "" && w.retryToken != w.job.value.retryToken && w.status.phase != Ready)
    then Stops(w, w')
    else w'.job == w.job && w'.created == w.created && Reports(w, w'.status, p, w.job.value)
  }

  /** The status says what the Job's outcome is and what it downloads where. */
  ghost predicate Reports(w: World, s': Status, p: Placement, job: Job) {
    && s'.recorded == p && s'.revision == w.spec.Revision() && s'.inputHash == Some(job.identity)
    && s'.observedGeneration == w.generation
    && (job.outcome == Complete <==> s'.phase == Ready)
    && (job.outcome == FailedTerminal <==> s'.phase == Failed)
    && (job.outcome == Running <==> s'.phase == Downloading)
    && s'.downloaded == (if job.outcome == Complete then True else False)
    && (s'.readyCondition <==> job.outcome == Complete)
  }

  /** A cache without a download under way: it waits for its secret or for a node, records a place it was
      not at, and fetches at the place it recorded. */
  ghost predicate Places(w: World, w': World, secretReady: bool, plan: Plan, writes: nat) {
    if w.spec.secretRef != "" && !secretReady then Waits(w, w')
    else match plan
      case PlannerError => w' == w
      case Unplaceable => Waits(w, w')
      case Placed(p) =>
        if p == w.status.recorded then Fetches(w, w', p, writes)
        else
          && w'.job == w.job && w'.created == w.created
          && w'.status == Status(Pending, w.generation, p, w.spec.Revision(), None, False, false)
  }

  ghost predicate Waits(w: World, w': World) {
    && w'.job == w.job && w'.created == w.created
    && w'.status == w.status.(phase := Pending, observedGeneration := w.generation, readyCondition := false)
  }

  /** The world after an event of the environment. */
  function Moved(w: World, e: Event): World {
    match e
    case ReconcileEvent(_, _, _) => w
    case EditEvent(next) => w.(spec := next, generation := w.generation + 1)
    case RetryEvent(token) => w.(retryToken := token)
    case JobEnds(outcome) =>
      if w.job.None? || !w.job.value.outcome.Running? then w
      else w.(job := Some(w.job.value.(outcome := outcome)),
              completed := w.completed + if outcome.Complete? then {w.job.value.identity} else {})
    case JobGone => w.(job := None)
    case NodeAppears(name, uid) => w.(nodes := w.nodes[name := uid])
    case NodeGone(name) => w.(nodes := w.nodes - {name})
  }

  ghost predicate Happens(w: World, w': World, e: Event) {
    if e.ReconcileEvent? then Reconciled(w, w', e.secretReady, e.plan, e.writes) else w' == Moved(w, e)
  }

  /** The worlds of a run: each follows from the one before by the next event, and the run stops at the
      first event that is not admissible. */
  ghost predicate Follows(worlds: seq<World>, events: seq<Event>, stopped: bool) {
    && 0 < |worlds| <= |events| + 1
    && (forall k | 0 <= k < |worlds| - 1 ::
          Admissible(events[k], worlds[k].spec, worlds[k].nodes) && Happens(worlds[k], worlds[k + 1], events[k]))
    && var last := worlds[|worlds| - 1];
       if stopped then |worlds| <= |events| && !Admissible(events[|worlds| - 1], last.spec, last.nodes)
       else |worlds| == |events| + 1
  }

  lemma SpecAfter(w: World, w': World, e: Event)
    requires Happens(w, w', e)
    ensures w'.spec == if e.EditEvent? then e.spec else w.spec
  {}

  /** A Ready cache whose spec was observed is what some completed Job downloaded. */
  ghost predicate Witnessed(w: World) {
    w.status.phase.Ready? && w.status.observedGeneration == w.generation ==> Expected(w.status, w.spec) in w.completed
  }

  predicate Admissible(e: Event, spec: Spec, nodes: map<string, string>) {
    match e
    case ReconcileEvent(_, plan, _) => PlanFor(plan, spec, nodes)
    case NodeAppears(name, uid) => name != "" && uid != ""
    case _ => true
  }

  /** No edit makes the spec invalid. */
  ghost predicate StaysValid(events: seq<Event>) {
    forall e <- events | e.EditEvent? :: e.spec.Valid()
  }

  /** A finished download stayed finished, the same artifact on the same node and path. */
  predicate Kept(before: Status, after: Status) {
    && after.downloaded.True? && after.recorded == before.recorded
    && after.revision == before.revision && after.inputHash == before.inputHash
  }

  /** A cache that Lookup hands to a runtime: where and which revision. */
  datatype Handoff = Handoff(node: string, path: string, revision: string)

  function Lookup(s: Status): Option<Handoff> {
    if !s.phase.Ready? || !s.readyCondition then None
    else if s.recorded.node == "" || s.recorded.path == "" || s.revision == "" then None
    else Some(Handoff(s.recorded.node, s.recorded.path, s.revision))
  }

  /** A runtime is only ever given a place and revision that a completed Job downloaded. */
  lemma LookupIsWitnessed(spec: Spec, generation: int, s: Status, completed: set<Identity>)
    requires StatusOk(spec, generation, s, completed) && Lookup(s).Some?
    ensures exists id <- completed ::
      Lookup(s).value == Handoff(id.placement.node, id.placement.path, id.revision)
      && (s.observedGeneration == generation ==> id == Expected(s, spec))
  {
    assert s.inputHash.value in completed;
  }

  lemma NotFinished(spec: Spec, generation: int, s: Status, completed: set<Identity>)
    requires StatusOk(spec, generation, s, completed) && s.phase.Downloading?
    ensures !s.downloaded.True?
  {}

  /** Every Ready cache is handed out. */
  lemma ReadyIsHandedOut(spec: Spec, generation: int, s: Status, completed: set<Identity>)
    requires StatusOk(spec, generation, s, completed)
    ensures Lookup(s).Some? <==> s.phase == Ready
  {}

  class Controller {
    var spec: Spec
    var generation: int
    var retryToken: string
    var status: Status
    var job: Option<Job>
    /** Names and UIDs of the cluster's nodes. */
    var nodes: map<string, string>
    var writesLeft: nat
    /** The identities of the Jobs that ever completed. */
    ghost var completed: set<Identity>
    /** How many Jobs were created. */
    ghost var created: nat

    ghost predicate Valid()
      reads this
    {
      StatusOk(spec, generation, status, completed) && JobOk(job, status, completed) && NodesOk(nodes)
    }

    ghost function Here(): World
      reads this
    {
      World(spec, generation, retryToken, status, job, nodes, completed, created)
    }

    constructor (spec: Spec)
      ensures Valid() && this.spec == spec && status == NewStatus && job.None? && completed == {} && created == 0
    {
      this.spec, generation, retryToken := spec, 1, "";
      status, job, nodes, writesLeft := NewStatus, None, map[], 0;
      completed, created := {}, 0;
    }

    method PatchStatus(next: Status) returns (ok: bool)
      requires Valid() && StatusOk(spec, generation, next, completed) && JobOk(job, next, completed)
      modifies this`status, this`writesLeft
      ensures Valid()
      ensures ok == (old(writesLeft) > 0) && status == if ok then next else old(status)
      ensures writesLeft <= old(writesLeft)
    {
      ok := writesLeft > 0;
      if ok {
        writesLeft, status := writesLeft - 1, next;
      }
    }

    /** Asks for the Job's deletion; `stopping` says that it is still there. */
    method DeleteDownloaderJob() returns (stopping: bool)
      requires Valid()
      modifies this`job, this`writesLeft
      ensures Valid() && stopping == old(job.Some?)
      ensures writesLeft <= old(writesLeft) && (old(job.None?) ==> writesLeft == old(writesLeft))
      ensures job == if old(writesLeft) > 0 then DeletionRequested(old(job)) else old(job)
    {
      stopping := job.Some?;
      if job.Some? && !job.value.deleting && writesLeft > 0 {
        job, writesLeft := Some(job.value.(deleting := true)), writesLeft - 1;
      }
    }

    /** Whether a finished download still is what the spec asks for, and whether its node is lost. */
    method ReadyPlacementMatches() returns (ready: bool, nodeLost: bool)
      requires Valid()
      ensures !status.phase.Ready? && !status.downloaded.True? ==> !ready && !nodeLost
      ensures status.downloaded.True? ==>
        && (ready <==> Continues(status, spec, nodes))
        && (nodeLost <==> SamePlace(status, spec) && !NodeKept(status, nodes))
    {
      if !status.phase.Ready? && !status.downloaded.True? {
        return false, false;
      }
      if status.recorded.node == "" || status.recorded.path == "" {
        return false, false;
      }
      if spec.path != status.recorded.path || (spec.node != "" && spec.node != status.recorded.node) {
        return false, false;
      }
      if status.recorded.node !in nodes {
        return false, true;
      }
      var uid := nodes[status.recorded.node];
      if status.recorded.nodeUid != "" && status.recorded.nodeUid != uid {
        return false, true;
      }
      var expected := IdentityOf(spec, Placement(status.recorded.node, uid, status.recorded.path, spec.size));
      if status.inputHash == Some(expected) {
        return true, false;
      }
      ready := job.Some? && Delivers(job.value, expected);
      nodeLost := false;
    }

    /** Creates the desired Job, or keeps the existing one unless its inputs changed or a retry is due. */
    method ReconcileDownloaderJob(placement: Placement) returns (current: Option<Job>)
      requires Valid() && !status.downloaded.True?
      modifies this`job, this`writesLeft, this`created
      ensures Valid() && writesLeft <= old(writesLeft)
      ensures old(writesLeft) == 0 ==> job == old(job) && created == old(created)
      ensures created != old(created) ==> old(job.None?) && created == old(created) + 1
      ensures current.Some? ==>
        job == current && !current.value.deleting && current.value.identity == IdentityOf(spec, placement)
      ensures current.None? && old(writesLeft) > 0 ==> Fetches(old(Here()), Here(), placement, old(writesLeft))
      ensures current.Some? && old(job.None?) ==>
        && created == old(created) + 1 && writesLeft == old(writesLeft) - 1
        && current == Some(Job(IdentityOf(spec, placement), spec.secretRef, spec.settings, retryToken, Running, false))
      ensures current.Some? && old(job.Some?) ==>
        && current == old(job) && created == old(created) && writesLeft == old(writesLeft)
        && Current(old(job), spec, placement, retryToken)
    {
      var desired := Job(IdentityOf(spec, placement), spec.secretRef, spec.settings, retryToken, Running, false);
      if job.None? {
        if writesLeft == 0 {
          return None;
        }
        writesLeft, job, created := writesLeft - 1, Some(desired), created + 1;
        return job;
      }
      var existing := job.value;
      if existing.deleting {
        return None;
      }
      var retryRequested := !status.phase.Ready? && retryToken != "" && retryToken != existing.retryToken;
      var sameHash := existing.identity == desired.identity
                      && existing.secretRef == desired.secretRef && existing.settings == desired.settings;
      if !retryRequested && sameHash {
        return Some(existing);
      }
      var _ := DeleteDownloaderJob();
      current := None;
    }

    /** Reports what the Job says; a completed one makes the cache Ready. */
    method ProjectJobStatus(placement: Placement, current: Job)
      requires Valid() && job == Some(current) && current.identity == IdentityOf(spec, placement)
      requires placement.node != "" && placement.nodeUid != "" && spec.Valid()
      requires placement.path == spec.path && placement.size == spec.size
      requires (spec.node != "" ==> spec.node == placement.node)
      modifies this`status, this`writesLeft
      ensures Valid()
      ensures writesLeft <= old(writesLeft)
      ensures status == if old(writesLeft) > 0 then ProjectedStatus(generation, spec, placement, current)
                        else old(status)
    {
      var _ := PatchStatus(ProjectedStatus(generation, spec, placement, current));
    }

    /** Sees to the Job at the recorded place and reports it. */
    method Fetch(placement: Placement)
      requires Valid() && spec.Valid() && !status.downloaded.True?
      requires placement.node != "" && placement.nodeUid != "" && placement.path == spec.path
      requires placement.size == spec.size && (spec.node != "" ==> spec.node == placement.node)
      modifies this`job, this`status, this`writesLeft, this`created
      ensures Valid() && writesLeft <= old(writesLeft)
      ensures created != old(created) ==> old(job.None?) && created == old(created) + 1
      ensures old(writesLeft) == 0 ==> status == old(status) && job == old(job) && created == old(created)
      ensures old(writesLeft) > 0 ==> Fetches(old(Here()), Here(), placement, old(writesLeft))
    {
      var current := ReconcileDownloaderJob(placement);
      if current.Some? {
        ProjectJobStatus(placement, current.value);
      }
    }

    /** A download under way. `handled` is false when its node is lost and its Job is gone: the cache
        must be placed again. */
    method ReconcileInFlight() returns (handled: bool)
      requires Valid() && spec.Valid() && status.phase.Downloading?
      requires status.inputHash.Some? && !status.downloaded.True?
      modifies this`job, this`status, this`writesLeft, this`created
      ensures Valid()
      ensures !handled ==> status == old(status) && job == old(job) && created == old(created)
      ensures old(writesLeft) == 0 ==> status == old(status) && job == old(job) && created == old(created)
      ensures created == old(created) || created == old(created) + 1
      ensures !handled <==> Homeless(old(Here()))
      ensures !handled ==> writesLeft == old(writesLeft)
      ensures handled && old(writesLeft) > 0 ==> Proceeds(old(Here()), Here(), old(writesLeft))
    {
      if !(SamePlace(status, spec) && Expected(status, spec) == status.inputHash.value) {
        var stopping := DeleteDownloaderJob();
        if !stopping {
          var _ := PatchStatus(status.(observedGeneration := generation, phase := Pending, inputHash := None,
                                       downloaded := False, readyCondition := false));
        }
        return true;
      }
      var place := status.recorded;
      if place.node in nodes && (place.nodeUid == "" || place.nodeUid == nodes[place.node]) {
        var placement := place.(nodeUid := nodes[place.node]);
        assert placement == status.recorded && placement.size == spec.size;
        Fetch(placement);
        return true;
      }
      handled := DeleteDownloaderJob();
    }

    /** Finds a place, records it first, and only then downloads there. */
    method Place(secretReady: bool, plan: Plan)
      requires Valid() && spec.Valid() && PlanFor(plan, spec, nodes) && !status.downloaded.True?
      modifies this`job, this`status, this`writesLeft, this`created
      ensures Valid()
      ensures created == old(created) || created == old(created) + 1
      ensures created != old(created) ==> plan.Placed? && old(status.recorded) == plan.placement
      ensures old(writesLeft) == 0 ==> status == old(status) && job == old(job) && created == old(created)
      ensures old(writesLeft) > 0 ==> Places(old(Here()), Here(), secretReady, plan, old(writesLeft))
    {
      if spec.secretRef != "" && !secretReady {
        var _ := PatchStatus(PendingStatus(status, generation, false));
        return;
      }
      match plan {
        case PlannerError => return;
        case Unplaceable =>
          var _ := PatchStatus(PendingStatus(status, generation, false));
        case Placed(placement) =>
          if status.recorded != placement {
            var _ := PatchStatus(PlacedStatus(generation, spec, placement));
            return;
          }
          Fetch(placement);
      }
    }

    /** A finished download: Ready if it still is what the spec asks for, waiting for its node, or failed
        because the spec asks for something else; never touched otherwise. */
    method ReconcileFinished() returns (handled: bool)
      requires Valid() && spec.Valid()
      modifies this`status, this`writesLeft
      ensures Valid() && handled == old(status.downloaded.True?)
      ensures !handled ==> status == old(status) && writesLeft == old(writesLeft)
      ensures handled ==> Kept(old(status), status)
      ensures handled && old(writesLeft) == 0 ==> status == old(status)
      ensures handled && old(writesLeft) > 0 ==>
        && status.observedGeneration == generation
        && status.phase == if Continues(status, spec, nodes) then Ready
                           else if SamePlace(status, spec) && !NodeKept(status, nodes) then Pending else Failed
    {
      handled := true;
      var ready, nodeLost := ReadyPlacementMatches();
      if ready {
        var _ := PatchStatus(ReadyStatus(status, generation, spec, nodes[status.recorded.node]));
      } else if nodeLost {
        var _ := PatchStatus(PendingStatus(status, generation, true));
      } else if status.downloaded.True? {
        var _ := PatchStatus(FailedStatus(status, generation, false));
      } else {
        handled := false;
      }
    }

    /** One reconcile. A finished download with a valid spec keeps its place and its Job; it is Ready
        exactly when it still is what the spec asks for, on the node that holds it. */
    method Reconcile(secretReady: bool, plan: Plan)
      requires Valid() && PlanFor(plan, spec, nodes)
      modifies this`job, this`status, this`writesLeft, this`created
      ensures Valid()
      ensures Reconciled(old(Here()), Here(), secretReady, plan, old(writesLeft))
    {
      if !spec.Valid() {
        var _ := PatchStatus(FailedStatus(status, generation, true));
        return;
      }
      var handled := ReconcileFinished();
      if handled {
        return;
      }
      if status.phase.Downloading? && status.inputHash.Some? {
        handled := ReconcileInFlight();
        if handled { return; }
      }
      Place(secretReady, plan);
    }

    /** One event: a reconcile that dies after some number of writes, or the world moving on. */
    method Step(e: Event)
      requires Valid() && Admissible(e, spec, nodes)
      modifies this
      ensures Valid()
      ensures Happens(old(Here()), Here(), e)
      ensures old(status.downloaded.True? && spec.Valid()) ==> Kept(old(status), status) && created == old(created)
    {
      match e {
        case ReconcileEvent(secretReady, plan, writes) =>
          writesLeft := writes;
          Reconcile(secretReady, plan);
        case EditEvent(next) =>
          spec, generation := next, generation + 1;
        case RetryEvent(token) =>
          retryToken := token;
        case JobEnds(outcome) =>
          if job.Some? && job.value.outcome.Running? {
            job := Some(job.value.(outcome := outcome));
            if outcome.Complete? {
              completed := completed + {job.value.identity};
            }
          }
        case JobGone =>
          job := None;
        case NodeAppears(name, uid) =>
          nodes := nodes[name := uid];
        case NodeGone(name) =>
          nodes := nodes - {name};
      }
    }

    /** Over every run a Ready cache is witnessed by a completed Job, and a finished download whose
        specs stay valid is never moved and never downloaded again. */
    method Run(events: seq<Event>) returns (stopped: bool, ghost worlds: seq<World>)
      requires Valid()
      modifies this
      ensures Valid()
      ensures Follows(worlds, events, stopped) && worlds[0] == old(Here()) && worlds[|worlds| - 1] == Here()
      ensures forall k | 0 <= k < |worlds| :: Witnessed(worlds[k])
      ensures old(status.downloaded.True? && spec.Valid()) && StaysValid(events) ==>
        forall k | 0 <= k < |worlds| ::
          Kept(worlds[0].status, worlds[k].status) && worlds[k].created == worlds[0].created
    {
      hide Happens;
      stopped, worlds := false, [Here()];
      for i := 0 to |events|
        invariant Valid()
        invariant |worlds| == i + 1 && worlds[0] == old(Here()) && worlds[i] == Here()
        invariant forall k | 0 <= k < i ::
          Admissible(events[k], worlds[k].spec, worlds[k].nodes) && Happens(worlds[k], worlds[k + 1], events[k])
        invariant forall k | 0 <= k <= i :: Witnessed(worlds[k])
        invariant old(status.downloaded.True? && spec.Valid()) && StaysValid(events) ==>
          spec.Valid() && forall k | 0 <= k <= i ::
            Kept(worlds[0].status, worlds[k].status) && worlds[k].created == worlds[0].created
      {
        if !Admissible(events[i], spec, nodes) {
          return true, worlds;
        }
        ghost var before := Here();
        Step(events[i]);
        SpecAfter(before, Here(), events[i]);
        worlds := worlds + [Here()];
      }
    }

    /** Undoing an identity edit brings the cache back to Ready while its node is still the same. */
    method EditAndRevert(other: Spec, detour: Plan, plan: Plan)
      requires Valid() && status.phase.Ready? && status.observedGeneration == generation
      requires spec.Valid() && other.Valid()
      requires NodeKept(status, nodes) && PlanFor(detour, other, nodes) && PlanFor(plan, spec, nodes)
      modifies this
      ensures Valid() && spec == old(spec)
      ensures status.phase.Ready? && Kept(old(status), status) && created == old(created)
    {
      var original := spec;
      spec, generation, writesLeft := other, generation + 1, 1;
      Reconcile(true, detour);
      spec, generation, writesLeft := original, generation + 1, 1;
      Reconcile(true, plan);
    }

    /** An invalid spec in between does not come back: the controller forgets the finished download,
        moves the cache when the planner prefers another place, and downloads again when it does not. */
    method InvalidDetour(other: Spec, plan: Plan)
      requires Valid() && status.phase.Ready? && spec.Valid() && spec.secretRef == "" && !other.Valid()
      requires job.None? && plan.Placed? && PlanFor(plan, spec, nodes)
      modifies this
      ensures Valid() && spec == old(spec) && !status.downloaded.True?
      ensures if old(status.recorded) != plan.placement then status.recorded == plan.placement
              else created == old(created) + 1
    {
      var original := spec;
      spec, generation, writesLeft := other, generation + 1, 1;
      Reconcile(true, PlannerError);
      spec, generation, writesLeft := original, generation + 1, 2;
      Reconcile(true, plan);
    }

    /** An identity edit in the middle of a download takes effect: the stale Job is stopped, and once it is
        gone the new identity is placed where the planner says and downloaded there. */
    method EditMidDownload(other: Spec, plan: Plan)
      requires Valid() && spec.Valid() && status.phase.Downloading? && status.inputHash.Some? && job.Some?
      requires other.Valid() && other.secretRef == "" && !Fitting(Here().(spec := other))
      requires plan.Placed? && PlanFor(plan, other, nodes)
      modifies this
      ensures Valid() && spec == other && status.recorded == plan.placement && status.phase.Downloading?
      ensures job.Some? && !job.value.deleting && job.value.outcome.Running?
      ensures job.value.identity == IdentityOf(other, plan.placement) && status.inputHash == Some(job.value.identity)
    {
      spec, generation := other, generation + 1;
      Forget(plan);
      Refetch(plan);
    }

    /** The download no longer fits: its Job is stopped, goes, and the hash is forgotten. */
    method Forget(plan: Plan)
      requires Valid() && spec.Valid() && status.phase.Downloading? && status.inputHash.Some? && job.Some?
      requires !Fitting(Here()) && PlanFor(plan, spec, nodes)
      modifies this
      ensures Valid() && Here() == old(Here()).(status := status, job := None)
      ensures status.phase.Pending? && status.inputHash.None? && !status.downloaded.True?
    {
      hide StatusOk, Fetches, Places;
      writesLeft := 2;
      ghost var before := Here();
      NotFinished(spec, generation, status, completed);
      Reconcile(true, plan);
      assert Drops(before, Here());
      job := None;
      before := Here();
      writesLeft := 2;
      Reconcile(true, plan);
      assert Drops(before, Here());
    }

    /** Placed and fetched by two reconciles, whether or not it was at that place before. */
    method Refetch(plan: Plan)
      requires Valid() && spec.Valid() && spec.secretRef == "" && job.None?
      requires status.phase.Pending? && status.inputHash.None? && !status.downloaded.True?
      requires plan.Placed? && PlanFor(plan, spec, nodes)
      modifies this
      ensures Valid() && spec == old(spec) && status.recorded == plan.placement && status.phase.Downloading?
      ensures job.Some? && !job.value.deleting && job.value.outcome.Running?
      ensures job.value.identity == IdentityOf(spec, plan.placement) && status.inputHash == Some(job.value.identity)
    {
      hide StatusOk;
      writesLeft := 2;
      ghost var before := Here();
      Reconcile(true, plan);
      assert Places(before, Here(), true, plan, 2);
      before := Here();
      writesLeft := 2;
      Reconcile(true, plan);
      assert Downloads(before, Here(), true, plan, 2);
    }
  }
}
