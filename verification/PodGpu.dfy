/** The effective GPU request of a pod, and the lifecycle whose peak it is. */
module PodGpu {

  /** An init container; a restartable one is a sidecar that keeps running. */
  datatype Init = Init(requests: map<string, nat>, restartable: bool)

  datatype Pod = Pod(containers: seq<map<string, nat>>, inits: seq<Init>)

  function Request(requests: map<string, nat>, name: string): nat {
    if name in requests then requests[name] else 0
  }

  function Max(a: nat, b: nat): nat {
    if a >= b then a else b
  }

  // ---------- the lifecycle ----------

  /** A moment of the pod's life: the requests of the containers running then. */
  type Moment = seq<map<string, nat>>

  function InUse(running: Moment, name: string): nat {
    if running == [] then 0
    else InUse(running[..|running| - 1], name) + Request(running[|running| - 1], name)
  }

  /** The sidecars started by the first init containers. */
  function Sidecars(inits: seq<Init>): Moment {
    if inits == [] then []
    else
      var last := inits[|inits| - 1];
      Sidecars(inits[..|inits| - 1]) + (if last.restartable then [last.requests] else [])
  }

  /** Init containers run one after the other beside all earlier sidecars; then everything else does. */
  function InitMoments(inits: seq<Init>): seq<Moment> {
    if inits == [] then []
    else
      var n := |inits| - 1;
      InitMoments(inits[..n]) + [Sidecars(inits[..n]) + [inits[n].requests]]
  }

  function Lifecycle(pod: Pod): seq<Moment> {
    InitMoments(pod.inits) + [Sidecars(pod.inits) + pod.containers]
  }

  function Peak(moments: seq<Moment>, name: string): nat {
    if moments == [] then 0
    else Max(Peak(moments[..|moments| - 1], name), InUse(moments[|moments| - 1], name))
  }

  /** The peak is reached at some moment and exceeded at none. */
  lemma {:induction false} PeakIsReached(moments: seq<Moment>, name: string)
    requires moments != []
    ensures exists i | 0 <= i < |moments| :: InUse(moments[i], name) == Peak(moments, name)
    ensures forall i | 0 <= i < |moments| :: InUse(moments[i], name) <= Peak(moments, name)
  {
    var n := |moments| - 1;
    if n == 0 {
      assert Peak(moments[..0], name) == 0;
      assert InUse(moments[0], name) == Peak(moments, name);
    } else {
      PeakIsReached(moments[..n], name);
      var i :| 0 <= i < n && InUse(moments[..n][i], name) == Peak(moments[..n], name);
      assert moments[..n][i] == moments[i];
      assert InUse(moments[i], name) == Peak(moments, name) || InUse(moments[n], name) == Peak(moments, name);
      forall j | 0 <= j < n ensures InUse(moments[j], name) <= Peak(moments, name) {
        assert moments[..n][j] == moments[j];
      }
    }
  }

  lemma {:induction false} InUseConcat(a: Moment, b: Moment, name: string)
    ensures InUse(a + b, name) == InUse(a, name) + InUse(b, name)
  {
    if b == [] {
      assert a + b == a;
    } else {
      InUseConcat(a, b[..|b| - 1], name);
      assert (a + b)[..|a + b| - 1] == a + b[..|b| - 1];
    }
  }

  /** A container alone uses what it requests, and nothing of a resource that it does not name. */
  lemma AloneInUse(requests: map<string, nat>, name: string)
    ensures InUse([requests], name) == if name in requests then requests[name] else 0
  {
    assert [requests][..0] == [];
  }

  lemma PeakSnoc(moments: seq<Moment>, m: Moment, name: string)
    ensures Peak(moments + [m], name) == Max(Peak(moments, name), InUse(m, name))
  {
    assert (moments + [m])[..|moments|] == moments;
  }

  /** What the regular containers request together. */
  method RegularRequests(containers: Moment, names: set<string>) returns (regular: map<string, nat>)
    ensures regular.Keys == names && forall name <- names :: regular[name] == InUse(containers, name)
  {
    regular := map name <- names :: 0;
    for i := 0 to |containers|
      invariant regular.Keys == names
      invariant forall name <- names :: regular[name] == InUse(containers[..i], name)
    {
      assert containers[..i + 1][..i] == containers[..i];
      regular := map name <- names :: regular[name] + Request(containers[i], name);
    }
    assert containers[..|containers|] == containers;
  }

  /** One pass over the containers finds, for every resource, the peak of the whole lifecycle. */
  method EffectiveRequests(pod: Pod, names: set<string>) returns (effective: map<string, nat>)
    ensures effective.Keys == names
    ensures forall name <- names :: effective[name] == Peak(Lifecycle(pod), name)
  {
    var regular := RegularRequests(pod.containers, names);
    hide InUse, Sidecars, Peak, InitMoments;
    var sidecars, peak := InitPeak(pod.inits, names);
    effective := map name <- names :: Max(regular[name] + sidecars[name], peak[name]);
    forall name <- names ensures effective[name] == Peak(Lifecycle(pod), name) {
      InUseConcat(Sidecars(pod.inits), pod.containers, name);
      PeakSnoc(InitMoments(pod.inits), Sidecars(pod.inits) + pod.containers, name);
    }
  }

  lemma NoInits(inits: seq<Init>)
    ensures Sidecars(inits[..0]) == [] && InitMoments(inits[..0]) == []
    ensures forall name :: InUse(Sidecars(inits[..0]), name) == 0 && Peak(InitMoments(inits[..0]), name) == 0
  {}

  /** What one more init container adds to the running sidecars and to the peak. */
  lemma NextInit(inits: seq<Init>, i: nat, name: string)
    requires i < |inits|
    ensures var before, request := InUse(Sidecars(inits[..i]), name), Request(inits[i].requests, name);
      && InUse(Sidecars(inits[..i + 1]), name) == before + (if inits[i].restartable then request else 0)
      && Peak(InitMoments(inits[..i + 1]), name) == Max(Peak(InitMoments(inits[..i]), name), before + request)
  {
    var earlier := Sidecars(inits[..i]);
    assert inits[..i + 1][..i] == inits[..i];
    assert (earlier + [inits[i].requests])[..|earlier|] == earlier;
    assert earlier + [] == earlier;
    PeakSnoc(InitMoments(inits[..i]), earlier + [inits[i].requests], name);
  }

  ghost predicate SidecarsAre(totals: map<string, nat>, inits: seq<Init>, names: set<string>) {
    totals.Keys == names && forall name <- names :: totals[name] == InUse(Sidecars(inits), name)
  }

  ghost predicate PeakIs(peak: map<string, nat>, inits: seq<Init>, names: set<string>) {
    peak.Keys == names && forall name <- names :: peak[name] == Peak(InitMoments(inits), name)
  }

  /** The sidecars' total and the peak of the init phase. */
  method InitPeak(inits: seq<Init>, names: set<string>) returns (sidecars: map<string, nat>, peak: map<string, nat>)
    ensures SidecarsAre(sidecars, inits, names) && PeakIs(peak, inits, names)
  {
    sidecars, peak := map name <- names :: 0, map name <- names :: 0;
    NoInits(inits);
    for i := 0 to |inits|
      invariant SidecarsAre(sidecars, inits[..i], names) && PeakIs(peak, inits[..i], names)
    {
      ghost var before, peakBefore := sidecars, peak;
      sidecars, peak := AddInit(inits[i], names, sidecars, peak);
      InitAdded(inits, i, names, before, peakBefore, sidecars, peak);
    }
    assert inits[..|inits|] == inits;
  }

  ghost predicate Added(init: Init, names: set<string>, sidecars: map<string, nat>, peak: map<string, nat>,
                        sidecars': map<string, nat>, peak': map<string, nat>)
    requires sidecars.Keys == names && peak.Keys == names
  {
    && sidecars'.Keys == names && peak'.Keys == names
    && (forall name <- names ::
          && sidecars'[name] == sidecars[name] + (if init.restartable then Request(init.requests, name) else 0)
          && peak'[name] == Max(peak[name], sidecars[name] + Request(init.requests, name)))
  }

  method AddInit(init: Init, names: set<string>, sidecars: map<string, nat>, peak: map<string, nat>)
    returns (sidecars': map<string, nat>, peak': map<string, nat>)
    requires sidecars.Keys == names && peak.Keys == names
    ensures Added(init, names, sidecars, peak, sidecars', peak')
  {
    if init.restartable {
      sidecars' := map name <- names :: sidecars[name] + Request(init.requests, name);
      peak' := map name <- names :: Max(peak[name], sidecars'[name]);
    } else {
      sidecars' := sidecars;
      peak' := map name <- names :: Max(peak[name], sidecars[name] + Request(init.requests, name));
    }
  }

  lemma InitAdded(inits: seq<Init>, i: nat, names: set<string>, sidecars: map<string, nat>, peak: map<string, nat>,
                  sidecars': map<string, nat>, peak': map<string, nat>)
    requires i < |inits| && SidecarsAre(sidecars, inits[..i], names) && PeakIs(peak, inits[..i], names)
    requires Added(inits[i], names, sidecars, peak, sidecars', peak')
    ensures SidecarsAre(sidecars', inits[..i + 1], names) && PeakIs(peak', inits[..i + 1], names)
  {
    hide InUse, Sidecars, Peak, InitMoments;
    forall name <- names
      ensures sidecars'[name] == InUse(Sidecars(inits[..i + 1]), name)
      ensures peak'[name] == Peak(InitMoments(inits[..i + 1]), name)
    {
      NextInit(inits, i, name);
    }
  }
}
