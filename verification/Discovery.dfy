/** The discovery loop that refreshes the registry, and how long a stale snapshot may serve. */
module Discovery {
  import opened Wrappers
  import opened Registry

  // Milliseconds.
  const MinimumSyncInterval := 1000
  const FirstRetryDelay := 250
  const StaleIntervalCount := 3

  function Min(a: int, b: int): int {
    if a <= b then a else b
  }

  /** How one attempt to read the API ends, and how long it took. */
  datatype Outcome =
    | ListFails(duration: int)
    | Snapshot(duration: int, backends: seq<Backend>)

  /** An instant at which an attempt ended: whether a Ready backend could still be selected just before. */
  datatype Moment = Moment(clock: int, lastSuccess: Option<int>, exposed: bool)

  ghost predicate Timely(trace: seq<Moment>, syncInterval: int) {
    forall m <- trace :: m.exposed ==> m.lastSuccess.Some? && m.clock < m.lastSuccess.value + 5 * syncInterval
  }

  ghost predicate Bounded(retries: seq<int>, syncInterval: int) {
    forall r <- retries :: Min(syncInterval, 250) <= r <= syncInterval
  }

  /** The routes hold exactly what a snapshot publishes. */
  ghost predicate Holds(routes: Routes, backends: seq<Backend>) {
    forall b: Backend :: b in Members(routes, b.prefix) <==> exists i :: FirstAt(backends, i, b)
  }

  /** Every Ready backend is withdrawn as stale, and nothing else has changed. */
  ghost predicate Closed(before: Routes, routes: Routes) {
    && NoneReady(routes) && routes.Keys == before.Keys
    && forall p <- routes ::
         WithdrawnFrom(before[p], routes[p], "model registry is stale because Kubernetes discovery is unavailable")
  }

  class Discovery {
    const syncInterval: int
    const registry: MemoryRegistry
    var clock: int
    var lastSuccess: Option<int>
    var retryDelay: int
    /** Every attempt so far. */
    ghost var trace: seq<Moment>
    /** Every retry delay so far. */
    ghost var retries: seq<int>

    /** Between attempts a snapshot that may still serve is younger than four intervals. */
    ghost predicate Valid()
      reads this, registry
    {
      && registry.Valid()
      && MinimumSyncInterval <= syncInterval
      && Min(syncInterval, FirstRetryDelay) <= retryDelay <= syncInterval
      && (NoneReady(registry.routes) || (lastSuccess.Some? && clock < lastSuccess.value + 4 * syncInterval))
      && Timely(trace, syncInterval) && Bounded(retries, syncInterval)
    }

    constructor (registry: MemoryRegistry, syncInterval: int, clock: int)
      requires registry.Valid() && NoneReady(registry.routes) && MinimumSyncInterval <= syncInterval
      ensures Valid() && this.registry == registry && trace == [] && retries == []
    {
      this.registry, this.syncInterval, this.clock := registry, syncInterval, clock;
      lastSuccess, retryDelay := None, Min(syncInterval, FirstRetryDelay);
      trace, retries := [], [];
    }

    predicate SnapshotStale()
      reads this
    {
      lastSuccess.Some? && clock - lastSuccess.value >= StaleIntervalCount * syncInterval
    }

    method Publish(backends: seq<Backend>)
      modifies registry
      ensures registry.Valid() && Holds(registry.routes, backends)
    {
      var _ := registry.Replace(backends);
    }

    method Withdraw()
      requires registry.Valid()
      modifies registry
      ensures registry.Valid() && Closed(old(registry.routes), registry.routes)
    {
      registry.MarkReadyUnavailable("model registry is stale because Kubernetes discovery is unavailable");
    }

    /** One turn of the loop: an attempt within its deadline, which is the interval but at most ten seconds,
        then the delay before the next one. */
    method Turn(outcome: Outcome)
      requires Valid() && 0 <= outcome.duration <= syncInterval && outcome.duration <= 10000
      modifies this, registry
      ensures Valid()
      ensures old(trace) <= trace && |trace| == |old(trace)| + 1 && old(retries) <= retries
      ensures var m := trace[|trace| - 1];
        && m.clock == old(clock) + outcome.duration && m.lastSuccess == old(lastSuccess)
        && m.exposed == !NoneReady(old(registry.routes))
      ensures outcome.ListFails? ==>
        && lastSuccess == old(lastSuccess)
        && |retries| == |old(retries)| + 1 && retries[|retries| - 1] == old(retryDelay)
        && retryDelay == (if old(retryDelay) * 2 <= syncInterval then old(retryDelay) * 2 else syncInterval)
        && clock == old(clock) + outcome.duration + retries[|retries| - 1]
        && (if old(lastSuccess).Some? && old(clock) + outcome.duration >= old(lastSuccess).value + 3 * syncInterval
            then Closed(old(registry.routes), registry.routes) else registry.routes == old(registry.routes))
      ensures outcome.Snapshot? ==>
        && lastSuccess == Some(old(clock) + outcome.duration) && clock == lastSuccess.value + syncInterval
        && retryDelay == (if syncInterval < 250 then syncInterval else 250)
        && Holds(registry.routes, outcome.backends)
    {
      hide RoutesOk, PrefixesOk, ScoresOk, NoneReady, Holds;
      clock := clock + outcome.duration;
      trace := trace + [Moment(clock, lastSuccess, !NoneReady(registry.routes))];
      var delay := syncInterval;
      match outcome {
        case Snapshot(_, backends) =>
          Publish(backends);
          lastSuccess := Some(clock);
          retryDelay := Min(syncInterval, FirstRetryDelay);
        case ListFails(_) =>
          delay := retryDelay;
          retries := retries + [delay];
          retryDelay := Min(retryDelay * 2, syncInterval);
          if SnapshotStale() {
            Withdraw();
          }
      }
      clock := clock + delay;
    }

    /** Whatever the API does, no snapshot serves for five intervals after it was read, and every
        retry waits between the first delay and the interval. */
    method Run(outcomes: seq<Outcome>)
      requires Valid()
      requires forall o <- outcomes :: 0 <= o.duration <= syncInterval && o.duration <= 10000
      modifies this, registry
      ensures Valid()
      ensures |trace| == |old(trace)| + |outcomes|
      ensures Timely(trace, syncInterval) && Bounded(retries, syncInterval)
    {
      for i := 0 to |outcomes|
        invariant Valid() && |trace| == |old(trace)| + i
      {
        Turn(outcomes[i]);
      }
    }

    /** After a success, failures alone withdraw every Ready backend before five intervals pass. */
    method FailClosed(failures: seq<Outcome>)
      requires Valid() && lastSuccess.Some? && clock <= lastSuccess.value + syncInterval
      requires forall o <- failures :: o.ListFails? && 0 <= o.duration <= syncInterval && o.duration <= 10000
      modifies this, registry
      ensures Valid() && lastSuccess == old(lastSuccess) && old(trace) <= trace
      ensures clock >= lastSuccess.value + 4 * syncInterval ==> NoneReady(registry.routes)
      ensures forall m <- trace[|old(trace)|..] :: m.exposed ==> m.clock < old(lastSuccess).value + 5 * syncInterval
    {
      for i := 0 to |failures|
        invariant Valid() && lastSuccess == old(lastSuccess) && old(trace) <= trace
        invariant forall m <- trace[|old(trace)|..] :: m.exposed ==> m.clock < old(lastSuccess).value + 5 * syncInterval
      {
        ghost var before := trace;
        Turn(failures[i]);
        assert trace[|old(trace)|..] == before[|old(trace)|..] + [trace[|trace| - 1]];
      }
    }
  }
}
