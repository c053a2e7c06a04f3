/** The gateway's model registry: which backend serves a request path. */
module Registry {
  import opened Wrappers
  import opened Sums
  import opened RoutePath
  import opened Sorting
  import RoundRobin
  import Text

  datatype State = Inactive | Activating | Ready | Unavailable | Draining

  datatype Endpoint = Endpoint(scheme: string, host: string)

  datatype Key = Key(namespace: string, name: string)

  const DefaultWeight := 100

  datatype Backend = Backend(
    key: Key, prefix: string, state: State, endpoint: Option<Endpoint>,
    weighted: bool, weight: Option<int>, message: string)
  {
    function Weight(): int {
      if weight.None? then DefaultWeight else weight.value
    }

    predicate Usable() {
      state.Ready? && Weight() > 0
    }

    function Withdrawn(reason: string): Backend {
      if state.Ready? then this.(state := Unavailable, endpoint := None, message := reason) else this
    }
  }

  function NormalizeBackend(b: Backend): (r: Option<Backend>) {
    if b.key.name == "" || '/' in b.key.name then None
    else
      var prefix := Normalize(if b.prefix == "" then ModelPrefix + b.key.name else b.prefix);
      if prefix.None? then None
      else if b.state.Ready? && (b.endpoint.None? || b.endpoint.value.host == ""
                                 || (b.endpoint.value.scheme != "http" && b.endpoint.value.scheme != "https")) then None
      else if b.weight.Some? && b.weight.value < 0 then None
      else Some(b.(prefix := prefix.value))
  }

  // ---------- the two orders ----------

  /** Longer prefixes first. */
  predicate PrefixBefore(p: string, q: string) {
    |p| > |q| || (|p| == |q| && Text.Less(p, q))
  }

  predicate KeyBefore(a: Backend, b: Backend) {
    if a.key.namespace == b.key.namespace then Text.Less(a.key.name, b.key.name)
    else Text.Less(a.key.namespace, b.key.namespace)
  }

  lemma PrefixOrder(p: string, q: string)
    ensures Transitive(PrefixBefore)
    ensures p != q ==> PrefixBefore(p, q) || PrefixBefore(q, p)
    ensures !PrefixBefore(p, p)
  {
    forall x, y, z | PrefixBefore(x, y) && PrefixBefore(y, z) ensures PrefixBefore(x, z) {
      if |x| == |z| { Text.LessTransitive(x, y, z); }
    }
    Text.LessTotal(p, q);
  }

  lemma KeyOrder(a: Backend, b: Backend)
    ensures Transitive(KeyBefore)
    ensures a.key != b.key <==> KeyBefore(a, b) || KeyBefore(b, a)
  {
    forall x, y, z | KeyBefore(x, y) && KeyBefore(y, z) ensures KeyBefore(x, z) {
      if Text.Less(x.key.namespace, y.key.namespace) && Text.Less(y.key.namespace, z.key.namespace) {
        Text.LessTransitive(x.key.namespace, y.key.namespace, z.key.namespace);
      }
      if Text.Less(x.key.name, y.key.name) && Text.Less(y.key.name, z.key.name) {
        Text.LessTransitive(x.key.name, y.key.name, z.key.name);
      }
      Text.LessTotal(x.key.namespace, y.key.namespace);
      Text.LessTotal(y.key.namespace, z.key.namespace);
    }
    Text.LessTotal(a.key.namespace, b.key.namespace);
    Text.LessTotal(a.key.name, b.key.name);
  }

  // ---------- what the registry keeps ----------

  type Routes = map<string, seq<Backend>>
  type Scores = map<string, map<Key, int>>

  ghost predicate Distinct(candidates: seq<Backend>) {
    forall i, j | 0 <= i < j < |candidates| :: candidates[i].key != candidates[j].key
  }

  ghost predicate CandidatesOk(prefix: string, candidates: seq<Backend>) {
    && candidates != [] && Sorted(KeyBefore, candidates)
    && (forall b <- candidates :: BackendOk(prefix, b))
  }

  predicate BackendOk(prefix: string, b: Backend) {
    b.prefix == prefix && b.Weight() >= 0 && (b.state.Ready? ==> b.endpoint.Some?)
  }

  ghost predicate RoutesOk(routes: Routes) {
    forall p <- routes :: Normalize(p) == Some(p) && CandidatesOk(p, routes[p])
  }

  ghost predicate PrefixesOk(prefixes: seq<string>, routes: Routes) {
    Sorted(PrefixBefore, prefixes) && forall p :: p in prefixes <==> p in routes
  }

  /** No score outlives its backend. */
  ghost predicate ScoresOk(rr: Scores, routes: Routes) {
    forall p <- rr :: p in routes && forall k <- rr[p] :: exists b <- routes[p] :: b.key == k
  }

  /** The backends registered under a prefix. */
  ghost function Members(routes: Routes, p: string): set<Backend> {
    if p in routes then set b <- routes[p] else {}
  }

  function ScoreAt(rr: Scores, p: string, k: Key): int {
    if p in rr && k in rr[p] then rr[p][k] else 0
  }

  ghost function ScoreSum(scores: map<Key, int>): int {
    Sum(scores.Keys, k => if k in scores then scores[k] else 0)
  }

  lemma ScoreSumUpdate(scores: map<Key, int>, k: Key, v: int)
    ensures ScoreSum(scores[k := v]) == ScoreSum(scores) - (if k in scores then scores[k] else 0) + v
  {
    var f: Key -> int := x => if x in scores then scores[x] else 0;
    var g: Key -> int := x => if x in scores[k := v] then scores[k := v][x] else 0;
    SumTake(scores[k := v].Keys, g, k);
    SumSame(scores.Keys - {k}, f, g);
    if k in scores {
      SumTake(scores.Keys, f, k);
    } else {
      assert scores.Keys - {k} == scores.Keys;
    }
    assert scores[k := v].Keys - {k} == scores.Keys - {k};
  }

  // ---------- choosing among the backends of one route ----------

  function Usables(candidates: seq<Backend>): seq<Backend> {
    if candidates == [] then []
    else
      var last := candidates[|candidates| - 1];
      Usables(candidates[..|candidates| - 1]) + (if last.Usable() then [last] else [])
  }

  /** The candidates of least load, in order. */
  function LeastLoaded(candidates: seq<Backend>, load: Backend -> int): seq<Backend> {
    if candidates == [] then []
    else
      var last, rest := candidates[|candidates| - 1], candidates[..|candidates| - 1];
      var least := LeastLoaded(rest, load);
      if least == [] || load(last) < load(least[0]) then [last]
      else if load(last) == load(least[0]) then least + [last]
      else least
  }

  lemma {:induction false} UsablesAre(candidates: seq<Backend>, b: Backend)
    ensures b in Usables(candidates) <==> b in candidates && b.Usable()
  {
    if candidates != [] {
      UsablesAre(candidates[..|candidates| - 1], b);
      assert candidates == candidates[..|candidates| - 1] + [candidates[|candidates| - 1]];
    }
  }

  lemma {:induction false} LeastLoadedAre(candidates: seq<Backend>, load: Backend -> int)
    ensures forall b ::
      b in LeastLoaded(candidates, load) <==> b in candidates && forall x <- candidates :: load(b) <= load(x)
    ensures candidates != [] ==> LeastLoaded(candidates, load) != []
  {
    if candidates != [] {
      var last, rest := candidates[|candidates| - 1], candidates[..|candidates| - 1];
      LeastLoadedAre(rest, load);
      assert candidates == rest + [last];
      var least := LeastLoaded(rest, load);
      if least != [] {
        assert least[0] in least;
        assert forall b <- least :: load(b) <= load(least[0]) && load(least[0]) <= load(b);
      }
    }
  }

  predicate AnyWeighted(candidates: seq<Backend>) {
    exists b <- candidates :: b.weighted
  }

  /** Among whom the round-robin decides. */
  function Rivals(candidates: seq<Backend>, load: Option<Backend -> int>): (r: seq<Backend>) {
    var ready := Usables(candidates);
    if |ready| <= 1 || AnyWeighted(ready) || load.None? then ready else LeastLoaded(ready, load.value)
  }

  function Weights(candidates: seq<Backend>): (r: seq<int>)
    ensures |r| == |candidates| && forall i | 0 <= i < |r| :: r[i] == candidates[i].Weight()
  {
    seq(|candidates|, i requires 0 <= i < |candidates| => candidates[i].Weight())
  }

  function ScoresOf(rr: Scores, p: string, candidates: seq<Backend>): (r: seq<int>)
    ensures |r| == |candidates| && forall i | 0 <= i < |r| :: r[i] == ScoreAt(rr, p, candidates[i].key)
  {
    seq(|candidates|, i requires 0 <= i < |candidates| => ScoreAt(rr, p, candidates[i].key))
  }

  lemma {:induction false} UsablesSorted(candidates: seq<Backend>)
    requires Sorted(KeyBefore, candidates)
    ensures Sorted(KeyBefore, Usables(candidates))
  {
    if candidates != [] {
      var last, rest := candidates[|candidates| - 1], candidates[..|candidates| - 1];
      UsablesSorted(rest);
      forall b <- Usables(rest) ensures KeyBefore(b, last) {
        UsablesAre(rest, b);
        assert b in rest;
      }
    }
  }

  lemma {:induction false} LeastLoadedSorted(candidates: seq<Backend>, load: Backend -> int)
    requires Sorted(KeyBefore, candidates)
    ensures Sorted(KeyBefore, LeastLoaded(candidates, load))
  {
    if candidates != [] {
      var last, rest := candidates[|candidates| - 1], candidates[..|candidates| - 1];
      LeastLoadedSorted(rest, load);
      LeastLoadedAre(rest, load);
      forall b <- LeastLoaded(rest, load) ensures KeyBefore(b, last) {
        assert b in rest;
      }
    }
  }

  function At(rr: Scores, p: string): map<Key, int> {
    if p in rr then rr[p] else map[]
  }

  function ScoreIn(scores: map<Key, int>, k: Key): int {
    if k in scores then scores[k] else 0
  }

  ghost function KeySet(candidates: seq<Backend>): set<Key> {
    set b <- candidates :: b.key
  }

  /** A further candidate brings a key none of the earlier ones has. */
  lemma KeySetGrows(candidates: seq<Backend>, i: nat)
    requires Distinct(candidates) && i < |candidates|
    ensures KeySet(candidates[..i + 1]) == KeySet(candidates[..i]) + {candidates[i].key}
    ensures candidates[i].key !in KeySet(candidates[..i])
    ensures forall j | 0 <= j < i :: candidates[j].key in KeySet(candidates[..i])
  {
    assert candidates[..i + 1] == candidates[..i] + [candidates[i]];
    forall j | 0 <= j < i ensures candidates[j].key in KeySet(candidates[..i]) {
      assert candidates[..i][j] in candidates[..i];
    }
  }

  lemma ChosenKey(candidates: seq<Backend>, k: nat)
    requires Distinct(candidates) && k < |candidates|
    ensures candidates[k].key in KeySet(candidates)
    ensures forall j | 0 <= j < |candidates| && j != k :: candidates[j].key != candidates[k].key
  {
    assert candidates[k] in candidates;
  }

  lemma NoneYet(candidates: seq<Backend>)
    ensures KeySet(candidates[..0]) == {} && RoundRobin.Total(Weights(candidates[..0])) == 0
  {}

  lemma {:induction false} WeightsGrow(candidates: seq<Backend>, i: nat)
    requires i < |candidates|
    ensures RoundRobin.Total(Weights(candidates[..i + 1]))
      == RoundRobin.Total(Weights(candidates[..i])) + candidates[i].Weight()
  {
    assert Weights(candidates[..i + 1]) == Weights(candidates[..i]) + [candidates[i].Weight()];
    RoundRobin.TotalSnoc(Weights(candidates[..i]), candidates[i].Weight());
  }

  lemma ScoreAtIn(rr: Scores, p: string, k: Key)
    ensures ScoreAt(rr, p, k) == ScoreIn(At(rr, p), k)
  {}

  lemma SortedIsDistinct(candidates: seq<Backend>)
    requires Sorted(KeyBefore, candidates)
    ensures Distinct(candidates)
  {
    forall i, j | 0 <= i < j < |candidates| ensures candidates[i].key != candidates[j].key {
      KeyOrder(candidates[i], candidates[j]);
    }
  }

  /** Ready, and with a positive weight, which is 100 unless one is given. */
  ghost predicate Servable(b: Backend) {
    b.state == Ready && (b.weight.Some? ==> b.weight.value > 0)
  }

  /** b may be chosen: it can serve, and unless some backend that can serve is weighted or no load is known, none
      of those has less load. */
  ghost predicate Rivalling(candidates: seq<Backend>, load: Option<Backend -> int>, b: Backend) {
    && b in candidates && Servable(b)
    && (load.Some? && (forall x <- candidates | Servable(x) :: !x.weighted) ==>
          forall x <- candidates | Servable(x) :: load.value(b) <= load.value(x))
  }

  /** The rivals are exactly those backends, by namespace and name. */
  lemma RivalsAre(candidates: seq<Backend>, load: Option<Backend -> int>)
    requires Sorted(KeyBefore, candidates)
    ensures var r := Rivals(candidates, load);
      Sorted(KeyBefore, r) && forall b :: b in r <==> Rivalling(candidates, load, b)
  {
    hide Usables, LeastLoaded, Sorted;
    var ready := Usables(candidates);
    UsablesSorted(candidates);
    forall b ensures b in ready <==> b in candidates && Servable(b) {
      UsablesAre(candidates, b);
    }
    if load.Some? {
      LeastLoadedSorted(ready, load.value);
      LeastLoadedAre(ready, load.value);
    }
    if |ready| == 1 {
      assert forall b <- ready :: b == ready[0];
    }
    assert AnyWeighted(ready) <==> exists x <- candidates :: Servable(x) && x.weighted;
  }

  lemma RivalsOk(candidates: seq<Backend>, load: Option<Backend -> int>)
    requires Sorted(KeyBefore, candidates)
    ensures var r := Rivals(candidates, load);
      Distinct(r) && (forall b <- r :: b in candidates && b.Usable()) && (r == [] <==> Usables(candidates) == [])
  {
    hide Usables, LeastLoaded;
    RivalsAre(candidates, load);
    SortedIsDistinct(Rivals(candidates, load));
    if load.Some? {
      LeastLoadedAre(Usables(candidates), load.value);
    }
    forall b <- Rivals(candidates, load) ensures b in candidates && b.Usable() {
      assert Rivalling(candidates, load, b);
    }
  }

  lemma RivalIsChosen(candidates: seq<Backend>, load: Option<Backend -> int>, b: Backend)
    requires Sorted(KeyBefore, candidates) && b in Rivals(candidates, load)
    ensures Chosen(candidates, load, b)
  {
    hide Rivals, Sorted;
    RivalsAre(candidates, load);
  }

  lemma NoRivalIsChosen(candidates: seq<Backend>, load: Option<Backend -> int>, b: Backend)
    requires Usables(candidates) == [] && !b.state.Ready? && Fallback(candidates, b)
    ensures Chosen(candidates, load, b)
  {
    hide Fallback;
    forall x <- candidates ensures !Servable(x) {
      UsablesAre(candidates, x);
    }
  }

  /** Of the rivals that stand equal, the turn goes to the first by namespace and then name. */
  lemma TieGoesToFirst(rr: Scores, rr': Scores, prefix: string, rivals: seq<Backend>, chosen: Backend, b: Backend)
    requires rivals != [] && Sorted(KeyBefore, rivals) && Turn(rr, rr', prefix, rivals, chosen) && b in rivals
    ensures ScoreAt(rr, prefix, b.key) + b.Weight() <= ScoreAt(rr, prefix, chosen.key) + chosen.Weight()
    ensures ScoreAt(rr, prefix, b.key) + b.Weight() == ScoreAt(rr, prefix, chosen.key) + chosen.Weight() ==>
      || b == chosen
      || Text.Less(chosen.key.namespace, b.key.namespace)
      || (chosen.key.namespace == b.key.namespace && Text.Less(chosen.key.name, b.key.name))
  {
    var weights, scores := Weights(rivals), ScoresOf(rr, prefix, rivals);
    var k := RoundRobin.Picked(weights, scores);
    var i :| 0 <= i < |rivals| && rivals[i] == b;
    assert RoundRobin.Raised(weights, scores)[i] <= RoundRobin.Raised(weights, scores)[k];
    if k < i {
      assert KeyBefore(rivals[k], rivals[i]);
    }
  }

  /** One round-robin decision: who is chosen, and every score of the route afterwards. */
  ghost predicate Turn(rr: Scores, rr': Scores, prefix: string, candidates: seq<Backend>, chosen: Backend)
    requires candidates != []
  {
    && chosen == candidates[RoundRobin.Picked(Weights(candidates), ScoresOf(rr, prefix, candidates))]
    && ScoresOf(rr', prefix, candidates) == RoundRobin.Next(Weights(candidates), ScoresOf(rr, prefix, candidates))
    && prefix in rr' && rr'[prefix].Keys == At(rr, prefix).Keys + KeySet(candidates)
    && (forall k | k !in KeySet(candidates) :: ScoreIn(rr'[prefix], k) == ScoreIn(At(rr, prefix), k))
    && rr' == rr[prefix := rr'[prefix]]
    && ScoreSum(rr'[prefix]) == ScoreSum(At(rr, prefix))
  }

  lemma Paid(rr: Scores, prefix: string, candidates: seq<Backend>, scores: map<Key, int>, best: nat)
    requires candidates != [] && Distinct(candidates)
    requires var raised := RoundRobin.Raised(Weights(candidates), ScoresOf(rr, prefix, candidates));
      best == RoundRobin.Best(raised) && forall j | 0 <= j < |candidates| ::
        ScoreIn(scores, candidates[j].key) == raised[j]
    requires scores.Keys == At(rr, prefix).Keys + KeySet(candidates)
    requires forall k | k !in KeySet(candidates) :: ScoreIn(scores, k) == ScoreIn(At(rr, prefix), k)
    requires ScoreSum(scores) == ScoreSum(At(rr, prefix)) + RoundRobin.Total(Weights(candidates))
    ensures var left := ScoreIn(scores, candidates[best].key) - RoundRobin.Total(Weights(candidates));
      Turn(rr, rr[prefix := scores[candidates[best].key := left]], prefix, candidates, candidates[best])
  {
    hide ScoreSum, RoundRobin.Total, KeySet, RoundRobin.Raised, RoundRobin.Best;
    var key := candidates[best].key;
    var left := ScoreIn(scores, key) - RoundRobin.Total(Weights(candidates));
    var raised := RoundRobin.Raised(Weights(candidates), ScoresOf(rr, prefix, candidates));
    ScoreSumUpdate(scores, key, left);
    ChosenKey(candidates, best);
    var rr' := rr[prefix := scores[key := left]];
    assert rr'[prefix] == scores[key := left];
    assert ScoresOf(rr', prefix, candidates) == raised[best := left];
  }

  /** A turn among backends of the route leaves no score without a backend. */
  lemma TurnKeepsScores(rr: Scores, rr': Scores, routes: Routes, prefix: string, rivals: seq<Backend>, chosen: Backend)
    requires ScoresOk(rr, routes) && prefix in routes && rivals != [] && forall b <- rivals :: b in routes[prefix]
    requires if |rivals| > 1 then Turn(rr, rr', prefix, rivals, chosen) else rr' == rr
    ensures ScoresOk(rr', routes)
  {
    if |rivals| > 1 {
      forall k <- rr'[prefix] ensures exists b <- routes[prefix] :: b.key == k {
        if k in KeySet(rivals) {
          var b :| b in rivals && b.key == k;
        }
      }
    }
  }

  /** What a caller may rely on about the backend a route answers with. */
  ghost predicate Chosen(candidates: seq<Backend>, load: Option<Backend -> int>, b: Backend) {
    && (b.state.Ready? <==> exists x <- candidates :: Servable(x))
    && (b.state.Ready? ==> Rivalling(candidates, load, b))
    && (!b.state.Ready? ==> Fallback(candidates, b))
  }

  ghost predicate WithdrawnAs(before: Backend, after: Backend, reason: string) {
    if before.state == Ready
    then after == Backend(before.key, before.prefix, Unavailable, None, before.weighted, before.weight, reason)
    else after == before
  }

  /** The first Ready backend, withdrawn, or else simply the first. */
  ghost predicate Fallback(candidates: seq<Backend>, b: Backend) {
    exists i | 0 <= i < |candidates| ::
      && WithdrawnAs(candidates[i], b, "model route has no positive traffic weight")
      && (forall j | 0 <= j < i :: candidates[j].state != Ready)
      && (candidates[i].state == Ready || (i == 0 && forall x <- candidates :: x.state != Ready))
  }

  /** p is the one longest registered prefix of the path, on a segment boundary. */
  ghost predicate Longest(routes: Routes, path: string, p: string) {
    && p in routes && Matches(path, p)
    && forall q <- routes | Matches(path, q) && q != p :: |q| < |p|
  }

  lemma LongestIsRegistered(routes: Routes, path: string, p: string)
    requires Longest(routes, path, p)
    ensures p in routes
  {}

  /** Prefix and upstream path make up the request path; "/" stands for an empty remainder. */
  predicate Rebuilds(path: string, prefix: string, upstream: string) {
    && "/" <= upstream
    && (path == prefix + upstream || (path == prefix && upstream == "/"))
  }

  function Upstream(path: string, prefix: string): (r: string)
    requires Matches(path, prefix)
    ensures Rebuilds(path, prefix, r)
  {
    assert prefix <= path by { MatchedPrefixes(path, prefix, prefix); }
    assert path == prefix + path[|prefix|..];
    if path == prefix then "/" else path[|prefix|..]
  }

  lemma FirstIsLongest(routes: Routes, prefixes: seq<string>, path: string, i: nat)
    requires PrefixesOk(prefixes, routes) && i < |prefixes| && Matches(path, prefixes[i])
    requires forall j | 0 <= j < i :: !Matches(path, prefixes[j])
    ensures Longest(routes, path, prefixes[i])
    ensures forall p <- routes | Longest(routes, path, p) :: p == prefixes[i]
  {
    assert prefixes[i] in prefixes;
    forall q <- routes | Matches(path, q) && q != prefixes[i] ensures |q| < |prefixes[i]| {
      assert q in prefixes;
      MatchedPrefixes(path, q, prefixes[i]);
    }
  }

  ghost function Without(backends: set<Backend>, k: Key): set<Backend> {
    set b <- backends | b.key != k
  }

  lemma NormalizedIsOk(backend: Backend)
    requires NormalizeBackend(backend).Some?
    ensures var b := NormalizeBackend(backend).value;
      b.key == backend.key && BackendOk(b.prefix, b) && Normalize(b.prefix) == Some(b.prefix)
  {
    NormalFormsAreFixed(if backend.prefix == "" then ModelPrefix + backend.key.name else backend.prefix);
  }

  /** A backend is valid exactly when its name is one path segment, its prefix or else "/models/" and its name is
      acceptable, its weight is not negative, and, if it is Ready, it has an http or https endpoint with a host;
      nothing but the prefix changes. */
  lemma NormalizeBackendExactlyWhen(backend: Backend, b: Backend)
    ensures NormalizeBackend(backend) == Some(b) <==>
      && backend.key.name != "" && '/' !in backend.key.name
      && Normalize(if backend.prefix != "" then backend.prefix else "/models/" + backend.key.name) == Some(b.prefix)
      && (backend.state == Ready ==>
            && backend.endpoint.Some? && backend.endpoint.value.host != ""
            && backend.endpoint.value.scheme in ["http", "https"])
      && (backend.weight.Some? ==> backend.weight.value >= 0)
      && b.key == backend.key && b.state == backend.state && b.endpoint == backend.endpoint
      && b.weighted == backend.weighted && b.weight == backend.weight && b.message == backend.message
  {
    hide Normalize;
  }

  /** Sorting distinct candidates by identity makes them a route. */
  lemma SortedCandidates(p: string, candidates: seq<Backend>)
    requires candidates != [] && Distinct(candidates) && forall b <- candidates :: BackendOk(p, b)
    ensures CandidatesOk(p, Sort(KeyBefore, candidates))
    ensures SameMembers(Sort(KeyBefore, candidates), candidates)
  {
    SortMembers(KeyBefore, candidates);
    KeyOrder(candidates[0], candidates[0]);
    forall i, j | 0 <= i < j < |candidates|
      ensures KeyBefore(candidates[i], candidates[j]) || KeyBefore(candidates[j], candidates[i])
    {
      KeyOrder(candidates[i], candidates[j]);
    }
    SortSorted(KeyBefore, candidates);
  }

  function Candidates(routes: Routes, p: string): seq<Backend> {
    if p in routes then routes[p] else []
  }

  lemma RouteIsDistinct(routes: Routes, p: string)
    requires RoutesOk(routes)
    ensures Distinct(Candidates(routes, p))
  {
    if p in routes {
      assert CandidatesOk(p, routes[p]);
      SortedIsDistinct(routes[p]);
    }
  }

  lemma PutIsOk(routes: Routes, rr: Scores, b: Backend, candidates: seq<Backend>)
    requires RoutesOk(routes) && ScoresOk(rr, routes) && BackendOk(b.prefix, b) && Normalize(b.prefix) == Some(b.prefix)
    requires Distinct(candidates)
    requires forall x :: x in candidates <==> x == b || (x in Candidates(routes, b.prefix) && x.key != b.key)
    ensures var routes' := routes[b.prefix := Sort(KeyBefore, candidates)];
      && RoutesOk(routes') && ScoresOk(rr, routes')
      && Members(routes', b.prefix) == Without(Members(routes, b.prefix), b.key) + {b}
  {
    hide Normalize;
    assert b in candidates;
    forall x <- candidates ensures BackendOk(b.prefix, x) {
      if x != b { assert CandidatesOk(b.prefix, routes[b.prefix]); }
    }
    SortedCandidates(b.prefix, candidates);
    hide Sort, CandidatesOk, BackendOk, Distinct;
    PutKeepsScores(routes, rr, b, candidates, Sort(KeyBefore, candidates));
  }

  lemma PutKeepsScores(routes: Routes, rr: Scores, b: Backend, candidates: seq<Backend>, sorted: seq<Backend>)
    requires ScoresOk(rr, routes) && SameMembers(sorted, candidates)
    requires forall x :: x in candidates <==> x == b || (x in Candidates(routes, b.prefix) && x.key != b.key)
    ensures ScoresOk(rr, routes[b.prefix := sorted])
  {
    assert b in candidates && b in sorted;
    if b.prefix in rr {
      forall k <- rr[b.prefix] ensures exists x: Backend <- sorted :: x.key == k {
        var x :| x in routes[b.prefix] && x.key == k;
        assert x.key == b.key || (x in candidates && x in sorted);
      }
    }
  }

  // ---------- a discovery snapshot ----------

  predicate HasKey(candidates: seq<Backend>, k: Key) {
    exists b <- candidates :: b.key == k
  }

  /** Whether the snapshot's next backend is published: valid, and the first of its identity on its route. */
  predicate Accepted(grouped: Routes, backend: Backend) {
    var b := NormalizeBackend(backend);
    b.Some? && !HasKey(Candidates(grouped, b.value.prefix), b.value.key)
  }

  function Group(backends: seq<Backend>): Routes {
    if backends == [] then map[]
    else
      var last, grouped := backends[|backends| - 1], Group(backends[..|backends| - 1]);
      if Accepted(grouped, last) then
        var b := NormalizeBackend(last).value;
        grouped[b.prefix := Candidates(grouped, b.prefix) + [b]]
      else grouped
  }

  ghost predicate Claims(backend: Backend, p: string, k: Key) {
    var b := NormalizeBackend(backend);
    b.Some? && b.value.prefix == p && b.value.key == k
  }

  /** Entry i of the snapshot is the first valid one for its route and identity, and reads b. */
  ghost predicate FirstAt(backends: seq<Backend>, i: int, b: Backend) {
    && 0 <= i < |backends| && NormalizeBackend(backends[i]) == Some(b)
    && forall j | 0 <= j < i :: !Claims(backends[j], b.prefix, b.key)
  }

  ghost predicate Grouped(grouped: Routes) {
    forall p <- grouped ::
      && grouped[p] != [] && Distinct(grouped[p]) && Normalize(p) == Some(p)
      && forall b <- grouped[p] :: BackendOk(p, b)
  }

  lemma {:induction false} GroupIs(backends: seq<Backend>)
    ensures Grouped(Group(backends))
  {
    hide Normalize, NormalizeBackend;
    if backends != [] {
      var last, rest := backends[|backends| - 1], backends[..|backends| - 1];
      GroupIs(rest);
      assert backends == rest + [last];
      if NormalizeBackend(last).Some? {
        NormalizedIsOk(last);
      }
    }
  }

  lemma {:induction false} GroupedKeys(backends: seq<Backend>, p: string, k: Key)
    ensures HasKey(Candidates(Group(backends), p), k) <==> exists i | 0 <= i < |backends| :: Claims(backends[i], p, k)
  {
    hide Normalize, NormalizeBackend;
    if backends != [] {
      var last, rest := backends[|backends| - 1], backends[..|backends| - 1];
      GroupedKeys(rest, p, k);
      forall i | 0 <= i < |rest| ensures Claims(backends[i], p, k) <==> Claims(rest[i], p, k) {}
      if Claims(last, p, k) {
        var b := NormalizeBackend(last).value;
        assert Accepted(Group(rest), last) ==> b in Candidates(Group(backends), p);
      } else {
        forall b | b in Candidates(Group(backends), p) && b.key == k ensures b in Candidates(Group(rest), p) {}
        forall b | b in Candidates(Group(rest), p) ensures b in Candidates(Group(backends), p) {}
      }
    }
  }

  /** The snapshot publishes exactly the first valid entry of each identity on each route. */
  lemma {:induction false} GroupedAre(backends: seq<Backend>, b: Backend)
    ensures b in Candidates(Group(backends), b.prefix) <==> exists i :: FirstAt(backends, i, b)
  {
    hide Normalize, NormalizeBackend;
    if backends != [] {
      var n, last, rest := |backends| - 1, backends[|backends| - 1], backends[..|backends| - 1];
      GroupedAre(rest, b);
      GroupedKeys(rest, b.prefix, b.key);
      forall i | 0 <= i < n ensures FirstAt(backends, i, b) <==> FirstAt(rest, i, b) {}
      assert FirstAt(backends, n, b) <==>
        NormalizeBackend(last) == Some(b) && !HasKey(Candidates(Group(rest), b.prefix), b.key);
    }
  }

  lemma AcceptedIsFirst(backends: seq<Backend>, i: nat)
    requires i < |backends|
    ensures Accepted(Group(backends[..i]), backends[i]) <==>
      NormalizeBackend(backends[i]).Some? && FirstAt(backends, i, NormalizeBackend(backends[i]).value)
  {
    hide Normalize, NormalizeBackend, Group;
    var n := NormalizeBackend(backends[i]);
    if n.Some? {
      GroupedKeys(backends[..i], n.value.prefix, n.value.key);
      assert Accepted(Group(backends[..i]), backends[i]) <==> FirstAt(backends, i, n.value);
    }
  }

  function SortedRoutes(grouped: Routes): Routes {
    map p <- grouped :: Sort(KeyBefore, grouped[p])
  }

  lemma PublishedIsOk(grouped: Routes)
    requires Grouped(grouped)
    ensures RoutesOk(SortedRoutes(grouped))
    ensures forall p :: SameMembers(Candidates(SortedRoutes(grouped), p), Candidates(grouped, p))
  {
    hide Normalize;
    forall p <- grouped
      ensures CandidatesOk(p, Sort(KeyBefore, grouped[p])) && SameMembers(Sort(KeyBefore, grouped[p]), grouped[p])
    {
      SortedCandidates(p, grouped[p]);
    }
    forall p ensures SameMembers(Candidates(SortedRoutes(grouped), p), Candidates(grouped, p)) {}
  }

  /** What a snapshot publishes, read off the routes. */
  lemma PublishedAre(backends: seq<Backend>)
    ensures forall b: Backend ::
      b in Members(SortedRoutes(Group(backends)), b.prefix) <==> exists i :: FirstAt(backends, i, b)
  {
    hide Normalize, NormalizeBackend, FirstAt, SortedRoutes;
    GroupIs(backends);
    PublishedIsOk(Group(backends));
    var routes := SortedRoutes(Group(backends));
    forall b: Backend ensures b in Members(routes, b.prefix) <==> exists i :: FirstAt(backends, i, b) {
      GroupedAre(backends, b);
      assert SameMembers(Candidates(routes, b.prefix), Candidates(Group(backends), b.prefix));
    }
  }

  function Pruned(rr: Scores, routes: Routes): Scores {
    map p <- rr | p in routes :: map k <- rr[p] | HasKey(routes[p], k) :: rr[p][k]
  }

  lemma PrunedScores(rr: Scores, routes: Routes)
    ensures ScoresOk(Pruned(rr, routes), routes)
    ensures forall p, k ::
      ScoreAt(Pruned(rr, routes), p, k) == if HasKey(Candidates(routes, p), k) then ScoreAt(rr, p, k) else 0
  {}

  lemma GroupNothing(backends: seq<Backend>)
    ensures Group(backends[..0]) == map[]
  {}

  lemma GroupNext(backends: seq<Backend>, i: nat)
    requires i < |backends|
    ensures var grouped := Group(backends[..i]);
      Group(backends[..i + 1]) ==
        if Accepted(grouped, backends[i]) then
          var b := NormalizeBackend(backends[i]).value;
          grouped[b.prefix := Candidates(grouped, b.prefix) + [b]]
        else grouped
  {
    assert backends[..i + 1][..i] == backends[..i];
  }

  /** Dropping one route and its scores, or nothing: no route has the empty prefix. */
  lemma DeletionIsOk(routes: Routes, rr: Scores, routePrefix: string)
    requires RoutesOk(routes) && ScoresOk(rr, routes)
    ensures var p := if Normalize(routePrefix).Some? then Normalize(routePrefix).value else "";
      && RoutesOk(routes - {p}) && ScoresOk(rr - {p}, routes - {p})
      && (Normalize(routePrefix).None? ==> routes - {p} == routes && rr - {p} == rr)
  {
    assert Normalize("").None?;
  }

  // ---------- failing closed ----------

  ghost predicate WithdrawnFrom(before: seq<Backend>, after: seq<Backend>, reason: string) {
    |after| == |before| && forall j | 0 <= j < |after| :: WithdrawnAs(before[j], after[j], reason)
  }

  /** The first i prefixes are withdrawn, the others are as before. */
  ghost predicate WithdrawnTo(before: Routes, routes: Routes, prefixes: seq<string>, i: nat, reason: string)
    requires PrefixesOk(prefixes, before)
  {
    && i <= |prefixes| && routes.Keys == before.Keys
    && (forall j | 0 <= j < |prefixes| ::
          if j < i then WithdrawnFrom(before[prefixes[j]], routes[prefixes[j]], reason)
          else routes[prefixes[j]] == before[prefixes[j]])
  }

  lemma WithdrawnNone(routes: Routes, prefixes: seq<string>, reason: string)
    requires PrefixesOk(prefixes, routes)
    ensures WithdrawnTo(routes, routes, prefixes, 0, reason)
  {}

  lemma WithdrawnHas(before: Routes, routes: Routes, prefixes: seq<string>, i: nat, reason: string)
    requires PrefixesOk(prefixes, before) && i < |prefixes| && WithdrawnTo(before, routes, prefixes, i, reason)
    ensures prefixes[i] in routes && prefixes[i] in before && routes[prefixes[i]] == before[prefixes[i]]
  {
    assert prefixes[i] in prefixes;
  }

  lemma WithdrawnNext(before: Routes, routes: Routes, prefixes: seq<string>, i: nat, after: seq<Backend>,
                      reason: string)
    requires PrefixesOk(prefixes, before) && i < |prefixes| && WithdrawnTo(before, routes, prefixes, i, reason)
    requires prefixes[i] in before && WithdrawnFrom(before[prefixes[i]], after, reason)
    ensures WithdrawnTo(before, routes[prefixes[i] := after], prefixes, i + 1, reason)
  {
    hide WithdrawnFrom;
    var routes' := routes[prefixes[i] := after];
    forall j | 0 <= j < |prefixes| && j != i ensures prefixes[j] != prefixes[i] {
      PrefixOrder(prefixes[i], prefixes[j]);
    }
    forall j | 0 <= j < |prefixes| ensures prefixes[j] in routes' {
      assert prefixes[j] in prefixes;
    }
  }

  lemma WithdrawnAll(before: Routes, routes: Routes, prefixes: seq<string>, reason: string)
    requires PrefixesOk(prefixes, before) && WithdrawnTo(before, routes, prefixes, |prefixes|, reason)
    ensures PrefixesOk(prefixes, routes) && routes.Keys == before.Keys
    ensures forall p <- routes :: WithdrawnFrom(before[p], routes[p], reason)
  {
    hide WithdrawnFrom;
    forall p <- routes ensures WithdrawnFrom(before[p], routes[p], reason) {
      assert p in prefixes;
      var j :| 0 <= j < |prefixes| && prefixes[j] == p;
    }
  }

  ghost predicate NoneReady(routes: Routes) {
    forall p <- routes, b <- routes[p] :: !b.state.Ready?
  }

  lemma WithdrawnIsOk(before: Routes, routes: Routes, rr: Scores, reason: string)
    requires RoutesOk(before) && ScoresOk(rr, before) && routes.Keys == before.Keys
    requires forall p <- routes :: WithdrawnFrom(before[p], routes[p], reason)
    ensures RoutesOk(routes) && ScoresOk(rr, routes) && NoneReady(routes)
  {
    hide Normalize;
    forall p <- routes ensures CandidatesOk(p, routes[p]) {
      assert CandidatesOk(p, before[p]) && WithdrawnFrom(before[p], routes[p], reason);
      forall i, j | 0 <= i < j < |routes[p]| ensures KeyBefore(routes[p][i], routes[p][j]) {
        assert KeyBefore(before[p][i], before[p][j]);
      }
      forall b <- routes[p] ensures BackendOk(p, b) {
        var j :| 0 <= j < |routes[p]| && routes[p][j] == b;
        assert before[p][j] in before[p];
      }
    }
    forall p <- rr, k <- rr[p] ensures exists b: Backend <- routes[p] :: b.key == k {
      var j :| 0 <= j < |before[p]| && before[p][j].key == k;
      assert WithdrawnFrom(before[p], routes[p], reason) && routes[p][j].key == k;
    }
  }

  ghost predicate Follows(chosen: seq<Backend>, rivals: seq<Backend>, picks: seq<nat>) {
    |chosen| == |picks| && forall j | 0 <= j < |picks| :: picks[j] < |rivals| && chosen[j] == rivals[picks[j]]
  }

  /** How often a backend was chosen. */
  function Times(chosen: seq<Backend>, b: Backend): nat {
    if chosen == [] then 0
    else Times(chosen[..|chosen| - 1], b) + (if chosen[|chosen| - 1] == b then 1 else 0)
  }

  /** The W selections from t on, W being the total weight, chose each rival exactly its weight. */
  ghost predicate FairWindow(chosen: seq<Backend>, rivals: seq<Backend>, t: nat) {
    var w := RoundRobin.Total(Weights(rivals));
    0 <= w && t + w <= |chosen| ==>
      forall i | 0 <= i < |rivals| :: Times(chosen[t..t + w], rivals[i])
        == if rivals[i].weight.Some? then rivals[i].weight.value else 100
  }

  lemma {:induction false} TimesIsCount(chosen: seq<Backend>, rivals: seq<Backend>, picks: seq<nat>, i: nat)
    requires Follows(chosen, rivals, picks) && Distinct(rivals) && i < |rivals|
    ensures Times(chosen, rivals[i]) == RoundRobin.Count(picks, i)
  {
    if chosen != [] {
      TimesIsCount(chosen[..|chosen| - 1], rivals, picks[..|picks| - 1], i);
    }
  }

  /** A run of selections that follows the round-robin is fair in every window. */
  lemma {:induction false} FollowedIsFair(chosen: seq<Backend>, rivals: seq<Backend>, t: nat)
    requires Distinct(rivals) && RoundRobin.Positive(Weights(rivals)) && rivals != []
    requires Follows(chosen, rivals, RoundRobin.Picks(Weights(rivals), RoundRobin.Zeros(|rivals|), |chosen|))
    ensures FairWindow(chosen, rivals, t)
  {
    hide RoundRobin.Total, RoundRobin.Picks, RoundRobin.Count, RoundRobin.Positive, Distinct, Times;
    var weights, zeros := Weights(rivals), RoundRobin.Zeros(|rivals|);
    var w := RoundRobin.Total(weights);
    if 0 <= w && t + w <= |chosen| {
      var picks := RoundRobin.Picks(weights, zeros, |chosen|);
      assert Follows(chosen[t..t + w], rivals, picks[t..t + w]);
      forall i | 0 <= i < |rivals| ensures Times(chosen[t..t + w], rivals[i]) == rivals[i].Weight() {
        RoundRobin.WindowInRunIsFair(weights, |chosen|, t, i);
        TimesIsCount(chosen[t..t + w], rivals, picks[t..t + w], i);
      }
    }
  }

  lemma ReadyAreRivals(candidates: seq<Backend>)
    requires Sorted(KeyBefore, candidates)
    ensures Distinct(Usables(candidates)) && RoundRobin.Positive(Weights(Usables(candidates)))
  {
    UsablesSorted(candidates);
    SortedIsDistinct(Usables(candidates));
    forall i | 0 <= i < |Usables(candidates)| ensures Weights(Usables(candidates))[i] > 0 {
      UsablesAre(candidates, Usables(candidates)[i]);
    }
  }

  lemma {:induction false} SelectionsAreFair(routes: Routes, prefix: string, chosen: seq<Backend>)
    requires RoutesOk(routes) && prefix in routes && Usables(routes[prefix]) != []
    requires var ready := Usables(routes[prefix]);
      Follows(chosen, ready, RoundRobin.Picks(Weights(ready), RoundRobin.Zeros(|ready|), |chosen|))
    ensures forall t | 0 <= t <= |chosen| :: FairWindow(chosen, Usables(routes[prefix]), t)
  {
    hide FairWindow, RoundRobin.Picks, Usables, Normalize, Follows, Distinct, RoundRobin.Positive;
    var ready := Usables(routes[prefix]);
    assert CandidatesOk(prefix, routes[prefix]);
    ReadyAreRivals(routes[prefix]);
    forall t | 0 <= t <= |chosen| ensures FairWindow(chosen, ready, t) {
      FollowedIsFair(chosen, ready, t);
    }
  }

  /** What may reach the registry between two snapshots. */
  datatype Request =
    | Get(path: string, load: Option<Backend -> int>)
    | Drop(prefix: string)
    | Withdraw(reason: string)

  datatype Match = Match(backend: Backend, upstream: string)

  class MemoryRegistry {
    var routes: Routes
    var prefixes: seq<string>
    var rr: Scores

    ghost predicate Valid()
      reads this
    {
      RoutesOk(routes) && PrefixesOk(prefixes, routes) && ScoresOk(rr, routes)
    }

    constructor ()
      ensures Valid() && routes == map[]
    {
      routes, prefixes, rr := map[], [], map[];
    }

    /** Adds every rival's weight to its score. */
    method RaiseScores(before: map<Key, int>, candidates: seq<Backend>) returns (scores: map<Key, int>, total: int)
      requires Distinct(candidates)
      ensures total == RoundRobin.Total(Weights(candidates))
      ensures scores.Keys == before.Keys + KeySet(candidates)
      ensures forall b <- candidates :: ScoreIn(scores, b.key) == ScoreIn(before, b.key) + b.Weight()
      ensures forall k | k !in KeySet(candidates) :: ScoreIn(scores, k) == ScoreIn(before, k)
      ensures ScoreSum(scores) == ScoreSum(before) + total
    {
      hide ScoreSum, KeySet, RoundRobin.Total, Weights;
      scores, total := before, 0;
      NoneYet(candidates);
      for i := 0 to |candidates|
        invariant total == RoundRobin.Total(Weights(candidates[..i]))
        invariant scores.Keys == before.Keys + KeySet(candidates[..i])
        invariant forall j | 0 <= j < i ::
          ScoreIn(scores, candidates[j].key) == ScoreIn(before, candidates[j].key) + candidates[j].Weight()
        invariant forall k | k !in KeySet(candidates[..i]) :: ScoreIn(scores, k) == ScoreIn(before, k)
        invariant ScoreSum(scores) == ScoreSum(before) + total
      {
        var b := candidates[i];
        KeySetGrows(candidates, i);
        WeightsGrow(candidates, i);
        ScoreSumUpdate(scores, b.key, ScoreIn(scores, b.key) + b.Weight());
        total := total + b.Weight();
        scores := scores[b.key := ScoreIn(scores, b.key) + b.Weight()];
      }
      assert candidates[..|candidates|] == candidates;
    }

    /** The first candidate of highest score. */
    method Highest(scores: map<Key, int>, candidates: seq<Backend>, ghost raised: seq<int>) returns (best: nat)
      requires candidates != [] && |raised| == |candidates|
      requires forall j | 0 <= j < |candidates| :: ScoreIn(scores, candidates[j].key) == raised[j]
      ensures best == RoundRobin.Best(raised) && best < |candidates|
    {
      best := 0;
      var bestScore := ScoreIn(scores, candidates[0].key);
      for i := 1 to |candidates|
        invariant 0 <= best < i && best == RoundRobin.Best(raised[..i]) && bestScore == raised[best]
      {
        var score := ScoreIn(scores, candidates[i].key);
        assert raised[..i + 1][..i] == raised[..i];
        if score > bestScore {
          best, bestScore := i, score;
        }
      }
      assert raised[..|candidates|] == raised;
    }

    /** Smooth weighted round-robin: the first rival of highest raised score pays the total. */
    method WeightedBackend(prefix: string, candidates: seq<Backend>) returns (chosen: Backend)
      requires candidates != [] && Distinct(candidates)
      modifies this`rr
      ensures chosen in candidates
      ensures |candidates| == 1 ==> rr == old(rr)
      ensures |candidates| > 1 ==> Turn(old(rr), rr, prefix, candidates, chosen)
    {
      hide ScoreSum, RoundRobin.Total, RoundRobin.Best, KeySet, Turn, ScoreIn;
      if |candidates| == 1 {
        return candidates[0];
      }
      var scores, total := RaiseScores(At(rr, prefix), candidates);
      ghost var raised := RoundRobin.Raised(Weights(candidates), ScoresOf(rr, prefix, candidates));
      forall j | 0 <= j < |candidates| ensures ScoreIn(scores, candidates[j].key) == raised[j] {
        assert candidates[j] in candidates;
        ScoreAtIn(rr, prefix, candidates[j].key);
      }
      var best := Highest(scores, candidates, raised);
      chosen := candidates[best];
      var left := ScoreIn(scores, chosen.key) - total;
      Paid(rr, prefix, candidates, scores, best);
      rr := rr[prefix := scores[chosen.key := left]];
    }

    method ReadyBackends(candidates: seq<Backend>) returns (ready: seq<Backend>)
      ensures ready == Usables(candidates)
    {
      ready := [];
      for i := 0 to |candidates|
        invariant ready == Usables(candidates[..i])
      {
        assert candidates[..i + 1][..i] == candidates[..i];
        if candidates[i].Usable() {
          ready := ready + [candidates[i]];
        }
      }
      assert candidates[..|candidates|] == candidates;
    }

    method LeastLoadedBackends(ready: seq<Backend>, load: Backend -> int) returns (least: seq<Backend>)
      ensures least == LeastLoaded(ready, load)
    {
      least := [];
      var minLoad := 0;
      for i := 0 to |ready|
        invariant least == LeastLoaded(ready[..i], load)
        invariant i > 0 ==> least != [] && load(least[0]) == minLoad
      {
        assert ready[..i + 1][..i] == ready[..i];
        var current := load(ready[i]);
        if i == 0 || current < minLoad {
          minLoad := current;
          least := [];
        }
        if current == minLoad {
          least := least + [ready[i]];
        }
      }
      assert ready[..|ready|] == ready;
    }

    /** A route without a usable backend answers with a backend that is not Ready. */
    method NoPositiveWeightBackend(candidates: seq<Backend>) returns (b: Backend)
      requires candidates != []
      ensures !b.state.Ready? && Fallback(candidates, b)
    {
      for i := 0 to |candidates|
        invariant forall j | 0 <= j < i :: !candidates[j].state.Ready?
      {
        if candidates[i].state.Ready? {
          b := candidates[i].Withdrawn("model route has no positive traffic weight");
          assert WithdrawnAs(candidates[i], b, "model route has no positive traffic weight");
          return;
        }
      }
      b := candidates[0];
      assert WithdrawnAs(candidates[0], b, "model route has no positive traffic weight");
    }

    /** Ready exactly when the route has a usable backend; of least load unless weights decide alone. */
    method SelectBackend(prefix: string, load: Option<Backend -> int>) returns (b: Backend)
      requires Valid() && prefix in routes
      modifies this`rr
      ensures Valid()
      ensures Chosen(routes[prefix], load, b)
      ensures var rivals := Rivals(routes[prefix], load);
        if |rivals| > 1 then Turn(old(rr), rr, prefix, rivals, b) else rr == old(rr)
    {
      hide Turn, Chosen, Usables, LeastLoaded;
      var candidates := routes[prefix];
      RivalsOk(candidates, load);
      var ready := ReadyBackends(candidates);
      if ready == [] {
        b := NoPositiveWeightBackend(candidates);
        NoRivalIsChosen(candidates, load, b);
        return;
      }
      if |ready| == 1 {
        RivalIsChosen(candidates, load, ready[0]);
        return ready[0];
      }
      var rivals := ready;
      if !AnyWeighted(ready) && load.Some? {
        rivals := LeastLoadedBackends(ready, load.value);
      }
      b := WeightedBackend(prefix, rivals);
      RivalIsChosen(candidates, load, b);
      TurnKeepsScores(old(rr), rr, routes, prefix, rivals, b);
    }

    /** Finds the longest registered prefix of the path and asks its route for a backend. */
    method Select(path: string, load: Option<Backend -> int>) returns (r: Option<Match>)
      requires Valid()
      modifies this`rr
      ensures Valid()
      ensures r.None? ==> rr == old(rr) && forall p <- routes :: !Matches(path, p)
      ensures r.Some? ==> exists p <- routes :: Longest(routes, path, p)
      ensures forall p <- routes | Longest(routes, path, p) ::
        && r.Some?
        && Chosen(routes[p], load, r.value.backend)
        && Rebuilds(path, p, r.value.upstream)
        && (var rivals := Rivals(routes[p], load);
            if |rivals| > 1 then Turn(old(rr), rr, p, rivals, r.value.backend) else rr == old(rr))
    {
      hide Turn, Chosen, Matches, Rebuilds, Rivals, RoutesOk, ScoresOk;
      for i := 0 to |prefixes|
        invariant rr == old(rr)
        invariant forall j | 0 <= j < i :: !Matches(path, prefixes[j])
      {
        var prefix := prefixes[i];
        if Matches(path, prefix) {
          FirstIsLongest(routes, prefixes, path, i);
          var backend := SelectBackend(prefix, load);
          return Some(Match(backend, Upstream(path, prefix)));
        }
      }
      r := None;
      forall p <- routes ensures !Matches(path, p) {
        assert p in prefixes;
      }
    }

    /** Lists the prefixes again, longest first. */
    method RebuildPrefixes()
      modifies this`prefixes
      ensures PrefixesOk(prefixes, routes)
    {
      prefixes := [];
      var rest := routes.Keys;
      PrefixOrder("", "");
      while rest != {}
        invariant rest <= routes.Keys
        invariant Sorted(PrefixBefore, prefixes)
        invariant forall p :: p in prefixes <==> p in routes && p !in rest
      {
        var p :| p in rest;
        forall q <- prefixes ensures PrefixBefore(p, q) || PrefixBefore(q, p) {
          PrefixOrder(p, q);
        }
        InsertSorted(PrefixBefore, p, prefixes);
        InsertMembers(PrefixBefore, p, prefixes);
        prefixes := Insert(PrefixBefore, p, prefixes);
        rest := rest - {p};
      }
    }

    method Delete(routePrefix: string)
      requires Valid()
      modifies this
      ensures Valid()
      ensures routes == if Normalize(routePrefix).Some? then old(routes) - {Normalize(routePrefix).value}
                        else old(routes)
      ensures rr == if Normalize(routePrefix).Some? then old(rr) - {Normalize(routePrefix).value} else old(rr)
    {
      hide RoutesOk, ScoresOk, Normalize;
      DeletionIsOk(routes, rr, routePrefix);
      var prefix := if Normalize(routePrefix).Some? then Normalize(routePrefix).value else "";
      routes := routes - {prefix};
      rr := rr - {prefix};
      RebuildPrefixes();
    }

    /** Adds a backend or replaces the one of the same identity; nothing else changes. */
    method Upsert(backend: Backend) returns (ok: bool)
      requires Valid()
      modifies this
      ensures Valid() && rr == old(rr)
      ensures ok <==> NormalizeBackend(backend).Some?
      ensures !ok ==> routes == old(routes)
      ensures ok ==> var b := NormalizeBackend(backend).value;
        && Members(routes, b.prefix) == Without(Members(old(routes), b.prefix), b.key) + {b}
        && routes == old(routes)[b.prefix := routes[b.prefix]]
    {
      hide Normalize, NormalizeBackend, RoutesOk, ScoresOk, Members, Without;
      var normalized := NormalizeBackend(backend);
      if normalized.None? {
        return false;
      }
      ok := true;
      var b := normalized.value;
      NormalizedIsOk(backend);
      var before := Candidates(routes, b.prefix);
      RouteIsDistinct(routes, b.prefix);
      var candidates := Put(before, b);
      PutIsOk(routes, rr, b, candidates);
      routes := routes[b.prefix := Sort(KeyBefore, candidates)];
      RebuildPrefixes();
    }

    /** Puts b in the place of the backend with its identity, or at the end. */
    method Put(before: seq<Backend>, b: Backend) returns (candidates: seq<Backend>)
      requires Distinct(before)
      ensures Distinct(candidates)
      ensures forall x :: x in candidates <==> x == b || (x in before && x.key != b.key)
    {
      for i := 0 to |before|
        invariant forall j | 0 <= j < i :: before[j].key != b.key
      {
        if before[i].key == b.key {
          candidates := before[i := b];
          forall x ensures x in candidates <==> x == b || (x in before && x.key != b.key) {
            if x in before && x.key != b.key {
              var j :| 0 <= j < |before| && before[j] == x;
              assert candidates[j] == x;
            }
            assert candidates[i] == b;
          }
          return;
        }
      }
      candidates := before + [b];
    }

    /** Publishes a discovery snapshot; `ok` is false when it named an invalid or duplicate backend. */
    method Replace(backends: seq<Backend>) returns (ok: bool)
      modifies this
      ensures Valid()
      ensures forall b: Backend :: b in Members(routes, b.prefix) <==> exists i :: FirstAt(backends, i, b)
      ensures ok <==> forall i | 0 <= i < |backends| ::
        NormalizeBackend(backends[i]).Some? && FirstAt(backends, i, NormalizeBackend(backends[i]).value)
      ensures forall p, k :: ScoreAt(rr, p, k) == if HasKey(Candidates(routes, p), k) then ScoreAt(old(rr), p, k) else 0
    {
      hide Normalize, NormalizeBackend, RoutesOk, ScoresOk, Group, FirstAt, Members, SortedRoutes, Pruned;
      ok := true;
      var grouped: Routes := map[];
      GroupNothing(backends);
      for i := 0 to |backends|
        invariant grouped == Group(backends[..i]) && rr == old(rr)
        invariant ok <==> forall j | 0 <= j < i :: Accepted(Group(backends[..j]), backends[j])
      {
        GroupNext(backends, i);
        if Accepted(grouped, backends[i]) {
          var b := NormalizeBackend(backends[i]).value;
          grouped := grouped[b.prefix := Candidates(grouped, b.prefix) + [b]];
        } else {
          ok := false;
        }
      }
      assert backends[..|backends|] == backends;
      GroupIs(backends);
      PublishedIsOk(grouped);
      PublishedAre(backends);
      forall i | 0 <= i < |backends|
        ensures Accepted(Group(backends[..i]), backends[i]) <==>
          NormalizeBackend(backends[i]).Some? && FirstAt(backends, i, NormalizeBackend(backends[i]).value)
      {
        AcceptedIsFirst(backends, i);
      }
      routes := SortedRoutes(grouped);
      PrunedScores(rr, routes);
      rr := Pruned(rr, routes);
      RebuildPrefixes();
    }

    method WithdrawCandidates(before: seq<Backend>, reason: string) returns (candidates: seq<Backend>)
      ensures WithdrawnFrom(before, candidates, reason)
    {
      candidates := before;
      for n := 0 to |candidates|
        invariant |candidates| == |before|
        invariant forall j | 0 <= j < n :: WithdrawnAs(before[j], candidates[j], reason)
        invariant forall j | n <= j < |candidates| :: candidates[j] == before[j]
      {
        if candidates[n].state.Ready? {
          candidates := candidates[n := candidates[n].Withdrawn(reason)];
        }
      }
    }

    /** Fails closed: every Ready backend is withdrawn, everything else stays. */
    method MarkReadyUnavailable(reason: string)
      requires Valid()
      modifies this`routes
      ensures Valid() && NoneReady(routes)
      ensures routes.Keys == old(routes.Keys)
      ensures forall p <- routes :: WithdrawnFrom(old(routes)[p], routes[p], reason)
    {
      hide RoutesOk, ScoresOk, PrefixesOk, NoneReady, WithdrawnFrom, WithdrawnTo;
      ghost var before := routes;
      WithdrawnNone(routes, prefixes, reason);
      for i := 0 to |prefixes|
        invariant WithdrawnTo(before, routes, prefixes, i, reason)
      {
        WithdrawnHas(before, routes, prefixes, i, reason);
        var candidates := WithdrawCandidates(routes[prefixes[i]], reason);
        WithdrawnNext(before, routes, prefixes, i, candidates, reason);
        routes := routes[prefixes[i] := candidates];
      }
      WithdrawnAll(before, routes, prefixes, reason);
      WithdrawnIsOk(before, routes, rr, reason);
    }

    /** Selections in a row on an unchanging route that weights decide alone, under whatever loads, follow
        the round-robin run from zero scores: any W of them in a row return each backend exactly its
        weight. */
    method SelectRepeatedly(path: string, prefix: string, loads: seq<Option<Backend -> int>>)
      returns (chosen: seq<Backend>)
      requires Valid() && Longest(routes, path, prefix)
      requires var ready := Usables(routes[prefix]);
        && |ready| > 1 && ScoresOf(rr, prefix, ready) == RoundRobin.Zeros(|ready|)
        && (AnyWeighted(ready) || forall j | 0 <= j < |loads| :: loads[j].None?)
      modifies this`rr
      ensures Valid()
      ensures var ready := Usables(routes[prefix]);
        && Follows(chosen, ready, RoundRobin.Picks(Weights(ready), RoundRobin.Zeros(|ready|), |loads|))
        && forall t | 0 <= t <= |chosen| :: FairWindow(chosen, ready, t)
    {
      hide RoutesOk, PrefixesOk, ScoresOk, Usables, Longest, Chosen, Rebuilds, Weights, ScoresOf, ScoreSum, KeySet, At,
        RoundRobin.Next, RoundRobin.Picked, FairWindow;
      chosen := [];
      LongestIsRegistered(routes, path, prefix);
      ghost var ready := Usables(routes[prefix]);
      ghost var w, zeros := Weights(ready), RoundRobin.Zeros(|ready|);
      for t := 0 to |loads|
        invariant Valid()
        invariant ScoresOf(rr, prefix, ready) == RoundRobin.After(w, zeros, t)
        invariant Follows(chosen, ready, RoundRobin.Picks(w, zeros, t))
      {
        ghost var before := rr;
        assert Rivals(routes[prefix], loads[t]) == ready;
        var r := Select(path, loads[t]);
        assert Turn(before, rr, prefix, ready, r.value.backend);
        assert RoundRobin.Picks(w, zeros, t + 1)
            == RoundRobin.Picks(w, zeros, t) + [RoundRobin.Picked(w, ScoresOf(before, prefix, ready))];
        chosen := chosen + [r.value.backend];
      }
      SelectionsAreFair(routes, prefix, chosen);
    }

    /** Once withdrawn, no traffic gets a Ready backend: only a snapshot or an upsert can change that. */
    method ServeWithdrawn(requests: seq<Request>) returns (answers: seq<Option<Match>>)
      requires Valid() && NoneReady(routes)
      modifies this
      ensures Valid() && NoneReady(routes) && |answers| == |requests|
      ensures forall a <- answers :: a.Some? ==> !a.value.backend.state.Ready?
    {
      answers := [];
      for i := 0 to |requests|
        invariant Valid() && NoneReady(routes) && |answers| == i
        invariant forall a <- answers :: a.Some? ==> !a.value.backend.state.Ready?
      {
        match requests[i]
        case Get(path, load) =>
          var r := Select(path, load);
          if r.Some? {
            ghost var p :| p in routes && Longest(routes, path, p);
            assert Chosen(routes[p], load, r.value.backend);
          }
          answers := answers + [r];
        case Drop(prefix) =>
          Delete(prefix);
          answers := answers + [None];
        case Withdraw(reason) =>
          MarkReadyUnavailable(reason);
          answers := answers + [None];
      }
    }
  }
}
