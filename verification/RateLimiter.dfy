/** The gateway's per-backend token bucket, over exact real time in seconds. */
module RateLimiter {
  import opened Wrappers
  import opened Registry

  datatype Policy = Policy(requestsPerMinute: int, burst: int) {
    predicate Limits() {
      requestsPerMinute > 0
    }

    function Burst(): int {
      if burst <= 0 then requestsPerMinute else burst
    }

    function Rate(): real {
      requestsPerMinute as real / 60.0
    }

    /** The tokens that some seconds bring. */
    function Earned(elapsed: real): real {
      elapsed * Rate()
    }
  }

  datatype Bucket = Bucket(requestsPerMinute: int, capacity: real, tokens: real, last: real)

  datatype Visit = Visit(bucket: Bucket, admitted: bool)

  function Min(a: real, b: real): real {
    if a <= b then a else b
  }

  /** The bucket a call finds: a full one when there is none for this policy yet. */
  function Opened(bucket: Option<Bucket>, policy: Policy, now: real): Bucket {
    if bucket.None? || bucket.value.requestsPerMinute != policy.requestsPerMinute
      || bucket.value.capacity != policy.Burst() as real
    then Bucket(policy.requestsPerMinute, policy.Burst() as real, policy.Burst() as real, now)
    else bucket.value
  }

  function Refilled(b: Bucket, policy: Policy, now: real): real {
    Min(b.capacity, b.tokens + policy.Earned(now - b.last))
  }

  /** One call: refill by the time since the last call, then take a token if there is one. */
  function Visited(bucket: Option<Bucket>, policy: Policy, now: real): Visit {
    var b := Opened(bucket, policy, now);
    var tokens := Refilled(b, policy, now);
    if tokens >= 1.0 then Visit(b.(tokens := tokens - 1.0, last := now), true)
    else Visit(b.(tokens := tokens, last := now), false)
  }

  // ---------- runs of calls on one key under one policy, in any order of time ----------

  function Run(policy: Policy, times: seq<real>): Option<Visit> {
    if times == [] then None
    else
      var before := Run(policy, times[..|times| - 1]);
      Some(Visited(if before.Some? then Some(before.value.bucket) else None, policy, times[|times| - 1]))
  }

  function Admissions(policy: Policy, times: seq<real>): nat {
    if times == [] then 0
    else Admissions(policy, times[..|times| - 1]) + (if Run(policy, times).value.admitted then 1 else 0)
  }

  ghost predicate Fits(bucket: Bucket, policy: Policy) {
    bucket.requestsPerMinute == policy.requestsPerMinute && bucket.capacity == policy.Burst() as real
  }

  /** A call turns at most what the elapsed time refilled into tokens left and tokens spent. */
  lemma VisitIsAccounted(bucket: Option<Bucket>, policy: Policy, now: real)
    ensures var b, visit := Opened(bucket, policy, now), Visited(bucket, policy, now);
      && Fits(visit.bucket, policy) && visit.bucket.last == now
      && visit.bucket.tokens + (if visit.admitted then 1.0 else 0.0) <= b.tokens + policy.Earned(now - b.last)
  {}

  /** Tokens left and tokens spent never exceed the burst plus what time has refilled, even when the
      clock runs backwards between calls. */
  lemma {:induction false} TokensAreAccounted(policy: Policy, times: seq<real>)
    requires policy.Limits() && times != []
    ensures var b := Run(policy, times).value.bucket;
      && Fits(b, policy) && b.last == times[|times| - 1]
      && b.tokens + Admissions(policy, times) as real
         <= policy.Burst() as real + policy.Earned(times[|times| - 1] - times[0])
  {
    hide Visited, Policy.Earned, Policy.Burst;
    var n := |times| - 1;
    if n == 0 {
      assert times[..0] == [];
      VisitIsAccounted(None, policy, times[0]);
      EarnedAdds(policy, 0.0, 0.0);
    } else {
      TokensAreAccounted(policy, times[..n]);
      var before := Run(policy, times[..n]).value.bucket;
      VisitIsAccounted(Some(before), policy, times[n]);
      EarnedAdds(policy, before.last - times[0], times[n] - before.last);
    }
  }

  lemma EarnedAdds(policy: Policy, a: real, b: real)
    ensures policy.Earned(a) + policy.Earned(b) == policy.Earned(a + b)
    ensures policy.Earned(0.0) == 0.0
    ensures policy.Limits() && a >= 0.0 ==> policy.Earned(a) >= 0.0
  {
    Distribute(policy.Rate(), a, b);
    if policy.Limits() && a >= 0.0 {
      NotNegative(a, policy.Rate());
    }
  }

  lemma Distribute(rate: real, a: real, b: real)
    ensures a * rate + b * rate == (a + b) * rate
    ensures 0.0 * rate == 0.0
  {}

  lemma NotNegative(a: real, b: real)
    requires a >= 0.0 && b >= 0.0
    ensures a * b >= 0.0
  {}

  /** A minute brings the policy's requests per minute. */
  lemma EarnedPerMinute(policy: Policy, elapsed: real)
    ensures 60.0 * policy.Earned(elapsed) == policy.requestsPerMinute as real * elapsed
  {}

  /** Up to any admitted call at time t at most burst + rate * (t - creation) calls were admitted. */
  lemma AdmissionsAreBounded(policy: Policy, times: seq<real>)
    requires policy.Limits() && times != [] && Run(policy, times).value.admitted
    ensures Admissions(policy, times) as real
      <= policy.Burst() as real + policy.Earned(times[|times| - 1] - times[0])
  {
    hide Visited, Run, Policy.Earned, Policy.Burst;
    TokensAreAccounted(policy, times);
    TokensStayPositive(policy, times);
  }

  lemma TokensStayPositive(policy: Policy, times: seq<real>)
    requires times != [] && Run(policy, times).value.admitted
    ensures Run(policy, times).value.bucket.tokens >= 0.0
  {}

  predicate AdmittedAfter(bucket: Option<Bucket>, policy: Policy, now: real, seconds: int) {
    Visited(bucket, policy, now + seconds as real).admitted
  }

  // ---------- when to come back ----------

  function Ceil(x: real): int {
    -((-x).Floor)
  }

  function RetryAfter(tokens: real, rate: real): int
    requires rate > 0.0
  {
    var retry := Ceil((1.0 - tokens) / rate);
    if retry < 1 then 1 else retry
  }

  lemma EnoughTime(tokens: real, rate: real, k: int)
    requires rate > 0.0
    ensures tokens + k as real * rate >= 1.0 <==> k >= Ceil((1.0 - tokens) / rate)
  {
    var x := (1.0 - tokens) / rate;
    assert x * rate == 1.0 - tokens;
    Scaled(k as real, x, rate);
  }

  lemma Scaled(a: real, b: real, rate: real)
    requires rate > 0.0
    ensures a * rate >= b * rate <==> a >= b
  {
    if a >= b {
      assert (a - b) * rate >= 0.0;
    } else {
      assert (b - a) * rate > 0.0;
    }
  }

  /** A refused caller that waits k whole seconds undisturbed is admitted exactly when k reaches the
      advertised Retry-After, which is positive. */
  lemma RetryAfterIsLeast(bucket: Option<Bucket>, policy: Policy, now: real, k: int)
    requires policy.Limits() && !Visited(bucket, policy, now).admitted && k >= 0
    ensures var b := Visited(bucket, policy, now).bucket;
      var retry := RetryAfter(b.tokens, policy.Rate());
      retry >= 1 && (AdmittedAfter(Some(b), policy, now, k) <==> k >= retry)
  {
    var b := Visited(bucket, policy, now).bucket;
    EnoughTime(b.tokens, policy.Rate(), k);
    EnoughTime(b.tokens, policy.Rate(), 0);
    assert now + k as real - b.last == k as real;
  }

  // ---------- any stretch of calls ----------

  /** Which calls of a run are admitted. */
  function Decisions(policy: Policy, times: seq<real>): (r: seq<bool>)
    ensures |r| == |times|
  {
    if times == [] then [] else Decisions(policy, times[..|times| - 1]) + [Run(policy, times).value.admitted]
  }

  function Admitted(decisions: seq<bool>): nat {
    if decisions == [] then 0
    else Admitted(decisions[..|decisions| - 1]) + (if decisions[|decisions| - 1] then 1 else 0)
  }

  lemma {:induction false} DecisionAt(policy: Policy, times: seq<real>, k: nat)
    requires k < |times|
    ensures Decisions(policy, times)[k] == Run(policy, times[..k + 1]).value.admitted
  {
    if k + 1 < |times| {
      DecisionAt(policy, times[..|times| - 1], k);
      assert times[..|times| - 1][..k + 1] == times[..k + 1];
    } else {
      assert times[..k + 1] == times;
    }
  }

  lemma StretchGrows(decisions: seq<bool>, i: nat, j: nat)
    requires i <= j < |decisions|
    ensures Admitted(decisions[i..j + 1]) == Admitted(decisions[i..j]) + (if decisions[j] then 1 else 0)
  {
    assert decisions[i..j + 1][..j - i] == decisions[i..j];
  }

  /** From call i on, tokens left and tokens spent never exceed a full bucket and what time refilled since. */
  lemma {:induction false} StretchIsAccounted(policy: Policy, times: seq<real>, i: nat, j: nat)
    requires policy.Limits() && i <= j < |times|
    ensures Run(policy, times[..j + 1]).value.bucket.tokens + Admitted(Decisions(policy, times)[i..j + 1]) as real
      <= policy.Burst() as real + policy.Earned(times[j] - times[i])
  {
    hide Visited, Policy.Earned, Policy.Burst, Decisions;
    var decisions := Decisions(policy, times);
    DecisionAt(policy, times, j);
    StretchGrows(decisions, i, j);
    assert times[..j + 1][..j] == times[..j];
    var before := BucketAfter(policy, times[..j]);
    assert Run(policy, times[..j + 1]) == Some(Visited(before, policy, times[j]));
    if i == j {
      assert decisions[i..i] == [];
      EarnedAdds(policy, times[j] - times[i], 0.0);
      VisitIsCapped(before, policy, times[j]);
    } else {
      StretchIsAccounted(policy, times, i, j - 1);
      TokensAreAccounted(policy, times[..j]);
      VisitIsAccounted(before, policy, times[j]);
      EarnedAdds(policy, times[j - 1] - times[i], times[j] - times[j - 1]);
    }
  }

  /** However long a bucket was left alone, it never holds more than the burst. */
  lemma VisitIsCapped(bucket: Option<Bucket>, policy: Policy, now: real)
    ensures var visit := Visited(bucket, policy, now);
      visit.bucket.tokens + (if visit.admitted then 1.0 else 0.0) <= policy.Burst() as real
  {}

  predicate InOrder(times: seq<real>, i: nat, j: nat)
    requires i <= j < |times|
  {
    forall k | i <= k < j :: times[k] <= times[k + 1]
  }

  /** Over any stretch i..j of a run, if its last call is admitted or its times are in order, at most
      burst + rate * (times[j] - times[i]) calls are admitted. */
  lemma {:induction false} StretchIsBounded(policy: Policy, times: seq<real>, i: nat, j: nat)
    requires policy.Limits() && i <= j < |times|
    requires Decisions(policy, times)[j] || InOrder(times, i, j)
    ensures Admitted(Decisions(policy, times)[i..j + 1]) as real
      <= policy.Burst() as real + policy.Earned(times[j] - times[i])
  {
    hide Policy.Earned, Decisions;
    var decisions := Decisions(policy, times);
    StretchGrows(decisions, i, j);
    DecisionAt(policy, times, j);
    RateIsPositive(policy);
    if decisions[j] {
      StretchIsAccounted(policy, times, i, j);
      TokensStayPositive(policy, times[..j + 1]);
    } else if i == j {
      assert decisions[i..i] == [];
      EarnedAdds(policy, times[j] - times[i], 0.0);
    } else {
      StretchIsBounded(policy, times, i, j - 1);
      var earlier, later := times[j - 1] - times[i], times[j] - times[j - 1];
      EarnedAdds(policy, earlier, later);
      assert earlier + later == times[j] - times[i];
      assert times[j - 1] <= times[j];
      EarnedAdds(policy, later, earlier);
    }
  }

  /** In the policy's own numbers. */
  ghost predicate WithinRate(policy: Policy, times: seq<real>, decisions: seq<bool>, i: nat, j: nat)
    requires |decisions| == |times| && i <= j < |times|
  {
    decisions[j] || InOrder(times, i, j) ==>
      var burst := if policy.burst <= 0 then policy.requestsPerMinute else policy.burst;
      60.0 * (Admitted(decisions[i..j + 1]) - burst) as real
        <= policy.requestsPerMinute as real * (times[j] - times[i])
  }

  lemma StretchIsWithinRate(policy: Policy, times: seq<real>, i: nat, j: nat)
    requires policy.Limits() && i <= j < |times|
    ensures WithinRate(policy, times, Decisions(policy, times), i, j)
  {
    hide Decisions, Admitted, Policy.Earned;
    if Decisions(policy, times)[j] || InOrder(times, i, j) {
      StretchIsBounded(policy, times, i, j);
      var admitted := Admitted(Decisions(policy, times)[i..j + 1]);
      EarnedPerMinute(policy, times[j] - times[i]);
      InMinutes((policy.Burst() - admitted) as real, policy.Earned(times[j] - times[i]),
                policy.requestsPerMinute as real * (times[j] - times[i]));
    }
  }

  // ---------- what is not refused ----------

  /** A call is refused exactly when less than one token is left after the refill, which stops at the burst. */
  lemma RefusedExactlyWhen(bucket: Bucket, policy: Policy, now: real)
    requires bucket.requestsPerMinute == policy.requestsPerMinute && bucket.capacity == policy.Burst() as real
    ensures var refilled := 60.0 * bucket.tokens + policy.requestsPerMinute as real * (now - bucket.last);
      !Visited(Some(bucket), policy, now).admitted <==> refilled < 60.0 || policy.Burst() < 1
  {
    hide Policy.Earned;
    assert Opened(Some(bucket), policy, now) == bucket;
    var earned := policy.Earned(now - bucket.last);
    EarnedPerMinute(policy, now - bucket.last);
    InMinutes(bucket.tokens - 1.0, earned, policy.requestsPerMinute as real * (now - bucket.last));
  }

  lemma InMinutes(tokens: real, earned: real, perMinute: real)
    requires 60.0 * earned == perMinute
    ensures tokens + earned < 0.0 <==> 60.0 * tokens + perMinute < 0.0
    ensures tokens + earned >= 0.0 <==> 60.0 * -tokens <= perMinute
  {}

  /** A new key, and a key whose policy changed, starts with a full bucket. */
  lemma NewPolicyStartsFull(bucket: Option<Bucket>, policy: Policy, now: real)
    requires policy.Limits()
    requires bucket.Some? ==>
      bucket.value.requestsPerMinute != policy.requestsPerMinute || bucket.value.capacity != policy.Burst() as real
    ensures var visit := Visited(bucket, policy, now);
      && visit.admitted && visit.bucket.last == now && visit.bucket.capacity == policy.Burst() as real
      && visit.bucket.tokens == (policy.Burst() - 1) as real
      && policy.Burst() == if policy.burst <= 0 then policy.requestsPerMinute else policy.burst
  {
    hide Policy.Earned;
    EarnedAdds(policy, 0.0, 0.0);
  }

  /** The first burst of calls at one instant is admitted to the last, and the next one is not. */
  lemma {:induction false} BurstIsAdmitted(policy: Policy, now: real, n: nat)
    requires policy.Limits() && 0 < n <= policy.Burst() + 1
    ensures var visit := Run(policy, seq(n, _ => now)).value;
      && (visit.admitted <==> n <= policy.Burst())
      && visit.bucket == Bucket(policy.requestsPerMinute, policy.Burst() as real,
                                if n <= policy.Burst() then (policy.Burst() - n) as real else 0.0, now)
  {
    hide Policy.Burst, Policy.Earned;
    var times := seq(n, _ => now);
    assert times[..n - 1] == seq(n - 1, _ => now);
    if n == 1 {
      NewPolicyStartsFull(None, policy, now);
    } else {
      BurstIsAdmitted(policy, now, n - 1);
      EarnedAdds(policy, 0.0, 0.0);
    }
  }

  // ---------- calls on many keys ----------

  datatype Call = Call(key: Key, policy: Policy, now: real)

  /** When the calls on one key were made. */
  function TimesOf(calls: seq<Call>, key: Key): seq<real> {
    if calls == [] then []
    else
      var last := calls[|calls| - 1];
      TimesOf(calls[..|calls| - 1], key) + (if last.key == key then [last.now] else [])
  }

  /** The answers to the calls on one key. */
  function AnswersOf(calls: seq<Call>, answers: seq<bool>, key: Key): seq<bool>
    requires |answers| == |calls|
  {
    if calls == [] then []
    else
      var n := |calls| - 1;
      AnswersOf(calls[..n], answers[..n], key) + (if calls[n].key == key then [answers[n]] else [])
  }

  /** The bucket of a key that only calls under one policy have touched. */
  function BucketAfter(policy: Policy, times: seq<real>): Option<Bucket> {
    if times == [] then None else Some(Run(policy, times).value.bucket)
  }

  /** The key's bucket and the answers it gave are those of its own run. */
  ghost predicate Tracks(bucket: Option<Bucket>, calls: seq<Call>, answers: seq<bool>, key: Key, policy: Policy)
    requires |answers| == |calls|
  {
    var times := TimesOf(calls, key);
    bucket == BucketAfter(policy, times) && AnswersOf(calls, answers, key) == Decisions(policy, times)
  }

  lemma CallTracks(bucket: Option<Bucket>, calls: seq<Call>, answers: seq<bool>, call: Call, policy: Policy)
    requires |answers| == |calls| && Tracks(bucket, calls, answers, call.key, policy)
    ensures var visit := Visited(bucket, policy, call.now);
      Tracks(Some(visit.bucket), calls + [call], answers + [visit.admitted], call.key, policy)
  {
    hide Visited;
    var times := TimesOf(calls, call.key);
    assert (calls + [call])[..|calls|] == calls;
    assert (answers + [Visited(bucket, policy, call.now).admitted])[..|calls|] == answers;
    assert (times + [call.now])[..|times|] == times;
  }

  lemma OtherCallTracks(bucket: Option<Bucket>, calls: seq<Call>, answers: seq<bool>, call: Call, answer: bool,
                        key: Key, policy: Policy)
    requires |answers| == |calls| && Tracks(bucket, calls, answers, key, policy) && call.key != key
    ensures Tracks(bucket, calls + [call], answers + [answer], key, policy)
  {
    assert (calls + [call])[..|calls|] == calls && (answers + [answer])[..|calls|] == answers;
    assert TimesOf(calls, key) + [] == TimesOf(calls, key);
  }

  lemma NothingTracked(calls: seq<Call>, key: Key, policy: Policy)
    ensures Tracks(None, calls[..0], [], key, policy)
  {}

  lemma TrackedIsWithinRate(bucket: Option<Bucket>, calls: seq<Call>, answers: seq<bool>, key: Key, policy: Policy)
    requires |answers| == |calls| && Tracks(bucket, calls, answers, key, policy) && policy.Limits()
    ensures var times, own := TimesOf(calls, key), AnswersOf(calls, answers, key);
      && |own| == |times| && own == Decisions(policy, times)
      && forall i, j | 0 <= i <= j < |times| :: WithinRate(policy, times, own, i, j)
  {
    hide WithinRate, TimesOf, AnswersOf, Decisions;
    var times := TimesOf(calls, key);
    forall i, j | 0 <= i <= j < |times| ensures WithinRate(policy, times, Decisions(policy, times), i, j) {
      StretchIsWithinRate(policy, times, i, j);
    }
  }

  lemma RateIsPositive(policy: Policy)
    requires policy.Limits()
    ensures policy.Rate() > 0.0
  {}

  class Limiter {
    var buckets: map<Key, Bucket>

    constructor ()
      ensures buckets == map[]
    {
      buckets := map[];
    }

    function BucketOf(key: Key): Option<Bucket>
      reads this
    {
      if key in buckets then Some(buckets[key]) else None
    }

    /** Spends a token of the key's bucket, or says after how many whole seconds there will be one. */
    method Allow(key: Key, policy: Policy, now: real) returns (allowed: bool, retry: int)
      modifies this
      ensures !policy.Limits() ==> allowed && retry == 0 && buckets == old(buckets)
      ensures policy.Limits() ==>
        var visit := Visited(old(BucketOf(key)), policy, now);
        allowed == visit.admitted && buckets == old(buckets)[key := visit.bucket]
      ensures allowed ==> retry == 0
      ensures !allowed ==> forall k: nat :: AdmittedAfter(BucketOf(key), policy, now, k) <==> k >= retry
    {
      hide Policy.Rate, Refilled, RetryAfter, AdmittedAfter;
      if !policy.Limits() {
        return true, 0;
      }
      assert policy.Rate() > 0.0 by { RateIsPositive(policy); }
      var burst := if policy.burst <= 0 then policy.requestsPerMinute else policy.burst;
      if key !in buckets || buckets[key].requestsPerMinute != policy.requestsPerMinute
        || buckets[key].capacity != burst as real {
        buckets := buckets[key := Bucket(policy.requestsPerMinute, burst as real, burst as real, now)];
      }
      var b := buckets[key];
      b := b.(last := now, tokens := Refilled(b, policy, now));
      if b.tokens >= 1.0 {
        buckets := buckets[key := b.(tokens := b.tokens - 1.0)];
        return true, 0;
      }
      buckets := buckets[key := b];
      allowed, retry := false, RetryAfter(b.tokens, policy.Rate());
      forall k: nat ensures AdmittedAfter(BucketOf(key), policy, now, k) <==> k >= retry {
        RetryAfterIsLeast(old(BucketOf(key)), policy, now, k);
      }
    }

    /** Any sequence of calls on any keys: a key new to the limiter and under one policy throughout gets the
        answers of its own run, whatever happens on the other keys, and over any stretch of its calls is
        admitted at most burst + rate * elapsed times. */
    method AllowAll(calls: seq<Call>, ghost key: Key, ghost policy: Policy) returns (answers: seq<bool>)
      requires key !in buckets && policy.Limits()
      requires forall j | 0 <= j < |calls| :: calls[j].key == key ==> calls[j].policy == policy
      modifies this
      ensures |answers| == |calls|
      ensures var times, own := TimesOf(calls, key), AnswersOf(calls, answers, key);
        && |own| == |times| && own == Decisions(policy, times)
        && forall i, j | 0 <= i <= j < |times| :: WithinRate(policy, times, own, i, j)
    {
      hide Visited, Run, Tracks, WithinRate;
      answers := [];
      NothingTracked(calls, key, policy);
      for i := 0 to |calls|
        invariant |answers| == i && Tracks(BucketOf(key), calls[..i], answers, key, policy)
      {
        ghost var before, sofar := BucketOf(key), answers;
        var allowed, _ := Allow(calls[i].key, calls[i].policy, calls[i].now);
        answers := answers + [allowed];
        assert calls[..i + 1] == calls[..i] + [calls[i]];
        if calls[i].key == key {
          CallTracks(before, calls[..i], sofar, calls[i], policy);
        } else {
          OtherCallTracks(before, calls[..i], sofar, calls[i], allowed, key, policy);
        }
      }
      assert calls[..|calls|] == calls;
      TrackedIsWithinRate(BucketOf(key), calls, answers, key, policy);
    }
  }
}
