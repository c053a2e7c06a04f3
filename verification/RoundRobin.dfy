/** Smooth weighted round-robin over a fixed list of candidates: exact fairness and bounded scores. */
module RoundRobin {
  import opened Arithmetic

  function Total(s: seq<int>): (n: int) {
    if s == [] then 0 else s[0] + Total(s[1..])
  }

  /** Raises every score by its weight. */
  function Raised(weights: seq<int>, scores: seq<int>): (r: seq<int>)
    requires |weights| == |scores|
    ensures |r| == |scores|
  {
    seq(|scores|, i requires 0 <= i < |scores| => scores[i] + weights[i])
  }

  /** The first candidate with the highest score. */
  function Best(scores: seq<int>): (k: nat)
    requires scores != []
    ensures k < |scores|
    ensures forall i | 0 <= i < |scores| :: scores[i] <= scores[k]
    ensures forall i | 0 <= i < k :: scores[i] < scores[k]
  {
    if |scores| == 1 then 0
    else
      var k := Best(scores[..|scores| - 1]);
      if scores[|scores| - 1] > scores[k] then |scores| - 1 else k
  }

  function Picked(weights: seq<int>, scores: seq<int>): (k: nat)
    requires |weights| == |scores| > 0
    ensures k < |scores|
  {
    Best(Raised(weights, scores))
  }

  /** One selection: the chosen candidate pays the total weight. */
  function Next(weights: seq<int>, scores: seq<int>): (r: seq<int>)
    requires |weights| == |scores| > 0
    ensures |r| == |scores|
  {
    var k := Picked(weights, scores);
    Raised(weights, scores)[k := Raised(weights, scores)[k] - Total(weights)]
  }

  /** The scores after t selections. */
  function After(weights: seq<int>, scores: seq<int>, t: nat): (r: seq<int>)
    requires |weights| == |scores| > 0
    ensures |r| == |scores|
    decreases t
  {
    if t == 0 then scores else Next(weights, After(weights, scores, t - 1))
  }

  /** The candidates chosen by t selections. */
  function Picks(weights: seq<int>, scores: seq<int>, t: nat): (r: seq<nat>)
    requires |weights| == |scores| > 0
    ensures |r| == t && forall j | 0 <= j < t :: r[j] < |scores|
    decreases t
  {
    if t == 0 then [] else Picks(weights, scores, t - 1) + [Picked(weights, After(weights, scores, t - 1))]
  }

  function Count(picks: seq<nat>, i: nat): (n: nat)
    ensures n <= |picks|
  {
    if picks == [] then 0
    else Count(picks[..|picks| - 1], i) + (if picks[|picks| - 1] == i then 1 else 0)
  }

  predicate Positive(weights: seq<int>) {
    forall i | 0 <= i < |weights| :: weights[i] > 0
  }

  function Zeros(n: nat): (r: seq<int>)
    ensures |r| == n && forall i | 0 <= i < n :: r[i] == 0
  {
    seq(n, i => 0)
  }

  // ---------- sums ----------

  lemma {:induction false} TotalUpdate(s: seq<int>, k: nat, v: int)
    requires k < |s|
    ensures Total(s[k := v]) == Total(s) - s[k] + v
  {
    if k == 0 {
      assert s[k := v][1..] == s[1..];
    } else {
      TotalUpdate(s[1..], k - 1, v);
      assert s[k := v][1..] == s[1..][k - 1 := v];
    }
  }

  lemma {:induction false} TotalRaised(weights: seq<int>, scores: seq<int>)
    requires |weights| == |scores|
    ensures Total(Raised(weights, scores)) == Total(weights) + Total(scores)
  {
    if scores != [] {
      TotalRaised(weights[1..], scores[1..]);
      assert Raised(weights, scores)[1..] == Raised(weights[1..], scores[1..]);
    }
  }

  lemma {:induction false} TotalAtLeast(s: seq<int>, low: int)
    requires forall i | 0 <= i < |s| :: s[i] >= low
    ensures Total(s) >= |s| * low
  {
    if s != [] {
      TotalAtLeast(s[1..], low);
    }
  }

  lemma {:induction false} TotalSnoc(s: seq<int>, x: int)
    ensures Total(s + [x]) == Total(s) + x
  {
    if s == [] {
      assert [x][1..] == [];
    } else {
      TotalSnoc(s[1..], x);
      assert (s + [x])[1..] == s[1..] + [x];
    }
  }

  /** If no entry is positive the total is not either. */
  lemma {:induction false} TotalNotPositive(s: seq<int>)
    requires forall i | 0 <= i < |s| :: s[i] <= 0
    ensures Total(s) <= 0
  {
    if s != [] {
      TotalNotPositive(s[1..]);
    }
  }

  lemma {:induction false} TotalPositive(weights: seq<int>, i: nat)
    requires Positive(weights) && i < |weights|
    ensures Total(weights) >= weights[i] > 0
  {
    TotalUpdate(weights, i, 0);
    TotalAtLeast(weights[i := 0], 0);
  }

  /** Termwise bounded sums with equal totals are equal termwise. */
  lemma {:induction false} EqualTotals(a: seq<int>, b: seq<int>, i: nat)
    requires |a| == |b| && i < |a| && Total(a) == Total(b)
    requires forall j | 0 <= j < |a| :: a[j] <= b[j]
    ensures a[i] == b[i]
  {
    TotalsOrdered(a[i := 0], b[i := 0]);
    TotalUpdate(a, i, 0);
    TotalUpdate(b, i, 0);
  }

  lemma {:induction false} TotalsOrdered(a: seq<int>, b: seq<int>)
    requires |a| == |b| && forall j | 0 <= j < |a| :: a[j] <= b[j]
    ensures Total(a) <= Total(b)
  {
    if a != [] {
      TotalsOrdered(a[1..], b[1..]);
    }
  }

  // ---------- every selection ----------

  /** Whatever the weights, a selection redistributes scores without changing their sum. */
  lemma {:induction false} NextKeepsTotal(weights: seq<int>, scores: seq<int>)
    requires |weights| == |scores| > 0
    ensures Total(Next(weights, scores)) == Total(scores)
  {
    hide Total, Best, Raised;
    TotalRaised(weights, scores);
    var k := Picked(weights, scores);
    TotalUpdate(Raised(weights, scores), k, Raised(weights, scores)[k] - Total(weights));
  }

  lemma NextKeepsLowerBound(weights: seq<int>, scores: seq<int>)
    requires |weights| == |scores| > 0 && Positive(weights) && Total(scores) == 0
    requires forall i | 0 <= i < |scores| :: scores[i] > -Total(weights)
    ensures forall i | 0 <= i < |scores| :: Next(weights, scores)[i] > -Total(weights)
  {
    var raised, k := Raised(weights, scores), Picked(weights, scores);
    TotalRaised(weights, scores);
    TotalPositive(weights, 0);
    if raised[k] <= 0 {
      TotalNotPositive(raised);
    }
  }

  /** From zero scores, after any number of selections, the scores cancel out and stay above -W. */
  lemma {:induction false} ScoresStayBalanced(weights: seq<int>, t: nat)
    requires weights != [] && Positive(weights)
    ensures var scores := After(weights, Zeros(|weights|), t);
      Total(scores) == 0 && forall i | 0 <= i < |weights| :: scores[i] > -Total(weights)
  {
    var zeros := Zeros(|weights|);
    if t == 0 {
      TotalPositive(weights, 0);
      TotalAtLeast(zeros, 0);
      TotalNotPositive(zeros);
    } else {
      ScoresStayBalanced(weights, t - 1);
      NextKeepsTotal(weights, After(weights, zeros, t - 1));
      NextKeepsLowerBound(weights, After(weights, zeros, t - 1));
    }
  }

  /** Scores stay strictly between -W and (n-1)*W. */
  lemma ScoresBounded(weights: seq<int>, t: nat, i: nat)
    requires |weights| > 1 && Positive(weights) && i < |weights|
    ensures -Total(weights) < After(weights, Zeros(|weights|), t)[i] < (|weights| - 1) * Total(weights)
  {
    hide Total, After;
    ScoresStayBalanced(weights, t);
    var scores, w := After(weights, Zeros(|weights|), t), Total(weights);
    TotalUpdate(scores, i, 1 - w);
    TotalAtLeast(scores[i := 1 - w], 1 - w);
    Regroup(|weights|, w);
  }

  lemma Regroup(n: int, w: int)
    ensures n * (1 - w) == n - 1 - (n - 1) * w + (1 - w)
  {}

  /** A score is exactly what the candidate was owed less what it was paid. */
  lemma {:induction false} ScoreIsDebt(weights: seq<int>, scores: seq<int>, t: nat, i: nat)
    requires |weights| == |scores| && i < |scores|
    ensures After(weights, scores, t)[i]
      == scores[i] + t * weights[i] - Total(weights) * Count(Picks(weights, scores, t), i)
  {
    hide Total, Next, Picked;
    if t > 0 {
      ScoreIsDebt(weights, scores, t - 1, i);
      var before, picks := Picks(weights, scores, t - 1), Picks(weights, scores, t);
      assert picks[..t - 1] == before;
      NextScore(weights, After(weights, scores, t - 1), i);
      var picked := Picked(weights, After(weights, scores, t - 1)) == i;
      assert Count(picks, i) == Count(before, i) + if picked then 1 else 0;
      OneMore(Total(weights), Count(before, i), t, weights[i]);
    }
  }

  lemma NextScore(weights: seq<int>, scores: seq<int>, i: nat)
    requires |weights| == |scores| && i < |scores|
    ensures Next(weights, scores)[i] == scores[i] + weights[i] - if Picked(weights, scores)
      == i then Total(weights) else 0
  {}

  lemma OneMore(w: int, n: int, t: int, weight: int)
    ensures w * (n + 1) == w * n + w
    ensures t * weight == (t - 1) * weight + weight
  {}

  /** After t selections a candidate was chosen fewer than t*w/W + 1 times. */
  lemma ChosenAtMostItsShare(weights: seq<int>, t: nat, i: nat)
    requires Positive(weights) && i < |weights|
    ensures (Count(Picks(weights, Zeros(|weights|), t), i) - 1) * Total(weights) < t * weights[i]
  {
    hide Total, After, Picks;
    ScoresStayBalanced(weights, t);
    ScoreIsDebt(weights, Zeros(|weights|), t, i);
    OneMore(Total(weights), Count(Picks(weights, Zeros(|weights|), t), i) - 1, t, weights[i]);
    Commute(Count(Picks(weights, Zeros(|weights|), t), i) - 1, Total(weights));
  }

  lemma Commute(a: int, b: int)
    ensures a * b == b * a
  {}

  // ---------- full rounds ----------

  function Counts(picks: seq<nat>, n: nat): (r: seq<int>)
    ensures |r| == n && forall i | 0 <= i < n :: r[i] == Count(picks, i)
  {
    seq(n, i requires 0 <= i < n => Count(picks, i))
  }

  lemma {:induction false} CountsTotal(picks: seq<nat>, n: nat)
    requires forall j | 0 <= j < |picks| :: picks[j] < n
    ensures Total(Counts(picks, n)) == |picks|
  {
    if picks == [] {
      TotalAtLeast(Counts(picks, n), 0);
      TotalNotPositive(Counts(picks, n));
    } else {
      hide Total;
      var rest, last := picks[..|picks| - 1], picks[|picks| - 1];
      CountsTotal(rest, n);
      TotalUpdate(Counts(rest, n), last, Count(rest, last) + 1);
      assert Counts(picks, n) == Counts(rest, n)[last := Count(rest, last) + 1];
    }
  }

  lemma RoundIsFair(weights: seq<int>, i: nat)
    requires Positive(weights) && i < |weights| && Total(weights) >= 0
    ensures Count(Picks(weights, Zeros(|weights|), Total(weights)), i) == weights[i]
    ensures After(weights, Zeros(|weights|), Total(weights)) == Zeros(|weights|)
  {
    hide Total, After, Picks, Count;
    var w, zeros := Total(weights), Zeros(|weights|);
    var counts := Counts(Picks(weights, zeros, w), |weights|);
    CountsTotal(Picks(weights, zeros, w), |weights|);
    TotalPositive(weights, i);
    forall j | 0 <= j < |weights| ensures counts[j] <= weights[j] {
      ChosenAtMostItsShare(weights, w, j);
      TotalPositive(weights, j);
      CancelFactor(counts[j] - 1, weights[j], w);
    }
    forall j | 0 <= j < |weights| ensures counts[j] == weights[j] && After(weights, zeros, w)[j] == 0 {
      EqualTotals(counts, weights, j);
      ScoreIsDebt(weights, zeros, w, j);
      Commute(w, weights[j]);
    }
  }

  lemma CancelFactor(a: int, b: int, w: int)
    requires a * w < w * b && w > 0
    ensures a < b
  {
    Commute(w, b);
    if a >= b {
      OrderedProducts(b, a, w);
    }
  }

  lemma {:induction false} PicksSplit(weights: seq<int>, scores: seq<int>, a: nat, b: nat)
    requires |weights| == |scores| > 0
    ensures After(weights, scores, a + b) == After(weights, After(weights, scores, a), b)
    ensures Picks(weights, scores, a + b) == Picks(weights, scores, a) + Picks(weights, After(weights, scores, a), b)
  {
    hide Next, Picked;
    if b == 0 {
      assert Picks(weights, After(weights, scores, a), b) == [];
    } else {
      PicksSplit(weights, scores, a, b - 1);
    }
  }

  lemma {:induction false} CountConcat(a: seq<nat>, b: seq<nat>, i: nat)
    ensures Count(a + b, i) == Count(a, i) + Count(b, i)
  {
    if b == [] {
      assert a + b == a;
    } else {
      CountConcat(a, b[..|b| - 1], i);
      assert (a + b)[..|a + b| - 1] == a + b[..|b| - 1];
    }
  }

  /** Any W consecutive selections, at any point of a run from zero scores, choose candidate i exactly
      w_i times; a whole round returns every score to zero. */
  lemma AnyWindowIsFair(weights: seq<int>, t: nat, i: nat)
    requires Positive(weights) && i < |weights|
    ensures Total(weights) > 0
    ensures Count(Picks(weights, Zeros(|weights|), t + Total(weights))[t..], i) == weights[i]
    ensures After(weights, Zeros(|weights|), Total(weights)) == Zeros(|weights|)
  {
    hide Total, After, Picks, Count;
    TotalPositive(weights, i);
    var w, zeros := Total(weights), Zeros(|weights|);
    RoundIsFair(weights, i);
    var all := Picks(weights, zeros, t + w);
    PicksSplit(weights, zeros, w, t);
    PicksSplit(weights, zeros, t, w);
    assert w + t == t + w;
    CountConcat(Picks(weights, zeros, w), Picks(weights, zeros, t), i);
    CountConcat(Picks(weights, zeros, t), all[t..], i);
  }

  /** The same inside any longer run. */
  lemma {:induction false} WindowInRunIsFair(weights: seq<int>, n: nat, t: nat, i: nat)
    requires Positive(weights) && i < |weights| && 0 <= Total(weights) && t + Total(weights) <= n
    ensures Count(Picks(weights, Zeros(|weights|), n)[t..t + Total(weights)], i) == weights[i]
  {
    hide Total, After, Picks, Count;
    var w, zeros := Total(weights), Zeros(|weights|);
    PicksSplit(weights, zeros, t + w, n - (t + w));
    assert Picks(weights, zeros, n)[t..t + w] == Picks(weights, zeros, t + w)[t..];
    AnyWindowIsFair(weights, t, i);
  }
}
