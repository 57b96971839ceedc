/**
 Split-conformal prediction sets (`inference/calibration.py`). The coverage guarantee is stated by
 counting: among n + 1 samples, calibrate on each leave-one-out set and count the samples whose true
 label lands in their own set.
 */
module ConformalSets {
  import opened Numerics
  import opened OrderStatistics

  datatype LabelledRow = LabelledRow(probs: seq<real>, truth: nat)

  type Sample = x: LabelledRow | x.truth < |x.probs| witness LabelledRow([0.0], 0)

  type Probs = p: seq<real> | p != [] witness [0.0]

  function Score(x: Sample): real {
    1.0 - x.probs[x.truth]
  }

  function Scores(cal: seq<Sample>): (r: seq<real>)
    ensures |r| == |cal|
  {
    seq(|cal|, i requires 0 <= i < |cal| => Score(cal[i]))
  }

  function Target(size: nat, coverage: real): real {
    size as real * coverage
  }

  /** The rank that n calibration scores have to reach: `ceil((n + 1) * (1 - alpha))`. */
  function Rank(n: nat, coverage: real): int {
    var alpha := 1.0 - coverage;
    Ceil(Target(n + 1, 1.0 - alpha))
  }

  function Level(n: nat, coverage: real): real
    requires n > 0
  {
    var raw := Rank(n, coverage) as real / n as real;
    if raw < 1.0 then raw else 1.0
  }

  lemma RankRange(n: nat, coverage: real)
    requires 0.0 < coverage < 1.0
    ensures 1 <= Rank(n, coverage) <= n + 1
    ensures Rank(n, coverage) as real >= Target(n + 1, coverage)
    ensures Rank(n, coverage) <= n <==> Target(n + 1, coverage) <= n as real
  {
    assert 1.0 - (1.0 - coverage) == coverage;
    assert coverage * (n + 1) as real > 0.0;
    MulMonotone(coverage, 1.0, (n + 1) as real);
  }

  /** The clamp turns the requested rank into the rank that is actually reached. */
  lemma LevelIsRank(n: nat, coverage: real)
    requires n > 0 && 0.0 < coverage < 1.0
    ensures Level(n, coverage) == Min(Rank(n, coverage), n) as real / n as real
  {
    RankRange(n, coverage);
    var k := Rank(n, coverage);
    if k >= n {
      DivMonotone(n as real, k as real, n as real);
    } else if k as real / n as real >= 1.0 {
      MulMonotone(1.0, k as real / n as real, n as real);
    }
  }

  /** The calibrated score bound; a class belongs to the set when its probability reaches 1 - Bound. */
  function Bound(cal: seq<Sample>, coverage: real): real
    requires cal != [] && 0.0 < coverage < 1.0
  {
    LevelIsRank(|cal|, coverage);
    RankRange(|cal|, coverage);
    RankPosition(|cal|, Min(Rank(|cal|, coverage), |cal|));
    Quantile(Scores(cal), Level(|cal|, coverage))
  }

  function PredictionSet(cal: seq<Sample>, coverage: real, p: Probs): set<nat>
    requires 0.0 < coverage < 1.0
  {
    if cal == [] then {ArgMax(p)} else
      var threshold := 1.0 - Bound(cal, coverage);
      var members := set c: nat | 0 <= c < |p| && p[c] >= threshold;
      if members == {} then {ArgMax(p)} else members
  }

  /** The sets for all test rows, or the source's error on a coverage outside (0, 1). */
  method ConformalPredictionSets(cal: seq<Sample>, tests: seq<Probs>, coverage: real)
    returns (r: Result<seq<set<nat>>>)
    ensures r.Ok? <==> 0.0 < coverage < 1.0
    ensures r.Ok? ==> |r.value| == |tests|
    ensures r.Ok? ==> forall i :: 0 <= i < |tests| ==> r.value[i] == PredictionSet(cal, coverage, tests[i])
  {
    if !(0.0 < coverage < 1.0) {
      return Err("coverage must be in (0, 1)");
    }
    var out: seq<set<nat>> := [];
    for i := 0 to |tests|
      invariant |out| == i
      invariant forall j :: 0 <= j < i ==> out[j] == PredictionSet(cal, coverage, tests[j])
    {
      if cal == [] {
        out := out + [{ArgMax(tests[i])}];
      } else {
        var p := tests[i];
        var threshold := 1.0 - Bound(cal, coverage);
        var members := set c: nat | 0 <= c < |p| && p[c] >= threshold;
        out := out + [if members == {} then {ArgMax(p)} else members];
      }
    }
    r := Ok(out);
  }

  /** Exact membership: a class is in the set iff it clears the threshold or is the top choice. */
  lemma MembershipExact(cal: seq<Sample>, coverage: real, p: Probs, c: nat)
    requires 0.0 < coverage < 1.0 && c < |p|
    ensures c in PredictionSet(cal, coverage, p)
       <==> c == ArgMax(p) || (cal != [] && 1.0 - p[c] <= Bound(cal, coverage))
  {
    if cal != [] {
      var threshold := 1.0 - Bound(cal, coverage);
      var members := set d: nat | 0 <= d < |p| && p[d] >= threshold;
      if members != {} {
        var d :| d in members;
        assert p[d] <= p[ArgMax(p)];
        assert ArgMax(p) in members;
      } else {
        assert c !in members;
      }
    }
  }

  lemma RankIs(n: nat, coverage: real, k: int)
    requires (k - 1) as real < (n + 1) as real * coverage <= k as real
    ensures Rank(n, coverage) == k
  {
    assert 1.0 - (1.0 - coverage) == coverage;
  }

  lemma RankLevel(n: real, n': real, k: real, k': real, q: real)
    requires n' == n - 1.0 && k' == k - 1.0 && 1.0 <= k <= n && q * n == k
    ensures q * n' == k' + (1.0 - q)
    ensures 0.0 < q <= 1.0
  {
    if q <= 0.0 {
      MulMonotone(q, 0.0, n);
    }
    if q > 1.0 {
      MulStrict(1.0, q, n);
    }
  }

  lemma Times(x: real, d: real, q: real)
    requires d > 0.0 && q == x / d
    ensures q * d == x
  {
  }

  function Multiple(n: nat, x: real): real {
    n as real * x
  }

  /** k parts of x and `rest` parts of y. */
  function Parts(k: nat, x: real, rest: nat, y: real): real {
    k as real * x + rest as real * y
  }

  lemma PartsOf(n: nat, k: nat, q: real, x: real, y: real, bound: real)
    requires k <= n && q * n as real == k as real && bound == Mix(x, y, 1.0 - q)
    ensures Multiple(n, bound) == Parts(k, x, n - k, y)
  {
    ScaledMix(q, n as real, k as real, (n - k) as real, x, y, bound);
  }

  lemma ScaledMix(q: real, n: real, k: real, rest: real, x: real, y: real, bound: real)
    requires q * n == k && rest == n - k && bound == Mix(x, y, 1.0 - q)
    ensures n * bound == k * x + rest * y
  {
    assert bound == q * x + (1.0 - q) * y;
    assert n * (q * x) == q * n * x;
    assert n * ((1.0 - q) * y) == n * y - q * n * y;
  }

  /** n times the value the quantile interpolates between the r-th and the next entry. */
  lemma PartsAtRank(n: nat, r: nat, q: real, x: real, y: real, bound: real)
    requires 1 <= r < n && q * n as real == r as real && bound == Mix(x, y, 1.0 - q)
    ensures Multiple(n, bound) == Parts(r, x, n - r, y)
  {
    PartsOf(n, r, q, x, y, bound);
  }

  lemma PositionAtRank(n: nat, r: nat, q: real)
    requires 1 <= r <= n && q * n as real == r as real
    ensures 0.0 < q <= 1.0
    ensures q * (n - 1) as real == (r - 1) as real + (1.0 - q)
  {
    RankLevel(n as real, (n - 1) as real, r as real, (r - 1) as real, q);
  }

  /** The bound between the k-th and the next smallest score, k parts in n of the way towards the former. */
  lemma BoundIs(cal: seq<Sample>, coverage: real, k: int)
    requires cal != [] && 0.0 < coverage < 1.0
    requires (k - 1) as real < (|cal| + 1) as real * coverage <= k as real
    ensures 1 <= k
    ensures var n, t := |cal|, Sort(Scores(cal));
      if k < n then Multiple(n, Bound(cal, coverage)) == Parts(k, t[k - 1], n - k, t[k])
      else Bound(cal, coverage) == t[n - 1]
  {
    RankIs(|cal|, coverage, k);
    BoundAtRank(cal, coverage, k);
  }

  lemma BoundAtRank(cal: seq<Sample>, coverage: real, k: int)
    requires cal != [] && 0.0 < coverage < 1.0 && k == Rank(|cal|, coverage)
    ensures 1 <= k
    ensures var n, t := |cal|, Sort(Scores(cal));
      if k < n then Multiple(n, Bound(cal, coverage)) == Parts(k, t[k - 1], n - k, t[k])
      else Bound(cal, coverage) == t[n - 1]
  {
    var n, t, r := |cal|, Sort(Scores(cal)), Min(k, |cal|);
    var q := LevelAt(n, coverage, k);
    PositionAtRank(n, r, q);
    var bound := QuantileBetween(Scores(cal), q, r - 1, 1.0 - q);
    if k < n {
      PartsAtRank(n, r, q, t[k - 1], t[k], bound);
    }
  }

  lemma LevelAt(n: nat, coverage: real, k: int) returns (q: real)
    requires n > 0 && 0.0 < coverage < 1.0 && k == Rank(n, coverage)
    ensures 1 <= k && q == Level(n, coverage) && q * n as real == Min(k, n) as real
  {
    RankRange(n, coverage);
    LevelIsRank(n, coverage);
    q := Level(n, coverage);
    Times(Min(k, n) as real, n as real, q);
  }

  /** The scores, spelled out. */
  lemma ScoresAre(cal: seq<Sample>)
    ensures Scores(cal) == seq(|cal|, i requires 0 <= i < |cal| => 1.0 - cal[i].probs[cal[i].truth])
  {
  }

  /**
   Membership spelled out on n calibration rows, k being (n + 1) * coverage rounded up: a class other than the
   top choice is in the set exactly if n times its score is at most k times the k-th smallest calibration score
   plus n - k times the next one, or, for k >= n, if its score is at most the largest one.
   */
  lemma MembershipInterpolated(cal: seq<Sample>, coverage: real, p: Probs, c: nat, k: nat)
    requires cal != [] && 0.0 < coverage < 1.0 && c < |p|
    requires (k - 1) as real < (|cal| + 1) as real * coverage <= k as real
    ensures var n := |cal|;
      var t := Sort(seq(n, i requires 0 <= i < n => 1.0 - cal[i].probs[cal[i].truth]));
      && 1 <= k && |t| == n
      && (c in PredictionSet(cal, coverage, p) <==>
            || (forall d :: 0 <= d < |p| ==> if d < c then p[d] < p[c] else p[d] <= p[c])
            || (if k < n then n as real * (1.0 - p[c]) <= k as real * t[k - 1] + (n - k) as real * t[k]
                else 1.0 - p[c] <= t[n - 1]))
  {
    ScoresAre(cal);
    MembershipAtRank(cal, coverage, p, c, k);
  }

  lemma MembershipAtRank(cal: seq<Sample>, coverage: real, p: Probs, c: nat, k: nat)
    requires cal != [] && 0.0 < coverage < 1.0 && c < |p|
    requires (k - 1) as real < (|cal| + 1) as real * coverage <= k as real
    ensures 1 <= k
    ensures c in PredictionSet(cal, coverage, p) <==>
            || (forall d :: 0 <= d < |p| ==> if d < c then p[d] < p[c] else p[d] <= p[c])
            || WithinParts(|cal|, Sort(Scores(cal)), k, 1.0 - p[c])
  {
    BoundIs(cal, coverage, k);
    MembershipExact(cal, coverage, p, c);
    IsArgMax(p, c);
    WithinBound(|cal|, Sort(Scores(cal)), k, 1.0 - p[c], Bound(cal, coverage));
  }

  predicate WithinParts(n: nat, t: seq<real>, k: nat, score: real)
    requires |t| == n > 0 && 1 <= k
  {
    if k < n then n as real * score <= k as real * t[k - 1] + (n - k) as real * t[k] else score <= t[n - 1]
  }

  lemma WithinBound(n: nat, t: seq<real>, k: nat, score: real, bound: real)
    requires |t| == n > 0 && 1 <= k
    requires if k < n then Multiple(n, bound) == Parts(k, t[k - 1], n - k, t[k]) else bound == t[n - 1]
    ensures score <= bound <==> WithinParts(n, t, k, score)
  {
    if k < n {
      ScaledOrder(n as real, score, bound);
    }
  }

  lemma IsArgMax(p: Probs, c: nat)
    requires c < |p|
    ensures c == ArgMax(p) <==> forall d :: 0 <= d < |p| ==> if d < c then p[d] < p[c] else p[d] <= p[c]
  {
    var m := ArgMax(p);
    if forall d :: 0 <= d < |p| ==> if d < c then p[d] < p[c] else p[d] <= p[c] {
      assert p[m] <= p[c] <= p[m];
    }
  }

  lemma ScaledOrder(n: real, x: real, y: real)
    requires n > 0.0
    ensures n * x <= n * y <==> x <= y
  {
    if x <= y {
      MulMonotone(x, y, n);
    } else {
      MulStrict(y, x, n);
    }
  }

  /** Asking for more coverage never removes a class from any set. */
  lemma SetsNestInCoverage(cal: seq<Sample>, coverage: real, coverage': real, p: Probs)
    requires 0.0 < coverage <= coverage' < 1.0
    ensures PredictionSet(cal, coverage, p) <= PredictionSet(cal, coverage', p)
  {
    if cal != [] {
      BoundMonotone(cal, coverage, coverage');
    }
    forall c | c in PredictionSet(cal, coverage, p) ensures c in PredictionSet(cal, coverage', p) {
      MembershipExact(cal, coverage, p, c);
      MembershipExact(cal, coverage', p, c);
    }
  }

  lemma RankMonotone(n: nat, coverage: real, coverage': real)
    requires 0.0 < coverage <= coverage' < 1.0
    ensures Rank(n, coverage) <= Rank(n, coverage')
  {
    assert Target(n + 1, coverage) <= Target(n + 1, coverage') by {
      MulMonotone(coverage, coverage', (n + 1) as real);
    }
    assert 1.0 - (1.0 - coverage) == coverage && 1.0 - (1.0 - coverage') == coverage';
  }

  lemma LevelMonotone(n: nat, coverage: real, coverage': real)
    requires n > 0 && 0.0 < coverage <= coverage' < 1.0
    ensures 0.0 <= Level(n, coverage) <= Level(n, coverage') <= 1.0
  {
    RankMonotone(n, coverage, coverage');
    RankRange(n, coverage);
    DivMonotone(0.0, Rank(n, coverage) as real, n as real);
    DivMonotone(Rank(n, coverage) as real, Rank(n, coverage') as real, n as real);
  }

  lemma BoundMonotone(cal: seq<Sample>, coverage: real, coverage': real)
    requires cal != [] && 0.0 < coverage <= coverage' < 1.0
    ensures Bound(cal, coverage) <= Bound(cal, coverage')
  {
    LevelMonotone(|cal|, coverage, coverage');
    QuantileMonotone(Scores(cal), Level(|cal|, coverage), Level(|cal|, coverage'));
  }

  ghost predicate Covered(data: seq<Sample>, coverage: real, i: nat)
    requires 0.0 < coverage < 1.0 && i < |data|
  {
    data[i].truth in PredictionSet(RemoveAt(data, i), coverage, data[i].probs)
  }

  /** Samples from position i on whose label is in the set calibrated on all the others. */
  ghost function CoveredFrom(data: seq<Sample>, coverage: real, i: nat): nat
    requires 0.0 < coverage < 1.0 && i <= |data|
    decreases |data| - i
  {
    if i == |data| then 0
    else (if Covered(data, coverage, i) then 1 else 0) + CoveredFrom(data, coverage, i + 1)
  }

  /** The order statistic of the others moves at most one place when a sample is left out. */
  lemma LeaveOneOutBound(data: seq<Sample>, coverage: real, i: nat)
    requires |data| >= 2 && 0.0 < coverage < 1.0 && i < |data|
    ensures 1 <= Rank(|data| - 1, coverage)
    ensures var k, s := Min(Rank(|data| - 1, coverage), |data| - 1), Scores(data);
            var q := Bound(RemoveAt(data, i), coverage);
            && Sort(s)[k - 1] <= q
            && (s[i] <= q ==> s[i] <= Sort(s)[Min(k, |data| - 2)])
  {
    var n, s, others := |data| - 1, Scores(data), RemoveAt(data, i);
    RankRange(n, coverage);
    LevelIsRank(n, coverage);
    var k := Min(Rank(n, coverage), n);
    var u := RemoveAt(s, i);
    assert Scores(others) == u;
    QuantileBracket(u, k, Level(n, coverage));
    var low, m := Sort(u)[k - 1], Min(k, n - 1);
    KthSmallest(u, k - 1, low);
    CountRemoveAt(s, i, low);
    KthSmallest(s, k - 1, low);
    if s[i] > Sort(s)[m] {
      RemovedAbove(s, i, m);
    }
  }

  /** Taking out a value above the m-th smallest does not raise the m-th smallest. */
  lemma RemovedAbove(s: seq<real>, i: nat, m: nat)
    requires i < |s| && m < |s| - 1 && s[i] > Sort(s)[m]
    ensures |Sort(RemoveAt(s, i))| == |s| - 1 && Sort(RemoveAt(s, i))[m] <= Sort(s)[m]
  {
    var high := Sort(s)[m];
    KthSmallest(s, m, high);
    CountRemoveAt(s, i, high);
    KthSmallest(RemoveAt(s, i), m, high);
  }

  lemma {:induction false} CountCoveredBelow(data: seq<Sample>, coverage: real, i: nat, low: real)
    requires 0.0 < coverage < 1.0 && i <= |data|
    requires forall j :: 0 <= j < |data| && Scores(data)[j] <= low ==> Covered(data, coverage, j)
    ensures CountAtMost(Scores(data)[i..], low) <= CoveredFrom(data, coverage, i)
    decreases |data| - i
  {
    var s := Scores(data);
    if i < |data| {
      assert s[i..][1..] == s[i + 1..] && s[i..][0] == s[i];
      CountCoveredBelow(data, coverage, i + 1, low);
    }
  }

  lemma {:induction false} CountCoveredAbove(data: seq<Sample>, coverage: real, i: nat, high: real)
    requires 0.0 < coverage < 1.0 && i <= |data|
    requires forall j :: 0 <= j < |data| && Covered(data, coverage, j) ==> Scores(data)[j] <= high
    ensures CoveredFrom(data, coverage, i) <= CountAtMost(Scores(data)[i..], high)
    decreases |data| - i
  {
    var s := Scores(data);
    if i < |data| {
      assert s[i..][1..] == s[i + 1..] && s[i..][0] == s[i];
      CountCoveredAbove(data, coverage, i + 1, high);
    }
  }

  /** Finite-sample coverage: at least `min(ceil((n+1) c), n)` of the n + 1 labels are covered. */
  lemma CoverageAtLeastRank(data: seq<Sample>, coverage: real)
    requires |data| >= 2 && 0.0 < coverage < 1.0
    ensures CoveredFrom(data, coverage, 0) >= Min(Rank(|data| - 1, coverage), |data| - 1)
  {
    var n, s := |data| - 1, Scores(data);
    RankRange(n, coverage);
    var k := Min(Rank(n, coverage), n);
    var low := Sort(s)[k - 1];
    forall j | 0 <= j < |data| && s[j] <= low ensures Covered(data, coverage, j) {
      LeaveOneOutBound(data, coverage, j);
      MembershipExact(RemoveAt(data, j), coverage, data[j].probs, data[j].truth);
    }
    CountCoveredBelow(data, coverage, 0, low);
    KthSmallest(s, k - 1, low);
    assert s[0..] == s;
  }

  /**
   And the sets are not needlessly large: when no label is covered just for being the top choice, the
   covered labels are among the scores up to the next order statistic (one more than the rank, without
   ties).
   */
  lemma CoverageAtMostNextRank(data: seq<Sample>, coverage: real)
    requires |data| >= 2 && 0.0 < coverage < 1.0
    requires forall i :: 0 <= i < |data| ==> data[i].truth != ArgMax(data[i].probs)
    ensures 1 <= Rank(|data| - 1, coverage)
    ensures CoveredFrom(data, coverage, 0)
         <= CountAtMost(Scores(data), Sort(Scores(data))[Min(Rank(|data| - 1, coverage), |data| - 2)])
  {
    var n, s := |data| - 1, Scores(data);
    RankRange(n, coverage);
    var high := Sort(s)[Min(Rank(n, coverage), n - 1)];
    forall j | 0 <= j < |data| && Covered(data, coverage, j) ensures s[j] <= high {
      LeaveOneOutBound(data, coverage, j);
      MembershipExact(RemoveAt(data, j), coverage, data[j].probs, data[j].truth);
    }
    CountCoveredAbove(data, coverage, 0, high);
    assert s[0..] == s;
  }

  /** The documented promise: a fraction of at least `coverage` of the samples is covered. */
  ghost predicate MeetsNominal(data: seq<Sample>, coverage: real)
    requires 0.0 < coverage < 1.0
  {
    CoveredFrom(data, coverage, 0) as real >= Target(|data|, coverage)
  }

  lemma {:induction false} MissesOne(data: seq<Sample>, coverage: real, i: nat, missed: nat)
    requires 0.0 < coverage < 1.0 && i <= |data| && missed < |data|
    requires !Covered(data, coverage, missed)
    ensures CoveredFrom(data, coverage, i) <= |data| - i - (if i <= missed then 1 else 0)
    decreases |data| - i
  {
    if i < |data| {
      MissesOne(data, coverage, i + 1, missed);
    }
  }

  /** n samples that share one score and a last one whose label is less likely than all of theirs. */
  function Outlier(n: nat): (data: seq<Sample>)
    ensures |data| == n + 1
  {
    seq(n, _ => LabelledRow([0.4, 0.6], 0)) + [LabelledRow([0.2, 0.8], 0)]
  }

  lemma {:induction false} AllAtMost(s: seq<real>, x: real)
    requires forall i :: 0 <= i < |s| ==> s[i] <= x
    ensures CountAtMost(s, x) == |s|
  {
    if s != [] {
      AllAtMost(s[1..], x);
    }
  }

  lemma OutlierIsMissed(n: nat, coverage: real)
    requires 0.0 < coverage < 1.0
    ensures !Covered(Outlier(n), coverage, n)
  {
    var data := Outlier(n);
    var others := RemoveAt(data, n);
    assert ArgMax([0.2, 0.8]) == 1;
    if n > 0 {
      RankRange(n, coverage);
      LevelIsRank(n, coverage);
      var k, u := Min(Rank(n, coverage), n), Scores(others);
      QuantileBracket(u, k, Level(n, coverage));
      AllAtMost(u, 0.6);
      KthSmallest(u, Min(k, n - 1), 0.6);
    }
    MembershipExact(others, coverage, data[n].probs, 0);
  }

  lemma NominalWhenRankExists(data: seq<Sample>, coverage: real, n: nat)
    requires |data| == n + 1 && 0.0 < coverage < 1.0
    requires Target(n + 1, coverage) <= n as real
    ensures MeetsNominal(data, coverage)
  {
    RankRange(n, coverage);
    var k := Rank(n, coverage);
    assert 1 <= k <= n && CoveredFrom(data, coverage, 0) >= k by {
      CoverageAtLeastRank(data, coverage);
    }
  }

  lemma OutlierBreaksNominal(n: nat, coverage: real)
    requires 0.0 < coverage < 1.0 && Target(n + 1, coverage) > n as real
    ensures !MeetsNominal(Outlier(n), coverage)
  {
    var data := Outlier(n);
    assert CoveredFrom(data, coverage, 0) <= n by {
      OutlierIsMissed(n, coverage);
      MissesOne(data, coverage, 0, n);
    }
    assert Target(|data|, coverage) > n as real;
  }

  /**
   The promise holds for every data set of n + 1 samples exactly when the requested rank exists among
   the n calibration scores, that is, when the `min(1.0, ...)` clamp does not cut it down.
   */
  lemma NominalCoverageIff(n: nat, coverage: real)
    requires 0.0 < coverage < 1.0
    ensures (forall data: seq<Sample> :: |data| == n + 1 ==> MeetsNominal(data, coverage))
       <==> Target(n + 1, coverage) <= n as real
  {
    if Target(n + 1, coverage) <= n as real {
      forall data: seq<Sample> | |data| == n + 1 ensures MeetsNominal(data, coverage) {
        NominalWhenRankExists(data, coverage, n);
      }
    } else {
      OutlierBreaksNominal(n, coverage);
    }
  }
}
