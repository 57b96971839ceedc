/**
 Expected calibration error (`eval/metrics.py`) and its per-atom binary form (`eval/diagnostic_eval.py`).
 Both bin samples by a confidence and compare it with an observed value of 0 or 1.
 */
module CalibrationError {
  import opened Numerics

  /** A sample: the predicted confidence and what was observed (1 for a hit). */
  datatype Sample = Sample(confidence: real, observed: real)

  ghost predicate Calibratable(s: seq<Sample>) {
    forall i :: 0 <= i < |s| ==> 0.0 <= s[i].confidence <= 1.0 && 0.0 <= s[i].observed <= 1.0
  }

  /** `linspace(0, 1, n + 1)[i]`. */
  function Edge(i: int, n: nat): real
    requires n > 0
  {
    i as real / n as real
  }

  /** The mask of bin i: right-open, except that the last bin includes 1. */
  predicate InBin(c: real, i: int, n: nat)
    requires n > 0
  {
    Edge(i, n) <= c && if i == n - 1 then c <= Edge(i + 1, n) else c < Edge(i + 1, n)
  }

  function Members(s: seq<Sample>, i: int, n: nat): seq<Sample>
    requires n > 0
  {
    if s == [] then []
    else (if InBin(s[0].confidence, i, n) then [s[0]] else []) + Members(s[1..], i, n)
  }

  function Confidences(s: seq<Sample>): (r: seq<real>)
    ensures |r| == |s|
  {
    seq(|s|, i requires 0 <= i < |s| => s[i].confidence)
  }

  function Observations(s: seq<Sample>): (r: seq<real>)
    ensures |r| == |s|
  {
    seq(|s|, i requires 0 <= i < |s| => s[i].observed)
  }

  /** The contribution of one bin: its weight times the gap between its two means. */
  function Term(members: seq<Sample>, total: nat): real
    requires total > 0
  {
    if members == [] then 0.0
    else |members| as real / total as real * Abs(Mean(Confidences(members)) - Mean(Observations(members)))
  }

  function BinnedError(s: seq<Sample>, n: nat, bins: nat): real
    requires s != [] && n > 0
  {
    if bins == 0 then 0.0 else BinnedError(s, n, bins - 1) + Term(Members(s, bins - 1, n), |s|)
  }

  /** Expected calibration error with n bins; no samples, no error. */
  function Ece(s: seq<Sample>, n: nat): real
    requires n > 0
  {
    if s == [] then 0.0 else BinnedError(s, n, n)
  }

  method ComputeEce(s: seq<Sample>, n: nat) returns (ece: real)
    requires n > 0
    ensures ece == Ece(s, n)
  {
    ece := 0.0;
    if s == [] {
      return;
    }
    for i := 0 to n
      invariant ece == BinnedError(s, n, i)
    {
      var bucket := Members(s, i, n);
      if bucket == [] {
        continue;
      }
      ece := ece + Term(bucket, |s|);
    }
  }

  /** `expected_calibration_error`: top-1 confidence against top-1 correctness. */
  method ExpectedCalibrationError(probs: seq<seq<real>>, labels: seq<int>, nBins: int) returns (r: Result<real>)
    requires forall i :: 0 <= i < |probs| ==> probs[i] != []
    ensures r.Ok? <==> |labels| == |probs| && nBins >= 1
    ensures r.Ok? ==> r.value == Ece(TopChoices(probs, labels), nBins)
  {
    if |labels| != |probs| {
      return Err("probs and labels must agree on N");
    }
    if nBins < 1 {
      return Err("n_bins must be >= 1");
    }
    var ece := ComputeEce(TopChoices(probs, labels), nBins);
    r := Ok(ece);
  }

  function TopChoices(probs: seq<seq<real>>, labels: seq<int>): (r: seq<Sample>)
    requires |labels| == |probs| && forall i :: 0 <= i < |probs| ==> probs[i] != []
    ensures |r| == |probs|
  {
    seq(|probs|, i requires 0 <= i < |probs| =>
      var top := ArgMax(probs[i]);
      Sample(probs[i][top], if top == labels[i] then 1.0 else 0.0))
  }

  /** The sample of a row: its largest probability, and a hit exactly if the label is the first column to have it. */
  lemma TopChoicesAre(probs: seq<seq<real>>, labels: seq<int>, i: nat)
    requires |labels| == |probs| && i < |probs| && forall j :: 0 <= j < |probs| ==> probs[j] != []
    ensures var row, sample := probs[i], TopChoices(probs, labels)[i];
      && sample.confidence in row && (forall j :: 0 <= j < |row| ==> row[j] <= sample.confidence)
      && var hit := 0 <= labels[i] < |row| && row[labels[i]] == sample.confidence
                    && forall j :: 0 <= j < labels[i] ==> row[j] < sample.confidence;
         sample.observed == if hit then 1.0 else 0.0
  {
    var top := ArgMax(probs[i]);
    assert probs[i][top] in probs[i];
  }

  /** `binary_ece`: the positive-class probability against the 0/1 label. */
  method BinaryEce(probs: seq<real>, labels: seq<int>, nBins: int) returns (r: Result<real>)
    ensures r.Ok? <==> |labels| == |probs| && nBins >= 1
    ensures r.Ok? ==> r.value == Ece(Positives(probs, labels), nBins)
  {
    if |labels| != |probs| {
      return Err("probs and labels must have the same shape");
    }
    if nBins < 1 {
      return Err("n_bins must be >= 1");
    }
    var ece := ComputeEce(Positives(probs, labels), nBins);
    r := Ok(ece);
  }

  function Positives(probs: seq<real>, labels: seq<int>): (r: seq<Sample>)
    requires |labels| == |probs|
    ensures |r| == |probs|
  {
    seq(|probs|, i requires 0 <= i < |probs| => Sample(probs[i], labels[i] as real))
  }

  lemma PositivesAre(probs: seq<real>, labels: seq<int>, i: nat)
    requires |labels| == |probs| && i < |probs|
    ensures Positives(probs, labels)[i].confidence == probs[i]
    ensures Positives(probs, labels)[i].observed == labels[i] as real
  {
  }

  // ---- Bins -------------------------------------------------------------------------------------------

  /** The one bin of a confidence in [0, 1]. */
  function BinOf(c: real, n: nat): int {
    Min((c * n as real).Floor, n - 1)
  }

  lemma EdgeCompare(c: real, i: int, n: nat)
    requires n > 0
    ensures Edge(i, n) <= c <==> i as real <= c * n as real
  {
    EdgeTimes(i as real, n as real, Edge(i, n));
    ScaledCompare(Edge(i, n), c, n as real);
  }

  lemma EdgeTimes(x: real, d: real, e: real)
    requires d > 0.0 && e == x / d
    ensures e * d == x
  {
  }

  lemma ScaledCompare(x: real, y: real, d: real)
    requires d > 0.0
    ensures x <= y <==> x * d <= y * d
  {
    if x <= y {
      MulMonotone(x, y, d);
    } else {
      MulStrict(y, x, d);
    }
  }

  /** The bins partition [0, 1]: every confidence is in exactly the bin its scaled floor names. */
  lemma BinsPartition(c: real, i: int, n: nat)
    requires n > 0 && 0.0 <= c <= 1.0 && 0 <= i < n
    ensures 0 <= BinOf(c, n) < n
    ensures InBin(c, i, n) <==> i == BinOf(c, n)
  {
    var x := ScaledConfidence(c, n);
    BinOfScaled(c, n, x);
    InBinScaled(c, i, n, x);
    FloorPartition(x, i, n);
  }

  lemma ScaledConfidence(c: real, n: nat) returns (x: real)
    requires n > 0 && 0.0 <= c <= 1.0
    ensures x == c * n as real && 0.0 <= x <= n as real
  {
    x := c * n as real;
    MulMonotone(0.0, c, n as real);
    MulMonotone(c, 1.0, n as real);
  }

  lemma InBinScaled(c: real, i: int, n: nat, x: real)
    requires n > 0 && c <= 1.0 && 0 <= i < n && x == c * n as real
    ensures InBin(c, i, n) <==> i as real <= x && (i == n - 1 || x < (i + 1) as real)
  {
    EdgeCompare(c, i, n);
    EdgeCompare(c, i + 1, n);
    if i == n - 1 {
      TopEdge(c, n);
    }
  }

  lemma FloorPartition(x: real, i: int, n: nat)
    requires 0.0 <= x <= n as real && 0 <= i < n
    ensures 0 <= Min(x.Floor, n - 1) < n
    ensures i as real <= x && (i == n - 1 || x < (i + 1) as real) <==> i == Min(x.Floor, n - 1)
  {
  }

  lemma TopEdge(c: real, n: nat)
    requires n > 0 && c <= 1.0
    ensures c <= Edge(n, n)
  {
    assert Edge(n, n) == 1.0;
  }

  /** n * m bins refine n bins: fine bin f lies inside coarse bin f / m. */
  lemma FineInsideCoarse(c: real, n: nat, m: nat)
    requires n > 0 && m > 0 && 0.0 <= c <= 1.0
    ensures n * m > 0 && BinOf(c, n * m) / m == BinOf(c, n)
  {
    IntMul(1, n, m);
    FineBins(c, n, m, n * m);
  }

  lemma FineBins(c: real, n: nat, m: nat, fine: nat)
    requires n > 0 && m > 0 && 0.0 <= c <= 1.0 && fine == n * m
    ensures BinOf(c, fine) / m == BinOf(c, n)
  {
    var x, y := ScaledProduct(c, n, m, fine);
    BinOfScaled(c, n, x);
    BinOfScaled(c, fine, y);
    FineBin(x, y, n, m, fine, BinOf(c, fine), BinOf(c, n));
  }

  lemma BinOfScaled(c: real, n: nat, x: real)
    requires x == c * n as real
    ensures BinOf(c, n) == Min(x.Floor, n - 1)
  {
  }

  lemma FineBin(x: real, y: real, n: nat, m: nat, fine: nat, f: int, k: int)
    requires n > 0 && m > 0 && 0.0 <= x && y == x * m as real && fine == n * m
    requires f == Min(y.Floor, fine - 1) && k == Min(x.Floor, n - 1)
    ensures f / m == k
  {
    FloorScales(x, y, m);
    DivOfMin(y.Floor, n, m, fine);
  }

  lemma ScaledProduct(c: real, n: nat, m: nat, fine: nat) returns (x: real, y: real)
    requires fine == n * m && 0.0 <= c
    ensures x == c * n as real && y == c * fine as real && y == x * m as real && 0.0 <= x
  {
    x, y := c * n as real, c * fine as real;
    MulMonotone(0.0, c, n as real);
    ProductAsReal(n, m);
    Regroup(c, n as real, m as real);
  }

  lemma Regroup(c: real, x: real, y: real)
    ensures c * (x * y) == c * x * y
  {
  }

  lemma ProductAsReal(a: int, b: int)
    ensures (a * b) as real == a as real * b as real
  {
  }

  lemma ScaledBetween(x: real, lo: int, hi: int, m: nat)
    requires lo as real <= x < hi as real && m > 0
    ensures (lo * m) as real <= x * m as real < (hi * m) as real
  {
    MulMonotone(lo as real, x, m as real);
    MulStrict(x, hi as real, m as real);
    ProductAsReal(lo, m);
    ProductAsReal(hi, m);
  }

  lemma FloorScales(x: real, y: real, m: nat)
    requires 0.0 <= x && m > 0 && y == x * m as real
    ensures y.Floor / m == x.Floor
  {
    var k := x.Floor;
    ScaledBetween(x, k, k + 1, m);
    DivUnique(y.Floor, k, m);
  }

  lemma OneMore(k: int, m: nat)
    ensures (k + 1) * m == k * m + m
  {
  }

  lemma {:induction false} IntMul(a: int, b: int, m: nat)
    requires a <= b
    ensures a * m <= b * m
    decreases b - a
  {
    if a < b {
      IntMul(a, b - 1, m);
      OneMore(b - 1, m);
    }
  }

  lemma DivUnique(f: int, k: int, m: nat)
    requires m > 0 && k * m <= f < (k + 1) * m
    ensures f / m == k
  {
    var q := f / m;
    DivBounds(f, m);
    if q < k {
      IntMul(q + 1, k, m);
    } else if q > k {
      IntMul(k + 1, q, m);
    }
  }

  lemma DivBounds(f: int, m: nat)
    requires m > 0
    ensures f / m * m <= f < (f / m + 1) * m
  {
    var q, r := f / m, f % m;
    assert f == q * m + r;
    OneMore(q, m);
  }

  lemma DivOfMin(f: int, n: nat, m: nat, top: int)
    requires n > 0 && m > 0 && top == n * m
    ensures Min(f, top - 1) / m == Min(f / m, n - 1)
  {
    var q := f / m;
    DivBounds(f, m);
    if f < top {
      if q >= n {
        IntMul(n, q, m);
      }
    } else {
      OneMore(n - 1, m);
      DivUnique(top - 1, n - 1, m);
      if q < n {
        IntMul(q + 1, n, m);
      }
    }
  }

  // ---- The gap inside one bin, free of divisions ---------------------------------------------------

  function Drift(s: seq<Sample>): real {
    if s == [] then 0.0 else s[0].confidence - s[0].observed + Drift(s[1..])
  }

  lemma {:induction false} DriftIsDifference(s: seq<Sample>)
    ensures Drift(s) == Sum(Confidences(s)) - Sum(Observations(s))
  {
    if s != [] {
      DriftIsDifference(s[1..]);
      assert Confidences(s)[1..] == Confidences(s[1..]);
      assert Observations(s)[1..] == Observations(s[1..]);
    }
  }

  lemma WeightedGap(m: real, total: real, a: real, b: real)
    requires m > 0.0 && total > 0.0
    ensures m / total * Abs(a / m - b / m) == Abs(a - b) / total
  {
    var gap := a / m - b / m;
    assert gap == (a - b) / m;
    assert gap * m == a - b;
    assert Abs(gap) * m == Abs(a - b) by {
      if gap >= 0.0 {
        MulMonotone(0.0, gap, m);
      } else {
        MulMonotone(gap, 0.0, m);
      }
    }
    assert m / total * Abs(gap) == Abs(gap) * m / total;
  }

  lemma TermIsDrift(members: seq<Sample>, total: nat)
    requires total > 0
    ensures Term(members, total) == PerSample(Abs(Drift(members)), total)
  {
    if members == [] {
      ZeroOver(total as real);
    } else {
      DriftIsDifference(members);
      WeightedGap(|members| as real, total as real, Sum(Confidences(members)), Sum(Observations(members)));
    }
  }

  function BinDrift(s: seq<Sample>, i: int, n: nat): real
    requires n > 0
  {
    Drift(Members(s, i, n))
  }

  lemma BinDriftStep(s: seq<Sample>, i: int, n: nat)
    requires s != [] && n > 0
    ensures BinDrift(s, i, n) == BinDrift(s[1..], i, n)
      + (if InBin(s[0].confidence, i, n) then s[0].confidence - s[0].observed else 0.0)
  {
    var rest := Members(s[1..], i, n);
    assert ([s[0]] + rest)[1..] == rest;
    assert [] + rest == rest;
  }

  /** The drift of every bin. */
  function Drifts(s: seq<Sample>, n: nat): int -> real
    requires n > 0
  {
    (i: int) => BinDrift(s, i, n)
  }

  /** g is f with d added at one place. */
  ghost predicate Moves(f: int -> real, g: int -> real, n: nat, bin: int, d: real) {
    forall i :: 0 <= i < n ==> g(i) == f(i) + if i == bin then d else 0.0
  }

  /** The first sample moves the drift of its own bin and no other. */
  lemma FirstMoves(s: seq<Sample>, n: nat) returns (bin: int)
    requires s != [] && n > 0 && Calibratable(s)
    ensures 0 <= bin < n && bin == BinOf(s[0].confidence, n)
    ensures Moves(Drifts(s[1..], n), Drifts(s, n), n, bin, s[0].confidence - s[0].observed)
  {
    bin := BinOf(s[0].confidence, n);
    BinsPartition(s[0].confidence, 0, n);
    forall i | 0 <= i < n
      ensures Drifts(s, n)(i) == Drifts(s[1..], n)(i) + if i == bin then s[0].confidence - s[0].observed else 0.0
    {
      BinDriftStep(s, i, n);
      BinsPartition(s[0].confidence, i, n);
    }
  }

  /** The summed sizes of f(from), ..., f(from + count - 1). */
  function Spread(f: int -> real, from: int, count: nat): real {
    if count == 0 then 0.0 else Spread(f, from, count - 1) + Abs(f(from + count - 1))
  }

  function PerSample(x: real, total: nat): real
    requires total > 0
  {
    x / total as real
  }

  lemma PerSampleAdds(x: real, y: real, total: nat)
    requires total > 0
    ensures PerSample(x + y, total) == PerSample(x, total) + PerSample(y, total)
  {
  }

  lemma PerSampleMonotone(x: real, y: real, total: nat)
    requires total > 0 && x <= y
    ensures PerSample(x, total) <= PerSample(y, total)
    ensures PerSample(0.0, total) == 0.0 && PerSample(total as real, total) == 1.0
  {
    DivMonotone(x, y, total as real);
    ZeroOver(total as real);
  }

  ghost predicate ErrorStep(e: nat -> real, f: int -> real, total: nat, k: nat)
    requires total > 0
  {
    e(k + 1) == e(k) + PerSample(Abs(f(k)), total)
  }

  lemma {:induction false} ErrorIsSpread(e: nat -> real, f: int -> real, total: nat, bins: nat)
    requires total > 0 && e(0) == 0.0 && forall k: nat :: ErrorStep(e, f, total, k)
    ensures e(bins) == PerSample(Spread(f, 0, bins), total)
  {
    if bins == 0 {
      PerSampleMonotone(0.0, 0.0, total);
    } else {
      ErrorIsSpread(e, f, total, bins - 1);
      assert ErrorStep(e, f, total, bins - 1);
      PerSampleAdds(Spread(f, 0, bins - 1), Abs(f(bins - 1)), total);
    }
  }

  lemma BinnedErrorStep(s: seq<Sample>, n: nat, k: nat)
    requires s != [] && n > 0
    ensures BinnedError(s, n, k + 1) == BinnedError(s, n, k) + PerSample(Abs(Drifts(s, n)(k)), |s|)
  {
    TermIsDrift(Members(s, k, n), |s|);
  }

  lemma BinnedErrorIsSpread(s: seq<Sample>, n: nat, bins: nat)
    requires s != [] && n > 0
    ensures BinnedError(s, n, bins) == PerSample(Spread(Drifts(s, n), 0, bins), |s|)
  {
    var e := (k: nat) => BinnedError(s, n, k);
    forall k: nat ensures ErrorStep(e, Drifts(s, n), |s|, k) {
      BinnedErrorStep(s, n, k);
    }
    ErrorIsSpread(e, Drifts(s, n), |s|, bins);
  }

  lemma EceIsSpread(s: seq<Sample>, n: nat)
    requires s != [] && n > 0
    ensures Ece(s, n) == PerSample(Spread(Drifts(s, n), 0, n), |s|)
  {
    BinnedErrorIsSpread(s, n, n);
  }

  /** The summed confidence minus the summed observations of the samples whose scaled confidence falls into bin i. */
  function BinGap(s: seq<Sample>, i: int, n: nat): real {
    if s == [] then 0.0
    else
      var bin := (s[0].confidence * n as real).Floor;
      (if i == bin || (i == n - 1 && bin == n) then s[0].confidence - s[0].observed else 0.0) + BinGap(s[1..], i, n)
  }

  lemma {:induction false} BinGapIsDrift(s: seq<Sample>, i: int, n: nat)
    requires n > 0 && 0 <= i < n && Calibratable(s)
    ensures BinDrift(s, i, n) == BinGap(s, i, n)
  {
    if s != [] {
      BinGapIsDrift(s[1..], i, n);
      BinDriftStep(s, i, n);
      BinsPartition(s[0].confidence, i, n);
      var x := ScaledConfidence(s[0].confidence, n);
      FloorIn(x, n);
    }
  }

  lemma FloorIn(x: real, n: nat)
    requires 0.0 <= x <= n as real
    ensures 0 <= x.Floor <= n
  {
  }

  function GapSum(s: seq<Sample>, n: nat, count: nat): real {
    if count == 0 then 0.0
    else
      var g := BinGap(s, count - 1, n);
      GapSum(s, n, count - 1) + if g < 0.0 then -g else g
  }

  lemma {:induction false} SpreadIsGapSum(s: seq<Sample>, n: nat, count: nat)
    requires n > 0 && count <= n && Calibratable(s)
    ensures Spread(Drifts(s, n), 0, count) == GapSum(s, n, count)
  {
    if count > 0 {
      SpreadIsGapSum(s, n, count - 1);
      BinGapIsDrift(s, count - 1, n);
    }
  }

  /** The mean of so many samples, times their number, is the sum; of none both are 0. */
  predicate Totals(mean: real, samples: nat, sum: real) {
    if samples == 0 then mean == 0.0 && sum == 0.0 else mean * samples as real == sum
  }

  /**
   The error in plain sums: times the number of samples it is the sum over the bins of the distance between the
   confidences and the observations that fall into them, each sample counting once.
   */
  lemma EceIs(s: seq<Sample>, n: nat)
    requires n > 0 && Calibratable(s)
    ensures Totals(Ece(s, n), |s|, GapSum(s, n, n))
  {
    if s == [] {
      EmptySpread(n, 0, n);
      SpreadIsGapSum(s, n, n);
    } else {
      EceIsSpread(s, n);
      SpreadIsGapSum(s, n, n);
      PerSampleTimes(GapSum(s, n, n), |s|);
    }
  }

  lemma PerSampleTimes(x: real, total: nat)
    requires total > 0
    ensures Totals(PerSample(x, total), total, x)
  {
  }

  // ---- Range ----------------------------------------------------------------------------------------

  /** One more sample moves one bin, by at most its own gap. */
  lemma {:induction false} OneSample(f: int -> real, g: int -> real, n: nat, count: nat, bin: int, d: real)
    requires count <= n && Moves(f, g, n, bin, d)
    ensures 0.0 <= Spread(g, 0, count) <= Spread(f, 0, count) + (if 0 <= bin < count then Abs(d) else 0.0)
  {
    if count > 0 {
      OneSample(f, g, n, count - 1, bin, d);
    }
  }

  lemma {:induction false} EmptySpread(n: nat, from: int, count: nat)
    requires n > 0
    ensures Spread(Drifts([], n), from, count) == 0.0
  {
    if count > 0 {
      EmptySpread(n, from, count - 1);
    }
  }

  lemma {:induction false} SpreadRange(s: seq<Sample>, n: nat)
    requires n > 0 && Calibratable(s)
    ensures 0.0 <= Spread(Drifts(s, n), 0, n) <= |s| as real
  {
    if s == [] {
      EmptySpread(n, 0, n);
    } else {
      SpreadRange(s[1..], n);
      var bin := FirstMoves(s, n);
      OneSample(Drifts(s[1..], n), Drifts(s, n), n, n, bin, s[0].confidence - s[0].observed);
    }
  }

  /** The calibration error of probabilities is a number in [0, 1]. */
  lemma EceRange(s: seq<Sample>, n: nat)
    requires n > 0 && Calibratable(s)
    ensures 0.0 <= Ece(s, n) <= 1.0
  {
    if s != [] {
      EceIsSpread(s, n);
      SpreadRange(s, n);
      PerSampleMonotone(0.0, Spread(Drifts(s, n), 0, n), |s|);
      PerSampleMonotone(Spread(Drifts(s, n), 0, n), |s| as real, |s|);
    }
  }

  // ---- Refining the bins ------------------------------------------------------------------------------

  function DriftSum(f: int -> real, from: int, count: nat): real {
    if count == 0 then 0.0 else DriftSum(f, from, count - 1) + f(from + count - 1)
  }

  lemma {:induction false} SpreadBoundsDriftSum(f: int -> real, from: int, count: nat)
    ensures Abs(DriftSum(f, from, count)) <= Spread(f, from, count)
  {
    if count > 0 {
      SpreadBoundsDriftSum(f, from, count - 1);
    }
  }

  lemma {:induction false} DriftSumStep(
    f: int -> real, g: int -> real, n: nat, from: nat, count: nat, bin: int, d: real)
    requires from + count <= n && Moves(f, g, n, bin, d)
    ensures DriftSum(g, from, count) == DriftSum(f, from, count) + (if from <= bin < from + count then d else 0.0)
  {
    if count > 0 {
      DriftSumStep(f, g, n, from, count - 1, bin, d);
    }
  }

  lemma {:induction false} EmptyDriftSum(n: nat, from: int, count: nat)
    requires n > 0
    ensures DriftSum(Drifts([], n), from, count) == 0.0
  {
    if count > 0 {
      EmptyDriftSum(n, from, count - 1);
    }
  }

  lemma BlockFits(b: nat, n: nat, m: nat)
    requires b < n
    ensures b * m + m <= n * m
  {
    IntMul(b + 1, n, m);
    OneMore(b, m);
  }

  /** The drift of a coarse bin is the sum of the drifts of the m fine bins inside it. */
  lemma CoarseIsSumOfFine(s: seq<Sample>, n: nat, m: nat, b: nat)
    requires n > 0 && m > 0 && b < n && Calibratable(s)
    ensures n * m > 0 && BinDrift(s, b, n) == DriftSum(Drifts(s, n * m), b * m, m)
  {
    IntMul(1, n, m);
    BlockFits(b, n, m);
    SumOfBlock(s, n, m, b, n * m, b * m);
  }

  lemma {:induction false} SumOfBlock(s: seq<Sample>, n: nat, m: nat, b: nat, fine: nat, from: nat)
    requires n > 0 && m > 0 && b < n && Calibratable(s)
    requires 0 < fine == n * m && from == b * m && from + m <= fine
    ensures BinDrift(s, b, n) == DriftSum(Drifts(s, fine), from, m)
  {
    if s == [] {
      EmptyDriftSum(fine, from, m);
    } else {
      SumOfBlock(s[1..], n, m, b, fine, from);
      var coarse := FirstMoves(s, n);
      var bin := FirstMoves(s, fine);
      var f, g, d := Drifts(s[1..], fine), Drifts(s, fine), s[0].confidence - s[0].observed;
      DriftSumStep(f, g, fine, from, m, bin, d);
      assert BinDrift(s, b, n) == Drifts(s, n)(b) && BinDrift(s[1..], b, n) == Drifts(s[1..], n)(b);
      SameBin(s[0].confidence, n, m, b, fine, from);
    }
  }

  lemma SameBin(c: real, n: nat, m: nat, b: nat, fine: nat, from: nat)
    requires n > 0 && m > 0 && b < n && 0.0 <= c <= 1.0 && fine == n * m && from == b * m
    ensures BinOf(c, n) == b <==> from <= BinOf(c, fine) < from + m
  {
    FineInsideCoarse(c, n, m);
    InBlock(BinOf(c, fine), b, m);
  }

  lemma InBlock(f: int, b: nat, m: nat)
    requires m > 0
    ensures f / m == b <==> b * m <= f < b * m + m
  {
    DivBounds(f, m);
    OneMore(f / m, m);
    if b * m <= f < b * m + m {
      OneMore(b, m);
      DivUnique(f, b, m);
    }
  }

  lemma {:induction false} SpreadSplits(f: int -> real, from: int, count: nat, more: nat)
    ensures Spread(f, from, count + more) == Spread(f, from, count) + Spread(f, from + count, more)
  {
    if more > 0 {
      SpreadSplits(f, from, count, more - 1);
    }
  }

  /** The number of fine bins in k coarse ones. */
  function Blocks(k: nat, m: nat): nat {
    if k == 0 then 0 else Blocks(k - 1, m) + m
  }

  lemma {:induction false} BlocksIs(k: nat, m: nat)
    ensures Blocks(k, m) == k * m
  {
    if k > 0 {
      BlocksIs(k - 1, m);
      OneMore(k - 1, m);
    }
  }

  /** g adds up f block by block. */
  ghost predicate AddsUp(f: int -> real, g: int -> real, n: nat, m: nat) {
    forall b: nat :: b < n ==> AddsUpAt(f, g, m, b)
  }

  ghost predicate AddsUpAt(f: int -> real, g: int -> real, m: nat, b: nat) {
    g(b) == DriftSum(f, Blocks(b, m), m)
  }

  lemma DriftsAddUp(s: seq<Sample>, n: nat, m: nat, fine: nat)
    requires n > 0 && m > 0 && Calibratable(s) && 0 < fine == n * m
    ensures AddsUp(Drifts(s, fine), Drifts(s, n), n, m)
  {
    forall b: nat | b < n ensures AddsUpAt(Drifts(s, fine), Drifts(s, n), m, b) {
      BlocksIs(b, m);
      CoarseIsSumOfFine(s, n, m, b);
    }
  }

  lemma {:induction false} SpreadRefines(f: int -> real, g: int -> real, n: nat, m: nat, k: nat)
    requires k <= n && AddsUp(f, g, n, m)
    ensures Spread(g, 0, k) <= Spread(f, 0, Blocks(k, m))
  {
    if k > 0 {
      var before := Blocks(k - 1, m);
      SpreadRefines(f, g, n, m, k - 1);
      assert AddsUpAt(f, g, m, k - 1);
      SpreadBoundsDriftSum(f, before, m);
      SpreadSplits(f, 0, before, m);
    }
  }

  /** Cutting every bin into m equal parts can only raise the calibration error. */
  lemma FinerBinsNeverLower(s: seq<Sample>, n: nat, m: nat)
    requires n > 0 && m > 0 && Calibratable(s)
    ensures n * m > 0 && Ece(s, n) <= Ece(s, n * m)
  {
    IntMul(1, n, m);
    if s != [] {
      BlocksIs(n, m);
      DriftsAddUp(s, n, m, n * m);
      SpreadRefines(Drifts(s, n * m), Drifts(s, n), n, m, n);
      EceIsSpread(s, n);
      EceIsSpread(s, n * m);
      PerSampleMonotone(Spread(Drifts(s, n), 0, n), Spread(Drifts(s, n * m), 0, n * m), |s|);
    }
  }

  lemma {:induction false} OneBinHoldsAll(s: seq<Sample>)
    requires Calibratable(s)
    ensures Members(s, 0, 1) == s
  {
    if s != [] {
      OneBinHoldsAll(s[1..]);
      BinsPartition(s[0].confidence, 0, 1);
    }
  }

  /** The error is at least the overall gap between mean confidence and accuracy, and equal to it for one bin. */
  lemma EceAboveOverallGap(s: seq<Sample>, n: nat)
    requires n > 0 && s != [] && Calibratable(s)
    ensures Ece(s, 1) == Abs(Mean(Confidences(s)) - Mean(Observations(s)))
    ensures Abs(Mean(Confidences(s)) - Mean(Observations(s))) <= Ece(s, n)
  {
    OneBinHoldsAll(s);
    var gap := Abs(Mean(Confidences(s)) - Mean(Observations(s)));
    assert Ece(s, 1) == BinnedError(s, 1, 0) + Term(s, |s|);
    FullWeight(|s| as real, gap);
    FinerBinsNeverLower(s, 1, n);
  }

  lemma FullWeight(n: real, gap: real)
    requires n > 0.0
    ensures n / n * gap == gap
  {
  }
}
