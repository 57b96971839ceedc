/**
 Audio cross-correlation alignment (`inference/audio_xcorr.py`). The band-pass filter and the square
 root are parameters; everything after filtering is modelled over the reals.
 */
module CrossCorrelation {
  import opened Numerics
  import opened RangeSums

  datatype Config = Config(lowHz: real, highHz: real, windowS: real, searchWindowMs: real, minConfidence: real)

  datatype AlignmentResult = AlignmentResult(
    offsetS: real, sampleOffset: real, confidence: real, peakValue: real, confident: bool)

  /**
   The zero-phase band-pass filter, the square root, and the longest window the filter still rejects (its edge
   padding; 27 samples at the default order).
   */
  datatype Env = Env(bandpass: seq<real> -> seq<real>, padLength: nat, sqrt: real -> real)

  ghost predicate ValidEnv(env: Env) {
    && (forall x :: |env.bandpass(x)| == |x|)
    && (forall x :: x >= 0.0 ==> IsRoot(env, x))
  }

  predicate IsRoot(env: Env, x: real) {
    env.sqrt(x) >= 0.0 && env.sqrt(x) * env.sqrt(x) == x
  }

  /** A window seen as a signal that is silent outside its samples. */
  function At(a: seq<real>, i: int): real {
    if 0 <= i < |a| then a[i] else 0.0
  }

  function Signal(a: seq<real>): int -> real {
    i => At(a, i)
  }

  function Delay(a: seq<real>, lag: int): int -> real {
    i => At(a, i - lag)
  }

  /** One entry of `correlate(a, b, mode="full")`: the products of a with b moved right by `lag`. */
  function Corr(a: seq<real>, b: seq<real>, lag: int): real {
    SumRange(Times(Signal(a), Delay(b, lag)), 0, |a|)
  }

  function Energy(a: seq<real>): real {
    SumRange(Times(Signal(a), Signal(a)), 0, |a|)
  }

  function Magnitudes(a: seq<real>, b: seq<real>, lo: int, hi: int): (r: seq<real>)
    requires lo <= hi
    ensures |r| == hi - lo + 1
  {
    seq(hi - lo + 1, k requires 0 <= k < hi - lo + 1 => Abs(Corr(a, b, lo + k)))
  }

  /** Vertex of the parabola through (-1, yMinus), (0, yZero), (1, yPlus); 0 when it is not trusted. */
  function ParabolicOffset(yMinus: real, yZero: real, yPlus: real): real {
    var denom := yMinus - 2.0 * yZero + yPlus;
    if denom == 0.0 then 0.0
    else
      var delta := 0.5 * (yMinus - yPlus) / denom;
      if delta < -0.5 || delta > 0.5 then 0.0 else delta
  }

  function Seconds(samples: real, rate: int): real
    requires rate > 0
  {
    samples / rate as real
  }

  function NormProduct(a: seq<real>, b: seq<real>, sqrt: real -> real): real {
    sqrt(Energy(a)) * sqrt(Energy(b))
  }

  function Normalised(x: real, norm: real): real {
    if norm > 0.0 then x / norm else 0.0
  }

  function MaxLag(rate: int, cfg: Config): int {
    Round(cfg.searchWindowMs / 1000.0 * rate as real)
  }

  function FirstLag(n: nat, maxLag: int): int {
    Max(-(n - 1), -maxLag)
  }

  function LastLag(n: nat, maxLag: int): int {
    Min(n - 1, maxLag)
  }

  /** The alignment of two filtered, zero-meaned windows. */
  function Align(a: seq<real>, b: seq<real>, rate: int, cfg: Config, sqrt: real -> real): AlignmentResult
    requires |a| == |b| > 0 && rate > 0
  {
    var maxLag := MaxLag(rate, cfg);
    if maxLag < 0 then AlignmentResult(0.0, 0.0, 0.0, 0.0, false)
    else
      var lo, hi := FirstLag(|a|, maxLag), LastLag(|a|, maxLag);
      var mag := Magnitudes(a, b, lo, hi);
      var peak := ArgMax(mag);
      var sub := if 0 < peak < |mag| - 1 then ParabolicOffset(mag[peak - 1], mag[peak], mag[peak + 1]) else 0.0;
      var lag := (lo + peak) as real + sub;
      var confidence := Normalised(mag[peak], NormProduct(a, b, sqrt));
      AlignmentResult(Seconds(-lag, rate), -lag, confidence, Corr(a, b, lo + peak),
                      confidence >= cfg.minConfidence)
  }

  function ZeroMean(a: seq<real>): (r: seq<real>)
    ensures |r| == |a|
  {
    if a == [] then [] else
      var m := Mean(a);
      seq(|a|, i requires 0 <= i < |a| => a[i] - m)
  }

  /** What the filter asks of its band and of the window length. */
  predicate Filterable(n: nat, rate: int, cfg: Config, env: Env) {
    0.0 < cfg.lowHz < cfg.highHz < rate as real / 2.0 && n > env.padLength
  }

  /** `cross_correlate_shot`: the input checks, the filter, the mean removal and the alignment. */
  function CrossCorrelateShot(a: seq<real>, b: seq<real>, rate: int, cfg: Config, env: Env): Result<AlignmentResult>
    requires ValidEnv(env)
  {
    if rate <= 0 then Err("sample_rate_hz must be positive")
    else if |a| != |b| then Err("a and b must be equal-length windows")
    else if !(0.0 < cfg.lowHz < cfg.highHz < rate as real / 2.0) then Err("need 0 < low_hz < high_hz < nyquist")
    else if |a| <= env.padLength then Err("window not longer than the filter's padding")
    else Ok(Align(ZeroMean(env.bandpass(a)), ZeroMean(env.bandpass(b)), rate, cfg, env.sqrt))
  }

  // ---- Confidence -------------------------------------------------------------------------------

  /** Any stretch of a signal carries at most its whole energy; one that covers it carries all of it. */
  lemma StretchEnergy(b: seq<real>, lo: int, hi: int)
    requires lo <= hi
    ensures 0.0 <= SumRange(Times(Signal(b), Signal(b)), lo, hi) <= Energy(b)
    ensures lo <= 0 && |b| <= hi ==> SumRange(Times(Signal(b), Signal(b)), lo, hi) == Energy(b)
  {
    var f := Times(Signal(b), Signal(b));
    var lo', hi' := Min(0, lo), Max(|b|, hi);
    EnergyNonNegative(Signal(b), lo', lo);
    EnergyNonNegative(Signal(b), lo, hi);
    EnergyNonNegative(Signal(b), hi, hi');
    SumSplit(f, lo', lo, hi');
    SumSplit(f, lo, hi, hi');
    SumSupport(f, |b|, lo', hi');
  }

  lemma DelayedEnergy(b: seq<real>, lag: int, lo: int, hi: int)
    requires lo <= hi
    ensures 0.0 <= SumRange(Times(Delay(b, lag), Delay(b, lag)), lo, hi) <= Energy(b)
    ensures lo <= lag && |b| + lag <= hi ==>
      SumRange(Times(Delay(b, lag), Delay(b, lag)), lo, hi) == Energy(b)
  {
    SumShift(Times(Signal(b), Signal(b)), Times(Delay(b, lag), Delay(b, lag)), lo, hi, -lag);
    StretchEnergy(b, lo - lag, hi - lag);
  }

  lemma ProductBound(x: real, u: real, v: real, v': real)
    requires x * x <= u * v && 0.0 <= u && v <= v'
    ensures x * x <= u * v'
  {
    MulMonotone(v, v', u);
  }

  /** Cauchy-Schwarz for every lag. */
  lemma CorrBound(a: seq<real>, b: seq<real>, lag: int)
    requires |a| == |b|
    ensures Energy(a) >= 0.0 && Energy(b) >= 0.0
    ensures Corr(a, b, lag) * Corr(a, b, lag) <= Energy(a) * Energy(b)
  {
    var n := |a|;
    CauchySchwarz(Signal(a), Delay(b, lag), 0, n);
    StretchEnergy(a, 0, n);
    DelayedEnergy(b, lag, 0, n);
    ProductBound(Corr(a, b, lag), Energy(a), SumRange(Times(Delay(b, lag), Delay(b, lag)), 0, n), Energy(b));
  }

  lemma RootOfProduct(x: real, u: real, v: real, p: real, q: real)
    requires x * x <= u * v && p >= 0.0 && q >= 0.0 && p * p == u && q * q == v
    ensures Abs(x) <= p * q
  {
    var y, r := Abs(x), p * q;
    assert y * y == x * x;
    assert r * r == u * v by {
      assert r * r == (p * p) * (q * q);
    }
    assert r >= 0.0 by {
      MulMonotone(0.0, p, q);
    }
    if r < y {
      SquaresOrder(r, y);
    }
  }

  lemma CorrWithinNorms(a: seq<real>, b: seq<real>, lag: int, env: Env)
    requires |a| == |b| && ValidEnv(env)
    ensures Abs(Corr(a, b, lag)) <= NormProduct(a, b, env.sqrt)
  {
    CorrBound(a, b, lag);
    assert IsRoot(env, Energy(a)) && IsRoot(env, Energy(b));
    RootOfProduct(Corr(a, b, lag), Energy(a), Energy(b), env.sqrt(Energy(a)), env.sqrt(Energy(b)));
  }

  /** For any two windows the reported confidence is a number in [0, 1]. */
  lemma ConfidenceInUnitRange(a: seq<real>, b: seq<real>, rate: int, cfg: Config, env: Env)
    requires |a| == |b| > 0 && rate > 0 && ValidEnv(env)
    ensures 0.0 <= Align(a, b, rate, cfg, env.sqrt).confidence <= 1.0
  {
    var maxLag := MaxLag(rate, cfg);
    if maxLag >= 0 {
      var lo, hi := FirstLag(|a|, maxLag), LastLag(|a|, maxLag);
      var peak := ArgMax(Magnitudes(a, b, lo, hi));
      CorrWithinNorms(a, b, lo + peak, env);
      NormalisedRange(Abs(Corr(a, b, lo + peak)), NormProduct(a, b, env.sqrt));
    }
  }

  lemma NormalisedRange(x: real, norm: real)
    requires 0.0 <= x <= norm
    ensures 0.0 <= Normalised(x, norm) <= 1.0
  {
    if norm > 0.0 {
      DivMonotone(0.0, x, norm);
      DivMonotone(x, norm, norm);
    }
  }

  /** x over the product of two roots, squared, times the two radicands, is x squared. */
  lemma NormalisedSquare(x: real, u: real, v: real, p: real, q: real, c: real)
    requires p >= 0.0 && q >= 0.0 && p * p == u && q * q == v && u > 0.0 && v > 0.0
    requires c == Normalised(x, p * q)
    ensures p * q > 0.0 && c * (p * q) == x
    ensures c * c * (u * v) == x * x
  {
    RootPositive(p, u);
    RootPositive(q, v);
    ScaleStrict(p, 0.0, q);
    var n := p * q;
    QuotientTimes(x, n, c);
    assert u * v == n * n by {
      assert p * p * (q * q) == n * n;
    }
    assert c * c * (n * n) == (c * n) * (c * n);
  }

  lemma RootPositive(p: real, u: real)
    requires p >= 0.0 && p * p == u && u > 0.0
    ensures p > 0.0
  {
    SquareOfZero(p);
  }

  lemma SquareOfZero(p: real)
    ensures p == 0.0 ==> p * p == 0.0
  {
  }

  lemma QuotientTimes(x: real, n: real, c: real)
    requires n > 0.0 && c == Normalised(x, n)
    ensures c * n == x
  {
  }

  lemma SilentNorm(p: real, q: real, u: real, v: real)
    requires p >= 0.0 && q >= 0.0 && p * p == u && q * q == v && (u == 0.0 || v == 0.0)
    ensures p * q == 0.0
  {
    if p > 0.0 && q > 0.0 {
      ScaleStrict(p, 0.0, p);
      ScaleStrict(q, 0.0, q);
    }
  }

  /** For numbers that are not negative: c reaches m exactly if its square, times e, reaches that of m. */
  lemma SquareReaches(c: real, m: real, e: real, x: real)
    requires c >= 0.0 && m >= 0.0 && e > 0.0 && c * c * e == x
    ensures c >= m <==> x >= m * m * e
  {
    if c >= m {
      SquaresOrderWeak(m, c);
      MulMonotone(m * m, c * c, e);
    } else {
      SquaresOrder(c, m);
      MulStrict(c * c, m * m, e);
    }
  }

  lemma SquaresOrderWeak(x: real, y: real)
    requires 0.0 <= x <= y
    ensures x * x <= y * y
  {
    MulMonotone(x, y, x);
    MulMonotone(x, y, y);
  }

  /** No lag of the search range has a larger magnitude than this one, which is in it. */
  ghost predicate IsPeak(a: seq<real>, b: seq<real>, maxLag: int, peak: int) {
    && -|a| < peak < |a| && -maxLag <= peak <= maxLag
    && forall lag :: -|a| < lag < |a| && -maxLag <= lag <= maxLag ==> Abs(Corr(a, b, lag)) <= Abs(Corr(a, b, peak))
  }

  lemma PeakOf(a: seq<real>, b: seq<real>, maxLag: int) returns (peak: int)
    requires |a| == |b| > 0 && maxLag >= 0
    ensures IsPeak(a, b, maxLag, peak)
    ensures var lo := FirstLag(|a|, maxLag); peak == lo + ArgMax(Magnitudes(a, b, lo, LastLag(|a|, maxLag)))
  {
    var lo, hi := FirstLag(|a|, maxLag), LastLag(|a|, maxLag);
    var mag := Magnitudes(a, b, lo, hi);
    peak := lo + ArgMax(mag);
    forall lag | -|a| < lag < |a| && -maxLag <= lag <= maxLag ensures Abs(Corr(a, b, lag)) <= Abs(Corr(a, b, peak)) {
      assert mag[lag - lo] <= mag[peak - lo];
    }
  }

  /**
   c is the confidence that belongs to a peak correlation x of windows with energies u and v: the non-negative
   number whose square, times both energies, is the square of x, or 0 if a window is silent.
   */
  predicate ConfidenceOf(c: real, x: real, u: real, v: real) {
    c >= 0.0 && if u > 0.0 && v > 0.0 then c * c * (u * v) == x * x else c == 0.0
  }

  /** The squared correlation reaches the least confidence, squared, times both energies. */
  predicate ReachesLeast(x: real, u: real, v: real, least: real) {
    x * x >= least * least * (u * v)
  }

  /**
   What is reported for any two windows, without the root: the confidence and the correlation at the lag of
   largest magnitude, and that the shot is confident exactly if that correlation is large enough.
   */
  lemma ReportedIs(a: seq<real>, b: seq<real>, rate: int, cfg: Config, env: Env) returns (peak: int)
    requires |a| == |b| > 0 && rate > 0 && ValidEnv(env) && MaxLag(rate, cfg) >= 0
    ensures IsPeak(a, b, MaxLag(rate, cfg), peak)
    ensures var r, x := Align(a, b, rate, cfg, env.sqrt), Corr(a, b, peak);
      && r.peakValue == x && ConfidenceOf(r.confidence, x, Energy(a), Energy(b))
      && (r.confident <==> r.confidence >= cfg.minConfidence)
      && (Energy(a) > 0.0 && Energy(b) > 0.0 && cfg.minConfidence >= 0.0 ==>
            (r.confident <==> ReachesLeast(x, Energy(a), Energy(b), cfg.minConfidence)))
  {
    peak := PeakOf(a, b, MaxLag(rate, cfg));
    var c := ConfidenceAt(a, b, env, Corr(a, b, peak), cfg.minConfidence);
    ReportedFields(a, b, rate, cfg, env.sqrt, peak, c);
  }

  lemma ConfidenceAt(a: seq<real>, b: seq<real>, env: Env, x: real, least: real) returns (c: real)
    requires ValidEnv(env)
    ensures c == Normalised(Abs(x), NormProduct(a, b, env.sqrt)) && ConfidenceOf(c, x, Energy(a), Energy(b))
    ensures Energy(a) > 0.0 && Energy(b) > 0.0 && least >= 0.0 ==>
      (c >= least <==> ReachesLeast(x, Energy(a), Energy(b), least))
  {
    var u, v := Energy(a), Energy(b);
    EnergyNonNegative(Signal(a), 0, |a|);
    EnergyNonNegative(Signal(b), 0, |b|);
    assert IsRoot(env, u) && IsRoot(env, v);
    c := ReportedConfidence(x, u, v, env.sqrt(u), env.sqrt(v), least);
  }

  lemma ReportedFields(a: seq<real>, b: seq<real>, rate: int, cfg: Config, sqrt: real -> real, peak: int, c: real)
    requires |a| == |b| > 0 && rate > 0 && MaxLag(rate, cfg) >= 0
    requires var lo := FirstLag(|a|, MaxLag(rate, cfg));
      peak == lo + ArgMax(Magnitudes(a, b, lo, LastLag(|a|, MaxLag(rate, cfg))))
    requires c == Normalised(Abs(Corr(a, b, peak)), NormProduct(a, b, sqrt))
    ensures var r := Align(a, b, rate, cfg, sqrt);
      r.confidence == c && r.peakValue == Corr(a, b, peak) && (r.confident <==> c >= cfg.minConfidence)
  {
  }

  lemma SquareOfAbs(x: real)
    ensures Abs(x) * Abs(x) == x * x
  {
  }

  lemma ReportedConfidence(x: real, u: real, v: real, p: real, q: real, least: real) returns (c: real)
    requires p >= 0.0 && q >= 0.0 && p * p == u && q * q == v && u >= 0.0 && v >= 0.0
    ensures c == Normalised(Abs(x), p * q) && ConfidenceOf(c, x, u, v)
    ensures u > 0.0 && v > 0.0 && least >= 0.0 ==> (c >= least <==> ReachesLeast(x, u, v, least))
  {
    c := Normalised(Abs(x), p * q);
    SquareOfAbs(x);
    if u > 0.0 && v > 0.0 {
      NormalisedSquare(Abs(x), u, v, p, q, c);
      DivMonotone(0.0, Abs(x), p * q);
      ScaleStrict(u, 0.0, v);
      if least >= 0.0 {
        SquareReaches(c, least, u * v, x * x);
      }
    } else {
      SilentNorm(p, q, u, v);
    }
  }

  // ---- Exact delay recovery ---------------------------------------------------------------------

  /** b is a scaled by `gain` and moved `delay` samples later, with nothing lost at either end. */
  ghost predicate Delayed(a: seq<real>, b: seq<real>, delay: int, gain: real) {
    |a| == |b| && forall i: int :: At(b, i) == gain * At(a, i - delay)
  }

  ghost predicate Silent(a: seq<real>) {
    forall i :: 0 <= i < |a| ==> a[i] == 0.0
  }

  lemma WideCorr(a: seq<real>, b: seq<real>, lag: int, lo: int, hi: int)
    requires lo <= 0 && |a| <= hi
    ensures SumRange(Times(Signal(a), Delay(b, lag)), lo, hi) == Corr(a, b, lag)
  {
    SumSupport(Times(Signal(a), Delay(b, lag)), |a|, lo, hi);
  }

  lemma SwapTerm(a: seq<real>, b: seq<real>, lag: int, i: int)
    ensures Times(Signal(a), Delay(b, lag))(i) == Times(Signal(b), Delay(a, -lag))(i + -lag)
  {
    var x, y := At(a, i), At(b, i - lag);
    assert At(a, i + -lag - -lag) == x && At(b, i + -lag) == y;
    assert x * y == y * x;
  }

  lemma SwapSum(a: seq<real>, b: seq<real>, lag: int, lo: int, hi: int)
    ensures SumRange(Times(Signal(a), Delay(b, lag)), lo, hi) ==
            SumRange(Times(Signal(b), Delay(a, -lag)), lo + -lag, hi + -lag)
  {
    var f, g := Times(Signal(b), Delay(a, -lag)), Times(Signal(a), Delay(b, lag));
    forall i | lo <= i < hi ensures g(i) == f(i + -lag) {
      SwapTerm(a, b, lag, i);
    }
    SumShift(f, g, lo, hi, -lag);
  }

  /** Exchanging the windows negates the lag. */
  lemma CorrSwap(a: seq<real>, b: seq<real>, lag: int)
    requires |a| == |b|
    ensures Corr(a, b, lag) == Corr(b, a, -lag)
  {
    var k := Max(lag, -lag);
    SwapSum(a, b, lag, -k, |a| + k);
    WideCorr(a, b, lag, -k, |a| + k);
    WideCorr(b, a, -lag, -k - lag, |a| + k - lag);
  }

  /** Autocorrelation is symmetric in the lag. */
  lemma AutoSymmetric(a: seq<real>, lag: int)
    ensures Corr(a, a, lag) == Corr(a, a, -lag)
  {
    CorrSwap(a, a, lag);
  }

  lemma {:induction false} FirstSound(a: seq<real>, from: nat) returns (i: nat)
    requires from <= |a| && !Silent(a) && forall j :: 0 <= j < from ==> a[j] == 0.0
    ensures i < |a| && a[i] != 0.0 && forall j :: 0 <= j < i ==> a[j] == 0.0
    decreases |a| - from
  {
    if a[from] != 0.0 {
      i := from;
    } else {
      i := FirstSound(a, from + 1);
    }
  }

  /** The energy of a plus or minus its own later copy is positive: the first sound has no partner. */
  lemma CopyDoesNotCancel(a: seq<real>, lag: int, t: real)
    requires lag > 0 && !Silent(a)
    ensures 0.0 < Quadratic(Energy(a), Corr(a, a, lag), Energy(a), t)
  {
    var i := FirstSound(a, 0);
    var lo, hi := -lag, |a| + lag;
    var h := Combination(Signal(a), Delay(a, lag), t);
    var e := SumRange(Times(h, h), lo, hi);
    assert h(i) == a[i] by {
      assert At(a, i - lag) == 0.0 && t * 0.0 == 0.0;
    }
    EnergyPositive(h, lo, hi, i);
    assert e == Quadratic(Energy(a), Corr(a, a, lag), Energy(a), t) by {
      SquaresExpand(Signal(a), Delay(a, lag), t, lo, hi);
      StretchEnergy(a, lo, hi);
      DelayedEnergy(a, lag, lo, hi);
      WideCorr(a, a, lag, lo, hi);
    }
  }

  /** Away from lag zero the autocorrelation is strictly smaller than the energy. */
  lemma AutoStrict(a: seq<real>, lag: int)
    requires lag != 0 && !Silent(a)
    ensures Abs(Corr(a, a, lag)) < Energy(a)
  {
    var m := if lag > 0 then lag else -lag;
    AutoSymmetric(a, lag);
    CopyDoesNotCancel(a, m, 1.0);
    CopyDoesNotCancel(a, m, -1.0);
  }

  lemma TermOfDelayed(a: seq<real>, b: seq<real>, delay: int, gain: real, lag: int, i: int)
    requires Delayed(a, b, delay, gain)
    ensures Times(Signal(a), Delay(b, lag))(i) == gain * Times(Signal(a), Delay(a, lag + delay))(i)
  {
    var x, y := At(a, i), At(a, i - (lag + delay));
    assert At(b, i - lag) == gain * At(a, i - lag - delay);
    Reorder(x, gain, y);
  }

  lemma {:induction false} PartialCorrOfDelayed(a: seq<real>, b: seq<real>, delay: int, gain: real, lag: int, n: nat)
    requires Delayed(a, b, delay, gain)
    ensures SumRange(Times(Signal(a), Delay(b, lag)), 0, n)
         == gain * SumRange(Times(Signal(a), Delay(a, lag + delay)), 0, n)
  {
    if n > 0 {
      PartialCorrOfDelayed(a, b, delay, gain, lag, n - 1);
      TermOfDelayed(a, b, delay, gain, lag, n - 1);
      Distribute(gain, SumRange(Times(Signal(a), Delay(a, lag + delay)), 0, n - 1),
                 Times(Signal(a), Delay(a, lag + delay))(n - 1));
    }
  }

  lemma Distribute(c: real, x: real, y: real)
    ensures c * (x + y) == c * x + c * y
  {
  }

  lemma CorrOfDelayed(a: seq<real>, b: seq<real>, delay: int, gain: real, lag: int)
    requires Delayed(a, b, delay, gain)
    ensures Corr(a, b, lag) == gain * Corr(a, a, lag + delay)
  {
    PartialCorrOfDelayed(a, b, delay, gain, lag, |a|);
  }

  lemma Reorder(x: real, g: real, y: real)
    ensures x * (g * y) == g * (x * y)
    ensures (g * y) * (g * y) == g * g * (y * y)
  {
    assert g * g * (y * y) == g * y * (g * y);
  }

  lemma SquareOfDelayed(a: seq<real>, b: seq<real>, delay: int, gain: real, i: int)
    requires Delayed(a, b, delay, gain)
    ensures Times(Signal(b), Signal(b))(i) == gain * gain * Times(Delay(a, delay), Delay(a, delay))(i)
  {
    assert At(b, i) == gain * At(a, i - delay);
    Reorder(1.0, gain, At(a, i - delay));
  }

  lemma EnergyOfDelayed(a: seq<real>, b: seq<real>, delay: int, gain: real)
    requires Delayed(a, b, delay, gain)
    ensures Energy(b) == gain * gain * Energy(a)
  {
    var k := Max(delay, -delay);
    var lo, hi := -k, |a| + k;
    var f, h := Times(Delay(a, delay), Delay(a, delay)), Times(Signal(b), Signal(b));
    forall i ensures h(i) == gain * gain * f(i) {
      SquareOfDelayed(a, b, delay, gain, i);
    }
    SumScale(f, h, gain * gain, lo, hi);
    DelayedEnergy(a, delay, lo, hi);
    StretchEnergy(b, lo, hi);
  }

  lemma DelayFits(a: seq<real>, b: seq<real>, delay: int, gain: real)
    requires Delayed(a, b, delay, gain) && gain != 0.0 && !Silent(a)
    ensures -|a| < delay < |a|
  {
    var i :| 0 <= i < |a| && a[i] != 0.0;
    assert At(b, i + delay) == gain * At(a, i + delay - delay);
    assert gain * a[i] != 0.0;
  }

  lemma AbsOfProduct(x: real, y: real)
    ensures Abs(x * y) == Abs(x) * Abs(y)
  {
    if x >= 0.0 && y >= 0.0 {
      MulMonotone(0.0, x, y);
    } else if x >= 0.0 {
      MulMonotone(0.0, x, -y);
    } else if y >= 0.0 {
      MulMonotone(0.0, -x, y);
    } else {
      MulMonotone(0.0, -x, -y);
    }
  }

  lemma ScaleStrict(g: real, x: real, y: real)
    requires g > 0.0 && x < y
    ensures g * x < g * y
  {
    assert g * (y - x) > 0.0;
  }

  lemma CorrAtZero(a: seq<real>)
    ensures Corr(a, a, 0) == Energy(a)
  {
    SumShift(Times(Signal(a), Signal(a)), Times(Signal(a), Delay(a, 0)), 0, |a|, 0);
  }

  lemma PeakValue(a: seq<real>, b: seq<real>, delay: int, gain: real)
    requires Delayed(a, b, delay, gain) && !Silent(a)
    ensures Energy(a) > 0.0
    ensures Corr(a, b, -delay) == gain * Energy(a)
    ensures Abs(Corr(a, b, -delay)) == Abs(gain) * Energy(a)
  {
    AutoStrict(a, 1);
    CorrOfDelayed(a, b, delay, gain, -delay);
    CorrAtZero(a);
    AbsOfProduct(gain, Energy(a));
  }

  /** The magnitude takes its largest value at lag -delay and nowhere else. */
  lemma PeakIsUnique(a: seq<real>, b: seq<real>, delay: int, gain: real, lag: int)
    requires Delayed(a, b, delay, gain) && gain != 0.0 && !Silent(a) && lag != -delay
    ensures Abs(Corr(a, b, lag)) < Abs(Corr(a, b, -delay))
  {
    PeakValue(a, b, delay, gain);
    CorrOfDelayed(a, b, delay, gain, lag);
    AutoStrict(a, lag + delay);
    ScaledPeak(gain, Corr(a, a, lag + delay), Energy(a), Corr(a, b, lag), Corr(a, b, -delay));
  }

  lemma ScaledPeak(g: real, c: real, e: real, x: real, y: real)
    requires g != 0.0 && Abs(c) < e && x == g * c && y == g * e
    ensures Abs(x) < Abs(y)
  {
    if g > 0.0 {
      var inner, outer := ScaledBand(g, c, e);
      PeakOrder(x, y, inner, outer);
    } else {
      var inner, outer := ScaledBand(-g, c, e);
      NegatedProduct(g, c);
      NegatedProduct(g, e);
      PeakOrder(x, y, inner, outer);
    }
  }

  lemma NegatedProduct(g: real, x: real)
    ensures -g * x == -(g * x)
  {
  }

  lemma ScaledBand(h: real, c: real, e: real) returns (inner: real, outer: real)
    requires h > 0.0 && -e < c < e
    ensures inner == h * c && outer == h * e && -outer < inner < outer
  {
    inner, outer := h * c, h * e;
    ScaleStrict(h, c, e);
    ScaleStrict(h, -e, c);
    assert h * -e == -(h * e);
  }

  lemma PeakOrder(x: real, y: real, inner: real, outer: real)
    requires -outer < inner < outer && ((x == inner && y == outer) || (x == -inner && y == -outer))
    ensures Abs(x) < Abs(y)
  {
  }

  /** Both neighbours of the peak carry the same value. */
  lemma PeakIsSymmetric(a: seq<real>, b: seq<real>, delay: int, gain: real)
    requires Delayed(a, b, delay, gain)
    ensures Corr(a, b, -delay - 1) == Corr(a, b, -delay + 1)
  {
    CorrOfDelayed(a, b, delay, gain, -delay - 1);
    CorrOfDelayed(a, b, delay, gain, -delay + 1);
    AutoSymmetric(a, 1);
  }

  lemma PeakIndex(a: seq<real>, b: seq<real>, delay: int, gain: real, lo: int, hi: int)
    requires Delayed(a, b, delay, gain) && gain != 0.0 && !Silent(a) && lo <= -delay <= hi
    ensures lo + ArgMax(Magnitudes(a, b, lo, hi)) == -delay
  {
    var mag := Magnitudes(a, b, lo, hi);
    var peak := ArgMax(mag);
    assert mag[-delay - lo] <= mag[peak];
    if lo + peak != -delay {
      PeakIsUnique(a, b, delay, gain, lo + peak);
    }
  }

  lemma FullConfidence(a: seq<real>, b: seq<real>, delay: int, gain: real, env: Env)
    requires Delayed(a, b, delay, gain) && gain != 0.0 && !Silent(a) && ValidEnv(env)
    ensures Normalised(Abs(gain) * Energy(a), NormProduct(a, b, env.sqrt)) == 1.0
  {
    PeakValue(a, b, delay, gain);
    EnergyOfDelayed(a, b, delay, gain);
    var p, g, e, q := env.sqrt(Energy(a)), Abs(gain), Energy(a), env.sqrt(Energy(b));
    assert IsRoot(env, Energy(a)) && IsRoot(env, Energy(b));
    assert g * g == gain * gain;
    RootOfScaled(p, g, e, q);
    assert q == g * p;
    assert p * q == g * e by {
      Reorder(p, g, p);
    }
    assert g * e > 0.0 by {
      ScaleStrict(g, 0.0, e);
    }
    SelfRatio(NormProduct(a, b, env.sqrt), Abs(gain) * Energy(a));
  }

  lemma SelfRatio(d: real, d': real)
    requires d == d' > 0.0
    ensures Normalised(d', d) == 1.0
  {
  }

  lemma RootOfScaled(p: real, g: real, e: real, q: real)
    requires p >= 0.0 && p * p == e && g > 0.0 && e > 0.0
    requires q >= 0.0 && q * q == g * g * e
    ensures q == g * p
  {
    var r := g * p;
    Reorder(1.0, g, p);
    MulMonotone(0.0, g, p);
    if q < r {
      SquaresOrder(q, r);
    } else if r < q {
      SquaresOrder(r, q);
    }
  }

  /**
   Exact recovery with the documented sign: if b is a delayed by `delay` samples (any gain, either
   polarity, nothing cut off, delay inside the search range), the reported offset is exactly +delay
   samples, with no sub-sample correction and full confidence.
   */
  lemma ExactDelay(a: seq<real>, b: seq<real>, delay: int, gain: real, rate: int, cfg: Config, env: Env)
    requires Delayed(a, b, delay, gain) && gain != 0.0 && !Silent(a)
    requires a != [] && rate > 0 && ValidEnv(env)
    requires -MaxLag(rate, cfg) <= delay <= MaxLag(rate, cfg)
    ensures Align(a, b, rate, cfg, env.sqrt)
         == AlignmentResult(Seconds(delay as real, rate), delay as real, 1.0, gain * Energy(a),
                            1.0 >= cfg.minConfidence)
  {
    DelayFits(a, b, delay, gain);
    var lo, hi := FirstLag(|a|, MaxLag(rate, cfg)), LastLag(|a|, MaxLag(rate, cfg));
    PeakIndex(a, b, delay, gain, lo, hi);
    PeakValue(a, b, delay, gain);
    PeakIsSymmetric(a, b, delay, gain);
    FullConfidence(a, b, delay, gain, env);
    var mag := Magnitudes(a, b, lo, hi);
    var peak := ArgMax(mag);
    if 0 < peak < |mag| - 1 {
      assert mag[peak - 1] == mag[peak + 1];
      SymmetricPeakIsExact(mag[peak - 1], mag[peak], mag[peak + 1]);
    }
    assert mag[peak] == Abs(gain) * Energy(a);
    assert -((lo + peak) as real + 0.0) == delay as real;
  }

  lemma SymmetricPeakIsExact(y: real, z: real, y': real)
    requires y == y'
    ensures ParabolicOffset(y, z, y') == 0.0
  {
    var denom := y - 2.0 * z + y';
    if denom != 0.0 {
      ZeroOver(denom);
    }
  }
}
