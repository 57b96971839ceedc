/** The sub-sample refinement and the mean removal of `inference/audio_xcorr.py`, and what they do to an exact delay. */
module MeanRemoval {
  import opened Numerics
  import opened RangeSums
  import opened CrossCorrelation

  // ---- Sub-sample refinement ----------------------------------------------------------------------

  function Parabola(yMinus: real, yZero: real, yPlus: real, x: real): real {
    yZero + (yPlus - yMinus) / 2.0 * x + (yMinus - 2.0 * yZero + yPlus) / 2.0 * (x * x)
  }

  /** At a peak the correction is the true vertex: never clamped, and the parabola is largest there. */
  lemma CorrectionIsVertex(yMinus: real, yZero: real, yPlus: real, x: real)
    requires yMinus <= yZero && yPlus <= yZero && !(yMinus == yZero == yPlus)
    ensures var delta := ParabolicOffset(yMinus, yZero, yPlus);
      && -0.5 <= delta <= 0.5
      && Parabola(yMinus, yZero, yPlus, x) <= Parabola(yMinus, yZero, yPlus, delta)
  {
    var d := -(yMinus - 2.0 * yZero + yPlus);
    var e := 0.5 * (yMinus - yPlus);
    var delta := e / -d;
    NegatedQuotient(e, d);
    DivMonotone(-0.5 * d, -e, d);
    DivMonotone(-e, 0.5 * d, d);
    HalfOf(d);
    assert ParabolicOffset(yMinus, yZero, yPlus) == delta;
    assert delta * d == -e;
    VertexIsLargest(yZero, d, delta, x);
    assert (yPlus - yMinus) / 2.0 == d * delta;
  }

  lemma HalfOf(d: real)
    requires d > 0.0
    ensures 0.5 * d / d == 0.5 && -0.5 * d / d == -0.5
  {
  }

  lemma NegatedQuotient(e: real, d: real)
    requires d > 0.0
    ensures e / -d == -e / d
  {
    var q := e / -d;
    assert q * -d == e;
    assert q * d == -e;
  }

  lemma VertexIsLargest(y: real, d: real, v: real, x: real)
    requires d > 0.0
    ensures y + d * v * x - d / 2.0 * (x * x) <= y + d * v * v - d / 2.0 * (v * v)
  {
    var gap := Square(x - v);
    assert gap == x * x - 2.0 * (x * v) + v * v;
    MulMonotone(0.0, gap, d / 2.0);
  }

  lemma {:induction false} SumIsRange(a: seq<real>)
    ensures Sum(a) == SumRange(Signal(a), 0, |a|)
  {
    if a != [] {
      var last := |a| - 1;
      var before := a[..last];
      SumIsRange(before);
      SumAppend(before, a[last]);
      assert a == before + [a[last]];
      SumShift(Signal(a), Signal(before), 0, last, 0);
    }
  }

  // ---- When the reported offset is the delay ------------------------------------------------------

  /** The lag at which the magnitude is largest in the search range. */
  function PeakLag(a: seq<real>, b: seq<real>, rate: int, cfg: Config): int
    requires |a| == |b| > 0 && MaxLag(rate, cfg) >= 0
  {
    var lo, hi := FirstLag(|a|, MaxLag(rate, cfg)), LastLag(|a|, MaxLag(rate, cfg));
    lo + ArgMax(Magnitudes(a, b, lo, hi))
  }

  /** The lag is the first or last that is searched. */
  predicate AtEdge(n: nat, rate: int, cfg: Config, lag: int) {
    lag == FirstLag(n, MaxLag(rate, cfg)) || lag == LastLag(n, MaxLag(rate, cfg))
  }

  lemma CorrectionIsZeroIff(yMinus: real, yZero: real, yPlus: real)
    requires yMinus <= yZero && yPlus <= yZero
    ensures -0.5 <= ParabolicOffset(yMinus, yZero, yPlus) <= 0.5
    ensures ParabolicOffset(yMinus, yZero, yPlus) == 0.0 <==> yMinus == yPlus
  {
    if yMinus == yPlus {
      SymmetricPeakIsExact(yMinus, yZero, yPlus);
    } else {
      CorrectionIsVertex(yMinus, yZero, yPlus, 0.0);
      var d := -(yMinus - 2.0 * yZero + yPlus);
      var e := 0.5 * (yMinus - yPlus);
      NegatedQuotient(e, d);
      NonZeroQuotient(-e, d);
      DivMonotone(-0.5 * d, -e, d);
      DivMonotone(-e, 0.5 * d, d);
      HalfOf(d);
    }
  }

  lemma WholeSamples(lag: int, sub: real, delay: int)
    requires -0.5 <= sub <= 0.5
    ensures -(lag as real + sub) == delay as real <==> lag == -delay && sub == 0.0
  {
  }

  function Correction(mag: seq<real>, peak: nat): real
    requires peak < |mag|
  {
    if 0 < peak < |mag| - 1 then ParabolicOffset(mag[peak - 1], mag[peak], mag[peak + 1]) else 0.0
  }

  lemma CorrectionBySymmetry(mag: seq<real>, peak: nat)
    requires peak < |mag| && forall k :: 0 <= k < |mag| ==> mag[k] <= mag[peak]
    ensures -0.5 <= Correction(mag, peak) <= 0.5
    ensures Correction(mag, peak) == 0.0 <==> peak == 0 || peak == |mag| - 1 || mag[peak - 1] == mag[peak + 1]
  {
    if 0 < peak < |mag| - 1 {
      CorrectionIsZeroIff(mag[peak - 1], mag[peak], mag[peak + 1]);
    }
  }

  lemma OffsetOfPeak(a: seq<real>, b: seq<real>, rate: int, cfg: Config, env: Env)
    requires |a| == |b| > 0 && rate > 0 && MaxLag(rate, cfg) >= 0
    ensures var lo, hi := FirstLag(|a|, MaxLag(rate, cfg)), LastLag(|a|, MaxLag(rate, cfg));
      var mag := Magnitudes(a, b, lo, hi);
      Align(a, b, rate, cfg, env.sqrt).sampleOffset == -((lo + ArgMax(mag)) as real + Correction(mag, ArgMax(mag)))
  {
  }

  /**
   For any two windows: the reported offset is `delay` samples if and only if the magnitude peaks there and, in
   the interior of the search range, its two neighbours have the same magnitude. With the peak in place the
   error is at most half a sample.
   */
  lemma OffsetIsDelayIff(a: seq<real>, b: seq<real>, delay: int, rate: int, cfg: Config, env: Env)
    requires |a| == |b| > 0 && rate > 0 && MaxLag(rate, cfg) >= 0
    ensures var offset := Align(a, b, rate, cfg, env.sqrt).sampleOffset;
      && (offset == delay as real <==>
            && PeakLag(a, b, rate, cfg) == -delay
            && (AtEdge(|a|, rate, cfg, -delay) || Abs(Corr(a, b, -delay - 1)) == Abs(Corr(a, b, -delay + 1))))
      && (PeakLag(a, b, rate, cfg) == -delay ==> Abs(offset - delay as real) <= 0.5)
  {
    var lo, hi := FirstLag(|a|, MaxLag(rate, cfg)), LastLag(|a|, MaxLag(rate, cfg));
    var mag := Magnitudes(a, b, lo, hi);
    CorrectionBySymmetry(mag, ArgMax(mag));
    OffsetOfPeak(a, b, rate, cfg, env);
    WholeSamples(lo + ArgMax(mag), Correction(mag, ArgMax(mag)), delay);
  }

  /** x is where the parabola through the three values has its vertex, and 0 if they lie on a line. */
  predicate IsVertex(x: real, yMinus: real, yZero: real, yPlus: real) {
    var bend := yMinus - 2.0 * yZero + yPlus;
    if bend == 0.0 then x == 0.0 else x * bend == 0.5 * (yMinus - yPlus)
  }

  lemma PeakVertex(yMinus: real, yZero: real, yPlus: real)
    requires yMinus <= yZero && yPlus <= yZero
    ensures IsVertex(ParabolicOffset(yMinus, yZero, yPlus), yMinus, yZero, yPlus)
    ensures -0.5 <= ParabolicOffset(yMinus, yZero, yPlus) <= 0.5
  {
    CorrectionIsZeroIff(yMinus, yZero, yPlus);
    var bend := yMinus - 2.0 * yZero + yPlus;
    if bend < 0.0 {
      var q := 0.5 * (yMinus - yPlus) / bend;
      BendBounds(0.5 * (yMinus - yPlus), bend, q);
    }
  }

  lemma BendBounds(e: real, bend: real, q: real)
    requires bend < 0.0 && q == e / bend && bend / 2.0 <= e <= -bend / 2.0
    ensures q * bend == e && -0.5 <= q <= 0.5
  {
    assert q * bend == e;
    if q > 0.5 {
      MulStrict(0.5, q, -bend);
    }
    if q < -0.5 {
      MulStrict(q, -0.5, -bend);
    }
  }

  lemma CorrectionIsVertexAt(mag: seq<real>, peak: nat)
    requires peak < |mag| && forall k :: 0 <= k < |mag| ==> mag[k] <= mag[peak]
    ensures -0.5 <= Correction(mag, peak) <= 0.5
    ensures if 0 < peak < |mag| - 1 then IsVertex(Correction(mag, peak), mag[peak - 1], mag[peak], mag[peak + 1])
            else Correction(mag, peak) == 0.0
  {
    if 0 < peak < |mag| - 1 {
      PeakVertex(mag[peak - 1], mag[peak], mag[peak + 1]);
    }
  }

  /**
   The reported offset of any two windows: minus the lag of largest magnitude, refined by at most half a sample to
   the vertex of the parabola through that magnitude and its two neighbours, unless the lag is the first or last
   searched; in seconds, the same over the rate.
   */
  lemma ReportedOffsetIs(a: seq<real>, b: seq<real>, rate: int, cfg: Config, env: Env) returns (peak: int)
    requires |a| == |b| > 0 && rate > 0 && MaxLag(rate, cfg) >= 0
    ensures IsPeak(a, b, MaxLag(rate, cfg), peak)
    ensures var r := Align(a, b, rate, cfg, env.sqrt);
      var x := -r.sampleOffset - peak as real;
      && -0.5 <= x <= 0.5 && r.offsetS == r.sampleOffset / rate as real
      && if peak == Max(1 - |a|, -MaxLag(rate, cfg)) || peak == Min(|a| - 1, MaxLag(rate, cfg)) then x == 0.0
         else IsVertex(x, Abs(Corr(a, b, peak - 1)), Abs(Corr(a, b, peak)), Abs(Corr(a, b, peak + 1)))
  {
    peak := PeakOf(a, b, MaxLag(rate, cfg));
    var x := CorrectionAtPeak(a, b, MaxLag(rate, cfg), peak);
    OffsetOfPeak(a, b, rate, cfg, env);
  }

  lemma CorrectionAtPeak(a: seq<real>, b: seq<real>, maxLag: int, peak: int) returns (x: real)
    requires |a| == |b| > 0 && maxLag >= 0
    requires var lo := FirstLag(|a|, maxLag); peak == lo + ArgMax(Magnitudes(a, b, lo, LastLag(|a|, maxLag)))
    ensures var mag := Magnitudes(a, b, FirstLag(|a|, maxLag), LastLag(|a|, maxLag)); x == Correction(mag, ArgMax(mag))
    ensures -0.5 <= x <= 0.5
    ensures if peak == Max(1 - |a|, -maxLag) || peak == Min(|a| - 1, maxLag) then x == 0.0
            else IsVertex(x, Abs(Corr(a, b, peak - 1)), Abs(Corr(a, b, peak)), Abs(Corr(a, b, peak + 1)))
  {
    var mag := Magnitudes(a, b, FirstLag(|a|, maxLag), LastLag(|a|, maxLag));
    x := Correction(mag, ArgMax(mag));
    CorrectionIsVertexAt(mag, ArgMax(mag));
  }

  /** The search range in samples is the window in milliseconds times the rate, rounded. */
  lemma MaxLagIs(rate: int, cfg: Config)
    ensures -500.0 <= cfg.searchWindowMs * rate as real - 1000.0 * MaxLag(rate, cfg) as real <= 500.0
  {
    var x := cfg.searchWindowMs / 1000.0 * rate as real;
    RoundIs(x);
    assert 1000.0 * x == cfg.searchWindowMs * rate as real;
  }

  // ---- What the means do to the neighbours of the peak ------------------------------------------------

  lemma ZeroFactor(x: real, y: real)
    requires x != 0.0 && x * y == 0.0
    ensures y == 0.0
  {
  }

  lemma WideDelaySum(a: seq<real>, delay: int, lo: int, hi: int)
    requires lo <= 0 && lo <= delay && |a| <= hi && |a| + delay <= hi
    ensures SumRange(Delay(a, delay), lo, hi) == Sum(a)
  {
    SumIsRange(a);
    SumShift(Signal(a), Delay(a, delay), lo, hi, -delay);
    SumSupport(Signal(a), |a|, lo - delay, hi - delay);
  }

  ghost predicate Scales(f: int -> real, h: int -> real, c: real, lo: int, hi: int) {
    forall i :: lo <= i < hi ==> h(i) == c * f(i)
  }

  lemma SumScales(f: int -> real, h: int -> real, c: real, lo: int, hi: int)
    requires Scales(f, h, c, lo, hi)
    ensures SumRange(h, lo, hi) == c * SumRange(f, lo, hi)
  {
    SumScale(f, h, c, lo, hi);
  }

  lemma ScalesWide(a: seq<real>, b: seq<real>, delay: int, gain: real, lo: int, hi: int)
    requires Delayed(a, b, delay, gain)
    ensures Scales(Delay(a, delay), Delay(b, 0), gain, lo, hi)
  {
    forall i | lo <= i < hi ensures Delay(b, 0)(i) == gain * Delay(a, delay)(i) {
      assert At(b, i) == gain * At(a, i - delay);
    }
  }

  lemma WideSums(a: seq<real>, b: seq<real>, delay: int, k: int)
    requires |a| == |b| && 0 <= k && -k <= delay <= k
    ensures SumRange(Delay(a, delay), -k, |a| + k) == Sum(a)
    ensures SumRange(Delay(b, 0), -k, |a| + k) == Sum(b)
  {
    WideDelaySum(a, delay, -k, |a| + k);
    WideDelaySum(b, 0, -k, |a| + k);
  }

  lemma ScaledTotals(f: int -> real, h: int -> real, c: real, lo: int, hi: int) returns (x: real, y: real)
    requires Scales(f, h, c, lo, hi)
    ensures y == c * x && x == SumRange(f, lo, hi) && y == SumRange(h, lo, hi)
  {
    x, y := SumRange(f, lo, hi), SumRange(h, lo, hi);
    SumScales(f, h, c, lo, hi);
  }

  lemma WideTotals(a: seq<real>, b: seq<real>, delay: int, gain: real, lo: int, hi: int) returns (x: real, y: real)
    requires Delayed(a, b, delay, gain)
    ensures y == gain * x && x == SumRange(Delay(a, delay), lo, hi) && y == SumRange(Delay(b, 0), lo, hi)
  {
    ScalesWide(a, b, delay, gain, lo, hi);
    x, y := ScaledTotals(Delay(a, delay), Delay(b, 0), gain, lo, hi);
  }

  lemma SumsScale(a: seq<real>, b: seq<real>, delay: int, gain: real) returns (sa: real, sb: real)
    requires Delayed(a, b, delay, gain)
    ensures sb == gain * sa && sa == Sum(a) && sb == Sum(b)
  {
    var k := Max(delay, -delay);
    sa, sb := WideTotals(a, b, delay, gain, -k, |a| + k);
    WideSums(a, b, delay, k);
  }

  lemma MeanOver(a: seq<real>, sum: real, n: real)
    requires a != [] && sum == Sum(a) && n == |a| as real
    ensures Mean(a) == sum / n
  {
  }

  lemma MeanOfDelayed(a: seq<real>, b: seq<real>, delay: int, gain: real)
    requires a != [] && Delayed(a, b, delay, gain)
    ensures Mean(b) == gain * Mean(a)
  {
    var sa, sb := SumsScale(a, b, delay, gain);
    MeansScale(a, b, gain, sa, sb, |a| as real);
  }

  lemma MeansScale(a: seq<real>, b: seq<real>, gain: real, sa: real, sb: real, n: real)
    requires a != [] && b != [] && n == |a| as real == |b| as real
    requires sb == gain * sa && sa == Sum(a) && sb == Sum(b)
    ensures Mean(b) == gain * Mean(a)
  {
    MeanOver(a, sa, n);
    MeanOver(b, sb, n);
    ScaledQuotient(gain, sa, n, sb);
  }

  lemma ScaledQuotient(g: real, x: real, n: real, y: real)
    requires n > 0.0 && y == g * x
    ensures y / n == g * (x / n)
  {
    var q := x / n;
    assert q * n == x;
    assert g * q * n == g * x;
  }

  /**
   The centred windows of an exact delay by `delay` > 0: still copies of each other where both have sound, and
   minus the mean in the silence before it in b and after it in a.
   */
  lemma CentredCopy(a: seq<real>, b: seq<real>, delay: int, gain: real, j: int)
    requires Delayed(a, b, delay, gain) && gain != 0.0 && 0 < delay < |a| && 0 <= j < |a|
    ensures j >= delay ==> At(ZeroMean(b), j) == gain * At(ZeroMean(a), j - delay)
    ensures j < delay ==> At(ZeroMean(b), j) == gain * -Mean(a)
    ensures j >= |a| - delay ==> At(ZeroMean(a), j) == -Mean(a)
  {
    MeanOfDelayed(a, b, delay, gain);
    assert At(b, j) == gain * At(a, j - delay);
    if j >= delay {
      Difference(gain, At(a, j - delay), Mean(a));
    }
    if j >= |a| - delay {
      assert At(b, j + delay) == gain * At(a, j + delay - delay);
      ZeroFactor(gain, At(a, j));
    }
  }

  lemma Difference(g: real, x: real, y: real)
    ensures g * x - g * y == g * (x - y)
  {
  }

  /** The product of neighbouring samples of one window. */
  function Step(z: seq<real>): int -> real {
    i => At(z, i) * At(z, i - 1)
  }

  lemma NextTerm(a: seq<real>, b: seq<real>, delay: int, gain: real, i: int)
    requires Delayed(a, b, delay, gain) && gain != 0.0 && 0 < delay < |a| && 1 <= i <= |a| - delay
    ensures var za, zb := ZeroMean(a), ZeroMean(b);
      Times(Signal(za), Delay(zb, -delay + 1))(i) == gain * Step(za)(i)
  {
    var za, zb := ZeroMean(a), ZeroMean(b);
    CentredCopy(a, b, delay, gain, i + delay - 1);
    NextProduct(za, zb, delay, gain, i);
  }

  lemma NextProduct(za: seq<real>, zb: seq<real>, delay: int, gain: real, i: int)
    requires At(zb, i + delay - 1) == gain * At(za, i - 1)
    ensures Times(Signal(za), Delay(zb, -delay + 1))(i) == gain * Step(za)(i)
  {
    Reorder(At(za, i), gain, At(za, i - 1));
  }

  /** The products of neighbours, counted from the earlier one. */
  function StepTo(z: seq<real>): int -> real {
    i => Step(z)(i + 1)
  }

  lemma PreviousTerm(a: seq<real>, b: seq<real>, delay: int, gain: real, i: int)
    requires Delayed(a, b, delay, gain) && gain != 0.0 && 0 < delay < |a| && 0 <= i < |a| - delay - 1
    ensures var za, zb := ZeroMean(a), ZeroMean(b);
      Times(Signal(za), Delay(zb, -delay - 1))(i) == gain * StepTo(za)(i)
  {
    var za, zb := ZeroMean(a), ZeroMean(b);
    CentredCopy(a, b, delay, gain, i + delay + 1);
    PreviousProduct(za, zb, delay, gain, i);
  }

  lemma PreviousProduct(za: seq<real>, zb: seq<real>, delay: int, gain: real, i: int)
    requires At(zb, i + delay + 1) == gain * At(za, i + 1)
    ensures Times(Signal(za), Delay(zb, -delay - 1))(i) == gain * StepTo(za)(i)
  {
    Reorder(At(za, i), gain, At(za, i + 1));
    assert i - (-delay - 1) == i + delay + 1;
    assert StepTo(za)(i) == Step(za)(i + 1) == At(za, i + 1) * At(za, i);
  }

  /** Outside the overlap of the two windows the correlation has no terms. */
  lemma CorrOnOverlap(a: seq<real>, b: seq<real>, lag: int, lo: int, hi: int)
    requires |a| == |b| && lo == Max(0, lag) <= hi == Min(|a|, |a| + lag)
    ensures Corr(a, b, lag) == SumRange(Times(Signal(a), Delay(b, lag)), lo, hi)
  {
    var f := Times(Signal(a), Delay(b, lag));
    forall i | 0 <= i < lo || hi <= i < |a| ensures f(i) == 0.0 {
      assert At(b, i - lag) == 0.0;
    }
    SumSplit(f, 0, lo, |a|);
    SumSplit(f, lo, hi, |a|);
    SumZero(f, 0, lo);
    SumZero(f, hi, |a|);
  }

  lemma ScalesAfter(a: seq<real>, b: seq<real>, delay: int, gain: real)
    requires Delayed(a, b, delay, gain) && gain != 0.0 && 0 < delay < |a| - 1
    ensures var za, zb := ZeroMean(a), ZeroMean(b);
      Scales(Step(za), Times(Signal(za), Delay(zb, -delay + 1)), gain, 1, |a| - delay + 1)
  {
    forall i | 1 <= i < |a| - delay + 1
      ensures Times(Signal(ZeroMean(a)), Delay(ZeroMean(b), -delay + 1))(i) == gain * Step(ZeroMean(a))(i)
    {
      NextTerm(a, b, delay, gain, i);
    }
  }

  lemma ScalesBefore(a: seq<real>, b: seq<real>, delay: int, gain: real)
    requires Delayed(a, b, delay, gain) && gain != 0.0 && 0 < delay < |a| - 1
    ensures var za, zb := ZeroMean(a), ZeroMean(b);
      Scales(StepTo(za), Times(Signal(za), Delay(zb, -delay - 1)), gain, 0, |a| - delay - 1)
  {
    forall i | 0 <= i < |a| - delay - 1
      ensures Times(Signal(ZeroMean(a)), Delay(ZeroMean(b), -delay - 1))(i) == gain * StepTo(ZeroMean(a))(i)
    {
      PreviousTerm(a, b, delay, gain, i);
    }
  }

  lemma StepToSum(z: seq<real>, n: int)
    ensures SumRange(StepTo(z), 0, n) == SumRange(Step(z), 1, n + 1)
  {
    SumShift(Step(z), StepTo(z), 0, n, 1);
  }

  lemma FirstAndRest(f: int -> real, hi: int)
    requires hi >= 1
    ensures SumRange(f, 0, hi) == f(0) + SumRange(f, 1, hi)
  {
    SumSplit(f, 0, 1, hi);
    assert SumRange(f, 0, 1) == SumRange(f, 0, 0) + f(0);
  }

  function EdgeAndRest(x: real, y: real, gain: real, rest: real): real {
    x * y + gain * rest
  }

  lemma SumAfter(za: seq<real>, zb: seq<real>, n: nat, delay: int, gain: real)
    requires |za| == |zb| == n && 0 < delay < n - 1
    requires Scales(Step(za), Times(Signal(za), Delay(zb, -delay + 1)), gain, 1, n - delay + 1)
    ensures Corr(za, zb, -delay + 1)
         == EdgeAndRest(At(za, 0), At(zb, delay - 1), gain, SumRange(Step(za), 1, n - delay + 1))
  {
    var f, hi := Times(Signal(za), Delay(zb, -delay + 1)), n - delay + 1;
    CorrOnOverlap(za, zb, -delay + 1, 0, hi);
    FirstAndRest(f, hi);
    SumScales(Step(za), f, gain, 1, hi);
  }

  lemma SumBefore(za: seq<real>, zb: seq<real>, n: nat, delay: int, gain: real)
    requires |za| == |zb| == n && 0 < delay < n - 1
    requires Scales(StepTo(za), Times(Signal(za), Delay(zb, -delay - 1)), gain, 0, n - delay - 1)
    ensures Corr(za, zb, -delay - 1) == EdgeAndRest(0.0, 0.0, gain, SumRange(Step(za), 1, n - delay))
  {
    var f, hi := Times(Signal(za), Delay(zb, -delay - 1)), n - delay - 1;
    CorrOnOverlap(za, zb, -delay - 1, 0, hi);
    SumScales(StepTo(za), f, gain, 0, hi);
    StepToSum(za, hi);
  }

  /** Twice the mean less the two edge samples, weighted. */
  function Gap(gain: real, mean: real, edges: real): real {
    gain * mean * (2.0 * mean - edges)
  }

  lemma GapAlgebra(g: real, u: real, x: real, y: real, s: real)
    ensures (x - u) * (g * -u) + g * (s + -u * (y - u)) - g * s == Gap(g, u, x + y)
  {
    var p := g * u;
    assert (x - u) * (g * -u) == p * u - p * x;
    assert g * (s + -u * (y - u)) == g * s + g * (-u * (y - u));
    assert g * (-u * (y - u)) == p * u - p * y;
    assert p * (2.0 * u - (x + y)) == 2.0 * (p * u) - p * x - p * y;
  }

  /** The two samples of a that the lags next to the peak cut off, one at each end. */
  function Edges(a: seq<real>, delay: int): real {
    if delay > 0 then At(a, 0) + At(a, |a| - 1 - delay) else At(a, -delay) + At(a, |a| - 1)
  }

  /** u is the mean, e and h the two edge samples, z and y the same less the mean, s the common terms. */
  lemma GapOfReals(g: real, u: real, e: real, h: real, z: real, y: real, s: real, s': real, c: real,
                   after: real, before: real)
    requires z == e - u && y == h - u && c == g * -u && s' == s + -u * y
    requires after == EdgeAndRest(z, c, g, s') && before == EdgeAndRest(0.0, 0.0, g, s)
    ensures after - before == Gap(g, u, e + h)
  {
    GapAlgebra(g, u, e, h, s);
  }

  lemma GapOfSteps(a: seq<real>, k: nat, gain: real, x: real, y: real, c: real)
    requires 1 < k < |a| && At(ZeroMean(a), k) == -Mean(a)
    requires c == gain * -Mean(a)
    requires x == EdgeAndRest(At(ZeroMean(a), 0), c, gain, SumRange(Step(ZeroMean(a)), 1, k + 1))
    requires y == EdgeAndRest(0.0, 0.0, gain, SumRange(Step(ZeroMean(a)), 1, k))
    ensures x - y == Gap(gain, Mean(a), At(a, 0) + At(a, k - 1))
  {
    var za, u := ZeroMean(a), Mean(a);
    var s := SumRange(Step(za), 1, k);
    var s' := LastStep(za, k, u, s);
    GapOfReals(gain, u, At(a, 0), At(a, k - 1), At(za, 0), At(za, k - 1), s, s', c, x, y);
  }

  lemma LastStep(za: seq<real>, k: nat, u: real, s: real) returns (more: real)
    requires 1 < k && At(za, k) == -u && s == SumRange(Step(za), 1, k)
    ensures more == SumRange(Step(za), 1, k + 1) && more == s + -u * At(za, k - 1)
  {
    more := SumRange(Step(za), 1, k + 1);
  }

  /** What an exact delay by `delay` > 0 leaves of the two correlations next to the peak once the means are gone. */
  ghost predicate LaterCopy(a: seq<real>, zb: seq<real>, n: nat, delay: int, gain: real)
    requires |a| == n > 0
  {
    && |zb| == n && 0 < delay < n - 1
    && Scales(Step(ZeroMean(a)), Times(Signal(ZeroMean(a)), Delay(zb, -delay + 1)), gain, 1, n - delay + 1)
    && Scales(StepTo(ZeroMean(a)), Times(Signal(ZeroMean(a)), Delay(zb, -delay - 1)), gain, 0, n - delay - 1)
    && At(ZeroMean(a), n - delay) == -Mean(a) && At(zb, delay - 1) == gain * -Mean(a)
  }

  lemma DelayedIsLaterCopy(a: seq<real>, b: seq<real>, delay: int, gain: real)
    requires Delayed(a, b, delay, gain) && gain != 0.0 && 0 < delay < |a| - 1
    ensures LaterCopy(a, ZeroMean(b), |a|, delay, gain)
  {
    ScalesAfter(a, b, delay, gain);
    ScalesBefore(a, b, delay, gain);
    CentredCopy(a, b, delay, gain, |a| - delay);
    CentredCopy(a, b, delay, gain, delay - 1);
  }

  lemma CorrAfter(a: seq<real>, zb: seq<real>, n: nat, delay: int, gain: real)
    requires |a| == n > 0 && LaterCopy(a, zb, n, delay, gain)
    ensures var za := ZeroMean(a);
      Corr(za, zb, -delay + 1) == EdgeAndRest(At(za, 0), At(zb, delay - 1), gain, SumRange(Step(za), 1, n - delay + 1))
  {
    SumAfter(ZeroMean(a), zb, n, delay, gain);
  }

  lemma CorrBefore(a: seq<real>, zb: seq<real>, n: nat, delay: int, gain: real)
    requires |a| == n > 0 && LaterCopy(a, zb, n, delay, gain)
    ensures Corr(ZeroMean(a), zb, -delay - 1) == EdgeAndRest(0.0, 0.0, gain, SumRange(Step(ZeroMean(a)), 1, n - delay))
  {
    SumBefore(ZeroMean(a), zb, n, delay, gain);
  }

  lemma LaterEnds(a: seq<real>, zb: seq<real>, n: nat, delay: int, gain: real)
    requires |a| == n > 0 && LaterCopy(a, zb, n, delay, gain)
    ensures 0 < delay < n - 1 && At(ZeroMean(a), n - delay) == -Mean(a) && At(zb, delay - 1) == gain * -Mean(a)
  {
  }

  /** All common terms cancel; what remains are the two edges, each against the mean. */
  lemma GapOfLater(a: seq<real>, b: seq<real>, delay: int, gain: real)
    requires Delayed(a, b, delay, gain) && gain != 0.0 && 0 < delay < |a| - 1
    ensures Corr(ZeroMean(a), ZeroMean(b), -delay + 1) - Corr(ZeroMean(a), ZeroMean(b), -delay - 1)
         == Gap(gain, Mean(a), Edges(a, delay))
  {
    DelayedIsLaterCopy(a, b, delay, gain);
    GapOfCopy(a, ZeroMean(b), |a|, delay, gain);
  }

  lemma GapOfCopy(a: seq<real>, zb: seq<real>, n: nat, delay: int, gain: real)
    requires |a| == n > 0 && LaterCopy(a, zb, n, delay, gain)
    ensures Corr(ZeroMean(a), zb, -delay + 1) - Corr(ZeroMean(a), zb, -delay - 1)
         == Gap(gain, Mean(a), Edges(a, delay))
  {
    CorrAfter(a, zb, n, delay, gain);
    CorrBefore(a, zb, n, delay, gain);
    LaterEnds(a, zb, n, delay, gain);
    GapOfSteps(a, n - delay, gain, Corr(ZeroMean(a), zb, -delay + 1), Corr(ZeroMean(a), zb, -delay - 1),
               At(zb, delay - 1));
  }

  lemma DelayedBack(a: seq<real>, b: seq<real>, delay: int, gain: real)
    requires Delayed(a, b, delay, gain) && gain != 0.0
    ensures Delayed(b, a, -delay, 1.0 / gain)
  {
    forall i ensures At(a, i) == 1.0 / gain * At(b, i + delay) {
      assert At(b, i + delay) == gain * At(a, i + delay - delay);
      Inverse(gain, At(a, i));
    }
  }

  lemma Inverse(g: real, x: real)
    requires g != 0.0
    ensures 1.0 / g * (g * x) == x
  {
    assert 1.0 / g * g == 1.0;
    assert 1.0 / g * (g * x) == (1.0 / g * g) * x;
  }

  lemma GapBack(g: real, u: real, e: real, h: real)
    requires g != 0.0
    ensures Gap(1.0 / g, g * u, g * e + g * h) == Gap(g, u, e + h)
  {
    var w := 2.0 * u - (e + h);
    assert 2.0 * (g * u) - (g * e + g * h) == g * w;
    Inverse(g, u);
    assert u * (g * w) == g * u * w;
  }

  lemma EdgesBack(a: seq<real>, b: seq<real>, delay: int, gain: real)
    requires Delayed(a, b, delay, gain) && delay < 0
    ensures Edges(b, -delay) == gain * At(a, -delay) + gain * At(a, |a| - 1)
  {
    assert At(b, 0) == gain * At(a, 0 - delay);
    assert At(b, |b| - 1 + delay) == gain * At(a, |a| - 1 + delay - delay);
  }

  lemma InverseIsNotZero(g: real)
    requires g != 0.0
    ensures 1.0 / g != 0.0
  {
    assert 1.0 / g * g == 1.0;
  }

  lemma BackGap(a: seq<real>, b: seq<real>, delay: int, gain: real)
    requires Delayed(a, b, delay, gain) && gain != 0.0 && delay < 0 && a != []
    ensures Gap(1.0 / gain, Mean(b), Edges(b, -delay)) == Gap(gain, Mean(a), Edges(a, delay))
  {
    MeanOfDelayed(a, b, delay, gain);
    EdgesBack(a, b, delay, gain);
    GapBack(gain, Mean(a), At(a, -delay), At(a, |a| - 1));
  }

  lemma SwapGap(za: seq<real>, zb: seq<real>, delay: int)
    requires |za| == |zb|
    ensures Corr(za, zb, -delay + 1) - Corr(za, zb, -delay - 1) ==
            -(Corr(zb, za, delay + 1) - Corr(zb, za, delay - 1))
  {
    CorrSwap(za, zb, -delay + 1);
    CorrSwap(za, zb, -delay - 1);
  }

  lemma GapOfEarlier(a: seq<real>, b: seq<real>, delay: int, gain: real)
    requires Delayed(a, b, delay, gain) && gain != 0.0 && 0 < -delay < |a| - 1
    ensures Corr(ZeroMean(a), ZeroMean(b), -delay + 1) - Corr(ZeroMean(a), ZeroMean(b), -delay - 1)
         == -Gap(gain, Mean(a), Edges(a, delay))
  {
    SwapGap(ZeroMean(a), ZeroMean(b), delay);
    BackGap(a, b, delay, gain);
    DelayedBack(a, b, delay, gain);
    InverseIsNotZero(gain);
    GapOfLater(b, a, -delay, 1.0 / gain);
  }

  lemma ZeroMeanIsIdentity(a: seq<real>)
    requires a != [] && Mean(a) == 0.0
    ensures ZeroMean(a) == a
  {
  }

  /**
   Subtracting each window's own mean keeps an exact delay exact only when there is nothing to subtract:
   the silence that slides in at one edge would otherwise be lifted off zero.
   */
  lemma MeanRemovalKeepsDelayIff(a: seq<real>, b: seq<real>, delay: int)
    requires a != [] && Delayed(a, b, delay, 1.0)
    ensures Delayed(ZeroMean(a), ZeroMean(b), delay, 1.0) <==> delay == 0 || Mean(a) == 0.0
  {
    MeanOfDelayed(a, b, delay, 1.0);
    if Mean(a) == 0.0 {
      ZeroMeanIsIdentity(a);
      ZeroMeanIsIdentity(b);
    } else if delay == 0 {
      forall i ensures At(ZeroMean(b), i) == 1.0 * At(ZeroMean(a), i - 0) {
        assert At(b, i) == 1.0 * At(a, i - 0);
      }
    } else {
      var edge := if delay > 0 then 0 else |a| - 1;
      assert At(b, edge) == 1.0 * At(a, edge - delay);
      assert At(ZeroMean(b), edge) == 0.0 - Mean(b);
      assert At(ZeroMean(a), edge - delay) == 0.0;
      assert At(ZeroMean(b), edge) != 1.0 * At(ZeroMean(a), edge - delay);
    }
  }

  /**
   After mean removal the two neighbours of the true lag differ by the gain times the mean times how much twice
   the mean exceeds the two edge samples. Only without a mean, or with edges that happen to match, is the peak
   symmetric.
   */
  lemma MeanRemovalSkewsPeak(a: seq<real>, b: seq<real>, delay: int, gain: real)
    requires Delayed(a, b, delay, gain) && gain != 0.0 && delay != 0 && -|a| + 1 < delay < |a| - 1
    ensures var gap := Corr(ZeroMean(a), ZeroMean(b), -delay + 1) - Corr(ZeroMean(a), ZeroMean(b), -delay - 1);
      gap == if delay > 0 then Gap(gain, Mean(a), Edges(a, delay)) else -Gap(gain, Mean(a), Edges(a, delay))
  {
    if delay > 0 {
      GapOfLater(a, b, delay, gain);
    } else {
      GapOfEarlier(a, b, delay, gain);
    }
  }

  lemma NoGapIff(g: real, u: real, e: real)
    requires g != 0.0
    ensures Gap(g, u, e) == 0.0 <==> u == 0.0 || e == 2.0 * u
  {
    var w := 2.0 * u - e;
    if u != 0.0 && w != 0.0 {
      if g * u == 0.0 {
        ZeroFactor(g, u);
      }
      if g * u * w == 0.0 {
        ZeroFactor(g * u, w);
      }
    }
  }

  /**
   Exactly when an exact delay is still reported exactly after mean removal: the magnitude still peaks there
   and, inside the search range, the windows have mean 0, or the edge samples match twice the mean, or the two
   neighbours are exact opposites.
   */
  lemma OffsetSurvivesMeanRemovalIff(a: seq<real>, b: seq<real>, delay: int, gain: real, rate: int, cfg: Config,
                                     env: Env)
    requires Delayed(a, b, delay, gain) && gain != 0.0 && delay != 0 && a != []
    requires rate > 0 && MaxLag(rate, cfg) >= 0
    ensures var za, zb := ZeroMean(a), ZeroMean(b);
      Align(za, zb, rate, cfg, env.sqrt).sampleOffset == delay as real <==>
        && PeakLag(za, zb, rate, cfg) == -delay
        && (AtEdge(|a|, rate, cfg, -delay) || Mean(a) == 0.0 || Edges(a, delay) == 2.0 * Mean(a)
            || Corr(za, zb, -delay + 1) == -Corr(za, zb, -delay - 1))
  {
    var za, zb := ZeroMean(a), ZeroMean(b);
    OffsetIsDelayIff(za, zb, delay, rate, cfg, env);
    if PeakLag(za, zb, rate, cfg) == -delay && !AtEdge(|a|, rate, cfg, -delay) {
      MeanRemovalSkewsPeak(a, b, delay, gain);
      NoGapIff(gain, Mean(a), Edges(a, delay));
    }
  }

  /** With mean 0 there is nothing to subtract, and an exact delay is recovered exactly and with full confidence. */
  lemma ZeroMeanDelayIsExact(a: seq<real>, b: seq<real>, delay: int, gain: real, rate: int, cfg: Config, env: Env)
    requires Delayed(a, b, delay, gain) && gain != 0.0 && !Silent(a) && Mean(a) == 0.0
    requires a != [] && rate > 0 && ValidEnv(env)
    requires -MaxLag(rate, cfg) <= delay <= MaxLag(rate, cfg)
    ensures Align(ZeroMean(a), ZeroMean(b), rate, cfg, env.sqrt)
         == AlignmentResult(Seconds(delay as real, rate), delay as real, 1.0, gain * Energy(a),
                            1.0 >= cfg.minConfidence)
  {
    MeanOfDelayed(a, b, delay, gain);
    ZeroMeanIsIdentity(a);
    ZeroMeanIsIdentity(b);
    ExactDelay(a, b, delay, gain, rate, cfg, env);
  }

  /**
   Both through the whole function, for two windows that leave the filter as an exact delay of each other:
   exactly when the delay is reported, and that it always is when the filtered window has mean 0.
   */
  lemma ShotOffsetIff(a: seq<real>, b: seq<real>, delay: int, gain: real, rate: int, cfg: Config, env: Env)
    requires ValidEnv(env) && |a| == |b| > 0 && rate > 0 && Filterable(|a|, rate, cfg, env) && MaxLag(rate, cfg) >= 0
    requires Delayed(env.bandpass(a), env.bandpass(b), delay, gain) && gain != 0.0 && delay != 0
    ensures var r, fa, fb := CrossCorrelateShot(a, b, rate, cfg, env), env.bandpass(a), env.bandpass(b);
      var za, zb := ZeroMean(fa), ZeroMean(fb);
      && r.Ok?
      && (r.value.sampleOffset == delay as real <==>
            && PeakLag(za, zb, rate, cfg) == -delay
            && (AtEdge(|fa|, rate, cfg, -delay) || Mean(fa) == 0.0 || Edges(fa, delay) == 2.0 * Mean(fa)
                || Corr(za, zb, -delay + 1) == -Corr(za, zb, -delay - 1)))
      && (!Silent(fa) && Mean(fa) == 0.0 && -MaxLag(rate, cfg) <= delay <= MaxLag(rate, cfg) ==>
            r.value.sampleOffset == delay as real && r.value.confidence == 1.0)
  {
    var fa, fb := env.bandpass(a), env.bandpass(b);
    OffsetSurvivesMeanRemovalIff(fa, fb, delay, gain, rate, cfg, env);
    if !Silent(fa) && Mean(fa) == 0.0 && -MaxLag(rate, cfg) <= delay <= MaxLag(rate, cfg) {
      ZeroMeanDelayIsExact(fa, fb, delay, gain, rate, cfg, env);
    }
  }

  // ---- The failing family --------------------------------------------------------------------------------

  /** One unit sample at position k. */
  function Click(n: nat, k: nat): (r: seq<real>)
    ensures |r| == n
  {
    seq(n, i => if i == k then 1.0 else 0.0)
  }

  lemma ClickSum(n: nat, k: nat)
    requires k < n
    ensures Sum(Click(n, k)) == 1.0
  {
    var f := Signal(Click(n, k));
    SumIsRange(Click(n, k));
    SumSplit(f, 0, k, n);
    SumSplit(f, k, k + 1, n);
    SumZero(f, 0, k);
    SumZero(f, k + 1, n);
    assert SumRange(f, k, k + 1) == SumRange(f, k, k) + f(k);
  }

  lemma ClickSample(n: nat, k: nat, j: nat)
    requires k < n && j < n
    ensures Mean(Click(n, k)) == 1.0 / n as real
    ensures At(ZeroMean(Click(n, k)), j) == (if j == k then 1.0 else 0.0) - 1.0 / n as real
  {
    ClickSum(n, k);
  }

  lemma {:induction false} LevelSum(f: int -> real, x: real, lo: int, hi: int)
    requires lo <= hi && forall i :: lo <= i < hi ==> f(i) == x
    ensures SumRange(f, lo, hi) == x * (hi - lo) as real
    decreases hi - lo
  {
    if lo < hi {
      LevelSum(f, x, lo, hi - 1);
      assert x * (hi - lo) as real == x * (hi - 1 - lo) as real + x;
    }
  }

  lemma ClickTerm(n: nat, u: real, i: nat)
    requires n >= 3 && u == 1.0 / n as real && i < n - 2
    ensures Times(Signal(ZeroMean(Click(n, 0))), Delay(ZeroMean(Click(n, 1)), -2))(i)
         == if i == 0 then (1.0 - u) * -u else u * u
  {
    ClickSample(n, 0, i);
    ClickSample(n, 1, i + 2);
    assert -u * -u == u * u;
  }

  ghost predicate Levels(f: int -> real, first: real, level: real, hi: int) {
    forall i :: 0 <= i < hi ==> f(i) == if i == 0 then first else level
  }

  lemma FirstThenLevel(f: int -> real, first: real, level: real, hi: int)
    requires hi >= 1 && Levels(f, first, level, hi)
    ensures SumRange(f, 0, hi) == first + level * (hi - 1) as real
  {
    SumSplit(f, 0, 1, hi);
    assert SumRange(f, 0, 1) == SumRange(f, 0, 0) + f(0);
    LevelSum(f, level, 1, hi);
  }

  /** Two samples before the peak only minus the means meet. */
  lemma ClickBefore(n: nat, u: real)
    requires n >= 3 && u == 1.0 / n as real
    ensures Corr(ZeroMean(Click(n, 0)), ZeroMean(Click(n, 1)), -2) == (1.0 - u) * -u + u * u * (n - 3) as real
  {
    var za, zb := ZeroMean(Click(n, 0)), ZeroMean(Click(n, 1));
    var f := Times(Signal(za), Delay(zb, -2));
    CorrOnOverlap(za, zb, -2, 0, n - 2);
    ClickLevels(n, u);
    FirstThenLevel(f, (1.0 - u) * -u, u * u, n - 2);
  }

  lemma ClickLevels(n: nat, u: real)
    requires n >= 3 && u == 1.0 / n as real
    ensures Levels(Times(Signal(ZeroMean(Click(n, 0))), Delay(ZeroMean(Click(n, 1)), -2)), (1.0 - u) * -u, u * u, n - 2)
  {
    forall i: nat | i < n - 2
      ensures Times(Signal(ZeroMean(Click(n, 0))), Delay(ZeroMean(Click(n, 1)), -2))(i)
           == if i == 0 then (1.0 - u) * -u else u * u
    {
      ClickTerm(n, u, i);
    }
  }

  /**
   The recovery promise fails for whole families of windows, of any length from three samples on: two windows
   that leave the filter as a click and the same click one sample later are never reported as one sample apart.
   */
  lemma MeanRemovalLosesDelay(n: nat, rate: int, cfg: Config, env: Env)
    requires n >= 3 && rate > 0 && MaxLag(rate, cfg) >= 2
    ensures Delayed(Click(n, 0), Click(n, 1), 1, 1.0)
    ensures Align(ZeroMean(Click(n, 0)), ZeroMean(Click(n, 1)), rate, cfg, env.sqrt).sampleOffset != 1.0
  {
    var a, b := Click(n, 0), Click(n, 1);
    var u, x, y := 1.0 / n as real, Corr(ZeroMean(a), ZeroMean(b), 0), Corr(ZeroMean(a), ZeroMean(b), -2);
    ClickSample(n, 0, 0);
    ClickBefore(n, u);
    MeanRemovalSkewsPeak(a, b, 1, 1.0);
    assert Edges(a, 1) == 1.0;
    ClickNeighbours(n, u, x, y);
    OffsetSurvivesMeanRemovalIff(a, b, 1, 1.0, rate, cfg, env);
  }

  lemma ClickNeighbours(n: nat, u: real, x: real, y: real)
    requires n >= 3 && u == 1.0 / n as real
    requires y == (1.0 - u) * -u + u * u * (n - 3) as real && x - y == Gap(1.0, u, 1.0)
    ensures 0.0 < u < 0.5 && x != -y
  {
    var m := n as real;
    assert u * m == 1.0;
    PositiveQuotient(1.0, m);
    assert u * 3.0 <= 1.0 by {
      MulMonotone(3.0, m, u);
    }
    assert u * u * (m - 3.0) == u * (u * m) - 3.0 * (u * u);
    assert y == -2.0 * (u * u);
    assert 1.0 * u * (2.0 * u - 1.0) == 2.0 * (u * u) - u;
    assert x == -u;
    ProductSign(u, u, u * u);
  }

  /** Through the whole function: windows the filter accepts and turns into such clicks are misreported. */
  lemma ClicksAreMisreported(a: seq<real>, b: seq<real>, rate: int, cfg: Config, env: Env)
    requires ValidEnv(env) && |a| == |b| >= 3 && rate > 0 && Filterable(|a|, rate, cfg, env) && MaxLag(rate, cfg) >= 2
    requires env.bandpass(a) == Click(|a|, 0) && env.bandpass(b) == Click(|a|, 1)
    ensures var r := CrossCorrelateShot(a, b, rate, cfg, env);
      r.Ok? && r.value.sampleOffset != 1.0
  {
    MeanRemovalLosesDelay(|a|, rate, cfg, env);
  }
}
