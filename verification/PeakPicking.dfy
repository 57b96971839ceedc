/**
 The onset detector (`inference/audio_shot.py`) from the log-magnitude spectrogram on: spectral flux, adaptive
 threshold, impulsivity gate, and the emission loop with its gap rule. The sigmoid is a parameter.
 */
module PeakPicking {
  import opened Numerics
  import opened OrderStatistics

  datatype Config = Config(
    winFrames: nat, thresholdK: real, minGapFrames: nat, hopS: real, peakToNeighborDb: real, backgroundOffset: nat)

  datatype ShotEvent = ShotEvent(timestampS: real, confidence: real, chunkIndex: nat)

  /** Log magnitudes, frame by frame, all frames with the same bins. */
  type Spectrogram = s: seq<seq<real>> | forall i :: 0 <= i < |s| ==> s[i] != [] && |s[i]| == |s[0]|

  // ---- Flux and impulsivity --------------------------------------------------------------------------------

  function Rise(before: real, after: real): real {
    if after - before > 0.0 then after - before else 0.0
  }

  /** The summed rises of the bins from one frame to the next. */
  function FluxOf(before: seq<real>, after: seq<real>): real
    requires |before| == |after|
  {
    if before == [] then 0.0
    else FluxOf(before[..|before| - 1], after[..|after| - 1]) + Rise(before[|before| - 1], after[|after| - 1])
  }

  /** How much all bins together move, up or down, from one frame to the next. */
  function Variation(before: seq<real>, after: seq<real>): real
    requires |before| == |after|
  {
    if before == [] then 0.0
    else
      var x, y := before[|before| - 1], after[|after| - 1];
      Variation(before[..|before| - 1], after[..|after| - 1]) + if x < y then y - x else x - y
  }

  lemma SumSnoc(s: seq<real>)
    requires s != []
    ensures Sum(s) == Sum(s[..|s| - 1]) + s[|s| - 1]
  {
    SumAppend(s[..|s| - 1], s[|s| - 1]);
    assert s == s[..|s| - 1] + [s[|s| - 1]];
  }

  /**
   The flux is what rises: it exceeds the flux of the reversed step by the change of the whole frame, and the two
   make up the whole variation. So it is half of change plus variation.
   */
  lemma {:induction false} FluxIsRises(before: seq<real>, after: seq<real>)
    requires |before| == |after|
    ensures FluxOf(before, after) - FluxOf(after, before) == Sum(after) - Sum(before)
    ensures FluxOf(before, after) + FluxOf(after, before) == Variation(before, after)
    ensures FluxOf(before, after) >= 0.0
  {
    if before != [] {
      FluxIsRises(before[..|before| - 1], after[..|after| - 1]);
      SumSnoc(before);
      SumSnoc(after);
    }
  }

  /** It ignores falls, and is positive exactly if some bin rises. */
  lemma {:induction false} FluxPositiveIff(before: seq<real>, after: seq<real>)
    requires |before| == |after|
    ensures FluxOf(before, after) >= 0.0
    ensures FluxOf(before, after) > 0.0 <==> exists b :: 0 <= b < |before| && before[b] < after[b]
  {
    if before != [] {
      var last := |before| - 1;
      FluxPositiveIff(before[..last], after[..last]);
      assert forall b :: 0 <= b < last ==> before[..last][b] == before[b] && after[..last][b] == after[b];
    }
  }

  function Flux(spec: Spectrogram): (r: seq<real>)
    ensures |r| == Max(0, |spec| - 1)
  {
    seq(Max(0, |spec| - 1), i requires 0 <= i < |spec| - 1 => FluxOf(spec[i], spec[i + 1]))
  }

  /** The same for the flux of a spectrogram: entry i is about the step from frame i to the next. */
  lemma FluxAtIs(spec: Spectrogram, i: nat)
    requires i + 1 < |spec|
    ensures |Flux(spec)| == |spec| - 1
    ensures 2.0 * Flux(spec)[i] == Sum(spec[i + 1]) - Sum(spec[i]) + Variation(spec[i], spec[i + 1])
    ensures Flux(spec)[i] > 0.0 <==> exists b :: 0 <= b < |spec[i]| && spec[i][b] < spec[i + 1][b]
  {
    FluxIsRises(spec[i], spec[i + 1]);
    FluxPositiveIff(spec[i], spec[i + 1]);
  }

  /** The frames the background of frame i is taken from: up to three on each side, some way off. */
  function Background(spec: Spectrogram, i: nat, off: nat): seq<seq<real>>
    requires i < |spec|
  {
    (if i >= off then spec[Max(0, i - off - 2)..i - off + 1] else [])
    + (if i + off < |spec| then spec[i + off..Min(|spec|, i + off + 3)] else [])
  }

  /** All bins of these frames, for their mean. */
  function Flat(frames: seq<seq<real>>): seq<real> {
    if frames == [] then [] else Flat(frames[..|frames| - 1]) + frames[|frames| - 1]
  }

  function Decibel(bins: seq<real>): real {
    if bins == [] then 0.0 else 20.0 * Mean(bins)
  }

  predicate Impulsive(spec: Spectrogram, i: nat, cfg: Config)
    requires i < |spec|
  {
    Decibel(spec[i]) - Decibel(Flat(Background(spec, i, cfg.backgroundOffset))) >= cfg.peakToNeighborDb
  }

  function Verdicts(spec: Spectrogram, cfg: Config): (r: seq<bool>)
    ensures |r| == |Flux(spec)|
  {
    seq(|Flux(spec)|, i requires 0 <= i < |Flux(spec)| => Impulsive(spec, i, cfg))
  }

  // The initial value of `last_emit_frame` is minus this.
  const LONG_AGO := 10_000

  function Window(flux: seq<real>, i: nat, winFrames: nat): (r: seq<real>)
    requires i < |flux|
    ensures r != []
  {
    flux[Max(0, i - winFrames)..Min(|flux|, i + winFrames + 1)]
  }

  function Deviations(window: seq<real>, median: real): (r: seq<real>)
    ensures |r| == |window|
  {
    seq(|window|, j requires 0 <= j < |window| => Abs(window[j] - median))
  }

  /** median + k * MAD over the window around frame i. */
  function Threshold(flux: seq<real>, i: nat, cfg: Config): real
    requires i < |flux|
  {
    var window := Window(flux, i, cfg.winFrames);
    var median := Median(window);
    var mad := Median(Deviations(window, median));
    median + cfg.thresholdK * (mad * 1.4826 + 0.000000000001)
  }

  function Candidates(flux: seq<real>, impulsive: seq<bool>, cfg: Config): (r: seq<bool>)
    requires |impulsive| == |flux|
    ensures |r| == |flux|
  {
    seq(|flux|, i requires 0 <= i < |flux| => flux[i] >= Threshold(flux, i, cfg) && impulsive[i])
  }

  function Last(e: seq<nat>): int {
    if e == [] then -LONG_AGO else e[|e| - 1]
  }

  /** A candidate at frame i: emit it, let it replace the last event, or drop it. */
  function Emit(flux: seq<real>, e: seq<nat>, i: nat, gap: nat): (r: seq<nat>)
    requires i < |flux| && forall k :: 0 <= k < |e| ==> e[k] < i
    ensures forall k :: 0 <= k < |r| ==> r[k] <= i
  {
    if i - Last(e) < gap then
      if e != [] && flux[i] > flux[e[|e| - 1]] then e[..|e| - 1] + [i] else e
    else e + [i]
  }

  /** The frames of the events after scanning the first n frames. */
  function Scan(flux: seq<real>, cand: seq<bool>, gap: nat, n: nat): (r: seq<nat>)
    requires |cand| == |flux| && n <= |flux|
    ensures forall k :: 0 <= k < |r| ==> r[k] < n
  {
    if n == 0 then []
    else
      var e := Scan(flux, cand, gap, n - 1);
      if cand[n - 1] then Emit(flux, e, n - 1, gap) else e
  }

  method EmissionLoop(flux: seq<real>, cand: seq<bool>, gap: nat) returns (events: seq<nat>)
    requires |cand| == |flux|
    ensures events == Scan(flux, cand, gap, |flux|)
  {
    events := [];
    var lastEmitFrame: int := -LONG_AGO;
    for i := 0 to |flux|
      invariant events == Scan(flux, cand, gap, i)
      invariant lastEmitFrame == Last(events)
    {
      if !cand[i] {
        continue;
      }
      if i - lastEmitFrame < gap {
        if events != [] && flux[i] > flux[lastEmitFrame] {
          events := events[..|events| - 1] + [i];
          lastEmitFrame := i;
        }
        continue;
      }
      events := events + [i];
      lastEmitFrame := i;
    }
  }

  function MakeEvent(flux: seq<real>, i: nat, cfg: Config, sigmoid: real -> real): ShotEvent
    requires i < |flux|
  {
    EventAt(flux[i], Threshold(flux, i, cfg), i, cfg, sigmoid)
  }

  function EventAt(x: real, threshold: real, i: nat, cfg: Config, sigmoid: real -> real): ShotEvent {
    var margin := x - threshold;
    var scale := if threshold > 0.000001 then threshold else 0.000001;
    ShotEvent(i as real * cfg.hopS, sigmoid(2.0 * (margin / scale)), i)
  }

  /** The detector from the spectrogram on: one event for each emitted frame, with its time and confidence. */
  method Detect(spec: Spectrogram, cfg: Config, sigmoid: real -> real) returns (events: seq<ShotEvent>)
    ensures var flux := Flux(spec);
      var frames := Scan(flux, Candidates(flux, Verdicts(spec, cfg), cfg), cfg.minGapFrames, |flux|);
      |events| == |frames| && forall k :: 0 <= k < |frames| ==> events[k] == MakeEvent(flux, frames[k], cfg, sigmoid)
  {
    var flux := Flux(spec);
    var frames := EmissionLoop(flux, Candidates(flux, Verdicts(spec, cfg), cfg), cfg.minGapFrames);
    events := seq(|frames|, k requires 0 <= k < |frames| => MakeEvent(flux, frames[k], cfg, sigmoid));
  }

  // ---- What the gates compare -------------------------------------------------------------------------------

  /** m is the median of the values w: the middle one in order of size, or halfway between the middle two. */
  ghost predicate IsMedian(w: seq<real>, m: real) {
    w != [] && 2.0 * m == Sort(w)[(|w| - 1) / 2] + Sort(w)[|w| / 2]
  }

  ghost predicate AreGaps(w: seq<real>, m: real, gaps: seq<real>) {
    |gaps| == |w| && forall j :: 0 <= j < |w| ==> gaps[j] == if w[j] < m then m - w[j] else w[j] - m
  }

  /** d is the median distance of the values w from m. */
  ghost predicate IsDeviation(w: seq<real>, m: real, d: real) {
    exists gaps :: AreGaps(w, m, gaps) && IsMedian(gaps, d)
  }

  /** `threshold_k` robust deviations above the median. */
  function Above(m: real, d: real, k: real): real {
    m + k * (1.4826 * d + 0.000000000001)
  }

  /** m and d are the median and the median deviation of the flux up to winFrames frames away from frame i. */
  ghost predicate LocalFloor(flux: seq<real>, i: nat, winFrames: nat, m: real, d: real)
    requires i < |flux|
  {
    var lo, hi := if i < winFrames then 0 else i - winFrames,
                  if i + winFrames < |flux| then i + winFrames + 1 else |flux|;
    IsMedian(flux[lo..hi], m) && IsDeviation(flux[lo..hi], m, d)
  }

  lemma ThresholdIs(flux: seq<real>, i: nat, cfg: Config) returns (m: real, d: real)
    requires i < |flux|
    ensures LocalFloor(flux, i, cfg.winFrames, m, d) && Threshold(flux, i, cfg) == Above(m, d, cfg.thresholdK)
  {
    var window := Window(flux, i, cfg.winFrames);
    m := Median(window);
    var gaps := Deviations(window, m);
    d := Median(gaps);
    SameThreshold(flux, i, cfg, window, m, gaps, d);
    FloorOf(window, m, gaps, d);
  }

  lemma FloorOf(w: seq<real>, m: real, gaps: seq<real>, d: real)
    requires w != [] && m == Median(w) && gaps == Deviations(w, m) && d == Median(gaps)
    ensures IsMedian(w, m) && IsDeviation(w, m, d)
  {
    MedianIs(w, m);
    MedianIs(gaps, d);
    GapsFrom(w, m, gaps, d);
  }

  lemma MedianIs(w: seq<real>, m: real)
    requires w != [] && m == Median(w)
    ensures IsMedian(w, m)
  {
    MedianIsMiddle(w);
  }

  lemma GapsFrom(w: seq<real>, m: real, gaps: seq<real>, d: real)
    requires gaps == Deviations(w, m) && IsMedian(gaps, d)
    ensures IsDeviation(w, m, d)
  {
    assert AreGaps(w, m, gaps);
  }

  lemma SameThreshold(flux: seq<real>, i: nat, cfg: Config, window: seq<real>, m: real, gaps: seq<real>, d: real)
    requires i < |flux| && window == Window(flux, i, cfg.winFrames) && m == Median(window)
    requires gaps == Deviations(window, m) && d == Median(gaps)
    ensures Threshold(flux, i, cfg) == Above(m, d, cfg.thresholdK)
  {
    assert d * 1.4826 == 1.4826 * d;
  }

  /**
   The adaptive threshold spelled out: with m the median flux around frame i and d the median distance from it, the
   frame is a candidate exactly if it is impulsive and its flux is at least m + k (1.4826 d + 1e-12). Its event is at
   the time of the frame, and its confidence is the sigmoid of twice the margin over that threshold, relative to the
   threshold or to 1e-6 if that is more.
   */
  lemma CandidateIs(flux: seq<real>, impulsive: seq<bool>, cfg: Config, i: nat, sigmoid: real -> real)
    returns (m: real, d: real)
    requires |impulsive| == |flux| && i < |flux|
    ensures LocalFloor(flux, i, cfg.winFrames, m, d)
    ensures var threshold := Above(m, d, cfg.thresholdK);
      && (Candidates(flux, impulsive, cfg)[i] <==> impulsive[i] && flux[i] >= threshold)
      && MakeEvent(flux, i, cfg, sigmoid) == EventOver(threshold, flux[i], i, cfg, sigmoid)
  {
    m, d := ThresholdIs(flux, i, cfg);
    EventIs(flux, impulsive, i, cfg, sigmoid, Threshold(flux, i, cfg));
  }

  lemma EventIs(flux: seq<real>, impulsive: seq<bool>, i: nat, cfg: Config, sigmoid: real -> real, threshold: real)
    requires |impulsive| == |flux| && i < |flux| && threshold == Threshold(flux, i, cfg)
    ensures Candidates(flux, impulsive, cfg)[i] <==> impulsive[i] && flux[i] >= threshold
    ensures MakeEvent(flux, i, cfg, sigmoid) == EventOver(threshold, flux[i], i, cfg, sigmoid)
  {
    SameEvent(flux[i], threshold, i, cfg, sigmoid);
  }

  lemma SameEvent(x: real, threshold: real, i: nat, cfg: Config, sigmoid: real -> real)
    ensures EventAt(x, threshold, i, cfg, sigmoid) == EventOver(threshold, x, i, cfg, sigmoid)
  {
  }

  function EventOver(threshold: real, x: real, i: nat, cfg: Config, sigmoid: real -> real): ShotEvent {
    var scale := if threshold <= 0.000001 then 0.000001 else threshold;
    ShotEvent(i as real * cfg.hopS, sigmoid(2.0 * ((x - threshold) / scale)), i)
  }

  /**
   The background of frame i: the frames `off` to off + 2 before it and those `off` to off + 2 after it, as far as
   they exist, each side in order.
   */
  lemma BackgroundIs(spec: Spectrogram, i: nat, off: nat)
    requires i < |spec|
    ensures var first, n := Max(0, i - off - 2), if i < off then 0 else i - off + 1 - Max(0, i - off - 2);
      var m := if i + off >= |spec| then 0 else Min(3, |spec| - (i + off));
      && |Background(spec, i, off)| == n + m
      && (forall f :: first <= f < first + n ==> Background(spec, i, off)[f - first] == spec[f])
      && (forall f :: i + off <= f < i + off + m ==> Background(spec, i, off)[n + f - i - off] == spec[f])
  {
  }

  /** All bins of all frames, in order. */
  lemma {:induction false} FlatAppend(a: seq<seq<real>>, frame: seq<real>)
    ensures Flat(a + [frame]) == Flat(a) + frame && Flat([]) == []
  {
  }

  /** The gate: twenty times the mean log magnitude of the frame exceeds that of its background by the margin. */
  lemma ImpulsiveIs(spec: Spectrogram, i: nat, cfg: Config)
    requires i < |spec|
    ensures var bins := Flat(Background(spec, i, cfg.backgroundOffset));
      var floor := if bins == [] then 0.0 else Sum(bins) / |bins| as real;
      Impulsive(spec, i, cfg) <==>
        20.0 * (Sum(spec[i]) / |spec[i]| as real) - 20.0 * floor >= cfg.peakToNeighborDb
  {
  }

  // ---- What is emitted --------------------------------------------------------------------------------

  /** In order, at least the gap apart, and none swallowed by the starting value. */
  ghost predicate Spaced(e: seq<nat>, gap: nat) {
    e != [] ==>
      var last := |e| - 1;
      && e[last] + LONG_AGO >= gap
      && (last > 0 ==> e[last - 1] < e[last] && e[last - 1] + gap <= e[last] && Spaced(e[..last], gap))
  }

  lemma {:induction false} SpacedPairs(e: seq<nat>, gap: nat, j: nat, k: nat)
    requires Spaced(e, gap) && j <= k < |e|
    ensures e[j] + LONG_AGO >= gap
    ensures j < k ==> e[j] < e[k] && e[j] + gap <= e[k]
    decreases |e|
  {
    var last := |e| - 1;
    if k < last {
      SpacedPairs(e[..last], gap, j, k);
    } else if j < last {
      SpacedPairs(e[..last], gap, j, last - 1);
    }
  }

  lemma SpacedAppend(e: seq<nat>, i: nat, gap: nat)
    requires Spaced(e, gap) && i - Last(e) >= gap && forall k :: 0 <= k < |e| ==> e[k] < i
    ensures Spaced(e + [i], gap)
  {
    assert (e + [i])[..|e|] == e;
  }

  lemma SpacedReplace(e: seq<nat>, i: nat, gap: nat)
    requires Spaced(e, gap) && e != [] && e[|e| - 1] < i
    ensures Spaced(e[..|e| - 1] + [i], gap)
  {
    assert (e[..|e| - 1] + [i])[..|e| - 1] == e[..|e| - 1];
  }

  lemma EmitKeepsSpacing(flux: seq<real>, e: seq<nat>, i: nat, gap: nat)
    requires Spaced(e, gap) && i < |flux| && forall k :: 0 <= k < |e| ==> e[k] < i
    ensures Spaced(Emit(flux, e, i, gap), gap)
  {
    if i - Last(e) >= gap {
      SpacedAppend(e, i, gap);
    } else if e != [] {
      SpacedReplace(e, i, gap);
    }
  }

  /** Emitted frames are in order and at least the minimum gap apart. */
  lemma {:induction false} EmittedAreSpaced(flux: seq<real>, cand: seq<bool>, gap: nat, n: nat)
    requires |cand| == |flux| && n <= |flux|
    ensures Spaced(Scan(flux, cand, gap, n), gap)
  {
    if n > 0 {
      var e := Scan(flux, cand, gap, n - 1);
      EmittedAreSpaced(flux, cand, gap, n - 1);
      if cand[n - 1] {
        EmitKeepsSpacing(flux, e, n - 1, gap);
        assert Scan(flux, cand, gap, n) == Emit(flux, e, n - 1, gap);
      } else {
        assert Scan(flux, cand, gap, n) == e;
      }
    }
  }

  /** Emitted frames are candidates. */
  lemma {:induction false} EmittedAreCandidates(flux: seq<real>, cand: seq<bool>, gap: nat, n: nat)
    requires |cand| == |flux| && n <= |flux|
    ensures forall f :: f in Scan(flux, cand, gap, n) ==> cand[f]
  {
    if n > 0 {
      EmittedAreCandidates(flux, cand, gap, n - 1);
      OldFramesStay(flux, cand, gap, n);
    }
  }

  ghost predicate Dominates(flux: seq<real>, cand: seq<bool>, gap: nat, n: nat, f: nat)
    requires |cand| == |flux| && n <= |flux|
  {
    f < n && forall c :: f < c < n && c < f + gap && cand[c] ==> flux[c] <= flux[f]
  }

  lemma OldFramesStay(flux: seq<real>, cand: seq<bool>, gap: nat, n: nat)
    requires |cand| == |flux| && 0 < n <= |flux|
    ensures var e, r := Scan(flux, cand, gap, n - 1), Scan(flux, cand, gap, n);
      && (forall k :: 0 <= k < |e| - 1 ==> k < |r| && r[k] == e[k])
      && (forall f :: f in r ==> f in e || (f == n - 1 && cand[f]))
  {
  }

  /** An old event that survives the step was not beaten by the new frame. */
  lemma SurvivorNotBeaten(flux: seq<real>, e: seq<nat>, i: nat, gap: nat, f: nat)
    requires Spaced(e, gap) && i < |flux| && forall k :: 0 <= k < |e| ==> e[k] < i
    requires f in e && f in Emit(flux, e, i, gap) && i < f + gap
    ensures flux[i] <= flux[f]
  {
    LastBeforeGap(e, gap, i, f);
    if flux[i] > flux[f] {
      ReplacedIsGone(e, gap, i);
    }
  }

  lemma DominationLasts(flux: seq<real>, cand: seq<bool>, gap: nat, n: nat, f: nat)
    requires |cand| == |flux| && 0 < n <= |flux|
    requires f in Scan(flux, cand, gap, n - 1) && f in Scan(flux, cand, gap, n)
    requires Dominates(flux, cand, gap, n - 1, f)
    ensures Dominates(flux, cand, gap, n, f)
  {
    var i := n - 1;
    if cand[i] && i < f + gap {
      EmittedAreSpaced(flux, cand, gap, i);
      var e := Scan(flux, cand, gap, i);
      assert Scan(flux, cand, gap, n) == Emit(flux, e, i, gap);
      SurvivorNotBeaten(flux, e, i, gap, f);
    }
    DominatesNext(flux, cand, gap, n, f);
  }

  lemma DominatesNext(flux: seq<real>, cand: seq<bool>, gap: nat, n: nat, f: nat)
    requires |cand| == |flux| && 0 < n <= |flux| && Dominates(flux, cand, gap, n - 1, f)
    requires cand[n - 1] && n - 1 < f + gap ==> flux[n - 1] <= flux[f]
    ensures Dominates(flux, cand, gap, n, f)
  {
  }

  lemma LastBeforeGap(e: seq<nat>, gap: nat, i: nat, f: nat)
    requires Spaced(e, gap) && f in e && i < f + gap && forall k :: 0 <= k < |e| ==> e[k] < i
    ensures f == e[|e| - 1]
  {
    var k :| 0 <= k < |e| && e[k] == f;
    SpacedPairs(e, gap, k, |e| - 1);
  }

  lemma ReplacedIsGone(e: seq<nat>, gap: nat, i: nat)
    requires Spaced(e, gap) && e != [] && e[|e| - 1] < i
    ensures e[|e| - 1] !in e[..|e| - 1] + [i]
  {
    forall k | 0 <= k < |e| - 1 ensures e[k] != e[|e| - 1] {
      SpacedPairs(e, gap, k, |e| - 1);
    }
  }

  /** No candidate within the gap after an emitted frame is louder than it. */
  lemma {:induction false} EmittedDominateWhatFollows(flux: seq<real>, cand: seq<bool>, gap: nat, n: nat)
    requires |cand| == |flux| && n <= |flux|
    ensures forall f :: f in Scan(flux, cand, gap, n) ==> Dominates(flux, cand, gap, n, f)
  {
    if n > 0 {
      EmittedDominateWhatFollows(flux, cand, gap, n - 1);
      OldFramesStay(flux, cand, gap, n);
      forall f | f in Scan(flux, cand, gap, n) ensures Dominates(flux, cand, gap, n, f) {
        if f != n - 1 {
          DominationLasts(flux, cand, gap, n, f);
        }
      }
    }
  }

  predicate Close(i: int, j: int, gap: nat) {
    i - j < gap && j - i < gap
  }

  /** A chain of candidates, each step shorter than the gap and never getting quieter. */
  ghost predicate Chain(flux: seq<real>, cand: seq<bool>, gap: nat, path: seq<nat>)
    requires |cand| == |flux|
  {
    && path != []
    && (forall j :: 0 <= j < |path| ==> path[j] < |flux| && cand[path[j]])
    && (forall j :: 0 <= j < |path| - 1 ==>
          Close(path[j], path[j + 1], gap) && flux[path[j]] <= flux[path[j + 1]])
  }

  ghost predicate Linked(flux: seq<real>, cand: seq<bool>, gap: nat, c: nat, e: nat)
    requires |cand| == |flux|
  {
    exists path :: Chain(flux, cand, gap, path) && path[0] == c && path[|path| - 1] == e
  }

  lemma LinkStep(flux: seq<real>, cand: seq<bool>, gap: nat, c: nat, e: nat, next: nat)
    requires |cand| == |flux| && Linked(flux, cand, gap, c, e)
    requires next < |flux| && cand[next] && Close(e, next, gap) && e < |flux| && flux[e] <= flux[next]
    ensures Linked(flux, cand, gap, c, next)
  {
    var path :| Chain(flux, cand, gap, path) && path[0] == c && path[|path| - 1] == e;
    var longer := path + [next];
    assert Chain(flux, cand, gap, longer);
  }

  lemma SelfLink(flux: seq<real>, cand: seq<bool>, gap: nat, c: nat)
    requires |cand| == |flux| && c < |flux| && cand[c]
    ensures Linked(flux, cand, gap, c, c)
  {
    assert Chain(flux, cand, gap, [c]);
  }

  /** A candidate that the starting value of `last_emit_frame` does not already suppress. */
  predicate Audible(cand: seq<bool>, gap: nat, c: nat) {
    c < |cand| && cand[c] && c + LONG_AGO >= gap
  }

  ghost predicate Heard(flux: seq<real>, cand: seq<bool>, gap: nat, frames: seq<nat>, c: nat)
    requires |cand| == |flux|
  {
    exists e: nat :: e in frames && Linked(flux, cand, gap, c, e)
  }

  lemma StillHeard(flux: seq<real>, cand: seq<bool>, gap: nat, n: nat, c: nat)
    requires |cand| == |flux| && 0 < n <= |flux|
    requires Heard(flux, cand, gap, Scan(flux, cand, gap, n - 1), c)
    ensures Heard(flux, cand, gap, Scan(flux, cand, gap, n), c)
  {
    var e, r := Scan(flux, cand, gap, n - 1), Scan(flux, cand, gap, n);
    var f: nat :| f in e && Linked(flux, cand, gap, c, f);
    if f !in r {
      BeatenByNext(flux, cand, gap, n, f);
      LinkStep(flux, cand, gap, c, f, n - 1);
    }
  }

  /** An event disappears only in favour of the next frame: a louder candidate within the gap. */
  lemma BeatenByNext(flux: seq<real>, cand: seq<bool>, gap: nat, n: nat, f: nat)
    requires |cand| == |flux| && 0 < n <= |flux|
    requires f in Scan(flux, cand, gap, n - 1) && f !in Scan(flux, cand, gap, n)
    ensures n - 1 in Scan(flux, cand, gap, n) && cand[n - 1]
    ensures Close(f, n - 1, gap) && f < |flux| && flux[f] < flux[n - 1]
  {
    var e, r := Scan(flux, cand, gap, n - 1), Scan(flux, cand, gap, n);
    OldFramesStay(flux, cand, gap, n);
    forall k | 0 <= k < |e| - 1 ensures e[k] in r {
      assert r[k] == e[k];
    }
    assert f == e[|e| - 1] && r[|r| - 1] == n - 1;
  }

  ghost predicate Displaces(flux: seq<real>, cand: seq<bool>, gap: nat, k: nat, f: nat)
    requires |cand| == |flux|
  {
    k < |flux| && f < k < f + gap && cand[k] && flux[f] < flux[k]
  }

  /**
   An event once emitted is given up only for a later candidate within the gap that is strictly louder: of equally
   loud ones the first stays.
   */
  lemma {:induction false} DisplacedByLouder(flux: seq<real>, cand: seq<bool>, gap: nat, m: nat, n: nat, f: nat)
    returns (k: nat)
    requires |cand| == |flux| && m <= n <= |flux|
    requires f in Scan(flux, cand, gap, m) && f !in Scan(flux, cand, gap, n)
    ensures m <= k < n && Displaces(flux, cand, gap, k, f)
    decreases n
  {
    if f in Scan(flux, cand, gap, n - 1) {
      BeatenByNext(flux, cand, gap, n, f);
      k := n - 1;
    } else {
      k := DisplacedByLouder(flux, cand, gap, m, n - 1, f);
    }
  }

  lemma NewlyHeard(flux: seq<real>, cand: seq<bool>, gap: nat, n: nat)
    requires |cand| == |flux| && 0 < n <= |flux| && gap > 0 && Audible(cand, gap, n - 1)
    ensures Heard(flux, cand, gap, Scan(flux, cand, gap, n), n - 1)
  {
    var i, e, r := n - 1, Scan(flux, cand, gap, n - 1), Scan(flux, cand, gap, n);
    SelfLink(flux, cand, gap, i);
    if r != [] && r[|r| - 1] == i {
    } else {
      assert r == e && e != [];
      EmittedAreCandidates(flux, cand, gap, n - 1);
      LinkStep(flux, cand, gap, i, i, e[|e| - 1]);
      assert e[|e| - 1] in r;
    }
  }

  /** Every audible candidate is tied, through ever louder neighbours, to an emitted event. */
  lemma {:induction false} EveryCandidateIsHeard(flux: seq<real>, cand: seq<bool>, gap: nat, n: nat, c: nat)
    requires |cand| == |flux| && c < n <= |flux| && gap > 0 && Audible(cand, gap, c)
    ensures Heard(flux, cand, gap, Scan(flux, cand, gap, n), c)
    decreases n
  {
    if c == n - 1 {
      NewlyHeard(flux, cand, gap, n);
    } else {
      EveryCandidateIsHeard(flux, cand, gap, n - 1, c);
      StillHeard(flux, cand, gap, n, c);
    }
  }

  lemma {:induction false} ChainRises(flux: seq<real>, cand: seq<bool>, gap: nat, path: seq<nat>)
    requires |cand| == |flux| && Chain(flux, cand, gap, path)
    ensures flux[path[0]] <= flux[path[|path| - 1]]
  {
    if |path| > 1 {
      var before := path[..|path| - 1];
      assert Chain(flux, cand, gap, before);
      ChainRises(flux, cand, gap, before);
    }
  }

  /** So some emitted event is at least as loud as any audible candidate; the loudest flux is emitted. */
  lemma LoudestIsEmitted(flux: seq<real>, cand: seq<bool>, gap: nat, c: nat) returns (e: nat)
    requires |cand| == |flux| && gap > 0 && Audible(cand, gap, c)
    ensures e in Scan(flux, cand, gap, |flux|) && flux[c] <= flux[e]
  {
    EveryCandidateIsHeard(flux, cand, gap, |flux|, c);
    e :| e in Scan(flux, cand, gap, |flux|) && Linked(flux, cand, gap, c, e);
    var path :| Chain(flux, cand, gap, path) && path[0] == c && path[|path| - 1] == e;
    ChainRises(flux, cand, gap, path);
  }

  /** Nothing is emitted exactly when there is no audible candidate. */
  lemma SilentIff(flux: seq<real>, cand: seq<bool>, gap: nat)
    requires |cand| == |flux| && gap > 0
    ensures Scan(flux, cand, gap, |flux|) == [] <==> forall c: nat :: !Audible(cand, gap, c)
  {
    if e: nat :| Audible(cand, gap, e) {
      var f := LoudestIsEmitted(flux, cand, gap, e);
    }
    var frames := Scan(flux, cand, gap, |flux|);
    EmittedAreSpaced(flux, cand, gap, |flux|);
    EmittedAreCandidates(flux, cand, gap, |flux|);
    if frames != [] {
      SpacedPairs(frames, gap, 0, 0);
      assert Audible(cand, gap, frames[0]);
    }
  }

  ghost predicate NeverDeaf(gap: nat) {
    forall flux: seq<real>, cand: seq<bool> :: |cand| == |flux| && true in cand ==> Scan(flux, cand, gap, |flux|) != []
  }

  /**
   "Some candidate, so some event" holds for all inputs exactly when the gap is at most 10000 frames:
   beyond that the starting value of `last_emit_frame` swallows the first candidates.
   */
  lemma NeverDeafIff(gap: nat)
    requires gap > 0
    ensures NeverDeaf(gap) <==> gap <= LONG_AGO
  {
    if gap <= LONG_AGO {
      forall flux: seq<real>, cand: seq<bool> | |cand| == |flux| && true in cand
        ensures Scan(flux, cand, gap, |flux|) != []
      {
        var c :| 0 <= c < |cand| && cand[c];
        assert Audible(cand, gap, c);
        SilentIff(flux, cand, gap);
      }
    } else {
      SilentIff([1.0], [true], gap);
      assert Scan([1.0], [true], gap, |[1.0]|) == [];
      assert true in [true];
    }
  }

  // ---- Steady sources -----------------------------------------------------------------------------

  lemma {:induction false} AllWithin(s: seq<real>, x: real)
    requires forall i :: 0 <= i < |s| ==> s[i] == x
    ensures CountWithin(s, x, x) == |s|
  {
    if s != [] {
      AllWithin(s[1..], x);
    }
  }

  lemma MedianOfConstant(s: seq<real>, x: real)
    requires s != [] && forall i :: 0 <= i < |s| ==> s[i] == x
    ensures Median(s) == x
  {
    AllWithin(s, x);
    RobustMedian(s, x, x);
  }

  lemma Lift(median: real, k: real, mad: real)
    requires k > 0.0 && mad == 0.0
    ensures median < median + k * (mad * 1.4826 + 0.000000000001)
  {
    MulStrict(0.0, k, 0.000000000001);
  }

  /** A source of constant flux never becomes a candidate, however loud it is. */
  lemma SteadySourceIsSilent(flux: seq<real>, level: real, cfg: Config, i: nat)
    requires i < |flux| && cfg.thresholdK > 0.0
    requires forall j :: 0 <= j < |flux| ==> flux[j] == level
    ensures flux[i] < Threshold(flux, i, cfg)
  {
    var window := Window(flux, i, cfg.winFrames);
    MedianOfConstant(window, level);
    MedianOfConstant(Deviations(window, level), 0.0);
    Lift(level, cfg.thresholdK, 0.0);
  }

  /** The sigmoid never falls and passes one half at 0. */
  ghost predicate IsSigmoid(sigmoid: real -> real) {
    sigmoid(0.0) == 0.5 && forall x, y :: x <= y ==> sigmoid(x) <= sigmoid(y)
  }

  lemma NonNegativeQuotient(x: real, d: real)
    requires x >= 0.0 && d > 0.0
    ensures 2.0 * (x / d) >= 0.0
  {
    DivMonotone(0.0, x, d);
    ZeroOver(d);
  }

  lemma UpperHalf(sigmoid: real -> real, y: real)
    requires IsSigmoid(sigmoid) && y >= 0.0
    ensures sigmoid(y) >= 0.5
  {
  }

  lemma CandidateIsConfident(flux: seq<real>, cfg: Config, sigmoid: real -> real, i: nat)
    requires IsSigmoid(sigmoid) && i < |flux| && flux[i] >= Threshold(flux, i, cfg)
    ensures MakeEvent(flux, i, cfg, sigmoid).confidence >= 0.5
  {
    var threshold := Threshold(flux, i, cfg);
    var scale := if threshold > 0.000001 then threshold else 0.000001;
    NonNegativeQuotient(flux[i] - threshold, scale);
    UpperHalf(sigmoid, 2.0 * ((flux[i] - threshold) / scale));
  }

  /** Every emitted event has a confidence of at least one half. */
  lemma EventsAreConfident(spec: Spectrogram, cfg: Config, sigmoid: real -> real, i: nat)
    requires IsSigmoid(sigmoid)
    requires var flux := Flux(spec);
      i in Scan(flux, Candidates(flux, Verdicts(spec, cfg), cfg), cfg.minGapFrames, |flux|)
    ensures i < |Flux(spec)| && MakeEvent(Flux(spec), i, cfg, sigmoid).confidence >= 0.5
  {
    var flux := Flux(spec);
    var cand := Candidates(flux, Verdicts(spec, cfg), cfg);
    EmittedAreCandidates(flux, cand, cfg.minGapFrames, |flux|);
    assert cand[i];
    CandidateIsConfident(flux, cfg, sigmoid, i);
  }

  // ---- Loudness does not matter --------------------------------------------------------------------------------

  /** The same recording at another volume: every log magnitude moved by the same amount. */
  function Louder(spec: Spectrogram, c: real): (r: Spectrogram)
    ensures |r| == |spec|
  {
    seq(|spec|, i requires 0 <= i < |spec| => LouderFrame(spec[i], c))
  }

  function LouderFrame(frame: seq<real>, c: real): (r: seq<real>)
    ensures |r| == |frame|
  {
    seq(|frame|, b requires 0 <= b < |frame| => frame[b] + c)
  }

  lemma {:induction false} LouderFlux(before: seq<real>, after: seq<real>, c: real)
    requires |before| == |after|
    ensures FluxOf(LouderFrame(before, c), LouderFrame(after, c)) == FluxOf(before, after)
  {
    if before != [] {
      var n := |before| - 1;
      LouderFlux(before[..n], after[..n], c);
      assert LouderFrame(before, c)[..n] == LouderFrame(before[..n], c);
      assert LouderFrame(after, c)[..n] == LouderFrame(after[..n], c);
    }
  }

  /** c added n times. */
  function Added(c: real, n: nat): real {
    if n == 0 then 0.0 else Added(c, n - 1) + c
  }

  lemma {:induction false} AddedIsProduct(c: real, n: nat)
    ensures Added(c, n) == c * n as real
  {
    if n > 0 {
      AddedIsProduct(c, n - 1);
      assert c * ((n - 1) as real + 1.0) == c * (n - 1) as real + c;
    }
  }

  lemma {:induction false} LouderSum(bins: seq<real>, c: real)
    ensures Sum(LouderFrame(bins, c)) == Sum(bins) + Added(c, |bins|)
  {
    if bins != [] {
      var before, last := bins[..|bins| - 1], bins[|bins| - 1];
      LouderSum(before, c);
      LouderAppend(before, last, c);
      assert bins == before + [last];
    }
  }

  lemma LouderAppend(before: seq<real>, last: real, c: real)
    ensures Sum(before + [last]) == Sum(before) + last
    ensures Sum(LouderFrame(before + [last], c)) == Sum(LouderFrame(before, c)) + (last + c)
  {
    assert LouderFrame(before + [last], c) == LouderFrame(before, c) + [last + c];
    SumAppend(before, last);
    SumAppend(LouderFrame(before, c), last + c);
  }

  lemma ShiftedQuotient(x: real, c: real, n: real)
    requires n > 0.0
    ensures (x + c * n) / n == x / n + c
  {
    var q := x / n;
    assert q * n == x;
    assert (q + c) * n == x + c * n;
    CancelProduct(q + c, n);
  }

  lemma LouderDecibel(bins: seq<real>, c: real)
    requires bins != []
    ensures Decibel(LouderFrame(bins, c)) == Decibel(bins) + 20.0 * c
  {
    LouderSum(bins, c);
    AddedIsProduct(c, |bins|);
    ShiftedQuotient(Sum(bins), c, |bins| as real);
  }

  lemma {:induction false} LouderFlat(frames: seq<seq<real>>, louder: seq<seq<real>>, c: real)
    requires |louder| == |frames| && forall i :: 0 <= i < |frames| ==> louder[i] == LouderFrame(frames[i], c)
    ensures Flat(louder) == LouderFrame(Flat(frames), c)
  {
    if frames != [] {
      var n := |frames| - 1;
      LouderFlat(frames[..n], louder[..n], c);
    }
  }

  lemma {:induction false} FlatHasBins(frames: seq<seq<real>>)
    requires frames != [] && forall i :: 0 <= i < |frames| ==> frames[i] != []
    ensures Flat(frames) != []
  {
    assert frames[|frames| - 1] != [];
  }

  lemma LouderBackground(spec: Spectrogram, c: real, i: nat, off: nat)
    requires i < |spec|
    ensures var frames, louder := Background(spec, i, off), Background(Louder(spec, c), i, off);
      && |louder| == |frames|
      && (forall k :: 0 <= k < |frames| ==> frames[k] != [] && louder[k] == LouderFrame(frames[k], c))
  {
    var lo, hi, from, to := Max(0, i - off - 2), i - off + 1, i + off, Min(|spec|, i + off + 3);
    if i >= off {
      LouderSlice(spec, c, lo, hi);
    }
    if from < |spec| {
      LouderSlice(spec, c, from, to);
    }
  }

  lemma LouderSlice(spec: Spectrogram, c: real, lo: nat, hi: nat)
    requires lo <= hi <= |spec|
    ensures var frames, louder := spec[lo..hi], Louder(spec, c)[lo..hi];
      && |louder| == |frames|
      && (forall k :: 0 <= k < |frames| ==> frames[k] != [] && louder[k] == LouderFrame(frames[k], c))
  {
    var frames, louder := spec[lo..hi], Louder(spec, c)[lo..hi];
    forall k | 0 <= k < |frames| ensures frames[k] != [] && louder[k] == LouderFrame(frames[k], c) {
      assert spec[lo..hi][k] == spec[lo + k];
    }
  }

  /** A frame is as impulsive at any volume if it has a background to be compared with. */
  lemma LouderVerdict(spec: Spectrogram, c: real, i: nat, cfg: Config)
    requires i < |spec| && Background(spec, i, cfg.backgroundOffset) != []
    ensures Impulsive(Louder(spec, c), i, cfg) == Impulsive(spec, i, cfg)
  {
    var frames := Background(spec, i, cfg.backgroundOffset);
    LouderBackground(spec, c, i, cfg.backgroundOffset);
    LouderFlat(frames, Background(Louder(spec, c), i, cfg.backgroundOffset), c);
    FlatHasBins(frames);
    LouderDecibel(Flat(frames), c);
    LouderDecibel(spec[i], c);
    assert Louder(spec, c)[i] == LouderFrame(spec[i], c);
  }

  /** The frame some offset before frame i or the one after it lies within the n frames of the recording. */
  predicate HasBackground(n: nat, i: nat, off: nat) {
    i >= off || i + off < n
  }

  lemma BackgroundExists(spec: Spectrogram, i: nat, off: nat)
    requires i < |spec|
    ensures Background(spec, i, off) != [] <==> HasBackground(|spec|, i, off)
  {
  }

  /** Without a background a frame is compared with the absolute level 0, and some volume turns the verdict. */
  lemma LoneFrameTurns(spec: Spectrogram, i: nat, cfg: Config) returns (c: real)
    requires i < |spec| && Background(spec, i, cfg.backgroundOffset) == []
    ensures Impulsive(Louder(spec, c), i, cfg) != Impulsive(spec, i, cfg)
  {
    var gap := cfg.peakToNeighborDb - Decibel(spec[i]);
    c := if Impulsive(spec, i, cfg) then (gap - 20.0) / 20.0 else gap / 20.0;
    LouderDecibel(spec[i], c);
    BackgroundExists(spec, i, cfg.backgroundOffset);
    BackgroundExists(Louder(spec, c), i, cfg.backgroundOffset);
  }

  /** The flux is the same at every volume. */
  lemma VolumeKeepsFlux(spec: Spectrogram, c: real)
    ensures Flux(Louder(spec, c)) == Flux(spec)
  {
    forall i | 0 <= i < |Flux(spec)| ensures Flux(Louder(spec, c))[i] == Flux(spec)[i] {
      LouderFlux(spec[i], spec[i + 1], c);
    }
  }

  /** The detector gives the same verdicts at every volume exactly when every frame has a background. */
  lemma VolumeDoesNotMatterIff(spec: Spectrogram, cfg: Config)
    ensures (forall c :: Verdicts(Louder(spec, c), cfg) == Verdicts(spec, cfg)) <==>
            (forall i: nat :: i < |spec| - 1 ==> HasBackground(|spec|, i, cfg.backgroundOffset))
  {
    if forall i: nat :: i < |spec| - 1 ==> HasBackground(|spec|, i, cfg.backgroundOffset) {
      forall c ensures Verdicts(Louder(spec, c), cfg) == Verdicts(spec, cfg) {
        VolumeKeepsVerdicts(spec, c, cfg);
      }
    } else {
      var i: nat :| i < |spec| - 1 && !HasBackground(|spec|, i, cfg.backgroundOffset);
      BackgroundExists(spec, i, cfg.backgroundOffset);
      var c := LoneFrameTurns(spec, i, cfg);
      assert Verdicts(Louder(spec, c), cfg)[i] != Verdicts(spec, cfg)[i];
    }
  }

  lemma VolumeKeepsVerdicts(spec: Spectrogram, c: real, cfg: Config)
    requires forall i: nat :: i < |spec| - 1 ==> HasBackground(|spec|, i, cfg.backgroundOffset)
    ensures Verdicts(Louder(spec, c), cfg) == Verdicts(spec, cfg)
  {
    VolumeKeepsFlux(spec, c);
    forall i: nat | i < |Flux(spec)| ensures Verdicts(Louder(spec, c), cfg)[i] == Verdicts(spec, cfg)[i] {
      assert HasBackground(|spec|, i, cfg.backgroundOffset);
      BackgroundExists(spec, i, cfg.backgroundOffset);
      LouderVerdict(spec, c, i, cfg);
    }
  }
}
