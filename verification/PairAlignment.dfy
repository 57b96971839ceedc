/** Window extraction, mean removal and the session-level median of `inference/audio_xcorr.py`. */
module PairAlignment {
  import opened Numerics
  import opened OrderStatistics
  import opened CrossCorrelation

  // ---- Windows ------------------------------------------------------------------------------------

  /** The samples around a time, given by its sample, clipped to the recording, without padding. */
  function Around(pcm: seq<real>, center: int, half: int): seq<real> {
    var lo := Max(0, center - half);
    var hi := Min(|pcm|, center + half);
    if hi <= lo then [] else pcm[lo..hi]
  }

  function ExtractWindow(pcm: seq<real>, t: real, rate: int, half: int): seq<real> {
    Around(pcm, Round(t * rate as real), half)
  }

  /** Both windows around the same nominal time, cut to the shorter of the two. */
  function WindowPair(aPcm: seq<real>, bPcm: seq<real>, t: real, rate: int, half: int): (seq<real>, seq<real>) {
    CutToShorter(ExtractWindow(aPcm, t, rate, half), ExtractWindow(bPcm, t, rate, half))
  }

  function CutToShorter(a: seq<real>, b: seq<real>): (seq<real>, seq<real>) {
    if |a| != |b| then
      var n := Min(|a|, |b|);
      (a[..n], b[..n])
    else (a, b)
  }

  ghost predicate SlicesAt(aPcm: seq<real>, bPcm: seq<real>, a: seq<real>, b: seq<real>, start: nat) {
    && |a| == |b| && start + |a| <= |aPcm| && start + |a| <= |bPcm|
    && a == aPcm[start..start + |a|] && b == bPcm[start..start + |a|]
  }

  lemma SameStretch(aPcm: seq<real>, bPcm: seq<real>, center: int, half: int, start: nat, length: nat)
    requires start == Max(0, center - half) && length == Max(0, Min(Min(|aPcm|, |bPcm|), center + half) - start)
    ensures var (a, b) := CutToShorter(Around(aPcm, center, half), Around(bPcm, center, half));
      |a| == |b| == length && (a != [] ==> SlicesAt(aPcm, bPcm, a, b, start))
  {
    var a, b := Around(aPcm, center, half), Around(bPcm, center, half);
    AroundFrom(aPcm, center, half, start, length);
    AroundFrom(bPcm, center, half, start, length);
    if |a| == |b| {
      assert a[..|a|] == a && b[..|b|] == b;
    }
  }

  /** The first samples of a window are those of the recording from the start of the window on. */
  lemma AroundFrom(pcm: seq<real>, center: int, half: int, start: nat, n: nat)
    requires start == Max(0, center - half)
    ensures |Around(pcm, center, half)| == Max(0, Min(|pcm|, center + half) - start)
    ensures 0 < n <= |Around(pcm, center, half)| ==>
      start + n <= |pcm| && Around(pcm, center, half)[..n] == pcm[start..start + n]
  {
  }

  /** Where the windows around time t start, and how many samples both recordings have there. */
  function WindowStart(t: real, rate: int, half: int): nat {
    Max(0, Round(t * rate as real) - half)
  }

  function WindowLength(n: nat, t: real, rate: int, half: int): nat {
    Max(0, Min(n, Round(t * rate as real) + half) - WindowStart(t, rate, half))
  }

  /**
   The two windows are the same absolute stretch of both recordings, from half a window before the nominal time
   to half a window after it or to the end of the shorter recording, so the skew is not touched.
   */
  lemma WindowsShareStart(aPcm: seq<real>, bPcm: seq<real>, t: real, rate: int, half: int)
    ensures var (a, b) := WindowPair(aPcm, bPcm, t, rate, half);
      && |a| == |b| == WindowLength(Min(|aPcm|, |bPcm|), t, rate, half)
      && (a != [] ==> SlicesAt(aPcm, bPcm, a, b, WindowStart(t, rate, half)))
  {
    SameStretch(aPcm, bPcm, Round(t * rate as real), half, WindowStart(t, rate, half),
                WindowLength(Min(|aPcm|, |bPcm|), t, rate, half));
  }

  /** The windows are cut around the sample nearest the shot's time, and reach half the configured length each way. */
  lemma WindowsAreCentred(t: real, rate: int, cfg: Config)
    ensures var center := WindowStart(t, rate, HalfSamples(rate, cfg)) + HalfSamples(rate, cfg);
      WindowStart(t, rate, HalfSamples(rate, cfg)) > 0 ==> -0.5 <= t * rate as real - center as real <= 0.5
    ensures -1.0 <= cfg.windowS * rate as real - 2.0 * HalfSamples(rate, cfg) as real <= 1.0
  {
    RoundIs(t * rate as real);
    HalfIs(cfg.windowS, rate as real, cfg.windowS / 2.0 * rate as real);
    RoundIs(cfg.windowS / 2.0 * rate as real);
  }

  lemma HalfIs(x: real, rate: real, y: real)
    requires y == x / 2.0 * rate
    ensures 2.0 * y == x * rate
  {
  }

  // ---- The session offset -------------------------------------------------------------------------

  datatype PairResult = PairResult(medianOffsetS: real, confidentShotCount: nat, perShot: seq<AlignmentResult>)

  function HalfSamples(rate: int, cfg: Config): int {
    Round(cfg.windowS / 2.0 * rate as real)
  }

  /** The result for one shot; the exception of the correlation is passed on. */
  function ShotResult(aPcm: seq<real>, bPcm: seq<real>, t: real, rate: int, cfg: Config, env: Env)
    : Result<AlignmentResult>
    requires ValidEnv(env)
  {
    var (a, b) := WindowPair(aPcm, bPcm, t, rate, HalfSamples(rate, cfg));
    if a == [] then Ok(AlignmentResult(0.0, 0.0, 0.0, 0.0, false)) else CrossCorrelateShot(a, b, rate, cfg, env)
  }

  /** A shot fails exactly when its window is not empty and cannot be filtered. */
  lemma ShotFailsIff(aPcm: seq<real>, bPcm: seq<real>, t: real, rate: int, cfg: Config, env: Env)
    requires rate > 0 && ValidEnv(env)
    ensures var n := WindowLength(Min(|aPcm|, |bPcm|), t, rate, HalfSamples(rate, cfg));
      ShotResult(aPcm, bPcm, t, rate, cfg, env).Err? <==> n > 0 && !Filterable(n, rate, cfg, env)
  {
    WindowsShareStart(aPcm, bPcm, t, rate, HalfSamples(rate, cfg));
  }

  /** A shot without samples on both recordings, or with nothing to search, is reported as zeros and not confident. */
  lemma NothingToAlign(aPcm: seq<real>, bPcm: seq<real>, t: real, rate: int, cfg: Config, env: Env)
    requires rate > 0 && ValidEnv(env)
    requires var n := WindowLength(Min(|aPcm|, |bPcm|), t, rate, HalfSamples(rate, cfg));
      n == 0 || (MaxLag(rate, cfg) < 0 && Filterable(n, rate, cfg, env))
    ensures ShotResult(aPcm, bPcm, t, rate, cfg, env) == Ok(AlignmentResult(0.0, 0.0, 0.0, 0.0, false))
  {
    WindowsShareStart(aPcm, bPcm, t, rate, HalfSamples(rate, cfg));
  }

  function Confident(results: seq<AlignmentResult>): seq<AlignmentResult> {
    if results == [] then []
    else (if results[0].confident then [results[0]] else []) + Confident(results[1..])
  }

  function Pool(results: seq<AlignmentResult>): (r: seq<AlignmentResult>)
    ensures results != [] ==> r != []
  {
    if Confident(results) != [] then Confident(results) else results
  }

  /** A shot alone counts exactly if it is confident. */
  lemma ConfidentOne(r: AlignmentResult)
    ensures Confident([r]) == if r.confident then [r] else []
  {
    assert [r][1..] == [];
  }

  /** And a list of shots counts shot by shot, in order. */
  lemma {:induction false} ConfidentAppend(a: seq<AlignmentResult>, b: seq<AlignmentResult>)
    ensures Confident(a + b) == Confident(a) + Confident(b)
  {
    if a == [] {
      assert a + b == b;
    } else {
      var first, rest := if a[0].confident then [a[0]] else [], Confident(a[1..]);
      ConfidentAppend(a[1..], b);
      assert (a + b)[0] == a[0] && (a + b)[1..] == a[1..] + b;
      assert first + (rest + Confident(b)) == (first + rest) + Confident(b);
    }
  }

  lemma {:induction false} NoneConfidentIff(results: seq<AlignmentResult>)
    ensures Confident(results) == [] <==> forall i :: 0 <= i < |results| ==> !results[i].confident
  {
    if results != [] {
      NoneConfidentIff(results[1..]);
      assert forall i :: 0 < i < |results| ==> results[i] == results[1..][i - 1];
    }
  }

  function Offsets(results: seq<AlignmentResult>): (r: seq<real>)
    ensures |r| == |results|
  {
    if results == [] then [] else [results[0].offsetS] + Offsets(results[1..])
  }

  method AlignShot(aPcm: seq<real>, bPcm: seq<real>, t: real, rate: int, cfg: Config, env: Env)
    returns (r: Result<AlignmentResult>)
    requires ValidEnv(env)
    ensures r == ShotResult(aPcm, bPcm, t, rate, cfg, env)
  {
    var half := HalfSamples(rate, cfg);
    var a := ExtractWindow(aPcm, t, rate, half);
    var b := ExtractWindow(bPcm, t, rate, half);
    if |a| != |b| {
      var n := Min(|a|, |b|);
      a, b := a[..n], b[..n];
    }
    if a == [] {
      return Ok(AlignmentResult(0.0, 0.0, 0.0, 0.0, false));
    }
    r := CrossCorrelateShot(a, b, rate, cfg, env);
  }

  ghost predicate ResultAt(all: seq<Result<AlignmentResult>>, k: nat, aPcm: seq<real>, bPcm: seq<real>, t: real,
                           rate: int, cfg: Config, env: Env)
    requires k < |all| && ValidEnv(env)
  {
    all[k] == ShotResult(aPcm, bPcm, t, rate, cfg, env)
  }

  lemma AllResults(aPcm: seq<real>, bPcm: seq<real>, shotTimes: seq<real>, rate: int, cfg: Config, env: Env)
    returns (all: seq<Result<AlignmentResult>>)
    requires ValidEnv(env)
    ensures |all| == |shotTimes|
    ensures forall k :: 0 <= k < |all| ==> ResultAt(all, k, aPcm, bPcm, shotTimes[k], rate, cfg, env)
  {
    all := seq(|shotTimes|, k requires 0 <= k < |shotTimes| => ShotResult(aPcm, bPcm, shotTimes[k], rate, cfg, env));
  }

  /** The shots in turn, up to the first that fails. */
  method AlignShots(aPcm: seq<real>, bPcm: seq<real>, shotTimes: seq<real>, rate: int, cfg: Config, env: Env)
    returns (r: Result<seq<AlignmentResult>>)
    requires ValidEnv(env)
    ensures r.Ok? <==> forall k :: 0 <= k < |shotTimes| ==> ShotResult(aPcm, bPcm, shotTimes[k], rate, cfg, env).Ok?
    ensures r.Ok? ==> |r.value| == |shotTimes|
    ensures r.Ok? ==>
      forall k :: 0 <= k < |shotTimes| ==> ShotResult(aPcm, bPcm, shotTimes[k], rate, cfg, env) == Ok(r.value[k])
  {
    var results: seq<AlignmentResult> := [];
    ghost var all := AllResults(aPcm, bPcm, shotTimes, rate, cfg, env);
    for k := 0 to |shotTimes|
      invariant |results| == k
      invariant forall j :: 0 <= j < k ==> all[j] == Ok(results[j])
    {
      var shot := AlignShot(aPcm, bPcm, shotTimes[k], rate, cfg, env);
      assert ResultAt(all, k, aPcm, bPcm, shotTimes[k], rate, cfg, env);
      if shot.Err? {
        return Err(shot.reason);
      }
      results := results + [shot.value];
    }
    forall k | 0 <= k < |shotTimes| ensures ShotResult(aPcm, bPcm, shotTimes[k], rate, cfg, env) == Ok(results[k]) {
      assert ResultAt(all, k, aPcm, bPcm, shotTimes[k], rate, cfg, env);
    }
    return Ok(results);
  }

  /** One shot too close to an end to be filtered, and the whole pair fails. */
  method AlignCameraPair(aPcm: seq<real>, bPcm: seq<real>, shotTimes: seq<real>, rate: int, cfg: Config, env: Env)
    returns (r: Result<PairResult>)
    requires ValidEnv(env)
    ensures r.Ok? <==>
      && rate > 0 && shotTimes != []
      && forall k :: 0 <= k < |shotTimes| ==> ShotResult(aPcm, bPcm, shotTimes[k], rate, cfg, env).Ok?
    ensures r.Ok? ==>
      && |r.value.perShot| == |shotTimes|
      && (forall k :: 0 <= k < |shotTimes| ==>
            ShotResult(aPcm, bPcm, shotTimes[k], rate, cfg, env) == Ok(r.value.perShot[k]))
      && r.value.medianOffsetS == Median(Offsets(Pool(r.value.perShot)))
      && r.value.confidentShotCount == |Confident(r.value.perShot)|
  {
    if rate <= 0 {
      return Err("sample_rate_hz must be positive");
    }
    if shotTimes == [] {
      return Err("need at least one shot time to align");
    }
    var aligned := AlignShots(aPcm, bPcm, shotTimes, rate, cfg, env);
    if aligned.Err? {
      return Err(aligned.reason);
    }
    var results := aligned.value;
    var confident := Confident(results);
    var pool := if confident != [] then confident else results;
    r := Ok(PairResult(Median(Offsets(pool)), |confident|, results));
  }

  lemma {:induction false} OffsetsAre(results: seq<AlignmentResult>, i: nat)
    requires i < |results|
    ensures Offsets(results)[i] == results[i].offsetS
  {
    if i > 0 {
      OffsetsAre(results[1..], i - 1);
    }
  }

  /**
   The session offset: half the sum of the two offsets nearest the middle, in order of size, over the confident
   shots, or over all shots if none is.
   */
  lemma SessionOffsetIs(results: seq<AlignmentResult>, pool: seq<AlignmentResult>)
    requires results != []
    requires pool == if exists i :: 0 <= i < |results| && results[i].confident then Confident(results) else results
    ensures Pool(results) == pool != []
    ensures var t := Sort(Offsets(pool)); var n := |pool|;
      2.0 * Median(Offsets(Pool(results))) == t[(n - 1) / 2] + t[n / 2]
    ensures forall i :: 0 <= i < |pool| ==> Offsets(pool)[i] == pool[i].offsetS
  {
    NoneConfidentIff(results);
    MedianIsMiddle(Offsets(pool));
    forall i | 0 <= i < |pool| ensures Offsets(pool)[i] == pool[i].offsetS {
      OffsetsAre(pool, i);
    }
  }

  /** One bad shot cannot drag the session offset: a strict majority of the pool decides. */
  lemma SessionOffsetIsRobust(results: seq<AlignmentResult>, lo: real, hi: real)
    requires results != [] && lo <= hi
    requires 2 * CountWithin(Offsets(Pool(results)), lo, hi) > |Pool(results)|
    ensures lo <= Median(Offsets(Pool(results))) <= hi
  {
    RobustMedian(Offsets(Pool(results)), lo, hi);
  }

  /** The filtered windows of this shot are exact copies, `delay` samples apart, up to a gain. */
  ghost predicate ExactShot(aPcm: seq<real>, bPcm: seq<real>, t: real, rate: int, cfg: Config, env: Env, delay: int)
    requires rate > 0 && ValidEnv(env)
  {
    var (a, b) := WindowPair(aPcm, bPcm, t, rate, HalfSamples(rate, cfg));
    var fa, fb := ZeroMean(env.bandpass(a)), ZeroMean(env.bandpass(b));
    && a != [] && Filterable(|a|, rate, cfg, env) && !Silent(fa)
    && exists gain :: gain != 0.0 && Delayed(fa, fb, delay, gain)
  }

  lemma ExactShotResult(aPcm: seq<real>, bPcm: seq<real>, t: real, rate: int, cfg: Config, env: Env, delay: int)
    requires rate > 0 && ValidEnv(env) && cfg.minConfidence <= 1.0
    requires -MaxLag(rate, cfg) <= delay <= MaxLag(rate, cfg)
    requires ExactShot(aPcm, bPcm, t, rate, cfg, env, delay)
    ensures var r := ShotResult(aPcm, bPcm, t, rate, cfg, env);
      r.Ok? && r.value.confident && r.value.offsetS == Seconds(delay as real, rate)
  {
    WindowsShareStart(aPcm, bPcm, t, rate, HalfSamples(rate, cfg));
    var (a, b) := WindowPair(aPcm, bPcm, t, rate, HalfSamples(rate, cfg));
    var fa, fb := ZeroMean(env.bandpass(a)), ZeroMean(env.bandpass(b));
    var gain :| gain != 0.0 && Delayed(fa, fb, delay, gain);
    ExactDelay(fa, fb, delay, gain, rate, cfg, env);
  }

  ghost function ExactCount(aPcm: seq<real>, bPcm: seq<real>, times: seq<real>, rate: int, cfg: Config, env: Env,
                            delay: int): nat
    requires rate > 0 && ValidEnv(env)
  {
    if times == [] then 0
    else (if ExactShot(aPcm, bPcm, times[0], rate, cfg, env, delay) then 1 else 0)
         + ExactCount(aPcm, bPcm, times[1..], rate, cfg, env, delay)
  }

  lemma {:induction false} ExactShotsArePooled(aPcm: seq<real>, bPcm: seq<real>, times: seq<real>, rate: int,
                                               cfg: Config, env: Env, delay: int, results: seq<AlignmentResult>)
    requires rate > 0 && ValidEnv(env) && cfg.minConfidence <= 1.0
    requires -MaxLag(rate, cfg) <= delay <= MaxLag(rate, cfg)
    requires |results| == |times|
    requires forall k :: 0 <= k < |times| ==> ShotResult(aPcm, bPcm, times[k], rate, cfg, env) == Ok(results[k])
    ensures var x := Seconds(delay as real, rate);
      ExactCount(aPcm, bPcm, times, rate, cfg, env, delay) <= CountWithin(Offsets(Confident(results)), x, x)
    ensures |Confident(results)| <= |results|
  {
    if times != [] {
      ExactShotsArePooled(aPcm, bPcm, times[1..], rate, cfg, env, delay, results[1..]);
      if ExactShot(aPcm, bPcm, times[0], rate, cfg, env, delay) {
        ExactShotResult(aPcm, bPcm, times[0], rate, cfg, env, delay);
      }
      var rest := Confident(results[1..]);
      assert ([results[0]] + rest)[1..] == rest;
      assert ([results[0].offsetS] + Offsets(rest))[1..] == Offsets(rest);
      assert [] + rest == rest;
    }
  }

  /**
   The session offset is exactly the clock skew as soon as strictly more than half of the shots were
   captured cleanly by both cameras, whatever the cross-correlation makes of the others.
   */
  lemma CleanMajorityGivesSkew(aPcm: seq<real>, bPcm: seq<real>, times: seq<real>, rate: int, cfg: Config, env: Env,
                               delay: int, results: seq<AlignmentResult>)
    requires rate > 0 && ValidEnv(env) && cfg.minConfidence <= 1.0
    requires -MaxLag(rate, cfg) <= delay <= MaxLag(rate, cfg)
    requires |results| == |times|
    requires forall k :: 0 <= k < |times| ==> ShotResult(aPcm, bPcm, times[k], rate, cfg, env) == Ok(results[k])
    requires 2 * ExactCount(aPcm, bPcm, times, rate, cfg, env, delay) > |times|
    ensures Median(Offsets(Pool(results))) == Seconds(delay as real, rate)
  {
    var x := Seconds(delay as real, rate);
    ExactShotsArePooled(aPcm, bPcm, times, rate, cfg, env, delay, results);
    CountWithinSplits(Offsets(Confident(results)), x, x, x);
    SessionOffsetIsRobust(results, x, x);
  }
}
