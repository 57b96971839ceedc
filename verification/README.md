# AIMVISION: verified models of the hard parts

A Dafny model of the parts of AIMVISION whose correctness is an argument rather than a reading: the
statistics and signal processing behind shot detection, the offline sync of the phone, at-least-once
ingest, the camera command queue, and the audit and erasure services. Each module follows one component.
Code that updates state in loops is a method or a class proved against a specification function; what the
component promises is then proved about that function, over every input or every run.

`dafny verify dfyconfig.toml` checks everything.

| modules | component |
|---|---|
| `ConformalSets` | conformal prediction sets and their coverage |
| `CoresetSelection` | greedy k-centre selection |
| `RangeSums`, `CrossCorrelation`, `MeanRemoval`, `PairAlignment` | aligning two cameras by sound |
| `ShotMatching` | scoring a shot detector by greedy matching |
| `CommandQueue`, `RetryPolicy` | the single-in-flight camera command queue and its backoff |
| `SyncSchema`, `SyncConflict`, `SyncStore`, `SyncPull`, `SyncPush`, `SyncEngine`, `SyncRecovery` | the offline sync engine: tables and payload check, conflict policy, local store, the two phases, one round with crashes, many rounds |
| `SessionStore`, `PostSession` | idempotent ingest endpoints and the post-session pipeline over them |
| `ClassificationMetrics`, `CalibrationError` | macro-F1, top-k, recall; calibration error |
| `PeakPicking` | onset emission with suppression |
| `AuditChain` | the hash-chained audit log |
| `FrameRing` | the drop-oldest frame and audio queues |
| `TenantErasure` | per-tenant keys, crypto-shredding and the erasure ledger |
| `Numerics`, `OrderStatistics` | shared arithmetic, sorting, quantiles, medians |

Floating-point numbers are reals. Time, randomness and generated ids are arguments; the network is a
function or a list of arbitrary steps; the database is a set of maps. The hash, the cipher, the metric,
the square root, the sigmoid, the sort and the band-pass filter are function parameters with the laws they are relied on for.
A run is a list of steps in any order, so statements over runs cover every interleaving.

## Where the code differs from what is said about it

Each of these is proved, with the exact condition where there is one.

- The conformal coverage promise fails when the requested rank does not exist: it holds for all data if
  and only if (n+1)c <= n (`NominalCoverageIff`).
- The coreset `scores` are always 0 (`ScoresAreZero`).
- Mean removal inside the correlation makes the peak of an exact delay lopsided unless the mean is 0 or the edge
  samples happen to match (`MeanRemovalSkewsPeak`, `OffsetSurvivesMeanRemovalIff`), so a pair of windows
  that leaves the filter as a click and the same click one sample later is misreported at every length from three
  samples on (`MeanRemovalLosesDelay`). A real band-pass filter does not produce exact clicks; for what it does
  produce `ShotOffsetIff` is the exact condition, and windows of mean 0 are recovered exactly
  (`ZeroMeanDelayIsExact`).
- One shot whose window is shorter than the filter's padding makes the whole pair raise (`ShotFailsIff`,
  `AlignCameraPair`).
- `command_queue.rs` says in its header that overflow drops the oldest command; `submit` waits instead. With
  overflow checks the +-25 % jitter loses its band on some hash exactly when 25 times the base leaves an i64
  (`JitterBandIff`), and panics on some hash exactly when 25 times the truncated base does (`NeverPanicsIff`). The
  release profile has no checks and wraps; it keeps the band almost up to the largest i64 (`WrappedJitterBand`; for
  each hash exactly, `BackoffInBandIff`). In both builds the longest Duration is retried without delay
  (`LongestBackoffIsZero`).
- The first candidates of a recording are swallowed when the gap exceeds 10000 frames (`NeverDeafIff`).
- `conflict.ts` describes append-only tables as first-write-wins in its header; the code takes the server
  row, so the last writer wins (`FateIsLastWriter`).
- A merged session edit is stored as synced and so is never pushed, and a pull cut off after it and started
  over drops it (`MergeTakesDirtyColumns`, `CrashLosesEditIff`). A page applies deletes last, whatever the
  server did last (`PageMustSummariseIff`, `RecreatedRowIsLost`). A push stores its own timestamp as the cursor and
  so skips what others wrote since the pull (`ConvergesIff`, `PushSkipsNewRow`). Rejected rows play no part in what
  is cleaned (`RowStaysPendingIff`).
- The partial flag follows the last run of the pipeline, so crash-retry of a finalized session needs exactly the
  same model setting (`RerunIsCleanIff`, `OpenRerunIsCleanIff`).
- An untouched audit chain verifies only if the clock went strictly forward (`VerifiesIffClockForward`,
  `VerifiesInEveryOrderIff`).
- `stats` of the phone camera is called an atomic snapshot and is four reads. While nobody polls, they belong to one
  moment only under the exact condition of `StatsOfOneMomentIff`; without evictions, only if no chunk arrives after a
  frame between the first two reads (`StatsWithoutEvictionsIff`, `QueuesAreReadApart`).
- Executing an erasure tombstones the user its ticket names without asking which tenant the user belongs to
  (`UserErasedIff`).

## Model

| member | source | states |
|---|---|---|
| `ConformalSets.ConformalPredictionSets` | aimvision-ml/src/aimvision_ml/inference/calibration.py:108-142 | an error exactly for coverage outside (0, 1), otherwise one set per query row: top choice without calibration data, else all classes at or above the threshold with the top choice as fallback |
| `ConformalSets.MembershipExact` | aimvision-ml/src/aimvision_ml/inference/calibration.py:138-140 | a class is in the set if and only if it is the top choice or its score is within the calibrated bound |
| `ConformalSets.MembershipInterpolated` | aimvision-ml/src/aimvision_ml/inference/calibration.py:126-142 | the membership test in numbers: with k = ceil((n+1)c) a class other than the top choice is in the set if and only if n times its score is at most k times the k-th smallest calibration score plus n - k times the next one, or for k >= n its score is at most the largest |
| `ConformalSets.LevelIsRank` | aimvision-ml/src/aimvision_ml/inference/calibration.py:132 | the clamped level is the rank min(ceil((n+1)c), n) over n |
| `ConformalSets.LeaveOneOutBound` | aimvision-ml/src/aimvision_ml/inference/calibration.py:130-134 | the bound calibrated without sample i is at least the k-th smallest of all n+1 scores, and a covered score is at most the next one |
| `ConformalSets.CoverageAtLeastRank` | aimvision-ml/src/aimvision_ml/inference/calibration.py:126-142 | finite-sample coverage by counting: for any n+1 samples at least min(ceil((n+1)c), n) of the leave-one-out calibrations cover the left-out label, ties and interpolation included |
| `ConformalSets.CoverageAtMostNextRank` | aimvision-ml/src/aimvision_ml/inference/calibration.py:126-142 | the converse bound: labels that are not the top choice are covered only up to the next order statistic, so the sets are not needlessly large |
| `ConformalSets.NominalCoverageIff` | aimvision-ml/src/aimvision_ml/inference/calibration.py:114-133 | the requested coverage is met by every data set of n+1 samples if and only if (n+1)c <= n; otherwise the clamp to level 1 loses it |
| `ConformalSets.SetsNestInCoverage` | aimvision-ml/src/aimvision_ml/inference/calibration.py:131-138 | raising the coverage never removes a class from any set |
| `OrderStatistics.KthSmallest` | aimvision-ml/src/aimvision_ml/inference/calibration.py:133 | the k-th entry of the sorted scores is at most x exactly when more than k scores are |
| `Numerics.CeilIs` | aimvision-ml/src/aimvision_ml/inference/calibration.py:132 | the rank is the least integer not below its argument |
| `OrderStatistics.QuantileBracket` | aimvision-ml/src/aimvision_ml/inference/calibration.py:133 | the linearly interpolated quantile at level k/n lies between the k-th smallest value and the next one |
| `OrderStatistics.QuantileInterpolates` | aimvision-ml/src/aimvision_ml/inference/calibration.py:133 | where the level falls the fraction p of the way from the j-th sorted value to the next, the quantile is 1 - p parts of the one and p parts of the other |
| `OrderStatistics.QuantileTop` | aimvision-ml/src/aimvision_ml/inference/calibration.py:133 | at level 1 the quantile is the largest value |
| `OrderStatistics.MedianIsMiddle` | aimvision-ml/src/aimvision_ml/inference/audio_xcorr.py:401 | twice the median is the sum of the two entries nearest the middle, for odd and even counts |
| `OrderStatistics.QuantileMonotone` | aimvision-ml/src/aimvision_ml/inference/calibration.py:133 | the interpolated quantile never decreases with the level |
| `OrderStatistics.RobustMedian` | aimvision-ml/src/aimvision_ml/inference/audio_xcorr.py:401 | a strict majority of values inside [lo, hi] puts the median inside, for odd and even counts |
| `CoresetSelection.SelectCoreset` | aimvision-ml/src/aimvision_ml/training/active_learning.py:73-90 | budget errors exactly outside [1, N]; otherwise `budget` indices, each the first farthest point from those before it, and final distances equal to the nearest-chosen distance |
| `CoresetSelection.NearestIsMinimum` | aimvision-ml/src/aimvision_ml/training/active_learning.py:80-85 | the incrementally kept `min_dist` is the distance to the nearest chosen point: attained by one, exceeded by none |
| `CoresetSelection.ChosenAreSeparated` | aimvision-ml/src/aimvision_ml/training/active_learning.py:81-83 | any two chosen points are at least the final covering radius apart |
| `CoresetSelection.TwoApproximation` | aimvision-ml/src/aimvision_ml/training/active_learning.py:59-85 | in every metric, from every start: if any at most `budget` centres, anywhere in the space, cover all points within r, the greedy choice covers them within 2r |
| `CoresetSelection.DistinctIff` | aimvision-ml/src/aimvision_ml/training/active_learning.py:81-85 | all chosen points differ if and only if the data holds at least `budget` different points |
| `CoresetSelection.ScoresAreZero` | aimvision-ml/src/aimvision_ml/training/active_learning.py:86-88 | the reported scores are always 0: each is the distance of a chosen point to itself |
| `RangeSums.CauchySchwarz` | aimvision-ml/src/aimvision_ml/inference/audio_xcorr.py:323-326 | Cauchy-Schwarz for sums over any index range |
| `CrossCorrelation.CorrBound` | aimvision-ml/src/aimvision_ml/inference/audio_xcorr.py:273-274 | the squared correlation at any lag is at most the product of the two energies |
| `CrossCorrelation.ConfidenceInUnitRange` | aimvision-ml/src/aimvision_ml/inference/audio_xcorr.py:316-326 | for any two equal-length windows the confidence lies in [0, 1] |
| `CrossCorrelation.ReportedIs` | aimvision-ml/src/aimvision_ml/inference/audio_xcorr.py:288-334 | for any two windows the confidence is the non-negative number whose square times both energies is the squared correlation at the lag of largest magnitude, and 0 for a silent window; the peak value is that correlation; and the shot is confident if and only if it reaches the least confidence |
| `CrossCorrelation.AutoSymmetric` | aimvision-ml/src/aimvision_ml/inference/audio_xcorr.py:273 | the correlation of a window with itself is symmetric in the lag |
| `CrossCorrelation.AutoStrict` | aimvision-ml/src/aimvision_ml/inference/audio_xcorr.py:273 | and strictly below its energy at every lag but 0, unless the window is silent |
| `CrossCorrelation.PeakIsUnique` | aimvision-ml/src/aimvision_ml/inference/audio_xcorr.py:288-297 | if b is a delayed by D and scaled by any non-zero gain, the magnitude is largest at lag -D and nowhere else |
| `CrossCorrelation.ExactDelay` | aimvision-ml/src/aimvision_ml/inference/audio_xcorr.py:273-334 | exact recovery, any gain and polarity: for such windows with D inside the search range the offset is exactly D / sample_rate with no sub-sample error, and the confidence is 1 |
| `MeanRemoval.CorrectionIsVertex` | aimvision-ml/src/aimvision_ml/inference/audio_xcorr.py:206-229 | at a peak the correction lies in [-1/2, 1/2] and is where the fitted parabola is largest; the clamp never acts |
| `MeanRemoval.ReportedOffsetIs` | aimvision-ml/src/aimvision_ml/inference/audio_xcorr.py:288-334 | for any two windows the reported offset is minus the lag of largest magnitude in the search range, refined by at most half a sample to the vertex of the parabola through it and its neighbours, unrefined at the ends of the range |
| `MeanRemoval.MaxLagIs` | aimvision-ml/src/aimvision_ml/inference/audio_xcorr.py:276-277 | the search range is the window in ms times the rate, rounded to the nearest sample |
| `MeanRemoval.MeanRemovalKeepsDelayIff` | aimvision-ml/src/aimvision_ml/inference/audio_xcorr.py:260-264 | mean removal turns an exactly delayed pair into an exactly delayed pair if and only if the delay is 0 or the mean is 0 |
| `MeanRemoval.OffsetIsDelayIff` | aimvision-ml/src/aimvision_ml/inference/audio_xcorr.py:295-334 | for any two windows the reported offset is D samples if and only if the magnitude peaks at -D and, inside the search range, its two neighbours are equal in magnitude; with the peak in place the error is at most half a sample |
| `MeanRemoval.MeanRemovalSkewsPeak` | aimvision-ml/src/aimvision_ml/inference/audio_xcorr.py:260-273 | for every exact delay inside the window, every gain and either polarity the two neighbours of the true lag differ after mean removal by gain * mean * (2 mean - the two edge samples) |
| `MeanRemoval.OffsetSurvivesMeanRemovalIff` | aimvision-ml/src/aimvision_ml/inference/audio_xcorr.py:260-334 | so the exact delay is still reported exactly if and only if the peak stays there and it is at the edge of the search range, or the mean is 0, or the edge samples add up to twice the mean, or the neighbours are exact opposites |
| `MeanRemoval.ZeroMeanDelayIsExact` | aimvision-ml/src/aimvision_ml/inference/audio_xcorr.py:260-334 | the checkable half: if the filtered windows have mean 0 and are not silent, any delay in the search range is reported exactly and with confidence 1 |
| `MeanRemoval.ShotOffsetIff` | aimvision-ml/src/aimvision_ml/inference/audio_xcorr.py:248-334 | both through the whole function, for two windows that leave the filter as an exact delay of each other: the same exact condition, and exactness whenever the filtered window has mean 0 |
| `MeanRemoval.MeanRemovalLosesDelay` | aimvision-ml/src/aimvision_ml/inference/audio_xcorr.py:260-334 | the recovery promise fails for filtered windows of every length from 3 samples on, with at least two lags searched either way: a click and the same click one sample later, as they leave the filter, are never reported as one sample apart |
| `MeanRemoval.ClicksAreMisreported` | aimvision-ml/src/aimvision_ml/inference/audio_xcorr.py:248-334 | the same through the whole function, for any filter whose output is such a pair of clicks |
| `PairAlignment.WindowsShareStart` | aimvision-ml/src/aimvision_ml/inference/audio_xcorr.py:382-392 | both windows are the same absolute stretch of the two recordings: from half a window before the nominal time to half a window after it or the end of the shorter recording |
| `PairAlignment.WindowsAreCentred` | aimvision-ml/src/aimvision_ml/inference/audio_xcorr.py:382-426 | the window is centred on the sample nearest the nominal time and half the configured length reaches each way, to the nearest sample |
| `PairAlignment.AlignShot` | aimvision-ml/src/aimvision_ml/inference/audio_xcorr.py:382-397 | one shot: window pair, truncation, the empty-window result, otherwise the correlation or its exception |
| `PairAlignment.ShotFailsIff` | aimvision-ml/src/aimvision_ml/inference/audio_xcorr.py:174-203 | a shot raises exactly when its window is not empty and cannot be filtered: a band outside (0, Nyquist) or no more samples than the filter pads with |
| `PairAlignment.AlignCameraPair` | aimvision-ml/src/aimvision_ml/inference/audio_xcorr.py:368-406 | an error exactly for a non-positive rate, no shot times or one shot that raises; otherwise the per-shot results in order, the confident count and the median of the pool |
| `PairAlignment.SessionOffsetIsRobust` | aimvision-ml/src/aimvision_ml/inference/audio_xcorr.py:399-401 | if strictly more than half of the pooled offsets lie in [lo, hi], so does the session offset |
| `PairAlignment.NothingToAlign` | aimvision-ml/src/aimvision_ml/inference/audio_xcorr.py:278-290 | a shot without common samples, or with nothing to search, is reported as zeros and not confident |
| `PairAlignment.SessionOffsetIs` | aimvision-ml/src/aimvision_ml/inference/audio_xcorr.py:399-406 | twice the session offset is the sum of the two offsets nearest the middle, over the confident shots or over all if none is |
| `PairAlignment.ConfidentAppend` | aimvision-ml/src/aimvision_ml/inference/audio_xcorr.py:399-404 | the confident shots are picked one by one, in order |
| `PairAlignment.ConfidentOne` | aimvision-ml/src/aimvision_ml/inference/audio_xcorr.py:399-404 | a shot alone is picked exactly if it is confident |
| `Numerics.RoundIs` | aimvision-ml/src/aimvision_ml/inference/audio_xcorr.py:418 | the rounding behind lags and windows gives a nearest integer, of two equally near ones the even one |
| `PairAlignment.CleanMajorityGivesSkew` | aimvision-ml/src/aimvision_ml/inference/audio_xcorr.py:337-406 | end to end: if more than half of the shots were heard as exact copies D samples apart, the session offset is exactly D / sample_rate, whatever the other shots contain |
| `ShotMatching.NearestUnused` | aimvision-ml/src/aimvision_ml/eval/audio_detection_eval.py:53-61 | the inner scan: a nearest unused shot within tolerance, the last among equals, or none |
| `ShotMatching.TimeOrderSorts` | aimvision-ml/src/aimvision_ml/eval/audio_detection_eval.py:50 | predictions are processed in a stable time order, each once |
| `ShotMatching.GreedyMatch` | aimvision-ml/src/aimvision_ml/eval/audio_detection_eval.py:47-64 | the two nested loops compute the greedy pass over that order |
| `ShotMatching.GreedyIsMaximalMatching` | aimvision-ml/src/aimvision_ml/eval/audio_detection_eval.py:47-64 | the result is injective both ways, within tolerance, and leaves no unmatched pair within tolerance |
| `ShotMatching.GreedyIs` | aimvision-ml/src/aimvision_ml/eval/audio_detection_eval.py:47-64 | prediction by prediction: each gets the nearest shot within tolerance that no earlier prediction, by time and then by position, has taken, the last of several nearest ones, and none if there is none |
| `ShotMatching.HalfOfOptimum` | aimvision-ml/src/aimvision_ml/eval/audio_detection_eval.py:47-66 | no matching that respects the tolerance has more than 2 TP pairs |
| `ShotMatching.OptimalWhenSeparated` | aimvision-ml/src/aimvision_ml/eval/audio_detection_eval.py:47-66 | when shots are more than two tolerances apart no matching has more than TP pairs |
| `ShotMatching.GreedyCanLoseHalf` | aimvision-ml/src/aimvision_ml/eval/audio_detection_eval.py:47-66 | the factor two is reached by a concrete pair of lists |
| `ShotMatching.Evaluate` | aimvision-ml/src/aimvision_ml/eval/audio_detection_eval.py:41-91 | an error exactly for a non-positive tolerance; otherwise the report of the greedy matching against the shot-kind events only |
| `ShotMatching.ReportIsConsistent` | aimvision-ml/src/aimvision_ml/eval/audio_detection_eval.py:66-91 | TP + FP = predictions, TP + FN = shots, precision and recall are TP per prediction and per shot and 0 where there are none, F1 = 2 TP / (predictions + shots), and the mean timing error is the summed gaps in ms per match and at most the tolerance |
| `ShotMatching.ShotTimesAppend` | aimvision-ml/src/aimvision_ml/eval/audio_detection_eval.py:44 | the truth shots are the events of kind shot, one by one and in order |
| `ShotMatching.ShotTimesOne` | aimvision-ml/src/aimvision_ml/eval/audio_detection_eval.py:44 | an event alone counts exactly if its kind is shot |
| `ShotMatching.F1AtLeastHalf` | aimvision-ml/src/aimvision_ml/eval/audio_detection_eval.py:66-72 | the reported F1 is at least half of what any admissible matching would score |
| `CommandQueue.RunIsSafe` | aimvision-camera-core/crates/aimvision-camera-state/src/command_queue.rs:82-170 | over every interleaving: one command in flight at most, at most `queue_capacity` in the channel, and the replies are exactly the enqueued commands in enqueue order, each once, the rest still pending; a timeout only answers a command that needs longer than the watchdog, however long it waited |
| `CommandQueue.EnqueueSendsOwn` | aimvision-camera-core/crates/aimvision-camera-state/src/command_queue.rs:107-116 | a parked submitter enters the channel with its own command, behind all others, and no other submitter moves |
| `CommandQueue.NothingLostOrDoubled` | aimvision-camera-core/crates/aimvision-camera-state/src/command_queue.rs:95-132 | over every interleaving: the commands waiting, those that ever entered the channel and those given up are together exactly the commands submitted, each as often |
| `CommandQueue.RepliesAnswerSubmitted` | aimvision-camera-core/crates/aimvision-camera-state/src/command_queue.rs:95-170 | every reply answers a command that was submitted, the k-th reply the k-th to enter |
| `CommandQueue.EveryCommandCanBeAnswered` | aimvision-camera-core/crates/aimvision-camera-state/src/command_queue.rs:95-170 | no run with a promptly scheduled worker gets stuck: from anywhere it can go on, without new commands, until every command submitted and not given up has its reply |
| `CommandQueue.HistoryOnlyGrows` | aimvision-camera-core/crates/aimvision-camera-state/src/command_queue.rs:134-169 | a reply once sent never changes and no enqueued command is lost or reordered |
| `CommandQueue.PromptRunOnSchedule` | aimvision-camera-core/crates/aimvision-camera-state/src/command_queue.rs:139-169 | with a promptly scheduled worker every reply comes exactly when a first-come first-served server would give it, and is the outcome or the timeout the command has to get |
| `CommandQueue.DoneByDeadline` | aimvision-camera-core/crates/aimvision-camera-state/src/command_queue.rs:139-169 | the reference schedule finishes a command within (commands ahead + 1) watchdog periods of entering |
| `CommandQueue.AnsweredInTime` | aimvision-camera-core/crates/aimvision-camera-state/src/command_queue.rs:95-170 | a command with j ahead of it is answered within (j + 1) watchdog periods, and j is at most the capacity |
| `RetryPolicy.FxHash` | aimvision-camera-core/crates/aimvision-camera-state/src/command_queue.rs:234-241 | the loop computes the 64-bit FNV-1a fold of the sixteen little-endian bytes |
| `RetryPolicy.FnvTestVectors` | aimvision-camera-core/crates/aimvision-camera-state/src/command_queue.rs:231-241 | the fold gives the published FNV-1a test vectors |
| `RetryPolicy.LittleEndianVector` | aimvision-camera-core/crates/aimvision-camera-state/src/command_queue.rs:236 | the bytes of a word come lowest first |
| `RetryPolicy.CheckedAgrees` | aimvision-camera-core/crates/aimvision-camera-state/src/command_queue.rs:218-229 | where overflow checks let the computation through, both builds return the same delay |
| `RetryPolicy.BaseDoubles` | aimvision-camera-core/crates/aimvision-camera-state/src/command_queue.rs:220 | the base doubles from each attempt to the next, saturating, and stays from the ninth on |
| `RetryPolicy.TruncDivIs` | aimvision-camera-core/crates/aimvision-camera-state/src/command_queue.rs:226 | the division of the jitter cuts off toward zero |
| `RetryPolicy.PercentIs` | aimvision-camera-core/crates/aimvision-camera-state/src/command_queue.rs:224 | the percentages -25 to 25 in turn, as the hash counts up |
| `RetryPolicy.SecondDelay` | aimvision-camera-core/crates/aimvision-camera-state/src/command_queue.rs:218-241 | for instance the wait before the third attempt at the defaults is 500 ms and 11 % of it |
| `RetryPolicy.JitteredBackoff` | aimvision-camera-core/crates/aimvision-camera-state/src/command_queue.rs:218-229 | the delay of either build: with overflow checks or the panic of the i64 product or sum, without them from the wrapped values |
| `RetryPolicy.JitterBand` | aimvision-camera-core/crates/aimvision-camera-state/src/command_queue.rs:223-227 | while 25 times the base fits in an i64 nothing overflows and every delay is within 25 % of its base under truncating division, for every hash, in both builds |
| `RetryPolicy.NeverPanicsIff` | aimvision-camera-core/crates/aimvision-camera-state/src/command_queue.rs:223-227 | a build with overflow checks survives every hash if and only if 25 times the truncated base fits in an i64 either way |
| `RetryPolicy.JitterBandIff` | aimvision-camera-core/crates/aimvision-camera-state/src/command_queue.rs:220-228 | in a build with overflow checks the +-25 % promise holds for every hash if and only if 25 times the base fits in an i64 |
| `RetryPolicy.WrappedJitterBand` | aimvision-camera-core/Cargo.toml:34-38 | in a release build, whose profile has no overflow checks, it holds for every hash up to a hundredth below the largest i64, and fails for some hash beyond the largest i64 |
| `RetryPolicy.BackoffInBandIff` | aimvision-camera-core/crates/aimvision-camera-state/src/command_queue.rs:218-241 | with the hash that attempt really gets, its delay is within 25 % of its base if and only if the base plus its jitter, computed from the wrapped product, stays below 2^63, and with overflow checks also the base and the product fit |
| `RetryPolicy.LongestBackoffIsZero` | aimvision-camera-core/crates/aimvision-camera-state/src/command_queue.rs:218-229 | the input that shows it, in both builds: with the longest Duration every retry comes without any delay |
| `RetryPolicy.SubmitWithRetry` | aimvision-camera-core/crates/aimvision-camera-state/src/command_queue.rs:178-211 | the retry loop produces the result, calls and sleeps of its specification |
| `RetryPolicy.DriveBehaviour` | aimvision-camera-core/crates/aimvision-camera-state/src/command_queue.rs:198-210 | for any delays: every attempt before the last call failed retryably and was followed by its delay; the last one is the first success, the first non-retryable error or the last allowed and its result is returned, or computing the delay after it overflowed |
| `RetryPolicy.RetriesAre` | aimvision-camera-core/crates/aimvision-camera-state/src/command_queue.rs:184-210 | in plain terms: cancelled without an attempt allowed; otherwise every call but the last failed by timeout, transport or Wi-Fi and was followed by its delay, and the result is that of the last, the first not to fail so or the last allowed |
| `RetryPolicy.DriveSleeps` | aimvision-camera-core/crates/aimvision-camera-state/src/command_queue.rs:202-206 | the total sleep is between 3/4 and 5/4 of the summed bases of the attempts that failed, for any delays within a quarter of theirs |
| `RetryPolicy.ShippedDelaysIff` | aimvision-camera-core/crates/aimvision-camera-state/src/command_queue.rs:218-229 | for every initial delay: all delays of the queue are in the band if and only if each attempt meets that condition |
| `RetryPolicy.ShippedDelays` | aimvision-camera-core/crates/aimvision-camera-state/src/command_queue.rs:218-229 | in particular for initial delays below 2^63 / 6400 ns, about sixteen days, and in a release build for about 412 days |
| `RetryPolicy.RetryBehaviour` | aimvision-camera-core/crates/aimvision-camera-state/src/command_queue.rs:178-215 | at most `max_attempts` calls, the result of the last one, only retryable failures before it, and total sleep within 25 % of the exponential series |
| `RetryPolicy.DefaultSleepsFitWatchdog` | aimvision-camera-core/crates/aimvision-camera-state/src/command_queue.rs:37-46 | with the shipped defaults and the shipped backoff nothing overflows and the sleeps stay below the 2 s watchdog, in both builds |
| `SyncSchema.PushableTables` | aimvision-mobile/src/sync/schema.ts:134-136 | every table but consent_records, each once |
| `SyncSchema.ColumnsAre` | aimvision-mobile/src/sync/schema.ts:25-128 | table by table, the valid columns are the shared ones and its own, and other tables have none |
| `SyncSchema.CheckRow` | aimvision-mobile/src/sync/protocol.ts:89-93 | the offending columns of one row, exactly |
| `SyncSchema.CheckBucket` | aimvision-mobile/src/sync/protocol.ts:80-94 | the offences of one bucket of a known table, exactly |
| `SyncSchema.ValidatePushPayload` | aimvision-mobile/src/sync/protocol.ts:74-99 | the reported (table, column) pairs are all offences of the payload and nothing else |
| `SyncConflict.ChangedColsRoundTrip` | aimvision-mobile/src/sync/conflict.ts:118-126 | a list of dirty column names written with commas is read back as exactly that set |
| `SyncConflict.ChangedColsWithBlanks` | aimvision-mobile/src/sync/conflict.ts:118-126 | any list of names is read as its names, blanks around them and empty parts between the commas notwithstanding |
| `SyncConflict.SpaceIs` | aimvision-mobile/src/sync/conflict.ts:123 | of the ASCII characters the blank, the tab and the line breaks are trimmed, and no others |
| `SyncStore.LocalStore.constructor` | aimvision-mobile/src/sync/engine.ts:33-57 | the store starts as given |
| `SyncStore.LocalStore.CollectDirty` | aimvision-mobile/src/sync/engine.ts:34-36 | every dirty row of the table, each once |
| `SyncStore.LocalStore.FindByServerId` | aimvision-mobile/src/sync/engine.ts:38-39 | the row found under a server id |
| `SyncStore.LocalStore.UpsertSynced` | aimvision-mobile/src/sync/engine.ts:41-42 | inserts or replaces the row under its server id and marks it synced |
| `SyncStore.LocalStore.AcceptCreate` | aimvision-mobile/src/sync/engine.ts:44-46 | patches the server id and clears `_status` and `_changed` |
| `SyncStore.LocalStore.AcceptUpdate` | aimvision-mobile/src/sync/engine.ts:48-49 | clears `_status` and `_changed` of the row found |
| `SyncStore.LocalStore.AcceptDelete` | aimvision-mobile/src/sync/engine.ts:51-52 | removes the row found |
| `SyncStore.LocalStore.SetCursor` | aimvision-mobile/src/sync/engine.ts:54-56 | writes the cursor and nothing else |
| `SyncPull.PullIsFold` | aimvision-mobile/src/sync/engine.ts:88-125 | the pull phase refines an independent fold of the page over each server id, whatever else the page and the store hold |
| `SyncPull.FateIsLastWriter` | aimvision-mobile/src/sync/conflict.ts:65-90 | on append-only and consent tables, whatever the local dirty state, and on sessions without dirty columns, the fold is the last writer of the page |
| `SyncPull.LastChangeWins` | aimvision-mobile/src/sync/conflict.ts:65-90 | table by table: of the rows of recordings, shots, shot_events and consent_records, and of sessions without edited columns, only the last change of a page counts, a delete removing the row and an upsert leaving exactly the pulled columns, synced |
| `SyncPull.CrashedPullReplays` | aimvision-mobile/src/sync/engine.ts:88-127 | on append-only and consent tables and on sessions without dirty columns: a pull cut off after any number of rows and started over gives the same rows as an undisturbed one; replaying a whole page changes nothing |
| `SyncPull.CrashLosesEditIff` | aimvision-mobile/src/sync/engine.ts:97-127 | for a dirty session row: cut off after n changes and started over, the pull ends differently if and only if the page ends in a merge that keeps a local value and the first n changes override the row |
| `SyncPull.DirtyRowFate` | aimvision-mobile/src/sync/conflict.ts:86-114 | the closed form of a dirty session row over a page: itself while strictly newer than all of it, the merge with the last change where the page ends in a merge, otherwise the last writer |
| `SyncPull.MergeTakesDirtyColumns` | aimvision-mobile/src/sync/conflict.ts:93-107 | the merge takes local values on exactly the dirty columns and server values elsewhere, and leaves the row clean |
| `SyncPull.LocalEditSurvivesIff` | aimvision-mobile/src/sync/conflict.ts:86-114 | over a whole page a dirty session row stays untouched and dirty if and only if no change of it is a delete or as new as it; otherwise nothing of it is dirty any more |
| `SyncPull.EditSurvivesStampsIff` | aimvision-mobile/src/sync/conflict.ts:93-114 | by the numbers: over a page of puts an edited session row stays as it is if and only if every put of it is stamped earlier than the edit; otherwise it ends up synced |
| `SyncPull.OnePutDecides` | aimvision-mobile/src/sync/conflict.ts:93-114 | one pulled session row: stamped earlier it is ignored, stamped at the edit or later it becomes the pulled row with the edited columns put back, synced; without a stamp on both it is ignored |
| `SyncPull.MergeIsServerRowIff` | aimvision-mobile/src/sync/conflict.ts:93-103 | a merge writes the plain server row if and only if every dirty column already held the server value |
| `SyncPull.ReplayLosesEditIff` | aimvision-mobile/src/sync/engine.ts:97-116 | replaying a page changes a dirty session row if and only if the page ended in the merge of that row and the merge kept a local value |
| `SyncPull.PullKeepsConsistent` | aimvision-mobile/src/sync/engine.ts:88-125 | pulling keeps server ids unique and the cursor unchanged |
| `SyncPull.PullKeepsLocalCreates` | aimvision-mobile/src/sync/engine.ts:88-125 | a row created on the device is never touched by a pull |
| `SyncPush.SplitDirty` | aimvision-mobile/src/sync/engine.ts:139-148 | the three lists of a bucket, by status and server id |
| `SyncPush.GatherPayload` | aimvision-mobile/src/sync/engine.ts:129-150 | one bucket per pushable table with dirty rows, none for the others |
| `SyncPush.PayloadIsExact` | aimvision-mobile/src/sync/engine.ts:129-150 | the payload holds each addressable dirty row of the pushable tables exactly once and nothing else |
| `SyncPush.ConsentIsNeverPushed` | aimvision-mobile/src/sync/schema.ts:130-136 | no bucket of the payload is consent_records |
| `SyncPush.RowStaysPendingIff` | aimvision-mobile/src/sync/engine.ts:164-185 | after the push a dirty row stays as it was exactly when it is a created row the server did not name or an unnamed row whose server id was issued to another; otherwise it is gone or synced |
| `SyncPush.ConfirmedCursorIs` | aimvision-mobile/src/sync/engine.ts:185 | the cursor moves to the timestamp of the answer, if it has one, and stays otherwise |
| `SyncPush.ConfirmingOnlyCleans` | aimvision-mobile/src/sync/engine.ts:169-181 | confirming leaves each row as it was or cleans it and adds none |
| `SyncPush.ConfirmingKeepsColumns` | aimvision-mobile/src/sync/engine.ts:169-184 | confirming a push never changes a column the user edits |
| `SyncPush.NamedRowIsFound` | aimvision-mobile/src/sync/engine.ts:169-173 | a created row the server named once is found under its new id, carries it and is synced |
| `SyncPush.NothingPendingIff` | aimvision-mobile/src/sync/engine.ts:169-181 | no addressable dirty row remains if and only if every created row was named and no id of an unnamed pushed row was issued to another |
| `SyncPush.ConfirmingKeepsConsistent` | aimvision-mobile/src/sync/engine.ts:169-185 | server ids stay unique as long as the server issues unused ones |
| `SyncEngine.ApplyPulledRow` | aimvision-mobile/src/sync/engine.ts:190-213 | one pulled row is resolved and written as specified |
| `SyncEngine.PullPage` | aimvision-mobile/src/sync/engine.ts:88-125 | all tables and rows in order; every snapshot on the way is a partly applied page |
| `SyncEngine.AcceptIssued` | aimvision-mobile/src/sync/engine.ts:169-173 | every named row gets its server id |
| `SyncEngine.AcceptPayload` | aimvision-mobile/src/sync/engine.ts:174-181 | every pushed update is cleared and every pushed tombstone dropped |
| `SyncEngine.SyncOnce` | aimvision-mobile/src/sync/engine.ts:81-188 | one round: a failed pull changes nothing, a payload with an unknown column or a failed push leaves the store as the pull left it, otherwise the result is confirmed; with the snapshots a crash can leave behind |
| `SyncEngine.CursorNeverAhead` | aimvision-mobile/src/sync/engine.ts:127 | at every crash point a cursor other than the old one is stored only after the page was fully applied |
| `SyncEngine.CrashInPullIsHarmless` | aimvision-mobile/src/sync/engine.ts:82-127 | a round cut off before the cursor moved is made good by pulling the same page again, for append-only and consent rows and sessions without dirty columns |
| `SyncEngine.CrashInPullLosesEditIff` | aimvision-mobile/src/sync/engine.ts:82-127 | and for a dirty session row exactly when the changes applied before the cut do not override it or the page does not end in its merge |
| `SyncEngine.RoundKeepsConsistent` | aimvision-mobile/src/sync/engine.ts:81-188 | a round keeps server ids unique |
| `SyncRecovery.PageWordIsLastTouch` | aimvision-mobile/src/sync/engine.ts:93-125 | what a page does to a row last: what its last bucket for the table says, a delete outweighing an update and an update a create |
| `SyncRecovery.RoundIsAttempt` | aimvision-mobile/src/sync/engine.ts:82-127 | every snapshot of a round up to the move of the cursor is the end of a pull cut off there, or of the complete one |
| `SyncRecovery.AttemptStaysUpToDate` | aimvision-mobile/src/sync/engine.ts:88-127 | one pull of a page that summarises its stretch of the server log, cut off anywhere, keeps every row that stretch leaves alone as the log wants it, and a complete one makes all rows so |
| `SyncRecovery.PullsConverge` | aimvision-mobile/src/sync/engine.ts:81-127 | convergence over pulls: after any number of them cut off anywhere, a completed one leaves each row exactly as the whole server log up to the cursor makes it, if each page summarises its stretch of the log; in between, every row the log has left alone since the cursor is as it should be |
| `SyncRecovery.PushSparesSyncedRow` | aimvision-mobile/src/sync/engine.ts:163-182 | a push, cut off anywhere in its confirmation, leaves a synced row alone that its answer does not name |
| `SyncRecovery.RoundsConverge` | aimvision-mobile/src/sync/engine.ts:81-185 | the same over pulls and pushes in any order, cut off anywhere: a row not edited on the device is exactly what the changes pulled so far make of it, where a push moves the cursor past changes nobody pulled |
| `SyncRecovery.ConvergesIff` | aimvision-mobile/src/sync/engine.ts:185 | so such a row is as the server has it at the cursor if and only if no push skipped a change to it that a later pull has not overtaken, or what was skipped says the same |
| `SyncRecovery.PushSkipsNewRow` | aimvision-mobile/src/sync/engine.ts:127-185 | the run that shows it: a row somebody else creates between the pull and the timestamp of the push is behind the cursor without having been pulled |
| `SyncRecovery.PageMustSummariseIff` | aimvision-mobile/src/sync/engine.ts:93-125 | that condition on a page is exact: the page has the effect of its stretch on a row, whatever the store held, if and only if both end in the same word about it |
| `SyncRecovery.RecreatedRowIsLost` | aimvision-mobile/src/sync/engine.ts:93-122 | for instance a row that a page both creates and deletes is gone, even where the server re-created it last |
| `SessionStore.SessionService.constructor` | aimvision-backend/app/routers/session.py:144-183 | the service starts on given tables |
| `SessionStore.SessionService.IngestShot` | aimvision-backend/app/routers/session.py:700-751 | 404 exactly outside the tenant; otherwise the existing or the new row for (session, seq), and nothing else changes |
| `SessionStore.SessionService.AppendShotEvent` | aimvision-backend/app/routers/session.py:805-858 | 404 exactly for a shot outside session or tenant; otherwise the existing or the new row for (shot, kind, seq) |
| `SessionStore.SessionService.EndSession` | aimvision-backend/app/routers/session.py:145-183 | `ended_at` only if unset, the partial flag on every call |
| `SessionStore.HistoryIsAppendOnly` | aimvision-backend/app/routers/session.py:178-180 | whatever anyone calls, shots and events once written never change and `ended_at` keeps its first value |
| `SessionStore.ShotIsFirstUpload` | aimvision-backend/app/routers/session.py:724-751 | over any calls a new shot row is what its first upload said, stamped with the time of that call, and there is none without an upload in the tenant |
| `SessionStore.EventIsFirstReport` | aimvision-backend/app/routers/session.py:805-858 | over any calls a new event row is what its first report said, made while its shot was in that session of the tenant; retries and reports about unknown shots add nothing |
| `SessionStore.EndIsFirstCall` | aimvision-backend/app/routers/session.py:145-183 | over any calls `ended_at` is the time of the first call that ended the session, unless set before, and the partial flag is that of the last |
| `PostSession.PostShot` | aimvision-ml/src/aimvision_ml/ingest/post_session.py:88-117 | one turn of the loop: completes exactly if its calls fit the budget and the session is found |
| `PostSession.RunPostSession` | aimvision-ml/src/aimvision_ml/ingest/post_session.py:58-125 | the pipeline makes exactly the calls of its specification; it returns a result exactly if it is not cut off and, unless there is nothing to call, the session is in the tenant; and the result has exactly its counts |
| `PostSession.ExecutionStaysTowards` | aimvision-ml/src/aimvision_ml/ingest/post_session.py:88-117 | no run, however cut, changes an old row or writes a row outside its plan |
| `PostSession.CompleteExecutionIsDone` | aimvision-ml/src/aimvision_ml/ingest/post_session.py:88-117 | a run that is not cut leaves every shot, every event and the final session state in place, whatever it started from |
| `PostSession.CompleteRunLeaves` | aimvision-ml/src/aimvision_ml/ingest/post_session.py:58-125 | a complete run leaves of every new shot its row as detected, of kind single, and with a model one head-inference event with what the head said; the session is ended, and flagged exactly without a model, if the run finalizes |
| `PostSession.CompletedStatesAgree` | aimvision-ml/src/aimvision_ml/ingest/post_session.py:81-117 | two such end states cannot be told apart but for generated ids and server times |
| `PostSession.CrashRetryIsExactlyOnce` | aimvision-ml/src/aimvision_ml/ingest/post_session.py:81-117 | any number of runs cut off at any call boundary followed by one complete run has the effect of a single clean run |
| `PostSession.RerunIsCleanIff` | aimvision-ml/src/aimvision_ml/ingest/post_session.py:84-117 | after any number of cut runs a complete finalizing run with another model setting has the effect of a clean run if and only if the setting is the same |
| `PostSession.OpenRerunIsCleanIff` | aimvision-ml/src/aimvision_ml/ingest/post_session.py:84-117 | without finalizing: if and only if the model was not added, or every shot already had its event |
| `PostSession.PartialFlagFollowsLastRun` | aimvision-ml/src/aimvision_ml/ingest/post_session.py:112-117 | a later audio-only run flags the finalized session partial although every shot has its event |
| `ClassificationMetrics.ComputeMacroF1` | aimvision-ml/src/aimvision_ml/eval/metrics.py:84-115 | errors exactly for differing lengths or no classes; otherwise the mean of the per-class F1 |
| `ClassificationMetrics.F1ClosedForm` | aimvision-ml/src/aimvision_ml/eval/metrics.py:103-114 | the guarded precision/recall formula is 2 TP / (2 TP + FP + FN), and 0 without true positives |
| `ClassificationMetrics.ClassF1Is` | aimvision-ml/src/aimvision_ml/eval/metrics.py:100-114 | the F1 of a class is twice the samples with that prediction and label, per sample with the prediction plus samples with the label, and 0 where there are neither |
| `ClassificationMetrics.MacroF1Is` | aimvision-ml/src/aimvision_ml/eval/metrics.py:89-115 | macro-F1 is the mean of the F1 of the classes 0 to n - 1 |
| `ClassificationMetrics.F1Monotone` | aimvision-ml/src/aimvision_ml/eval/metrics.py:103-114 | more true positives and fewer errors never lower a class F1 |
| `ClassificationMetrics.MacroF1Improves` | aimvision-ml/src/aimvision_ml/eval/metrics.py:101-115 | correcting any set of wrong predictions never lowers macro-F1, which lies in [0, 1] |
| `ClassificationMetrics.MacroF1Ceiling` | aimvision-ml/src/aimvision_ml/eval/metrics.py:89-115 | no predictions score more than the fraction of classes that occur in the labels |
| `ClassificationMetrics.ComputeTopKMacroF1` | aimvision-ml/src/aimvision_ml/eval/metrics.py:156-183 | for any argsort by falling probability: errors exactly for k outside [1, columns], differing lengths or no classes; otherwise macro-F1 of first choices corrected where the truth is in the top k, through the in-place update |
| `ClassificationMetrics.TopKMeaning` | aimvision-ml/src/aimvision_ml/eval/metrics.py:174-180 | whichever way equal probabilities are ordered: a column in the top k has fewer than k columns above it, and one that at most k columns reach is in it |
| `ClassificationMetrics.TopKIs` | aimvision-ml/src/aimvision_ml/eval/metrics.py:156-183 | the corrected prediction of a row is the label if at most k columns match or beat it, and otherwise the label or a column of largest score; the label only if it is such a column or fewer than k beat it |
| `ClassificationMetrics.CeilingReachedIff` | aimvision-ml/src/aimvision_ml/eval/metrics.py:101-115 | macro-F1 reaches the fraction of occurring classes if and only if every occurring class is predicted without error |
| `ClassificationMetrics.TopKFullIff` | aimvision-ml/src/aimvision_ml/eval/metrics.py:171-183 | with all columns allowed the score is the fraction of occurring classes if and only if every label that is no column is no class and its row prefers no occurring class |
| `ClassificationMetrics.TopKMonotone` | aimvision-ml/src/aimvision_ml/eval/metrics.py:173-183 | for one ranking a larger k never lowers the score, and it is at least the macro-F1 of the first choices |
| `ClassificationMetrics.TopKFull` | aimvision-ml/src/aimvision_ml/eval/metrics.py:171-183 | in particular whenever all labels are columns |
| `ClassificationMetrics.PerClassRecall` | aimvision-ml/src/aimvision_ml/eval/metrics.py:118-153 | recall and support arrays per class, 0 without support |
| `ClassificationMetrics.RecallIs` | aimvision-ml/src/aimvision_ml/eval/metrics.py:118-153 | recall is the samples with that prediction and label per sample with the label, 0 where there are none |
| `ClassificationMetrics.RecallAccountsForCorrect` | aimvision-ml/src/aimvision_ml/eval/metrics.py:143-153 | recall weighted by support adds up to the number of correct predictions |
| `CalibrationError.ComputeEce` | aimvision-ml/src/aimvision_ml/eval/metrics.py:45-61 | the bin loop computes the weighted sum of the bin gaps |
| `CalibrationError.ExpectedCalibrationError` | aimvision-ml/src/aimvision_ml/eval/metrics.py:18-61 | the input errors, and top-1 confidence against top-1 correctness |
| `CalibrationError.TopChoicesAre` | aimvision-ml/src/aimvision_ml/eval/metrics.py:41-43 | the sample of a row is its largest probability, and a hit exactly if the label is the first column to have it |
| `CalibrationError.BinaryEce` | aimvision-ml/src/aimvision_ml/eval/diagnostic_eval.py:63-99 | the input errors, and probability against 0/1 label; 0 without samples |
| `CalibrationError.PositivesAre` | aimvision-ml/src/aimvision_ml/eval/diagnostic_eval.py:63-99 | the sample of a row is its positive-class probability against its 0/1 label |
| `CalibrationError.BinsPartition` | aimvision-ml/src/aimvision_ml/eval/metrics.py:48-54 | each confidence in [0, 1] is in exactly one bin, the one its scaled floor names |
| `CalibrationError.EceRange` | aimvision-ml/src/aimvision_ml/eval/metrics.py:41-61 | the error lies in [0, 1] |
| `CalibrationError.EceIs` | aimvision-ml/src/aimvision_ml/eval/metrics.py:41-61 | the error in plain sums: times the number of samples it is the sum over the bins of the distance between the confidences and the observations falling into them |
| `CalibrationError.EceAboveOverallGap` | aimvision-ml/src/aimvision_ml/eval/metrics.py:41-61 | it is at least the gap between overall mean confidence and overall accuracy, and equal to it for one bin |
| `CalibrationError.CoarseIsSumOfFine` | aimvision-ml/src/aimvision_ml/eval/metrics.py:45-60 | the signed drift of a bin is the sum of the drifts of the parts it is cut into |
| `CalibrationError.FinerBinsNeverLower` | aimvision-ml/src/aimvision_ml/eval/metrics.py:45-61 | cutting every bin into m equal parts never lowers the error |
| `PeakPicking.EmissionLoop` | aimvision-ml/src/aimvision_ml/inference/audio_shot.py:173-217 | the loop with its replacement of the last event computes the specified frames |
| `PeakPicking.Detect` | aimvision-ml/src/aimvision_ml/inference/audio_shot.py:157-231 | from the log-magnitude spectrogram on: flux, median + k MAD threshold, impulsivity gate, and one event for each emitted frame with its time and confidence |
| `PeakPicking.FluxIsRises` | aimvision-ml/src/aimvision_ml/inference/audio_shot.py:157-163 | the flux exceeds that of the reversed step by the change of the whole frame, and both make up its whole variation; so it is the summed rises |
| `PeakPicking.FluxPositiveIff` | aimvision-ml/src/aimvision_ml/inference/audio_shot.py:157-163 | the flux is never negative, and positive if and only if some bin rises |
| `PeakPicking.FluxAtIs` | aimvision-ml/src/aimvision_ml/inference/audio_shot.py:157-163 | entry i of the flux is about the step from frame i to the next: half of the change and the variation together |
| `PeakPicking.CandidateIs` | aimvision-ml/src/aimvision_ml/inference/audio_shot.py:177-231 | with m the median flux around a frame and d the median distance from it: a candidate if and only if impulsive and at least m + k (1.4826 d + 1e-12); the event is at the time of the frame with the sigmoid of the relative margin as its confidence |
| `PeakPicking.BackgroundIs` | aimvision-ml/src/aimvision_ml/inference/audio_shot.py:192-199 | the background of a frame is the frames offset to offset + 2 before and after it, as far as they exist |
| `PeakPicking.ImpulsiveIs` | aimvision-ml/src/aimvision_ml/inference/audio_shot.py:199-204 | impulsive if and only if 20 times the mean log magnitude of the frame exceeds that of its background by the margin |
| `PeakPicking.FlatAppend` | aimvision-ml/src/aimvision_ml/inference/audio_shot.py:196-199 | the background bins are those of its frames, frame by frame |
| `PeakPicking.EventsAreConfident` | aimvision-ml/src/aimvision_ml/inference/audio_shot.py:220-231 | every emitted event has a confidence of at least one half |
| `PeakPicking.VolumeDoesNotMatterIff` | aimvision-ml/src/aimvision_ml/inference/audio_shot.py:189-204 | the impulsivity gate decides the same at every volume if and only if every frame has a background frame within the recording on one side |
| `PeakPicking.EmittedAreSpaced` | aimvision-ml/src/aimvision_ml/inference/audio_shot.py:206-215 | emitted frames are in order and at least the minimum gap apart |
| `PeakPicking.EmittedAreCandidates` | aimvision-ml/src/aimvision_ml/inference/audio_shot.py:186-204 | every emitted frame is a candidate |
| `PeakPicking.EmittedDominateWhatFollows` | aimvision-ml/src/aimvision_ml/inference/audio_shot.py:206-212 | no candidate within the gap after an emitted frame is louder |
| `PeakPicking.EveryCandidateIsHeard` | aimvision-ml/src/aimvision_ml/inference/audio_shot.py:206-215 | every audible candidate is linked by a chain of ever louder candidates, each step shorter than the gap, to an emitted event |
| `PeakPicking.LoudestIsEmitted` | aimvision-ml/src/aimvision_ml/inference/audio_shot.py:206-215 | so some event is at least as loud as any audible candidate |
| `PeakPicking.DisplacedByLouder` | aimvision-ml/src/aimvision_ml/inference/audio_shot.py:206-218 | an event once emitted is given up only for a later candidate within the gap that is strictly louder, so of equally loud ones the first stays |
| `PeakPicking.SilentIff` | aimvision-ml/src/aimvision_ml/inference/audio_shot.py:173-217 | no event exactly when there is no audible candidate |
| `PeakPicking.NeverDeafIff` | aimvision-ml/src/aimvision_ml/inference/audio_shot.py:174-175 | every candidate is audible, for all inputs, if and only if the gap is at most 10000 frames |
| `PeakPicking.SteadySourceIsSilent` | aimvision-ml/src/aimvision_ml/inference/audio_shot.py:177-187 | a source of constant flux never becomes a candidate |
| `AuditChain.AuditEventWriter.constructor` | aimvision-backend/app/services/audit.py:68-69 | an empty log |
| `AuditChain.AuditEventWriter.Append` | aimvision-backend/app/services/audit.py:71-110 | appends one row linked to the latest row of its tenant |
| `AuditChain.AuditEventWriter.VerifyChain` | aimvision-backend/app/services/audit.py:112-145 | true exactly when the time-sorted rows of the tenant form a chain from genesis |
| `AuditChain.TenantsAreIsolated` | aimvision-backend/app/services/audit.py:71-80 | in every interleaving each tenant has the rows its own appends would have written |
| `AuditChain.LogRecordsCalls` | aimvision-backend/app/services/audit.py:41-110 | over every run one row per append, in order, telling what it was told; its hash is the digest of its link and its encoding, and the link is the genesis hash or that of a latest earlier row of its tenant |
| `AuditChain.EveryRunVerifies` | aimvision-backend/app/services/audit.py:82-145 | with a clock that moves forward per tenant every log of every run verifies for every tenant |
| `AuditChain.ChainMeansInOrder` | aimvision-backend/app/services/audit.py:114-118 | if the time-sorted rows form a chain, sorting changed nothing |
| `AuditChain.VerifiesIffClockForward` | aimvision-backend/app/services/audit.py:71-145 | an untouched chain with distinct timestamps verifies if and only if they went strictly forward (no collision among its own hashes) |
| `AuditChain.VerifiesInEveryOrderIff` | aimvision-backend/app/services/audit.py:71-145 | with equal timestamps allowed and ordered in any way, on append and on verification: the rows verify in every order the database may return if and only if the clock went strictly forward |
| `AuditChain.LogVerifiesInEveryOrderIff` | aimvision-backend/app/services/audit.py:71-145 | the same for the log of any run |
| `AuditChain.SameHashSameRow` | aimvision-backend/app/services/audit.py:41-49 | equal row hashes mean equal row and previous hash, or a digest collision |
| `AuditChain.TamperNeedsCollision` | aimvision-backend/app/services/audit.py:112-145 | two verifying chains with the same head hash are the same rows, or their own rows show a digest collision |
| `FrameRing.RingQueue.constructor` | aimvision-camera-core/crates/aimvision-camera-phone/src/phone_camera.rs:65-79 | an empty queue |
| `FrameRing.RingQueue.Push` | aimvision-camera-core/crates/aimvision-camera-phone/src/phone_camera.rs:95-113 | on the circular array: drops the oldest item exactly when full, counts it, appends the new one |
| `FrameRing.RingQueue.Poll` | aimvision-camera-core/crates/aimvision-camera-phone/src/phone_camera.rs:173-179 | takes the oldest item, or none |
| `FrameRing.PhoneCamera.constructor` | aimvision-camera-core/crates/aimvision-camera-phone/src/phone_camera.rs:65-79 | two separate queues |
| `FrameRing.PhoneCamera.PushFrame` | aimvision-camera-core/crates/aimvision-camera-phone/src/phone_camera.rs:95-113 | pushes to the frame queue and leaves the audio queue alone |
| `FrameRing.PhoneCamera.PushAudioChunk` | aimvision-camera-core/crates/aimvision-camera-phone/src/phone_camera.rs:117-132 | pushes to the audio queue and leaves the frame queue alone |
| `FrameRing.PhoneCamera.PollPreviewFrame` | aimvision-camera-core/crates/aimvision-camera-phone/src/phone_camera.rs:173-179 | polls the frame queue only |
| `FrameRing.PhoneCamera.PollAudioChunk` | aimvision-camera-core/crates/aimvision-camera-phone/src/phone_camera.rs:181-187 | polls the audio queue only |
| `FrameRing.EveryRunIsConsistent` | aimvision-camera-core/crates/aimvision-camera-phone/src/phone_camera.rs:95-187 | over every interleaving: pushed = polled + dropped + queued, the queue is the suffix of the pushes, items come out in push order, none more than `capacity` pushes old |
| `FrameRing.PushesKeepNewest` | aimvision-camera-core/crates/aimvision-camera-phone/src/phone_camera.rs:87-113 | without polls the queue holds exactly the newest `capacity` items |
| `FrameRing.QueuesAreIndependent` | aimvision-camera-core/crates/aimvision-camera-phone/src/phone_camera.rs:95-187 | each queue ends as if only its own operations had happened |
| `FrameRing.SnapshotIsOneMomentIff` | aimvision-camera-core/crates/aimvision-camera-phone/src/phone_camera.rs:146-168 | one queue, over every run and any two read moments: its reported depth and drop count are those of one moment if and only if since the last eviction the queue was once no deeper than the depth read; always if nothing was evicted in between |
| `FrameRing.SnapshotWithoutPollsIff` | aimvision-camera-core/crates/aimvision-camera-phone/src/phone_camera.rs:146-168 | one queue, while nobody polls it: if and only if nothing was evicted between the reads or the queue was already full |
| `FrameRing.StatsCanBeTorn` | aimvision-camera-core/crates/aimvision-camera-phone/src/phone_camera.rs:146-168 | the smallest run in which no moment had the reported pair of a queue |
| `FrameRing.CameraStatsByQueue` | aimvision-camera-core/crates/aimvision-camera-phone/src/phone_camera.rs:149-168 | the four reads of `stats` are such pairs of the two queues, each at its own moments |
| `FrameRing.StatsOfOneMomentIff` | aimvision-camera-core/crates/aimvision-camera-phone/src/phone_camera.rs:146-168 | all four numbers, while nobody polls and evictions included: they are those of one moment if and only if neither pair is torn and, between the two moments the pairs show, nothing arrived at the later queue after something arrived at the earlier one |
| `FrameRing.StatsWithoutEvictionsIff` | aimvision-camera-core/crates/aimvision-camera-phone/src/phone_camera.rs:146-168 | without evictions: if and only if no chunk arrives after a frame between the first two reads |
| `FrameRing.StatsWithPolls` | aimvision-camera-core/crates/aimvision-camera-phone/src/phone_camera.rs:146-168 | that condition is enough with polls by any handle as well |
| `FrameRing.QueuesAreReadApart` | aimvision-camera-core/crates/aimvision-camera-phone/src/phone_camera.rs:149-168 | so the four numbers can be torn without any eviction: a frame and then a chunk between the first two reads |
| `TenantErasure.TenantVault.constructor` | aimvision-backend/app/services/crypto_shred.py:48-55 | no keys |
| `TenantErasure.KeysAsDrawn` | aimvision-backend/app/services/crypto_shred.py:68-144 | a new tenant gets the key drawn for it, wrapped, in a live row of version 1, and what is encrypted first is sealed under exactly that key; a shredded row holds no key and says when |
| `TenantErasure.TenantVault.EnsureTenantDek` | aimvision-backend/app/services/crypto_shred.py:68-92 | creates a wrapped key if absent, refuses for a shredded tenant, otherwise changes nothing |
| `TenantErasure.TenantVault.EncryptForTenant` | aimvision-backend/app/services/crypto_shred.py:105-109 | keys the tenant if needed and seals under its key |
| `TenantErasure.TenantVault.DecryptForTenant` | aimvision-backend/app/services/crypto_shred.py:112-118 | the opened blob, or the error |
| `TenantErasure.TenantVault.ShredTenantDek` | aimvision-backend/app/services/crypto_shred.py:121-144 | removes the key and marks the row, writing one if there was none |
| `TenantErasure.ErasureLedger.constructor` | aimvision-backend/app/services/erasure.py:38-57 | an empty ledger over a vault |
| `TenantErasure.ErasureLedger.SubmitErasure` | aimvision-backend/app/services/erasure.py:38-57 | a pending ticket |
| `TenantErasure.SubmittedTicketIs` | aimvision-backend/app/services/erasure.py:38-57 | a fresh ticket holds what was asked for and is pending, and nothing else changes |
| `TenantErasure.ErasureLedger.ExecuteErasure` | aimvision-backend/app/services/erasure.py:60-138 | invisible outside its tenant, unchanged when completed, otherwise tombstone, shred, reference counts and completion together |
| `TenantErasure.ExecutedTicketIs` | aimvision-backend/app/services/erasure.py:103-138 | executing a pending ticket completes it at that time with the counts of the athlete it names, destroys the key of its tenant, and leaves other tickets, users and keys alone |
| `TenantErasure.KeyRowsArePermanent` | aimvision-backend/app/services/crypto_shred.py:68-144 | a key row never changes except by being shredded |
| `TenantErasure.DecryptableUntilShredded` | aimvision-backend/app/services/crypto_shred.py:105-144 | a blob decrypts to its plaintext after any later calls if and only if the tenant has not been shredded |
| `TenantErasure.EveryRunIsHonest` | aimvision-backend/app/services/erasure.py:103-138 | over every run: shredded rows hold no key, live rows unwrap, and a completed ticket belongs to a shredded tenant |
| `TenantErasure.ShredIsForever` | aimvision-backend/app/services/crypto_shred.py:121-144 | from the shred on no calls make anything decrypt or encrypt again or create a key |
| `TenantErasure.OtherTenantsUnaffected` | aimvision-backend/app/services/crypto_shred.py:121-144 | calls for other tenants change nothing about what a tenant can decrypt |
| `TenantErasure.UserErasedIff` | aimvision-backend/app/services/erasure.py:103-138 | over every run: a user row becomes the tombstone if and only if some tenant opened a ticket naming the user and executed it, whether or not the user is its own, and is never changed otherwise |
| `TenantErasure.TombstoneForgets` | aimvision-backend/app/services/erasure.py:119-126 | the tombstone depends on the user id alone: address, name and password hash are gone, and the account is inactive |
| `TenantErasure.ReferencesAre` | aimvision-backend/app/services/erasure.py:60-100 | the counts on a ticket are the sessions of that tenant and athlete, the shots and notes of those sessions, and the consent records of the athlete |
| `TenantErasure.ReadableByOwnerIff` | aimvision-backend/app/services/crypto_shred.py:105-144 | after any later calls by anyone a blob opens for a reader if and only if the reader is its tenant and not shredded, and then to its plaintext |
| `TenantErasure.ExecuteIsIdempotent` | aimvision-backend/app/services/erasure.py:113-114 | executing a ticket again writes nothing |

## Left out

- CrossCorrelation.ExactDelay: is about the windows after the band-pass filter and mean removal; filtering is a parameter.
- CommandQueue.AnsweredInTime: assumes a worker that is scheduled without delay; safety and order (`RunIsSafe`) do not.
- RetryPolicy.WrappedJitterBand: between a hundredth below the largest i64 and the largest i64 it depends on the hash, as `BackoffInBandIff` says.
- FrameRing.StatsOfOneMomentIff: assumes that nobody polls between the four reads; `StatsWithPolls` gives the sufficient half with polls, when nothing is evicted.
- AuditChain.VerifiesIffClockForward: assumes distinct timestamps; `VerifiesInEveryOrderIff` does not.
- SyncStore.LocalStore.UpsertSynced: replaces the row as the `LocalStore` contract says; the in-memory store of the unit tests overlays it on the old one, lets a pulled row choose its local key and fills in a missing `updated_at`.
- SyncPull.FateIsLastWriter: speaks of non-empty server ids, since a row is never found under an empty one.
- SyncPush.RowStaysPendingIff: assumes unique server ids, which every round keeps as long as the server issues unused ones.
- SyncRecovery.PullsConverge: follows pulls only; `RoundsConverge` adds pushes, for rows that are synced. The cursor is a position in the server's log.
- SyncRecovery.RoundsConverge: no local edit touches the row meanwhile, and no push names it.
- Sync counters, warnings and conflict reasons; the position of offences in the error message.
- Convergence of merged session edits: the code drops them, as stated above.
- Local edits made while a sync round is under way.
- Band-pass design, STFT, softmax and temperature fitting, BALD, Brier scores and `binary_f1`: transcendental functions, library solvers, or the same formula again.
- IEEE rounding, NaN and infinities.
- PairAlignment.AlignCameraPair: the padding length below which the filter raises is a parameter, as it belongs to the filter library.
- PeakPicking.Detect: starts from the log magnitudes; the transform and the floor of 1e-10 under the logarithm are not modelled.
- The bound 2^64 of the drop and acceptance counters, shutdown of the queue, and panicking work.
- HTTP, authentication, ORM sessions and transactions, row-level security: the handlers start after the role check.
- Concurrent `append` on one tenant's audit chain, which its class rules out.
- Key derivation, nonce generation and the cipher itself.
- All user interface, native bindings, taxonomy and language-model prompts.
