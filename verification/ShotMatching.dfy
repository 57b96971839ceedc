/**
 Detection scoring (`eval/audio_detection_eval.py`): greedy one-to-one matching of predictions, in time
 order, to the nearest unused ground-truth shot within a tolerance.
 */
module ShotMatching {
  import opened Numerics

  datatype TruthEvent = TruthEvent(kind: string, at: real)

  datatype DetectionReport = DetectionReport(
    precision: real, recall: real, f1: real, meanTimingErrorMs: real,
    falsePositives: int, falseNegatives: int, truePositives: nat)

  type Pair = (nat, nat)

  function Gap(preds: seq<real>, shots: seq<real>, p: nat, t: nat): real
    requires p < |preds| && t < |shots|
  {
    Abs(shots[t] - preds[p])
  }

  /** Stable sort of the prediction indices 0..n by time. */
  function TimeOrder(preds: seq<real>, n: nat): (r: seq<nat>)
    requires n <= |preds|
    ensures |r| == n && forall i :: 0 <= i < n ==> r[i] < n
  {
    if n == 0 then [] else InsertByTime(preds, n - 1, TimeOrder(preds, n - 1))
  }

  function InsertByTime(preds: seq<real>, i: nat, order: seq<nat>): (r: seq<nat>)
    requires i < |preds| && forall k :: 0 <= k < |order| ==> order[k] < i
    ensures |r| == |order| + 1 && forall k :: 0 <= k < |r| ==> r[k] <= i
  {
    if order == [] || preds[i] < preds[order[0]] then [i] + order
    else [order[0]] + InsertByTime(preds, i, order[1..])
  }

  /** Earlier predictions come first; equal times keep their original order. */
  ghost predicate Before(preds: seq<real>, i: nat, j: nat)
    requires i < |preds| && j < |preds|
  {
    preds[i] < preds[j] || (preds[i] == preds[j] && i < j)
  }

  ghost predicate InTimeOrder(preds: seq<real>, order: seq<nat>) {
    && (forall i :: 0 <= i < |order| ==> order[i] < |preds|)
    && (forall a, b :: 0 <= a < b < |order| ==> Before(preds, order[a], order[b]))
  }

  lemma {:induction false} InsertByTimeHolds(preds: seq<real>, i: nat, order: seq<nat>, x: nat)
    requires i < |preds| && forall k :: 0 <= k < |order| ==> order[k] < i
    ensures x in InsertByTime(preds, i, order) <==> x == i || x in order
  {
    if order == [] || preds[i] < preds[order[0]] {
    } else {
      InsertByTimeHolds(preds, i, order[1..], x);
      assert order == [order[0]] + order[1..];
    }
  }

  lemma {:induction false} InsertByTimeSorts(preds: seq<real>, i: nat, order: seq<nat>)
    requires i < |preds| && forall k :: 0 <= k < |order| ==> order[k] < i
    requires InTimeOrder(preds, order)
    ensures InTimeOrder(preds, InsertByTime(preds, i, order))
  {
    if order == [] || preds[i] < preds[order[0]] {
    } else {
      var rest := InsertByTime(preds, i, order[1..]);
      InsertByTimeSorts(preds, i, order[1..]);
      assert order == [order[0]] + order[1..];
      forall b | 0 <= b < |rest| ensures Before(preds, order[0], rest[b]) {
        assert rest[b] in rest;
        InsertByTimeHolds(preds, i, order[1..], rest[b]);
      }
    }
  }

  lemma {:induction false} TimeOrderHolds(preds: seq<real>, n: nat, i: nat)
    requires i < n <= |preds|
    ensures i in TimeOrder(preds, n)
  {
    InsertByTimeHolds(preds, n - 1, TimeOrder(preds, n - 1), i);
    if i < n - 1 {
      TimeOrderHolds(preds, n - 1, i);
    }
  }

  lemma {:induction false} TimeOrderIsSorted(preds: seq<real>, n: nat)
    requires n <= |preds|
    ensures InTimeOrder(preds, TimeOrder(preds, n))
  {
    if n > 0 {
      TimeOrderIsSorted(preds, n - 1);
      InsertByTimeSorts(preds, n - 1, TimeOrder(preds, n - 1));
    }
  }

  /** The processing order holds every prediction once, sorted by time. */
  lemma TimeOrderSorts(preds: seq<real>, n: nat)
    requires n <= |preds|
    ensures forall i: nat :: i < n ==> i in TimeOrder(preds, n)
    ensures InTimeOrder(preds, TimeOrder(preds, n))
  {
    TimeOrderIsSorted(preds, n);
    forall i: nat | i < n ensures i in TimeOrder(preds, n) {
      TimeOrderHolds(preds, n, i);
    }
  }

  predicate InBounds(preds: seq<real>, shots: seq<real>, m: seq<Pair>) {
    forall k :: 0 <= k < |m| ==> m[k].0 < |preds| && m[k].1 < |shots|
  }

  /** Shots taken by the matches so far. */
  function Used(m: seq<Pair>): set<nat> {
    set k | 0 <= k < |m| :: m[k].1
  }

  ghost predicate Candidate(preds: seq<real>, shots: seq<real>, tol: real, used: set<nat>, p: nat, t: nat)
    requires p < |preds|
  {
    t < |shots| && t !in used && Gap(preds, shots, p, t) <= tol
  }

  /**
   The inner scan over shots 0..upto: a nearest unused shot within tolerance, the last among equals, or
   -1 when there is none.
   */
  function Best(preds: seq<real>, shots: seq<real>, tol: real, used: set<nat>, p: nat, upto: nat): (r: int)
    requires p < |preds| && upto <= |shots|
    ensures -1 <= r < upto
    ensures r >= 0 ==> Candidate(preds, shots, tol, used, p, r)
    ensures forall u: nat :: u < upto && Candidate(preds, shots, tol, used, p, u) ==>
      (r >= 0 && (Gap(preds, shots, p, r) < Gap(preds, shots, p, u)
                  || (Gap(preds, shots, p, r) == Gap(preds, shots, p, u) && u <= r)))
  {
    if upto == 0 then -1
    else
      var t, prev := upto - 1, Best(preds, shots, tol, used, p, upto - 1);
      if t in used then prev
      else if Gap(preds, shots, p, t) <= (if prev >= 0 then Gap(preds, shots, p, prev) else tol) then t
      else prev
  }

  /** The matches made for the predictions listed in `order`, one after the other. */
  function GreedyPass(preds: seq<real>, shots: seq<real>, tol: real, order: seq<nat>): (m: seq<Pair>)
    requires forall i :: 0 <= i < |order| ==> order[i] < |preds|
    ensures InBounds(preds, shots, m)
  {
    if order == [] then []
    else
      var p := order[|order| - 1];
      var m := GreedyPass(preds, shots, tol, order[..|order| - 1]);
      var t := Best(preds, shots, tol, Used(m), p, |shots|);
      if t < 0 then m else m + [(p, t)]
  }

  ghost predicate Matching(preds: seq<real>, shots: seq<real>, tol: real, m: seq<Pair>) {
    && InBounds(preds, shots, m)
    && (forall k :: 0 <= k < |m| ==> Gap(preds, shots, m[k].0, m[k].1) <= tol)
    && (forall j, k :: 0 <= j < k < |m| ==> m[j].0 != m[k].0 && m[j].1 != m[k].1)
  }

  ghost predicate HasPrediction(m: seq<Pair>, p: nat) {
    exists k :: 0 <= k < |m| && m[k].0 == p
  }

  ghost predicate HasShot(m: seq<Pair>, t: nat) {
    exists k :: 0 <= k < |m| && m[k].1 == t
  }

  /** No unmatched prediction could still be given an unmatched shot. */
  ghost predicate Maximal(preds: seq<real>, shots: seq<real>, tol: real, m: seq<Pair>) {
    forall p: nat, t: nat :: p < |preds| && t < |shots| && !HasPrediction(m, p) && !HasShot(m, t) ==>
      Gap(preds, shots, p, t) > tol
  }

  method NearestUnused(preds: seq<real>, shots: seq<real>, tol: real, matched: set<nat>, p: nat)
    returns (bestT: int)
    requires p < |preds|
    ensures bestT == Best(preds, shots, tol, matched, p, |shots|)
  {
    var ts := preds[p];
    var bestD := tol;
    bestT := -1;
    for ti := 0 to |shots|
      invariant bestT == Best(preds, shots, tol, matched, p, ti)
      invariant bestD == if bestT < 0 then tol else Gap(preds, shots, p, bestT)
    {
      if ti in matched {
        continue;
      }
      var d := Abs(shots[ti] - ts);
      if d <= bestD {
        bestD := d;
        bestT := ti;
      }
    }
  }

  lemma OneMorePrediction(preds: seq<real>, shots: seq<real>, tol: real, order: seq<nat>, i: nat)
    requires i < |order| && forall k :: 0 <= k < |order| ==> order[k] < |preds|
    ensures var m := GreedyPass(preds, shots, tol, order[..i]);
      var t := Best(preds, shots, tol, Used(m), order[i], |shots|);
      GreedyPass(preds, shots, tol, order[..i + 1]) == if t < 0 then m else m + [(order[i], t)]
  {
    assert order[..i + 1][..i] == order[..i];
  }

  method GreedyMatch(preds: seq<real>, shots: seq<real>, tol: real) returns (matches: seq<Pair>)
    ensures matches == GreedyPass(preds, shots, tol, TimeOrder(preds, |preds|))
  {
    var matched: set<nat> := {};
    matches := [];
    var order := TimeOrder(preds, |preds|);
    for i := 0 to |order|
      invariant matched == Used(matches)
      invariant matches == GreedyPass(preds, shots, tol, order[..i])
    {
      OneMorePrediction(preds, shots, tol, order, i);
      var bestT := NearestUnused(preds, shots, tol, matched, order[i]);
      if bestT >= 0 {
        UsedAppend(matches, (order[i], bestT));
        matched := matched + {bestT};
        matches := matches + [(order[i], bestT)];
      }
    }
    assert order[..|order|] == order;
  }

  lemma GreedyIsMaximalMatching(preds: seq<real>, shots: seq<real>, tol: real)
    ensures Matching(preds, shots, tol, GreedyPass(preds, shots, tol, TimeOrder(preds, |preds|)))
    ensures Maximal(preds, shots, tol, GreedyPass(preds, shots, tol, TimeOrder(preds, |preds|)))
  {
    var order := TimeOrder(preds, |preds|);
    TimeOrderSorts(preds, |preds|);
    PassIsMatching(preds, shots, tol, order);
    PassIsMaximal(preds, shots, tol, order);
    var m := GreedyPass(preds, shots, tol, order);
    forall p: nat, t: nat | p < |preds| && t < |shots| && !HasPrediction(m, p) && !HasShot(m, t)
      ensures Gap(preds, shots, p, t) > tol
    {
      assert p in order;
    }
  }

  lemma UsedAppend(m: seq<Pair>, pair: Pair)
    ensures Used(m + [pair]) == Used(m) + {pair.1}
  {
    var more := m + [pair];
    assert more[|m|] == pair;
    forall k | 0 <= k < |m| ensures m[k].1 in Used(more) {
      assert more[k] == m[k];
    }
  }

  lemma {:induction false} PassIsMatching(preds: seq<real>, shots: seq<real>, tol: real, order: seq<nat>)
    requires forall i :: 0 <= i < |order| ==> order[i] < |preds|
    requires InTimeOrder(preds, order)
    ensures var m := GreedyPass(preds, shots, tol, order);
      Matching(preds, shots, tol, m) && forall k :: 0 <= k < |m| ==> m[k].0 in order
  {
    if order != [] {
      var rest := order[..|order| - 1];
      var before := GreedyPass(preds, shots, tol, rest);
      PassIsMatching(preds, shots, tol, rest);
      var p := order[|order| - 1];
      assert p !in rest;
      assert order == rest + [p];
      var t := Best(preds, shots, tol, Used(before), p, |shots|);
      if t >= 0 {
        MatchingGrows(preds, shots, tol, before, p, t);
      }
    }
  }

  lemma MatchingGrows(preds: seq<real>, shots: seq<real>, tol: real, m: seq<Pair>, p: nat, t: nat)
    requires Matching(preds, shots, tol, m) && p < |preds| && t < |shots| && t !in Used(m)
    requires Gap(preds, shots, p, t) <= tol && forall k :: 0 <= k < |m| ==> m[k].0 != p
    ensures Matching(preds, shots, tol, m + [(p, t)])
  {
    forall k | 0 <= k < |m| ensures m[k].1 != t {
      assert m[k].1 in Used(m);
    }
  }

  lemma {:induction false} PassIsMaximal(preds: seq<real>, shots: seq<real>, tol: real, order: seq<nat>)
    requires forall i :: 0 <= i < |order| ==> order[i] < |preds|
    ensures var m := GreedyPass(preds, shots, tol, order);
      forall p: nat, t: nat :: p in order && t < |shots| && !HasPrediction(m, p) && !HasShot(m, t) ==>
        Gap(preds, shots, p, t) > tol
  {
    if order != [] {
      var last, rest := order[|order| - 1], order[..|order| - 1];
      var before, m := GreedyPass(preds, shots, tol, rest), GreedyPass(preds, shots, tol, order);
      PassIsMaximal(preds, shots, tol, rest);
      forall p: nat, t: nat | p in order && t < |shots| && !HasPrediction(m, p) && !HasShot(m, t)
        ensures Gap(preds, shots, p, t) > tol
      {
        PrefixHas(before, m, p, t);
        if p !in rest {
          assert p == last;
          LastIsMatched(m, last);
        }
      }
    }
  }

  lemma LastIsMatched(m: seq<Pair>, p: nat)
    ensures m != [] && m[|m| - 1].0 == p ==> HasPrediction(m, p)
  {
  }

  lemma PrefixHas(before: seq<Pair>, m: seq<Pair>, p: nat, t: nat)
    requires before <= m
    ensures HasPrediction(before, p) ==> HasPrediction(m, p)
    ensures HasShot(before, t) ==> HasShot(m, t)
    ensures t in Used(before) ==> HasShot(m, t)
  {
    assert forall k :: 0 <= k < |before| ==> before[k] == m[k];
  }

  // ---- What each prediction gets ------------------------------------------------------------------------

  ghost predicate Has(m: seq<Pair>, p: nat, t: nat) {
    exists k :: 0 <= k < |m| && m[k] == (p, t)
  }

  /** The shots given to predictions that come before p, by time and then by position. */
  ghost predicate TakenBefore(preds: seq<real>, m: seq<Pair>, p: nat, t: nat)
    requires p < |preds| && forall k :: 0 <= k < |m| ==> m[k].0 < |preds|
  {
    exists k :: 0 <= k < |m| && m[k].1 == t && Before(preds, m[k].0, p)
  }

  /** Shot t is within tolerance of p and not taken by an earlier prediction. */
  ghost predicate Open(preds: seq<real>, shots: seq<real>, tol: real, m: seq<Pair>, p: nat, t: nat)
    requires p < |preds| && forall k :: 0 <= k < |m| ==> m[k].0 < |preds|
  {
    t < |shots| && -tol <= preds[p] - shots[t] <= tol && !TakenBefore(preds, m, p, t)
  }

  /** Shot t is nearest to p of these, and of several nearest ones the last. */
  ghost predicate Nearest(preds: seq<real>, shots: seq<real>, tol: real, m: seq<Pair>, p: nat, t: nat)
    requires p < |preds| && forall k :: 0 <= k < |m| ==> m[k].0 < |preds|
  {
    && Open(preds, shots, tol, m, p, t)
    && forall u: nat :: Open(preds, shots, tol, m, p, u) ==>
         || Gap(preds, shots, p, t) < Gap(preds, shots, p, u)
         || (Gap(preds, shots, p, t) == Gap(preds, shots, p, u) && u <= t)
  }

  lemma GapWithin(preds: seq<real>, shots: seq<real>, tol: real, p: nat, t: nat)
    requires p < |preds| && t < |shots|
    ensures Gap(preds, shots, p, t) <= tol <==> -tol <= preds[p] - shots[t] <= tol
  {
  }

  /** What was free for the last prediction of the order when its turn came is what is open to it in the end. */
  lemma OpenIsCandidate(preds: seq<real>, shots: seq<real>, tol: real, order: seq<nat>, t: nat)
    requires order != [] && InTimeOrder(preds, order)
    ensures var rest, p := order[..|order| - 1], order[|order| - 1];
      var before, m := GreedyPass(preds, shots, tol, rest), GreedyPass(preds, shots, tol, order);
      && InBounds(preds, shots, m)
      && (Open(preds, shots, tol, m, p, t) <==> Candidate(preds, shots, tol, Used(before), p, t))
  {
    var rest, p := order[..|order| - 1], order[|order| - 1];
    var before := GreedyPass(preds, shots, tol, rest);
    PassIsMatching(preds, shots, tol, rest);
    NotYetMatched(preds, order, before);
    TakenIsUsed(preds, before, GreedyPass(preds, shots, tol, order), p, t);
    if t < |shots| {
      GapWithin(preds, shots, tol, p, t);
    }
  }

  lemma TakenIsUsed(preds: seq<real>, before: seq<Pair>, m: seq<Pair>, p: nat, t: nat)
    requires p < |preds| && before <= m && forall k :: 0 <= k < |m| ==> m[k].0 < |preds|
    requires forall k :: 0 <= k < |before| ==> Before(preds, before[k].0, p)
    requires forall k :: |before| <= k < |m| ==> m[k].0 == p
    ensures TakenBefore(preds, m, p, t) <==> t in Used(before)
  {
    assert forall k :: 0 <= k < |before| ==> m[k] == before[k];
    if t in Used(before) {
      var k :| 0 <= k < |before| && before[k].1 == t;
      assert m[k].1 == t;
    }
    if k :| 0 <= k < |m| && m[k].1 == t && Before(preds, m[k].0, p) {
      assert before[k].1 in Used(before);
    }
  }

  lemma LastGetsNearest(preds: seq<real>, shots: seq<real>, tol: real, order: seq<nat>, t: nat)
    requires order != [] && InTimeOrder(preds, order)
    ensures var m, p := GreedyPass(preds, shots, tol, order), order[|order| - 1];
      InBounds(preds, shots, m) && (Has(m, p, t) <==> Nearest(preds, shots, tol, m, p, t))
  {
    var rest, p := order[..|order| - 1], order[|order| - 1];
    var before, m := GreedyPass(preds, shots, tol, rest), GreedyPass(preds, shots, tol, order);
    var r := Best(preds, shots, tol, Used(before), p, |shots|);
    PassIsMatching(preds, shots, tol, rest);
    NotYetMatched(preds, order, before);
    LastHas(before, m, p, r, t);
    BestIsNearest(preds, shots, tol, order, r, t);
  }

  lemma LastHas(before: seq<Pair>, m: seq<Pair>, p: nat, r: int, t: nat)
    requires r >= -1 && m == if r < 0 then before else before + [(p, r)]
    requires forall k :: 0 <= k < |before| ==> before[k].0 != p
    ensures Has(m, p, t) <==> t == r
  {
    if r >= 0 {
      assert m[|before|] == (p, r);
    }
  }

  lemma BestIsNearest(preds: seq<real>, shots: seq<real>, tol: real, order: seq<nat>, r: int, t: nat)
    requires order != [] && InTimeOrder(preds, order)
    requires var before, p := GreedyPass(preds, shots, tol, order[..|order| - 1]), order[|order| - 1];
      r == Best(preds, shots, tol, Used(before), p, |shots|)
    ensures var m, p := GreedyPass(preds, shots, tol, order), order[|order| - 1];
      InBounds(preds, shots, m) && (Nearest(preds, shots, tol, m, p, t) <==> t == r)
  {
    var before, p := GreedyPass(preds, shots, tol, order[..|order| - 1]), order[|order| - 1];
    var m := GreedyPass(preds, shots, tol, order);
    forall u: nat ensures Open(preds, shots, tol, m, p, u) <==> Candidate(preds, shots, tol, Used(before), p, u) {
      OpenIsCandidate(preds, shots, tol, order, u);
    }
  }

  lemma NotYetMatched(preds: seq<real>, order: seq<nat>, before: seq<Pair>)
    requires order != [] && InTimeOrder(preds, order)
    requires forall k :: 0 <= k < |before| ==> before[k].0 in order[..|order| - 1]
    ensures forall k :: 0 <= k < |before| ==>
              before[k].0 != order[|order| - 1] && before[k].0 < |preds|
              && Before(preds, before[k].0, order[|order| - 1])
  {
    forall k | 0 <= k < |before|
      ensures before[k].0 != order[|order| - 1] && before[k].0 < |preds|
              && Before(preds, before[k].0, order[|order| - 1])
    {
      var i :| 0 <= i < |order| - 1 && order[i] == before[k].0;
    }
  }

  lemma EarlierIsUnmoved(preds: seq<real>, shots: seq<real>, tol: real, order: seq<nat>, p: nat, t: nat)
    requires order != [] && InTimeOrder(preds, order) && p in order[..|order| - 1]
    ensures var before, m := GreedyPass(preds, shots, tol, order[..|order| - 1]), GreedyPass(preds, shots, tol, order);
      && InBounds(preds, shots, before) && InBounds(preds, shots, m)
      && (Has(m, p, t) <==> Has(before, p, t))
      && (Nearest(preds, shots, tol, m, p, t) <==> Nearest(preds, shots, tol, before, p, t))
  {
    var before, m := GreedyPass(preds, shots, tol, order[..|order| - 1]), GreedyPass(preds, shots, tol, order);
    var i :| 0 <= i < |order| - 1 && order[i] == p;
    assert Before(preds, p, order[|order| - 1]);
    assert forall k :: 0 <= k < |before| ==> m[k] == before[k];
    assert forall k :: |before| <= k < |m| ==> m[k].0 == order[|order| - 1];
    forall u: nat ensures TakenBefore(preds, m, p, u) <==> TakenBefore(preds, before, p, u) {
      if k :| 0 <= k < |m| && m[k].1 == u && Before(preds, m[k].0, p) {
        assert k < |before| && before[k].1 == u;
      }
      if k :| 0 <= k < |before| && before[k].1 == u && Before(preds, before[k].0, p) {
        assert m[k].1 == u;
      }
    }
    if k :| 0 <= k < |before| && before[k] == (p, t) {
      assert m[k] == (p, t);
    }
  }

  lemma {:induction false} GreedyGivesNearest(preds: seq<real>, shots: seq<real>, tol: real, order: seq<nat>, p: nat,
                                                t: nat)
    requires InTimeOrder(preds, order) && p in order
    ensures var m := GreedyPass(preds, shots, tol, order);
      InBounds(preds, shots, m) && (Has(m, p, t) <==> Nearest(preds, shots, tol, m, p, t))
  {
    var rest, last := order[..|order| - 1], order[|order| - 1];
    if p == last {
      LastGetsNearest(preds, shots, tol, order, t);
    } else {
      assert order == rest + [last];
      GreedyGivesNearest(preds, shots, tol, rest, p, t);
      EarlierIsUnmoved(preds, shots, tol, order, p, t);
    }
  }

  /**
   The greedy rule, prediction by prediction: each gets the nearest shot within tolerance that no earlier
   prediction, by time and then by position, has taken, the last of several nearest ones; and none if there is none.
   */
  lemma GreedyIs(preds: seq<real>, shots: seq<real>, tol: real, p: nat, t: nat)
    requires p < |preds|
    ensures var m := GreedyPass(preds, shots, tol, TimeOrder(preds, |preds|));
      InBounds(preds, shots, m) && (Has(m, p, t) <==> Nearest(preds, shots, tol, m, p, t))
  {
    TimeOrderSorts(preds, |preds|);
    GreedyGivesNearest(preds, shots, tol, TimeOrder(preds, |preds|), p, t);
  }

  /** No matching that respects the tolerance has more than twice as many pairs as a maximal one. */
  lemma HalfOfOptimum(preds: seq<real>, shots: seq<real>, tol: real, m: seq<Pair>, other: seq<Pair>)
    requires Matching(preds, shots, tol, other)
    requires Maximal(preds, shots, tol, m)
    ensures |other| <= 2 * |m|
  {
    if |other| > 2 * |m| {
      var blame := Blame(preds, shots, tol, m, other);
      var i, j := Pigeonhole(2 * |m|, blame);
    }
  }

  /** Each pair of `other` shares its prediction or its shot with a pair of the maximal matching. */
  lemma {:induction false} Blame(preds: seq<real>, shots: seq<real>, tol: real, m: seq<Pair>, other: seq<Pair>)
    returns (blame: seq<nat>)
    requires Matching(preds, shots, tol, other)
    requires Maximal(preds, shots, tol, m)
    ensures |blame| == |other|
    ensures forall x :: 0 <= x < |other| ==> blame[x] < 2 * |m|
    ensures forall x :: 0 <= x < |other| ==>
      if blame[x] % 2 == 0 then m[blame[x] / 2].0 == other[x].0 else m[blame[x] / 2].1 == other[x].1
  {
    blame := [];
    if other != [] {
      var last := |other| - 1;
      var rest := Blame(preds, shots, tol, m, other[..last]);
      var p, t := other[last].0, other[last].1;
      if k :| 0 <= k < |m| && m[k].0 == p {
        blame := rest + [2 * k];
      } else {
        assert HasShot(m, t);
        var k :| 0 <= k < |m| && m[k].1 == t;
        blame := rest + [2 * k + 1];
      }
    }
  }

  ghost predicate Separated(shots: seq<real>, distance: real) {
    forall t, u :: 0 <= t < u < |shots| ==> Abs(shots[t] - shots[u]) > distance
  }

  /** When shots are more than two tolerances apart the greedy count is the best possible. */
  lemma OptimalWhenSeparated(preds: seq<real>, shots: seq<real>, tol: real, m: seq<Pair>, other: seq<Pair>)
    requires Matching(preds, shots, tol, m) && Maximal(preds, shots, tol, m)
    requires Matching(preds, shots, tol, other)
    requires Separated(shots, 2.0 * tol)
    ensures |other| <= |m|
  {
    if |other| > |m| {
      var owner := Owner(preds, shots, tol, m, other);
      var i, j := Pigeonhole(|m|, owner);
    }
  }

  lemma CloseShotsAreSame(preds: seq<real>, shots: seq<real>, tol: real, p: nat, t: nat, u: nat)
    requires p < |preds| && t < |shots| && u < |shots| && Separated(shots, 2.0 * tol)
    requires Gap(preds, shots, p, t) <= tol && Gap(preds, shots, p, u) <= tol
    ensures t == u
  {
    assert Abs(shots[t] - shots[u]) <= 2.0 * tol && Abs(shots[u] - shots[t]) <= 2.0 * tol;
  }

  lemma {:induction false} Owner(preds: seq<real>, shots: seq<real>, tol: real, m: seq<Pair>, other: seq<Pair>)
    returns (owner: seq<nat>)
    requires Matching(preds, shots, tol, m) && Maximal(preds, shots, tol, m)
    requires Matching(preds, shots, tol, other)
    requires Separated(shots, 2.0 * tol)
    ensures |owner| == |other|
    ensures forall x :: 0 <= x < |other| ==> owner[x] < |m| && m[owner[x]].1 == other[x].1
  {
    owner := [];
    if other != [] {
      var last := |other| - 1;
      MatchingPrefix(preds, shots, tol, other, last);
      var rest := Owner(preds, shots, tol, m, other[..last]);
      ShotIsOwned(preds, shots, tol, m, other[last].0, other[last].1);
      var k :| 0 <= k < |m| && m[k].1 == other[last].1;
      owner := rest + [k];
    }
  }

  lemma MatchingPrefix(preds: seq<real>, shots: seq<real>, tol: real, m: seq<Pair>, n: nat)
    requires Matching(preds, shots, tol, m) && n < |m|
    ensures Matching(preds, shots, tol, m[..n])
    ensures m[n].0 < |preds| && m[n].1 < |shots| && Gap(preds, shots, m[n].0, m[n].1) <= tol
  {
  }

  lemma ShotIsOwned(preds: seq<real>, shots: seq<real>, tol: real, m: seq<Pair>, p: nat, t: nat)
    requires Matching(preds, shots, tol, m) && Maximal(preds, shots, tol, m) && Separated(shots, 2.0 * tol)
    requires p < |preds| && t < |shots| && Gap(preds, shots, p, t) <= tol
    ensures HasShot(m, t)
  {
    if !HasShot(m, t) {
      assert HasPrediction(m, p);
      var k :| 0 <= k < |m| && m[k].0 == p;
      CloseShotsAreSame(preds, shots, tol, p, t, m[k].1);
    }
  }

  lemma LosingOrder()
    ensures TimeOrder([0.0, 1.9], 2) == [0, 1]
  {
    assert TimeOrder([0.0, 1.9], 1) == [0];
  }

  lemma LosingPass()
    ensures GreedyPass([0.0, 1.9], [-1.0, 0.9], 1.0, [0]) == [(0, 1)]
  {
    var preds, shots := [0.0, 1.9], [-1.0, 0.9];
    assert [0][..0] == [];
    assert Used([]) == {};
    assert Candidate(preds, shots, 1.0, {}, 0, 1);
    assert Gap(preds, shots, 0, 1) < Gap(preds, shots, 0, 0);
    assert Best(preds, shots, 1.0, {}, 0, 2) == 1;
  }

  /** The factor two is reached: two predictions and two shots that could all be paired, one match. */
  lemma GreedyCanLoseHalf()
    ensures Matching([0.0, 1.9], [-1.0, 0.9], 1.0, [(0, 0), (1, 1)])
    ensures |GreedyPass([0.0, 1.9], [-1.0, 0.9], 1.0, TimeOrder([0.0, 1.9], 2))| == 1
  {
    var preds, shots := [0.0, 1.9], [-1.0, 0.9];
    LosingOrder();
    LosingPass();
    assert [0, 1][..1] == [0];
    UsedAppend([], (0, 1));
    assert Used([(0, 1)]) == {1};
    var b := Best(preds, shots, 1.0, {1}, 1, 2);
    assert b < 0 by {
      assert Gap(preds, shots, 1, 0) > 1.0;
    }
  }

  function ShotTimes(truth: seq<TruthEvent>): seq<real> {
    if truth == [] then []
    else (if truth[0].kind == "shot" then [truth[0].at] else []) + ShotTimes(truth[1..])
  }

  /** An event alone counts exactly if its kind is "shot". */
  lemma ShotTimesOne(e: TruthEvent)
    ensures ShotTimes([e]) == if e.kind == "shot" then [e.at] else []
  {
    assert [e][1..] == [];
  }

  /** And a list of events counts event by event, in order. */
  lemma {:induction false} ShotTimesAppend(a: seq<TruthEvent>, b: seq<TruthEvent>)
    ensures ShotTimes(a + b) == ShotTimes(a) + ShotTimes(b)
  {
    if a == [] {
      assert a + b == b;
    } else {
      var first, rest := if a[0].kind == "shot" then [a[0].at] else [], ShotTimes(a[1..]);
      ShotTimesAppend(a[1..], b);
      assert (a + b)[0] == a[0] && (a + b)[1..] == a[1..] + b;
      assert first + (rest + ShotTimes(b)) == (first + rest) + ShotTimes(b);
    }
  }

  /** F1 with `tp` true positives among the given numbers of predictions and shots. */
  function F1(tp: nat, predictions: nat, shots: nat): real
    requires tp <= predictions && tp <= shots
  {
    if tp == 0 then 0.0 else 2.0 * tp as real / (predictions + shots) as real
  }

  lemma {:induction false} ErrorsWithinTolerance(errs: seq<real>, bound: real)
    requires forall i :: 0 <= i < |errs| ==> 0.0 <= errs[i] <= bound
    ensures 0.0 <= Sum(errs) <= |errs| as real * bound
  {
    if errs != [] {
      ErrorsWithinTolerance(errs[1..], bound);
      assert |errs| as real * bound == |errs[1..]| as real * bound + bound;
    }
  }

  lemma MeanWithinTolerance(errs: seq<real>, bound: real)
    requires errs != [] && forall i :: 0 <= i < |errs| ==> 0.0 <= errs[i] <= bound
    ensures 0.0 <= Sum(errs) / |errs| as real <= bound
  {
    ErrorsWithinTolerance(errs, bound);
    var n := |errs| as real;
    DivMonotone(0.0, Sum(errs), n);
    DivMonotone(Sum(errs), n * bound, n);
    CrossDivide(n * bound, n, bound, 1.0);
  }

  lemma {:induction false} MatchingFits(preds: seq<real>, shots: seq<real>, tol: real, m: seq<Pair>)
    requires Matching(preds, shots, tol, m)
    ensures |m| <= |preds| && |m| <= |shots|
  {
    if |m| > |preds| {
      var i, j := Pigeonhole(|preds|, seq(|m|, k requires 0 <= k < |m| => m[k].0));
    }
    if |m| > |shots| {
      var i, j := Pigeonhole(|shots|, seq(|m|, k requires 0 <= k < |m| => m[k].1));
    }
  }

  function Ratio(hits: nat, total: int): real {
    if total > 0 then hits as real / total as real else 0.0
  }

  function Harmonic(precision: real, recall: real): real {
    if precision + recall > 0.0 then 2.0 * precision * recall / (precision + recall) else 0.0
  }

  lemma HarmonicIsF1(tp: nat, predictions: nat, shots: nat)
    requires tp <= predictions && tp <= shots
    ensures Harmonic(Ratio(tp, predictions), Ratio(tp, shots)) == F1(tp, predictions, shots)
  {
    if tp > 0 {
      HarmonicOfRatios(tp as real, predictions as real, shots as real);
    }
  }

  lemma HarmonicOfRatios(t: real, a: real, b: real)
    requires t > 0.0 && a > 0.0 && b > 0.0
    ensures Harmonic(t / a, t / b) == 2.0 * t / (a + b)
  {
    HarmonicMean(t, a, b);
  }

  function MeanErrorMs(preds: seq<real>, shots: seq<real>, m: seq<Pair>): real
    requires InBounds(preds, shots, m)
  {
    if m == [] then 0.0
    else Mean(seq(|m|, k requires 0 <= k < |m| => Abs(preds[m[k].0] - shots[m[k].1]) * 1000.0))
  }

  lemma MeanErrorBound(preds: seq<real>, shots: seq<real>, toleranceMs: real, m: seq<Pair>)
    requires toleranceMs > 0.0 && Matching(preds, shots, toleranceMs / 1000.0, m)
    ensures 0.0 <= MeanErrorMs(preds, shots, m) <= toleranceMs
  {
    if m != [] {
      var errs := seq(|m|, k requires 0 <= k < |m| => Abs(preds[m[k].0] - shots[m[k].1]) * 1000.0);
      forall k | 0 <= k < |m| ensures 0.0 <= errs[k] <= toleranceMs {
        assert Gap(preds, shots, m[k].0, m[k].1) <= toleranceMs / 1000.0;
      }
      MeanWithinTolerance(errs, toleranceMs);
    }
  }

  function Report(preds: seq<real>, shots: seq<real>, m: seq<Pair>): DetectionReport
    requires InBounds(preds, shots, m)
  {
    var tp := |m|;
    var fp := |preds| - tp;
    var fn := |shots| - tp;
    var precision := Ratio(tp, tp + fp);
    var recall := Ratio(tp, tp + fn);
    DetectionReport(precision, recall, Harmonic(precision, recall), MeanErrorMs(preds, shots, m), fp, fn, tp)
  }

  /** `share` is x spread evenly over n, and 0 where n is. */
  predicate ShareOf(share: real, x: real, n: nat) {
    if n == 0 then share == 0.0 else share * n as real == x
  }

  lemma RatioIs(hits: nat, total: nat)
    requires hits <= total
    ensures ShareOf(Ratio(hits, total), hits as real, total)
  {
    if total > 0 {
      QuotientTimes(hits as real, total as real);
    }
  }

  lemma QuotientTimes(x: real, d: real)
    requires d > 0.0
    ensures x / d * d == x
  {
  }

  /** The summed gaps of the matches, in milliseconds. */
  function GapsMs(preds: seq<real>, shots: seq<real>, m: seq<Pair>): real
    requires InBounds(preds, shots, m)
  {
    if m == [] then 0.0
    else
      var p, t := preds[m[0].0], shots[m[0].1];
      (if p < t then t - p else p - t) * 1000.0 + GapsMs(preds, shots, m[1..])
  }

  lemma {:induction false} ErrorsAreGaps(preds: seq<real>, shots: seq<real>, m: seq<Pair>, errs: seq<real>)
    requires InBounds(preds, shots, m) && |errs| == |m|
    requires forall k :: 0 <= k < |m| ==> errs[k] == Abs(preds[m[k].0] - shots[m[k].1]) * 1000.0
    ensures Sum(errs) == GapsMs(preds, shots, m)
  {
    if m != [] {
      ErrorsAreGaps(preds, shots, m[1..], errs[1..]);
    }
  }

  lemma MeanErrorIs(preds: seq<real>, shots: seq<real>, m: seq<Pair>)
    requires InBounds(preds, shots, m)
    ensures ShareOf(MeanErrorMs(preds, shots, m), GapsMs(preds, shots, m), |m|)
  {
    if m != [] {
      var errs := seq(|m|, k requires 0 <= k < |m| => Abs(preds[m[k].0] - shots[m[k].1]) * 1000.0);
      ErrorsAreGaps(preds, shots, m, errs);
      QuotientTimes(Sum(errs), |errs| as real);
    }
  }

  /**
   What the report says: the counts add up, precision and recall are the hits per prediction and per shot and 0
   where there are none, F1 has its closed form, and the timing error, times the number of matches, is the sum of
   their gaps and never exceeds the tolerance.
   */
  lemma ReportIsConsistent(preds: seq<real>, shots: seq<real>, toleranceMs: real, m: seq<Pair>)
    requires toleranceMs > 0.0 && Matching(preds, shots, toleranceMs / 1000.0, m)
    ensures |m| <= |preds| && |m| <= |shots|
    ensures var r := Report(preds, shots, m);
      && r.truePositives + r.falsePositives == |preds| && r.falsePositives >= 0
      && r.truePositives + r.falseNegatives == |shots| && r.falseNegatives >= 0
      && r.truePositives == |m|
      && ShareOf(r.precision, r.truePositives as real, |preds|)
      && ShareOf(r.recall, r.truePositives as real, |shots|)
      && r.f1 == F1(r.truePositives, |preds|, |shots|)
      && ShareOf(r.meanTimingErrorMs, GapsMs(preds, shots, m), |m|)
      && 0.0 <= r.meanTimingErrorMs <= toleranceMs
  {
    MatchingFits(preds, shots, toleranceMs / 1000.0, m);
    ReportFields(preds, shots, m);
    RatioIs(|m|, |preds|);
    RatioIs(|m|, |shots|);
    MeanErrorIs(preds, shots, m);
    HarmonicIsF1(|m|, |preds|, |shots|);
    MeanErrorBound(preds, shots, toleranceMs, m);
  }

  lemma ReportFields(preds: seq<real>, shots: seq<real>, m: seq<Pair>)
    requires InBounds(preds, shots, m) && |m| <= |preds| && |m| <= |shots|
    ensures var r := Report(preds, shots, m);
      && r.precision == Ratio(|m|, |preds|) && r.recall == Ratio(|m|, |shots|)
      && r.f1 == Harmonic(Ratio(|m|, |preds|), Ratio(|m|, |shots|))
      && r.meanTimingErrorMs == MeanErrorMs(preds, shots, m)
  {
  }

  /** The score of the greedy matching at a tolerance in seconds. */
  function Score(preds: seq<real>, shots: seq<real>, tol: real): DetectionReport {
    Report(preds, shots, GreedyPass(preds, shots, tol, TimeOrder(preds, |preds|)))
  }

  method Evaluate(preds: seq<real>, truth: seq<TruthEvent>, toleranceMs: real)
    returns (r: Result<DetectionReport>)
    ensures toleranceMs <= 0.0 ==> r.Err?
    ensures toleranceMs > 0.0 ==> r == Ok(Score(preds, ShotTimes(truth), toleranceMs / 1000.0))
  {
    if toleranceMs <= 0.0 {
      return Err("tolerance_ms must be positive");
    }
    var shots := ShotTimes(truth);
    var tol := toleranceMs / 1000.0;
    var matches := GreedyMatch(preds, shots, tol);
    r := Ok(Report(preds, shots, matches));
  }

  /** The reported F1 is at least half of what any admissible matching of the same events would score. */
  lemma F1AtLeastHalf(preds: seq<real>, shots: seq<real>, tol: real, m: seq<Pair>, other: seq<Pair>)
    requires Matching(preds, shots, tol, m) && Maximal(preds, shots, tol, m)
    requires Matching(preds, shots, tol, other)
    ensures |m| <= |preds| && |m| <= |shots| && |other| <= |preds| && |other| <= |shots|
    ensures F1(|other|, |preds|, |shots|) <= 2.0 * F1(|m|, |preds|, |shots|)
  {
    MatchingFits(preds, shots, tol, m);
    MatchingFits(preds, shots, tol, other);
    HalfOfOptimum(preds, shots, tol, m, other);
    if |other| > 0 {
      HalfOfScore(2.0 * |other| as real, 2.0 * |m| as real, (|preds| + |shots|) as real);
    }
  }

  lemma HalfOfScore(x: real, y: real, total: real)
    requires total > 0.0 && x <= 2.0 * y
    ensures x / total <= 2.0 * (y / total)
  {
    DivMonotone(x, 2.0 * y, total);
    var q := y / total;
    assert q * total == y;
    CrossDivide(2.0 * y, total, 2.0 * q, 1.0);
  }
}
