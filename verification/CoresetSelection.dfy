/**
 Greedy k-center coreset selection (`training/active_learning.py`). Embeddings are points of a metric
 space; `d` stands for the norm of the difference.
 */
module CoresetSelection {
  import opened Numerics

  ghost predicate Metric<P(!new)>(d: (P, P) -> real) {
    && (forall x, y :: d(x, y) >= 0.0)
    && (forall x, y :: d(x, y) == 0.0 <==> x == y)
    && (forall x, y :: d(x, y) == d(y, x))
    && (forall x, y, z :: d(x, z) <= d(x, y) + d(y, z))
  }

  ghost predicate InRange(chosen: seq<nat>, n: nat) {
    forall j :: 0 <= j < |chosen| ==> chosen[j] < n
  }

  /** Distance from point i to the nearest chosen point. */
  ghost function Nearest<P>(d: (P, P) -> real, pts: seq<P>, chosen: seq<nat>, i: nat): real
    requires chosen != [] && InRange(chosen, |pts|) && i < |pts|
  {
    var last := |chosen| - 1;
    var toLast := d(pts[i], pts[chosen[last]]);
    if last == 0 then toLast
    else
      var before := Nearest(d, pts, chosen[..last], i);
      if toLast < before then toLast else before
  }

  ghost function Distances<P>(d: (P, P) -> real, pts: seq<P>, chosen: seq<nat>): (r: seq<real>)
    requires chosen != [] && InRange(chosen, |pts|)
    ensures |r| == |pts| && r != []
  {
    assert chosen[0] < |pts|;
    seq(|pts|, i requires 0 <= i < |pts| => Nearest(d, pts, chosen, i))
  }

  /** Every point after the first is the first one farthest from those chosen before it. */
  ghost predicate Greedy<P>(d: (P, P) -> real, pts: seq<P>, chosen: seq<nat>) {
    && chosen != [] && InRange(chosen, |pts|)
    && forall j :: 1 <= j < |chosen| ==> chosen[j] == ArgMax(Distances(d, pts, chosen[..j]))
  }

  datatype Acquisition = Acquisition(indices: seq<nat>, scores: seq<real>)

  method SelectCoreset<P(!new)>(d: (P, P) -> real, pts: seq<P>, budget: int, first: nat)
    returns (r: Result<Acquisition>)
    requires pts != [] ==> first < |pts|
    ensures r.Ok? <==> 1 <= budget <= |pts|
    ensures r.Ok? ==>
      && |r.value.indices| == budget && r.value.indices[0] == first
      && Greedy(d, pts, r.value.indices)
      && |r.value.scores| == budget
      && forall j :: 0 <= j < budget ==>
           r.value.scores[j] == Nearest(d, pts, r.value.indices, r.value.indices[j])
  {
    if budget <= 0 || budget > |pts| {
      return Err("budget must be in [1, N]");
    }
    var n := |pts|;
    var chosen := [first];
    var minDist := seq(n, i requires 0 <= i < n => d(pts[i], pts[first]));
    for k := 1 to budget
      invariant |chosen| == k && chosen[0] == first && Greedy(d, pts, chosen)
      invariant minDist == Distances(d, pts, chosen)
    {
      var next := ArgMax(minDist);
      OneMore(d, pts, chosen);
      chosen := chosen + [next];
      minDist := seq(n, i requires 0 <= i < n =>
        var dNew := d(pts[i], pts[next]); if dNew < minDist[i] then dNew else minDist[i]);
    }
    r := Ok(Acquisition(chosen,
      seq(budget, j requires 0 <= j < budget => minDist[chosen[j]])));
  }

  /** One loop step: the greedy rule is kept and the distances are updated by one minimum. */
  lemma OneMore<P>(d: (P, P) -> real, pts: seq<P>, chosen: seq<nat>)
    requires Greedy(d, pts, chosen)
    ensures var next := ArgMax(Distances(d, pts, chosen));
      && Greedy(d, pts, chosen + [next])
      && forall i :: 0 <= i < |pts| ==>
           var old', new' := Nearest(d, pts, chosen, i), d(pts[i], pts[next]);
           Nearest(d, pts, chosen + [next], i) == if new' < old' then new' else old'
  {
    var next := ArgMax(Distances(d, pts, chosen));
    var more := chosen + [next];
    assert more[..|chosen|] == chosen;
    forall j | 1 <= j < |more| ensures more[j] == ArgMax(Distances(d, pts, more[..j])) {
      if j < |chosen| {
        assert more[..j] == chosen[..j];
      }
    }
  }

  /** The running minimum is the true minimum over the chosen points. */
  lemma {:induction false} NearestIsMinimum<P>(d: (P, P) -> real, pts: seq<P>, chosen: seq<nat>, i: nat)
    requires chosen != [] && InRange(chosen, |pts|) && i < |pts|
    ensures forall c :: 0 <= c < |chosen| ==> Nearest(d, pts, chosen, i) <= d(pts[i], pts[chosen[c]])
    ensures exists c :: 0 <= c < |chosen| && Nearest(d, pts, chosen, i) == d(pts[i], pts[chosen[c]])
  {
    var last := |chosen| - 1;
    assert Nearest(d, pts, chosen, i) <= d(pts[i], pts[chosen[last]]);
    if last > 0 {
      var before := chosen[..last];
      NearestIsMinimum(d, pts, before, i);
      var c :| 0 <= c < last && Nearest(d, pts, before, i) == d(pts[i], pts[before[c]]);
      assert Nearest(d, pts, chosen, i) == d(pts[i], pts[chosen[c]])
          || Nearest(d, pts, chosen, i) == d(pts[i], pts[chosen[last]]);
      forall k | 0 <= k < |chosen|
        ensures Nearest(d, pts, chosen, i) <= d(pts[i], pts[chosen[k]])
      {
        if k < last {
          assert before[k] == chosen[k];
        }
      }
    } else {
      assert Nearest(d, pts, chosen, i) == d(pts[i], pts[chosen[0]]);
    }
  }

  /** The largest distance left uncovered: the greedy covering radius. */
  ghost function Radius<P>(d: (P, P) -> real, pts: seq<P>, chosen: seq<nat>): real
    requires chosen != [] && InRange(chosen, |pts|)
  {
    var dist := Distances(d, pts, chosen);
    dist[ArgMax(dist)]
  }

  lemma RadiusShrinks<P>(d: (P, P) -> real, pts: seq<P>, chosen: seq<nat>, j: nat)
    requires chosen != [] && InRange(chosen, |pts|) && 1 <= j <= |chosen|
    ensures Radius(d, pts, chosen) <= Radius(d, pts, chosen[..j])
  {
    var far := ArgMax(Distances(d, pts, chosen));
    var before := chosen[..j];
    NearestIsMinimum(d, pts, chosen, far);
    NearestIsMinimum(d, pts, before, far);
    var c :| 0 <= c < j && Nearest(d, pts, before, far) == d(pts[far], pts[before[c]]);
    assert before[c] == chosen[c];
    assert Distances(d, pts, before)[far] <= Radius(d, pts, before);
  }

  /** Chosen points stay at least one final radius apart. */
  lemma ChosenAreSeparated<P(!new)>(d: (P, P) -> real, pts: seq<P>, chosen: seq<nat>, i: nat, j: nat)
    requires Metric(d) && Greedy(d, pts, chosen) && i < j < |chosen|
    ensures d(pts[chosen[i]], pts[chosen[j]]) >= Radius(d, pts, chosen)
  {
    var before := chosen[..j];
    RadiusShrinks(d, pts, chosen, j);
    assert Radius(d, pts, before) == Nearest(d, pts, before, chosen[j]);
    NearestIsMinimum(d, pts, before, chosen[j]);
    assert before[i] == chosen[i];
  }

  ghost predicate Within<P>(d: (P, P) -> real, p: P, centers: seq<P>, r: real, c: nat) {
    c < |centers| && d(p, centers[c]) <= r
  }

  ghost predicate CoveredBy<P>(d: (P, P) -> real, pts: seq<P>, centers: seq<P>, r: real) {
    forall i :: 0 <= i < |pts| ==> exists c :: Within(d, pts[i], centers, r, c)
  }

  /**
   Gonzalez's bound: whatever at most |chosen| centers anyone places, anywhere in the space, the greedy
   radius is at most twice the radius those centers achieve.
   */
  lemma TwoApproximation<P(!new)>(d: (P, P) -> real, pts: seq<P>, chosen: seq<nat>, centers: seq<P>, r: real)
    requires Metric(d) && Greedy(d, pts, chosen)
    requires |centers| <= |chosen| && CoveredBy(d, pts, centers, r)
    ensures Radius(d, pts, chosen) <= 2.0 * r
  {
    var far := ArgMax(Distances(d, pts, chosen));
    var spread := chosen + [far];
    var assignment: seq<nat> := Assign(d, pts, spread, centers, r);
    var i, j := Pigeonhole(|centers|, assignment);
    var p, q, c := pts[spread[i]], pts[spread[j]], centers[assignment[i]];
    assert d(p, q) <= d(p, c) + d(c, q) <= 2.0 * r;
    if j < |chosen| {
      ChosenAreSeparated(d, pts, chosen, i, j);
    } else {
      NearestIsMinimum(d, pts, chosen, far);
      assert d(q, p) == d(p, q);
    }
  }

  lemma {:induction false} Assign<P(!new)>(d: (P, P) -> real, pts: seq<P>, idx: seq<nat>, centers: seq<P>, r: real)
    returns (assignment: seq<nat>)
    requires InRange(idx, |pts|) && CoveredBy(d, pts, centers, r)
    ensures |assignment| == |idx|
    ensures forall x :: 0 <= x < |idx| ==> Within(d, pts[idx[x]], centers, r, assignment[x])
  {
    assignment := [];
    if idx != [] {
      var rest := Assign(d, pts, idx[1..], centers, r);
      var c: nat :| Within(d, pts[idx[0]], centers, r, c);
      assignment := [c] + rest;
      forall x | 0 <= x < |idx| ensures Within(d, pts[idx[x]], centers, r, assignment[x]) {
        if x > 0 {
          assert idx[x] == idx[1..][x - 1];
        }
      }
    }
  }

  /** The reported scores carry no information: each is the distance of a chosen point to itself. */
  lemma ScoresAreZero<P(!new)>(d: (P, P) -> real, pts: seq<P>, chosen: seq<nat>, j: nat)
    requires Metric(d) && chosen != [] && InRange(chosen, |pts|) && j < |chosen|
    ensures Nearest(d, pts, chosen, chosen[j]) == 0.0
  {
    NearestIsMinimum(d, pts, chosen, chosen[j]);
  }

  ghost function Points<P>(pts: seq<P>): set<P> {
    set p | p in pts
  }

  ghost predicate PairwiseDistinct<P>(pts: seq<P>, chosen: seq<nat>)
    requires InRange(chosen, |pts|)
  {
    forall i, j :: 0 <= i < j < |chosen| ==> pts[chosen[i]] != pts[chosen[j]]
  }

  lemma DistinctNeedsPoints<P>(pts: seq<P>, chosen: seq<nat>)
    requires InRange(chosen, |pts|) && PairwiseDistinct(pts, chosen)
    ensures |Points(pts)| >= |chosen|
  {
    PickedSize(pts, chosen);
    SubsetSize(Picked(pts, chosen), Points(pts));
  }

  /** A repeated point is only ever chosen once nothing is left to cover. */
  lemma RepeatMeansCovered<P(!new)>(d: (P, P) -> real, pts: seq<P>, chosen: seq<nat>, i: nat, j: nat)
    requires Metric(d) && Greedy(d, pts, chosen)
    requires i < j < |chosen| && pts[chosen[i]] == pts[chosen[j]]
    ensures Points(pts) <= Picked(pts, chosen[..j])
  {
    var before := chosen[..j];
    NearestIsMinimum(d, pts, before, chosen[j]);
    assert before[i] == chosen[i];
    assert Radius(d, pts, before) <= 0.0;
    forall k | 0 <= k < |pts| ensures pts[k] in Picked(pts, before) {
      NearestIsMinimum(d, pts, before, k);
      assert Distances(d, pts, before)[k] <= Radius(d, pts, before);
      var c :| 0 <= c < j && Nearest(d, pts, before, k) == d(pts[k], pts[before[c]]);
      assert d(pts[k], pts[before[c]]) == 0.0;
      assert before[c] in before;
    }
  }

  /** The budget buys that many different points exactly when the data holds that many. */
  lemma DistinctIff<P(!new)>(d: (P, P) -> real, pts: seq<P>, chosen: seq<nat>)
    requires Metric(d) && Greedy(d, pts, chosen)
    ensures PairwiseDistinct(pts, chosen) <==> |Points(pts)| >= |chosen|
  {
    if PairwiseDistinct(pts, chosen) {
      DistinctNeedsPoints(pts, chosen);
    } else {
      var i, j :| 0 <= i < j < |chosen| && pts[chosen[i]] == pts[chosen[j]];
      RepeatMeansCovered(d, pts, chosen, i, j);
      PickedSize(pts, chosen[..j]);
      SubsetSize(Points(pts), Picked(pts, chosen[..j]));
    }
  }

  ghost function Picked<P>(pts: seq<P>, chosen: seq<nat>): (r: set<P>)
    requires InRange(chosen, |pts|)
    ensures r == set c | c in chosen :: pts[c]
  {
    if chosen == [] then {}
    else
      var last := |chosen| - 1;
      assert chosen == chosen[..last] + [chosen[last]];
      Picked(pts, chosen[..last]) + {pts[chosen[last]]}
  }

  lemma {:induction false} PickedSize<P>(pts: seq<P>, chosen: seq<nat>)
    requires InRange(chosen, |pts|)
    ensures |Picked(pts, chosen)| <= |chosen|
    ensures PairwiseDistinct(pts, chosen) ==> |Picked(pts, chosen)| == |chosen|
    ensures Picked(pts, chosen) <= Points(pts)
  {
    if chosen != [] {
      PickedSize(pts, chosen[..|chosen| - 1]);
    }
  }
}
