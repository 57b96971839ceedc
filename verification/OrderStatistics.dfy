/**
 Order statistics by counting. `Sort` is the reference order; every fact about it that the
 clients use is phrased through `CountAtMost`, which does not depend on the order of the input.
 */
module OrderStatistics {
  import opened Numerics

  ghost predicate Sorted(s: seq<real>) {
    forall i, j :: 0 <= i <= j < |s| ==> s[i] <= s[j]
  }

  function Insert(x: real, s: seq<real>): (r: seq<real>)
    ensures |r| == |s| + 1
  {
    if s == [] || x <= s[0] then [x] + s else [s[0]] + Insert(x, s[1..])
  }

  function Sort(s: seq<real>): (r: seq<real>)
    ensures |r| == |s|
  {
    if s == [] then [] else Insert(s[0], Sort(s[1..]))
  }

  function CountAtMost(s: seq<real>, x: real): (n: nat)
    ensures n <= |s|
  {
    if s == [] then 0 else (if s[0] <= x then 1 else 0) + CountAtMost(s[1..], x)
  }

  lemma {:induction false} InsertCounts(x: real, s: seq<real>, bound: real)
    ensures CountAtMost(Insert(x, s), bound) == (if x <= bound then 1 else 0) + CountAtMost(s, bound)
  {
    if s == [] || x <= s[0] {
      assert ([x] + s)[1..] == s;
    } else {
      InsertCounts(x, s[1..], bound);
      assert ([s[0]] + Insert(x, s[1..]))[1..] == Insert(x, s[1..]);
    }
  }

  lemma {:induction false} InsertPermutes(x: real, s: seq<real>)
    ensures multiset(Insert(x, s)) == multiset(s) + multiset{x}
  {
    if s == [] || x <= s[0] {
    } else {
      InsertPermutes(x, s[1..]);
      assert s == [s[0]] + s[1..];
    }
  }

  lemma {:induction false} InsertSorts(x: real, s: seq<real>)
    requires Sorted(s)
    ensures Sorted(Insert(x, s))
  {
    if s == [] || x <= s[0] {
    } else {
      var r := Insert(x, s[1..]);
      InsertSorts(x, s[1..]);
      forall i | 0 <= i < |r| ensures s[0] <= r[i] {
        InsertPermutes(x, s[1..]);
        assert r[i] in multiset(r);
        assert r[i] == x || r[i] in s[1..];
      }
    }
  }

  lemma {:induction false} SortSorts(s: seq<real>, bound: real)
    ensures Sorted(Sort(s))
    ensures multiset(Sort(s)) == multiset(s)
    ensures CountAtMost(Sort(s), bound) == CountAtMost(s, bound)
  {
    if s != [] {
      SortSorts(s[1..], bound);
      InsertSorts(s[0], Sort(s[1..]));
      InsertPermutes(s[0], Sort(s[1..]));
      InsertCounts(s[0], Sort(s[1..]), bound);
      assert s == [s[0]] + s[1..];
    }
  }

  /** In a sorted sequence the count and the position determine each other. */
  lemma {:induction false} SortedCount(t: seq<real>, k: nat, x: real)
    requires Sorted(t) && k < |t|
    ensures t[k] <= x <==> CountAtMost(t, x) > k
  {
    if k == 0 {
      if t[0] > x {
        NoneAtMost(t, x);
      }
    } else if t[0] <= x {
      SortedCount(t[1..], k - 1, x);
    } else {
      NoneAtMost(t, x);
    }
  }

  lemma {:induction false} NoneAtMost(t: seq<real>, x: real)
    requires forall i :: 0 <= i < |t| ==> t[i] > x
    ensures CountAtMost(t, x) == 0
  {
    if t != [] {
      NoneAtMost(t[1..], x);
    }
  }

  /** The k-th smallest value (from zero) is at most `x` exactly when more than k values are. */
  lemma KthSmallest(s: seq<real>, k: nat, x: real)
    requires k < |s|
    ensures Sort(s)[k] <= x <==> CountAtMost(s, x) > k
  {
    SortSorts(s, x);
    SortedCount(Sort(s), k, x);
  }

  function RemoveAt<T>(s: seq<T>, i: nat): (r: seq<T>)
    requires i < |s|
    ensures |r| == |s| - 1
  {
    s[..i] + s[i + 1..]
  }

  lemma {:induction false} CountRemoveAt(s: seq<real>, i: nat, x: real)
    requires i < |s|
    ensures CountAtMost(RemoveAt(s, i), x) == CountAtMost(s, x) - (if s[i] <= x then 1 else 0)
  {
    if i == 0 {
      assert RemoveAt(s, 0) == s[1..];
    } else {
      CountRemoveAt(s[1..], i - 1, x);
      assert RemoveAt(s, i)[1..] == RemoveAt(s[1..], i - 1);
    }
  }

  function Lerp(x: real, y: real, part: real): real {
    Along(x, y - x, part)
  }

  function Along(x: real, d: real, part: real): real {
    x + part * d
  }

  /** The value at a fractional position, read off the segment between its two neighbours. */
  function ValueAt(t: seq<real>, position: real): real
    requires 0.0 <= position && position.Floor < |t|
  {
    var below := position.Floor;
    var above := Min(below + 1, |t| - 1);
    Lerp(t[below], t[above], position - below as real)
  }

  /** `numpy.quantile` with its default linear interpolation, on a level in [0, 1]. */
  function Quantile(s: seq<real>, level: real): real
    requires s != [] && 0.0 <= level <= 1.0
  {
    PositionInRange(|s|, level);
    ValueAt(Sort(s), Position(|s|, level))
  }

  function Position(n: nat, level: real): real
    requires n > 0
  {
    Portion(level, (n - 1) as real)
  }

  function Portion(level: real, whole: real): real {
    level * whole
  }

  lemma PositionInRange(n: nat, level: real)
    requires n > 0 && 0.0 <= level <= 1.0
    ensures 0.0 <= Position(n, level) && Position(n, level).Floor < n
  {
    FractionOf(level, (n - 1) as real);
    FloorAtMost(Position(n, level), n - 1);
  }

  lemma FractionOf(level: real, whole: real)
    requires 0.0 <= level <= 1.0 && 0.0 <= whole
    ensures 0.0 <= Portion(level, whole) <= whole
  {
    MulMonotone(0.0, level, whole);
    MulMonotone(level, 1.0, whole);
  }

  lemma FloorAtMost(x: real, k: int)
    requires x <= k as real
    ensures x.Floor <= k
  {
  }

  lemma PositionMonotone(n: nat, level: real, level': real)
    requires n > 0 && level <= level'
    ensures Position(n, level) <= Position(n, level')
  {
    PortionMonotone(level, level', (n - 1) as real);
  }

  lemma PortionMonotone(level: real, level': real, whole: real)
    requires 0.0 <= whole && level <= level'
    ensures Portion(level, whole) <= Portion(level', whole)
  {
    MulMonotone(level, level', whole);
  }

  lemma Interpolates(x: real, y: real, part: real)
    requires x <= y && 0.0 <= part <= 1.0
    ensures x <= Lerp(x, y, part) <= y
  {
    AlongWithin(x, y - x, part);
  }

  lemma AlongWithin(x: real, d: real, part: real)
    requires 0.0 <= part <= 1.0 && 0.0 <= d
    ensures x <= Along(x, d, part) <= x + d
  {
    MulMonotone(0.0, part, d);
    MulMonotone(part, 1.0, d);
  }

  lemma LerpMonotone(x: real, y: real, part: real, part': real)
    requires x <= y && part <= part'
    ensures Lerp(x, y, part) <= Lerp(x, y, part')
  {
    AlongMonotone(x, y - x, part, part');
  }

  lemma AlongMonotone(x: real, d: real, part: real, part': real)
    requires 0.0 <= d && part <= part'
    ensures Along(x, d, part) <= Along(x, d, part')
  {
    MulMonotone(part, part', d);
  }

  lemma ValueAtBracket(t: seq<real>, position: real)
    requires Sorted(t) && 0.0 <= position && position.Floor < |t|
    ensures t[position.Floor] <= ValueAt(t, position) <= t[Min(position.Floor + 1, |t| - 1)]
  {
    var below := position.Floor;
    Interpolates(t[below], t[Min(below + 1, |t| - 1)], position - below as real);
  }

  lemma ValueAtMonotone(t: seq<real>, p: real, p': real)
    requires Sorted(t) && 0.0 <= p <= p' && p'.Floor < |t|
    ensures p.Floor <= p'.Floor && ValueAt(t, p) <= ValueAt(t, p')
  {
    var below := p.Floor;
    if below == p'.Floor {
      LerpMonotone(t[below], t[Min(below + 1, |t| - 1)], p - below as real, p' - below as real);
    } else {
      ValueAtBracket(t, p);
      ValueAtBracket(t, p');
    }
  }

  lemma RankPosition(n: nat, k: nat)
    requires 1 <= k <= n
    ensures 0.0 < k as real / n as real <= 1.0
    ensures Position(n, k as real / n as real).Floor == k - 1
  {
    var level := k as real / n as real;
    assert level * n as real == k as real;
    assert level * (n - 1) as real == k as real - level;
    if level <= 0.0 {
      MulMonotone(level, 0.0, n as real);
    }
    DivMonotone(k as real, n as real, n as real);
  }

  /** At level k/n the interpolated quantile lies between the k-th and the next order statistic. */
  lemma QuantileBracket(s: seq<real>, k: nat, level: real)
    requires 1 <= k <= |s| && level == k as real / |s| as real
    ensures 0.0 < level <= 1.0
    ensures Sort(s)[k - 1] <= Quantile(s, level) <= Sort(s)[Min(k, |s| - 1)]
  {
    RankPosition(|s|, k);
    var t, position := Sort(s), Position(|s|, level);
    SortSorts(s, 0.0);
    PositionInRange(|s|, level);
    ValueAtBracket(t, position);
  }

  /**
   Linear interpolation: where the level falls the fraction `part` of the way from the j-th entry of the sorted
   values to the next, the quantile is that fraction of the way between the two; at the last entry it is that one.
   */
  lemma QuantileInterpolates(s: seq<real>, level: real, j: nat, part: real)
    requires s != [] && 0.0 <= level <= 1.0 && j < |s| && 0.0 <= part < 1.0
    requires level * (|s| - 1) as real == j as real + part
    ensures j + 1 < |s| ==> Quantile(s, level) == (1.0 - part) * Sort(s)[j] + part * Sort(s)[j + 1]
    ensures j + 1 == |s| ==> Quantile(s, level) == Sort(s)[j]
  {
    var q := QuantileBetween(s, level, j, part);
    if j + 1 < |s| {
      MixIs(Sort(s)[j], Sort(s)[j + 1], part, q);
    }
  }

  /** `part` of the way from x to y. */
  function Mix(x: real, y: real, part: real): real {
    (1.0 - part) * x + part * y
  }

  lemma MixIs(x: real, y: real, part: real, q: real)
    requires q == Mix(x, y, part)
    ensures q == (1.0 - part) * x + part * y
  {
  }

  lemma QuantileBetween(s: seq<real>, level: real, j: nat, part: real) returns (q: real)
    requires s != [] && 0.0 <= level <= 1.0 && j < |s| && 0.0 <= part < 1.0
    requires level * (|s| - 1) as real == j as real + part
    ensures q == Quantile(s, level)
    ensures q == if j + 1 < |s| then Mix(Sort(s)[j], Sort(s)[j + 1], part) else Sort(s)[j]
  {
    PositionInRange(|s|, level);
    var position := PositionIs(|s|, level, j as real + part);
    q := ValueAtIs(Sort(s), position, j, part);
  }

  lemma PositionIs(n: nat, level: real, x: real) returns (position: real)
    requires n > 0 && level * (n - 1) as real == x
    ensures position == Position(n, level) && position == x
  {
    position := Position(n, level);
  }

  lemma ValueAtIs(t: seq<real>, position: real, j: nat, part: real) returns (value: real)
    requires j < |t| && 0.0 <= part < 1.0 && position == j as real + part
    ensures 0.0 <= position && position.Floor == j && value == ValueAt(t, position)
    ensures value == if j + 1 < |t| then Mix(t[j], t[j + 1], part) else t[j]
  {
    LerpIs(t[j], t[Min(j + 1, |t| - 1)], part);
    assert position - j as real == part;
    value := ValueAt(t, position);
  }

  lemma LerpIs(x: real, y: real, part: real)
    ensures Lerp(x, y, part) == Mix(x, y, part)
    ensures x == y ==> Lerp(x, y, part) == x
  {
  }

  /** The quantile at level 1 is the largest value. */
  lemma QuantileTop(s: seq<real>)
    requires s != []
    ensures Quantile(s, 1.0) in s && forall i :: 0 <= i < |s| ==> s[i] <= Quantile(s, 1.0)
  {
    QuantileInterpolates(s, 1.0, |s| - 1, 0.0);
    LastIsLargest(s, Sort(s)[|s| - 1]);
  }

  lemma LastIsLargest(s: seq<real>, x: real)
    requires s != [] && x == Sort(s)[|s| - 1]
    ensures x in s && forall i :: 0 <= i < |s| ==> s[i] <= x
  {
    var t := Sort(s);
    SortSorts(s, 0.0);
    forall i | 0 <= i < |s| ensures s[i] <= x {
      var k := PlaceIn(s, t, s[i]);
    }
    var k := PlaceIn(t, s, x);
  }

  lemma PlaceIn(s: seq<real>, t: seq<real>, x: real) returns (k: nat)
    requires multiset(t) == multiset(s) && x in s
    ensures k < |t| && t[k] == x
  {
    assert x in multiset(s);
    k :| 0 <= k < |t| && t[k] == x;
  }

  lemma QuantileMonotone(s: seq<real>, level: real, level': real)
    requires s != [] && 0.0 <= level <= level' <= 1.0
    ensures Quantile(s, level) <= Quantile(s, level')
  {
    SortSorts(s, 0.0);
    PositionInRange(|s|, level);
    PositionInRange(|s|, level');
    PositionMonotone(|s|, level, level');
    ValueAtMonotone(Sort(s), Position(|s|, level), Position(|s|, level'));
  }

  /** `numpy.median`: the middle value, or the mean of the two middle values. */
  function Median(s: seq<real>): real
    requires s != []
  {
    var t := Sort(s);
    var n := |s|;
    if n % 2 == 1 then t[n / 2] else (t[n / 2 - 1] + t[n / 2]) / 2.0
  }

  /** Twice the median is the sum of the two entries nearest the middle of the sorted values, from either end. */
  lemma MedianIsMiddle(s: seq<real>)
    requires s != []
    ensures 2.0 * Median(s) == Sort(s)[(|s| - 1) / 2] + Sort(s)[|s| / 2]
  {
    if |s| % 2 == 1 {
      assert (|s| - 1) / 2 == |s| / 2;
    } else {
      assert (|s| - 1) / 2 == |s| / 2 - 1;
    }
  }

  function CountWithin(s: seq<real>, lo: real, hi: real): nat {
    if s == [] then 0 else (if lo <= s[0] <= hi then 1 else 0) + CountWithin(s[1..], lo, hi)
  }

  lemma {:induction false} CountWithinSplits(s: seq<real>, lo: real, hi: real, x: real)
    requires lo <= hi
    ensures CountWithin(s, lo, hi) <= CountAtMost(s, hi)
    ensures x < lo ==> CountWithin(s, lo, hi) + CountAtMost(s, x) <= |s|
  {
    if s != [] {
      CountWithinSplits(s[1..], lo, hi, x);
    }
  }

  /** A strict majority inside an interval drags the median inside it, whatever the rest is. */
  lemma RobustMedian(s: seq<real>, lo: real, hi: real)
    requires s != [] && lo <= hi
    requires 2 * CountWithin(s, lo, hi) > |s|
    ensures lo <= Median(s) <= hi
  {
    var t, n := Sort(s), |s|;
    CountWithinSplits(s, lo, hi, lo);
    KthSmallest(s, n / 2, hi);
    KthSmallest(s, (n - 1) / 2, hi);
    LowerHalf(s, lo, hi, n / 2);
    LowerHalf(s, lo, hi, (n - 1) / 2);
  }

  lemma LowerHalf(s: seq<real>, lo: real, hi: real, k: nat)
    requires lo <= hi && k < |s| && |s| - CountWithin(s, lo, hi) <= k
    ensures lo <= Sort(s)[k]
  {
    var v := Sort(s)[k];
    if v < lo {
      KthSmallest(s, k, v);
      CountWithinSplits(s, lo, hi, v);
    }
  }
}
