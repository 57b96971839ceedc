/** Macro-F1, per-class recall and top-k macro-F1 (`eval/metrics.py`), over exact rationals. */
module ClassificationMetrics {
  import opened Numerics

  // ---- Per-class counts ---------------------------------------------------------------------------

  predicate SameShape(preds: seq<int>, labels: seq<int>) {
    |preds| == |labels|
  }

  function TruePositives(preds: seq<int>, labels: seq<int>, c: int): nat
    requires SameShape(preds, labels)
  {
    if preds == [] then 0
    else (if preds[0] == c && labels[0] == c then 1 else 0) + TruePositives(preds[1..], labels[1..], c)
  }

  function FalsePositives(preds: seq<int>, labels: seq<int>, c: int): nat
    requires SameShape(preds, labels)
  {
    if preds == [] then 0
    else (if preds[0] == c && labels[0] != c then 1 else 0) + FalsePositives(preds[1..], labels[1..], c)
  }

  function FalseNegatives(preds: seq<int>, labels: seq<int>, c: int): nat
    requires SameShape(preds, labels)
  {
    if preds == [] then 0
    else (if preds[0] != c && labels[0] == c then 1 else 0) + FalseNegatives(preds[1..], labels[1..], c)
  }

  function Support(labels: seq<int>, c: int): nat {
    if labels == [] then 0 else (if labels[0] == c then 1 else 0) + Support(labels[1..], c)
  }

  /** The source's formula for one class, from its three counts. */
  function F1(tp: nat, fp: nat, fn: nat): real {
    if tp + fp == 0 || tp + fn == 0 then 0.0
    else
      var precision := tp as real / (tp + fp) as real;
      var recall := tp as real / (tp + fn) as real;
      if precision + recall == 0.0 then 0.0 else 2.0 * precision * recall / (precision + recall)
  }

  function ClassF1(preds: seq<int>, labels: seq<int>, c: int): real
    requires SameShape(preds, labels)
  {
    F1(TruePositives(preds, labels, c), FalsePositives(preds, labels, c), FalseNegatives(preds, labels, c))
  }

  function ClassF1s(preds: seq<int>, labels: seq<int>, n: nat): (r: seq<real>)
    requires SameShape(preds, labels)
    ensures |r| == n
  {
    if n == 0 then [] else ClassF1s(preds, labels, n - 1) + [ClassF1(preds, labels, n - 1)]
  }

  function MacroF1(preds: seq<int>, labels: seq<int>, n: nat): real
    requires SameShape(preds, labels) && n > 0
  {
    Mean(ClassF1s(preds, labels, n))
  }

  method ComputeMacroF1(preds: seq<int>, labels: seq<int>, nClasses: int) returns (r: Result<real>)
    ensures r.Ok? <==> SameShape(preds, labels) && nClasses >= 1
    ensures r.Ok? ==> r.value == MacroF1(preds, labels, nClasses)
  {
    if |preds| != |labels| {
      return Err("preds and labels must have the same shape");
    }
    if nClasses < 1 {
      return Err("n_classes must be >= 1");
    }
    var f1s: seq<real> := [];
    for c := 0 to nClasses
      invariant f1s == ClassF1s(preds, labels, c)
    {
      var tp := TruePositives(preds, labels, c);
      var fp := FalsePositives(preds, labels, c);
      var fn := FalseNegatives(preds, labels, c);
      f1s := f1s + [F1(tp, fp, fn)];
    }
    r := Ok(Mean(f1s));
  }

  // ---- Closed form, range and monotonicity of F1 ----------------------------------------------------

  lemma F1ClosedForm(tp: nat, fp: nat, fn: nat)
    ensures F1(tp, fp, fn) == if tp == 0 then 0.0 else 2.0 * tp as real / (2 * tp + fp + fn) as real
  {
    if tp > 0 {
      HarmonicMean(tp as real, (tp + fp) as real, (tp + fn) as real);
      assert (tp + fp) as real + (tp + fn) as real == (2 * tp + fp + fn) as real;
    } else if fp > 0 && fn > 0 {
      ZeroOver(fp as real);
      ZeroOver(fn as real);
    }
  }

  lemma FractionMonotone(x: real, e: real, x': real, e': real)
    requires 0.0 < x <= x' && 0.0 <= e' <= e
    ensures 0.0 < x / (x + e) <= x' / (x' + e') <= 1.0
  {
    PositiveQuotient(x, x + e);
    DivMonotone(x', x' + e', x' + e');
    SelfQuotient(x' + e');
    MulMonotone(e', e, x);
    MulMonotone(x, x', e);
    CrossTerms(x, e, x', e');
    CrossCompare(x, x + e, x', x' + e');
  }

  lemma CrossTerms(x: real, e: real, x': real, e': real)
    requires e' * x <= e * x && x * e <= x' * e
    ensures x * (x' + e') <= x' * (x + e)
  {
    assert e * x == x * e;
    assert x * (x' + e') == x * x' + e' * x;
    assert x' * (x + e) == x * x' + x' * e;
  }

  lemma CrossCompare(x: real, c: real, y: real, d: real)
    requires c > 0.0 && d > 0.0 && x * d <= y * c
    ensures x / c <= y / d
  {
    var p := x / c;
    assert p * c == x;
    assert (p * d) * c == x * d;
    assert p * d <= y by {
      if p * d > y {
        MulStrict(y, p * d, c);
      }
    }
    DivMonotone(p * d, y, d);
    CancelProduct(p, d);
  }

  lemma F1Range(tp: nat, fp: nat, fn: nat)
    ensures 0.0 <= F1(tp, fp, fn) <= 1.0
  {
    F1ClosedForm(tp, fp, fn);
    if tp > 0 {
      FractionMonotone(2.0 * tp as real, (fp + fn) as real, 2.0 * tp as real, (fp + fn) as real);
    }
  }

  lemma F1Monotone(tp: nat, fp: nat, fn: nat, tp': nat, fp': nat, fn': nat)
    requires tp <= tp' && fp' <= fp && fn' <= fn
    ensures F1(tp, fp, fn) <= F1(tp', fp', fn')
  {
    F1ClosedForm(tp, fp, fn);
    F1ClosedForm(tp', fp', fn');
    F1Range(tp', fp', fn');
    if tp > 0 {
      FractionMonotone(2.0 * tp as real, (fp + fn) as real, 2.0 * tp' as real, (fp' + fn') as real);
      assert (2 * tp + fp + fn) as real == 2.0 * tp as real + (fp + fn) as real;
      assert (2 * tp' + fp' + fn') as real == 2.0 * tp' as real + (fp' + fn') as real;
    }
  }

  // ---- What the counts count ------------------------------------------------------------------------

  /** Each sample's prediction with its label. */
  function Pairs(preds: seq<int>, labels: seq<int>): (r: seq<(int, int)>)
    requires SameShape(preds, labels)
    ensures |r| == |preds|
  {
    seq(|preds|, i requires 0 <= i < |preds| => (preds[i], labels[i]))
  }

  lemma {:induction false} SupportIs(labels: seq<int>, c: int)
    ensures Support(labels, c) == multiset(labels)[c]
  {
    if labels != [] {
      SupportIs(labels[1..], c);
      assert labels == [labels[0]] + labels[1..];
    }
  }

  lemma {:induction false} HitsAre(preds: seq<int>, labels: seq<int>, c: int)
    requires SameShape(preds, labels)
    ensures TruePositives(preds, labels, c) == multiset(Pairs(preds, labels))[(c, c)]
  {
    if preds != [] {
      HitsAre(preds[1..], labels[1..], c);
      assert Pairs(preds, labels) == [(preds[0], labels[0])] + Pairs(preds[1..], labels[1..]);
    }
  }

  lemma {:induction false} PredictedSplits(preds: seq<int>, labels: seq<int>, c: int)
    requires SameShape(preds, labels)
    ensures TruePositives(preds, labels, c) + FalsePositives(preds, labels, c) == Support(preds, c)
  {
    if preds != [] {
      PredictedSplits(preds[1..], labels[1..], c);
    }
  }

  /** `share` times n is x, and it is 0 where n is. */
  predicate ShareOf(share: real, x: real, n: nat) {
    if n == 0 then share == 0.0 else share * n as real == x
  }

  lemma ShareIs(x: real, n: nat)
    requires n > 0
    ensures ShareOf(x / n as real, x, n)
  {
  }

  /**
   The F1 of a class in plain counts: twice the samples with that prediction and that label, per sample with that
   prediction plus samples with that label; 0 where there are neither.
   */
  lemma ClassF1Is(preds: seq<int>, labels: seq<int>, c: int)
    requires SameShape(preds, labels)
    ensures var hits := multiset(Pairs(preds, labels))[(c, c)];
      ShareOf(ClassF1(preds, labels, c), 2.0 * hits as real, multiset(preds)[c] + multiset(labels)[c])
  {
    var tp, fp := TruePositives(preds, labels, c), FalsePositives(preds, labels, c);
    var fn := FalseNegatives(preds, labels, c);
    HitsAre(preds, labels, c);
    PredictedSplits(preds, labels, c);
    SupportSplits(preds, labels, c);
    SupportIs(preds, c);
    SupportIs(labels, c);
    F1ClosedForm(tp, fp, fn);
    if 2 * tp + fp + fn > 0 {
      ShareIs(2.0 * tp as real, 2 * tp + fp + fn);
    }
  }

  lemma {:induction false} ClassF1At(preds: seq<int>, labels: seq<int>, n: nat, c: nat)
    requires SameShape(preds, labels) && c < n
    ensures ClassF1s(preds, labels, n)[c] == ClassF1(preds, labels, c)
  {
    if c < n - 1 {
      ClassF1At(preds, labels, n - 1, c);
    }
  }

  /** Macro-F1 is the mean of the F1 of the classes 0 to n - 1. */
  lemma MacroF1Is(preds: seq<int>, labels: seq<int>, n: nat, f1s: seq<real>)
    requires SameShape(preds, labels) && n > 0
    requires |f1s| == n && forall c: nat :: c < n ==> f1s[c] == ClassF1(preds, labels, c)
    ensures ShareOf(MacroF1(preds, labels, n), Sum(f1s), n)
  {
    forall c: nat | c < n ensures ClassF1s(preds, labels, n)[c] == f1s[c] {
      ClassF1At(preds, labels, n, c);
    }
    assert ClassF1s(preds, labels, n) == f1s;
    ShareIs(Sum(f1s), n);
  }

  // ---- Correcting predictions ---------------------------------------------------------------------

  /** `better` differs from `preds` only in positions where it says the truth. */
  ghost predicate Corrects(preds: seq<int>, better: seq<int>, labels: seq<int>) {
    && |preds| == |better| == |labels|
    && forall i :: 0 <= i < |labels| ==> better[i] == preds[i] || better[i] == labels[i]
  }

  lemma {:induction false} CountsImprove(preds: seq<int>, better: seq<int>, labels: seq<int>, c: int)
    requires Corrects(preds, better, labels)
    ensures TruePositives(preds, labels, c) <= TruePositives(better, labels, c)
    ensures FalsePositives(better, labels, c) <= FalsePositives(preds, labels, c)
    ensures FalseNegatives(better, labels, c) <= FalseNegatives(preds, labels, c)
  {
    if preds != [] {
      CountsImprove(preds[1..], better[1..], labels[1..], c);
    }
  }

  lemma {:induction false} SumOfF1sImproves(preds: seq<int>, better: seq<int>, labels: seq<int>, n: nat)
    requires Corrects(preds, better, labels)
    ensures 0.0 <= Sum(ClassF1s(preds, labels, n)) <= Sum(ClassF1s(better, labels, n)) <= n as real
  {
    if n > 0 {
      var c := n - 1;
      SumOfF1sImproves(preds, better, labels, c);
      CountsImprove(preds, better, labels, c);
      F1Monotone(TruePositives(preds, labels, c), FalsePositives(preds, labels, c), FalseNegatives(preds, labels, c),
                 TruePositives(better, labels, c), FalsePositives(better, labels, c),
                 FalseNegatives(better, labels, c));
      F1Range(TruePositives(preds, labels, c), FalsePositives(preds, labels, c), FalseNegatives(preds, labels, c));
      F1Range(TruePositives(better, labels, c), FalsePositives(better, labels, c), FalseNegatives(better, labels, c));
      SumAppend(ClassF1s(preds, labels, c), ClassF1(preds, labels, c));
      SumAppend(ClassF1s(better, labels, c), ClassF1(better, labels, c));
    }
  }

  /** Correcting any set of wrong predictions never lowers macro-F1, which always lies in [0, 1]. */
  lemma MacroF1Improves(preds: seq<int>, better: seq<int>, labels: seq<int>, n: nat)
    requires Corrects(preds, better, labels) && n > 0
    ensures 0.0 <= MacroF1(preds, labels, n) <= MacroF1(better, labels, n) <= 1.0
  {
    SumOfF1sImproves(preds, better, labels, n);
    DivMonotone(0.0, Sum(ClassF1s(preds, labels, n)), n as real);
    DivMonotone(Sum(ClassF1s(preds, labels, n)), Sum(ClassF1s(better, labels, n)), n as real);
    DivMonotone(Sum(ClassF1s(better, labels, n)), n as real, n as real);
  }

  /** How many of the classes 0..n occur among the labels. */
  function Present(labels: seq<int>, n: nat): nat {
    if n == 0 then 0 else (if Support(labels, n - 1) > 0 then 1 else 0) + Present(labels, n - 1)
  }

  lemma {:induction false} PerfectCounts(labels: seq<int>, c: int)
    ensures TruePositives(labels, labels, c) == Support(labels, c)
    ensures FalsePositives(labels, labels, c) == 0 && FalseNegatives(labels, labels, c) == 0
  {
    if labels != [] {
      PerfectCounts(labels[1..], c);
    }
  }

  lemma {:induction false} PerfectSum(labels: seq<int>, n: nat)
    ensures Sum(ClassF1s(labels, labels, n)) == Present(labels, n) as real
  {
    if n > 0 {
      PerfectSum(labels, n - 1);
      PerfectCounts(labels, n - 1);
      F1ClosedForm(Support(labels, n - 1), 0, 0);
      SumAppend(ClassF1s(labels, labels, n - 1), ClassF1(labels, labels, n - 1));
      if Support(labels, n - 1) > 0 {
        SelfQuotient(2.0 * Support(labels, n - 1) as real);
      }
    }
  }

  /** No predictions at all can beat the fraction of classes that occur in the labels. */
  lemma MacroF1Ceiling(preds: seq<int>, labels: seq<int>, n: nat)
    requires SameShape(preds, labels) && n > 0
    ensures MacroF1(labels, labels, n) == Present(labels, n) as real / n as real
    ensures MacroF1(preds, labels, n) <= Present(labels, n) as real / n as real
  {
    PerfectSum(labels, n);
    MacroF1Improves(preds, labels, labels, n);
  }

  /** Class c is predicted perfectly: never for another label, and whenever it is the label. */
  predicate NoErrors(preds: seq<int>, labels: seq<int>, c: int)
    requires SameShape(preds, labels)
  {
    forall i :: 0 <= i < |labels| ==> (preds[i] == c <==> labels[i] == c)
  }

  lemma {:induction false} NoErrorsIff(preds: seq<int>, labels: seq<int>, c: int)
    requires SameShape(preds, labels)
    ensures FalsePositives(preds, labels, c) == 0 && FalseNegatives(preds, labels, c) == 0
       <==> NoErrors(preds, labels, c)
    ensures TruePositives(preds, labels, c) <= Support(labels, c)
  {
    if preds != [] {
      NoErrorsIff(preds[1..], labels[1..], c);
      ErrorsInRest(preds, labels, c);
    }
  }

  lemma ErrorsInRest(preds: seq<int>, labels: seq<int>, c: int)
    requires SameShape(preds, labels) && preds != []
    ensures NoErrors(preds, labels, c) <==> (preds[0] == c <==> labels[0] == c) && NoErrors(preds[1..], labels[1..], c)
  {
    if (preds[0] == c <==> labels[0] == c) && NoErrors(preds[1..], labels[1..], c) {
      forall i | 0 <= i < |labels| ensures preds[i] == c <==> labels[i] == c {
        if i > 0 {
          assert preds[i] == preds[1..][i - 1] && labels[i] == labels[1..][i - 1];
        }
      }
    }
  }

  /** What class c can score at most: 1 if it occurs among the labels, 0 otherwise. */
  function Ceiling(labels: seq<int>, c: int): real {
    if Support(labels, c) > 0 then 1.0 else 0.0
  }

  lemma BelowOne(tp: nat, fp: nat, fn: nat)
    requires tp > 0
    ensures F1(tp, fp, fn) <= 1.0 && (F1(tp, fp, fn) == 1.0 <==> fp == 0 && fn == 0)
  {
    F1ClosedForm(tp, fp, fn);
    F1Range(tp, fp, fn);
    QuotientIsOneIff(2.0 * tp as real, (2 * tp + fp + fn) as real);
  }

  lemma QuotientIsOneIff(x: real, d: real)
    requires d > 0.0
    ensures x / d == 1.0 <==> x == d
  {
    assert x / d * d == x;
  }

  lemma ClassCeiling(preds: seq<int>, labels: seq<int>, c: int)
    requires SameShape(preds, labels)
    ensures ClassF1(preds, labels, c) <= Ceiling(labels, c)
    ensures ClassF1(preds, labels, c) == Ceiling(labels, c) <==> Support(labels, c) == 0 || NoErrors(preds, labels, c)
  {
    var tp, fp := TruePositives(preds, labels, c), FalsePositives(preds, labels, c);
    var fn := FalseNegatives(preds, labels, c);
    NoErrorsIff(preds, labels, c);
    SupportSplits(preds, labels, c);
    F1ClosedForm(tp, fp, fn);
    if tp > 0 {
      BelowOne(tp, fp, fn);
    }
  }

  lemma {:induction false} SupportSplits(preds: seq<int>, labels: seq<int>, c: int)
    requires SameShape(preds, labels)
    ensures TruePositives(preds, labels, c) + FalseNegatives(preds, labels, c) == Support(labels, c)
  {
    if preds != [] {
      SupportSplits(preds[1..], labels[1..], c);
    }
  }

  predicate Perfect(preds: seq<int>, labels: seq<int>, n: nat)
    requires SameShape(preds, labels)
  {
    forall c :: 0 <= c < n && Support(labels, c) > 0 ==> NoErrors(preds, labels, c)
  }

  lemma {:induction false} SumReachesCeilingIff(preds: seq<int>, labels: seq<int>, n: nat)
    requires SameShape(preds, labels)
    ensures Sum(ClassF1s(preds, labels, n)) <= Present(labels, n) as real
    ensures Sum(ClassF1s(preds, labels, n)) == Present(labels, n) as real <==> Perfect(preds, labels, n)
  {
    if n > 0 {
      SumReachesCeilingIff(preds, labels, n - 1);
      ClassCeiling(preds, labels, n - 1);
      SumAppend(ClassF1s(preds, labels, n - 1), ClassF1(preds, labels, n - 1));
      assert Perfect(preds, labels, n) <==>
             Perfect(preds, labels, n - 1) && (Support(labels, n - 1) > 0 ==> NoErrors(preds, labels, n - 1));
    }
  }

  /** The ceiling is reached exactly when every class that occurs is predicted without error. */
  lemma CeilingReachedIff(preds: seq<int>, labels: seq<int>, n: nat)
    requires SameShape(preds, labels) && n > 0
    ensures MacroF1(preds, labels, n) == Present(labels, n) as real / n as real <==> Perfect(preds, labels, n)
  {
    SumReachesCeilingIff(preds, labels, n);
    SameQuotientIff(Sum(ClassF1s(preds, labels, n)), Present(labels, n) as real, n as real);
  }

  lemma SameQuotientIff(x: real, y: real, d: real)
    requires d > 0.0
    ensures x / d == y / d <==> x == y
  {
    assert x / d * d == x && y / d * d == y;
  }

  // ---- Top-k ----------------------------------------------------------------------------------------

  /** Each row lists all column indices once, best first. */
  ghost predicate IsRanking(ranking: seq<seq<int>>, columns: nat) {
    && (forall i :: 0 <= i < |ranking| ==> |ranking[i]| == columns)
    && (forall i, c :: 0 <= i < |ranking| && 0 <= c < columns ==> c in ranking[i])
  }

  /** `argsort` of the negated scores: the columns by falling score, equal scores in an unspecified order. */
  ghost predicate SortsDown(argsort: seq<real> -> seq<int>) {
    forall row :: BestFirst(row, argsort(row))
  }

  ghost predicate BestFirst(row: seq<real>, order: seq<int>) {
    && |order| == |row|
    && (forall p :: 0 <= p < |order| ==> 0 <= order[p] < |row|)
    && (forall p, q :: 0 <= p < q < |order| ==> order[p] != order[q] && row[order[p]] >= row[order[q]])
    && (forall c :: 0 <= c < |row| ==> c in order)
  }

  function Rankings(probs: seq<seq<real>>, argsort: seq<real> -> seq<int>): (r: seq<seq<int>>)
    ensures |r| == |probs|
  {
    seq(|probs|, i requires 0 <= i < |probs| => argsort(probs[i]))
  }

  /** The columns that score above x, and those that score at least x. */
  function Above(row: seq<real>, x: real): set<int> {
    set c | 0 <= c < |row| && row[c] > x
  }

  function AtLeast(row: seq<real>, x: real): set<int> {
    set c | 0 <= c < |row| && row[c] >= x
  }

  lemma {:induction false} PrefixSet(order: seq<int>, k: nat)
    requires k <= |order| && forall p, q :: 0 <= p < q < |order| ==> order[p] != order[q]
    ensures |set p | 0 <= p < k :: order[p]| == k
  {
    var s := set p | 0 <= p < k :: order[p];
    if k == 0 {
      assert s == {};
    } else {
      var before := set p | 0 <= p < k - 1 :: order[p];
      PrefixSet(order, k - 1);
      assert s == before + {order[k - 1]};
      assert order[k - 1] !in before;
    }
  }

  /**
   What being in the top k means, whichever way equal scores are ordered: in it fewer than k columns score
   higher, and a column that at most k columns match or beat is in it.
   */
  lemma TopKMeaning(row: seq<real>, order: seq<int>, k: nat, c: int)
    requires BestFirst(row, order) && 0 <= c < |row| && k <= |row|
    ensures c in order[..k] ==> |(set d | 0 <= d < |row| && row[d] > row[c])| < k
    ensures |(set d | 0 <= d < |row| && row[d] >= row[c])| <= k ==> c in order[..k]
  {
    TopKBySets(row, order, k, c);
    var x := row[c];
    assert Above(row, x) == set d | 0 <= d < |row| && row[d] > row[c];
    assert AtLeast(row, x) == set d | 0 <= d < |row| && row[d] >= row[c];
  }

  lemma TopKBySets(row: seq<real>, order: seq<int>, k: nat, c: int)
    requires BestFirst(row, order) && 0 <= c < |row| && k <= |row|
    ensures c in order[..k] ==> |Above(row, row[c])| < k
    ensures |AtLeast(row, row[c])| <= k ==> c in order[..k]
  {
    assert c in order;
    var m :| 0 <= m < |order| && order[m] == c;
    if m < k {
      forall d | d in Above(row, row[c]) ensures d in set p | 0 <= p < m :: order[p] {
        assert d in order;
        var p :| 0 <= p < |order| && order[p] == d;
        assert p < m;
      }
      PrefixSet(order, m);
      SubsetSize(Above(row, row[c]), set p | 0 <= p < m :: order[p]);
      assert order[..k][m] == c;
    } else {
      forall d | d in set p | 0 <= p < m + 1 :: order[p] ensures d in AtLeast(row, row[c]) {
      }
      PrefixSet(order, m + 1);
      SubsetSize(set p | 0 <= p < m + 1 :: order[p], AtLeast(row, row[c]));
    }
  }

  function TopK(ranking: seq<seq<int>>, labels: seq<int>, k: nat): (r: seq<int>)
    requires |ranking| == |labels| && 1 <= k && forall i :: 0 <= i < |ranking| ==> k <= |ranking[i]|
    ensures |r| == |labels|
  {
    seq(|labels|, i requires 0 <= i < |labels| =>
      if labels[i] in ranking[i][..k] then labels[i] else ranking[i][0])
  }

  /**
   The corrected prediction of a row: the label, if at most k columns match or beat it, and otherwise the label or a
   column of largest score; and the label only if it is such a column or fewer than k columns beat it.
   */
  lemma TopKIs(row: seq<real>, order: seq<int>, truth: int, k: nat)
    requires BestFirst(row, order) && 1 <= k <= |row|
    ensures var p := TopK([order], [truth], k)[0];
      && (p == truth || (0 <= p < |row| && forall d :: 0 <= d < |row| ==> row[d] <= row[p]))
      && (0 <= truth < |row| && |(set d | 0 <= d < |row| && row[d] >= row[truth])| <= k ==> p == truth)
      && (p == truth ==>
            && 0 <= truth < |row|
            && ((forall d :: 0 <= d < |row| ==> row[d] <= row[truth])
                || |(set d | 0 <= d < |row| && row[d] > row[truth])| < k))
  {
    forall d | 0 <= d < |row| ensures row[d] <= row[order[0]] {
      assert d in order;
    }
    if 0 <= truth < |row| {
      TopKMeaning(row, order, k, truth);
    }
  }

  lemma RankingsRank(probs: seq<seq<real>>, argsort: seq<real> -> seq<int>, columns: nat)
    requires SortsDown(argsort) && forall i :: 0 <= i < |probs| ==> |probs[i]| == columns
    ensures IsRanking(Rankings(probs, argsort), columns)
  {
    forall i | 0 <= i < |probs|
      ensures |Rankings(probs, argsort)[i]| == columns
      ensures forall c :: 0 <= c < columns ==> c in Rankings(probs, argsort)[i]
    {
      assert BestFirst(probs[i], argsort(probs[i]));
    }
  }

  method ComputeTopKMacroF1(probs: seq<seq<real>>, labels: seq<int>, k: int, columns: nat, nClasses: int,
                            argsort: seq<real> -> seq<int>)
    returns (r: Result<real>)
    requires SortsDown(argsort) && forall i :: 0 <= i < |probs| ==> |probs[i]| == columns
    ensures IsRanking(Rankings(probs, argsort), columns)
    ensures r.Ok? <==> 1 <= k <= columns && |probs| == |labels| && nClasses >= 1
    ensures r.Ok? ==> r.value == MacroF1(TopK(Rankings(probs, argsort), labels, k), labels, nClasses)
  {
    RankingsRank(probs, argsort, columns);
    if k < 1 || k > columns {
      return Err("k must be in [1, n_classes]");
    }
    if |probs| != |labels| || nClasses < 1 {
      return Err("shape mismatch");
    }
    var ranking := Rankings(probs, argsort);
    var preds := new int[|labels|](i requires 0 <= i < |labels| => ranking[i][0]);
    for i := 0 to |labels|
      invariant forall j :: 0 <= j < i ==> preds[j] == TopK(ranking, labels, k)[j]
      invariant forall j :: i <= j < |labels| ==> preds[j] == ranking[j][0]
    {
      if labels[i] in ranking[i][..k] {
        preds[i] := labels[i];
      }
    }
    assert preds[..] == TopK(ranking, labels, k);
    r := ComputeMacroF1(preds[..], labels, nClasses);
  }

  /** For one fixed ranking a larger k never lowers the score, and k = 1 scores the first choices. */
  lemma TopKMonotone(ranking: seq<seq<int>>, labels: seq<int>, k: nat, k': nat, columns: nat, n: nat)
    requires IsRanking(ranking, columns) && |ranking| == |labels| && 1 <= k <= k' <= columns && n > 0
    ensures 0.0 <= MacroF1(TopK(ranking, labels, k), labels, n)
         <= MacroF1(TopK(ranking, labels, k'), labels, n) <= 1.0
    ensures forall i :: 0 <= i < |labels| ==> TopK(ranking, labels, 1)[i] == ranking[i][0]
  {
    forall i | 0 <= i < |labels|
      ensures labels[i] in ranking[i][..k] ==> labels[i] in ranking[i][..k']
    {
      assert ranking[i][..k] == ranking[i][..k'][..k];
    }
    MacroF1Improves(TopK(ranking, labels, k), TopK(ranking, labels, k'), labels, n);
  }

  /**
   With every column allowed the score is the fraction of classes that occur in the labels, exactly when no
   occurring class suffers: a label that is no column must be no class either, and its row's first choice must
   not be an occurring class.
   */
  lemma TopKFullIff(ranking: seq<seq<int>>, labels: seq<int>, columns: nat, n: nat)
    requires IsRanking(ranking, columns) && |ranking| == |labels| && 1 <= columns && n > 0
    ensures MacroF1(TopK(ranking, labels, columns), labels, n) == Present(labels, n) as real / n as real <==>
      forall i :: 0 <= i < |labels| && labels[i] !in ranking[i] ==>
        !Occurs(labels, n, labels[i]) && !Occurs(labels, n, ranking[i][0])
  {
    var preds := TopK(ranking, labels, columns);
    forall i | 0 <= i < |labels| ensures preds[i] == if labels[i] in ranking[i] then labels[i] else ranking[i][0] {
      assert ranking[i][..columns] == ranking[i];
    }
    CeilingReachedIff(preds, labels, n);
    if Perfect(preds, labels, n) {
      forall i | 0 <= i < |labels| && labels[i] !in ranking[i]
        ensures !Occurs(labels, n, labels[i]) && !Occurs(labels, n, ranking[i][0])
      {
        assert preds[i] != labels[i];
      }
    }
    if forall i :: 0 <= i < |labels| && labels[i] !in ranking[i] ==>
         !Occurs(labels, n, labels[i]) && !Occurs(labels, n, ranking[i][0]) {
      forall c | 0 <= c < n && Support(labels, c) > 0 ensures NoErrors(preds, labels, c) {
        assert Occurs(labels, n, c);
      }
    }
  }

  predicate Occurs(labels: seq<int>, n: nat, c: int) {
    0 <= c < n && Support(labels, c) > 0
  }

  /** In particular when all labels are columns. */
  lemma TopKFull(ranking: seq<seq<int>>, labels: seq<int>, columns: nat, n: nat)
    requires IsRanking(ranking, columns) && |ranking| == |labels| && 1 <= columns && n > 0
    requires forall i :: 0 <= i < |labels| ==> 0 <= labels[i] < columns
    ensures MacroF1(TopK(ranking, labels, columns), labels, n) == Present(labels, n) as real / n as real
  {
    TopKFullIff(ranking, labels, columns, n);
  }

  // ---- Recall -----------------------------------------------------------------------------------------

  function RecallOf(preds: seq<int>, labels: seq<int>, c: int): real
    requires SameShape(preds, labels)
  {
    if Support(labels, c) == 0 then 0.0
    else TruePositives(preds, labels, c) as real / Support(labels, c) as real
  }

  /** Recall in plain counts: the samples with that prediction and that label, per sample with that label. */
  lemma RecallIs(preds: seq<int>, labels: seq<int>, c: int)
    requires SameShape(preds, labels)
    ensures Support(labels, c) == multiset(labels)[c]
    ensures ShareOf(RecallOf(preds, labels, c), multiset(Pairs(preds, labels))[(c, c)] as real, multiset(labels)[c])
  {
    HitsAre(preds, labels, c);
    SupportIs(labels, c);
    if Support(labels, c) > 0 {
      ShareIs(TruePositives(preds, labels, c) as real, Support(labels, c));
    }
  }

  method PerClassRecall(preds: seq<int>, labels: seq<int>, nClasses: int)
    returns (r: Result<(seq<real>, seq<nat>)>)
    ensures r.Ok? <==> SameShape(preds, labels) && nClasses >= 1
    ensures r.Ok? ==>
      && |r.value.0| == nClasses && |r.value.1| == nClasses
      && forall c :: 0 <= c < nClasses ==>
           r.value.0[c] == RecallOf(preds, labels, c) && r.value.1[c] == Support(labels, c)
  {
    if |preds| != |labels| {
      return Err("preds and labels must have the same shape");
    }
    if nClasses < 1 {
      return Err("n_classes must be >= 1");
    }
    var recall := new real[nClasses](_ => 0.0);
    var support := new nat[nClasses](_ => 0);
    for c := 0 to nClasses
      invariant forall d :: 0 <= d < c ==> recall[d] == RecallOf(preds, labels, d) && support[d] == Support(labels, d)
      invariant forall d :: c <= d < nClasses ==> recall[d] == 0.0 && support[d] == 0
    {
      var nc := Support(labels, c);
      support[c] := nc;
      if nc == 0 {
        continue;
      }
      var tp := TruePositives(preds, labels, c);
      recall[c] := tp as real / nc as real;
    }
    r := Ok((recall[..], support[..]));
  }

  /** Correct predictions whose class is one of 0..n. */
  function Correct(preds: seq<int>, labels: seq<int>, n: nat): nat
    requires SameShape(preds, labels)
  {
    if preds == [] then 0
    else (if preds[0] == labels[0] && 0 <= labels[0] < n then 1 else 0) + Correct(preds[1..], labels[1..], n)
  }

  function Weighted(support: nat, recall: real): real {
    support as real * recall
  }

  function RecalledTotal(preds: seq<int>, labels: seq<int>, n: nat): real
    requires SameShape(preds, labels)
  {
    if n == 0 then 0.0
    else RecalledTotal(preds, labels, n - 1) + Weighted(Support(labels, n - 1), RecallOf(preds, labels, n - 1))
  }

  lemma {:induction false} SupportCoversHits(preds: seq<int>, labels: seq<int>, c: int)
    requires SameShape(preds, labels)
    ensures TruePositives(preds, labels, c) <= Support(labels, c)
  {
    if preds != [] {
      SupportCoversHits(preds[1..], labels[1..], c);
    }
  }

  lemma {:induction false} CorrectGrows(preds: seq<int>, labels: seq<int>, n: nat)
    requires SameShape(preds, labels)
    ensures Correct(preds, labels, n + 1) == Correct(preds, labels, n) + TruePositives(preds, labels, n)
  {
    if preds != [] {
      CorrectGrows(preds[1..], labels[1..], n);
    }
  }

  lemma {:induction false} NoClasses(preds: seq<int>, labels: seq<int>)
    requires SameShape(preds, labels)
    ensures Correct(preds, labels, 0) == 0
  {
    if preds != [] {
      NoClasses(preds[1..], labels[1..]);
    }
  }

  /** The per-class table loses nothing: recall weighted by support adds up to the correct predictions. */
  lemma {:induction false} RecallAccountsForCorrect(preds: seq<int>, labels: seq<int>, n: nat)
    requires SameShape(preds, labels)
    ensures RecalledTotal(preds, labels, n) == Correct(preds, labels, n) as real
  {
    if n == 0 {
      NoClasses(preds, labels);
    } else {
      RecallAccountsForCorrect(preds, labels, n - 1);
      CorrectGrows(preds, labels, n - 1);
      SupportTimesRecall(preds, labels, n - 1);
    }
  }

  lemma SupportTimesRecall(preds: seq<int>, labels: seq<int>, c: int)
    requires SameShape(preds, labels)
    ensures Weighted(Support(labels, c), RecallOf(preds, labels, c)) == TruePositives(preds, labels, c) as real
  {
    SupportCoversHits(preds, labels, c);
    Requotient(TruePositives(preds, labels, c) as real, Support(labels, c) as real);
  }

  lemma Requotient(x: real, d: real)
    ensures d != 0.0 ==> d * (x / d) == x
    ensures d == 0.0 ==> d * 0.0 == 0.0
  {
  }
}
