/** Small numeric vocabulary shared by the evaluation and inference models. */
module Numerics {

  datatype Result<+T> = Ok(value: T) | Err(reason: string)

  datatype Option<+T> = None | Some(value: T)

  function Abs(x: real): real {
    if x < 0.0 then -x else x
  }

  function Max(x: int, y: int): int {
    if x < y then y else x
  }

  function Min(x: int, y: int): int {
    if x < y then x else y
  }

  function Ceil(x: real): int {
    -((-x).Floor)
  }

  /** Python's `round` on a float: nearest integer, halves to the even neighbour. */
  function Round(x: real): int {
    var below := x.Floor;
    var part := x - below as real;
    if part < 0.5 then below
    else if part > 0.5 then below + 1
    else if below % 2 == 0 then below else below + 1
  }

  /** A nearest integer, and of two equally near ones the even one. */
  lemma RoundIs(x: real)
    ensures -0.5 <= x - Round(x) as real <= 0.5
    ensures x - Round(x) as real == 0.5 || x - Round(x) as real == -0.5 ==> Round(x) % 2 == 0
  {
  }

  lemma CeilIs(x: real)
    ensures (Ceil(x) - 1) as real < x <= Ceil(x) as real
  {
  }

  function Sum(s: seq<real>): real {
    if s == [] then 0.0 else s[0] + Sum(s[1..])
  }

  function Mean(s: seq<real>): real
    requires s != []
  {
    Sum(s) / |s| as real
  }

  /** More items than holes: two items share a hole. */
  lemma {:induction false} Pigeonhole(holes: nat, assignment: seq<nat>) returns (i: nat, j: nat)
    requires |assignment| > holes
    requires forall x :: 0 <= x < |assignment| ==> assignment[x] < holes
    ensures i < j < |assignment| && assignment[i] == assignment[j]
  {
    var last := |assignment| - 1;
    if k :| 0 <= k < last && assignment[k] == assignment[last] {
      i, j := k, last;
    } else {
      var top := assignment[last];
      var rest := seq(last, x requires 0 <= x < last =>
        if assignment[x] == holes - 1 then top else assignment[x]);
      i, j := Pigeonhole(holes - 1, rest);
    }
  }

  /** `numpy.argmax`: the first position of the largest value. */
  function ArgMax(p: seq<real>): (r: nat)
    requires p != []
    ensures r < |p|
    ensures forall j :: 0 <= j < |p| ==> p[j] <= p[r]
    ensures forall j :: 0 <= j < r ==> p[j] < p[r]
  {
    if |p| == 1 then 0 else
      var last := |p| - 1;
      var m := ArgMax(p[..last]);
      if p[last] > p[m] then last else m
  }

  lemma {:induction false} SumAppend(s: seq<real>, x: real)
    ensures Sum(s + [x]) == Sum(s) + x
  {
    if s == [] {
      assert [x][1..] == [];
    } else {
      assert (s + [x])[1..] == s[1..] + [x];
      SumAppend(s[1..], x);
    }
  }

  /** Dividing by a positive number preserves order. */
  lemma DivMonotone(x: real, y: real, d: real)
    requires d > 0.0 && x <= y
    ensures x / d <= y / d
  {
    assert y / d - x / d == (y - x) / d;
  }

  lemma CrossDivide(x: real, c: real, y: real, d: real)
    requires c > 0.0 && d > 0.0 && x * d == y * c
    ensures x / c == y / d
  {
    var q := x / c;
    assert q * c == x;
    assert (q * d - y) * c == 0.0;
    assert q * d == y;
  }

  /** F1 is the harmonic mean of precision tp/a and recall tp/b, and has a closed form. */
  lemma HarmonicMean(tp: real, a: real, b: real)
    requires tp > 0.0 && a > 0.0 && b > 0.0
    ensures tp / a + tp / b > 0.0
    ensures 2.0 * (tp / a) * (tp / b) / (tp / a + tp / b) == 2.0 * tp / (a + b)
  {
    var p, r := tp / a, tp / b;
    PositiveQuotient(tp, a);
    PositiveQuotient(tp, b);
    HarmonicProduct(tp, a, b, p, r);
    CrossDivide(2.0 * p * r, p + r, 2.0 * tp, a + b);
  }

  lemma HarmonicProduct(tp: real, a: real, b: real, p: real, r: real)
    requires p * a == tp && r * b == tp
    ensures 2.0 * p * r * (a + b) == 2.0 * tp * (p + r)
  {
    var x, y := p * r * a, p * r * b;
    assert x == r * (p * a);
    assert y == p * (r * b);
    assert 2.0 * p * r * (a + b) == 2.0 * x + 2.0 * y;
  }

  lemma PositiveQuotient(x: real, d: real)
    requires x > 0.0 && d > 0.0
    ensures x / d > 0.0 && x / d * d == x
  {
    var q := x / d;
    assert q * d == x;
    if q <= 0.0 {
      MulMonotone(q, 0.0, d);
    }
  }

  lemma MulStrict(x: real, y: real, k: real)
    requires k > 0.0 && x < y
    ensures x * k < y * k
  {
    assert (y - x) * k > 0.0;
  }

  lemma MulMonotone(x: real, y: real, k: real)
    requires k >= 0.0 && x <= y
    ensures x * k <= y * k
  {
    assert (y - x) * k >= 0.0;
  }

  // ---- Quotients ------------------------------------------------------------------------------------

  lemma ZeroOver(d: real)
    requires d != 0.0
    ensures 0.0 / d == 0.0
  {
  }

  lemma SelfQuotient(d: real)
    requires d != 0.0
    ensures d / d == 1.0
  {
  }

  lemma CancelProduct(x: real, d: real)
    requires d > 0.0
    ensures x * d / d == x
  {
  }

  lemma NonZeroQuotient(x: real, d: real)
    requires x != 0.0 && d > 0.0
    ensures x / d != 0.0
  {
    assert x / d * d == x;
  }

  lemma SubsetSize<T>(a: set<T>, b: set<T>)
    requires a <= b
    ensures |a| <= |b|
  {
    assert b == a + (b - a);
  }
}
