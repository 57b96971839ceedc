/** Finite sums of a function over an integer range, and the Cauchy-Schwarz inequality. */
module RangeSums {
  import opened Numerics

  function SumRange(f: int -> real, lo: int, hi: int): real
    decreases hi - lo
  {
    if hi <= lo then 0.0 else SumRange(f, lo, hi - 1) + f(hi - 1)
  }

  /** A sum only depends on the values, and may be re-indexed by a shift. */
  lemma {:induction false} SumShift(f: int -> real, g: int -> real, lo: int, hi: int, s: int)
    requires forall i :: lo <= i < hi ==> g(i) == f(i + s)
    ensures SumRange(g, lo, hi) == SumRange(f, lo + s, hi + s)
    decreases hi - lo
  {
    if lo < hi {
      SumShift(f, g, lo, hi - 1, s);
    }
  }

  lemma {:induction false} SumSplit(f: int -> real, lo: int, mid: int, hi: int)
    requires lo <= mid <= hi
    ensures SumRange(f, lo, hi) == SumRange(f, lo, mid) + SumRange(f, mid, hi)
    decreases hi - mid
  {
    if mid < hi {
      SumSplit(f, lo, mid, hi - 1);
    }
  }

  lemma {:induction false} SumZero(f: int -> real, lo: int, hi: int)
    requires forall i :: lo <= i < hi ==> f(i) == 0.0
    ensures SumRange(f, lo, hi) == 0.0
    decreases hi - lo
  {
    if lo < hi {
      SumZero(f, lo, hi - 1);
    }
  }

  lemma {:induction false} SumScale(f: int -> real, h: int -> real, c: real, lo: int, hi: int)
    requires forall i :: lo <= i < hi ==> h(i) == c * f(i)
    ensures SumRange(h, lo, hi) == c * SumRange(f, lo, hi)
    decreases hi - lo
  {
    if lo < hi {
      SumScale(f, h, c, lo, hi - 1);
      var s, x := SumRange(f, lo, hi - 1), f(hi - 1);
      assert c * (s + x) == c * s + c * x;
    }
  }

  lemma {:induction false} SumNonNegative(f: int -> real, lo: int, hi: int)
    requires forall i :: lo <= i < hi ==> f(i) >= 0.0
    ensures SumRange(f, lo, hi) >= 0.0
    ensures forall i :: lo <= i < hi ==> f(i) <= SumRange(f, lo, hi)
    decreases hi - lo
  {
    if lo < hi {
      SumNonNegative(f, lo, hi - 1);
    }
  }

  /** Terms that vanish outside [0, n) do not see how far the range extends. */
  lemma SumSupport(f: int -> real, n: nat, lo: int, hi: int)
    requires lo <= 0 && n <= hi
    requires forall i :: lo <= i < 0 || n <= i < hi ==> f(i) == 0.0
    ensures SumRange(f, lo, hi) == SumRange(f, 0, n)
  {
    SumSplit(f, lo, 0, hi);
    SumSplit(f, 0, n, hi);
    SumZero(f, lo, 0);
    SumZero(f, n, hi);
  }

  function Times(f: int -> real, g: int -> real): int -> real {
    i => f(i) * g(i)
  }

  function Quadratic(u: real, s: real, v: real, t: real): real {
    u + 2.0 * t * s + t * t * v
  }

  function Combination(f: int -> real, g: int -> real, t: real): int -> real {
    i => f(i) + t * g(i)
  }

  lemma {:induction false} SumCombination(f: int -> real, g: int -> real, h: int -> real, t: real, lo: int, hi: int)
    requires forall i :: lo <= i < hi ==> h(i) == Combination(f, g, t)(i)
    ensures SumRange(h, lo, hi) == SumRange(f, lo, hi) + t * SumRange(g, lo, hi)
    decreases hi - lo
  {
    if lo < hi {
      SumCombination(f, g, h, t, lo, hi - 1);
      var s, x := SumRange(g, lo, hi - 1), g(hi - 1);
      assert t * (s + x) == t * s + t * x;
    }
  }

  lemma ExpandSquare(x: real, y: real, t: real)
    ensures (x + t * y) * (x + t * y) == x * x + 2.0 * t * (x * y) + t * t * (y * y)
  {
    var z := t * y;
    assert (x + z) * (x + z) == x * x + 2.0 * (x * z) + z * z;
    assert x * z == t * (x * y);
    assert z * z == t * t * (y * y);
  }

  /** The energy of f + t g, expanded into the three energies. */
  lemma SquaresExpand(f: int -> real, g: int -> real, t: real, lo: int, hi: int)
    ensures SumRange(Times(Combination(f, g, t), Combination(f, g, t)), lo, hi)
         == Quadratic(SumRange(Times(f, f), lo, hi), SumRange(Times(f, g), lo, hi), SumRange(Times(g, g), lo, hi), t)
  {
    var h := Combination(f, g, t);
    var part := Combination(Times(f, f), Times(f, g), 2.0 * t);
    forall i ensures Times(h, h)(i) == Combination(part, Times(g, g), t * t)(i) {
      ExpandSquare(f(i), g(i), t);
    }
    SumCombination(Times(f, f), Times(f, g), part, 2.0 * t, lo, hi);
    SumCombination(part, Times(g, g), Times(h, h), t * t, lo, hi);
  }

  /** Energies are non-negative, and positive as soon as one value is not zero. */
  lemma {:induction false} EnergyNonNegative(f: int -> real, lo: int, hi: int)
    ensures 0.0 <= SumRange(Times(f, f), lo, hi)
    decreases hi - lo
  {
    if lo < hi {
      EnergyNonNegative(f, lo, hi - 1);
      assert Times(f, f)(hi - 1) == Square(f(hi - 1));
    }
  }

  lemma {:induction false} EnergyPositive(f: int -> real, lo: int, hi: int, i: int)
    requires lo <= i < hi && f(i) != 0.0
    ensures 0.0 < SumRange(Times(f, f), lo, hi)
    decreases hi - lo
  {
    var x, e := f(hi - 1), SumRange(Times(f, f), lo, hi - 1);
    assert SumRange(Times(f, f), lo, hi) == e + Square(x);
    EnergyNonNegative(f, lo, hi - 1);
    if i < hi - 1 {
      EnergyPositive(f, lo, hi - 1, i);
    }
  }

  function Square(x: real): (r: real)
    ensures 0.0 <= r
    ensures x != 0.0 ==> 0.0 < r
  {
    SquareSign(x, x * x);
    x * x
  }

  lemma ProductSign(x: real, y: real, r: real)
    requires r == x * y && 0.0 < x && 0.0 < y
    ensures 0.0 < r
  {
  }

  lemma SquareSign(x: real, r: real)
    requires r == x * x
    ensures 0.0 <= r
    ensures x != 0.0 ==> 0.0 < r
  {
    if x > 0.0 {
      ProductSign(x, x, r);
    } else if x < 0.0 {
      ProductSign(-x, -x, r);
    }
  }

  lemma SquaresOfCombination(f: int -> real, g: int -> real, t: real, lo: int, hi: int)
    ensures 0.0 <= Quadratic(SumRange(Times(f, f), lo, hi), SumRange(Times(f, g), lo, hi),
                             SumRange(Times(g, g), lo, hi), t)
  {
    EnergyNonNegative(Combination(f, g, t), lo, hi);
    SquaresExpand(f, g, t, lo, hi);
  }

  lemma SquaresOrder(x: real, y: real)
    requires 0.0 <= x < y
    ensures x * x < y * y
  {
    assert (y - x) * x >= 0.0;
    assert (y - x) * y > 0.0;
    assert (y - x) * x == y * x - x * x && (y - x) * y == y * y - x * y;
  }

  lemma DiscriminantBound(u: real, s: real, v: real)
    requires v > 0.0 && 0.0 <= Quadratic(u, s, v, -s / v)
    ensures s * s <= u * v
  {
    var t := -s / v;
    assert t * v == -s;
    assert t * t * v == t * (t * v) == t * -s;
    assert 0.0 <= u + t * s;
    MulMonotone(0.0, u + t * s, v);
    assert (u + t * s) * v == u * v + (t * v) * s;
  }

  lemma CrossTermDominates(u: real, s: real, t: real)
    requires s != 0.0 && t == -(u + 1.0) / (2.0 * s)
    ensures Quadratic(u, s, 0.0, t) == -1.0
  {
    assert t * (2.0 * s) == -(u + 1.0);
    assert 2.0 * t * s == t * (2.0 * s);
  }

  lemma CauchySchwarz(f: int -> real, g: int -> real, lo: int, hi: int)
    ensures SumRange(Times(f, g), lo, hi) * SumRange(Times(f, g), lo, hi)
         <= SumRange(Times(f, f), lo, hi) * SumRange(Times(g, g), lo, hi)
  {
    var u, s, v := SumRange(Times(f, f), lo, hi), SumRange(Times(f, g), lo, hi), SumRange(Times(g, g), lo, hi);
    EnergyNonNegative(g, lo, hi);
    if v > 0.0 {
      SquaresOfCombination(f, g, -s / v, lo, hi);
      DiscriminantBound(u, s, v);
    } else if s != 0.0 {
      var t := -(u + 1.0) / (2.0 * s);
      SquaresOfCombination(f, g, t, lo, hi);
      CrossTermDominates(u, s, t);
    }
  }
}
