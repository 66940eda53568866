/** Products summed column by column: what product scanning adds up, and why the columns
    make the whole product. */
module Columns {
  import opened Basics
  import opened Limbs

  /** Limb i, zero outside the number. */
  function At(s: seq<u64>, i: int): u64 {
    if 0 <= i < |s| then s[i] else 0
  }

  /** The part of column i whose left factor is one of limbs lo..hi. */
  function Dot(x: seq<u64>, y: seq<u64>, lo: int, hi: int, i: int): (d: int)
    decreases hi - lo
  {
    if hi <= lo then 0 else Dot(x, y, lo, hi - 1, i) + At(x, hi - 1) * At(y, i - (hi - 1))
  }

  function Column(x: seq<u64>, y: seq<u64>, i: int): int {
    Dot(x, y, 0, |x|, i)
  }

  /** Columns 0..n with their weights. */
  function ColumnSum(x: seq<u64>, y: seq<u64>, n: nat): int {
    if n == 0 then 0 else ColumnSum(x, y, n - 1) + Column(x, y, n - 1) * Weight(n - 1)
  }

  lemma {:induction false} DotBound(x: seq<u64>, y: seq<u64>, lo: int, hi: int, i: int)
    requires lo <= hi
    ensures 0 <= Dot(x, y, lo, hi, i) <= (hi - lo) * SQUARE
    decreases hi - lo
  {
    if lo < hi {
      DotBound(x, y, lo, hi - 1, i);
      ProductBound(At(x, hi - 1), At(y, i - (hi - 1)));
    }
  }

  /** A column has at most 64 products, whatever the key size. */
  lemma DotFits(x: seq<u64>, y: seq<u64>, lo: int, hi: int, i: int)
    requires lo <= hi <= lo + 64
    ensures 0 <= Dot(x, y, lo, hi, i) <= 64 * SQUARE
  {
    DotBound(x, y, lo, hi, i);
    MulMono(hi - lo, 64, SQUARE);
  }

  lemma {:induction false} DotSplit(x: seq<u64>, y: seq<u64>, lo: int, mid: int, hi: int, i: int)
    requires lo <= mid <= hi
    ensures Dot(x, y, lo, hi, i) == Dot(x, y, lo, mid, i) + Dot(x, y, mid, hi, i)
    decreases hi - mid
  {
    if mid < hi {
      DotSplit(x, y, lo, mid, hi - 1, i);
    }
  }

  /** Terms whose right factor lies outside y vanish. */
  lemma {:induction false} DotOutside(x: seq<u64>, y: seq<u64>, lo: int, hi: int, i: int)
    requires forall j :: lo <= j < hi ==> At(x, j) == 0 || At(y, i - j) == 0
    ensures Dot(x, y, lo, hi, i) == 0
    decreases hi - lo
  {
    if lo < hi {
      DotOutside(x, y, lo, hi - 1, i);
      var j := hi - 1;
      assert At(x, j) * At(y, i - j) == 0;
    }
  }

  /** Only the limbs of x in range matter. */
  lemma {:induction false} DotSame(x: seq<u64>, x': seq<u64>, y: seq<u64>, lo: int, hi: int, i: int)
    requires forall j :: lo <= j < hi ==> At(x, j) == At(x', j)
    ensures Dot(x, y, lo, hi, i) == Dot(x', y, lo, hi, i)
    decreases hi - lo
  {
    if lo < hi {
      DotSame(x, x', y, lo, hi - 1, i);
      assert At(x, hi - 1) == At(x', hi - 1);
    }
  }

  /** Column i of a k-limb product in the range its indices stay inside: what the loops
      of viltrum_mont_k walk. */
  lemma ColumnRange(x: seq<u64>, y: seq<u64>, lo: int, hi: int, i: int)
    requires 0 <= lo <= hi <= |x|
    requires lo == 0 || i - lo + 1 >= |y|
    requires hi == |x| || i < hi
    ensures Column(x, y, i) == Dot(x, y, lo, hi, i)
  {
    DotSplit(x, y, 0, lo, |x|, i);
    DotSplit(x, y, lo, hi, |x|, i);
    DotOutside(x, y, 0, lo, i);
    DotOutside(x, y, hi, |x|, i);
  }

  lemma ColumnPush(x: seq<u64>, v: u64, y: seq<u64>, i: int)
    ensures Column(x + [v], y, i) == Column(x, y, i) + v * At(y, i - |x|)
  {
    DotSame(x + [v], x, y, 0, |x|, i);
  }

  /** A column below a new limb does not see it. */
  lemma {:induction false} ColumnSumPush(x: seq<u64>, v: u64, y: seq<u64>, n: nat)
    requires n <= |x|
    ensures ColumnSum(x + [v], y, n) == ColumnSum(x, y, n)
  {
    if n != 0 {
      ColumnSumPush(x, v, y, n - 1);
      ColumnPush(x, v, y, n - 1);
      assert v * At(y, n - 1 - |x|) == 0;
    }
  }

  /** y shifted up n limbs, cut at limb hi. */
  function ShiftSum(y: seq<u64>, n: nat, hi: nat): int {
    if hi == 0 then 0 else ShiftSum(y, n, hi - 1) + At(y, hi - 1 - n) * Weight(hi - 1)
  }

  lemma {:induction false} ShiftSumIs(y: seq<u64>, n: nat, hi: nat)
    ensures ShiftSum(y, n, hi) == Weight(n) * Val(y[..Clamp(hi - n, |y|)])
  {
    if hi == 0 {
      assert y[..0] == [];
    } else {
      ShiftSumIs(y, n, hi - 1);
      var j := hi - 1 - n;
      if 0 <= j < |y| {
        ValTake(y, j);
        WeightAdd(n, j);
        assert Weight(hi - 1) == Weight(n) * Weight(j);
        Regroup(Weight(n), Val(y[..j]), y[j], Weight(j));
      }
    }
  }

  function Clamp(x: int, hi: nat): (r: nat)
    ensures r <= hi
  {
    if x < 0 then 0 else if x > hi then hi else x
  }

  lemma Regroup(w: int, v: int, y: int, u: int)
    ensures w * (v + y * u) == w * v + y * (w * u)
  {
    assert w * (y * u) == y * (w * u);
  }

  lemma {:induction false} ColumnSumExtend(x: seq<u64>, v: u64, y: seq<u64>, n: nat)
    ensures ColumnSum(x + [v], y, n) == ColumnSum(x, y, n) + v * ShiftSum(y, |x|, n)
  {
    if n != 0 {
      ColumnSumExtend(x, v, y, n - 1);
      ColumnPush(x, v, y, n - 1);
      var a, w, c, s := At(y, n - 1 - |x|), Weight(n - 1), Column(x, y, n - 1), ShiftSum(y, |x|, n - 1);
      var whole, part, wide := ColumnSum(x + [v], y, n - 1), ColumnSum(x, y, n - 1), Column(x + [v], y, n - 1);
      assert wide == c + v * a;
      calc {
        ColumnSum(x + [v], y, n);
        whole + wide * w;
        part + v * s + (c + v * a) * w;
        { Spread(c, v, a, w, s); }
        part + c * w + v * (s + a * w);
      }
    }
  }

  lemma Spread(c: int, v: int, a: int, w: int, s: int)
    ensures (c + v * a) * w + v * s == c * w + v * (s + a * w)
  {
    assert (v * a) * w == v * (a * w);
  }

  /** The columns add up to the product. */
  lemma {:induction false} ColumnSumIsProduct(x: seq<u64>, y: seq<u64>, n: nat)
    requires n + 1 >= |x| + |y|
    ensures ColumnSum(x, y, n) == Val(x) * Val(y)
  {
    if x == [] {
      EmptyColumns(y, n);
    } else {
      var m := |x| - 1;
      var x', v := x[..m], x[m];
      assert x == x' + [v];
      ColumnSumIsProduct(x', y, n);
      ColumnSumExtend(x', v, y, n);
      ShiftSumIs(y, m, n);
      assert y[..Clamp(n - m, |y|)] == y;
      assert Val(x) == Val(x') + v * Weight(m);
      Gather(Val(x'), v, Weight(m), Val(y));
    }
  }

  lemma Gather(a: int, v: int, w: int, b: int)
    ensures a * b + v * (w * b) == (a + v * w) * b
  {
    assert v * (w * b) == (v * w) * b;
  }

  lemma {:induction false} EmptyColumns(y: seq<u64>, n: nat)
    ensures ColumnSum([], y, n) == 0
  {
    if n != 0 {
      EmptyColumns(y, n - 1);
    }
  }

  /** A square's column folded about its middle: each cross product once, doubled. */
  lemma {:induction false} FoldColumn(x: seq<u64>, lo: int, j: int, i: int)
    requires lo <= j && 2 * j <= i + 1
    ensures Dot(x, x, lo, i - lo + 1, i) == 2 * Dot(x, x, lo, j, i) + Dot(x, x, j, i - j + 1, i)
    decreases j - lo
  {
    if lo < j {
      FoldColumn(x, lo, j - 1, i);
      // peel the two equal ends of the middle part
      DotSplit(x, x, j - 1, j, i - j + 2, i);
      assert Dot(x, x, j - 1, j, i) == Dot(x, x, j - 1, j - 1, i) + At(x, j - 1) * At(x, i - (j - 1));
      assert Dot(x, x, j, i - j + 2, i) == Dot(x, x, j, i - j + 1, i) + At(x, i - j + 1) * At(x, j - 1);
      assert At(x, j - 1) * At(x, i - j + 1) == At(x, i - j + 1) * At(x, j - 1);
    }
  }
}
