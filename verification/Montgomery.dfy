/** Montgomery multiplication of engine/rsa.h: product scanning for products and squares,
    the subtraction that follows, and the Newton constant. R is Weight(k). */
module Montgomery {
  import opened Basics
  import opened ModArith
  import opened Limbs
  import opened Columns

  /** Adds limbs lo..hi of column i of x * y to the running sum. */
  method SumProducts(c: Acc, x: seq<u64>, y: seq<u64>, lo: int, hi: int, i: int) returns (r: Acc)
    requires 0 <= lo <= hi <= |x| && hi - lo <= 64
    requires lo < hi ==> i - lo < |y| && hi <= i + 1
    requires c.Total() <= 65 * DWORD
    ensures r.Total() == c.Total() + Dot(x, y, lo, hi, i)
  {
    r := c;
    for j := lo to hi
      invariant r.Total() == c.Total() + Dot(x, y, lo, j, i)
    {
      DotFits(x, y, lo, j + 1, i);
      MulAccExact(r, x[j], y[i - j]);
      r := r.MulAcc(x[j], y[i - j]);
    }
  }

  /** Adds column i of x * x: each cross product once, added twice. */
  method SumSquares(c: Acc, x: seq<u64>, lo: int, i: int) returns (r: Acc)
    requires 0 <= lo <= i - lo < |x| <= 64
    requires c.Total() <= 65 * DWORD
    ensures r.Total() == c.Total() + Dot(x, x, lo, i - lo + 1, i)
  {
    r := c;
    var j := lo;
    while j < i - j
      invariant lo <= j && 2 * j <= i + 1
      invariant r.Total() == c.Total() + 2 * Dot(x, x, lo, j, i)
    {
      SquareStep(r, c.Total(), x, lo, j, i);
      r := r.MulAcc(x[j], x[i - j]).MulAcc(x[j], x[i - j]);
      j := j + 1;
    }
    if i % 2 == 0 {
      var h := i / 2;
      assert j == h;
      SquareMiddle(r, c.Total(), x, lo, h);
      r := r.MulAcc(x[h], x[h]);
    } else {
      FoldColumn(x, lo, j, i);
    }
  }

  lemma SquareStep(r: Acc, start: int, x: seq<u64>, lo: int, j: int, i: int)
    requires 0 <= lo <= j < i - j < |x| && i - lo + 1 <= lo + 64
    requires start <= 65 * DWORD && r.Total() == start + 2 * Dot(x, x, lo, j, i)
    ensures r.MulAcc(x[j], x[i - j]).MulAcc(x[j], x[i - j]).Total() == start + 2 * Dot(x, x, lo, j + 1, i)
  {
    SquarePrefix(x, lo, j + 1, i);
    var p: int := x[j] as int * x[i - j];
    assert Dot(x, x, lo, j + 1, i) == Dot(x, x, lo, j, i) + p;
    MulAccTwice(r, x[j], x[i - j]);
  }

  lemma SquareMiddle(r: Acc, start: int, x: seq<u64>, lo: int, h: int)
    requires 0 <= lo <= h && 2 * h - lo < |x| && 2 * h - lo + 1 <= lo + 64
    requires start <= 65 * DWORD && r.Total() == start + 2 * Dot(x, x, lo, h, 2 * h)
    ensures r.MulAcc(x[h], x[h]).Total() == start + Dot(x, x, lo, 2 * h - lo + 1, 2 * h)
  {
    SquarePrefix(x, lo, h, 2 * h);
    FoldColumn(x, lo, h, 2 * h);
    var p: int := x[h] as int * x[h];
    assert Dot(x, x, h, h + 1, 2 * h) == Dot(x, x, h, h, 2 * h) + p;
    ProductBound(x[h], x[h]);
    MulAccExact(r, x[h], x[h]);
  }

  /** What the squaring loop has added never exceeds the whole column. */
  lemma SquarePrefix(x: seq<u64>, lo: int, j: int, i: int)
    requires 0 <= lo <= j && 2 * j <= i + 1 && i - lo + 1 <= lo + 64
    ensures 0 <= 2 * Dot(x, x, lo, j, i) <= Dot(x, x, lo, i - lo + 1, i) <= 64 * SQUARE
  {
    FoldColumn(x, lo, j, i);
    DotBound(x, x, lo, j, i);
    DotBound(x, x, j, i - j + 1, i);
    DotFits(x, x, lo, i - lo + 1, i);
  }

  /** Column i of a * b, by either form. */
  method SumColumn(c: Acc, a: seq<u64>, b: seq<u64>, sq: bool, i: nat) returns (r: Acc)
    requires |a| == |b| <= 64 && i < 2 * |a| - 1 && (sq ==> a == b)
    requires c.Total() <= 65 * DWORD
    ensures r.Total() == c.Total() + Column(a, b, i)
    ensures 0 <= Column(a, b, i) <= 64 * SQUARE
  {
    var k := |a|;
    var lo := if i < k then 0 else i - k + 1;
    var hi := if i < k then i + 1 else k;
    if sq {
      r := SumSquares(c, a, lo, i);
    } else {
      r := SumProducts(c, a, b, lo, hi, i);
    }
    ColumnRange(a, b, lo, hi, i);
    DotFits(a, b, lo, hi, i);
  }

  /** The word u chosen so that adding u * m clears the column's low word. */
  lemma LowWordClears(t: int, n0: u64, m0: u64)
    requires t >= 0 && (m0 * n0 + 1) % WORD == 0
    ensures (t + (((t % WORD) * n0) % WORD) * m0) % WORD == 0
  {
    var c0 := t % WORD;
    var u := (c0 * n0) % WORD;
    var q, s := (c0 * n0) / WORD, (m0 * n0 + 1) / WORD;
    assert m0 * n0 + 1 == s * WORD;
    calc {
      t + u * m0;
      (t / WORD) * WORD + c0 + (c0 * n0 - q * WORD) * m0;
      { ClearIdentity(c0, n0, m0, q); }
      (t / WORD) * WORD + c0 * (m0 * n0 + 1) - (q * m0) * WORD;
      { assert c0 * (s * WORD) == (c0 * s) * WORD; }
      (t / WORD + c0 * s - q * m0) * WORD;
    }
    DivUnique(t + u * m0, WORD, t / WORD + c0 * s - q * m0, 0);
  }

  lemma ClearIdentity(c0: int, n0: int, m0: int, q: int)
    ensures c0 + (c0 * n0 - q * WORD) * m0 == c0 * (m0 * n0 + 1) - (q * m0) * WORD
  {
    assert (c0 * n0) * m0 == c0 * (m0 * n0);
    assert (q * WORD) * m0 == (q * m0) * WORD;
  }

  lemma LowWord(c: Acc)
    ensures c.Total() % WORD == c.c0
  {
    DivUnique(c.Total(), WORD, c.c1 + WORD * c.c2, c.c0);
  }

  /** Column i < k: the products of a and b, the products of the words of u so far, and
      the new word of u that clears the low word. */
  method LowColumn(c: Acc, a: seq<u64>, b: seq<u64>, us: seq<u64>, m: seq<u64>, n0: u64, sq: bool)
      returns (r: Acc, ui: u64)
    requires |us| < |m| <= 64 && |a| == |b| == |m| && (sq ==> a == b)
    requires (m[0] * n0 + 1) % WORD == 0
    requires c.Total() <= 128 * WORD
    ensures r.Total() == c.Total() + Column(a, b, |us|) + Column(us + [ui], m, |us|)
    ensures r.c0 == 0 && r.Shift().Total() <= 128 * WORD
  {
    var i := |us|;
    r := SumColumn(c, a, b, sq, i);
    DotBound(us, m, 0, i, i);
    MulMono(i, 63, SQUARE);
    r := SumProducts(r, us, m, 0, i, i);
    ui := (r.c0 * n0) % WORD;
    r := ClearLowWord(r, ui, n0, m[0]);
    ColumnPush(us, ui, m, i);
  }

  method ClearLowWord(c: Acc, ui: u64, n0: u64, m0: u64) returns (r: Acc)
    requires (m0 * n0 + 1) % WORD == 0 && ui == (c.c0 * n0) % WORD
    requires c.Total() <= 128 * WORD + 127 * SQUARE
    ensures r.Total() == c.Total() + ui * m0
    ensures r.c0 == 0 && r.Shift().Total() <= 128 * WORD
  {
    LowWord(c);
    LowWordClears(c.Total(), n0, m0);
    ProductBound(ui, m0);
    MulAccExact(c, ui, m0);
    r := c.MulAcc(ui, m0);
    LowWord(r);
  }

  /** Column i >= k: the products left. */
  method HighColumn(c: Acc, a: seq<u64>, b: seq<u64>, us: seq<u64>, m: seq<u64>, sq: bool, i: nat)
      returns (r: Acc)
    requires |us| == |a| == |b| == |m| <= 64 && (sq ==> a == b)
    requires |m| <= i < 2 * |m| - 1
    requires c.Total() <= 128 * WORD
    ensures r.Total() == c.Total() + Column(a, b, i) + Column(us, m, i)
    ensures r.Shift().Total() <= 128 * WORD
  {
    var k := |m|;
    var lo := i - k + 1;
    r := SumColumn(c, a, b, sq, i);
    ColumnRange(us, m, lo, k, i);
    DotFits(us, m, lo, k, i);
    r := SumProducts(r, us, m, lo, k, i);
  }

  /** The first k columns: what they leave is u and the running sum. */
  method LowColumns(a: seq<u64>, b: seq<u64>, m: seq<u64>, n0: u64, sq: bool) returns (u: array<u64>, c: Acc)
    requires 1 <= |m| <= 64 && |a| == |b| == |m| && (sq ==> a == b)
    requires (m[0] * n0 + 1) % WORD == 0
    ensures fresh(u) && u.Length == |m|
    ensures c.Total() <= 128 * WORD && c.c2 == 0
    ensures Written(a, b, u[..], m, [], c.Total(), |m|)
  {
    hide Val, Weight, ColumnSum, Written;
    var k := |m|;
    u := new u64[k](_ => 0);
    c := Acc(0, 0, 0);
    assert u[..0] == [];
    NothingWritten(a, b, m);
    for i := 0 to k
      invariant c.Total() <= 128 * WORD && c.c2 == 0
      invariant Written(a, b, u[..i], m, [], c.Total(), i)
    {
      var r, ui := LowColumn(c, a, b, u[..i], m, n0, sq);
      LowStep(a, b, u[..i], ui, m, c.Total(), r, i);
      ghost var before := u[..i];
      u[i] := ui;
      assert u[..i + 1] == before + [ui];
      c := r.Shift();
    }
    assert u[..k] == u[..];
  }

  /** The other k - 1 columns: each leaves one word of t. */
  method HighColumns(a: seq<u64>, b: seq<u64>, us: seq<u64>, m: seq<u64>, sq: bool, start: Acc) returns (t: array<u64>)
    requires 1 <= |m| <= 64 && |a| == |b| == |us| == |m| && (sq ==> a == b)
    requires start.Total() <= 128 * WORD && start.c2 == 0
    requires Written(a, b, us, m, [], start.Total(), |m|)
    ensures fresh(t) && t.Length == |m| + 1
    ensures Val(t[..]) * Weight(|m|) == ColumnSum(a, b, 2 * |m| - 1) + ColumnSum(us, m, 2 * |m| - 1)
  {
    hide Val, Weight, ColumnSum, Written;
    var k := |m|;
    var c := start;
    t := new u64[k + 1](_ => 0);
    assert t[..0] == [];
    for i := k to 2 * k - 1
      invariant c.Total() <= 128 * WORD && c.c2 == 0
      invariant Written(a, b, us, m, t[..i - k], c.Total(), i)
    {
      var r := HighColumn(c, a, b, us, m, sq, i);
      HighStep(a, b, us, m, t[..i - k], c.Total(), r, i);
      ghost var before := t[..i - k];
      t[i - k] := r.c0;
      assert t[..i - k + 1] == before + [r.c0];
      c := r.Shift();
    }
    ghost var low := t[..k - 1];
    t[k - 1] := c.c0;
    t[k] := c.c1;
    assert t[..] == low + [c.c0, c.c1];
    Closing(a, b, us, m, low, c);
  }

  /** viltrum_mont_k up to its final subtraction: u and t with t * R = a * b + u * m. */
  method ColumnLoop(a: seq<u64>, b: seq<u64>, m: seq<u64>, n0: u64, sq: bool)
      returns (t: array<u64>, ghost us: seq<u64>)
    requires 1 <= |m| <= 64 && |a| == |b| == |m| && (sq ==> a == b)
    requires (m[0] * n0 + 1) % WORD == 0
    ensures fresh(t) && t.Length == |m| + 1 && |us| == |m|
    ensures Val(t[..]) * Weight(|m|) == Val(a) * Val(b) + Val(us) * Val(m)
  {
    hide *;
    var k := |m|;
    var u, c := LowColumns(a, b, m, n0, sq);
    t := HighColumns(a, b, u[..], m, sq, c);
    us := u[..];
    ProductForm(Val(t[..]) * Weight(k), a, b, us, m);
  }

  lemma ProductForm(whole: int, a: seq<u64>, b: seq<u64>, us: seq<u64>, m: seq<u64>)
    requires |us| == |a| == |b| == |m| >= 1
    requires whole == ColumnSum(a, b, 2 * |m| - 1) + ColumnSum(us, m, 2 * |m| - 1)
    ensures whole == Val(a) * Val(b) + Val(us) * Val(m)
  {
    hide *;
    ColumnSumIsProduct(a, b, 2 * |m| - 1);
    ColumnSumIsProduct(us, m, 2 * |m| - 1);
  }

  lemma Closing(a: seq<u64>, b: seq<u64>, us: seq<u64>, m: seq<u64>, low: seq<u64>, c: Acc)
    requires |m| == |low| + 1 && c.c2 == 0
    requires Written(a, b, us, m, low, c.Total(), 2 * |m| - 1)
    ensures Val(low + [c.c0, c.c1]) * Weight(|m|) == ColumnSum(a, b, 2 * |m| - 1) + ColumnSum(us, m, 2 * |m| - 1)
  {
    Finish(ColumnSum(a, b, 2 * |m| - 1) + ColumnSum(us, m, 2 * |m| - 1), |m|, low, c);
  }

  /** The columns below i are exactly the words of t written so far and the sum still
      running. */
  ghost predicate Written(a: seq<u64>, b: seq<u64>, us: seq<u64>, m: seq<u64>, t: seq<u64>, total: int, i: nat) {
    ColumnSum(a, b, i) + ColumnSum(us, m, i) == Weight(|m|) * Val(t) + total * Weight(i)
  }

  lemma NothingWritten(a: seq<u64>, b: seq<u64>, m: seq<u64>)
    ensures Written(a, b, [], m, [], 0, 0)
  {
  }

  lemma LowStep(a: seq<u64>, b: seq<u64>, us: seq<u64>, ui: u64, m: seq<u64>, total: int, r: Acc, i: nat)
    requires i == |us| && Written(a, b, us, m, [], total, i)
    requires r.Total() == total + Column(a, b, i) + Column(us + [ui], m, i) && r.c0 == 0
    ensures Written(a, b, us + [ui], m, [], r.Shift().Total(), i + 1)
  {
    ColumnSumPush(us, ui, m, i);
    StepAlgebra(ColumnSum(a, b, i), ColumnSum(us, m, i), Column(a, b, i), Column(us + [ui], m, i),
                Weight(|m|) * 0, total, Weight(i), 0, r.Shift().Total());
  }

  lemma HighStep(a: seq<u64>, b: seq<u64>, us: seq<u64>, m: seq<u64>, t: seq<u64>, total: int, r: Acc, i: nat)
    requires i == |m| + |t| && Written(a, b, us, m, t, total, i)
    requires r.Total() == total + Column(a, b, i) + Column(us, m, i)
    ensures Written(a, b, us, m, t + [r.c0], r.Shift().Total(), i + 1)
  {
    ValPush(t, r.c0);
    WeightAdd(|m|, |t|);
    var wk, wt := Weight(|m|), Weight(|t|);
    Regroup(wk, Val(t), r.c0, wt);
    assert wk * Val(t + [r.c0]) == wk * Val(t) + r.c0 * Weight(i);
    StepAlgebra(ColumnSum(a, b, i), ColumnSum(us, m, i), Column(a, b, i), Column(us, m, i),
                wk * Val(t), total, Weight(i), r.c0, r.Shift().Total());
  }

  lemma StepAlgebra(ab: int, um: int, x: int, y: int, written: int, total: int, w: int, out: int, next: int)
    requires ab + um == written + total * w
    requires total + x + y == out + WORD * next
    ensures (ab + x * w) + (um + y * w) == written + out * w + next * (WORD * w)
  {
    assert (total + x + y) * w == total * w + x * w + y * w;
    assert (out + WORD * next) * w == out * w + next * (WORD * w);
  }

  lemma TwoLimbs(low: seq<u64>, x: u64, y: u64)
    ensures Val(low + [x, y]) == Val(low) + x * Weight(|low|) + y * Weight(|low| + 1)
  {
    assert low + [x, y] == low + [x] + [y];
    ValPush(low, x);
    ValPush(low + [x], y);
  }

  lemma Finish(whole: int, k: nat, low: seq<u64>, c: Acc)
    requires k == |low| + 1 && c.c2 == 0
    requires whole == Weight(k) * Val(low) + c.Total() * Weight(2 * k - 1)
    ensures Val(low + [c.c0, c.c1]) * Weight(k) == whole
  {
    WeightAdd(k, k - 1);
    TwoLimbs(low, c.c0, c.c1);
    TopWords(whole, Val(low), c.c0, c.c1, Weight(k - 1), Weight(k), Weight(2 * k - 1));
  }

  lemma TopWords(whole: int, low: int, c0: int, c1: int, w: int, wk: int, top: int)
    requires wk == WORD * w && top == wk * w
    requires whole == wk * low + (c0 + WORD * c1) * top
    ensures (low + c0 * w + c1 * wk) * wk == whole
  {
    assert (c0 + WORD * c1) * (wk * w) == (c0 * w + c1 * (WORD * w)) * wk;
  }

  /** r is a * b / R modulo m, fully reduced: what every Montgomery operation promises. */
  ghost predicate Reduced(r: int, product: int, m: int, k: nat) {
    0 <= r < m && Cong(r * Weight(k), product, m)
  }

  /** Subtracts m once unless that borrows past the top word: t + top * R < 2m. */
  method SubtractOnce(t: seq<u64>, top: u64, m: seq<u64>) returns (r: seq<u64>)
    requires |t| == |m|
    requires Val(t) + top * Weight(|m|) < 2 * Val(m)
    ensures |r| == |m| && Val(r) < Val(m)
    ensures var whole := Val(t) + top * Weight(|m|);
            Val(r) == whole || Val(r) == whole - Val(m)
  {
    var d, borrow := Subtract(t, m);
    ValBound(m);
    ValBound(d[..]);
    TopIsBit(Val(t), top, Weight(|m|), Val(m));
    var useD := top == 1 || borrow == 0;
    r := Select(useD, d[..], t);
  }

  lemma TopIsBit(t: int, top: int, w: int, m: int)
    requires 0 <= t && 0 <= top && t + top * w < 2 * m && m < w && 0 < w
    ensures top == 0 || top == 1
  {
    if top >= 2 {
      MulMono(2, top, w);
    }
  }

  lemma ProductBelow(a: int, b: int, u: int, m: int, w: int, t: int)
    requires 0 <= a < m && 0 <= b < m && 0 <= u < w && m <= w
    requires t * w == a * b + u * m
    ensures t < 2 * m
  {
    MulMono(a, m, b);
    MulMono(b, w, m);
    MulMono(u + 1, w, m);
    var wm := w * m;
    assert a * b <= wm && u * m <= wm - m;
    TwiceBelow(t, m, w, wm);
  }

  lemma TwiceBelow(t: int, m: int, w: int, wm: int)
    requires w > 0 && wm == w * m && t * w < 2 * wm
    ensures t < 2 * m
  {
    CancelLess(t, 2 * m, w);
  }

  lemma CancelLess(t: int, n: int, w: int)
    requires w > 0 && t * w < n * w
    ensures t < n
  {
    if t >= n {
      MulMono(n, t, w);
    }
  }

  lemma ReducedFrom(r: int, t: int, product: int, u: int, m: int, k: nat)
    requires 0 <= r < m && (r == t || r == t - m)
    requires t * Weight(k) == product + u * m
    ensures Reduced(r, product, m, k)
  {
    var w := Weight(k);
    if r == t {
      CongBy(r * w, product, m, u);
    } else {
      assert (t - m) * w == t * w - w * m;
      assert r * w - product == (u - w) * m;
      CongBy(r * w, product, m, u - w);
    }
  }

  /** The Montgomery constant of an odd modulus: m[0] * n0 = -1 modulo the word. */
  predicate GoodN0(m: seq<u64>, n0: u64) {
    m != [] && (m[0] * n0 + 1) % WORD == 0
  }

  /** The product on values: what viltrum_mont_k leaves in r. */
  method MontProduct(a: seq<u64>, b: seq<u64>, m: seq<u64>, n0: u64, sq: bool) returns (r: seq<u64>)
    requires 1 <= |m| <= 64 && |a| == |b| == |m| && (sq ==> a == b) && GoodN0(m, n0)
    requires Val(a) < Val(m) && Val(b) < Val(m)
    ensures |r| == |m| && Reduced(Val(r), Val(a) * Val(b), Val(m), |m|)
  {
    hide Val, Weight, Reduced;
    var k := |m|;
    var t, us := ColumnLoop(a, b, m, n0, sq);
    assert t[..] == t[..k] + [t[k]];
    ValPush(t[..k], t[k]);
    ValBound(us);
    ValBound(m);
    ProductBelow(Val(a), Val(b), Val(us), Val(m), Weight(k), Val(t[..]));
    r := SubtractOnce(t[..k], t[k], m);
    ReducedFrom(Val(r), Val(t[..]), Val(a) * Val(b), Val(us), Val(m), k);
  }

  /** viltrum_mont_k: r = a * b / R mod m, or a * a / R when sq is set; r may be a or b,
      since nothing is written to it before the end. */
  method MontMul(r: array<u64>, a: array<u64>, b: array<u64>, m: seq<u64>, n0: u64, sq: bool)
    requires 1 <= |m| <= 64 && r.Length == a.Length == b.Length == |m|
    requires (sq ==> a == b) && GoodN0(m, n0)
    requires Val(a[..]) < Val(m) && Val(b[..]) < Val(m)
    modifies r
    ensures Reduced(Val(r[..]), old(Val(a[..])) * old(Val(b[..])), Val(m), |m|)
  {
    hide *;
    var s := MontProduct(a[..], b[..], m, n0, sq);
    forall j | 0 <= j < |m| {
      r[j] := s[j];
    }
    assert r[..] == s;
  }

  /** viltrum_rsa_n0: Newton's iteration doubles the correct bits at each of six steps. */
  method NewtonN0(m0: u64) returns (n0: u64)
    requires m0 % 2 == 1
    ensures (m0 * n0 + 1) % WORD == 0
  {
    var x: u64 := 1;
    ghost var bits := 1;
    assert Pow(2, 1) == 2;
    CongIsMod(m0, 1, 2);
    for i := 0 to 6
      invariant bits == [1, 2, 4, 8, 16, 32, 64][i]
      invariant Cong(m0 * x, 1, Pow(2, bits))
    {
      var y := (x * ((2 - m0 * x) % WORD)) % WORD;
      NewtonStep(m0, x, y, bits);
      x := y;
      bits := 2 * bits;
    }
    n0 := (0 - x) % WORD;
    Pow64();
    NegatedInverse(m0, x, n0);
  }

  lemma Pow64()
    ensures Pow(2, 64) == WORD
  {
    assert Pow(2, 8) == 256;
    PowAdd(2, 8, 8);
    PowAdd(2, 16, 16);
    PowAdd(2, 32, 32);
  }

  lemma NewtonStep(m0: int, x: int, y: int, bits: nat)
    requires bits <= 32 && y == (x * ((2 - m0 * x) % WORD)) % WORD
    requires Cong(m0 * x, 1, Pow(2, bits))
    ensures Cong(m0 * y, 1, Pow(2, 2 * bits))
  {
    hide Pow, Cong;
    var p, p2 := Pow(2, bits), Pow(2, 2 * bits);
    PowAdd(2, bits, bits);
    // y is x * (2 - m0 x) modulo 2^64, hence modulo 2^(2 bits)
    assert Cong(y, x * (2 - m0 * x), p2) by {
      CongRemainder(2 - m0 * x, WORD);
      CongMulLeft(x, (2 - m0 * x) % WORD, 2 - m0 * x, WORD);
      CongRemainder(x * ((2 - m0 * x) % WORD), WORD);
      CongTrans(y, x * ((2 - m0 * x) % WORD), x * (2 - m0 * x), WORD);
      Pow64();
      PowAdd(2, 2 * bits, 64 - 2 * bits);
      CongDivides(y, x * (2 - m0 * x), p2, Pow(2, 64 - 2 * bits));
    }
    CongMulLeft(m0, y, x * (2 - m0 * x), p2);
    var e := Quotient(m0 * x, 1, p);
    NewtonAlgebra(m0, x, e, p);
    CongBy(m0 * (x * (2 - m0 * x)), 1, p2, -(e * e));
    CongTrans(m0 * y, m0 * (x * (2 - m0 * x)), 1, p2);
  }

  lemma NewtonAlgebra(m0: int, x: int, e: int, p: int)
    requires m0 * x - 1 == e * p
    ensures m0 * (x * (2 - m0 * x)) - 1 == (-(e * e)) * (p * p)
  {
    var z := m0 * x;
    assert m0 * (x * (2 - z)) == z * (2 - z);
    assert z * (2 - z) - 1 == -((z - 1) * (z - 1));
    assert (e * p) * (e * p) == (e * e) * (p * p);
  }

  lemma CongDivides(x: int, y: int, m: int, c: int)
    requires Cong(x, y, m * c)
    ensures Cong(x, y, m)
  {
    var q := Quotient(x, y, m * c);
    assert q * (m * c) == (q * c) * m;
    CongBy(x, y, m, q * c);
  }

  lemma NegatedInverse(m0: int, x: int, n0: int)
    requires Cong(m0 * x, 1, WORD) && n0 == (0 - x) % WORD
    ensures (m0 * n0 + 1) % WORD == 0
  {
    CongRemainder(-x, WORD);
    CongMulLeft(m0, n0, -x, WORD);
    CongRefl(1, WORD);
    CongAdd(m0 * n0, m0 * -x, 1, 1, WORD);
    CongSub(1, 1, m0 * x, 1, WORD);
    assert m0 * -x + 1 == 1 - m0 * x;
    CongTrans(m0 * n0 + 1, 1 - m0 * x, 0, WORD);
    CongIsMod(m0 * n0 + 1, 0, WORD);
  }

  /** One row of a schoolbook product: t[i..] += x * m over the limbs of m, the carry
      out returned. */
  method AddRow(t: array<u64>, i: nat, x: u64, m: seq<u64>) returns (c: u64)
    requires 1 <= |m| && i + |m| <= t.Length
    modifies t
    ensures t[..i] == old(t[..i]) && t[i + |m|..] == old(t[i + |m|..])
    ensures Val(t[i..i + |m|]) + c * Weight(|m|) == old(Val(t[i..i + |m|])) + x * Val(m)
    ensures t[i] == (old(t[i]) + x * m[0]) % WORD
  {
    hide Val, Weight;
    var k := |m|;
    ghost var was := t[i..i + k];
    c := 0;
    RowStart(t[i..i], m, was, x);
    for j := 0 to k
      invariant t[..i] == old(t[..i])
      invariant forall n :: i + j <= n < t.Length ==> t[n] == old(t[n])
      invariant RowDone(t[i..i + j], m, was, x, c, j)
      invariant j > 0 ==> t[i] == (was[0] + x * m[0]) % WORD
    {
      ghost var low := t[i..i + j];
      assert t[i + j] == was[j];
      var s := x * m[j] + t[i + j] + c;
      RowWord(x, m[j], t[i + j], c);
      RowStep(low, m, was, x, c, j);
      t[i + j] := s % WORD;
      c := s / WORD;
      assert t[i..i + j + 1] == low + [s % WORD];
    }
    RowEnd(t[i..i + k], m, was, x, c);
  }

  lemma RowWord(x: u64, y: u64, t: u64, c: u64)
    ensures 0 <= x * y + t + c < DWORD
  {
    ProductBound(x, y);
  }

  ghost predicate RowDone(low: seq<u64>, m: seq<u64>, was: seq<u64>, x: u64, c: u64, j: nat)
    requires j <= |m| == |was|
  {
    |low| == j && Val(low) + c * Weight(j) == Val(was[..j]) + x * Val(m[..j])
  }

  lemma RowStart(low: seq<u64>, m: seq<u64>, was: seq<u64>, x: u64)
    requires low == [] && |m| == |was|
    ensures RowDone(low, m, was, x, 0, 0)
  {
  }

  lemma RowEnd(low: seq<u64>, m: seq<u64>, was: seq<u64>, x: u64, c: u64)
    requires |m| == |was| && RowDone(low, m, was, x, c, |m|)
    ensures Val(low) + c * Weight(|m|) == Val(was) + x * Val(m)
  {
    assert was[..|m|] == was && m[..|m|] == m;
  }

  lemma RowStep(low: seq<u64>, m: seq<u64>, was: seq<u64>, x: u64, c: u64, j: nat)
    requires j < |m| == |was| && RowDone(low, m, was, x, c, j)
    ensures 0 <= x * m[j] + was[j] + c < DWORD
    ensures var s := x * m[j] + was[j] + c;
            RowDone(low + [s % WORD], m, was, x, s / WORD, j + 1)
  {
    RowWord(x, m[j], was[j], c);
    var s := x * m[j] + was[j] + c;
    ValPush(low, s % WORD);
    ValTake(was, j);
    ValTake(m, j);
    RowAlgebra(Val(low), s % WORD, s / WORD, c, Weight(j), Val(was[..j]), was[j], x, Val(m[..j]), m[j]);
  }

  lemma RowAlgebra(low: int, out: int, carry: int, c: int, w: int, was: int, t: int, x: int, m: int, y: int)
    requires low + c * w == was + x * m && out + WORD * carry == x * y + t + c
    ensures low + out * w + carry * (WORD * w) == was + t * w + x * (m + y * w)
  {
    assert (out + WORD * carry) * w == out * w + carry * (WORD * w);
    assert (x * y + t + c) * w == x * (y * w) + t * w + c * w;
  }
}
