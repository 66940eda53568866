/** Numbers as little-endian 64-bit limbs, and the word-level steps engine/rsa.h builds
    its arithmetic from: the three-word column sum and the borrow and carry chains. */
module Limbs {
  import opened Basics

  /** 2^64 and 2^128: the word and the double word. */
  const WORD: int := 0x1_0000_0000_0000_0000
  const DWORD: int := 0x1_0000_0000_0000_0000_0000_0000_0000_0000

  /** The largest product of two words. */
  const SQUARE: int := DWORD - 2 * WORD + 1

  type u64 = x: int | 0 <= x < 0x1_0000_0000_0000_0000

  /** The weight of limb n, 2^(64 n). */
  function Weight(n: nat): (w: int)
    ensures w > 0
  {
    if n == 0 then 1 else WORD * Weight(n - 1)
  }

  function Val(s: seq<u64>): (v: int)
    ensures v >= 0
  {
    if s == [] then 0 else
      var n := |s| - 1;
      assert s[n] * Weight(n) >= 0;
      Val(s[..n]) + s[n] * Weight(n)
  }

  lemma ValPush(s: seq<u64>, x: u64)
    ensures Val(s + [x]) == Val(s) + x * Weight(|s|)
  {
    assert (s + [x])[..|s|] == s;
  }

  /** The value of one more limb of s. */
  lemma ValTake(s: seq<u64>, j: nat)
    requires j < |s|
    ensures Val(s[..j + 1]) == Val(s[..j]) + s[j] * Weight(j)
  {
    assert s[..j + 1] == s[..j] + [s[j]];
    ValPush(s[..j], s[j]);
  }

  lemma {:induction false} ValBound(s: seq<u64>)
    ensures Val(s) < Weight(|s|)
  {
    if s != [] {
      var n := |s| - 1;
      ValBound(s[..n]);
      MulMono(s[n], WORD - 1, Weight(n));
    }
  }

  lemma {:induction false} WeightAdd(x: nat, y: nat)
    ensures Weight(x + y) == Weight(x) * Weight(y)
  {
    if x == 0 {
    } else {
      WeightAdd(x - 1, y);
      assert WORD * (Weight(x - 1) * Weight(y)) == (WORD * Weight(x - 1)) * Weight(y);
    }
  }

  /** Splitting a number at limb i. */
  lemma {:induction false} ValSplit(s: seq<u64>, i: nat)
    requires i <= |s|
    ensures Val(s) == Val(s[..i]) + Weight(i) * Val(s[i..])
    decreases |s|
  {
    if i == |s| {
      assert s[..i] == s && s[i..] == [];
    } else {
      var n := |s| - 1;
      var t := s[..n];
      ValSplit(t, i);
      assert t[..i] == s[..i];
      assert s[i..][..n - i] == t[i..];
      assert Val(s[i..]) == Val(t[i..]) + s[n] * Weight(n - i);
      WeightAdd(i, n - i);
      SplitStep(Val(s[..i]), Weight(i), Val(t[i..]), s[n], Weight(n - i));
    }
  }

  lemma SplitStep(lo: int, wi: int, hi: int, x: int, w: int)
    ensures lo + wi * hi + x * (wi * w) == lo + wi * (hi + x * w)
  {
    assert x * (wi * w) == wi * (x * w);
  }

  /** Equal-length limb strings of equal value are equal. */
  lemma {:induction false} ValInjective(s: seq<u64>, t: seq<u64>)
    requires |s| == |t| && Val(s) == Val(t)
    ensures s == t
  {
    if s != [] {
      var n := |s| - 1;
      ValBound(s[..n]);
      ValBound(t[..n]);
      TopLimb(Val(s[..n]), s[n], Val(t[..n]), t[n], Weight(n));
      ValInjective(s[..n], t[..n]);
      assert s == s[..n] + [s[n]] && t == t[..n] + [t[n]];
    }
  }

  lemma TopLimb(lo: int, x: int, lo': int, y: int, w: int)
    requires 0 <= lo < w && 0 <= lo' < w && lo + x * w == lo' + y * w
    ensures x == y && lo == lo'
  {
    assert (x - y) * w == lo' - lo;
    NoMultiple(x - y, w);
  }

  function ZeroLimbs(n: nat): (s: seq<u64>)
    ensures |s| == n && forall i :: 0 <= i < n ==> s[i] == 0
  {
    seq(n, _ => 0)
  }

  lemma {:induction false} ValZeros(s: seq<u64>)
    requires forall i :: 0 <= i < |s| ==> s[i] == 0
    ensures Val(s) == 0
  {
    if s != [] {
      ValZeros(s[..|s| - 1]);
    }
  }

  /** The running column sum, three words. */
  datatype Acc = Acc(c0: u64, c1: u64, c2: u64) {
    function Total(): (t: int)
      ensures t >= 0
    {
      c0 + WORD * c1 + DWORD * c2
    }

    /** The word-wise addition of a double word, each word wrapping as the machine's does. */
    function AddWide(p: int): (r: Acc)
      requires 0 <= p < DWORD
    {
      var s0 := c0 + p % WORD;
      var s1 := c1 + p / WORD + s0 / WORD;
      Acc(s0 % WORD, s1 % WORD, (c2 + s1 / WORD) % WORD)
    }

    /** (c0, c1, c2) += a * b. */
    function MulAcc(a: u64, b: u64): (r: Acc) {
      ProductBound(a, b);
      AddWide(a * b)
    }

    /** The sum one word on, as column i + 1 starts from column i. */
    function Shift(): (r: Acc)
      ensures Total() == c0 + WORD * r.Total()
    {
      Acc(c1, c2, 0)
    }
  }

  lemma ProductBound(a: u64, b: u64)
    ensures 0 <= a * b <= SQUARE
  {
    MulMono(a, WORD - 1, b);
    MulMono(b, WORD - 1, WORD - 1);
    MulMono(0, a, b);
  }

  /** The three words hold the exact sum whenever it stays below 2^192. */
  lemma AddWideExact(c: Acc, p: int)
    requires 0 <= p < DWORD && c.Total() + p < WORD * DWORD
    ensures c.AddWide(p).Total() == c.Total() + p
  {
    var s0 := c.c0 + p % WORD;
    var s1 := c.c1 + p / WORD + s0 / WORD;
    assert c.c0 + WORD * c.c1 + p == s0 % WORD + WORD * (s1 % WORD) + DWORD * (s1 / WORD);
    assert c.c2 + s1 / WORD < WORD;
  }

  lemma MulAccExact(c: Acc, a: u64, b: u64)
    requires c.Total() + a * b < WORD * DWORD
    ensures c.MulAcc(a, b).Total() == c.Total() + a * b
  {
    ProductBound(a, b);
    AddWideExact(c, a * b);
  }

  /** The doubled addition of a square's cross products. */
  lemma MulAccTwice(c: Acc, a: u64, b: u64)
    requires c.Total() + 2 * (a * b) < WORD * DWORD
    ensures c.MulAcc(a, b).MulAcc(a, b).Total() == c.Total() + 2 * (a * b)
  {
    ProductBound(a, b);
    MulAccExact(c, a, b);
    MulAccExact(c.MulAcc(a, b), a, b);
  }

  /** One word of a subtraction in unsigned 128-bit arithmetic: the difference word
      and the borrow read from bit 64. */
  function SubWord(x: u64, y: u64, borrow: int): (r: (u64, int))
    requires 0 <= borrow <= 1
    ensures 0 <= r.1 <= 1 && x - y - borrow == r.0 - WORD * r.1
  {
    var s := (x - y - borrow) % DWORD;
    (s % WORD, (s / WORD) % 2)
  }

  /** d = x - y modulo 2^(64 k), with the final borrow. */
  method Subtract(x: seq<u64>, y: seq<u64>) returns (d: array<u64>, borrow: int)
    requires |x| == |y|
    ensures fresh(d) && d.Length == |x| && 0 <= borrow <= 1
    ensures Val(d[..]) == Val(x) - Val(y) + borrow * Weight(|x|)
    ensures borrow == 1 <==> Val(x) < Val(y)
  {
    var k := |x|;
    d := new u64[k](_ => 0);
    borrow := 0;
    for j := 0 to k
      invariant 0 <= borrow <= 1
      invariant Val(d[..j]) == Val(x[..j]) - Val(y[..j]) + borrow * Weight(j)
    {
      var (w, b) := SubWord(x[j], y[j], borrow);
      ghost var before := d[..j];
      d[j] := w;
      assert d[..j] == before;
      ValTake(d[..], j);
      assert d[..][..j + 1] == d[..j + 1] && d[..][..j] == d[..j];
      ValTake(x, j);
      ValTake(y, j);
      BorrowStep(x[j], y[j], borrow, w, b, Weight(j));
      borrow := b;
    }
    assert d[..k] == d[..] && x[..k] == x && y[..k] == y;
    ValBound(d[..]);
  }

  lemma BorrowStep(x: int, y: int, borrow: int, w: int, b: int, weight: int)
    requires x - y - borrow == w - WORD * b
    ensures w * weight == x * weight - y * weight - borrow * weight + b * (WORD * weight)
  {
    assert w == x - y - borrow + WORD * b;
    assert (x - y - borrow + WORD * b) * weight
        == x * weight - y * weight - borrow * weight + (WORD * b) * weight;
  }

  /** Select without a branch: modelled by its value. */
  function Select(flag: bool, d: seq<u64>, t: seq<u64>): seq<u64> {
    if flag then d else t
  }
}
