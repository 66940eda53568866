/** What the private operation of engine/rsa.h is made of: additions and products of limbs,
    a difference modulo a prime, and the power of the public exponent. */
module RsaKey {
  import opened ModArith
  import opened Limbs
  import opened Montgomery
  import opened Redc
  import opened MontExp

  /** x + y over equal lengths, with the carry out. */
  method AddLimbs(x: seq<u64>, y: seq<u64>) returns (s: array<u64>, c: u64)
    requires |x| == |y|
    ensures fresh(s) && s.Length == |x| && c <= 1
    ensures Val(s[..]) + c * Weight(|x|) == Val(x) + Val(y)
  {
    hide Val, Weight;
    s := new u64[|x|](_ => 0);
    c := 0;
    assert s[..0] == [] && x[..0] == [] && y[..0] == [];
    ValZeros([]);
    for j := 0 to |x|
      invariant c <= 1
      invariant Val(s[..j]) + c * Weight(j) == Val(x[..j]) + Val(y[..j])
    {
      var t := x[j] + y[j] + c;
      ghost var low := s[..j];
      s[j] := t % WORD;
      assert s[..j + 1] == low + [t % WORD];
      ValPush(low, t % WORD);
      ValTake(x, j);
      ValTake(y, j);
      CarryStep(x[j], y[j], c, t % WORD, t / WORD, Weight(j));
      WeightNext(j);
      c := t / WORD;
    }
    assert s[..|x|] == s[..] && x[..|x|] == x && y[..|x|] == y;
  }

  lemma WeightNext(j: nat)
    ensures Weight(j + 1) == WORD * Weight(j)
  {
  }

  lemma CarryStep(x: int, y: int, c: int, out: int, carry: int, w: int)
    requires out + WORD * carry == x + y + c
    ensures out * w + carry * (WORD * w) == x * w + y * w + c * w
  {
    assert (out + WORD * carry) * w == out * w + carry * (WORD * w);
    assert (x + y + c) * w == x * w + y * w + c * w;
  }

  /** The schoolbook product of two h-limb numbers. */
  method Schoolbook(t: seq<u64>, q: seq<u64>) returns (x: array<u64>)
    requires |t| == |q| >= 1
    ensures fresh(x) && x.Length == 2 * |q|
    ensures Val(x[..]) == Val(t) * Val(q)
  {
    hide Val, Weight;
    var h := |q|;
    x := new u64[2 * h](_ => 0);
    ValZeros(x[..]);
    ValZeros([]);
    assert t[..0] == [];
    for i := 0 to h
      invariant forall j :: i + h <= j < 2 * h ==> x[j] == 0
      invariant Val(x[..]) == Val(t[..i]) * Val(q)
    {
      ghost var was := x[..];
      var c := AddRow(x, i, t[i], q);
      ghost var mid := x[..];
      assert mid[i + h..] == was[i + h..] && mid[..i] == was[..i] && mid[i..i + h] == x[i..i + h];
      assert forall j :: i + h <= j < 2 * h ==> mid[j] == mid[i + h..][j - i - h] == was[i + h..][j - i - h] == was[j];
      x[i + h] := c;
      assert x[..] == mid[i + h := c];
      assert x[..][i + h + 1..] == was[i + h + 1..] by {
        assert mid[i + h + 1..] == mid[i + h..][1..] == was[i + h..][1..] == was[i + h + 1..];
      }
      SchoolStep(was, x[..], t, q, c, i);
    }
    assert t[..h] == t;
  }

  lemma SchoolStep(was: seq<u64>, now: seq<u64>, t: seq<u64>, q: seq<u64>, c: u64, i: nat)
    requires |t| == |q| && i < |q| && |was| == |now| == 2 * |q|
    requires Val(was) == Val(t[..i]) * Val(q) && was[i + |q|] == 0 && now[i + |q|] == c
    requires now[..i] == was[..i] && now[i + |q| + 1..] == was[i + |q| + 1..]
    requires Val(now[i..i + |q|]) + c * Weight(|q|) == Val(was[i..i + |q|]) + t[i] * Val(q)
    ensures Val(now) == Val(t[..i + 1]) * Val(q)
  {
    hide Val, Weight;
    var h := |q|;
    FourParts(was, i, h);
    FourParts(now, i, h);
    ValTake(t, i);
    RowSum(Val(was), Val(now), Val(was[..i]), Weight(i), Weight(h), Val(was[i..i + h]), Val(now[i..i + h]),
           0, c, Val(was[i + h + 1..]), c, t[i], Val(q), 0, 0, Weight(i) * Weight(h));
    Distribute(Val(t[..i]), t[i], Weight(i), Val(q));
  }

  /** d = s1 - s2 modulo p, for s1 < p and s2 < 2p. */
  method SubtractMod(s1: seq<u64>, s2: seq<u64>, p: seq<u64>) returns (d: seq<u64>)
    requires |s1| == |s2| == |p| && Val(s1) < Val(p) && Val(s2) < 2 * Val(p)
    ensures |d| == |p| && Val(d) < Val(p) && Cong(Val(d), Val(s1) - Val(s2), Val(p))
  {
    hide Val, Weight, Cong;
    var less, borrow := Subtract(s2, p);
    var t := Select(borrow == 1, s2, less[..]);
    ghost var j := if borrow == 1 then 0 else 1;
    assert Val(t) == Val(s2) - j * Val(p);
    var diff, borrow2 := Subtract(s1, t);
    var addend := Select(borrow2 == 1, p, ZeroLimbs(|p|));
    ValZeros(ZeroLimbs(|p|));
    var sum, c := AddLimbs(diff[..], addend);
    d := sum[..];
    ValBound(d);
    ValBound(p);
    CarryMatches(Val(d), c, Weight(|p|), Val(s1), Val(t), Val(p), borrow2);
    CongBy(Val(d), Val(s1) - Val(s2), Val(p), borrow2 + j) by {
      assert (borrow2 + j) * Val(p) == borrow2 * Val(p) + j * Val(p);
    }
  }

  lemma CarryMatches(d: int, c: int, w: int, s1: int, t: int, p: int, borrow: int)
    requires 0 <= d < w && 0 <= c <= 1 && 0 <= borrow <= 1 && p < w && 0 <= s1 < p && 0 <= t < p
    requires borrow == 1 <==> s1 < t
    requires d + c * w == s1 - t + borrow * w + borrow * p
    ensures d == s1 - t + borrow * p && d < p
  {
    assert c == borrow;
  }

  /** One bit of square and multiply: acc = acc^2, times y when the bit is set. */
  method PowerBit(acc: seq<u64>, y: seq<u64>, bit: bool, n: seq<u64>, n0: u64, ghost x: int, ghost m: nat)
      returns (r: seq<u64>)
    requires 1 <= |n| <= 64 && |acc| == |y| == |n| && GoodN0(n, n0)
    requires Stands(Val(acc), Pow(x, m), Val(n), |n|) && Stands(Val(y), x, Val(n), |n|)
    ensures |r| == |n| && Stands(Val(r), Pow(x, 2 * m + if bit then 1 else 0), Val(n), |n|)
  {
    hide Val, Weight, Cong, GoodN0, Pow, Reduced;
    var k := |n|;
    r := MontProduct(acc, acc, n, n0, true);
    ProductStands(Val(r), Val(acc), Val(acc), Pow(x, m), Pow(x, m), n, n0, k);
    PowAdd(x, m, m);
    if bit {
      var sq := r;
      r := MontProduct(sq, y, n, n0, false);
      ProductStands(Val(r), Val(sq), Val(y), Pow(x, 2 * m), x, n, n0, k);
      PowAdd(x, 2 * m, 1);
      PowLaws(x);
    }
  }

  /** The public check: x^e by square and multiply from the top bit of e. */
  method PublicPower(x: seq<u64>, e: u64, n: seq<u64>, n0: u64, r2: seq<u64>) returns (v: seq<u64>)
    requires 1 <= |n| <= 64 && |x| == |r2| == |n| && GoodN0(n, n0) && e >= 1
    requires Val(x) < Val(n) && 1 < Val(n) && Stands(Val(r2), Weight(|n|), Val(n), |n|)
    ensures |v| == |n| && Val(v) < Val(n) && Cong(Val(v), Pow(Val(x), e), Val(n))
  {
    hide Val, Weight, Cong, GoodN0, Pow, Stands, Reduced;
    var k := |n|;
    ghost var xv := Val(x);
    StandsReduced(Val(r2), Weight(k), Val(n), k);
    var y := MontProduct(x, r2, n, n0, false);
    EnterForm(Val(y), xv, Val(r2), n, n0, k);
    var acc := y;
    var top := TopBit(e);
    PowLaws(xv);
    var b := top;
    while b > 0
      invariant 0 <= b <= top && |acc| == k
      invariant Pow(2, b) > 0 && Stands(Val(acc), Pow(xv, e / Pow(2, b)), Val(n), k)
    {
      b := b - 1;
      PowPositive(2, b);
      BitStep(e, b);
      acc := PowerBit(acc, y, (e / Pow(2, b)) % 2 == 1, n, n0, xv, e / Pow(2, b + 1));
    }
    assert e / Pow(2, 0) == e;
    var one: seq<u64> := [1] + ZeroLimbs(k - 1);
    OneIsOne(k);
    StandsReduced(Val(acc), Pow(xv, e), Val(n), k);
    v := MontProduct(acc, one, n, n0, false);
    LeaveForm(Val(v), Val(acc), Pow(xv, e), n, n0, k);
    ReducedBound(Val(v), Val(acc), Val(n), k);
  }

  lemma ReducedBound(r: int, product: int, m: int, k: nat)
    requires Reduced(r, product, m, k)
    ensures 0 <= r < m
  {
  }

  /** Multiplying by R^2 enters Montgomery form. */
  lemma EnterForm(y: int, x: int, r2: int, n: seq<u64>, n0: u64, k: nat)
    requires GoodN0(n, n0) && Reduced(y, x * r2, Val(n), k) && Stands(r2, Weight(k), Val(n), k)
    ensures Stands(y, x, Val(n), k)
  {
    hide Val, Weight, Cong;
    MixedProduct(y, x, r2, Weight(k), n, n0, k);
  }

  lemma PowLaws(x: int)
    ensures Pow(x, 1) == x && Pow(2, 0) == 1
  {
    assert Pow(x, 0) == 1;
  }

  lemma BitStep(e: u64, b: nat)
    requires Pow(2, b) > 0
    ensures Pow(2, b + 1) > 0 && e / Pow(2, b) == 2 * (e / Pow(2, b + 1)) + (e / Pow(2, b)) % 2
  {
    assert Pow(2, b + 1) == 2 * Pow(2, b);
    DropDigit(e, Pow(2, b), 2);
  }

  /** The highest set bit of a nonzero word. */
  method TopBit(e: u64) returns (top: nat)
    requires e >= 1
    ensures Pow(2, top) > 0 && e / Pow(2, top) == 1
  {
    hide Pow;
    top := 63;
    Pow64();
    assert e / Pow(2, 64) == 0;
    PowPositive(2, 63);
    BitStep(e, 63);
    while (e / Pow(2, top)) % 2 == 0
      invariant Pow(2, top) > 0 && Pow(2, top + 1) > 0 && e / Pow(2, top + 1) == 0
      invariant e / Pow(2, top) == 2 * (e / Pow(2, top + 1)) + (e / Pow(2, top)) % 2
      decreases top
    {
      PowLaws(2);
      assert e / 1 == e;
      assert top > 0;
      top := top - 1;
      PowPositive(2, top);
      BitStep(e, top);
    }
  }

  lemma OneIsOne(k: nat)
    requires k >= 1
    ensures Val([1] + ZeroLimbs(k - 1)) == 1
  {
    var s: seq<u64> := [1] + ZeroLimbs(k - 1);
    FirstLimb(s);
    assert s[1..] == ZeroLimbs(k - 1);
    ValZeros(s[1..]);
  }
}
