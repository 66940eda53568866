/** Montgomery form as a representation of residues, and the fixed-window
    exponentiation of engine/rsa.h over it. */
module MontExp {
  import opened Basics
  import opened ModArith
  import opened Limbs
  import opened Montgomery
  import opened Redc

  /** v is the reduced Montgomery form of x modulo m. */
  ghost predicate Stands(v: int, x: int, m: int, k: nat) {
    0 <= v < m && Cong(v, x * Weight(k), m)
  }

  /** An inverse of R modulo m, from the Montgomery constant. */
  ghost function InverseR(m: seq<u64>, n0: u64, k: nat): (inv: int)
    requires GoodN0(m, n0)
    ensures Cong(Weight(k) * inv, 1, Val(m))
  {
    InverseWord(m, n0);
    var s := (Val(m) * n0 + 1) / WORD;
    PowInverse(s, Val(m), k);
    Pow(s, k)
  }

  lemma InverseWord(m: seq<u64>, n0: u64)
    requires GoodN0(m, n0)
    ensures Cong(WORD * ((Val(m) * n0 + 1) / WORD), 1, Val(m))
  {
    var v := Val(m);
    FirstLimb(m);
    var hi, q := Val(m[1..]), (m[0] * n0 + 1) / WORD;
    assert m[0] * n0 + 1 == q * WORD;
    assert v * n0 + 1 == (q + hi * n0) * WORD by {
      WholeModulus(m[0], hi, n0, q, v);
    }
    DivUnique(v * n0 + 1, WORD, q + hi * n0, 0);
    CongBy(WORD * (q + hi * n0), 1, v, n0);
  }

  lemma WholeModulus(m0: int, hi: int, n0: int, q: int, v: int)
    requires v == m0 + WORD * hi && m0 * n0 + 1 == q * WORD
    ensures v * n0 + 1 == (q + hi * n0) * WORD
  {
    assert (m0 + WORD * hi) * n0 == m0 * n0 + (hi * n0) * WORD;
  }

  lemma {:induction false} PowInverse(s: int, m: int, k: nat)
    requires Cong(WORD * s, 1, m)
    ensures Cong(Weight(k) * Pow(s, k), 1, m)
  {
    if k == 0 {
      CongRefl(1, m);
    } else {
      PowInverse(s, m, k - 1);
      CongMul(WORD * s, 1, Weight(k - 1) * Pow(s, k - 1), 1, m);
      Exchange(WORD, s, Weight(k - 1), Pow(s, k - 1));
    }
  }

  /** A reduced product stands for the product of what its factors stand for. */
  lemma ProductStands(r: int, a: int, b: int, x: int, y: int, m: seq<u64>, n0: u64, k: nat)
    requires GoodN0(m, n0) && Reduced(r, a * b, Val(m), k)
    requires Stands(a, x, Val(m), k) && Stands(b, y, Val(m), k)
    ensures Stands(r, x * y, Val(m), k)
  {
    hide Val, Weight, Cong;
    var n, w := Val(m), Weight(k);
    CongMul(a, x * w, b, y * w, n);
    CongTrans(r * w, a * b, (x * w) * (y * w), n);
    Exchange(x, w, y, w);
    SwapFactors(r, w, x * y);
    CongCancel(w, InverseR(m, n0, k), r, (x * y) * w, n);
  }

  lemma SwapFactors(r: int, w: int, z: int)
    ensures r * w == w * r && z * (w * w) == w * (z * w)
  {
  }

  /** Multiplying a Montgomery form by 1 takes it out of that form. */
  lemma LeaveForm(r: int, a: int, x: int, m: seq<u64>, n0: u64, k: nat)
    requires GoodN0(m, n0) && Reduced(r, a, Val(m), k) && Stands(a, x, Val(m), k)
    ensures Cong(r, x, Val(m))
  {
    hide Val, Weight, Cong;
    var n, w := Val(m), Weight(k);
    CongTrans(r * w, a, x * w, n);
    assert r * w == w * r && x * w == w * x;
    CongCancel(w, InverseR(m, n0, k), r, x, n);
  }

  /** A product of a plain number and a Montgomery form is plain. */
  lemma MixedProduct(r: int, a: int, b: int, y: int, m: seq<u64>, n0: u64, k: nat)
    requires GoodN0(m, n0) && Reduced(r, a * b, Val(m), k) && Stands(b, y, Val(m), k)
    ensures Cong(r, a * y, Val(m))
  {
    hide Val, Weight, Cong;
    var n, w := Val(m), Weight(k);
    CongMulLeft(a, b, y * w, n);
    CongTrans(r * w, a * b, a * (y * w), n);
    assert r * w == w * r && a * (y * w) == w * (a * y);
    CongCancel(w, InverseR(m, n0, k), r, a * y, n);
  }

  /** Window w of the exponent: four bits of limb w / 16. */
  function Window(e: seq<u64>, w: nat): (d: nat)
    requires w < 16 * |e|
    ensures d < 16
  {
    PowPositive(16, w % 16);
    (e[w / 16] / Pow(16, w % 16)) % 16
  }

  /** The number the windows from w up make. */
  function HighWindows(e: seq<u64>, w: nat): (v: nat)
    requires w <= 16 * |e|
    decreases 16 * |e| - w
  {
    if w == 16 * |e| then 0 else 16 * HighWindows(e, w + 1) + Window(e, w)
  }

  lemma {:induction false} HighInLimb(e: seq<u64>, q: nat, r: nat)
    requires q < |e| && r <= 16
    ensures Pow(16, r) > 0
    ensures HighWindows(e, 16 * q + r) == e[q] / Pow(16, r) + Pow(16, 16 - r) * HighWindows(e, 16 * q + 16)
    decreases 16 - r
  {
    hide Pow;
    PowPositive(16, r);
    if r == 16 {
      Sixteen();
      PowZero(16);
      DivUnique(e[q], WORD, 0, e[q]);
    } else {
      HighInLimb(e, q, r + 1);
      var w := 16 * q + r;
      assert w / 16 == q && w % 16 == r;
      PowSucc(16, r);
      PowSucc(16, 15 - r);
      LimbStep(e[q], Pow(16, r), Pow(16, 15 - r), HighWindows(e, 16 * q + 16), HighWindows(e, w + 1));
    }
  }

  lemma LimbStep(x: int, p: int, t: int, h: int, above: int)
    requires x >= 0 && p > 0 && above == x / (16 * p) + t * h
    ensures 16 * above + (x / p) % 16 == x / p + (16 * t) * h
  {
    DropDigit(x, p, 16);
    assert 16 * (t * h) == (16 * t) * h;
  }

  lemma DropDigit(x: int, p: int, d: int)
    requires x >= 0 && p > 0 && d > 1
    ensures d * p > 0 && x / p == d * (x / (d * p)) + (x / p) % d
  {
    var q := x / p;
    var hi, lo := q / d, q % d;
    assert x == p * q + x % p;
    assert q == d * hi + lo;
    assert x == hi * (d * p) + (lo * p + x % p) by {
      assert p * (d * hi + lo) == hi * (d * p) + lo * p;
    }
    MulMono(0, lo, p);
    MulMono(lo, d - 1, p);
    assert (d - 1) * p == d * p - p;
    MulMono(1, d, p);
    DivUnique(x, d * p, hi, lo * p + x % p);
  }

  lemma Sixteen()
    ensures Pow(16, 16) == WORD
  {
    assert Pow(16, 4) == 65536;
    PowAdd(16, 4, 4);
    PowAdd(16, 8, 8);
  }

  /** The windows read the whole exponent. */
  lemma {:induction false} WindowsAreValue(e: seq<u64>, q: nat)
    requires q <= |e|
    ensures HighWindows(e, 16 * q) == Val(e[q..])
    decreases |e| - q
  {
    hide Pow, Val;
    if q < |e| {
      WindowsAreValue(e, q + 1);
      HighInLimb(e, q, 0);
      PowZero(16);
      Sixteen();
      FirstLimb(e[q..]);
      assert e[q..][1..] == e[q + 1..];
    } else {
      assert e[q..] == [];
      ValZeros(e[q..]);
    }
  }

  /** The powers 0..15 of a, Montgomery form. */
  method Table(a: seq<u64>, one: seq<u64>, m: seq<u64>, n0: u64, ghost x: int) returns (table: array<seq<u64>>)
    requires 1 <= |m| <= 64 && |a| == |one| == |m| && GoodN0(m, n0)
    requires Stands(Val(a), x, Val(m), |m|) && Stands(Val(one), 1, Val(m), |m|)
    ensures fresh(table) && table.Length == 16
    ensures forall i :: 0 <= i < 16 ==> |table[i]| == |m| && Stands(Val(table[i]), Pow(x, i), Val(m), |m|)
  {
    hide Val, Weight, GoodN0, Reduced, Pow, Stands;
    table := new seq<u64>[16](_ => one);
    table[1] := a;
    FirstPowers(x);
    StandsReduced(Val(a), x, Val(m), |m|);
    for i := 2 to 16
      invariant forall j :: 0 <= j < i ==> |table[j]| == |m| && Stands(Val(table[j]), Pow(x, j), Val(m), |m|)
    {
      StandsReduced(Val(table[i - 1]), Pow(x, i - 1), Val(m), |m|);
      var t := MontProduct(table[i - 1], a, m, n0, false);
      ProductStands(Val(t), Val(table[i - 1]), Val(a), Pow(x, i - 1), x, m, n0, |m|);
      PowSucc(x, i - 1);
      table[i] := t;
    }
  }

  lemma FirstPowers(x: int)
    ensures Pow(x, 0) == 1 && Pow(x, 1) == x
  {
  }

  /** The entry idx of the table, every entry read: each is masked by whether it is the
      one, and the masked entries are combined. */
  method Lookup(table: seq<seq<u64>>, idx: nat, k: nat) returns (sel: seq<u64>)
    requires |table| == 16 && idx < 16
    ensures sel == table[idx]
  {
    sel := ZeroLimbs(k);
    for i := 0 to 16
      invariant i > idx ==> sel == table[idx]
    {
      sel := Select(i == idx, table[i], sel);
    }
  }

  /** Squares acc four times: the exponent so far times 16. */
  method FourSquares(acc: seq<u64>, m: seq<u64>, n0: u64, ghost x: int, ghost n: nat) returns (r: seq<u64>)
    requires 1 <= |m| <= 64 && |acc| == |m| && GoodN0(m, n0)
    requires Stands(Val(acc), Pow(x, n), Val(m), |m|)
    ensures |r| == |m| && Stands(Val(r), Pow(x, 16 * n), Val(m), |m|)
  {
    hide Val, Weight, GoodN0, Reduced, Pow;
    r := acc;
    ghost var d := 1;
    for s := 0 to 4
      invariant d == [1, 2, 4, 8, 16][s]
      invariant |r| == |m| && Stands(Val(r), Pow(x, d * n), Val(m), |m|)
    {
      var t := MontProduct(r, r, m, n0, true);
      ProductStands(Val(t), Val(r), Val(r), Pow(x, d * n), Pow(x, d * n), m, n0, |m|);
      PowAdd(x, d * n, d * n);
      assert d * n + d * n == (2 * d) * n;
      r := t;
      d := 2 * d;
    }
  }

  /** viltrum_mont_exp: r = a^e, both Montgomery form, every window of e's limbs
      processed. */
  method MontPower(a: seq<u64>, e: seq<u64>, m: seq<u64>, n0: u64, one: seq<u64>, ghost x: int)
      returns (r: seq<u64>)
    requires 1 <= |m| <= 32 && |a| == |one| == |e| == |m| && GoodN0(m, n0)
    requires Stands(Val(a), x, Val(m), |m|) && Stands(Val(one), 1, Val(m), |m|)
    ensures |r| == |m| && Stands(Val(r), Pow(x, Val(e)), Val(m), |m|)
  {
    hide Val, Weight, GoodN0, Reduced, Pow, Stands;
    var k := |m|;
    var table := Table(a, one, m, n0, x);
    var rows := table[..];
    r := one;
    PowZero(x);
    var w := 16 * k;
    while w > 0
      invariant 0 <= w <= 16 * k
      invariant |r| == k && Stands(Val(r), Pow(x, HighWindows(e, w)), Val(m), k)
    {
      w := w - 1;
      ghost var n := HighWindows(e, w + 1);
      var sq := FourSquares(r, m, n0, x, n);
      var idx := Window(e, w);
      var sel := Lookup(rows, idx, k);
      StandsReduced(Val(sq), Pow(x, 16 * n), Val(m), k);
      StandsReduced(Val(sel), Pow(x, idx), Val(m), k);
      r := MontProduct(sq, sel, m, n0, false);
      ProductStands(Val(r), Val(sq), Val(sel), Pow(x, 16 * n), Pow(x, idx), m, n0, k);
      PowAdd(x, 16 * n, idx);
    }
    WindowsAreValue(e, 0);
    assert e[0..] == e;
  }

  lemma StandsReduced(v: int, x: int, m: int, k: nat)
    requires Stands(v, x, m, k)
    ensures 0 <= v < m
  {
  }
}
