/** Polynomials over two elements as strings of bits, the highest power first, and the
    remainders of CRC-32: products without carries, powers of x, and the power series that
    Barrett reduction inverts. */
module CrcPoly {
  import opened Basics
  import opened Bits
  import opened BitWriter
  import opened Crc

  function Sum(a: seq<bool>, b: seq<bool>): (r: seq<bool>)
    requires |a| == |b|
    ensures |r| == |a| && forall i :: 0 <= i < |a| ==> r[i] == (a[i] != b[i])
  {
    seq(|a|, i requires 0 <= i < |a| => a[i] != b[i])
  }

  function Pick(x: bool, c: Word): (r: Word) {
    if x then c else Zeros(32)
  }

  /** The polynomial w times c. Divide(c, n) is c times x^n. */
  function Act(w: seq<bool>, c: Word): Word {
    if w == [] then Zeros(32) else Xor(Pick(w[0], Divide(c, |w| - 1)), Act(w[1..], c))
  }

  function One(): (w: Word)
    ensures w[31] && forall i :: 0 <= i < 31 ==> !w[i]
  {
    Zeros(31) + [true]
  }

  /** The remainder of w. */
  function Mod(w: seq<bool>): Word {
    Act(w, One())
  }

  lemma XorZero(a: Word)
    ensures Xor(a, Zeros(32)) == a && Xor(Zeros(32), a) == a && Xor(a, a) == Zeros(32)
  {
  }

  lemma XorSwap(a: Word, b: Word, c: Word, d: Word)
    ensures Xor(Xor(a, b), Xor(c, d)) == Xor(Xor(a, c), Xor(b, d))
  {
  }

  lemma PickSteps(x: bool, y: bool, c: Word, d: Word, n: nat)
    ensures Divide(Pick(x, c), n) == Pick(x, Divide(c, n))
    ensures Pick(x != y, c) == Xor(Pick(x, c), Pick(y, c))
    ensures Pick(x, Xor(c, d)) == Xor(Pick(x, c), Pick(x, d))
  {
    hide Xor, Divide;
    DivideZeros(n);
    XorZero(c);
    XorZero(Zeros(32));
  }

  lemma {:induction false} ActConcat(v: seq<bool>, w: seq<bool>, c: Word)
    ensures Act(v + w, c) == Xor(Divide(Act(v, c), |w|), Act(w, c))
    decreases |v|
  {
    hide Xor, Divide, Pick;
    if v == [] {
      assert v + w == w;
      DivideZeros(|w|);
      XorZero(Act(w, c));
    } else {
      var rest := v[1..];
      assert (v + w)[1..] == rest + w;
      ActConcat(rest, w, c);
      var top := Pick(v[0], Divide(c, |rest|));
      DivideLinear(top, Act(rest, c), |w|);
      PickSteps(v[0], false, Divide(c, |rest|), c, |w|);
      DivideAdd(c, |rest|, |w|);
      XorAssoc(Divide(top, |w|), Divide(Act(rest, c), |w|), Act(w, c));
    }
  }

  lemma {:induction false} ActSum(v: seq<bool>, w: seq<bool>, c: Word)
    requires |v| == |w|
    ensures Act(Sum(v, w), c) == Xor(Act(v, c), Act(w, c))
    decreases |v|
  {
    hide Xor, Divide, Pick;
    if v == [] {
      XorZero(Zeros(32));
    } else {
      assert Sum(v, w)[1..] == Sum(v[1..], w[1..]);
      ActSum(v[1..], w[1..], c);
      var d := Divide(c, |v| - 1);
      PickSteps(v[0], w[0], d, d, 0);
      XorSwap(Pick(v[0], d), Pick(w[0], d), Act(v[1..], c), Act(w[1..], c));
    }
  }

  lemma {:induction false} ActZeros(n: nat, c: Word)
    ensures Act(Zeros(n), c) == Zeros(32)
    decreases n
  {
    hide Xor, Divide;
    if n > 0 {
      assert Zeros(n)[1..] == Zeros(n - 1);
      ActZeros(n - 1, c);
      XorZero(Zeros(32));
    }
  }

  lemma {:induction false} ActXor(w: seq<bool>, c: Word, d: Word)
    ensures Act(w, Xor(c, d)) == Xor(Act(w, c), Act(w, d))
    decreases |w|
  {
    hide Xor, Divide, Pick;
    if w == [] {
      XorZero(Zeros(32));
    } else {
      var n := |w| - 1;
      ActXor(w[1..], c, d);
      DivideLinear(c, d, n);
      PickSteps(w[0], false, Divide(c, n), Divide(d, n), 0);
      XorSwap(Pick(w[0], Divide(c, n)), Pick(w[0], Divide(d, n)), Act(w[1..], c), Act(w[1..], d));
    }
  }

  lemma {:induction false} ActDivide(w: seq<bool>, c: Word, n: nat)
    ensures Act(w, Divide(c, n)) == Divide(Act(w, c), n)
    decreases |w|
  {
    hide Xor, Divide, Pick;
    if w == [] {
      DivideZeros(n);
    } else {
      var k := |w| - 1;
      ActDivide(w[1..], c, n);
      DivideAdd(c, n, k);
      DivideAdd(c, k, n);
      DivideLinear(Pick(w[0], Divide(c, k)), Act(w[1..], c), n);
      PickSteps(w[0], false, Divide(c, k), c, n);
    }
  }

  lemma ActPick(w: seq<bool>, x: bool, c: Word)
    ensures Act(w, Pick(x, c)) == Pick(x, Act(w, c))
  {
    hide Divide, Xor;
    if !x {
      ActNothing(w);
    }
  }

  lemma {:induction false} ActNothing(w: seq<bool>)
    ensures Act(w, Zeros(32)) == Zeros(32)
    decreases |w|
  {
    hide Xor, Divide;
    if w != [] {
      ActNothing(w[1..]);
      DivideZeros(|w| - 1);
      XorZero(Zeros(32));
    }
  }

  /** Multiplying by two polynomials, either first. */
  lemma {:induction false} ActSwap(v: seq<bool>, w: seq<bool>, c: Word)
    ensures Act(v, Act(w, c)) == Act(w, Act(v, c))
    decreases |v|
  {
    hide Xor, Divide, Pick;
    if v == [] {
      ActNothing(w);
    } else {
      var k := |v| - 1;
      ActSwap(v[1..], w, c);
      ActXor(w, Pick(v[0], Divide(c, k)), Act(v[1..], c));
      ActPick(w, v[0], Divide(c, k));
      ActDivide(w, c, k);
    }
  }

  lemma OneMoves(k: nat)
    requires k < 32
    ensures var w := Divide(One(), k); w[31 - k] && forall i :: 0 <= i < 32 && i != 31 - k ==> !w[i]
  {
    hide Divide;
    DivideShifts(One(), k);
  }

  /** A short polynomial is its own remainder. */
  lemma {:induction false} ModShort(w: seq<bool>)
    requires |w| <= 32
    ensures Mod(w) == Zeros(32 - |w|) + w
    decreases |w|
  {
    hide Divide;
    if w != [] {
      ModShort(w[1..]);
      OneMoves(|w| - 1);
    }
  }

  lemma ModConcat(v: seq<bool>, w: seq<bool>)
    ensures Mod(v + w) == Xor(Divide(Mod(v), |w|), Mod(w))
  {
    ActConcat(v, w, One());
  }

  /** Zeros behind a polynomial multiply it by a power of x. */
  lemma ModZeros(v: seq<bool>, n: nat)
    ensures Mod(v + Zeros(n)) == Divide(Mod(v), n)
  {
    hide Act, Divide, Xor;
    ModConcat(v, Zeros(n));
    ActZeros(n, One());
    XorZero(Divide(Mod(v), n));
  }

  /** A polynomial acts as its remainder does. */
  lemma ActIsMod(w: seq<bool>, c: Word)
    ensures Act(w, c) == Act(c, Mod(w))
  {
    hide Act, Divide, Xor;
    ActSwap(c, w, One());
    ModShort(c);
    assert Zeros(0) + c == c;
  }

  /** One congruent to a power of x multiplies by it. */
  lemma PowerActs(k: seq<bool>, n: nat, c: Word)
    requires Mod(k) == Divide(One(), n)
    ensures Act(k, c) == Divide(c, n)
  {
    hide Act, Divide, Xor;
    ActIsMod(k, c);
    ActDivide(c, One(), n);
    ModShort(c);
    assert Zeros(0) + c == c;
  }

  /** One congruent to zero. */
  lemma NoneActs(k: seq<bool>, c: Word)
    requires Mod(k) == Zeros(32)
    ensures Act(k, c) == Zeros(32)
  {
    hide Act;
    ActIsMod(k, c);
    ActNothing(c);
  }

  function PickBits(x: bool, b: seq<bool>): (r: seq<bool>)
    ensures |r| == |b|
  {
    if x then b else Zeros(|b|)
  }

  /** The product without carries. */
  function Prod(a: seq<bool>, b: seq<bool>): (r: seq<bool>)
    requires b != []
    ensures |r| == |a| + |b| - 1
  {
    if a == [] then Zeros(|b| - 1)
    else Sum(PickBits(a[0], b) + Zeros(|a| - 1), [false] + Prod(a[1..], b))
  }

  lemma {:induction false} ProdAct(a: seq<bool>, b: seq<bool>, c: Word)
    requires b != []
    ensures Act(Prod(a, b), c) == Act(a, Act(b, c))
    decreases |a|
  {
    hide Xor, Divide, Pick, Sum, PickBits;
    if a == [] {
      ActZeros(|b| - 1, c);
    } else {
      var n, rest := |a| - 1, Prod(a[1..], b);
      ProdAct(a[1..], b, c);
      ActSum(PickBits(a[0], b) + Zeros(n), [false] + rest, c);
      ActConcat(PickBits(a[0], b), Zeros(n), c);
      ActZeros(n, c);
      XorZero(Divide(Act(PickBits(a[0], b), c), n));
      ActPickBits(a[0], b, c);
      PickSteps(a[0], false, Act(b, c), c, n);
      LeadingZero(rest, c);
    }
  }

  lemma ActPickBits(x: bool, b: seq<bool>, c: Word)
    ensures Act(PickBits(x, b), c) == Pick(x, Act(b, c))
  {
    if !x {
      ActZeros(|b|, c);
    }
  }

  lemma LeadingZero(w: seq<bool>, c: Word)
    ensures Act([false] + w, c) == Act(w, c)
  {
    hide Divide, Xor;
    assert ([false] + w)[1..] == w;
    XorZero(Act(w, c));
  }

  /** Zeros behind a factor stand behind the product. */
  lemma {:induction false} ProdTail(a: seq<bool>, b: seq<bool>, n: nat)
    requires b != []
    ensures Prod(a, b + Zeros(n)) == Prod(a, b) + Zeros(n)
    decreases |a|
  {
    if a == [] {
      assert Zeros(|b| + n - 1) == Zeros(|b| - 1) + Zeros(n);
    } else {
      ProdTail(a[1..], b, n);
      assert PickBits(a[0], b + Zeros(n)) + Zeros(|a| - 1) == PickBits(a[0], b) + Zeros(|a| - 1) + Zeros(n);
    }
  }

  lemma {:induction false} ProdZeros(n: nat, b: seq<bool>)
    requires b != []
    ensures Prod(Zeros(n), b) == Zeros(n + |b| - 1)
    decreases n
  {
    if n > 0 {
      assert Zeros(n)[1..] == Zeros(n - 1);
      ProdZeros(n - 1, b);
    }
  }

  lemma {:induction false} ProdPad(a: seq<bool>, n: nat, b: seq<bool>)
    requires b != []
    ensures Prod(a + Zeros(n), b) == Prod(a, b) + Zeros(n)
    decreases |a|
  {
    if a == [] {
      assert a + Zeros(n) == Zeros(n);
      ProdZeros(n, b);
    } else {
      assert (a + Zeros(n))[1..] == a[1..] + Zeros(n);
      ProdPad(a[1..], n, b);
    }
  }

  /** The power series a times c, to 32 places, the constant term first. */
  function Series(a: seq<bool>, c: Word): Word {
    if a == [] then Zeros(32) else Xor(Pick(a[0], c), Shl(Series(a[1..], c), 1))
  }

  lemma ShlXor(a: Word, b: Word)
    ensures Shl(Xor(a, b), 1) == Xor(Shl(a, 1), Shl(b, 1)) && Shl(Zeros(32), 1) == Zeros(32)
  {
  }

  /** The first 32 places of a product are those of the series. */
  lemma {:induction false} ProdSeries(a: seq<bool>, b: seq<bool>)
    requires |b| == 33
    ensures Prod(a, b)[..32] == Series(a, b[..32])
    decreases |a|
  {
    if a != [] {
      ProdSeries(a[1..], b);
      var rest := Prod(a[1..], b);
      assert Shl(rest[..32], 1) == ([false] + rest)[..32];
      assert (PickBits(a[0], b) + Zeros(|a| - 1))[..32] == Pick(a[0], b[..32]);
    }
  }

  lemma {:induction false} SeriesSum(a: seq<bool>, b: seq<bool>, c: Word)
    requires |a| == |b|
    ensures Series(Sum(a, b), c) == Xor(Series(a, c), Series(b, c))
    decreases |a|
  {
    hide Xor, Shl, Pick;
    if a == [] {
      XorZero(Zeros(32));
    } else {
      assert Sum(a, b)[1..] == Sum(a[1..], b[1..]);
      SeriesSum(a[1..], b[1..], c);
      PickSteps(a[0], b[0], c, c, 0);
      ShlXor(Series(a[1..], c), Series(b[1..], c));
      XorSwap(Pick(a[0], c), Pick(b[0], c), Shl(Series(a[1..], c), 1), Shl(Series(b[1..], c), 1));
    }
  }

  lemma {:induction false} SeriesZeros(n: nat, c: Word)
    ensures Series(Zeros(n), c) == Zeros(32)
    decreases n
  {
    hide Xor, Shl;
    if n > 0 {
      assert Zeros(n)[1..] == Zeros(n - 1);
      SeriesZeros(n - 1, c);
      XorZero(Zeros(32));
      ShlXor(Zeros(32), Zeros(32));
    }
  }

  lemma SeriesPick(x: bool, b: Word, c: Word)
    ensures Series(Pick(x, b), c) == Pick(x, Series(b, c))
  {
    if !x {
      SeriesZeros(32, c);
    }
  }

  /** The term past the last place has no effect. */
  lemma {:induction false} SeriesPush(a: seq<bool>, x: bool, c: Word)
    requires |a| <= 32
    ensures Series(a + [x], c) == Xor(Series(a, c), Pick(x, Shl(c, |a|)))
    decreases |a|
  {
    hide Xor, Pick;
    if a == [] {
      assert [] + [x] == [x] && [x][1..] == [];
      ShlXor(c, c);
      ShlZero(c);
      XorZero(Pick(x, c));
    } else {
      hide Shl;
      assert (a + [x])[1..] == a[1..] + [x];
      SeriesPush(a[1..], x, c);
      ShlXor(Series(a[1..], c), Pick(x, Shl(c, |a| - 1)));
      ShlPick(x, c, |a| - 1);
      XorAssoc(Pick(a[0], c), Shl(Series(a[1..], c), 1), Pick(x, Shl(c, |a|)));
    }
  }

  lemma ShlPick(x: bool, c: Word, n: nat)
    requires n <= 31
    ensures Shl(Pick(x, Shl(c, n)), 1) == Pick(x, Shl(c, n + 1)) && Shl(c, 32) == Zeros(32)
  {
  }

  lemma SeriesShl(a: Word, c: Word)
    ensures Series(Shl(a, 1), c) == Shl(Series(a, c), 1)
  {
    hide Xor, Pick, Series;
    var low := a[..31];
    assert a == low + [a[31]] && Shl(a, 1) == [false] + low;
    SeriesPush(low, a[31], c);
    ShlXor(Series(low, c), Pick(a[31], Shl(c, 31)));
    ShlPick(a[31], c, 31);
    PickNone(a[31]);
    XorZero(Shl(Series(low, c), 1));
    SeriesFalse(low, c);
  }

  lemma PickNone(x: bool)
    ensures Pick(x, Zeros(32)) == Zeros(32)
  {
  }

  lemma SeriesFalse(w: seq<bool>, c: Word)
    ensures Series([false] + w, c) == Shl(Series(w, c), 1)
  {
    hide Xor, Shl;
    assert ([false] + w)[1..] == w;
    XorZero(Shl(Series(w, c), 1));
  }

  lemma {:induction false} SeriesSeries(a: seq<bool>, b: Word, c: Word)
    ensures Series(Series(a, b), c) == Series(a, Series(b, c))
    decreases |a|
  {
    hide Xor, Shl, Pick;
    if a == [] {
      SeriesZeros(32, c);
    } else {
      var rest := Series(a[1..], b);
      SeriesSeries(a[1..], b, c);
      XorIsSum(Pick(a[0], b), Shl(rest, 1));
      SeriesSum(Pick(a[0], b), Shl(rest, 1), c);
      SeriesPick(a[0], b, c);
      SeriesShl(rest, c);
    }
  }

  lemma XorIsSum(a: Word, b: Word)
    ensures Xor(a, b) == Sum(a, b)
  {
  }

  function Unit(): Word {
    [true] + Zeros(31)
  }

  lemma {:induction false} SeriesUnit(a: seq<bool>)
    requires |a| <= 32
    ensures Series(a, Unit()) == a + Zeros(32 - |a|)
    decreases |a|
  {
    if a != [] {
      SeriesUnit(a[1..]);
    }
  }

  /** The first 32 places of a product with a series and with its inverse are the first. */
  lemma Barrett(t: Word, mu: seq<bool>, p: seq<bool>)
    requires |mu| == |p| == 33 && Series(mu[..32], p[..32]) == Unit()
    ensures Prod(Prod(t, mu)[..32], p)[..32] == t
  {
    hide Prod, Series;
    ProdSeries(t, mu);
    var q := Series(t, mu[..32]);
    ProdSeries(q, p);
    SeriesSeries(t, mu[..32], p[..32]);
    SeriesUnit(t);
    assert t + Zeros(0) == t;
  }

  lemma {:induction false} SeriesXor(a: seq<bool>, c: Word, d: Word)
    ensures Series(a, Xor(c, d)) == Xor(Series(a, c), Series(a, d))
    decreases |a|
  {
    hide Xor, Shl, Pick;
    if a == [] {
      XorZero(Zeros(32));
    } else {
      SeriesXor(a[1..], c, d);
      PickSteps(a[0], false, c, d, 0);
      ShlXor(Series(a[1..], c), Series(a[1..], d));
      XorSwap(Pick(a[0], c), Pick(a[0], d), Shl(Series(a[1..], c), 1), Shl(Series(a[1..], d), 1));
    }
  }

  /** A product of series, either first. */
  lemma SeriesComm(a: Word, b: Word)
    ensures Series(a, b) == Series(b, a)
  {
    hide Series;
    SeriesSwap(a, b, Unit());
    SeriesUnit(a);
    SeriesUnit(b);
    assert a + Zeros(0) == a && b + Zeros(0) == b;
  }

  lemma {:induction false} SeriesSwap(a: seq<bool>, b: seq<bool>, c: Word)
    ensures Series(a, Series(b, c)) == Series(b, Series(a, c))
    decreases |a|
  {
    hide Xor, Shl, Pick;
    if a == [] {
      SeriesNothing(b);
    } else {
      SeriesSwap(a[1..], b, c);
      SeriesXor(b, Pick(a[0], c), Shl(Series(a[1..], c), 1));
      SeriesPickArg(b, a[0], c);
      SeriesShlArg(b, Series(a[1..], c));
    }
  }

  lemma {:induction false} SeriesNothing(b: seq<bool>)
    ensures Series(b, Zeros(32)) == Zeros(32)
    decreases |b|
  {
    hide Xor, Shl;
    if b != [] {
      SeriesNothing(b[1..]);
      XorZero(Zeros(32));
      ShlXor(Zeros(32), Zeros(32));
    }
  }

  lemma SeriesPickArg(b: seq<bool>, x: bool, c: Word)
    ensures Series(b, Pick(x, c)) == Pick(x, Series(b, c))
  {
    if !x {
      SeriesNothing(b);
    }
  }

  lemma {:induction false} SeriesShlArg(b: seq<bool>, c: Word)
    ensures Series(b, Shl(c, 1)) == Shl(Series(b, c), 1)
    decreases |b|
  {
    hide Xor, Shl;
    if b == [] {
      ShlXor(c, c);
    } else {
      SeriesShlArg(b[1..], c);
      ShlXor(Pick(b[0], c), Shl(Series(b[1..], c), 1));
      ShlXor(c, c);
    }
  }

  /** The register after some bytes: the start moved up, and the bits' remainder. */
  lemma {:induction false} RegisterIs(c: Word, s: seq<byte>)
    ensures Register(c, s) == Xor(Divide(c, 8 * |s|), Divide(Mod(ByteBits(s)), 32))
    decreases |s|
  {
    hide Xor, Divide, Act, OfByte, Lsb;
    if s == [] {
      NoBits(c);
      ActZeros(0, One());
      assert ByteBits(s) == Zeros(0);
      DivideZeros(32);
      XorZero(c);
    } else {
      var n := |s| - 1;
      var b, before := s[n], s[..n];
      RegisterIs(c, before);
      ModConcat(ByteBits(before), Lsb(b, 8));
      var x, y, z := Divide(c, 8 * n), Divide(Mod(ByteBits(before)), 32), Mod(Lsb(b, 8));
      ByteMod(b);
      DivideLinear(Xor(x, y), OfByte(b), 8);
      DivideLinear(x, y, 8);
      DivideAdd(c, 8 * n, 8);
      DivideLinear(Divide(Mod(ByteBits(before)), 8), z, 32);
      DivideAdd(Mod(ByteBits(before)), 8, 32);
      DivideAdd(Mod(ByteBits(before)), 32, 8);
      XorAssoc(Divide(x, 8), Divide(y, 8), Divide(z, 32));
    }
  }

  lemma ByteMod(b: byte)
    ensures Divide(OfByte(b), 8) == Divide(Mod(Lsb(b, 8)), 32)
  {
    hide Divide, Act, Lsb;
    LsbByte(b, 24);
    LsbZero(24);
    assert OfByte(b) == Lsb(b, 8) + Zeros(24);
    ModZeros(Lsb(b, 8), 24);
    ModShort(OfByte(b));
    assert Zeros(0) + OfByte(b) == OfByte(b);
    DivideAdd(Mod(Lsb(b, 8)), 24, 8);
  }
}
