/** GHASH (section 6.4 of NIST SP 800-38D) and its eight-block form in engine/aesgcm.h: one
    reduction for eight products with the powers of H. */
module Ghash {
  import opened Basics
  import opened BitWriter
  import opened Gf128
  import opened GfReduce
  import opened Clmul

  /** Block by block: Y = (Y + X) H. */
  function Serial(y: Poly, xs: seq<Poly>, h: Poly): Poly
    decreases |xs|
  {
    if xs == [] then y else Serial(Mul(Add(y, xs[0]), h), xs[1..], h)
  }

  function HPow(h: Poly, k: nat): Poly {
    if k == 0 then One() else Mul(HPow(h, k - 1), h)
  }

  lemma OneMul(h: Poly)
    ensures Mul(One(), h) == h
  {
    hide T;
    assert One() == [true] + Zeros(127);
    Leading(true, Zeros(127), h);
    ZeroAct(127, h);
    TZero();
    AddZero(h);
  }

  /** H before or after its own powers. */
  lemma {:induction false} PowerComm(h: Poly, k: nat)
    ensures Mul(h, HPow(h, k)) == HPow(h, k + 1)
  {
    hide Act;
    if k == 0 {
      TimesOneIs(h);
      OneMul(h);
    } else {
      PowerComm(h, k - 1);
      MulAssoc(h, HPow(h, k - 1), h);
    }
  }

  lemma {:induction false} SerialConcat(y: Poly, xs: seq<Poly>, zs: seq<Poly>, h: Poly)
    ensures Serial(y, xs + zs, h) == Serial(Serial(y, xs, h), zs, h)
    decreases |xs|
  {
    hide Act, Add;
    if xs == [] {
      assert xs + zs == zs;
    } else {
      assert (xs + zs)[1..] == xs[1..] + zs;
      SerialConcat(Mul(Add(y, xs[0]), h), xs[1..], zs, h);
    }
  }

  /** The blocks times falling powers of H, the first n of them. */
  function Weighted(xs: seq<Poly>, n: nat, h: Poly): Poly
    requires n <= |xs|
  {
    if n == 0 then Zero() else Add(Weighted(xs, n - 1, h), Mul(xs[n - 1], HPow(h, |xs| - (n - 1))))
  }

  lemma {:induction false} WeightedFront(xs: seq<Poly>, n: nat, h: Poly)
    requires 1 <= n <= |xs|
    ensures Weighted(xs, n, h) == Add(Mul(xs[0], HPow(h, |xs|)), Weighted(xs[1..], n - 1, h))
  {
    hide Act, Add, HPow;
    var first := Mul(xs[0], HPow(h, |xs|));
    if n == 1 {
      AddZero(first);
    } else {
      WeightedFront(xs, n - 1, h);
      AddAssoc(first, Weighted(xs[1..], n - 2, h), Mul(xs[n - 1], HPow(h, |xs| - (n - 1))));
    }
  }

  /** Horner's rule unrolled. */
  lemma {:induction false} SerialIs(y: Poly, xs: seq<Poly>, h: Poly)
    ensures Serial(y, xs, h) == Add(Mul(y, HPow(h, |xs|)), Weighted(xs, |xs|, h))
    decreases |xs|
  {
    hide Act, Add, HPow;
    if xs == [] {
      TimesOneIs(y);
      assert HPow(h, 0) == One() by {
        NoPower(h);
      }
      AddZero(y);
    } else {
      var rest, k := xs[1..], |xs| - 1;
      SerialIs(Mul(Add(y, xs[0]), h), rest, h);
      MulAssoc(Add(y, xs[0]), h, HPow(h, k));
      PowerComm(h, k);
      AddAct(y, xs[0], HPow(h, k + 1));
      WeightedFront(xs, |xs|, h);
      AddAssoc(Mul(y, HPow(h, k + 1)), Mul(xs[0], HPow(h, k + 1)), Weighted(rest, k, h));
    }
  }

  lemma NoPower(h: Poly)
    ensures HPow(h, 0) == One()
  {
  }

  /** With y added to the first block, nothing is left over. */
  lemma SerialWeighted(y: Poly, xs: seq<Poly>, h: Poly)
    requires xs != []
    ensures Serial(y, xs, h) == Weighted(xs[0 := Add(y, xs[0])], |xs|, h)
  {
    hide Act, Add, HPow, Weighted;
    SerialIs(y, xs, h);
    var zs, k := xs[0 := Add(y, xs[0])], |xs|;
    WeightedFront(xs, k, h);
    WeightedFront(zs, k, h);
    assert zs[1..] == xs[1..];
    AddAct(y, xs[0], HPow(h, k));
    AddAssoc(Mul(y, HPow(h, k)), Mul(xs[0], HPow(h, k)), Weighted(xs[1..], k - 1, h));
  }

  /** H's powers one to eight, and their folded halves. */
  class PowerTable {
    const h: Poly
    const hp: array<Poly>
    const hk: array<Poly>

    ghost predicate Valid()
      reads hp, hk
    {
      && hp.Length == 8 && hk.Length == 8 && hp != hk
      && (forall i :: 0 <= i < 8 ==> hp[i] == HPow(h, i + 1)) && (forall i :: 0 <= i < 8 ==> hk[i] == Folded2(hp[i]))
    }

    /** The part of viltrum_gcm_init that follows the cipher's key. */
    constructor (h: Poly)
      ensures Valid() && this.h == h && fresh(hp) && fresh(hk)
    {
      var p := MakePowers(h);
      var k := MakeFolded(p);
      this.h, hp, hk := h, p, k;
    }

    /** Eight blocks at a time with one reduction, then one at a time: the serial hash. */
    method Blocks(y: Poly, xs: seq<Poly>) returns (r: Poly)
      requires Valid()
      ensures r == Serial(y, xs, h)
    {
      hide Serial, Act, HPow, Folded2;
      r := y;
      var i := 0;
      assert xs[..0] == [];
      NoBlocks(y, h);
      while i + 8 <= |xs|
        invariant 0 <= i <= |xs| && r == Serial(y, xs[..i], h)
      {
        SerialConcat(y, xs[..i], xs[i..i + 8], h);
        assert xs[..i] + xs[i..i + 8] == xs[..i + 8];
        r := Eight(r, xs[i..i + 8]);
        i := i + 8;
      }
      while i < |xs|
        invariant 0 <= i <= |xs| && r == Serial(y, xs[..i], h)
      {
        SerialConcat(y, xs[..i], [xs[i]], h);
        assert xs[..i] + [xs[i]] == xs[..i + 1];
        OneBlock(r, xs[i], h);
        FirstPower(h);
        r := GfMul(Add(r, xs[i]), hp[0]);
        i := i + 1;
      }
      assert xs[..i] == xs;
    }

    /** Eight products summed before one reduction. */
    method Eight(y: Poly, xs: seq<Poly>) returns (r: Poly)
      requires Valid() && |xs| == 8
      ensures r == Serial(y, xs, h)
    {
      hide Serial, Act, HPow, Folded2, Kar;
      var lo, mid, hi := Zeros(128), Zeros(128), Zeros(128);
      ghost var zs := xs[0 := Add(y, xs[0])];
      KarNone(One());
      for k := 0 to 8
        invariant |lo| == |mid| == |hi| == 128 && !lo[0] && !mid[0] && !hi[0]
        invariant Kar(lo, mid, hi, One()) == Weighted(zs, k, h)
      {
        var x := if k == 0 then Add(y, xs[0]) else xs[k];
        var l, m, t := ClmulKar(x, hp[7 - k], hk[7 - k], lo, mid, hi);
        lo, mid, hi := l, m, t;
      }
      var l, t := KarFold(lo, mid, hi);
      r := Reduce(l, t);
      SerialWeighted(y, xs, h);
    }
  }

  method MakePowers(h: Poly) returns (p: array<Poly>)
    ensures fresh(p) && p.Length == 8 && forall i :: 0 <= i < 8 ==> p[i] == HPow(h, i + 1)
  {
    hide HPow, Act;
    p := new Poly[8](_ => Zeros(128));
    FirstPower(h);
    p[0] := h;
    for i := 1 to 8
      invariant forall j :: 0 <= j < i ==> p[j] == HPow(h, j + 1)
    {
      NextPower(h, i);
      var q := GfMul(p[i - 1], h);
      p[i] := q;
    }
  }

  method MakeFolded(p: array<Poly>) returns (k: array<Poly>)
    requires p.Length == 8
    ensures fresh(k) && k.Length == 8 && forall i :: 0 <= i < 8 ==> k[i] == Folded2(p[i])
  {
    hide Folded2;
    k := new Poly[8](_ => Zeros(128));
    for i := 0 to 8
      invariant forall j :: 0 <= j < i ==> k[j] == Folded2(p[j])
    {
      k[i] := Folded2(p[i]);
    }
  }

  lemma FirstPower(h: Poly)
    ensures HPow(h, 1) == h
  {
    hide Act;
    OneMul(h);
    assert HPow(h, 1) == Mul(HPow(h, 0), h);
  }

  lemma NextPower(h: Poly, i: nat)
    ensures var next := i + 1; HPow(h, next) == Mul(HPow(h, i), h)
  {
  }

  lemma NoBlocks(y: Poly, h: Poly)
    ensures Serial(y, [], h) == y
  {
  }

  lemma OneBlock(y: Poly, x: Poly, h: Poly)
    ensures Serial(y, [x], h) == Mul(Add(y, x), h)
  {
    assert [x][1..] == [];
  }
}
