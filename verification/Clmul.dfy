/** Carry-less products on registers of coefficients (engine/aesgcm.h): four-multiply and
    Karatsuba forms, summed unreduced, and the field product they come to. */
module Clmul {
  import opened Basics
  import opened BitWriter
  import opened Gf128
  import opened GfReduce

  /** The product of two bit strings as polynomials; its last place is empty. */
  function Prod(a: seq<bool>, b: seq<bool>): (r: seq<bool>)
    ensures |r| == |a| + |b|
  {
    if a == [] then Zeros(|b|)
    else Add((if a[0] then b else Zeros(|b|)) + Zeros(|a|), [false] + Prod(a[1..], b))
  }

  lemma {:induction false} ProdTop(a: seq<bool>, b: seq<bool>)
    requires |a| + |b| > 0
    ensures !Prod(a, b)[|a| + |b| - 1]
  {
    hide Prod;
    if a == [] {
      ProdEmpty(b);
    } else {
      var x := (if a[0] then b else Zeros(|b|)) + Zeros(|a|);
      var y := [false] + Prod(a[1..], b);
      ProdStep(a, b);
      TopAdded(x, y);
      assert !x[|x| - 1];
      if |a| + |b| > 1 {
        ProdTop(a[1..], b);
      }
    }
  }

  lemma ProdEmpty(b: seq<bool>)
    ensures Prod([], b) == Zeros(|b|)
  {
  }

  lemma TopAdded(x: seq<bool>, y: seq<bool>)
    requires |x| == |y| > 0
    ensures Add(x, y)[|x| - 1] == (x[|x| - 1] != y[|x| - 1])
  {
  }

  /** Multiplying by a product is multiplying twice. */
  lemma {:induction false} ProdAct(a: seq<bool>, b: seq<bool>, c: Poly)
    ensures Act(Prod(a, b), c) == Act(a, Act(b, c))
  {
    hide *;
    if a == [] {
      ProdNone(b, c);
    } else {
      var x := if a[0] then b else Zeros(|b|);
      var rest := Prod(a[1..], b);
      ProdStep(a, b);
      AddAct(x + Zeros(|a|), [false] + rest, c);
      TrailingZeros(x, |a|, c);
      UpAct(rest, c);
      ProdAct(a[1..], b, c);
      PickProd(a[0], b, c);
      Leading(a[0], a[1..], Act(b, c));
      assert a == [a[0]] + a[1..];
    }
  }

  lemma ProdNone(b: seq<bool>, c: Poly)
    ensures Act(Prod([], b), c) == Act([], Act(b, c))
  {
    ZeroAct(|b|, c);
  }

  lemma ProdStep(a: seq<bool>, b: seq<bool>)
    requires a != []
    ensures Prod(a, b) == Add((if a[0] then b else Zeros(|b|)) + Zeros(|a|), [false] + Prod(a[1..], b))
  {
  }

  lemma PickProd(x: bool, b: seq<bool>, c: Poly)
    ensures Act(if x then b else Zeros(|b|), c) == Pick(x, Act(b, c))
  {
    if !x {
      ZeroAct(|b|, c);
    }
  }

  /** The halves of a register: its low bits are the high coefficients. */
  function Low(p: Poly): (h: seq<bool>)
    ensures |h| == 64
  {
    p[64..]
  }

  function High(p: Poly): (h: seq<bool>)
    ensures |h| == 64
  {
    p[..64]
  }

  /** clmulepi64: 127 coefficients, which stand one place up. */
  function Half(x: seq<bool>, y: seq<bool>): (r: Poly)
    requires |x| == 64 && |y| == 64
    ensures !r[0]
  {
    [false] + Prod(x, y)[..127]
  }

  /** The value of a register that stands one place up. */
  ghost function V(r: Poly, c: Poly): Poly {
    Act(r[1..], c)
  }

  lemma VAdd(r: Poly, s: Poly, c: Poly)
    ensures V(Add(r, s), c) == Add(V(r, c), V(s, c))
  {
    hide Act;
    assert Add(r, s)[1..] == Add(r[1..], s[1..]);
    AddAct(r[1..], s[1..], c);
  }

  lemma VHalf(x: seq<bool>, y: seq<bool>, c: Poly)
    requires |x| == 64 && |y| == 64
    ensures V(Half(x, y), c) == Act(x, Act(y, c))
  {
    hide Act, Prod;
    var p := Prod(x, y);
    ProdTop(x, y);
    assert p == p[..127] + Zeros(1);
    TrailingZeros(p[..127], 1, c);
    ProdAct(x, y, c);
    assert Half(x, y)[1..] == p[..127];
  }

  lemma VZero(c: Poly)
    ensures V(Zero(), c) == Zero()
  {
    hide Act;
    assert Zero()[1..] == Zeros(127);
    ZeroAct(127, c);
  }

  /** 64 places up. */
  function X(p: Poly): Poly {
    Times(p, 64)
  }

  /** What the three sums of Karatsuba stand for. */
  ghost function Kar(lo: Poly, mid: Poly, hi: Poly, c: Poly): Poly {
    Add(Add(V(hi, c), X(Add(V(mid, c), Add(V(lo, c), V(hi, c))))), X(X(V(lo, c))))
  }

  /** viltrum_kar_fold: the sums as one 256-coefficient product. */
  method KarFold(lo: Poly, mid: Poly, hi: Poly) returns (l: Poly, h: Poly)
    requires !lo[0] && !mid[0] && !hi[0]
    ensures Act((h + l)[1..], One()) == Kar(lo, mid, hi, One())
  {
    hide Act, X;
    var m := Add(mid, Add(lo, hi));
    l := Add(lo, ByteSll(m, 8));
    h := Add(hi, ByteSrl(m, 8));
    Folded(lo, m, hi, l, h, One());
    VAdd(mid, Add(lo, hi), One());
    VAdd(lo, hi, One());
  }

  /** Three registers at 0, 64 and 128 places. */
  lemma Folded(lo: Poly, m: Poly, hi: Poly, l: Poly, h: Poly, c: Poly)
    requires !lo[0] && !m[0] && !hi[0] && l == Add(lo, ByteSll(m, 8)) && h == Add(hi, ByteSrl(m, 8))
    ensures Act((h + l)[1..], c) == Add(Add(V(hi, c), X(V(m, c))), X(X(V(lo, c))))
  {
    hide Act, Times;
    var x, y, z := hi[1..] + Zeros(128), Zeros(64) + (m[1..] + Zeros(64)), Zeros(128) + lo[1..];
    assert (h + l)[1..] == Add(Add(x, y), z) by {
      Places(lo, m, hi, l, h);
    }
    AddAct(Add(x, y), z, c);
    AddAct(x, y, c);
    TrailingZeros(hi[1..], 128, c);
    Skipped(64, m[1..] + Zeros(64), c);
    TrailingZeros(m[1..], 64, c);
    Skipped(128, lo[1..], c);
    TimesTimes(Act(lo[1..], c), 64, 64);
  }

  lemma Places(lo: Poly, m: Poly, hi: Poly, l: Poly, h: Poly)
    requires !lo[0] && !m[0] && !hi[0] && l == Add(lo, ByteSll(m, 8)) && h == Add(hi, ByteSrl(m, 8))
    ensures (h + l)[1..] == Add(Add(hi[1..] + Zeros(128), Zeros(64) + (m[1..] + Zeros(64))), Zeros(128) + lo[1..])
  {
    var w := (h + l)[1..];
    var r := Add(Add(hi[1..] + Zeros(128), Zeros(64) + (m[1..] + Zeros(64))), Zeros(128) + lo[1..]);
    forall i | 0 <= i < 255
      ensures w[i] == r[i]
    {
      if i < 127 {
        assert w[i] == h[i + 1];
      } else {
        assert w[i] == l[i - 127];
      }
    }
  }

  /** A register times a register, by their halves. */
  lemma HalvesAct(a: Poly, c: Poly)
    ensures Act(a, c) == Add(Act(High(a), c), X(Act(Low(a), c)))
  {
    hide Act, Times;
    assert a == High(a) + Low(a);
    Concat(High(a), Low(a), c);
  }

  /** Both registers by their halves. */
  lemma HalvesTwice(a: Poly, b: Poly, c: Poly)
    ensures var (a0, a1, b0, b1) := (High(a), Low(a), High(b), Low(b));
            Act(a, Act(b, c)) == Add(Add(Act(a0, Act(b0, c)), X(Add(Act(a0, Act(b1, c)), Act(a1, Act(b0, c))))),
                X(X(Act(a1, Act(b1, c)))))
  {
    hide Act, Add, Times;
    var a0, a1, b0, b1 := High(a), Low(a), High(b), Low(b);
    var p, q := Act(b0, c), Act(b1, c);
    HalvesAct(b, c);
    HalvesAct(a, Add(p, X(q)));
    ActAdd(a0, p, X(q));
    ActAdd(a1, p, X(q));
    ActTimes(a0, q, 64);
    ActTimes(a1, q, 64);
    TimesAdd(Act(a1, p), X(Act(a1, q)), 64);
    TimesAdd(Act(a0, q), Act(a1, p), 64);
    Gather(Act(a0, p), X(Act(a0, q)), X(Act(a1, p)), X(X(Act(a1, q))));
  }

  lemma Gather(a: Poly, b: Poly, c: Poly, d: Poly)
    ensures Add(Add(a, b), Add(c, d)) == Add(Add(a, Add(b, c)), d)
  {
  }

  /** Three products make the middle one. */
  lemma MiddleProduct(a0: seq<bool>, a1: seq<bool>, b0: seq<bool>, b1: seq<bool>, c: Poly)
    requires |a0| == |a1| == |b0| == |b1| == 64
    ensures Add(Act(Add(a1, a0), Act(Add(b1, b0), c)), Add(Act(a1, Act(b1, c)), Act(a0, Act(b0, c))))
         == Add(Act(a0, Act(b1, c)), Act(a1, Act(b0, c)))
  {
    hide Act, Add;
    AddAct(b1, b0, c);
    var p, q := Act(b0, c), Act(b1, c);
    AddAct(a1, a0, Add(q, p));
    ActAdd(a1, q, p);
    ActAdd(a0, q, p);
    Cancel(Act(a1, q), Act(a1, p), Act(a0, q), Act(a0, p));
  }

  lemma Cancel(a: Poly, b: Poly, c: Poly, d: Poly)
    ensures Add(Add(Add(a, b), Add(c, d)), Add(a, d)) == Add(c, b)
  {
  }

  /** Both halves of a register, XORed, in its low half. */
  function Folded2(p: Poly): (r: Poly)
    ensures Low(r) == Add(Low(p), High(p))
  {
    Add(p, Low(p) + High(p))
  }

  /** One product in Karatsuba's three. */
  lemma KarOne(a: Poly, b: Poly, c: Poly)
    ensures Kar(Half(Low(a), Low(b)), Half(Low(Folded2(a)), Low(Folded2(b))), Half(High(a), High(b)), c)
              == Act(a, Act(b, c))
  {
    hide Act, Add, Half, V, X, Low, High, Folded2;
    var a0, a1, b0, b1 := High(a), Low(a), High(b), Low(b);
    VHalf(a1, b1, c);
    VHalf(a0, b0, c);
    VHalf(Add(a1, a0), Add(b1, b0), c);
    MiddleProduct(a0, a1, b0, b1, c);
    HalvesTwice(a, b, c);
  }

  /** Sums in, sums out. */
  lemma KarAdd(l: Poly, m: Poly, h: Poly, l2: Poly, m2: Poly, h2: Poly, c: Poly)
    ensures Kar(Add(l, l2), Add(m, m2), Add(h, h2), c) == Add(Kar(l, m, h, c), Kar(l2, m2, h2, c))
  {
    hide V, Add, Times;
    VAdd(l, l2, c);
    VAdd(m, m2, c);
    VAdd(h, h2, c);
    var vl, vm, vh, wl, wm, wh := V(l, c), V(m, c), V(h, c), V(l2, c), V(m2, c), V(h2, c);
    AddSwap(vl, wl, vh, wh);
    AddSwap(vm, wm, Add(vl, vh), Add(wl, wh));
    TimesAdd(Add(vm, Add(vl, vh)), Add(wm, Add(wl, wh)), 64);
    TimesAdd(vl, wl, 64);
    TimesAdd(X(vl), X(wl), 64);
    AddSwap(vh, wh, X(Add(vm, Add(vl, vh))), X(Add(wm, Add(wl, wh))));
    AddSwap(Add(vh, X(Add(vm, Add(vl, vh)))), Add(wh, X(Add(wm, Add(wl, wh)))), X(X(vl)), X(X(wl)));
  }

  lemma KarNone(c: Poly)
    ensures Kar(Zero(), Zero(), Zero(), c) == Zero()
  {
    hide V, Add;
    VZero(c);
    AddZero(Zero());
    TimesZero(64);
  }

  lemma {:induction false} TimesZero(k: nat)
    ensures Times(Zero(), k) == Zero()
  {
    hide T;
    if k > 0 {
      TimesZero(k - 1);
      TZero();
    }
  }

  /** viltrum_clmul_kar: adds a times b to the sums; bk is b's halves folded. */
  method ClmulKar(a: Poly, b: Poly, bk: Poly, lo: Poly, mid: Poly, hi: Poly) returns (l: Poly, m: Poly, h: Poly)
    requires bk == Folded2(b) && !lo[0] && !mid[0] && !hi[0]
    ensures !l[0] && !m[0] && !h[0] && Kar(l, m, h, One()) == Add(Kar(lo, mid, hi, One()), Mul(a, b))
  {
    hide Act, Kar, Half, Low, High, Folded2;
    l := Add(lo, Half(Low(a), Low(b)));
    h := Add(hi, Half(High(a), High(b)));
    var ak := Folded2(a);
    m := Add(mid, Half(Low(ak), Low(bk)));
    KarAdd(lo, mid, hi, Half(Low(a), Low(b)), Half(Low(ak), Low(bk)), Half(High(a), High(b)), One());
    KarOne(a, b, One());
    TimesOneIs(b);
  }

  lemma TimesOneIs(b: Poly)
    ensures Act(b, One()) == b
  {
    ActOne(b);
    PadSelf(b);
  }

  /** viltrum_gf_mul: four products, reduced. */
  method GfMul(a: Poly, b: Poly) returns (r: Poly)
    ensures r == Mul(a, b)
  {
    hide Act, Half, Low, High, ByteSll, ByteSrl;
    var l := Half(Low(a), Low(b));
    var h := Half(High(a), High(b));
    var m := Add(Half(Low(a), High(b)), Half(High(a), Low(b)));
    var lo, hi := Add(l, ByteSll(m, 8)), Add(h, ByteSrl(m, 8));
    Wide(a, b, l, m, h, lo, hi);
    r := Reduce(lo, hi);
  }

  lemma Wide(a: Poly, b: Poly, l: Poly, m: Poly, h: Poly, lo: Poly, hi: Poly)
    requires l == Half(Low(a), Low(b)) && h == Half(High(a), High(b))
    requires m == Add(Half(Low(a), High(b)), Half(High(a), Low(b)))
    requires lo == Add(l, ByteSll(m, 8)) && hi == Add(h, ByteSrl(m, 8))
    ensures Act((hi + lo)[1..], One()) == Mul(a, b)
  {
    hide Act, Half, Low, High, V, X;
    var c := One();
    var a0, a1, b0, b1 := High(a), Low(a), High(b), Low(b);
    assert !m[0];
    Folded(l, m, h, lo, hi, c);
    VAdd(Half(a1, b0), Half(a0, b1), c);
    VHalf(a1, b1, c);
    VHalf(a0, b0, c);
    VHalf(a1, b0, c);
    VHalf(a0, b1, c);
    AddComm(Act(a1, Act(b0, c)), Act(a0, Act(b1, c)));
    HalvesTwice(a, b, c);
    TimesOneIs(b);
  }
}
