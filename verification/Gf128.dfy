/** The field of GCM (section 6.3 of NIST SP 800-38D): polynomials over bits modulo
    x^128 + x^7 + x^2 + x + 1, coefficient 0 first as a block's bits stand. */
module Gf128 {
  import opened BitWriter

  type Poly = p: seq<bool> | |p| == 128 witness Zeros(128)

  /** The sum of two bit strings of one length. */
  function Add(a: seq<bool>, b: seq<bool>): (r: seq<bool>)
    requires |a| == |b|
    ensures |r| == |a| && forall i :: 0 <= i < |a| ==> r[i] == (a[i] != b[i])
  {
    seq(|a|, i requires 0 <= i < |a| => a[i] != b[i])
  }

  function Zero(): (z: Poly)
    ensures forall i :: 0 <= i < 128 ==> !z[i]
  {
    Zeros(128)
  }

  /** b or nothing. */
  function Pick(x: bool, b: Poly): Poly {
    if x then b else Zero()
  }

  /** x^128 reduced: 1 + x + x^2 + x^7. */
  function R(): (r: Poly)
    ensures forall i :: 0 <= i < 128 ==> r[i] == (i == 0 || i == 1 || i == 2 || i == 7)
  {
    seq(128, i => i == 0 || i == 1 || i == 2 || i == 7)
  }

  /** Shifted one coefficient up, the top one lost. */
  function Up(p: Poly): (r: Poly)
    ensures !r[0] && forall i :: 1 <= i < 128 ==> r[i] == p[i - 1]
  {
    [false] + p[..127]
  }

  /** Times x: V >> 1, and R added when a bit falls off. */
  function T(p: Poly): Poly {
    Add(Up(p), Pick(p[127], R()))
  }

  /** The multiplication of the standard, with any number of bits on the left: the sum of
      w[i] times x^i times c. */
  function Act(w: seq<bool>, c: Poly): Poly {
    if w == [] then Zero() else Add(Pick(w[0], c), T(Act(w[1..], c)))
  }

  function Mul(a: Poly, b: Poly): Poly {
    Act(a, b)
  }

  /** The one of the field. */
  function One(): (e: Poly)
    ensures forall i :: 0 <= i < 128 ==> e[i] == (i == 0)
  {
    seq(128, i => i == 0)
  }

  lemma TAdd(a: Poly, b: Poly)
    ensures T(Add(a, b)) == Add(T(a), T(b))
  {
    assert Up(Add(a, b)) == Add(Up(a), Up(b));
  }

  lemma PickAdd(x: bool, a: Poly, b: Poly)
    ensures Pick(x, Add(a, b)) == Add(Pick(x, a), Pick(x, b))
    ensures T(Pick(x, a)) == Pick(x, T(a))
  {
    TZero();
  }

  lemma TZero()
    ensures T(Zero()) == Zero()
  {
  }

  lemma AddAssoc(a: Poly, b: Poly, c: Poly)
    ensures Add(Add(a, b), c) == Add(a, Add(b, c))
  {
  }

  lemma AddComm(a: Poly, b: Poly)
    ensures Add(a, b) == Add(b, a)
  {
  }

  /** (a + b) + (c + d) = (a + c) + (b + d). */
  lemma AddSwap(a: Poly, b: Poly, c: Poly, d: Poly)
    ensures Add(Add(a, b), Add(c, d)) == Add(Add(a, c), Add(b, d))
  {
  }

  lemma AddZero(a: Poly)
    ensures Add(a, Zero()) == a && Add(Zero(), a) == a
  {
  }

  /** Linear on the right. */
  lemma {:induction false} ActAdd(w: seq<bool>, c: Poly, d: Poly)
    ensures Act(w, Add(c, d)) == Add(Act(w, c), Act(w, d))
  {
    hide Add, T, Pick;
    if w == [] {
      AddZero(Zero());
    } else {
      ActAdd(w[1..], c, d);
      PickAdd(w[0], c, d);
      TAdd(Act(w[1..], c), Act(w[1..], d));
      AddSwap(Pick(w[0], c), Pick(w[0], d), T(Act(w[1..], c)), T(Act(w[1..], d)));
    }
  }

  /** And on the left. */
  lemma {:induction false} AddAct(v: seq<bool>, w: seq<bool>, c: Poly)
    requires |v| == |w|
    ensures Act(Add(v, w), c) == Add(Act(v, c), Act(w, c))
  {
    hide T;
    if v == [] {
      assert Add(v, w) == [];
      AddZero(Zero());
    } else {
      assert Add(v, w)[1..] == Add(v[1..], w[1..]);
      AddAct(v[1..], w[1..], c);
      PickXor(v[0], w[0], c);
      TAdd(Act(v[1..], c), Act(w[1..], c));
      AddSwap(Pick(v[0], c), Pick(w[0], c), T(Act(v[1..], c)), T(Act(w[1..], c)));
    }
  }

  lemma PickXor(x: bool, y: bool, c: Poly)
    ensures Pick(x != y, c) == Add(Pick(x, c), Pick(y, c))
  {
  }

  /** Times x commutes with every multiple. */
  lemma {:induction false} ActT(w: seq<bool>, c: Poly)
    ensures Act(w, T(c)) == T(Act(w, c))
  {
    hide Add, T, Pick;
    if w == [] {
      TZero();
    } else {
      ActT(w[1..], c);
      PickAdd(w[0], c, c);
      TAdd(Pick(w[0], c), T(Act(w[1..], c)));
    }
  }

  lemma {:induction false} ActPick(w: seq<bool>, x: bool, c: Poly)
    ensures Act(w, Pick(x, c)) == Pick(x, Act(w, c))
  {
    if !x {
      ActZero(w);
    }
  }

  lemma {:induction false} ActZero(w: seq<bool>)
    ensures Act(w, Zero()) == Zero()
  {
    hide T;
    if w != [] {
      ActZero(w[1..]);
      TZero();
      AddZero(Zero());
    }
  }

  /** Two multiples in either order. */
  lemma {:induction false} ActSwap(v: seq<bool>, w: seq<bool>, c: Poly)
    ensures Act(v, Act(w, c)) == Act(w, Act(v, c))
  {
    hide Add, T, Pick;
    if v == [] {
      ActZero(w);
    } else {
      ActSwap(v[1..], w, c);
      ActAdd(w, Pick(v[0], c), T(Act(v[1..], c)));
      ActPick(w, v[0], c);
      ActT(w, Act(v[1..], c));
    }
  }

  function Pad(v: seq<bool>): (p: Poly)
    requires |v| <= 128
    ensures forall i :: 0 <= i < 128 ==> p[i] == (i < |v| && v[i])
  {
    v + Zeros(128 - |v|)
  }

  /** Up to 128 bits times one are themselves. */
  lemma {:induction false} ActOne(v: seq<bool>)
    requires |v| <= 128
    ensures Act(v, One()) == Pad(v)
  {
    if v != [] {
      ActOne(v[1..]);
    }
  }

  /** x^k for k below 128, and x^128. */
  function Power(k: nat): (p: Poly)
    requires k < 128
    ensures forall i :: 0 <= i < 128 ==> p[i] == (i == k)
  {
    seq(128, i => i == k)
  }

  /** k times x. */
  function Times(c: Poly, k: nat): Poly {
    if k == 0 then c else T(Times(c, k - 1))
  }

  lemma {:induction false} TimesOne(k: nat)
    requires k < 128
    ensures Times(One(), k) == Power(k)
  {
    if k > 0 {
      TimesOne(k - 1);
    }
  }

  lemma OneTimes128()
    ensures Times(One(), 128) == R()
  {
    OneAbove(127);
  }

  lemma OneAbove(k: nat)
    requires k == 127
    ensures Times(One(), k + 1) == R()
  {
    TimesOne(k);
  }

  lemma {:induction false} ActTimes(w: seq<bool>, c: Poly, k: nat)
    ensures Act(w, Times(c, k)) == Times(Act(w, c), k)
  {
    hide T;
    if k > 0 {
      ActTimes(w, c, k - 1);
      ActT(w, Times(c, k - 1));
    }
  }

  /** x^128 times anything is R times it. */
  lemma Reduces(c: Poly)
    ensures Times(c, 128) == Act(R(), c)
  {
    hide T, Act, Times, R;
    ActOne(c);
    PadSelf(c);
    ActTimes(c, One(), 128);
    OneTimes128();
    ActOne(R());
    PadSelf(R());
    ActSwap(c, R(), One());
  }

  lemma PadSelf(c: Poly)
    ensures Pad(c) == c
  {
  }

  lemma {:induction false} ActPush(w: seq<bool>, x: bool, c: Poly)
    ensures Act(w + [x], c) == Add(Act(w, c), Pick(x, Times(c, |w|)))
  {
    hide Add, T, Pick;
    if w == [] {
      assert w + [x] == [x] && [x][1..] == [];
      TZero();
      AddZero(Pick(x, c));
    } else {
      var rest := w[1..];
      assert (w + [x])[1..] == rest + [x];
      ActPush(rest, x, c);
      var p := Times(c, |rest|);
      TAdd(Act(rest, c), Pick(x, p));
      PickAdd(x, p, p);
      AddAssoc(Pick(w[0], c), T(Act(rest, c)), T(Pick(x, p)));
    }
  }

  /** Times x on the left is times x of the product. */
  lemma TAct(v: Poly, c: Poly)
    ensures Act(T(v), c) == T(Act(v, c))
  {
    hide Add, T, Pick, Act, Times, Up, R;
    var low := v[..127];
    AddAct(Up(v), Pick(v[127], R()), c);
    TParts(v);
    UpAct(low, c);
    PickAct(v[127], R(), c);
    Reduces(c);
    ActPush(low, v[127], c);
    assert v == low + [v[127]];
    TAdd(Act(low, c), Pick(v[127], Times(c, 127)));
    PickAdd(v[127], Times(c, 127), Zero());
    TimesNext(c, 127);
  }

  lemma TimesNext(c: Poly, k: nat)
    ensures var next := k + 1; Times(c, next) == T(Times(c, k))
  {
  }

  lemma TParts(v: Poly)
    ensures T(v) == Add(Up(v), Pick(v[127], R())) && Up(v) == [false] + v[..127]
  {
  }

  lemma UpAct(low: seq<bool>, c: Poly)
    ensures Act([false] + low, c) == T(Act(low, c))
  {
    assert ([false] + low)[1..] == low;
    AddZero(T(Act(low, c)));
  }

  lemma PickAct(x: bool, v: Poly, c: Poly)
    ensures Act(Pick(x, v), c) == Pick(x, Act(v, c))
  {
    if !x {
      ZeroAct(128, c);
    }
  }

  lemma {:induction false} ZeroAct(n: nat, c: Poly)
    ensures Act(Zeros(n), c) == Zero()
  {
    if n > 0 {
      assert Zeros(n)[1..] == Zeros(n - 1);
      ZeroAct(n - 1, c);
      TZero();
      AddZero(Zero());
    }
  }

  /** Multiplication is associative. */
  lemma {:induction false} ActAct(a: seq<bool>, b: Poly, c: Poly)
    ensures Act(Act(a, b), c) == Act(a, Act(b, c))
  {
    hide Add, T, Pick;
    if a == [] {
      ZeroAct(128, c);
    } else {
      ActAct(a[1..], b, c);
      AddAct(Pick(a[0], b), T(Act(a[1..], b)), c);
      PickAct(a[0], b, c);
      TAct(Act(a[1..], b), c);
    }
  }

  lemma MulAssoc(a: Poly, b: Poly, c: Poly)
    ensures Mul(Mul(a, b), c) == Mul(a, Mul(b, c))
  {
    ActAct(a, b, c);
  }
}
