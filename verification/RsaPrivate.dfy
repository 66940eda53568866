/** viltrum_rsa_private in engine/rsa.h: the key, its blinding pair and the operation. */
module RsaPrivate {
  import opened Basics
  import opened ModArith
  import opened Limbs
  import opened Montgomery
  import opened Redc
  import opened MontExp
  import opened RsaBytes
  import opened RsaMath
  import opened RsaKey

  /** s = x^d modulo one prime: reduced, taken to Montgomery form by R^3, raised and taken
      out of the form. */
  method Half(x: seq<u64>, d: seq<u64>, p: seq<u64>, n0: u64, r3: seq<u64>, one: seq<u64>) returns (s: seq<u64>)
    requires 1 <= |p| <= 32 && |x| == 2 * |p| && |d| == |r3| == |one| == |p| && GoodN0(p, n0)
    requires Val(x) < Val(p) * Weight(|p|) && 1 < Val(p)
    requires Stands(Val(r3), Weight(|p|) * Weight(|p|), Val(p), |p|) && Stands(Val(one), 1, Val(p), |p|)
    ensures |s| == |p| && Val(s) < Val(p) && Cong(Val(s), Pow(Val(x), Val(d)), Val(p))
  {
    hide Val, Weight, Cong, GoodN0, Pow, Stands, Reduced;
    var h := |p|;
    var t := MontRedc(x, p, n0);
    ReducedBound(Val(t), Val(x), Val(p), h);
    StandsReduced(Val(r3), Weight(h) * Weight(h), Val(p), h);
    var t2 := MontProduct(t, r3, p, n0, false);
    EnterByCube(Val(t2), Val(t), Val(x), Val(r3), p, n0, h);
    var sm := MontPower(t2, d, p, n0, one, Val(x));
    StandsReduced(Val(sm), Pow(Val(x), Val(d)), Val(p), h);
    var unit: seq<u64> := [1] + ZeroLimbs(h - 1);
    OneIsOne(h);
    s := MontProduct(sm, unit, p, n0, false);
    LeaveForm(Val(s), Val(sm), Pow(Val(x), Val(d)), p, n0, h);
    ReducedBound(Val(s), Val(sm), Val(p), h);
  }

  lemma EnterByCube(t2: int, t: int, x: int, r3: int, p: seq<u64>, n0: u64, h: nat)
    requires GoodN0(p, n0) && Reduced(t, x, Val(p), h) && Reduced(t2, t * r3, Val(p), h)
    requires Stands(r3, Weight(h) * Weight(h), Val(p), h)
    ensures Stands(t2, x, Val(p), h)
  {
    hide Val, Weight, Cong;
    var w, n := Weight(h), Val(p);
    MixedProduct(t2, t, r3, w * w, p, n0, h);
    CongMulLeft(w, t * w, x, n);
    assert t * (w * w) == w * (t * w) && w * x == x * w by {
      Rotate(t, w, w);
    }
    CongTrans(t2, w * (t * w), x * w, n);
  }

  /** x = s2 + ((s1 - s2) / q mod p) * q: below p * q, s1 modulo p and s2 modulo q. */
  method Recombine(s1: seq<u64>, s2: seq<u64>, p: seq<u64>, q: seq<u64>, n0: u64, qinv: seq<u64>)
      returns (x: seq<u64>)
    requires 1 <= |p| <= 32 && |s1| == |s2| == |q| == |qinv| == |p| && GoodN0(p, n0)
    requires Val(s1) < Val(p) && Val(s2) < Val(q) < 2 * Val(p) && Val(qinv) < Val(p)
    requires Cong(Val(q) * Val(qinv), Weight(|p|), Val(p))
    ensures |x| == 2 * |p| && Val(x) < Val(p) * Val(q)
    ensures Cong(Val(x), Val(s1), Val(p)) && Cong(Val(x), Val(s2), Val(q))
  {
    hide Val, Weight, Cong, GoodN0, Reduced;
    var h := |p|;
    var d := SubtractMod(s1, s2, p);
    var t := MontProduct(d, qinv, p, n0, false);
    ReducedBound(Val(t), Val(d) * Val(qinv), Val(p), h);
    var prod := Schoolbook(t, q);
    var wide := s2 + ZeroLimbs(h);
    Padded(s2, h);
    var sum, c := AddLimbs(prod[..], wide);
    x := sum[..];
    ghost var whole := Val(t) * Val(q) + Val(s2);
    assert Val(x) + c * Weight(2 * h) == whole;
    BelowProduct(Val(t), Val(q), Val(s2), Val(p));
    ProductFits(p, q);
    NoCarry(Val(x), c, Weight(2 * h), whole);
    QuotientTimesQ(Val(t), Val(d), Val(q), Val(qinv), p, n0, h);
    CombinedCongruences(Val(x), Val(t), Val(d), Val(s1), Val(s2), Val(p), Val(q));
  }

  lemma NoCarry(x: int, c: int, w: int, whole: int)
    requires 0 <= x && 0 <= c && 0 < w && x + c * w == whole < w
    ensures x == whole
  {
    if c >= 1 {
      MulMono(1, c, w);
    }
  }

  lemma Padded(s: seq<u64>, n: nat)
    ensures Val(s + ZeroLimbs(n)) == Val(s)
  {
    var z := s + ZeroLimbs(n);
    ValSplit(z, |s|);
    assert z[..|s|] == s && z[|s|..] == ZeroLimbs(n);
    ValZeros(ZeroLimbs(n));
  }

  lemma BelowProduct(t: int, q: int, s2: int, p: int)
    requires 0 <= t < p && 0 <= s2 < q
    ensures 0 <= t * q + s2 < p * q
  {
    MulMono(t, p - 1, q);
    MulMono(0, t, q);
    assert (p - 1) * q == p * q - q;
  }

  lemma ProductFits(p: seq<u64>, q: seq<u64>)
    requires |p| == |q|
    ensures Val(p) * Val(q) < Weight(2 * |p|)
  {
    hide Val, Weight;
    ValBound(p);
    ValBound(q);
    WeightAdd(|p|, |p|);
    var w := Weight(|p|);
    MulMono(Val(p), w, Val(q));
    MulMono(Val(q) + 1, w, w);
    assert (Val(q) + 1) * w == w * Val(q) + w;
  }

  /** The quotient's product with q is the difference, modulo p. */
  lemma QuotientTimesQ(t: int, d: int, q: int, qinv: int, p: seq<u64>, n0: u64, h: nat)
    requires GoodN0(p, n0) && Reduced(t, d * qinv, Val(p), h) && Cong(q * qinv, Weight(h), Val(p))
    ensures Cong(q * t, d, Val(p))
  {
    hide Val, Weight, Cong;
    var w, n := Weight(h), Val(p);
    CongMulLeft(q, t * w, d * qinv, n);
    CongMulLeft(d, q * qinv, w, n);
    assert q * (d * qinv) == d * (q * qinv) by {
      Rotate(q, d, qinv);
      assert d * (q * qinv) == (q * qinv) * d;
    }
    assert q * (t * w) == w * (q * t) by {
      Rotate(q, t, w);
      Rotate(w, q, t);
      assert (q * w) * t == (w * t) * q by { Rotate3(q, w, t); Rotate3(w, t, q); }
    }
    CongTrans(w * (q * t), d * (q * qinv), d * w, n);
    assert d * w == w * d;
    CongCancel(w, InverseR(p, n0, h), q * t, d, n);
  }

  lemma CombinedCongruences(x: int, t: int, d: int, s1: int, s2: int, p: int, q: int)
    requires x == t * q + s2 && Cong(q * t, d, p) && Cong(d, s1 - s2, p)
    ensures Cong(x, s1, p) && Cong(x, s2, q)
  {
    CongTrans(q * t, d, s1 - s2, p);
    CongRefl(s2, p);
    CongAdd(q * t, s1 - s2, s2, s2, p);
    assert q * t + s2 == x && s1 - s2 + s2 == s1;
    CongBy(x, s2, q, t);
  }

  /** One private key with its blinding pair, as viltrum_rsa_load leaves it. */
  class Key {
    const limbs: nat
    const e: u64
    const n: seq<u64>
    const nN0: u64
    const nR2: seq<u64>
    const p: seq<u64>
    const q: seq<u64>
    const dp: seq<u64>
    const dq: seq<u64>
    const pN0: u64
    const qN0: u64
    const pR3: seq<u64>
    const qR3: seq<u64>
    const pOne: seq<u64>
    const qOne: seq<u64>
    const qinvM: seq<u64>
    const blVi: array<u64>
    const blVf: array<u64>

    /** The shape and the constants of a loaded key. */
    ghost predicate Loaded() {
      && 1 <= |p| <= 32 && limbs == |n| == 2 * |p| && e >= 1
      && |q| == |dp| == |dq| == |pR3| == |qR3| == |pOne| == |qOne| == |qinvM| == |p|
      && |nR2| == blVi.Length == blVf.Length == |n| && blVi != blVf
      && GoodN0(n, nN0) && GoodN0(p, pN0) && GoodN0(q, qN0)
      && Val(n) == Val(p) * Val(q) && 1 < Val(p) && 1 < Val(q) < 2 * Val(p)
      && Stands(Val(nR2), Weight(|n|), Val(n), |n|)
      && Stands(Val(pR3), Weight(|p|) * Weight(|p|), Val(p), |p|)
      && Stands(Val(qR3), Weight(|p|) * Weight(|p|), Val(q), |p|)
      && Stands(Val(pOne), 1, Val(p), |p|) && Stands(Val(qOne), 1, Val(q), |p|)
      && Val(qinvM) < Val(p) && Cong(Val(q) * Val(qinvM), Weight(|p|), Val(p))
    }

    /** A key from its numbers, the constants of viltrum_rsa_load and a blinding pair: both
        primes fill their limbs, and the Newton constants are computed here. */
    constructor (e: u64, n: seq<u64>, p: seq<u64>, q: seq<u64>, dp: seq<u64>, dq: seq<u64>, nR2: seq<u64>,
                 pR3: seq<u64>, qR3: seq<u64>, pOne: seq<u64>, qOne: seq<u64>, qinvM: seq<u64>,
                 vi: seq<u64>, vf: seq<u64>)
      requires 8 <= |p| <= 32 && |n| == 2 * |p| && e >= 3
      requires |q| == |dp| == |dq| == |pR3| == |qR3| == |pOne| == |qOne| == |qinvM| == |p|
      requires |nR2| == |vi| == |vf| == |n|
      requires n[0] % 2 == p[0] % 2 == q[0] % 2 == 1 && Val(n) == Val(p) * Val(q)
      requires 2 * p[|p| - 1] >= WORD && 2 * q[|q| - 1] >= WORD
      requires Stands(Val(nR2), Weight(|n|), Val(n), |n|)
      requires Stands(Val(pR3), Weight(|p|) * Weight(|p|), Val(p), |p|)
      requires Stands(Val(qR3), Weight(|p|) * Weight(|p|), Val(q), |p|)
      requires Stands(Val(pOne), 1, Val(p), |p|) && Stands(Val(qOne), 1, Val(q), |p|)
      requires Val(qinvM) < Val(p) && Cong(Val(q) * Val(qinvM), Weight(|p|), Val(p))
      requires Val(vi) < Val(n) && Val(vf) < Val(n)
      requires Cong(Val(vi) * Pow(Val(vf), e), Pow(Weight(|n|), e + 1), Val(n))
      ensures Valid() && fresh(blVi) && fresh(blVf)
      ensures this.n == n && this.p == p && this.q == q && this.dp == dp && this.dq == dq && this.e == e
      ensures blVi[..] == vi && blVf[..] == vf
    {
      hide Val, Weight, Cong, Pow, Stands;
      this.e, this.n, this.p, this.q, this.dp, this.dq := e, n, p, q, dp, dq;
      limbs := |n|;
      var n0 := NewtonN0(n[0]);
      var p0 := NewtonN0(p[0]);
      var q0 := NewtonN0(q[0]);
      nN0, pN0, qN0 := n0, p0, q0;
      this.nR2, this.pR3, this.qR3 := nR2, pR3, qR3;
      this.pOne, this.qOne, this.qinvM := pOne, qOne, qinvM;
      var a := new u64[|n|](i requires 0 <= i < |vi| => vi[i]);
      var b := new u64[|n|](i requires 0 <= i < |vf| => vf[i]);
      assert a[..] == vi && b[..] == vf;
      blVi, blVf := a, b;
      FullLength(p, q);
      FullLength(q, p);
    }

    /** vi * vf^e = 1 modulo n, both in Montgomery form. */
    ghost predicate Blinded()
      reads blVi, blVf
    {
      && Val(blVi[..]) < Val(n) && Val(blVf[..]) < Val(n)
      && Cong(Val(blVi[..]) * Pow(Val(blVf[..]), e), Pow(Weight(|n|), e + 1), Val(n))
    }

    ghost predicate Valid()
      reads blVi, blVf
    {
      Loaded() && Blinded()
    }

    /** The private exponents belong to e: a power of e undoes each half. */
    ghost predicate ExponentsMatch() {
      forall y: nat :: HalfMatches(y)
    }

    ghost predicate HalfMatches(y: nat) {
      Cong(Pow(y, Val(dp) * e), y, Val(p)) && Cong(Pow(y, Val(dq) * e), y, Val(q))
    }

    /** Both numbers of a pair squared, still in Montgomery form. */
    ghost predicate Squared(vi: int, vf: int, vi': int, vf': int) {
      Reduced(vi', vi * vi, Val(n), |n|) && Reduced(vf', vf * vf, Val(n), |n|)
    }

    /** The next blinding pair: both numbers squared in place. */
    method NextBlinding()
      requires Valid()
      modifies blVi, blVf
      ensures Valid() && Squared(old(Val(blVi[..])), old(Val(blVf[..])), Val(blVi[..]), Val(blVf[..]))
    {
      hide Val, Weight, Cong, GoodN0, Pow, Stands, Reduced;
      ghost var vi, vf := Val(blVi[..]), Val(blVf[..]);
      MontMul(blVi, blVi, blVi, n, nN0, true);
      MontMul(blVf, blVf, blVf, n, nN0, true);
      SquaredPair(vi, vf, Val(blVi[..]), Val(blVf[..]), e, n, nN0);
    }

    /** The blinded result: s < n with s^e = x modulo n when the exponents match. */
    method Crt(x: seq<u64>) returns (s: seq<u64>)
      requires Loaded() && |x| == |n| && Val(x) < Val(n)
      ensures |s| == |n| && Val(s) < Val(n)
      ensures HalfMatches(Val(x)) ==> Cong(Pow(Val(s), e), Val(x), Val(n))
    {
      hide Val, Weight, Cong, GoodN0, Pow, Stands, Reduced;
      BelowRedc(x, p, q, n);
      var s1 := Half(x, dp, p, pN0, pR3, pOne);
      var s2 := Half(x, dq, q, qN0, qR3, qOne);
      s := Recombine(s1, s2, p, q, pN0, qinvM);
      if HalfMatches(Val(x)) {
        HalfPower(Val(s), Val(s1), Val(x), Val(dp), e, Val(p));
        HalfPower(Val(s), Val(s2), Val(x), Val(dq), e, Val(q));
        WholePower(Pow(Val(s), e), Val(x), p, pN0, Val(q), Val(qinvM));
      }
    }

    /** out = in^d mod n, checked. */
    method Private(input: seq<byte>) returns (ok: bool, out: seq<byte>)
      requires Valid() && |input| == 8 * limbs
      modifies blVi, blVf
      ensures Valid()
      ensures Big(input) >= Val(n) ==> !ok && unchanged(blVi) && unchanged(blVf)
      ensures Big(input) < Val(n) ==> Squared(old(Val(blVi[..])), old(Val(blVf[..])), Val(blVi[..]), Val(blVf[..]))
      ensures ok ==> |out| == |input| && Big(out) < Val(n) && Cong(Pow(Big(out), e), Big(input), Val(n))
      ensures !ok ==> out == []
      ensures ExponentsMatch() && Big(input) < Val(n) ==> ok
    {
      hide Val, Weight, Cong, GoodN0, Pow, Stands, Reduced, Big, HalfMatches, Squared;
      ok, out := false, [];
      var m := LoadLimbs(input, limbs);
      var ms := m[..];
      var d, borrow := Subtract(ms, n);
      if borrow == 0 {
        return;
      }
      NextBlinding();
      ghost var vi, vf := Val(blVi[..]), Val(blVf[..]);
      var x := MontProduct(ms, blVi[..], n, nN0, false);
      ReducedBound(Val(x), Val(ms) * vi, Val(n), |n|);
      var s := Crt(x);
      var y := MontProduct(s, blVf[..], n, nN0, false);
      ReducedBound(Val(y), Val(s) * vf, Val(n), |n|);
      NAboveOne(Val(p), Val(q));
      var v := PublicPower(y, e, n, nN0, nR2);
      if ExponentsMatch() {
        assert HalfMatches(Val(x));
        Released(Val(ms), Val(x), Val(s), Val(y), vi, vf, e, n, nN0);
        SameResidue(v, ms, Pow(Val(y), e), Val(n));
      }
      if v == ms {
        out := StoreLimbs(y);
        ok := true;
        CongSym(Val(v), Pow(Val(y), e), Val(n));
      }
    }
  }

  /** Primes of equal full length are within a factor of two. */
  lemma FullLength(p: seq<u64>, q: seq<u64>)
    requires |p| == |q| >= 1 && 2 * p[|p| - 1] >= WORD
    ensures 1 < Val(p) && Val(q) < 2 * Val(p)
  {
    var h := |p| - 1;
    var w := Weight(h);
    assert Val(p) == Val(p[..h]) + p[h] * w;
    MulMono(WORD / 2, p[h], w);
    ValBound(q);
  }

  lemma SquaredPair(vi: int, vf: int, vi': int, vf': int, e: nat, n: seq<u64>, n0: u64)
    requires GoodN0(n, n0) && Reduced(vi', vi * vi, Val(n), |n|) && Reduced(vf', vf * vf, Val(n), |n|)
    requires Cong(vi * Pow(vf, e), Pow(Weight(|n|), e + 1), Val(n))
    ensures 0 <= vi' < Val(n) && 0 <= vf' < Val(n)
    ensures Cong(vi' * Pow(vf', e), Pow(Weight(|n|), e + 1), Val(n))
  {
    hide Val, Weight, Cong, Pow;
    BlindingKept(vi, vf, vi', vf', e, Weight(|n|), InverseR(n, n0, |n|), Val(n));
  }

  lemma BelowRedc(x: seq<u64>, p: seq<u64>, q: seq<u64>, n: seq<u64>)
    requires |p| == |q| && Val(x) < Val(n) && Val(n) == Val(p) * Val(q)
    ensures Val(x) < Val(p) * Weight(|p|) && Val(x) < Val(q) * Weight(|q|)
  {
    hide Val, Weight;
    ValBound(p);
    ValBound(q);
    WidenFactor(Val(x), Val(p), Val(q), Weight(|q|));
    WidenFactor(Val(x), Val(q), Val(p), Weight(|p|));
  }

  lemma WidenFactor(x: int, p: int, q: int, w: int)
    requires 0 <= p && q < w && x < p * q
    ensures x < p * w
  {
    MulMono(q, w, p);
  }

  lemma WholePower(y: int, x: int, p: seq<u64>, n0: u64, q: int, qinv: int)
    requires GoodN0(p, n0) && Cong(q * qinv, Weight(|p|), Val(p))
    requires Cong(y, x, Val(p)) && Cong(y, x, q)
    ensures Cong(y, x, Val(p) * q)
  {
    hide Val, Weight, Cong;
    var inv := InverseR(p, n0, |p|);
    CongRefl(inv, Val(p));
    CongMul(q * qinv, Weight(|p|), inv, inv, Val(p));
    assert (q * qinv) * inv == q * (qinv * inv);
    CongTrans(q * (qinv * inv), Weight(|p|) * inv, 1, Val(p));
    Coprime(y, x, Val(p), q, qinv * inv);
  }

  lemma NAboveOne(p: int, q: int)
    requires 1 < p && 1 < q
    ensures 1 < p * q
  {
    MulMono(1, p, q);
  }

  lemma Released(m: int, x: int, s: int, y: int, vi: int, vf: int, e: nat, n: seq<u64>, n0: u64)
    requires GoodN0(n, n0) && Reduced(x, m * vi, Val(n), |n|) && Reduced(y, s * vf, Val(n), |n|)
    requires Cong(vi * Pow(vf, e), Pow(Weight(|n|), e + 1), Val(n))
    requires Cong(Pow(s, e), x, Val(n))
    ensures Cong(Pow(y, e), m, Val(n))
  {
    hide Val, Weight, Cong, Pow;
    Unblinded(m, x, s, y, vi, vf, e, Weight(|n|), InverseR(n, n0, |n|), Val(n));
  }

  lemma SameResidue(v: seq<u64>, m: seq<u64>, y: int, n: int)
    requires |v| == |m| && Val(v) < n && Val(m) < n && Cong(Val(v), y, n) && Cong(y, Val(m), n)
    ensures v == m
  {
    CongTrans(Val(v), y, Val(m), n);
    CongSmall(Val(v), Val(m), n);
    ValInjective(v, m);
  }
}
