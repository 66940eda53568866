/** viltrum_rsa_load in engine/rsa.h: from the numbers the bignum library exports, the key
    that signs. The library's arithmetic is that of the natural numbers. */
module RsaLoad {
  import opened Basics
  import opened ModArith
  import opened Limbs
  import opened MontExp
  import opened RsaBytes
  import opened RsaPrivate

  /** The numbers of a key as the library exports them. */
  datatype Export = Export(n: nat, p: nat, q: nat, e: nat, dp: nat, dq: nat, qp: nat) {
    /** What the library has checked of them: odd primes' product, and the inverse of q. */
    ghost predicate Sound() {
      n == p * q && p % 2 == 1 && q % 2 == 1 && p > 1 && (q * qp) % p == 1
    }
  }

  /** One call for a random number: it fails, or brings a number and its inverse modulo the
      modulus, if it has one. */
  datatype Draw = Failed | Number(r: nat, inverse: Option<nat>)

  ghost predicate Inverses(draws: seq<Draw>, n: nat)
    requires n > 0
  {
    forall j :: 0 <= j < |draws| && draws[j].Number? && draws[j].inverse.Some? ==>
        (draws[j].r * draws[j].inverse.value) % n == 1 % n
  }

  /** A number above one with an inverse. */
  predicate Usable(d: Draw) {
    d.Number? && d.r > 1 && d.inverse.Some?
  }

  /** The draws bring a usable number before one fails. */
  predicate Lucky(draws: seq<Draw>) {
    draws != [] && !draws[0].Failed? && (Usable(draws[0]) || Lucky(draws[1..]))
  }

  function BitLen(x: nat): (b: nat)
  {
    if x == 0 then 0 else 1 + BitLen(x / 2)
  }

  lemma {:induction false} BitLenIs(x: nat)
    ensures x < Pow(2, BitLen(x)) && (x > 0 <==> BitLen(x) > 0) && (x > 0 ==> Pow(2, BitLen(x) - 1) <= x)
  {
    if x > 0 {
      BitLenIs(x / 2);
      PowSucc(2, BitLen(x / 2));
      if x / 2 > 0 {
        PowSucc(2, BitLen(x / 2) - 1);
      } else {
        PowZero(2);
      }
    }
  }

  lemma {:induction false} WordBits(k: nat)
    ensures Pow(2, 64 * k) == Weight(k)
  {
    if k > 0 {
      WordBits(k - 1);
      PowAdd(2, 64, 64 * (k - 1));
      SixtyFour();
    }
  }

  lemma SixtyFour()
    ensures Pow(2, 64) == WORD
  {
    assert Pow(2, 8) == 256;
    PowAdd(2, 8, 8);
    PowAdd(2, 16, 16);
    PowAdd(2, 32, 32);
  }

  lemma {:induction false} PowRises(a: nat, b: nat)
    requires a <= b
    ensures Pow(2, a) <= Pow(2, b)
    decreases b
  {
    if a < b {
      PowRises(a, b - 1);
      PowSucc(2, b - 1);
      PowPositive(2, b - 1);
    }
  }

  /** A number of at most 64k bits has k limbs. */
  lemma FitsLimbs(x: nat, k: nat)
    requires BitLen(x) <= 64 * k
    ensures x < Weight(k)
  {
    hide Pow, BitLen;
    BitLenIs(x);
    PowRises(BitLen(x), 64 * k);
    WordBits(k);
  }

  /** write_binary: the n bytes of a number, most significant first. */
  function MpiBytes(x: nat, n: nat): (b: seq<byte>)
    requires x < Pow(256, n)
    ensures |b| == n
  {
    if n == 0 then [] else
      MpiCut(x, n);
      MpiBytes(x / 256, n - 1) + [x % 256]
  }

  lemma MpiCut(x: nat, n: nat)
    requires n > 0 && x < Pow(256, n)
    ensures x / 256 < Pow(256, n - 1)
  {
    PowSucc(256, n - 1);
  }

  lemma {:induction false} MpiBig(x: nat, n: nat)
    requires x < Pow(256, n)
    ensures Big(MpiBytes(x, n)) == x
  {
    if n == 0 {
      PowZero(256);
    } else {
      MpiCut(x, n);
      MpiBig(x / 256, n - 1);
      BigPush(MpiBytes(x / 256, n - 1), x % 256);
    }
  }

  /** viltrum_rsa_from_mpi: the k limbs of a number, none when it does not fit. */
  method FromMpi(x: nat, k: nat) returns (r: Option<seq<u64>>)
    ensures r.Some? <==> x < Weight(k)
    ensures r.Some? ==> |r.value| == k && Val(r.value) == x
  {
    hide Val, Weight, Pow, Big, MpiBytes;
    ByteWeight(k);
    if x >= Weight(k) {
      return None;
    }
    MpiBig(x, 8 * k);
    var m := LoadLimbs(MpiBytes(x, 8 * k), k);
    return Some(m[..]);
  }

  /** viltrum_rsa_mont_const: x * R^power modulo m, which stands for x * R^(power - 1). */
  method MontConst(m: nat, k: nat, power: nat, x: nat) returns (r: Option<seq<u64>>)
    requires 1 <= power <= 3 && 0 < m < Weight(k)
    ensures r.Some? && |r.value| == k && Stands(Val(r.value), x * Pow(Weight(k), power - 1), m, k)
  {
    hide Val, Weight, Pow, Cong;
    var w := Weight(k);
    var v := (Pow(w, power) * x) % m;
    CongRemainder(Pow(w, power) * x, m);
    PowSucc(w, power - 1);
    TimesMoves(Pow(w, power - 1), w, x);
    r := FromMpi(v, k);
  }

  lemma TimesMoves(a: int, w: int, x: int)
    ensures a * w * x == x * a * w
  {
    assert a * w * x == (a * x) * w;
  }

  /** The shape the code handles: the primes half as long as the modulus, which has whole
      limbs. */
  predicate Shaped(x: Export) {
    var bits := BitLen(x.n);
    && 1024 <= bits <= 4096 && bits % 128 == 0 && BitLen(x.p) == BitLen(x.q) == bits / 2
    && BitLen(x.e) <= 64 && x.e >= 3 && x.dp < Weight(bits / 128) && x.dq < Weight(bits / 128)
  }

  /** A full top limb. */
  lemma FullLimb(s: seq<u64>, h: nat)
    requires |s| == h >= 1 && BitLen(Val(s)) == 64 * h
    ensures 2 * s[h - 1] >= WORD
  {
    hide Pow, BitLen, Val, Weight;
    BitLenIs(Val(s));
    PowSucc(2, 64 * h - 1);
    WordBits(h);
    NextWeight(h);
    ValTake(s, h - 1);
    assert s[..h] == s;
    ValBound(s[..h - 1]);
    TopHalf(Val(s[..h - 1]), s[h - 1], Weight(h - 1));
  }

  lemma NextWeight(h: nat)
    requires h >= 1
    ensures Weight(h) == WORD * Weight(h - 1)
  {
  }

  lemma TopHalf(low: int, top: int, w: int)
    requires 0 <= low < w && 2 * (low + top * w) >= WORD * w
    ensures 2 * top >= WORD
  {
    assert (2 * top + 2) * w == 2 * (top * w) + 2 * w;
    if 2 * top + 2 <= WORD {
      MulMono(2 * top + 2, WORD, w);
    }
  }

  /** An odd number has an odd lowest limb. */
  lemma OddLimb(s: seq<u64>)
    requires s != [] && Val(s) % 2 == 1
    ensures s[0] % 2 == 1
  {
    LowLimb(s, |s|);
    assert s[..|s|] == s;
  }

  lemma {:induction false} LowLimb(s: seq<u64>, j: nat)
    requires 1 <= j <= |s|
    ensures Val(s[..j]) % 2 == s[0] % 2
    decreases j
  {
    hide Val, Weight;
    ValTake(s, j - 1);
    if j == 1 {
      assert s[..0] == [];
      NoLimbs(s[0]);
    } else {
      LowLimb(s, j - 1);
      EvenTerm(s[j - 1], j - 1);
    }
  }

  lemma NoLimbs(x: u64)
    ensures Val([]) == 0 && x * Weight(0) == x
  {
  }

  lemma EvenTerm(x: u64, n: nat)
    requires n > 0
    ensures (x * Weight(n)) % 2 == 0
  {
    var w := Weight(n - 1);
    assert x * (WORD * w) == 2 * (x * (WORD / 2 * w));
  }

  /** r^e and the inverse of r, both in Montgomery form, blind. */
  lemma Blinds(r: nat, t: nat, e: nat, w: int, n: nat, vi: int, vf: int)
    requires n > 1 && (r * t) % n == 1
    requires Cong(vf, t * w, n) && Cong(vi, (Pow(r, e) % n) * w, n)
    ensures Cong(vi * Pow(vf, e), Pow(w, e + 1), n)
  {
    hide Pow, Cong;
    var a, b := Pow(r, e), Pow(t, e);
    CongPow(vf, t * w, e, n);
    PowMulBase(t, w, e);
    CongRemainder(a, n);
    CongRefl(w, n);
    CongMul(a % n, a, w, w, n);
    CongTrans(vi, (a % n) * w, a * w, n);
    CongMul(vi, a * w, Pow(vf, e), b * Pow(w, e), n);
    Exchange(a, w, b, Pow(w, e));
    PowMulBase(r, t, e);
    RemainderOne(n);
    CongIsMod(r * t, 1, n);
    CongPow(r * t, 1, e, n);
    PowOne(e);
    PowSucc(w, e);
    CongRefl(Pow(w, e + 1), n);
    CongMul(a * b, 1, Pow(w, e + 1), Pow(w, e + 1), n);
    CongTrans(vi * Pow(vf, e), (a * b) * Pow(w, e + 1), 1 * Pow(w, e + 1), n);
  }

  lemma RemainderOne(n: nat)
    requires n > 1
    ensures 1 % n == 1
  {
  }

  /** The loop for a random number prime to n. */
  method Choose(draws: seq<Draw>, ghost n: nat) returns (d: Option<Draw>)
    requires n > 0 && Inverses(draws, n)
    ensures d.Some? <==> Lucky(draws)
    ensures d.Some? ==> Usable(d.value) && (d.value.r * d.value.inverse.value) % n == 1 % n
  {
    var i := 0;
    assert draws[0..] == draws;
    while i < |draws| && !draws[i].Failed? && !Usable(draws[i])
      invariant 0 <= i <= |draws| && Lucky(draws[i..]) == Lucky(draws)
    {
      assert draws[i..][1..] == draws[i + 1..];
      i := i + 1;
    }
    if i == |draws| || draws[i].Failed? {
      return None;
    }
    assert Usable(draws[i..][0]);
    return Some(draws[i]);
  }

  /** viltrum_rsa_load: a key when the numbers have the shape the code handles and a blinding
      pair was found, and then one that is valid: its constants in Montgomery form, and the
      pair blinding. */
  method Load(x: Export, draws: seq<Draw>) returns (key: Option<Key>)
    requires x.Sound() && x.n > 0 && Inverses(draws, x.n)
    ensures key.Some? <==> Shaped(x) && Lucky(draws)
    ensures key.Some? ==>
              && key.value.Valid() && fresh(key.value.blVi) && fresh(key.value.blVf)
              && Val(key.value.n) == x.n && Val(key.value.p) == x.p && Val(key.value.q) == x.q && key.value.e == x.e
              && Val(key.value.dp) == x.dp && Val(key.value.dq) == x.dq
  {
    hide Val, Weight, Pow, Cong, Stands, BitLen, Lucky, Usable, Inverses;
    if !Shaped(x) {
      return None;
    }
    var h := BitLen(x.n) / 128;
    var k := 2 * h;
    FitsLimbs(x.n, k);
    FitsLimbs(x.p, h);
    FitsLimbs(x.q, h);
    FitsLimbs(x.e, 1);
    var e := FromMpi(x.e, 1);
    var n := FromMpi(x.n, k);
    var p := FromMpi(x.p, h);
    var q := FromMpi(x.q, h);
    var dp := FromMpi(x.dp, h);
    var dq := FromMpi(x.dq, h);
    OneLimb(e.value);
    var d := Choose(draws, x.n);
    if d.None? {
      return None;
    }
    key := Constants(x, n.value, p.value, q.value, e.value[0], dp.value, dq.value, d.value);
  }

  lemma OneLimb(e: seq<u64>)
    requires |e| == 1
    ensures Val(e) == e[0]
  {
    assert e[..0] == [];
    assert e[0] * Weight(0) == e[0];
  }

  /** The constants and the blinding pair. */
  method Constants(x: Export, n: seq<u64>, p: seq<u64>, q: seq<u64>, e: u64, dp: seq<u64>, dq: seq<u64>, d: Draw)
      returns (key: Option<Key>)
    requires x.Sound() && 8 <= |p| <= 32 && |q| == |dp| == |dq| == |p| && |n| == 2 * |p| && e >= 3
    requires Val(n) == x.n && Val(p) == x.p && Val(q) == x.q && BitLen(x.p) == BitLen(x.q) == 64 * |p|
    requires d.Number? && d.inverse.Some? && x.n > 0 && (d.r * d.inverse.value) % x.n == 1 % x.n
    ensures key.Some? && key.value.Valid() && fresh(key.value.blVi) && fresh(key.value.blVf)
    ensures key.value.n == n && key.value.p == p && key.value.q == q && key.value.dp == dp && key.value.dq == dq
    ensures key.value.e == e
  {
    hide Val, Weight, Pow, Cong, Stands, BitLen;
    Ready(x, n, p, q);
    var h, k := |p|, |n|;
    var nR2 := MontConst(x.n, k, 2, 1);
    var pR3 := MontConst(x.p, h, 3, 1);
    var qR3 := MontConst(x.q, h, 3, 1);
    var pOne := MontConst(x.p, h, 1, 1);
    var qOne := MontConst(x.q, h, 1, 1);
    var qinvM := MontConst(x.p, h, 1, x.qp);
    var vf := MontConst(x.n, k, 1, d.inverse.value);
    var vi := MontConst(x.n, k, 1, Pow(d.r, e) % x.n);
    SmallPower(Weight(k));
    SmallPower(Weight(h));
    StandsFor(Val(nR2.value), Weight(k), x.n, k);
    InverseOfQ(x, Val(qinvM.value), h);
    PairBlinds(x, d, e, k, Val(vi.value), Val(vf.value));
    var made := new Key(e, n, p, q, dp, dq, nR2.value, pR3.value, qR3.value, pOne.value, qOne.value, qinvM.value,
        vi.value, vf.value);
    key := Some(made);
  }

  lemma Ready(x: Export, n: seq<u64>, p: seq<u64>, q: seq<u64>)
    requires x.Sound() && |p| == |q| >= 8 && |n| == 2 * |p|
    requires Val(n) == x.n && Val(p) == x.p && Val(q) == x.q && BitLen(x.p) == BitLen(x.q) == 64 * |p|
    ensures n[0] % 2 == p[0] % 2 == q[0] % 2 == 1
    ensures 2 * p[|p| - 1] >= WORD && 2 * q[|q| - 1] >= WORD
    ensures 1 < x.n < Weight(|n|) && 1 < x.p < Weight(|p|) && 1 < x.q < Weight(|p|)
  {
    hide Val, Weight, BitLen;
    OddProduct(x.p, x.q);
    OddLimb(n);
    OddLimb(p);
    OddLimb(q);
    FullLimb(p, |p|);
    FullLimb(q, |q|);
    ValBound(n);
    ValBound(p);
    ValBound(q);
    LongEnough(x.q, |p|);
    MulMono(1, x.p, x.q);
  }

  lemma OddProduct(p: nat, q: nat)
    requires p % 2 == 1 && q % 2 == 1
    ensures (p * q) % 2 == 1
  {
    assert p * q == 2 * ((p / 2) * q) + q;
  }

  lemma LongEnough(x: nat, h: nat)
    requires h >= 1 && BitLen(x) == 64 * h
    ensures x > 1
  {
    assert BitLen(0) == 0 && BitLen(1) == 1;
  }

  lemma SmallPower(w: int)
    ensures Pow(w, 0) == 1 && Pow(w, 1) == w && Pow(w, 2) == w * w
  {
    PowSucc(w, 0);
    PowSucc(w, 1);
  }

  lemma StandsFor(v: int, w: int, m: int, k: nat)
    requires Stands(v, 1 * w, m, k)
    ensures Stands(v, w, m, k)
  {
  }

  /** The library's inverse of q, in Montgomery form. */
  lemma InverseOfQ(x: Export, v: int, h: nat)
    requires x.Sound() && Stands(v, x.qp * Pow(Weight(h), 0), x.p, h)
    ensures v < x.p && Cong(x.q * v, Weight(h), x.p)
  {
    hide Cong, Weight;
    var w := Weight(h);
    SmallPower(w);
    CongMulLeft(x.q, v, x.qp * w, x.p);
    RemainderOne(x.p);
    CongIsMod(x.q * x.qp, 1, x.p);
    CongRefl(w, x.p);
    CongMul(x.q * x.qp, 1, w, w, x.p);
    assert x.q * (x.qp * w) == (x.q * x.qp) * w;
    CongTrans(x.q * v, (x.q * x.qp) * w, 1 * w, x.p);
  }

  lemma PairBlinds(x: Export, d: Draw, e: nat, k: nat, vi: int, vf: int)
    requires d.Number? && d.inverse.Some? && x.n > 1 && (d.r * d.inverse.value) % x.n == 1 % x.n
    requires Stands(vf, d.inverse.value * Pow(Weight(k), 0), x.n, k)
    requires Stands(vi, (Pow(d.r, e) % x.n) * Pow(Weight(k), 0), x.n, k)
    ensures vi < x.n && vf < x.n && Cong(vi * Pow(vf, e), Pow(Weight(k), e + 1), x.n)
  {
    hide Cong, Weight, Pow;
    SmallPower(Weight(k));
    RemainderOne(x.n);
    Blinds(d.r, d.inverse.value, e, Weight(k), x.n, vi, vf);
  }
}
