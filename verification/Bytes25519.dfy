/** Field elements as 32 little-endian bytes (engine/x25519.h): read modulo 2^255, written
    as the one encoding below p. */
module Bytes25519 {
  import opened Basics
  import opened ModArith
  import opened Limbs
  import opened Field25519
  import opened Ladder25519

  /** 2^255. */
  const TOP: int := 0x8000000000000000000000000000000000000000000000000000000000000000

  lemma {:induction false} LittleSplit(s: seq<byte>, o: nat)
    requires o <= |s|
    ensures Little(s) == Little(s[..o]) + Pow(256, o) * Little(s[o..])
    ensures Little(s[..o]) < Pow(256, o)
  {
    hide Pow;
    if o == 0 {
      assert s[0..] == s && s[..0] == [];
      PowZero(256);
    } else {
      var t := s[1..];
      LittleSplit(t, o - 1);
      assert s[..o][1..] == t[..o - 1] && s[o..] == t[o - 1..];
      PowStep(o);
      RegroupPower(Pow(256, o - 1), Little(s[o..]));
    }
  }

  lemma PowStep(o: nat)
    requires o > 0
    ensures Pow(256, o) == 256 * Pow(256, o - 1)
  {
  }

  lemma RegroupPower(p: int, h: int)
    ensures 256 * (p * h) == (256 * p) * h
  {
  }

  /** An eight-byte window of a byte string. */
  lemma Window(s: seq<byte>, o: nat) returns (lo: nat, hi: nat)
    requires o + 8 <= |s|
    ensures lo < Pow(256, o) && Little(s) == lo + Pow(256, o) * (Little(s[o..o + 8]) + WORD * hi)
  {
    hide Little, Pow;
    LittleSplit(s, o);
    LittleSplit(s[o..], 8);
    assert s[o..][..8] == s[o..o + 8];
    EightBytes();
    lo, hi := Little(s[..o]), Little(s[o..][8..]);
  }

  lemma EightBytes()
    ensures Pow(256, 8) == WORD && Pow(256, 6) == 0x1000000000000 && Pow(256, 12) == 0x1000000000000000000000000
    ensures Pow(256, 19) == 0x100000000000000000000000000000000000000
    ensures Pow(256, 24) == 0x1000000000000000000000000000000000000000000000000
    ensures Pow(256, 0) == 1
  {
    assert Pow(256, 0) == 1;
    assert Pow(256, 3) == 0x1000000;
    hide Pow;
    PowAdd(256, 3, 3);
    PowAdd(256, 6, 6);
    PowAdd(256, 12, 12);
    assert Pow(256, 1) == 256 && Pow(256, 2) == 65536 by {
      SmallPow();
    }
    PowAdd(256, 6, 2);
    PowAdd(256, 12, 6);
    PowAdd(256, 18, 1);
  }

  lemma SmallPow()
    ensures Pow(256, 1) == 256 && Pow(256, 2) == 65536
  {
    assert Pow(256, 0) == 1;
  }

  /** load64_le. */
  method Load64(s: seq<byte>, o: nat) returns (v: u64)
    requires o + 8 <= |s|
    ensures v == Little(s[o..o + 8])
  {
    hide WORD;
    var i := 8;
    var acc: nat := 0;
    assert s[o + 8..o + 8] == [];
    while i > 0
      invariant 0 <= i <= 8 && acc == Little(s[o + i..o + 8])
    {
      i := i - 1;
      assert s[o + i..o + 8][1..] == s[o + i + 1..o + 8];
      acc := acc * 256 + s[o + i];
    }
    assert s[o..o + 8][..8] == s[o..o + 8];
    LittleSplit(s[o..o + 8], 8);
    EightBytes();
    v := acc;
  }

  /** The limbs of a number read through windows at bytes 0, 6, 12, 19 and 24. */
  lemma Cut0(n: nat, w: nat, hi: nat)
    requires n == w + WORD * hi
    ensures w % B == n % B
  {
  }

  lemma Cut1(n: nat, lo: nat, w: nat, hi: nat)
    requires lo < 0x1000000000000 && n == lo + 0x1000000000000 * (w + WORD * hi)
    ensures (w / 8) % B == (n / B) % B
  {
    assert n / B == w / 8 + 0x2000000000000000 * hi;
  }

  lemma Cut2(n: nat, lo: nat, w: nat, hi: nat)
    requires lo < 0x1000000000000000000000000 && n == lo + 0x1000000000000000000000000 * (w + WORD * hi)
    ensures (w / 64) % B == (n / 0x40000000000000000000000000) % B
  {
    assert n / 0x40000000000000000000000000 == w / 64 + 0x400000000000000 * hi;
  }

  lemma Cut3(n: nat, lo: nat, w: nat, hi: nat)
    requires lo < 0x100000000000000000000000000000000000000
    requires n == lo + 0x100000000000000000000000000000000000000 * (w + WORD * hi)
    ensures (w / 2) % B == (n / 0x200000000000000000000000000000000000000) % B
  {
    assert n / 0x200000000000000000000000000000000000000 == w / 2 + 0x8000000000000000 * hi;
  }

  lemma Cut4(n: nat, lo: nat, w: nat, hi: nat)
    requires lo < 0x1000000000000000000000000000000000000000000000000
    requires n == lo + 0x1000000000000000000000000000000000000000000000000 * (w + WORD * hi)
    ensures (w / 4096) % B == (n / 0x1000000000000000000000000000000000000000000000000000) % B
  {
    assert n / 0x1000000000000000000000000000000000000000000000000000 == w / 4096 + 0x10000000000000 * hi;
  }

  /** Five 51-bit pieces of a number make its low 255 bits. */
  lemma Pieces(n: nat)
    ensures Five(n % B, (n / B) % B, (n / 0x40000000000000000000000000) % B,
                 (n / 0x200000000000000000000000000000000000000) % B,
                 (n / 0x1000000000000000000000000000000000000000000000000000) % B) == n % TOP
  {
    var q1 := n / B;
    var q2 := q1 / B;
    var q3 := q2 / B;
    var q4 := q3 / B;
    var q5 := q4 / B;
    assert q2 == n / 0x40000000000000000000000000;
    assert q3 == n / 0x200000000000000000000000000000000000000;
    assert q4 == n / 0x1000000000000000000000000000000000000000000000000000;
    assert q5 == n / TOP;
  }

  /** fe_frombytes: the top bit is ignored. */
  method FromBytes(r: array<u64>, s: seq<byte>)
    requires r.Length == 5 && |s| == 32
    modifies r
    ensures IsTight(r) && Elem(r) == Red(Little(s) % TOP)
  {
    hide Little, Pow, Five, Red;
    var n := Little(s);
    EightBytes();
    var w0 := Load64(s, 0);
    var w1 := Load64(s, 6);
    var w2 := Load64(s, 12);
    var w3 := Load64(s, 19);
    var w4 := Load64(s, 24);
    r[0], r[1], r[2], r[3], r[4] := w0 % B, (w1 / 8) % B, (w2 / 64) % B, (w3 / 2) % B, (w4 / 4096) % B;
    FromWindows(s, w0, w1, w2, w3, w4);
  }

  lemma FromWindows(s: seq<byte>, w0: nat, w1: nat, w2: nat, w3: nat, w4: nat)
    requires |s| == 32 && w0 == Little(s[0..8]) && w1 == Little(s[6..14]) && w2 == Little(s[12..20])
    requires w3 == Little(s[19..27]) && w4 == Little(s[24..32])
    ensures Five(w0 % B, (w1 / 8) % B, (w2 / 64) % B, (w3 / 2) % B, (w4 / 4096) % B) == Little(s) % TOP
  {
    hide Little, Pow, Five;
    var n := Little(s);
    EightBytes();
    var lo0, hi0 := Window(s, 0);
    var lo1, hi1 := Window(s, 6);
    var lo2, hi2 := Window(s, 12);
    var lo3, hi3 := Window(s, 19);
    var lo4, hi4 := Window(s, 24);
    Cut0(n, w0, hi0);
    Cut1(n, lo1, w1, hi1);
    Cut2(n, lo2, w2, hi2);
    Cut3(n, lo3, w3, hi3);
    Cut4(n, lo4, w4, hi4);
    Pieces(n);
  }

  /** One pass of carries: limbs below 2^51 and what is left above 2^255. */
  method Normal(t0: u64, t1: u64, t2: u64, t3: u64, t4: u64)
      returns (r0: u64, r1: u64, r2: u64, r3: u64, r4: u64, c: u64)
    requires t0 < 8 * B && t1 < 8 * B && t2 < 8 * B && t3 < 8 * B && t4 < 8 * B
    ensures r0 < B && r1 < B && r2 < B && r3 < B && r4 < B && c <= 8
    ensures Five(t0, t1, t2, t3, t4) == Five(r0, r1, r2, r3, r4) + c * TOP
    ensures t0 < B + 200 && t1 < B && t2 < B && t3 < B && t4 < B ==> c <= 1 && (c == 1 ==> r0 < 200)
  {
    r1 := t1 + t0 / B;
    r0 := t0 % B;
    r2 := t2 + r1 / B;
    r1 := r1 % B;
    r3 := t3 + r2 / B;
    r2 := r2 % B;
    r4 := t4 + r3 / B;
    r3 := r3 % B;
    c := r4 / B;
    r4 := r4 % B;
  }

  /** A round of fe_tobytes: carries, the top folded back as 19. */
  method Fold(t0: u64, t1: u64, t2: u64, t3: u64, t4: u64)
      returns (r0: u64, r1: u64, r2: u64, r3: u64, r4: u64, ghost c: nat)
    requires t0 < 8 * B && t1 < 8 * B && t2 < 8 * B && t3 < 8 * B && t4 < 8 * B
    ensures r0 < B + 200 && r1 < B && r2 < B && r3 < B && r4 < B
    ensures t0 < B + 200 && t1 < B && t2 < B && t3 < B && t4 < B ==> r0 < B
    ensures Five(t0, t1, t2, t3, t4) == Five(r0, r1, r2, r3, r4) + c * P
    ensures 0 <= Five(t0, t1, t2, t3, t4) - c * TOP < TOP
  {
    hide Five;
    var top;
    r0, r1, r2, r3, r4, top := Normal(t0, t1, t2, t3, t4);
    c := top;
    FiveBound(r0, r1, r2, r3, r4);
    FiveMore(r0, r1, r2, r3, r4, top * 19);
    r0 := r0 + top * 19;
  }

  lemma FiveMore(a0: int, a1: int, a2: int, a3: int, a4: int, x: int)
    ensures Five(a0 + x, a1, a2, a3, a4) == Five(a0, a1, a2, a3, a4) + x
  {
  }

  lemma FiveBound(a0: int, a1: int, a2: int, a3: int, a4: int)
    requires 0 <= a0 < B && 0 <= a1 < B && 0 <= a2 < B && 0 <= a3 < B && 0 <= a4 < B
    ensures 0 <= Five(a0, a1, a2, a3, a4) < TOP
  {
  }

  /** The reduction of fe_tobytes: the limbs of the one representative below p. */
  method Reduce(a: array<u64>) returns (t0: u64, t1: u64, t2: u64, t3: u64, t4: u64)
    requires IsTight(a)
    ensures t0 < B && t1 < B && t2 < B && t3 < B && t4 < B && Five(t0, t1, t2, t3, t4) == Elem(a)
  {
    hide Five, Red;
    ghost var v := Value(a[..]);
    ghost var c1, c2, c3;
    t0, t1, t2, t3, t4, c1 := Fold(a[0], a[1], a[2], a[3], a[4]);
    t0, t1, t2, t3, t4, c2 := Fold(t0, t1, t2, t3, t4);
    FiveBound(t0, t1, t2, t3, t4);
    ghost var x := Five(t0, t1, t2, t3, t4);
    // below 2^255 now; at least p exactly when 19 more reaches it
    FiveMore(t0, t1, t2, t3, t4, 19);
    t0, t1, t2, t3, t4, c3 := Fold(t0 + 19, t1, t2, t3, t4);
    FiveTop(t0, t1, t2, t3, t4);
    var top;
    t0, t1, t2, t3, t4, top := Normal(t0 + (0x8000000000000 - 19), t1 + 0x7ffffffffffff, t2 + 0x7ffffffffffff,
                                     t3 + 0x7ffffffffffff, t4 + 0x7ffffffffffff);
    FiveBound(t0, t1, t2, t3, t4);
    Representative(v, x, c1, c2, c3, Five(t0, t1, t2, t3, t4), top);
  }

  /** Adding limb by limb what makes 2^255 - 19. */
  lemma FiveTop(a0: int, a1: int, a2: int, a3: int, a4: int)
    ensures Five(a0 + (0x8000000000000 - 19), a1 + 0x7ffffffffffff, a2 + 0x7ffffffffffff, a3 + 0x7ffffffffffff,
                 a4 + 0x7ffffffffffff)
         == Five(a0, a1, a2, a3, a4) + TOP - 19
  {
  }

  lemma Representative(v: int, x: int, c1: nat, c2: nat, c3: nat, y: int, top: nat)
    requires v == x + c2 * P + c1 * P && 0 <= x < TOP
    requires 0 <= x + 19 - c3 * TOP < TOP
    requires (x + 19 - c3 * P) + TOP - 19 == y + top * TOP && 0 <= y < TOP
    ensures y == Red(v)
  {
    assert c3 <= 1;
    assert y == x - c3 * P && 0 <= y < P;
    DivUnique(v, P, c1 + c2 + c3, y);
  }

  lemma {:induction false} BytesSplit(v: nat, m: nat, n: nat)
    ensures Pow(256, m) > 0 && 0 <= v / Pow(256, m) && Bytes(v, m + n) == Bytes(v, m) + Bytes(v / Pow(256, m), n)
  {
    hide Pow;
    PowPositive(256, m);
    if m == 0 {
      PowZero(256);
      assert v / 1 == v;
    } else {
      BytesSplit(v / 256, m - 1, n);
      PowStep(m);
      PowPositive(256, m - 1);
      DivStep(v, Pow(256, m - 1));
      assert [v % 256] + (Bytes(v / 256, m - 1) + Bytes(v / Pow(256, m), n)) == ([v % 256] + Bytes(v / 256, m - 1))
          + Bytes(v / Pow(256, m), n);
    }
  }

  lemma DivStep(v: nat, p: int)
    requires p > 0
    ensures 0 <= v / (256 * p) == (v / 256) / p
  {
    var w := v / 256;
    var q, r := w / p, w % p;
    assert w == p * q + r && v == 256 * w + v % 256;
    assert 256 * (p * q) == q * (256 * p);
    assert v == q * (256 * p) + (256 * r + v % 256);
    DivUnique(v, 256 * p, q, 256 * r + v % 256);
    if q < 0 {
      MulMono(q, -1, p);
    }
  }

  /** Only the low bytes count. */
  lemma {:induction false} BytesLow(v: nat, w: nat, h: nat, n: nat)
    requires v == w + Pow(256, n) * h
    ensures Bytes(v, n) == Bytes(w, n)
  {
    hide Pow;
    if n > 0 {
      PowStep(n);
      RegroupPower(Pow(256, n - 1), h);
      PowPositive(256, n - 1);
      MulMono(0, h, Pow(256, n - 1));
      BytesLow(v / 256, w / 256, h, n - 1);
    }
  }

  /** A word and what is above it. */
  function Stack(w: u64, rest: nat): nat {
    w + WORD * rest
  }

  lemma BytesWord(w: u64, rest: nat, n: nat)
    ensures Bytes(Stack(w, rest), 8 + n) == Bytes(w, 8) + Bytes(rest, n)
  {
    hide Bytes, Pow;
    EightBytes();
    BytesSplit(w + WORD * rest, 8, n);
    DivUnique(w + WORD * rest, WORD, rest, w);
    BytesLow(w + WORD * rest, w, rest, 8);
  }

  lemma BytesAt(w: nat, j: nat)
    requires j < 8
    ensures Pow(256, j) > 0 && 0 <= w / Pow(256, j) && Bytes(w, 8)[j] == (w / Pow(256, j)) % 256
  {
    hide Pow;
    BytesSplit(w, j, 8 - j);
  }

  /** A word stored least significant byte first. */
  method StoreWord(out: array<byte>, o: nat, w: u64)
    requires o + 8 <= out.Length
    modifies out
    ensures out[..] == old(out[..o]) + Bytes(w, 8) + old(out[o + 8..])
  {
    hide Bytes, Pow;
    ghost var was: seq<byte> := out[..];
    for j := 0 to 8
      invariant forall k :: 0 <= k < j ==> out[o + k] == Bytes(w, 8)[k]
      invariant forall k :: 0 <= k < out.Length && !(o <= k < o + j) ==> out[k] == was[k]
    {
      BytesAt(w, j);
      out[o + j] := (w / Pow(256, j)) % 256;
    }
    assert forall k :: o <= k < o + 8 ==> out[k] == Bytes(w, 8)[k - o];
  }

  /** The four words the limbs pack into. */
  method PackWords(t0: u64, t1: u64, t2: u64, t3: u64, t4: u64) returns (w0: u64, w1: u64, w2: u64, w3: u64)
    requires t0 < B && t1 < B && t2 < B && t3 < B && t4 < B
    ensures Five(t0, t1, t2, t3, t4) == Stack(w0, Stack(w1, Stack(w2, w3)))
  {
    w0 := t0 + (t1 % 0x2000) * 0x8000000000000;
    w1 := t1 / 0x2000 + (t2 % 0x4000000) * 0x4000000000;
    w2 := t2 / 0x4000000 + (t3 % 0x8000000000) * 0x2000000;
    w3 := t3 / 0x8000000000 + t4 * 0x1000;
  }

  /** fe_tobytes. */
  method ToBytes(out: array<byte>, a: array<u64>)
    requires out.Length == 32 && IsTight(a)
    modifies out
    ensures out[..] == Bytes(old(Elem(a)), 32)
  {
    hide Bytes, Five, Red, Stack;
    var t0, t1, t2, t3, t4 := Reduce(a);
    var w0, w1, w2, w3 := PackWords(t0, t1, t2, t3, t4);
    StoreWord(out, 0, w0);
    StoreWord(out, 8, w1);
    StoreWord(out, 16, w2);
    StoreWord(out, 24, w3);
    FourWords(w0, w1, w2, w3);
    assert out[..] == Bytes(w0, 8) + (Bytes(w1, 8) + (Bytes(w2, 8) + Bytes(w3, 8)));
  }

  lemma FourWords(w0: u64, w1: u64, w2: u64, w3: u64)
    ensures Bytes(Stack(w0, Stack(w1, Stack(w2, w3))), 32) == Bytes(w0, 8)
              + (Bytes(w1, 8) + (Bytes(w2, 8) + Bytes(w3, 8)))
  {
    hide Bytes, Stack;
    BytesWord(w2, w3, 8);
    BytesWord(w1, Stack(w2, w3), 16);
    BytesWord(w0, Stack(w1, Stack(w2, w3)), 24);
  }
}
