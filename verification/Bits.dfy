/** Bit strings as DEFLATE packs them (section 3.1.1 of RFC 1951): numbers least
    significant bit first, Huffman codes most significant bit first, bytes filled from
    their low bit. */
module Bits {
  import opened Basics

  function Pow2(n: nat): (p: nat)
    ensures p > 0
  {
    if n == 0 then 1 else 2 * Pow2(n - 1)
  }

  lemma Pow2Eight()
    ensures Pow2(8) == 256
  {
  }

  lemma Pow2Zero()
    ensures Pow2(0) == 1
  {
  }

  lemma Pow2Word()
    ensures Pow2(16) == 65536 && Pow2(32) == 4294967296
  {
    hide Pow2;
    Pow2Eight();
    Pow2Add(8, 8);
    Pow2Add(16, 16);
  }

  lemma {:induction false} Pow2Add(m: nat, n: nat)
    ensures Pow2(m + n) == Pow2(m) * Pow2(n)
  {
    if m != 0 {
      Pow2Add(m - 1, n);
      assert 2 * (Pow2(m - 1) * Pow2(n)) == (2 * Pow2(m - 1)) * Pow2(n);
    }
  }

  lemma {:induction false} Pow2Mono(m: nat, n: nat)
    requires m <= n
    ensures Pow2(m) <= Pow2(n)
  {
    if m < n {
      Pow2Mono(m, n - 1);
    }
  }

  /** The low n bits of v, least significant first. */
  function Lsb(v: nat, n: nat): (b: seq<bool>)
    ensures |b| == n
  {
    if n == 0 then [] else [v % 2 == 1] + Lsb(v / 2, n - 1)
  }

  /** The low n bits of v, most significant first. */
  function Msb(v: nat, n: nat): (b: seq<bool>)
    ensures |b| == n
  {
    if n == 0 then [] else Msb(v / 2, n - 1) + [v % 2 == 1]
  }

  /** The number a least-significant-first bit string spells. */
  function LsbVal(b: seq<bool>): (v: nat) {
    if b == [] then 0 else (if b[0] then 1 else 0) + 2 * LsbVal(b[1..])
  }

  function MsbVal(b: seq<bool>): (v: nat) {
    if b == [] then 0 else 2 * MsbVal(b[..|b| - 1]) + if b[|b| - 1] then 1 else 0
  }

  lemma {:induction false} LsbRoundTrip(v: nat, n: nat)
    requires v < Pow2(n)
    ensures LsbVal(Lsb(v, n)) == v
  {
    if n != 0 {
      LsbRoundTrip(v / 2, n - 1);
      assert Lsb(v, n)[1..] == Lsb(v / 2, n - 1);
    }
  }

  lemma {:induction false} MsbRoundTrip(v: nat, n: nat)
    requires v < Pow2(n)
    ensures MsbVal(Msb(v, n)) == v
  {
    if n != 0 {
      MsbRoundTrip(v / 2, n - 1);
      assert Msb(v, n)[..n - 1] == Msb(v / 2, n - 1);
    }
  }

  /** A number packed above another: the writer's buffer. */
  lemma {:induction false} LsbConcat(lo: nat, m: nat, hi: nat, n: nat)
    requires lo < Pow2(m)
    ensures Lsb(lo + hi * Pow2(m), m + n) == Lsb(lo, m) + Lsb(hi, n)
  {
    if m == 0 {
      assert lo == 0;
      assert Lsb(lo, 0) + Lsb(hi, n) == Lsb(hi, n);
    } else {
      LsbConcat(lo / 2, m - 1, hi, n);
      var p := Pow2(m - 1);
      var v := lo + hi * Pow2(m);
      assert hi * Pow2(m) == 2 * (hi * p);
      assert v % 2 == lo % 2 && v / 2 == lo / 2 + hi * p;
      assert Lsb(v, m + n) == [v % 2 == 1] + Lsb(v / 2, m + n - 1);
      assert [lo % 2 == 1] + (Lsb(lo / 2, m - 1) + Lsb(hi, n)) == ([lo % 2 == 1] + Lsb(lo / 2, m - 1)) + Lsb(hi, n);
    }
  }

  /** The low byte first, then the rest. */
  lemma LsbByte(v: nat, n: nat)
    ensures Lsb(v, 8 + n) == Lsb(v % 256, 8) + Lsb(v / 256, n)
  {
    hide Pow2, Lsb;
    Pow2Eight();
    LsbConcat(v % 256, 8, v / 256, n);
  }

  lemma DivNat(v: nat, p: nat)
    requires p > 0
    ensures 0 <= v / p && 0 <= v % p < p && v == v % p + (v / p) * p
  {
    var q := v / p;
    assert v == p * q + v % p;
    if q < 0 {
      MulMono(q, -1, p);
    }
  }

  function ShiftDown(v: nat, n: nat): nat {
    DivNat(v, Pow2(n));
    v / Pow2(n)
  }

  /** The prefix of a most-significant-first code is the code shifted down. */
  lemma {:induction false} MsbPrefix(v: nat, n: nat, k: nat)
    requires k <= n
    ensures Msb(v, n)[..k] == Msb(v / Pow2(n - k), k)
    decreases n - k
  {
    if k < n {
      var b := Msb(v, n);
      assert b[..n - 1] == Msb(v / 2, n - 1);
      MsbPrefix(v / 2, n - 1, k);
      assert b[..k] == b[..n - 1][..k];
      var p := Pow2(n - 1 - k);
      assert Pow2(n - k) == 2 * p;
      DivDiv(v, p);
    } else {
      assert Msb(v, n)[..n] == Msb(v, n);
    }
  }

  lemma DivDiv(v: nat, p: nat)
    requires p > 0
    ensures (v / 2) / p == v / (2 * p)
  {
    var q, r := (v / 2) / p, (v / 2) % p;
    assert v / 2 == q * p + r;
    assert v == 2 * (v / 2) + v % 2;
    assert v == q * (2 * p) + (2 * r + v % 2);
    DivUnique(v, 2 * p, q, 2 * r + v % 2);
  }

  /** The low n bits of v in the opposite order, as a number. */
  function Reverse(v: nat, n: nat): (r: nat)
    ensures r < Pow2(n)
  {
    if n == 0 then 0 else Reverse(v / 2, n - 1) + (v % 2) * Pow2(n - 1)
  }

  /** A reversed code written least significant bit first comes out most significant bit
      first. */
  lemma {:induction false} ReverseWrites(v: nat, n: nat)
    ensures Lsb(Reverse(v, n), n) == Msb(v, n)
  {
    if n != 0 {
      ReverseWrites(v / 2, n - 1);
      LsbConcat(Reverse(v / 2, n - 1), n - 1, v % 2, 1);
      assert Lsb((v % 2) / 2, 0) == [];
      assert Lsb(v % 2, 1) == [v % 2 == 1];
    }
  }

  /** The bit stream of a byte string. */
  function ByteBits(s: seq<byte>): (b: seq<bool>)
    ensures |b| == 8 * |s|
  {
    if s == [] then [] else ByteBits(s[..|s| - 1]) + Lsb(s[|s| - 1], 8)
  }

  lemma ByteBitsPush(s: seq<byte>, x: byte)
    ensures ByteBits(s + [x]) == ByteBits(s) + Lsb(x, 8)
  {
    assert (s + [x])[..|s|] == s;
  }

  lemma {:induction false} ByteBitsConcat(s: seq<byte>, t: seq<byte>)
    ensures ByteBits(s + t) == ByteBits(s) + ByteBits(t)
  {
    hide Lsb, ByteBits;
    if t == [] {
      assert s + t == s;
      assert ByteBits(t) == [];
    } else {
      var n := |t| - 1;
      ByteBitsConcat(s, t[..n]);
      assert s + t == (s + t[..n]) + [t[n]] && t == t[..n] + [t[n]];
      ByteBitsPush(s + t[..n], t[n]);
      ByteBitsPush(t[..n], t[n]);
      assert ByteBits(s) + (ByteBits(t[..n]) + Lsb(t[n], 8)) == (ByteBits(s) + ByteBits(t[..n])) + Lsb(t[n], 8);
    }
  }

  /** The bytes of a bit stream whose length is a multiple of eight. */
  function BitBytes(b: seq<bool>): (s: seq<byte>)
    ensures |s| == |b| / 8
  {
    if |b| < 8 then [] else [ToByte(b[..8])] + BitBytes(b[8..])
  }

  function ToByte(b: seq<bool>): byte
    requires |b| == 8
  {
    LsbValBound(b);
    assert Pow2(8) == 256;
    LsbVal(b)
  }

  lemma {:induction false} LsbValBound(b: seq<bool>)
    ensures LsbVal(b) < Pow2(|b|)
  {
    if b != [] {
      LsbValBound(b[1..]);
    }
  }

  lemma {:induction false} BitBytesRoundTrip(s: seq<byte>)
    ensures BitBytes(ByteBits(s)) == s
  {
    if s != [] {
      var rest := s[1..];
      assert s == [s[0]] + rest;
      ByteBitsConcat([s[0]], rest);
      assert [s[0]][..0] == [];
      assert ByteBits([s[0]]) == Lsb(s[0], 8);
      var b := ByteBits(s);
      assert b[..8] == Lsb(s[0], 8) && b[8..] == ByteBits(rest);
      assert Pow2(8) == 256;
      LsbRoundTrip(s[0], 8);
      BitBytesRoundTrip(rest);
    }
  }

  /** Four bytes of a word. */
  function WordBytes(v: nat): (s: seq<byte>)
    ensures |s| == 4
  {
    [v % 256, (v / 256) % 256, (v / 65536) % 256, (v / 16777216) % 256]
  }

  lemma FourByteBits(a: byte, b: byte, c: byte, d: byte)
    ensures ByteBits([a, b, c, d]) == (Lsb(a, 8) + Lsb(b, 8)) + (Lsb(c, 8) + Lsb(d, 8))
  {
    hide Lsb, ByteBits;
    TwoByteBits(a, b);
    TwoByteBits(c, d);
    ByteBitsConcat([a, b], [c, d]);
    assert [a, b] + [c, d] == [a, b, c, d];
  }

  lemma TwoByteBits(a: byte, b: byte)
    ensures ByteBits([a, b]) == Lsb(a, 8) + Lsb(b, 8)
  {
    hide Lsb;
    ByteBitsPush([], a);
    ByteBitsPush([a], b);
    assert [] + [a] == [a] && [a] + [b] == [a, b];
  }

  /** The writer's four-byte flush: 32 bits are four bytes. */
  lemma FourBytes(v: nat)
    ensures Lsb(v, 32) == ByteBits(WordBytes(v))
  {
    hide Lsb, ByteBits;
    LsbByte(v, 24);
    LsbByte(v / 256, 16);
    LsbByte(v / 65536, 8);
    LsbByte(v / 16777216, 0);
    var w := WordBytes(v);
    assert Lsb(v / 16777216 / 256, 0) == [];
    FourByteBits(w[0], w[1], w[2], w[3]);
    Assoc(Lsb(w[0], 8), Lsb(w[1], 8), Lsb(w[2], 8) + Lsb(w[3], 8));
  }

  function XorBits(a: seq<bool>, b: seq<bool>): (r: seq<bool>)
    requires |a| == |b|
    ensures |r| == |a| && forall i :: 0 <= i < |a| ==> r[i] == (a[i] != b[i])
  {
    seq(|a|, i requires 0 <= i < |a| => a[i] != b[i])
  }

  /** Exclusive or of two bytes. */
  function XorByte(a: byte, b: byte): byte {
    ToByte(XorBits(Lsb(a, 8), Lsb(b, 8)))
  }

  lemma {:induction false} LsbOfVal(b: seq<bool>)
    ensures Lsb(LsbVal(b), |b|) == b
  {
    if b != [] {
      LsbOfVal(b[1..]);
    }
  }

  lemma XorTwice(a: byte, m: byte)
    ensures XorByte(XorByte(a, m), m) == a
  {
    hide Lsb, LsbVal;
    var x, y := Lsb(a, 8), Lsb(m, 8);
    LsbOfVal(XorBits(x, y));
    assert XorBits(XorBits(x, y), y) == x;
    Pow2Eight();
    LsbRoundTrip(a, 8);
  }

  /** A number of n bytes, most significant first. */
  function BigEndian(s: seq<byte>): nat {
    if s == [] then 0 else BigEndian(s[..|s| - 1]) * 256 + s[|s| - 1]
  }

  /** n in k bytes, most significant first. */
  function BigBytes(n: nat, k: nat): (s: seq<byte>)
    ensures |s| == k
  {
    if k == 0 then [] else BigBytes(n / 256, k - 1) + [n % 256]
  }

  lemma {:induction false} BigRoundTrip(n: nat, k: nat)
    requires n < Pow2(8 * k)
    ensures BigEndian(BigBytes(n, k)) == n
  {
    if k > 0 {
      Pow2Eight();
      hide Pow2;
      Pow2Add(8, 8 * (k - 1));
      BigRoundTrip(n / 256, k - 1);
      var s := BigBytes(n, k);
      assert s[..k - 1] == BigBytes(n / 256, k - 1);
    } else {
      Pow2Zero();
    }
  }

  lemma {:induction false} BigBytesBack(s: seq<byte>)
    ensures BigBytes(BigEndian(s), |s|) == s && BigEndian(s) < Pow2(8 * |s|)
  {
    if s == [] {
      Pow2Zero();
    } else {
      var t := s[..|s| - 1];
      BigBytesBack(t);
      Pow2Eight();
      hide Pow2;
      Pow2Add(8, 8 * |t|);
      assert s == t + [s[|s| - 1]];
    }
  }
}
