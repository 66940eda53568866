/** The per-record nonce of engine/tls13_linux.c.v (section 5.3 of RFC 8446): the IV with
    the sequence number XORed into its last eight bytes. */
module Nonce {
  import opened Basics
  import opened Bits

  lemma {:induction false} ValInjective(a: seq<bool>, b: seq<bool>)
    requires |a| == |b| && LsbVal(a) == LsbVal(b)
    ensures a == b
  {
    if a != [] {
      var x: nat, y: nat := if a[0] then 1 else 0, if b[0] then 1 else 0;
      ValStep(a);
      ValStep(b);
      hide LsbVal;
      LowBit(x, LsbVal(a[1..]), y, LsbVal(b[1..]));
      ValInjective(a[1..], b[1..]);
      assert a == [a[0]] + a[1..] && b == [b[0]] + b[1..];
    }
  }

  lemma ValStep(a: seq<bool>)
    requires a != []
    ensures LsbVal(a) == (if a[0] then 1 else 0) + 2 * LsbVal(a[1..])
  {
  }

  lemma LowBit(x: nat, u: nat, y: nat, v: nat)
    requires x < 2 && y < 2 && x + 2 * u == y + 2 * v
    ensures x == y && u == v
  {
  }

  /** XOR with a fixed byte loses nothing. */
  lemma XorInjective(a: byte, b: byte, c: byte)
    requires XorByte(a, b) == XorByte(a, c)
    ensures b == c
  {
    hide Lsb, LsbVal, Pow2;
    var u, v, w := Lsb(a, 8), Lsb(b, 8), Lsb(c, 8);
    ValInjective(XorBits(u, v), XorBits(u, w));
    assert forall i :: 0 <= i < 8 ==> v[i] == (u[i] != XorBits(u, v)[i]) && w[i] == (u[i] != XorBits(u, w)[i]);
    assert v == w;
    Pow2Eight();
    LsbRoundTrip(b, 8);
    LsbRoundTrip(c, 8);
  }

  /** Byte i of a sequence number, least significant first. */
  function SeqByte(n: nat, i: nat): byte {
    if i == 0 then n % 256 else SeqByte(n / 256, i - 1)
  }

  function NonceOf(iv: seq<byte>, n: nat): (r: seq<byte>)
    requires |iv| == 12
    ensures |r| == 12
  {
    seq(12, i requires 0 <= i < 12 => if i < 4 then iv[i] else XorByte(iv[i], SeqByte(n, 11 - i)))
  }

  /** By value: the first four bytes are the IV's, and the last eight its own XORed with the
      sequence number, most significant byte first. */
  lemma NonceValue(iv: seq<byte>, n: nat)
    requires |iv| == 12 && n < 0x1_0000_0000_0000_0000
    ensures var (nonce, number) := (NonceOf(iv, n), BigBytes(n, 8));
            && BigEndian(number) == n && nonce[..4] == iv[..4]
            && forall i :: 0 <= i < 8 ==> nonce[4 + i] == XorByte(iv[4 + i], number[i])
  {
    hide XorByte, BigBytes, BigEndian, SeqByte, Pow2;
    Pow2Word();
    Pow2Add(32, 32);
    BigRoundTrip(n, 8);
    forall i | 0 <= i < 8
      ensures SeqByte(n, 7 - i) == BigBytes(n, 8)[i]
    {
      ByteOfNumber(n, 8, 7 - i);
    }
  }

  lemma {:induction false} ByteOfNumber(n: nat, k: nat, i: nat)
    requires i < k
    ensures BigBytes(n, k)[k - 1 - i] == SeqByte(n, i)
  {
    if i > 0 {
      ByteOfNumber(n / 256, k - 1, i - 1);
    }
  }

  /** nonce: the IV copied, then eight bytes XORed from the right. */
  method NonceInto(iv: seq<byte>, n: nat, out: array<byte>)
    requires |iv| == 12 && out.Length == 12
    modifies out
    ensures out[..] == NonceOf(iv, n)
  {
    hide XorByte, SeqByte;
    for i := 0 to 12
      invariant forall j :: 0 <= j < i ==> out[j] == iv[j]
    {
      out[i] := iv[i];
    }
    for i := 0 to 8
      invariant forall j :: 0 <= j < 12 ==> out[j] == if j > 11 - i then XorByte(iv[j], SeqByte(n, 11 - j)) else iv[j]
    {
      out[11 - i] := XorByte(out[11 - i], SeqByte(n, i));
    }
  }

  lemma {:induction false} SeqBytesTell(m: nat, n: nat, k: nat, bound: nat)
    requires forall i :: 0 <= i < k ==> SeqByte(m, i) == SeqByte(n, i)
    requires bound == Pow2(8 * k) && m < bound && n < bound
    ensures m == n
  {
    if k > 0 {
      forall i | 0 <= i < k - 1
        ensures SeqByte(m / 256, i) == SeqByte(n / 256, i)
      {
        assert SeqByte(m, i + 1) == SeqByte(n, i + 1);
      }
      assert SeqByte(m, 0) == SeqByte(n, 0);
      Pow2Eight();
      hide Pow2;
      Pow2Add(8, 8 * (k - 1));
      SeqBytesTell(m / 256, n / 256, k - 1, Pow2(8 * (k - 1)));
    } else {
      Pow2Zero();
    }
  }

  /** Two 64-bit sequence numbers with one IV never give the same nonce. */
  lemma NonceUnique(iv: seq<byte>, m: nat, n: nat)
    requires |iv| == 12 && m < 0x1_0000_0000_0000_0000 && n < 0x1_0000_0000_0000_0000
    requires NonceOf(iv, m) == NonceOf(iv, n)
    ensures m == n
  {
    hide XorByte, SeqByte, Pow2;
    forall i | 0 <= i < 8
      ensures SeqByte(m, i) == SeqByte(n, i)
    {
      assert NonceOf(iv, m)[11 - i] == NonceOf(iv, n)[11 - i];
      XorInjective(iv[11 - i], SeqByte(m, i), SeqByte(n, i));
    }
    Pow2Word();
    Pow2Add(32, 32);
    SeqBytesTell(m, n, 8, Pow2(64));
  }
}
