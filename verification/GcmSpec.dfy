/** GCM as NIST SP 800-38D defines it, over any 128-bit block cipher: counter mode, the
    hash of the padded data and lengths, and the tag. */
module GcmSpec {
  import opened Basics
  import opened Bits
  import opened Gf128
  import opened Ghash

  /** A block cipher under its key. */
  datatype Cipher = Cipher(block: seq<byte> -> seq<byte>) {
    ghost predicate Lawful() {
      forall b :: |block(b)| == 16
    }
  }

  function Zeroes(n: nat): (s: seq<byte>)
    ensures |s| == n
  {
    seq(n, _ => 0)
  }

  /** The bits of some bytes, most significant first: the coefficients of a block. */
  function Coefficients(s: seq<byte>): (b: seq<bool>)
    ensures |b| == 8 * |s|
  {
    if s == [] then [] else Coefficients(s[..|s| - 1]) + Msb(s[|s| - 1], 8)
  }

  function BlockPoly(s: seq<byte>): Poly
    requires |s| == 16
  {
    Coefficients(s)
  }

  /** A byte of eight coefficients. */
  function MsbByte(b: seq<bool>): byte
    requires |b| == 8
  {
    MsbValBound(b);
    Pow2Eight();
    MsbVal(b)
  }

  lemma {:induction false} MsbValBound(b: seq<bool>)
    ensures MsbVal(b) < Pow2(|b|)
  {
    if b != [] {
      MsbValBound(b[..|b| - 1]);
    }
  }

  function PolyBlock(p: Poly): (s: seq<byte>)
    ensures |s| == 16
  {
    seq(16, i requires 0 <= i < 16 => MsbByte(p[8 * i..8 * i + 8]))
  }

  function Be32(n: nat): (s: seq<byte>)
    ensures |s| == 4
  {
    [(n / 16777216) % 256, (n / 65536) % 256, (n / 256) % 256, n % 256]
  }

  function Be64(n: nat): (s: seq<byte>)
    ensures |s| == 8
  {
    Be32((n / 4294967296) % 4294967296) + Be32(n % 4294967296)
  }

  /** The nonce and a 32-bit counter, which wraps. */
  function CounterBlock(iv: seq<byte>, ctr: nat): (s: seq<byte>)
    requires |iv| == 12
    ensures |s| == 16
  {
    iv + Be32(ctr % 4294967296)
  }

  /** Byte i of the key stream from counter ctr on. */
  function KeyByte(c: Cipher, iv: seq<byte>, ctr: nat, i: nat): byte
    requires c.Lawful() && |iv| == 12
  {
    c.block(CounterBlock(iv, ctr + i / 16))[i % 16]
  }

  /** Counter mode. */
  function Ctr(c: Cipher, iv: seq<byte>, ctr: nat, s: seq<byte>): (r: seq<byte>)
    requires c.Lawful() && |iv| == 12
    ensures |r| == |s|
  {
    seq(|s|, i requires 0 <= i < |s| => XorByte(s[i], KeyByte(c, iv, ctr, i)))
  }

  lemma CtrAt(c: Cipher, iv: seq<byte>, ctr: nat, s: seq<byte>, i: nat)
    requires c.Lawful() && |iv| == 12 && i < |s|
    ensures Ctr(c, iv, ctr, s)[i] == XorByte(s[i], KeyByte(c, iv, ctr, i))
  {
  }

  /** Encrypting again decrypts. */
  lemma CtrTwice(c: Cipher, iv: seq<byte>, ctr: nat, s: seq<byte>)
    requires c.Lawful() && |iv| == 12
    ensures Ctr(c, iv, ctr, Ctr(c, iv, ctr, s)) == s
  {
    hide XorByte, KeyByte;
    forall i | 0 <= i < |s|
      ensures XorByte(XorByte(s[i], KeyByte(c, iv, ctr, i)), KeyByte(c, iv, ctr, i)) == s[i]
    {
      XorTwice(s[i], KeyByte(c, iv, ctr, i));
    }
  }

  /** Whole blocks first, then the rest from the counter after them. */
  lemma CtrSplit(c: Cipher, iv: seq<byte>, ctr: nat, s: seq<byte>, t: seq<byte>)
    requires c.Lawful() && |iv| == 12 && |s| % 16 == 0
    ensures Ctr(c, iv, ctr, s + t) == Ctr(c, iv, ctr, s) + Ctr(c, iv, ctr + |s| / 16, t)
  {
    hide XorByte, KeyByte;
    var k := |s| / 16;
    var all, parts := Ctr(c, iv, ctr, s + t), Ctr(c, iv, ctr, s) + Ctr(c, iv, ctr + k, t);
    forall j | 0 <= j < |s| + |t|
      ensures all[j] == parts[j]
    {
      if j >= |s| {
        KeyLater(c, iv, ctr, k, j - |s|);
      }
    }
  }

  lemma KeyLater(c: Cipher, iv: seq<byte>, ctr: nat, k: nat, i: nat)
    requires c.Lawful() && |iv| == 12
    ensures KeyByte(c, iv, ctr, 16 * k + i) == KeyByte(c, iv, ctr + k, i)
  {
    DivUnique(16 * k + i, 16, k + i / 16, i % 16);
  }

  /** The blocks of some bytes, the last padded with zeros. */
  function PadBlocks(s: seq<byte>): (xs: seq<Poly>)
    ensures |xs| == (|s| + 15) / 16
  {
    if s == [] then []
    else if |s| < 16 then [BlockPoly(s + Zeroes(16 - |s|))]
    else [BlockPoly(s[..16])] + PadBlocks(s[16..])
  }

  lemma {:induction false} PadConcat(s: seq<byte>, t: seq<byte>)
    requires |s| % 16 == 0
    ensures PadBlocks(s + t) == PadBlocks(s) + PadBlocks(t)
    decreases |s|
  {
    hide BlockPoly;
    if s == [] {
      assert s + t == t;
    } else {
      assert (s + t)[..16] == s[..16] && (s + t)[16..] == s[16..] + t;
      PadConcat(s[16..], t);
    }
  }

  function LengthBlock(a: nat, n: nat): Poly {
    BlockPoly(Be64(8 * a) + Be64(8 * n))
  }

  function HashKey(c: Cipher): Poly
    requires c.Lawful()
  {
    BlockPoly(c.block(Zeroes(16)))
  }

  function XorBytes(a: seq<byte>, b: seq<byte>): (r: seq<byte>)
    requires |a| == |b|
    ensures |r| == |a|
  {
    seq(|a|, i requires 0 <= i < |a| => XorByte(a[i], b[i]))
  }

  /** The tag: the hash of the padded data and their lengths, under counter block 1. */
  function Tag(c: Cipher, iv: seq<byte>, aad: seq<byte>, ct: seq<byte>): (t: seq<byte>)
    requires c.Lawful() && |iv| == 12
    ensures |t| == 16
  {
    var y := Serial(Zero(), PadBlocks(aad) + PadBlocks(ct) + [LengthBlock(|aad|, |ct|)], HashKey(c));
    XorBytes(PolyBlock(y), c.block(CounterBlock(iv, 1)))
  }

  function Encrypt(c: Cipher, iv: seq<byte>, aad: seq<byte>, p: seq<byte>): (r: (seq<byte>, seq<byte>))
    requires c.Lawful() && |iv| == 12
  {
    var ct := Ctr(c, iv, 2, p);
    (ct, Tag(c, iv, aad, ct))
  }

  function Decrypt(c: Cipher, iv: seq<byte>, aad: seq<byte>, ct: seq<byte>, tag: seq<byte>): Option<seq<byte>>
    requires c.Lawful() && |iv| == 12
  {
    if Tag(c, iv, aad, ct) == tag then Some(Ctr(c, iv, 2, ct)) else None
  }

  /** What is sealed opens to itself. */
  lemma Opens(c: Cipher, iv: seq<byte>, aad: seq<byte>, p: seq<byte>)
    requires c.Lawful() && |iv| == 12
    ensures var (ct, tag) := Encrypt(c, iv, aad, p); Decrypt(c, iv, aad, ct, tag) == Some(p)
  {
    hide Tag;
    CtrTwice(c, iv, 2, p);
  }
}
