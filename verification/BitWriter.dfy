/** The bit writer of http1/deflate.v: bits gather in a word and leave it four bytes at a
    time. */
module BitWriter {
  import opened Basics
  import opened Bits

  function Zeros(n: nat): (b: seq<bool>)
    ensures |b| == n && forall i :: 0 <= i < n ==> !b[i]
  {
    seq(n, _ => false)
  }

  lemma {:induction false} LsbZero(n: nat)
    ensures Lsb(0, n) == Zeros(n)
  {
    if n != 0 {
      LsbZero(n - 1);
    }
  }

  class Writer {
    var out: seq<byte>
    var buf: nat
    var cnt: nat

    ghost predicate Valid()
      reads this
    {
      cnt < 32 && buf < Pow2(cnt)
    }

    /** Every bit put so far. */
    ghost function Stream(): (b: seq<bool>)
      reads this
    {
      ByteBits(out) + Lsb(buf, cnt)
    }

    constructor (prefix: seq<byte>)
      ensures Valid() && out == prefix && Stream() == ByteBits(prefix)
    {
      out, buf, cnt := prefix, 0, 0;
    }

    /** Appends the n bits of v, least significant first. Shifted above the pending bits,
        v overlaps none of them, so the union is a sum; it stays below 2^64. */
    method Put(v: nat, n: nat)
      requires Valid() && n <= 32 && v < Pow2(n)
      modifies this
      ensures Valid() && Stream() == old(Stream()) + Lsb(v, n)
    {
      hide Lsb, ByteBits, Pow2;
      ghost var before := ByteBits(out);
      var whole := buf + v * Pow2(cnt);
      LsbConcat(buf, cnt, v, n);
      Packed(buf, cnt, v, n);
      if cnt + n >= 32 {
        var w := WordBytes(whole);
        FourBytes(whole);
        ByteBitsConcat(out, w);
        CutWord(whole, cnt + n);
        Assoc(before, Lsb(whole, 32), Lsb(whole / 4294967296, cnt + n - 32));
        Assoc(before, Lsb(buf, cnt), Lsb(v, n));
        out := out + w;
        buf := whole / 4294967296;
        cnt := cnt + n - 32;
      } else {
        Assoc(before, Lsb(buf, cnt), Lsb(v, n));
        buf := whole;
        cnt := cnt + n;
      }
    }

    /** Writes the pending bits, zero-padded to a byte boundary. */
    method Flush()
      requires Valid()
      modifies this
      ensures Valid() && cnt == 0
      ensures Stream() == ByteBits(out)
      ensures var pad := |Stream()| - |old(Stream())|;
              0 <= pad < 8 && Stream() == old(Stream()) + Zeros(pad)
    {
      hide ByteBits;
      ghost var start := Stream();
      var rest, left: int := buf, cnt;
      ghost var pad: nat := 0;
      assert Zeros(0) == [] && start + [] == start;
      while left > 0
        invariant 0 <= rest
        invariant if left > 0 then pad == 0 && rest < Pow2(left) && ByteBits(out) + Lsb(rest, left) == start
                  else pad == -left < 8 && rest == 0 && ByteBits(out) == start + Zeros(pad)
        modifies this`out
        decreases left
      {
        ghost var was := ByteBits(out);
        ByteBitsConcat(out, [rest % 256]);
        OneByte(rest % 256);
        if left >= 8 {
          CutByte(rest, left);
          Assoc(was, Lsb(rest % 256, 8), Lsb(rest / 256, left - 8));
          if left == 8 {
            assert Zeros(0) == [];
          }
        } else {
          pad := 8 - left;
          LastByte(rest, left);
          Assoc(was, Lsb(rest, left), Zeros(pad));
        }
        out := out + [rest % 256];
        rest := rest / 256;
        left := left - 8;
      }
      buf, cnt := 0, 0;
      assert Lsb(0, 0) == [];
    }
  }

  lemma Packed(buf: nat, cnt: nat, v: nat, n: nat)
    requires buf < Pow2(cnt) && v < Pow2(n) && cnt < 32 && n <= 32
    ensures 0 <= v * Pow2(cnt) && buf + v * Pow2(cnt) < Pow2(cnt + n) <= 0x1_0000_0000_0000_0000
  {
    hide Pow2;
    Pow2Add(cnt, n);
    Above(buf, v, Pow2(cnt), Pow2(n));
    Pow2Mono(cnt + n, 64);
    Pow2Add(32, 32);
    Pow2Word();
  }

  lemma Above(lo: int, hi: int, p: int, q: int)
    requires 0 <= lo < p && 0 <= hi < q
    ensures 0 <= hi * p && lo + hi * p < p * q
  {
    MulMono(hi + 1, q, p);
    assert (hi + 1) * p == hi * p + p;
  }

  lemma CutWord(whole: nat, bits: nat)
    requires 32 <= bits && whole < Pow2(bits)
    ensures Lsb(whole, bits) == Lsb(whole, 32) + Lsb(whole / 4294967296, bits - 32)
    ensures whole / 4294967296 < Pow2(bits - 32)
  {
    hide Pow2, Lsb;
    Pow2Word();
    LsbConcat(whole % 4294967296, 32, whole / 4294967296, bits - 32);
    LsbConcat(whole % 4294967296, 32, whole / 4294967296, 0);
    assert Lsb(whole / 4294967296, 0) == [];
    Pow2Add(32, bits - 32);
  }

  lemma OneByte(x: byte)
    ensures ByteBits([x]) == Lsb(x, 8)
  {
    ByteBitsPush([], x);
    assert [] + [x] == [x];
  }

  lemma CutByte(rest: nat, left: nat)
    requires 8 <= left && rest < Pow2(left)
    ensures Lsb(rest, left) == Lsb(rest % 256, 8) + Lsb(rest / 256, left - 8)
    ensures rest / 256 < Pow2(left - 8)
    ensures left == 8 ==> rest / 256 == 0 && Lsb(rest / 256, 0) == []
  {
    hide Pow2, Lsb;
    LsbByte(rest, left - 8);
    Pow2Add(8, left - 8);
    Pow2Eight();
    Pow2Zero();
  }

  lemma LastByte(rest: nat, left: nat)
    requires 0 < left < 8 && rest < Pow2(left)
    ensures rest / 256 == 0 && rest % 256 == rest
    ensures Lsb(rest % 256, 8) == Lsb(rest, left) + Zeros(8 - left)
  {
    hide Pow2, Lsb;
    Pow2Mono(left, 8);
    Pow2Eight();
    LsbConcat(rest, left, 0, 8 - left);
    LsbZero(8 - left);
  }
}
