/** AES-GCM in engine/aesgcm.h: counter mode in place, encryption and hashing in one pass,
    records sealed with their type byte, and opening. The cipher's blocks are taken as a
    function. */
module Gcm {
  import opened Basics
  import opened Bits
  import opened Gf128
  import opened Clmul
  import opened Ghash
  import opened GcmSpec

  /** Buffers that are apart, or one buffer at one place. */
  ghost predicate InPlaceOrApart(inp: array<byte>, ip: nat, out: array<byte>, op: nat) {
    inp == out ==> ip == op
  }

  /** What a write of r at op leaves of a buffer. */
  function Overwritten(s: seq<byte>, op: nat, r: seq<byte>): (t: seq<byte>)
    requires op + |r| <= |s|
    ensures |t| == |s|
  {
    s[..op] + r + s[op + |r|..]
  }

  class Key {
    const c: Cipher
    const table: PowerTable

    ghost predicate Valid()
      reads table.hp, table.hk
    {
      c.Lawful() && table.Valid() && table.h == HashKey(c)
    }

    constructor (c: Cipher)
      requires c.Lawful()
      ensures Valid() && this.c == c && fresh(table) && fresh(table.hp) && fresh(table.hk)
    {
      var t := new PowerTable(HashKey(c));
      this.c, table := c, t;
    }

    /** Up to a block of input XORed with key stream. */
    method XorBlock(ks: seq<byte>, inp: array<byte>, ip: nat, out: array<byte>, op: nat, m: nat)
      requires m <= |ks| && ip + m <= inp.Length && op + m <= out.Length && InPlaceOrApart(inp, ip, out, op)
      modifies out
      ensures forall i :: 0 <= i < m ==> out[op + i] == XorByte(old(inp[ip + i]), ks[i])
      ensures forall j :: 0 <= j < out.Length && !(op <= j < op + m) ==> out[j] == old(out[j])
    {
      hide XorByte;
      ghost var src := inp[ip..ip + m];
      for i := 0 to m
        invariant forall k :: 0 <= k < i ==> out[op + k] == XorByte(src[k], ks[k])
        invariant forall k :: i <= k < m ==> inp[ip + k] == src[k]
        invariant forall j :: 0 <= j < out.Length && !(op <= j < op + i) ==> out[j] == old(out[j])
      {
        out[op + i] := XorByte(inp[ip + i], ks[i]);
      }
    }

    /** viltrum_gcm_ctr_from: eight counter blocks at a time, then one, then a part. */
    method CtrFrom(iv: seq<byte>, ctr: nat, inp: array<byte>, ip: nat, out: array<byte>, op: nat, n: nat)
      requires c.Lawful() && |iv| == 12 && ip + n <= inp.Length && op + n <= out.Length
      requires InPlaceOrApart(inp, ip, out, op)
      modifies out
      ensures out[..] == Overwritten(old(out[..]), op, Ctr(c, iv, ctr, old(inp[ip..ip + n])))
    {
      hide XorByte, KeyByte;
      ghost var src, before := inp[ip..ip + n], out[..];
      ghost var dst := Ctr(c, iv, ctr, src);
      var done := 0;
      while done + 128 <= n
        invariant 0 <= done <= n && done % 16 == 0 && Halfway(inp, ip, out, op, n, done, src, dst, before)
      {
        OneChunk(iv, ctr, inp, ip, out, op, n, done, src, before);
        done := done + 128;
      }
      while done < n
        invariant 0 <= done <= n && (done < n ==> done % 16 == 0)
        invariant Halfway(inp, ip, out, op, n, done, src, dst, before)
      {
        OneBlock(iv, ctr, inp, ip, out, op, n, done, src, before);
        done := if done + 16 <= n then done + 16 else n;
      }
      assert out[..] == Overwritten(before, op, dst);
    }

    /** The first done bytes are written, the rest still to be read. */
    ghost predicate Halfway(inp: array<byte>, ip: nat, out: array<byte>, op: nat, n: nat, done: nat, src: seq<byte>,
                            dst: seq<byte>, before: seq<byte>)
      reads inp, out
    {
      && ip + n <= inp.Length && op + n <= out.Length == |before| && |src| == |dst| == n && done <= n
      && (forall i :: 0 <= i < done ==> out[op + i] == dst[i])
      && (forall i :: done <= i < n ==> inp[ip + i] == src[i])
      && (forall j :: 0 <= j < out.Length && !(op <= j < op + done) ==> out[j] == before[j])
    }

    /** One counter block at done, a whole number of blocks in. */
    method OneBlock(iv: seq<byte>, ctr: nat, inp: array<byte>, ip: nat, out: array<byte>, op: nat, n: nat, done: nat,
                    ghost src: seq<byte>, ghost before: seq<byte>)
      requires c.Lawful() && |iv| == 12 && done % 16 == 0 && done < n && |src| == n && InPlaceOrApart(inp, ip, out, op)
      requires Halfway(inp, ip, out, op, n, done, src, Ctr(c, iv, ctr, src), before)
      modifies out
      ensures Halfway(inp, ip, out, op, n, if done + 16 <= n then done + 16 else n, src, Ctr(c, iv, ctr, src), before)
    {
      hide XorByte, KeyByte, Ctr;
      var k := done / 16;
      var m := if done + 16 <= n then 16 else n - done;
      var ks := c.block(CounterBlock(iv, ctr + k));
      forall i | 0 <= i < m
        ensures KeyByte(c, iv, ctr, done + i) == ks[i]
      {
        KeyAt(c, iv, ctr, k, i);
      }
      XorBlock(ks, inp, ip + done, out, op + done, m);
      forall i | done <= i < done + m
        ensures out[op + i] == Ctr(c, iv, ctr, src)[i]
      {
        CtrAt(c, iv, ctr, src, i);
        assert out[(op + done) + (i - done)] == XorByte(src[done + (i - done)], ks[i - done]);
      }
    }

    /** The eight blocks of a 128-byte chunk at done. */
    method OneChunk(iv: seq<byte>, ctr: nat, inp: array<byte>, ip: nat, out: array<byte>, op: nat, n: nat, done: nat,
                    ghost src: seq<byte>, ghost before: seq<byte>)
      requires c.Lawful() && |iv| == 12 && done % 16 == 0 && done + 128 <= n && |src| == n
      requires InPlaceOrApart(inp, ip, out, op)
      requires Halfway(inp, ip, out, op, n, done, src, Ctr(c, iv, ctr, src), before)
      modifies out
      ensures Halfway(inp, ip, out, op, n, done + 128, src, Ctr(c, iv, ctr, src), before)
    {
      hide Halfway, Ctr;
      for k := 0 to 8
        invariant Halfway(inp, ip, out, op, n, done + 16 * k, src, Ctr(c, iv, ctr, src), before)
      {
        OneBlock(iv, ctr, inp, ip, out, op, n, done + 16 * k, src, before);
      }
    }

    /** viltrum_ghash: whole blocks, then a padded part. */
    method Hash(y: Poly, s: seq<byte>) returns (r: Poly)
      requires Valid()
      ensures r == Serial(y, PadBlocks(s), table.h)
    {
      hide Serial, BlockPoly;
      var rest := |s| % 16;
      var whole := |s| - rest;
      PadConcat(s[..whole], s[whole..]);
      assert s[..whole] + s[whole..] == s;
      SerialConcat(y, PadBlocks(s[..whole]), PadBlocks(s[whole..]), table.h);
      r := table.Blocks(y, PadBlocks(s[..whole]));
      if rest > 0 {
        var last := s[whole..] + Zeroes(16 - rest);
        r := table.Blocks(r, [BlockPoly(last)]);
      } else {
        NoBlocks(r, table.h);
      }
    }

    /** viltrum_gcm_enc_ghash: each 128-byte chunk is hashed while the next is encrypted. */
    method EncGhash(iv: seq<byte>, ctr: nat, inp: array<byte>, ip: nat, out: array<byte>, op: nat, n: nat, y: Poly)
        returns (done: nat, r: Poly)
      requires Valid() && |iv| == 12 && ip + n <= inp.Length && op + n <= out.Length && InPlaceOrApart(inp, ip, out, op)
      modifies out
      ensures done <= n < done + 128 && done % 128 == 0
      ensures out[..] == Overwritten(old(out[..]), op, Ctr(c, iv, ctr, old(inp[ip..ip + done])))
      ensures r == Serial(y, PadBlocks(Ctr(c, iv, ctr, old(inp[ip..ip + done]))), table.h)
    {
      hide Serial, Ctr, PadBlocks, Halfway, Pass, Valid;
      var chunks := n / 128;
      done := chunks * 128;
      ghost var src, before := inp[ip..ip + done], out[..];
      Beginning(iv, ctr, inp, ip, out, op, done, src, before, y);
      r := y;
      if chunks > 0 {
        FirstChunk(iv, ctr, inp, ip, out, op, done, src, before, y);
        for j := 1 to chunks
          invariant Pass(iv, ctr, inp, ip, out, op, done, 128 * (j - 1), 128 * j, src, before, y, r)
        {
          r := NextChunk(iv, ctr, inp, ip, out, op, done, 128 * j, src, before, y, r);
        }
        r := LastChunk(iv, ctr, inp, ip, out, op, done, src, before, y, r);
      }
      AllDone(iv, ctr, inp, ip, out, op, done, src, before, y, r);
    }

    /** done bytes are encrypted, hashed bytes of the result hashed. */
    ghost predicate Pass(iv: seq<byte>, ctr: nat, inp: array<byte>, ip: nat, out: array<byte>, op: nat, n: nat,
                         hashed: nat, done: nat,
                         src: seq<byte>, before: seq<byte>, y: Poly, r: Poly)
      reads inp, out, table.hp, table.hk
    {
      && Valid() && |iv| == 12 && hashed % 128 == 0 && done % 128 == 0 && hashed <= done <= n == |src|
      && Halfway(inp, ip, out, op, n, done, src, Ctr(c, iv, ctr, src), before)
      && r == Serial(y, PadBlocks(Ctr(c, iv, ctr, src)[..hashed]), table.h)
    }

    /** The first chunk is only encrypted. */
    method FirstChunk(iv: seq<byte>, ctr: nat, inp: array<byte>, ip: nat, out: array<byte>, op: nat, n: nat,
                      ghost src: seq<byte>, ghost before: seq<byte>, ghost y: Poly)
      requires Pass(iv, ctr, inp, ip, out, op, n, 0, 0, src, before, y, y) && 128 <= n
      requires InPlaceOrApart(inp, ip, out, op)
      modifies out
      ensures Pass(iv, ctr, inp, ip, out, op, n, 0, 128, src, before, y, y)
    {
      hide Serial, Ctr, PadBlocks, Halfway;
      OneChunk(iv, ctr, inp, ip, out, op, n, 0, src, before);
    }

    /** The chunk before at is hashed, the one at at encrypted. */
    method NextChunk(iv: seq<byte>, ctr: nat, inp: array<byte>, ip: nat, out: array<byte>, op: nat, n: nat, at: nat,
                     ghost src: seq<byte>, ghost before: seq<byte>,
                     ghost y: Poly, r: Poly) returns (z: Poly)
      requires 128 <= at && at + 128 <= n && Pass(iv, ctr, inp, ip, out, op, n, at - 128, at, src, before, y, r)
      requires InPlaceOrApart(inp, ip, out, op)
      modifies out
      ensures Pass(iv, ctr, inp, ip, out, op, n, at, at + 128, src, before, y, z)
    {
      hide Serial, Ctr, PadBlocks, Halfway;
      ghost var dst := Ctr(c, iv, ctr, src);
      Chunk(inp, ip, out, op, n, at, src, dst, before);
      HashChunk(y, dst, at - 128, table.h);
      z := table.Eight(r, PadBlocks(out[op + (at - 128)..op + at]));
      OneChunk(iv, ctr, inp, ip, out, op, n, at, src, before);
    }

    method LastChunk(iv: seq<byte>, ctr: nat, inp: array<byte>, ip: nat, out: array<byte>, op: nat, n: nat,
                     ghost src: seq<byte>, ghost before: seq<byte>,
                     ghost y: Poly, r: Poly) returns (z: Poly)
      requires 128 <= n && Pass(iv, ctr, inp, ip, out, op, n, n - 128, n, src, before, y, r)
      ensures Pass(iv, ctr, inp, ip, out, op, n, n, n, src, before, y, z)
    {
      hide Serial, Ctr, PadBlocks, Halfway;
      ghost var dst := Ctr(c, iv, ctr, src);
      Chunk(inp, ip, out, op, n, n, src, dst, before);
      HashChunk(y, dst, n - 128, table.h);
      z := table.Blocks(r, PadBlocks(out[op + (n - 128)..op + n]));
    }

    lemma Beginning(iv: seq<byte>, ctr: nat, inp: array<byte>, ip: nat, out: array<byte>, op: nat, n: nat,
                    src: seq<byte>, before: seq<byte>, y: Poly)
      requires Valid() && |iv| == 12 && ip + n <= inp.Length && op + n <= out.Length && n % 128 == 0
      requires src == inp[ip..ip + n] && before == out[..]
      ensures c.Lawful() && Pass(iv, ctr, inp, ip, out, op, n, 0, 0, src, before, y, y)
    {
      hide Serial, Ctr, PadBlocks;
      NoneHashed(y, Ctr(c, iv, ctr, src), table.h);
    }

    lemma Chunk(inp: array<byte>, ip: nat, out: array<byte>, op: nat, n: nat, done: nat, src: seq<byte>, dst: seq<byte>,
                before: seq<byte>)
      requires Halfway(inp, ip, out, op, n, done, src, dst, before) && done >= 128
      ensures op + done <= out.Length && out[op + (done - 128)..op + done] == dst[done - 128..done]
    {
    }

    lemma AllDone(iv: seq<byte>, ctr: nat, inp: array<byte>, ip: nat, out: array<byte>, op: nat, n: nat, src: seq<byte>,
                  before: seq<byte>, y: Poly, r: Poly)
      requires Pass(iv, ctr, inp, ip, out, op, n, n, n, src, before, y, r)
      ensures c.Lawful() && op + n <= |before| && out[..] == Overwritten(before, op, Ctr(c, iv, ctr, src))
      ensures r == Serial(y, PadBlocks(Ctr(c, iv, ctr, src)), table.h)
    {
      hide Serial, PadBlocks, KeyByte, XorByte;
      var dst := Ctr(c, iv, ctr, src);
      assert dst[..n] == dst;
      assert out[..] == Overwritten(before, op, dst);
    }

    /** viltrum_gcm_tag: the length block, and counter block 1 over the hash. */
    method MakeTag(iv: seq<byte>, y: Poly, aad: seq<byte>, ghost ct: seq<byte>, n: nat) returns (tag: seq<byte>)
      requires Valid() && |iv| == 12 && n == |ct|
      requires y == Serial(Serial(Zero(), PadBlocks(aad), table.h), PadBlocks(ct), table.h)
      ensures tag == Tag(c, iv, aad, ct)
    {
      hide Serial, PadBlocks, LengthBlock, Act, PolyBlock, XorBytes, HPow;
      FirstPower(table.h);
      var r := GfMul(Add(y, LengthBlock(|aad|, n)), table.hp[0]);
      TagHash(PadBlocks(aad), PadBlocks(ct), LengthBlock(|aad|, n), table.h);
      tag := XorBytes(PolyBlock(r), c.block(CounterBlock(iv, 1)));
    }

    /** Encrypts all of the input: whole chunks in one pass with their hash, then the rest. */
    method EncryptAll(iv: seq<byte>, inp: array<byte>, ip: nat, out: array<byte>, op: nat, n: nat, y: Poly)
        returns (done: nat, z: Poly)
      requires Valid() && |iv| == 12 && ip + n <= inp.Length && op + n <= out.Length && InPlaceOrApart(inp, ip, out, op)
      modifies out
      ensures var ct := Ctr(c, iv, 2, old(inp[ip..ip + n]));
              && Valid() && out[..] == Overwritten(old(out[..]), op, ct) && out[op..op + n] == ct
              && done <= n && done % 16 == 0 && z == Serial(y, PadBlocks(ct[..done]), table.h)
    {
      hide Serial, PadBlocks, Ctr, Overwritten, Valid;
      ghost var p, before, inputs := inp[ip..ip + n], out[..], inp[..];
      Sound();
      done, z := EncGhash(iv, 2, inp, ip, out, op, n, y);
      Slices(inputs, ip, n, done);
      StillThere(inp == out, inputs, inp[..], before, out[..], ip, op, n, done, Ctr(c, iv, 2, p[..done]));
      EncryptRest(iv, inp, ip + done, out, op, n, done, p, before);
    }

    lemma Sound()
      requires Valid()
      ensures c.Lawful()
    {
    }

    /** Goes on where done bytes of p are encrypted at op, a whole number of blocks. */
    method EncryptRest(iv: seq<byte>, inp: array<byte>, ip: nat, out: array<byte>, op: nat, n: nat, done: nat,
                       ghost p: seq<byte>, ghost before: seq<byte>)
      requires c.Lawful() && |iv| == 12 && done % 16 == 0 && done <= n == |p|
      requires ip + (n - done) <= inp.Length && op + n <= out.Length == |before|
      requires (inp == out ==> ip == op + done) && inp[ip..ip + (n - done)] == p[done..]
      requires out[..] == Overwritten(before, op, Ctr(c, iv, 2, p[..done]))
      modifies out
      ensures out[..] == Overwritten(before, op, Ctr(c, iv, 2, p)) && out[op..op + n] == Ctr(c, iv, 2, p)
      ensures Ctr(c, iv, 2, p[..done]) == Ctr(c, iv, 2, p)[..done]
    {
      hide Ctr, Overwritten;
      Joined(c, iv, p, done, before, op);
      CtrFrom(iv, 2 + done / 16, inp, ip, out, op + done, n - done);
      Parts(before, op, Ctr(c, iv, 2, p));
      assert out[op..op + n] == out[..][op..op + n];
    }

    /** Hashes what is left after the first done bytes. */
    method HashTail(out: array<byte>, op: nat, n: nat, done: nat, ghost ct: seq<byte>, ghost y: Poly, z: Poly)
        returns (r: Poly)
      requires Valid() && op + n <= out.Length && out[op..op + n] == ct && done <= n && done % 16 == 0
      requires z == Serial(y, PadBlocks(ct[..done]), table.h)
      ensures r == Serial(y, PadBlocks(ct), table.h)
    {
      hide Serial, PadBlocks;
      HashRest(y, ct, done, table.h);
      assert out[op + done..op + n] == ct[done..];
      r := Hash(z, out[op + done..op + n]);
    }

    /** viltrum_gcm_seal, in place or not. */
    method Seal(iv: seq<byte>, aad: seq<byte>, inp: array<byte>, ip: nat, out: array<byte>, op: nat, n: nat)
        returns (tag: seq<byte>)
      requires Valid() && |iv| == 12 && ip + n <= inp.Length && op + n <= out.Length && InPlaceOrApart(inp, ip, out, op)
      modifies out
      ensures var (ct, t) := Encrypt(c, iv, aad, old(inp[ip..ip + n]));
              out[..] == Overwritten(old(out[..]), op, ct) && tag == t
    {
      hide Serial, PadBlocks, Ctr, Tag, Overwritten;
      ghost var p := inp[ip..ip + n];
      var y := Hash(Zero(), aad);
      var done, z := EncryptAll(iv, inp, ip, out, op, n, y);
      z := HashTail(out, op, n, done, Ctr(c, iv, 2, p), y, z);
      tag := MakeTag(iv, z, aad, Ctr(c, iv, 2, p), n);
    }

    /** viltrum_gcm_seal_record: content and its type byte, sealed without being copied
        together. */
    method SealRecord(iv: seq<byte>, aad: seq<byte>, inp: array<byte>, ip: nat, n: nat, typ: byte, out: array<byte>,
                      op: nat) returns (tag: seq<byte>)
      requires Valid() && |iv| == 12 && ip + n <= inp.Length && op + n + 1 <= out.Length && inp != out
      modifies out
      ensures var (ct, t) := Encrypt(c, iv, aad, inp[ip..ip + n] + [typ]);
              out[..] == Overwritten(old(out[..]), op, ct) && tag == t
    {
      hide Serial, PadBlocks, Ctr, Tag, Overwritten;
      ghost var p := inp[ip..ip + n] + [typ];
      var y := Hash(Zero(), aad);
      var z := EncryptRecord(iv, inp, ip, n, typ, out, op, y);
      tag := MakeTag(iv, z, aad, Ctr(c, iv, 2, p), n + 1);
    }

    /** The whole blocks of the content, then its last bytes and the type. */
    method EncryptRecord(iv: seq<byte>, inp: array<byte>, ip: nat, n: nat, typ: byte, out: array<byte>, op: nat,
                         y: Poly) returns (z: Poly)
      requires Valid() && |iv| == 12 && ip + n <= inp.Length && op + n + 1 <= out.Length && inp != out
      modifies out
      ensures Valid() && out[..] == Overwritten(old(out[..]), op, Ctr(c, iv, 2, inp[ip..ip + n] + [typ]))
      ensures z == Serial(y, PadBlocks(Ctr(c, iv, 2, inp[ip..ip + n] + [typ])), table.h)
    {
      hide Serial, PadBlocks, Ctr, Overwritten, Valid;
      ghost var p, before := inp[ip..ip + n] + [typ], out[..];
      Sound();
      var rest := n % 16;
      var full := n - rest;
      RecordSlices(inp[..], ip, n, typ, full);
      var done;
      done, z := EncryptAll(iv, inp, ip, out, op, full, y);
      var last := LastBlock(inp, ip + full, rest, typ);
      EncryptRest(iv, last, 0, out, op, n + 1, full, p, before);
      Shorter(Ctr(c, iv, 2, p), full, done);
      z := HashTail(out, op, n + 1, done, Ctr(c, iv, 2, p), y, z);
    }

    /** The last bytes of the content and the type, in a block of their own. */
    method LastBlock(inp: array<byte>, start: nat, rest: nat, typ: byte) returns (last: array<byte>)
      requires rest < 16 && start + rest <= inp.Length
      ensures fresh(last) && last.Length == 16 && last[0..rest + 1] == inp[start..start + rest] + [typ]
    {
      last := new byte[16](_ => 0);
      for k := 0 to rest
        invariant last[..k] == inp[start..start + k]
      {
        last[k] := inp[start + k];
      }
      last[rest] := typ;
    }

    /** viltrum_gcm_open: nothing is written unless the tag is right. */
    method Open(iv: seq<byte>, aad: seq<byte>, inp: array<byte>, ip: nat, out: array<byte>, op: nat, n: nat,
                tag: seq<byte>) returns (ok: bool)
      requires Valid() && |iv| == 12 && |tag| == 16 && ip + n <= inp.Length && op + n <= out.Length
      requires InPlaceOrApart(inp, ip, out, op)
      modifies out
      ensures var p := Decrypt(c, iv, aad, old(inp[ip..ip + n]), tag);
              && ok == p.Some?
              && out[..] == (if ok then Overwritten(old(out[..]), op, Ctr(c, iv, 2, old(inp[ip..ip + n])))
                             else old(out[..]))
              && (ok ==> p.value == Ctr(c, iv, 2, old(inp[ip..ip + n])))
    {
      hide Serial, PadBlocks, Ctr, Tag;
      var ct := inp[ip..ip + n];
      var y := Hash(Zero(), aad);
      y := Hash(y, ct);
      var want := MakeTag(iv, y, aad, ct, n);
      ok := true;
      for i := 0 to 16
        invariant ok <==> want[..i] == tag[..i]
      {
        ok := ok && want[i] == tag[i];
        assert want[..i + 1] == want[..i] + [want[i]] && tag[..i + 1] == tag[..i] + [tag[i]];
      }
      assert want[..16] == want && tag[..16] == tag;
      if ok {
        CtrFrom(iv, 2, inp, ip, out, op, n);
      }
    }
  }

  /** What is not encrypted yet is still to be read. */
  lemma StillThere(same: bool, i0: seq<byte>, i1: seq<byte>, b0: seq<byte>, b1: seq<byte>, ip: nat, op: nat, n: nat,
                   done: nat, ct: seq<byte>)
    requires |i0| == |i1| && |b0| == |b1| && ip + n <= |i0| && op + n <= |b0| && done == |ct| <= n
    requires if same then ip == op && i0 == b0 && i1 == b1 else i1 == i0
    requires b1 == Overwritten(b0, op, ct)
    ensures i1[ip + done..ip + done + (n - done)] == i0[ip..ip + n][done..]
  {
    var u, v := i1[ip + done..ip + done + (n - done)], i0[ip..ip + n][done..];
    forall k | 0 <= k < n - done
      ensures u[k] == v[k]
    {
      if same {
        assert b1[op + done..][k] == b0[op + done..][k];
      }
    }
  }

  lemma Slices(s: seq<byte>, ip: nat, n: nat, done: nat)
    requires ip + n <= |s| && done <= n
    ensures s[ip..ip + done] == s[ip..ip + n][..done]
  {
  }

  lemma RecordSlices(s: seq<byte>, ip: nat, n: nat, typ: byte, full: nat)
    requires ip + n <= |s| && full <= n
    ensures var p := s[ip..ip + n] + [typ];
            s[ip..ip + full] == p[..full] && p[full..] == s[ip + full..ip + full + (n - full)] + [typ]
  {
  }

  lemma Shorter(s: seq<byte>, full: nat, done: nat)
    requires done <= full <= |s|
    ensures s[..full][..done] == s[..done]
  {
  }

  lemma Parts(s: seq<byte>, op: nat, r: seq<byte>)
    requires op + |r| <= |s|
    ensures var t := Overwritten(s, op, r); t[op..op + |r|] == r && t[..op] == s[..op] && t[op + |r|..] == s[op + |r|..]
  {
  }

  /** Two writes one after the other are the write of both. */
  lemma TwoWrites(before: seq<byte>, op: nat, a: seq<byte>, b: seq<byte>)
    requires op + |a| + |b| <= |before|
    ensures Overwritten(Overwritten(before, op, a), op + |a|, b) == Overwritten(before, op, a + b)
  {
    var mid := Overwritten(before, op, a);
    assert mid[..op + |a|] == before[..op] + a;
    assert mid[op + |a| + |b|..] == before[op + |a| + |b|..] by {
      assert mid[op + |a| + |b|..] == mid[op + |a|..][|b|..];
      assert before[op + |a| + |b|..] == before[op + |a|..][|b|..];
    }
  }

  lemma Joined(c: Cipher, iv: seq<byte>, p: seq<byte>, done: nat, before: seq<byte>, op: nat)
    requires c.Lawful() && |iv| == 12 && done <= |p| && done % 16 == 0 && op + |p| <= |before|
    ensures var first := Overwritten(before, op, Ctr(c, iv, 2, p[..done]));
            Overwritten(first, op + done, Ctr(c, iv, 2 + done / 16, p[done..]))
                == Overwritten(before, op, Ctr(c, iv, 2, p))
    ensures Ctr(c, iv, 2, p[..done]) == Ctr(c, iv, 2, p)[..done]
  {
    hide Ctr, Overwritten;
    CtrSplit(c, iv, 2, p[..done], p[done..]);
    assert p == p[..done] + p[done..];
    TwoWrites(before, op, Ctr(c, iv, 2, p[..done]), Ctr(c, iv, 2 + done / 16, p[done..]));
  }

  /** The hash of what was done and of the rest is the hash of all. */
  lemma HashRest(y: Poly, ct: seq<byte>, done: nat, h: Poly)
    requires done <= |ct| && done % 16 == 0
    ensures Serial(Serial(y, PadBlocks(ct[..done]), h), PadBlocks(ct[done..]), h) == Serial(y, PadBlocks(ct), h)
  {
    hide Serial, PadBlocks;
    assert ct == ct[..done] + ct[done..];
    PadConcat(ct[..done], ct[done..]);
    SerialConcat(y, PadBlocks(ct[..done]), PadBlocks(ct[done..]), h);
  }

  lemma TagHash(a: seq<Poly>, x: seq<Poly>, len: Poly, h: Poly)
    ensures Serial(Zero(), a + x + [len], h) == Mul(Add(Serial(Serial(Zero(), a, h), x, h), len), h)
  {
    hide Serial, Act;
    SerialConcat(Zero(), a + x, [len], h);
    SerialConcat(Zero(), a, x, h);
    OneBlock(Serial(Zero(), a + x, h), len, h);
  }

  lemma NoneHashed(y: Poly, s: seq<byte>, h: Poly)
    ensures s[..0] == [] && Serial(y, PadBlocks([]), h) == y
  {
  }

  lemma HashChunk(y: Poly, s: seq<byte>, a: nat, h: Poly)
    requires a + 128 <= |s| && a % 16 == 0
    ensures Serial(Serial(y, PadBlocks(s[..a]), h), PadBlocks(s[a..a + 128]), h)
              == Serial(y, PadBlocks(s[..a + 128]), h)
    ensures |PadBlocks(s[a..a + 128])| == 8
  {
    hide Serial, PadBlocks;
    assert s[..a + 128] == s[..a] + s[a..a + 128];
    PadConcat(s[..a], s[a..a + 128]);
    SerialConcat(y, PadBlocks(s[..a]), PadBlocks(s[a..a + 128]), h);
  }

  lemma KeyAt(c: Cipher, iv: seq<byte>, ctr: nat, k: nat, i: nat)
    requires c.Lawful() && |iv| == 12 && i < 16
    ensures KeyByte(c, iv, ctr, 16 * k + i) == c.block(CounterBlock(iv, ctr + k))[i]
  {
    DivUnique(16 * k + i, 16, k, i);
  }
}
