/** The second half of block in http1/deflate.v: putting a stored, fixed or dynamic block
    on the bit writer. */
module BlockWrite {
  import opened Basics
  import opened Bits
  import opened BitWriter
  import opened Canonical
  import opened Tokens
  import opened CodeLengths
  import opened Inflate
  import opened BlockFormat
  import opened Chunk
  import opened Cost

  /** The reversed codes of some lengths. */
  ghost predicate TableFor(codes: seq<nat>, lens: seq<nat>) {
    && |codes| == |lens|
    && forall s :: 0 <= s < |lens| && lens[s] > 0 ==> codes[s] == Reverse(Code(lens, s), lens[s])
  }

  /** A code put on the writer. */
  lemma PutCode(codes: seq<nat>, lens: seq<nat>, s: nat)
    requires TableFor(codes, lens) && s < |lens| && lens[s] > 0
    ensures codes[s] < Pow2(lens[s]) && Lsb(codes[s], lens[s]) == CodeBits(lens, s)
  {
    hide Reverse, Code, Lsb, Msb, Pow2;
    ReverseWrites(Code(lens, s), lens[s]);
  }

  /** A code with extra bits above it. */
  function Field(code: nat, bits: nat, x: nat): nat {
    MulMono(0, x, Pow2(bits));
    code + x * Pow2(bits)
  }

  /** A code with its extra bits, put at once. */
  lemma PutField(codes: seq<nat>, lens: seq<nat>, s: nat, x: nat, e: nat)
    requires TableFor(codes, lens) && s < |lens| && lens[s] > 0 && x < Pow2(e)
    ensures |codes| == |lens| && Field(codes[s], lens[s], x) < Pow2(lens[s] + e)
    ensures Lsb(Field(codes[s], lens[s], x), lens[s] + e) == CodeBits(lens, s) + Lsb(x, e)
  {
    hide Code, Lsb, Pow2, CodeBits, TableFor;
    TableSize(codes, lens);
    var l := lens[s];
    PutCode(codes, lens, s);
    Pow2Add(l, e);
    Above(codes[s], x, Pow2(l), Pow2(e));
    LsbConcat(codes[s], l, x, e);
  }

  lemma TableSize(codes: seq<nat>, lens: seq<nat>)
    requires TableFor(codes, lens)
    ensures |codes| == |lens|
  {
  }

  ghost predicate Short(lens: seq<nat>) {
    forall s :: 0 <= s < |lens| ==> lens[s] <= MAX_BITS
  }

  /** One match: length code and extra bits, then distance code and extra bits. */
  method WriteMatch(w: Writer, len: nat, dist: nat, ds: nat, lit: seq<nat>, litCodes: seq<nat>, distLens: seq<nat>,
                    distCodes: seq<nat>)
    requires w.Valid() && Match(len, dist).Sound() && ds == DistSym(dist) && Coded(Match(len, dist), lit, distLens)
    requires TableFor(litCodes, lit) && TableFor(distCodes, distLens) && Short(lit) && Short(distLens)
    modifies w
    ensures w.Valid() && w.Stream() == old(w.Stream()) + TokenBits(Match(len, dist), lit, distLens)
  {
    hide TableFor, Writer.Valid, Writer.Stream, Pow2, Lsb, CodeBits, LenBase, LenExtra, DistBase, DistExtra, LenSym;
    hide DistSym, Field, TokenBits;
    ghost var start := w.Stream();
    var ls := LenSym(len);
    var lbits := lit[257 + ls];
    LenTable(ls);
    var lx := len - LEN_BASE[ls];
    PutField(litCodes, lit, 257 + ls, lx, LenExtra(ls));
    w.Put(Field(litCodes[257 + ls], lbits, lx), lbits + LEN_XBITS[ls]);
    var dbits := distLens[ds];
    DistTable(ds);
    var dx := dist - DIST_BASE[ds];
    PutField(distCodes, distLens, ds, dx, DistExtra(ds));
    w.Put(Field(distCodes[ds], dbits, dx), dbits + DIST_XBITS[ds]);
    MatchBits(start, len, dist, lit, distLens);
  }

  lemma MatchBits(start: seq<bool>, len: nat, dist: nat, lit: seq<nat>, distLens: seq<nat>)
    requires Match(len, dist).Sound() && Coded(Match(len, dist), lit, distLens)
    ensures var ls, ds := LenSym(len), DistSym(dist);
            start + TokenBits(Match(len, dist), lit, distLens)
            == (start + (CodeBits(lit, 257 + ls) + Lsb(len - LenBase(ls), LenExtra(ls))))
               + (CodeBits(distLens, ds) + Lsb(dist - DistBase(ds), DistExtra(ds)))
  {
    hide Lsb, CodeBits, LenBase, LenExtra, DistBase, DistExtra, LenSym, DistSym;
    var ls, ds := LenSym(len), DistSym(dist);
    Assoc(start, CodeBits(lit, 257 + ls) + Lsb(len - LenBase(ls), LenExtra(ls)),
          CodeBits(distLens, ds) + Lsb(dist - DistBase(ds), DistExtra(ds)));
  }

  /** One word of the chunk: its token's bits. */
  method WriteWord(w: Writer, e: nat, ghost t: Token, lit: seq<nat>, litCodes: seq<nat>, dist: seq<nat>,
                   distCodes: seq<nat>)
    requires w.Valid() && t.Sound() && e == Pack(t) && Coded(t, lit, dist)
    requires TableFor(litCodes, lit) && TableFor(distCodes, dist) && Short(lit) && Short(dist)
    modifies w
    ensures w.Valid() && w.Stream() == old(w.Stream()) + TokenBits(t, lit, dist)
  {
    hide TableFor, Writer.Valid, Writer.Stream, Pow2, Lsb, CodeBits, TokenBits, Pack, LenSym, DistSym;
    PackFields(t);
    if e / 2147483648 == 0 {
      TableSize(litCodes, lit);
      PutCode(litCodes, lit, e);
      LiteralBits(t, lit, dist);
      w.Put(litCodes[e], lit[e]);
    } else {
      WriteMatch(w, (e / 65536) % 512, e % 65536, (e / 33554432) % 32, lit, litCodes, dist, distCodes);
    }
  }

  /** The chunk's words, then the end of block. */
  method WriteData(w: Writer, q: Sequences, lit: seq<nat>, litCodes: seq<nat>, dist: seq<nat>, distCodes: seq<nat>)
    requires w.Valid() && q.Valid() && AllCoded(q.tokens, lit, dist) && |lit| > 256 && lit[256] > 0
    requires TableFor(litCodes, lit) && TableFor(distCodes, dist) && Short(lit) && Short(dist)
    modifies w
    ensures w.Valid() && w.Stream() == old(w.Stream()) + DataBits(q.tokens, lit, dist)
  {
    hide TableFor, Writer.Valid, Writer.Stream, Pow2, Lsb, CodeBits, LitUses, DistUses, TokenBits, TokensBits, Pack;
    hide Coded, Short;
    ghost var start := w.Stream();
    ghost var ts := q.tokens;
    NoTokens(ts, lit, dist, start);
    for k := 0 to q.ns
      invariant w.Valid() && q.Valid() && q.tokens == ts && AllCoded(ts[..k], lit, dist)
      invariant w.Stream() == start + TokensBits(ts[..k], lit, dist)
    {
      ghost var t := ts[k];
      assert ts[..k + 1] == ts[..k] + [t];
      TokensBitsPush(ts[..k], t, lit, dist);
      Assoc(start, TokensBits(ts[..k], lit, dist), TokenBits(t, lit, dist));
      WriteWord(w, q.words[k], t, lit, litCodes, dist, distCodes);
    }
    assert ts[..q.ns] == ts;
    EndOfBlock(w, start, ts, lit, litCodes, dist);
  }

  method EndOfBlock(w: Writer, ghost start: seq<bool>, ghost ts: seq<Token>, lit: seq<nat>, litCodes: seq<nat>,
                    ghost dist: seq<nat>)
    requires w.Valid() && AllCoded(ts, lit, dist) && |lit| > 256 && lit[256] > 0 && TableFor(litCodes, lit)
    requires Short(lit)
    requires w.Stream() == start + TokensBits(ts, lit, dist)
    modifies w
    ensures w.Valid() && w.Stream() == start + DataBits(ts, lit, dist)
  {
    hide TableFor, Writer.Valid, Writer.Stream, Pow2, Lsb, CodeBits, TokensBits, AllCoded;
    TableSize(litCodes, lit);
    PutCode(litCodes, lit, 256);
    Assoc(start, TokensBits(ts, lit, dist), CodeBits(lit, 256));
    w.Put(litCodes[256], lit[256]);
  }

  lemma NoTokens(ts: seq<Token>, lit: seq<nat>, dist: seq<nat>, start: seq<bool>)
    requires AllCoded(ts, lit, dist)
    ensures AllCoded(ts[..0], lit, dist) && start + TokensBits(ts[..0], lit, dist) == start
  {
  }

  lemma LiteralBits(t: Token, lit: seq<nat>, dist: seq<nat>)
    requires t.Sound() && Coded(t, lit, dist)
    ensures t.Literal? ==> TokenBits(t, lit, dist) == CodeBits(lit, t.b)
  {
  }

  /** The lengths of the code length code, in order. */
  method WriteOrder(w: Writer, h: Header)
    requires w.Valid() && h.Sound()
    modifies w
    ensures w.Valid() && w.Stream() == old(w.Stream()) + OrderBits(h.cl, 0, h.hclen)
  {
    hide Writer.Valid, Writer.Stream, Pow2, Lsb, OrderAt, AllCl, ClExpand;
    ghost var start := w.Stream();
    PowersOfTwo();
    assert OrderBits(h.cl, 0, 0) == [] && start + [] == start;
    for k := 0 to h.hclen
      invariant w.Valid() && w.Stream() == start + OrderBits(h.cl, 0, k)
    {
      OrderBitsPush(h.cl, 0, k);
      Assoc(start, OrderBits(h.cl, 0, k), Lsb(h.cl[OrderAt(k)], 3));
      OrderTable(k);
      w.Put(h.cl[CL_ORDER[k]], 3);
    }
  }

  /** The run-length coded lengths. */
  method WriteCl(w: Writer, h: Header, codes: seq<nat>)
    requires w.Valid() && h.Sound() && TableFor(codes, h.cl)
    modifies w
    ensures w.Valid() && w.Stream() == old(w.Stream()) + ClBits(h.ws, h.cl)
  {
    hide Writer.Valid, Writer.Stream, Pow2, Lsb, ClExpand, CodeBits, ClSym, ClValue, ClExtra, TableFor, OrderAt, ClBits;
    TableSize(codes, h.cl);
    ghost var start := w.Stream();
    NoCl(h.ws, h.cl, start);
    for k := 0 to |h.ws|
      invariant w.Valid() && AllCl(h.ws[..k], h.cl) && w.Stream() == start + ClBits(h.ws[..k], h.cl)
    {
      var r := h.ws[k];
      assert h.ws[..k + 1] == h.ws[..k] + [r];
      ClBitsPush(h.ws[..k], r, h.cl);
      var sym := ClSym(r);
      var xv := ClValue(r);
      PutCode(codes, h.cl, sym);
      ghost var was := w.Stream();
      w.Put(codes[sym], h.cl[sym]);
      Assoc(was, CodeBits(h.cl, sym), Lsb(xv, ClExtra(sym)));
      Assoc(start, ClBits(h.ws[..k], h.cl), ClItemBits(r, h.cl));
      ExtraIs();
      if sym == 16 {
        w.Put(xv, 2);
      } else if sym == 17 {
        w.Put(xv, 3);
      } else if sym == 18 {
        w.Put(xv, 7);
      } else {
        NoExtra(sym, xv, w.Stream());
      }
    }
    assert h.ws[..|h.ws|] == h.ws;
  }

  lemma NoCl(ws: seq<nat>, cl: seq<nat>, start: seq<bool>)
    requires AllCl(ws, cl)
    ensures AllCl(ws[..0], cl) && start + ClBits(ws[..0], cl) == start
  {
  }

  lemma ExtraIs()
    ensures ClExtra(16) == 2 && ClExtra(17) == 3 && ClExtra(18) == 7
  {
  }

  lemma NoExtra(sym: nat, xv: nat, b: seq<bool>)
    requires sym != 16 && sym != 17 && sym != 18
    ensures b + Lsb(xv, ClExtra(sym)) == b
  {
  }

  lemma CountsPacked(h: Header)
    requires h.Sound()
    ensures var v := (h.hlit - 257) + (h.hdist - 1) * 32 + (h.hclen - 4) * 1024;
            v < Pow2(14) && Lsb(v, 14) == h.Counts()
  {
    hide Pow2, Lsb, AllCl, ClExpand, OrderAt;
    PowersOfTwo();
    Pow2Add(13, 1);
    var a, b, c := h.hlit - 257, h.hdist - 1, h.hclen - 4;
    LsbConcat(b, 5, c, 4);
    LsbConcat(a, 5, b + c * Pow2(5), 9);
    assert a + (b + c * Pow2(5)) * Pow2(5) == a + b * 32 + c * 1024;
  }

  /** The header of a dynamic block, after its three type bits. */
  method WriteHeader(w: Writer, h: Header, codes: seq<nat>)
    requires w.Valid() && h.Sound() && TableFor(codes, h.cl)
    modifies w
    ensures w.Valid() && w.Stream() == old(w.Stream()) + h.Encode()
  {
    hide Writer.Valid, Writer.Stream, Header.Sound, Header.Counts, OrderBits, ClBits, TableFor, Lsb, Pow2;
    ghost var start := w.Stream();
    CountsPacked(h);
    HeaderFacts(h);
    w.Put((h.hlit - 257) + (h.hdist - 1) * 32 + (h.hclen - 4) * 1024, 14);
    WriteOrder(w, h);
    WriteCl(w, h, codes);
    Assoc(start, h.Counts(), OrderBits(h.cl, 0, h.hclen));
    Assoc(start + h.Counts(), OrderBits(h.cl, 0, h.hclen), ClBits(h.ws, h.cl));
    Assoc(h.Counts(), OrderBits(h.cl, 0, h.hclen), ClBits(h.ws, h.cl));
    Assoc(start, h.Counts(), OrderBits(h.cl, 0, h.hclen) + ClBits(h.ws, h.cl));
  }

  lemma HeaderFacts(h: Header)
    requires h.Sound()
    ensures 257 <= h.hlit <= 286 && 1 <= h.hdist <= 30 && 4 <= h.hclen <= 19 && |h.cl| == 19
    ensures AllCl(h.ws, h.cl) && Short(h.cl)
  {
    hide AllCl, ClExpand, OrderAt;
  }

  lemma TwoLength(n: nat)
    requires n <= 65535
    ensures ByteBits([n % 256, n / 256]) == Lsb(n, 16)
    ensures [255 - n % 256, 255 - n / 256] == [(65535 - n) % 256, (65535 - n) / 256]
  {
    hide Lsb, ByteBits;
    LsbByte(n, 8);
    TwoByteBits(n % 256, n / 256);
    DivUnique(65535 - n, 256, 255 - n / 256, 255 - n % 256);
  }

  lemma StoredBytes(n: nat, s: seq<byte>)
    requires |s| == n <= 65535
    ensures ByteBits([n % 256, n / 256, 255 - n % 256, 255 - n / 256] + s) == StoredBits(s)
  {
    hide Lsb, ByteBits;
    var lo: seq<byte>, hi: seq<byte> := [n % 256, n / 256], [255 - n % 256, 255 - n / 256];
    TwoLength(n);
    TwoLength(65535 - n);
    ByteBitsConcat(lo, hi);
    ByteBitsConcat(lo + hi, s);
    assert lo + hi == [n % 256, n / 256, 255 - n % 256, 255 - n / 256];
  }

  /** A stored block: its type, padding to a byte, the length and its complement, bytes. */
  method WriteStored(w: Writer, s: seq<byte>, final: nat) returns (ghost pad: nat)
    requires w.Valid() && |s| <= 65535 && final <= 1
    modifies w
    ensures w.Valid() && pad < 8 && |w.Stream()| % 8 == 0
    ensures w.Stream() == old(w.Stream()) + (Lsb(final, 3) + (Zeros(pad) + StoredBits(s)))
  {
    hide Pow2, Lsb, ByteBits, Zeros, StoredBits;
    ghost var start := w.Stream();
    PowersOfTwo();
    w.Put(final, 3);
    ghost var headed := w.Stream();
    w.Flush();
    pad := |w.Stream()| - |headed|;
    var n := |s|;
    StoredBytes(n, s);
    ghost var was := w.out;
    Appended(w, [n % 256, n / 256, 255 - n % 256, 255 - n / 256] + s);
    Assoc(start, Lsb(final, 3), Zeros(pad) + StoredBits(s));
    Assoc(headed, Zeros(pad), StoredBits(s));
  }

  /** Bytes written straight to an empty writer's output. */
  method Appended(w: Writer, s: seq<byte>)
    requires w.Valid() && w.cnt == 0
    modifies w
    ensures w.Valid() && w.cnt == 0 && w.out == old(w.out) + s
    ensures w.Stream() == old(w.Stream()) + ByteBits(s) && |w.Stream()| % 8 == 0
  {
    hide ByteBits, Pow2;
    ByteBitsConcat(w.out, s);
    assert Lsb(w.buf, 0) == [];
    w.out := w.out + s;
  }
}
