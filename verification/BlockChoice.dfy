/** block in http1/deflate.v: the chunk's sequences as one block of whichever type costs
    the fewest bits. */
module BlockChoice {
  import opened Basics
  import opened Bits
  import opened BitWriter
  import opened Canonical
  import opened CodeTable
  import opened Tokens
  import opened CodeLengths
  import opened Inflate
  import opened BlockFormat
  import opened Lz77
  import opened Chunk
  import opened Cost
  import opened SameCode
  import opened HuffLengths
  import opened BlockPlan
  import opened BlockWrite
  import opened Blocks

  /** A dynamic block's code lengths, full size and as sent, write the same bits; the
      block is readable exactly when no tree is too deep. */
  lemma DynamicBlock(ts: seq<Token>, lf: seq<nat>, df: seq<nat>, lit: seq<nat>, dist: seq<nat>, h: Header, last: bool)
    requires Planned(lf, df, lit, dist, h) && AllCoded(ts, lit, dist) && |lit| == 286 && lit[256] > 0
    ensures Dynamic(last, ts, h).Sound()
    ensures Dynamic(last, ts, h).Body() == h.Encode() + DataBits(ts, lit, dist)
    ensures Dynamic(last, ts, h).Readable()
       <==> DeepNodes(lf, 15) < 2 && DeepNodes(df, 15) < 2 && DeepNodes(ClCounts(h.ws), 7) < 2
  {
    hide Complete, DeepNodes, ClCounts, CodeBits, TokensBits, AllCoded, Same, AllCl, ClExpand, OrderAt, HuffCoded, Rle;
    TrimSame(lit, h.hlit);
    TrimSame(dist, h.hdist);
    TokensSame(ts, lit, dist, lit[..h.hlit], dist[..h.hdist]);
    var b := Dynamic(last, ts, h);
    assert b.LitLens() == lit[..h.hlit] && b.DistLens() == dist[..h.hdist];
    SameAt(lit, lit[..h.hlit], 256);
  }

  lemma SameAt(a: seq<nat>, b: seq<nat>, s: nat)
    requires Same(a, b) && s < |a| && a[s] > 0
    ensures s < |b| && CodeBits(a, s) == CodeBits(b, s)
  {
    hide CodeBits;
  }

  /** A fixed block written from 30 distance lengths is one of 32. */
  lemma FixedBlock(ts: seq<Token>)
    requires AllSound(ts)
    ensures AllCoded(ts, FixedLit(), FixedDist()) && AllCoded(ts, FixedLit(), FixedDist()[..30]) && |FixedLit()| == 288
    ensures DataBits(ts, FixedLit(), FixedDist()[..30]) == DataBits(ts, FixedLit(), FixedDist())
  {
    hide CodeBits, TokensBits, LitUses, DistUses, Same;
    UsedAreCoded(ts, FixedLit(), FixedDist()[..30]);
    CutSame(FixedLit(), 288);
    assert FixedLit()[..288] == FixedLit();
    CutSame(FixedDist(), 30);
    TokensSame(ts, FixedLit(), FixedDist()[..30], FixedLit(), FixedDist());
  }

  method WriteFixed(w: Writer, q: Sequences, last: bool)
    requires w.Valid() && q.Valid()
    modifies w
    ensures w.Valid() && Fixed(last, q.tokens).Sound()
    ensures w.Stream() == old(w.Stream()) + Fixed(last, q.tokens).Bits()
  {
    hide Writer.Valid, Writer.Stream, AllCoded, DataBits, FixedLit, FixedDist, Lsb, Pow2, LitUses, DistUses, Pack;
    hide Reverse, Code, CountLen, First;
    var lit := seq(288, s requires 0 <= s < 288 => FixedLitLen(s));
    var dist := seq(30, _ => 5);
    FixedTables(lit, dist);
    FixedBlock(q.tokens);
    ghost var start := w.Stream();
    ghost var b := Fixed(last, q.tokens);
    var litCodes := CanonicalCodes(lit);
    var distCodes := CanonicalCodes(dist);
    PowersOfTwo();
    w.Put((if last then 1 else 0) + 2, 3);
    WriteData(w, q, lit, litCodes[..], dist, distCodes[..]);
    Assoc(start, Lsb(b.Lead(), 3), b.Body());
  }

  lemma FixedTables(lit: seq<nat>, dist: seq<nat>)
    requires |lit| == 288 && |dist| == 30
    requires (forall s :: 0 <= s < 288 ==> lit[s] == FixedLitLen(s)) && forall s :: 0 <= s < 30 ==> dist[s] == 5
    ensures |FixedDist()| == 32 && lit == FixedLit() && dist == FixedDist()[..30] && Short(lit) && Short(dist)
    ensures lit[256] == 7
  {
    assert |FixedLit()| == 288;
  }

  method WriteDynamic(w: Writer, q: Sequences, last: bool, lit: seq<nat>, dist: seq<nat>, h: Header, ghost lf: seq<nat>,
                      ghost df: seq<nat>)
    requires w.Valid() && q.Valid() && Planned(lf, df, lit, dist, h) && AllCoded(q.tokens, lit, dist) && lit[256] > 0
    modifies w
    ensures w.Valid() && Dynamic(last, q.tokens, h).Sound()
    ensures w.Stream() == old(w.Stream()) + Dynamic(last, q.tokens, h).Bits()
  {
    hide Writer.Valid, Writer.Stream, AllCoded, DataBits, Lsb, Pow2, LitUses, DistUses, Pack, Reverse, Code, CountLen;
    hide First, Header.Sound, Header.Encode, Header.Lens, Complete, DeepNodes, ClCounts, CodeBits, HuffCoded;
    DynamicBlock(q.tokens, lf, df, lit, dist, h, last);
    ghost var start := w.Stream();
    ghost var b := Dynamic(last, q.tokens, h);
    HeaderFacts(h);
    var litCodes := CanonicalCodes(lit);
    var distCodes := CanonicalCodes(dist);
    var clCodes := CanonicalCodes(h.cl);
    PowersOfTwo();
    w.Put((if last then 1 else 0) + 4, 3);
    WriteHeader(w, h, clCodes[..]);
    WriteData(w, q, lit, litCodes[..], dist, distCodes[..]);
    ghost var data := DataBits(q.tokens, lit, dist);
    Assoc(start, Lsb(b.Lead(), 3), b.Body());
    Assoc(start + Lsb(b.Lead(), 3), h.Encode(), data);
  }

  /** The tables built from the chunk's counts cover its tokens. */
  lemma PlanCodes(ts: seq<Token>, lit: seq<nat>, dist: seq<nat>, h: Header)
    requires AllSound(ts) && Planned(WithEnd(LitCounts(ts)), DistCounts(ts), lit, dist, h)
    ensures AllCoded(ts, lit, dist) && lit[256] > 0
  {
    hide Complete, DeepNodes, ClCounts, LitUses, DistUses, Header.Sound, Header.Lens, HuffCoded, Rle;
    NoEnd(ts);
    UsedAreCoded(ts, lit, dist);
  }

  /** The three sizes compared, and the block's place among them. */
  ghost predicate Cheapest(b: Block, ts: seq<Token>, s: seq<byte>, h: Header)
    requires Fixed(b.final, ts).Sound() && Dynamic(b.final, ts, h).Sound()
  {
    var stored, fixed, dyn := 42 + 8 * |s|, |Fixed(b.final, ts).Bits()|, |Dynamic(b.final, ts, h).Bits()|;
    if stored <= dyn && stored <= fixed then b.Stored? && b.bytes == s
    else if fixed <= dyn then b == Fixed(b.final, ts)
    else b == Dynamic(b.final, ts, h)
  }

  /** What the cost model computes is the real size of each type. */
  lemma RealSizes(ts: seq<Token>, lit: seq<nat>, dist: seq<nat>, h: Header, last: bool)
    requires AllSound(ts)
    requires var lf, df := WithEnd(LitCounts(ts)), DistCounts(ts);
             Planned(lf, df, lit, dist, h) && AllCoded(ts, lit, dist) && lit[256] > 0
    ensures |FixedLit()| == 288 && |FixedDist()| == 32 && Fixed(last, ts).Sound() && Dynamic(last, ts, h).Sound()
    ensures |Fixed(last, ts).Bits()| == 3 + SymbolCost(WithEnd(LitCounts(ts)), DistCounts(ts), FixedLit(), FixedDist())
    ensures |Dynamic(last, ts, h).Bits()|
         == 3 + |h.Encode()| + SymbolCost(WithEnd(LitCounts(ts)), DistCounts(ts), lit, dist)
  {
    hide AllCoded, DataBits, FixedLit, FixedDist, Lsb, LitUses, DistUses, LitCounts, DistCounts, SymbolCost;
    hide Header.Sound, Header.Encode, Header.Lens, Complete, DeepNodes, ClCounts, HuffCoded;
    FixedBlock(ts);
    FixedSizes();
    DataCost(ts, FixedLit(), FixedDist());
    DynamicBlock(ts, WithEnd(LitCounts(ts)), DistCounts(ts), lit, dist, h, last);
    DataCost(ts, lit, dist);
  }

  /** The dynamic block can be read back. */
  ghost predicate Shallow(ts: seq<Token>, h: Header)
    requires AllSound(ts)
  {
    && DeepNodes(WithEnd(LitCounts(ts)), 15) < 2 && DeepNodes(DistCounts(ts), 15) < 2
    && DeepNodes(ClCounts(h.ws), 7) < 2
  }

  /** The plan of a chunk and the size of each type. */
  ghost predicate Ready(ts: seq<Token>, lit: seq<nat>, dist: seq<nat>, h: Header, last: bool, dyn: nat, fixed: nat) {
    && AllSound(ts) && Planned(WithEnd(LitCounts(ts)), DistCounts(ts), lit, dist, h)
    && AllCoded(ts, lit, dist) && lit[256] > 0
    && Fixed(last, ts).Sound() && fixed == |Fixed(last, ts).Bits()|
    && Dynamic(last, ts, h).Sound() && dyn == |Dynamic(last, ts, h).Bits()|
    && (Dynamic(last, ts, h).Readable() <==> Shallow(ts, h))
  }

  method Prepare(q: Sequences, n: nat, ghost last: bool)
      returns (lit: seq<nat>, dist: seq<nat>, h: Header, dyn: nat, fixed: nat, stored: nat)
    requires q.Valid()
    ensures Ready(q.tokens, lit, dist, h, last, dyn, fixed) && stored == 42 + 8 * n
  {
    hide AllCoded, Block.Body, Lsb, Pow2, LitUses, DistUses, Pack, Planned, Header.Sound, Header.Encode, Complete;
    hide DeepNodes, SymbolCost, ClCounts, FixedLit, FixedDist, Block.Readable, Block.Sound, Block.Bits;
    ghost var ts := q.tokens;
    var lf, df := q.litFreq[..][256 := 1], q.distFreq[..];
    assert lf == WithEnd(LitCounts(ts)) && df == DistCounts(ts);
    lit, dist, h := Plan(lf, df);
    PlanSizes(lf, df, lit, dist, h);
    PlanCodes(ts, lit, dist, h);
    RealSizes(ts, lit, dist, h, last);
    DynamicBlock(ts, lf, df, lit, dist, h, last);
    dyn, fixed, stored := Costs(lf, df, lit, dist, h, n);
  }

  /** The block is the cheapest of the three for some tokens that spell the chunk, the
      dynamic one being that of their plan, and can be read back unless it is a dynamic one
      with a tree too deep. */
  ghost predicate Chosen(b: Block, prior: seq<byte>, s: seq<byte>, ts: seq<Token>, lit: seq<nat>, dist: seq<nat>,
                         h: Header)
    requires b.Sound()
  {
    && AllSound(ts) && Covers(ts, prior, s, |s|) && Planned(WithEnd(LitCounts(ts)), DistCounts(ts), lit, dist, h)
    && Fixed(b.final, ts).Sound() && Dynamic(b.final, ts, h).Sound() && Cheapest(b, ts, s, h)
    && (b.Readable() <==> b.Dynamic? ==> Shallow(ts, h))
  }

  /** There is one such block, but for a stored one's padding. */
  lemma ChosenOnce(b: Block, c: Block, prior: seq<byte>, s: seq<byte>, ts: seq<Token>, lit: seq<nat>, dist: seq<nat>,
                   h: Header, lit': seq<nat>, dist': seq<nat>, h': Header)
    requires b.Sound() && c.Sound() && b.final == c.final
    requires Chosen(b, prior, s, ts, lit, dist, h) && Chosen(c, prior, s, ts, lit', dist', h')
    ensures if b.Stored? then c.Stored? && b.bytes == c.bytes else b == c
  {
    hide Planned, Covers, Shallow, Block.Sound, Block.Bits, Block.Readable, LitCounts, DistCounts, WithEnd;
    PlanUnique(WithEnd(LitCounts(ts)), DistCounts(ts), lit, dist, h, lit', dist', h');
  }

  /** block: the cheapest type is written, in exactly the bits the cost model gave it for
      fixed and dynamic blocks and at most that for stored ones. */
  method WriteBlock(w: Writer, q: Sequences, s: seq<byte>, last: bool, ghost prior: seq<byte>)
      returns (ghost b: Block, ghost lit: seq<nat>, ghost dist: seq<nat>, ghost h: Header)
    requires w.Valid() && q.Valid() && |s| <= MAX_CHUNK && Covers(q.tokens, prior, s, |s|)
    modifies w
    ensures w.Valid() && b.Sound() && b.final == last && b.Output(prior) == Some(prior + s)
    ensures w.Stream() == old(w.Stream()) + b.Bits() && (b.Stored? ==> |w.Stream()| % 8 == 0)
    ensures |b.Bits()| <= 42 + 8 * |s|
    ensures Chosen(b, prior, s, q.tokens, lit, dist, h)
  {
    hide Writer.Valid, Writer.Stream, AllCoded, Block.Body, Block.Bits, Lsb, Planned, Header.Sound, Complete, Shallow;
    hide Expand, StoredBits, Zeros, WithEnd, LitCounts, DistCounts;
    ghost var ts := q.tokens;
    var ll, dl, hd, dyn, fixed, stored := Prepare(q, |s|, last);
    lit, dist, h := ll, dl, hd;
    assert s[..|s|] == s;
    if stored <= dyn && stored <= fixed {
      ghost var pad := WriteStored(w, s, if last then 1 else 0);
      b := Stored(last, pad, s);
      StoredSize(b);
    } else if fixed <= dyn {
      WriteFixed(w, q, last);
      b := Fixed(last, ts);
    } else {
      WriteDynamic(w, q, last, ll, dl, hd, WithEnd(LitCounts(ts)), DistCounts(ts));
      b := Dynamic(last, ts, h);
    }
  }

  lemma PlanSizes(lf: seq<nat>, df: seq<nat>, lit: seq<nat>, dist: seq<nat>, h: Header)
    requires Planned(lf, df, lit, dist, h)
    ensures |lf| == |lit| == 286 && |df| == |dist| == 30 && h.Sound()
  {
  }

  lemma StoredSize(b: Block)
    requires b.Stored? && b.Sound()
    ensures b.Bits() == Lsb(b.Lead(), 3) + (Zeros(b.pad) + StoredBits(b.bytes)) && |b.Bits()| <= 42 + 8 * |b.bytes|
  {
    hide Lsb, ByteBits;
  }

  /** Padded up to a byte boundary there is one. */
  lemma SamePad(b: Block, c: Block, at: nat)
    requires b.Stored? && c.Stored? && b.Sound() && c.Sound() && b.bytes == c.bytes && b.final == c.final
    requires (at + |b.Bits()|) % 8 == 0 && (at + |c.Bits()|) % 8 == 0
    ensures b == c
  {
    hide Lsb, StoredBits, Zeros, Block.Bits;
    StoredSize(b);
    StoredSize(c);
  }
}
