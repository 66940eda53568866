/** gzip in http1/deflate.v: one gzip member (RFC 1952) from one buffer, and a reference
    reader of it. */
module Gzip {
  import opened Basics
  import opened Bits
  import opened BitWriter
  import opened Inflate
  import opened Lz77
  import opened Chunk
  import opened Blocks
  import opened BlockChoice
  import opened Crc
  import opened CrcClmul

  /** ID1, ID2, deflate, no flags, no time, no extra flags, unknown system. */
  const HEADER: seq<byte> := [0x1f, 0x8b, 8, 0, 0, 0, 0, 0, 0, 0xff]

  /** The checksum and the length modulo 2^32, both least significant byte first. */
  function Trailer(s: seq<byte>): (t: seq<byte>)
    ensures |t| == 8
  {
    BitBytes(Checksum(s)) + WordBytes(|s|)
  }

  /** The ten bytes of section 2.3 of RFC 1952: both identification bytes, the method
      deflate and no optional fields; time, extra flags and system do not matter. */
  predicate Magic(h: seq<byte>) {
    |h| == 10 && h[0] == 31 && h[1] == 139 && h[2] == 8 && h[3] == 0
  }

  /** A member without optional fields: inflated, then checked against its trailer. */
  ghost function Gunzip(out: seq<byte>): Option<seq<byte>> {
    if |out| < 10 || !Magic(out[..10]) then None else
      var (data, rest) :- InflateFrom(ByteBits(out[10..]), []);
      if BitBytes(rest[|rest| % 8..]) == Trailer(data) then Some(data) else None
  }

  /** A whole member: header, blocks, padding, trailer. */
  lemma ReadsMember(bs: seq<Block>, pad: nat, src: seq<byte>, out: seq<byte>)
    requires AllSoundBlocks(bs) && FinalLast(bs) && Placed(bs, 0) && Outputs(bs, []) == Some(src)
    requires |out| >= 10 && out[..10] == HEADER && pad < 8 && (|Flow(bs)| + pad) % 8 == 0
    requires ByteBits(out[10..]) == Flow(bs) + (Zeros(pad) + ByteBits(Trailer(src)))
    ensures Gunzip(out) == if AllReadable(bs) then Some(src) else None
  {
    hide InflateFrom, ByteBits, BitBytes, Trailer, Flow, Placed, Outputs, AllReadable, Block.Sound, Zeros;
    var tail := Zeros(pad) + ByteBits(Trailer(src));
    assert |tail| == pad + 64;
    ReadsFlow(bs, [], 0, tail);
    assert |tail| % 8 == pad && tail[pad..] == ByteBits(Trailer(src));
    BitBytesRoundTrip(Trailer(src));
  }

  /** What the chunks written so far keep. */
  ghost predicate Progress(bs: seq<Block>, src: seq<byte>, at: nat) {
    && at <= |src| && AllSoundBlocks(bs) && Placed(bs, 0) && Outputs(bs, []) == Some(src[..at])
    && |Flow(bs)| <= 42 * |bs| + 8 * at && AllJudged(bs, src)
  }

  /** The bytes of chunk k. */
  function Piece(src: seq<byte>, k: nat): (s: seq<byte>)
    requires k * MAX_CHUNK <= |src|
    ensures |s| <= 65534
  {
    src[k * 65534..if |src| - k * 65534 > 65534 then (k + 1) * 65534 else |src|]
  }

  /** A block is the cheapest for its chunk's tokens: planned from their frequencies, and
      readable exactly when it is not a dynamic one with a tree too deep. */
  ghost predicate Judged(b: Block, prior: seq<byte>, s: seq<byte>) {
    b.Sound() && exists lit, dist, h :: Chosen(b, prior, s, Matches(s), lit, dist, h)
  }

  lemma JudgedOnce(b: Block, c: Block, prior: seq<byte>, s: seq<byte>)
    requires Judged(b, prior, s) && Judged(c, prior, s) && b.final == c.final
    ensures if b.Stored? then c.Stored? && b.bytes == c.bytes else b == c
  {
    hide Chosen, Matches, Block.Sound;
    var lit, dist, h :| Chosen(b, prior, s, Matches(s), lit, dist, h);
    var lit', dist', h' :| Chosen(c, prior, s, Matches(s), lit', dist', h');
    ChosenOnce(b, c, prior, s, Matches(s), lit, dist, h, lit', dist', h');
  }

  /** The blocks of a source are determined, from block k on. */
  lemma {:induction false} BlocksUnique(bs: seq<Block>, cs: seq<Block>, src: seq<byte>, k: nat, at: nat)
    requires |bs| == |cs| && k <= |bs| && AllSoundBlocks(bs) && AllSoundBlocks(cs) && FinalLast(bs) && FinalLast(cs)
    requires AllJudged(bs, src) && AllJudged(cs, src) && Placed(bs[k..], at) && Placed(cs[k..], at)
    ensures bs[k..] == cs[k..]
    decreases |bs| - k
  {
    hide Judged, Block.Sound, Block.Bits, Piece;
    if k < |bs| {
      assert bs[k..][1..] == bs[k + 1..] && cs[k..][1..] == cs[k + 1..];
      JudgedOnce(bs[k], cs[k], src[..k * MAX_CHUNK], Piece(src, k));
      if bs[k].Stored? {
        SamePad(bs[k], cs[k], at);
      }
      BlocksUnique(bs, cs, src, k + 1, at + |bs[k].Bits()|);
      assert bs[k..] == [bs[k]] + bs[k + 1..] && cs[k..] == [cs[k]] + cs[k + 1..];
    }
  }

  /** The number of chunks of n bytes. */
  function ChunkCount(n: nat): nat {
    n / MAX_CHUNK + if n % MAX_CHUNK == 0 && n > 0 then 0 else 1
  }

  /** The member is the header, a block for each chunk, each the choice for it, the padding
      and the trailer. */
  ghost predicate Member(out: seq<byte>, bs: seq<Block>, pad: nat, src: seq<byte>) {
    && AllSoundBlocks(bs) && FinalLast(bs) && Placed(bs, 0) && |bs| == ChunkCount(|src|) && AllJudged(bs, src)
    && |out| >= 18 && out[..10] == HEADER && pad < 8
    && ByteBits(out[10..]) == Flow(bs) + (Zeros(pad) + ByteBits(Trailer(src)))
  }

  /** A source has one such member, byte for byte. */
  lemma MemberUnique(out: seq<byte>, bs: seq<Block>, pad: nat, out': seq<byte>, cs: seq<Block>, pad': nat,
                     src: seq<byte>)
    requires Member(out, bs, pad, src) && Member(out', cs, pad', src)
    ensures out == out' && bs == cs && pad == pad'
  {
    hide AllSoundBlocks, FinalLast, Placed, AllJudged, Flow, ByteBits, Trailer, Zeros, BitBytes, ChunkCount;
    assert bs[0..] == bs && cs[0..] == cs;
    BlocksUnique(bs, cs, src, 0, 0);
    BitBytesRoundTrip(out[10..]);
    BitBytesRoundTrip(out'[10..]);
    assert out == out[..10] + out[10..] && out' == out'[..10] + out'[10..];
  }

  /** Block k is the choice for chunk k. */
  ghost predicate AllJudged(bs: seq<Block>, src: seq<byte>) {
    forall k :: 0 <= k < |bs| ==> k * MAX_CHUNK <= |src| && Judged(bs[k], src[..k * MAX_CHUNK], Piece(src, k))
  }

  lemma NextPiece(src: seq<byte>, k: nat, at: nat, n: nat)
    requires at == k * MAX_CHUNK <= |src| && n == if |src| - at > MAX_CHUNK then MAX_CHUNK else |src| - at
    ensures src[at..at + n] == Piece(src, k)
  {
  }

  lemma ProgressPush(bs: seq<Block>, b: Block, src: seq<byte>, at: nat, n: nat)
    requires Progress(bs, src, at) && at + n <= |src| && at == |bs| * MAX_CHUNK && src[at..at + n] == Piece(src, |bs|)
    requires b.Sound() && Judged(b, src[..at], src[at..at + n])
    requires b.Output(src[..at]) == Some(src[..at] + src[at..at + n])
    requires (b.Stored? ==> (|Flow(bs)| + |b.Bits()|) % 8 == 0) && |b.Bits()| <= 42 + 8 * n
    ensures Progress(bs + [b], src, at + n) && Flow(bs + [b]) == Flow(bs) + b.Bits() && AllSoundBlocks(bs + [b])
  {
    hide Block.Sound, Block.Bits, Block.Output, Flow, Placed, Outputs, Judged, Piece;
    FlowPush(bs, b, 0);
    OutputsPush(bs, b, []);
    assert src[..at] + src[at..at + n] == src[..at + n];
    assert forall k :: 0 <= k < |bs + [b]| ==> (bs + [b])[k] == if k < |bs| then bs[k] else b;
  }

  /** The bytes gzip reserves. */
  function Bound(n: nat): nat {
    10 + n + 6 * (n / MAX_CHUNK + 1) + 8 + 16
  }

  class Deflater {
    const tables: ChainTables
    const sequences: Sequences
    const crc: array<Word>
    const haveClmul: bool

    ghost predicate Valid()
      reads crc
    {
      tables.Storage() && sequences.Storage() && Disjoint(sequences, tables) && Tables(crc[..])
    }

    constructor (haveClmul: bool)
      ensures Valid()
    {
      var t := new ChainTables();
      var q := new Sequences();
      var c := MakeTables();
      tables, sequences, crc, this.haveClmul := t, q, c, haveClmul;
    }

    /** One chunk: matched, then written as one block. */
    method WriteChunk(w: Writer, s: seq<byte>, last: bool, ghost prior: seq<byte>) returns (ghost b: Block)
      requires Valid() && w.Valid() && |s| <= MAX_CHUNK
      modifies w, sequences, sequences.words, sequences.litFreq, sequences.distFreq, tables, tables.head, tables.prev
      ensures Valid() && w.Valid() && b.Sound() && b.final == last && b.Output(prior) == Some(prior + s)
      ensures w.Stream() == old(w.Stream()) + b.Bits() && (b.Stored? ==> |w.Stream()| % 8 == 0)
      ensures |b.Bits()| <= 42 + 8 * |s| && Judged(b, prior, s)
    {
      hide Writer.Valid, Writer.Stream, Covers, Block.Body, Block.Readable, Block.Output, Chosen, LitUses, DistUses;
      hide Pack, Tables;
      MatchChunk(sequences, tables, s, prior);
      ghost var lit, dist, h;
      b, lit, dist, h := WriteBlock(w, sequences, s, last, prior);
    }

    /** Every chunk in turn, the last one marked. */
    method WriteChunks(w: Writer, src: seq<byte>) returns (ghost bs: seq<Block>)
      requires Valid() && w.Valid() && w.Stream() == ByteBits(HEADER)
      modifies w, sequences, sequences.words, sequences.litFreq, sequences.distFreq, tables, tables.head, tables.prev
      ensures Valid() && w.Valid() && Progress(bs, src, |src|) && AllSoundBlocks(bs) && FinalLast(bs)
      ensures (|bs| - 1) * MAX_CHUNK <= |src| <= |bs| * MAX_CHUNK && (src != [] ==> (|bs| - 1) * MAX_CHUNK < |src|)
      ensures |bs| >= 1 && w.Stream() == ByteBits(HEADER) + Flow(bs)
    {
      hide Writer.Valid, Writer.Stream, Valid, Block.Sound, Block.Bits, Block.Output, Judged, Flow, Placed, Outputs;
      hide ByteBits, Progress, Piece;
      bs := [];
      var at: nat := 0;
      Nothing(src);
      NoFlow(ByteBits(HEADER));
      while true
        invariant Valid() && w.Valid() && AllSoundBlocks(bs) && Progress(bs, src, at) && at <= |src|
        invariant w.Stream() == ByteBits(HEADER) + Flow(bs)
        invariant at == |bs| * MAX_CHUNK && (bs != [] ==> at < |src|)
        invariant forall k :: 0 <= k < |bs| ==> !bs[k].final
        decreases |src| - at
      {
        var n := if |src| - at > MAX_CHUNK then MAX_CHUNK else |src| - at;
        var last := at + n == |src|;
        NextPiece(src, |bs|, at, n);
        ghost var b := WriteChunk(w, src[at..at + n], last, src[..at]);
        Assoc(ByteBits(HEADER), Flow(bs), b.Bits());
        ProgressPush(bs, b, src, at, n);
        bs := bs + [b];
        at := at + n;
        if last {
          break;
        }
      }
    }

    method WriteTrailer(w: Writer, src: seq<byte>) returns (out: seq<byte>)
      requires Valid()
      ensures out == w.out + Trailer(src)
    {
      hide BitBytes, WordBytes, Checksum, Tables;
      var sum := Crc32(crc, haveClmul, src);
      out := w.out + (BitBytes(sum) + WordBytes(|src|));
    }

    /** gzip: the output is the header, one block for each chunk of the source, the padding
        and the trailer, and no other. Each block is the cheapest for the chunk's tokens, under
        the plan of their frequencies, so the reference reader recovers the source exactly
        when no dynamic block was built from a tree too deep, and refuses it otherwise; the
        output stays within the bytes reserved for it. */
    method Compress(src: seq<byte>) returns (out: seq<byte>, ghost bs: seq<Block>, ghost pad: nat)
      requires Valid()
      modifies sequences, sequences.words, sequences.litFreq, sequences.distFreq, tables, tables.head, tables.prev
      ensures Valid() && |out| <= Bound(|src|)
      ensures Member(out, bs, pad, src) && Outputs(bs, []) == Some(src)
      ensures Gunzip(out) == if AllReadable(bs) then Some(src) else None
    {
      hide Writer.Valid, Writer.Stream, Valid, Block.Sound, Block.Bits, Block.Output, Judged, Flow, Placed, Outputs;
      hide Gunzip, ByteBits, Trailer, Zeros, AllJudged, Chosen;
      var w := new Writer(HEADER);
      bs := WriteChunks(w, src);
      ghost var flow := Flow(bs);
      w.Flush();
      pad := |w.Stream()| - |ByteBits(HEADER) + flow|;
      Assoc(ByteBits(HEADER), flow, Zeros(pad));
      out := WriteTrailer(w, src);
      MemberParts(w.out, flow, pad, src, out);
      assert src[..|src|] == src;
      ReadsMember(bs, pad, src, out);
      WithinBound(|bs|, |src|, |flow|, pad, |out|);
    }
  }

  lemma Nothing(src: seq<byte>)
    ensures Progress([], src, 0)
  {
  }

  lemma NoFlow(b: seq<bool>)
    ensures b + Flow([]) == b
  {
  }

  /** The output, byte by byte and bit by bit. */
  lemma MemberParts(body: seq<byte>, flow: seq<bool>, pad: nat, src: seq<byte>, out: seq<byte>)
    requires ByteBits(body) == ByteBits(HEADER) + (flow + Zeros(pad))
    requires out == body + Trailer(src)
    ensures |out| == 18 + (|flow| + pad) / 8 && (|flow| + pad) % 8 == 0 && out[..10] == HEADER
    ensures ByteBits(out[10..]) == flow + (Zeros(pad) + ByteBits(Trailer(src)))
  {
    hide ByteBits, Zeros, Trailer, BitBytes;
    assert 8 * |body| == 80 + |flow| + pad;
    var rest := body[10..];
    assert body == body[..10] + rest;
    ByteBitsConcat(body[..10], rest);
    var bits := ByteBits(body);
    assert ByteBits(body[..10]) == bits[..80] == ByteBits(HEADER) && ByteBits(rest) == bits[80..] == flow + Zeros(pad);
    BitBytesRoundTrip(body[..10]);
    BitBytesRoundTrip(HEADER);
    assert out[10..] == rest + Trailer(src);
    ByteBitsConcat(rest, Trailer(src));
    Assoc(flow, Zeros(pad), ByteBits(Trailer(src)));
  }

  lemma WithinBound(blocks: nat, n: nat, flow: nat, pad: nat, size: nat)
    requires blocks >= 1 && (blocks - 1) * MAX_CHUNK <= n && flow <= 42 * blocks + 8 * n && pad < 8
    requires size == 18 + (flow + pad) / 8
    ensures size <= Bound(n)
  {
    assert blocks - 1 <= n / MAX_CHUNK;
  }
}
