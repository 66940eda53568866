/** A stream of blocks and what the reference inflater makes of it. */
module Blocks {
  import opened Basics
  import opened Bits
  import opened BitWriter
  import opened Canonical
  import opened Tokens
  import opened CodeLengths
  import opened Inflate
  import opened BlockFormat
  import opened Cost

  /** One block as written. */
  datatype Block =
    | Stored(final: bool, pad: nat, bytes: seq<byte>)
    | Fixed(final: bool, ts: seq<Token>)
    | Dynamic(final: bool, ts: seq<Token>, h: Header)
  {
    function Type(): (t: nat)
      ensures t <= 2
    {
      match this
      case Stored(_, _, _) => 0
      case Fixed(_, _) => 1
      case Dynamic(_, _, _) => 2
    }

    /** Its three leading bits, as a number. */
    function Lead(): (v: nat)
      ensures v < 8
    {
      (if final then 1 else 0) + 2 * Type()
    }

    ghost function LitLens(): seq<nat>
      requires Dynamic? && h.Sound()
    {
      h.Lens()[..h.hlit]
    }

    ghost function DistLens(): seq<nat>
      requires Dynamic? && h.Sound()
    {
      h.Lens()[h.hlit..]
    }

    ghost predicate Sound() {
      match this
      case Stored(_, pad, bytes) => pad < 8 && |bytes| <= 65535
      case Fixed(_, ts) => AllCoded(ts, FixedLit(), FixedDist())
      case Dynamic(_, ts, h) => h.Sound() && AllCoded(ts, LitLens(), DistLens()) && LitLens()[256] > 0
    }

    ghost function Body(): seq<bool>
      requires Sound()
    {
      match this
      case Stored(_, pad, bytes) => Zeros(pad) + StoredBits(bytes)
      case Fixed(_, ts) => FixedSize(); DataBits(ts, FixedLit(), FixedDist())
      case Dynamic(_, ts, h) => h.Encode() + DataBits(ts, LitLens(), DistLens())
    }

    ghost function Bits(): seq<bool>
      requires Sound()
    {
      Lsb(Lead(), 3) + Body()
    }

    /** What it adds to the output before it. */
    function Output(prior: seq<byte>): Option<seq<byte>> {
      match this
      case Stored(_, _, bytes) => Some(prior + bytes)
      case Fixed(_, ts) => Expand(ts, prior)
      case Dynamic(_, ts, _) => Expand(ts, prior)
    }

    /** A dynamic block's three codes must be complete. */
    ghost predicate Readable()
      requires Sound()
    {
      Dynamic? ==> Complete(h.cl) && Complete(LitLens()) && Complete(DistLens())
    }
  }

  lemma FixedSize()
    ensures |FixedLit()| == 288 && FixedLit()[256] == 7
  {
  }

  lemma ReadsFixed(ts: seq<Token>, prior: seq<byte>, rest: seq<bool>)
    requires AllCoded(ts, FixedLit(), FixedDist()) && Expand(ts, prior).Some?
    ensures |FixedLit()| == 288
    ensures ReadBody(1, DataBits(ts, FixedLit(), FixedDist()) + rest, prior) == Some((Expand(ts, prior).value, rest))
  {
    hide FixedLit, FixedDist, TokensBits, CodeBits, Complete, ReadTokens, Expand, AllCoded;
    FixedSize();
    FixedComplete();
    ReadsTokens(ts, FixedLit(), FixedDist(), prior, rest);
    Assoc(TokensBits(ts, FixedLit(), FixedDist()), CodeBits(FixedLit(), 256), rest);
  }

  lemma ReadsDynamic(b: Block, prior: seq<byte>, rest: seq<bool>)
    requires b.Dynamic? && b.Sound() && b.Output(prior).Some?
    ensures ReadBody(2, b.Body() + rest, prior)
         == if b.Readable() then Some((b.Output(prior).value, rest)) else None
  {
    hide TokensBits, CodeBits, Complete, ReadTokens, Expand, AllCoded, Header.Encode, ReadHeader, AllCl, ClExpand;
    hide OrderAt;
    var lit, dist := b.LitLens(), b.DistLens();
    var data := DataBits(b.ts, lit, dist);
    Assoc(b.h.Encode(), data, rest);
    ReadsHeader(b.h, data + rest);
    if b.Readable() {
      ReadsTokens(b.ts, lit, dist, prior, rest);
      Assoc(TokensBits(b.ts, lit, dist), CodeBits(lit, 256), rest);
    }
  }

  /** A block written is a block read, or refused when a code of its own is not
      complete. */
  lemma ReadsBlock(b: Block, prior: seq<byte>, rest: seq<bool>)
    requires b.Sound() && b.Output(prior).Some? && (b.Stored? ==> |rest| % 8 == 0)
    ensures ReadBody(b.Type(), b.Body() + rest, prior)
         == if b.Readable() then Some((b.Output(prior).value, rest)) else None
  {
    hide ReadBody, DataBits, StoredBits, Zeros, AllCoded, Header.Sound, Expand;
    match b
    case Stored(_, pad, bytes) =>
      Assoc(Zeros(pad), StoredBits(bytes), rest);
      ReadsStored(pad, bytes, rest, prior);
      StoredIs(b.Body() + rest, prior);
    case Fixed(_, ts) =>
      ReadsFixed(ts, prior, rest);
    case Dynamic(_, _, _) =>
      ReadsDynamic(b, prior, rest);
  }

  lemma StoredIs(bits: seq<bool>, prior: seq<byte>)
    ensures ReadBody(0, bits, prior) == ReadStored(bits, prior)
  {
  }

  ghost predicate AllSoundBlocks(bs: seq<Block>) {
    forall k :: 0 <= k < |bs| ==> bs[k].Sound()
  }

  /** The bits of some blocks. */
  ghost function Flow(bs: seq<Block>): seq<bool>
    requires AllSoundBlocks(bs)
  {
    if bs == [] then [] else bs[0].Bits() + Flow(bs[1..])
  }

  /** Every stored block ends on a byte boundary, the first block starting at bit at. */
  ghost predicate Placed(bs: seq<Block>, at: nat)
    requires AllSoundBlocks(bs)
  {
    bs != [] ==>
      var next := at + |bs[0].Bits()|;
      (bs[0].Stored? ==> next % 8 == 0) && Placed(bs[1..], next)
  }

  function Outputs(bs: seq<Block>, prior: seq<byte>): Option<seq<byte>> {
    if bs == [] then Some(prior) else
      var more :- bs[0].Output(prior);
      Outputs(bs[1..], more)
  }

  /** One more block at the end. */
  lemma {:induction false} FlowPush(bs: seq<Block>, b: Block, at: nat)
    requires AllSoundBlocks(bs) && b.Sound() && Placed(bs, at)
    requires b.Stored? ==> (at + |Flow(bs)| + |b.Bits()|) % 8 == 0
    ensures AllSoundBlocks(bs + [b]) && Flow(bs + [b]) == Flow(bs) + b.Bits() && Placed(bs + [b], at)
  {
    hide Block.Sound, Block.Bits;
    var more := bs + [b];
    assert more[|bs|] == b && forall k :: 0 <= k < |bs| ==> more[k] == bs[k];
    if bs == [] {
      assert more == [b] && more[1..] == [];
    } else {
      assert more[1..] == bs[1..] + [b];
      FlowPush(bs[1..], b, at + |bs[0].Bits()|);
      Assoc(bs[0].Bits(), Flow(bs[1..]), b.Bits());
    }
  }

  lemma {:induction false} OutputsPush(bs: seq<Block>, b: Block, prior: seq<byte>)
    ensures Outputs(bs + [b], prior) == (var r :- Outputs(bs, prior); b.Output(r))
  {
    hide Block.Output;
    if bs == [] {
      assert bs + [b] == [b] && [b][1..] == [];
    } else {
      assert (bs + [b])[1..] == bs[1..] + [b];
      var r := bs[0].Output(prior);
      if r.Some? {
        OutputsPush(bs[1..], b, r.value);
      }
    }
  }

  /** Only the last block is final. */
  ghost predicate FinalLast(bs: seq<Block>) {
    bs != [] && forall k :: 0 <= k < |bs| ==> (bs[k].final <==> k == |bs| - 1)
  }

  ghost predicate AllReadable(bs: seq<Block>)
    requires AllSoundBlocks(bs)
  {
    forall k :: 0 <= k < |bs| ==> bs[k].Readable()
  }

  /** One block of a stream: read and go on, read and stop, or refused. */
  lemma InflatesBlock(b: Block, prior: seq<byte>, rest: seq<bool>)
    requires b.Sound() && b.Output(prior).Some? && (b.Stored? ==> |rest| % 8 == 0)
    ensures InflateFrom(b.Bits() + rest, prior)
         == if !b.Readable() then None
            else if b.final then Some((b.Output(prior).value, rest))
            else InflateFrom(rest, b.Output(prior).value)
  {
    hide Lsb, ReadBits, Pow2, ReadBody, Block.Sound, Block.Body, Block.Output, Block.Readable;
    PowersOfTwo();
    Assoc(Lsb(b.Lead(), 3), b.Body(), rest);
    ReadsBits(b.Lead(), 3, b.Body() + rest);
    ReadsBlock(b, prior, rest);
  }

  /** The inflater recovers what the blocks stand for exactly when every dynamic block's
      codes are complete, and refuses the stream otherwise. */
  lemma {:induction false} ReadsFlow(bs: seq<Block>, prior: seq<byte>, at: nat, tail: seq<bool>)
    requires AllSoundBlocks(bs) && FinalLast(bs) && Placed(bs, at) && Outputs(bs, prior).Some?
    requires (at + |Flow(bs)| + |tail|) % 8 == 0
    ensures InflateFrom(Flow(bs) + tail, prior)
         == if AllReadable(bs) then Some((Outputs(bs, prior).value, tail)) else None
    decreases |bs|
  {
    hide Block.Sound, Block.Bits, Block.Output, Block.Readable, InflateFrom;
    var b, more := bs[0], bs[1..];
    var out := b.Output(prior).value;
    Assoc(b.Bits(), Flow(more), tail);
    Aligned(at + |b.Bits()|, |Flow(more) + tail|);
    InflatesBlock(b, prior, Flow(more) + tail);
    if more == [] {
      assert [] + tail == tail;
    } else {
      assert FinalLast(more) by {
        assert forall k :: 0 <= k < |more| ==> more[k] == bs[k + 1];
      }
      ReadsFlow(more, out, at + |b.Bits()|, tail);
    }
    ReadableSplit(bs);
  }

  lemma Aligned(a: nat, b: nat)
    requires (a + b) % 8 == 0
    ensures a % 8 == 0 ==> b % 8 == 0
  {
  }

  lemma ReadableSplit(bs: seq<Block>)
    requires AllSoundBlocks(bs) && bs != []
    ensures AllReadable(bs) <==> bs[0].Readable() && AllReadable(bs[1..])
  {
    hide Block.Sound, Block.Readable;
    if bs[0].Readable() && AllReadable(bs[1..]) {
      forall k | 0 <= k < |bs|
        ensures bs[k].Readable()
      {
        if k > 0 {
          assert bs[k] == bs[1..][k - 1];
        }
      }
    }
    if AllReadable(bs) {
      assert forall k :: 0 <= k < |bs[1..]| ==> bs[1..][k] == bs[k + 1];
    }
  }
}
