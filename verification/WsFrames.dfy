/** Client frames on a WebSocket (section 5 of RFC 6455): the parser of engine/ws.v and the
    unmasking of http1/ws.v, against frames as they are written. */
module WsFrames {
  import opened Basics
  import opened Bits

  /** A frame of the client, unmasked. */
  datatype Frame = Frame(fin: bool, op: nat, payload: seq<byte>)

  /** The frame at the front of some bytes: not all there, refused with a close code, or
      whole with its size. */
  datatype Parsed = Partial | Invalid(code: nat) | Whole(frame: Frame, size: nat)

  /** The bytes XORed with the mask, its four bytes over and over. */
  function Unmask(s: seq<byte>, mask: seq<byte>): (r: seq<byte>)
    requires |mask| == 4
    ensures |r| == |s| && forall i :: 0 <= i < |s| ==> r[i] == XorByte(s[i], mask[i % 4])
  {
    seq(|s|, i requires 0 <= i < |s| => XorByte(s[i], mask[i % 4]))
  }

  function HeaderLength(n: nat): nat {
    if n == 126 then 4 else if n == 127 then 10 else 2
  }

  /** The first two bytes: reserved bits, no mask, an unknown opcode, or a control frame in
      parts or too long, are errors. */
  predicate BadStart(b0: byte, b1: byte) {
    var op, fin, n := b0 % 16, b0 >= 128, b1 % 128;
    || (b0 / 16) % 8 != 0 || b1 < 128 || !(op <= 2 || 8 <= op <= 10)
    || (op >= 8 && (!fin || n > 125))
  }

  /** The frame at the front of s, room the bytes a message may still grow by. */
  function NextFrame(s: seq<byte>, maxMessage: nat, held: nat): (p: Parsed)
    ensures p.Whole? ==> 6 <= p.size <= |s| && p.frame.op < 16
    ensures p.Whole? && p.frame.op < 8 ==>
              |p.frame.payload| + (if p.frame.op == 0 then held else 0) <= maxMessage || held > maxMessage
  {
    if |s| < 2 then Partial
    else if BadStart(s[0], s[1]) then Invalid(1002)
    else
      var op, short := s[0] % 16, s[1] % 128;
      var hl := HeaderLength(short);
      if |s| < hl + 4 then Partial
      else
        var n: nat := if hl == 2 then short else BigEndian(s[2..hl]);
        var used := if op == 0 then held else 0;
        if op < 8 && used + n > maxMessage then Invalid(1009)
        else if |s| < hl + 4 + n then Partial
        else Whole(Frame(s[0] >= 128, op, Unmask(s[hl + 4..hl + 4 + n], s[hl..hl + 4])), hl + 4 + n)
  }

  /** More bytes change nothing about a frame that was decided. */
  lemma FrameStable(s: seq<byte>, t: seq<byte>, maxMessage: nat, held: nat)
    requires Prefix(s, t)
    ensures var p := NextFrame(s, maxMessage, held); !p.Partial? ==> NextFrame(t, maxMessage, held) == p
  {
    hide Unmask, BigEndian, BadStart;
    if |s| >= 2 {
      var hl := HeaderLength(s[1] % 128);
      if |s| >= hl + 4 {
        assert s[2..hl] == t[2..hl] && s[hl..hl + 4] == t[hl..hl + 4];
        var n: nat := if hl == 2 then s[1] % 128 else BigEndian(s[2..hl]);
        if |s| >= hl + 4 + n {
          assert s[hl + 4..hl + 4 + n] == t[hl + 4..hl + 4 + n];
        }
      }
    }
  }

  /** The frames a client may send (sections 5.2 and 5.5): no reserved bit, a known opcode, a
      control frame whole and short. */
  predicate MaySend(f: Frame) {
    f.op in {0, 1, 2} || (f.op in {8, 9, 10} && f.fin && |f.payload| <= 125)
  }

  /** The forms the length of a payload can take: in the second byte, in two bytes after it
      or in eight; a control frame has the first. */
  predicate LengthForm(f: Frame, extra: nat) {
    var n := |f.payload|;
    || (extra == 0 && n < 126)
    || (f.op < 8 && ((extra == 2 && n < 65536) || (extra == 8 && n < 0x1_0000_0000_0000_0000)))
  }

  /** A frame as a client sends it. */
  function Encode(f: Frame, extra: nat, mask: seq<byte>): (s: seq<byte>)
    requires MaySend(f) && LengthForm(f, extra) && |mask| == 4
  {
    var n := |f.payload|;
    [f.op + if f.fin then 128 else 0]
    + (if extra == 0 then [128 + n] else [if extra == 2 then 254 else 255] + BigBytes(n, extra))
    + mask + Unmask(f.payload, mask)
  }

  lemma UnmaskTwice(s: seq<byte>, mask: seq<byte>)
    requires |mask| == 4
    ensures Unmask(Unmask(s, mask), mask) == s
  {
    hide XorByte;
    forall i | 0 <= i < |s|
      ensures XorByte(XorByte(s[i], mask[i % 4]), mask[i % 4]) == s[i]
    {
      XorTwice(s[i], mask[i % 4]);
    }
  }

  /** The first two bytes of a frame the client may send. */
  predicate GoodStart(b0: byte, b1: byte) {
    b0 in {0, 1, 2, 128, 129, 130, 136, 137, 138} && b1 >= 128 && (b0 >= 136 ==> b1 <= 253)
  }

  lemma StartIs(b0: byte, b1: byte)
    ensures BadStart(b0, b1) <==> !GoodStart(b0, b1)
  {
  }

  /** The length a frame's header gives, once it is there. */
  ghost function LengthOf(s: seq<byte>): (n: nat)
    requires |s| >= 2 && (s[1] % 128 == 126 ==> |s| >= 4) && (s[1] % 128 == 127 ==> |s| >= 10)
  {
    if s[1] % 128 == 126 then BigEndian(s[2..4]) else if s[1] % 128 == 127 then BigEndian(s[2..10]) else s[1] % 128
  }

  /** Exactly these are refused: a start no frame of the client has, and, once the whole header
      is there, a part of a message that makes it too long. */
  lemma RefusedIs(s: seq<byte>, maxMessage: nat, held: nat)
    ensures NextFrame(s, maxMessage, held) == Invalid(1002) <==> |s| >= 2 && !GoodStart(s[0], s[1])
    ensures NextFrame(s, maxMessage, held) == Invalid(1009) <==>
              && |s| >= 2 && GoodStart(s[0], s[1]) && s[0] < 136 && |s| >= HeaderLength(s[1] % 128) + 4
              && LengthOf(s) + (if s[0] in {0, 128} then held else 0) > maxMessage
    ensures NextFrame(s, maxMessage, held).Invalid? ==> NextFrame(s, maxMessage, held).code in {1002, 1009}
  {
    hide Unmask, BigEndian, BadStart;
    if |s| >= 2 {
      StartIs(s[0], s[1]);
    }
  }

  /** A frame within the rules is read as it was sent. */
  lemma ReadsFrame(f: Frame, extra: nat, mask: seq<byte>, rest: seq<byte>, maxMessage: nat, held: nat)
    requires MaySend(f) && LengthForm(f, extra) && |mask| == 4
    requires f.op < 8 ==> |f.payload| + (if f.op == 0 then held else 0) <= maxMessage
    ensures NextFrame(Encode(f, extra, mask) + rest, maxMessage, held) == Whole(f, |Encode(f, extra, mask)|)
  {
    hide Unmask, BigEndian, BigBytes, Pow2, Encode, NextFrame, GoodStart;
    var n := |f.payload|;
    UnmaskTwice(f.payload, mask);
    Pow2Word();
    Pow2Add(32, 32);
    if extra > 0 {
      BigRoundTrip(n, extra);
    }
    Laid(f, extra, mask, rest);
    var s := Encode(f, extra, mask) + rest;
    StartOf(f, extra, s[0], s[1]);
    PartsRead(s, f, 2 + extra, maxMessage, held);
  }

  lemma StartOf(f: Frame, extra: nat, b0: byte, b1: byte)
    requires MaySend(f) && LengthForm(f, extra) && b0 == f.op + (if f.fin then 128 else 0)
    requires b1 == if extra == 0 then 128 + |f.payload| else if extra == 2 then 254 else 255
    ensures GoodStart(b0, b1) && f.fin == (b0 >= 128) && f.op == b0 % 16 && HeaderLength(b1 % 128) == 2 + extra
    ensures extra == 0 ==> b1 % 128 == |f.payload|
  {
  }

  lemma PartsRead(s: seq<byte>, f: Frame, hl: nat, maxMessage: nat, held: nat)
    requires |s| >= 2 && GoodStart(s[0], s[1]) && hl == HeaderLength(s[1] % 128) && hl + 4 + |f.payload| <= |s|
    requires f.fin == (s[0] >= 128) && f.op == s[0] % 16
    requires |f.payload| == if hl == 2 then s[1] % 128 else BigEndian(s[2..hl])
    requires f.payload == Unmask(s[hl + 4..hl + 4 + |f.payload|], s[hl..hl + 4])
    requires f.op < 8 ==> |f.payload| + (if f.op == 0 then held else 0) <= maxMessage
    ensures NextFrame(s, maxMessage, held) == Whole(f, hl + 4 + |f.payload|)
  {
    hide Unmask, BigEndian;
    StartIs(s[0], s[1]);
  }

  /** Where the parts of a frame stand. */
  lemma Laid(f: Frame, extra: nat, mask: seq<byte>, rest: seq<byte>)
    requires MaySend(f) && LengthForm(f, extra) && |mask| == 4
    ensures var (s, n, hl) := (Encode(f, extra, mask) + rest, |f.payload|, 2 + extra);
            && |Encode(f, extra, mask)| == hl + 4 + n && s[0] == f.op + (if f.fin then 128 else 0)
            && s[1] == (if extra == 0 then 128 + n else if extra == 2 then 254 else 255)
            && s[2..hl] == (if extra == 0 then [] else BigBytes(n, extra))
            && s[hl..hl + 4] == mask && s[hl + 4..hl + 4 + n] == Unmask(f.payload, mask)
  {
    hide Unmask, BigBytes;
  }

  /** And nothing else is read: what was taken for a frame is one as a client sends it. */
  lemma FrameWritten(s: seq<byte>, maxMessage: nat, held: nat) returns (extra: nat, mask: seq<byte>)
    requires NextFrame(s, maxMessage, held).Whole?
    ensures var p := NextFrame(s, maxMessage, held);
            && MaySend(p.frame) && LengthForm(p.frame, extra) && |mask| == 4
            && s[..p.size] == Encode(p.frame, extra, mask)
  {
    hide NextFrame, Unmask, BigEndian, BigBytes, Pow2, Encode, GoodStart;
    WholeIs(s, maxMessage, held);
    var p := NextFrame(s, maxMessage, held);
    var hl := HeaderLength(s[1] % 128);
    extra, mask := hl - 2, s[hl..hl + 4];
    BigBytesBack(s[2..hl]);
    Pow2Word();
    Pow2Add(32, 32);
    GoodFits(s[0], s[1], p.frame);
    UnmaskTwice(s[hl + 4..p.size], mask);
    FourParts(s, hl, p.size);
    StartBytes(s, extra, |p.frame.payload|);
    EncodeIs(p.frame, extra, mask);
  }

  lemma GoodFits(b0: byte, b1: byte, f: Frame)
    requires GoodStart(b0, b1) && f.fin == (b0 >= 128) && f.op == b0 % 16
    requires b1 % 128 < 126 ==> |f.payload| == b1 % 128
    ensures MaySend(f) && b0 == f.op + (if f.fin then 128 else 0) && b1 >= 128
    ensures f.op >= 8 ==> b1 % 128 < 126
  {
  }

  lemma EncodeIs(f: Frame, extra: nat, mask: seq<byte>)
    requires MaySend(f) && LengthForm(f, extra) && |mask| == 4
    ensures var n := |f.payload|;
            Encode(f, extra, mask)
            == [f.op + if f.fin then 128 else 0]
            + (if extra == 0 then [128 + n] else [if extra == 2 then 254 else 255] + BigBytes(n, extra))
            + mask + Unmask(f.payload, mask)
  {
  }

  /** The parts of a frame that was read. */
  lemma WholeIs(s: seq<byte>, maxMessage: nat, held: nat)
    requires NextFrame(s, maxMessage, held).Whole?
    ensures |s| >= 2 && GoodStart(s[0], s[1])
    ensures var (p, hl) := (NextFrame(s, maxMessage, held), HeaderLength(s[1] % 128));
            var f := p.frame;
            && f.fin == (s[0] >= 128) && f.op == s[0] % 16 && p.size == hl + 4 + |f.payload| <= |s|
            && |f.payload| == (if hl == 2 then s[1] % 128 else BigEndian(s[2..hl]))
            && f.payload == Unmask(s[hl + 4..p.size], s[hl..hl + 4])
  {
    hide Unmask, BigEndian;
    StartIs(s[0], s[1]);
  }

  lemma FourParts(s: seq<byte>, hl: nat, size: nat)
    requires 2 <= hl && hl + 4 <= size <= |s|
    ensures s[..size] == s[..2] + s[2..hl] + s[hl..hl + 4] + s[hl + 4..size]
  {
  }

  lemma StartBytes(s: seq<byte>, extra: nat, n: nat)
    requires |s| >= 2 + extra && s[2..2 + extra] == (if extra == 0 then [] else BigBytes(n, extra))
    requires s[1] == if extra == 0 then 128 + n else if extra == 2 then 254 else 255
    ensures s[..2] + s[2..2 + extra]
         == [s[0]] + (if extra == 0 then [128 + n] else [if extra == 2 then 254 else 255] + BigBytes(n, extra))
  {
    hide BigBytes;
    assert s[..2] == [s[0], s[1]];
  }

  /** ws_unmask: eight bytes at a time, as a word XORed with the mask twice over, then the
      rest byte by byte. */
  method UnmaskInPlace(p: array<byte>, start: nat, n: nat, mask: seq<byte>)
    requires |mask| == 4 && start + n <= p.Length
    modifies p
    ensures p[..] == old(p[..start] + Unmask(p[start..start + n], mask) + p[start + n..])
  {
    hide XorByte, Unmasked;
    ghost var was := p[..];
    NoneUnmasked(was, start, mask);
    var m := mask + mask;
    var i := 0;
    while i + 8 <= n
      invariant i <= n && i % 8 == 0 && Unmasked(p[..], was, start, i, mask)
    {
      ghost var before := p[..];
      XorWord(p, start + i, m);
      WordUnmasked(was, before, p[..], start, i, mask, m);
      i := i + 8;
    }
    while i < n
      invariant i <= n && Unmasked(p[..], was, start, i, mask)
    {
      ghost var before := p[..];
      p[start + i] := XorByte(p[start + i], mask[i % 4]);
      ByteUnmasked(was, before, p[..], start, i, mask);
      i := i + 1;
    }
    AllUnmasked(was, p[..], start, n, mask);
  }

  /** A word of memory XORed with another. */
  method XorWord(p: array<byte>, at: nat, m: seq<byte>)
    requires at + 8 <= p.Length && |m| == 8
    modifies p
    ensures forall j :: 0 <= j < p.Length ==>
              p[j] == if at <= j < at + 8 then XorByte(old(p[j]), m[j - at]) else old(p[j])
  {
    hide XorByte;
    for k := 0 to 8
      invariant forall j :: 0 <= j < p.Length ==>
                  p[j] == if at <= j < at + k then XorByte(old(p[j]), m[j - at]) else old(p[j])
    {
      p[at + k] := XorByte(p[at + k], m[k]);
    }
  }

  lemma NoneUnmasked(was: seq<byte>, start: nat, mask: seq<byte>)
    requires |mask| == 4
    ensures Unmasked(was, was, start, 0, mask)
  {
  }

  lemma WordUnmasked(was: seq<byte>, before: seq<byte>, now: seq<byte>, start: nat, i: nat, mask: seq<byte>,
                     m: seq<byte>)
    requires |mask| == 4 && i % 8 == 0 && Unmasked(before, was, start, i, mask) && |now| == |was|
    requires start + i + 8 <= |now| && |m| == 8 && m == mask + mask
    requires forall j :: 0 <= j < |now| ==>
               now[j] == if start + i <= j < start + i + 8 then XorByte(before[j], m[j - (start + i)]) else before[j]
    ensures Unmasked(now, was, start, i + 8, mask)
  {
    hide XorByte;
    forall j | 0 <= j < |now|
      ensures now[j] == if start <= j < start + (i + 8) then XorByte(was[j], mask[(j - start) % 4]) else was[j]
    {
      if start + i <= j < start + i + 8 {
        MaskTwice(mask, m, i, j - (start + i));
        assert (j - start) == i + (j - (start + i));
      }
    }
  }

  lemma MaskTwice(mask: seq<byte>, m: seq<byte>, i: nat, k: nat)
    requires |mask| == 4 && m == mask + mask && i % 8 == 0 && k < 8
    ensures m[k] == mask[(i + k) % 4]
  {
    DivUnique(i, 8, i / 8, 0);
    if k < 4 {
      DivUnique(i + k, 4, 2 * (i / 8), k);
    } else {
      DivUnique(i + k, 4, 2 * (i / 8) + 1, k - 4);
    }
  }

  lemma ByteUnmasked(was: seq<byte>, before: seq<byte>, now: seq<byte>, start: nat, i: nat, mask: seq<byte>)
    requires |mask| == 4 && Unmasked(before, was, start, i, mask) && |now| == |was| && start + i < |now|
    requires now == before[start + i := XorByte(before[start + i], mask[i % 4])]
    ensures Unmasked(now, was, start, i + 1, mask)
  {
    hide XorByte;
  }

  lemma AllUnmasked(was: seq<byte>, now: seq<byte>, start: nat, n: nat, mask: seq<byte>)
    requires |mask| == 4 && start + n <= |was| && Unmasked(now, was, start, n, mask)
    ensures now == was[..start] + Unmask(was[start..start + n], mask) + was[start + n..]
  {
    hide XorByte;
  }

  /** The first n bytes from start on are unmasked, and no others. */
  ghost predicate Unmasked(now: seq<byte>, was: seq<byte>, start: nat, n: nat, mask: seq<byte>)
    requires |mask| == 4
  {
    && |now| == |was|
    && forall j :: 0 <= j < |now| ==>
         now[j] == if start <= j < start + n then XorByte(was[j], mask[(j - start) % 4]) else was[j]
  }
}
