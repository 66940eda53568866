/** Literals and matches as DEFLATE codes them (section 3.2.5 of RFC 1951), the bits of a
    token, and a reference decoder of them. */
module Tokens {
  import opened Basics
  import opened Bits
  import opened Canonical

  /** The encoder's own tables. */
  const LEN_BASE: seq<nat> := [3, 4, 5, 6, 7, 8, 9, 10, 11, 13, 15, 17, 19, 23, 27, 31, 35, 43, 51, 59,
                               67, 83, 99, 115, 131, 163, 195, 227, 258]
  const LEN_XBITS: seq<nat> := [0, 0, 0, 0, 0, 0, 0, 0, 1, 1, 1, 1, 2, 2, 2, 2, 3, 3, 3, 3, 4, 4, 4, 4,
                                5, 5, 5, 5, 0]
  const DIST_BASE: seq<nat> := [1, 2, 3, 4, 5, 7, 9, 13, 17, 25, 33, 49, 65, 97, 129, 193, 257, 385, 513,
                                769, 1025, 1537, 2049, 3073, 4097, 6145, 8193, 12289, 16385, 24577]
  const DIST_XBITS: seq<nat> := [0, 0, 0, 0, 1, 1, 2, 2, 3, 3, 4, 4, 5, 5, 6, 6, 7, 7, 8, 8, 9, 9, 10, 10,
                                 11, 11, 12, 12, 13, 13]

  /** A literal byte, or a copy of len bytes from dist back. */
  datatype Token = Literal(b: byte) | Match(len: nat, dist: nat) {
    predicate Sound() {
      Match? ==> 3 <= len <= 258 && 1 <= dist <= 32768
    }
  }

  /** The last of bases 0..s that v reaches. */
  function SymOf(base: seq<nat>, v: nat, s: nat): (r: nat)
    requires s < |base| && base[0] <= v
    ensures r <= s && base[r] <= v && (r < s ==> v < base[r + 1])
  {
    if base[s] <= v then s else SymOf(base, v, s - 1)
  }

  /** The extra bits of length code 257 + s: none for the first eight lengths and for 258,
      and then one more with every four codes. */
  function LenExtra(s: nat): (x: nat)
    requires s < 29
    ensures x <= 5
  {
    if s < 8 || s == 28 then 0 else s / 4 - 1
  }

  /** Its first length: each group of four takes up the lengths where the last one ended. */
  function LenBase(s: nat): (b: nat)
    requires s < 29
  {
    if s < 8 then 3 + s else if s == 28 then 258 else 3 + (4 + s % 4) * Pow2(s / 4 - 1)
  }

  /** The extra bits of distance code s: none for the first four, and then one more with
      every two codes. */
  function DistExtra(s: nat): (x: nat)
    requires s < 30
    ensures x <= 13
  {
    if s < 4 then 0 else s / 2 - 1
  }

  function DistBase(s: nat): (b: nat)
    requires s < 30
  {
    if s < 4 then 1 + s else 1 + (2 + s % 2) * Pow2(s / 2 - 1)
  }

  /** The encoder's tables are those of the format. */
  lemma LenTable(s: nat)
    requires s < 29
    ensures |LEN_BASE| == |LEN_XBITS| == 29 && LEN_BASE[s] == LenBase(s) && LEN_XBITS[s] == LenExtra(s)
  {
    hide Pow2;
    PowersOfTwo();
  }

  lemma DistTable(s: nat)
    requires s < 30
    ensures |DIST_BASE| == |DIST_XBITS| == 30 && DIST_BASE[s] == DistBase(s) && DIST_XBITS[s] == DistExtra(s)
  {
    hide Pow2;
    PowersOfTwo();
  }

  lemma PowersOfTwo()
    ensures Pow2(0) == 1 && Pow2(1) == 2 && Pow2(2) == 4 && Pow2(3) == 8 && Pow2(4) == 16 && Pow2(5) == 32
    ensures Pow2(6) == 64 && Pow2(7) == 128 && Pow2(8) == 256 && Pow2(9) == 512 && Pow2(10) == 1024
    ensures Pow2(11) == 2048 && Pow2(12) == 4096 && Pow2(13) == 8192
  {
  }

  /** Each range of lengths reaches the next. */
  lemma LenRange(s: nat)
    requires s < 28
    ensures LEN_BASE[s + 1] <= LenBase(s) + Pow2(LenExtra(s))
  {
    hide LenBase, LenExtra;
    LenTable(s);
    PowersOfTwo();
  }

  lemma DistRange(s: nat)
    requires s < 29
    ensures DIST_BASE[s + 1] <= DistBase(s) + Pow2(DistExtra(s))
  {
    hide DistBase, DistExtra;
    DistTable(s);
    PowersOfTwo();
  }

  lemma TableEnds()
    ensures LenBase(28) == 258 && Pow2(LenExtra(28)) == 1
    ensures DistBase(29) == 24577 && Pow2(DistExtra(29)) == 8192
    ensures LEN_BASE[0] == 3 && DIST_BASE[0] == 1 && |LEN_BASE| == 29 && |DIST_BASE| == 30
  {
    PowersOfTwo();
  }

  /** The length symbol of a match length, less 257. */
  function LenSym(len: nat): (s: nat)
    requires 3 <= len <= 258
    ensures s < 29 && LenBase(s) <= len < LenBase(s) + Pow2(LenExtra(s))
  {
    hide Pow2, LenBase, LenExtra;
    TableEnds();
    var s := SymOf(LEN_BASE, len, 28);
    LenTable(s);
    if s < 28 then
      LenRange(s);
      s
    else
      s
  }

  function DistSym(dist: nat): (s: nat)
    requires 1 <= dist <= 32768
    ensures s < 30 && DistBase(s) <= dist < DistBase(s) + Pow2(DistExtra(s))
  {
    hide Pow2, DistBase, DistExtra;
    TableEnds();
    var s := SymOf(DIST_BASE, dist, 29);
    DistTable(s);
    if s < 29 then
      DistRange(s);
      s
    else
      s
  }

  /** The symbols a token uses have codes. */
  predicate Coded(t: Token, lit: seq<nat>, dist: seq<nat>)
    requires t.Sound()
  {
    match t
    case Literal(b) => |lit| > b && lit[b] > 0
    case Match(len, d) =>
      && |lit| > 257 + LenSym(len) && lit[257 + LenSym(len)] > 0
      && |dist| > DistSym(d) && dist[DistSym(d)] > 0
  }

  /** The bits of one token. */
  ghost function TokenBits(t: Token, lit: seq<nat>, dist: seq<nat>): seq<bool>
    requires t.Sound() && Coded(t, lit, dist)
  {
    match t
    case Literal(b) => CodeBits(lit, b)
    case Match(len, d) =>
      var s, ds := LenSym(len), DistSym(d);
      (CodeBits(lit, 257 + s) + Lsb(len - LenBase(s), LenExtra(s)))
      + (CodeBits(dist, ds) + Lsb(d - DistBase(ds), DistExtra(ds)))
  }

  ghost predicate AllCoded(ts: seq<Token>, lit: seq<nat>, dist: seq<nat>) {
    forall i :: 0 <= i < |ts| ==> ts[i].Sound() && Coded(ts[i], lit, dist)
  }

  /** The bits of a block's tokens, without the end of block. */
  ghost function TokensBits(ts: seq<Token>, lit: seq<nat>, dist: seq<nat>): seq<bool>
    requires AllCoded(ts, lit, dist)
  {
    if ts == [] then [] else TokenBits(ts[0], lit, dist) + TokensBits(ts[1..], lit, dist)
  }

  lemma {:induction false} TokensBitsPush(ts: seq<Token>, t: Token, lit: seq<nat>, dist: seq<nat>)
    requires AllCoded(ts + [t], lit, dist)
    ensures AllCoded(ts, lit, dist) && t.Sound() && Coded(t, lit, dist)
    ensures TokensBits(ts + [t], lit, dist) == TokensBits(ts, lit, dist) + TokenBits(t, lit, dist)
  {
    hide TokenBits;
    assert (ts + [t])[|ts|] == t;
    assert forall i :: 0 <= i < |ts| ==> ts[i] == (ts + [t])[i];
    if ts == [] {
      assert ts + [t] == [t];
      assert TokensBits([t], lit, dist) == TokenBits(t, lit, dist) + TokensBits([], lit, dist) by {
        assert [t][1..] == [];
      }
    } else {
      assert (ts + [t])[1..] == ts[1..] + [t];
      TokensBitsPush(ts[1..], t, lit, dist);
      Assoc(TokenBits(ts[0], lit, dist), TokensBits(ts[1..], lit, dist), TokenBits(t, lit, dist));
    }
  }

  /** len bytes copied one at a time from dist back, overlapping or not. */
  function Copy(out: seq<byte>, dist: nat, len: nat): (r: seq<byte>)
    requires 1 <= dist <= |out|
    ensures |r| == |out| + len
    decreases len
  {
    if len == 0 then out else Copy(out + [out[|out| - dist]], dist, len - 1)
  }

  /** What a token adds to the output; none when it reaches before its start. */
  function Apply(t: Token, out: seq<byte>): Option<seq<byte>> {
    match t
    case Literal(b) => Some(out + [b])
    case Match(len, dist) => if 1 <= dist <= |out| then Some(Copy(out, dist, len)) else None
  }

  function Expand(ts: seq<Token>, out: seq<byte>): Option<seq<byte>> {
    if ts == [] then Some(out) else
      var more :- Apply(ts[0], out);
      Expand(ts[1..], more)
  }

  lemma {:induction false} ExpandPush(ts: seq<Token>, t: Token, out: seq<byte>)
    ensures Expand(ts + [t], out) == (var r :- Expand(ts, out); Apply(t, r))
  {
    if ts == [] {
      assert ts + [t] == [t] && [t][1..] == [];
    } else {
      assert (ts + [t])[1..] == ts[1..] + [t];
      var more := Apply(ts[0], out);
      if more.Some? {
        ExpandPush(ts[1..], t, more.value);
      }
    }
  }

  /** A number of n bits. */
  ghost function ReadBits(bits: seq<bool>, n: nat): (r: Option<(nat, seq<bool>)>)
    ensures r.Some? ==> |r.value.1| == |bits| - n
  {
    if |bits| < n then None else Some((LsbVal(bits[..n]), bits[n..]))
  }

  lemma ReadsBits(v: nat, n: nat, rest: seq<bool>)
    requires v < Pow2(n)
    ensures ReadBits(Lsb(v, n) + rest, n) == Some((v, rest))
  {
    hide Lsb, LsbVal;
    var bits := Lsb(v, n) + rest;
    assert bits[..n] == Lsb(v, n) && bits[n..] == rest;
    LsbRoundTrip(v, n);
  }

  /** The reference reading of a match, after its length symbol 257 + s. */
  ghost function ReadMatch(s: nat, dist: seq<nat>, bits: seq<bool>): (r: Option<(Token, seq<bool>)>)
    ensures r.Some? ==> |r.value.1| <= |bits|
  {
    if s >= 29 then None else
      var (x, r1) :- ReadBits(bits, LenExtra(s));
      var (ds, r2) :- DecodeSym(dist, r1);
      if ds >= 30 then None else
        var (dx, r3) :- ReadBits(r2, DistExtra(ds));
        Some((Match(LenBase(s) + x, DistBase(ds) + dx), r3))
  }

  /** The reference reading of a block's data: tokens applied until the end of block. */
  ghost function ReadTokens(lit: seq<nat>, dist: seq<nat>, bits: seq<bool>, out: seq<byte>)
      : Option<(seq<byte>, seq<bool>)>
    decreases |bits|
  {
    var (s, rest) :- DecodeSym(lit, bits);
    if s < 256 then ReadTokens(lit, dist, rest, out + [s])
    else if s == 256 then Some((out, rest))
    else
      var (t, after) :- ReadMatch(s - 257, dist, rest);
      var more :- Apply(t, out);
      ReadTokens(lit, dist, after, more)
  }

  lemma ReadsMatch(len: nat, d: nat, dist: seq<nat>, rest: seq<bool>)
    requires 3 <= len <= 258 && 1 <= d <= 32768 && Complete(dist)
    requires |dist| > DistSym(d) && dist[DistSym(d)] > 0
    ensures var s, ds := LenSym(len), DistSym(d);
            ReadMatch(s, dist, Lsb(len - LenBase(s), LenExtra(s))
                               + ((CodeBits(dist, ds) + Lsb(d - DistBase(ds), DistExtra(ds))) + rest))
            == Some((Match(len, d), rest))
  {
    hide Lsb, CodeBits, DecodeSym, ReadBits, Complete, Pow2, LenBase, LenExtra, DistBase, DistExtra, LenSym, DistSym;
    var s, ds := LenSym(len), DistSym(d);
    var x, dx := len - LenBase(s), d - DistBase(ds);
    var tail := Lsb(dx, DistExtra(ds)) + rest;
    Assoc(CodeBits(dist, ds), Lsb(dx, DistExtra(ds)), rest);
    ReadsBits(x, LenExtra(s), CodeBits(dist, ds) + tail);
    DecodesSym(dist, ds, tail);
    ReadsBits(dx, DistExtra(ds), rest);
  }

  /** Tokens written are tokens read: the reader rebuilds what they expand to. */
  lemma {:induction false} ReadsTokens(ts: seq<Token>, lit: seq<nat>, dist: seq<nat>, out: seq<byte>, rest: seq<bool>)
    requires AllCoded(ts, lit, dist) && Complete(lit) && Complete(dist)
    requires |lit| > 256 && lit[256] > 0 && Expand(ts, out).Some?
    ensures ReadTokens(lit, dist, TokensBits(ts, lit, dist) + (CodeBits(lit, 256) + rest), out)
         == Some((Expand(ts, out).value, rest))
  {
    hide Lsb, CodeBits, DecodeSym, ReadBits, Complete, Pow2, LenBase, LenExtra, DistBase, DistExtra, ReadMatch;
    hide TokenBits, LenSym, DistSym;
    var end := CodeBits(lit, 256) + rest;
    if ts == [] {
      assert TokensBits(ts, lit, dist) + end == end;
      DecodesSym(lit, 256, rest);
    } else {
      var more := Apply(ts[0], out).value;
      var tail := TokensBits(ts[1..], lit, dist) + end;
      ReadsTokens(ts[1..], lit, dist, more, rest);
      Assoc(TokenBits(ts[0], lit, dist), TokensBits(ts[1..], lit, dist), end);
      ReadsToken(ts[0], lit, dist, out, tail);
    }
  }

  lemma ReadsToken(t: Token, lit: seq<nat>, dist: seq<nat>, out: seq<byte>, tail: seq<bool>)
    requires t.Sound() && Coded(t, lit, dist) && Complete(lit) && Complete(dist) && Apply(t, out).Some?
    ensures ReadTokens(lit, dist, TokenBits(t, lit, dist) + tail, out)
         == ReadTokens(lit, dist, tail, Apply(t, out).value)
  {
    hide Lsb, CodeBits, DecodeSym, ReadBits, Complete, Pow2, LenBase, LenExtra, DistBase, DistExtra, ReadMatch, LenSym;
    hide DistSym;
    match t
    case Literal(b) =>
      DecodesSym(lit, b, tail);
    case Match(len, d) =>
      var s, ds := LenSym(len), DistSym(d);
      var x := Lsb(len - LenBase(s), LenExtra(s));
      var dc := CodeBits(dist, ds) + Lsb(d - DistBase(ds), DistExtra(ds));
      var c := CodeBits(lit, 257 + s);
      Assoc(c + x, dc, tail);
      Assoc(c, x, dc + tail);
      DecodesSym(lit, 257 + s, x + (dc + tail));
      ReadsMatch(len, d, dist, tail);
  }
}
