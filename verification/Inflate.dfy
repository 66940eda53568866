/** A reference inflater (RFC 1951): bits to blocks to bytes. Dynamic codes that are not
    complete are refused. */
module Inflate {
  import opened Basics
  import opened Bits
  import opened Canonical
  import opened Tokens
  import opened CodeLengths

  /** Reads n code lengths, run-length coded under cl. */
  ghost function ReadLens(cl: seq<nat>, bits: seq<bool>, n: nat, out: seq<nat>): (r: Option<(seq<nat>, seq<bool>)>)
    ensures r.Some? ==> |r.value.0| == n && |r.value.1| <= |bits|
    decreases |bits|
  {
    if |out| == n then Some((out, bits))
    else if |out| > n then None
    else
      var (s, r1) :- DecodeSym(cl, bits);
      var (v, r2) :- ReadBits(r1, ClExtra(s));
      var more :- ClApply(s, v, out);
      ReadLens(cl, r2, n, more)
  }

  /** Reads the lengths of the code length code, in their own order. */
  ghost function ReadOrder(bits: seq<bool>, k: nat, hclen: nat, acc: seq<nat>): (r: Option<(seq<nat>, seq<bool>)>)
    requires |acc| == 19 && hclen <= 19
    ensures r.Some? ==> |r.value.0| == 19 && |r.value.1| <= |bits|
    decreases hclen - k
  {
    if k >= hclen then Some((acc, bits)) else
      var (v, rest) :- ReadBits(bits, 3);
      ReadOrder(rest, k + 1, hclen, acc[OrderAt(k) := v])
  }

  /** The order of section 3.2.7: the three repeats, 0, and then 8 and outward from it. */
  function OrderAt(k: nat): (s: nat)
    requires k < 19
    ensures s < 19
  {
    if k < 3 then 16 + k else if k == 3 then 0 else if k % 2 == 0 then 8 + (k - 4) / 2 else 8 - (k - 3) / 2
  }

  /** The encoder's order is that of the format. */
  lemma OrderTable(k: nat)
    requires k < 19
    ensures |CL_ORDER| == 19 && CL_ORDER[k] == OrderAt(k)
  {
  }

  /** A dynamic block's header: its two codes. */
  ghost function ReadHeader(bits: seq<bool>): (r: Option<((seq<nat>, seq<nat>), seq<bool>)>)
    ensures r.Some? ==> |r.value.1| <= |bits|
  {
    var (hlit, r1) :- ReadBits(bits, 5);
    var (hdist, r2) :- ReadBits(r1, 5);
    var (hclen, r3) :- ReadBits(r2, 4);
    if hlit > 29 || hdist > 29 || hclen > 15 then None else
      var (cl, r4) :- ReadOrder(r3, 0, hclen + 4, Repeat(0, 19));
      if !Complete(cl) then None else
        var (lens, r5) :- ReadLens(cl, r4, hlit + 257 + (hdist + 1), []);
        Some(((lens[..hlit + 257], lens[hlit + 257..]), r5))
  }

  /** The codes of a fixed block (section 3.2.6). */
  function FixedLit(): seq<nat> {
    Repeat(8, 144) + Repeat(9, 112) + Repeat(7, 24) + Repeat(8, 8)
  }

  function FixedDist(): seq<nat> {
    Repeat(5, 32)
  }

  /** A stored block: to the next byte boundary, a length and its complement, bytes. The
      boundary is found from what is left, the whole stream being bytes. */
  ghost function ReadStored(bits: seq<bool>, out: seq<byte>): (r: Option<(seq<byte>, seq<bool>)>)
    ensures r.Some? ==> |r.value.1| <= |bits|
  {
    var aligned := bits[|bits| % 8..];
    var (len, r1) :- ReadBits(aligned, 16);
    var (nlen, r2) :- ReadBits(r1, 16);
    if len + nlen != 65535 || |r2| < 8 * len then None else
      Some((out + BitBytes(r2[..8 * len]), r2[8 * len..]))
  }

  ghost function ReadBody(kind: nat, bits: seq<bool>, out: seq<byte>): (r: Option<(seq<byte>, seq<bool>)>)
    ensures r.Some? ==> |r.value.1| <= |bits|
  {
    if kind == 0 then ReadStored(bits, out)
    else if kind == 1 then
      ReadTokensShorter(FixedLit(), FixedDist(), bits, out);
      ReadTokens(FixedLit(), FixedDist(), bits, out)
    else if kind == 2 then
      var (codes, rest) :- ReadHeader(bits);
      if !Complete(codes.0) || !Complete(codes.1) then None else
        ReadTokensShorter(codes.0, codes.1, rest, out);
        ReadTokens(codes.0, codes.1, rest, out)
    else None
  }

  lemma {:induction false} ReadTokensShorter(lit: seq<nat>, dist: seq<nat>, bits: seq<bool>, out: seq<byte>)
    ensures var r := ReadTokens(lit, dist, bits, out); r.Some? ==> |r.value.1| <= |bits|
    decreases |bits|
  {
    hide DecodeSym, ReadMatch, Apply;
    var d := DecodeSym(lit, bits);
    if d.Some? {
      var s, rest := d.value.0, d.value.1;
      if s < 256 {
        ReadTokensShorter(lit, dist, rest, out + [s]);
      } else if s > 256 {
        var m := ReadMatch(s - 257, dist, rest);
        if m.Some? {
          var a := Apply(m.value.0, out);
          if a.Some? {
            ReadTokensShorter(lit, dist, m.value.1, a.value);
          }
        }
      }
    }
  }

  /** Blocks until the final one. */
  ghost function InflateFrom(bits: seq<bool>, out: seq<byte>): (r: Option<(seq<byte>, seq<bool>)>)
    decreases |bits|
  {
    var (head, rest) :- ReadBits(bits, 3);
    var (more, after) :- ReadBody(head / 2, rest, out);
    if head % 2 == 1 then Some((more, after)) else InflateFrom(after, more)
  }
}
