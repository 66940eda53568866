/** Chunked bodies as section 7.1 of RFC 9112 writes them: what was encoded is what the
    scanner accepts, and its data what was sent. */
module ChunkedBody {
  import opened Basics
  import opened Chunked

  function HexDigit(d: nat): (c: byte)
    requires d < 16
    ensures HexValue(c) == d
  {
    if d < 10 then 48 + d else 87 + d
  }

  /** A size in hex. */
  function HexText(n: nat): (s: seq<byte>)
    ensures s != []
  {
    if n < 16 then [HexDigit(n)] else HexText(n / 16) + [HexDigit(n % 16)]
  }

  lemma {:induction false} HexLength(n: nat, k: nat)
    requires n < Pow16(k) && k > 0
    ensures |HexText(n)| <= k
  {
    if n >= 16 {
      assert n / 16 < Pow16(k - 1);
      HexLength(n / 16, k - 1);
    }
  }

  function Pow16(k: nat): nat {
    if k == 0 then 1 else 16 * Pow16(k - 1)
  }

  /** A body in chunks (section 7.1 of RFC 9112), without extensions or trailers. */
  function Encode(chunks: seq<seq<byte>>): seq<byte> {
    if chunks == [] then [48, CR, LF, CR, LF] else EncodeChunk(chunks[0]) + Encode(chunks[1..])
  }

  function EncodeChunk(data: seq<byte>): seq<byte> {
    HexText(|data|) + [CR, LF] + data + [CR, LF]
  }

  function Joined(chunks: seq<seq<byte>>): seq<byte> {
    if chunks == [] then [] else chunks[0] + Joined(chunks[1..])
  }

  /** Chunks a scanner takes: none empty, sizes of at most eight digits. */
  ghost predicate Fitting(chunks: seq<seq<byte>>) {
    forall i :: 0 <= i < |chunks| ==> 0 < |chunks[i]| < Pow16(MAX_DIGITS)
  }

  lemma {:induction false} ReadsHex(b: seq<byte>, i: nat, n: nat)
    requires |HexText(n)| <= MAX_DIGITS && i + |HexText(n)| <= |b| && b[i..i + |HexText(n)|] == HexText(n)
    ensures Digits(b, i, 0, 0) == Digits(b, i + |HexText(n)|, |HexText(n)|, n)
    decreases n
  {
    var k := |HexText(n)| - 1;
    assert b[i + k] == HexText(n)[k];
    if n >= 16 {
      var t := HexText(n / 16);
      assert b[i..i + k] == HexText(n)[..k] == t;
      ReadsHex(b, i, n / 16);
    }
  }

  /** Where the parts of an encoded chunk stand. */
  lemma ChunkBytes(head: seq<byte>, data: seq<byte>, rest: seq<byte>)
    ensures var b, t := head + EncodeChunk(data) + rest, HexText(|data|);
            var at := |head| + |t|;
            && |head + EncodeChunk(data)| == at + 4 + |data| <= |b| && b[|head|..at] == t && b[at] == CR
                && b[at + 1] == LF
            && b[at + 2..at + 2 + |data|] == data && b[at + 2 + |data|] == CR && b[at + 3 + |data|] == LF
  {
    hide HexText;
  }

  /** The scanner passes a chunk that was encoded, and its data is what was sent. */
  lemma ReadsChunk(b: seq<byte>, data: seq<byte>, st: State, maxBody: nat)
    requires 0 < |data| < Pow16(MAX_DIGITS) && st.total + |data| <= maxBody && !st.trailers
    requires var t := HexText(|data|);
             var at := st.pos + |t|;
             && at + 4 + |data| <= |b| && b[st.pos..at] == t && b[at] == CR && b[at + 1] == LF
             && b[at + 2..at + 2 + |data|] == data && b[at + 2 + |data|] == CR && b[at + 3 + |data|] == LF
    ensures var u := ChunkUnit(b, st, maxBody);
            && u == Go(st.(pos := st.pos + |HexText(|data|)| + 4 + |data|, total := st.total + |data|))
            && ChunkData(b, st, u.next) == data
  {
    hide HexText, Digits, Pow16;
    var t := HexText(|data|);
    var at := st.pos + |t|;
    HexLength(|data|, MAX_DIGITS);
    ReadsHex(b, st.pos, |data|);
    DigitsEnd(b, at, |t|, |data|);
    assert Blanks(b, at) == at && LineEnd(b, at) == Ends(at + 2);
  }

  lemma DigitsEnd(b: seq<byte>, at: nat, digits: nat, size: nat)
    requires at < |b| && b[at] == CR
    ensures Digits(b, at, digits, size) == Hex(at, digits, size)
  {
  }

  /** A body encoded in any chunks within the limit is accepted to its end, whatever follows
      it, and its data is theirs. */
  lemma {:induction false} ReadsChunks(head: seq<byte>, chunks: seq<seq<byte>>, rest: seq<byte>, st: State,
                                       maxBody: nat)
    requires Fitting(chunks) && st.pos == |head| && !st.trailers && st.total + |Joined(chunks)| <= maxBody
    ensures var b := head + Encode(chunks) + rest;
            && Run(b, st, maxBody).Done? && Run(b, st, maxBody).at.pos == |head + Encode(chunks)|
            && Payload(b, st, maxBody) == Joined(chunks)
    decreases |chunks|
  {
    hide ChunkUnit, EncodeChunk, ChunkData, Run, Payload, HexText;
    var b := head + Encode(chunks) + rest;
    if chunks == [] {
      EndOfBody(b, st, maxBody);
    } else {
      var first, more := EncodeChunk(chunks[0]), chunks[1..];
      Regrouped(head, first, Encode(more), rest);
      ChunkBytes(head, chunks[0], Encode(more) + rest);
      ReadsChunk(b, chunks[0], st, maxBody);
      var next := ChunkUnit(b, st, maxBody).next;
      ReadsChunks(head + first, more, rest, next, maxBody);
      RunIs(b, st, maxBody);
      PayloadIs(b, st, maxBody);
    }
  }

  lemma Regrouped(a: seq<byte>, b: seq<byte>, c: seq<byte>, d: seq<byte>)
    ensures a + (b + c) == (a + b) + c && a + (b + c) + d == (a + b) + c + d == a + b + (c + d)
  {
  }

  lemma PayloadIs(b: seq<byte>, st: State, maxBody: nat)
    requires st.pos <= |b| && !st.trailers && UnitAt(b, st, maxBody).Go?
    ensures var next := UnitAt(b, st, maxBody).next;
            Payload(b, st, maxBody) == ChunkData(b, st, next) + Payload(b, next, maxBody)
  {
  }

  lemma EndOfBody(b: seq<byte>, st: State, maxBody: nat)
    requires st.pos + 5 <= |b| && !st.trailers && b[st.pos..st.pos + 5] == [48, CR, LF, CR, LF]
    ensures Run(b, st, maxBody) == Done(st.(pos := st.pos + 5, trailers := true)) && Payload(b, st, maxBody) == []
  {
    var at := st.pos;
    var five := b[at..at + 5];
    assert b[at] == five[0] && b[at + 1] == five[1] && b[at + 2] == five[2] && b[at + 3] == five[3]
        && b[at + 4] == five[4];
    assert b[at] == 48 && b[at + 1] == CR && b[at + 2] == LF && b[at + 3] == CR && b[at + 4] == LF;
    DigitsEnd(b, at + 1, 1, 0);
    assert Digits(b, at, 0, 0) == Hex(at + 1, 1, 0);
    assert Blanks(b, at + 1) == at + 1 && LineEnd(b, at + 1) == Ends(at + 3) && LineEnd(b, at + 3) == Ends(at + 5);
    var next := st.(pos := at + 3, trailers := true);
    assert UnitAt(b, st, maxBody) == Go(next) && UnitAt(b, next, maxBody) == Finish(next.(pos := at + 5));
  }
}
