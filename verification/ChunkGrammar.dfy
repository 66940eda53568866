/** Chunked bodies as bytes (section 7.1 of RFC 9112), with the scanner's limits: what it
    accepts is exactly what the grammar has. */
module ChunkGrammar {
  import opened Basics
  import opened Chunked

  ghost predicate IsHex(c: byte) {
    48 <= c <= 57 || 65 <= c <= 70 || 97 <= c <= 102
  }

  /** The number hex digits in either case spell. */
  ghost function Size(s: seq<byte>): nat
    requires forall k :: 0 <= k < |s| ==> IsHex(s[k])
  {
    if s == [] then 0 else Size(s[..|s| - 1]) * 16 + DigitOf(s[|s| - 1])
  }

  ghost function DigitOf(c: byte): nat
    requires IsHex(c)
  {
    if c <= 57 then c - 48 else if c <= 70 then c - 55 else c - 87
  }

  /** A byte a line may hold before its CRLF. */
  ghost predicate IsText(c: byte) {
    c == 9 || (32 <= c && c != 127)
  }

  /** A token's byte (section 5.6.2 of RFC 9110). */
  ghost predicate IsToken(c: byte) {
    'a' <= c as char <= 'z' || 'A' <= c as char <= 'Z' || '0' <= c as char <= '9' || c as char in "!#$%&'*+-.^_`|~"
  }

  /** A chunk's first line from i up to at: one to eight hex digits, blanks, an extension if any,
      and a CRLF; no longer than 4096 bytes. */
  ghost predicate SizeParts(b: seq<byte>, i: nat, d: nat, e: nat, at: nat, size: nat) {
    && i < d <= e && d - i <= 8 && e + 2 <= at <= |b| && at - i <= 4096
    && (forall k :: i <= k < d ==> IsHex(b[k])) && size == Size(b[i..d])
    && (forall k :: d <= k < e ==> b[k] == 32 || b[k] == 9)
    && (e + 2 == at || b[e] == 59) && (forall k :: e <= k < at - 2 ==> IsText(b[k]))
    && b[at - 2] == 13 && b[at - 1] == 10
  }

  ghost predicate SizeLine(b: seq<byte>, i: nat, at: nat, size: nat) {
    exists d, e :: SizeParts(b, i, d, e, at, size)
  }

  /** A chunk: its line, its data, and a CRLF. */
  ghost predicate ChunkIs(b: seq<byte>, i: nat, j: nat, data: seq<byte>) {
    var at := j - |data| - 2;
    && i < at && j <= |b| && data != [] && SizeLine(b, i, at, |data|)
    && b[at..j - 2] == data && b[j - 2] == 13 && b[j - 1] == 10
  }

  /** A trailer field: a token, a colon, any text, and a CRLF. */
  ghost predicate TrailerIs(b: seq<byte>, i: nat, at: nat) {
    && i + 2 < at <= |b| && b[at - 2] == 13 && b[at - 1] == 10 && (forall k :: i <= k < at - 2 ==> IsText(b[k]))
    && exists c :: i < c < at - 2 && b[c] == 58 && forall k :: i <= k < c ==> IsToken(b[k])
  }

  /** Trailer fields of at most so many bytes, and the empty line. */
  ghost predicate TrailersAre(b: seq<byte>, i: nat, j: nat, room: nat)
    decreases |b| - i
  {
    || (i + 2 == j <= |b| && b[i] == 13 && b[i + 1] == 10)
    || exists at: nat :: i < at <= |b| && at - i <= room && TrailerIs(b, i, at)
                         && TrailersAre(b, at, j, room - (at - i))
  }

  /** A chunked body from i up to j: chunks that hold the data, a last chunk, trailers. */
  ghost predicate BodyIs(b: seq<byte>, i: nat, j: nat, data: seq<byte>)
    decreases |b| - i
  {
    || (data == [] && exists at: nat :: i < at <= |b| && SizeLine(b, i, at, 0) && TrailersAre(b, at, j, 8192))
    || exists k: nat, n: nat :: i < k <= |b| && n <= |data| && ChunkIs(b, i, k, data[..n]) && BodyIs(b, k, j, data[n..])
  }

  lemma TokenIs(c: byte)
    ensures IsTchar(c) <==> IsToken(c)
  {
  }

  lemma HexIs(c: byte)
    ensures IsHex(c) <==> HexValue(c) >= 0
    ensures IsHex(c) ==> HexValue(c) == DigitOf(c)
  {
  }

  lemma {:induction false} DigitsMean(b: seq<byte>, p: nat, i: nat)
    requires p <= i <= |b| && i - p <= 8 && forall k :: p <= k < i ==> IsHex(b[k])
    ensures var r := Digits(b, i, i - p, Size(b[p..i]));
            r.Hex? ==> (forall k :: p <= k < r.at ==> IsHex(b[k])) && r.digits == r.at - p <= 8
                       && r.size == Size(b[p..r.at]) && (r.at < |b| ==> !IsHex(b[r.at]))
    decreases |b| - i
  {
    hide HexValue, IsHex, DigitOf;
    if i < |b| {
      HexIs(b[i]);
      if IsHex(b[i]) && i - p < 8 {
        assert b[p..i + 1][..i - p] == b[p..i];
        DigitsMean(b, p, i + 1);
      }
    }
  }

  lemma {:induction false} MeansDigits(b: seq<byte>, p: nat, i: nat, d: nat)
    requires p <= i <= d < |b| && d - p <= 8 && !IsHex(b[d]) && forall k :: p <= k < d ==> IsHex(b[k])
    ensures Digits(b, i, i - p, Size(b[p..i])) == Hex(d, d - p, Size(b[p..d]))
    decreases d - i
  {
    hide HexValue, IsHex, DigitOf;
    HexIs(b[i]);
    if i < d {
      assert b[p..i + 1][..i - p] == b[p..i];
      MeansDigits(b, p, i + 1, d);
    }
  }

  lemma {:induction false} BlanksMean(b: seq<byte>, i: nat)
    requires i <= |b|
    ensures var e := Blanks(b, i); forall k :: i <= k < e ==> b[k] == 32 || b[k] == 9
    decreases |b| - i
  {
    if i < |b| && (b[i] == 32 || b[i] == 9) {
      BlanksMean(b, i + 1);
    }
  }

  lemma {:induction false} MeansBlanks(b: seq<byte>, i: nat, e: nat)
    requires i <= e < |b| && b[e] != 32 && b[e] != 9 && forall k :: i <= k < e ==> b[k] == 32 || b[k] == 9
    ensures Blanks(b, i) == e
    decreases e - i
  {
    if i < e {
      MeansBlanks(b, i + 1, e);
    }
  }

  lemma {:induction false} LineMeans(b: seq<byte>, i: nat)
    requires LineEnd(b, i).Ends?
    ensures var at := LineEnd(b, i).at;
            i + 2 <= at <= |b| && b[at - 2] == 13 && b[at - 1] == 10 && forall k :: i <= k < at - 2 ==> IsText(b[k])
    decreases |b| - i
  {
    if b[i] != CR {
      LineMeans(b, i + 1);
    }
  }

  lemma {:induction false} MeansLine(b: seq<byte>, i: nat, at: nat)
    requires i + 2 <= at <= |b| && b[at - 2] == 13 && b[at - 1] == 10 && forall k :: i <= k < at - 2 ==> IsText(b[k])
    ensures LineEnd(b, i) == Ends(at)
    decreases at - i
  {
    if i + 2 < at {
      MeansLine(b, i + 1, at);
    }
  }

  /** A chunk passed is one of the grammar, or its last. */
  lemma ChunkMeans(b: seq<byte>, st: State, maxBody: nat)
    requires st.pos <= |b| && !st.trailers && ChunkUnit(b, st, maxBody).Go?
    ensures var next := ChunkUnit(b, st, maxBody).next;
            if next.trailers then next == st.(pos := next.pos, trailers := true) && SizeLine(b, st.pos, next.pos, 0)
            else
              var data := ChunkData(b, st, next);
              && next == st.(pos := next.pos, total := st.total + |data|) && next.total <= maxBody
              && ChunkIs(b, st.pos, next.pos, data)
  {
    hide Digits, Blanks, LineEnd, Size, IsHex, IsText;
    var i := st.pos;
    assert b[i..i] == [] && Size([]) == 0 by {
      NoDigits();
    }
    DigitsMean(b, i, i);
    var hex := Digits(b, i, 0, 0);
    BlanksMean(b, hex.at);
    var e := Blanks(b, hex.at);
    LineMeans(b, e);
    CrLine(b, e);
    assert SizeParts(b, i, hex.at, e, LineEnd(b, e).at, hex.size);
  }

  lemma NoDigits()
    ensures Size([]) == 0
  {
  }

  lemma CrLine(b: seq<byte>, i: nat)
    ensures i < |b| && b[i] == 13 && LineEnd(b, i).Ends? ==> LineEnd(b, i).at == i + 2
  {
  }

  /** The line of a chunk is read as its size. */
  lemma MeansSize(b: seq<byte>, st: State, d: nat, e: nat, at: nat, size: nat, maxBody: nat)
    requires st.pos <= |b| && SizeParts(b, st.pos, d, e, at, size)
    ensures ChunkUnit(b, st, maxBody)
         == if size == 0 then Go(st.(pos := at, trailers := true))
            else if st.total + size > maxBody then Refuse(413)
            else if |b| < at + size + 2 then Wait
            else if b[at + size] != 13 || b[at + size + 1] != 10 then Refuse(400)
            else Go(st.(pos := at + size + 2, total := st.total + size))
  {
    hide Digits, Blanks, LineEnd, Size;
    var i := st.pos;
    assert b[i..i] == [] && Size([]) == 0 by {
      NoDigits();
    }
    assert b[d] == if d < e then b[d] else b[e];
    MeansDigits(b, i, i, d);
    MeansBlanks(b, d, e);
    MeansLine(b, e, at);
  }

  lemma TrailerMeans(b: seq<byte>, st: State)
    requires st.pos <= |b|
    ensures var u := TrailerUnit(b, st);
            && (u.Go? ==> && TrailerIs(b, st.pos, u.next.pos) && st.trailerBytes + (u.next.pos - st.pos) <= 8192
                          && u.next == st.(pos := u.next.pos, trailerBytes := st.trailerBytes + (u.next.pos - st.pos)))
            && (u.Finish? ==> u.next == st.(pos := st.pos + 2) && b[st.pos] == 13 && b[st.pos + 1] == 10)
  {
    hide LineEnd, IsTchar, IsToken, IsText, Colon;
    if LineEnd(b, st.pos).Ends? {
      LineMeans(b, st.pos);
      var at := LineEnd(b, st.pos).at;
      var colon := Colon(b, st.pos, at - 2);
      forall k | st.pos <= k < colon
        ensures IsTchar(b[k]) <==> IsToken(b[k])
      {
        TokenIs(b[k]);
      }
    }
  }

  lemma MeansTrailer(b: seq<byte>, st: State, at: nat)
    requires TrailerIs(b, st.pos, at) && st.trailerBytes + (at - st.pos) <= 8192
    ensures TrailerUnit(b, st) == Go(st.(pos := at, trailerBytes := st.trailerBytes + (at - st.pos)))
  {
    hide LineEnd, IsTchar, IsToken, Colon;
    MeansLine(b, st.pos, at);
    var c :| st.pos < c < at - 2 && b[c] == 58 && forall k :: st.pos <= k < c ==> IsToken(b[k]);
    forall k | st.pos <= k < c
      ensures b[k] != 58 && IsTchar(b[k])
    {
      TokenIs(b[k]);
      NoColonToken();
    }
    ColonAt(b, st.pos, c, at - 2);
  }

  lemma NoColonToken()
    ensures !IsToken(58)
  {
  }

  lemma {:induction false} ColonAt(b: seq<byte>, i: nat, c: nat, end: nat)
    requires i <= c < end <= |b| && b[c] == 58 && forall k :: i <= k < c ==> b[k] != 58
    ensures Colon(b, i, end) == c
    decreases c - i
  {
    if i < c {
      ColonAt(b, i + 1, c, end);
    }
  }

  lemma {:induction false} TrailersMean(b: seq<byte>, st: State, maxBody: nat)
    requires st.pos <= |b| && st.trailers && st.trailerBytes <= 8192 && Run(b, st, maxBody).Done?
    ensures TrailersAre(b, st.pos, Run(b, st, maxBody).at.pos, 8192 - st.trailerBytes)
    decreases |b| - st.pos
  {
    hide TrailerUnit, TrailerIs;
    TrailerMeans(b, st);
    var u := TrailerUnit(b, st);
    if u.Go? {
      TrailersMean(b, u.next, maxBody);
    }
  }

  lemma {:induction false} MeansTrailers(b: seq<byte>, st: State, j: nat, maxBody: nat)
    requires st.pos <= |b| && st.trailers && st.trailerBytes <= 8192
    requires TrailersAre(b, st.pos, j, 8192 - st.trailerBytes)
    ensures Run(b, st, maxBody).Done? && Run(b, st, maxBody).at.pos == j
    decreases |b| - st.pos
  {
    hide TrailerUnit, TrailerIs;
    var i, room := st.pos, 8192 - st.trailerBytes;
    if i + 2 == j && b[i] == 13 && b[i + 1] == 10 {
      EmptyLine(b, st);
    } else {
      var at: nat :| i < at <= |b| && at - i <= room && TrailerIs(b, i, at) && TrailersAre(b, at, j, room - (at - i));
      MeansTrailer(b, st, at);
      MeansTrailers(b, st.(pos := at, trailerBytes := st.trailerBytes + (at - i)), j, maxBody);
    }
  }

  lemma EmptyLine(b: seq<byte>, st: State)
    requires st.pos + 2 <= |b| && b[st.pos] == 13 && b[st.pos + 1] == 10
    ensures TrailerUnit(b, st) == Finish(st.(pos := st.pos + 2))
  {
  }

  /** What the scanner accepts is a chunked body, and its data is what it holds. */
  lemma {:induction false} DoneIs(b: seq<byte>, st: State, maxBody: nat)
    requires st.pos <= |b| && !st.trailers && st.trailerBytes == 0 && st.total <= maxBody && Run(b, st, maxBody).Done?
    ensures BodyIs(b, st.pos, Run(b, st, maxBody).at.pos, Payload(b, st, maxBody))
    ensures st.total + |Payload(b, st, maxBody)| <= maxBody
    decreases |b| - st.pos
  {
    hide ChunkUnit, SizeLine, ChunkIs, TrailersAre, ChunkData;
    var u := ChunkUnit(b, st, maxBody);
    if u.Go? {
      ChunkMeans(b, st, maxBody);
      if u.next.trailers {
        TrailersMean(b, u.next, maxBody);
        assert Payload(b, u.next, maxBody) == [];
        NoData(b, st, u.next);
      } else {
        DoneIs(b, u.next, maxBody);
        var first, more := ChunkData(b, st, u.next), Payload(b, u.next, maxBody);
        assert (first + more)[..|first|] == first && (first + more)[|first|..] == more;
      }
    }
  }

  lemma NoData(b: seq<byte>, st: State, next: State)
    requires next.trailers && next.pos <= |b|
    ensures ChunkData(b, st, next) == []
  {
  }

  /** And every such body within the limit is accepted. */
  lemma {:induction false} IsDone(b: seq<byte>, st: State, j: nat, data: seq<byte>, maxBody: nat)
    requires st.pos <= |b| && !st.trailers && st.trailerBytes == 0 && BodyIs(b, st.pos, j, data)
    requires st.total + |data| <= maxBody
    ensures Run(b, st, maxBody).Done? && Run(b, st, maxBody).at.pos == j && Payload(b, st, maxBody) == data
    decreases |b| - st.pos
  {
    hide ChunkUnit, SizeLine, ChunkIs, TrailersAre, ChunkData;
    var i := st.pos;
    if data == [] && exists at: nat :: i < at <= |b| && SizeLine(b, i, at, 0) && TrailersAre(b, at, j, 8192) {
      var at: nat :| i < at <= |b| && SizeLine(b, i, at, 0) && TrailersAre(b, at, j, 8192);
      LastDone(b, st, at, j, maxBody);
    } else {
      var k: nat, n: nat :| i < k <= |b| && n <= |data| && ChunkIs(b, i, k, data[..n]) && BodyIs(b, k, j, data[n..]);
      var next := st.(pos := k, total := st.total + n);
      PassesChunk(b, st, k, data[..n], maxBody);
      IsDone(b, next, j, data[n..], maxBody);
      assert data[..n] + data[n..] == data;
    }
  }

  lemma LastDone(b: seq<byte>, st: State, at: nat, j: nat, maxBody: nat)
    requires st.pos < at <= |b| && !st.trailers && st.trailerBytes == 0 && SizeLine(b, st.pos, at, 0)
    requires TrailersAre(b, at, j, 8192)
    ensures Run(b, st, maxBody).Done? && Run(b, st, maxBody).at.pos == j && Payload(b, st, maxBody) == []
  {
    hide ChunkUnit, SizeParts, TrailersAre, ChunkData, Run;
    var d, e :| SizeParts(b, st.pos, d, e, at, 0);
    MeansSize(b, st, d, e, at, 0, maxBody);
    var next := st.(pos := at, trailers := true);
    MeansTrailers(b, next, j, maxBody);
    NoData(b, st, next);
    RunIs(b, st, maxBody);
  }

  /** A chunk of the grammar is passed with its data. */
  lemma PassesChunk(b: seq<byte>, st: State, k: nat, data: seq<byte>, maxBody: nat)
    requires st.pos < k <= |b| && !st.trailers && ChunkIs(b, st.pos, k, data) && st.total + |data| <= maxBody
    ensures var next := st.(pos := k, total := st.total + |data|);
            ChunkUnit(b, st, maxBody) == Go(next) && ChunkData(b, st, next) == data
  {
    hide ChunkUnit, SizeParts, ChunkData;
    var at := k - |data| - 2;
    var d, e :| SizeParts(b, st.pos, d, e, at, |data|);
    MeansSize(b, st, d, e, at, |data|, maxBody);
    DataIs(b, st, st.(pos := k, total := st.total + |data|), data);
  }

  lemma DataIs(b: seq<byte>, st: State, next: State, data: seq<byte>)
    requires next.pos <= |b| && !next.trailers && next.total == st.total + |data| && next.pos >= |data| + 2
    requires b[next.pos - |data| - 2..next.pos - 2] == data
    ensures ChunkData(b, st, next) == data
  {
  }

  /** A buffer is accepted up to j with that data exactly when a chunked body with it, within
      the limits, is at its front. */
  lemma Accepts(b: seq<byte>, i: nat, j: nat, data: seq<byte>, maxBody: nat)
    requires i <= |b|
    ensures var st := State(i, 0, false, 0);
            BodyIs(b, i, j, data) && |data| <= maxBody
            <==> Run(b, st, maxBody).Done? && Run(b, st, maxBody).at.pos == j && Payload(b, st, maxBody) == data
  {
    hide BodyIs, Run, Payload;
    var st := State(i, 0, false, 0);
    if BodyIs(b, i, j, data) && |data| <= maxBody {
      IsDone(b, st, j, data, maxBody);
    }
    if Run(b, st, maxBody).Done? {
      DoneIs(b, st, maxBody);
    }
  }
}
