/** Request heads as sections 2.2, 5 and 6.3 of RFC 9112 write them: what framing makes of
    any buffer that holds one, and of every request that was written as a message. */
module Heads {
  import opened Basics
  import opened Chunked
  import opened ChunkedBody
  import opened Fields
  import opened Framing

  /** The bytes spell the text, which is in lower case, in either case. */
  predicate Spells(b: seq<byte>, t: string) {
    && |b| == |t|
    && forall k :: 0 <= k < |b| ==> b[k] == t[k] as int || ('a' <= t[k] <= 'z' && b[k] == t[k] as int - 32)
  }

  predicate LowerCase(t: string) {
    forall k :: 0 <= k < |t| ==> t[k] as int < 128 && !('A' <= t[k] <= 'Z')
  }

  predicate CrlfIs(h: seq<byte>, i: nat) {
    i + 2 <= |h| && h[i] == 13 && h[i + 1] == 10
  }

  predicate Blank(c: byte) {
    c == 32 || c == 9
  }

  /** The head at the front of a buffer: up to its first empty line, which may be its second. */
  ghost predicate HeadIs(b: seq<byte>, end: nat) {
    && 4 <= end <= |b| && CrlfIs(b, end - 4) && CrlfIs(b, end - 2)
    && forall k: nat :: k + 4 < end ==> !(CrlfIs(b, k) && CrlfIs(b, k + 2))
  }

  /** The field line from i to j of a head: after the end of a line, a name, a colon and a
      value with blanks around it, to the end of the line. */
  ghost predicate FieldLine(h: seq<byte>, i: nat, j: nat, name: string, s: Span) {
    && 2 <= i && CrlfIs(h, i - 2) && i <= j && CrlfIs(h, j) && (forall k :: i <= k < j ==> !CrlfIs(h, k))
    && i + |name| < s.start && s.start + s.len <= j
    && Spells(h[i..i + |name|], name) && h[i + |name|] == 58
    && (forall k :: i + |name| < k < s.start ==> Blank(h[k]))
    && (forall k :: s.start + s.len <= k < j ==> Blank(h[k]))
    && (s.len > 0 ==> !Blank(h[s.start]) && !Blank(h[s.start + s.len - 1]))
  }

  /** A line of that name starts at i. */
  ghost predicate Starts(h: seq<byte>, i: nat, name: string) {
    exists j, s :: FieldLine(h, i, j, name, s)
  }

  /** The first line of that name has that value. */
  ghost predicate FirstIs(h: seq<byte>, name: string, value: seq<byte>) {
    exists i, j, s :: FirstAt(h, i, j, name, s) && value == h[s.start..s.start + s.len]
  }

  ghost predicate FirstAt(h: seq<byte>, i: nat, j: nat, name: string, s: Span)
    ensures FirstAt(h, i, j, name, s) ==> s.start + s.len <= |h|
  {
    FieldLine(h, i, j, name, s) && forall k: nat :: k < i ==> !Starts(h, k, name)
  }

  ghost predicate Has(h: seq<byte>, name: string) {
    exists i :: Starts(h, i, name)
  }

  /** The end of a line, when one is coming. */
  lemma {:induction false} LineEnds(h: seq<byte>, i: nat, m: nat)
    requires i <= m && CrlfIs(h, m)
    ensures CrlfIs(h, CrlfAt(h, i)) && CrlfAt(h, i) <= m && forall k :: i <= k < CrlfAt(h, i) ==> !CrlfIs(h, k)
    decreases m - i
  {
    if !CrlfIs(h, i) {
      LineEnds(h, i + 1, m);
    }
  }

  lemma {:induction false} LeftIs(h: seq<byte>, s: nat, e: nat)
    requires s <= e <= |h|
    ensures var r := SkipLeft(h, s, e); (forall k :: s <= k < r ==> Blank(h[k])) && (r < e ==> !Blank(h[r]))
    decreases e - s
  {
    if s < e && Blank(h[s]) {
      LeftIs(h, s + 1, e);
    }
  }

  lemma {:induction false} RightIs(h: seq<byte>, s: nat, e: nat)
    requires s <= e <= |h|
    ensures var r := SkipRight(h, s, e); (forall k :: r <= k < e ==> Blank(h[k])) && (s < r ==> !Blank(h[r - 1]))
    decreases e - s
  {
    if s < e && Blank(h[e - 1]) {
      RightIs(h, s, e - 1);
    }
  }

  lemma LowerSpells(b: seq<byte>, t: string, name: seq<byte>)
    requires LowerCase(t) && name == Ascii(t) && |b| == |t|
    ensures Spells(b, t) <==> forall k :: 0 <= k < |b| ==> Lower(b[k]) == name[k]
  {
    forall k | 0 <= k < |b|
      ensures Lower(b[k]) == name[k] <==> b[k] == t[k] as int || ('a' <= t[k] <= 'z' && b[k] == t[k] as int - 32)
    {
      assert name[k] == t[k] as int;
    }
  }

  /** The line at i is one of that name exactly when the code says so, and the value it
      finds is the line's. */
  lemma LineIs(h: seq<byte>, i: nat, t: string, name: seq<byte>)
    requires LowerCase(t) && name == Ascii(t) && 2 <= i && CrlfIs(h, i - 2) && CrlfIs(h, CrlfAt(h, i))
    requires forall k :: i <= k < CrlfAt(h, i) ==> !CrlfIs(h, k)
    ensures Named(h, i, CrlfAt(h, i), name) <==> Starts(h, i, t)
    ensures Named(h, i, CrlfAt(h, i), name) ==>
              FieldLine(h, i, CrlfAt(h, i), t, ValueAt(h, i, CrlfAt(h, i), |name|))
  {
    hide Named, SkipLeft, SkipRight, CrlfAt, LowerCase, Ascii, Spells;
    var j := CrlfAt(h, i);
    NameIs(h, i, j, t, name);
    assert |name| == |t| by {
      SameLength(t);
    }
    if i + |name| < j {
      LeftIs(h, i + |name| + 1, j);
      RightIs(h, SkipLeft(h, i + |name| + 1, j), j);
    }
    if Named(h, i, j, name) {
      assert FieldLine(h, i, j, t, ValueAt(h, i, j, |name|));
    }
    if Starts(h, i, t) {
      var j', s :| FieldLine(h, i, j', t, s);
      assert j' == j;
    }
  }

  lemma SameLength(t: string)
    ensures |Ascii(t)| == |t|
  {
  }

  lemma NameIs(h: seq<byte>, i: nat, j: nat, t: string, name: seq<byte>)
    requires LowerCase(t) && name == Ascii(t) && j <= |h|
    ensures Named(h, i, j, name) <==>
              i + |t| < j && Spells(h[i..i + |t|], t) && h[i + |t|] == 58
  {
    hide Lower, LowerCase, Ascii, Spells;
    SameLength(t);
    if i + |t| < j {
      var part := h[i..i + |t|];
      LowerSpells(part, t, name);
      assert forall k :: 0 <= k < |t| ==> part[k] == h[i + k];
    }
  }

  lemma StartsIs(h: seq<byte>, i: nat, name: string)
    requires Starts(h, i, name)
    ensures 2 <= i && CrlfIs(h, i - 2) && i + 2 < |h|
  {
  }

  /** The empty line of a head is not the end of a line before it. */
  lemma Sooner(h: seq<byte>, i: nat, j: nat)
    requires HeadIs(h, |h|) && 2 <= i < j && CrlfIs(h, i - 2) && CrlfIs(h, j)
    requires forall k :: i <= k < j ==> !CrlfIs(h, k)
    ensures j < |h| - 2
  {
  }

  /** Between two line ends no line starts. */
  lemma NoneBetween(h: seq<byte>, i: nat, j: nat, k: nat, name: string)
    requires 2 <= i && CrlfIs(h, i - 2) && CrlfIs(h, j) && i < k < j + 2 && forall m :: i <= m < j ==> !CrlfIs(h, m)
    ensures !Starts(h, k, name)
  {
    hide Starts, FieldLine;
    if Starts(h, k, name) {
      StartsIs(h, k, name);
    }
  }

  /** The search from i on finds the first line of the name from there on. */
  lemma {:induction false} FoundFrom(h: seq<byte>, i: nat, t: string, name: seq<byte>)
    requires HeadIs(h, |h|) && LowerCase(t) && name == Ascii(t) && 2 <= i <= |h| - 2 && CrlfIs(h, i - 2)
    ensures var r := FieldFrom(h, i, name);
            if r.Some? then exists p, j :: p >= i && FieldLine(h, p, j, t, r.value)
                                           && forall k: nat :: i <= k < p ==> !Starts(h, k, t)
            else forall k: nat :: i <= k ==> !Starts(h, k, t)
    decreases |h| - i
  {
    hide Named, ValueAt, FieldLine, Starts, LowerCase, Ascii;
    LineEnds(h, i, |h| - 2);
    LineIs(h, i, t, name);
    var j := CrlfAt(h, i);
    if j == i {
      assert i == |h| - 2;
      forall k: nat | i <= k
        ensures !Starts(h, k, t)
      {
        AtEnd(h, k, t);
      }
    } else if !Named(h, i, j, name) {
      Sooner(h, i, j);
      FoundFrom(h, j + 2, t, name);
      forall k: nat | i < k < j + 2
        ensures !Starts(h, k, t)
      {
        NoneBetween(h, i, j, k, t);
      }
    }
  }

  lemma AtEnd(h: seq<byte>, k: nat, t: string)
    requires HeadIs(h, |h|) && |h| - 2 <= k
    ensures !Starts(h, k, t)
  {
    hide Starts, FieldLine;
    if Starts(h, k, t) {
      StartsIs(h, k, t);
    }
  }

  /** The search of a head finds the first field of the name, and nothing exactly when it
      has none. */
  lemma FieldIs(h: seq<byte>, t: string, name: seq<byte>)
    requires HeadIs(h, |h|) && LowerCase(t) && name == Ascii(t)
    ensures Field(h, name).Some? <==> Has(h, t)
    ensures var r := Field(h, name); r.Some? ==> FirstIs(h, t, h[r.value.start..r.value.start + r.value.len])
  {
    hide LowerCase, Ascii, FieldFrom, FieldLine, Starts, CrlfAt;
    LineEnds(h, 0, |h| - 4);
    var j := CrlfAt(h, 0);
    FoundFrom(h, j + 2, t, name);
    forall k: nat | k < j + 2
      ensures !Starts(h, k, t)
    {
      NotBefore(h, j, k, t);
    }
    if Field(h, name).Some? {
      var s := Field(h, name).value;
      var p, q :| p >= j + 2 && FieldLine(h, p, q, t, s) && forall k: nat :: j + 2 <= k < p ==> !Starts(h, k, t);
      StartsHere(h, p, q, t, s);
      assert FirstAt(h, p, q, t, s);
    }
  }

  lemma StartsHere(h: seq<byte>, i: nat, j: nat, t: string, s: Span)
    requires FieldLine(h, i, j, t, s)
    ensures Starts(h, i, t)
  {
  }

  /** The first line of a head is not a field line. */
  lemma NotBefore(h: seq<byte>, j: nat, k: nat, t: string)
    requires CrlfIs(h, j) && k < j + 2 && forall m :: 0 <= m < j ==> !CrlfIs(h, m)
    ensures !Starts(h, k, t)
  {
    hide Starts, FieldLine;
    if Starts(h, k, t) {
      StartsIs(h, k, t);
    }
  }

  /** The value of the first line of a name is one. */
  lemma FirstUnique(h: seq<byte>, t: string, v: seq<byte>, w: seq<byte>)
    requires FirstIs(h, t, v) && FirstIs(h, t, w)
    ensures v == w
  {
    hide Starts, FieldLine;
    var i, j, s :| FirstAt(h, i, j, t, s) && v == h[s.start..s.start + s.len];
    var i', j', s' :| FirstAt(h, i', j', t, s') && w == h[s'.start..s'.start + s'.len];
    StartsHere(h, i, j, t, s);
    StartsHere(h, i', j', t, s');
    assert i == i';
    SameValue(h, i, j, j', t, s, s');
  }

  lemma SameValue(h: seq<byte>, i: nat, j: nat, j': nat, t: string, s: Span, s': Span)
    requires FieldLine(h, i, j, t, s) && FieldLine(h, i, j', t, s')
    ensures h[s.start..s.start + s.len] == h[s'.start..s'.start + s'.len]
  {
    hide Spells;
    assert j == j';
  }

  /** Digits only, and at least one. */
  ghost predicate Number(v: seq<byte>) {
    v != [] && AllDigits(v)
  }

  lemma NameOfTe()
    ensures TRANSFER_ENCODING == Ascii("transfer-encoding") && LowerCase("transfer-encoding")
  {
  }

  lemma NameOfCl()
    ensures CONTENT_LENGTH == Ascii("content-length") && LowerCase("content-length")
  {
  }

  lemma NameOfExpect()
    ensures EXPECT == Ascii("expect") && LowerCase("expect")
  {
  }

  lemma ChunkedSpells(b: seq<byte>)
    ensures SameText(b, CHUNKED) <==> Spells(b, "chunked")
  {
    hide Lower, Spells;
    assert CHUNKED == Ascii("chunked") && LowerCase("chunked");
    if |b| == 7 {
      LowerSpells(b, "chunked", CHUNKED);
    } else {
      LengthOf(b, "chunked");
    }
  }

  lemma ContinueSpells(b: seq<byte>)
    ensures SameText(b, CONTINUE) <==> Spells(b, "100-continue")
  {
    hide Lower, Spells;
    assert CONTINUE == Ascii("100-continue") && LowerCase("100-continue");
    if |b| == 12 {
      LowerSpells(b, "100-continue", CONTINUE);
    } else {
      LengthOf(b, "100-continue");
    }
  }

  lemma LengthOf(b: seq<byte>, t: string)
    ensures Spells(b, t) ==> |b| == |t|
  {
  }

  /** A complete head is what the search for its end finds. */
  lemma HeadEnds(b: seq<byte>, end: nat)
    requires HeadIs(b, end)
    ensures HeadEnd(b, 3) == Some(end) && HeadIs(b[..end], end)
  {
    hide HeadEnd;
    var h, r := b[..end], HeadEnd(b, 3);
    assert forall k: nat :: k + 2 <= end ==> CrlfIs(h, k) == CrlfIs(b, k);
    assert Terminates(b, end - 1);
    if r.Some? {
      var k := r.value - 4;
      assert Terminates(b, k + 3);
      assert CrlfIs(b, k) && CrlfIs(b, k + 2);
    }
  }

  /** The value of the first field of a name is what the search finds. */
  lemma ValueIs(h: seq<byte>, t: string, name: seq<byte>, value: seq<byte>)
    requires HeadIs(h, |h|) && LowerCase(t) && name == Ascii(t) && FirstIs(h, t, value)
    ensures var r := Field(h, name); r.Some? && value == h[r.value.start..r.value.start + r.value.len]
  {
    hide Field, FirstIs, Has, HeadIs, Ascii, LowerCase;
    FieldIs(h, t, name);
    FirstHas(h, t, value);
    var s := Field(h, name).value;
    FirstUnique(h, t, value, h[s.start..s.start + s.len]);
  }

  /** What framing makes of a buffer that holds a complete head, by section 6.3 of RFC 9112:
      a head with both framing fields, with a transfer coding other than chunked, or with a
      length that is not a number is refused. */
  lemma Refuses(b: seq<byte>, end: nat, lim: Limits)
    requires HeadIs(b, end)
    ensures var (h, v) := (b[..end], Frame(b, Seeking(0), lim));
            && (end > lim.maxHeader ==> v == Rejected(431))
            && (end <= lim.maxHeader && Has(h, "transfer-encoding") && Has(h, "content-length") ==> v == Rejected(400))
    ensures forall value :: FirstIs(b[..end], "transfer-encoding", value) && !Spells(value, "chunked") ==>
              Frame(b, Seeking(0), lim) == Rejected(if end > lim.maxHeader then 431 else 400)
    ensures forall value :: FirstIs(b[..end], "content-length", value) && !Number(value) ==>
              Frame(b, Seeking(0), lim) == Rejected(if end > lim.maxHeader then 431 else 400)
  {
    hide Field, FirstIs, Has, HeadIs, HeadEnd, Run, SameText, AllDigits, Spells;
    HeadEnds(b, end);
    var h := b[..end];
    NameOfTe();
    NameOfCl();
    FieldIs(h, "transfer-encoding", TRANSFER_ENCODING);
    FieldIs(h, "content-length", CONTENT_LENGTH);
    forall value | FirstIs(h, "transfer-encoding", value)
      ensures Field(h, TRANSFER_ENCODING).Some?
      ensures var s := Field(h, TRANSFER_ENCODING).value;
              value == h[s.start..s.start + s.len] && (SameText(value, CHUNKED) <==> Spells(value, "chunked"))
    {
      ValueIs(h, "transfer-encoding", TRANSFER_ENCODING, value);
      ChunkedSpells(value);
    }
    forall value | FirstIs(h, "content-length", value)
      ensures Field(h, CONTENT_LENGTH).Some?
      ensures var s := Field(h, CONTENT_LENGTH).value; value == h[s.start..s.start + s.len]
    {
      ValueIs(h, "content-length", CONTENT_LENGTH, value);
    }
  }

  lemma FirstHas(h: seq<byte>, t: string, value: seq<byte>)
    requires FirstIs(h, t, value)
    ensures Has(h, t)
  {
    hide Starts, FieldLine;
    var i, j, s :| FirstAt(h, i, j, t, s) && value == h[s.start..s.start + s.len];
    StartsHere(h, i, j, t, s);
  }

  /** Any other head is not: without either field the message is the head, and one field
      alone says where its body ends. */
  lemma Takes(b: seq<byte>, end: nat, lim: Limits)
    requires HeadIs(b, end) && end <= lim.maxHeader
    ensures var h := b[..end]; var te, cl := Has(h, "transfer-encoding"), Has(h, "content-length");
            !te && !cl ==> Frame(b, Seeking(0), lim) == Whole(end)
    ensures forall value :: FirstIs(b[..end], "transfer-encoding", value) && Spells(value, "chunked")
                            && !Has(b[..end], "content-length") ==>
              Frame(b, Seeking(0), lim) == Body(b, Chunks(State(end, 0, false, 0)), lim)
    ensures forall value :: FirstIs(b[..end], "content-length", value) && Number(value)
                            && !Has(b[..end], "transfer-encoding") ==>
              Frame(b, Seeking(0), lim)
              == if Decimal(value) > lim.maxBody then Rejected(413)
                 else if |b| < end + Decimal(value) then NeedMore(Counting(end, Decimal(value)))
                 else Whole(end + Decimal(value))
  {
    hide Field, FirstIs, Has, HeadIs, HeadEnd, Run, SameText, AllDigits, Spells, Decimal;
    HeadEnds(b, end);
    var h := b[..end];
    NameOfTe();
    NameOfCl();
    FieldIs(h, "transfer-encoding", TRANSFER_ENCODING);
    FieldIs(h, "content-length", CONTENT_LENGTH);
    forall value | FirstIs(h, "transfer-encoding", value)
      ensures Field(h, TRANSFER_ENCODING).Some?
      ensures var s := Field(h, TRANSFER_ENCODING).value;
              value == h[s.start..s.start + s.len] && (SameText(value, CHUNKED) <==> Spells(value, "chunked"))
    {
      ValueIs(h, "transfer-encoding", TRANSFER_ENCODING, value);
      ChunkedSpells(value);
    }
    forall value | FirstIs(h, "content-length", value)
      ensures Field(h, CONTENT_LENGTH).Some?
      ensures var s := Field(h, CONTENT_LENGTH).value; value == h[s.start..s.start + s.len]
    {
      ValueIs(h, "content-length", CONTENT_LENGTH, value);
    }
  }

  /** A head asks for a 100 (Continue) exactly when its first Expect field says so. */
  lemma ExpectsIs(h: seq<byte>)
    requires HeadIs(h, |h|)
    ensures Expects(h) <==> exists value :: FirstIs(h, "expect", value) && Spells(value, "100-continue")
  {
    hide Field, FirstIs, Has, HeadIs, SameText, Spells;
    NameOfExpect();
    FieldIs(h, "expect", EXPECT);
    if Field(h, EXPECT).Some? {
      var s := Field(h, EXPECT).value;
      var found := h[s.start..s.start + s.len];
      ContinueSpells(found);
      forall value | FirstIs(h, "expect", value)
        ensures value == found
      {
        FirstUnique(h, "expect", value, found);
      }
    } else {
      forall value | FirstIs(h, "expect", value)
        ensures false
      {
        FirstHas(h, "expect", value);
      }
    }
  }

  /** The ways in which two readers could disagree on where a request ends. */
  ghost predicate Ambiguous(h: seq<byte>) {
    || (Has(h, "transfer-encoding") && Has(h, "content-length"))
    || (exists value :: FirstIs(h, "transfer-encoding", value) && !Spells(value, "chunked"))
    || (exists value :: FirstIs(h, "content-length", value) && !Number(value))
  }

  /** However it arrives, such a request is refused: no run of reads finds its end, and none
      that has its head waits for more of it. */
  lemma NeverFramed(bs: seq<seq<byte>>, end: nat, lim: Limits)
    requires bs != [] && Growing(bs) && HeadIs(bs[|bs| - 1], end) && Ambiguous(bs[|bs| - 1][..end])
    ensures FeedFrame(bs, Seeking(0), lim).Rejected?
  {
    hide Has, FirstIs, HeadIs, Frame, FeedFrame;
    Refuses(bs[|bs| - 1], end, lim);
    FramingIndependent(bs, Seeking(0), lim);
  }

  /** A field of a request as its sender writes it. */
  datatype Entry = Entry(name: seq<byte>, value: seq<byte>) {
    ghost predicate Proper() {
      && name != [] && (forall k :: 0 <= k < |name| ==> name[k] != 13 && name[k] != 58)
      && (forall k :: 0 <= k < |value| ==> value[k] != 13)
    }

    ghost predicate Plain() {
      Proper() && !Spells(name, "content-length") && !Spells(name, "transfer-encoding")
    }
  }

  /** How its sender frames a body, and the names as it writes them. */
  datatype Framed =
    | Nothing
    | Sized(name: seq<byte>, data: seq<byte>)
    | InPieces(name: seq<byte>, coding: seq<byte>, chunks: seq<seq<byte>>)

  /** A request: its first line, the fields before and after the one that frames its body. */
  datatype Request = Request(line: seq<byte>, before: seq<Entry>, framed: Framed, after: seq<Entry>) {
    function Entries(): seq<Entry> {
      before + FramingEntry(framed) + after
    }

    /** No byte in it ends a line, no name holds a colon, and only that field frames it. */
    ghost predicate Proper() {
      && (framed.Sized? ==> Spells(framed.name, "content-length"))
      && (framed.InPieces? ==> Spells(framed.name, "transfer-encoding") && Spells(framed.coding, "chunked"))
      && (forall k :: 0 <= k < |line| ==> line[k] != 13)
      && (forall k :: 0 <= k < |before| ==> before[k].Plain())
      && (forall k :: 0 <= k < |after| ==> after[k].Plain())
    }
  }

  function FramingEntry(f: Framed): seq<Entry> {
    match f
    case Nothing => []
    case Sized(name, data) => [Entry(name, DecimalText(|data|))]
    case InPieces(name, coding, _) => [Entry(name, coding)]
  }

  function DecimalText(n: nat): (s: seq<byte>)
    ensures s != []
  {
    if n < 10 then [48 + n] else DecimalText(n / 10) + [48 + n % 10]
  }

  function EntryText(e: Entry): seq<byte> {
    e.name + [58, 32] + e.value + [13, 10]
  }

  /** The fields and the empty line after them. */
  function FieldsText(es: seq<Entry>): (t: seq<byte>)
    ensures |t| >= 2
  {
    if es == [] then [13, 10] else EntryText(es[0]) + FieldsText(es[1..])
  }

  function HeadText(r: Request): seq<byte> {
    r.line + [13, 10] + FieldsText(r.Entries())
  }

  function BodyText(f: Framed): seq<byte> {
    match f
    case Nothing => []
    case Sized(_, data) => data
    case InPieces(_, _, chunks) => Encode(chunks)
  }

  lemma {:induction false} ReadsDecimal(n: nat)
    ensures AllDigits(DecimalText(n)) && Decimal(DecimalText(n)) == n
  {
    if n >= 10 {
      ReadsDecimal(n / 10);
      var t := DecimalText(n / 10);
      assert DecimalText(n)[..|t|] == t;
    } else {
      assert DecimalText(n)[..0] == [] && Decimal([]) == 0;
    }
  }

  lemma {:induction false} NoEndBetween(b: seq<byte>, i: nat, j: nat)
    requires i <= j <= |b| && forall k :: i <= k < j ==> !Terminates(b, k)
    ensures HeadEnd(b, i) == HeadEnd(b, j)
    decreases j - i
  {
    if i < j {
      NoEndBetween(b, i + 1, j);
    }
  }

  /** Where the parts of a field stand. */
  lemma EntryBytes(pre: seq<byte>, e: Entry, rest: seq<byte>)
    ensures var (b, i) := (pre + EntryText(e) + rest, |pre|);
            var j := i + |e.name| + 2 + |e.value|;
            && |pre + EntryText(e)| == j + 2 <= |b| && b[i..i + |e.name|] == e.name && b[i + |e.name|] == 58
            && b[i + |e.name| + 1] == 32 && b[i + |e.name| + 2..j] == e.value && b[j] == 13 && b[j + 1] == 10
            && (i > 0 ==> b[i - 1] == pre[i - 1]) && (i > 1 ==> b[i - 2] == pre[i - 2])
    ensures var (b, i) := (pre + EntryText(e) + rest, |pre|);
            e.Proper() ==> forall k :: i <= k < i + |e.name| + 2 + |e.value| ==> b[k] != 13
  {
    var b, i := pre + EntryText(e) + rest, |pre|;
    var j := i + |e.name| + 2 + |e.value|;
    assert forall k :: 0 <= k < |EntryText(e)| ==> b[i + k] == EntryText(e)[k];
    if e.Proper() {
      forall k | i <= k < j
        ensures b[k] != 13
      {
        assert b[k] == EntryText(e)[k - i];
      }
    }
  }

  /** No head ends in a line, or just after one that is not empty. */
  lemma LineNoEnd(b: seq<byte>, i: nat, j: nat)
    requires i < j && j + 2 <= |b| && (i > 0 ==> b[i - 1] == 10)
    requires b[j] == 13 && forall k :: i <= k < j ==> b[k] != 13
    ensures forall k :: i <= k < j + 2 ==> !Terminates(b, k)
  {
  }

  lemma {:induction false} EndOfHead(pre: seq<byte>, es: seq<Entry>, rest: seq<byte>)
    requires |pre| >= 2 && CrlfIs(pre, |pre| - 2) && forall k :: 0 <= k < |es| ==> es[k].Proper()
    ensures HeadEnd(pre + FieldsText(es) + rest, |pre|) == Some(|pre + FieldsText(es)|)
    decreases |es|
  {
    hide EntryText, HeadEnd, Entry.Proper, Terminates;
    var b, i := pre + FieldsText(es) + rest, |pre|;
    if es == [] {
      LastLine(b, i);
    } else {
      var first, more := EntryText(es[0]), FieldsText(es[1..]);
      EntryBytes(pre, es[0], more + rest);
      Regrouped(pre, first, more, rest);
      EndLater(pre, es[0], more + rest);
      EndOfHead(pre + first, es[1..], rest);
    }
  }

  lemma EndLater(pre: seq<byte>, e: Entry, rest: seq<byte>)
    requires |pre| >= 2 && CrlfIs(pre, |pre| - 2) && e.Proper()
    ensures var (line, b) := (pre + EntryText(e), pre + EntryText(e) + rest);
            |line| >= 2 && CrlfIs(line, |line| - 2) && HeadEnd(b, |pre|) == HeadEnd(b, |line|)
  {
    hide EntryText, HeadEnd, Entry.Proper, Terminates;
    var text := EntryText(e);
    EntryEnds(e);
    TextNoEnd(pre, text, rest);
    LineEnded(pre, e);
  }

  lemma LineEnded(pre: seq<byte>, e: Entry)
    ensures var line := pre + EntryText(e); |line| >= 2 && CrlfIs(line, |line| - 2)
  {
    var t := EntryText(e);
    assert t[|t| - 2] == 13 && t[|t| - 1] == 10;
  }

  lemma EntryEnds(e: Entry)
    requires e.Proper()
    ensures var t := EntryText(e);
            |t| > 2 && t[|t| - 2] == 13 && forall k :: 0 <= k < |t| - 2 ==> t[k] != 13
  {
  }

  lemma TextNoEnd(pre: seq<byte>, t: seq<byte>, rest: seq<byte>)
    requires |pre| >= 2 && pre[|pre| - 1] == 10
    requires |t| > 2 && t[|t| - 2] == 13 && forall k :: 0 <= k < |t| - 2 ==> t[k] != 13
    ensures HeadEnd(pre + t + rest, |pre|) == HeadEnd(pre + t + rest, |pre + t|)
  {
    hide HeadEnd, Terminates;
    var b, i, j := pre + t + rest, |pre|, |pre| + |t| - 2;
    ByteOf(pre, t, rest, j);
    forall k | i <= k < j
      ensures b[k] != 13
    {
      ByteOf(pre, t, rest, k);
    }
    EntryNoEnd(b, i, j);
  }

  lemma ByteOf(pre: seq<byte>, t: seq<byte>, rest: seq<byte>, k: nat)
    requires |pre| <= k < |pre| + |t|
    ensures (pre + t + rest)[k] == t[k - |pre|]
    ensures |pre| > 0 ==> (pre + t + rest)[|pre| - 1] == pre[|pre| - 1]
  {
  }

  /** A line that was written ends no head. */
  lemma EntryNoEnd(b: seq<byte>, i: nat, j: nat)
    requires 2 <= i < j && j + 2 <= |b| && b[i - 1] == 10 && b[j] == 13 && forall k :: i <= k < j ==> b[k] != 13
    ensures HeadEnd(b, i) == HeadEnd(b, j + 2)
  {
    hide HeadEnd;
    LineNoEnd(b, i, j);
    NoEndBetween(b, i, j + 2);
  }

  lemma LastLine(b: seq<byte>, i: nat)
    requires 2 <= i && i + 2 <= |b| && b[i - 2] == 13 && b[i - 1] == 10 && b[i] == 13 && b[i + 1] == 10
    ensures HeadEnd(b, i) == Some(i + 2)
  {
    assert !Terminates(b, i) && Terminates(b, i + 1);
    assert HeadEnd(b, i) == HeadEnd(b, i + 1);
  }

  /** The first entry of a name. */
  function FirstEntry(es: seq<Entry>, t: string): Option<Entry> {
    if es == [] then None else if Spells(es[0].name, t) then Some(es[0]) else FirstEntry(es[1..], t)
  }

  /** No blanks around it. */
  predicate Trim(v: seq<byte>) {
    v != [] ==> !Blank(v[0]) && !Blank(v[|v| - 1])
  }

  /** In lower case, with no colon and no line end. */
  predicate NameText(t: string) {
    LowerCase(t) && forall k :: 0 <= k < |t| ==> t[k] != ':' && t[k] as int != 13
  }

  lemma {:induction false} NextCrlf(h: seq<byte>, i: nat, j: nat)
    requires i <= j && CrlfIs(h, j) && forall k :: i <= k < j ==> h[k] != 13
    ensures CrlfAt(h, i) == j
    decreases j - i
  {
    if i < j {
      NextCrlf(h, i + 1, j);
    }
  }

  lemma EntryNamed(h: seq<byte>, i: nat, e: Entry, t: string, name: seq<byte>)
    requires NameText(t) && name == Ascii(t) && e.Proper()
    requires var j := i + |e.name| + 2 + |e.value|;
             j <= |h| && h[i..i + |e.name|] == e.name && h[i + |e.name|] == 58
    ensures Named(h, i, i + |e.name| + 2 + |e.value|, name) <==> Spells(e.name, t)
  {
    hide Lower;
    var n, j := |e.name|, i + |e.name| + 2 + |e.value|;
    assert forall k :: 0 <= k < n ==> h[i + k] == e.name[k];
    if n == |t| {
      LowerSpells(e.name, t, name);
    } else if |name| < n {
      assert h[i + |name|] == e.name[|name|];
    } else {
      ColonLower();
      assert Lower(h[i + n]) == 58 != name[n];
    }
  }

  /** A step of the search, over a line as it was written. */
  lemma FieldStep(h: seq<byte>, i: nat, e: Entry, t: string, name: seq<byte>)
    requires NameText(t) && name == Ascii(t) && e.Proper()
    requires var (n, j) := (|e.name|, i + |e.name| + 2 + |e.value|);
             && CrlfIs(h, j) && h[i..i + n] == e.name && h[i + n] == 58 && h[i + n + 1] == 32
             && h[i + n + 2..j] == e.value && forall k :: i <= k < j ==> h[k] != 13
    ensures var r := FieldFrom(h, i, name);
            && (!Spells(e.name, t) ==> r == FieldFrom(h, i + |e.name| + 4 + |e.value|, name))
            && (Spells(e.name, t) && e.value != [] && Trim(e.value) ==>
                  r.Some? && h[r.value.start..r.value.start + r.value.len] == e.value)
  {
    hide Named, ValueAt, CrlfAt, NameText, Ascii, Spells;
    var j := i + |e.name| + 2 + |e.value|;
    NextCrlf(h, i, j);
    EntryNamed(h, i, e, t, name);
    if Spells(e.name, t) && e.value != [] && Trim(e.value) {
      SameLength(t);
      LengthOf(e.name, t);
      EntryValue(h, i, e, |e.name|);
    }
  }

  lemma ColonLower()
    ensures Lower(58) == 58
  {
  }

  lemma EntryValue(h: seq<byte>, i: nat, e: Entry, n: nat)
    requires n == |e.name| && Trim(e.value) && e.value != []
    requires var j := i + n + 2 + |e.value|; j <= |h| && h[i + n + 1] == 32 && h[i + n + 2..j] == e.value
    ensures ValueAt(h, i, i + n + 2 + |e.value|, n) == Span(i + n + 2, |e.value|)
  {
    var j := i + n + 2 + |e.value|;
    assert h[i + n + 2] == e.value[0] && h[j - 1] == e.value[|e.value| - 1];
    assert SkipLeft(h, i + n + 1, j) == SkipLeft(h, i + n + 2, j) == i + n + 2;
    assert SkipRight(h, i + n + 2, j) == j;
  }

  /** The search finds the first field of the name, as it was written. */
  lemma {:induction false} ReadsFields(pre: seq<byte>, es: seq<Entry>, t: string, name: seq<byte>)
    requires NameText(t) && name == Ascii(t) && forall k :: 0 <= k < |es| ==> es[k].Proper()
    ensures var (h, found) := (pre + FieldsText(es), FirstEntry(es, t));
            var r := FieldFrom(h, |pre|, name);
            && (found.None? ==> r.None?)
            && (found.Some? && found.value.value != [] && Trim(found.value.value) ==>
                  r.Some? && h[r.value.start..r.value.start + r.value.len] == found.value.value)
    decreases |es|
  {
    hide EntryText, NameText, Ascii, Spells, Entry.Proper, FieldFrom, Trim;
    var h, i := pre + FieldsText(es), |pre|;
    if es == [] {
      NoFields(h, i, name);
    } else {
      var e, first, more := es[0], EntryText(es[0]), FieldsText(es[1..]);
      Assoc(pre, first, more);
      EntryStep(pre, e, more, t, name);
      if !Spells(e.name, t) {
        ReadsFields(pre + first, es[1..], t, name);
      }
    }
  }

  lemma EntryStep(pre: seq<byte>, e: Entry, rest: seq<byte>, t: string, name: seq<byte>)
    requires NameText(t) && name == Ascii(t) && e.Proper()
    ensures var (h, i) := (pre + EntryText(e) + rest, |pre|);
            var r := FieldFrom(h, i, name);
            && (!Spells(e.name, t) ==> r == FieldFrom(h, |pre + EntryText(e)|, name))
            && (Spells(e.name, t) && e.value != [] && Trim(e.value) ==>
                  r.Some? && h[r.value.start..r.value.start + r.value.len] == e.value)
  {
    hide EntryText, NameText, Ascii, Spells, Entry.Proper, FieldFrom, Trim;
    EntryBytes(pre, e, rest);
    FieldStep(pre + EntryText(e) + rest, |pre|, e, t, name);
  }

  lemma NoFields(h: seq<byte>, i: nat, name: seq<byte>)
    requires CrlfIs(h, i)
    ensures FieldFrom(h, i, name).None?
  {
  }

  lemma {:induction false} FirstOf(before: seq<Entry>, e: Entry, after: seq<Entry>, t: string)
    requires (forall k :: 0 <= k < |before| ==> !Spells(before[k].name, t)) && Spells(e.name, t)
    ensures FirstEntry(before + [e] + after, t) == Some(e)
  {
    if before == [] {
      assert ([] + [e] + after)[0] == e;
    } else {
      assert (before + [e] + after)[1..] == before[1..] + [e] + after;
      FirstOf(before[1..], e, after, t);
    }
  }

  lemma {:induction false} NoneOf(es: seq<Entry>, t: string)
    requires forall k :: 0 <= k < |es| ==> !Spells(es[k].name, t)
    ensures FirstEntry(es, t).None?
  {
    if es != [] {
      NoneOf(es[1..], t);
    }
  }

  /** A name in any case has no colon and ends no line, and spells no other. */
  lemma NameFits(name: seq<byte>, t: string)
    requires NameText(t) && Spells(name, t)
    ensures |name| == |t| && forall k :: 0 <= k < |name| ==> name[k] != 13 && name[k] != 58
  {
  }

  lemma CodingFits(coding: seq<byte>)
    requires Spells(coding, "chunked")
    ensures coding != [] && Trim(coding) && forall k :: 0 <= k < |coding| ==> coding[k] != 13
  {
    assert coding[0] in {99, 67} && coding[6] in {100, 68} && NameText("chunked");
    NameFits(coding, "chunked");
  }

  lemma DigitsFit(n: nat)
    ensures Trim(DecimalText(n)) && forall k :: 0 <= k < |DecimalText(n)| ==> DecimalText(n)[k] != 13
  {
    hide DecimalText;
    ReadsDecimal(n);
  }

  lemma NamesAre()
    ensures NameText("transfer-encoding") && NameText("content-length")
  {
  }

  /** The field that frames a request, and what it does not say. */
  lemma FramingIs(r: Request)
    requires r.Proper()
    ensures forall k :: 0 <= k < |FramingEntry(r.framed)| ==>
              var e := FramingEntry(r.framed)[k];
              && e.Proper() && e.value != [] && Trim(e.value)
              && (r.framed.Sized? ==> Spells(e.name, "content-length") && !Spells(e.name, "transfer-encoding"))
              && (r.framed.InPieces? ==> Spells(e.name, "transfer-encoding") && !Spells(e.name, "content-length"))
  {
    hide Spells, DecimalText, Trim, NameText, Entry.Plain;
    NamesAre();
    match r.framed
    case Nothing =>
    case Sized(name, data) =>
      NameFits(name, "content-length");
      LengthOf(name, "transfer-encoding");
      DigitsFit(|data|);
    case InPieces(name, coding, _) =>
      NameFits(name, "transfer-encoding");
      LengthOf(name, "content-length");
      CodingFits(coding);
  }

  /** What a request's head says, as the search finds it. */
  lemma ReadsHead(r: Request)
    requires r.Proper()
    ensures var (h, te, cl) := (HeadText(r), Field(HeadText(r), TRANSFER_ENCODING), Field(HeadText(r), CONTENT_LENGTH));
            match r.framed
            case Nothing => te.None? && cl.None?
            case Sized(_, data) =>
              te.None? && cl.Some? && h[cl.value.start..cl.value.start + cl.value.len] == DecimalText(|data|)
            case InPieces(_, coding, _) =>
              cl.None? && te.Some? && h[te.value.start..te.value.start + te.value.len] == coding
  {
    hide Ascii, Spells, FieldsText, DecimalText, Entry.Proper, FieldFrom, CrlfAt, NameText, Trim;
    var es, pre := r.Entries(), r.line + [13, 10];
    EntriesProper(r);
    FramingIs(r);
    NamesAre();
    NameOfTe();
    NameOfCl();
    FirstLineEnds(r);
    ReadsFields(pre, es, "transfer-encoding", TRANSFER_ENCODING);
    ReadsFields(pre, es, "content-length", CONTENT_LENGTH);
    match r.framed
    case Nothing =>
      NoneOf(es, "transfer-encoding");
      NoneOf(es, "content-length");
    case Sized(_, _) =>
      NoneOf(es, "transfer-encoding");
      FirstOf(r.before, FramingEntry(r.framed)[0], r.after, "content-length");
    case InPieces(_, _, _) =>
      NoneOf(es, "content-length");
      FirstOf(r.before, FramingEntry(r.framed)[0], r.after, "transfer-encoding");
  }

  lemma EntriesProper(r: Request)
    requires r.Proper()
    ensures forall k :: 0 <= k < |r.Entries()| ==> r.Entries()[k].Proper()
  {
    hide Ascii, Spells, DecimalText, Entry.Proper, Trim, NameText;
    FramingIs(r);
    PlainProper(r.before);
    PlainProper(r.after);
  }

  lemma PlainProper(es: seq<Entry>)
    requires forall k :: 0 <= k < |es| ==> es[k].Plain()
    ensures forall k :: 0 <= k < |es| ==> es[k].Proper()
    ensures forall k :: 0 <= k < |es| ==>
              !Spells(es[k].name, "content-length") && !Spells(es[k].name, "transfer-encoding")
  {
  }

  lemma FirstLineEnds(r: Request)
    requires r.Proper()
    ensures CrlfAt(HeadText(r), 0) == |r.line|
  {
    hide FieldsText, Entry.Plain;
    var h := HeadText(r);
    assert forall k :: 0 <= k < |r.line| ==> h[k] == r.line[k];
    NextCrlf(h, 0, |r.line|);
  }

  /** And where it ends. */
  lemma HeadTextEnds(r: Request, rest: seq<byte>)
    requires r.Proper()
    ensures HeadEnd(HeadText(r) + rest, 3) == Some(|HeadText(r)|)
  {
    hide FieldsText, Entry.Proper, Entry.Plain, HeadEnd;
    var b, pre := HeadText(r) + rest, r.line + [13, 10];
    EntriesProper(r);
    assert forall k :: 0 <= k < |pre| ==> b[k] == pre[k];
    assert forall k :: 0 <= k < |r.line| ==> b[k] == r.line[k];
    LineTextEnds(b, |r.line|);
    EndOfHead(pre, r.Entries(), rest);
  }

  lemma LineTextEnds(b: seq<byte>, j: nat)
    requires j + 4 <= |b| && b[j] == 13 && forall k :: 0 <= k < j ==> b[k] != 13
    ensures HeadEnd(b, 3) == HeadEnd(b, j + 2)
  {
    hide HeadEnd;
    assert forall k :: 0 <= k < j + 2 ==> !Terminates(b, k);
    NoEndBetween(b, 0, 3);
    NoEndBetween(b, 0, j + 2);
  }

  /** Requests are taken apart where they were put together: whatever follows one within the
      limits, framing finds its end, and the scanner's data is what its chunks hold. */
  lemma ReadsRequest(r: Request, rest: seq<byte>, lim: Limits)
    requires r.Proper() && |HeadText(r)| <= lim.maxHeader
    requires r.framed.Sized? ==> |r.framed.data| <= lim.maxBody
    requires r.framed.InPieces? ==> Fitting(r.framed.chunks) && |Joined(r.framed.chunks)| <= lim.maxBody
    ensures var b := HeadText(r) + BodyText(r.framed) + rest;
            Frame(b, Seeking(0), lim) == Whole(|HeadText(r) + BodyText(r.framed)|)
    ensures var b := HeadText(r) + BodyText(r.framed) + rest;
            r.framed.InPieces? ==>
              Payload(b, State(|HeadText(r)|, 0, false, 0), lim.maxBody) == Joined(r.framed.chunks)
  {
    hide HeadText, HeadEnd, Run, Field, Ascii, DecimalText, Decimal, AllDigits, Encode, Payload, Fitting, Joined;
    var head, body := HeadText(r), BodyText(r.framed);
    var b := head + body + rest;
    Assoc(head, body, rest);
    HeadTextEnds(r, body + rest);
    ReadsHead(r);
    assert b[..|head|] == head;
    match r.framed
    case Nothing =>
    case Sized(_, data) =>
      ReadsDecimal(|data|);
    case InPieces(_, coding, chunks) =>
      ChunkedSpells(coding);
      ReadsChunks(head, chunks, rest, State(|head|, 0, false, 0), lim.maxBody);
  }
}
