/** Field lines of a request head (http1/frame.v): the first field of a name, and the one
    pass that finds the three framing fields at once. */
module Fields {
  import opened Basics
  import opened Chunked

  /** The value of a field as a byte range. */
  datatype Span = Span(start: nat, len: nat)

  /** The CR of the first CRLF at i or after; the last byte when there is none. */
  function CrlfAt(h: seq<byte>, i: nat): (j: nat)
    ensures i <= j && (i < |h| ==> j < |h|)
    decreases |h| - i
  {
    if i + 1 < |h| && !(h[i] == CR && h[i + 1] == LF) then CrlfAt(h, i + 1) else i
  }

  /** crlf_at: from LF to LF. */
  method FindCrlf(h: seq<byte>, i: nat) returns (j: nat)
    ensures j == CrlfAt(h, i)
  {
    var k := i + 1;
    while k < |h|
      invariant i < k && CrlfAt(h, i) == CrlfAt(h, k - 1)
      decreases |h| - k
    {
      ghost var from := k;
      while k < |h| && h[k] != LF
        invariant from <= k && CrlfAt(h, i) == CrlfAt(h, k - 1)
        decreases |h| - k
      {
        k := k + 1;
      }
      if k >= |h| {
        break;
      }
      if h[k - 1] == CR {
        return k - 1;
      }
      k := k + 1;
    }
    PastEnd(h, k - 1);
    return if |h| > i then |h| - 1 else i;
  }

  lemma PastEnd(h: seq<byte>, k: nat)
    requires k + 1 >= |h|
    ensures CrlfAt(h, k) == k
  {
  }

  function Lower(c: byte): byte {
    if 65 <= c <= 90 then c + 32 else c
  }

  /** The line at i, ended at j, starts with the name and a colon. */
  ghost predicate Named(h: seq<byte>, i: nat, j: nat, name: seq<byte>) {
    && i + |name| < j <= |h| && h[i + |name|] == 58
    && forall k :: 0 <= k < |name| ==> Lower(h[i + k]) == name[k]
  }

  function SkipLeft(h: seq<byte>, s: nat, e: nat): (r: nat)
    requires s <= e <= |h|
    ensures s <= r <= e
    decreases e - s
  {
    if s < e && (h[s] == 32 || h[s] == 9) then SkipLeft(h, s + 1, e) else s
  }

  function SkipRight(h: seq<byte>, s: nat, e: nat): (r: nat)
    requires s <= e <= |h|
    ensures s <= r <= e
    decreases e - s
  {
    if e > s && (h[e - 1] == 32 || h[e - 1] == 9) then SkipRight(h, s, e - 1) else e
  }

  /** The value of a line of that name, without the white space around it. */
  function ValueAt(h: seq<byte>, i: nat, j: nat, n: nat): (s: Span)
    requires i + n < j <= |h|
    ensures s.start + s.len <= |h|
  {
    var s := SkipLeft(h, i + n + 1, j);
    Span(s, SkipRight(h, s, j) - s)
  }

  /** The first field of a name in the lines from i on. */
  ghost function FieldFrom(h: seq<byte>, i: nat, name: seq<byte>): (r: Option<Span>)
    ensures r.Some? ==> r.value.start + r.value.len <= |h|
    decreases |h| - i
  {
    if i + 1 >= |h| || CrlfAt(h, i) == i then None
    else if Named(h, i, CrlfAt(h, i), name) then Some(ValueAt(h, i, CrlfAt(h, i), |name|))
    else FieldFrom(h, CrlfAt(h, i) + 2, name)
  }

  /** The first field of a name, the request line skipped. */
  ghost function Field(h: seq<byte>, name: seq<byte>): (r: Option<Span>)
    ensures r.Some? ==> r.value.start + r.value.len <= |h|
  {
    FieldFrom(h, CrlfAt(h, 0) + 2, name)
  }

  /** field_at: sets s to the value of the line when it is the first of that name. */
  method FieldAt(h: seq<byte>, i: nat, j: nat, name: seq<byte>, s: Option<Span>) returns (r: Option<Span>)
    requires i <= j <= |h|
    ensures r == if s.None? && Named(h, i, j, name) then Some(ValueAt(h, i, j, |name|)) else s
  {
    if s.Some? || j - i <= |name| || h[i + |name|] != 58 {
      return s;
    }
    for k := 0 to |name|
      invariant forall m :: 0 <= m < k ==> Lower(h[i + m]) == name[m]
    {
      if Lower(h[i + k]) != name[k] {
        return s;
      }
    }
    var vs, ve := i + |name| + 1, j;
    while vs < ve && (h[vs] == 32 || h[vs] == 9)
      invariant i + |name| + 1 <= vs <= j && SkipLeft(h, vs, j) == SkipLeft(h, i + |name| + 1, j)
    {
      vs := vs + 1;
    }
    while ve > vs && (h[ve - 1] == 32 || h[ve - 1] == 9)
      invariant vs <= ve <= j && SkipRight(h, vs, ve) == SkipRight(h, vs, j)
    {
      ve := ve - 1;
    }
    return Some(Span(vs, ve - vs));
  }

  /** header_value. */
  method HeaderValue(h: seq<byte>, name: seq<byte>) returns (r: Option<Span>)
    ensures r == Field(h, name)
  {
    var i := Scan(h, 0);
    i := i + 2;
    while i + 1 < |h|
      invariant FieldFrom(h, i, name) == Field(h, name)
      decreases |h| - i
    {
      var j := Scan(h, i);
      if j == i {
        break;
      }
      r := FieldAt(h, i, j, name, None);
      if r.Some? {
        return;
      }
      i := j + 2;
    }
    return None;
  }

  /** The scan header_value itself makes, byte by byte. */
  method Scan(h: seq<byte>, i: nat) returns (j: nat)
    ensures j == CrlfAt(h, i)
  {
    j := i;
    while j + 1 < |h| && !(h[j] == CR && h[j + 1] == LF)
      invariant i <= j && CrlfAt(h, j) == CrlfAt(h, i)
      decreases |h| - j
    {
      j := j + 1;
    }
  }

  /** A byte with bit 5 set. */
  function Bit5(c: byte): byte {
    if (c / 32) % 2 == 0 then c + 32 else c
  }

  const TRANSFER_ENCODING: seq<byte> := [116, 114, 97, 110, 115, 102, 101, 114, 45, 101, 110, 99, 111, 100, 105, 110,
                                          103]
  const CONTENT_LENGTH: seq<byte> := [99, 111, 110, 116, 101, 110, 116, 45, 108, 101, 110, 103, 116, 104]
  const EXPECT: seq<byte> := [101, 120, 112, 101, 99, 116]

  /** Only a line that starts with the name's first letter has the name. */
  lemma FirstLetter(h: seq<byte>, i: nat, j: nat, name: seq<byte>)
    requires name != [] && i < |h| && 97 <= name[0] <= 122 && Named(h, i, j, name)
    ensures Bit5(h[i]) == name[0]
  {
    assert Lower(h[i + 0]) == name[0];
  }

  /** The value found so far, or what the lines from i on have. */
  ghost predicate SoFar(h: seq<byte>, i: nat, name: seq<byte>, s: Option<Span>) {
    Field(h, name) == if s.Some? then s else FieldFrom(h, i, name)
  }

  lemma NextLine(h: seq<byte>, i: nat, name: seq<byte>, s: Option<Span>)
    requires SoFar(h, i, name, s) && i + 1 < |h| && CrlfAt(h, i) != i
    ensures SoFar(h, CrlfAt(h, i) + 2, name,
                  if s.None? && Named(h, i, CrlfAt(h, i), name) then Some(ValueAt(h, i, CrlfAt(h, i), |name|)) else s)
  {
  }

  /** framing_fields: one pass finds what three searches would. */
  method FramingFields(h: seq<byte>) returns (te: Option<Span>, cl: Option<Span>, ex: Option<Span>)
    ensures te == Field(h, TRANSFER_ENCODING) && cl == Field(h, CONTENT_LENGTH) && ex == Field(h, EXPECT)
  {
    hide Field, FieldFrom, Named, ValueAt, CrlfAt, SoFar;
    te, cl, ex := None, None, None;
    var i := FindCrlf(h, 0);
    i := i + 2;
    Start(h, TRANSFER_ENCODING);
    Start(h, CONTENT_LENGTH);
    Start(h, EXPECT);
    while i + 1 < |h|
      invariant SoFar(h, i, TRANSFER_ENCODING, te) && SoFar(h, i, CONTENT_LENGTH, cl) && SoFar(h, i, EXPECT, ex)
      decreases |h| - i
    {
      var j := FindCrlf(h, i);
      if j == i {
        break;
      }
      NextLine(h, i, TRANSFER_ENCODING, te);
      NextLine(h, i, CONTENT_LENGTH, cl);
      NextLine(h, i, EXPECT, ex);
      Letters(h, i, j);
      var c := Bit5(h[i]);
      if c == 116 {
        te := FieldAt(h, i, j, TRANSFER_ENCODING, te);
      } else if c == 99 {
        cl := FieldAt(h, i, j, CONTENT_LENGTH, cl);
      } else if c == 101 {
        ex := FieldAt(h, i, j, EXPECT, ex);
      }
      i := j + 2;
    }
    Over(h, i, TRANSFER_ENCODING, te);
    Over(h, i, CONTENT_LENGTH, cl);
    Over(h, i, EXPECT, ex);
  }

  lemma Start(h: seq<byte>, name: seq<byte>)
    ensures SoFar(h, CrlfAt(h, 0) + 2, name, None)
  {
  }

  lemma Letters(h: seq<byte>, i: nat, j: nat)
    requires i < |h|
    ensures Named(h, i, j, TRANSFER_ENCODING) ==> Bit5(h[i]) == 116
    ensures Named(h, i, j, CONTENT_LENGTH) ==> Bit5(h[i]) == 99
    ensures Named(h, i, j, EXPECT) ==> Bit5(h[i]) == 101
  {
    hide Named, Bit5;
    if Named(h, i, j, TRANSFER_ENCODING) {
      FirstLetter(h, i, j, TRANSFER_ENCODING);
    }
    if Named(h, i, j, CONTENT_LENGTH) {
      FirstLetter(h, i, j, CONTENT_LENGTH);
    }
    if Named(h, i, j, EXPECT) {
      FirstLetter(h, i, j, EXPECT);
    }
  }

  /** No line is left. */
  lemma Over(h: seq<byte>, i: nat, name: seq<byte>, s: Option<Span>)
    requires SoFar(h, i, name, s) && (i + 1 >= |h| || CrlfAt(h, i) == i)
    ensures s == Field(h, name)
  {
  }
}
