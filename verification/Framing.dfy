/** Where the message at the front of a buffer ends (frame in http1/frame.v), resumed from
    read to read. */
module Framing {
  import opened Basics
  import opened Chunked
  import opened Fields

  const MAX_I32: nat := 2147483647

  /** A CRLFCRLF ends at i. */
  predicate Terminates(b: seq<byte>, i: nat) {
    3 <= i < |b| && b[i] == LF && b[i - 1] == CR && b[i - 2] == LF && b[i - 3] == CR
  }

  /** The end of the first head terminator that ends at i or after. */
  function HeadEnd(b: seq<byte>, i: nat): (r: Option<nat>)
    ensures r.Some? ==> i < r.value <= |b| && Terminates(b, r.value - 1) && forall k :: i <= k < r.value - 1 ==>
              !Terminates(b, k)
    ensures r.None? ==> forall k :: i <= k < |b| ==> !Terminates(b, k)
    decreases |b| - i
  {
    if i >= |b| then None else if Terminates(b, i) then Some(i + 1) else HeadEnd(b, i + 1)
  }

  /** find_head_end: from LF to LF. */
  method FindHeadEnd(b: seq<byte>, from: nat) returns (r: Option<nat>)
    ensures r == HeadEnd(b, from + 3)
  {
    var i := from + 3;
    while i < |b|
      invariant from + 3 <= i && HeadEnd(b, i) == HeadEnd(b, from + 3)
      decreases |b| - i
    {
      ghost var start := i;
      while i < |b| && b[i] != LF
        invariant start <= i && HeadEnd(b, i) == HeadEnd(b, from + 3)
        decreases |b| - i
      {
        i := i + 1;
      }
      if i >= |b| {
        return None;
      }
      if b[i - 1] == CR && b[i - 2] == LF && b[i - 3] == CR {
        return Some(i + 1);
      }
      i := i + 1;
    }
    return None;
  }

  /** Looking again from three bytes before the end finds what looking from the front
      would. */
  lemma {:induction false} HeadResumes(b: seq<byte>, c: seq<byte>, i: nat, j: nat)
    requires Prefix(b, c) && i <= j && (j <= |b| || j == i) && HeadEnd(b, i).None?
    ensures HeadEnd(c, j) == HeadEnd(c, i)
    decreases j - i
  {
    if i < j {
      assert Terminates(c, i) ==> Terminates(b, i);
      HeadResumes(b, c, i + 1, j);
    }
  }

  lemma HeadStays(b: seq<byte>, c: seq<byte>, i: nat)
    requires Prefix(b, c)
    ensures HeadEnd(b, i).Some? ==> HeadEnd(c, i) == HeadEnd(b, i)
    ensures HeadEnd(b, i).None? && HeadEnd(c, i).Some? ==> HeadEnd(c, i).value > |b|
  {
    hide HeadEnd;
    assert forall k :: 0 <= k < |b| ==> Terminates(c, k) == Terminates(b, k);
    var x := HeadEnd(b, i);
    assert x.Some? ==> Terminates(c, x.value - 1);
  }

  /** The decimal number digits spell. */
  function Decimal(b: seq<byte>): nat
    requires forall k :: 0 <= k < |b| ==> 48 <= b[k] <= 57
  {
    if b == [] then 0 else Decimal(b[..|b| - 1]) * 10 + (b[|b| - 1] - 48)
  }

  ghost predicate AllDigits(b: seq<byte>) {
    forall k :: 0 <= k < |b| ==> 48 <= b[k] <= 57
  }

  /** parse_content_length: none unless all digits; past the largest int it only stays
      past it. */
  method ParseLength(b: seq<byte>) returns (r: Option<nat>)
    ensures r.Some? <==> b != [] && AllDigits(b)
    ensures r.Some? ==> (if Decimal(b) <= MAX_I32 then r.value == Decimal(b) else r.value > MAX_I32)
  {
    if b == [] {
      return None;
    }
    var n: nat := 0;
    assert b[..0] == [];
    for k := 0 to |b|
      invariant AllDigits(b[..k])
      invariant if Decimal(b[..k]) <= MAX_I32 then n == Decimal(b[..k]) else n > MAX_I32
    {
      if b[k] < 48 || b[k] > 57 {
        return None;
      }
      assert b[..k + 1][..k] == b[..k];
      if n <= MAX_I32 {
        n := n * 10 + (b[k] - 48);
      }
    }
    assert b[..|b|] == b;
    return Some(n);
  }

  /** eq_ci: equal but for the case of s. */
  function SameText(s: seq<byte>, lower: seq<byte>): bool {
    |s| == |lower| && forall k :: 0 <= k < |s| ==> Lower(s[k]) == lower[k]
  }

  const CHUNKED: seq<byte> := [99, 104, 117, 110, 107, 101, 100]

  datatype Limits = Limits(maxHeader: nat, maxBody: nat)

  /** How a head says its body is framed. */
  datatype Plan = Reject(status: nat) | Length(n: nat) | InChunks

  ghost function PlanOf(h: seq<byte>, lim: Limits): (p: Plan) {
    var te, cl := Field(h, TRANSFER_ENCODING), Field(h, CONTENT_LENGTH);
    if te.Some? && cl.Some? then Reject(400)
    else if te.Some? then
      if SameText(h[te.value.start..te.value.start + te.value.len], CHUNKED) then InChunks else Reject(400)
    else if cl.Some? then
      var digits := h[cl.value.start..cl.value.start + cl.value.len];
      if digits == [] || !AllDigits(digits) then Reject(400)
      else if Decimal(digits) > lim.maxBody then Reject(413)
      else Length(Decimal(digits))
    else Length(0)
  }

  /** Whether a head asks for a 100 (Continue) before its body. */
  ghost predicate Expects(h: seq<byte>) {
    var ex := Field(h, EXPECT);
    ex.Some? && SameText(h[ex.value.start..ex.value.start + ex.value.len], CONTINUE)
  }

  /** The framing state between reads: nothing ends before scanned + 3 while the head is
      not complete. */
  datatype Progress = Seeking(scanned: nat) | Counting(end: nat, length: nat) | Chunks(at: State)

  /** What framing the buffer answers: more is needed, refused, or the message's length. */
  datatype Outcome = NeedMore(at: Progress) | Rejected(status: nat) | Whole(n: nat)

  ghost function Body(b: seq<byte>, p: Progress, lim: Limits): (v: Outcome)
    requires p.Chunks? ==> p.at.pos <= |b|
  {
    match p
    case Seeking(_) => NeedMore(p)
    case Counting(end, length) => if |b| < end + length then NeedMore(p) else Whole(end + length)
    case Chunks(at) =>
      match Run(b, at, lim.maxBody)
      case More(next) => NeedMore(Chunks(next))
      case Refused(status) => Rejected(status)
      case Done(next) => Whole(next.pos)
  }

  ghost function Frame(b: seq<byte>, p: Progress, lim: Limits): (v: Outcome)
    requires Fits(b, p)
  {
    if !p.Seeking? then Body(b, p, lim) else
      match HeadEnd(b, p.scanned + 3)
      case None => if |b| > lim.maxHeader then Rejected(431) else NeedMore(Seeking(if |b| > 3 then |b| - 3 else 0))
      case Some(end) =>
        if end > lim.maxHeader then Rejected(431)
        else
          match PlanOf(b[..end], lim)
          case Reject(status) => Rejected(status)
          case Length(n) => Body(b, Counting(end, n), lim)
          case InChunks => Body(b, Chunks(State(end, 0, false, 0)), lim)
  }

  ghost predicate Fits(b: seq<byte>, p: Progress) {
    && (p.Chunks? ==> p.at.pos <= |b|)
    && (p.Seeking? ==> p.scanned <= if |b| > 3 then |b| - 3 else 0)
  }

  lemma BodyStable(b: seq<byte>, c: seq<byte>, p: Progress, lim: Limits)
    requires Prefix(b, c) && !p.Seeking? && Fits(b, p)
    ensures var v := Body(b, p, lim);
            && (v.NeedMore? ==> !v.at.Seeking? && Fits(c, v.at) && Body(c, v.at, lim) == Body(c, p, lim))
            && (v.Whole? ==> Body(c, p, lim) == v) && (v.Rejected? ==> Body(c, p, lim).Rejected?)
  {
    hide Run;
    if p.Chunks? {
      Resumes(b, c, p.at, lim.maxBody);
      Settled(b, c, p.at, lim.maxBody);
    }
  }

  /** More bytes: a length found stays, a refusal stays one, and resuming is starting over. */
  lemma FrameStable(b: seq<byte>, c: seq<byte>, p: Progress, lim: Limits)
    requires Prefix(b, c) && Fits(b, p)
    ensures var v := Frame(b, p, lim);
            && (v.NeedMore? ==> Fits(c, v.at) && Frame(c, v.at, lim) == Frame(c, p, lim))
            && (v.Whole? ==> Frame(c, p, lim) == v) && (v.Rejected? ==> Frame(c, p, lim).Rejected?)
  {
    hide Run, HeadEnd, PlanOf, Body;
    if !p.Seeking? {
      BodyStable(b, c, p, lim);
      return;
    }
    HeadStays(b, c, p.scanned + 3);
    match HeadEnd(b, p.scanned + 3)
    case None =>
      var again := if |b| > 3 then |b| - 3 else 0;
      HeadResumes(b, c, p.scanned + 3, again + 3);
    case Some(end) =>
      assert b[..end] == c[..end];
      match PlanOf(b[..end], lim)
      case Reject(_) =>
      case Length(n) =>
        BodyStable(b, c, Counting(end, n), lim);
      case InChunks =>
        BodyStable(b, c, Chunks(State(end, 0, false, 0)), lim);
  }

  /** A run of reads, each resuming the framing where the last left it. */
  ghost function FeedFrame(bs: seq<seq<byte>>, p: Progress, lim: Limits): (v: Outcome)
    requires bs != [] && Growing(bs) && Fits(bs[0], p)
    decreases |bs|
  {
    var v := Frame(bs[0], p, lim);
    if |bs| == 1 || !v.NeedMore? then v else
      FrameStable(bs[0], bs[1], p, lim);
      FeedFrame(bs[1..], v.at, lim)
  }

  /** Framing is independent of read boundaries: the length found is the one a single look
      at the whole finds, and a message is refused exactly when that look refuses it. */
  lemma {:induction false} FramingIndependent(bs: seq<seq<byte>>, p: Progress, lim: Limits)
    requires bs != [] && Growing(bs) && Fits(bs[0], p)
    ensures var last := bs[|bs| - 1];
            && Fits(last, p)
            && var all, v := Frame(last, p, lim), FeedFrame(bs, p, lim);
            (v.Rejected? <==> all.Rejected?) && (!v.Rejected? ==> v == all)
    decreases |bs|
  {
    hide Frame, Prefix;
    var b, last := bs[0], bs[|bs| - 1];
    assert Prefix(b, last);
    FitsMore(b, last, p);
    FrameStable(b, last, p, lim);
    var v := Frame(b, p, lim);
    if |bs| > 1 && v.NeedMore? {
      assert bs[1..][|bs| - 2] == last && Prefix(b, bs[1]);
      FrameStable(b, bs[1], p, lim);
      FramingIndependent(bs[1..], v.at, lim);
    }
  }

  lemma FitsMore(b: seq<byte>, c: seq<byte>, p: Progress)
    requires Prefix(b, c) && Fits(b, p)
    ensures Fits(c, p)
  {
  }

  /** Where the chunk scan of a message is, or begins; none for a body that is not in
      chunks, or refused with its head. */
  ghost function ScanOf(b: seq<byte>, p: Progress, lim: Limits): (st: Option<State>)
    requires Fits(b, p)
    ensures st.Some? ==> st.value.pos <= |b|
  {
    if p.Chunks? then Some(p.at) else
      var end :- if p.Seeking? then HeadEnd(b, p.scanned + 3) else None;
      if end <= lim.maxHeader && PlanOf(b[..end], lim).InChunks? then Some(State(end, 0, false, 0)) else None
  }

  /** The scan of its chunks stops at a trailer line bad only past its limit. */
  ghost predicate LateFrame(b: seq<byte>, p: Progress, lim: Limits)
    requires Fits(b, p)
  {
    var st := ScanOf(b, p, lim);
    st.Some? && Late(b, st.value, lim.maxBody)
  }

  /** What a message in chunks answers. */
  lemma FrameScans(b: seq<byte>, p: Progress, lim: Limits)
    requires Fits(b, p) && ScanOf(b, p, lim).Some?
    ensures Frame(b, p, lim) == Body(b, Chunks(ScanOf(b, p, lim).value), lim)
  {
    hide HeadEnd, PlanOf, Run;
  }

  /** And on a longer buffer. */
  lemma ScanStays(b: seq<byte>, c: seq<byte>, p: Progress, lim: Limits)
    requires Prefix(b, c) && Fits(b, p) && Fits(c, p)
    ensures ScanOf(b, p, lim).Some? ==> ScanOf(c, p, lim) == ScanOf(b, p, lim)
    ensures Frame(b, p, lim).Rejected? && ScanOf(b, p, lim).None? ==>
              Frame(c, p, lim) == Frame(b, p, lim) && ScanOf(c, p, lim).None?
  {
    hide HeadEnd, PlanOf, Run;
    if p.Seeking? {
      HeadStays(b, c, p.scanned + 3);
      var end := HeadEnd(b, p.scanned + 3);
      if end.Some? {
        assert b[..end.value] == c[..end.value];
      }
    }
  }

  /** A refusal is the one the whole would meet, but for a trailer line bad late. */
  lemma FrameStatusSettled(b: seq<byte>, c: seq<byte>, p: Progress, lim: Limits)
    requires Prefix(b, c) && Fits(b, p) && Fits(c, p) && Frame(b, p, lim).Rejected? && !LateFrame(c, p, lim)
    ensures Frame(c, p, lim) == Frame(b, p, lim)
  {
    hide Frame, ScanOf, Run, Late;
    ScanStays(b, c, p, lim);
    if ScanOf(b, p, lim).Some? {
      FrameScans(b, p, lim);
      FrameScans(c, p, lim);
      StatusSettled(b, c, ScanOf(b, p, lim).value, lim.maxBody);
    }
  }

  /** Every earlier look that refuses the message agrees with the look at the whole. */
  ghost predicate OneFrameStatus(c: seq<byte>, p: Progress, lim: Limits)
    requires Fits(c, p)
  {
    forall n :: 0 <= n <= |c| && Fits(c[..n], p) && Frame(c[..n], p, lim).Rejected? ==>
        Frame(c[..n], p, lim) == Frame(c, p, lim)
  }

  /** Which refusal a message meets depends on where a read ends exactly for a body in
      chunks with a trailer line that is bad late. */
  lemma FrameStatusIff(c: seq<byte>, p: Progress, lim: Limits)
    requires Fits(c, p)
    ensures OneFrameStatus(c, p, lim) <==> !LateFrame(c, p, lim)
  {
    hide Frame, ScanOf, Run, Late, StopAt;
    if LateFrame(c, p, lim) {
      var st := ScanOf(c, p, lim).value;
      var n := StatusSplits(c, st, lim.maxBody);
      ScanWithin(c, n, p, lim);
      FrameScans(c, p, lim);
      FrameScans(c[..n], p, lim);
      assert Frame(c[..n], p, lim) == Rejected(431) && Frame(c, p, lim) == Rejected(400);
    } else {
      forall n | 0 <= n <= |c| && Fits(c[..n], p) && Frame(c[..n], p, lim).Rejected?
        ensures Frame(c[..n], p, lim) == Frame(c, p, lim)
      {
        FrameStatusSettled(c[..n], c, p, lim);
      }
    }
  }

  /** A buffer cut past the head has the same scan. */
  lemma ScanWithin(c: seq<byte>, n: nat, p: Progress, lim: Limits)
    requires Fits(c, p) && ScanOf(c, p, lim).Some? && ScanOf(c, p, lim).value.pos < n <= |c|
    ensures Fits(c[..n], p) && ScanOf(c[..n], p, lim) == ScanOf(c, p, lim)
  {
    hide HeadEnd, PlanOf;
    var b := c[..n];
    if p.Seeking? {
      var end := HeadEnd(c, p.scanned + 3).value;
      HeadStays(b, c, p.scanned + 3);
      assert b[..end] == c[..end];
    }
  }

  /** While more is needed, looking on changes nothing about that. */
  lemma LateFrameStill(b: seq<byte>, c: seq<byte>, p: Progress, lim: Limits)
    requires Prefix(b, c) && Fits(b, p) && Fits(c, p) && Frame(b, p, lim).NeedMore?
    ensures var q := Frame(b, p, lim).at; Fits(c, q) && LateFrame(c, q, lim) == LateFrame(c, p, lim)
  {
    hide Frame, Run, Late, ScanOf;
    FrameStable(b, c, p, lim);
    ScanStays(b, c, p, lim);
    var st := ScanOf(b, p, lim);
    if st.Some? {
      FrameScans(b, p, lim);
      LateStill(b, c, st.value, lim.maxBody);
      ScanAt(c, Run(b, st.value, lim.maxBody).at, lim);
    } else {
      NoScanStill(b, c, p, lim);
    }
  }

  lemma ScanAt(b: seq<byte>, st: State, lim: Limits)
    requires st.pos <= |b|
    ensures ScanOf(b, Chunks(st), lim) == Some(st)
  {
  }

  lemma NoScanStill(b: seq<byte>, c: seq<byte>, p: Progress, lim: Limits)
    requires Prefix(b, c) && Fits(b, p) && Fits(c, p) && Frame(b, p, lim).NeedMore? && ScanOf(b, p, lim).None?
    ensures var q := Frame(b, p, lim).at; Fits(c, q) && ScanOf(c, q, lim) == ScanOf(c, p, lim)
  {
    hide HeadEnd, PlanOf, Run;
    if p.Seeking? {
      HeadStays(b, c, p.scanned + 3);
      var end := HeadEnd(b, p.scanned + 3);
      if end.None? {
        HeadResumes(b, c, p.scanned + 3, (if |b| > 3 then |b| - 3 else 0) + 3);
      } else {
        assert b[..end.value] == c[..end.value];
      }
    }
  }

  /** Over any run of reads, without such a line framing answers what one look does, status
      and all. */
  lemma {:induction false} FramingStatus(bs: seq<seq<byte>>, p: Progress, lim: Limits)
    requires bs != [] && Growing(bs) && Fits(bs[0], p) && Fits(bs[|bs| - 1], p) && !LateFrame(bs[|bs| - 1], p, lim)
    ensures FeedFrame(bs, p, lim) == Frame(bs[|bs| - 1], p, lim)
    decreases |bs|
  {
    hide Frame, Prefix, LateFrame;
    var b, last := bs[0], bs[|bs| - 1];
    assert Prefix(b, last);
    FrameStable(b, last, p, lim);
    var v := Frame(b, p, lim);
    if v.Rejected? {
      FrameStatusSettled(b, last, p, lim);
    } else if |bs| > 1 && v.NeedMore? {
      assert bs[1..][|bs| - 2] == last && Prefix(b, bs[1]);
      FrameStable(b, bs[1], p, lim);
      LateFrameStill(b, last, p, lim);
      FramingStatus(bs[1..], v.at, lim);
    }
  }

  /** The framing state of the message at the front of a connection's buffer. */
  class FrameState {
    var scanned: nat
    var headEnd: nat
    var contentLength: nat
    var chunked: bool
    const chunk: ChunkScan
    var expectContinue: bool

    ghost function Value(): Progress
      reads this, chunk
    {
      if headEnd == 0 then Seeking(scanned)
      else if chunked then Chunks(chunk.Value())
      else Counting(headEnd, contentLength)
    }

    constructor ()
      ensures Value() == Seeking(0) && fresh(chunk)
    {
      scanned, headEnd, contentLength, chunked, expectContinue := 0, 0, 0, false, false;
      chunk := new ChunkScan(0);
    }

    /** frame. Refused messages close the connection, so the state they leave is not used. */
    method Next(b: seq<byte>, lim: Limits) returns (v: Outcome)
      requires Fits(b, Value()) && lim.maxBody <= MAX_I32
      modifies this, chunk
      ensures v == Frame(b, old(Value()), lim)
      ensures v.NeedMore? ==> Value() == v.at
      ensures if old(headEnd) > 0 || headEnd == 0 then expectContinue == old(expectContinue) || v.Rejected?
              else HeadEnd(b, old(scanned) + 3) == Some(headEnd) && expectContinue == Expects(b[..headEnd])
    {
      hide PlanOf, HeadEnd, Run, Expects;
      if headEnd == 0 {
        ghost var p := Value();
        var end := FindHeadEnd(b, scanned);
        if end.None? {
          if |b| > lim.maxHeader {
            return Rejected(431);
          }
          scanned := if |b| > 3 then |b| - 3 else 0;
          return NeedMore(Seeking(scanned));
        }
        if end.value > lim.maxHeader {
          return Rejected(431);
        }
        var plan := ReadHead(b[..end.value], lim);
        if plan.Reject? {
          return Rejected(plan.status);
        }
        headEnd := end.value;
        if plan.InChunks? {
          chunked := true;
          chunk.pos, chunk.total, chunk.trailers, chunk.trailerBytes := headEnd, 0, false, 0;
        } else {
          chunked := false;
          contentLength := plan.n;
        }
      }
      v := Rest(b, lim);
    }

    /** The body, once the head is complete. */
    method Rest(b: seq<byte>, lim: Limits) returns (v: Outcome)
      requires headEnd > 0 && (chunked ==> chunk.pos <= |b|)
      modifies chunk
      ensures v == Body(b, old(Value()), lim) && (v.NeedMore? ==> Value() == v.at)
    {
      hide Run;
      if chunked {
        var answer := chunk.Scan(b, lim.maxBody);
        match answer
        case Incomplete =>
          return NeedMore(Chunks(State(chunk.pos, chunk.total, chunk.trailers, chunk.trailerBytes)));
        case Complete =>
          return Whole(chunk.pos);
        case Refusal(status) =>
          return Rejected(status);
      }
      var total := headEnd + contentLength;
      return if |b| < total then NeedMore(Counting(headEnd, contentLength)) else Whole(total);
    }

    /** The part of frame that reads a complete head. */
    method ReadHead(h: seq<byte>, lim: Limits) returns (p: Plan)
      requires lim.maxBody <= MAX_I32
      modifies this`expectContinue
      ensures p == PlanOf(h, lim) && (!p.Reject? ==> expectContinue == Expects(h))
    {
      hide Field;
      var te, cl, ex := FramingFields(h);
      if te.Some? && cl.Some? {
        return Reject(400);
      }
      if te.Some? {
        if !SameText(h[te.value.start..te.value.start + te.value.len], CHUNKED) {
          return Reject(400);
        }
        p := InChunks;
      } else if cl.Some? {
        var n := ParseLength(h[cl.value.start..cl.value.start + cl.value.len]);
        if n.None? {
          return Reject(400);
        }
        if n.value > lim.maxBody {
          return Reject(413);
        }
        p := Length(n.value);
      } else {
        p := Length(0);
      }
      expectContinue := ex.Some? && SameText(h[ex.value.start..ex.value.start + ex.value.len], CONTINUE);
    }
  }

  const CONTINUE: seq<byte> := [49, 48, 48, 45, 99, 111, 110, 116, 105, 110, 117, 101]
}
