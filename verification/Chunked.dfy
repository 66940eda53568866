/** Chunked request bodies (http1/chunked.v; section 7.1 of RFC 9112): a scanner that
    resumes where a read ended, as a function of the buffer, and why it does not matter
    where reads end. */
module Chunked {
  import opened Basics

  const MAX_DIGITS: nat := 8
  const MAX_TRAILER: nat := 8192
  const MAX_LINE: nat := 4096

  const CR: byte := 13
  const LF: byte := 10

  predicate IsTchar(c: byte) {
    || 97 <= c <= 122 || 65 <= c <= 90 || 48 <= c <= 57
    || c in {33, 35, 36, 37, 38, 39, 42, 43, 45, 46, 94, 95, 96, 124, 126}
  }

  /** hex_value: -1 when c is not a hex digit. */
  function HexValue(c: byte): (v: int)
    ensures -1 <= v <= 15
  {
    if 48 <= c <= 57 then c - 48 else if 97 <= c <= 102 then c - 87 else if 65 <= c <= 70 then c - 55 else -1
  }

  /** A line's end, past its CRLF; open while the buffer ends first. */
  datatype Line = Ends(at: nat) | Open | Bad

  function LineEnd(b: seq<byte>, i: nat): (r: Line)
    ensures r.Ends? ==> i + 2 <= r.at <= |b|
    decreases |b| - i
  {
    if i >= |b| then Open
    else if b[i] == CR then
      if i + 1 >= |b| then Open else if b[i + 1] != LF then Bad else Ends(i + 2)
    else if (b[i] < 32 && b[i] != 9) || b[i] == 127 then Bad
    else LineEnd(b, i + 1)
  }

  /** The hex digits at i: where they end and their value; None past the digit limit. */
  datatype Hex = Hex(at: nat, digits: nat, size: nat) | TooMany

  function Digits(b: seq<byte>, i: nat, digits: nat, size: nat): (r: Hex)
    ensures r.Hex? ==> i <= r.at && (i <= |b| ==> r.at <= |b|) && r.digits >= digits && r.digits - digits == r.at - i
    decreases |b| - i
  {
    if i >= |b| || HexValue(b[i]) < 0 then Hex(i, digits, size)
    else if digits + 1 > MAX_DIGITS then TooMany
    else Digits(b, i + 1, digits + 1, size * 16 + HexValue(b[i]))
  }

  function Blanks(b: seq<byte>, i: nat): (r: nat)
    ensures i <= r && (i <= |b| ==> r <= |b|)
    decreases |b| - i
  {
    if i < |b| && (b[i] == 32 || b[i] == 9) then Blanks(b, i + 1) else i
  }

  function Colon(b: seq<byte>, i: nat, end: nat): (r: nat)
    requires i <= end <= |b|
    ensures i <= r <= end && (r < end ==> b[r] == 58) && forall k :: i <= k < r ==> b[k] != 58
    decreases end - i
  {
    if i < end && b[i] != 58 then Colon(b, i + 1, end) else i
  }

  /** The resumable state: everything before pos is done with. */
  datatype State = State(pos: nat, total: nat, trailers: bool, trailerBytes: nat)

  /** One unit at the scanner's position: wait for more, refuse, move on, or the end. */
  datatype Unit = Wait | Refuse(status: nat) | Go(next: State) | Finish(next: State)

  /** One chunk, or the last chunk's line. */
  function ChunkUnit(b: seq<byte>, st: State, maxBody: nat): (u: Unit)
    requires st.pos <= |b|
    ensures u.Go? ==> st.pos < u.next.pos <= |b|
    ensures !u.Finish?
  {
    var hex := Digits(b, st.pos, 0, 0);
    if hex.TooMany? then Refuse(400)
    else if hex.at >= |b| then Wait
    else if hex.digits == 0 then Refuse(400)
    else
      var i := Blanks(b, hex.at);
      if i >= |b| then if |b| - st.pos > MAX_LINE then Refuse(400) else Wait
      else if b[i] != CR && b[i] != 59 then Refuse(400)
      else
        match LineEnd(b, i)
        case Bad => Refuse(400)
        case Open => if |b| - st.pos > MAX_LINE then Refuse(400) else Wait
        case Ends(end) =>
          if end - st.pos > MAX_LINE then Refuse(400)
          else if hex.size == 0 then Go(st.(pos := end, trailers := true))
          else if st.total + hex.size > maxBody then Refuse(413)
          else if |b| < end + hex.size + 2 then Wait
          else if b[end + hex.size] != CR || b[end + hex.size + 1] != LF then Refuse(400)
          else Go(st.(pos := end + hex.size + 2, total := st.total + hex.size))
  }

  /** One trailer line. */
  function TrailerUnit(b: seq<byte>, st: State): (u: Unit)
    requires st.pos <= |b|
    ensures u.Go? || u.Finish? ==> st.pos < u.next.pos <= |b|
  {
    match LineEnd(b, st.pos)
    case Bad => Refuse(400)
    case Open => if |b| - st.pos > MAX_TRAILER then Refuse(431) else Wait
    case Ends(end) =>
      if end == st.pos + 2 then Finish(st.(pos := end))
      else
        var bytes := st.trailerBytes + (end - st.pos);
        if bytes > MAX_TRAILER then Refuse(431)
        else
          var colon := Colon(b, st.pos, end - 2);
          if colon == st.pos || colon >= end - 2 || (exists k :: st.pos <= k < colon && !IsTchar(b[k])) then Refuse(400)
          else Go(st.(pos := end, trailerBytes := bytes))
  }

  function UnitAt(b: seq<byte>, st: State, maxBody: nat): (u: Unit)
    requires st.pos <= |b|
    ensures u.Go? || u.Finish? ==> st.pos < u.next.pos <= |b|
  {
    if st.trailers then TrailerUnit(b, st) else ChunkUnit(b, st, maxBody)
  }

  /** What a scan of the buffer answers, and where it stands. */
  datatype Verdict = More(at: State) | Refused(status: nat) | Done(at: State)

  function Run(b: seq<byte>, st: State, maxBody: nat): (v: Verdict)
    requires st.pos <= |b|
    ensures !v.Refused? ==> st.pos <= v.at.pos <= |b|
    decreases |b| - st.pos
  {
    match UnitAt(b, st, maxBody)
    case Wait => More(st)
    case Refuse(status) => Refused(status)
    case Finish(next) => Done(next)
    case Go(next) => Run(b, next, maxBody)
  }

  /** More bytes do not move a line's end. */
  lemma {:induction false} LineStable(b: seq<byte>, c: seq<byte>, i: nat)
    requires Prefix(b, c) && i <= |b|
    ensures !LineEnd(b, i).Open? ==> LineEnd(c, i) == LineEnd(b, i)
    ensures LineEnd(b, i).Open? && LineEnd(c, i).Ends? ==> LineEnd(c, i).at > |b|
    decreases |b| - i
  {
    if i < |b| && b[i] != CR && !((b[i] < 32 && b[i] != 9) || b[i] == 127) {
      LineStable(b, c, i + 1);
    }
  }

  lemma {:induction false} DigitsStable(b: seq<byte>, c: seq<byte>, i: nat, digits: nat, size: nat)
    requires Prefix(b, c) && i <= |b|
    ensures var r := Digits(b, i, digits, size);
            r.TooMany? || r.at < |b| ==> Digits(c, i, digits, size) == r
    decreases |b| - i
  {
    if i < |b| && HexValue(b[i]) >= 0 && digits + 1 <= MAX_DIGITS {
      DigitsStable(b, c, i + 1, digits + 1, size * 16 + HexValue(b[i]));
    }
  }

  lemma {:induction false} BlanksStable(b: seq<byte>, c: seq<byte>, i: nat)
    requires Prefix(b, c) && i <= |b|
    ensures Blanks(b, i) < |b| ==> Blanks(c, i) == Blanks(b, i)
    ensures Blanks(b, i) == |b| ==> Blanks(c, i) >= |b|
    decreases |b| - i
  {
    if i < |b| && (b[i] == 32 || b[i] == 9) {
      BlanksStable(b, c, i + 1);
    }
  }

  lemma {:induction false} ColonStable(b: seq<byte>, c: seq<byte>, i: nat, end: nat)
    requires Prefix(b, c) && i <= end <= |b|
    ensures Colon(c, i, end) == Colon(b, i, end)
    decreases end - i
  {
    if i < end && b[i] != 58 {
      ColonStable(b, c, i + 1, end);
    }
  }

  /** A unit decided is decided: more bytes leave it as it is, but that one refused for its
      length may be refused for something else. */
  lemma ChunkStable(b: seq<byte>, c: seq<byte>, st: State, maxBody: nat)
    requires Prefix(b, c) && st.pos <= |b|
    ensures var u := ChunkUnit(b, st, maxBody);
            && (u.Go? ==> ChunkUnit(c, st, maxBody) == u) && (u.Refuse? ==> ChunkUnit(c, st, maxBody).Refuse?)
  {
    hide Digits, Blanks, LineEnd;
    DigitsStable(b, c, st.pos, 0, 0);
    var hex := Digits(b, st.pos, 0, 0);
    if hex.Hex? && hex.at < |b| && hex.digits > 0 {
      BlanksStable(b, c, hex.at);
      var i := Blanks(b, hex.at);
      if i < |b| {
        LineStable(b, c, i);
      }
    }
  }

  lemma TrailerStable(b: seq<byte>, c: seq<byte>, st: State)
    requires Prefix(b, c) && st.pos <= |b|
    ensures var u := TrailerUnit(b, st);
            && (u.Go? || u.Finish? ==> TrailerUnit(c, st) == u) && (u.Refuse? ==> TrailerUnit(c, st).Refuse?)
  {
    hide LineEnd, Colon, IsTchar;
    LineStable(b, c, st.pos);
    var line := LineEnd(b, st.pos);
    if line.Ends? {
      ColonStable(b, c, st.pos, line.at - 2);
      assert forall k :: st.pos <= k < line.at ==> b[k] == c[k];
    }
  }

  lemma UnitStable(b: seq<byte>, c: seq<byte>, st: State, maxBody: nat)
    requires Prefix(b, c) && st.pos <= |b|
    ensures var u := UnitAt(b, st, maxBody);
            && (u.Go? || u.Finish? ==> UnitAt(c, st, maxBody) == u) && (u.Refuse? ==> UnitAt(c, st, maxBody).Refuse?)
  {
    hide ChunkUnit, TrailerUnit;
    ChunkStable(b, c, st, maxBody);
    TrailerStable(b, c, st);
  }

  /** Resuming where a scan stopped is starting over: on any longer buffer both say the
      same. */
  lemma {:induction false} Resumes(b: seq<byte>, c: seq<byte>, st: State, maxBody: nat)
    requires Prefix(b, c) && st.pos <= |b|
    ensures Run(b, st, maxBody).More? ==> Run(c, Run(b, st, maxBody).at, maxBody) == Run(c, st, maxBody)
    decreases |b| - st.pos
  {
    hide UnitAt;
    UnitStable(b, c, st, maxBody);
    var u := UnitAt(b, st, maxBody);
    if u.Go? {
      Resumes(b, c, u.next, maxBody);
    }
  }

  /** A scan that ended ends there on any longer buffer, and one refused stays refused. */
  lemma {:induction false} Settled(b: seq<byte>, c: seq<byte>, st: State, maxBody: nat)
    requires Prefix(b, c) && st.pos <= |b|
    ensures Run(b, st, maxBody).Done? ==> Run(c, st, maxBody) == Run(b, st, maxBody)
    ensures Run(b, st, maxBody).Refused? ==> Run(c, st, maxBody).Refused?
    decreases |b| - st.pos
  {
    hide UnitAt;
    UnitStable(b, c, st, maxBody);
    var u := UnitAt(b, st, maxBody);
    if u.Go? {
      Settled(b, c, u.next, maxBody);
    }
  }

  /** A run of reads: each scan resumes where the last stopped, on the buffer as it then
      is. */
  ghost function Feed(bs: seq<seq<byte>>, st: State, maxBody: nat): (v: Verdict)
    requires bs != [] && Growing(bs) && st.pos <= |bs[0]|
    decreases |bs|
  {
    var v := Run(bs[0], st, maxBody);
    if |bs| == 1 || !v.More? then v else Feed(bs[1..], v.at, maxBody)
  }

  ghost predicate Growing(bs: seq<seq<byte>>) {
    forall i, j :: 0 <= i <= j < |bs| ==> Prefix(bs[i], bs[j])
  }

  /** Where the reads end does not matter: the scan ends exactly where one look at the
      whole would, goes on when that would, and is refused when that would be. */
  lemma {:induction false} SplitIndependent(bs: seq<seq<byte>>, st: State, maxBody: nat)
    requires bs != [] && Growing(bs) && st.pos <= |bs[0]|
    ensures var all, v := Run(bs[|bs| - 1], st, maxBody), Feed(bs, st, maxBody);
            && Prefix(bs[0], bs[|bs| - 1]) && (v.Refused? <==> all.Refused?) && (!v.Refused? ==> v == all)
    decreases |bs|
  {
    hide Run, Prefix;
    var b, last := bs[0], bs[|bs| - 1];
    PrefixFits(b, last);
    Resumes(b, last, st, maxBody);
    Settled(b, last, st, maxBody);
    var v := Run(b, st, maxBody);
    if |bs| > 1 && v.More? {
      assert bs[1..][|bs| - 2] == last && Prefix(b, bs[1]);
      PrefixFits(b, bs[1]);
      SplitIndependent(bs[1..], v.at, maxBody);
    }
  }

  lemma PrefixFits(b: seq<byte>, c: seq<byte>)
    requires Prefix(b, c)
    ensures |b| <= |c|
  {
  }

  /** The unit a scan stops at. */
  function StopAt(b: seq<byte>, st: State, maxBody: nat): (s: State)
    requires st.pos <= |b|
    ensures st.pos <= s.pos <= |b|
    decreases |b| - st.pos
  {
    var u := UnitAt(b, st, maxBody);
    if u.Go? then StopAt(b, u.next, maxBody) else st
  }

  /** The byte that makes a line bad. */
  function BadAt(b: seq<byte>, i: nat): (k: nat)
    requires LineEnd(b, i).Bad?
    ensures i <= k < |b|
    decreases |b| - i
  {
    if b[i] == CR then i + 1 else if (b[i] < 32 && b[i] != 9) || b[i] == 127 then i else BadAt(b, i + 1)
  }

  /** The scan stops at a trailer line that is only bad past the length a line may have. */
  predicate Late(b: seq<byte>, st: State, maxBody: nat)
    requires st.pos <= |b|
  {
    var s := StopAt(b, st, maxBody);
    s.trailers && LineEnd(b, s.pos).Bad? && BadAt(b, s.pos) - s.pos > MAX_TRAILER
  }

  /** Before the byte that makes it bad, a line is open. */
  lemma {:induction false} OpenBefore(b: seq<byte>, c: seq<byte>, i: nat)
    requires Prefix(b, c) && i <= |b| && LineEnd(c, i).Bad?
    ensures LineEnd(b, i).Open? <==> |b| <= BadAt(c, i)
    decreases |b| - i
  {
    if i < |b| && b[i] != CR && !((b[i] < 32 && b[i] != 9) || b[i] == 127) {
      OpenBefore(b, c, i + 1);
    }
  }

  /** A chunk refused is refused for the same reason with more bytes. */
  lemma ChunkStatus(b: seq<byte>, c: seq<byte>, st: State, maxBody: nat)
    requires Prefix(b, c) && st.pos <= |b| && ChunkUnit(b, st, maxBody).Refuse?
    ensures ChunkUnit(c, st, maxBody) == ChunkUnit(b, st, maxBody)
  {
    hide Digits, Blanks, LineEnd;
    DigitsStable(b, c, st.pos, 0, 0);
    var hex := Digits(b, st.pos, 0, 0);
    if hex.Hex? && hex.at < |b| && hex.digits > 0 {
      BlanksStable(b, c, hex.at);
      var i := Blanks(b, hex.at);
      if i < |b| {
        LineStable(b, c, i);
      }
    }
  }

  /** A trailer line is too, unless it is bad late. */
  lemma TrailerStatus(b: seq<byte>, c: seq<byte>, st: State)
    requires Prefix(b, c) && st.pos <= |b| && TrailerUnit(b, st).Refuse?
    requires LineEnd(c, st.pos).Bad? ==> BadAt(c, st.pos) - st.pos <= MAX_TRAILER
    ensures TrailerUnit(c, st) == TrailerUnit(b, st)
  {
    hide LineEnd, Colon, IsTchar, BadAt;
    LineStable(b, c, st.pos);
    var line := LineEnd(b, st.pos);
    if line.Ends? {
      ColonStable(b, c, st.pos, line.at - 2);
      assert forall k :: st.pos <= k < line.at ==> b[k] == c[k];
    }
    if LineEnd(c, st.pos).Bad? {
      OpenBefore(b, c, st.pos);
    }
  }

  /** A refusal is the one the whole would meet, but for a trailer line bad late. */
  lemma {:induction false} StatusSettled(b: seq<byte>, c: seq<byte>, st: State, maxBody: nat)
    requires Prefix(b, c) && st.pos <= |b| && Run(b, st, maxBody).Refused? && !Late(c, st, maxBody)
    ensures Run(c, st, maxBody) == Run(b, st, maxBody)
    decreases |b| - st.pos
  {
    hide ChunkUnit, TrailerUnit, LineEnd, BadAt;
    UnitStable(b, c, st, maxBody);
    var u := UnitAt(b, st, maxBody);
    if u.Go? {
      StatusSettled(b, c, u.next, maxBody);
    } else if st.trailers {
      TrailerStatus(b, c, st);
    } else {
      ChunkStatus(b, c, st, maxBody);
    }
  }

  /** A trailer line bad late is refused for its length where a read ends before the byte
      that makes it bad, and with 400 past it. */
  lemma {:induction false} StatusSplits(c: seq<byte>, st: State, maxBody: nat) returns (n: nat)
    requires st.pos <= |c| && Late(c, st, maxBody)
    ensures Run(c, st, maxBody) == Refused(400)
    ensures StopAt(c, st, maxBody).pos < n <= |c| && Run(c[..n], st, maxBody) == Refused(431)
    decreases |c| - st.pos
  {
    hide ChunkUnit, LineEnd, BadAt, Run;
    RunIs(c, st, maxBody);
    var u := UnitAt(c, st, maxBody);
    if u.Go? {
      n := StatusSplits(c, u.next, maxBody);
      SameUnit(c, n, st, maxBody);
      RunIs(c[..n], st, maxBody);
    } else {
      n := st.pos + MAX_TRAILER + 1;
      OpenBefore(c[..n], c, st.pos);
      RunIs(c[..n], st, maxBody);
    }
  }

  lemma RunIs(b: seq<byte>, st: State, maxBody: nat)
    requires st.pos <= |b|
    ensures var u := UnitAt(b, st, maxBody);
            Run(b, st, maxBody) == if u.Wait? then More(st) else if u.Refuse? then Refused(u.status)
                                   else if u.Finish? then Done(u.next) else Run(b, u.next, maxBody)
  {
  }

  /** A unit passed is passed on any buffer that has it. */
  lemma SameUnit(c: seq<byte>, n: nat, st: State, maxBody: nat)
    requires st.pos <= n <= |c| && UnitAt(c, st, maxBody).Go? && UnitAt(c, st, maxBody).next.pos <= n
    ensures UnitAt(c[..n], st, maxBody) == UnitAt(c, st, maxBody)
  {
    hide LineEnd, Digits, Blanks, Colon, IsTchar;
    var b := c[..n];
    if st.trailers {
      LineStable(b, c, st.pos);
      var line := LineEnd(c, st.pos);
      LineWithin(b, c, st.pos);
      ColonStable(b, c, st.pos, line.at - 2);
      assert forall k :: st.pos <= k < line.at ==> b[k] == c[k];
    } else {
      DigitsStable(b, c, st.pos, 0, 0);
      DigitsWithin(b, c, st.pos, 0, 0);
      var hex := Digits(c, st.pos, 0, 0);
      BlanksStable(b, c, hex.at);
      BlanksWithin(b, c, hex.at);
      LineWithin(b, c, Blanks(c, hex.at));
    }
  }

  lemma {:induction false} LineWithin(b: seq<byte>, c: seq<byte>, i: nat)
    requires Prefix(b, c) && i <= |b| && LineEnd(c, i).Ends? && LineEnd(c, i).at <= |b|
    ensures LineEnd(b, i) == LineEnd(c, i)
    decreases |b| - i
  {
    if c[i] != CR {
      LineWithin(b, c, i + 1);
    }
  }

  lemma {:induction false} DigitsWithin(b: seq<byte>, c: seq<byte>, i: nat, digits: nat, size: nat)
    requires Prefix(b, c) && i <= |b| && var r := Digits(c, i, digits, size); r.Hex? && r.at < |b|
    ensures Digits(b, i, digits, size) == Digits(c, i, digits, size)
    decreases |b| - i
  {
    if HexValue(c[i]) >= 0 {
      DigitsWithin(b, c, i + 1, digits + 1, size * 16 + HexValue(c[i]));
    }
  }

  lemma {:induction false} BlanksWithin(b: seq<byte>, c: seq<byte>, i: nat)
    requires Prefix(b, c) && i <= |b| && Blanks(c, i) < |b|
    ensures Blanks(b, i) == Blanks(c, i)
    decreases |b| - i
  {
    if c[i] == 32 || c[i] == 9 {
      BlanksWithin(b, c, i + 1);
    }
  }

  /** Every earlier look that refuses c agrees with the look at the whole. */
  ghost predicate OneStatus(c: seq<byte>, st: State, maxBody: nat)
    requires st.pos <= |c|
  {
    forall n :: st.pos <= n <= |c| && Run(c[..n], st, maxBody).Refused? ==>
        Run(c[..n], st, maxBody) == Run(c, st, maxBody)
  }

  /** Which refusal it is depends on where a read ends exactly for a trailer line that is bad
      late. */
  lemma StatusDependsIff(c: seq<byte>, st: State, maxBody: nat)
    requires st.pos <= |c|
    ensures OneStatus(c, st, maxBody) <==> !Late(c, st, maxBody)
  {
    hide Run, Late, StopAt;
    if Late(c, st, maxBody) {
      var n := StatusSplits(c, st, maxBody);
    } else {
      forall n | st.pos <= n <= |c| && Run(c[..n], st, maxBody).Refused?
        ensures Run(c[..n], st, maxBody) == Run(c, st, maxBody)
      {
        StatusSettled(c[..n], c, st, maxBody);
      }
    }
  }

  /** The same over a run of reads: with no such line they come to what one look does,
      status and all. */
  lemma {:induction false} SplitStatus(bs: seq<seq<byte>>, st: State, maxBody: nat)
    requires bs != [] && Growing(bs) && st.pos <= |bs[0]| <= |bs[|bs| - 1]| && !Late(bs[|bs| - 1], st, maxBody)
    ensures Feed(bs, st, maxBody) == Run(bs[|bs| - 1], st, maxBody)
    decreases |bs|
  {
    hide Run, Prefix, Late;
    var b, last := bs[0], bs[|bs| - 1];
    assert Prefix(b, last);
    Resumes(b, last, st, maxBody);
    Settled(b, last, st, maxBody);
    var v := Run(b, st, maxBody);
    if v.Refused? {
      StatusSettled(b, last, st, maxBody);
    } else if |bs| > 1 && v.More? {
      assert bs[1..][|bs| - 2] == last && Prefix(b, bs[1]) && Prefix(bs[1], last);
      PrefixFits(b, bs[1]);
      PrefixFits(bs[1], last);
      LateStill(b, last, st, maxBody);
      SplitStatus(bs[1..], v.at, maxBody);
    }
  }

  lemma {:induction false} LateStill(b: seq<byte>, c: seq<byte>, st: State, maxBody: nat)
    requires Prefix(b, c) && st.pos <= |b| && Run(b, st, maxBody).More?
    ensures StopAt(c, Run(b, st, maxBody).at, maxBody) == StopAt(c, st, maxBody)
    ensures Late(c, Run(b, st, maxBody).at, maxBody) == Late(c, st, maxBody)
    decreases |b| - st.pos
  {
    hide UnitAt, LineEnd, BadAt;
    UnitStable(b, c, st, maxBody);
    var u := UnitAt(b, st, maxBody);
    if u.Go? {
      LateStill(b, c, u.next, maxBody);
    }
  }

  lemma {:induction false} LettersOpen(b: seq<byte>, i: nat, n: nat)
    requires i <= n <= |b| && forall k :: i <= k < n ==> b[k] == 97
    ensures LineEnd(b, i) == LineEnd(b, n)
    decreases n - i
  {
    if i < n {
      LettersOpen(b, i + 1, n);
    }
  }

  /** One body it depends for, after any head: the last chunk, then a trailer line past the
      limit, refused with 431 until the control byte in it arrives, and with 400 then. */
  lemma StatusDepends(head: seq<byte>, maxBody: nat)
    ensures var b := head + [48, CR, LF] + seq(8193, _ => 97 as byte);
            var st := State(|head|, 0, false, 0);
            Run(b, st, maxBody) == Refused(431) && Run(b + [1], st, maxBody) == Refused(400)
  {
    var b := head + [48, CR, LF] + seq(8193, _ => 97 as byte);
    var n := |head| + 3;
    LastChunk(b, |head|, maxBody);
    LastChunk(b + [1], |head|, maxBody);
    LettersOpen(b, n, n + 8193);
    LettersOpen(b + [1], n, n + 8193);
    assert (b + [1])[n + 8193] == 1;
  }

  lemma LastChunk(b: seq<byte>, at: nat, maxBody: nat)
    requires at + 3 <= |b| && b[at] == 48 && b[at + 1] == CR && b[at + 2] == LF
    ensures var st := State(at, 0, false, 0);
            Run(b, st, maxBody) == Run(b, State(at + 3, 0, true, 0), maxBody)
  {
    assert Digits(b, at + 1, 1, 0) == Hex(at + 1, 1, 0);
    assert Blanks(b, at + 1) == at + 1;
    assert LineEnd(b, at + 1) == Ends(at + 3);
  }

  /** The data of the chunks a scan passes. */
  function Payload(b: seq<byte>, st: State, maxBody: nat): (d: seq<byte>)
    requires st.pos <= |b|
    decreases |b| - st.pos
  {
    var u := UnitAt(b, st, maxBody);
    if !u.Go? || st.trailers then [] else ChunkData(b, st, u.next) + Payload(b, u.next, maxBody)
  }

  /** The data of the chunk between two states: just before the CRLF it ends with. */
  function ChunkData(b: seq<byte>, st: State, next: State): seq<byte>
    requires next.pos <= |b|
  {
    var n := next.total - st.total;
    if next.trailers || n < 0 || next.pos < n + 2 then [] else b[next.pos - 2 - n..next.pos - 2]
  }

  /** chunk_line_end. */
  method FindLineEnd(b: seq<byte>, start: nat) returns (r: Line)
    ensures r == LineEnd(b, start)
  {
    var i := start;
    while i < |b|
      invariant start <= i && LineEnd(b, i) == LineEnd(b, start)
      decreases |b| - i
    {
      if b[i] == CR {
        if i + 1 >= |b| {
          return Open;
        }
        return if b[i + 1] != LF then Line.Bad else Ends(i + 2);
      }
      if (b[i] < 32 && b[i] != 9) || b[i] == 127 {
        return Line.Bad;
      }
      i := i + 1;
    }
    return Open;
  }

  /** ChunkScan: the scanner's state between reads. */
  class ChunkScan {
    var pos: nat
    var total: nat
    var trailers: bool
    var trailerBytes: nat

    ghost function Value(): State
      reads this
    {
      State(pos, total, trailers, trailerBytes)
    }

    constructor (start: nat)
      ensures Value() == State(start, 0, false, 0)
    {
      pos, total, trailers, trailerBytes := start, 0, false, 0;
    }

    /** scan_chunked. */
    method Scan(b: seq<byte>, maxBody: nat) returns (v: Answer)
      requires pos <= |b|
      modifies this
      ensures var run := Run(b, old(Value()), maxBody);
              match run
              case More(at) => v == Incomplete && Value() == at
              case Done(at) => v == Complete && Value() == at
              case Refused(status) => v == Refusal(status)
    {
      hide ChunkUnit, TrailerUnit;
      while !trailers
        invariant pos <= |b| && Run(b, Value(), maxBody) == Run(b, old(Value()), maxBody)
        decreases |b| - pos, trailers
      {
        var u := Chunk(b, maxBody);
        if u != Complete {
          return u;
        }
      }
      while true
        invariant trailers && pos <= |b| && Run(b, Value(), maxBody) == Run(b, old(Value()), maxBody)
        decreases |b| - pos
      {
        var u, last := Trailer(b);
        if u != Complete || last {
          return u;
        }
      }
    }

    /** One turn of the chunk loop; Complete when it moved on. */
    method Chunk(b: seq<byte>, maxBody: nat) returns (v: Answer)
      requires pos <= |b| && !trailers
      modifies this
      ensures match ChunkUnit(b, old(Value()), maxBody)
              case Wait => v == Incomplete && Value() == old(Value())
              case Refuse(status) => v == Refusal(status)
              case Go(next) => v == Complete && Value() == next
              case Finish(_) => false
    {
      hide Digits, Blanks, LineEnd;
      var i, size, digits := pos, 0, 0;
      var overlong := false;
      i, digits, size, overlong := ReadSize(b);
      if overlong {
        return Refusal(400);
      }
      if i >= |b| {
        return Incomplete;
      }
      if digits == 0 {
        return Refusal(400);
      }
      i := SkipBlanks(b, i);
      if i >= |b| {
        return if |b| - pos > MAX_LINE then Refusal(400) else Incomplete;
      }
      if b[i] != CR && b[i] != 59 {
        return Refusal(400);
      }
      var line := FindLineEnd(b, i);
      if line == Line.Bad {
        return Refusal(400);
      }
      if line.Open? {
        return if |b| - pos > MAX_LINE then Refusal(400) else Incomplete;
      }
      i := line.at;
      if i - pos > MAX_LINE {
        return Refusal(400);
      }
      if size == 0 {
        pos, trailers := i, true;
        return Complete;
      }
      if total + size > maxBody {
        return Refusal(413);
      }
      if |b| < i + size + 2 {
        return Incomplete;
      }
      if b[i + size] != CR || b[i + size + 1] != LF {
        return Refusal(400);
      }
      total := total + size;
      pos := i + size + 2;
      return Complete;
    }

    method ReadSize(b: seq<byte>) returns (i: nat, digits: nat, size: nat, overlong: bool)
      ensures var hex := Digits(b, pos, 0, 0);
              if overlong then hex.TooMany? else hex == Hex(i, digits, size)
    {
      i, digits, size, overlong := pos, 0, 0, false;
      while i < |b| && HexValue(b[i]) >= 0
        invariant pos <= i && Digits(b, i, digits, size) == Digits(b, pos, 0, 0)
        decreases |b| - i
      {
        digits := digits + 1;
        if digits > MAX_DIGITS {
          overlong := true;
          return;
        }
        size := size * 16 + HexValue(b[i]);
        i := i + 1;
      }
    }

    method SkipBlanks(b: seq<byte>, start: nat) returns (i: nat)
      ensures i == Blanks(b, start)
    {
      i := start;
      while i < |b| && (b[i] == 32 || b[i] == 9)
        invariant start <= i && Blanks(b, i) == Blanks(b, start)
        decreases |b| - i
      {
        i := i + 1;
      }
    }

    /** One trailer line; Complete when it moved on, last at the empty line. */
    method Trailer(b: seq<byte>) returns (v: Answer, last: bool)
      requires pos <= |b| && trailers
      modifies this`pos, this`trailerBytes
      ensures match TrailerUnit(b, old(Value()))
              case Wait => v == Incomplete && Value() == old(Value())
              case Refuse(status) => v == Refusal(status)
              case Go(next) => v == Complete && !last && Value() == next
              case Finish(next) => v == Complete && last && Value() == next
    {
      hide LineEnd, IsTchar;
      last := false;
      var start := pos;
      var line := FindLineEnd(b, start);
      if line == Line.Bad {
        return Refusal(400), false;
      }
      if line.Open? {
        return if |b| - start > MAX_TRAILER then Refusal(431) else Incomplete, false;
      }
      var i := line.at;
      pos := i;
      if i == start + 2 {
        return Complete, true;
      }
      trailerBytes := trailerBytes + (i - start);
      if trailerBytes > MAX_TRAILER {
        return Refusal(431), false;
      }
      var good := FieldName(b, start, i - 2);
      if !good {
        return Refusal(400), false;
      }
      return Complete, false;
    }

    /** The line has a name before its first colon, of token characters. */
    method FieldName(b: seq<byte>, start: nat, end: nat) returns (good: bool)
      requires start <= end <= |b|
      ensures var colon := Colon(b, start, end);
              good <==> colon != start && colon < end && forall k :: start <= k < colon ==> IsTchar(b[k])
    {
      hide IsTchar;
      var colon := start;
      while colon < end && b[colon] != 58
        invariant start <= colon <= end && Colon(b, colon, end) == Colon(b, start, end)
      {
        colon := colon + 1;
      }
      if colon == start || colon >= end {
        return false;
      }
      for k := start to colon
        invariant forall j :: start <= j < k ==> IsTchar(b[j])
      {
        if !IsTchar(b[k]) {
          return false;
        }
      }
      return true;
    }
  }

  /** What a scan answers its caller. */
  datatype Answer = Incomplete | Complete | Refusal(status: nat)

  /** Hex digits without a limit, as the decoder reads them. */
  function HexRun(b: seq<byte>, i: nat, size: nat): (nat, nat)
    decreases |b| - i
  {
    if i >= |b| || HexValue(b[i]) < 0 then (i, size) else HexRun(b, i + 1, size * 16 + HexValue(b[i]))
  }

  lemma {:induction false} HexRunIs(b: seq<byte>, i: nat, digits: nat, size: nat)
    requires Digits(b, i, digits, size).Hex?
    ensures var r := Digits(b, i, digits, size); HexRun(b, i, size) == (r.at, r.size)
    decreases |b| - i
  {
    if i < |b| && HexValue(b[i]) >= 0 {
      HexRunIs(b, i + 1, digits + 1, size * 16 + HexValue(b[i]));
    }
  }

  /** The first LF at i or after. */
  function NextLf(b: seq<byte>, i: nat): (r: nat)
    ensures i <= r
    decreases |b| - i
  {
    if i < |b| && b[i] != LF then NextLf(b, i + 1) else i
  }

  lemma {:induction false} LfEndsLine(b: seq<byte>, i: nat)
    requires LineEnd(b, i).Ends?
    ensures NextLf(b, i) == LineEnd(b, i).at - 1
    decreases |b| - i
  {
    if b[i] != CR {
      LfEndsLine(b, i + 1);
    } else {
      assert NextLf(b, i) == NextLf(b, i + 1);
    }
  }

  lemma {:induction false} LfPastBlanks(b: seq<byte>, i: nat)
    ensures NextLf(b, i) == NextLf(b, Blanks(b, i))
    decreases |b| - i
  {
    if i < |b| && (b[i] == 32 || b[i] == 9) {
      LfPastBlanks(b, i + 1);
    }
  }

  /** A chunk the scanner passed, as the decoder reads it. */
  lemma DecodesUnit(b: seq<byte>, st: State, maxBody: nat)
    requires st.pos <= |b| && !st.trailers && ChunkUnit(b, st, maxBody).Go?
    ensures var next := ChunkUnit(b, st, maxBody).next;
            var (at, size) := HexRun(b, st.pos, 0);
            var i := NextLf(b, at) + 1;
            if size == 0 then next.trailers
            else
              && !next.trailers && next.pos == i + size + 2 && i + size <= |b|
              && ChunkData(b, st, next) == b[i..i + size]
  {
    hide Digits, Blanks, LineEnd, HexRun, NextLf;
    HexRunIs(b, st.pos, 0, 0);
    var hex := Digits(b, st.pos, 0, 0);
    LfPastBlanks(b, hex.at);
    LfEndsLine(b, Blanks(b, hex.at));
  }

  /** A chunk of an accepted body: the scan goes on past it, and so does its data. */
  lemma AcceptedUnit(b: seq<byte>, st: State, maxBody: nat)
    requires st.pos <= |b| && !st.trailers && Run(b, st, maxBody).Done?
    ensures var u := ChunkUnit(b, st, maxBody);
            && u.Go? && Run(b, u.next, maxBody).Done?
            && Payload(b, st, maxBody) == ChunkData(b, st, u.next) + Payload(b, u.next, maxBody)
            && (u.next.trailers ==> Payload(b, st, maxBody) == [])
  {
    hide ChunkUnit;
  }

  /** The scanner's total is the length of the data. */
  lemma {:induction false} PayloadSize(b: seq<byte>, st: State, maxBody: nat)
    requires st.pos <= |b| && Run(b, st, maxBody).Done?
    ensures Run(b, st, maxBody).at.total == st.total + |Payload(b, st, maxBody)|
    ensures st.total <= maxBody ==> Run(b, st, maxBody).at.total <= maxBody
    decreases |b| - st.pos
  {
    var u := UnitAt(b, st, maxBody);
    if u.Go? {
      PayloadSize(b, u.next, maxBody);
    }
  }

  /** decode_chunked: the data of a body the scanner accepted under any limit. */
  method Decode(b: seq<byte>, start: nat, ghost maxBody: nat) returns (out: seq<byte>)
    requires start <= |b|
    ensures var st := State(start, 0, false, 0);
            Run(b, st, maxBody).Done? ==> out == Payload(b, st, maxBody)
  {
    hide ChunkUnit, NextLf, HexRun, ChunkData, Run, Payload;
    ghost var init := State(start, 0, false, 0);
    ghost var st := init;
    ghost var accepted := Run(b, init, maxBody).Done?;
    out := [];
    var i := start;
    while true
      invariant accepted ==> st.pos == i <= |b| && !st.trailers && Run(b, st, maxBody).Done?
      invariant accepted ==> out + Payload(b, st, maxBody) == Payload(b, init, maxBody)
      decreases |b| - i
    {
      if accepted {
        AcceptedUnit(b, st, maxBody);
        DecodesUnit(b, st, maxBody);
      }
      var at, size := ReadHex(b, i);
      at := SkipLine(b, at);
      ghost var next := if accepted then ChunkUnit(b, st, maxBody).next else st;
      if size == 0 || at + size > |b| {
        return;
      }
      if accepted {
        Assoc(out, ChunkData(b, st, next), Payload(b, next, maxBody));
      }
      out := out + b[at..at + size];
      i := at + size + 2;
      st := next;
    }
  }

  method ReadHex(b: seq<byte>, start: nat) returns (i: nat, size: nat)
    ensures (i, size) == HexRun(b, start, 0) && start <= i
  {
    i, size := start, 0;
    while i < |b| && HexValue(b[i]) >= 0
      invariant start <= i && HexRun(b, i, size) == HexRun(b, start, 0)
      decreases |b| - i
    {
      size := size * 16 + HexValue(b[i]);
      i := i + 1;
    }
  }

  method SkipLine(b: seq<byte>, start: nat) returns (i: nat)
    ensures i == NextLf(b, start) + 1
  {
    i := start;
    while i < |b| && b[i] != LF
      invariant start <= i && NextLf(b, i) == NextLf(b, start)
      decreases |b| - i
    {
      i := i + 1;
    }
    i := i + 1;
  }
}
