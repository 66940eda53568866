/** What the slots of an HTTP/2 connection and its client's view keep together, on values:
    each step of engine/h2.v as a change of one slot and one frame. */
module H2World {
  import opened Basics
  import opened H2Slots
  import opened H2Receive
  import opened H2Client

  /** What the application makes of a request: an answer now, one later, or a stream whose
      first callback wrote something. */
  datatype Answer =
    | Reply(statusOk: bool, body: seq<byte>, file: seq<byte>, readable: nat)
    | Deferred
    | Streamed(statusOk: bool, written: seq<byte>, ended: bool)

  ghost predicate Busies(ss: seq<Slot>) {
    forall i :: 0 <= i < |ss| ==> ss[i].Busy()
  }

  /** A slot given back. */
  function Freed(s: Slot): Slot {
    if s.id == 0 then s else
      s.(id := 0, receiving := false, sending := false, waiting := false, streaming := false, hasFile := false,
          file := [])
  }

  /** A streaming slot no longer written, its output moved to the front. */
  function Ended(s: Slot): Slot
    requires s.outOff <= |s.out|
  {
    if s.streaming then s.(streaming := false, out := s.out[s.outOff..], outOff := 0) else s
  }

  lemma EndedTied(s: Slot, c: Client, p: map<nat, seq<byte>>)
    requires Tied(s, c, p)
    ensures Tied(Ended(s), c, p)
  {
    assert s.out[s.outOff..][0..] == s.out[s.outOff..];
  }

  /** No other slot has slot i's stream. */
  lemma Alone(ss: seq<Slot>, i: nat, last: nat)
    requires Proper(ss, last) && i < |ss| && ss[i].id != 0
    ensures forall j :: 0 <= j < |ss| && j != i ==> ss[j].id != ss[i].id
  {
  }

  const FREE: Slot := Slot(0, false, false, false, false, [], -1, 0, 0, [], 0, false, [], 0)

  /** A free slot more changes nothing. */
  lemma PushFree(ss: seq<Slot>, last: nat, l: Limits, withheld: bool, c: Client, p: map<nat, seq<byte>>)
    requires Proper(ss, last)
    ensures Proper(ss + [FREE], last) && Total(ss + [FREE]) == Total(ss)
    ensures Budgeted(ss, l) ==> Budgeted(ss + [FREE], l)
    ensures Covered(ss, withheld) ==> Covered(ss + [FREE], withheld)
    ensures AllTied(ss, c, p) ==> AllTied(ss + [FREE], c, p)
    ensures Busies(ss) ==> Busies(ss + [FREE])
    ensures forall hand :: Tended(ss, c, hand) ==> Tended(ss + [FREE], c, hand)
  {
    hide Total, Excess, Tied, Oldest, Tended;
    forall hand | Tended(ss, c, hand)
      ensures Tended(ss + [FREE], c, hand)
    {
      TendedSame(ss, ss + [FREE], c, hand);
    }
    TotalPush(ss, FREE);
    ExcessPush(ss, FREE, l.win, Oldest(ss));
    OldestLast(ss, FREE);
  }

  /** What is left of a slot once k bytes of its output went out: freed after the last,
      idle when a stream still written has nothing held. */
  function Sent(s: Slot, k: nat): Slot
    requires s.outOff + k <= |s.out|
  {
    var t := s.(outOff := s.outOff + k, sendWin := s.sendWin - k);
    if t.outOff == |t.out| && s.file == [] && !s.streaming then Freed(t)
    else if t.outOff == |t.out| && s.streaming then t.(sending := false, out := [], outOff := 0)
    else t
  }

  lemma SentCut(s: Slot, k: nat)
    requires s.outOff + k <= |s.out|
    ensures var t := Sent(s, k);
            (t.id == 0 || t.id == s.id) && (t.id != 0 && t.readable < |t.file| ==> s.readable < |s.file|)
  {
  }

  lemma SentKeeps(s: Slot, k: nat, c: Client, p: map<nat, seq<byte>>)
    requires s.Sound() && s.id != 0 && s.sending && 0 < k <= |s.out| - s.outOff && Tied(s, c, p) && c.MayData(s.id, k)
    ensures var bytes := s.out[s.outOff..s.outOff + k];
            var end := k == |s.out| - s.outOff && s.file == [] && !s.streaming;
            var t := Sent(s, k);
            && t.Sound() && t.Busy() && !t.receiving && s.id in p && Prefix(c.got[s.id] + bytes, p[s.id])
            && (end ==> c.got[s.id] + bytes == p[s.id])
            && (if t.id == 0 then end else t.id == s.id && Tied(t, c.Data(s.id, bytes, end), p))
  {
    var bytes, rest := s.out[s.outOff..s.outOff + k], s.out[s.outOff + k..];
    assert s.out[s.outOff..] == bytes + rest;
    RegroupParts(c.got[s.id], bytes, rest, s.file);
  }

  lemma RegroupParts(a: seq<byte>, b: seq<byte>, c: seq<byte>, d: seq<byte>)
    ensures a + (b + c) + d == (a + b) + c + d && (c == [] && d == [] ==> a + (b + c) + d == a + b)
    ensures Prefix(a + b, a + (b + c) + d)
  {
  }

  /** A slot just taken. */
  function Blank(id: nat, recvWin: int, sendWin: int): Slot {
    Slot(id, false, false, false, false, [], -1, recvWin, sendWin, [], 0, false, [], 0)
  }

  /** What changing a slot that is not receiving leaves true. */
  lemma SetKeeps(ss: seq<Slot>, i: nat, s: Slot, last: nat, l: Limits, withheld: bool, c: Client,
                 p: map<nat, seq<byte>>)
    requires Proper(ss, last) && i < |ss| && s.Sound() && (s.id == ss[i].id || s.id == 0) && !s.receiving
    requires !ss[i].receiving
    ensures Proper(ss[i := s], last) && Total(ss[i := s]) == Total(ss).Minus(Of(ss[i])).Plus(Of(s))
    ensures Budgeted(ss, l) ==> Budgeted(ss[i := s], l)
    ensures Covered(ss, withheld) ==> Covered(ss[i := s], withheld)
    ensures AllTied(ss, c, p) && (s.id != 0 ==> Tied(s, c, p)) ==> AllTied(ss[i := s], c, p)
    ensures s.Busy() && (forall j :: 0 <= j < |ss| && j != i ==> ss[j].Busy()) ==> Busies(ss[i := s])
  {
    hide Total, Oldest, Excess, Tied, Proper, Budgeted, Covered, Of, Slot.Busy, Slot.Sound;
    ProperUpdate(ss, i, s, last);
    TotalUpdate(ss, i, s);
    Aside(ss, i, s, l, withheld, last);
    ElsewhereSame(c, p, 0);
    if AllTied(ss, c, p) && (s.id != 0 ==> Tied(s, c, p)) {
      TiedUpdate(ss, i, s, c, c, p, p, 0);
    }
  }

  /** What an open connection keeps, but for its counters. */
  ghost predicate World(ss: seq<Slot>, last: nat, l: Limits, withheld: bool, c: Client, p: map<nat, seq<byte>>) {
    && Proper(ss, last) && Busies(ss) && Budgeted(ss, l) && Covered(ss, withheld)
    && AllTied(ss, c, p) && Kept(c, p) && Opened(c, last) && Tended(ss, c, 0)
  }

  /** k bytes of slot i's held output go out. */
  lemma HeldWorld(ss: seq<Slot>, i: nat, k: nat, last: nat, l: Limits, withheld: bool, c: Client,
                  p: map<nat, seq<byte>>)
    requires World(ss, last, l, withheld, c, p) && i < |ss| && ss[i].sending
    requires 0 < k <= |ss[i].out| - ss[i].outOff && k <= c.conn && k <= ss[i].sendWin
    ensures c.MayData(ss[i].id, k)
    ensures var s := ss[i];
            var end := k == |s.out| - s.outOff && s.file == [] && !s.streaming;
            var d := c.Data(s.id, s.out[s.outOff..s.outOff + k], end);
            World(ss[i := Sent(s, k)], last, l, withheld, d, p) && d.conn == c.conn - k && d.initial == c.initial
  {
    hide Oldest, Excess, Budgeted, Proper, Covered, Kept, AllTied, Tied, Opened, Busies, Sent, Slot.Busy, Slot.Sound;
    hide Prefix, Client.MayData;
    var s := ss[i];
    InUse(ss, i, last);
    TiedAt(ss, i, c, p);
    MaySend(s, c, p, k);
    SentKeeps(s, k, c, p);
    PumpKeeps(ss, i, Sent(s, k), last, l, withheld, c, p, s.out[s.outOff..s.outOff + k],
              k == |s.out| - s.outOff && s.file == [] && !s.streaming);
  }

  /** A streaming slot with more to send. */
  function Written(s: Slot, written: seq<byte>): Slot
    requires s.outOff <= |s.out|
  {
    s.(out := s.out[s.outOff..] + written, outOff := 0, sending := s.sending || |written| > 0)
  }

  /** A streaming slot is sending exactly while it holds something. */
  lemma WrittenSends(ss: seq<Slot>, i: nat, written: seq<byte>)
    requires Busies(ss) && i < |ss| && ss[i].Sound() && ss[i].streaming && ss[i].file == []
    ensures Written(ss[i], written).sending <==> Written(ss[i], written).out != []
  {
    assert ss[i].Busy();
  }

  lemma StreamingAt(ss: seq<Slot>, i: nat, last: nat)
    requires Proper(ss, last) && i < |ss| && ss[i].streaming
    ensures var s := ss[i]; s.Sound() && s.id != 0 && !s.receiving && !s.hasFile && s.file == [] && s.outOff <= |s.out|
    ensures !ss[i].sending ==> ss[i].out == []
  {
  }

  /** A streaming slot's answer grows. */
  lemma WriteWorld(ss: seq<Slot>, i: nat, written: seq<byte>, last: nat, l: Limits, withheld: bool, c: Client,
                   p: map<nat, seq<byte>>)
    requires World(ss, last, l, withheld, c, p) && i < |ss| && ss[i].streaming
    ensures ss[i].id > 0 && ss[i].outOff <= |ss[i].out| && ss[i].id in p && !ss[i].hasFile
    ensures World(ss[i := Written(ss[i], written)], last, l, withheld, c, p[ss[i].id := p[ss[i].id] + written])
  {
    hide Total, Oldest, Excess, Tied, Budgeted, Covered, Kept, Elsewhere, AllTied, Proper;
    var s := ss[i];
    StreamingAt(ss, i, last);
    var id, t := s.id, Written(s, written);
    TiedAt(ss, i, c, p);
    WrittenTied(s, written, c, p);
    ProperUpdate(ss, i, t, last);
    Aside(ss, i, t, l, withheld, last);
    KeptMore(c, p, id, written);
    ElsewhereMore(c, p, id, p[id] + written);
    Alone(ss, i, last);
    TiedUpdate(ss, i, t, c, c, p, p[id := p[id] + written], id);
    TendedSame(ss, ss[i := t], c, 0);
  }

  lemma WrittenTied(s: Slot, written: seq<byte>, c: Client, p: map<nat, seq<byte>>)
    requires Tied(s, c, p) && s.streaming && s.file == [] && s.outOff <= |s.out|
    ensures s.id in c.answered && s.id !in c.ended && s.id in p
    ensures Tied(Written(s, written), c, p[s.id := p[s.id] + written])
  {
    var rest := s.out[s.outOff..];
    assert (rest + written)[0..] == rest + written;
    RegroupParts(c.got[s.id], rest, written, []);
    assert c.got[s.id] + rest + [] == c.got[s.id] + rest;
  }

  /** A streaming slot is no longer written, with output still held. */
  lemma EndWorld(ss: seq<Slot>, i: nat, last: nat, l: Limits, withheld: bool, c: Client, p: map<nat, seq<byte>>)
    requires World(ss, last, l, withheld, c, p) && i < |ss| && ss[i].streaming && ss[i].sending
    ensures ss[i].outOff <= |ss[i].out| && World(ss[i := Ended(ss[i])], last, l, withheld, c, p)
  {
    hide Total, Oldest, Excess, Tied, Budgeted, Covered, Kept, AllTied, Proper;
    var s := ss[i];
    StreamingAt(ss, i, last);
    TiedAt(ss, i, c, p);
    EndedTied(s, c, p);
    SetKeeps(ss, i, Ended(s), last, l, withheld, c, p);
    TendedSame(ss, ss[i := Ended(s)], c, 0);
  }

  /** A streaming slot with nothing held is ended and freed. */
  lemma LastWorld(ss: seq<Slot>, i: nat, last: nat, l: Limits, withheld: bool, c: Client, p: map<nat, seq<byte>>)
    requires World(ss, last, l, withheld, c, p) && i < |ss| && ss[i].streaming && !ss[i].sending
    ensures ss[i].outOff <= |ss[i].out| && c.MayData(ss[i].id, 0)
    ensures var d := c.Data(ss[i].id, [], true);
            World(ss[i := Freed(Ended(ss[i]))], last, l, withheld, d, p) && d.conn == c.conn && d.initial == c.initial
  {
    hide Total, Oldest, Excess, Budgeted, Covered, Kept, AllTied, Proper;
    var s := ss[i];
    StreamingAt(ss, i, last);
    TiedAt(ss, i, c, p);
    assert c.got[s.id] + [] == c.got[s.id] && c.got[s.id] + [] + [] == c.got[s.id];
    PumpKeeps(ss, i, Freed(Ended(s)), last, l, withheld, c, p, [], true);
  }

  /** What is left of a slot once k bytes of its file went out. */
  function FileSent(s: Slot, k: nat): Slot
    requires k <= |s.file| && k <= s.readable
  {
    var t := s.(file := s.file[k..], readable := s.readable - k, sendWin := s.sendWin - k);
    if t.file == [] then Freed(t) else t
  }

  /** The file of stream id's answer has become shorter than what was to be sent of it. */
  ghost predicate Cut(ss: seq<Slot>, id: nat) {
    exists i :: 0 <= i < |ss| && ss[i].id == id && ss[i].readable < |ss[i].file|
  }

  /** What sending held output does to the streams: answers go on or end, no stream is reset
      but one whose file was cut, and slots with nothing to send stay as they are but for
      their receive windows. */
  ghost predicate Pumped(ss: seq<Slot>, c: Client, tt: seq<Slot>, d: Client) {
    && |tt| == |ss| && (forall i :: 0 <= i < |ss| && !ss[i].sending ==> tt[i] == ss[i].(recvWin := tt[i].recvWin))
    && d.answered == c.answered && c.ended <= d.ended && c.gone <= d.gone
    && (forall id :: id in d.gone ==> id in c.gone || Cut(ss, id))
    && (forall id :: id != 0 && Cut(tt, id) ==> Cut(ss, id))
  }

  lemma PumpedChain(ss: seq<Slot>, c: Client, tt: seq<Slot>, d: Client, uu: seq<Slot>, e: Client)
    requires Pumped(ss, c, tt, d) && Pumped(tt, d, uu, e) && 0 !in e.gone
    ensures Pumped(ss, c, uu, e)
  {
    hide Cut;
  }

  /** A DATA frame of slot i's stream, what is left of a file still as short as it was. */
  lemma PumpedData(ss: seq<Slot>, i: nat, t: Slot, c: Client, bytes: seq<byte>, end: bool)
    requires i < |ss| && ss[i].id != 0 && ss[i].sending && c.MayData(ss[i].id, |bytes|)
    requires t.id == 0 || t.id == ss[i].id
    requires t.id != 0 && t.readable < |t.file| ==> ss[i].readable < |ss[i].file|
    ensures Pumped(ss, c, ss[i := t], c.Data(ss[i].id, bytes, end))
  {
    var tt := ss[i := t];
    forall id | id != 0 && Cut(tt, id)
      ensures Cut(ss, id)
    {
      var j :| 0 <= j < |tt| && tt[j].id == id && tt[j].readable < |tt[j].file|;
      assert ss[j].id == id;
    }
  }

  /** The slot of stream id was freed; the others but for their receive windows are as they
      were. */
  ghost predicate Spared(was: seq<Slot>, now: seq<Slot>, id: nat) {
    && |now| == |was|
    && (forall j :: 0 <= j < |was| && was[j].id == id ==> now[j].id == 0)
    && (forall j :: 0 <= j < |was| && was[j].id != id ==> now[j] == was[j].(recvWin := now[j].recvWin))
  }

  /** The same from before a change of the slot that was freed. */
  lemma SparedFrom(was: seq<Slot>, i: nat, mid: seq<Slot>, now: seq<Slot>)
    requires i < |was| && |mid| == |was| && mid == was[i := mid[i]] && mid[i].id == was[i].id
    requires Spared(mid, now, was[i].id)
    ensures Spared(was, now, was[i].id) && |now| == |was|
  {
  }

  lemma PumpedReset(ss: seq<Slot>, tt: seq<Slot>, c: Client, id: nat)
    requires Cut(ss, id) && id in c.win && Spared(ss, tt, id) && Absent(tt, id)
    requires forall i :: 0 <= i < |ss| && ss[i].id == id ==> ss[i].sending
    ensures Pumped(ss, c, tt, c.Reset(id))
  {
    forall k | k != 0 && Cut(tt, k)
      ensures Cut(ss, k)
    {
      var j :| 0 <= j < |tt| && tt[j].id == k && tt[j].readable < |tt[j].file|;
      assert ss[j].id == k;
    }
  }

  lemma PumpedNone(ss: seq<Slot>, c: Client)
    ensures Pumped(ss, c, ss, c)
  {
  }

  /** k bytes of slot i's file go out. */
  lemma FileWorld(ss: seq<Slot>, i: nat, k: nat, last: nat, l: Limits, withheld: bool, c: Client,
                  p: map<nat, seq<byte>>)
    requires World(ss, last, l, withheld, c, p) && i < |ss| && ss[i].sending && ss[i].outOff == |ss[i].out|
    requires 0 < k <= |ss[i].file| && k <= ss[i].readable && k <= c.conn && k <= ss[i].sendWin
    ensures c.MayData(ss[i].id, k)
    ensures var d := c.Data(ss[i].id, ss[i].file[..k], k == |ss[i].file|);
            World(ss[i := FileSent(ss[i], k)], last, l, withheld, d, p) && d.conn == c.conn - k
                && d.initial == c.initial
  {
    hide Oldest, Excess, Budgeted, Proper, Covered, Kept, AllTied, Tied, Opened, Busies, FileSent, Slot.Busy;
    hide Slot.Sound, Prefix, Client.MayData;
    var s := ss[i];
    InUse(ss, i, last);
    TiedAt(ss, i, c, p);
    MaySend(s, c, p, k);
    FileKeeps(s, k, c, p);
    PumpKeeps(ss, i, FileSent(s, k), last, l, withheld, c, p, s.file[..k], k == |s.file|);
  }

  lemma FileKeeps(s: Slot, k: nat, c: Client, p: map<nat, seq<byte>>)
    requires s.Sound() && s.id != 0 && s.sending && s.outOff == |s.out| && Tied(s, c, p) && c.MayData(s.id, k)
    requires 0 < k <= |s.file| && k <= s.readable
    ensures var bytes := s.file[..k];
            var t := FileSent(s, k);
            && t.Sound() && t.Busy() && !t.receiving && s.id in p && Prefix(c.got[s.id] + bytes, p[s.id])
            && (k == |s.file| ==> c.got[s.id] + bytes == p[s.id])
            && (if t.id == 0 then k == |s.file| else t.id == s.id && Tied(t, c.Data(s.id, bytes, k == |s.file|), p))
  {
    var bytes, rest := s.file[..k], s.file[k..];
    assert s.file == bytes + rest && s.out[s.outOff..] == [];
    RegroupParts(c.got[s.id], bytes, [], rest);
    RegroupParts(c.got[s.id], [], bytes, rest);
    assert c.got[s.id] + [] == c.got[s.id] && bytes + [] == bytes && [] + bytes == bytes;
    Assoc(c.got[s.id], bytes, rest);
  }

  /** The slot a pass comes to in turn j, from slot at on. */
  function Turn(at: nat, j: nat, len: nat): (i: nat)
    requires at < len
    ensures i < len
  {
    (at + j) % len
  }

  /** Every slot has its turn. */
  lemma TurnOf(at: nat, i: nat, len: nat) returns (j: nat)
    requires at < len && i < len
    ensures j < len && Turn(at, j, len) == i
  {
    j := if i >= at then i - at else i + len - at;
    if i < at {
      DivUnique(at + j, len, 1, i);
    }
  }

  /** The slot had its turn: a frame of at most 16384 bytes of its output went out, its last
      perhaps, or its stream was reset. */
  ghost predicate TurnTaken(was: Slot, now: Slot) {
    now.id == 0 || (now.id == was.id && was.sendWin - 16384 <= now.sendWin < was.sendWin)
  }

  /** Nothing of the slot's output went out. */
  ghost predicate Untouched(was: Slot, now: Slot) {
    now == was.(recvWin := now.recvWin)
  }

  /** The slots from at on had m turns: each with output and a window took its own, and
      nothing of the others' went out. */
  ghost predicate Served(was: seq<Slot>, now: seq<Slot>, at: nat, m: nat) {
    && |now| == |was| && at < |was| && m <= |was|
    && (forall t :: 0 <= t < m ==>
          var (s, u) := (was[Turn(at, t, |was|)], now[Turn(at, t, |was|)]);
          if s.sending && s.sendWin > 0 then TurnTaken(s, u) else Untouched(s, u))
    && (forall t :: m <= t < |was| ==> Untouched(was[Turn(at, t, |was|)], now[Turn(at, t, |was|)]))
  }

  /** No other slot has the stream that was freed. */
  lemma SparedOthers(was: seq<Slot>, now: seq<Slot>, i: nat, last: nat)
    requires Proper(was, last) && i < |was| && was[i].id != 0 && Spared(was, now, was[i].id)
    ensures OneTurn(was, now, i)
  {
    hide Slot.Sound;
  }

  /** Slot i had its turn, and no other. */
  ghost predicate OneTurn(was: seq<Slot>, now: seq<Slot>, i: nat) {
    && |now| == |was| && i < |was| && TurnTaken(was[i], now[i])
    && forall j :: 0 <= j < |was| && j != i ==> Untouched(was[j], now[j])
  }

  lemma HeldTurn(ss: seq<Slot>, i: nat, k: nat)
    requires i < |ss| && 0 < k <= 16384 && ss[i].outOff + k <= |ss[i].out|
    ensures OneTurn(ss, ss[i := Sent(ss[i], k)], i)
  {
  }

  lemma FileTurn(ss: seq<Slot>, i: nat, k: nat)
    requires i < |ss| && 0 < k <= 16384 && k <= |ss[i].file| && k <= ss[i].readable
    ensures OneTurn(ss, ss[i := FileSent(ss[i], k)], i)
  {
  }

  lemma TurnsOn(first: nat, turns: nat, m: nat, len: nat)
    requires len > 0
    ensures Turn((first + turns) % len, m, len) == (first + turns + m) % len
  {
    var x := first + turns;
    var r := x % len + m;
    assert x == x / len * len + x % len && r == r / len * len + r % len;
    DivUnique(x + m, len, x / len + r / len, r % len);
  }

  /** Slots have different turns. */
  lemma TurnsDiffer(at: nat, s: nat, t: nat, len: nat)
    requires at < len && s < len && t < len && s != t
    ensures Turn(at, s, len) != Turn(at, t, len)
  {
    TurnIs(at, s, len);
    TurnIs(at, t, len);
  }

  lemma TurnIs(at: nat, t: nat, len: nat)
    requires at < len && t <= len
    ensures Turn(at, t, len) == if at + t < len then at + t else at + t - len
  {
    if at + t < len {
      DivUnique(at + t, len, 0, at + t);
    } else {
      DivUnique(at + t, len, 1, at + t - len);
    }
  }

  lemma TurnNext(at: nat, t: nat, len: nat)
    requires at < len && t < len
    ensures (Turn(at, t, len) + 1) % len == Turn(at, t + 1, len)
  {
    TurnIs(at, t, len);
    TurnIs(at, t + 1, len);
    var i := Turn(at, t, len);
    if i + 1 < len {
      DivUnique(i + 1, len, 0, i + 1);
    } else {
      DivUnique(i + 1, len, 1, 0);
    }
  }

  lemma ServedNone(was: seq<Slot>, at: nat)
    requires at < |was|
    ensures Served(was, was, at, 0)
  {
  }

  /** One more turn. */
  lemma ServedStep(was: seq<Slot>, mid: seq<Slot>, now: seq<Slot>, at: nat, j: nat)
    requires Served(was, mid, at, j) && j < |was| && |now| == |was|
    requires forall k :: 0 <= k < |was| && k != Turn(at, j, |was|) ==> Untouched(mid[k], now[k])
    requires var i := Turn(at, j, |was|);
             if was[i].sending && was[i].sendWin > 0 then TurnTaken(mid[i], now[i]) else Untouched(mid[i], now[i])
    ensures Served(was, now, at, j + 1)
  {
    hide Turn;
    forall t | 0 <= t < |was| && t != j
      ensures Untouched(mid[Turn(at, t, |was|)], now[Turn(at, t, |was|)])
    {
      TurnsDiffer(at, t, j, |was|);
    }
  }

  lemma TurnServed(was: seq<Slot>, mid: seq<Slot>, now: seq<Slot>, at: nat, j: nat, moved: bool)
    requires Served(was, mid, at, j) && j < |was| && |now| == |was|
    requires var i := Turn(at, j, |was|);
             && mid[i].sending && (moved ==> mid[i].sendWin > 0 && OneTurn(mid, now, i))
             && (!moved ==> mid == now && mid[i].sendWin <= 0)
    ensures Served(was, now, at, j + 1)
  {
    hide Turn;
    ServedStep(was, mid, now, at, j);
  }

  lemma TurnPassed(was: seq<Slot>, now: seq<Slot>, at: nat, j: nat)
    requires Served(was, now, at, j) && j < |was| && !now[Turn(at, j, |was|)].sending
    ensures Served(was, now, at, j + 1)
  {
    hide Turn;
    ServedStep(was, now, now, at, j);
  }

  lemma ReceivingAt(ss: seq<Slot>, i: nat, last: nat)
    requires Proper(ss, last) && i < |ss| && ss[i].receiving
    ensures var s := ss[i];
            s.Sound() && s.id != 0 && s.id <= last && s.id % 2 == 1 && !s.sending && !s.waiting && !s.streaming
  {
  }

  lemma BodyTied(s: Slot, t: Slot, c: Client, p: map<nat, seq<byte>>)
    requires Tied(s, c, p) && t == s.(body := t.body, recvWin := t.recvWin)
    ensures Tied(t, c, p)
  {
  }

  lemma StillBusy(ss: seq<Slot>, i: nat, t: Slot)
    requires Busies(ss) && i < |ss| && t == ss[i].(body := t.body, recvWin := t.recvWin)
    ensures Busies(ss[i := t])
  {
  }

  /** strip_padding: the payload without the padding, none when it does not fit. */
  function Unpad(payload: seq<byte>, padded: bool): (r: Option<seq<byte>>)
    ensures r.Some? ==> |r.value| <= |payload|
  {
    if !padded then Some(payload)
    else if |payload| < 1 || 1 > |payload| - payload[0] as int then None
    else Some(payload[1..|payload| - payload[0] as int])
  }

  /** A header block: not HPACK, past the limit, or a head with its content-length, -1
      without one, -2 when it is malformed. */
  datatype Block = Undecodable | TooLarge | Head(length: int)

  lemma Unseen(ss: seq<Slot>, last: nat, id: nat)
    requires Proper(ss, last) && id > last
    ensures Absent(ss, id) && Proper(ss, id)
  {
  }

  lemma FreshIs(c: Client, p: map<nat, seq<byte>>, last: nat, id: nat)
    requires Opened(c, last) && id > last && id % 2 == 1 && Kept(c, p)
    ensures Opened(c.Open(id), id) && c.Open(id).MayHead(id)
  {
  }

  /** The slot just taken has the newest stream. */
  lemma Newest(ss: seq<Slot>, i: nat, last: nat)
    requires Proper(ss, last) && i < |ss| && ss[i].id == last && last != 0 && ss[i].Sound()
    ensures forall j :: 0 <= j < |ss| && j != i && ss[j].receiving ==> ss[j].id < last
  {
    hide Slot.Sound;
    forall j | 0 <= j < |ss| && j != i && ss[j].receiving
      ensures ss[j].id < last
    {
      SoundAt(ss, j, last);
      ReceivingAt(ss, j, last);
    }
  }

  lemma NowBusy(ss: seq<Slot>, i: nat, t: Slot)
    requires i < |ss| && t.Busy() && forall j :: 0 <= j < |ss| && j != i ==> ss[j].Busy()
    ensures Busies(ss[i := t])
  {
  }

  lemma ConnAside(ss: seq<Slot>, c: Client, p: map<nat, seq<byte>>, last: nat, inc: int)
    ensures AllTied(ss, c, p) ==> AllTied(ss, c.GiveConn(inc), p)
    ensures Opened(c, last) ==> Opened(c.GiveConn(inc), last)
  {
  }

  /** A slot's window grows with the client's. */
  lemma GiveKeeps(ss: seq<Slot>, i: nat, t: Slot, inc: int, last: nat, l: Limits, withheld: bool, c: Client,
                  p: map<nat, seq<byte>>)
    requires Proper(ss, last) && i < |ss| && ss[i].id != 0 && t == ss[i].(sendWin := ss[i].sendWin + inc)
    requires AllTied(ss, c, p) && Kept(c, p) && Opened(c, last) && Busies(ss) && l.Sound()
    ensures Proper(ss[i := t], last) && Total(ss[i := t]) == Total(ss) && Busies(ss[i := t])
    ensures Kept(c.Give(ss[i].id, inc), p) && Opened(c.Give(ss[i].id, inc), last)
    ensures AllTied(ss[i := t], c.Give(ss[i].id, inc), p)
    ensures Budgeted(ss, l) ==> Budgeted(ss[i := t], l)
    ensures Covered(ss, withheld) ==> Covered(ss[i := t], withheld)
  {
    hide Total, Oldest, Excess, Kept, AllTied, Elsewhere, Proper;
    var id := ss[i].id;
    SoundAt(ss, i, last);
    TiedAt(ss, i, c, p);
    ProperUpdate(ss, i, t, last);
    TotalUpdate(ss, i, t);
    KeptGive(c, p, id, inc);
    ElsewhereGive(c, p, id, inc);
    Alone(ss, i, last);
    TiedUpdate(ss, i, t, c, c.Give(id, inc), p, p, id);
    AllSound(ss, last);
    SameOldest(ss, i, t);
    ExcessUpdate(ss, i, t, l.win, Oldest(ss));
  }

  lemma AllSound(ss: seq<Slot>, last: nat)
    requires Proper(ss, last)
    ensures forall j :: 0 <= j < |ss| ==> ss[j].Sound()
  {
  }

  /** Slot i's send window grown. */
  function Grown(ss: seq<Slot>, i: nat, inc: int): seq<Slot>
    requires i < |ss|
  {
    ss[i := ss[i].(sendWin := ss[i].sendWin + inc)]
  }

  /** Every slot's send window moved. */
  function AllShifted(ss: seq<Slot>, delta: int): (tt: seq<Slot>)
    ensures |tt| == |ss|
  {
    seq(|ss|, i requires 0 <= i < |ss| => Shifted(ss[i], delta))
  }

  /** A slot's window moved with the initial one. */
  function Shifted(s: Slot, delta: int): Slot {
    if s.id != 0 then s.(sendWin := s.sendWin + delta) else s
  }

  /** The same slots but for their send windows. */
  ghost predicate Windowed(ss: seq<Slot>, tt: seq<Slot>) {
    |ss| == |tt| && forall j :: 0 <= j < |ss| ==> tt[j] == ss[j].(sendWin := tt[j].sendWin)
  }

  lemma ShiftedIs(s: Slot, delta: int)
    ensures Shifted(s, delta) == if s.id != 0 then s.(sendWin := s.sendWin + delta) else s
  {
  }

  lemma PartlyShifted(ss: seq<Slot>, tt: seq<Slot>, k: nat, delta: int)
    requires |ss| == |tt| && k <= |ss|
    requires (forall j :: 0 <= j < k ==> tt[j] == Shifted(ss[j], delta)) && forall j :: k <= j < |ss| ==> tt[j] == ss[j]
    ensures Windowed(ss, tt)
  {
    forall j | 0 <= j < |ss|
      ensures tt[j] == ss[j].(sendWin := tt[j].sendWin)
    {
    }
  }

  lemma WindowedOne(s: Slot, t: Slot, win: int, skip: nat)
    requires t == s.(sendWin := t.sendWin)
    ensures Of(t) == Of(s) && Extra(t, win, skip) == Extra(s, win, skip) && t.id == s.id && t.receiving == s.receiving
  {
  }

  lemma {:induction false} WindowedSums(ss: seq<Slot>, tt: seq<Slot>, win: int, skip: nat)
    requires Windowed(ss, tt)
    ensures Total(tt) == Total(ss) && Excess(tt, win, skip) == Excess(ss, win, skip) && Oldest(tt) == Oldest(ss)
  {
    if ss != [] {
      hide Total, Excess, Oldest, Of, Extra;
      var k := |ss| - 1;
      WindowedOne(ss[k], tt[k], win, skip);
      WindowedSums(ss[..k], tt[..k], win, skip);
      assert ss == ss[..k] + [ss[k]] && tt == tt[..k] + [tt[k]];
      TotalPush(ss[..k], ss[k]);
      TotalPush(tt[..k], tt[k]);
      ExcessPush(ss[..k], ss[k], win, skip);
      ExcessPush(tt[..k], tt[k], win, skip);
      OldestLast(ss[..k], ss[k]);
      OldestLast(tt[..k], tt[k]);
    }
  }

  lemma OldestLast(ss: seq<Slot>, s: Slot)
    ensures var id := Oldest(ss);
            Oldest(ss + [s]) == if s.id != 0 && s.receiving && (id == 0 || s.id < id) then s.id else id
  {
    assert (ss + [s])[..|ss|] == ss;
  }

  /** Send windows matter to nothing but the sending. */
  lemma WindowedKeeps(ss: seq<Slot>, tt: seq<Slot>, last: nat, l: Limits, withheld: bool)
    requires Windowed(ss, tt) && Proper(ss, last)
    ensures Proper(tt, last) && Total(tt) == Total(ss) && (Busies(ss) ==> Busies(tt))
    ensures Budgeted(ss, l) ==> Budgeted(tt, l)
    ensures Covered(ss, withheld) ==> Covered(tt, withheld)
  {
    hide Total, Excess, Oldest;
    WindowedSums(ss, tt, l.win, Oldest(ss));
  }

  lemma ShiftTied(ss: seq<Slot>, tt: seq<Slot>, c: Client, p: map<nat, seq<byte>>, v: int)
    requires AllTied(ss, c, p) && |ss| == |tt| && forall j :: 0 <= j < |ss| ==> tt[j] == Shifted(ss[j], v - c.initial)
    ensures AllTied(tt, c.SetInitial(v), p)
  {
    forall j | 0 <= j < |tt| && tt[j].id != 0
      ensures Tied(tt[j], c.SetInitial(v), p)
    {
      assert Tied(ss[j], c, p);
    }
  }

  lemma InitialAside(c: Client, last: nat, v: int)
    requires Opened(c, last)
    ensures Opened(c.SetInitial(v), last)
  {
  }

  lemma WaitingAt(ss: seq<Slot>, i: nat, last: nat)
    requires Proper(ss, last) && i < |ss| && ss[i].waiting
    ensures !ss[i].receiving && ss[i].id != 0 && ss[i].id <= last && ss[i].id % 2 == 1
  {
  }

  lemma Present(ss: seq<Slot>, i: nat)
    requires i < |ss|
    ensures !Absent(ss, ss[i].id)
  {
  }

  lemma InUse(ss: seq<Slot>, i: nat, last: nat)
    requires Proper(ss, last) && i < |ss| && ss[i].sending
    ensures ss[i].Sound() && ss[i].id != 0 && !ss[i].receiving && ss[i].outOff <= |ss[i].out|
  {
  }

  /** Within its own window and the connection's, a sending slot may send. */
  lemma MaySend(s: Slot, c: Client, p: map<nat, seq<byte>>, k: nat)
    requires Tied(s, c, p) && s.sending && k <= c.conn && k <= s.sendWin
    ensures c.MayData(s.id, k) && s.id in c.got
  {
  }

  lemma TiedAt(ss: seq<Slot>, i: nat, c: Client, p: map<nat, seq<byte>>)
    requires AllTied(ss, c, p) && i < |ss| && ss[i].id != 0
    ensures Tied(ss[i], c, p)
  {
  }

  /** DATA of slot i's stream, which leaves the slot as t. */
  lemma PumpKeeps(ss: seq<Slot>, i: nat, t: Slot, last: nat, l: Limits, withheld: bool, c: Client,
                  p: map<nat, seq<byte>>, bytes: seq<byte>, end: bool)
    requires Proper(ss, last) && i < |ss| && ss[i].id != 0 && !ss[i].receiving && t.Sound() && !t.receiving && t.Busy()
    requires AllTied(ss, c, p) && Kept(c, p) && Opened(c, last) && Busies(ss) && c.MayData(ss[i].id, |bytes|)
    requires ss[i].id in p && Prefix(c.got[ss[i].id] + bytes, p[ss[i].id])
    requires end ==> c.got[ss[i].id] + bytes == p[ss[i].id]
    requires if t.id == 0 then end else t.id == ss[i].id && Tied(t, c.Data(ss[i].id, bytes, end), p)
    requires Tended(ss, c, 0)
    ensures Proper(ss[i := t], last) && Busies(ss[i := t]) && Tended(ss[i := t], c.Data(ss[i].id, bytes, end), 0)
    ensures AllTied(ss[i := t], c.Data(ss[i].id, bytes, end), p) && Kept(c.Data(ss[i].id, bytes, end), p)
    ensures Opened(c.Data(ss[i].id, bytes, end), last)
    ensures Budgeted(ss, l) ==> Budgeted(ss[i := t], l)
    ensures Covered(ss, withheld) ==> Covered(ss[i := t], withheld)
  {
    hide Total, Oldest, Excess, Tied, Budgeted, Covered, Of, Kept, Elsewhere, AllTied, Client.Data, Tended, Opened;
    var id := ss[i].id;
    TendedData(ss, c, 0, id, bytes, end);
    EndsWith(c, id, bytes, end);
    if t.id == 0 {
      TendedFreed(ss, ss[i := t], i, c.Data(id, bytes, end));
    } else {
      TendedSame(ss, ss[i := t], c.Data(id, bytes, end), 0);
    }
    ProperUpdate(ss, i, t, last);
    Aside(ss, i, t, l, withheld, last);
    KeptData(c, p, id, bytes, end);
    ElsewhereData(c, p, id, bytes, end);
    Alone(ss, i, last);
    TiedUpdate(ss, i, t, c, c.Data(id, bytes, end), p, p, id);
    SameWindows(c, last, id, bytes, end);
  }

  lemma SameWindows(c: Client, last: nat, id: nat, bytes: seq<byte>, end: bool)
    requires c.MayData(id, |bytes|) && Opened(c, last)
    ensures Opened(c.Data(id, bytes, end), last)
  {
  }

  lemma EndsWith(c: Client, id: nat, bytes: seq<byte>, end: bool)
    requires c.MayData(id, |bytes|)
    ensures end ==> id in c.Data(id, bytes, end).ended
  {
  }

  lemma GotHead(c: Client, id: nat, end: bool)
    requires c.MayHead(id)
    ensures c.Head(id, end).got == c.got && SameCredit(c, c.Head(id, end))
  {
  }

  lemma GotData(c: Client, id: nat, bytes: seq<byte>, end: bool)
    requires c.MayData(id, |bytes|)
    ensures id in c.Data(id, bytes, end).got && c.Data(id, bytes, end).got[id] == c.got[id] + bytes
  {
  }

  /** The HEADERS of a stream without a slot. */
  lemma HeadKeeps(ss: seq<Slot>, c: Client, p: map<nat, seq<byte>>, last: nat, id: nat, end: bool, all: seq<byte>)
    requires Kept(c, p) && Opened(c, last) && Absent(ss, id) && c.MayHead(id) && (end ==> all == [])
    ensures Kept(c.Head(id, end), p[id := all]) && Opened(c.Head(id, end), last) && c.got[id] + all == all
    ensures AllTied(ss, c, p) ==> AllTied(ss, c.Head(id, end), p[id := all])
  {
    hide Elsewhere, AllTied, Absent;
    KeptHead(c, p, id, end, all);
    ElsewhereHead(c, p, id, end, all);
    if AllTied(ss, c, p) {
      TiedAside(ss, c, c.Head(id, end), p, p[id := all], id);
    }
  }

  /** DATA of a stream without a slot, rest of its answer still to go. */
  lemma DataKeeps(ss: seq<Slot>, c: Client, p: map<nat, seq<byte>>, last: nat, id: nat, bytes: seq<byte>,
                  rest: seq<byte>, end: bool)
    requires Kept(c, p) && Opened(c, last) && Absent(ss, id) && c.MayData(id, |bytes|) && (end ==> rest == [])
    requires id in p && c.got[id] + (bytes + rest) == p[id]
    ensures Kept(c.Data(id, bytes, end), p) && Opened(c.Data(id, bytes, end), last)
    ensures (c.got[id] + bytes) + rest == p[id]
    ensures AllTied(ss, c, p) ==> AllTied(ss, c.Data(id, bytes, end), p)
  {
    hide Elsewhere, AllTied, Absent, Kept;
    Assoc(c.got[id], bytes, rest);
    KeptData(c, p, id, bytes, end);
    ElsewhereData(c, p, id, bytes, end);
    if AllTied(ss, c, p) {
      TiedAside(ss, c, c.Data(id, bytes, end), p, p, id);
    }
  }

  /** RST_STREAM on a stream without a slot. */
  lemma ResetKeeps(ss: seq<Slot>, c: Client, p: map<nat, seq<byte>>, last: nat, id: nat)
    requires Kept(c, p) && Opened(c, last) && Absent(ss, id) && id > 0
    ensures Kept(c.Reset(id), p) && Opened(c.Reset(id), last)
    ensures AllTied(ss, c, p) ==> AllTied(ss, c.Reset(id), p)
    ensures Tended(ss, c, id) ==> Tended(ss, c.Reset(id), 0)
  {
    hide Kept, Elsewhere, AllTied, Tended;
    KeptReset(c, p, id);
    ElsewhereReset(c, p, id);
    IdleIs(c, last, id);
    if AllTied(ss, c, p) {
      TiedAside(ss, c, c.Reset(id), p, p, id);
    }
    if Tended(ss, c, id) {
      TendedReset(ss, c, p, id);
    }
  }

  /** The same from the client. */
  lemma CancelKeeps(ss: seq<Slot>, c: Client, p: map<nat, seq<byte>>, last: nat, id: nat)
    requires Kept(c, p) && Opened(c, last) && Absent(ss, id) && 0 < id <= last
    ensures Kept(c.Cancel(id), p) && Opened(c.Cancel(id), last)
    ensures AllTied(ss, c, p) ==> AllTied(ss, c.Cancel(id), p)
    ensures Tended(ss, c, id) ==> Tended(ss, c.Cancel(id), 0)
  {
    hide Kept, Elsewhere, AllTied, Tended;
    KeptReset(c, p, id);
    ElsewhereReset(c, p, id);
    if AllTied(ss, c, p) {
      TiedAside(ss, c, c.Cancel(id), p, p, id);
    }
    if Tended(ss, c, id) {
      TendedReset(ss, c, p, id);
    }
  }

  /** Less is allowed whenever more is. */
  lemma DataSome(c: Client, id: nat, n: nat)
    requires c.MayData(id, n)
    ensures forall m: nat :: m <= n ==> c.MayData(id, m)
  {
  }

  lemma Retied(s: Slot, t: Slot, c: Client, p: map<nat, seq<byte>>)
    requires Tied(s, c, p) && t == s.(recvWin := t.recvWin)
    ensures Tied(t, c, p)
  {
  }
}
