/** The client's side of an HTTP/2 connection (sections 5.1, 5.2 and 6.9 of RFC 9113): the
    windows it gives and what it has been sent. Each frame the server sends is a step
    that is only defined when the protocol allows it. */
module H2Client {
  import opened Basics
  import opened H2Slots

  const MAX_WINDOW: int := 0x7fffffff

  /** conn and total are the connection's window and the DATA bytes sent on it; win and got
      are of every stream opened; answered had its HEADERS, ended its END_STREAM, gone a
      RST_STREAM from either side. stray are the idle streams the server sent one on. */
  datatype Client = Client(conn: int, total: int, initial: int, win: map<nat, int>, got: map<nat, seq<byte>>,
                           answered: set<nat>, ended: set<nat>, gone: set<nat>, stray: set<nat>)
  {
    /** Never opened, nor closed by the opening of a higher stream of its kind: only a
        client's streams are odd (section 5.1.1 of RFC 9113). */
    ghost predicate Idle(id: nat) {
      id !in win && (id % 2 == 0 || forall j :: j in win ==> j < id)
    }

    predicate Live(id: nat) {
      id in win && id in got && id !in ended && id !in gone
    }

    /** The client opens a stream. */
    function Open(id: nat): Client {
      this.(win := win[id := initial], got := got[id := []])
    }

    predicate MayHead(id: nat) {
      Live(id) && id !in answered
    }

    /** HEADERS, once. */
    function Head(id: nat, end: bool): Client
      requires MayHead(id)
    {
      this.(answered := answered + {id}, ended := if end then ended + {id} else ended)
    }

    /** DATA comes after HEADERS, before END_STREAM, and within both windows. */
    predicate MayData(id: nat, n: nat) {
      Live(id) && id in answered && (n == 0 || (n <= conn && n <= win[id]))
    }

    function Data(id: nat, bytes: seq<byte>, end: bool): Client
      requires MayData(id, |bytes|)
    {
      this.(conn := conn - |bytes|, total := total + |bytes|, win := win[id := win[id] - |bytes|],
            got := got[id := got[id] + bytes],
            ended := if end then ended + {id} else ended)
    }

    /** RST_STREAM from the server, which section 6.4 of RFC 9113 forbids on an idle
        stream. */
    ghost function Reset(id: nat): Client {
      if Idle(id) then this.(stray := stray + {id}) else this.(gone := gone + {id})
    }

    /** RST_STREAM of the client's own. */
    function Cancel(id: nat): Client {
      this.(gone := gone + {id})
    }

    /** All the client ever gave stream id to send. */
    function Credit(id: nat): int
      requires id in win && id in got
    {
      win[id] + |got[id]|
    }

    function Give(id: nat, inc: int): Client {
      if id in win then this.(win := win[id := win[id] + inc]) else this
    }

    function GiveConn(inc: int): Client {
      this.(conn := conn + inc)
    }

    /** Every stream's window moves by the change of the initial one. */
    function SetInitial(v: int): Client {
      this.(initial := v, win := map id | id in win :: win[id] + (v - initial))
    }
  }

  /** Nothing the client gave was lost or made up, and no idle stream reset: a step of the
      server's own. */
  ghost predicate SameCredit(c: Client, d: Client) {
    && d.conn + d.total == c.conn + c.total && d.initial == c.initial && d.stray == c.stray
    && (forall id :: id in c.win && id in c.got ==> id in d.win && id in d.got && d.Credit(id) == c.Credit(id))
  }

  lemma CreditChain(c: Client, d: Client, e: Client)
    requires SameCredit(c, d) && SameCredit(d, e)
    ensures SameCredit(c, e)
  {
  }

  lemma CreditSteps(c: Client, id: nat)
    ensures SameCredit(c, c) && (id in c.win ==> SameCredit(c, c.Reset(id)))
    ensures c.MayHead(id) ==> forall end :: SameCredit(c, c.Head(id, end))
    ensures id !in c.win ==> SameCredit(c, c.Open(id))
  {
  }

  lemma CreditStray(c: Client, d: Client)
    requires SameCredit(c, d)
    ensures d.stray == c.stray
  {
  }

  lemma CreditWin(c: Client, d: Client, id: nat)
    requires SameCredit(c, d) && id in c.win && id in c.got
    ensures id in d.win && id in d.got
  {
  }

  lemma CreditData(c: Client, id: nat, bytes: seq<byte>, end: bool)
    requires c.MayData(id, |bytes|)
    ensures SameCredit(c, c.Data(id, bytes, end))
  {
  }

  /** Two DATA frames are one longer one. */
  lemma DataTwice(c: Client, id: nat, a: seq<byte>, b: seq<byte>, end: bool)
    requires c.MayData(id, |a| + |b|)
    ensures c.MayData(id, |a|) && c.Data(id, a, false).MayData(id, |b|)
    ensures c.Data(id, a, false).Data(id, b, end) == c.Data(id, a + b, end)
  {
    var x, y := c.Data(id, a, false).Data(id, b, end), c.Data(id, a + b, end);
    Assoc(c.got[id], a, b);
    assert x.win == y.win && x.got == y.got;
  }

  lemma DataNone(c: Client, id: nat)
    requires c.MayData(id, 0)
    ensures c.Data(id, [], false) == c
  {
    assert c.got[id] + [] == c.got[id];
    assert c.Data(id, [], false).win == c.win && c.Data(id, [], false).got == c.got;
  }

  /** What was sent of each answer is its beginning, and all of it once ended. */
  ghost predicate Kept(c: Client, promised: map<nat, seq<byte>>) {
    && c.win.Keys == c.got.Keys && c.answered <= c.win.Keys && c.ended <= c.answered
    && (forall id :: id in c.answered ==> id in promised && Prefix(c.got[id], promised[id]))
    && (forall id :: id in c.ended ==> c.got[id] == promised[id])
    && (forall id :: id in c.win && id !in c.answered ==> c.got[id] == [])
  }

  /** A slot's stream is live, its window is the client's, and what it still holds is what
      its answer has left. */
  ghost predicate Tied(s: Slot, c: Client, promised: map<nat, seq<byte>>) {
    && c.Live(s.id) && s.sendWin == c.win[s.id] && s.outOff <= |s.out|
    && (s.receiving || s.waiting ==> s.id !in c.answered)
    && (s.sending || s.streaming ==>
          s.id in c.answered && s.id in promised && c.got[s.id] + s.out[s.outOff..] + s.file == promised[s.id])
  }

  ghost predicate AllTied(ss: seq<Slot>, c: Client, promised: map<nat, seq<byte>>) {
    forall i :: 0 <= i < |ss| && ss[i].id != 0 ==> Tied(ss[i], c, promised)
  }

  /** The same but for stream id. */
  ghost predicate Elsewhere(c: Client, d: Client, p: map<nat, seq<byte>>, q: map<nat, seq<byte>>, id: nat) {
    forall j :: j != id ==>
      && (j in c.win <==> j in d.win) && (j in c.got <==> j in d.got) && (j in c.answered <==> j in d.answered)
      && (j in c.ended <==> j in d.ended) && (j in c.gone <==> j in d.gone) && (j in p <==> j in q)
      && (j in c.win ==> c.win[j] == d.win[j]) && (j in c.got ==> c.got[j] == d.got[j]) && (j in p ==> p[j] == q[j])
  }

  lemma StillTied(s: Slot, c: Client, d: Client, p: map<nat, seq<byte>>, q: map<nat, seq<byte>>, id: nat)
    requires Tied(s, c, p) && s.id != id && Elsewhere(c, d, p, q, id)
    ensures Tied(s, d, q)
  {
  }

  /** A step on one stream and its slot keeps the rest tied. */
  lemma TiedUpdate(ss: seq<Slot>, i: nat, s: Slot, c: Client, d: Client, p: map<nat, seq<byte>>, q: map<nat, seq<byte>>,
                   id: nat)
    requires AllTied(ss, c, p) && i < |ss| && Elsewhere(c, d, p, q, id)
    requires forall j :: 0 <= j < |ss| && j != i && ss[j].id != 0 ==> ss[j].id != id
    requires s.id != 0 ==> Tied(s, d, q)
    ensures AllTied(ss[i := s], d, q)
  {
    hide Tied, Elsewhere;
    var more := ss[i := s];
    forall j | 0 <= j < |ss| && more[j].id != 0
      ensures Tied(more[j], d, q)
    {
      if j != i {
        StillTied(ss[j], c, d, p, q, id);
      }
    }
  }

  /** A step on a stream without a slot keeps every slot tied. */
  lemma TiedAside(ss: seq<Slot>, c: Client, d: Client, p: map<nat, seq<byte>>, q: map<nat, seq<byte>>, id: nat)
    requires AllTied(ss, c, p) && Absent(ss, id) && Elsewhere(c, d, p, q, id)
    ensures AllTied(ss, d, q)
  {
    hide Tied, Elsewhere;
    forall j | 0 <= j < |ss| && ss[j].id != 0
      ensures Tied(ss[j], d, q)
    {
      StillTied(ss[j], c, d, p, q, id);
    }
  }

  lemma ElsewhereSame(c: Client, p: map<nat, seq<byte>>, id: nat)
    ensures Elsewhere(c, c, p, p, id)
  {
  }

  lemma ElsewhereOpen(c: Client, p: map<nat, seq<byte>>, id: nat)
    ensures Elsewhere(c, c.Open(id), p, p, id)
  {
  }

  lemma ElsewhereReset(c: Client, p: map<nat, seq<byte>>, id: nat)
    ensures Elsewhere(c, c.Reset(id), p, p, id) && Elsewhere(c, c.Cancel(id), p, p, id)
  {
  }

  lemma ElsewhereGive(c: Client, p: map<nat, seq<byte>>, id: nat, inc: int)
    ensures Elsewhere(c, c.Give(id, inc), p, p, id)
  {
  }

  lemma ElsewhereMore(c: Client, p: map<nat, seq<byte>>, id: nat, body: seq<byte>)
    ensures Elsewhere(c, c, p, p[id := body], id)
  {
  }

  lemma ElsewhereHead(c: Client, p: map<nat, seq<byte>>, id: nat, end: bool, body: seq<byte>)
    requires c.MayHead(id)
    ensures Elsewhere(c, c.Head(id, end), p, p[id := body], id)
  {
  }

  lemma ElsewhereData(c: Client, p: map<nat, seq<byte>>, id: nat, bytes: seq<byte>, end: bool)
    requires c.MayData(id, |bytes|)
    ensures Elsewhere(c, c.Data(id, bytes, end), p, p, id)
  {
  }

  lemma KeptHead(c: Client, p: map<nat, seq<byte>>, id: nat, end: bool, body: seq<byte>)
    requires Kept(c, p) && c.MayHead(id) && (end ==> body == [])
    ensures Kept(c.Head(id, end), p[id := body])
  {
  }

  lemma KeptData(c: Client, p: map<nat, seq<byte>>, id: nat, bytes: seq<byte>, end: bool)
    requires Kept(c, p) && c.MayData(id, |bytes|) && Prefix(c.got[id] + bytes, p[id])
    requires end ==> c.got[id] + bytes == p[id]
    ensures Kept(c.Data(id, bytes, end), p)
  {
  }

  lemma KeptMore(c: Client, p: map<nat, seq<byte>>, id: nat, more: seq<byte>)
    requires Kept(c, p) && id in c.answered && id !in c.ended
    ensures Kept(c, p[id := p[id] + more])
  {
  }

  lemma KeptReset(c: Client, p: map<nat, seq<byte>>, id: nat)
    requires Kept(c, p)
    ensures Kept(c.Reset(id), p) && Kept(c.Cancel(id), p)
  {
  }

  lemma KeptGive(c: Client, p: map<nat, seq<byte>>, id: nat, n: int)
    requires Kept(c, p)
    ensures Kept(c.Give(id, n), p) && Kept(c.GiveConn(n), p)
  {
  }

  lemma KeptInitial(c: Client, p: map<nat, seq<byte>>, n: int)
    requires Kept(c, p)
    ensures Kept(c.SetInitial(n), p)
  {
  }

  lemma KeptOpen(c: Client, p: map<nat, seq<byte>>, id: nat)
    requires Kept(c, p) && id !in c.win
    ensures Kept(c.Open(id), p)
  {
  }

  /** The streams opened are odd, and last is the highest; no other was reset. */
  ghost predicate Opened(c: Client, last: nat) {
    && (forall id :: id in c.win ==> id <= last && id % 2 == 1) && (last > 0 ==> last in c.win)
    && (forall id :: id in c.gone ==> 0 < id <= last)
  }

  /** Which streams are idle. */
  lemma IdleIs(c: Client, last: nat, id: nat)
    requires Opened(c, last) && id > 0
    ensures c.Idle(id) <==> id > last || id % 2 == 0
  {
    if id <= last && id % 2 == 1 {
      assert last in c.win;
    }
  }

  /** Every stream opened and neither ended nor reset has a slot, but perhaps stream hand. */
  ghost predicate Tended(ss: seq<Slot>, c: Client, hand: nat) {
    forall id :: id in c.win && id !in c.ended && id !in c.gone && id != 0 && id != hand ==> !Absent(ss, id)
  }

  /** The same slots for the same streams, perhaps one more. */
  lemma TendedSame(ss: seq<Slot>, tt: seq<Slot>, c: Client, hand: nat)
    requires Tended(ss, c, hand) && |ss| <= |tt| && forall i :: 0 <= i < |ss| ==> tt[i].id == ss[i].id
    ensures Tended(tt, c, hand)
  {
    forall id | id in c.win && id !in c.ended && id !in c.gone && id != 0 && id != hand
      ensures !Absent(tt, id)
    {
      var i :| 0 <= i < |ss| && ss[i].id == id;
      assert tt[i].id == id;
    }
  }

  /** A slot was freed, and its stream is in hand. */
  lemma TendedFreed(ss: seq<Slot>, tt: seq<Slot>, i: nat, c: Client)
    requires Tended(ss, c, 0) && |ss| == |tt| && i < |ss|
    requires forall j :: 0 <= j < |ss| && j != i ==> tt[j].id == ss[j].id
    ensures Tended(tt, c, ss[i].id)
    ensures ss[i].id in c.ended || ss[i].id in c.gone ==> Tended(tt, c, 0)
  {
    forall id | id in c.win && id !in c.ended && id !in c.gone && id != 0 && id != ss[i].id
      ensures !Absent(tt, id)
    {
      var j :| 0 <= j < |ss| && ss[j].id == id;
      assert tt[j].id == id;
    }
  }

  /** The stream in hand got a free slot. */
  lemma TendedTaken(ss: seq<Slot>, i: nat, s: Slot, c: Client, hand: nat)
    requires Tended(ss, c, hand) && i < |ss| && ss[i].id == 0 && (hand == 0 || hand == s.id)
    ensures Tended(ss[i := s], c, 0)
  {
    var tt := ss[i := s];
    assert tt[i].id == s.id;
    forall id | id in c.win && id !in c.ended && id !in c.gone && id != 0
      ensures !Absent(tt, id)
    {
      if id != s.id {
        var j :| 0 <= j < |ss| && ss[j].id == id;
        assert tt[j].id == id;
      }
    }
  }

  /** A stream just opened is in hand. */
  lemma TendedOpen(ss: seq<Slot>, c: Client, id: nat)
    requires Tended(ss, c, 0)
    ensures Tended(ss, c.Open(id), id)
  {
  }

  /** An answer begins: its stream stays in hand until it has a slot or is ended. */
  lemma TendedHead(ss: seq<Slot>, c: Client, id: nat, end: bool)
    requires Tended(ss, c, id) && c.MayHead(id)
    ensures Tended(ss, c.Head(id, end), if end then 0 else id)
  {
  }

  lemma TendedData(ss: seq<Slot>, c: Client, hand: nat, id: nat, bytes: seq<byte>, end: bool)
    requires Tended(ss, c, hand) && c.MayData(id, |bytes|)
    ensures Tended(ss, c.Data(id, bytes, end), hand)
    ensures end && hand == id ==> Tended(ss, c.Data(id, bytes, end), 0)
  {
  }

  /** A stream reset or cancelled needs no slot. */
  lemma TendedReset(ss: seq<Slot>, c: Client, p: map<nat, seq<byte>>, id: nat)
    requires Tended(ss, c, id) && Kept(c, p)
    ensures Tended(ss, c.Reset(id), 0) && Tended(ss, c.Cancel(id), 0)
  {
  }
}
