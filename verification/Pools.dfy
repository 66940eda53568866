/** The buffer pools of a worker (engine/process.v, engine/tls13_linux.c.v): who holds each
    buffer, and how large the buffers of each pool are. */
module Pools {
  import opened Basics

  const READ_SIZE: nat := 8192
  const WRITE_SIZE: nat := 16384
  const SHRINK_READ: nat := 65536
  const SHRINK_WRITE: nat := 262144
  const BIG_MAX: nat := 32
  const TLS_IN: nat := 2 * (5 + 16640)
  const TLS_OUT: nat := 4 * (5 + 16384 + 17) + 32
  const READ_AHEAD: nat := 16384

  /** A buffer: which one it is, its capacity and its length. */
  datatype Buf = Buf(id: nat, cap: nat, len: nat)

  /** A connection's buffers: for requests and answers, a handshake's read-ahead, and the
      records of a TLS session. unread says the session holds content or records not
      handed out, fast that its records are the engine's own and the handshake is over. */
  datatype Conn = Conn(rbuf: Option<Buf>, wbuf: Option<Buf>, ahead: Option<Buf>, inb: Option<Buf>, out: Option<Buf>,
                       unread: bool, fast: bool)
  {
    function Holds(id: nat): nat {
      One(rbuf, id) + One(wbuf, id) + One(ahead, id) + One(inb, id) + One(out, id)
    }

    predicate Sound() {
      && (rbuf.Some? ==> rbuf.value.cap >= 8192 && rbuf.value.len <= rbuf.value.cap)
      && (wbuf.Some? ==> wbuf.value.cap >= 16384 && wbuf.value.len <= wbuf.value.cap)
      && (ahead.Some? ==> ahead.value.cap == 16384 && ahead.value.len <= 16384)
      && (inb.Some? ==> inb.value.cap == 33290 && inb.value.len <= 33290)
      && (out.Some? ==> out.value.cap == 65656 && out.value.len <= 65656)
    }
  }

  /** 1 when b is buffer id. */
  function One(b: Option<Buf>, id: nat): nat {
    if b.Some? && b.value.id == id then 1 else 0
  }

  function InPool(p: seq<Buf>, id: nat): nat {
    if p == [] then 0 else InPool(p[..|p| - 1], id) + One(Some(p[|p| - 1]), id)
  }

  lemma PoolPush(p: seq<Buf>, b: Buf, id: nat)
    ensures InPool(p + [b], id) == InPool(p, id) + One(Some(b), id)
  {
    assert (p + [b])[..|p|] == p;
  }

  function InConns(cs: seq<Conn>, id: nat): nat {
    if cs == [] then 0 else InConns(cs[..|cs| - 1], id) + cs[|cs| - 1].Holds(id)
  }

  lemma {:induction false} ConnUpdate(cs: seq<Conn>, i: nat, c: Conn, id: nat)
    requires i < |cs|
    ensures InConns(cs[i := c], id) == InConns(cs, id) - cs[i].Holds(id) + c.Holds(id)
  {
    hide Conn.Holds;
    var n := |cs| - 1;
    var changed := cs[i := c];
    if i == n {
      assert changed[..n] == cs[..n];
    } else {
      ConnUpdate(cs[..n], i, c, id);
      assert changed[..n] == cs[..n][i := c];
    }
  }

  /** Free buffers of one kind: empty, and of capacities from lo to hi. */
  ghost predicate Free(p: seq<Buf>, lo: nat, hi: nat) {
    forall k :: 0 <= k < |p| ==> lo <= p[k].cap <= hi && p[k].len == 0
  }

  /** The pools of a worker and the next new buffer's number. */
  datatype Stock = Stock(r: seq<Buf>, w: seq<Buf>, big: seq<Buf>, tin: seq<Buf>, tout: seq<Buf>, next: nat) {
    ghost function Holds(id: nat): nat {
      InPool(r, id) + InPool(w, id) + InPool(big, id) + InPool(tin, id) + InPool(tout, id)
    }

    /** Every pool's buffers are of its own size. */
    ghost predicate Sound() {
      && Free(r, 8192, 65536) && Free(w, 16384, 16384)
      && Free(big, 16385, 262144) && |big| <= 32
      && Free(tin, 33290, 33290) && Free(tout, 65656, 65656)
    }
  }

  /** BufPool.take: the last free buffer, or a new one of that size. */
  function Taken(p: seq<Buf>, size: nat, next: nat): (r: (Buf, seq<Buf>, nat)) {
    if p == [] then (Buf(next, size, 0), [], next + 1) else (p[|p| - 1], p[..|p| - 1], next)
  }

  lemma TakenIs(p: seq<Buf>, size: nat, next: nat, lo: nat, hi: nat)
    requires Free(p, lo, hi) && lo <= size <= hi
    ensures var (b, q, n) := Taken(p, size, next);
            && Free(q, lo, hi) && lo <= b.cap <= hi && b.len == 0 && next <= n <= next + 1
            && forall id: nat ::
                 InPool(q, id) + One(Some(b), id) == InPool(p, id) + if n > next && id == next then 1 else 0
  {
  }

  /** 1 when buffer id is one of those. */
  function Among(ids: set<nat>, id: nat): nat {
    if id in ids then 1 else 0
  }

  /** Each buffer made so far has exactly one owner, a pool or a field of a connection, or it
      was dropped. */
  ghost predicate Owned(s: Stock, cs: seq<Conn>, dropped: set<nat>) {
    forall id: nat :: s.Holds(id) + InConns(cs, id) + Among(dropped, id) == if id < s.next then 1 else 0
  }

  ghost predicate AllSound(cs: seq<Conn>) {
    forall i :: 0 <= i < |cs| ==> cs[i].Sound()
  }

  /** A change that neither loses a buffer nor makes a second owner: each buffer the
      connection and the pools held, they hold after or it is dropped, and so with a new
      one. */
  lemma Moved(s: Stock, t: Stock, cs: seq<Conn>, i: nat, c: Conn, dropped: set<nat>, more: set<nat>)
    requires Owned(s, cs, dropped) && i < |cs| && Passed(s, cs[i], t, c, more)
    ensures Owned(t, cs[i := c], dropped + more)
  {
    hide Stock.Holds, Conn.Holds, InConns;
    forall id: nat
      ensures t.Holds(id) + InConns(cs[i := c], id) + Among(dropped + more, id) == if id < t.next then 1 else 0
    {
      ConnUpdate(cs, i, c, id);
      Within(cs, i, id);
    }
  }

  /** Buffers passed between a connection and the pools, those in drop dropped. */
  ghost predicate Passed(s: Stock, c: Conn, t: Stock, d: Conn, drop: set<nat>) {
    && s.next <= t.next
    && forall id: nat :: t.Holds(id) + d.Holds(id) + Among(drop, id)
                         == s.Holds(id) + c.Holds(id) + if s.next <= id < t.next then 1 else 0
  }

  lemma {:induction false} Within(cs: seq<Conn>, i: nat, id: nat)
    requires i < |cs|
    ensures cs[i].Holds(id) <= InConns(cs, id)
  {
    hide Conn.Holds;
    if i < |cs| - 1 {
      Within(cs[..|cs| - 1], i, id);
    }
  }

  /** lend for the read buffer. */
  function LentRead(s: Stock, c: Conn): (Stock, Conn) {
    if c.rbuf.Some? then (s, c) else
      var (b, q, n) := Taken(s.r, READ_SIZE, s.next);
      (s.(r := q, next := n), c.(rbuf := Some(b)))
  }

  function LentWrite(s: Stock, c: Conn): (Stock, Conn) {
    if c.wbuf.Some? then (s, c) else
      var (b, q, n) := Taken(s.w, WRITE_SIZE, s.next);
      (s.(w := q, next := n), c.(wbuf := Some(b)))
  }

  /** tls_lend. */
  function LentIn(s: Stock, c: Conn): (Stock, Conn) {
    if c.inb.Some? then (s, c) else
      var (b, q, n) := Taken(s.tin, TLS_IN, s.next);
      (s.(tin := q, next := n), c.(inb := Some(b)))
  }

  function LentOut(s: Stock, c: Conn): (Stock, Conn) {
    if c.out.Some? then (s, c) else
      var (b, q, n) := Taken(s.tout, TLS_OUT, s.next);
      (s.(tout := q, next := n), c.(out := Some(b)))
  }

  /** tls_inbuf: a read-ahead from the write pool. */
  function LentAhead(s: Stock, c: Conn): (Stock, Conn) {
    if c.ahead.Some? then (s, c) else
      var (b, q, n) := Taken(s.w, WRITE_SIZE, s.next);
      (s.(w := q, next := n), c.(ahead := Some(b.(len := READ_AHEAD))))
  }

  /** give_back of the read buffer: kept unless it grew too large. */
  function ReadBack(s: Stock, c: Conn): (Stock, Conn) {
    if c.rbuf.None? then (s, c)
    else (if c.rbuf.value.cap <= SHRINK_READ then s.(r := s.r + [c.rbuf.value.(len := 0)]) else s, c.(rbuf := None))
  }

  /** Of the write buffer: a grown one to bpool while it has room. */
  function WriteBack(s: Stock, c: Conn): (Stock, Conn) {
    if c.wbuf.None? then (s, c)
    else
      var b := c.wbuf.value.(len := 0);
      (if b.cap <= WRITE_SIZE then s.(w := s.w + [b])
       else if b.cap <= SHRINK_WRITE && |s.big| < BIG_MAX then s.(big := s.big + [b])
       else s, c.(wbuf := None))
  }

  /** lend_big: an empty write buffer for a grown one, if there is one. */
  function LentBig(s: Stock, c: Conn): (Stock, Conn) {
    if s.big == [] || (c.wbuf.Some? && (c.wbuf.value.len > 0 || c.wbuf.value.cap > WRITE_SIZE)) then (s, c)
    else
      var t := if c.wbuf.Some? then s.(w := s.w + [c.wbuf.value]) else s;
      (t.(big := s.big[..|s.big| - 1]), c.(wbuf := Some(s.big[|s.big| - 1])))
  }

  /** tls_settle: the buffer of records read, once all is handed out. */
  function InBack(s: Stock, c: Conn, all: bool): (Stock, Conn) {
    if c.inb.Some? && (all || !c.unread) then
      (s.(tin := s.tin + [c.inb.value.(len := 0)]), c.(inb := None, unread := false)) else (s, c)
  }

  /** Of records sealed, once all are sent. */
  function OutBack(s: Stock, c: Conn, all: bool): (Stock, Conn) {
    if c.out.Some? && (all || c.out.value.len == 0) then
      (s.(tout := s.tout + [c.out.value.(len := 0)]), c.(out := None)) else (s, c)
  }

  /** And the handshake's read-ahead, once the session no longer needs it. */
  function AheadBack(s: Stock, c: Conn, all: bool): (Stock, Conn) {
    if c.ahead.Some? && (all || c.fast) then
      (s.(w := s.w + [c.ahead.value.(len := 0)]), c.(ahead := None)) else (s, c)
  }

  /** A step that keeps sizes and owners. */
  ghost predicate Fair(s: Stock, c: Conn, r: (Stock, Conn), drop: set<nat>) {
    r.0.Sound() && r.1.Sound() && Passed(s, c, r.0, r.1, drop)
  }

  /** The read buffer is dropped when it has grown past what is worth keeping. */
  function ReadDrop(c: Conn): set<nat> {
    if c.rbuf.Some? && c.rbuf.value.cap > 65536 then {c.rbuf.value.id} else {}
  }

  /** So is the write buffer, or when it has grown and bpool is full. */
  function WriteDrop(s: Stock, c: Conn): set<nat> {
    if c.wbuf.Some? && (c.wbuf.value.cap > 262144 || (c.wbuf.value.cap > 16384 && |s.big| >= 32))
    then {c.wbuf.value.id} else {}
  }

  lemma LendsFair(s: Stock, c: Conn)
    requires s.Sound() && c.Sound()
    ensures Fair(s, c, LentRead(s, c), {}) && Fair(s, c, LentWrite(s, c), {})
  {
    hide InPool, Taken, Free;
    TakenIs(s.r, READ_SIZE, s.next, READ_SIZE, SHRINK_READ);
    TakenIs(s.w, WRITE_SIZE, s.next, WRITE_SIZE, WRITE_SIZE);
  }

  lemma RecordsFair(s: Stock, c: Conn)
    requires s.Sound() && c.Sound()
    ensures Fair(s, c, LentIn(s, c), {}) && Fair(s, c, LentOut(s, c), {})
  {
    hide InPool, Taken, Free;
    TakenIs(s.tin, TLS_IN, s.next, TLS_IN, TLS_IN);
    TakenIs(s.tout, TLS_OUT, s.next, TLS_OUT, TLS_OUT);
  }

  lemma AheadFair(s: Stock, c: Conn)
    requires s.Sound() && c.Sound()
    ensures Fair(s, c, LentAhead(s, c), {}) && LentAhead(s, c).1.ahead.Some?
  {
    hide InPool, Taken, Free;
    TakenIs(s.w, WRITE_SIZE, s.next, WRITE_SIZE, WRITE_SIZE);
  }

  lemma Pushed(p: seq<Buf>, b: Buf, lo: nat, hi: nat)
    requires Free(p, lo, hi) && lo <= b.cap <= hi && b.len == 0
    ensures Free(p + [b], lo, hi) && forall id: nat :: InPool(p + [b], id) == InPool(p, id) + One(Some(b), id)
  {
    forall id: nat
      ensures InPool(p + [b], id) == InPool(p, id) + One(Some(b), id)
    {
      PoolPush(p, b, id);
    }
  }

  lemma ReadBackFair(s: Stock, c: Conn)
    requires s.Sound() && c.Sound()
    ensures Fair(s, c, ReadBack(s, c), ReadDrop(c))
  {
    hide InPool, Free;
    if c.rbuf.Some? && c.rbuf.value.cap <= SHRINK_READ {
      Pushed(s.r, c.rbuf.value.(len := 0), READ_SIZE, SHRINK_READ);
    }
  }

  lemma WriteBackFair(s: Stock, c: Conn)
    requires s.Sound() && c.Sound()
    ensures Fair(s, c, WriteBack(s, c), WriteDrop(s, c))
  {
    hide InPool, Free;
    if c.wbuf.Some? {
      var b := c.wbuf.value.(len := 0);
      if b.cap <= WRITE_SIZE {
        Pushed(s.w, b, WRITE_SIZE, WRITE_SIZE);
      } else if b.cap <= SHRINK_WRITE {
        Pushed(s.big, b, WRITE_SIZE + 1, SHRINK_WRITE);
      }
    }
  }

  lemma LentBigFair(s: Stock, c: Conn)
    requires s.Sound() && c.Sound()
    ensures Fair(s, c, LentBig(s, c), {})
  {
    hide Free;
    if s.big != [] {
      TakenIs(s.big, WRITE_SIZE + 1, s.next, WRITE_SIZE + 1, SHRINK_WRITE);
      if c.wbuf.Some? && c.wbuf.value.len == 0 && c.wbuf.value.cap <= WRITE_SIZE {
        Pushed(s.w, c.wbuf.value, WRITE_SIZE, WRITE_SIZE);
      }
    }
  }

  lemma InBackFair(s: Stock, c: Conn, all: bool)
    requires s.Sound() && c.Sound()
    ensures Fair(s, c, InBack(s, c, all), {})
  {
    hide InPool, Free;
    if c.inb.Some? {
      Pushed(s.tin, c.inb.value.(len := 0), TLS_IN, TLS_IN);
    }
  }

  lemma OutBackFair(s: Stock, c: Conn, all: bool)
    requires s.Sound() && c.Sound()
    ensures Fair(s, c, OutBack(s, c, all), {})
  {
    hide InPool, Free;
    if c.out.Some? {
      Pushed(s.tout, c.out.value.(len := 0), TLS_OUT, TLS_OUT);
    }
  }

  lemma AheadBackFair(s: Stock, c: Conn, all: bool)
    requires s.Sound() && c.Sound()
    ensures Fair(s, c, AheadBack(s, c, all), {})
  {
    hide InPool, Free;
    if c.ahead.Some? {
      Pushed(s.w, c.ahead.value.(len := 0), WRITE_SIZE, WRITE_SIZE);
    }
  }

  /** What settling leaves a connection: the buffers that hold something. */
  function AfterSettle(c: Conn): Conn {
    c.(rbuf := if c.rbuf.Some? && c.rbuf.value.len == 0 then None else c.rbuf,
       wbuf := if c.wbuf.Some? && c.wbuf.value.len == 0 then None else c.wbuf)
  }

  /** And its TLS session: what is not handed out or sent, and the read-ahead of one still
      shaking hands. */
  function AfterTls(c: Conn, closing: bool): Conn {
    c.(inb := if closing || !c.unread then None else c.inb,
       unread := c.unread && !(c.inb.Some? && closing),
       out := if c.out.Some? && (closing || c.out.value.len == 0) then None else c.out,
       ahead := if closing || c.fast then None else c.ahead)
  }

  /** A buffer put into a pool, if there is one. */
  function Put(p: seq<Buf>, b: Option<Buf>): seq<Buf> {
    if b.None? then p else p + [b.value.(len := 0)]
  }

  /** The buffer a connection held and no longer does. */
  function Left(was: Option<Buf>, now: Option<Buf>): Option<Buf> {
    if now.Some? then None else was
  }

  /** Which of them goes to a pool that takes capacities from lo to hi. */
  function Sized(b: Option<Buf>, lo: nat, hi: nat): Option<Buf> {
    if b.Some? && lo <= b.value.cap <= hi then b else None
  }

  /** The pools after settling a connection that was c and is d: each buffer it no longer
      holds is in the pool of its size, a grown write buffer while there is room. */
  function Settled(s: Stock, c: Conn, d: Conn): Stock {
    var w := Left(c.wbuf, d.wbuf);
    s.(r := Put(s.r, Sized(Left(c.rbuf, d.rbuf), 0, 65536)), w := Put(s.w, Sized(w, 0, 16384)),
       big := if |s.big| < 32 then Put(s.big, Sized(w, 16385, 262144)) else s.big)
  }

  /** And those of a TLS session. */
  function TlsSettled(s: Stock, c: Conn, d: Conn): Stock {
    s.(tin := Put(s.tin, Left(c.inb, d.inb)), tout := Put(s.tout, Left(c.out, d.out)),
        w := Put(s.w, Left(c.ahead, d.ahead)))
  }

  /** What settling drops. */
  function Dropped(s: Stock, c: Conn): set<nat> {
    (if c.rbuf.Some? && c.rbuf.value.len == 0 then ReadDrop(c) else {})
    + if c.wbuf.Some? && c.wbuf.value.len == 0 then WriteDrop(s, c) else {}
  }

  /** The same buffers, filled, emptied or grown. */
  ghost predicate SameBufs(c: Conn, d: Conn) {
    SameBuf(c.rbuf, d.rbuf) && SameBuf(c.wbuf, d.wbuf) && SameBuf(c.ahead, d.ahead) && SameBuf(c.inb, d.inb)
        && SameBuf(c.out, d.out)
  }

  ghost predicate SameBuf(b: Option<Buf>, d: Option<Buf>) {
    b.Some? == d.Some? && (b.Some? ==> b.value.id == d.value.id)
  }

  /** A worker: its pools and its connections. */
  class Worker {
    var stock: Stock
    var conns: seq<Conn>
    /** The buffers left to the garbage collector. */
    ghost var dropped: set<nat>

    /** Every buffer has exactly one owner, and every pool buffers of its size. */
    ghost predicate Valid()
      reads this
    {
      Owned(stock, conns, dropped) && stock.Sound() && AllSound(conns)
    }

    constructor (connections: nat)
      ensures Valid() && |conns| == connections && dropped == {}
    {
      stock := Stock([], [], [], [], [], 0);
      conns := seq(connections, _ => Conn(None, None, None, None, None, false, false));
      dropped := {};
      new;
      NoneHeld(conns);
    }

    /** A fair step of connection i with the pools. */
    method Apply(i: nat, r: (Stock, Conn), ghost drop: set<nat>)
      requires Valid() && i < |conns| && Fair(stock, conns[i], r, drop)
      modifies this
      ensures Valid() && stock == r.0 && conns == old(conns)[i := r.1] && dropped == old(dropped) + drop
    {
      hide Stock.Holds, Conn.Holds, InConns, Stock.Sound, Conn.Sound;
      Moved(stock, r.0, conns, i, r.1, dropped, drop);
      stock, conns := r.0, conns[i := r.1];
      dropped := dropped + drop;
    }

    /** lend: the buffers connection i has none of; a TLS session's too. */
    method Lend(i: nat, tls: bool)
      requires Valid() && i < |conns|
      modifies this
      ensures Valid() && |conns| == old(|conns|) && conns[i].rbuf.Some? && conns[i].wbuf.Some?
      ensures dropped == old(dropped)
      ensures tls ==> conns[i].inb.Some? && conns[i].out.Some?
      ensures var c, d := old(conns)[i], conns[i];
              && (c.rbuf.Some? ==> d.rbuf == c.rbuf) && (c.wbuf.Some? ==> d.wbuf == c.wbuf) && d.ahead == c.ahead
              && (c.inb.Some? || !tls ==> d.inb == c.inb) && (c.out.Some? || !tls ==> d.out == c.out)
      ensures forall j :: 0 <= j < |conns| && j != i ==> conns[j] == old(conns)[j]
    {
      hide Fair, Owned, Stock.Sound, Conn.Sound;
      LendsFair(stock, conns[i]);
      Apply(i, LentRead(stock, conns[i]), {});
      LendsFair(stock, conns[i]);
      Apply(i, LentWrite(stock, conns[i]), {});
      if tls {
        RecordsFair(stock, conns[i]);
        Apply(i, LentIn(stock, conns[i]), {});
        RecordsFair(stock, conns[i]);
        Apply(i, LentOut(stock, conns[i]), {});
      }
    }

    /** settle: connection i's empty buffers go back; with closing set, all of a TLS
        session's. */
    method Settle(i: nat, closing: bool)
      requires Valid() && i < |conns|
      modifies this
      ensures Valid() && conns == old(conns)[i := AfterTls(AfterSettle(old(conns)[i]), closing)]
      ensures var c, d := old(conns)[i], AfterSettle(old(conns)[i]);
              stock == TlsSettled(Settled(old(stock), c, d), d, AfterTls(d, closing))
      ensures dropped == old(dropped + Dropped(stock, conns[i]))
    {
      hide Owned, Stock.Sound, AllSound, AfterSettle, AfterTls, Settled, TlsSettled, Dropped;
      SettlePlain(i);
      SettleTls(i, closing);
    }

    method SettlePlain(i: nat)
      requires Valid() && i < |conns|
      modifies this
      ensures Valid() && conns == old(conns)[i := AfterSettle(old(conns)[i])]
      ensures stock == Settled(old(stock), old(conns)[i], conns[i])
      ensures dropped == old(dropped + Dropped(stock, conns[i]))
    {
      hide Fair, Owned, Stock.Sound, Conn.Sound;
      if conns[i].rbuf.Some? && conns[i].rbuf.value.len == 0 {
        ReadBackFair(stock, conns[i]);
        Apply(i, ReadBack(stock, conns[i]), ReadDrop(conns[i]));
      }
      if conns[i].wbuf.Some? && conns[i].wbuf.value.len == 0 {
        WriteBackFair(stock, conns[i]);
        Apply(i, WriteBack(stock, conns[i]), WriteDrop(stock, conns[i]));
      }
    }

    /** tls_settle. */
    method SettleTls(i: nat, closing: bool)
      requires Valid() && i < |conns|
      modifies this
      ensures Valid() && conns == old(conns)[i := AfterTls(old(conns)[i], closing)]
      ensures stock == TlsSettled(old(stock), old(conns)[i], conns[i]) && dropped == old(dropped)
    {
      hide Fair, Owned, Stock.Sound, Conn.Sound;
      InBackFair(stock, conns[i], closing);
      Apply(i, InBack(stock, conns[i], closing), {});
      OutBackFair(stock, conns[i], closing);
      Apply(i, OutBack(stock, conns[i], closing), {});
      AheadBackFair(stock, conns[i], closing);
      Apply(i, AheadBack(stock, conns[i], closing), {});
    }

    /** lend_big: a grown buffer for an empty one of the standard size, which goes back to the
        write pool. */
    method LendBig(i: nat)
      requires Valid() && i < |conns|
      modifies this
      ensures Valid() && dropped == old(dropped)
      ensures var c, s := old(conns)[i], old(stock);
              if s.big != [] && (c.wbuf.None? || (c.wbuf.value.len == 0 && c.wbuf.value.cap <= 16384)) then
                var n := |s.big| - 1;
                conns == old(conns)[i := c.(wbuf := Some(s.big[n]))]
                    && stock == s.(w := Put(s.w, c.wbuf), big := s.big[..n])
              else conns == old(conns) && stock == s
    {
      hide Fair, Owned, Stock.Sound, Conn.Sound;
      LentBigFair(stock, conns[i]);
      Apply(i, LentBig(stock, conns[i]), {});
      assert conns[i := conns[i]] == conns;
    }

    /** The read-ahead of a handshake: its whole length fits any buffer of the write pool. */
    method LendAhead(i: nat) returns (len: nat)
      requires Valid() && i < |conns| && conns[i].ahead.None?
      modifies this
      ensures Valid() && |conns| == old(|conns|) && conns[i].ahead.Some?
      ensures len == 16384 <= conns[i].ahead.value.cap
      ensures conns == old(conns)[i := old(conns)[i].(ahead := conns[i].ahead)] && dropped == old(dropped)
    {
      hide Fair, Owned, Stock.Sound;
      AheadFair(stock, conns[i]);
      Apply(i, LentAhead(stock, conns[i]), {});
      len := READ_AHEAD;
      assert conns[i].Sound();
    }

    /** A buffer in use fills, empties or grows. */
    method Use(i: nat, c: Conn)
      requires Valid() && i < |conns| && SameBufs(conns[i], c) && c.Sound()
      modifies this
      ensures Valid() && conns == old(conns)[i := c] && stock == old(stock) && dropped == old(dropped)
    {
      Apply(i, (stock, c), {});
    }
  }

  lemma {:induction false} NoneHeld(cs: seq<Conn>)
    requires forall i :: 0 <= i < |cs| ==> cs[i] == Conn(None, None, None, None, None, false, false)
    ensures forall id: nat :: InConns(cs, id) == 0
  {
    if cs != [] {
      NoneHeld(cs[..|cs| - 1]);
    }
  }
}
