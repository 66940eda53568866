/** Two ends of a TLS 1.3 session and the bytes between them, from the handshake's end on:
    every run of writes, reads, requests for new keys and closes on either side, over sockets
    that take and bring as little as they like. */
module TlsLink {
  import opened Basics
  import opened Records
  import opened Tls13

  /** One direction of a session: the bytes write13 reported taken, how often the writer asked
      for new keys, whether it closed the direction or its socket failed, and whether the
      reader saw the close. */
  datatype Way = Way(taken: seq<byte>, asked: nat, closed: bool, broken: bool, over: bool)

  const FRESH: Way := Way([], 0, false, false, false)

  /** What has arrived of what w gave was read in order. */
  ghost predicate Carries(w: Tls13, r: Tls13, d: Way)
    reads w, r
  {
    && w.Writes() && r.Buffers() && w.a == r.a && Prefix(r.got, w.gave) && (!d.closed ==> w.tx.n <= REKEY_AT)
    && (!d.broken ==> AppData(w.sealed) == d.taken)
    && (if d.over then Prefix(r.delivered, AppData(w.sealed)) else r.Reads() && r.Tracks(w.tx0, w.sealed))
  }

  /** The reader of d's records answered no request it did not open, one owed included; d
      counts the requests there are. */
  ghost predicate Paced(w: Tls13, r: Tls13, d: Way)
    reads w, r
  {
    && w.tx0.n == 0 && r.done <= |w.sealed| && Requests(w.sealed) == d.asked
    && Replies(r.a, r.tx0, r.sealed) + (if r.kuOwed then 1 else 0) <= Requests(w.sealed[..r.done])
  }

  /** The first record sealed since answers a request for new keys. */
  ghost predicate Answered(was: seq<Item>, now: seq<Item>) {
    |was| < |now| && now[..|was|] == was && now[|was|] == Update(false)
  }

  class Link {
    const a: Tls13
    const b: Tls13
    ghost var ab: Way
    ghost var ba: Way

    ghost predicate Valid()
      reads this, a, b
    {
      a != b && Carries(a, b, ab) && Carries(b, a, ba) && Paced(a, b, ab) && Paced(b, a, ba)
    }

    /** The handshake is over: each side reads under the secret the other writes under. */
    constructor (suite: Suite, sa: Secret, sb: Secret)
      requires suite.Lawful()
      ensures Valid() && fresh(a) && fresh(b) && ab == FRESH && ba == FRESH
    {
      hide Carries, Wire, KeysAfter, AppData, Updates, Suite.Lawful, AllFit, InLimit, ReadAll;
      a := new Tls13(suite, sb, sa);
      b := new Tls13(suite, sa, sb);
      ab, ba := FRESH, FRESH;
      new;
      Nothing(suite, a, b);
      Nothing(suite, b, a);
    }

    /** Whatever happened so far, each side has read the beginning of what the other side
        reported taken, as long as that side's socket did not fail. */
    lemma Faithful()
      requires Valid()
      ensures !ab.broken ==> Prefix(b.delivered, ab.taken)
      ensures !ba.broken ==> Prefix(a.delivered, ba.taken)
    {
      Read(a, b, ab);
      Read(b, a, ba);
    }

    /** A side updates its keys no more often than either side asked, and once more for every
        2^24 records and the update it seals. */
    lemma UpdatesBounded(fromA: bool)
      requires Valid()
      ensures var w := if fromA then a else b;
              Updates(w.sealed) <= ab.asked + ba.asked + |w.sealed| / 16777217
    {
      hide Carries;
      if fromA {
        Bound(a, b, ab, ba);
      } else {
        Bound(b, a, ba, ab);
      }
    }

    /** One side writes, over a socket that takes what it will: nothing is taken only when
        that is full, and the direction breaks only with it. A KeyUpdate the other side has
        asked for goes out before the data, and no other does before its keys have sealed
        2^24 records. */
    method Write(fromA: bool, buf: seq<byte>, taking: seq<Taken>) returns (k: int, ghost n: nat)
      requires Valid() && !Sending(fromA).closed && !Sending(fromA).broken
      modifies this, a, b
      ensures Valid() && Sending(!fromA) == old(Sending(!fromA)) && k <= |buf|
      ensures k >= 0 ==> Sending(fromA) == old(Sending(fromA)).(taken := old(Sending(fromA).taken) + buf[..k])
      ensures k < 0 ==> Sending(fromA) == old(Sending(fromA)).(broken := k == -2)
      ensures n <= |taking| && (forall i :: 0 <= i < n ==> taking[i].Accept?)
      ensures k == -2 ==> n < |taking| && taking[n].Dead?
      ensures k == -1 ==> n < |taking| ==> taking[n].Full?
      ensures var w := if fromA then a else b;
              k >= 0 && old(w.kuOwed) ==> !w.kuOwed && Answered(old(w.sealed), w.sealed)
      ensures var w := if fromA then a else b;
              && Due(w.a, w.tx0, old(w.sealed), w.sealed, old(w.kuOwed)) && Packed(old(w.sealed), w.sealed)
              && (k >= 0 && k < |buf| ==> k >= 3 * 16384)
    {
      hide Carries, Paced, Due, Packed;
      var s := new Socket([], taking);
      if fromA {
        k, n := WriteEnd(a, b, ab, ba, s, buf);
        ab := ab.(taken := if k >= 0 then ab.taken + buf[..k] else ab.taken, broken := k == -2);
      } else {
        k, n := WriteEnd(b, a, ba, ab, s, buf);
        ba := ba.(taken := if k >= 0 then ba.taken + buf[..k] else ba.taken, broken := k == -2);
      }
    }

    ghost function Sending(fromA: bool): Way
      reads this
    {
      if fromA then ab else ba
    }

    /** One side asks the other for new keys (section 4.6.3 of RFC 8446), moving to its own
        next ones, if its last records are out. */
    method Ask(fromA: bool, taking: seq<Taken>) returns (asked: bool)
      requires Valid() && !Sending(fromA).closed
      modifies this, a, b
      ensures Valid() && Sending(!fromA) == old(Sending(!fromA))
      ensures Sending(fromA) == old(Sending(fromA)).(asked := old(Sending(fromA).asked) + if asked then 1 else 0)
      ensures var w := if fromA then a else b;
              asked == old(w.outOff == |w.out|) && w.sealed == old(w.sealed) + if asked then [Update(true)] else []
    {
      hide Carries, Paced;
      var s := new Socket([], taking);
      if fromA {
        asked := AskEnd(a, b, ab, ba, s);
        ab := ab.(asked := ab.asked + if asked then 1 else 0);
      } else {
        asked := AskEnd(b, a, ba, ab, s);
        ba := ba.(asked := ba.asked + if asked then 1 else 0);
      }
    }

    /** One side closes. */
    method Close(fromA: bool, taking: seq<Taken>)
      requires Valid() && !Sending(fromA).closed
      modifies this, a, b
      ensures Valid() && Sending(!fromA) == old(Sending(!fromA))
      ensures Sending(fromA) == old(Sending(fromA)).(closed := true)
    {
      hide Carries, Paced;
      var s := new Socket([], taking);
      if fromA {
        CloseEnd(a, b, ab, ba, s);
        ab := ab.(closed := true);
      } else {
        CloseEnd(b, a, ba, ab, s);
        ba := ba.(closed := true);
      }
    }

    /** One side reads once its socket is readable: of what is on its way comes what the
        script says, in pieces of any size. While the two asked for new keys no more than the
        limit on key updates allows, it fails only with its socket, ends only with it, and
        waits only when the socket has nothing more or brought less than there was room for;
        met is the script as the last reception found it. A request for new keys that it opens
        is owed from then on. */
    method Read13(fromA: bool, n: nat, coming: seq<Received>) returns (o: Outcome, ghost met: seq<Received>)
      requires Valid() && !Sending(fromA).over
      requires var (w, r) := if fromA then (a, b) else (b, a);
               Prefix(r.got + Brings(coming), w.gave) && ab.asked + ba.asked + |w.sealed| / 16777217 <= 1024
      modifies this, a, b
      ensures Valid() && Sending(!fromA) == old(Sending(!fromA)) && (o.Fail? ==> o == Fail(BadSocket))
      ensures Sending(fromA) == old(Sending(fromA)).(over := o.Notified?)
      ensures Drops(coming, met) && (o.Fail? ==> met != [] && met[0].Broken?)
      ensures o.Ended? ==> met != [] && (met[0].Eof? || met[0] == Data([]))
      ensures var r := if fromA then b else a;
              o.Wait? ==> (|r.got| > old(|r.got|) && |r.inb| < 33290) || met == [] || met[0].Again?
      ensures var (w, r) := if fromA then (a, b) else (b, a);
              r.Owes(w.sealed, old(r.done), old(r.kuOwed))
      ensures var r := if fromA then b else a; r.delivered == old(r.delivered) + if o.Bytes? then o.data else []
      ensures var (w, r) := if fromA then (a, b) else (b, a);
              o.Wait? && w.out == [] && r.got == w.gave ==> r.delivered == AppData(w.sealed)
    {
      hide Carries, Paced, AppData, Updates, Drops, Brings, Asks;
      UpdatesBounded(fromA);
      var s := new Socket(coming, []);
      if fromA {
        o, met := ReadEnd(a, b, ab, ba, s, n);
        ab := ab.(over := o.Notified?);
      } else {
        o, met := ReadEnd(b, a, ba, ab, s, n);
        ba := ba.(over := o.Notified?);
      }
    }
  }

  lemma Nothing(suite: Suite, w: Tls13, r: Tls13)
    requires w.Writes() && w.sealed == [] && w.gave == [] && w.a == r.a == suite && r.rx == w.tx0 && w.tx == w.tx0
    requires w.tx0.n == 0
    requires r.Buffers() && r.inb == [] && r.inOff == r.ptOff == r.ptEnd == 0 && r.kuSeen == 0 && r.got == []
    requires r.delivered == [] && r.done == 0 && r.Reads() && r.sealed == [] && !r.kuOwed
    ensures Carries(w, r, FRESH) && Paced(w, r, FRESH)
  {
  }

  lemma Read(w: Tls13, r: Tls13, d: Way)
    requires Carries(w, r, d)
    ensures !d.broken ==> Prefix(r.delivered, d.taken)
  {
    hide Wire, KeysAfter, AppData, Updates, Suite.Lawful, AllFit, InLimit, ReadAll;
    if !d.over {
      Fidelity(w, r);
    }
  }

  lemma Bound(w: Tls13, r: Tls13, d: Way, e: Way)
    requires Paced(w, r, d) && Paced(r, w, e)
    ensures Updates(w.sealed) <= d.asked + e.asked + |w.sealed| / 16777217
  {
    hide Rekeys, Replies, Requests, Updates, KeysAfter;
    UpdateKinds(w.a, w.tx0, w.sealed);
    RekeysSpaced(w.a, w.tx0, w.sealed);
    RequestsWithin(r.sealed, w.done, |r.sealed|);
    assert r.sealed[..|r.sealed|] == r.sealed;
  }

  /** Requests are counted, and what is answered stays within those opened, as a side seals
      more. */
  lemma PacedWrite(w: Tls13, r: Tls13, d: Way, e: Way, was: seq<Item>, owed: bool)
    requires w.tx0.n == 0 && r.tx0.n == 0 && r.done <= |was| && Prefix(was, w.sealed)
    requires Requests(w.sealed) == d.asked
    requires Replies(r.a, r.tx0, r.sealed) + (if r.kuOwed then 1 else 0) <= Requests(was[..r.done])
    requires w.done <= |r.sealed| && Requests(r.sealed) == e.asked
    requires Replies(w.a, w.tx0, was) + (if owed then 1 else 0) <= Requests(r.sealed[..w.done])
    requires Replies(w.a, w.tx0, w.sealed) + (if w.kuOwed then 1 else 0)
          <= Replies(w.a, w.tx0, was) + (if owed then 1 else 0)
    ensures Paced(w, r, d) && Paced(r, w, e)
  {
    hide Replies, Requests;
    assert w.sealed[..r.done] == was[..r.done];
  }

  /** Opening a request is what makes an answer owed. */
  lemma PacedRead(w: Tls13, r: Tls13, d: Way, e: Way, since: nat, owed: bool)
    requires w.tx0.n == 0 && r.tx0.n == 0 && since <= |w.sealed| && Requests(w.sealed) == d.asked
    requires r.Owes(w.sealed, since, owed)
    requires Replies(r.a, r.tx0, r.sealed) + (if owed then 1 else 0) <= Requests(w.sealed[..since])
    requires w.done <= |r.sealed| && Requests(r.sealed) == e.asked
    requires Replies(w.a, w.tx0, w.sealed) + (if w.kuOwed then 1 else 0) <= Requests(r.sealed[..w.done])
    ensures Paced(w, r, d) && Paced(r, w, e)
  {
    hide Replies, Requests;
    RequestsWithin(w.sealed, since, r.done);
  }

  lemma PacedParts(w: Tls13, r: Tls13, d: Way)
    requires Paced(w, r, d)
    ensures w.tx0.n == 0 && r.done <= |w.sealed| && Requests(w.sealed) == d.asked
    ensures Replies(r.a, r.tx0, r.sealed) + (if r.kuOwed then 1 else 0) <= Requests(w.sealed[..r.done])
  {
  }

  /** w writes to r. */
  method WriteEnd(w: Tls13, r: Tls13, ghost d: Way, ghost e: Way, s: Socket, buf: seq<byte>)
      returns (k: int, ghost n: nat)
    requires w != r && Carries(w, r, d) && Carries(r, w, e) && !d.closed && !d.broken
    requires Paced(w, r, d) && Paced(r, w, e)
    modifies w, s
    ensures Carries(r, w, e) && (k == -1 || k == -2 || 0 <= k <= |buf|)
    ensures var took := if k >= 0 then d.taken + buf[..k] else d.taken;
            Carries(w, r, d.(taken := took, broken := k == -2)) && Paced(w, r, d.(taken := took, broken := k == -2))
    ensures Paced(r, w, e)
    ensures Wrote(old(s.taking), n, k, s.taking)
    ensures k >= 0 && old(w.kuOwed) ==> !w.kuOwed && Answered(old(w.sealed), w.sealed)
    ensures Due(w.a, w.tx0, old(w.sealed), w.sealed, old(w.kuOwed)) && Packed(old(w.sealed), w.sealed)
    ensures k >= 0 && k < |buf| ==> k >= 3 * 16384
  {
    hide *;
    Parts(w, r, d);
    Parts(r, w, e);
    PacedParts(w, r, d);
    PacedParts(r, w, e);
    ghost var was, gave, owed := w.sealed, w.gave, w.kuOwed;
    k, n := WriteBeside(w, r, e, s, buf);
    if k >= 0 && owed {
      AnswerFirst(was, w.sealed);
    }
    Grew(w, r, d, was, gave);
    ghost var took := if k >= 0 then d.taken + buf[..k] else d.taken;
    Whole(w, r, d.(taken := took, broken := k == -2));
    DueCounts(w.a, w.tx0, was, w.sealed, owed);
    PacedWrite(w, r, d.(taken := took, broken := k == -2), e, was, owed);
  }

  /** epoll says there is something to read. */
  method Readable(r: Tls13, ghost rx0: Keys, ghost items: seq<Item>, w: Tls13, ghost e: Way)
    requires r != w && r.Reads() && r.Tracks(rx0, items) && Carries(r, w, e)
    modifies r`drained
    ensures r.Reads() && r.Tracks(rx0, items) && !r.drained && Carries(r, w, e)
  {
    hide Wire, KeysAfter, AppData, Updates, Suite.Lawful, AllFit, ReadAll, InLimit;
    r.drained := false;
  }

  /** What a direction holds. */
  lemma Parts(w: Tls13, r: Tls13, d: Way)
    requires Carries(w, r, d)
    ensures w.Writes() && r.Buffers() && w.a == r.a && w.a.Lawful() && AllFit(w.sealed) && Prefix(r.got, w.gave)
    ensures !d.closed ==> w.tx.n <= REKEY_AT
    ensures Prefix(w.gave, Wire(w.a, w.tx0, w.sealed)) && (!d.broken ==> AppData(w.sealed) == d.taken)
    ensures if d.over then Prefix(r.delivered, AppData(w.sealed)) else r.Reads() && r.Tracks(w.tx0, w.sealed)
  {
    hide Wire, KeysAfter, AppData, Updates, Suite.Lawful, InLimit, ReadAll;
  }

  lemma Whole(w: Tls13, r: Tls13, d: Way)
    requires w.Writes() && r.Buffers() && w.a == r.a && Prefix(r.got, w.gave) && (!d.closed ==> w.tx.n <= REKEY_AT)
    requires !d.broken ==> AppData(w.sealed) == d.taken
    requires if d.over then Prefix(r.delivered, AppData(w.sealed)) else r.Reads() && r.Tracks(w.tx0, w.sealed)
    ensures Carries(w, r, d)
  {
    hide Wire, KeysAfter, AppData, Updates, Suite.Lawful, InLimit, ReadAll;
  }

  /** The reader's side of a writer that sealed more and gave more. */
  lemma Grew(w: Tls13, r: Tls13, d: Way, was: seq<Item>, gave: seq<byte>)
    requires w.Writes() && w.a == r.a && AllFit(was) && Prefix(was, w.sealed) && Prefix(gave, w.gave)
    requires Prefix(r.got, gave)
    requires if d.over then Prefix(r.delivered, AppData(was)) else r.Tracks(w.tx0, was)
    ensures Prefix(r.got, w.gave)
    ensures if d.over then Prefix(r.delivered, AppData(w.sealed)) else r.Tracks(w.tx0, w.sealed)
  {
    hide Wire, KeysAfter, AppData, Updates, Suite.Lawful, InLimit, Item.Fits;
    PrefixChain(r.got, gave, w.gave);
    assert w.sealed == was + w.sealed[|was|..] && w.sealed[..|was|] == was;
    if d.over {
      WirePrefix(w.a, w.tx0, w.sealed, |was|);
      PrefixChain(r.delivered, AppData(was), AppData(w.sealed));
    } else {
      TracksGrow(r, w.tx0, was, w.sealed[|was|..]);
    }
  }

  /** Writing leaves what the writer has read as it is. */
  method WriteBeside(w: Tls13, r: Tls13, ghost e: Way, s: Socket, buf: seq<byte>) returns (k: int, ghost n: nat)
    requires w != r && Carries(r, w, e) && w.Writes() && w.tx.n <= REKEY_AT
    modifies w, s
    ensures w.Writes() && w.tx.n <= REKEY_AT && w.tx0 == old(w.tx0) && Carries(r, w, e)
    ensures Prefix(old(w.sealed), w.sealed) && Prefix(old(w.gave), w.gave) && Wrote(old(s.taking), n, k, s.taking)
    ensures (k == -1 || k == -2 || 0 <= k <= |buf|) && (k == -1 ==> w.sealed == old(w.sealed))
    ensures k >= 0 ==> AppData(w.sealed) == old(AppData(w.sealed)) + buf[..k]
    ensures w.done == old(w.done) && (w.kuOwed ==> old(w.kuOwed) && w.sealed == old(w.sealed))
    ensures Due(w.a, w.tx0, old(w.sealed), w.sealed, old(w.kuOwed)) && Packed(old(w.sealed), w.sealed)
    ensures k >= 0 && k < |buf| ==> k >= 3 * 16384
    ensures k >= 0 && old(w.kuOwed) ==>
              !w.kuOwed && |w.sealed| > old(|w.sealed|) && w.sealed[old(|w.sealed|)] == Update(false)
  {
    hide Wire, KeysAfter, AppData, Updates, Suite.Lawful, AllFit, InLimit, ReadAll, Answers, Due, Packed;
    k, n := w.Write(s, buf);
  }

  lemma AnswerFirst(was: seq<Item>, now: seq<Item>)
    requires Prefix(was, now) && |now| > |was| && now[|was|] == Update(false)
    ensures Answered(was, now)
  {
  }

  method AskEnd(w: Tls13, r: Tls13, ghost d: Way, ghost e: Way, s: Socket) returns (asked: bool)
    requires w != r && Carries(w, r, d) && Carries(r, w, e) && !d.closed && Paced(w, r, d) && Paced(r, w, e)
    modifies w, s
    ensures Carries(r, w, e) && Carries(w, r, d.(asked := d.asked + if asked then 1 else 0))
    ensures Paced(r, w, e) && Paced(w, r, d.(asked := d.asked + if asked then 1 else 0))
    ensures asked == old(w.outOff == |w.out|) && w.sealed == old(w.sealed) + if asked then [Update(true)] else []
  {
    hide *;
    Parts(w, r, d);
    Parts(r, w, e);
    PacedParts(w, r, d);
    PacedParts(r, w, e);
    ghost var was, gave := w.sealed, w.gave;
    asked := w.outOff == |w.out|;
    if asked {
      AskSeal(w, r, e, s);
      PrefixMore(was, was, [Update(true)]);
      Grew(w, r, d, was, gave);
      Whole(w, r, d.(asked := d.asked + 1));
      CountPush(w.a, w.tx0, was, Update(true));
      PacedWrite(w, r, d.(asked := d.asked + 1), e, was, w.kuOwed);
    } else {
      assert was + [] == was;
    }
  }

  method AskSeal(w: Tls13, r: Tls13, ghost e: Way, s: Socket)
    requires w != r && Carries(r, w, e) && w.Writes() && w.outOff == |w.out| && w.tx.n <= REKEY_AT
    modifies w, s
    ensures w.Writes() && w.tx.n <= REKEY_AT && w.tx0 == old(w.tx0) && Prefix(old(w.gave), w.gave) && Carries(r, w, e)
    ensures w.sealed == old(w.sealed) + [Update(true)] && AppData(w.sealed) == old(AppData(w.sealed))
    ensures w.done == old(w.done) && w.kuOwed == old(w.kuOwed)
  {
    hide Wire, KeysAfter, AppData, Updates, Suite.Lawful, AllFit, InLimit, ReadAll, Answers, Prefix;
    DataPush(w.sealed, Update(true));
    assert Update(true).Content() == [24, 0, 0, 1, 1];
    w.Seal(Update(true));
    var sent, n := w.Send(s);
  }

  method CloseEnd(w: Tls13, r: Tls13, ghost d: Way, ghost e: Way, s: Socket)
    requires w != r && Carries(w, r, d) && Carries(r, w, e) && !d.closed && Paced(w, r, d) && Paced(r, w, e)
    modifies w, s
    ensures Carries(r, w, e) && Carries(w, r, d.(closed := true))
    ensures Paced(r, w, e) && Paced(w, r, d.(closed := true))
  {
    hide *;
    Parts(w, r, d);
    Parts(r, w, e);
    PacedParts(w, r, d);
    PacedParts(r, w, e);
    ghost var was, gave := w.sealed, w.gave;
    CountPush(w.a, w.tx0, was, Item.Close);
    DataPush(was, Item.Close);
    CloseBeside(w, r, e, s);
    CloseGrows(was, w.sealed);
    Grew(w, r, d, was, gave);
    Whole(w, r, d.(closed := true));
    PacedWrite(w, r, d.(closed := true), e, was, w.kuOwed);
  }

  method CloseBeside(w: Tls13, r: Tls13, ghost e: Way, s: Socket)
    requires w != r && Carries(r, w, e) && w.Writes() && w.tx.n <= REKEY_AT
    modifies w, s
    ensures w.Writes() && w.tx0 == old(w.tx0) && Prefix(old(w.gave), w.gave) && Carries(r, w, e)
    ensures w.sealed == old(w.sealed) || w.sealed == old(w.sealed) + [Item.Close]
    ensures w.done == old(w.done) && w.kuOwed == old(w.kuOwed)
  {
    hide Wire, KeysAfter, AppData, Updates, Suite.Lawful, AllFit, InLimit, ReadAll;
    w.CloseNotify(s);
  }

  lemma CloseGrows(was: seq<Item>, now: seq<Item>)
    requires now == was || now == was + [Item.Close]
    requires AppData(was + [Item.Close]) == AppData(was) + []
    ensures Prefix(was, now) && AppData(now) == AppData(was)
  {
    hide AppData;
  }

  /** What a read leaves: the close was seen after all data, or all that arrived was read. */
  lemma ReadOn(w: Tls13, r: Tls13, o: Outcome)
    requires w.Writes() && w.a == r.a && r.Buffers()
    requires o.Notified? ==> r.done <= |w.sealed| && r.delivered == AppData(w.sealed[..r.done])
    requires o.Wait? ==> r.Tracks(w.tx0, w.sealed) && r.delivered == AppData(w.sealed[..r.done])
    requires o.Wait? && r.done < |w.sealed| ==> |r.Unread()| < |Sealed(r.a, r.rx, w.sealed[r.done])|
    ensures o.Notified? ==> Prefix(r.delivered, AppData(w.sealed))
    ensures o.Wait? && w.out == [] && r.got == w.gave ==> r.delivered == AppData(w.sealed)
  {
    hide Wire, KeysAfter, AppData, Updates, Suite.Lawful, Item.Fits, InLimit, Sealed;
    if o.Notified? {
      WirePrefix(w.a, w.tx0, w.sealed, r.done);
    }
    if o.Wait? && w.out == [] && r.got == w.gave {
      NothingLost(w, r);
    }
  }

  method ReadEnd(w: Tls13, r: Tls13, ghost d: Way, ghost e: Way, s: Socket, n: nat)
      returns (o: Outcome, ghost met: seq<Received>)
    requires w != r && Carries(w, r, d) && Carries(r, w, e) && !d.over && Paced(w, r, d) && Paced(r, w, e)
    requires Prefix(r.got + Brings(s.coming), w.gave) && Updates(w.sealed) <= 1024
    modifies r, s
    ensures Carries(r, w, e) && Carries(w, r, d.(over := o.Notified?)) && (o.Fail? ==> o == Fail(BadSocket))
    ensures Paced(r, w, e) && Paced(w, r, d.(over := o.Notified?))
    ensures r.delivered == old(r.delivered) + if o.Bytes? then o.data else []
    ensures Drops(old(s.coming), met) && (o.Ended? || o.Fail? ==> Stopped(met, o, s.coming))
    ensures o.Wait? ==> |r.got| > old(|r.got|) || Stopped(met, o, s.coming)
    ensures o.Wait? ==> |r.inb| < 33290 || Stopped(met, o, s.coming)
    ensures r.Owes(w.sealed, old(r.done), old(r.kuOwed))
    ensures o.Wait? && w.out == [] && r.got == w.gave ==> r.delivered == AppData(w.sealed)
  {
    hide *;
    Parts(w, r, d);
    Parts(r, w, e);
    PacedParts(w, r, d);
    PacedParts(r, w, e);
    ghost var since, owed := r.done, r.kuOwed;
    ghost var way := r.got + Brings(s.coming);
    PrefixChain(way, w.gave, Wire(w.a, w.tx0, w.sealed));
    Readable(r, w.tx0, w.sealed, w, e);
    r.FollowsStill(s, w.tx0, w.sealed);
    o, met := ReadBeside(w, r, e, s, n);
    PrefixParts(r.got, Brings(s.coming));
    PrefixChain(r.got, way, w.gave);
    if !o.Notified? {
      r.TracksNow(s, w.tx0, w.sealed);
    }
    ReadOn(w, r, o);
    Whole(w, r, d.(over := o.Notified?));
    PacedRead(w, r, d.(over := o.Notified?), e, since, owed);
  }

  /** Reading leaves the reader's own records as they are. */
  method ReadBeside(w: Tls13, r: Tls13, ghost e: Way, s: Socket, n: nat) returns (o: Outcome, ghost met: seq<Received>)
    requires w != r && Carries(r, w, e) && r.Reads() && r.Follows(s, w.tx0, w.sealed)
    requires Updates(w.sealed) <= 1024 && !r.drained
    modifies r, s
    ensures Carries(r, w, e) && r.Buffers() && r.a == w.a && (o.Fail? ==> o == Fail(BadSocket))
    ensures !o.Notified? ==> r.Reads() && r.Follows(s, w.tx0, w.sealed)
    ensures r.Owes(w.sealed, old(r.done), old(r.kuOwed)) && r.sealed == old(r.sealed) && r.tx0 == old(r.tx0)
    ensures r.got + Brings(s.coming) == old(r.got + Brings(s.coming))
    ensures r.delivered == old(r.delivered) + if o.Bytes? then o.data else []
    ensures o.Notified? ==> r.done <= |w.sealed| && r.delivered == AppData(w.sealed[..r.done])
    ensures o.Wait? ==> r.done <= |w.sealed| && r.delivered == AppData(w.sealed[..r.done])
    ensures o.Wait? && r.done < |w.sealed| ==> |r.Unread()| < |Sealed(r.a, r.rx, w.sealed[r.done])|
    ensures Drops(old(s.coming), met) && (o.Ended? || o.Fail? ==> Stopped(met, o, s.coming))
    ensures o.Wait? ==> |r.got| > old(|r.got|) || Stopped(met, o, s.coming)
    ensures o.Wait? ==> |r.inb| < 33290 || Stopped(met, o, s.coming)
  {
    hide Wire, KeysAfter, AppData, Updates, Suite.Lawful, InLimit, ReadAll, Brings, Drops, Stopped, Sealed;
    o, met := r.Read(s, n, w.tx0, w.sealed, true);
  }

  lemma PrefixParts(x: seq<byte>, y: seq<byte>)
    ensures Prefix(x, x + y)
  {
  }
}
