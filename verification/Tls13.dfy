/** The TLS 1.3 record layer of engine/tls13_linux.c.v: sealing, partial sends, read-ahead,
    opening in place and key updates. */
module Tls13 {
  import opened Basics
  import opened Nonce
  import opened Records

  const MAX_PLAIN: nat := 16384
  const MAX_RECORD: nat := 16384 + 256
  const REKEY_AT: nat := 16777216
  const MAX_KEY_UPDATES: nat := 1024
  const CT_ALERT: byte := 21
  const CT_HANDSHAKE: byte := 22
  const CT_APP: byte := 23

  const IN_CAP: nat := 2 * (5 + MAX_RECORD)
  const RECORD_CAP: nat := 5 + MAX_PLAIN + 1 + 16
  const OUT_CAP: nat := 4 * RECORD_CAP + 32

  datatype Received = Data(bytes: seq<byte>) | Eof | Again | Broken
  datatype Taken = Accept(most: nat) | Full | Dead

  /** Every byte a script of receptions brings. */
  ghost function Brings(script: seq<Received>): seq<byte> {
    if script == [] then [] else (if script[0].Data? then script[0].bytes else []) + Brings(script[1..])
  }

  /** A bound on the receptions left. */
  ghost function Left(script: seq<Received>): nat {
    if script == [] then 0 else (if script[0].Data? then 1 + |script[0].bytes| else 1) + Left(script[1..])
  }

  /** Some of the data a script begins with was received, in pieces of any size. */
  ghost predicate Drops(was: seq<Received>, now: seq<Received>) {
    || was == now
    || (was != [] && was[0].Data? && was[0].bytes != []
        && (Drops(was[1..], now) || (now != [] && now[1..] == was[1..] && Cut(was[0], now[0]))))
  }

  /** The end of a piece of data. */
  ghost predicate Cut(whole: Received, left: Received) {
    && whole.Data? && left.Data? && 0 < |left.bytes| < |whole.bytes|
    && left.bytes == whole.bytes[|whole.bytes| - |left.bytes|..]
  }

  lemma CutTwice(x: Received, y: Received, z: Received)
    requires Cut(x, y) && Cut(y, z)
    ensures Cut(x, z)
  {
    assert z.bytes == x.bytes[|x.bytes| - |z.bytes|..];
  }

  lemma {:induction false} DropsTwice(a: seq<Received>, b: seq<Received>, c: seq<Received>)
    requires Drops(a, b) && Drops(b, c)
    ensures Drops(a, c)
    decreases |a|
  {
    hide Cut;
    if a != b && b != c {
      if Drops(a[1..], b) {
        DropsTwice(a[1..], b, c);
      } else if !Drops(b[1..], c) {
        CutTwice(a[0], b[0], c[0]);
      } else {
        assert b[1..] == a[1..];
      }
    }
  }

  /** A reception that brought no data is what the script had next: an error, an end, or
      nothing available, as when the script is over. */
  ghost predicate Stops(was: seq<Received>, r: Received, now: seq<Received>) {
    if was == [] then r.Again? && now == []
    else now == was[1..] && !r.Data? && (was[0] == r || (r.Eof? && was[0] == Data([])))
  }

  /** And a write: one that took something may leave some of it waiting. */
  ghost predicate Wrote(was: seq<Taken>, n: nat, k: int, now: seq<Taken>) {
    if k < 0 then Answers(was, n, k, now) else Answers(was, n, 1, now) || Answers(was, n, -1, now)
  }

  /** A reception from the script ended a read in the outcome. */
  ghost predicate Stopped(was: seq<Received>, o: Outcome, now: seq<Received>) {
    if o.Wait? then Stops(was, Again, now) else if o.Ended? then Stops(was, Eof, now)
    else o == Fail(BadSocket) && Stops(was, Broken, now)
  }

  lemma DropsNone(s: seq<Received>)
    ensures Drops(s, s)
  {
  }

  /** A send took n answers that accept something, and then, unless all is
      out, the answer it names. */
  ghost predicate Answers(was: seq<Taken>, n: nat, r: int, now: seq<Taken>) {
    && n <= |was| && (forall i :: 0 <= i < n ==> was[i].Accept?)
    && if r == 1 then now == was[n..]
       else if r == -2 then n < |was| && was[n].Dead? && now == was[n + 1..]
       else r == -1 && if n == |was| then now == [] else was[n].Full? && now == was[n + 1..]
  }

  /** A socket as the scripts of what its calls will do; nothing more, and it would
      block. */
  class Socket {
    var coming: seq<Received>
    var taking: seq<Taken>
    ghost var got: seq<byte>
    ghost var gave: seq<byte>

    constructor (coming: seq<Received>, taking: seq<Taken>)
      ensures this.coming == coming && this.taking == taking && got == [] && gave == []
    {
      this.coming, this.taking, got, gave := coming, taking, [], [];
    }

    method Recv(room: nat) returns (r: Received)
      requires room > 0
      modifies this`coming, this`got
      ensures r.Data? ==> 1 <= |r.bytes| <= room
      ensures got == old(got) + if r.Data? then r.bytes else []
      ensures old(Brings(coming)) == (if r.Data? then r.bytes else []) + Brings(coming)
      ensures r.Data? ==> Left(coming) < old(Left(coming))
      ensures if r.Data? then Drops(old(coming), coming) else Stops(old(coming), r, coming)
    {
      if coming == [] {
        return Again;
      }
      r := coming[0];
      if r.Data? && |r.bytes| > room {
        var whole := r.bytes;
        var rest := coming[1..];
        coming := [Data(whole[room..])] + rest;
        r := Data(whole[..room]);
        assert coming[1..] == rest;
        assert Cut(Data(whole), coming[0]);
        assert whole[..room] + (whole[room..] + Brings(rest)) == whole + Brings(rest);
      } else {
        coming := coming[1..];
        if r == Data([]) {
          r := Eof;
        }
      }
      got := got + if r.Data? then r.bytes else [];
    }

    /** How many of the bytes went, -1 when the socket is full, -2 on error. */
    method Send(bytes: seq<byte>) returns (m: int)
      requires |bytes| > 0
      modifies this`taking, this`gave
      ensures m == -1 || m == -2 || 1 <= m <= |bytes|
      ensures gave == old(gave) + if m > 0 then bytes[..m] else []
      ensures taking == if old(taking) == [] then [] else old(taking)[1..]
      ensures m > 0 <==> old(taking) != [] && old(taking)[0].Accept?
      ensures m == -2 <==> old(taking) != [] && old(taking)[0].Dead?
    {
      if taking == [] || taking[0].Full? {
        m := -1;
      } else if taking[0].Dead? {
        m := -2;
      } else {
        var most := taking[0].most;
        m := if most == 0 then 1 else if most < |bytes| then most else |bytes|;
      }
      taking := if taking == [] then [] else taking[1..];
      gave := gave + if m > 0 then bytes[..m] else [];
    }
  }

  /** Every record was sealed at or below the rekey limit. */
  ghost predicate InLimit(a: Suite, k: Keys, items: seq<Item>) {
    forall j :: 0 <= j < |items| ==> KeysAfter(a, k, items[..j]).n <= REKEY_AT
  }

  lemma LimitPush(a: Suite, k: Keys, items: seq<Item>, i: Item)
    requires InLimit(a, k, items) && KeysAfter(a, k, items).n <= REKEY_AT
    ensures InLimit(a, k, items + [i])
  {
    hide KeysAfter;
    forall j | 0 <= j < |items + [i]|
      ensures KeysAfter(a, k, (items + [i])[..j]).n <= REKEY_AT
    {
      if j < |items| {
        assert (items + [i])[..j] == items[..j];
      } else {
        assert (items + [i])[..j] == items;
      }
    }
  }

  /** The key updates sealed since were due: the first item may be one that was owed before,
      any other was sealed by keys that had sealed 2^24 records, and none asks for the
      peer's. */
  ghost predicate Due(a: Suite, k: Keys, was: seq<Item>, now: seq<Item>, owed: bool) {
    && Prefix(was, now)
    && forall j :: |was| <= j < |now| && now[j].Update? ==>
         now[j] == Update(false) && ((j == |was| && owed) || KeysAfter(a, k, now[..j]).n == 16777216)
  }

  lemma DuePush(a: Suite, k: Keys, was: seq<Item>, now: seq<Item>, owed: bool, i: Item)
    requires Due(a, k, was, now, owed)
    requires i.Update? ==> i == Update(false) && ((now == was && owed) || KeysAfter(a, k, now).n == 16777216)
    ensures Due(a, k, was, now + [i], owed)
  {
    hide KeysAfter;
    var all := now + [i];
    forall j | |was| <= j < |all| && all[j].Update?
      ensures all[j] == Update(false) && ((j == |was| && owed) || KeysAfter(a, k, all[..j]).n == 16777216)
    {
      assert all[..j] == if j < |now| then now[..j] else now;
    }
  }

  /** Such updates answer at most the one owed, and ask for none. */
  lemma {:induction false} DueCounts(a: Suite, k: Keys, was: seq<Item>, now: seq<Item>, owed: bool)
    requires Due(a, k, was, now, owed)
    ensures Requests(now) == Requests(was)
    ensures Replies(a, k, now) <= Replies(a, k, was) + if owed && now != was then 1 else 0
    decreases |now|
  {
    hide KeysAfter;
    if |now| > |was| {
      var n := |now| - 1;
      assert forall j :: 0 <= j < n ==> now[..n][..j] == now[..j];
      DueCounts(a, k, was, now[..n], owed);
    } else {
      assert now == was;
    }
  }

  /** Of what was sealed since, every record but the last is full. */
  ghost predicate Packed(was: seq<Item>, now: seq<Item>) {
    |now| == |was| || (|now| > |was| && AllFull(was, now[..|now| - 1]))
  }

  ghost predicate AllFull(was: seq<Item>, now: seq<Item>) {
    && Prefix(was, now)
    && forall j :: |was| <= j < |now| && now[j].App? ==> |now[j].data| == 16384
  }

  lemma FullPush(was: seq<Item>, now: seq<Item>, i: Item)
    requires AllFull(was, now)
    ensures Packed(was, now + [i])
    ensures (i.App? ==> |i.data| == 16384) ==> AllFull(was, now + [i])
  {
    assert (now + [i])[..|now|] == now;
  }

  lemma FullPacked(was: seq<Item>, now: seq<Item>)
    requires AllFull(was, now)
    ensures Packed(was, now)
  {
  }

  class Tls13 {
    const a: Suite
    var rx: Keys
    var tx: Keys
    var inb: seq<byte>
    var inOff: nat
    var ptOff: nat
    var ptEnd: nat
    var out: seq<byte>
    var outOff: nat
    var drained: bool
    var kuOwed: bool
    var kuSeen: nat
    /** Everything sealed since the session began, and the key state it began in. */
    ghost var sealed: seq<Item>
    ghost var tx0: Keys
    /** The bytes of sealed records that have left out. */
    ghost var gave: seq<byte>
    /** Every byte received, every content byte handed out, and the records opened. */
    ghost var got: seq<byte>
    ghost var delivered: seq<byte>
    ghost var done: nat
    /** The key state reading began in. */
    ghost var rxBegan: Keys

    ghost predicate Buffers()
      reads this
    {
      && a.Lawful() && |inb| <= IN_CAP && ptOff <= ptEnd <= inOff <= |inb|
      && |out| <= OUT_CAP && outOff <= |out| && (outOff == |out| ==> out == [])
    }

    /** What has left and what waits are the records of everything sealed. */
    ghost predicate Writes()
      reads this
    {
      && Buffers() && AllFit(sealed) && Wire(a, tx0, sealed) == gave + out[outOff..]
      && tx == KeysAfter(a, tx0, sealed) && InLimit(a, tx0, sealed)
    }

    constructor (a: Suite, rxSecret: Secret, txSecret: Secret)
      requires a.Lawful()
      ensures this.a == a && Writes() && rx == Keys(rxSecret, 0, 0) && tx == tx0 == Keys(txSecret, 0, 0)
      ensures sealed == [] && gave == []
      ensures inb == [] && inOff == ptOff == ptEnd == 0 && out == [] && outOff == 0 && !kuOwed && kuSeen == 0
      ensures got == [] && delivered == [] && done == 0 && rxBegan == rx && Reads()
    {
      rxBegan := Keys(rxSecret, 0, 0);
      this.a := a;
      rx, tx, tx0 := Keys(rxSecret, 0, 0), Keys(txSecret, 0, 0), Keys(txSecret, 0, 0);
      inb, inOff, ptOff, ptEnd, out, outOff := [], 0, 0, 0, [], 0;
      drained, kuOwed, kuSeen, sealed, gave := false, false, 0, [], [];
      got, delivered, done := [], [], 0;
      new;
      assert inb[inOff..] == [] && inb[ptOff..ptEnd] == [];
    }

    /** seal: appends one record to out. A KeyUpdate is followed by the move to the next
        secret, as its only caller does. */
    method Seal(i: Item)
      requires Writes() && i.Fits() && tx.n <= REKEY_AT && |out| + |i.Content()| + 22 <= OUT_CAP
      modifies this`out, this`tx, this`sealed
      ensures Writes() && sealed == old(sealed) + [i] && tx == old(tx).After(a, i)
      ensures |out| == old(|out|) + |i.Content()| + 22
    {
      hide Wire, KeysAfter, Sealed, InLimit, AllFit, Suite.Lawful;
      var r := RecordOf(i);
      WirePush(a, tx0, sealed, i);
      LimitPush(a, tx0, sealed, i);
      assert (out + r)[outOff..] == out[outOff..] + r;
      Assoc(gave, out[outOff..], r);
      out := out + r;
      tx := Keys(tx.secret, tx.gen, tx.n + 1);
      if i.Update? {
        tx := Keys(a.next(tx.secret), tx.gen + 1, 0);
      }
      sealed := sealed + [i];
    }

    method RecordOf(i: Item) returns (r: seq<byte>)
      requires Writes() && i.Fits()
      ensures r == Sealed(a, tx, i) && |r| == |i.Content()| + 22
    {
      hide Writes, Sealed, Suite.Lawful;
      KeysNow();
      var content, typ := i.Content(), if i.App? then CT_APP else if i.Update? then CT_HANDSHAKE else CT_ALERT;
      var length := |content| + 1 + 16;
      var h: seq<byte> := [CT_APP, 3, 3, length / 256, length % 256];
      SealedIs(a, tx, i, h, typ);
      r := h + a.seal(a.key(tx.secret), NonceOf(a.iv(tx.secret), tx.n), h, content + [typ]);
    }

    /** send: 1 when everything waiting is out, -1 when the socket is full, -2 on error. */
    method Send(s: Socket) returns (r: int, ghost n: nat)
      requires Writes()
      modifies this`out, this`outOff, this`gave, s`taking, s`gave
      ensures Writes() && (r == 1 || r == -1 || r == -2) && if r == 1 then out == [] && outOff == 0 else outOff < |out|
      ensures Prefix(old(gave), gave) && exists d :: gave == old(gave) + d && s.gave == old(s.gave) + d
      ensures Answers(old(s.taking), n, r, s.taking)
    {
      hide Wire, KeysAfter, InLimit, AllFit, Suite.Lawful;
      ghost var d: seq<byte> := [];
      assert gave + d == gave && s.gave + d == s.gave;
      ghost var taking := s.taking;
      n := 0;
      while outOff < |out|
        invariant Buffers() || (outOff == |out| && |out| <= OUT_CAP)
        invariant outOff <= |out| && out == old(out) && a.Lawful()
        invariant gave + out[outOff..] == old(gave + out[outOff..])
        invariant gave == old(gave) + d && s.gave == old(s.gave) + d
        invariant Answers(taking, n, 1, s.taking)
        decreases |out| - outOff
      {
        var waiting := out[outOff..];
        var m := s.Send(waiting);
        if m < 0 {
          return m, n;
        }
        n := n + 1;
        Assoc(gave, waiting[..m], waiting[m..]);
        Assoc(old(gave), d, waiting[..m]);
        Assoc(old(s.gave), d, waiting[..m]);
        assert waiting == waiting[..m] + waiting[m..] && out[outOff + m..] == waiting[m..];
        d := d + waiting[..m];
        gave := gave + waiting[..m];
        outOff := outOff + m;
      }
      assert out[outOff..] == [];
      out, outOff := [], 0;
      r := 1;
    }

    /** write13: bytes taken, -1 when the socket is full, -2 on error. What it takes is
        what the records sealed carry, which are full but for the last, and three of them
        before it leaves any for later. A KeyUpdate owed goes first, and no other does before
        its keys have sealed 2^24 records. */
    method Write(s: Socket, buf: seq<byte>) returns (k: int, ghost n: nat)
      requires Writes() && tx.n <= REKEY_AT
      modifies this`out, this`outOff, this`gave, this`tx, this`sealed, this`kuOwed, s`taking, s`gave
      ensures Writes() && tx.n <= REKEY_AT && Prefix(old(sealed), sealed) && Prefix(old(gave), gave)
      ensures k == -1 || k == -2 || 0 <= k <= |buf|
      ensures k == -1 ==> sealed == old(sealed) && kuOwed == old(kuOwed) && old(outOff) < |old(out)| && outOff < |out|
      ensures k >= 0 ==> AppData(sealed) == old(AppData(sealed)) + buf[..k] && (buf != [] ==> k >= 1)
      ensures Wrote(old(s.taking), n, k, s.taking)
      ensures k >= 0 ==> !kuOwed && (old(kuOwed) ==> |sealed| > |old(sealed)| && sealed[|old(sealed)|] == Update(false))
      ensures Due(a, tx0, old(sealed), sealed, old(kuOwed)) && Packed(old(sealed), sealed)
      ensures kuOwed ==> old(kuOwed) && sealed == old(sealed)
      ensures 0 <= k < |buf| ==> k >= 3 * 16384
    {
      hide Wire, KeysAfter, InLimit, AllFit, Suite.Lawful, AppData;
      n := 0;
      if outOff < |out| {
        var first, taken := Send(s);
        if first != 1 {
          return first, taken;
        }
        n := taken;
      }
      assert out == [];
      k := Fill(buf);
      var r;
      ghost var more;
      r, more := Send(s);
      n := n + more;
      if r == -2 {
        k := -2;
      }
      assert Answers(old(s.taking), n, r, s.taking);
    }

    /** Our KeyUpdate, under the old key. */
    method SealUpdate(ghost was: seq<Item>, ghost owed: bool)
      requires Writes() && tx.n <= REKEY_AT && |out| + 27 <= OUT_CAP
      requires Due(a, tx0, was, sealed, owed) && AllFull(was, sealed) && ((sealed == was && owed) || tx.n == 16777216)
      modifies this`out, this`tx, this`sealed, this`kuOwed
      ensures Writes() && tx.n == 0 && !kuOwed && |out| == old(|out|) + 27
      ensures sealed == old(sealed) + [Update(false)] && AppData(sealed) == old(AppData(sealed))
      ensures Due(a, tx0, was, sealed, owed) && AllFull(was, sealed)
    {
      hide Wire, KeysAfter, InLimit, AllFit, Suite.Lawful, AppData, Due, AllFull;
      KeysNow();
      DuePush(a, tx0, was, sealed, owed, Update(false));
      FullPush(was, sealed, Update(false));
      DataPush(sealed, Update(false));
      Seal(Update(false));
      kuOwed := false;
    }

    method SealApp(data: seq<byte>, ghost was: seq<Item>, ghost owed: bool)
      requires Due(a, tx0, was, sealed, owed) && AllFull(was, sealed)
      requires Writes() && tx.n < REKEY_AT && |data| <= MAX_PLAIN && |out| + |data| + 22 <= OUT_CAP
      modifies this`out, this`tx, this`sealed
      ensures Writes() && tx.n <= REKEY_AT && |out| == old(|out|) + |data| + 22
      ensures sealed == old(sealed) + [App(data)] && AppData(sealed) == old(AppData(sealed)) + data
      ensures Due(a, tx0, was, sealed, owed) && Packed(was, sealed) && (|data| == 16384 ==> AllFull(was, sealed))
    {
      hide Writes, AppData, Due, AllFull, Packed, KeysAfter;
      DuePush(a, tx0, was, sealed, owed, App(data));
      FullPush(was, sealed, App(data));
      DataPush(sealed, App(data));
      Seal(App(data));
    }

    /** The loop of write13: seals what out has room for. */
    method Fill(buf: seq<byte>) returns (k: nat)
      requires Writes() && tx.n <= REKEY_AT && out == [] && outOff == 0
      modifies this`out, this`tx, this`sealed, this`kuOwed
      ensures Writes() && tx.n <= REKEY_AT && |sealed| >= |old(sealed)| && k <= |buf|
      ensures AppData(sealed) == old(AppData(sealed)) + buf[..k] && (buf != [] ==> k >= 1) && !kuOwed
      ensures old(kuOwed) ==> |sealed| > |old(sealed)| && sealed[|old(sealed)|] == Update(false)
      ensures Due(a, tx0, old(sealed), sealed, old(kuOwed)) && Packed(old(sealed), sealed)
      ensures k < |buf| ==> k >= 3 * 16384
    {
      hide Writes, AppData, KeysAfter, Due, Prefix, AllFull, Packed;
      k := 0;
      assert buf[..0] == [];
      ghost var was, owed, began := sealed, kuOwed, AppData(sealed);
      NoneDue(a, tx0, was, kuOwed);
      while true
        invariant Writes() && tx.n <= REKEY_AT && k <= |buf| && |out| <= OUT_CAP
        invariant AppData(sealed) == began + buf[..k]
        invariant if k == 0 then out == [] && sealed == was && kuOwed == owed
                  else k < |buf| && !kuOwed && |sealed| > |was| && (owed ==> sealed[|was|] == Update(false))
        invariant Due(a, tx0, was, sealed, owed) && AllFull(was, sealed)
        invariant |out| * 16384 <= k * 16433 && (k < 3 * 16384 ==> k in {0, 16384, 2 * 16384})
        decreases |buf| - k
      {
        if kuOwed || tx.n >= REKEY_AT {
          if OUT_CAP - |out| < RECORD_CAP + 32 {
            FullPacked(was, sealed);
            break;
          }
          SealUpdate(was, owed);
        }
        var m := if |buf| - k > MAX_PLAIN then MAX_PLAIN else |buf| - k;
        if OUT_CAP - |out| < 5 + m + 1 + 16 {
          FullPacked(was, sealed);
          break;
        }
        SealApp(buf[k..k + m], was, owed);
        Assoc(began, buf[..k], buf[k..k + m]);
        assert buf[..k] + buf[k..k + m] == buf[..k + m];
        k := k + m;
        if k == |buf| {
          break;
        }
      }
    }

    lemma KeysNow()
      requires Writes()
      ensures tx == KeysAfter(a, tx0, sealed) && a.Lawful()
    {
    }

    /** close_notify, if no record is still going out. */
    method CloseNotify(s: Socket)
      requires Writes() && tx.n <= REKEY_AT
      modifies this`out, this`outOff, this`gave, this`tx, this`sealed, s`taking, s`gave
      ensures Writes() && Prefix(old(gave), gave)
      ensures sealed == old(if outOff >= |out| then sealed + [Close] else sealed)
    {
      hide Wire, KeysAfter, InLimit, AllFit, Suite.Lawful;
      if outOff >= |out| {
        Seal(Close);
        var r, n := Send(s);
      }
    }

    /** What is received but not yet opened. */
    ghost function Unread(): seq<byte>
      requires inOff <= |inb|
      reads this
    {
      inb[inOff..]
    }

    /** Content opened but not yet handed out. */
    ghost function Ready(): seq<byte>
      requires ptOff <= ptEnd <= |inb|
      reads this
    {
      inb[ptOff..ptEnd]
    }

    /** open_next: 1 when a record was handled, 0 when it has not all arrived, -3 at
        close_notify, -2 on anything the protocol forbids. */
    method OpenNext() returns (r: int)
      requires Buffers() && ptOff == ptEnd
      modifies this`inb, this`inOff, this`ptOff, this`ptEnd, this`rx, this`kuOwed, this`kuSeen
      ensures Buffers() && |inb| == old(|inb|) && (r == 1 || r == 0 || r == -2 || r == -3)
      ensures (r == 1 ==> old(inOff) < inOff) && (r == 0 <==> NextRecord(a, old(rx), old(Unread())).Partial?)
      ensures match NextRecord(a, old(rx), old(Unread())) {
                case Partial => r == 0 && inb == old(inb) && inOff == old(inOff) && ptOff == ptEnd
                    && Side() == old(Side())
                case Bad => r == -2
                case Record(typ, content, size) =>
                  && (r == 1 ==> Unread() == old(Unread())[size..])
                  && Handles(a, typ, content, r, old(Side()), Side(), Ready())
              }
    {
      hide NonceOf, Suite.Lawful, Unpadded;
      var avail := |inb| - inOff;
      ghost var s := inb[inOff..];
      if avail < 5 {
        return 0;
      }
      var length := inb[inOff + 3] as int * 256 + inb[inOff + 4];
      if inb[inOff] != CT_APP || length > MAX_RECORD || length < 17 {
        return -2;
      }
      if avail < 5 + length {
        return 0;
      }
      var h, body := inb[inOff..inOff + 5], inb[inOff + 5..inOff + 5 + length];
      assert h == s[..5] && body == s[5..5 + length];
      OpensTo(a, rx, h, body);
      var p := a.open(a.key(rx.secret), NonceOf(a.iv(rx.secret), rx.n), h, body);
      if p.None? {
        return -2;
      }
      r := Opened(p.value, length);
    }

    /** The rest of open_next, the record at inOff opened in place to p. */
    method Opened(p: seq<byte>, length: nat) returns (r: int)
      requires Buffers() && ptOff == ptEnd && inOff + 5 + length <= |inb| && length == |p| + 16
      modifies this`inb, this`inOff, this`ptOff, this`ptEnd, this`rx, this`kuOwed, this`kuSeen
      ensures Buffers() && |inb| == old(|inb|) && (r == 1 || r == -2 || r == -3)
      ensures inOff == old(inOff) + 5 + length && Unread() == old(Unread())[5 + length..]
      ensures var e := Unpadded(p);
              if e == 0 || e - 1 > MAX_PLAIN then r == -2
              else Handles(a, p[e - 1], p[..e - 1], r, old(Side()), Side(), Ready())
    {
      hide Suite.Lawful, Unpadded, Handles;
      var start := inOff + 5;
      inb := inb[..start] + p + inb[start + |p|..];
      rx := Keys(rx.secret, rx.gen, rx.n + 1);
      inOff := inOff + 5 + length;
      assert inb[inOff..] == old(inb)[inOff..] == old(Unread())[5 + length..];
      assert inb[start..start + |p|] == p;
      var e := ContentEnd(start, |p|);
      if e == 0 || e - 1 > MAX_PLAIN {
        return -2;
      }
      assert inb[start..start + e - 1] == p[..e - 1] && inb[start + e - 1] == p[e - 1];
      r := Take(start, e - 1, inb[start + e - 1], old(Side()));
    }

    /** The type byte is the last non-zero one: where the content and it end. */
    method ContentEnd(start: nat, len: nat) returns (e: nat)
      requires start + len <= |inb|
      ensures e == Unpadded(inb[start..start + len])
    {
      hide Unpadded;
      ghost var p := inb[start..start + len];
      e := len;
      assert p[..len] == p;
      while e > 0 && inb[start + e - 1] == 0
        invariant 0 <= e <= len && Unpadded(p) == Unpadded(p[..e])
      {
        UnpaddedStep(p[..e]);
        assert p[..e][..e - 1] == p[..e - 1];
        e := e - 1;
      }
      UnpaddedEnd(p[..e]);
    }

    /** What a record of e content bytes at start does, by its type. */
    method Take(start: nat, e: nat, typ: byte, ghost was: ReadSide) returns (r: int)
      requires Buffers() && ptOff == ptEnd && start + e <= inOff
      requires Side() == was.(rx := Keys(was.rx.secret, was.rx.gen, was.rx.n + 1))
      modifies this`ptOff, this`ptEnd, this`rx, this`kuOwed, this`kuSeen
      ensures Buffers() && (r == 1 || r == -2 || r == -3)
      ensures Handles(a, typ, old(inb[start..start + e]), r, was, Side(), Ready())
    {
      hide Suite.Lawful;
      ghost var c := inb[start..start + e];
      assert forall j :: 0 <= j < e ==> c[j] == inb[start + j];
      if typ == CT_APP {
        ptOff, ptEnd := start, start + e;
        return 1;
      }
      if typ == CT_ALERT {
        return if e == 2 && inb[start + 1] == 0 then -3 else -2;
      }
      if typ == CT_HANDSHAKE {
        if e != 5 || inb[start] != 24 || inb[start + 1] != 0 || inb[start + 2] != 0 || inb[start + 3] != 1
            || inb[start + 4] > 1 {
          return -2;
        }
        assert IsUpdate(c);
        kuSeen := kuSeen + 1;
        if kuSeen > MAX_KEY_UPDATES {
          return -2;
        }
        if inb[start + 4] == 1 {
          kuOwed := true;
        }
        rx := Keys(a.next(rx.secret), rx.gen + 1, 0);
        return 1;
      }
      return -2;
    }

    /** What was handed out and what is ready come first in what a reader makes of all the
        bytes received, and the rest is what one makes of those unread. */
    ghost predicate Reads()
      reads this
    {
      Buffers() && ReadAll(a, rxBegan, 0, got) == Ahead(delivered + Ready(), ReadAll(a, rx, kuSeen, Unread()))
    }

    /** The bytes received hold exactly what was handed out, and end so. */
    ghost predicate Ends(end: End)
      reads this
    {
      a.Lawful() && ReadAll(a, rxBegan, 0, got).data == delivered && ReadAll(a, rxBegan, 0, got).end == end
    }

    /** The records opened are the peer's first ones; what they carried was handed out, in
        order, but for what is ready. */
    ghost predicate Tracks(rx0: Keys, items: seq<Item>)
      reads this
    {
      && Buffers() && AllFit(items) && done <= |items| && AllFit(items[..done])
      && got == Wire(a, rx0, items[..done]) + Unread() && Prefix(got, Wire(a, rx0, items))
      && rx == KeysAfter(a, rx0, items[..done]) && kuSeen == Updates(items[..done])
      && delivered + Ready() == AppData(items[..done])
    }

    /** And what is still to be received is the rest of the peer's records. */
    ghost predicate Follows(s: Socket, rx0: Keys, items: seq<Item>)
      reads this, s
    {
      Tracks(rx0, items) && Prefix(got + Brings(s.coming), Wire(a, rx0, items))
    }

    /** A KeyUpdate is owed if it was before, or one of the records opened since asks for
        it. */
    ghost predicate Owes(items: seq<Item>, since: nat, owed: bool)
      reads this`done, this`kuOwed
    {
      since <= done <= |items| && kuOwed == (owed || Asks(items, since, done))
    }

    /** Opening the next record of a peer that keeps to the protocol. */
    method OpenTracked(ghost rx0: Keys, ghost items: seq<Item>, ghost honest: bool, ghost since: nat, ghost owed: bool)
        returns (r: int)
      requires Reads() && ptOff == ptEnd
      requires honest ==> Tracks(rx0, items) && Updates(items) <= 1024 && Owes(items, since, owed)
      modifies this`inb, this`inOff, this`ptOff, this`ptEnd, this`rx, this`kuOwed, this`kuSeen, this`done
      ensures Buffers() && |inb| == old(|inb|) && (r == 1 || r == 0 || r == -2 || r == -3)
      ensures (r == 1 ==> Behind() < old(Behind())) && (r == 0 ==> |Unread()| < 5 + MAX_RECORD && ptOff == ptEnd)
      ensures done == old(done) + if r == 1 then 1 else 0
      ensures honest && (r == 0 || r == 1) ==> Tracks(rx0, items)
      ensures honest ==> Owes(items, since, owed)
      ensures honest && r == 0 && done < |items| ==> |Unread()| < |Sealed(a, rx, items[done])|
      ensures if r == 1 then Reads() else if r == 0 then Reads() && Ends(More)
              else Ends(if r == -3 then Closed else Refused)
      ensures honest ==> r != -2
      ensures honest && r == -3 ==>
                old(done) < |items| && items[old(done)].Close? && delivered == AppData(items[..done])
    {
      hide Wire, KeysAfter, Sealed, AppData, Updates, Suite.Lawful, Item.Fits, AllFit, NextRecord, Handles, Prefix;
      hide ReadAll;
      ghost var rest, was := Unread(), Side();
      assert Ready() == [] && delivered + [] == delivered;
      if honest {
        NextIs(a, rx0, items, done, rest);
      }
      r := OpenNext();
      ReadStep(a, rest, r, was, Side(), Ready(), Unread());
      Assoc(delivered, Ready(), ReadAll(a, rx, kuSeen, Unread()).data);
      if honest && NextRecord(a, was.rx, rest).Record? {
        Advance(a, rx0, items, done, rest, r, was, Side(), Ready(), Unread());
        AsksMore(items, since, done);
      }
      if r == 1 {
        done := done + 1;
      }
    }

    /** Hands out the first k bytes that are ready. */
    method HandOut(k: nat, ghost rx0: Keys, ghost items: seq<Item>, ghost honest: bool) returns (data: seq<byte>)
      requires Reads() && k <= ptEnd - ptOff && (honest ==> Tracks(rx0, items))
      modifies this`ptOff, this`delivered
      ensures Buffers() && Reads() && data == old(inb[ptOff..ptOff + k]) && delivered == old(delivered) + data
      ensures honest ==> Tracks(rx0, items)
    {
      hide Wire, KeysAfter, AppData, Updates, Suite.Lawful, AllFit, ReadAll;
      data := inb[ptOff..ptOff + k];
      ghost var was := delivered;
      Assoc(was, data, inb[ptOff + k..ptEnd]);
      assert inb[ptOff..ptEnd] == data + inb[ptOff + k..ptEnd];
      ptOff := ptOff + k;
      delivered := delivered + data;
    }

    /** Everything opened is out, so what is unread moves down. */
    method Compact(ghost rx0: Keys, ghost items: seq<Item>, ghost honest: bool)
      requires Reads() && ptOff == ptEnd && (honest ==> Tracks(rx0, items))
      modifies this`inb, this`inOff, this`ptOff, this`ptEnd
      ensures Reads() && ptOff == ptEnd && inOff == 0 && inb == old(Unread()) && (honest ==> Tracks(rx0, items))
    {
      hide Wire, KeysAfter, AppData, Updates, Suite.Lawful, AllFit, ReadAll;
      if inOff > 0 {
        inb := inb[inOff..];
        inOff, ptOff, ptEnd := 0, 0, 0;
      }
      assert inb[0..] == inb;
    }

    /** What a reception brings goes behind what is unread. */
    method Append(bytes: seq<byte>, ghost rx0: Keys, ghost items: seq<Item>, ghost honest: bool)
      requires Reads() && |inb| + |bytes| <= IN_CAP
      requires honest ==> Tracks(rx0, items) && Prefix(got + bytes, Wire(a, rx0, items))
      modifies this`inb, this`got
      ensures Reads() && got == old(got) + bytes && |inb| == old(|inb|) + |bytes| && (honest ==> Tracks(rx0, items))
    {
      hide Wire, KeysAfter, AppData, Updates, Suite.Lawful, AllFit, ReadAll;
      ReadGrows(a, rxBegan, got, delivered + Ready(), rx, kuSeen, Unread(), bytes);
      assert (inb + bytes)[inOff..] == inb[inOff..] + bytes && (inb + bytes)[ptOff..ptEnd] == inb[ptOff..ptEnd];
      if honest {
        Assoc(Wire(a, rx0, items[..done]), inb[inOff..], bytes);
      }
      inb := inb + bytes;
      got := got + bytes;
    }

    /** Opens whole records until one has content to hand out. */
    method Look(n: nat, ghost rx0: Keys, ghost items: seq<Item>, ghost honest: bool, ghost since: nat, ghost owed: bool)
        returns (o: Option<Outcome>)
      requires Reads()
      requires honest ==> Tracks(rx0, items) && Updates(items) <= 1024 && Owes(items, since, owed)
      modifies this`inb, this`inOff, this`ptOff, this`ptEnd, this`rx, this`kuOwed, this`kuSeen, this`delivered
      modifies this`done
      ensures Buffers() && (o.Some? ==> o.value.Bytes? || o.value.Notified? || o.value == Fail(Protocol))
      ensures |inb| == old(|inb|)
      ensures o.None? || o.value.Bytes? ==> Reads()
      ensures o.None? ==> Ends(More) && ptOff == ptEnd && |Unread()| < 5 + MAX_RECORD
      ensures o.Some? && !o.value.Bytes? ==> Ends(if o.value.Notified? then Closed else Refused)
      ensures o.Some? && o.value.Bytes? ==> |o.value.data| <= n && (n > 0 ==> o.value.data != [])
      ensures delivered == old(delivered) + if o.Some? && o.value.Bytes? then o.value.data else []
      ensures honest ==> o != Some(Fail(Protocol))
      ensures honest && (o.None? || o.value.Bytes?) ==> Tracks(rx0, items)
      ensures honest ==> Owes(items, since, owed)
      ensures honest && o.Some? && o.value.Notified? ==>
                done < |items| && items[done].Close? && delivered == AppData(items[..done])
      ensures honest && o.None? ==> AllFit(items) && a.Lawful() && delivered == AppData(items[..done])
      ensures honest && o.None? && done < |items| ==> |Unread()| < |Sealed(a, rx, items[done])|
    {
      hide *;
      InOrder();
      while true
        invariant Buffers() && Reads() && delivered == old(delivered) && |inb| == old(|inb|)
        invariant honest ==> Tracks(rx0, items) && Owes(items, since, owed)
        decreases Behind()
      {
        InOrder();
        if ptOff < ptEnd {
          var k := if n < ptEnd - ptOff then n else ptEnd - ptOff;
          var data := HandOut(k, rx0, items, honest);
          return Some(Bytes(data));
        }
        var r := OpenTracked(rx0, items, honest, since, owed);
        if r == -3 {
          return Some(Notified);
        }
        if r < 0 {
          return Some(Fail(Protocol));
        }
        if r == 0 {
          if honest {
            AllOut(rx0, items);
          }
          return None;
        }
      }
    }

    /** read13. From any peer, what comes out is what a reader makes of the bytes received,
        in order and all of it before waiting or ending; closed and refused is what that
        reader says, and the other ends are the socket's, met being what was to come from it
        at the last reception. It waits only when that had nothing, or brought less than there
        was room for. From a peer that keeps to the protocol, content comes out as it was sent
        and the only failure is the socket's. */
    method Read(s: Socket, n: nat, ghost rx0: Keys, ghost items: seq<Item>, ghost honest: bool)
        returns (o: Outcome, ghost met: seq<Received>)
      requires Reads()
      requires honest ==> Follows(s, rx0, items) && Updates(items) <= 1024
      modifies this`inb, this`inOff, this`ptOff, this`ptEnd, this`rx, this`kuOwed, this`kuSeen, this`drained
      modifies this`got, this`delivered, this`done, s`coming, s`got
      ensures Buffers() && o != Fail(Wedged)
      ensures o.Notified? || o == Fail(Protocol) || Reads()
      ensures !o.Bytes? ==> Ends(if o.Notified? then Closed else if o == Fail(Protocol) then Refused else More)
      ensures Drops(old(s.coming), met) && (Stopped(met, o, s.coming) || s.coming == met)
      ensures o.Ended? || o == Fail(BadSocket) ==> Stopped(met, o, s.coming)
      ensures o.Wait? ==> drained && (old(drained) || |got| > |old(got)| || Stopped(met, o, s.coming))
      ensures o.Wait? ==> old(drained) || |inb| < 33290 || Stopped(met, o, s.coming)
      ensures got + Brings(s.coming) == old(got + Brings(s.coming)) && Prefix(old(got), got)
      ensures o.Bytes? ==> |o.data| <= n && (n > 0 ==> o.data != [])
      ensures delivered == old(delivered) + if o.Bytes? then o.data else []
      ensures honest && !o.Notified? ==> Follows(s, rx0, items)
      ensures honest ==> Owes(items, old(done), old(kuOwed))
      ensures honest && o.Fail? ==> o == Fail(BadSocket)
      ensures honest && o.Notified? ==> done < |items| && items[done].Close? && delivered == AppData(items[..done])
      ensures honest && o.Wait? ==> delivered == AppData(items[..done])
      ensures honest && o.Wait? && done < |items| ==> |Unread()| < |Sealed(a, rx, items[done])|
    {
      hide *;
      PrefixMore([], got, []);
      DropsNone(s.coming);
      InOrder();
      if honest {
        OwesNow(s, rx0, items);
      }
      while true
        invariant Buffers() && Reads() && delivered == old(delivered) && Prefix(old(got), got)
        invariant Drops(old(s.coming), s.coming) && |got| >= |old(got)|
        invariant drained ==> old(drained) || (|got| > |old(got)| && |inb| < 33290)
        invariant honest ==> Follows(s, rx0, items) && Owes(items, old(done), old(kuOwed))
        invariant got + Brings(s.coming) == old(got + Brings(s.coming))
        decreases Left(s.coming)
      {
        if honest {
          TracksNow(s, rx0, items);
        }
        var look := Look(n, rx0, items, honest, old(done), old(kuOwed));
        if honest && !(look.Some? && look.value.Notified?) {
          FollowsStill(s, rx0, items);
        }
        if look.Some? {
          return look.value, s.coming;
        }
        if drained {
          return Wait, s.coming;
        }
        ghost var before := got;
        met := s.coming;
        var stop := Refill(s, rx0, items, honest);
        if honest {
          TracksNow(s, rx0, items);
        }
        PrefixChain(old(got), before, got);
        if stop.Some? {
          return stop.value, met;
        }
        DropsTwice(old(s.coming), met, s.coming);
      }
    }

    /** Bytes received and not opened. */
    ghost function Behind(): nat
      reads this
    {
      if inOff <= |inb| then |inb| - inOff else 0
    }

    lemma OwesNow(s: Socket, rx0: Keys, items: seq<Item>)
      requires Follows(s, rx0, items)
      ensures Owes(items, done, kuOwed)
    {
      hide Wire, KeysAfter, AppData, Updates, Suite.Lawful, AllFit, Brings;
    }

    lemma TracksNow(s: Socket, rx0: Keys, items: seq<Item>)
      requires Follows(s, rx0, items)
      ensures Tracks(rx0, items) && AllFit(items) && a.Lawful() && Prefix(got + Brings(s.coming), Wire(a, rx0, items))
    {
    }

    lemma FollowsStill(s: Socket, rx0: Keys, items: seq<Item>)
      requires Tracks(rx0, items) && AllFit(items) && a.Lawful() && Prefix(got + Brings(s.coming), Wire(a, rx0, items))
      ensures Follows(s, rx0, items)
    {
    }

    lemma InOrder()
      requires Reads()
      ensures Buffers() && ptOff <= ptEnd <= inOff <= |inb|
    {
    }

    lemma AllOut(rx0: Keys, items: seq<Item>)
      requires Tracks(rx0, items) && ptOff == ptEnd
      ensures delivered == AppData(items[..done]) && AllFit(items) && a.Lawful()
    {
    }

    /** Makes room and receives, or says why not. */
    method Refill(s: Socket, ghost rx0: Keys, ghost items: seq<Item>, ghost honest: bool)
        returns (stop: Option<Outcome>)
      requires Reads() && Ends(More) && ptOff == ptEnd && |Unread()| < 5 + MAX_RECORD
      requires honest ==> Follows(s, rx0, items)
      modifies this`inb, this`inOff, this`ptOff, this`ptEnd, this`drained, this`got, s`coming, s`got
      ensures Buffers() && Reads() && Prefix(old(got), got)
      ensures got + Brings(s.coming) == old(got + Brings(s.coming))
      ensures honest ==> Follows(s, rx0, items)
      ensures stop.None? ==> Left(s.coming) < old(Left(s.coming))
      ensures stop.None? ==> |got| > |old(got)| && Drops(old(s.coming), s.coming)
      ensures stop.Some? ==> stop.value in {Ended, Wait, Fail(BadSocket)} && Ends(More)
      ensures stop.Some? ==> got == old(got) && Unread() == old(Unread())
      ensures stop.Some? ==> Stopped(old(s.coming), stop.value, s.coming)
      ensures stop.Some? ==> drained == (old(drained) || stop.value.Wait?)
      ensures stop.None? ==> (drained <==> |inb| < 33290)
    {
      hide Wire, KeysAfter, Sealed, AppData, Updates, Suite.Lawful, Item.Fits, AllFit, Left, Brings, ReadAll;
      Compact(rx0, items, honest);
      assert Unread() == old(Unread());
      var room := IN_CAP - |inb|;
      if room == 0 {
        return Some(Fail(Wedged));
      }
      var m := s.Recv(room);
      if m.Data? {
        drained := |m.bytes| < room;
        Assoc(got, m.bytes, Brings(s.coming));
        if honest {
          PrefixCut(got, m.bytes, Brings(s.coming), Wire(a, rx0, items));
        }
        Append(m.bytes, rx0, items, honest);
        return None;
      }
      assert [] + Brings(s.coming) == Brings(s.coming);
      drained := drained || m.Again?;
      return Some(if m.Eof? then Ended else if m.Again? then Wait else Fail(BadSocket));
    }

    ghost function Side(): ReadSide
      reads this
    {
      ReadSide(rx, kuSeen, kuOwed)
    }
  }

  /** One of the items from i up to j asks for a KeyUpdate. */
  ghost predicate Asks(items: seq<Item>, i: nat, j: nat) {
    exists k :: i <= k < j && k < |items| && items[k] == Update(true)
  }

  lemma AsksMore(items: seq<Item>, i: nat, j: nat)
    requires i <= j < |items|
    ensures Asks(items, i, j + 1) <==> Asks(items, i, j) || items[j] == Update(true)
  {
  }

  /** How a whole record is taken. */
  ghost predicate Handles(a: Suite, typ: byte, content: seq<byte>, r: int, was: ReadSide, now: ReadSide,
                          ready: seq<byte>) {
    if typ == 23 then r == 1 && ready == content && now == was.(rx := Keys(was.rx.secret, was.rx.gen, was.rx.n + 1))
    else if typ == 21 then r == (if |content| == 2 && content[1] == 0 then -3 else -2) && now.owed == was.owed
    else if typ == 22 && IsUpdate(content) then
      if was.seen + 1 > 1024 then r == -2
      else r == 1 && ready == []
           && now == ReadSide(Keys(a.next(was.rx.secret), was.rx.gen + 1, 0), was.seen + 1, was.owed || content[4] == 1)
    else r == -2
  }

  /** What open_next did is what a reader does with the next record. */
  lemma ReadStep(a: Suite, s: seq<byte>, r: int, was: ReadSide, now: ReadSide, ready: seq<byte>, rest: seq<byte>)
    requires a.Lawful()
    requires var n := NextRecord(a, was.rx, s);
             if n.Partial? then r == 0 && ready == [] && now == was && rest == s
             else if n.Bad? then r == -2
             else (r == 1 ==> rest == s[n.size..]) && Handles(a, n.typ, n.content, r, was, now, ready)
    ensures r == 1 ==> ReadAll(a, was.rx, was.seen, s) == Ahead(ready, ReadAll(a, now.rx, now.seen, rest))
    ensures r == 0 ==> ReadAll(a, was.rx, was.seen, s) == Reading([], now.rx, now.seen, rest, More) && ready == []
    ensures r == 0 ==> ReadAll(a, now.rx, now.seen, rest) == Reading([], now.rx, now.seen, rest, More)
    ensures r == -3 ==> ReadAll(a, was.rx, was.seen, s) == Reading([], was.rx, was.seen, s, Closed)
    ensures r == -2 ==> ReadAll(a, was.rx, was.seen, s) == Reading([], was.rx, was.seen, s, Refused)
  {
    hide NextRecord, Suite.Lawful, IsUpdate;
  }

  /** Taking the record of item j: the peer's items are matched one further. */
  lemma Advance(a: Suite, k: Keys, items: seq<Item>, j: nat, rest: seq<byte>, r: int, was: ReadSide, now: ReadSide,
                ready: seq<byte>, rest': seq<byte>)
    requires a.Lawful() && AllFit(items) && j < |items| && AllFit(items[..j])
    requires Prefix(Wire(a, k, items[..j]) + rest, Wire(a, k, items))
    requires was.rx == KeysAfter(a, k, items[..j]) && was.seen == Updates(items[..j])
    requires Updates(items) <= 1024
    requires Handles(a, items[j].Type(), items[j].Content(), r, was, now, ready)
    requires |Sealed(a, was.rx, items[j])| <= |rest| && (r == 1 ==> rest' == rest[|Sealed(a, was.rx, items[j])|..])
    ensures r != -2 && (r == -3 <==> items[j].Close?)
    ensures now.owed == (was.owed || items[j] == Update(true))
    ensures var i := j + 1;
            r == 1 ==> AllFit(items[..i]) && Wire(a, k, items[..j]) + rest == Wire(a, k, items[..i]) + rest'
                       && now.rx == KeysAfter(a, k, items[..i]) && now.seen == Updates(items[..i])
                       && AppData(items[..j]) + ready == AppData(items[..i])
  {
    hide Wire, KeysAfter, Sealed, AppData, Updates, Suite.Lawful, Item.Fits, Prefix;
    WireTake(a, k, items, j);
    WirePrefix(a, k, items, j + 1);
    Upcoming(a, k, items, j, rest);
    var record := Sealed(a, was.rx, items[j]);
    Assoc(Wire(a, k, items[..j]), record, rest[|record|..]);
  }

  /** What read13 answers: bytes, 0 at close_notify or end of stream, -1 when nothing is
      available, -2 on error. */
  datatype Outcome = Bytes(data: seq<byte>) | Notified | Ended | Wait | Fail(why: Why)
  datatype Why = Protocol | Wedged | BadSocket

  /** What opening a record changes besides the buffers. */
  datatype ReadSide = ReadSide(rx: Keys, seen: nat, owed: bool)

  lemma PrefixCut(x: seq<byte>, y: seq<byte>, z: seq<byte>, all: seq<byte>)
    requires Prefix(x + (y + z), all)
    ensures Prefix(x + y, all)
  {
    assert x + (y + z) == (x + y) + z;
  }

  lemma PrefixChain(x: seq<byte>, y: seq<byte>, z: seq<byte>)
    requires Prefix(x, y) && Prefix(y, z)
    ensures Prefix(x, z)
  {
  }

  lemma UnpaddedStep(p: seq<byte>)
    requires p != [] && p[|p| - 1] == 0
    ensures Unpadded(p) == Unpadded(p[..|p| - 1])
  {
  }

  lemma SealedIs(a: Suite, k: Keys, i: Item, h: seq<byte>, typ: byte)
    requires a.Lawful() && i.Fits() && h == Header(|i.Content()| + 17) && typ == i.Type()
    ensures |a.iv(k.secret)| == 12
    ensures Sealed(a, k, i) == h + a.seal(a.key(k.secret), NonceOf(a.iv(k.secret), k.n), h, i.Content() + [typ])
  {
  }

  lemma NoneDue(a: Suite, k: Keys, was: seq<Item>, owed: bool)
    ensures Due(a, k, was, was, owed) && AllFull(was, was) && Packed(was, was)
  {
  }

  lemma OpensTo(a: Suite, k: Keys, h: seq<byte>, c: seq<byte>)
    requires a.Lawful()
    ensures |a.iv(k.secret)| == 12
    ensures var p := a.open(a.key(k.secret), NonceOf(a.iv(k.secret), k.n), h, c); p.Some? ==> |p.value| + 16 == |c|
  {
  }

  lemma DataPush(items: seq<Item>, i: Item)
    ensures AppData(items + [i]) == AppData(items) + if i.App? then i.data else []
  {
    assert (items + [i])[..|items|] == items;
  }

  /** The peer keeps up with a sender that goes on sealing. */
  lemma TracksGrow(r: Tls13, rx0: Keys, items: seq<Item>, more: seq<Item>)
    requires r.Tracks(rx0, items) && AllFit(items + more)
    ensures r.Tracks(rx0, items + more)
  {
    hide Wire, KeysAfter, AppData, Updates, Suite.Lawful, Item.Fits;
    var all := items + more;
    assert all[..|items|] == items && all[..r.done] == items[..r.done];
    WirePrefix(r.a, rx0, all, |items|);
    PrefixChain(r.got, Wire(r.a, rx0, items), Wire(r.a, rx0, all));
  }

  /** Stream fidelity: whatever the splits and key updates, what a peer has read is the
      beginning of what was taken for it. */
  lemma Fidelity(w: Tls13, r: Tls13)
    requires w.Writes() && w.a == r.a && r.Tracks(w.tx0, w.sealed)
    ensures Prefix(r.delivered + r.Ready(), AppData(w.sealed))
  {
    hide Wire, KeysAfter, AppData, Updates, Suite.Lawful, Item.Fits, InLimit;
    WirePrefix(w.a, w.tx0, w.sealed, r.done);
  }

  /** And all of it, once every byte has arrived and the peer waits for more. */
  lemma NothingLost(w: Tls13, r: Tls13)
    requires w.Writes() && w.a == r.a && r.Tracks(w.tx0, w.sealed) && w.out == [] && r.got == w.gave
    requires r.done < |w.sealed| ==> |r.Unread()| < |Sealed(r.a, r.rx, w.sealed[r.done])|
    ensures r.delivered + r.Ready() == AppData(w.sealed)
  {
    hide Wire, KeysAfter, AppData, Updates, Suite.Lawful, Item.Fits, InLimit, Sealed;
    var items := w.sealed;
    assert w.gave == Wire(w.a, w.tx0, items);
    if r.done < |items| {
      WireTake(w.a, w.tx0, items, r.done);
      WirePrefix(w.a, w.tx0, items, r.done + 1);
    }
    assert items[..|items|] == items;
  }

  /** No nonce is used twice under one key, and no sequence number passes 2^24. */
  lemma NeverTwice(w: Tls13, i: nat, j: nat)
    requires w.Writes() && i < j < |w.sealed|
    ensures var (x, y) := (KeysAfter(w.a, w.tx0, w.sealed[..i]), KeysAfter(w.a, w.tx0, w.sealed[..j]));
            && (x.gen, x.n) != (y.gen, y.n) && x.n <= 16777216 && y.n <= 16777216
            && (x.gen == y.gen ==>
                  x.secret == y.secret && NonceOf(w.a.iv(x.secret), x.n) != NonceOf(w.a.iv(y.secret), y.n))
  {
    hide Wire, KeysAfter, AppData, NonceOf, Item.Fits;
    NoReuse(w.a, w.tx0, w.sealed, i, j);
    var x, y := KeysAfter(w.a, w.tx0, w.sealed[..i]), KeysAfter(w.a, w.tx0, w.sealed[..j]);
    if x.gen == y.gen {
      SameSecret(w.a, w.tx0, w.sealed, i, j);
      if NonceOf(w.a.iv(x.secret), x.n) == NonceOf(w.a.iv(y.secret), y.n) {
        NonceUnique(w.a.iv(x.secret), x.n, y.n);
      }
    }
  }
}
