/** The HTTP/2 connection of engine/h2.v and engine/h2_stream.v: slots, windows both ways,
    held output and streaming answers, one method per frame or event. */
module H2Conn {
  import opened Basics
  import opened H2Slots
  import opened H2Receive
  import opened H2Client
  import opened H2World

  const MAX_STREAMS: nat := 128
  const MAX_FILES: nat := 32
  const FRAME_SIZE: nat := 16384
  const PUMP_MAX: nat := 32768

  class H2Conn {
    const l: Limits
    const maxPending: nat
    var streams: seq<Slot>
    var lastId: nat
    var peerWindow: int
    var sendWin: int
    var recvWin: int
    var recvMax: int
    var owed: int
    /** How many streams are open, receive, send, wait or are written, and what they hold. */
    var n: Counts
    var withheld: bool
    var pumpNext: nat
    var resets: seq<nat>
    /** The connection is closing (close_after). */
    var closed: bool
    /** The length of the write buffer. */
    var staged: nat
    ghost var client: Client
    /** The WINDOW_UPDATE frames written: the stream, 0 for the connection, and by how much. */
    ghost var updates: seq<(nat, int)>
    /** What the application has given each answer so far. */
    ghost var promised: map<nat, seq<byte>>

    /** Slots are proper and every counter is what the slots add up to. */
    ghost predicate Core()
      reads this
    {
      Proper(streams, lastId) && n == Total(streams) && l.Sound()
    }

    /** The client saw nothing but answers, and no stream above the last. */
    ghost predicate Told()
      reads this
    {
      Kept(client, promised) && Opened(client, lastId)
    }

    /** While open, the windows are the client's own. */
    ghost predicate Sends()
      reads this
    {
      && Told()
      && (!closed ==> AllTied(streams, client, promised))
      && (!closed ==> 0 <= sendWin == client.conn && peerWindow == client.initial)
    }

    ghost predicate Receives()
      reads this
    {
      !closed ==> recvWin + owed == recvMax && 0 <= recvWin && 0 <= owed && Budgeted(streams, l)
    }

    ghost predicate NoneStuck()
      reads this
    {
      !closed ==> Covered(streams, withheld)
    }

    /** The same, but perhaps for the stream in slot i. */
    ghost predicate NoneStuckBut(i: nat)
      reads this
    {
      !closed ==> CoveredBut(streams, i, withheld)
    }

    ghost predicate AllBusy()
      reads this
    {
      Busies(streams)
    }

    /** No stream is forgotten: each has its slot until it is ended or reset, but perhaps
        stream hand. */
    ghost predicate NoneLost(hand: nat)
      reads this
    {
      !closed ==> Tended(streams, client, hand)
    }

    /** Valid but that stream hand may have no slot. */
    ghost predicate Holding(hand: nat)
      reads this
    {
      && Core() && Sends() && Receives() && NoneStuck() && AllBusy() && NoneLost(hand) && n.open <= 128
    }

    ghost predicate Valid()
      reads this
    {
      Holding(0)
    }

    /** Valid but that the stream in slot i may have used up its window. */
    ghost predicate ValidBut(i: nat)
      reads this
    {
      Core() && Sends() && Receives() && NoneStuckBut(i) && AllBusy() && NoneLost(0) && n.open <= 128
    }

    /** h2_open. Each stream starts with the default window, the connection with the budget. */
    constructor (maxBody: nat, maxPending: nat)
      ensures Valid() && !closed && streams == [] && recvMax == l.budget >= l.win && l.maxBody == maxBody
      ensures lastId == 0 && resets == [] && recvWin == recvMax >= 65535
      ensures client == Client(65535, 0, 65535, map[], map[], {}, {}, {}, {})
    {
      var budget := if maxBody > 65535 then maxBody else 65535;
      l := Limits(65535, budget, maxBody);
      this.maxPending := maxPending;
      streams, lastId, resets, pumpNext, staged, closed := [], 0, [], 0, 27, false;
      peerWindow, sendWin := 65535, 65535;
      recvMax, recvWin, owed, withheld := budget, budget, 0, false;
      n, updates := ZERO, [];
      client, promised := Client(65535, 0, 65535, map[], map[], {}, {}, {}, {}), map[];
    }

    /** A slot has all that is left of stream id's answer. */
    ghost predicate HasRest(id: nat)
      reads this
    {
      exists i :: 0 <= i < |streams| && SlotHas(streams[i], id)
    }

    ghost predicate SlotHas(s: Slot, id: nat)
      reads this
    {
      && s.id == id && (s.sending || s.streaming) && s.outOff <= |s.out| && id in client.got && id in promised
      && client.got[id] + s.out[s.outOff..] + s.file == promised[id]
    }

    /** What every reachable open state promises: a client saw of each answer its beginning,
        and all of it where END_STREAM was sent; an answer neither ended nor reset has a
        slot with the rest of it; a request neither answered nor reset has a slot that
        receives its body or waits for its answer; bodies stay within three budgets, and the oldest of them
        can always go on. */
    lemma Promises()
      requires Valid() && !closed
      ensures forall id :: id in client.answered ==>
                id in promised && id in client.got && Prefix(client.got[id], promised[id])
      ensures forall id :: id in client.ended ==> id in promised && id in client.got && client.got[id] == promised[id]
      ensures forall id :: id in client.answered ==> id in client.ended || id in client.gone || HasRest(id)
      ensures forall id :: id in client.win && id !in client.answered && id !in client.gone ==>
                Receiving(id) || Parked(id)
      ensures client.conn >= 0 && n == Total(streams) && n.open <= 128 && n.buffered <= 3 * l.budget
      ensures forall i :: 0 <= i < |streams| && streams[i].receiving && streams[i].id == Oldest(streams) ==>
                streams[i].recvWin >= 1
      ensures !withheld ==> forall i :: 0 <= i < |streams| && streams[i].receiving ==> streams[i].recvWin >= 1
    {
      hide Total, Oldest, Excess, AllTied, Proper, HasRest;
      BufferedBound(streams, l, lastId);
      forall id | id in client.answered && id !in client.ended && id !in client.gone
        ensures HasRest(id)
      {
        Rest(id);
      }
      forall id | id in client.win && id !in client.answered && id !in client.gone
        ensures Receiving(id) || Parked(id)
      {
        Due(id);
      }
    }

    lemma Due(id: nat)
      requires Valid() && !closed && id in client.win && id !in client.answered && id !in client.gone
      ensures Receiving(id) || Parked(id)
    {
      hide Total, Oldest, Excess, Proper, Budgeted, Covered;
      assert id > 0 && id !in client.ended;
      var i :| 0 <= i < |streams| && streams[i].id == id;
      TiedAt(streams, i, client, promised);
      assert streams[i].Busy();
    }

    lemma Rest(id: nat)
      requires Valid() && !closed && id in client.answered && id !in client.ended && id !in client.gone
      ensures HasRest(id)
    {
      hide Total, Oldest, Excess, Proper, Budgeted, Covered;
      assert id in client.win && id > 0;
      var i :| 0 <= i < |streams| && streams[i].id == id;
      TiedAt(streams, i, client, promised);
      assert streams[i].Busy() && SlotHas(streams[i], id);
    }

    /** release: frees slot i and takes it out of every counter. */
    method Release(i: nat)
      requires Core() && i < |streams|
      modifies this`streams, this`n
      ensures Core() && streams == old(streams)[i := Freed(old(streams)[i])]
      ensures n.open == old(n.open) - (if old(streams)[i].id != 0 then 1 else 0)
    {
      hide Total;
      var s := streams[i];
      TotalUpdate(streams, i, Freed(s));
      if s.id == 0 {
        assert streams[i := s] == streams;
        return;
      }
      if s.sending {
        n := n.(sending := n.sending - 1, held := n.held - (|s.out| - s.outOff));
      }
      if s.receiving {
        n := n.(buffered := n.buffered - |s.body|, bodies := n.bodies - 1);
      }
      if s.waiting {
        n := n.(waiting := n.waiting - 1);
      }
      if s.streaming {
        n := n.(streaming := n.streaming - 1);
      }
      if s.hasFile {
        n := n.(files := n.files - 1);
      }
      streams := streams[i := Freed(s)];
      n := n.(open := n.open - 1);
    }

    /** What freeing a slot leaves true. */
    twostate lemma AfterRelease(i: nat)
      requires old(Core()) && i < |old(streams)| && streams == old(streams)[i := Freed(old(streams)[i])]
      requires Core() && lastId == old(lastId) && closed == old(closed) && withheld == old(withheld)
      requires sendWin == old(sendWin) && client == old(client) && promised == old(promised)
      requires peerWindow == old(peerWindow)
      requires recvWin == old(recvWin) && owed == old(owed) && recvMax == old(recvMax)
      ensures old(Sends()) ==> Sends()
      ensures old(Receives()) ==> Receives()
      ensures old(Receives()) && old(NoneStuckBut(i)) && (!withheld || !old(streams)[i].receiving) ==> NoneStuck()
      ensures old(AllBusy()) ==> AllBusy()
    {
      hide Total, Oldest, Excess, Tied, Kept;
      var was, s := old(streams), Freed(old(streams)[i]);
      if !closed && old(Sends()) {
        ElsewhereSame(client, promised, 0);
        TiedUpdate(was, i, s, client, client, promised, promised, 0);
      }
      if !closed && old(Receives()) {
        if was[i].receiving {
          Leaves(was, i, s, l, lastId);
        } else {
          Aside(was, i, s, l, withheld, lastId);
        }
      }
    }

    /** Slot i holds the same stream with a wider window. */
    ghost predicate OnlyWidened(was: seq<Slot>, i: nat)
      reads this
    {
      && |streams| == |was| && i < |was| && streams == was[i := streams[i]]
      && streams[i] == was[i].(recvWin := streams[i].recvWin) && was[i].recvWin <= streams[i].recvWin
    }

    /** The stream with that slot gets no window: what is held passes the budget and it is not
        the oldest. */
    ghost predicate Refused(s: Slot, oldest: nat)
      reads this
    {
      n.buffered > l.budget && s.id != oldest
    }

    /** h2_credit: opens stream i's window again as its body is read. It is opened to where it
        may be, and withheld only while the bodies held pass the budget, from a stream that is
        not the oldest. */
    method Credit(i: nat)
      requires Core() && Sends() && Receives() && !closed && i < |streams| && streams[i].receiving
      modifies this`streams, this`withheld, this`staged, this`updates
      ensures Core() && Sends() && Receives() && OnlyWidened(old(streams), i)
      ensures Oldest(streams) == old(Oldest(streams)) && (old(withheld) ==> withheld)
      ensures streams[i].recvWin >= 1 || (withheld && streams[i].id != Oldest(streams))
      ensures Topped(streams[i], l) || (withheld && Refused(streams[i], Oldest(streams)))
      ensures withheld && !old(withheld) ==> Refused(streams[i], Oldest(streams))
      ensures var (was, now) := (old(streams)[i], streams[i]);
              if now == was then updates == old(updates) && staged == old(staged)
              else
                && !Topped(was, l) && !Refused(was, Oldest(streams)) && now.recvWin == MostWindow(was, l)
                && updates == old(updates) + [(was.id, now.recvWin - was.recvWin)] && staged == old(staged) + 13
    {
      hide Total, Oldest, Excess, Kept, Tied, Proper, AllTied;
      var s := streams[i];
      SoundAt(streams, i, lastId);
      var room := l.maxBody + 1 - |s.body|;
      var target := if room < l.win then room else l.win;
      var credit := target - s.recvWin;
      if credit <= 0 || (credit < l.win / 2 && target == l.win) {
        return;
      }
      if n.buffered > l.budget {
        var oldest := OldestReceiving(streams);
        if s.id != oldest {
          withheld := true;
          return;
        }
      }
      staged := staged + 13;
      updates := updates + [(s.id, credit)];
      Widen(i, s.recvWin + credit);
    }

    /** A window opened to w. */
    method Widen(i: nat, w: int)
      requires Core() && Sends() && Receives() && !closed && i < |streams| && streams[i].receiving
      requires 0 <= w <= l.win && (n.buffered <= l.budget || streams[i].id == Oldest(streams))
      modifies this`streams
      ensures Core() && Sends() && Receives() && streams == old(streams)[i := old(streams)[i].(recvWin := w)]
      ensures Oldest(streams) == old(Oldest(streams))
    {
      hide Total, Oldest, Excess, Kept, Tied, Proper, Budgeted;
      var s := streams[i];
      var wider := s.(recvWin := w);
      SoundAt(streams, i, lastId);
      ProperUpdate(streams, i, wider, lastId);
      Credited(streams, i, wider, l, lastId);
      TotalUpdate(streams, i, wider);
      Retied(s, wider, client, promised);
      ElsewhereSame(client, promised, 0);
      TiedUpdate(streams, i, wider, client, client, promised, promised, 0);
      streams := streams[i := wider];
    }

    /** h2_credit_all: the withheld updates, once what is buffered has fallen. */
    method CreditAll()
      requires Core() && Sends() && Receives() && (!closed && !withheld ==> Covered(streams, false))
      modifies this`streams, this`withheld, this`staged, this`updates
      ensures old(!closed && withheld) ==>
                && (withheld ==> n.buffered > l.budget)
                && forall j :: 0 <= j < |streams| && streams[j].receiving ==>
                     Topped(streams[j], l) || (withheld && Refused(streams[j], Oldest(streams)))
      ensures !old(!closed && withheld) ==> streams == old(streams) && withheld == old(withheld)
      ensures Core() && Sends() && Receives() && NoneStuck()
      ensures |streams| == old(|streams|) && (old(AllBusy()) ==> AllBusy())
      ensures forall j :: 0 <= j < |streams| ==> streams[j] == old(streams)[j].(recvWin := streams[j].recvWin)
    {
      hide Total, Oldest, Excess, Kept, Tied, Budgeted, AllTied, Proper;
      if !withheld || closed {
        return;
      }
      withheld := false;
      ghost var oldest := Oldest(streams);
      for i := 0 to |streams|
        invariant Core() && Sends() && Receives() && !closed && |streams| == old(|streams|) && Oldest(streams) == oldest
        invariant forall j :: 0 <= j < |streams| ==> streams[j] == old(streams)[j].(recvWin := streams[j].recvWin)
        invariant forall j :: 0 <= j < i && streams[j].receiving ==>
                  streams[j].recvWin >= 1 || (withheld && streams[j].id != oldest)
        invariant forall j :: 0 <= j < i && streams[j].receiving ==>
                  Topped(streams[j], l) || (withheld && Refused(streams[j], oldest))
        invariant withheld ==> n.buffered > l.budget
      {
        SoundAt(streams, i, lastId);
        if streams[i].id != 0 && streams[i].receiving {
          Credit(i);
        }
      }
    }

    /** Every slot but perhaps i is busy or free. */
    ghost predicate OthersBusy(i: nat)
      reads this
    {
      forall j :: 0 <= j < |streams| && j != i ==> streams[j].Busy()
    }

    /** Frees slot i, then gives the windows its stream held up. */
    method Drop(i: nat)
      requires Core() && Sends() && Receives() && NoneStuckBut(i) && OthersBusy(i) && i < |streams|
      modifies this`streams, this`n
      modifies this`withheld, this`staged
      modifies this`updates
      ensures Core() && Sends() && Receives() && NoneStuck() && AllBusy()
      ensures |streams| == old(|streams|) && n.open == old(n.open) - (if old(streams)[i].id != 0 then 1 else 0)
      ensures streams[i].id == 0
      ensures forall j :: 0 <= j < |streams| && j != i ==> streams[j] == old(streams)[j].(recvWin := streams[j].recvWin)
    {
      hide Total, Oldest, Excess, Kept, Tied, Budgeted, AllTied, Proper;
      SoundAt(streams, i, lastId);
      label before:
      Release(i);
      AfterRelease@before(i);
      assert AllBusy();
      CreditAll();
    }

    /** h2_st_end: a streaming answer stops being written; its slot stays for what is held. */
    method EndStream(i: nat)
      requires Core() && Sends() && Receives() && NoneStuckBut(i) && AllBusy() && i < |streams|
      modifies this`streams, this`n
      ensures Core() && Sends() && Receives() && NoneStuckBut(i) && OthersBusy(i) && n.open == old(n.open)
      ensures old(streams)[i].outOff <= |old(streams)[i].out| && streams == old(streams)[i := Ended(old(streams)[i])]
    {
      hide Total, Oldest, Excess, Kept, Budgeted, Proper;
      var s := streams[i];
      SoundAt(streams, i, lastId);
      if s.streaming {
        ProperUpdate(streams, i, Ended(s), lastId);
        TotalUpdate(streams, i, Ended(s));
        Aside(streams, i, Ended(s), l, withheld, lastId);
        ElsewhereSame(client, promised, 0);
        if !closed && s.id != 0 {
          EndedTied(s, client, promised);
        }
        if !closed {
          TiedUpdate(streams, i, Ended(s), client, client, promised, promised, 0);
        }
        streams := streams[i := Ended(s)];
        n := n.(streaming := n.streaming - 1);
      } else {
        assert streams[i := s] == streams;
      }
    }

    /** The stream in slot i is ended and its slot freed. */
    method DiscardAt(i: nat)
      requires ValidBut(i) && i < |streams| && streams[i].id != 0
      modifies this`streams, this`n, this`withheld, this`staged
      modifies this`updates
      ensures Holding(old(streams)[i].id) && Absent(streams, old(streams)[i].id)
      ensures Spared(old(streams), streams, old(streams)[i].id) && n.open == old(n.open) - 1
    {
      hide Total, Oldest, Excess, Kept, Tied, Budgeted, AllTied, Proper, Core, Sends, Receives, NoneStuck;
      hide NoneStuckBut, Tended;
      ProperNow();
      Alone(streams, i, lastId);
      ghost var was := streams;
      EndStream(i);
      Drop(i);
      if !closed {
        TendedFreed(was, streams, i, client);
      }
    }

    /** Stream id's slot, if it has one, is ended and freed. */
    method Discard(id: nat)
      requires (Valid() || Holding(id)) && id > 0
      modifies this`streams, this`n, this`withheld, this`staged
      modifies this`updates
      ensures Holding(id) && Absent(streams, id) && Spared(old(streams), streams, id)
      ensures n.open == old(n.open) - (if old(Absent(streams, id)) then 0 else 1)
    {
      hide Total, Oldest, Excess, Kept, Tied, Budgeted, AllTied, Proper, Core, Sends, Receives;
      var i := Find(streams, id);
      if i < |streams| {
        HasSlot(id, i);
        DiscardAt(i);
      }
    }

    /** A stream with a slot is not in hand. */
    lemma HasSlot(id: nat, i: nat)
      requires (Valid() || Holding(id)) && i < |streams| && streams[i].id == id
      ensures ValidBut(i)
    {
      hide Total, Oldest, Excess, Kept, Tied, Budgeted, AllTied, Proper, Core, Sends, Receives;
    }

    lemma Slots()
      requires Valid()
      ensures Proper(streams, lastId)
    {
    }

    lemma Known(i: nat)
      requires Valid() && i < |streams|
      ensures streams[i].id <= lastId
    {
    }

    lemma ProperNow()
      requires Core()
      ensures Proper(streams, lastId) && l.Sound() && n == Total(streams)
    {
    }

    /** RST_STREAM: the slot is freed first, so nothing more is sent on the stream. */
    method Reset(id: nat)
      requires (Valid() || Holding(id)) && id > 0
      modifies this`streams, this`n, this`withheld, this`staged, this`resets, this`client
      modifies this`updates
      ensures Valid() && Absent(streams, id) && id in resets && Spared(old(streams), streams, id)
      ensures client == old(client).Reset(id)
      ensures n.open == old(n.open) - (if old(Absent(streams, id)) then 0 else 1)
      ensures AtMost(old(resets), resets, id)
    {
      hide Holding, Absent;
      Discard(id);
      WriteReset(id);
    }

    /** The same for the stream in slot i, which may have used up its window. */
    method ResetAt(i: nat)
      requires ValidBut(i) && i < |streams| && streams[i].id > 0
      modifies this`streams, this`n, this`withheld, this`staged, this`resets, this`client
      modifies this`updates
      ensures Valid() && Absent(streams, old(streams)[i].id) && client == old(client).Reset(old(streams)[i].id)
      ensures AtMost(old(resets), resets, old(streams)[i].id)
    {
      hide Holding, Absent;
      var id := streams[i].id;
      DiscardAt(i);
      WriteReset(id);
    }

    method WriteReset(id: nat)
      requires Holding(id) && id > 0 && Absent(streams, id)
      modifies this`staged, this`resets, this`client
      ensures Valid() && id in resets && client == old(client).Reset(id)
      ensures AtMost(old(resets), resets, id)
      ensures resets == [id] + old(resets)[..if |old(resets)| < 15 then |old(resets)| else 15]
    {
      hide Total, Oldest, Excess, Kept, Tied, Budgeted, AllTied, Proper, Covered, Busies, Absent, Opened, Elsewhere;
      hide Tended;
      resets := [id] + if |resets| < 16 then resets else resets[..15];
      staged := staged + 13;
      ResetKeeps(streams, client, promised, lastId, id);
      client := client.Reset(id);
    }

    /** h2_fail: a connection error. Nothing is sent but the GOAWAY from here on. */
    method Fail()
      requires Core() && Told() && AllBusy() && n.open <= 128
      modifies this`closed, this`staged
      ensures Valid() && closed
    {
      hide Total, Kept, Proper;
      if !closed {
        staged := staged + 17;
        closed := true;
      }
    }

    /** h2_data_frames: the bytes in frames of at most the frame size, END_STREAM on the
        last when end is set. Every frame is one the client allows. */
    method DataFrames(id: nat, bytes: seq<byte>, end: bool)
      requires client.MayData(id, |bytes|)
      modifies this`client, this`staged
      ensures client == old(client).Data(id, bytes, end)
    {
      hide Client.Data;
      ghost var c := client;
      if bytes == [] {
        if end {
          DataFrame(id, [], true);
        } else {
          DataNone(c, id);
        }
        return;
      }
      var off := 0;
      DataSome(c, id, |bytes|);
      DataNone(c, id);
      assert bytes[..0] == [];
      while off < |bytes|
        invariant 0 <= off <= |bytes| && c.MayData(id, off)
        invariant client == c.Data(id, bytes[..off], end && off == |bytes|)
      {
        var k := if |bytes| - off > FRAME_SIZE then FRAME_SIZE else |bytes| - off;
        DataSome(c, id, |bytes|);
        DataTwice(c, id, bytes[..off], bytes[off..off + k], end && off + k == |bytes|);
        assert bytes[..off] + bytes[off..off + k] == bytes[..off + k];
        DataFrame(id, bytes[off..off + k], end && off + k == |bytes|);
        off := off + k;
      }
      assert bytes[..off] == bytes;
    }

    /** One DATA frame, none longer than a client that set no other limit takes (section 4.2 of
        RFC 9113), and none that says nothing. */
    method DataFrame(id: nat, bytes: seq<byte>, end: bool)
      requires client.MayData(id, |bytes|) && |bytes| <= 16384 && (bytes != [] || end)
      modifies this`client, this`staged
      ensures client == old(client).Data(id, bytes, end) && staged == old(staged) + 9 + |bytes|
    {
      client := client.Data(id, bytes, end);
      staged := staged + 9 + |bytes|;
    }

    /** sendable: how much of n bytes both windows let go now. */
    function Sendable(n: int, w: int): (k: int)
      requires n >= 0
      reads this
      ensures 0 <= k <= n && (k > 0 ==> k <= sendWin && k <= w)
      ensures k < n ==> k >= sendWin || k >= w || k == 0
    {
      var a := if n > sendWin then sendWin else n;
      var b := if a > w then w else a;
      if b < 0 then 0 else b
    }

    /** The same of one frame. */
    function Share(n: int, w: int): (k: nat)
      requires n >= 0
      reads this
      ensures k <= n && (k > 0 ==> k <= sendWin && k <= w)
      ensures k == 0 && n > 0 ==> sendWin <= 0 || w <= 0
      ensures k <= 16384 && (0 < k < n && k < 16384 ==> k == sendWin || k == w)
    {
      var k := Sendable(n, w);
      if k > FRAME_SIZE then FRAME_SIZE else k
    }

    /** Of the streams lately reset, at most stream id is new. */
    ghost predicate AtMost(was: seq<nat>, now: seq<nat>, id: nat) {
      forall j :: j in now ==> j in was || j == id
    }

    /** A stream between slots: its answer not begun, its window w. */
    ghost predicate InHand(id: nat, w: int)
      reads this
    {
      && id % 2 == 1 && id <= lastId && Absent(streams, id)
      && (!closed ==> client.MayHead(id) && client.win[id] == w)
    }

    /** A free slot, one more when there is none. */
    method MakeRoom(ghost hand: nat) returns (i: nat)
      requires Holding(hand)
      modifies this`streams
      ensures Holding(hand) && i < |streams| && streams[i].id == 0
      ensures streams == old(streams) || streams == old(streams) + [FREE]
    {
      hide Total, Oldest, Excess, Kept, Tied, Budgeted, AllTied, Proper, Covered, Busies, Opened, Tended;
      i := Find(streams, 0);
      if i == |streams| {
        PushFree(streams, lastId, l, withheld, client, promised);
        streams := streams + [FREE];
      }
    }

    /** take: a slot for stream id, its send window w. */
    method Take(id: nat, w: int, ghost hand: nat) returns (i: nat)
      requires Holding(hand) && (hand == 0 || hand == id)
      requires Absent(streams, id) && id % 2 == 1 && id <= lastId && n.open < 128
      requires !closed ==> client.Live(id) && client.win[id] == w
      modifies this`streams, this`n
      ensures Core() && Sends() && Receives() && NoneStuck() && NoneLost(0) && OthersBusy(i)
      ensures n == old(n).(open := old(n.open) + 1)
      ensures i < |streams| && streams[i] == Blank(id, l.win, w)
      ensures forall j :: 0 <= j < |streams| && j != i ==> streams[j].id != id
    {
      hide Total, Oldest, Excess, Kept, Budgeted, Proper, Covered, Opened, Tended;
      i := MakeRoom(hand);
      var s := Blank(id, l.win, w);
      SoundAt(streams, i, lastId);
      ProperTake(streams, i, s, lastId);
      TotalUpdate(streams, i, s);
      Aside(streams, i, s, l, withheld, lastId);
      ElsewhereSame(client, promised, id);
      if !closed {
        TiedUpdate(streams, i, s, client, client, promised, promised, id);
        TendedTaken(streams, i, s, client, hand);
      }
      streams := streams[i := s];
      n := n.(open := n.open + 1);
    }

    /** The answer on stream id is under way, without a slot: its window w, rest still to
        go. */
    ghost predicate Begun(id: nat, w: int, rest: seq<byte>)
      reads this
    {
      && id % 2 == 1 && id <= lastId && Absent(streams, id)
      && id in client.answered && client.Live(id) && client.win[id] == w
      && id in promised && client.got[id] + rest == promised[id]
    }

    /** The HEADERS of an answer of which all is known so far. */
    method SendHead(id: nat, w: int, ghost all: seq<byte>, end: bool)
      requires Holding(id) && !closed && InHand(id, w) && (end ==> all == [])
      modifies this`client, this`promised, this`staged
      ensures Holding(if end then 0 else id) && promised == old(promised)[id := all]
      ensures if end then id in client.ended else Begun(id, w, all)
      ensures client == old(client).Head(id, end)
    {
      hide Total, Oldest, Excess, Budgeted, Proper, Covered, Busies, AllTied, Kept, Opened, Absent, Tended;
      TendedHead(streams, client, id, end);
      HeadKeeps(streams, client, promised, lastId, id, end, all);
      client := client.Head(id, end);
      promised := promised[id := all];
      staged := staged + 9;
    }

    /** DATA on a stream without a slot. */
    method SendSome(id: nat, w: int, bytes: seq<byte>, ghost rest: seq<byte>, end: bool)
      requires Holding(id) && !closed && Begun(id, w, bytes + rest) && (end ==> rest == [])
      requires bytes == [] || (|bytes| <= sendWin && |bytes| <= w)
      modifies this`client, this`staged, this`sendWin
      ensures Holding(if end then 0 else id) && if end then id in client.ended else Begun(id, w - |bytes|, rest)
      ensures old(client).MayData(id, |bytes|) && client == old(client).Data(id, bytes, end)
    {
      hide Total, Oldest, Excess, Budgeted, Proper, Covered, Busies, AllTied, Kept, Opened, Absent, Tended;
      TendedData(streams, client, id, id, bytes, end);
      DataKeeps(streams, client, promised, lastId, id, bytes, rest, end);
      DataFrames(id, bytes, end);
      sendWin := sendWin - |bytes|;
    }

    /** What holds back of an answer goes into a slot. */
    method HoldBack(id: nat, w: int, rest: seq<byte>, file: seq<byte>, readable: nat)
      requires Holding(id) && !closed && Begun(id, w, rest + file) && n.open < 128 && rest + file != []
      modifies this`streams, this`n
      ensures Valid() && n.open == old(n.open) + 1 && Sealed(id)
    {
      hide Total, Oldest, Excess, Budgeted, Proper, Covered, Kept, Busies, AllTied, Opened, Tended;
      var i := Take(id, w, id);
      var s := streams[i].(out := rest, hasFile := file != [], file := file, readable := readable, sending := true);
      Assoc(client.got[id], rest, file);
      assert rest[0..] == rest;
      SetKeeps(streams, i, s, lastId, l, withheld, client, promised);
      TendedSame(streams, streams[i := s], client, 0);
      streams := streams[i := s];
      n := n.(held := n.held + |rest|);
      if file != [] {
        n := n.(files := n.files + 1);
      }
      n := n.(sending := n.sending + 1);
      assert streams[i].id == id;
    }

    /** h2_respond: HEADERS, then as much of the body as the windows allow; the rest, and a
        file after it, waits in a slot. With opening set the head alone goes. */
    method Respond(id: nat, statusOk: bool, body: seq<byte>, file: seq<byte>, readable: nat, w: int, opening: bool)
        returns (ok: bool)
      requires Holding(id) && !closed && InHand(id, w) && n.open < 128
      requires opening ==> body == [] && file == []
      modifies this`client, this`promised, this`staged, this`sendWin
      modifies this`streams, this`n
      modifies this`withheld, this`resets
      modifies this`updates
      ensures ok == statusOk && n.open <= old(n.open) + 1 && SameCredit(old(client), client)
      ensures if ok && opening then Holding(id) && Begun(id, w, []) && n.open == old(n.open) else Valid()
      ensures ok && opening ==> client == old(client).Head(id, false)
      ensures ok ==> promised == old(promised)[id := body + file]
      ensures ok && !opening ==> Sealed(id)
      ensures ok && !opening ==> id in client.got && client.got[id] == body[..old(Sendable(|body|, w))]
      ensures !ok ==> client == old(client).Reset(id) && promised == old(promised)
      ensures AtMost(old(resets), resets, id)
    {
      hide Holding, Client.Head, Client.Data, Client.Reset, SameCredit;
      Positive(id, w);
      CreditSteps(client, id);
      if !statusOk {
        Reset(id);
        return false;
      }
      var end := body == [] && file == [] && !opening;
      assert end ==> body + file == [];
      NothingYet(id, w);
      ghost var c := client;
      SendHead(id, w, body + file, end);
      GotHead(c, id, end);
      if body == [] && file == [] {
        return true;
      }
      WindowNow(id);
      var k := Sendable(|body|, w);
      Assoc(body[..k], body[k..], file);
      assert body == body[..k] + body[k..];
      ghost var d := client;
      SendSome(id, w, body[..k], body[k..] + file, k == |body| && file == []);
      GotData(d, id, body[..k], k == |body| && file == []);
      CreditData(d, id, body[..k], k == |body| && file == []);
      CreditChain(c, d, client);
      if k == |body| && file == [] {
        return true;
      }
      HoldBack(id, w - k, body[k..], file, readable);
      return true;
    }

    lemma NothingYet(id: nat, w: int)
      requires Holding(id) && !closed && InHand(id, w)
      ensures client.MayHead(id) && client.got[id] == []
    {
      hide AllTied, Proper, Total, Budgeted, Covered, Busies, Opened, Absent;
    }

    lemma WindowNow(hand: nat)
      requires Holding(hand) && !closed
      ensures sendWin == client.conn
    {
    }

    /** h2_pump_frame for held output: one DATA frame, END_STREAM on it when nothing is left
        and nothing more is to be written. */
    method PumpHeld(i: nat) returns (moved: bool)
      requires Valid() && !closed && i < |streams| && streams[i].sending && streams[i].outOff < |streams[i].out|
      modifies this`client, this`staged, this`sendWin
      modifies this`streams, this`n
      ensures Valid() && n.open <= old(n.open) && SameCredit(old(client), client)
      ensures Pumped(old(streams), old(client), streams, client)
      ensures var s := old(streams)[i];
              var k := old(Share(|s.out| - s.outOff, s.sendWin));
              && moved == (k > 0) && sendWin == old(sendWin) - k
              && if moved then HeldOut(s, k, old(client)) && streams == old(streams)[i := Sent(s, k)]
                 else streams == old(streams)
      ensures moved ==> old(streams)[i].sendWin > 0 && OneTurn(old(streams), streams, i)
      ensures !moved ==> client == old(client) && (sendWin <= 0 || streams[i].sendWin <= 0)
    {
      hide Core, Told, Receives, NoneStuck, AllBusy, AllTied, SameCredit, NoneLost, Pumped, OneTurn;
      CreditSteps(client, 0);
      PumpedNone(streams, client);
      var s := streams[i];
      var k := Share(|s.out| - s.outOff, s.sendWin);
      if k == 0 {
        return false;
      }
      HeldTurn(streams, i, k);
      SendHeld(i, k);
      return true;
    }

    /** The client got k more bytes of what slot s held, and the end of them if they were the
        last. */
    ghost predicate HeldOut(s: Slot, k: nat, c: Client)
      reads this
    {
      && s.outOff + k <= |s.out| && c.MayData(s.id, k)
      && client == c.Data(s.id, s.out[s.outOff..s.outOff + k], k == |s.out| - s.outOff && s.file == [] && !s.streaming)
    }

    method SendHeld(i: nat, k: nat)
      requires Valid() && !closed && i < |streams| && streams[i].sending
      requires 0 < k <= |streams[i].out| - streams[i].outOff && k <= sendWin && k <= streams[i].sendWin
      modifies this`client, this`staged, this`sendWin
      modifies this`streams, this`n
      ensures Valid() && n.open <= old(n.open) && sendWin == old(sendWin) - k && SameCredit(old(client), client)
      ensures HeldOut(old(streams)[i], k, old(client)) && streams == old(streams)[i := Sent(old(streams)[i], k)]
      ensures Pumped(old(streams), old(client), streams, client)
    {
      hide Holding, Core, Sends, Receives, NoneStuck, AllBusy, Told, World, Total, Sent, Proper, Limits.Sound;
      hide Client.MayData, Client.Data, Pumped;
      var s := streams[i];
      var bytes, end := s.out[s.outOff..s.outOff + k], k == |s.out| - s.outOff && s.file == [] && !s.streaming;
      InWorld();
      InUse(streams, i, lastId);
      HeldWorld(streams, i, k, lastId, l, withheld, client, promised);
      CreditData(client, s.id, bytes, end);
      SentCut(s, k);
      PumpedData(streams, i, Sent(s, k), client, bytes, end);
      DataFrames(s.id, bytes, end);
      sendWin := sendWin - k;
      CoreNow();
      GoesOut(i, k);
      ProperNow();
      OutWorld();
    }

    /** An open connection's invariant, on values. */
    lemma InWorld()
      requires Valid() && !closed
      ensures World(streams, lastId, l, withheld, client, promised) && Proper(streams, lastId) && l.Sound()
      ensures Busies(streams)
      ensures n.open <= 128
      ensures n == Total(streams) && sendWin == client.conn && peerWindow == client.initial
      ensures recvWin + owed == recvMax && 0 <= recvWin && 0 <= owed && 0 <= sendWin
    {
      hide Proper, Total, AllTied, Kept, Opened, Busies, Budgeted, Covered;
    }

    lemma CoreNow()
      requires Proper(streams, lastId) && n == Total(streams) && l.Sound()
      ensures Core()
    {
    }

    lemma OutWorld()
      requires World(streams, lastId, l, withheld, client, promised) && !closed && n.open <= 128
      requires n == Total(streams)
      requires 0 <= sendWin == client.conn && peerWindow == client.initial && recvWin + owed == recvMax
      requires 0 <= recvWin && 0 <= owed
      ensures Valid()
    {
      hide Proper, Total, AllTied, Kept, Opened, Busies, Covered, Bounded, Excess;
    }

    /** The slot and the counters once k bytes of held output went out. */
    method GoesOut(i: nat, k: nat)
      requires Core() && i < |streams| && streams[i].sending && 0 < k <= |streams[i].out| - streams[i].outOff
      modifies this`streams, this`n
      ensures Core() && streams == old(streams)[i := Sent(old(streams)[i], k)] && n.open <= old(n.open)
    {
      hide Total, Proper;
      var s := streams[i];
      SoundAt(streams, i, lastId);
      var most := |s.out| - s.outOff;
      var t := s.(outOff := s.outOff + k, sendWin := s.sendWin - k);
      ProperUpdate(streams, i, t, lastId);
      TotalUpdate(streams, i, t);
      streams := streams[i := t];
      n := n.(held := n.held - k);
      if k == most && s.file == [] && !s.streaming {
        Release(i);
      } else if k == most && s.streaming {
        var u := t.(sending := false, out := [], outOff := 0);
        ProperUpdate(streams, i, u, lastId);
        TotalUpdate(streams, i, u);
        n := n.(sending := n.sending - 1);
        streams := streams[i := u];
      }
    }

    /** The client got k more bytes of slot s's file, and the end of them if they were the
        last. */
    ghost predicate FileOut(s: Slot, k: nat, c: Client)
      reads this
    {
      && k <= |s.file| && k <= s.readable && c.MayData(s.id, k) && client == c.Data(s.id, s.file[..k], k == |s.file|)
    }

    /** h2_pump_frame for a file: one DATA frame, END_STREAM on the last, or a reset when the
        file has not that much any more. */
    method PumpFile(i: nat) returns (moved: bool)
      requires Valid() && !closed && i < |streams| && streams[i].sending && streams[i].file != []
      requires streams[i].outOff == |streams[i].out|
      modifies this`client, this`staged, this`sendWin, this`streams, this`n, this`withheld, this`resets
      modifies this`updates
      ensures Valid() && n.open <= old(n.open) && SameCredit(old(client), client)
      ensures Pumped(old(streams), old(client), streams, client) && |streams| == old(|streams|)
      ensures var s := old(streams)[i];
              var k := old(Share(|s.file|, s.sendWin));
              && moved == (k > 0)
              && (!moved ==> streams == old(streams) && client == old(client))
              && (moved && s.readable < k ==> client == old(client).Reset(s.id) && n.open == old(n.open) - 1)
              && (moved && s.readable >= k ==>
                    FileOut(s, k, old(client)) && streams == old(streams)[i := FileSent(s, k)])
              && sendWin == old(sendWin) - (if s.readable < k then 0 else k)
      ensures moved ==> old(streams)[i].sendWin > 0 && OneTurn(old(streams), streams, i)
      ensures !moved ==> sendWin <= 0 || streams[i].sendWin <= 0
    {
      hide Holding, Absent, Proper, SameCredit, Pumped, Client.Reset, OneTurn;
      CreditSteps(client, streams[i].id);
      PumpedNone(streams, client);
      var s := streams[i];
      var k := Share(|s.file|, s.sendWin);
      if k == 0 {
        return false;
      }
      Slots();
      InUse(streams, i, lastId);
      if s.readable < k {
        Present(streams, i);
        HasWindow(i);
        ghost var was, c, last := streams, client, lastId;
        InWorld();
        assert Cut(was, s.id);
        Reset(s.id);
        PumpedReset(was, streams, c, s.id);
        SparedOthers(was, streams, i, last);
        return true;
      }
      FileTurn(streams, i, k);
      SendFile(i, k);
      return true;
    }

    /** A stream with a slot was opened. */
    lemma HasWindow(i: nat)
      requires (Valid() || ValidBut(i)) && !closed && i < |streams| && streams[i].id != 0
      ensures streams[i].id in client.win && streams[i].id in client.got
    {
      hide Total, Oldest, Excess, Kept, Budgeted, Proper, Covered, Busies, Opened, Tended;
    }

    method SendFile(i: nat, k: nat)
      requires Valid() && !closed && i < |streams| && streams[i].sending && streams[i].outOff == |streams[i].out|
      requires 0 < k <= |streams[i].file| && k <= streams[i].readable && k <= sendWin && k <= streams[i].sendWin
      modifies this`client, this`staged, this`sendWin, this`streams, this`n
      ensures Valid() && n.open <= old(n.open) && sendWin == old(sendWin) - k && SameCredit(old(client), client)
      ensures FileOut(old(streams)[i], k, old(client)) && streams == old(streams)[i := FileSent(old(streams)[i], k)]
      ensures Pumped(old(streams), old(client), streams, client)
    {
      hide Holding, Core, Sends, Receives, NoneStuck, AllBusy, Told, World, Total, Proper, Limits.Sound;
      hide Client.MayData, Client.Data, Pumped;
      var s := streams[i];
      InWorld();
      FileWorld(streams, i, k, lastId, l, withheld, client, promised);
      InUse(streams, i, lastId);
      CreditData(client, s.id, s.file[..k], k == |s.file|);
      PumpedData(streams, i, FileSent(s, k), client, s.file[..k], k == |s.file|);
      DataFrames(s.id, s.file[..k], k == |s.file|);
      var t := s.(file := s.file[k..], readable := s.readable - k, sendWin := s.sendWin - k);
      ProperUpdate(streams, i, t, lastId);
      TotalUpdate(streams, i, t);
      streams := streams[i := t];
      sendWin := sendWin - k;
      CoreNow();
      if k == |s.file| {
        Release(i);
      }
      assert streams == old(streams)[i := FileSent(s, k)];
      ProperNow();
      OutWorld();
    }

    /** h2_pump_frame: one DATA frame of what stream i holds back, if the windows allow. */
    method PumpFrame(i: nat) returns (moved: bool)
      requires Valid() && !closed && i < |streams| && streams[i].sending
      modifies this`client, this`staged, this`sendWin, this`streams, this`n, this`withheld, this`resets
      modifies this`updates
      ensures Valid() && |streams| == old(|streams|) && n.open <= old(n.open) && sendWin <= old(sendWin)
      ensures SameCredit(old(client), client) && Pumped(old(streams), old(client), streams, client)
      ensures moved ==> sendWin + n.open < old(sendWin + n.open)
      ensures !moved ==> sendWin == old(sendWin) && streams == old(streams) && (sendWin <= 0 || streams[i].sendWin <= 0)
      ensures moved ==> old(streams)[i].sendWin > 0 && OneTurn(old(streams), streams, i)
    {
      hide Core, Sends, Receives, NoneStuck, NoneLost, Proper, SameCredit, Pumped, HeldOut, FileOut, Sent, FileSent;
      hide Client.Reset, OneTurn;
      Slots();
      InUse(streams, i, lastId);
      if streams[i].outOff < |streams[i].out| {
        moved := PumpHeld(i);
      } else {
        assert streams[i].Busy();
        moved := PumpFile(i);
      }
    }

    /** No stream that has output and a window waits. */
    ghost predicate AllWait()
      reads this
    {
      forall i :: 0 <= i < |streams| && streams[i].sending ==> streams[i].sendWin <= 0
    }

    /** One pass of h2_pump: a frame of each stream in turn, so that no answer holds up the
        rest. It ends early when nothing more may be sent, and the next begins where it ended. */
    method PumpPass(at: nat) returns (moved: bool, next: nat, ghost m: nat)
      requires Valid() && !closed && at < |streams| && sendWin > 0
      modifies this`client, this`staged, this`sendWin, this`streams, this`n, this`withheld, this`resets
      modifies this`updates
      ensures Valid() && |streams| == old(|streams|)
      ensures SameCredit(old(client), client) && Pumped(old(streams), old(client), streams, client)
      ensures moved ==> sendWin + n.open < old(sendWin + n.open)
      ensures !moved ==> sendWin == old(sendWin) && n.open <= old(n.open)
      ensures !moved ==> sendWin <= 0 || staged >= 32768 || AllWait()
      ensures 1 <= m <= |streams| && (m == |streams| || sendWin <= 0 || staged >= 32768)
      ensures next == Turn(at, m, |streams|) && Served(old(streams), streams, at, m)
    {
      hide Holding, SameCredit, Pumped, Served, OneTurn, Turn;
      CreditSteps(client, 0);
      PumpedNone(streams, client);
      var len := |streams|;
      moved, next, m := false, at, len;
      ghost var was := streams;
      ServedNone(was, at);
      TurnIs(at, len, len);
      for j := 0 to len
        invariant Valid() && !closed && |streams| == len && n.open <= old(n.open) && sendWin <= old(sendWin)
        invariant SameCredit(old(client), client) && Pumped(was, old(client), streams, client)
        invariant moved ==> sendWin + n.open < old(sendWin + n.open)
        invariant sendWin > 0 && Served(was, streams, at, j)
        invariant !moved ==> streams == was && sendWin == old(sendWin)
        invariant !moved ==> sendWin <= 0 || forall t :: 0 <= t < j && was[Turn(at, t, len)].sending ==>
                  was[Turn(at, t, len)].sendWin <= 0
      {
        var i := Turn(at, j, len);
        if streams[i].sending {
          ghost var c, ss := client, streams;
          var more := PumpFrame(i);
          CreditChain(old(client), c, client);
          ConnStays();
          PumpedChain(was, old(client), ss, c, streams, client);
          moved := moved || more;
          TurnServed(was, ss, streams, at, j, more);
        } else {
          TurnPassed(was, streams, at, j);
        }
        if sendWin <= 0 || staged >= PUMP_MAX {
          next := (i + 1) % len;
          m := j + 1;
          TurnNext(at, j, len);
          return;
        }
      }
      forall i | 0 <= i < len && was[i].sending && !moved && sendWin > 0
        ensures was[i].sendWin <= 0
      {
        var t := TurnOf(at, i, len);
      }
    }

    /** h2_pump: sends what flow control held back, until the write buffer is full, the
        connection window is used up, or every stream with output waits for its own. The turns
        go round from one call to the next. */
    method Pump() returns (added: bool, ghost turns: nat)
      requires Valid()
      modifies this`client, this`staged, this`sendWin, this`streams, this`n, this`withheld, this`resets, this`pumpNext
      modifies this`updates
      ensures Valid() && |streams| == old(|streams|) && added == (staged > old(staged))
      ensures SameCredit(old(client), client) && Pumped(old(streams), old(client), streams, client)
      ensures !closed ==> staged >= 32768 || sendWin <= 0 || AllWait()
      ensures added ==> turns > 0
      ensures pumpNext == if old(closed || n.sending == 0) then old(pumpNext)
                          else (old(pumpNext) + 1 + turns) % |streams|
    {
      hide Holding, SameCredit, Pumped, Turn, Served;
      CreditSteps(client, 0);
      PumpedNone(streams, client);
      turns := 0;
      Counted();
      if n.sending == 0 || closed {
        return false, 0;
      }
      var start, len := staged, |streams|;
      ghost var first := pumpNext + 1;
      NextSlot((pumpNext + 1) % len);
      var moved := true;
      while moved && n.sending > 0 && sendWin > 0 && staged < PUMP_MAX
        invariant Valid() && !closed && |streams| == len && pumpNext < len
        invariant SameCredit(old(client), client) && Pumped(old(streams), old(client), streams, client)
        invariant !moved ==> staged >= 32768 || sendWin <= 0 || AllWait()
        invariant pumpNext == (first + turns) % len && (turns == 0 ==> staged == start)
        decreases sendWin + n.open, moved
      {
        Counted();
        var next;
        ghost var c, ss := client, streams;
        ghost var m;
        moved, next, m := PumpPass(pumpNext);
        CreditChain(old(client), c, client);
        ConnStays();
        PumpedChain(old(streams), old(client), ss, c, streams, client);
        Counted();
        TurnsOn(first, turns, m, len);
        turns := turns + m;
        NextSlot(next);
      }
      Counted();
      return staged > start, turns;
    }

    method NextSlot(i: nat)
      requires Valid()
      modifies this`pumpNext
      ensures Valid() && pumpNext == i && (old(AllWait()) ==> AllWait())
    {
      hide Proper, AllTied, Kept, Opened, Busies, Budgeted, Covered;
      pumpNext := i;
    }

    /** Stream 0 is the connection: no RST_STREAM names it. */
    lemma ConnStays()
      requires Valid()
      ensures 0 !in client.gone
    {
      hide Total, Oldest, Excess, Kept, Budgeted, AllTied, Proper, Covered, Busies, Tended;
    }

    /** The counters are counts; an open window is not negative. */
    lemma Counted()
      requires Valid()
      ensures n.open >= 0 && n.sending >= 0 && (!closed ==> sendWin >= 0)
      ensures n.sending > 0 ==> |streams| > 0
      ensures n.sending == 0 ==> AllWait()
    {
      TotalBounds(streams);
      SendingCounted(streams);
    }

    /** Stream id waits for its answer. */
    ghost predicate Parked(id: nat)
      reads this
    {
      exists i :: 0 <= i < |streams| && streams[i].id == id && streams[i].waiting
    }

    /** Stream id's answer is still being written. */
    ghost predicate Writing(id: nat)
      reads this
    {
      exists i :: 0 <= i < |streams| && streams[i].id == id && streams[i].streaming
    }

    /** Everything given for stream id went out and the stream is ended, or its slot holds the
        rest and is no longer written: the last frame of it will end the stream. */
    ghost predicate Sealed(id: nat)
      reads this
    {
      id in client.ended || exists i :: 0 <= i < |streams| && streams[i].id == id && Closing(streams[i])
    }

    predicate Closing(s: Slot) {
      s.sending && !s.streaming
    }

    /** What became of the application's answer to stream id. */
    ghost predicate Answered(id: nat, answer: Answer, before: map<nat, seq<byte>>)
      reads this
    {
      match answer
      case Reply(statusOk, body, file, _) =>
        if statusOk then promised == before[id := body + file] && Sealed(id)
        else id in client.gone && promised == before
      case Deferred => Parked(id) && promised == before
      case Streamed(statusOk, written, ended) =>
        if statusOk then
          && promised == before[id := written]
          && if ended then Sealed(id) else if TooFull(|written|) then id in client.gone && Absent(streams, id)
             else Writing(id) && id !in client.gone
        else id in client.gone && promised == before
    }

    /** More held output than a stream still written may have. */
    ghost predicate TooFull(held: int)
      reads this
    {
      held > 4 * maxPending
    }

    /** What a callback on the stream in slot i came to: its bytes go behind what is held. An
        ended stream keeps its slot for them, or ends now when there are none; another is
        reset exactly when it is too full, and else waits in its slot. */
    ghost predicate Took(was: seq<Slot>, i: nat, c: Client, written: seq<byte>, ended: bool)
      requires i < |was| && was[i].outOff <= |was[i].out|
      reads this
    {
      var s, t := was[i], Written(was[i], written);
      if ended then
        if t.out != [] then client == c && streams == was[i := Ended(t)]
        else c.MayData(s.id, 0) && client == c.Data(s.id, [], true) && streams == was[i := Freed(Ended(t))]
      else if TooFull(|t.out|) then client == c.Reset(s.id) && Absent(streams, s.id) && Spared(was, streams, s.id)
      else client == c && streams == was[i := t]
    }

    /** h2_defer: parks stream id until its answer is due. */
    method Defer(id: nat, w: int)
      requires Holding(id) && !closed && InHand(id, w) && n.open < 128
      modifies this`streams, this`n
      ensures Valid() && Parked(id) && n.open == old(n.open) + 1
    {
      hide Total, Oldest, Excess, Budgeted, Proper, Covered, Kept, Busies, AllTied, Opened, Tended;
      var i := Take(id, w, id);
      var s := streams[i].(waiting := true);
      SetKeeps(streams, i, s, lastId, l, withheld, client, promised);
      TendedSame(streams, streams[i := s], client, 0);
      streams := streams[i := s];
      n := n.(waiting := n.waiting + 1);
      assert streams[i].id == id;
    }

    /** h2_st_open: the head of a streaming answer goes now, and a slot holds the stream. */
    method OpenStream(id: nat, statusOk: bool, written: seq<byte>, ended: bool, w: int)
      requires Holding(id) && !closed && InHand(id, w) && n.open < 128
      modifies this`client, this`promised, this`staged, this`sendWin, this`streams, this`n, this`withheld, this`resets
      modifies this`updates
      ensures Valid() && n.open <= old(n.open) + 1 && SameCredit(old(client), client)
      ensures Answered(id, Streamed(statusOk, written, ended), old(promised))
      ensures statusOk && !ended ==>
                var head := old(client).Head(id, false);
                client == if TooFull(|written|) then head.Reset(id) else head
      ensures AtMost(old(resets), resets, id)
    {
      hide Holding, SameCredit, Absent;
      var ok := Respond(id, statusOk, [], [], 0, w, true);
      if !ok {
        return;
      }
      ghost var c := client;
      var i := StartStream(id, w);
      ghost var ss := streams;
      HasWindow(i);
      NotGone(i);
      WriteStream(i, written, ended);
      CreditChain(old(client), c, client);
      assert [] + written == written && promised == old(promised)[id := written];
      if !ended {
        StreamOn(ss, i, c, id, written);
      }
    }

    /** A stream with a slot is live. */
    lemma NotGone(i: nat)
      requires Valid() && !closed && i < |streams| && streams[i].id != 0
      ensures streams[i].id in client.win && streams[i].id !in client.gone
    {
      hide Total, Oldest, Excess, Kept, Budgeted, Proper, Covered, Busies, Opened, Tended;
      TiedAt(streams, i, client, promised);
    }

    /** A stream just opened, after its first callback. */
    lemma StreamOn(was: seq<Slot>, i: nat, c: Client, id: nat, written: seq<byte>)
      requires i < |was| && was[i].id == id && was[i].streaming && was[i].out == [] && was[i].outOff == 0
      requires id in c.win && id !in c.gone && Took(was, i, c, written, false)
      ensures if TooFull(|written|) then client == c.Reset(id) && id in client.gone && Absent(streams, id)
              else client == c && Writing(id)
    {
      hide Absent, Spared;
      assert [] + written == written;
      if !TooFull(|written|) {
        assert streams[i].id == id && streams[i].streaming;
      }
    }

    method StartStream(id: nat, w: int) returns (i: nat)
      requires Holding(id) && !closed && Begun(id, w, []) && n.open < 128
      modifies this`streams, this`n
      ensures Valid() && n.open == old(n.open) + 1 && i < |streams| && streams[i].streaming && streams[i].id == id
      ensures id in promised && streams[i].out == [] && streams[i].outOff == 0
    {
      hide Total, Oldest, Excess, Budgeted, Proper, Covered, Kept, Busies, AllTied, Opened, Tended;
      i := Take(id, w, id);
      var s := streams[i].(streaming := true);
      SetKeeps(streams, i, s, lastId, l, withheld, client, promised);
      TendedSame(streams, streams[i := s], client, 0);
      streams := streams[i := s];
      n := n.(streaming := n.streaming + 1);
    }

    /** A callback on the stream in slot i (h2_st_lend and h2_st_take): what it writes is
        held output; a stream that ends is finished, one that holds too much is reset. */
    method WriteStream(i: nat, written: seq<byte>, ended: bool)
      requires Valid() && !closed && i < |streams| && streams[i].streaming
      modifies this`client, this`promised, this`staged, this`streams, this`n, this`withheld, this`resets
      modifies this`updates
      ensures Valid() && n.open <= old(n.open) && |streams| == old(|streams|) && SameCredit(old(client), client)
      ensures var id := old(streams)[i].id;
              && id in old(promised) && promised == old(promised)[id := old(promised)[id] + written]
              && (ended ==> Sealed(id))
      ensures old(streams)[i].outOff <= |old(streams)[i].out| && Took(old(streams), i, old(client), written, ended)
      ensures AtMost(old(resets), resets, old(streams)[i].id)
    {
      hide Holding, Core, Sends, Receives, NoneStuck, AllBusy, Proper, World, Slot.Sound, SameCredit, Absent;
      hide Spared;
      CreditSteps(client, streams[i].id);
      AddOutput(i, written);
      Present(streams, i);
      if ended {
        if streams[i].sending {
          FinishLater(i);
        } else {
          FinishNow(i);
        }
      } else if |streams[i].out| - streams[i].outOff > 4 * maxPending {
        HasWindow(i);
        CreditSteps(client, streams[i].id);
        ghost var ss := streams;
        Reset(streams[i].id);
        SparedFrom(old(streams), i, ss, streams);
      }
    }

    /** What was written goes behind what is held, moved to the front. */
    method AddOutput(i: nat, written: seq<byte>)
      requires Valid() && !closed && i < |streams| && streams[i].streaming
      modifies this`promised, this`staged, this`streams, this`n
      ensures Valid() && |streams| == old(|streams|) && n.open == old(n.open) && streams[i].streaming
      ensures streams[i].id == old(streams)[i].id
      ensures streams[i].id > 0 && streams[i].outOff == 0
      ensures old(streams)[i].outOff <= |old(streams)[i].out|
      ensures streams == old(streams)[i := Written(old(streams)[i], written)]
      ensures streams[i].sending <==> streams[i].out != []
      ensures var id := streams[i].id;
              id in old(promised) && promised == old(promised)[id := old(promised)[id] + written]
    {
      hide Holding, Core, Sends, Receives, NoneStuck, AllBusy, Told, World, Total, Proper, Limits.Sound;
      var s := streams[i];
      InWorld();
      StreamingAt(streams, i, lastId);
      WrittenSends(streams, i, written);
      WriteWorld(streams, i, written, lastId, l, withheld, client, promised);
      TotalUpdate(streams, i, Written(s, written));
      promised := promised[s.id := promised[s.id] + written];
      streams := streams[i := s.(out := s.out[s.outOff..] + written, outOff := 0)];
      if |written| > 0 {
        n := n.(held := n.held + |written|);
        if !s.sending {
          streams := streams[i := streams[i].(sending := true)];
          n := n.(sending := n.sending + 1);
        }
      }
      assert streams == old(streams)[i := Written(s, written)];
      OutWorld();
    }

    /** Output is still held: its last frame will end the stream. */
    method FinishLater(i: nat)
      requires Valid() && !closed && i < |streams| && streams[i].streaming && streams[i].sending
      modifies this`streams, this`n
      ensures Valid() && n.open == old(n.open) && |streams| == old(|streams|) && Sealed(old(streams)[i].id)
      ensures old(streams)[i].outOff <= |old(streams)[i].out| && streams == old(streams)[i := Ended(old(streams)[i])]
    {
      hide Holding, Core, Sends, Receives, NoneStuck, AllBusy, Told, World, Total, Proper, Limits.Sound, Covered;
      InWorld();
      EndWorld(streams, i, lastId, l, withheld, client, promised);
      ValidButIs(i);
      EndStream(i);
      assert streams[i].sending && !streams[i].streaming;
      ProperNow();
      OutWorld();
    }

    /** Nothing is held: an empty DATA frame ends the stream now. */
    method FinishNow(i: nat)
      requires Valid() && !closed && i < |streams| && streams[i].streaming && !streams[i].sending
      modifies this`client, this`staged, this`streams, this`n
      ensures Valid() && n.open <= old(n.open) && |streams| == old(|streams|)
      ensures old(streams)[i].id in client.ended && SameCredit(old(client), client)
      ensures old(streams)[i].outOff <= |old(streams)[i].out|
      ensures streams == old(streams)[i := Freed(Ended(old(streams)[i]))]
      ensures old(client).MayData(old(streams)[i].id, 0) && client == old(client).Data(old(streams)[i].id, [], true)
    {
      hide Holding, Core, Sends, Receives, NoneStuck, AllBusy, Told, World, Total, Proper, Limits.Sound;
      hide Client.MayData, Covered;
      var s := streams[i];
      InWorld();
      LastWorld(streams, i, lastId, l, withheld, client, promised);
      ValidButIs(i);
      EndStream(i);
      ProperNow();
      CreditData(client, s.id, [], true);
      DataFrames(s.id, [], true);
      CoreNow();
      Release(i);
      assert streams == old(streams)[i := Freed(Ended(s))];
      ProperNow();
      OutWorld();
    }

    lemma ValidButIs(i: nat)
      requires Valid()
      ensures ValidBut(i) && Core() && Sends() && Receives() && NoneStuckBut(i) && AllBusy()
    {
      hide Proper, Total, AllTied, Kept, Opened, Busies, Budgeted, Oldest;
    }

    /** h2_finish: the application's answer to stream id. */
    method Finish(id: nat, answer: Answer, w: int)
      requires Holding(id) && !closed && InHand(id, w) && n.open < 128
      modifies this`client, this`promised, this`staged, this`sendWin, this`streams, this`n, this`withheld, this`resets
      modifies this`updates
      ensures Valid() && n.open <= old(n.open) + 1 && SameCredit(old(client), client)
      ensures Answered(id, answer, old(promised))
      ensures AtMost(old(resets), resets, id)
    {
      hide Holding, SameCredit;
      CreditSteps(client, id);
      match answer
      case Deferred =>
        Defer(id, w);
      case Streamed(statusOk, written, ended) =>
        OpenStream(id, statusOk, written, ended, w);
      case Reply(statusOk, body, file, readable) =>
        var ok := Respond(id, statusOk, body, file, readable, w, false);
    }

    /** h2_resume: a deferred answer that is due; false when its stream no longer waits. */
    method Resume(id: nat, answer: Answer) returns (served: bool)
      requires Valid() && id > 0
      modifies this`client, this`promised, this`staged, this`sendWin, this`streams, this`n, this`withheld, this`resets
      modifies this`updates
      ensures Valid() && SameCredit(old(client), client)
      ensures served == (!old(closed) && old(Parked(id)))
      ensures if served then n.open <= old(n.open) && Answered(id, answer, old(promised)) else streams == old(streams)
    {
      hide Holding, SameCredit, Answered, Proper;
      CreditSteps(client, id);
      var i := Find(streams, id);
      Slots();
      if i < |streams| {
        Alone(streams, i, lastId);
      }
      if closed || i == |streams| || !streams[i].waiting {
        return false;
      }
      var w := streams[i].sendWin;
      Unpark(i);
      Finish(id, answer, w);
      return true;
    }

    /** A stream that was waiting is in hand again. */
    method Unpark(i: nat)
      requires Valid() && !closed && i < |streams| && streams[i].waiting
      modifies this`streams, this`n
      ensures Holding(old(streams)[i].id) && n.open == old(n.open) - 1 < 128
      ensures InHand(old(streams)[i].id, old(streams)[i].sendWin)
    {
      hide Total, Oldest, Excess, Kept, Budgeted, Covered, Opened, Elsewhere, Tended;
      SoundAt(streams, i, lastId);
      TiedAt(streams, i, client, promised);
      WaitingAt(streams, i, lastId);
      Alone(streams, i, lastId);
      SetKeeps(streams, i, Freed(streams[i]), lastId, l, withheld, client, promised);
      TendedFreed(streams, streams[i := Freed(streams[i])], i, client);
      Release(i);
    }

    /** A stream whose body was coming is in hand, its slot free. */
    method Conclude(i: nat)
      requires ValidBut(i) && !closed && i < |streams| && streams[i].receiving
      modifies this`streams, this`n, this`withheld, this`staged
      modifies this`updates
      ensures Holding(old(streams)[i].id) && n.open == old(n.open) - 1 < 128
      ensures InHand(old(streams)[i].id, old(streams)[i].sendWin)
    {
      hide Total, Oldest, Excess, Kept, Budgeted, Covered, CoveredBut, Opened, AllTied, Tended;
      ReceivingAt(streams, i, lastId);
      TiedAt(streams, i, client, promised);
      Alone(streams, i, lastId);
      ghost var was := streams;
      Drop(i);
      TendedFreed(was, streams, i, client);
    }

    /** Body bytes of a frame of so many bytes are kept. */
    method Keep(i: nat, data: seq<byte>, length: nat)
      requires Valid() && !closed && i < |streams| && streams[i].receiving && |data| <= length <= streams[i].recvWin
      requires |streams[i].body| + |data| <= l.maxBody
      modifies this`streams, this`n
      ensures ValidBut(i) && |streams| == old(|streams|) && n.open == old(n.open)
      ensures var s := old(streams)[i]; streams[i] == s.(body := s.body + data, recvWin := s.recvWin - length)
    {
      hide Total, Oldest, Excess, Kept, Tied, Proper, AllTied, Opened, Busies;
      var s := streams[i];
      ReceivingAt(streams, i, lastId);
      TiedAt(streams, i, client, promised);
      var t := s.(body := s.body + data, recvWin := s.recvWin - length);
      ProperUpdate(streams, i, t, lastId);
      TotalUpdate(streams, i, t);
      Grows(streams, i, t, l, lastId);
      BodyTied(s, t, client, promised);
      ElsewhereSame(client, promised, 0);
      TiedUpdate(streams, i, t, client, client, promised, promised, 0);
      StillBusy(streams, i, t);
      TendedSame(streams, streams[i := t], client, 0);
      streams := streams[i := t];
      n := n.(buffered := n.buffered + |data|);
    }

    /** h2_on_data. answer is the application's to the request, if this ends it; refusal the
        text of a 413. */
    method OnData(id: nat, payload: seq<byte>, padded: bool, end: bool, answer: Answer, refusal: seq<byte>)
      requires Valid() && !closed
      modifies this`client, this`promised, this`staged, this`sendWin, this`streams, this`n, this`withheld
      modifies this`updates
      modifies this`resets, this`closed, this`recvWin, this`owed
      ensures Valid() && SameCredit(if old(Unasked(id, |payload|)) then old(client).Reset(id) else old(client), client)
      ensures closed <==> || id == 0 || |payload| > old(recvWin) || id > old(lastId)
                          || (old(Receiving(id)) && Unpad(payload, padded).None?)
      ensures !closed ==> recvWin == old(recvWin) - |payload|
      ensures forall i :: 0 <= i < |old(streams)| && 0 < id == old(streams)[i].id && old(streams)[i].receiving ==>
                var s, data := old(streams)[i], Unpad(payload, padded);
                |payload| <= old(recvWin) && data.Some? ==>
                  Taken(s, i, data.value, |payload|, end, answer, refusal, old(client), old(promised))
      ensures old(Unasked(id, |payload|)) ==> client == old(client).Reset(id)
      ensures !old(Receiving(id)) && !old(Unasked(id, |payload|)) ==> client == old(client) && streams == old(streams)
      ensures !old(Receiving(id)) ==> promised == old(promised)
      ensures client.stray == old(client.stray) + if old(Unasked(id, |payload|)) && id % 2 == 0 then {id} else {}
    {
      hide Holding, SameCredit, Taken, Proper, Client.Reset;
      CreditSteps(client, id);
      Slots();
      if id == 0 {
        FailNow();
        return;
      }
      if recvWin - |payload| < 0 {
        FailNow();
        return;
      }
      Account(|payload|);
      var i := Find(streams, id);
      if i < |streams| {
        Alone(streams, i, lastId);
      }
      if i == |streams| || !streams[i].receiving {
        if id > lastId {
          FailNow();
        } else if i == |streams| && id !in resets {
          Strays(id);
          CreditSteps(client.Reset(id), 0);
          Reset(id);
        }
        return;
      }
      var data := Unpad(payload, padded);
      if data.None? {
        FailNow();
        return;
      }
      Receive(i, data.value, |payload|, end, answer, refusal);
      CreditStray(old(client), client);
    }

    /** The body of stream id is coming. */
    ghost predicate Receiving(id: nat)
      reads this
    {
      exists i :: 0 <= i < |streams| && streams[i].id == id && streams[i].receiving
    }

    /** DATA within the connection's window on a stream that is over, or was never a
        client's, and that we did not reset lately: it is answered with RST_STREAM. */
    ghost predicate Unasked(id: nat, length: nat)
      reads this
    {
      0 < id <= lastId && length <= recvWin && Absent(streams, id) && id !in resets
    }

    /** What DATA on a stream whose body is coming comes to: past its window the stream is
        reset, past the body limit answered with the refusal, at its end with the
        application's answer, and otherwise the bytes are kept. */
    ghost predicate Taken(s: Slot, i: nat, data: seq<byte>, length: nat, end: bool, answer: Answer, refusal: seq<byte>,
                          c: Client, before: map<nat, seq<byte>>)
      reads this
    {
      if length > s.recvWin then client == c.Reset(s.id) && promised == before
      else if |s.body| + |data| > l.maxBody then
        promised == before[s.id := refusal] && (Absent(streams, s.id) ==> s.id in client.gone)
      else if !end then
        && i < |streams| && promised == before && client == c
        && streams[i] == s.(body := s.body + data, recvWin := streams[i].recvWin)
        && streams[i].recvWin >= s.recvWin - length
      else if s.length >= 0 && s.length != |s.body + data| then client == c.Reset(s.id) && promised == before
      else Answered(s.id, answer, before)
    }

    /** The DATA of a stream whose body is coming. */
    method Receive(i: nat, data: seq<byte>, length: nat, end: bool, answer: Answer, refusal: seq<byte>)
      requires Valid() && !closed && i < |streams| && streams[i].receiving && |data| <= length
      modifies this`client, this`promised, this`staged, this`sendWin, this`streams, this`n, this`withheld, this`resets
      modifies this`updates
      ensures Valid() && SameCredit(old(client), client)
      ensures Taken(old(streams)[i], i, data, length, end, answer, refusal, old(client), old(promised))
    {
      hide Holding, ValidBut, Proper, SameCredit, Answered;
      var s := streams[i];
      CreditSteps(client, s.id);
      Slots();
      ReceivingAt(streams, i, lastId);
      HasWindow(i);
      if s.recvWin - length < 0 {
        Reset(s.id);
        return;
      }
      if |s.body| + |data| > l.maxBody {
        ButNow(i);
        Conclude(i);
        var ok := Respond(s.id, true, refusal, [], 0, s.sendWin, false);
        ghost var c := client;
        CreditWin(old(client), c, s.id);
        EarlyAnswer(s.id);
        CreditSteps(c, s.id);
        CreditChain(old(client), c, client);
        assert refusal + [] == refusal;
        return;
      }
      Keep(i, data, length);
      if end {
        RequestDone(i, answer);
      } else {
        CreditLast(i);
      }
    }

    /** h2_early_answer: once an answer sent before the body ended is all out, the client is
        told to stop. */
    method EarlyAnswer(id: nat)
      requires Valid() && 0 < id <= lastId
      modifies this`client, this`staged, this`streams, this`n, this`withheld, this`resets
      modifies this`updates
      ensures Valid() && client == (if old(Absent(streams, id)) then old(client).Reset(id) else old(client))
      ensures Absent(streams, id) == old(Absent(streams, id))
      ensures AtMost(old(resets), resets, id)
    {
      hide Holding;
      var i := Find(streams, id);
      if i == |streams| {
        Reset(id);
      }
    }

    /** h2_request_done: the body is complete. */
    method RequestDone(i: nat, answer: Answer)
      requires ValidBut(i) && !closed && i < |streams| && streams[i].receiving && 0 < streams[i].id <= lastId
      modifies this`client, this`promised, this`staged, this`sendWin, this`streams, this`n, this`withheld, this`resets
      modifies this`updates
      ensures Valid() && SameCredit(old(client), client)
      ensures var s := old(streams)[i];
              if s.length >= 0 && s.length != |s.body| then
                client == old(client).Reset(s.id) && promised == old(promised)
              else Answered(s.id, answer, old(promised))
      ensures AtMost(old(resets), resets, old(streams)[i].id)
    {
      hide Holding, ValidBut, SameCredit, Answered;
      var s := streams[i];
      CreditSteps(client, s.id);
      HasWindow(i);
      if s.length >= 0 && s.length != |s.body| {
        ResetAt(i);
        return;
      }
      Conclude(i);
      Finish(s.id, answer, s.sendWin);
    }

    /** The window of the stream whose body just grew. */
    method CreditLast(i: nat)
      requires ValidBut(i) && !closed && i < |streams| && streams[i].receiving
      modifies this`streams, this`withheld, this`staged
      modifies this`updates
      ensures Valid() && OnlyWidened(old(streams), i)
    {
      hide Total, Oldest, Excess, Kept, Budgeted, AllTied, Proper, Opened, Busies;
      Credit(i);
      StillBusy(old(streams), i, streams[i]);
      TendedSame(old(streams), streams, client, 0);
      assert Covered(streams, withheld);
    }

    method Account(length: nat)
      requires Valid() && !closed && length <= recvWin
      modifies this`recvWin, this`owed
      ensures Valid() && recvWin == old(recvWin) - length
    {
      hide Proper, Total, AllTied, Kept, Opened, Busies, Budgeted, Covered;
      recvWin := recvWin - length;
      owed := owed + length;
    }

    method FailNow()
      requires Valid()
      modifies this`closed, this`staged
      ensures Valid() && closed
    {
      hide Proper, Total, AllTied, Kept, Opened, Busies, Budgeted, Covered;
      Fail();
    }

    lemma ButNow(i: nat)
      requires Valid()
      ensures ValidBut(i)
    {
      hide Proper, Total, AllTied, Kept, Opened, Busies, Budgeted, Oldest;
    }

    /** h2_process, once its frames are handled: what was read is given back when half the
        connection's window is used. */
    method Settle()
      requires Valid() && recvMax > 0
      modifies this`recvWin, this`owed, this`staged, this`updates
      ensures Valid() && (!closed ==> recvWin > recvMax / 2)
      ensures if old(!closed && owed > 0 && 2 * recvWin <= recvMax) then
                updates == old(updates) + [(0, old(owed))] && recvWin == recvMax && owed == 0
              else updates == old(updates) && recvWin == old(recvWin) && owed == old(owed)
    {
      hide Proper, Total, AllTied, Kept, Opened, Busies, Budgeted, Covered;
      if !closed && owed > 0 && recvWin <= recvMax / 2 {
        staged := staged + 13;
        updates := updates + [(0, owed)];
        recvWin := recvWin + owed;
        owed := 0;
      }
    }

    /** A stream above every one before it is opened. */
    method Begin(id: nat)
      requires Valid() && !closed && id > lastId && id % 2 == 1
      modifies this`lastId, this`client
      ensures Holding(id) && lastId == id && InHand(id, peerWindow) && client == old(client).Open(id)
    {
      hide Total, Oldest, Excess, Budgeted, Covered, Busies, AllTied, Kept, Elsewhere, Tended;
      TendedOpen(streams, client, id);
      KeptOpen(client, promised, id);
      ElsewhereOpen(client, promised, id);
      Unseen(streams, lastId, id);
      TiedAside(streams, client, client.Open(id), promised, promised, id);
      FreshIs(client, promised, lastId, id);
      client := client.Open(id);
      lastId := id;
    }

    /** The slot of a request whose body is to come. */
    method Admit(id: nat, length: int)
      requires Holding(id) && !closed && InHand(id, peerWindow) && id == lastId && n.open < 128
      requires FirstWindows(n.bodies + 1, l.win) <= l.budget
      modifies this`streams, this`n
      ensures Valid() && Begins(id, peerWindow, length)
    {
      hide Total, Oldest, Excess, Budgeted, Covered, Busies, AllTied, Kept, Opened, FirstWindows, Proper;
      var i := Take(id, peerWindow, id);
      ghost var ss := streams;
      var s := streams[i].(receiving := true, length := length);
      Newest(ss, i, lastId);
      ProperUpdate(ss, i, s, lastId);
      TotalUpdate(ss, i, s);
      Admitted(ss, i, s, l, withheld, lastId);
      ElsewhereSame(client, promised, 0);
      TiedUpdate(ss, i, s, client, client, promised, promised, 0);
      NowBusy(ss, i, s);
      TendedSame(ss, ss[i := s], client, 0);
      streams := streams[i := s];
      n := n.(bodies := n.bodies + 1);
      assert streams[i] == Blank(id, l.win, peerWindow).(receiving := true, length := length);
    }

    /** h2_on_headers and h2_block for a whole header block: a new request, or the trailers
        of one whose body is coming. */
    method OnHeaders(id: nat, end: bool, itself: bool, block: Block, answer: Answer, refusal: seq<byte>)
      requires Valid() && !closed
      modifies this`client, this`promised, this`staged, this`sendWin, this`streams, this`n, this`withheld
      modifies this`updates
      modifies this`resets, this`closed, this`lastId
      ensures Valid() && SameCredit(old(client), client)
      ensures closed <==> || id == 0 || id % 2 == 0 || block.Undecodable?
                          || (id <= old(lastId) && old(Absent(streams, id)) && id !in old(resets))
      ensures !closed && id <= old(lastId) && !old(Receiving(id)) ==>
                client == old(client) && streams == old(streams) && promised == old(promised)
      ensures !closed && id > old(lastId) ==>
                && lastId == id && !block.Undecodable?
                && Fate(id, end, itself, block, answer, refusal, old(n), old(peerWindow), old(promised))
      ensures forall i :: 0 <= i < |old(streams)| && 0 < id == old(streams)[i].id && old(streams)[i].receiving ==>
                var s := old(streams)[i];
                !closed ==>
                  if !end || (s.length >= 0 && s.length != |s.body|) then
                    client == old(client).Reset(id) && promised == old(promised)
                  else Answered(id, answer, old(promised))
      ensures AtMost(old(resets), resets, id)
    {
      hide Holding, SameCredit, Fate, Answered, Proper;
      CreditSteps(client, id);
      Slots();
      if id == 0 || id % 2 == 0 {
        FailNow();
        return;
      }
      var i := Find(streams, id);
      var ignored := false;
      if i < |streams| {
        Alone(streams, i, lastId);
        Known(i);
      }
      if id <= lastId && (i == |streams| || !streams[i].receiving) {
        if id !in resets && i == |streams| {
          FailNow();
          return;
        }
        ignored := true;
      }
      if block.Undecodable? {
        FailNow();
        return;
      }
      if ignored {
        return;
      }
      if id <= lastId {
        if !end {
          HasWindow(i);
          Reset(id);
          return;
        }
        ButNow(i);
        RequestDone(i, answer);
        return;
      }
      NewStream(id);
      Begin(id);
      ghost var c := client;
      NewRequest(id, end, itself, block, answer, refusal);
      CreditChain(old(client), c, client);
    }

    lemma NewStream(id: nat)
      requires Valid() && id > lastId
      ensures id !in client.win
    {
    }

    /** What becomes of a new request: refused with a reset, answered with the refusal text,
        answered by the application, or waiting for its body. */
    ghost predicate Fate(id: nat, end: bool, itself: bool, block: Block, answer: Answer, refusal: seq<byte>,
                         was: Counts, w: int, before: map<nat, seq<byte>>)
      requires !block.Undecodable?
      reads this
    {
      if || itself || was.open >= 128 || was.held >= maxPending || was.files >= 32
         || (!end && FirstWindows(was.bodies + 1, l.win) > l.budget)
         || (block.Head? && (block.length < -1 || (end && block.length > 0)))
      then id in client.gone && promised == before && Absent(streams, id)
      else if block.TooLarge? then
        promised == before[id := refusal] && (Absent(streams, id) ==> id in client.ended || id in client.gone)
      else if end then Answered(id, answer, before)
      else Begins(id, w, block.length)
    }

    /** A slot waits for the body of a request of that length, its windows whole. */
    ghost predicate Begins(id: nat, w: int, length: int)
      reads this
    {
      exists i :: 0 <= i < |streams| && streams[i] == Blank(id, l.win, w).(receiving := true, length := length)
    }

    /** A request's head is complete. */
    method NewRequest(id: nat, end: bool, itself: bool, block: Block, answer: Answer, refusal: seq<byte>)
      requires Holding(id) && !closed && InHand(id, peerWindow) && id == lastId && !block.Undecodable?
      modifies this`client, this`promised, this`staged, this`sendWin, this`streams, this`n, this`withheld, this`resets
      modifies this`updates
      ensures Valid() && SameCredit(old(client), client)
      ensures Fate(id, end, itself, block, answer, refusal, old(n), peerWindow, old(promised))
      ensures AtMost(old(resets), resets, id)
    {
      hide Holding, InHand, FirstWindows, SameCredit, Answered;
      Positive(id, peerWindow);
      CreditSteps(client, id);
      if itself {
        Reset(id);
        return;
      }
      if n.open >= MAX_STREAMS || n.held >= maxPending || n.files >= MAX_FILES {
        Reset(id);
        return;
      }
      if !end && FirstWindows(n.bodies + 1, l.win) > l.budget {
        Reset(id);
        return;
      }
      if block.TooLarge? {
        var ok := Respond(id, true, refusal, [], 0, peerWindow, false);
        assert refusal + [] == refusal;
        if !end {
          ghost var c := client;
          CreditWin(old(client), c, id);
          EarlyAnswer(id);
          CreditSteps(c, id);
          CreditChain(old(client), c, client);
        }
        return;
      }
      if block.length < -1 {
        Reset(id);
        return;
      }
      if end {
        if block.length > 0 {
          Reset(id);
          return;
        }
        Finish(id, answer, peerWindow);
        return;
      }
      Admit(id, block.length);
    }

    lemma Positive(id: nat, w: int)
      requires InHand(id, w)
      ensures id > 0 && (!closed ==> id in client.win && id in client.got)
    {
    }

    /** h2_on_rst: the client cancels a stream. */
    method OnReset(id: nat, length: nat)
      requires Valid() && !closed
      modifies this`closed, this`staged, this`streams, this`n, this`withheld, this`client
      modifies this`updates
      ensures Valid() && (closed <==> id == 0 || length != 4 || id > lastId)
      ensures !closed ==> Absent(streams, id) && Spared(old(streams), streams, id) && client == old(client).Cancel(id)
    {
      hide Holding, Absent;
      if id == 0 || length != 4 || id > lastId {
        FailNow();
        return;
      }
      Discard(id);
      Cancelled(id);
    }

    ghost method Cancelled(id: nat)
      requires Holding(id) && Absent(streams, id) && 0 < id <= lastId
      modifies this`client
      ensures Valid() && client == old(client).Cancel(id)
    {
      hide Total, Oldest, Excess, Kept, Budgeted, AllTied, Proper, Covered, Busies, Absent, Opened, Tended;
      CancelKeeps(streams, client, promised, lastId, id);
      client := client.Cancel(id);
    }

    /** h2_on_window_update on the connection: the client gives inc more, and what that lets
        go is sent. */
    method OnConnWindow(inc: nat)
      requires Valid() && !closed
      modifies this`client, this`staged, this`sendWin, this`streams, this`n, this`withheld, this`resets
      modifies this`updates
      modifies this`pumpNext, this`closed
      ensures Valid() && promised == old(promised) && (inc == 0 || old(sendWin) + inc > 0x7fffffff <==> closed)
      ensures !closed ==> SameCredit(old(client).GiveConn(inc), client)
      ensures !closed ==> Pumped(old(streams), old(client).GiveConn(inc), streams, client)
      ensures !closed ==> staged >= 32768 || sendWin <= 0 || AllWait()
    {
      hide Holding, SameCredit, AllWait, Client.GiveConn, Pumped;
      if inc == 0 {
        FailNow();
        return;
      }
      WidenConn(inc);
      if sendWin > MAX_WINDOW {
        FailNow();
        return;
      }
      var added, turns := Pump();
    }

    /** h2_on_window_update on stream id. */
    method OnStreamWindow(id: nat, inc: nat)
      requires Valid() && !closed && id > 0
      modifies this`client, this`staged, this`sendWin, this`streams, this`n, this`withheld, this`resets
      modifies this`updates
      modifies this`pumpNext, this`closed
      ensures Valid() && promised == old(promised) && (closed <==> old(Absent(streams, id)) && id > lastId)
      ensures !closed && old(Absent(streams, id)) ==> client == old(client).Give(id, inc) && streams == old(streams)
      ensures forall i :: 0 <= i < |old(streams)| && old(streams)[i].id == id ==>
                if inc == 0 then client == old(client).Reset(id)
                else if old(streams)[i].sendWin + inc > 0x7fffffff then client == old(client).Give(id, inc).Reset(id)
                else
                  && SameCredit(old(client).Give(id, inc), client)
                  && Pumped(Grown(old(streams), i, inc), old(client).Give(id, inc), streams, client)
                  && (staged >= 32768 || sendWin <= 0 || AllWait())
    {
      hide Holding, SameCredit, AllWait, Client.Give, Proper, Pumped;
      Slots();
      var i := Find(streams, id);
      if i == |streams| {
        if id > lastId {
          FailNow();
          return;
        }
        Unheeded(id, inc);
        return;
      }
      Alone(streams, i, lastId);
      Known(i);
      if inc == 0 {
        Reset(id);
        return;
      }
      WidenStream(i, inc);
      if streams[i].sendWin > MAX_WINDOW {
        Reset(id);
        return;
      }
      var added, turns := Pump();
    }

    /** The connection's send window grows with the client's. */
    method WidenConn(inc: nat)
      requires Valid() && !closed
      modifies this`client, this`sendWin
      ensures Valid() && sendWin == old(sendWin) + inc && client == old(client).GiveConn(inc)
    {
      hide Total, Oldest, Excess, Budgeted, Proper, Covered, Busies, Kept, Opened, Tied;
      KeptGive(client, promised, 0, inc);
      ConnAside(streams, client, promised, lastId, inc);
      client := client.GiveConn(inc);
      sendWin := sendWin + inc;
    }

    method WidenStream(i: nat, inc: nat)
      requires Valid() && !closed && i < |streams| && streams[i].id != 0
      modifies this`client, this`streams
      ensures Valid() && streams == Grown(old(streams), i, inc)
      ensures client == old(client).Give(old(streams)[i].id, inc)
    {
      hide Total, Oldest, Excess, Budgeted, Proper, Covered, Kept, Opened, AllTied, Tied, Busies;
      var s := streams[i];
      var t := s.(sendWin := s.sendWin + inc);
      GiveKeeps(streams, i, t, inc, lastId, l, withheld, client, promised);
      TendedSame(streams, streams[i := t], client, 0);
      client := client.Give(s.id, inc);
      streams := streams[i := t];
    }

    /** A window for a stream that is over. */
    ghost method Unheeded(id: nat, inc: nat)
      requires Valid() && Absent(streams, id)
      modifies this`client
      ensures Valid() && client == old(client).Give(id, inc)
    {
      hide Total, Oldest, Excess, Budgeted, Proper, Covered, Kept, AllTied, Busies, Elsewhere;
      KeptGive(client, promised, id, inc);
      ElsewhereGive(client, promised, id, inc);
      if !closed {
        TiedAside(streams, client, client.Give(id, inc), promised, promised, id);
      }
      client := client.Give(id, inc);
    }

    /** SETTINGS_INITIAL_WINDOW_SIZE in h2_on_settings: every stream's window moves by the
        change, the SETTINGS is acknowledged, and what that lets go is sent. */
    method OnInitialWindow(v: nat)
      requires Valid() && !closed
      modifies this`client, this`staged, this`sendWin, this`streams, this`n, this`withheld, this`resets
      modifies this`updates
      modifies this`pumpNext, this`closed, this`peerWindow
      ensures Valid() && promised == old(promised) && (closed <==> v > 0x7fffffff || old(Overflows(v - peerWindow)))
      ensures !closed ==> peerWindow == v && SameCredit(old(client).SetInitial(v), client)
      ensures !closed ==>
                Pumped(AllShifted(old(streams), v - old(peerWindow)), old(client).SetInitial(v), streams, client)
      ensures !closed ==> staged >= 32768 || sendWin <= 0 || AllWait()
    {
      hide Holding, SameCredit, AllWait, Client.SetInitial, Pumped;
      if v > MAX_WINDOW {
        FailNow();
        return;
      }
      Shift(v);
      if closed {
        return;
      }
      var added, turns := Pump();
    }

    /** Moved so far, some stream's window would pass the maximum. */
    ghost predicate Overflows(delta: int)
      reads this
    {
      exists i :: 0 <= i < |streams| && streams[i].id != 0 && streams[i].sendWin + delta > 0x7fffffff
    }

    /** The windows move; one past the maximum ends the connection. */
    method Shift(v: nat)
      requires Valid() && !closed
      modifies this`streams, this`peerWindow, this`client, this`closed, this`staged
      ensures closed <==> old(Overflows(v - peerWindow))
      ensures Valid() && (!closed ==> peerWindow == v && client == old(client).SetInitial(v))
      ensures !closed ==> streams == AllShifted(old(streams), v - old(peerWindow))
    {
      hide Total, Oldest, Excess, Budgeted, Proper, Covered, Kept, Opened, AllTied, Busies, Shifted;
      ghost var was, c := streams, client;
      KeptInitial(c, promised, v);
      InitialAside(c, lastId, v);
      client := client.SetInitial(v);
      var moved := MoveWindows(v - peerWindow);
      peerWindow := v;
      WindowedKeeps(was, streams, lastId, l, withheld);
      if !moved {
        Fail();
        return;
      }
      ShiftTied(was, streams, c, promised, v);
      TendedSame(was, streams, c, 0);
      staged := staged + 9;
    }

    /** The loop over the streams, stopped by a window past the maximum. */
    method MoveWindows(delta: int) returns (moved: bool)
      modifies this`streams
      ensures Windowed(old(streams), streams) && |streams| == old(|streams|)
      ensures moved <==> !old(Overflows(delta))
      ensures moved ==> forall j :: 0 <= j < |streams| ==> streams[j] == Shifted(old(streams)[j], delta)
    {
      hide Shifted, Windowed;
      ghost var was := streams;
      for i := 0 to |streams|
        invariant |streams| == |was|
        invariant forall j :: 0 <= j < i ==> was[j].id == 0 || was[j].sendWin + delta <= 0x7fffffff
        invariant forall j :: 0 <= j < i ==> streams[j] == Shifted(was[j], delta)
        invariant forall j :: i <= j < |was| ==> streams[j] == was[j]
      {
        var s := streams[i];
        ShiftedIs(s, delta);
        if s.id != 0 {
          streams := streams[i := s.(sendWin := s.sendWin + delta)];
          if streams[i].sendWin > MAX_WINDOW {
            assert was[i].id != 0 && was[i].sendWin + delta > 0x7fffffff;
            PartlyShifted(was, streams, i + 1, delta);
            return false;
          }
        }
      }
      PartlyShifted(was, streams, |was|, delta);
      return true;
    }

    /** h2_on_priority: not acted on, but a malformed one resets its stream, whatever the
        stream is. */
    method OnPriority(id: nat, length: nat, dependency: nat)
      requires Valid() && !closed
      modifies this`client, this`staged, this`streams, this`n, this`withheld, this`resets, this`closed
      modifies this`updates
      ensures Valid() && promised == old(promised) && (closed <==> id == 0)
      ensures id > 0 && (length != 5 || dependency == id) ==> client == old(client).Reset(id) && Absent(streams, id)
      ensures id == 0 || (length == 5 && dependency != id) ==> client == old(client) && streams == old(streams)
      ensures var bad := id > 0 && (length != 5 || dependency == id);
              client.stray == old(client.stray) + if bad && (id > old(lastId) || id % 2 == 0) then {id} else {}
    {
      hide Holding, Opened, Absent;
      if id == 0 {
        FailNow();
      } else if length != 5 || dependency == id {
        Strays(id);
        Reset(id);
      }
    }

    lemma NotEven(id: nat)
      requires Valid() && id > 0 && id % 2 == 0
      ensures Absent(streams, id) && !Receiving(id)
    {
      hide Total, Oldest, Excess, Kept, Budgeted, AllTied, Covered, Busies, Tended, Opened;
    }

    /** RST_STREAM goes astray on an idle stream: one above the last, or one of the even ids a
        client never opens. */
    lemma Strays(id: nat)
      requires Valid() && id > 0
      ensures client.Reset(id).stray == client.stray + if id > lastId || id % 2 == 0 then {id} else {}
    {
      hide Total, Oldest, Excess, Kept, Budgeted, AllTied, Proper, Covered, Busies, Tended, Opened;
      IdleIs(client, lastId, id);
    }

    /** A callback on stream id, from a timer, a post or h2_drain: nothing once it ended. */
    method OnStreamWrite(id: nat, written: seq<byte>, ended: bool) returns (done: bool)
      requires Valid() && id > 0
      modifies this`client, this`promised, this`staged, this`streams, this`n, this`withheld, this`resets
      modifies this`updates
      ensures Valid() && SameCredit(old(client), client) && done == (!old(closed) && old(Writing(id)))
      ensures if done then
                && id in old(promised) && promised == old(promised)[id := old(promised)[id] + written]
                && (ended ==> Sealed(id))
              else promised == old(promised) && streams == old(streams) && client == old(client)
      ensures done ==> forall i :: 0 <= i < |old(streams)| && old(streams)[i].id == id ==>
                old(streams)[i].outOff <= |old(streams)[i].out| && Took(old(streams), i, old(client), written, ended)
    {
      hide Holding, SameCredit, Proper, Sealed, Took;
      CreditSteps(client, id);
      var i := Find(streams, id);
      Slots();
      if i < |streams| {
        Alone(streams, i, lastId);
      }
      if closed || i == |streams| || !streams[i].streaming {
        return false;
      }
      WriteStream(i, written, ended);
      return true;
    }
  }

  /** A malformed PRIORITY on a stream no client opened: from a fresh connection, and below a
      stream that is open. */
  method StrayPriority() returns (c: H2Conn)
    ensures fresh(c) && c.Valid() && !c.closed && c.client.stray == {1, 2}
  {
    hide H2Conn.Holding, SameCredit, H2Conn.Fate, Client.Reset, H2Conn.AtMost;
    c := new H2Conn(0, 0);
    c.OnPriority(1, 4, 0);
    ghost var was := c.client;
    c.OnHeaders(3, true, false, Head(-1), Deferred, []);
    CreditStray(was, c.client);
    c.OnPriority(2, 4, 0);
  }

  /** DATA on an even stream. */
  method StrayData() returns (c: H2Conn)
    ensures fresh(c) && c.Valid() && !c.closed && c.client.stray == {2}
  {
    hide H2Conn.Holding, SameCredit, H2Conn.Fate, H2Conn.Taken, Client.Reset, H2Conn.Receiving;
    c := new H2Conn(0, 0);
    ghost var was := c.client;
    c.OnHeaders(3, true, false, Head(-1), Deferred, []);
    CreditStray(was, c.client);
    c.NotEven(2);
    c.OnData(2, [], false, false, Deferred, []);
  }
}
