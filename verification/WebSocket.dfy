/** WebSocket connections (engine/ws.v; sections 5 to 8 of RFC 6455): messages from
    fragments, answers, and the closing handshake, as a machine over the byte stream and
    against what the frames alone say. */
module WebSocket {
  import opened Basics
  import opened Bits
  import opened WsFrames

  const TEXT: nat := 1
  const BINARY: nat := 2
  const CLOSE: nat := 8
  const PING: nat := 9
  const PONG: nat := 10

  /** What a handler does in a callback. */
  datatype Action = Text(data: seq<byte>) | Binary(data: seq<byte>) | Ping(data: seq<byte>) | CloseWith(code: nat)

  /** The application: its answer to a message, and what text it takes for UTF-8. */
  datatype Handler = Handler(onMessage: (bool, seq<byte>) -> seq<Action>, utf8: seq<byte> -> bool, maxMessage: nat)

  /** A connection between frames. */
  datatype State = State(frag: nat, msg: seq<byte>, closing: bool, code: nat, closed: bool)

  /** What the client or the application sees. */
  datatype Out = Delivered(binary: bool, data: seq<byte>) | Sent(op: nat, data: seq<byte>) | Closed(code: nat)

  predicate ValidCode(code: nat) {
    1000 <= code <= 1003 || 1007 <= code <= 1014 || 3000 <= code <= 4999
  }

  /** ws_fail: a Close with the code, unless one went out before. */
  function Fail(st: State, code: nat): (State, seq<Out>) {
    (st.(closing := true, code := code, closed := true), if st.closing then [] else [Closed(code)])
  }

  /** The frame a call sends. */
  function Sending(a: Action): (o: Out)
    requires !a.CloseWith?
  {
    match a
    case Text(data) => Sent(TEXT, data)
    case Binary(data) => Sent(BINARY, data)
    case Ping(data) => Sent(PING, if |data| > 125 then data[..125] else data)
  }

  /** Sends are dropped once a Close is out; one of the application's own is remembered as
      1000 whatever its code. */
  function Act(st: State, actions: seq<Action>): (State, seq<Out>) {
    if actions == [] || st.closing then (st, [])
    else if actions[0].CloseWith? then (st.(closing := true, code := 1000), [Closed(actions[0].code)])
    else var (next, more) := Act(st, actions[1..]); (next, [Sending(actions[0])] + more)
  }

  /** ws_deliver. */
  function Deliver(h: Handler, st: State, kind: nat, data: seq<byte>): (State, seq<Out>) {
    if kind == TEXT && !h.utf8(data) then Fail(st, 1007)
    else if st.closing then (st, [])
    else
      var (next, outs) := Act(st, h.onMessage(kind == BINARY, data));
      (next, [Delivered(kind == BINARY, data)] + outs)
  }

  /** ws_peer_close. */
  function PeerClose(h: Handler, st: State, data: seq<byte>): (State, seq<Out>) {
    var code := if |data| >= 2 then data[0] as int * 256 + data[1] else 1005;
    if |data| == 1 || (|data| >= 2 && !ValidCode(code)) then Fail(st, 1002)
    else if |data| > 2 && !h.utf8(data[2..]) then Fail(st, 1007)
    else
      (st.(closing := true, code := code, closed := true),
       if st.closing then [] else [Closed(if |data| >= 2 then code else 0)])
  }

  /** One frame. */
  function Handle(h: Handler, st: State, f: Frame): (r: (State, seq<Out>)) {
    if f.op == TEXT || f.op == BINARY then
      if st.frag != 0 then Fail(st, 1002)
      else if f.fin then Deliver(h, st, f.op, f.payload)
      else (st.(frag := f.op, msg := f.payload), [])
    else if f.op == 0 then
      if st.frag == 0 then Fail(st, 1002)
      else
        var msg := st.msg + f.payload;
        if f.fin then var (next, outs) := Deliver(h, st.(frag := 0, msg := msg), st.frag, msg); (next.(msg := []), outs)
        else (st.(msg := msg), [])
    else if f.op == PING then (st, if st.closing then [] else [Sent(PONG, f.payload)])
    else if f.op == CLOSE then PeerClose(h, st, f.payload)
    else (st, [])
  }

  /** Everything a byte stream leads to: the state it leaves, what it brought out, and the
      bytes of an unfinished frame. */
  function Run(h: Handler, st: State, s: seq<byte>): (r: (State, seq<Out>, seq<byte>))
    decreases |s|
  {
    if st.closed then (st, [], [])
    else
      match NextFrame(s, h.maxMessage, |st.msg|)
      case Partial => (st, [], s)
      case Invalid(code) => var (next, outs) := Fail(st, code); (next, outs, [])
      case Whole(f, size) =>
        var (next, outs) := Handle(h, st, f);
        var (last, more, rest) := Run(h, next, s[size..]);
        (last, outs + more, rest)
  }

  /** Bytes in two parts are the bytes at once: where reads end does not matter. */
  lemma {:induction false} RunTwice(h: Handler, st: State, s: seq<byte>, t: seq<byte>)
    ensures var (mid, outs, rest) := Run(h, st, s);
            var (last, more, left) := Run(h, mid, rest + t);
            Run(h, st, s + t) == (last, outs + more, left)
    decreases |s|
  {
    hide NextFrame, Handle, Fail;
    if st.closed {
      return;
    }
    FrameStable(s, s + t, h.maxMessage, |st.msg|);
    match NextFrame(s, h.maxMessage, |st.msg|)
    case Partial =>
      assert [] + Run(h, st, s + t).1 == Run(h, st, s + t).1;
    case Invalid(code) =>
      FailCloses(st, code);
      assert Fail(st, code).1 + [] == Fail(st, code).1;
    case Whole(f, size) =>
      var (next, outs) := Handle(h, st, f);
      RunTwice(h, next, s[size..], t);
      assert (s + t)[size..] == s[size..] + t;
      var (mid, more, rest) := Run(h, next, s[size..]);
      Assoc(outs, more, Run(h, mid, rest + t).1);
  }

  lemma FailCloses(st: State, code: nat)
    ensures Fail(st, code).0.closed
  {
  }

  /** At most one Close, and nothing after it. */
  ghost predicate EndsWithClose(outs: seq<Out>) {
    forall i :: 0 <= i < |outs| && outs[i].Closed? ==> i == |outs| - 1
  }

  /** A step of the machine: no output once closing, and a Close exactly when closing
      begins, last. */
  ghost predicate Proper(st: State, next: State, outs: seq<Out>) {
    && (st.closing ==> next.closing && outs == [])
    && (next.closing && !st.closing <==> outs != [] && outs[|outs| - 1].Closed?)
    && EndsWithClose(outs)
  }

  lemma {:induction false} ActProper(st: State, actions: seq<Action>)
    ensures Proper(st, Act(st, actions).0, Act(st, actions).1)
  {
    if actions != [] && !st.closing && !actions[0].CloseWith? {
      ActProper(st, actions[1..]);
      var (next, more) := Act(st, actions[1..]);
      var outs := [Sending(actions[0])] + more;
      assert forall i :: 0 < i < |outs| ==> outs[i] == more[i - 1];
    }
  }

  lemma DeliverProper(h: Handler, st: State, kind: nat, data: seq<byte>)
    ensures Proper(st, Deliver(h, st, kind, data).0, Deliver(h, st, kind, data).1)
  {
    hide Act;
    var actions := h.onMessage(kind == BINARY, data);
    ActProper(st, actions);
    var more := Act(st, actions).1;
    var outs := [Delivered(kind == BINARY, data)] + more;
    assert forall i :: 0 < i < |outs| ==> outs[i] == more[i - 1];
  }

  lemma HandleProper(h: Handler, st: State, f: Frame)
    ensures Proper(st, Handle(h, st, f).0, Handle(h, st, f).1)
  {
    hide Deliver;
    DeliverProper(h, st, f.op, f.payload);
    DeliverProper(h, st.(frag := 0, msg := st.msg + f.payload), st.frag, st.msg + f.payload);
  }

  /** Over any stream at most one Close is written, and nothing follows it. */
  lemma {:induction false} RunProper(h: Handler, st: State, s: seq<byte>)
    ensures Proper(st, Run(h, st, s).0, Run(h, st, s).1)
    decreases |s|
  {
    hide NextFrame, Handle;
    if !st.closed {
      match NextFrame(s, h.maxMessage, |st.msg|)
      case Partial =>
      case Invalid(code) =>
      case Whole(f, size) =>
        var (next, outs) := Handle(h, st, f);
        HandleProper(h, st, f);
        RunProper(h, next, s[size..]);
        Chained(st, next, Run(h, next, s[size..]).0, outs, Run(h, next, s[size..]).1);
    }
  }

  lemma Chained(a: State, b: State, c: State, x: seq<Out>, y: seq<Out>)
    requires Proper(a, b, x) && Proper(b, c, y)
    ensures Proper(a, c, x + y)
  {
    var outs := x + y;
    assert forall i :: 0 <= i < |outs| ==> outs[i] == if i < |x| then x[i] else y[i - |x|];
  }

  /** The state after some frames. */
  ghost function After(h: Handler, st: State, fs: seq<Frame>): State {
    if fs == [] then st else
      var before := After(h, st, fs[..|fs| - 1]);
      if before.closed then before else Handle(h, before, fs[|fs| - 1]).0
  }

  /** The payloads of the message the last frame belongs to, control frames aside. */
  function Joined(fs: seq<Frame>): seq<byte> {
    if fs == [] then [] else
      var f, rest := fs[|fs| - 1], fs[..|fs| - 1];
      if f.op == 1 || f.op == 2 then f.payload else if f.op == 0 then Joined(rest) + f.payload else Joined(rest)
  }

  /** The kind of the message the last frame belongs to. */
  function Kind(fs: seq<Frame>): nat {
    if fs == [] then 0 else
      var f := fs[|fs| - 1];
      if f.op == 1 || f.op == 2 then f.op else Kind(fs[..|fs| - 1])
  }

  const FRESH: State := State(0, [], false, 1006, false)

  lemma ActKeeps(st: State, actions: seq<Action>)
    ensures var next := Act(st, actions).0; next == st.(closing := next.closing, code := next.code)
  {
  }

  lemma DeliverKeeps(h: Handler, st: State, kind: nat, data: seq<byte>)
    ensures var next := Deliver(h, st, kind, data).0; next.frag == st.frag && next.msg == st.msg
  {
    hide Act;
    ActKeeps(st, h.onMessage(kind == BINARY, data));
  }

  /** The parts kept so far are the fragments so far. */
  lemma {:induction false} KeepsFragments(h: Handler, fs: seq<Frame>)
    ensures var st := After(h, FRESH, fs);
            !st.closed ==> if st.frag != 0 then st.msg == Joined(fs) && st.frag == Kind(fs) else st.msg == []
  {
    hide Deliver;
    if fs != [] {
      var f, rest := fs[|fs| - 1], fs[..|fs| - 1];
      KeepsFragments(h, rest);
      var st := After(h, FRESH, rest);
      DeliverKeeps(h, st, f.op, f.payload);
      DeliverKeeps(h, st.(frag := 0, msg := st.msg + f.payload), st.frag, st.msg + f.payload);
    }
  }

  /** The message that ends with the last frame. */
  function Message(fs: seq<Frame>): Out {
    Delivered(Kind(fs) == 2, Joined(fs))
  }

  lemma NoDelivery(st: State, actions: seq<Action>)
    ensures forall i :: 0 <= i < |Act(st, actions).1| ==> !Act(st, actions).1[i].Delivered?
  {
  }

  /** A message delivered is the payloads of its frames, one after another. */
  lemma DeliversJoined(h: Handler, fs: seq<Frame>, f: Frame)
    requires !After(h, FRESH, fs).closed
    ensures var outs := Handle(h, After(h, FRESH, fs), f).1;
            forall i :: 0 <= i < |outs| && outs[i].Delivered? ==> i == 0 && outs[i] == Message(fs + [f])
  {
    hide Act;
    KeepsFragments(h, fs);
    assert (fs + [f])[..|fs|] == fs;
    var st := After(h, FRESH, fs);
    NoDelivery(st, h.onMessage(f.op == BINARY, f.payload));
    var msg := st.msg + f.payload;
    NoDelivery(st.(frag := 0, msg := msg), h.onMessage(st.frag == BINARY, msg));
  }

  /** The frames a run over bytes handles. */
  ghost function Handled(h: Handler, st: State, s: seq<byte>): seq<Frame>
    decreases |s|
  {
    if st.closed then [] else
      match NextFrame(s, h.maxMessage, |st.msg|)
      case Partial => []
      case Invalid(_) => []
      case Whole(f, size) => [f] + Handled(h, Handle(h, st, f).0, s[size..])
  }

  /** Every delivery is the message that ends with one of the frames. */
  ghost predicate AllMessages(outs: seq<Out>, fs: seq<Frame>) {
    forall i :: 0 <= i < |outs| && outs[i].Delivered? ==> IsMessage(outs[i], fs)
  }

  ghost predicate IsMessage(o: Out, fs: seq<Frame>) {
    exists k :: 0 < k <= |fs| && o == Message(fs[..k])
  }

  /** Over any bytes, a message delivered is the unmasked payloads of its frames, one after
      another, and of the kind its first says. */
  lemma {:induction false} DeliversMessages(h: Handler, fs: seq<Frame>, s: seq<byte>)
    ensures var st := After(h, FRESH, fs); AllMessages(Run(h, st, s).1, fs + Handled(h, st, s))
    decreases |s|
  {
    hide NextFrame, Handle, Message, IsMessage;
    var st := After(h, FRESH, fs);
    if !st.closed {
      match NextFrame(s, h.maxMessage, |st.msg|)
      case Partial =>
      case Invalid(code) =>
      case Whole(f, size) =>
        var (next, outs) := Handle(h, st, f);
        assert (fs + [f])[..|fs|] == fs;
        DeliversJoined(h, fs, f);
        DeliversMessages(h, fs + [f], s[size..]);
        var all := fs + Handled(h, st, s);
        assert all == (fs + [f]) + Handled(h, next, s[size..]);
        forall i | 0 <= i < |outs| && outs[i].Delivered?
          ensures IsMessage(outs[i], all)
        {
          EndsHere(outs[i], all, fs + [f]);
        }
        BothMessages(outs, Run(h, next, s[size..]).1, all);
    }
  }

  lemma EndsHere(o: Out, all: seq<Frame>, fs: seq<Frame>)
    requires fs != [] && Prefix(fs, all) && o == Message(fs)
    ensures IsMessage(o, all)
  {
    assert all[..|fs|] == fs;
  }

  lemma BothMessages(a: seq<Out>, b: seq<Out>, fs: seq<Frame>)
    requires AllMessages(a, fs) && AllMessages(b, fs)
    ensures AllMessages(a + b, fs)
  {
    hide IsMessage;
    forall i | 0 <= i < |a + b| && (a + b)[i].Delivered?
      ensures IsMessage((a + b)[i], fs)
    {
      if i < |a| {
        assert (a + b)[i] == a[i];
      } else {
        assert (a + b)[i] == b[i - |a|];
      }
    }
  }

  /** The deliveries among what came out, in order. */
  function Deliveries(outs: seq<Out>): seq<Out> {
    if outs == [] then [] else
      Deliveries(outs[..|outs| - 1]) + if outs[|outs| - 1].Delivered? then [outs[|outs| - 1]] else []
  }

  lemma {:induction false} DeliveriesConcat(a: seq<Out>, b: seq<Out>)
    ensures Deliveries(a + b) == Deliveries(a) + Deliveries(b)
  {
    if b == [] {
      assert a + b == a;
    } else {
      var n := |b| - 1;
      assert (a + b)[..|a + b| - 1] == a + b[..n] && (a + b)[|a + b| - 1] == b[n];
      DeliveriesConcat(a, b[..n]);
    }
  }

  lemma {:induction false} NoneDelivered(outs: seq<Out>)
    requires forall i :: 0 <= i < |outs| ==> !outs[i].Delivered?
    ensures Deliveries(outs) == []
  {
    if outs != [] {
      NoneDelivered(outs[..|outs| - 1]);
    }
  }

  /** The last frame of a message. */
  predicate Completes(f: Frame) {
    f.fin && f.op <= 2
  }

  /** The messages some frames complete, in order. */
  function Completed(fs: seq<Frame>): seq<Out> {
    if fs == [] then [] else
      Completed(fs[..|fs| - 1]) + if Completes(fs[|fs| - 1]) then [Message(fs)] else []
  }

  /** Those of them due to the application: completed before the connection was closing,
      by a frame that did not end it. */
  ghost function Due(h: Handler, fs: seq<Frame>): seq<Out> {
    if fs == [] then [] else
      var before := fs[..|fs| - 1];
      Due(h, before)
      + if Completes(fs[|fs| - 1]) && !After(h, FRESH, before).closing && !After(h, FRESH, fs).closed then [Message(fs)]
        else []
  }

  /** What a frame brings. */
  lemma HandleDelivers(h: Handler, st: State, f: Frame)
    requires !st.closed
    ensures var (next, outs) := Handle(h, st, f);
            var (kind, data) := if f.op == 0 then (st.frag, st.msg + f.payload) else (f.op, f.payload);
            && (Deliveries(outs)
                == if Completes(f) && !st.closing && !next.closed then [Delivered(kind == BINARY, data)] else [])
            && (Completes(f) && !next.closed ==> f.op != 0 || st.frag != 0)
  {
    hide Deliver, Deliveries;
    OneOut(f.payload);
    if f.op == 0 {
      var msg := st.msg + f.payload;
      DeliveredOnce(h, st.(frag := 0, msg := msg), st.frag, msg);
    } else {
      DeliveredOnce(h, st, f.op, f.payload);
    }
  }

  /** A frame brings the message it completes, if that is due, and no other. */
  lemma DeliversDue(h: Handler, fs: seq<Frame>, f: Frame)
    requires !After(h, FRESH, fs).closed
    ensures Due(h, fs + [f]) == Due(h, fs) + Deliveries(Handle(h, After(h, FRESH, fs), f).1)
  {
    hide Handle, Deliveries, After;
    KeepsFragments(h, fs);
    AfterPush(h, fs, f);
    assert (fs + [f])[..|fs|] == fs;
    HandleDelivers(h, After(h, FRESH, fs), f);
  }

  lemma OneOut(data: seq<byte>)
    ensures Deliveries([]) == [] && Deliveries([Sent(PONG, data)]) == [] && forall c :: Deliveries([Closed(c)]) == []
  {
    assert [Sent(PONG, data)][..0] == [];
    forall c
      ensures Deliveries([Closed(c)]) == []
    {
      assert [Closed(c)][..0] == [];
    }
  }

  lemma DeliveredOnce(h: Handler, st: State, kind: nat, data: seq<byte>)
    ensures var (next, outs) := Deliver(h, st, kind, data);
            Deliveries(outs)
            == if st.closing || (kind == TEXT && !h.utf8(data)) then [] else [Delivered(kind == BINARY, data)]
    ensures Deliver(h, st, kind, data).0.closed == (st.closed || (kind == TEXT && !h.utf8(data)))
  {
    hide Act;
    var actions := h.onMessage(kind == BINARY, data);
    OneOut(data);
    NoDelivery(st, actions);
    NoneDelivered(Act(st, actions).1);
    ActKeeps(st, actions);
    var first := [Delivered(kind == BINARY, data)];
    assert first[..0] == [];
    DeliveriesConcat(first, Act(st, actions).1);
  }

  /** Over any bytes, the application gets exactly the messages due to it, each once and in
      order. */
  lemma {:induction false} DeliversAll(h: Handler, fs: seq<Frame>, s: seq<byte>)
    ensures var st := After(h, FRESH, fs);
            && Due(h, fs + Handled(h, st, s)) == Due(h, fs) + Deliveries(Run(h, st, s).1)
            && (After(h, FRESH, fs + Handled(h, st, s)).closing ==> Run(h, st, s).0.closing)
    decreases |s|
  {
    hide NextFrame, Handle, Due, Fail, Run, Handled, After, Deliveries;
    var st := After(h, FRESH, fs);
    assert fs + [] == fs && Due(h, fs) + [] == Due(h, fs);
    OneOut([]);
    RunStep(h, st, s);
    var p := NextFrame(s, h.maxMessage, |st.msg|);
    if !st.closed && p.Invalid? {
      FailDelivers(st, p.code);
    } else if !st.closed && p.Whole? {
      var (next, outs) := Handle(h, st, p.frame);
      AfterPush(h, fs, p.frame);
      DeliversDue(h, fs, p.frame);
      var tail := s[p.size..];
      DeliversAll(h, fs + [p.frame], tail);
      Assoc(fs, [p.frame], Handled(h, next, tail));
      DeliveriesConcat(outs, Run(h, next, tail).1);
      Assoc(Due(h, fs), Deliveries(outs), Deliveries(Run(h, next, tail).1));
    }
  }

  lemma AfterPush(h: Handler, fs: seq<Frame>, f: Frame)
    requires !After(h, FRESH, fs).closed
    ensures After(h, FRESH, fs + [f]) == Handle(h, After(h, FRESH, fs), f).0
  {
    assert (fs + [f])[..|fs|] == fs;
  }

  /** The first step of a run. */
  lemma RunStep(h: Handler, st: State, s: seq<byte>)
    ensures var p := NextFrame(s, h.maxMessage, |st.msg|);
            var r := Run(h, st, s);
            if st.closed || p.Partial? then
              r.0 == st && r.1 == [] && (!st.closed ==> r.2 == s) && Handled(h, st, s) == []
            else if p.Invalid? then (r.0, r.1) == Fail(st, p.code) && Handled(h, st, s) == []
            else
              var (next, outs) := Handle(h, st, p.frame);
              var more := Run(h, next, s[p.size..]);
              && r.0 == more.0 && r.1 == outs + more.1 && r.2 == more.2
              && Handled(h, st, s) == [p.frame] + Handled(h, next, s[p.size..])
  {
    hide NextFrame, Handle, Fail;
  }

  lemma FailDelivers(st: State, code: nat)
    ensures Fail(st, code).0.closing && Deliveries(Fail(st, code).1) == []
  {
    OneOut([]);
  }

  /** A connection that is over was closing. */
  lemma {:induction false} OverIsClosing(h: Handler, fs: seq<Frame>)
    ensures After(h, FRESH, fs).closed ==> After(h, FRESH, fs).closing
  {
    hide Deliver;
    if fs != [] {
      var f, rest := fs[|fs| - 1], fs[..|fs| - 1];
      OverIsClosing(h, rest);
      var st := After(h, FRESH, rest);
      if st.closed {
        return;
      }
      DeliverOver(h, st, f.op, f.payload);
      DeliverOver(h, st.(frag := 0, msg := st.msg + f.payload), st.frag, st.msg + f.payload);
    }
  }

  lemma DeliverOver(h: Handler, st: State, kind: nat, data: seq<byte>)
    requires !st.closed
    ensures Deliver(h, st, kind, data).0.closed ==> Deliver(h, st, kind, data).0.closing
  {
    hide Act;
    ActKeeps(st, h.onMessage(kind == BINARY, data));
  }

  /** As long as no Close went out or came in, everything completed is due. */
  lemma {:induction false} AllDue(h: Handler, fs: seq<Frame>)
    requires !After(h, FRESH, fs).closing
    ensures Due(h, fs) == Completed(fs)
  {
    hide Handle, Message, Completes;
    if fs != [] {
      var f, rest := fs[|fs| - 1], fs[..|fs| - 1];
      HandleProper(h, After(h, FRESH, rest), f);
      OverIsClosing(h, fs);
      AllDue(h, rest);
    }
  }

  /** And never longer than a message may be. */
  lemma {:induction false} Sized(h: Handler, st: State, s: seq<byte>)
    requires |st.msg| <= h.maxMessage
    ensures var (last, outs, _) := Run(h, st, s);
            |last.msg| <= h.maxMessage && forall i :: 0 <= i < |outs| && outs[i].Delivered? ==>
                |outs[i].data| <= h.maxMessage
    decreases |s|
  {
    hide NextFrame, Handle;
    if !st.closed {
      var p := NextFrame(s, h.maxMessage, |st.msg|);
      if p.Whole? {
        var (next, outs) := Handle(h, st, p.frame);
        HandleSized(h, st, p.frame);
        Sized(h, next, s[p.size..]);
      }
    }
  }

  lemma HandleSized(h: Handler, st: State, f: Frame)
    requires |st.msg| <= h.maxMessage
    requires f.op < 8 ==> |f.payload| + (if f.op == 0 then |st.msg| else 0) <= h.maxMessage
    ensures var (next, outs) := Handle(h, st, f);
            |next.msg| <= h.maxMessage && forall i :: 0 <= i < |outs| && outs[i].Delivered? ==>
                |outs[i].data| <= h.maxMessage
  {
    hide Act;
    var msg := st.msg + f.payload;
    NoDelivery(st, h.onMessage(f.op == BINARY, f.payload));
    NoDelivery(st.(frag := 0, msg := msg), h.onMessage(st.frag == BINARY, msg));
    ActKeeps(st, h.onMessage(f.op == BINARY, f.payload));
    ActKeeps(st.(frag := 0, msg := msg), h.onMessage(st.frag == BINARY, msg));
  }

  /** What the handler's calls send: everything up to its first Close. */
  ghost function Says(actions: seq<Action>): seq<Out> {
    if actions == [] then [] else
      match actions[0]
      case Text(data) => [Sent(1, data)] + Says(actions[1..])
      case Binary(data) => [Sent(2, data)] + Says(actions[1..])
      case Ping(data) => [Sent(9, if |data| <= 125 then data else data[..125])] + Says(actions[1..])
      case CloseWith(code) => [Closed(code)]
  }

  ghost predicate HangsUp(actions: seq<Action>) {
    exists k :: 0 <= k < |actions| && actions[k].CloseWith?
  }

  /** The last data frame was not the end of its message. */
  ghost predicate InParts(fs: seq<Frame>) {
    fs != [] && var f := fs[|fs| - 1]; if f.op <= 2 then !f.fin else InParts(fs[..|fs| - 1])
  }

  /** The code a client's Close gives (sections 5.5.1 and 7.4 of RFC 6455): 1005 when it has
      none, and for a body that must not be sent the error's. */
  ghost function CloseCode(h: Handler, body: seq<byte>): nat {
    if body == [] then 1005
    else if |body| == 1 then 1002
    else
      var code := BigEndian(body[..2]);
      if !(1000 <= code < 1015 || 3000 <= code < 5000) || code in {1004, 1005, 1006} then 1002
      else if |body| > 2 && !h.utf8(body[2..]) then 1007
      else code
  }

  /** The code a frame ends the connection with, after some others: 1002 for a fragment out of
      place (section 5.4), 1007 for a message of text that is not UTF-8 (section 8.1), and
      what a Close says. */
  ghost function EndOf(h: Handler, fs: seq<Frame>, f: Frame): Option<nat> {
    if f.op == 8 then Some(CloseCode(h, f.payload))
    else if f.op > 2 then None
    else if (f.op == 0) != InParts(fs) then Some(1002)
    else if f.fin && Kind(fs + [f]) == 1 && !h.utf8(Joined(fs + [f])) then Some(1007)
    else None
  }

  /** One of the frames ended the connection, or had the application close it. */
  ghost predicate Closing(h: Handler, fs: seq<Frame>) {
    fs != [] && var before := fs[..|fs| - 1];
                || Closing(h, before) || EndOf(h, before, fs[|fs| - 1]).Some?
                || (Completes(fs[|fs| - 1]) && HangsUp(h.onMessage(Kind(fs) == 2, Joined(fs))))
  }

  /** What a frame brings: nothing once closing; the Close that ends the connection, without a
      body in answer to one without; a message and what the handler says to it; or a pong. */
  ghost function Brings(h: Handler, fs: seq<Frame>, f: Frame): seq<Out> {
    if Closing(h, fs) then []
    else if EndOf(h, fs, f).Some? then
      [Closed(if EndOf(h, fs, f).value == 1005 then 0 else EndOf(h, fs, f).value)]
    else if Completes(f) then
      [Message(fs + [f])] + Says(h.onMessage(Kind(fs + [f]) == 2, Joined(fs + [f])))
    else if f.op == 9 then [Sent(10, f.payload)]
    else []
  }

  ghost function Outputs(h: Handler, fs: seq<Frame>): seq<Out> {
    if fs == [] then [] else
      var before := fs[..|fs| - 1];
      Outputs(h, before) + Brings(h, before, fs[|fs| - 1])
  }

  /** The bytes of the message in parts. */
  ghost function Held(fs: seq<Frame>): nat {
    if InParts(fs) then |Joined(fs)| else 0
  }

  ghost predicate Ended(h: Handler, fs: seq<Frame>) {
    fs != [] && EndOf(h, fs[..|fs| - 1], fs[|fs| - 1]).Some?
  }

  /** How many frames, an invalid one included, a run takes. */
  ghost function Steps(h: Handler, st: State, s: seq<byte>): nat
    decreases |s|
  {
    if st.closed then 0 else
      match NextFrame(s, h.maxMessage, |st.msg|)
      case Partial => 0
      case Invalid(_) => 1
      case Whole(f, size) => 1 + Steps(h, Handle(h, st, f).0, s[size..])
  }

  /** What ended the connection: its last frame, or bytes that are none. */
  ghost function EndedBy(h: Handler, fs: seq<Frame>, t: seq<byte>): Option<nat> {
    if Ended(h, fs) then EndOf(h, fs[..|fs| - 1], fs[|fs| - 1])
    else if NextFrame(t, h.maxMessage, Held(fs)).Invalid? then Some(NextFrame(t, h.maxMessage, Held(fs)).code)
    else None
  }

  /** The code the application is told: of what ended the connection, 1000 if it closed it
      itself, or else 1006. */
  ghost function CodeOf(h: Handler, fs: seq<Frame>, t: seq<byte>): nat {
    if EndedBy(h, fs, t).Some? then EndedBy(h, fs, t).value else if Closing(h, fs) then 1000 else 1006
  }

  /** The Close for bytes that are no frame. */
  ghost function LastWords(h: Handler, fs: seq<Frame>, t: seq<byte>): seq<Out> {
    if EndedBy(h, fs, t).Some? && !Closing(h, fs) then [Closed(EndedBy(h, fs, t).value)] else []
  }

  /** The bytes no frame was made of. */
  ghost function Leftover(h: Handler, st: State, s: seq<byte>): seq<byte>
    decreases |s|
  {
    if st.closed then s else
      match NextFrame(s, h.maxMessage, |st.msg|)
      case Partial => s
      case Invalid(_) => s
      case Whole(f, size) => Leftover(h, Handle(h, st, f).0, s[size..])
  }

  /** The bytes are the frames as a client sends them, and then the rest. */
  ghost predicate Written(s: seq<byte>, fs: seq<Frame>, t: seq<byte>) {
    if fs == [] then s == t
    else
      exists extra: nat, mask: seq<byte> :: Fronts(s, fs[0], extra, mask)
        && Written(s[|Encode(fs[0], extra, mask)|..], fs[1..], t)
  }

  ghost predicate Fronts(s: seq<byte>, f: Frame, extra: nat, mask: seq<byte>)
    ensures Fronts(s, f, extra, mask) ==>
              MaySend(f) && LengthForm(f, extra) && |mask| == 4 && |Encode(f, extra, mask)| <= |s|
  {
    MaySend(f) && LengthForm(f, extra) && |mask| == 4 && Prefix(Encode(f, extra, mask), s)
  }

  /** The frames handled are the ones the bytes spell. */
  lemma {:induction false} FramesWritten(h: Handler, st: State, s: seq<byte>)
    ensures Written(s, Handled(h, st, s), Leftover(h, st, s))
    decreases |s|
  {
    hide NextFrame, Handle, MaySend, LengthForm, Encode;
    if !st.closed {
      var p := NextFrame(s, h.maxMessage, |st.msg|);
      if p.Whole? {
        var extra, mask := FrameWritten(s, h.maxMessage, |st.msg|);
        var next := Handle(h, st, p.frame).0;
        FramesWritten(h, next, s[p.size..]);
        var fs := Handled(h, st, s);
        assert fs[0] == p.frame && fs[1..] == Handled(h, next, s[p.size..]);
        assert Fronts(s, p.frame, extra, mask);
      }
    }
  }

  lemma {:induction false} ActSays(st: State, actions: seq<Action>)
    requires !st.closing
    ensures var (next, outs) := Act(st, actions);
            && outs == Says(actions) && next.closed == st.closed && (next.closing <==> HangsUp(actions))
            && next.code == if next.closing then 1000 else st.code
  {
    if actions != [] {
      ActSays(st, actions[1..]);
      if actions[0].CloseWith? {
        assert HangsUp(actions);
      } else {
        assert forall k :: 0 < k < |actions| ==> actions[k] == actions[1..][k - 1];
        assert HangsUp(actions[1..]) ==> HangsUp(actions) by {
          if HangsUp(actions[1..]) {
            var k :| 0 <= k < |actions[1..]| && actions[1..][k].CloseWith?;
            assert actions[k + 1].CloseWith?;
          }
        }
      }
    }
  }

  /** A state says what the frames before it say. */
  ghost predicate Reflects(h: Handler, fs: seq<Frame>, st: State) {
    && (st.frag != 0 <==> InParts(fs))
    && (if InParts(fs) then st.msg == Joined(fs) && st.frag == Kind(fs) else st.msg == [])
    && (st.closing <==> Closing(h, fs)) && st.code == (if st.closing then 1000 else 1006)
    && !st.closed && !Ended(h, fs)
  }

  lemma DeliverMeans(h: Handler, st: State, kind: nat, data: seq<byte>)
    requires !st.closed
    ensures var (next, outs) := Deliver(h, st, kind, data);
            if kind == 1 && !h.utf8(data) then
              next.closed && next.closing && next.code == 1007 && outs == if st.closing then [] else [Closed(1007)]
            else
              && !next.closed && next.frag == st.frag && next.msg == st.msg
              && (next.closing <==> st.closing || HangsUp(h.onMessage(kind == 2, data)))
              && next.code == (if st.closing then st.code else if next.closing then 1000 else st.code)
              && outs == if st.closing then [] else [Delivered(kind == 2, data)] + Says(h.onMessage(kind == 2, data))
  {
    hide Act, Says, HangsUp;
    if !st.closing {
      ActSays(st, h.onMessage(kind == 2, data));
      ActKeeps(st, h.onMessage(kind == 2, data));
    }
  }

  lemma CloseMeans(h: Handler, st: State, body: seq<byte>)
    ensures var ((next, outs), code) := (PeerClose(h, st, body), CloseCode(h, body));
            && next.closed && next.closing && next.code == code
            && outs == if st.closing then [] else [Closed(if code == 1005 then 0 else code)]
  {
    if |body| >= 2 {
      var two := body[..2];
      assert two[..1] == [body[0]] && two[..1][..0] == [];
      assert BigEndian([body[0]]) == body[0] && BigEndian(two) == body[0] as int * 256 + body[1];
    }
  }

  /** What a frame does to such a state is what it brings. */
  lemma HandleMeans(h: Handler, fs: seq<Frame>, st: State, f: Frame)
    requires Reflects(h, fs, st)
    ensures var ((next, outs), end) := (Handle(h, st, f), EndOf(h, fs, f));
            && outs == Brings(h, fs, f) && (next.closed <==> end.Some?) && (next.closing <==> Closing(h, fs + [f]))
            && (if end.Some? then next.code == end.value else Reflects(h, fs + [f], next))
  {
    hide Deliver, PeerClose, Says, HangsUp, CloseCode;
    assert (fs + [f])[..|fs|] == fs;
    CloseMeans(h, st, f.payload);
    DeliverMeans(h, st, f.op, f.payload);
    var msg := st.msg + f.payload;
    DeliverMeans(h, st.(frag := 0, msg := msg), st.frag, msg);
  }

  /** From any state, a run says what the frames it handles say, and how it ends. */
  lemma {:induction false} RunGoes(h: Handler, fs: seq<Frame>, st: State, s: seq<byte>)
    requires Reflects(h, fs, st)
    ensures var ((last, outs, rest), all, t) := (Run(h, st, s), fs + Handled(h, st, s), Leftover(h, st, s));
            && Outputs(h, fs) + outs == Outputs(h, all) + LastWords(h, all, t)
            && (last.closed <==> EndedBy(h, all, t).Some?) && last.code == CodeOf(h, all, t)
            && (!last.closed ==> rest == t)
    decreases |s|
  {
    hide NextFrame, Handle, EndOf, Closing, Brings, Fail, Reflects, Run, Handled, Leftover, Outputs;
    RunStep(h, st, s);
    LeftStep(h, st, s);
    HeldIs(h, fs, st);
    var p := NextFrame(s, h.maxMessage, |st.msg|);
    if !p.Whole? {
      assert fs + [] == fs;
      FailMeans(st, if p.Invalid? then p.code else 0);
    } else {
      var (f, tail) := (p.frame, s[p.size..]);
      var ((next, outs), now) := (Handle(h, st, f), fs + [f]);
      HandleMeans(h, fs, st, f);
      OutputsPush(h, fs, f);
      Assoc(fs, [f], Handled(h, next, tail));
      Assoc(Outputs(h, fs), outs, Run(h, next, tail).1);
      if next.closed {
        RunStep(h, next, tail);
        LeftStep(h, next, tail);
        assert now + [] == now && now[..|fs|] == fs;
        EndCloses(h, fs, f);
      } else {
        RunGoes(h, now, next, tail);
      }
    }
  }

  lemma LeftStep(h: Handler, st: State, s: seq<byte>)
    ensures var p := NextFrame(s, h.maxMessage, |st.msg|);
            Leftover(h, st, s)
            == if st.closed || !p.Whole? then s else Leftover(h, Handle(h, st, p.frame).0, s[p.size..])
  {
    hide NextFrame, Handle;
  }

  lemma HeldIs(h: Handler, fs: seq<Frame>, st: State)
    requires Reflects(h, fs, st)
    ensures |st.msg| == Held(fs) && !st.closed && !Ended(h, fs) && (st.closing <==> Closing(h, fs))
    ensures st.code == if st.closing then 1000 else 1006
  {
    hide InParts, Closing, Ended, Joined;
  }

  lemma FailMeans(st: State, code: nat)
    ensures var (next, outs) := Fail(st, code);
            next.closed && next.code == code && outs == if st.closing then [] else [Closed(code)]
  {
  }

  lemma OutputsPush(h: Handler, fs: seq<Frame>, f: Frame)
    ensures Outputs(h, fs + [f]) == Outputs(h, fs) + Brings(h, fs, f)
  {
    hide Brings;
    assert (fs + [f])[..|fs|] == fs;
  }

  lemma EndCloses(h: Handler, fs: seq<Frame>, f: Frame)
    requires EndOf(h, fs, f).Some?
    ensures Ended(h, fs + [f]) && Closing(h, fs + [f])
  {
    hide EndOf;
    assert (fs + [f])[..|fs|] == fs;
  }

  /** What any bytes lead to is what the frames they hold say: everything that came out, how
      the connection ended, and with what code. */
  lemma RunMeans(h: Handler, s: seq<byte>)
    ensures var ((last, outs, rest), fs, t) := (Run(h, FRESH, s), Handled(h, FRESH, s), Leftover(h, FRESH, s));
            && outs == Outputs(h, fs) + LastWords(h, fs, t)
            && (last.closed <==> EndedBy(h, fs, t).Some?) && last.code == CodeOf(h, fs, t)
            && (!last.closed ==> rest == t)
  {
    hide Run, Handled, Leftover, EndedBy, CodeOf, LastWords;
    assert Reflects(h, [], FRESH);
    RunGoes(h, [], FRESH, s);
    assert [] + Handled(h, FRESH, s) == Handled(h, FRESH, s) && [] + Run(h, FRESH, s).1 == Run(h, FRESH, s).1;
  }

  /** The payloads of the pongs among what came out. */
  function Pongs(outs: seq<Out>): seq<seq<byte>> {
    if outs == [] then [] else
      var o := outs[|outs| - 1];
      Pongs(outs[..|outs| - 1]) + if o.Sent? && o.op == 10 then [o.data] else []
  }

  /** The payloads of the pings that came before the connection was closing (section 5.5.2 of
      RFC 6455). */
  ghost function PingsDue(h: Handler, fs: seq<Frame>): seq<seq<byte>> {
    if fs == [] then [] else
      var (before, f) := (fs[..|fs| - 1], fs[|fs| - 1]);
      PingsDue(h, before) + if f.op == 9 && !Closing(h, before) then [f.payload] else []
  }

  lemma {:induction false} PongsConcat(a: seq<Out>, b: seq<Out>)
    ensures Pongs(a + b) == Pongs(a) + Pongs(b)
  {
    if b == [] {
      assert a + b == a;
    } else {
      var n := |b| - 1;
      assert (a + b)[..|a + b| - 1] == a + b[..n] && (a + b)[|a + b| - 1] == b[n];
      PongsConcat(a, b[..n]);
    }
  }

  lemma OnePong(o: Out)
    ensures Pongs([o]) == if o.Sent? && o.op == 10 then [o.data] else []
  {
    assert [o][..0] == [];
  }

  lemma {:induction false} SaysNoPong(actions: seq<Action>)
    ensures Pongs(Says(actions)) == []
  {
    if actions != [] {
      SaysNoPong(actions[1..]);
      var first := Says(actions)[0];
      OnePong(first);
      PongsConcat([first], Says(actions[1..]));
    }
  }

  lemma {:induction false} PongsOf(h: Handler, fs: seq<Frame>)
    ensures Pongs(Outputs(h, fs)) == PingsDue(h, fs)
  {
    hide Closing, EndOf, Pongs, Message;
    NoPongs();
    if fs != [] {
      var (before, f) := (fs[..|fs| - 1], fs[|fs| - 1]);
      PongsOf(h, before);
      var brings := Brings(h, before, f);
      PongsConcat(Outputs(h, before), brings);
      if brings != [] {
        OnePong(brings[0]);
      }
      PingGoesOn(h, before, f);
      if !Closing(h, before) && EndOf(h, before, f).None? && Completes(f) {
        var says := Says(h.onMessage(Kind(before + [f]) == 2, Joined(before + [f])));
        SaysNoPong(h.onMessage(Kind(before + [f]) == 2, Joined(before + [f])));
        PongsConcat([Message(before + [f])], says);
        MessageNoPong(before + [f]);
      }
    }
  }

  lemma NoPongs()
    ensures Pongs([]) == []
  {
  }

  lemma MessageNoPong(fs: seq<Frame>)
    ensures Message(fs).Delivered?
  {
  }

  lemma PingGoesOn(h: Handler, fs: seq<Frame>, f: Frame)
    ensures f.op == 9 ==> EndOf(h, fs, f).None? && !Completes(f)
  {
  }

  /** Over any bytes, the pongs are the payloads of the pings, each once and in order, until
      the connection is closing. */
  lemma PongsAll(h: Handler, s: seq<byte>)
    ensures Pongs(Run(h, FRESH, s).1) == PingsDue(h, Handled(h, FRESH, s))
  {
    hide Run, Handled, Leftover, Outputs, PingsDue, EndedBy;
    var fs, t := Handled(h, FRESH, s), Leftover(h, FRESH, s);
    RunMeans(h, s);
    PongsOf(h, fs);
    PongsConcat(Outputs(h, fs), LastWords(h, fs, t));
    NoPongs();
    if LastWords(h, fs, t) != [] {
      OnePong(LastWords(h, fs, t)[0]);
    }
  }

  /** A connection's WebSocket side: what was read and not handled, and the machine. */
  class WsConn {
    const h: Handler
    var rbuf: seq<byte>
    var frag: nat
    var msg: seq<byte>
    var closing: bool
    var code: nat
    var closed: bool
    /** What was written, and the bytes it takes. */
    var outs: seq<Out>
    /** Every byte read. */
    ghost var read: seq<byte>

    ghost function Value(): State
      reads this
    {
      State(frag, msg, closing, code, closed)
    }

    /** What came out, and what the bytes still held lead to, is what all the bytes lead to. */
    ghost predicate Valid()
      reads this
    {
      var (last, more, rest) := Run(h, Value(), rbuf);
      && Run(h, FRESH, read) == (last, outs + more, rest) && |msg| <= h.maxMessage
      && (closed ==> rbuf == [])
    }

    constructor (h: Handler)
      ensures Valid() && this.h == h && read == [] && outs == [] && Value() == FRESH
    {
      this.h := h;
      rbuf, frag, msg, closing, code, closed, outs, read := [], 0, [], false, 1006, false, [], [];
      new;
      assert outs + Run(h, FRESH, []).1 == Run(h, FRESH, []).1;
    }

    /** What the application and the client have seen, whatever the reads: with what the bytes
        still held will bring, what the frames that arrived say, to the code it ended with. The
        pongs are the pings' payloads, each once and in order until the connection is closing;
        so are the messages due, all that were completed while nothing closes, and none is too
        long; at most one Close is written, the last thing. */
    lemma Promises()
      requires Valid()
      ensures var (fs, t) := (Handled(h, FRESH, read), Leftover(h, FRESH, read));
              && Written(read, fs, t) && outs + Run(h, Value(), rbuf).1 == Outputs(h, fs) + LastWords(h, fs, t)
              && Run(h, Value(), rbuf).0.code == CodeOf(h, fs, t)
              && (Run(h, Value(), rbuf).0.closed <==> EndedBy(h, fs, t).Some?)
      ensures Pongs(outs) + Pongs(Run(h, Value(), rbuf).1) == PingsDue(h, Handled(h, FRESH, read))
      ensures Deliveries(outs) + Deliveries(Run(h, Value(), rbuf).1) == Due(h, Handled(h, FRESH, read))
      ensures !Run(h, Value(), rbuf).0.closing ==> Due(h, Handled(h, FRESH, read)) == Completed(Handled(h, FRESH, read))
      ensures AllMessages(outs, Handled(h, FRESH, read)) && EndsWithClose(outs)
      ensures forall i :: 0 <= i < |outs| && outs[i].Delivered? ==> |outs[i].data| <= h.maxMessage
    {
      hide Run, Handled, IsMessage, Due, Completed, Leftover, Outputs, LastWords, CodeOf, EndedBy, PingsDue;
      hide Written;
      var (last, more, rest) := Run(h, Value(), rbuf);
      var all := outs + more;
      RunMeans(h, read);
      FramesWritten(h, FRESH, read);
      PongsAll(h, read);
      PongsConcat(outs, more);
      DeliversAll(h, [], read);
      DeliveriesConcat(outs, more);
      NothingDue(h);
      if !last.closing {
        AllDue(h, Handled(h, FRESH, read));
      }
      DeliversMessages(h, [], read);
      assert [] + Handled(h, FRESH, read) == Handled(h, FRESH, read);
      RunProper(h, FRESH, read);
      Sized(h, FRESH, read);
      assert forall i :: 0 <= i < |outs| ==> all[i] == outs[i];
    }

    /** More bytes arrive. */
    method Arrive(bytes: seq<byte>)
      requires Valid() && !closed
      modifies this`rbuf, this`read
      ensures Valid() && read == old(read) + bytes && outs == old(outs)
    {
      hide Run;
      RunTwice(h, FRESH, read, bytes);
      RunTwice(h, Value(), rbuf, bytes);
      ghost var (mid, more, rest) := Run(h, Value(), rbuf);
      Assoc(outs, more, Run(h, mid, rest + bytes).1);
      rbuf := rbuf + bytes;
      read := read + bytes;
    }

    /** ws_process, at most so many frames: it also stops when the write buffer is full. */
    method Process(most: nat)
      requires Valid()
      modifies this`rbuf, this`frag, this`msg, this`closing, this`code, this`closed, this`outs
      ensures Valid() && read == old(read)
      ensures var before := old(Steps(h, Value(), rbuf));
              Steps(h, Value(), rbuf) == if before > most then before - most else 0
      ensures most > |old(rbuf)| ==> (Value(), outs, rbuf) == Run(h, FRESH, read)
    {
      hide NextFrame, Handle;
      ghost var before := Steps(h, Value(), rbuf);
      var left := most;
      while !closed && left > 0
        invariant Valid() && read == old(read) && (most > |old(rbuf)| ==> left > |rbuf|)
        invariant 0 <= left <= most && before == Steps(h, Value(), rbuf) + (most - left)
        decreases left
      {
        var p := NextFrame(rbuf, h.maxMessage, |msg|);
        if p.Partial? {
          break;
        }
        Step(p);
        left := left - 1;
      }
      assert outs + [] == outs;
    }

    /** One frame, or the error in its place. */
    method Step(p: Parsed)
      requires Valid() && !closed && p == NextFrame(rbuf, h.maxMessage, |msg|) && !p.Partial?
      modifies this`rbuf, this`frag, this`msg, this`closing, this`code, this`closed, this`outs
      ensures Valid() && |rbuf| < old(|rbuf|) && old(Steps(h, Value(), rbuf)) == 1 + Steps(h, Value(), rbuf)
    {
      hide NextFrame, Handle, Fail;
      var st := State(frag, msg, closing, code, closed);
      var (next, more) := if p.Invalid? then Fail(st, p.code) else Handle(h, st, p.frame);
      if p.Invalid? {
        FailCloses(st, p.code);
        FailKeeps(st, p.code);
      } else {
        HandleSized(h, st, p.frame);
        Assoc(outs, more, Run(h, next, rbuf[p.size..]).1);
      }
      NotEmpty(rbuf, h.maxMessage, |msg|);
      assert (outs + more) + [] == outs + more;
      rbuf := if next.closed || p.Invalid? then [] else rbuf[p.size..];
      frag, msg, closing, code, closed := next.frag, next.msg, next.closing, next.code, next.closed;
      outs := outs + more;
    }
  }

  lemma NothingDue(h: Handler)
    ensures Due(h, []) == [] && forall s: seq<Out> :: [] + s == s
  {
  }

  lemma FailKeeps(st: State, code: nat)
    ensures Fail(st, code).0.msg == st.msg
  {
  }

  lemma NotEmpty(s: seq<byte>, maxMessage: nat, held: nat)
    ensures !NextFrame(s, maxMessage, held).Partial? ==> |s| > 0
  {
  }
}
