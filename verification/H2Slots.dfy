/** The stream slots of an HTTP/2 connection (H2Stream in engine/h2.v) and what the
    connection's counters count. */
module H2Slots {
  import opened Basics

  /** One slot; id 0 when it is free. file is what is left of a file answer, readable how
      much of it the file still has. */
  datatype Slot = Slot(
    id: nat, receiving: bool, sending: bool, waiting: bool, streaming: bool,
    body: seq<byte>, length: int, recvWin: int, sendWin: int,
    out: seq<byte>, outOff: nat, hasFile: bool, file: seq<byte>, readable: nat)
  {
    function HeldBack(): int {
      |out| - outOff
    }

    /** Free, or doing something: one that is sending has something to send. */
    predicate Busy() {
      && (id != 0 ==> receiving || waiting || sending || streaming)
      && (sending ==> outOff < |out| || file != [])
    }

    /** What each state excludes and needs. */
    predicate Sound() {
      && outOff <= |out|
      && (id == 0 ==> !receiving && !sending && !waiting && !streaming)
      && (receiving ==> !sending && !waiting && !streaming)
      && (waiting ==> !receiving && !sending && !streaming)
      && (file != [] ==> hasFile) && (hasFile ==> sending && !streaming)
      && (streaming && !sending ==> out == [])
    }
  }

  /** What a slot adds to each counter. */
  datatype Counts = Counts(open: int, bodies: int, buffered: int, sending: int, waiting: int, streaming: int,
      held: int, files: int) {
    function Plus(d: Counts): Counts {
      Counts(open + d.open, bodies + d.bodies, buffered + d.buffered, sending + d.sending, waiting + d.waiting,
             streaming + d.streaming, held + d.held, files + d.files)
    }

    function Minus(d: Counts): Counts {
      Counts(open - d.open, bodies - d.bodies, buffered - d.buffered, sending - d.sending, waiting - d.waiting,
             streaming - d.streaming, held - d.held, files - d.files)
    }
  }

  function Of(s: Slot): Counts {
    Counts(if s.id != 0 then 1 else 0, if s.receiving then 1 else 0, if s.receiving then |s.body| else 0,
           if s.sending then 1 else 0, if s.waiting then 1 else 0, if s.streaming then 1 else 0,
           if s.sending then s.HeldBack() else 0, if s.hasFile then 1 else 0)
  }

  const ZERO: Counts := Counts(0, 0, 0, 0, 0, 0, 0, 0)

  /** The counters recomputed from the slots. */
  function Total(ss: seq<Slot>): Counts {
    if ss == [] then ZERO else Total(ss[..|ss| - 1]).Plus(Of(ss[|ss| - 1]))
  }

  lemma {:induction false} TotalUpdate(ss: seq<Slot>, i: nat, s: Slot)
    requires i < |ss|
    ensures Total(ss[i := s]) == Total(ss).Minus(Of(ss[i])).Plus(Of(s))
  {
    hide Of;
    var n := |ss| - 1;
    var changed := ss[i := s];
    if i == n {
      assert changed[..n] == ss[..n];
    } else {
      TotalUpdate(ss[..n], i, s);
      assert changed[..n] == ss[..n][i := s];
    }
  }

  lemma TotalPush(ss: seq<Slot>, s: Slot)
    ensures Total(ss + [s]) == Total(ss).Plus(Of(s))
  {
    assert (ss + [s])[..|ss|] == ss;
  }

  lemma {:induction false} TotalBounds(ss: seq<Slot>)
    requires forall i :: 0 <= i < |ss| ==> ss[i].Sound()
    ensures var t := Total(ss);
            && 0 <= t.open <= |ss| && 0 <= t.bodies <= t.open && 0 <= t.buffered && 0 <= t.sending <= t.open
            && 0 <= t.waiting <= t.open && 0 <= t.streaming <= t.open && 0 <= t.held && 0 <= t.files <= t.sending
  {
    if ss != [] {
      TotalBounds(ss[..|ss| - 1]);
    }
  }

  /** A slot that is sending is counted. */
  lemma {:induction false} SendingCounted(ss: seq<Slot>)
    requires forall i :: 0 <= i < |ss| ==> ss[i].Sound()
    ensures Total(ss).sending >= 0 && (Total(ss).sending == 0 ==> forall i :: 0 <= i < |ss| ==> !ss[i].sending)
  {
    if ss != [] {
      var n := |ss| - 1;
      SendingCounted(ss[..n]);
      assert forall i :: 0 <= i < n ==> ss[..n][i] == ss[i];
    }
  }

  /** Every slot sound, the ids in use distinct, odd and no higher than last. */
  ghost predicate Proper(ss: seq<Slot>, last: nat) {
    && (forall i :: 0 <= i < |ss| ==> ss[i].Sound())
    && (forall i :: 0 <= i < |ss| && ss[i].id != 0 ==> ss[i].id <= last && ss[i].id % 2 == 1)
    && (forall i, j :: 0 <= i < j < |ss| && ss[i].id != 0 ==> ss[i].id != ss[j].id)
  }

  /** Stream id has no slot. */
  ghost predicate Absent(ss: seq<Slot>, id: nat) {
    forall i :: 0 <= i < |ss| ==> ss[i].id != id
  }

  /** A slot changed or freed. */
  lemma ProperUpdate(ss: seq<Slot>, i: nat, s: Slot, last: nat)
    requires Proper(ss, last) && i < |ss| && s.Sound() && (s.id == ss[i].id || s.id == 0)
    ensures Proper(ss[i := s], last)
  {
    hide Slot.Sound;
  }

  /** A slot taken for a stream that had none. */
  lemma ProperTake(ss: seq<Slot>, i: nat, s: Slot, last: nat)
    requires Proper(ss, last) && i < |ss| && s.Sound() && Absent(ss, s.id) && s.id <= last && s.id % 2 == 1
    ensures Proper(ss[i := s], last)
  {
    hide Slot.Sound;
  }

  /** find: the slot of stream id, or the number of slots. */
  method Find(ss: seq<Slot>, id: nat) returns (i: nat)
    ensures i <= |ss| && (i < |ss| ==> ss[i].id == id) && (i == |ss| ==> Absent(ss, id))
  {
    i := 0;
    while i < |ss| && ss[i].id != id
      invariant i <= |ss| && forall j :: 0 <= j < i ==> ss[j].id != id
    {
      i := i + 1;
    }
  }

  /** The lowest stream whose request is still coming, 0 when none. */
  ghost function Oldest(ss: seq<Slot>): (id: nat) {
    if ss == [] then 0 else
      var id, s := Oldest(ss[..|ss| - 1]), ss[|ss| - 1];
      if s.id != 0 && s.receiving && (id == 0 || s.id < id) then s.id else id
  }

  lemma {:induction false} OldestIs(ss: seq<Slot>)
    requires forall i :: 0 <= i < |ss| ==> ss[i].Sound()
    ensures forall i :: 0 <= i < |ss| && ss[i].receiving ==> 0 < Oldest(ss) <= ss[i].id
    ensures Oldest(ss) != 0 ==> exists i :: 0 <= i < |ss| && ss[i].receiving && ss[i].id == Oldest(ss)
  {
    if ss != [] {
      var n := |ss| - 1;
      OldestIs(ss[..n]);
      assert forall i :: 0 <= i < n ==> ss[..n][i] == ss[i];
    }
  }

  /** oldest_receiving. */
  method OldestReceiving(ss: seq<Slot>) returns (id: nat)
    ensures id == Oldest(ss)
  {
    id := 0;
    assert ss[..0] == [];
    for k := 0 to |ss|
      invariant id == Oldest(ss[..k])
    {
      assert ss[..k + 1][..k] == ss[..k];
      if ss[k].id != 0 && ss[k].receiving && (id == 0 || ss[k].id < id) {
        id := ss[k].id;
      }
    }
    assert ss[..|ss|] == ss;
  }
}
