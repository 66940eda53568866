/** Request bodies on an HTTP/2 connection (h2_credit in engine/h2.v): why the windows
    handed out bound what is buffered, and why the oldest stream can always finish. */
module H2Receive {
  import opened Basics
  import opened H2Slots

  /** The window each stream starts with, the budget of the connection and the body limit. */
  datatype Limits = Limits(win: int, budget: int, maxBody: int) {
    predicate Sound() {
      1 <= win <= budget && 0 <= maxBody <= budget
    }
  }

  /** Where a stream's window may be: its first size, or one byte past what its body may still
      grow by. */
  function MostWindow(s: Slot, l: Limits): int {
    if l.maxBody + 1 - |s.body| < l.win then l.maxBody + 1 - |s.body| else l.win
  }

  /** It is there, or so near that an update can wait: less than half of the first size away,
      with the body limit far. */
  ghost predicate Topped(s: Slot, l: Limits) {
    var missing := MostWindow(s, l) - s.recvWin;
    missing <= 0 || (missing < l.win / 2 && |s.body| + l.win <= l.maxBody + 1)
  }

  /** What a stream other than the one skipped may hold past its first window. */
  function Extra(s: Slot, win: int, skip: nat): (x: int)
    ensures x >= 0
  {
    if s.receiving && s.id != skip && |s.body| + s.recvWin > win then |s.body| + s.recvWin - win else 0
  }

  function Excess(ss: seq<Slot>, win: int, skip: nat): (x: int)
    ensures x >= 0
  {
    if ss == [] then 0 else Excess(ss[..|ss| - 1], win, skip) + Extra(ss[|ss| - 1], win, skip)
  }

  lemma {:induction false} ExcessUpdate(ss: seq<Slot>, i: nat, s: Slot, win: int, skip: nat)
    requires i < |ss|
    ensures Excess(ss[i := s], win, skip) == Excess(ss, win, skip) - Extra(ss[i], win, skip) + Extra(s, win, skip)
  {
    hide Extra;
    var n := |ss| - 1;
    var changed := ss[i := s];
    if i == n {
      assert changed[..n] == ss[..n];
    } else {
      ExcessUpdate(ss[..n], i, s, win, skip);
      assert changed[..n] == ss[..n][i := s];
    }
  }

  /** Skipping a stream that is not receiving skips nothing. */
  lemma {:induction false} ExcessSkip(ss: seq<Slot>, win: int, skip: nat, none: nat)
    requires forall i :: 0 <= i < |ss| && ss[i].receiving ==> ss[i].id != none
    ensures Excess(ss, win, skip) <= Excess(ss, win, none)
  {
    if ss != [] {
      ExcessSkip(ss[..|ss| - 1], win, skip, none);
    }
  }

  /** The first windows of so many streams. */
  function FirstWindows(bodies: int, win: int): int {
    bodies * win
  }

  /** Windows within limits and bodies within the body limit. */
  ghost predicate Bounded(ss: seq<Slot>, l: Limits) {
    forall i :: 0 <= i < |ss| && ss[i].receiving ==> 0 <= ss[i].recvWin <= l.win && |ss[i].body| <= l.maxBody
  }

  /** A closed window is a withheld one, and never the oldest stream's. */
  ghost predicate Covered(ss: seq<Slot>, withheld: bool) {
    forall i :: 0 <= i < |ss| && ss[i].receiving ==> ss[i].recvWin >= 1 || (withheld && ss[i].id != Oldest(ss))
  }

  /** The same, but perhaps for slot k. */
  ghost predicate CoveredBut(ss: seq<Slot>, k: nat, withheld: bool) {
    forall i :: 0 <= i < |ss| && i != k && ss[i].receiving ==>
        ss[i].recvWin >= 1 || (withheld && ss[i].id != Oldest(ss))
  }

  ghost predicate Budgeted(ss: seq<Slot>, l: Limits) {
    && l.Sound() && Bounded(ss, l) && Excess(ss, l.win, Oldest(ss)) <= l.budget
    && FirstWindows(Total(ss).bodies, l.win) <= l.budget
  }

  /** At most a first window each, so no more excess than is buffered. */
  lemma {:induction false} ExcessBuffered(ss: seq<Slot>, l: Limits, skip: nat)
    requires Bounded(ss, l)
    ensures Excess(ss, l.win, skip) <= Total(ss).buffered
  {
    if ss != [] {
      ExcessBuffered(ss[..|ss| - 1], l, skip);
    }
  }

  /** The body of the stream skipped is within the body limit, and there is one at most. */
  ghost function Skipped(ss: seq<Slot>, skip: nat, most: int): int {
    if exists i :: 0 <= i < |ss| && ss[i].id == skip then most else 0
  }

  lemma SkippedOnce(ss: seq<Slot>, skip: nat, most: int, last: nat)
    requires ss != [] && Proper(ss, last) && most >= 0
    ensures Proper(ss[..|ss| - 1], last) && Skipped(ss[..|ss| - 1], skip, most) <= Skipped(ss, skip, most)
    ensures skip != 0 && ss[|ss| - 1].id == skip ==>
              Skipped(ss[..|ss| - 1], skip, most) == 0 && Skipped(ss, skip, most) == most
  {
    var n := |ss| - 1;
    var rest := ss[..n];
    assert forall i :: 0 <= i < n ==> rest[i] == ss[i];
    if ss[n].id == skip != 0 {
      assert forall i :: 0 <= i < n ==> rest[i].id != skip;
    }
  }

  /** What is buffered: the oldest body, the excess of the others, and first windows. */
  lemma {:induction false} BufferedSplit(ss: seq<Slot>, l: Limits, skip: nat, last: nat)
    requires l.Sound() && Bounded(ss, l) && Proper(ss, last)
    ensures Total(ss).buffered <= Excess(ss, l.win, skip) + FirstWindows(Total(ss).bodies, l.win)
              + Skipped(ss, skip, l.maxBody)
  {
    hide *;
    if ss == [] {
      NoBodies(l, skip);
    } else {
      var n := |ss| - 1;
      var s, rest := ss[n], ss[..n];
      assert ss == rest + [s];
      BoundedCut(ss, l, last);
      SkippedOnce(ss, skip, l.maxBody, last);
      BufferedSplit(rest, l, skip, last);
      TotalPush(rest, s);
      ExcessPush(rest, s, l.win, skip);
      OneMore(s, l, skip, Total(rest).bodies);
      AddUp(Total(rest), Of(s));
    }
  }

  lemma AddUp(a: Counts, b: Counts)
    ensures a.Plus(b).buffered == a.buffered + b.buffered && a.Plus(b).bodies == a.bodies + b.bodies
  {
  }

  lemma NoBodies(l: Limits, skip: nat)
    requires l.Sound()
    ensures Total([]).buffered <= Excess([], l.win, skip) + FirstWindows(Total([]).bodies, l.win)
              + Skipped([], skip, l.maxBody)
  {
  }

  lemma BoundedCut(ss: seq<Slot>, l: Limits, last: nat)
    requires ss != [] && Bounded(ss, l) && Proper(ss, last) && l.Sound()
    ensures Bounded(ss[..|ss| - 1], l) && l.maxBody >= 0
    ensures var s := ss[|ss| - 1]; s.Sound() && (s.receiving ==> 0 <= s.recvWin <= l.win && |s.body| <= l.maxBody)
  {
  }

  lemma ExcessPush(ss: seq<Slot>, s: Slot, win: int, skip: nat)
    ensures Excess(ss + [s], win, skip) == Excess(ss, win, skip) + Extra(s, win, skip)
  {
    assert (ss + [s])[..|ss|] == ss;
  }

  /** One slot's body: its excess and a first window, or the stream skipped. */
  lemma OneMore(s: Slot, l: Limits, skip: nat, bodies: int)
    requires l.Sound() && s.Sound() && (s.receiving ==> 0 <= s.recvWin <= l.win && |s.body| <= l.maxBody)
    ensures Of(s).buffered <= Extra(s, l.win, skip)
              + FirstWindows(bodies + Of(s).bodies, l.win) - FirstWindows(bodies, l.win)
                              + if skip != 0 && s.id == skip then l.maxBody else 0
  {
    MulSucc(bodies, l.win);
  }

  lemma SoundAt(ss: seq<Slot>, i: nat, last: nat)
    requires Proper(ss, last) && i < |ss|
    ensures ss[i].Sound()
  {
  }

  /** A connection never holds more than three budgets of request bodies. */
  lemma BufferedBound(ss: seq<Slot>, l: Limits, last: nat)
    requires Budgeted(ss, l) && Proper(ss, last)
    ensures Total(ss).buffered <= 3 * l.budget
  {
    hide Excess, Oldest, Total;
    BufferedSplit(ss, l, Oldest(ss), last);
  }

  /** The oldest stream is told by being one, and no higher than any. */
  lemma OldestUnique(ss: seq<Slot>, id: nat)
    requires forall i :: 0 <= i < |ss| ==> ss[i].Sound()
    requires forall i :: 0 <= i < |ss| && ss[i].receiving ==> 0 < id <= ss[i].id
    requires id != 0 ==> exists i :: 0 <= i < |ss| && ss[i].receiving && ss[i].id == id
    ensures Oldest(ss) == id
  {
    hide Oldest;
    OldestIs(ss);
  }

  /** Slots that are not receiving do not matter. */
  lemma Aside(ss: seq<Slot>, i: nat, s: Slot, l: Limits, withheld: bool, last: nat)
    requires i < |ss| && Proper(ss, last) && s.Sound() && !ss[i].receiving && !s.receiving
    ensures Oldest(ss[i := s]) == Oldest(ss)
    ensures Budgeted(ss, l) ==> Budgeted(ss[i := s], l)
    ensures CoveredBut(ss, i, withheld) ==> Covered(ss[i := s], withheld)
    ensures Covered(ss, withheld) ==> Covered(ss[i := s], withheld)
  {
    hide Excess, Oldest, Total;
    var more := ss[i := s];
    OldestIs(ss);
    SameOldest(ss, i, s);
    ExcessUpdate(ss, i, s, l.win, Oldest(ss));
    TotalUpdate(ss, i, s);
  }

  /** As long as the receiving ids are the same, so is the oldest. */
  lemma SameOldest(ss: seq<Slot>, i: nat, s: Slot)
    requires i < |ss| && s.Sound() && (forall j :: 0 <= j < |ss| ==> ss[j].Sound())
    requires s.receiving == ss[i].receiving && (s.receiving ==> s.id == ss[i].id)
    ensures Oldest(ss[i := s]) == Oldest(ss)
  {
    hide Oldest;
    var more := ss[i := s];
    OldestIs(ss);
    if Oldest(ss) != 0 {
      var k :| 0 <= k < |ss| && ss[k].receiving && ss[k].id == Oldest(ss);
      assert more[k].receiving && more[k].id == Oldest(ss);
    }
    OldestUnique(more, Oldest(ss));
  }

  /** A stream stops receiving: there is no more excess, and unless a window was withheld
      every window is still open. */
  lemma Leaves(ss: seq<Slot>, i: nat, s: Slot, l: Limits, last: nat)
    requires i < |ss| && Proper(ss, last) && s.Sound() && ss[i].receiving && !s.receiving && Budgeted(ss, l)
    ensures Budgeted(ss[i := s], l)
    ensures CoveredBut(ss, i, false) ==> Covered(ss[i := s], false)
  {
    hide Excess, Oldest, Total;
    var more, old1 := ss[i := s], Oldest(ss);
    OldestIs(ss);
    OldestIs(more);
    TotalUpdate(ss, i, s);
    MulMono(Total(more).bodies, Total(ss).bodies, l.win);
    ExcessUpdate(ss, i, s, l.win, old1);
    if ss[i].id == old1 {
      ExcessSkip(more, l.win, Oldest(more), old1);
    } else {
      var k :| 0 <= k < |ss| && ss[k].receiving && ss[k].id == old1;
      assert more[k].receiving && more[k].id == old1;
      OldestUnique(more, old1);
    }
  }

  /** A stream's body grows within its window: what the others are owed is unchanged. */
  lemma Grows(ss: seq<Slot>, i: nat, s: Slot, l: Limits, last: nat)
    requires i < |ss| && Proper(ss, last) && s.Sound() && ss[i].receiving && s.receiving && s.id == ss[i].id
    requires Budgeted(ss, l)
    requires 0 <= s.recvWin <= l.win && |s.body| <= l.maxBody && |s.body| + s.recvWin <= |ss[i].body| + ss[i].recvWin
    ensures Oldest(ss[i := s]) == Oldest(ss) && Budgeted(ss[i := s], l)
  {
    hide Excess, Oldest, Total;
    SameOldest(ss, i, s);
    ExcessUpdate(ss, i, s, l.win, Oldest(ss));
    TotalUpdate(ss, i, s);
  }

  /** A window grows back to at most what it started at: only the oldest stream's while
      more than the budget is buffered. */
  lemma Credited(ss: seq<Slot>, i: nat, s: Slot, l: Limits, last: nat)
    requires i < |ss| && Proper(ss, last) && s.Sound() && ss[i].receiving && s.receiving && s.id == ss[i].id
    requires Budgeted(ss, l)
    requires 0 <= s.recvWin <= l.win && s.body == ss[i].body
    requires Total(ss).buffered <= l.budget || s.id == Oldest(ss)
    ensures Oldest(ss[i := s]) == Oldest(ss) && Budgeted(ss[i := s], l)
  {
    hide Excess, Oldest, Total;
    SameOldest(ss, i, s);
    ExcessUpdate(ss, i, s, l.win, Oldest(ss));
    TotalUpdate(ss, i, s);
    if s.id != Oldest(ss) {
      ExcessBuffered(ss[i := s], l, Oldest(ss));
    }
  }

  /** One more body, newer than the rest, while the first windows fit the budget. */
  lemma Admitted(ss: seq<Slot>, i: nat, s: Slot, l: Limits, withheld: bool, last: nat)
    requires i < |ss| && Proper(ss, last) && s.Sound() && !ss[i].receiving && s.receiving && Budgeted(ss, l)
    requires forall j :: 0 <= j < |ss| && ss[j].receiving ==> ss[j].id < s.id
    requires s.recvWin == l.win && s.body == [] && FirstWindows(Total(ss).bodies + 1, l.win) <= l.budget
    ensures Budgeted(ss[i := s], l)
    ensures Covered(ss, withheld) ==> Covered(ss[i := s], withheld)
  {
    hide Excess, Oldest, Total;
    var more, old1 := ss[i := s], Oldest(ss);
    OldestIs(ss);
    TotalUpdate(ss, i, s);
    ExcessUpdate(ss, i, s, l.win, old1);
    if old1 == 0 {
      assert more[i].receiving && more[i].id == s.id;
      OldestUnique(more, s.id);
      ExcessUpdate(ss, i, s, l.win, s.id);
      ExcessSkip(ss, l.win, s.id, 0);
    } else {
      var k :| 0 <= k < |ss| && ss[k].receiving && ss[k].id == old1;
      assert more[k].receiving && more[k].id == old1;
      OldestUnique(more, old1);
    }
  }
}
