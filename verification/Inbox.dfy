/** Posting between workers (engine/hub.v, drain_inbox in engine/worker_linux.c.v): every
    interleaving of the producers' and the worker's steps, a step being a critical
    section or a system call. */
module Inbox {

  /** A producer's post: which of its posts it is, and the boxes it is for. */
  datatype Post = Post(author: nat, number: nat, topic: bool, box: nat) {
    predicate For(i: nat) {
      topic || i == box
    }
  }

  /** A worker's inbox: the queue and flag its mutex guards, the count of its eventfd,
      whether the worker has read that and not taken the queue yet, and for the record what
      was put and taken, how often the eventfd was written and how often the queue taken. */
  datatype Box = Box(q: seq<Post>, woke: bool, efd: nat, draining: bool, put: seq<Post>, taken: seq<Post>,
                     writes: nat, takes: nat)

  /** Where a producer stands: between posts, about to look at box i, or having put into
      box i about to wake its worker. */
  datatype Producer = Idle(posts: nat) | Looking(p: Post, i: nat) | Waking(p: Post, i: nat) {
    /** How many posts it began. */
    function Began(): nat {
      if Idle? then posts else p.number + 1
    }
  }

  datatype State = State(boxes: seq<Box>, producers: seq<Producer>)

  ghost predicate Init(s: State) {
    && (forall i :: 0 <= i < |s.boxes| ==> s.boxes[i] == Box([], false, 0, false, [], [], 0, 0))
    && (forall k :: 0 <= k < |s.producers| ==> s.producers[k] == Idle(0))
  }

  /** Hub.post begins, with the read lock. */
  ghost predicate Begin(s: State, t: State, k: nat) {
    && k < |s.producers| && s.producers[k].Idle? && t.boxes == s.boxes
    && exists topic, box :: t.producers == s.producers[k := Looking(Post(k, s.producers[k].posts, topic, box), 0)]
  }

  /** A box the post is not for. */
  ghost predicate Pass(s: State, t: State, k: nat) {
    && k < |s.producers| && t.boxes == s.boxes
    && match s.producers[k]
       case Looking(p, i) => i < |s.boxes| && !p.For(i) && t.producers == s.producers[k := Looking(p, i + 1)]
       case _ => false
  }

  /** The critical section of Inbox.put. */
  ghost predicate Put(s: State, t: State, k: nat) {
    && k < |s.producers|
    && match s.producers[k]
       case Looking(p, i) =>
         && i < |s.boxes| && p.For(i)
         && var b := s.boxes[i];
            t == State(s.boxes[i := b.(q := b.q + [p], woke := true, put := b.put + [p])],
                       s.producers[k := if b.woke then Looking(p, i + 1) else Waking(p, i)])
       case _ => false
  }

  /** The write to the eventfd that follows. */
  ghost predicate Wake(s: State, t: State, k: nat) {
    && k < |s.producers|
    && match s.producers[k]
       case Waking(p, i) =>
         && i < |s.boxes|
         && var b := s.boxes[i];
            t == State(s.boxes[i := b.(efd := b.efd + 1, writes := b.writes + 1)], s.producers[k := Looking(p, i + 1)])
       case _ => false
  }

  /** Every box was looked at. */
  ghost predicate End(s: State, t: State, k: nat) {
    && k < |s.producers| && t.boxes == s.boxes
    && match s.producers[k]
       case Looking(p, i) => i >= |s.boxes| && t.producers == s.producers[k := Idle(p.number + 1)]
       case _ => false
  }

  /** drain_inbox reads the eventfd. */
  ghost predicate Read(s: State, t: State, i: nat) {
    && i < |s.boxes| && !s.boxes[i].draining && s.boxes[i].efd > 0
    && t == s.(boxes := s.boxes[i := s.boxes[i].(efd := 0, draining := true)])
  }

  /** And takes the queue. */
  ghost predicate Take(s: State, t: State, i: nat) {
    && i < |s.boxes| && s.boxes[i].draining
    && var b := s.boxes[i];
       t == s.(boxes := s.boxes[i := b.(q := [], woke := false, draining := false, taken := b.taken + b.q,
                                        takes := b.takes + 1)])
  }

  ghost predicate Step(s: State, t: State, k: nat) {
    Begin(s, t, k) || Pass(s, t, k) || Put(s, t, k) || Wake(s, t, k) || End(s, t, k) || Read(s, t, k) || Take(s, t, k)
  }

  /** A run: states each a step from the one before. */
  ghost predicate Behavior(run: seq<State>) {
    && run != [] && Init(run[0])
    && forall j :: 0 <= j < |run| - 1 ==> Moves(run[j], run[j + 1])
  }

  ghost predicate Moves(s: State, t: State) {
    exists k :: Step(s, t, k)
  }

  /** Some producer is about to wake the worker of box i. */
  ghost predicate WakePending(s: State, i: nat) {
    exists k :: 0 <= k < |s.producers| && s.producers[k].Waking? && s.producers[k].i == i
  }

  /** No lost wake-up: posts in the queue mean the worker is awake, or will be woken. */
  ghost predicate Awake(s: State, i: nat)
    requires i < |s.boxes|
  {
    var b := s.boxes[i];
    b.woke ==> b.efd > 0 || b.draining || WakePending(s, i)
  }

  /** Whether producer state c has put its post number n, for box i, into box i. */
  predicate Reached(c: Producer, n: nat, i: nat) {
    n < c.Began() && (c.Idle? || n < c.p.number || i < c.i || (c.Waking? && i == c.i))
  }

  /** Box i holds exactly the posts that reached it, each producer's in order. */
  ghost predicate Faithful(s: State, i: nat)
    requires i < |s.boxes|
  {
    var b := s.boxes[i];
    && b.put == b.taken + b.q && (b.q != [] ==> b.woke)
    && (forall x :: 0 <= x < |b.put| ==> b.put[x].For(i) && b.put[x].author < |s.producers|
                                         && Reached(s.producers[b.put[x].author], b.put[x].number, i))
    && (forall x, y :: 0 <= x < y < |b.put| && b.put[x].author == b.put[y].author ==> b.put[x].number < b.put[y].number)
  }

  /** A producer at work posts under its own name; its current post is in each box it
      passed that the post is for. */
  ghost predicate Honest(s: State, k: nat)
    requires k < |s.producers|
  {
    var c := s.producers[k];
    !c.Idle? ==> c.p.author == k && (c.Waking? ==> c.p.For(c.i) && c.i < |s.boxes|)
                 && forall i :: 0 <= i < |s.boxes| && c.p.For(i) && Reached(c, c.p.number, i) ==> c.p in s.boxes[i].put
  }

  ghost predicate Inv(s: State) {
    && (forall i :: 0 <= i < |s.boxes| ==> Awake(s, i) && Faithful(s, i))
    && (forall k :: 0 <= k < |s.producers| ==> Honest(s, k))
  }

  lemma InitInv(s: State)
    requires Init(s)
    ensures Inv(s)
  {
  }

  /** A producer moves on without touching a box: it wakes nobody it would have woken. */
  lemma AwakeMoved(s: State, t: State, k: nat, i: nat)
    requires k < |s.producers| && t.boxes == s.boxes && i < |s.boxes| && Awake(s, i) && !s.producers[k].Waking?
    requires |t.producers| == |s.producers| && forall j :: 0 <= j < |s.producers| && j != k ==>
              t.producers[j] == s.producers[j]
    ensures Awake(t, i)
  {
    if WakePending(s, i) {
      var j :| 0 <= j < |s.producers| && s.producers[j].Waking? && s.producers[j].i == i;
      assert t.producers[j].Waking? && t.producers[j].i == i;
    }
  }

  lemma BeginInv(s: State, t: State, k: nat)
    requires Inv(s) && Begin(s, t, k)
    ensures Inv(t)
  {
    forall i | 0 <= i < |t.boxes|
      ensures Awake(t, i) && Faithful(t, i)
    {
      assert Awake(s, i) && Faithful(s, i);
      AwakeMoved(s, t, k, i);
    }
    forall j | 0 <= j < |t.producers|
      ensures Honest(t, j)
    {
      assert Honest(s, j);
    }
  }

  lemma PassInv(s: State, t: State, k: nat)
    requires Inv(s) && Pass(s, t, k)
    ensures Inv(t)
  {
    forall i | 0 <= i < |t.boxes|
      ensures Awake(t, i) && Faithful(t, i)
    {
      assert Awake(s, i) && Faithful(s, i);
      AwakeMoved(s, t, k, i);
    }
    forall j | 0 <= j < |t.producers|
      ensures Honest(t, j)
    {
      assert Honest(s, j);
    }
  }

  lemma EndInv(s: State, t: State, k: nat)
    requires Inv(s) && End(s, t, k)
    ensures Inv(t)
  {
    forall i | 0 <= i < |t.boxes|
      ensures Awake(t, i) && Faithful(t, i)
    {
      assert Awake(s, i) && Faithful(s, i);
      AwakeMoved(s, t, k, i);
    }
    forall j | 0 <= j < |t.producers|
      ensures Honest(t, j)
    {
      assert Honest(s, j);
    }
  }

  lemma PutInv(s: State, t: State, k: nat)
    requires Inv(s) && Put(s, t, k)
    ensures Inv(t)
  {
    var p, at := s.producers[k].p, s.producers[k].i;
    assert Honest(s, k);
    forall i | 0 <= i < |t.boxes|
      ensures Awake(t, i) && Faithful(t, i)
    {
      assert Awake(s, i) && Faithful(s, i);
      PutAwake(s, t, k, i);
      PutFaithful(s, t, k, i);
    }
    forall j | 0 <= j < |t.producers|
      ensures Honest(t, j)
    {
      assert Honest(s, j);
      PutHonest(s, t, k, j);
    }
  }

  lemma PutAwake(s: State, t: State, k: nat, i: nat)
    requires Put(s, t, k) && i < |s.boxes| && Awake(s, i)
    ensures Awake(t, i)
  {
    var at := s.producers[k].i;
    if i == at && !s.boxes[i].woke {
      assert t.producers[k].Waking? && t.producers[k].i == i;
    } else if WakePending(s, i) {
      var j :| 0 <= j < |s.producers| && s.producers[j].Waking? && s.producers[j].i == i;
      assert t.producers[j].Waking? && t.producers[j].i == i;
    }
  }

  lemma PutFaithful(s: State, t: State, k: nat, i: nat)
    requires Put(s, t, k) && i < |s.boxes| && Faithful(s, i) && Honest(s, k)
    ensures Faithful(t, i)
  {
    hide Reached;
    var p, at := s.producers[k].p, s.producers[k].i;
    var b, c := s.boxes[i], t.boxes[i];
    forall n: nat | Reached(s.producers[k], n, i)
      ensures Reached(t.producers[k], n, i) && (i == at ==> n < p.number)
    {
      ReachedGrows(s.producers[k], t.producers[k], n, i);
    }
    ReachesNow(t.producers[k], p, at);
    if i == at {
      assert b.taken + (b.q + [p]) == (b.taken + b.q) + [p];
      assert forall x :: 0 <= x < |c.put| ==> c.put[x] == if x < |b.put| then b.put[x] else p;
    }
  }

  /** Putting into box c.i: what was reached stays so, and this post was not. */
  lemma ReachedGrows(c: Producer, d: Producer, n: nat, i: nat)
    requires c.Looking? && (d == Looking(c.p, c.i + 1) || d == Waking(c.p, c.i)) && Reached(c, n, i)
    ensures Reached(d, n, i) && (i == c.i ==> n < c.p.number)
  {
  }

  lemma ReachesNow(d: Producer, p: Post, i: nat)
    requires d == Looking(p, i + 1) || d == Waking(p, i)
    ensures Reached(d, p.number, i)
  {
  }

  lemma PutHonest(s: State, t: State, k: nat, j: nat)
    requires Put(s, t, k) && j < |s.producers| && Honest(s, j) && Honest(s, k)
    ensures Honest(t, j)
  {
    var p, at := s.producers[k].p, s.producers[k].i;
    var c := t.producers[j];
    if !c.Idle? {
      forall i | 0 <= i < |t.boxes| && c.p.For(i) && Reached(c, c.p.number, i)
        ensures c.p in t.boxes[i].put
      {
        if j == k && i == at {
          assert t.boxes[i].put[|s.boxes[i].put|] == p;
        } else {
          assert c.p in s.boxes[i].put;
        }
      }
    }
  }

  lemma WakeInv(s: State, t: State, k: nat)
    requires Inv(s) && Wake(s, t, k)
    ensures Inv(t)
  {
    var at := s.producers[k].i;
    assert Honest(s, k);
    forall i | 0 <= i < |t.boxes|
      ensures Awake(t, i) && Faithful(t, i)
    {
      assert Awake(s, i) && Faithful(s, i);
      if i != at && WakePending(s, i) {
        var j :| 0 <= j < |s.producers| && s.producers[j].Waking? && s.producers[j].i == i;
        assert t.producers[j].Waking? && t.producers[j].i == i;
      }
    }
    forall j | 0 <= j < |t.producers|
      ensures Honest(t, j)
    {
      assert Honest(s, j);
    }
  }

  lemma ReadInv(s: State, t: State, i: nat)
    requires Inv(s) && Read(s, t, i)
    ensures Inv(t)
  {
    assert Faithful(s, i);
    BoxInv(s, t, i);
  }

  lemma TakeInv(s: State, t: State, i: nat)
    requires Inv(s) && Take(s, t, i)
    ensures Inv(t)
  {
    assert Faithful(s, i);
    BoxInv(s, t, i);
  }

  /** The worker of box i moves. */
  lemma BoxInv(s: State, t: State, i: nat)
    requires Inv(s) && i < |s.boxes| && |t.boxes| == |s.boxes| && t.producers == s.producers
    requires forall j :: 0 <= j < |s.boxes| && j != i ==> t.boxes[j] == s.boxes[j]
    requires t.boxes[i].put == s.boxes[i].put && t.boxes[i].put == t.boxes[i].taken + t.boxes[i].q
    requires t.boxes[i].q != [] ==> t.boxes[i].woke
    requires t.boxes[i].woke ==> t.boxes[i].draining
    ensures Inv(t)
  {
    forall j | 0 <= j < |t.boxes|
      ensures Awake(t, j) && Faithful(t, j)
    {
      assert Awake(s, j) && Faithful(s, j);
      assert WakePending(s, j) ==> WakePending(t, j);
    }
    forall k | 0 <= k < |t.producers|
      ensures Honest(t, k)
    {
      assert Honest(s, k);
    }
  }

  lemma StepInv(s: State, t: State, k: nat)
    requires Inv(s) && Step(s, t, k)
    ensures Inv(t)
  {
    hide Inv, Begin, Pass, Put, Wake, End, Read, Take;
    if Begin(s, t, k) {
      BeginInv(s, t, k);
    } else if Pass(s, t, k) {
      PassInv(s, t, k);
    } else if Put(s, t, k) {
      PutInv(s, t, k);
    } else if Wake(s, t, k) {
      WakeInv(s, t, k);
    } else if End(s, t, k) {
      EndInv(s, t, k);
    } else if Read(s, t, k) {
      ReadInv(s, t, k);
    } else {
      TakeInv(s, t, k);
    }
  }

  /** Every state of every run keeps the invariant. */
  lemma {:induction false} AlwaysInv(run: seq<State>, j: nat)
    requires Behavior(run) && j < |run|
    ensures Inv(run[j])
  {
    hide Inv, Step;
    if j == 0 {
      InitInv(run[0]);
    } else {
      AlwaysInv(run, j - 1);
      var before := j - 1;
      assert Moves(run[before], run[before + 1]);
      var k :| Step(run[j - 1], run[j], k);
      StepInv(run[j - 1], run[j], k);
    }
  }

  /** No wake-up is ever lost: while posts wait, the eventfd is readable, a producer is
      about to write it, or the worker is about to take the queue. */
  lemma NoLostWakeup(run: seq<State>, j: nat, i: nat)
    requires Behavior(run) && j < |run| && i < |run[j].boxes| && run[j].boxes[i].q != []
    ensures run[j].boxes[i].efd > 0 || run[j].boxes[i].draining || WakePending(run[j], i)
  {
    AlwaysInv(run, j);
    assert Awake(run[j], i) && Faithful(run[j], i);
  }

  /** What a worker took, then what waits, is what was put, so each post comes once and in
      its producer's order. */
  lemma TakenOnce(run: seq<State>, j: nat, i: nat)
    requires Behavior(run) && j < |run| && i < |run[j].boxes|
    ensures var b := run[j].boxes[i];
            && b.put == b.taken + b.q
            && (forall x, y :: 0 <= x < y < |b.taken| ==> b.taken[x] != b.taken[y])
            && (forall x, y :: 0 <= x < y < |b.taken| && b.taken[x].author == b.taken[y].author ==>
                b.taken[x].number < b.taken[y].number)
  {
    AlwaysInv(run, j);
    var b := run[j].boxes[i];
    assert Faithful(run[j], i);
    assert forall x :: 0 <= x < |b.taken| ==> b.taken[x] == b.put[x];
  }

  /** A post that ended was put into every box it is for. */
  lemma PutEverywhere(s: State, t: State, k: nat, i: nat)
    requires Inv(s) && End(s, t, k) && i < |s.boxes| && s.producers[k].p.For(i)
    ensures s.producers[k].p in s.boxes[i].put && t.boxes == s.boxes
  {
    assert Honest(s, k);
    assert Reached(s.producers[k], s.producers[k].p.number, i);
  }

  /** How many producers are about to wake the worker of box i. */
  ghost function Wakers(ps: seq<Producer>, i: nat): nat {
    if ps == [] then 0 else Wakers(ps[..|ps| - 1], i) + Waker(ps[|ps| - 1], i)
  }

  ghost function Waker(c: Producer, i: nat): nat {
    if c.Waking? && c.i == i then 1 else 0
  }

  lemma {:induction false} WakersUpdate(ps: seq<Producer>, k: nat, c: Producer, i: nat)
    requires k < |ps|
    ensures Wakers(ps[k := c], i) == Wakers(ps, i) - Waker(ps[k], i) + Waker(c, i)
  {
    hide Waker;
    var n := |ps| - 1;
    var changed := ps[k := c];
    if k == n {
      assert changed[..n] == ps[..n];
    } else {
      WakersUpdate(ps[..n], k, c, i);
      assert changed[..n] == ps[..n][k := c];
    }
  }

  lemma {:induction false} NoWakers(ps: seq<Producer>, i: nat)
    requires forall k :: 0 <= k < |ps| ==> ps[k].Idle?
    ensures Wakers(ps, i) == 0
  {
    if ps != [] {
      NoWakers(ps[..|ps| - 1], i);
    }
  }

  /** A write was made or is to be made at most once for every time the queue was taken, and
      once more while the worker is awake. */
  ghost predicate Sparing(s: State, i: nat)
    requires i < |s.boxes|
  {
    var b := s.boxes[i];
    b.writes + Wakers(s.producers, i) <= b.takes + if b.woke then 1 else 0
  }

  lemma StepSparing(s: State, t: State, k: nat, i: nat)
    requires Step(s, t, k) && i < |s.boxes| && Sparing(s, i)
    ensures i < |t.boxes| && Sparing(t, i)
  {
    hide Wakers;
    if k < |s.producers| && |t.producers| == |s.producers| {
      WakersUpdate(s.producers, k, t.producers[k], i);
    }
  }

  /** One wake-up serves a batch: however many posts come, the eventfd is written at most once
      for each time the worker took its queue, and once more. */
  lemma {:induction false} FewWrites(run: seq<State>, j: nat, i: nat)
    requires Behavior(run) && j < |run| && i < |run[j].boxes|
    ensures Sparing(run[j], i)
  {
    hide Step;
    if j == 0 {
      NoWakers(run[0].producers, i);
    } else {
      var before := j - 1;
      assert Moves(run[before], run[before + 1]);
      var k :| Step(run[before], run[j], k);
      SameBoxes(run[before], run[j], k);
      FewWrites(run, before, i);
      StepSparing(run[before], run[j], k, i);
    }
  }

  lemma SameBoxes(s: State, t: State, k: nat)
    requires Step(s, t, k)
    ensures |t.boxes| == |s.boxes|
  {
  }

  /** What was put stays put. */
  lemma PutStays(s: State, t: State, k: nat, i: nat)
    requires Step(s, t, k) && i < |s.boxes|
    ensures |t.boxes| == |s.boxes| && |s.boxes[i].put| <= |t.boxes[i].put|
    ensures t.boxes[i].put[..|s.boxes[i].put|] == s.boxes[i].put
  {
  }

  lemma {:induction false} PutGrows(run: seq<State>, j: nat, m: nat, i: nat)
    requires Behavior(run) && j <= m < |run| && i < |run[j].boxes|
    ensures |run[m].boxes| == |run[j].boxes| && forall p :: p in run[j].boxes[i].put ==> p in run[m].boxes[i].put
    decreases m - j
  {
    hide Step;
    if j < m {
      var before := m - 1;
      PutGrows(run, j, before, i);
      assert Moves(run[before], run[before + 1]);
      var k :| Step(run[before], run[m], k);
      PutStays(run[before], run[m], k, i);
      var was, now := run[before].boxes[i].put, run[m].boxes[i].put;
      assert forall p :: p in was ==> p in now[..|was|];
    }
  }

  lemma {:induction false} CountOne(s: seq<Post>, p: Post)
    requires p in s && forall x, y :: 0 <= x < y < |s| ==> s[x] != s[y]
    ensures multiset(s)[p] == 1
  {
    var n := |s| - 1;
    assert s == s[..n] + [s[n]];
    if s[n] == p {
      assert p !in s[..n];
    } else {
      CountOne(s[..n], p);
    }
  }

  /** Exactly once: from the moment a post ended, in every later state of the run each box it
      is for has it once, taken or waiting. */
  lemma ExactlyOnce(run: seq<State>, j: nat, m: nat, k: nat, i: nat)
    requires Behavior(run) && j < m < |run| && End(run[j], run[j + 1], k)
    requires i < |run[j].boxes| && run[j].producers[k].p.For(i)
    ensures |run[m].boxes| == |run[j].boxes|
    ensures var b := run[m].boxes[i]; multiset(b.taken + b.q)[run[j].producers[k].p] == 1
  {
    hide Behavior, Step;
    AlwaysInv(run, j);
    AlwaysInv(run, m);
    PutEverywhere(run[j], run[j + 1], k, i);
    PutGrows(run, j, m, i);
    assert Faithful(run[m], i);
    CountOne(run[m].boxes[i].put, run[j].producers[k].p);
  }
}
