/** No prefix code is cheaper than merging the two lightest nodes again and again: the lower
    bound on the weighted length of any code lengths within the Kraft sum. */
module HuffBound {
  import opened Bits

  /** What nodes of those weights cost at those depths. */
  function Weighted(f: seq<nat>, ls: seq<nat>): nat
    requires |f| == |ls|
  {
    if f == [] then 0 else Weighted(f[..|f| - 1], ls[..|ls| - 1]) + f[|f| - 1] * ls[|ls| - 1]
  }

  /** How much of a tree n deep nodes at those depths take, in leaves of the whole. */
  function Room(ls: seq<nat>, n: nat): nat {
    if ls == [] then 0 else Room(ls[..|ls| - 1], n) + (if ls[|ls| - 1] <= n then Pow2(n - ls[|ls| - 1]) else 0)
  }

  ghost predicate Within(ls: seq<nat>, n: nat) {
    forall k :: 0 <= k < |ls| ==> ls[k] <= n
  }

  lemma {:induction false} WeightedConcat(f: seq<nat>, g: seq<nat>, ls: seq<nat>, ms: seq<nat>)
    requires |f| == |ls| && |g| == |ms|
    ensures Weighted(f + g, ls + ms) == Weighted(f, ls) + Weighted(g, ms)
  {
    if g == [] {
      assert f + g == f && ls + ms == ls;
    } else {
      var n := |g| - 1;
      WeightedConcat(f, g[..n], ls, ms[..n]);
      assert (f + g)[..|f + g| - 1] == f + g[..n] && (ls + ms)[..|ls + ms| - 1] == ls + ms[..n];
    }
  }

  lemma {:induction false} RoomConcat(ls: seq<nat>, ms: seq<nat>, n: nat)
    ensures Room(ls + ms, n) == Room(ls, n) + Room(ms, n)
  {
    if ms == [] {
      assert ls + ms == ls;
    } else {
      var k := |ms| - 1;
      RoomConcat(ls, ms[..k], n);
      assert (ls + ms)[..|ls + ms| - 1] == ls + ms[..k];
    }
  }

  lemma WeightedOne(x: nat, l: nat)
    ensures Weighted([x], [l]) == x * l
  {
    assert Weighted([x][..0], [l][..0]) == 0;
  }

  lemma RoomOne(l: nat, n: nat)
    requires l <= n
    ensures Room([l], n) == Pow2(n - l)
  {
    assert Room([l][..0], n) == 0;
  }

  /** A depth changed. */
  lemma WeightedSet(f: seq<nat>, ls: seq<nat>, k: nat, l: nat)
    requires |f| == |ls| && k < |f|
    ensures Weighted(f, ls[k := l]) + f[k] * ls[k] == Weighted(f, ls) + f[k] * l
  {
    hide Weighted;
    var a, b, c, d := f[..k], f[k + 1..], ls[..k], ls[k + 1..];
    assert f == a + ([f[k]] + b) && ls == c + ([ls[k]] + d) && ls[k := l] == c + ([l] + d);
    WeightedConcat(a, [f[k]] + b, c, [ls[k]] + d);
    WeightedConcat(a, [f[k]] + b, c, [l] + d);
    WeightedConcat([f[k]], b, [ls[k]], d);
    WeightedConcat([f[k]], b, [l], d);
    WeightedOne(f[k], ls[k]);
    WeightedOne(f[k], l);
  }

  lemma RoomSet(ls: seq<nat>, k: nat, l: nat, n: nat)
    requires k < |ls| && l <= n && ls[k] <= n
    ensures Room(ls[k := l], n) + Pow2(n - ls[k]) == Room(ls, n) + Pow2(n - l)
  {
    hide Room;
    var c, d := ls[..k], ls[k + 1..];
    assert ls == c + ([ls[k]] + d) && ls[k := l] == c + ([l] + d);
    RoomConcat(c, [ls[k]] + d, n);
    RoomConcat(c, [l] + d, n);
    RoomConcat([ls[k]], d, n);
    RoomConcat([l], d, n);
    RoomOne(ls[k], n);
    RoomOne(l, n);
  }

  /** Two depths exchanged so that the lighter node is the deeper one. */
  lemma Exchanged(f: seq<nat>, ls: seq<nat>, i: nat, a: nat, n: nat)
    requires |f| == |ls| && i < |f| && a < |f| && f[i] <= f[a] && ls[i] <= ls[a] && Within(ls, n)
    ensures var ms := ls[i := ls[a]][a := ls[i]];
            && Weighted(f, ms) <= Weighted(f, ls) && Room(ms, n) == Room(ls, n) && Within(ms, n)
  {
    hide Weighted, Room, Pow2;
    if i != a {
      var half := ls[i := ls[a]];
      WeightedSet(f, ls, i, ls[a]);
      WeightedSet(f, half, a, ls[i]);
      RoomSet(ls, i, ls[a], n);
      RoomSet(half, a, ls[i], n);
      Crossed(f[i], f[a], ls[i], ls[a]);
    } else {
      assert ls[i := ls[a]][a := ls[i]] == ls;
    }
  }

  lemma Crossed(x: nat, y: nat, l: nat, m: nat)
    requires x <= y && l <= m
    ensures x * m + y * l <= x * l + y * m
  {
    var d, e := y - x, m - l;
    assert y * m == x * m + d * m && y * l == x * l + d * l && d * l <= d * m;
  }

  /** Depths all below m take an even number of places at m. */
  lemma {:induction false} EvenRoom(ls: seq<nat>, m: nat, n: nat) returns (r: nat)
    requires 1 <= m <= n && forall k :: 0 <= k < |ls| ==> ls[k] < m
    ensures Room(ls, n) == r * (2 * Pow2(n - m))
  {
    hide Pow2;
    if ls == [] {
      r := 0;
    } else {
      var k := |ls| - 1;
      var before := EvenRoom(ls[..k], m, n);
      var p, u := Pow2(m - 1 - ls[k]), 2 * Pow2(n - m);
      Pow2Add(m - 1 - ls[k], n - m + 1);
      Doubles(n - m);
      r := before + p;
      Distributes(before, p, u);
    }
  }

  lemma Doubles(k: nat)
    ensures Pow2(k + 1) == 2 * Pow2(k)
  {
  }

  lemma Distributes(a: int, b: int, u: int)
    ensures (a + b) * u == a * u + b * u
  {
  }

  lemma AtLeast(d: nat, v: nat)
    requires d >= 1
    ensures d * v >= v
  {
  }

  /** A multiple of twice u that is no more than u past another is no more than it. */
  lemma Rounded(r: nat, p: nat, u: nat)
    requires u > 0 && r * (2 * u) <= p * (2 * u) + u
    ensures r * (2 * u) <= p * (2 * u)
  {
    var v := 2 * u;
    if r > p {
      var d := r - p;
      AtLeast(d, v);
      Distributes(p, d, v);
    } else {
      Distributes(r, p - r, v);
      assert (p - r) * v >= 0;
    }
  }

  /** A node alone at the greatest depth can move up. */
  lemma Shortened(ls: seq<nat>, a: nat, n: nat)
    requires a < |ls| && Within(ls, n) && ls[a] > 0 && Room(ls, n) <= Pow2(n)
    requires forall k :: 0 <= k < |ls| && k != a ==> ls[k] < ls[a]
    ensures Room(ls[a := ls[a] - 1], n) <= Pow2(n)
  {
    hide Room, Pow2;
    var m := ls[a];
    RoomSet(ls, a, m - 1, n);
    var r := EvenRoom(ls[a := m - 1], m, n);
    Pow2Add(m - 1, n - m + 1);
    Doubles(n - m);
    Rounded(r, Pow2(m - 1), Pow2(n - m));
  }

  /** Nodes i and j are no heavier than any other. */
  ghost predicate Lightest(f: seq<nat>, i: nat, j: nat) {
    && i < j < |f|
    && forall k :: 0 <= k < |f| && k != i && k != j ==> f[i] <= f[k] && f[j] <= f[k]
  }

  function SumOf(ls: seq<nat>): nat {
    if ls == [] then 0 else SumOf(ls[..|ls| - 1]) + ls[|ls| - 1]
  }

  lemma {:induction false} SumSet(ls: seq<nat>, k: nat, l: nat)
    requires k < |ls|
    ensures SumOf(ls[k := l]) == SumOf(ls) - ls[k] + l
  {
    var n := |ls| - 1;
    var ms := ls[k := l];
    if k < n {
      SumSet(ls[..n], k, l);
      assert ms[..n] == ls[..n][k := l];
    } else {
      assert ms[..n] == ls[..n];
    }
  }

  /** The first of the deepest. */
  lemma {:induction false} Deepest(ls: seq<nat>) returns (a: nat)
    requires ls != []
    ensures a < |ls| && forall k :: 0 <= k < |ls| ==> ls[k] <= ls[a]
  {
    var n := |ls| - 1;
    if n == 0 {
      a := 0;
    } else {
      a := Deepest(ls[..n]);
      if ls[n] > ls[a] {
        a := n;
      }
    }
  }

  /** Any depths can be changed, at no cost and in the same room, so that the two lightest
      nodes are equally deep. */
  lemma {:induction false} Paired(f: seq<nat>, ls: seq<nat>, i: nat, j: nat, n: nat) returns (ms: seq<nat>)
    requires |f| == |ls| && Lightest(f, i, j) && Within(ls, n) && Room(ls, n) <= Pow2(n)
    ensures |ms| == |f| && Within(ms, n) && Room(ms, n) <= Pow2(n) && Weighted(f, ms) <= Weighted(f, ls)
    ensures ms[i] == ms[j] > 0
    decreases SumOf(ls)
  {
    hide Weighted, Room, Pow2, SumOf;
    var a := Deepest(ls);
    NoneAtRoot(ls, i, j, n);
    assert ls[a] > 0;
    if b :| 0 <= b < |ls| && b != a && ls[b] == ls[a] {
      ms := BothDeep(f, ls, i, j, a, b, n);
    } else {
      var m: nat := ls[a] - 1;
      Shortened(ls, a, n);
      WeightedSet(f, ls, a, m);
      SumSet(ls, a, m);
      assert f[a] * m <= f[a] * ls[a];
      ms := Paired(f, ls[a := m], i, j, n);
    }
  }

  /** Two nodes cannot both fit with one of them at the root. */
  lemma NoneAtRoot(ls: seq<nat>, i: nat, j: nat, n: nat)
    requires i < j < |ls| && Within(ls, n) && Room(ls, n) <= Pow2(n)
    ensures ls[i] > 0 || ls[j] > 0
  {
    hide Room, Pow2;
    RoomWithout(ls, i, j, n);
  }

  /** A sequence without its place i. */
  function Less<T>(s: seq<T>, i: nat): (r: seq<T>)
    requires i < |s|
    ensures |r| == |s| - 1
  {
    s[..i] + s[i + 1..]
  }

  /** Without its places i and j. */
  function Without<T>(s: seq<T>, i: nat, j: nat): (r: seq<T>)
    requires i < j < |s|
    ensures |r| == |s| - 2
  {
    Less(Less(s, j), i)
  }

  lemma RoomLess(ls: seq<nat>, i: nat, n: nat)
    requires i < |ls| && ls[i] <= n
    ensures Room(ls, n) == Room(Less(ls, i), n) + Pow2(n - ls[i])
  {
    hide Room, Pow2;
    assert ls == ls[..i] + ([ls[i]] + ls[i + 1..]);
    RoomConcat(ls[..i], [ls[i]] + ls[i + 1..], n);
    RoomConcat([ls[i]], ls[i + 1..], n);
    RoomConcat(ls[..i], ls[i + 1..], n);
    RoomOne(ls[i], n);
  }

  lemma RoomWithout(ls: seq<nat>, i: nat, j: nat, n: nat)
    requires i < j < |ls| && Within(ls, n)
    ensures Room(ls, n) == Room(Without(ls, i, j), n) + Pow2(n - ls[i]) + Pow2(n - ls[j])
  {
    hide Room, Pow2;
    RoomLess(ls, j, n);
    RoomLess(Less(ls, j), i, n);
  }

  lemma WeightedLess(f: seq<nat>, ls: seq<nat>, i: nat)
    requires |f| == |ls| && i < |ls|
    ensures Weighted(f, ls) == Weighted(Less(f, i), Less(ls, i)) + f[i] * ls[i]
  {
    hide Weighted;
    assert ls == ls[..i] + ([ls[i]] + ls[i + 1..]) && f == f[..i] + ([f[i]] + f[i + 1..]);
    WeightedConcat(f[..i], [f[i]] + f[i + 1..], ls[..i], [ls[i]] + ls[i + 1..]);
    WeightedConcat([f[i]], f[i + 1..], [ls[i]], ls[i + 1..]);
    WeightedConcat(f[..i], f[i + 1..], ls[..i], ls[i + 1..]);
    WeightedOne(f[i], ls[i]);
  }

  lemma WeightedWithout(f: seq<nat>, ls: seq<nat>, i: nat, j: nat)
    requires |f| == |ls| && i < j < |ls|
    ensures Weighted(f, ls) == Weighted(Without(f, i, j), Without(ls, i, j)) + f[i] * ls[i] + f[j] * ls[j]
  {
    hide Weighted;
    WeightedLess(f, ls, j);
    WeightedLess(Less(f, j), Less(ls, j), i);
  }

  /** With two nodes deepest, the two lightest take their places. */
  lemma BothDeep(f: seq<nat>, ls: seq<nat>, i: nat, j: nat, a: nat, b: nat, n: nat) returns (ms: seq<nat>)
    requires |f| == |ls| && Lightest(f, i, j) && Within(ls, n) && a < |f| && b < |f| && a != b && ls[a] == ls[b] > 0
    requires forall k :: 0 <= k < |ls| ==> ls[k] <= ls[a]
    ensures |ms| == |f| && Within(ms, n) && Room(ms, n) == Room(ls, n) && Weighted(f, ms) <= Weighted(f, ls)
    ensures ms[i] == ms[j] == ls[a]
  {
    hide Weighted, Room;
    ms := ls;
    var x, y := a, b;
    if y == i || x == j {
      x, y := y, x;
    }
    // now x is i or neither, y is j or neither
    if x != i && x != j {
      Exchanged(f, ms, i, x, n);
      ms := ms[i := ms[x]][x := ms[i]];
    }
    if y != i && y != j {
      Exchanged(f, ms, j, y, n);
      ms := ms[j := ms[y]][y := ms[j]];
    }
  }

  /** Merging the two lightest: any depths cost at least their weight more than some depths
      of the nodes that are left, which take no more room. */
  lemma MergeBound(f: seq<nat>, ls: seq<nat>, i: nat, j: nat, n: nat) returns (ms: seq<nat>)
    requires |f| == |ls| && Lightest(f, i, j) && Within(ls, n) && Room(ls, n) <= Pow2(n)
    ensures |ms| == |f| - 1 && Within(ms, n) && Room(ms, n) <= Pow2(n)
    ensures Weighted(f, ls) >= f[i] + f[j] + Weighted(Without(f, i, j) + [f[i] + f[j]], ms)
  {
    hide Weighted, Room, Pow2, Without;
    var ks := Paired(f, ls, i, j, n);
    var m: nat := ks[i] - 1;
    var rest, more := Without(f, i, j), Without(ks, i, j);
    ms := more + [m];
    RoomWithout(ks, i, j, n);
    RoomConcat(more, [m], n);
    RoomOne(m, n);
    Doubles(n - ks[i]);
    WeightedWithout(f, ks, i, j);
    WeightedConcat(rest, [f[i] + f[j]], more, [m]);
    WeightedOne(f[i] + f[j], m);
    OneLess(f[i], f[j], m);
    WithinStays(ks, i, j, m, n);
  }

  lemma OneLess(x: nat, y: nat, m: nat)
    ensures x * (m + 1) + y * (m + 1) == x + y + (x + y) * m
  {
  }

  lemma WithinStays(ks: seq<nat>, i: nat, j: nat, m: nat, n: nat)
    requires i < j < |ks| && Within(ks, n) && m <= n
    ensures Within(Without(ks, i, j) + [m], n)
  {
  }
}
