/** Counting leaves per length, folding the overlong ones back and handing the lengths
    out (the second half of huff_lengths in http1/deflate.v). */
module HuffCounts {
  import opened Bits
  import opened Canonical
  import opened HuffTree

  /** The Kraft sum of counts 1..l in units of 2^-max. */
  function CountSum(c: seq<nat>, max: nat, l: nat): nat
    requires l < |c| && l <= max
  {
    if l == 0 then 0 else CountSum(c, max, l - 1) + c[l] * Pow2(max - l)
  }

  function CodesUpTo(c: seq<nat>, l: nat): nat
    requires l < |c|
  {
    if l == 0 then 0 else CodesUpTo(c, l - 1) + c[l]
  }

  /** The Kraft sum of the leaves no deeper than d, in units of 2^-d. */
  function LeafSum(ps: seq<nat>, d: nat): int
    requires Links(ps, |ps|)
  {
    if d == 0 then 0 else 2 * LeafSum(ps, d - 1) + LeavesAbove(ps, d) - LeavesAbove(ps, d + 1)
  }

  /** A full tree: leaves down to d and internal nodes at d fill the level. */
  lemma {:induction false} LeafSumFills(ps: seq<nat>, d: nat)
    requires Links(ps, |ps|)
    ensures LeafSum(ps, d) + Level(ps, d) == Pow2(d)
  {
    hide LeavesAbove, Level;
    if d == 0 {
      RootLevel(ps);
    } else {
      LeafSumFills(ps, d - 1);
      LeavesAt(ps, d);
    }
  }

  /** The counts of lengths clamped to max. */
  ghost predicate Clamped(c: seq<nat>, ps: seq<nat>, max: nat)
    requires Links(ps, |ps|)
  {
    && |c| == 16 && 1 <= max <= 15 && c[0] == 0
    && (forall l :: 1 <= l < max ==> c[l] == LeavesAbove(ps, l) - LeavesAbove(ps, l + 1))
    && c[max] == LeavesAbove(ps, max) && (forall l :: max < l < 16 ==> c[l] == 0)
  }

  lemma ClampedUnique(c: seq<nat>, d: seq<nat>, ps: seq<nat>, max: nat)
    requires Links(ps, |ps|) && Clamped(c, ps, max) && Clamped(d, ps, max)
    ensures c == d
  {
    hide LeavesAbove;
    forall l | 0 <= l < 16
      ensures c[l] == d[l]
    {
      if 1 <= l < max {
        assert c[l] == LeavesAbove(ps, l) - LeavesAbove(ps, l + 1);
      }
    }
  }

  lemma {:induction false} CountSumShort(c: seq<nat>, ps: seq<nat>, max: nat, l: nat)
    requires Links(ps, |ps|) && Clamped(c, ps, max) && l < max
    ensures CountSum(c, max, l) == Pow2(max - l) * LeafSum(ps, l)
    ensures CodesUpTo(c, l) == LeavesAbove(ps, 1) - LeavesAbove(ps, l + 1)
  {
    hide LeavesAbove;
    if l > 0 {
      CountSumShort(c, ps, max, l - 1);
      var p := Pow2(max - l);
      assert Pow2(max - (l - 1)) == 2 * p;
      RegroupHalves(p, LeafSum(ps, l - 1), c[l]);
    }
  }

  lemma RegroupHalves(p: int, x: int, n: int)
    ensures (2 * p) * x + n * p == p * (2 * x + n)
  {
    assert (2 * p) * x == p * (2 * x);
  }

  /** Clamping overfills the code by the internal nodes at max and deeper. */
  lemma ClampedSum(c: seq<nat>, ps: seq<nat>, max: nat)
    requires Links(ps, |ps|) && Clamped(c, ps, max)
    ensures CountSum(c, max, max) == Pow2(max) + Above(ps, max)
    ensures CodesUpTo(c, max) == |ps| + 2
  {
    hide Above, Level, Links, CountSum, CodesUpTo, Pow2, LeafSum;
    CountSumShort(c, ps, max, max - 1);
    LeafSumFills(ps, max - 1);
    TopCount(c, max);
    LeavesAt(ps, 0);
  }

  lemma TopCount(c: seq<nat>, max: nat)
    requires 1 <= max < |c|
    ensures CountSum(c, max, max) == CountSum(c, max, max - 1) + c[max]
    ensures CodesUpTo(c, max) == CodesUpTo(c, max - 1) + c[max]
    ensures Pow2(1) == 2 && Pow2(max) == 2 * Pow2(max - 1)
  {
    assert Pow2(1) == 2 * Pow2(0) && Pow2(0) == 1;
    assert c[max] * 1 == c[max];
  }

  lemma {:induction false} SumUpdate(c: seq<nat>, max: nat, l: nat, j: nat, delta: int)
    requires l < |c| && l <= max && 1 <= j <= l && c[j] + delta >= 0
    ensures CountSum(c[j := c[j] + delta], max, l) == CountSum(c, max, l) + delta * Pow2(max - j)
    ensures CodesUpTo(c[j := c[j] + delta], l) == CodesUpTo(c, l) + delta
    decreases l
  {
    if j < l {
      SumUpdate(c, max, l - 1, j, delta);
    } else {
      SumPrefix(c, max, l - 1, j, c[j] + delta);
      assert (c[j] + delta) * Pow2(max - j) == c[j] * Pow2(max - j) + delta * Pow2(max - j);
    }
  }

  lemma {:induction false} SumPrefix(c: seq<nat>, max: nat, l: nat, j: nat, x: nat)
    requires l < j < |c| && l <= max
    ensures CountSum(c[j := x], max, l) == CountSum(c, max, l)
    ensures CodesUpTo(c[j := x], l) == CodesUpTo(c, l)
  {
    if l > 0 {
      SumPrefix(c, max, l - 1, j, x);
    }
  }

  /** With every code at the longest length, the sum is their number. */
  lemma {:induction false} NoneShorter(c: seq<nat>, max: nat, l: nat)
    requires l < |c| && l <= max && forall j :: 1 <= j <= l ==> c[j] == 0
    ensures CountSum(c, max, l) == 0 && CodesUpTo(c, l) == 0
  {
    if l > 0 {
      NoneShorter(c, max, l - 1);
    }
  }

  lemma SomeShorter(c: seq<nat>, max: nat)
    requires 1 <= max < |c| && CountSum(c, max, max) > Pow2(max) >= CodesUpTo(c, max)
    ensures exists j :: 1 <= j < max && c[j] > 0
  {
    assert c[max] * Pow2(0) == c[max];
    if forall j :: 1 <= j < max ==> c[j] == 0 {
      NoneShorter(c, max, max - 1);
    }
  }

  /** One fold: a code of length b becomes two of b + 1, and one of the longest goes. */
  function FoldAt(c: seq<nat>, max: nat, b: nat): seq<nat>
    requires 1 <= b < max < |c| && c[b] > 0 && c[max] > 0
  {
    var c1 := c[b := c[b] - 1];
    var c2 := c1[b + 1 := c1[b + 1] + 2];
    c2[max := c2[max] - 1]
  }

  lemma FoldSum(c: seq<nat>, max: nat, b: nat)
    requires 1 <= b < max < |c| && c[b] > 0 && c[max] > 0
    ensures CountSum(FoldAt(c, max, b), max, max) == CountSum(c, max, max) - 1
    ensures CodesUpTo(FoldAt(c, max, b), max) == CodesUpTo(c, max)
  {
    hide CountSum, CodesUpTo;
    var c1 := c[b := c[b] - 1];
    var c2 := c1[b + 1 := c1[b + 1] + 2];
    SumUpdate(c, max, max, b, -1);
    SumUpdate(c1, max, max, b + 1, 2);
    SumUpdate(c2, max, max, max, -1);
    assert Pow2(max - b) == 2 * Pow2(max - (b + 1)) && Pow2(max - max) == 1;
  }

  /** The longest length in use up to l, 0 for none. */
  function TopUsed(c: seq<nat>, l: nat): (b: nat)
    requires l < |c|
    ensures b <= l && (b > 0 ==> c[b] > 0) && forall j :: b < j <= l ==> c[j] == 0
  {
    if l == 0 || c[l] > 0 then l else TopUsed(c, l - 1)
  }

  /** The counts after folding until no overlong code is left over: each time the longest
      code shorter than max is split. */
  function FoldAll(c: seq<nat>, max: nat, left: int): (r: seq<nat>)
    requires 1 <= max < |c|
    ensures |r| == |c|
    decreases left
  {
    var b := TopUsed(c, max - 1);
    if left <= 0 || b == 0 || c[max] == 0 then c else FoldAll(FoldAt(c, max, b), max, left - 2)
  }

  lemma FoldOne(c: seq<nat>, max: nat, left: int, b: nat)
    requires 1 <= b < max < |c| && b == TopUsed(c, max - 1) && c[max] > 0 && left > 0
    ensures FoldAll(c, max, left) == FoldAll(FoldAt(c, max, b), max, left - 2)
    ensures FoldAt(c, max, b)[0] == c[0] && FoldAt(c, max, b)[max] >= c[max] - 1
  {
  }

  lemma FoldDone(c: seq<nat>, max: nat, left: int)
    requires 1 <= max < |c| && left <= 0
    ensures FoldAll(c, max, left) == c
  {
  }

  method FoldStep(count: array<nat>, max: nat, b: nat)
    requires 1 <= b < max < count.Length && count[b] > 0 && count[max] > 0
    modifies count
    ensures count[..] == FoldAt(old(count[..]), max, b)
  {
    count[b] := count[b] - 1;
    count[b + 1] := count[b + 1] + 2;
    count[max] := count[max] - 1;
  }

  /** The longest length in use below max. */
  method LastShorter(count: array<nat>, max: nat) returns (b: nat)
    requires 1 <= max < count.Length && exists j :: 1 <= j < max && count[j] > 0
    ensures 1 <= b < max && count[b] > 0 && b == TopUsed(count[..], max - 1)
  {
    ghost var j :| 1 <= j < max && count[j] > 0;
    b := max - 1;
    while count[b] == 0
      invariant j <= b < max && TopUsed(count[..], b) == TopUsed(count[..], max - 1)
      decreases b
    {
      b := b - 1;
    }
  }

  /** The fold: half as many steps as there are overlong codes, rounded up, each taking
      one unit off the sum. */
  method Fold(count: array<nat>, max: nat, overflow: nat, ghost excess: nat)
    requires count.Length == 16 && 1 <= max <= 15 && count[0] == 0
    requires CountSum(count[..], max, max) == Pow2(max) + excess
    requires (overflow + 1) / 2 <= excess && overflow <= count[max] && CodesUpTo(count[..], max) <= Pow2(max)
    modifies count
    ensures count[0] == 0 && CodesUpTo(count[..], max) == old(CodesUpTo(count[..], max))
    ensures CountSum(count[..], max, max) == Pow2(max) + excess - (overflow + 1) / 2
    ensures count[..] == FoldAll(old(count[..]), max, overflow)
  {
    hide CountSum, CodesUpTo, Pow2, TopUsed, FoldAll, FoldAt;
    var left: int := overflow;
    ghost var steps := 0;
    while left > 0
      invariant left == overflow - 2 * steps && steps <= (overflow + 1) / 2
      invariant count[0] == 0 && (left > 0 ==> count[max] >= left)
      invariant CodesUpTo(count[..], max) == old(CodesUpTo(count[..], max))
      invariant CountSum(count[..], max, max) == Pow2(max) + excess - steps
      invariant FoldAll(count[..], max, left) == FoldAll(old(count[..]), max, overflow)
    {
      SomeShorter(count[..], max);
      var b := LastShorter(count, max);
      FoldSum(count[..], max, b);
      FoldOne(count[..], max, left, b);
      FoldStep(count, max, b);
      left := left - 2;
      steps := steps + 1;
    }
    FoldDone(count[..], max, left);
  }

  lemma {:induction false} KraftSet(lens: seq<nat>, s: nat, l: nat, max: nat)
    requires s < |lens| && lens[s] == 0 && 1 <= l <= max
    ensures Kraft(lens[s := l], max) == Kraft(lens, max) + Pow2(max - l)
  {
    var n := |lens| - 1;
    var now := lens[s := l];
    if s < n {
      KraftSet(lens[..n], s, l, max);
      assert now[..n] == lens[..n][s := l];
    } else {
      assert now[..n] == lens[..n];
    }
  }

  lemma {:induction false} KraftZeros(lens: seq<nat>, max: nat)
    requires forall s :: 0 <= s < |lens| ==> lens[s] == 0
    ensures Kraft(lens, max) == 0
  {
    if lens != [] {
      KraftZeros(lens[..|lens| - 1], max);
    }
  }

  function Min(x: nat, y: nat): nat {
    if x < y then x else y
  }

  /** Counts the depths, clamped to max, and how many were over it. */
  method Tally(a: array<nat>, m: nat, max: nat, ghost ps: seq<nat>) returns (count: array<nat>, overflow: nat)
    requires m <= a.Length && 1 <= max <= 15 && Links(ps, |ps|) && m == |ps| + 2
    requires forall k, d: nat :: 0 <= k < m ==> (a[k] >= d <==> k < LeavesAbove(ps, d))
    ensures fresh(count) && count.Length == 16 && Clamped(count[..], ps, max)
    ensures overflow == LeavesAbove(ps, max + 1)
  {
    hide LeavesAbove, Tallied, Clamped;
    count := new nat[16](_ => 0);
    overflow := 0;
    TallyStart(count[..], ps, max);
    for k := 0 to m
      invariant Tallied(count[..], overflow, k, ps, max)
    {
      TallyStep(count[..], overflow, k, a[k], ps, max);
      ghost var was: seq<nat> := count[..];
      var l := a[k];
      if l > max {
        overflow := overflow + 1;
        l := max;
      }
      count[l] := count[l] + 1;
      assert count[..] == was[l := was[l] + 1];
    }
    TallyEnd(count[..], overflow, ps, max);
  }

  /** The counts of the first k depths. */
  ghost predicate Tallied(c: seq<nat>, overflow: nat, k: nat, ps: seq<nat>, max: nat)
    requires Links(ps, |ps|)
  {
    && |c| == 16 && 1 <= max <= 15 && c[0] == 0 && overflow == Min(k, LeavesAbove(ps, max + 1))
    && (forall l :: 1 <= l < max ==> c[l] == Min(k, LeavesAbove(ps, l)) - Min(k, LeavesAbove(ps, l + 1)))
    && c[max] == Min(k, LeavesAbove(ps, max)) && (forall l :: max < l < 16 ==> c[l] == 0)
  }

  lemma TallyStart(c: seq<nat>, ps: seq<nat>, max: nat)
    requires Links(ps, |ps|) && |c| == 16 && 1 <= max <= 15 && forall l :: 0 <= l < 16 ==> c[l] == 0
    ensures Tallied(c, 0, 0, ps, max)
  {
    hide LeavesAbove;
  }

  lemma TallyStep(c: seq<nat>, overflow: nat, k: nat, depth: nat, ps: seq<nat>, max: nat)
    requires Links(ps, |ps|) && k < |ps| + 2 && Tallied(c, overflow, k, ps, max)
    requires forall d: nat :: depth >= d <==> k < LeavesAbove(ps, d)
    ensures var l := if depth > max then max else depth;
            l < 16 && Tallied(c[l := c[l] + 1], overflow + (if depth > max then 1 else 0), k + 1, ps, max)
  {
    hide LeavesAbove;
    AtLeastOne(ps);
    assert depth >= 1 && (depth >= max + 1 <==> k < LeavesAbove(ps, max + 1))
        && (depth >= max <==> k < LeavesAbove(ps, max));
    forall l | 1 <= l < max
      ensures LeavesAbove(ps, l + 1) <= LeavesAbove(ps, l)
    {
      LeavesAt(ps, l);
    }
  }

  lemma TallyEnd(c: seq<nat>, overflow: nat, ps: seq<nat>, max: nat)
    requires Links(ps, |ps|) && Tallied(c, overflow, |ps| + 2, ps, max)
    ensures Clamped(c, ps, max) && overflow == LeavesAbove(ps, max + 1)
  {
    hide LeavesAbove;
    forall l: nat
      ensures LeavesAbove(ps, l) <= |ps| + 2
    {
      LeavesFall(ps, 0, l);
      RootLeaves(ps);
    }
  }

  lemma RootLeaves(ps: seq<nat>)
    requires Links(ps, |ps|)
    ensures LeavesAbove(ps, 0) == |ps| + 2
  {
  }

  /** No leaf is at the root. */
  lemma AtLeastOne(ps: seq<nat>)
    requires Links(ps, |ps|)
    ensures LeavesAbove(ps, 1) == |ps| + 2
  {
    LeavesAt(ps, 0);
  }
}
