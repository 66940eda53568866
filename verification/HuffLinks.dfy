/** The in-place construction of http1/deflate.v (Moffat and Katajainen): one array holds
    the weights, then the parent links, then the depths, and last the leaves' depths. */
module HuffLinks {
  import opened HuffTree

  /** The array in the middle of the links' construction: links below root, internal
      weights up to the next node, leaf weights from leaf on. */
  ghost predicate Shared(a: seq<nat>, w: seq<nat>, q: Queue) {
    && |a| >= |w| >= |q.ws| && q.root == |q.ps| <= |q.ws| && q.leaf <= |w|
    && (forall k :: 0 <= k < q.root ==> a[k] == q.ps[k])
    && (forall k :: q.root <= k < |q.ws| ==> a[k] == q.ws[k])
    && (forall k :: q.leaf <= k < |w| ==> a[k] == w[k])
  }

  /** The first node of a merge, its weight put at next. */
  method TakeFirst(a: array<nat>, m: nat, next: nat, ghost w: seq<nat>, ghost q: Queue, root: nat, leaf: nat)
      returns (root': nat, leaf': nat)
    requires Settled(w, q) && next == |q.ws| < |w| - 1 && Shared(a[..], w, q)
    requires root == q.root && leaf == q.leaf && m == |w|
    modifies a
    ensures HalfMerged(w, Take(w, q)) && Shared(a[..], w, Take(w, q))
    ensures root' == Take(w, q).root && leaf' == Take(w, q).leaf
    ensures a[next] == NextWeight(w, q)
  {
    FirstTake(w, q);
    assert a[..][root] == a[root];
    if leaf >= m || a[root] < a[leaf] {
      a[next] := a[root];
      a[root] := next;
      root', leaf' := root + 1, leaf;
    } else {
      a[next] := a[leaf];
      root', leaf' := root, leaf + 1;
    }
  }

  /** The second, its weight added. */
  method TakeSecond(a: array<nat>, m: nat, next: nat, ghost w: seq<nat>, ghost q: Queue, root: nat, leaf: nat)
      returns (root': nat, leaf': nat)
    requires HalfMerged(w, q) && next == |q.ws| < |w| - 1 && Shared(a[..], w, q)
    requires root == q.root && leaf == q.leaf && m == |w|
    modifies a
    ensures Shared(a[..], w, Take(w, q))
    ensures root' == Take(w, q).root && leaf' == Take(w, q).leaf
    ensures a[next] == old(a[next]) + NextWeight(w, q)
  {
    SecondTake(w, q);
    if leaf >= m || (root < next && a[root] < a[leaf]) {
      a[next] := a[next] + a[root];
      a[root] := next;
      root', leaf' := root + 1, leaf;
    } else {
      a[next] := a[next] + a[leaf];
      root', leaf' := root, leaf + 1;
    }
  }

  /** Links for the m weights in a. */
  method BuildLinks(a: array<nat>, m: nat)
    requires 2 <= m <= a.Length
    modifies a
    ensures a[..m - 2] == Parents(old(a[..m]))
  {
    hide Settled, Shared, HalfMerged, Balanced, TakesInternal, Take, Build, Merge;
    ghost var w := a[..m];
    ghost var q := Start(w);
    ghost var was := a[..];
    a[0] := a[0] + a[1];
    SharedStart(was, a[..], w);
    var root, leaf := 0, 2;
    for next := 1 to m - 1
      invariant Settled(w, q) && |q.ws| == next && Shared(a[..], w, q)
      invariant root == q.root && leaf == q.leaf
      invariant Build(w, q) == Build(w, Start(w))
    {
      ghost var half := Take(w, q);
      root, leaf := TakeFirst(a, m, next, w, q, root, leaf);
      root, leaf := TakeSecond(a, m, next, w, half, root, leaf);
      FirstTake(w, q);
      SecondTake(w, half);
      MergeShared(a[..], w, q);
      BuildStep(w, q);
      q := Merge(w, q);
    }
    LinksBuilt(a[..], w, q);
    assert a[..m - 2] == a[..][..m - 2];
  }

  lemma SharedStart(was: seq<nat>, a: seq<nat>, w: seq<nat>)
    requires |w| >= 2 && |a| == |was| >= |w| && w == was[..|w|] && a == was[0 := was[0] + was[1]]
    ensures Shared(a, w, Start(w)) && Settled(w, Start(w)) && |Start(w).ws| == 1
    ensures Start(w).root == 0 && Start(w).leaf == 2
  {
  }

  lemma BuildStep(w: seq<nat>, q: Queue)
    requires Settled(w, q) && |q.ws| < |w| - 1
    ensures Build(w, q) == Build(w, Merge(w, q))
  {
    hide Settled, Merge;
  }

  lemma LinksBuilt(a: seq<nat>, w: seq<nat>, q: Queue)
    requires Settled(w, q) && |q.ws| == |w| - 1 && Shared(a, w, q) && |w| >= 2
    requires Build(w, q) == Build(w, Start(w))
    ensures a[..|w| - 2] == Parents(w)
  {
    assert Build(w, q) == q;
    assert a[..|w| - 2] == q.ps;
  }

  lemma MergeShared(a: seq<nat>, w: seq<nat>, q: Queue)
    requires Settled(w, q) && |q.ws| < |w| - 1
    requires TakesInternal(w, q) ==> q.root < |q.ws|
    requires TakesInternal(w, Take(w, q)) ==> Take(w, q).root < |q.ws|
    requires Shared(a, w, Take(w, Take(w, q)))
    requires a[|q.ws|] == NextWeight(w, q) + NextWeight(w, Take(w, q))
    ensures Shared(a, w, Merge(w, q))
    ensures Merge(w, q).root == Take(w, Take(w, q)).root && Merge(w, q).leaf == Take(w, Take(w, q)).leaf
  {
    FirstTake(w, q);
    SecondTake(w, Take(w, q));
  }

  /** Links to depths, from the root down. */
  method LinksToDepths(a: array<nat>, m: nat, ghost ps: seq<nat>)
    requires 2 <= m <= a.Length && |ps| == m - 2 && Links(ps, |ps|) && a[..m - 2] == ps
    modifies a
    ensures forall i :: 0 <= i <= m - 2 ==> a[i] == Depth(ps, i)
  {
    assert forall i :: 0 <= i < m - 2 ==> a[i] == a[..m - 2][i] == ps[i];
    a[m - 2] := 0;
    var next := m - 3;
    while next >= 0
      invariant -1 <= next <= m - 3
      invariant forall i :: 0 <= i <= next ==> a[i] == ps[i]
      invariant forall i :: next < i <= m - 2 ==> a[i] == Depth(ps, i)
    {
      assert a[ps[next]] == Depth(ps, ps[next]);
      a[next] := a[a[next]] + 1;
      next := next - 1;
    }
  }

  /** The internal nodes at depth d, read off the end of what is left. */
  method CountLevel(a: array<nat>, rt: int, d: nat, ghost ps: seq<nat>) returns (rt': int)
    requires Links(ps, |ps|) && rt + 1 == Above(ps, d) && rt < a.Length
    requires forall i :: 0 <= i <= rt ==> a[i] == Depth(ps, i)
    ensures rt' + 1 == Above(ps, d + 1) && rt' <= rt
  {
    hide AboveFrom;
    AboveFallsBy(ps, d);
    rt' := rt;
    while rt' >= 0 && a[rt'] == d
      invariant Above(ps, d + 1) - 1 <= rt' <= rt
    {
      rt' := rt' - 1;
    }
  }

  /** Sets n entries from nx down to depth. */
  method FillDown(a: array<nat>, nx: int, n: nat, depth: nat) returns (nx': int)
    requires 0 <= nx + 1 - n && nx < a.Length
    modifies a
    ensures nx' == nx - n
    ensures forall k :: 0 <= k < a.Length ==> a[k] == if nx' < k <= nx then depth else old(a[k])
  {
    nx' := nx;
    var left := n;
    while left > 0
      invariant 0 <= left && nx' == nx - (n - left)
      invariant forall k :: 0 <= k < a.Length ==> a[k] == if nx' < k <= nx then depth else old(a[k])
    {
      a[nx'] := depth;
      nx' := nx' - 1;
      left := left - 1;
    }
  }

  /** Leaves after nx have their depths, all above the level reached. */
  ghost predicate LeavesDone(a: seq<nat>, m: nat, ps: seq<nat>, nx: int, depth: nat)
    requires Links(ps, |ps|)
  {
    && -1 <= nx < m <= |a| && nx + 1 == LeavesAbove(ps, depth)
    && (forall k :: nx < k < m ==> a[k] < depth)
    && (forall k, d: nat :: nx < k < m && d <= depth ==> (a[k] >= d <==> k < LeavesAbove(ps, d)))
  }

  lemma LeavesLevel(a: seq<nat>, a': seq<nat>, m: nat, ps: seq<nat>, nx: int, nx': int, depth: nat)
    requires Links(ps, |ps|) && LeavesDone(a, m, ps, nx, depth) && |a'| == |a|
    requires -1 <= nx' <= nx && nx' + 1 == LeavesAbove(ps, depth + 1)
    requires forall k :: 0 <= k < |a| ==> a'[k] == if nx' < k <= nx then depth else a[k]
    ensures LeavesDone(a', m, ps, nx', depth + 1)
  {
    hide LeavesAbove;
    forall k, d: nat | nx' < k < m && d <= depth + 1
      ensures a'[k] >= d <==> k < LeavesAbove(ps, d)
    {
      if d == depth + 1 {
      } else if k <= nx {
        LeavesFall(ps, d, depth);
      }
    }
  }

  /** Leaves' depths, from the last down: the places of each level that internal nodes do
      not take. */
  method LeafDepths(a: array<nat>, m: nat, ghost ps: seq<nat>)
    requires 2 <= m <= a.Length && |ps| == m - 2 && Links(ps, |ps|)
    requires forall i :: 0 <= i <= m - 2 ==> a[i] == Depth(ps, i)
    modifies a
    ensures forall k, d: nat :: 0 <= k < m ==> (a[k] >= d <==> k < LeavesAbove(ps, d))
  {
    hide Above, LeavesAbove, Level, Depth, Places, LeavesDone;
    var avail: nat, rt, nx, depth: nat := 1, m - 2, m - 1, 0;
    LeavesStart(a[..], m, ps);
    while avail > 0
      invariant avail == Places(ps, depth) && rt + 1 == Above(ps, depth) && nx == avail + rt
      invariant -1 <= rt && depth <= m
      invariant forall i :: 0 <= i <= rt && i < a.Length ==> a[i] == Depth(ps, i)
      invariant LeavesDone(a[..], m, ps, nx, depth)
      decreases m + 1 - depth
    {
      LeavesBound(a[..], m, ps, nx, depth);
      LevelPlaces(ps, depth);
      LevelPlaces(ps, depth + 1);
      var rt' := CountLevel(a, rt, depth, ps);
      var used := rt - rt';
      LevelIs(ps, depth);
      ghost var was := a[..];
      var nx' := FillDown(a, nx, avail - used, depth);
      LeavesLevel(was, a[..], m, ps, nx, nx', depth);
      rt, nx := rt', nx';
      avail := 2 * used;
      depth := depth + 1;
    }
    LeavesFinal(a[..], m, ps, nx, depth);
  }

  lemma LeavesStart(a: seq<nat>, m: nat, ps: seq<nat>)
    requires Links(ps, |ps|) && 2 <= m == |ps| + 2 <= |a|
    ensures LeavesDone(a, m, ps, m - 1, 0) && Places(ps, 0) == 1 && Above(ps, 0) == m - 1
  {
    RootLevel(ps);
  }

  lemma LeavesBound(a: seq<nat>, m: nat, ps: seq<nat>, nx: int, depth: nat)
    requires Links(ps, |ps|) && LeavesDone(a, m, ps, nx, depth)
    ensures -1 <= nx < m <= |a| && nx + 1 == LeavesAbove(ps, depth)
  {
  }

  lemma LevelIs(ps: seq<nat>, d: nat)
    requires Links(ps, |ps|)
    ensures Level(ps, d) == Above(ps, d) - Above(ps, d + 1) && Places(ps, d + 1) == 2 * Level(ps, d)
  {
  }

  lemma LeavesFinal(a: seq<nat>, m: nat, ps: seq<nat>, nx: int, depth: nat)
    requires Links(ps, |ps|) && LeavesDone(a, m, ps, nx, depth) && Places(ps, depth) == 0
    ensures forall k, d: nat :: 0 <= k < m ==> (a[k] >= d <==> k < LeavesAbove(ps, d))
  {
    hide LeavesAbove, Places;
    LevelPlaces(ps, depth);
    forall k, d: nat | 0 <= k < m
      ensures a[k] >= d <==> k < LeavesAbove(ps, d)
    {
      if d > depth {
        LeavesFall(ps, depth, d);
      }
    }
  }
}
