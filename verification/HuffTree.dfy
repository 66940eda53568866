/** The Huffman tree of sorted weights as its internal nodes' parent links, built by
    merging two queues, and how many nodes and leaves each level has: the meaning of
    the in-place construction in http1/deflate.v. */
module HuffTree {

  /** The construction so far: leaves before leaf and internal nodes before root have a
      parent; ws are the internal nodes' weights, ps the parents of the first root. */
  datatype Queue = Queue(leaf: nat, root: nat, ws: seq<nat>, ps: seq<nat>)

  /** Parent links of internal nodes: upward, in order, at most two to a parent. */
  ghost predicate Links(ps: seq<nat>, top: nat) {
    && (forall i :: 0 <= i < |ps| ==> i < ps[i] <= top)
    && (forall i, j :: 0 <= i < j < |ps| ==> ps[i] <= ps[j])
    && (forall i, j :: 0 <= i && i + 2 <= j < |ps| ==> ps[i] < ps[j])
  }

  /** The queues between two merges (spare 0) or inside one (spare 1). */
  ghost predicate Balanced(w: seq<nat>, q: Queue, spare: nat) {
    && q.leaf <= |w| && q.root == |q.ps| <= |q.ws| && 1 <= |q.ws| < |w|
    && q.leaf + q.root == 2 * |q.ws| + spare
    && (forall i :: 0 <= i < |q.ps| ==> i < q.ps[i] <= |q.ws|)
    && (forall i, j :: 0 <= i < j < |q.ps| ==> q.ps[i] <= q.ps[j])
    && (forall i, j :: 0 <= i && i + 2 <= j < |q.ps| ==> q.ps[i] < q.ps[j])
  }

  /** The next node to merge is an internal one: no leaf is left, or it is lighter. */
  predicate TakesInternal(w: seq<nat>, q: Queue) {
    q.leaf >= |w| || (q.root < |q.ws| && q.ws[q.root] < w[q.leaf])
  }

  function NextWeight(w: seq<nat>, q: Queue): nat
    requires TakesInternal(w, q) ==> q.root < |q.ws|
  {
    if TakesInternal(w, q) then q.ws[q.root] else w[q.leaf]
  }

  /** The queues with the lightest node given the parent to come. */
  function Take(w: seq<nat>, q: Queue): (r: Queue)
    ensures r.ws == q.ws
  {
    if TakesInternal(w, q) then q.(root := q.root + 1, ps := q.ps + [|q.ws|]) else q.(leaf := q.leaf + 1)
  }

  /** Between merges, every link made is below the next parent. */
  ghost predicate Settled(w: seq<nat>, q: Queue) {
    && Balanced(w, q, 0) && q.root < |q.ws|
    && (forall i :: 0 <= i < |q.ps| ==> q.ps[i] < |q.ws|)
  }

  /** Inside a merge, at most the last link is the parent being made. */
  ghost predicate HalfMerged(w: seq<nat>, q: Queue) {
    && Balanced(w, q, 1) && q.root <= |q.ws|
    && (forall i :: 0 <= i < |q.ps| - 1 ==> q.ps[i] < |q.ws|)
  }

  lemma FirstTake(w: seq<nat>, q: Queue)
    requires Settled(w, q) && |q.ws| < |w| - 1
    ensures TakesInternal(w, q) ==> q.root < |q.ws|
    ensures HalfMerged(w, Take(w, q))
  {
  }

  lemma SecondTake(w: seq<nat>, q: Queue)
    requires HalfMerged(w, q) && |q.ws| < |w| - 1
    ensures TakesInternal(w, q) ==> q.root < |q.ws|
    ensures Balanced(w, Take(w, q), 2) && Take(w, q).root <= |q.ws|
  {
  }

  lemma NewParent(w: seq<nat>, q: Queue, weight: nat)
    requires Balanced(w, q, 2) && q.root <= |q.ws| < |w| - 1
    ensures Settled(w, q.(ws := q.ws + [weight]))
  {
  }

  /** One merge: the two lightest nodes under a new one. */
  function Merge(w: seq<nat>, q: Queue): (r: Queue)
    requires Settled(w, q) && |q.ws| < |w| - 1
    ensures Settled(w, r) && |r.ws| == |q.ws| + 1
  {
    FirstTake(w, q);
    var x := NextWeight(w, q);
    var half := Take(w, q);
    SecondTake(w, half);
    var y := NextWeight(w, half);
    var both := Take(w, half);
    hide *;
    NewParent(w, both, x + y);
    both.(ws := both.ws + [x + y])
  }

  /** Merging until one tree is left. */
  function Build(w: seq<nat>, q: Queue): (r: Queue)
    requires Settled(w, q)
    ensures Settled(w, r) && |r.ws| == |w| - 1
    decreases |w| - |q.ws|
  {
    if |q.ws| == |w| - 1 then q else Build(w, Merge(w, q))
  }

  function Start(w: seq<nat>): (q: Queue)
    requires |w| >= 2
    ensures Settled(w, q)
  {
    Queue(2, 0, [w[0] + w[1]], [])
  }

  /** The parent links of the finished tree; node |w| - 2 is its root. */
  function Parents(w: seq<nat>): (ps: seq<nat>)
    requires |w| >= 2
    ensures |ps| == |w| - 2 && Links(ps, |ps|)
  {
    Build(w, Start(w)).ps
  }

  /** The depth of internal node i. */
  function Depth(ps: seq<nat>, i: nat): (d: nat)
    requires Links(ps, |ps|) && i <= |ps|
    ensures d <= |ps| - i
    decreases |ps| - i
  {
    if i == |ps| then 0 else 1 + Depth(ps, ps[i])
  }

  lemma {:induction false} DepthFalls(ps: seq<nat>, i: nat, j: nat)
    requires Links(ps, |ps|) && i <= j <= |ps|
    ensures Depth(ps, i) >= Depth(ps, j)
    decreases |ps| - i
  {
    if i < j < |ps| {
      DepthFalls(ps, ps[i], ps[j]);
    }
  }

  /** How many internal nodes are at depth d or deeper: the first ones. */
  function Above(ps: seq<nat>, d: nat): (n: nat)
    requires Links(ps, |ps|)
    ensures n <= |ps| + 1
    ensures forall i :: 0 <= i <= |ps| ==> (Depth(ps, i) >= d <==> i < n)
  {
    AboveFrom(ps, d, 0)
  }

  function AboveFrom(ps: seq<nat>, d: nat, k: nat): (n: nat)
    requires Links(ps, |ps|) && k <= |ps| + 1
    requires forall i :: 0 <= i < k ==> Depth(ps, i) >= d
    ensures n <= |ps| + 1
    ensures forall i :: 0 <= i <= |ps| ==> (Depth(ps, i) >= d <==> i < n)
    decreases |ps| + 1 - k
  {
    if k == |ps| + 1 || Depth(ps, k) < d then
      assert forall i :: k <= i <= |ps| ==> Depth(ps, i) < d by {
        forall i | k <= i <= |ps|
          ensures Depth(ps, i) < d
        {
          DepthFalls(ps, k, i);
        }
      }
      k
    else AboveFrom(ps, d, k + 1)
  }

  /** Internal nodes at depth d. */
  function Level(ps: seq<nat>, d: nat): (n: nat)
    requires Links(ps, |ps|)
  {
    AboveFallsBy(ps, d);
    Above(ps, d) - Above(ps, d + 1)
  }

  lemma AboveFallsBy(ps: seq<nat>, d: nat)
    requires Links(ps, |ps|)
    ensures Above(ps, d + 1) <= Above(ps, d)
    ensures Above(ps, d) > 0 ==> Above(ps, d + 1) < Above(ps, d)
  {
    hide AboveFrom;
    var n, n' := Above(ps, d), Above(ps, d + 1);
    assert n <= |ps| ==> Depth(ps, n) < d;
    if n > 0 {
      // the parent of the last node that deep is not that deep
      var i := n - 1;
      if i < |ps| {
        assert Depth(ps, ps[i]) < d;
      }
      assert Depth(ps, i) < d + 1;
    }
  }

  /** Each level holds at most two internal children per node of the one above. */
  lemma LevelDoubles(ps: seq<nat>, d: nat)
    requires Links(ps, |ps|)
    ensures Level(ps, d + 1) <= 2 * Level(ps, d)
  {
    hide AboveFrom;
    AboveFallsBy(ps, d);
    AboveFallsBy(ps, d + 1);
    var x, y, v := Above(ps, d + 2), Above(ps, d + 1), Above(ps, d);
    if x < y {
      // nodes x..y have their parents among nodes y..v
      assert Depth(ps, x) == d + 1 && Depth(ps, y - 1) == d + 1;
      assert y - 1 < |ps|;
      assert Depth(ps, ps[x]) == d && Depth(ps, ps[y - 1]) == d;
      assert y <= ps[x] && ps[y - 1] < v;
      SpreadParents(ps, x, y - 1);
    }
  }

  lemma {:induction false} SpreadParents(ps: seq<nat>, i: nat, j: nat)
    requires Links(ps, |ps|) && i <= j < |ps|
    ensures ps[j] >= ps[i] + (j - i) / 2
    decreases j
  {
    if j >= i + 2 {
      SpreadParents(ps, i, j - 2);
    }
  }

  lemma RootLevel(ps: seq<nat>)
    requires Links(ps, |ps|)
    ensures Above(ps, 0) == |ps| + 1 && Level(ps, 0) == 1
  {
    hide AboveFrom;
    assert Depth(ps, |ps|) == 0;
    assert |ps| < Above(ps, 0);
    AboveFallsBy(ps, 0);
    assert |ps| > 0 ==> Depth(ps, |ps| - 1) >= 1;
  }

  lemma DeepEmpty(ps: seq<nat>, d: nat)
    requires Links(ps, |ps|) && d > |ps|
    ensures Above(ps, d) == 0
  {
    hide AboveFrom;
    assert Depth(ps, 0) < d;
  }

  /** How many leaves are at depth d or deeper. */
  function LeavesAbove(ps: seq<nat>, d: nat): nat
    requires Links(ps, |ps|)
  {
    if d == 0 then |ps| + 2 else 2 * Level(ps, d - 1) + Above(ps, d)
  }

  /** Leaves at depth d: the places its level offers less those taken by internal nodes. */
  lemma LeavesAt(ps: seq<nat>, d: nat)
    requires Links(ps, |ps|)
    ensures LeavesAbove(ps, d + 1) <= LeavesAbove(ps, d)
    ensures LeavesAbove(ps, d) - LeavesAbove(ps, d + 1)
         == if d == 0 then 0 else 2 * Level(ps, d - 1) - Level(ps, d)
  {
    hide Above;
    RootLevel(ps);
    if d > 0 {
      LevelDoubles(ps, d - 1);
    }
  }

  lemma {:induction false} LeavesFall(ps: seq<nat>, d: nat, e: nat)
    requires Links(ps, |ps|) && d <= e
    ensures LeavesAbove(ps, e) <= LeavesAbove(ps, d)
    decreases e
  {
    if d < e {
      LeavesFall(ps, d, e - 1);
      LeavesAt(ps, e - 1);
    }
  }

  /** Places for nodes at depth d. */
  function Places(ps: seq<nat>, d: nat): nat
    requires Links(ps, |ps|)
  {
    if d == 0 then 1 else 2 * Level(ps, d - 1)
  }

  /** The places of a level go to its internal nodes and its leaves. */
  lemma LevelPlaces(ps: seq<nat>, d: nat)
    requires Links(ps, |ps|)
    ensures Level(ps, d) <= Places(ps, d)
    ensures LeavesAbove(ps, d) == Places(ps, d) + Above(ps, d)
    ensures Places(ps, d) > 0 ==> d <= |ps| + 1
    ensures Places(ps, d) == 0 ==> Above(ps, d) == 0 && LeavesAbove(ps, d) == 0
  {
    hide Above;
    RootLevel(ps);
    if d > 0 {
      LevelDoubles(ps, d - 1);
      AboveFallsBy(ps, d - 1);
      if d > |ps| + 1 {
        DeepEmpty(ps, d - 1);
      }
    }
  }
}
