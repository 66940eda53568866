/** The tree of HuffTree is a best one: its leaves cost what its internal nodes weigh
    together, and no depths within the Kraft sum cost less. */
module HuffOptimal {
  import opened Bits
  import opened HuffTree
  import opened HuffBound

  ghost predicate Ascends(w: seq<nat>) {
    forall i, j :: 0 <= i < j < |w| ==> w[i] <= w[j]
  }

  /** The nodes that have no parent yet. */
  function Forest(w: seq<nat>, q: Queue): (f: seq<nat>)
    requires q.leaf <= |w| && q.root <= |q.ws|
  {
    w[q.leaf..] + q.ws[q.root..]
  }

  /** Both queues ascend, and the last parent is at most twice any node that has none. */
  ghost predicate InOrder(w: seq<nat>, q: Queue)
    requires q.leaf <= |w| && q.root <= |q.ws|
  {
    && Ascends(w) && Ascends(q.ws) && q.ws != []
    && forall k :: 0 <= k < |Forest(w, q)| ==> q.ws[|q.ws| - 1] <= 2 * Forest(w, q)[k]
  }

  /** Where the two nodes of the next merge stand in the forest: a of them are leaves. */
  function Chosen(a: nat, n: nat): (nat, nat) {
    if a == 2 then (0, 1) else if a == 1 then (0, n) else (n, n + 1)
  }

  /** How many leaves the next merge takes. */
  function Leaves(w: seq<nat>, q: Queue): (a: nat)
    ensures a <= 2
  {
    (if TakesInternal(w, q) then 0 else 1) + if TakesInternal(w, Take(w, q)) then 0 else 1
  }

  /** What a merge does to the queues. */
  lemma MergeShape(w: seq<nat>, q: Queue)
    requires Settled(w, q) && |q.ws| < |w| - 1
    ensures var a := Leaves(w, q);
            var (i, j) := Chosen(a, |w| - q.leaf);
            var f, r := Forest(w, q), Merge(w, q);
            && i < j < |f| && r.leaf == q.leaf + a <= |w| && r.root == q.root + (2 - a) <= |q.ws|
            && r.ws == q.ws + [f[i] + f[j]]
  {
    FirstTake(w, q);
    SecondTake(w, Take(w, q));
  }

  lemma ChosenLightest(w: seq<nat>, q: Queue)
    requires Settled(w, q) && |q.ws| < |w| - 1 && Ascends(w) && Ascends(q.ws)
    ensures var (i, j) := Chosen(Leaves(w, q), |w| - q.leaf); Lightest(Forest(w, q), i, j)
  {
    MergeShape(w, q);
    FirstTake(w, q);
    SecondTake(w, Take(w, q));
    var leaves, nodes := w[q.leaf..], q.ws[q.root..];
    var a := Leaves(w, q);
    FrontLightest(leaves, nodes, a);
  }

  /** The fronts of two ascending queues, the lighter first. */
  lemma FrontLightest(leaves: seq<nat>, nodes: seq<nat>, a: nat)
    requires Ascends(leaves) && Ascends(nodes) && a <= 2 && a <= |leaves| && 2 - a <= |nodes|
    requires a > 0 && |nodes| > 2 - a ==> leaves[a - 1] <= nodes[2 - a]
    requires a < 2 && |leaves| > a ==> nodes[1 - a] <= leaves[a]
    ensures var (i, j) := Chosen(a, |leaves|); Lightest(leaves + nodes, i, j)
  {
    var f, n := leaves + nodes, |leaves|;
    assert forall k :: 0 <= k < |f| ==> f[k] == if k < n then leaves[k] else nodes[k - n];
  }

  lemma ChosenLess(leaves: seq<nat>, nodes: seq<nat>, a: nat)
    requires a <= 2 && a <= |leaves| && 2 - a <= |nodes|
    ensures var (i, j) := Chosen(a, |leaves|);
            i < j < |leaves + nodes| && Without(leaves + nodes, i, j) == leaves[a..] + nodes[2 - a..]
  {
    hide Less;
    var n := |leaves|;
    if a == 2 {
      LessLeft(leaves, nodes, 1);
      LessLeft(Less(leaves, 1), nodes, 0);
      LessTwice(leaves);
    } else if a == 1 {
      LessRight(leaves, nodes, 0);
      LessLeft(leaves, Less(nodes, 0), 0);
      LessFirst(leaves);
      LessFirst(nodes);
    } else {
      LessRight(leaves, nodes, 1);
      LessRight(leaves, Less(nodes, 1), 0);
      LessTwice(nodes);
    }
  }

  lemma LessLeft(a: seq<nat>, b: seq<nat>, i: nat)
    requires i < |a|
    ensures Less(a + b, i) == Less(a, i) + b
  {
  }

  lemma LessRight(a: seq<nat>, b: seq<nat>, i: nat)
    requires i < |b|
    ensures Less(a + b, |a| + i) == a + Less(b, i)
  {
  }

  lemma LessFirst(a: seq<nat>)
    requires |a| >= 1
    ensures Less(a, 0) == a[1..]
  {
  }

  lemma LessTwice(a: seq<nat>)
    requires |a| >= 2
    ensures Less(Less(a, 1), 0) == a[2..]
  {
    assert Less(a, 1) == [a[0]] + a[2..];
  }

  /** A merge takes the two lightest nodes without a parent and adds theirs. */
  lemma MergeForest(w: seq<nat>, q: Queue)
    requires Settled(w, q) && |q.ws| < |w| - 1
    ensures var (i, j) := Chosen(Leaves(w, q), |w| - q.leaf);
            var f, r := Forest(w, q), Merge(w, q);
            && i < j < |f| && r.leaf <= |w| && r.root <= |r.ws|
            && Forest(w, r) == Without(f, i, j) + [f[i] + f[j]]
  {
    hide Merge, Without, Leaves, Chosen;
    MergeShape(w, q);
    var a, r := Leaves(w, q), Merge(w, q);
    var leaves, nodes := w[q.leaf..], q.ws[q.root..];
    ChosenLess(leaves, nodes, a);
    var (i, j) := Chosen(a, |leaves|);
    var v := Forest(w, q)[i] + Forest(w, q)[j];
    assert w[r.leaf..] == leaves[a..] && r.ws[r.root..] == nodes[2 - a..] + [v];
  }

  lemma WithoutIn(f: seq<nat>, i: nat, j: nat, k: nat) returns (m: nat)
    requires i < j < |f| && k < |f| - 2
    ensures m < |f| && m != i && m != j && Without(f, i, j)[k] == f[m]
  {
    m := if k < i then k else if k < j - 1 then k + 1 else k + 2;
  }

  lemma MergeOrder(w: seq<nat>, q: Queue)
    requires Settled(w, q) && |q.ws| < |w| - 1 && InOrder(w, q)
    ensures var r := Merge(w, q); r.leaf <= |w| && r.root <= |r.ws| && InOrder(w, r)
  {
    hide Merge, Without, Leaves, Chosen, Forest, Settled;
    MergeShape(w, q);
    ChosenLightest(w, q);
    MergeForest(w, q);
    var (i, j) := Chosen(Leaves(w, q), |w| - q.leaf);
    var f, r := Forest(w, q), Merge(w, q);
    var v := f[i] + f[j];
    forall k | 0 <= k < |Forest(w, r)|
      ensures v <= 2 * Forest(w, r)[k]
    {
      if k < |f| - 2 {
        var m := WithoutIn(f, i, j, k);
      }
    }
    assert q.ws[|q.ws| - 1] <= 2 * f[i] && q.ws[|q.ws| - 1] <= 2 * f[j];
  }

  /** No depths of the nodes without a parent cost less than the parents still to come. */
  lemma {:induction false} ForestBound(w: seq<nat>, q: Queue, ls: seq<nat>, n: nat)
    requires Settled(w, q) && InOrder(w, q) && |ls| == |Forest(w, q)| && Within(ls, n) && Room(ls, n) <= Pow2(n)
    ensures Weighted(Forest(w, q), ls) + SumOf(q.ws) >= SumOf(Build(w, q).ws)
    decreases |w| - |q.ws|
  {
    hide Merge, Without, Leaves, Chosen, Forest, Room, Weighted, SumOf, Pow2, InOrder;
    if |q.ws| < |w| - 1 {
      var (i, j) := Chosen(Leaves(w, q), |w| - q.leaf);
      var f, r := Forest(w, q), Merge(w, q);
      InOrderFacts(w, q);
      ChosenLightest(w, q);
      MergeForest(w, q);
      MergeOrder(w, q);
      MergeShape(w, q);
      var ms := MergeBound(f, ls, i, j, n);
      ForestBound(w, r, ms, n);
      SumPush(q.ws, f[i] + f[j]);
    }
  }

  lemma InOrderFacts(w: seq<nat>, q: Queue)
    requires q.leaf <= |w| && q.root <= |q.ws| && InOrder(w, q)
    ensures Ascends(w) && Ascends(q.ws)
  {
  }

  lemma SumPush(s: seq<nat>, x: nat)
    ensures SumOf(s + [x]) == SumOf(s) + x
  {
    assert (s + [x])[..|s|] == s;
  }

  /** The weights of the internal nodes. */
  function Nodes(w: seq<nat>): (ws: seq<nat>)
    requires |w| >= 2
    ensures |ws| == |w| - 1
  {
    Build(w, Start(w)).ws
  }

  /** The lower bound: no code lengths cost less than the internal nodes weigh. */
  lemma CodeBound(w: seq<nat>, ls: seq<nat>, n: nat)
    requires |w| >= 2 && Ascends(w) && |ls| == |w| && Within(ls, n) && Room(ls, n) <= Pow2(n)
    ensures Weighted(w, ls) >= SumOf(Nodes(w))
  {
    hide Room, Weighted, Pow2, SumOf, Without, Forest, InOrder, Build, Settled, Ascends, Lightest, Within;
    FirstForest(w);
    var ms := MergeBound(w, ls, 0, 1, n);
    ForestBound(w, Start(w), ms, n);
    SumOne(w[0] + w[1]);
  }

  lemma FirstForest(w: seq<nat>)
    requires |w| >= 2 && Ascends(w)
    ensures Forest(w, Start(w)) == Without(w, 0, 1) + [w[0] + w[1]] && InOrder(w, Start(w)) && Lightest(w, 0, 1)
  {
    var f := Forest(w, Start(w));
    assert forall k :: 0 <= k < |w| - 2 ==> f[k] == w[k + 2];
  }

  lemma SumOne(x: nat)
    ensures SumOf([x]) == x
  {
    assert SumOf([x][..0]) == 0;
  }

  /** The parents of the leaves, made beside those of the internal nodes. */
  function TakeLeaf(w: seq<nat>, q: Queue, lp: seq<nat>): seq<nat> {
    if TakesInternal(w, q) then lp else lp + [|q.ws|]
  }

  function MergeLeaf(w: seq<nat>, q: Queue, lp: seq<nat>): seq<nat> {
    TakeLeaf(w, Take(w, q), TakeLeaf(w, q, lp))
  }

  function BuildLeaf(w: seq<nat>, q: Queue, lp: seq<nat>): seq<nat>
    requires Settled(w, q)
    decreases |w| - |q.ws|
  {
    if |q.ws| == |w| - 1 then lp else BuildLeaf(w, Merge(w, q), MergeLeaf(w, q, lp))
  }

  function LeafParents(w: seq<nat>): seq<nat>
    requires |w| >= 2
  {
    BuildLeaf(w, Start(w), [0, 0])
  }

  /** Every leaf taken has a parent made. */
  ghost predicate Linked(q: Queue, lp: seq<nat>) {
    |lp| == q.leaf && forall k :: 0 <= k < |lp| ==> lp[k] < |q.ws|
  }

  /** Links were only added, to nodes from v on. */
  ghost predicate Grown(s: seq<nat>, t: seq<nat>, v: nat) {
    |s| <= |t| && s == t[..|s|] && forall k :: |s| <= k < |t| ==> t[k] >= v
  }

  lemma GrownChain(s: seq<nat>, t: seq<nat>, u: seq<nat>, v: nat, x: nat)
    requires Grown(s, t, v) && Grown(t, u, x) && v <= x
    ensures Grown(s, u, v)
  {
    assert u[..|s|] == u[..|t|][..|s|];
    assert forall k :: |s| <= k < |t| ==> u[k] == t[k];
  }

  lemma MergeLinked(w: seq<nat>, q: Queue, lp: seq<nat>)
    requires Settled(w, q) && |q.ws| < |w| - 1 && Linked(q, lp)
    ensures var r, next := Merge(w, q), MergeLeaf(w, q, lp);
            Linked(r, next) && Grown(lp, next, |q.ws|) && Grown(q.ps, r.ps, |q.ws|)
  {
    FirstTake(w, q);
    SecondTake(w, Take(w, q));
  }

  /** Links made later are to later nodes. */
  lemma {:induction false} BuildLinked(w: seq<nat>, q: Queue, lp: seq<nat>)
    requires Settled(w, q) && Linked(q, lp)
    ensures var r, last := Build(w, q), BuildLeaf(w, q, lp);
            Linked(r, last) && Grown(lp, last, |q.ws|) && Grown(q.ps, r.ps, |q.ws|)
    decreases |w| - |q.ws|
  {
    hide Merge, MergeLeaf, Grown, Linked;
    if |q.ws| < |w| - 1 {
      MergeLinked(w, q, lp);
      var r, next := Merge(w, q), MergeLeaf(w, q, lp);
      BuildLinked(w, r, next);
      GrownChain(lp, next, BuildLeaf(w, r, next), |q.ws|, |r.ws|);
      GrownChain(q.ps, r.ps, Build(w, r).ps, |q.ws|, |r.ws|);
    } else {
      GrownNone(lp, |q.ws|);
      GrownNone(q.ps, |q.ws|);
    }
  }

  lemma GrownNone(s: seq<nat>, v: nat)
    ensures Grown(s, s, v)
  {
  }

  /** The first n internal nodes have two children each: the first a leaves and b internal
      nodes, and no others. */
  lemma {:induction false} CutAt(w: seq<nat>, q: Queue, lp: seq<nat>, n: nat) returns (a: nat, b: nat)
    requires Settled(w, q) && Linked(q, lp) && |q.ws| <= n <= |w| - 1
    ensures var ps, last := Build(w, q).ps, BuildLeaf(w, q, lp);
            && a + b == 2 * n && a <= |last| && b <= |ps|
            && (forall k :: 0 <= k < |last| ==> (last[k] < n <==> k < a))
            && (forall k :: 0 <= k < |ps| ==> (ps[k] < n <==> k < b))
    decreases |w| - |q.ws|
  {
    hide Merge, MergeLeaf;
    BuildLinked(w, q, lp);
    if |q.ws| == n {
      a, b := q.leaf, q.root;
      var ps, last := Build(w, q).ps, BuildLeaf(w, q, lp);
      assert forall k :: 0 <= k < a ==> last[k] == lp[k];
      assert forall k :: 0 <= k < b ==> ps[k] == q.ps[k];
    } else {
      MergeLinked(w, q, lp);
      a, b := CutAt(w, Merge(w, q), MergeLeaf(w, q, lp), n);
    }
  }

  /** The depth of each leaf in the tree its parent is in. */
  function DepthOf(w: seq<nat>, k: nat): nat
    requires |w| >= 2 && k < |LeafParents(w)| && LeafParents(w)[k] <= |Parents(w)|
  {
    Depth(Parents(w), LeafParents(w)[k]) + 1
  }

  lemma AllLeaves(w: seq<nat>)
    requires |w| >= 2
    ensures var lp := LeafParents(w); |lp| == |w| && forall k :: 0 <= k < |w| ==> lp[k] <= |Parents(w)|
  {
    BuildLinked(w, Start(w), [0, 0]);
  }

  /** As many leaves are at depth d or deeper as the levels of the tree say, and they are the
      lightest. */
  lemma DeepLeaves(w: seq<nat>, k: nat, d: nat)
    requires |w| >= 2 && k < |w|
    ensures k < |LeafParents(w)| && LeafParents(w)[k] <= |Parents(w)|
    ensures DepthOf(w, k) >= d <==> k < LeavesAbove(Parents(w), d)
  {
    hide Above, Build, BuildLeaf;
    AllLeaves(w);
    var ps, lp := Parents(w), LeafParents(w);
    if d > 0 {
      var n, m := Above(ps, d - 1), Above(ps, d);
      AboveFallsBy(ps, d - 1);
      assert Depth(ps, lp[k]) >= d - 1 <==> lp[k] < n;
      if n > 0 {
        var a, b := CutAt(w, Start(w), [0, 0], n);
        SameCut(ps, d, n, m, b);
      }
    }
  }

  lemma PastMark(ps: seq<nat>, n: nat, m: nat)
    requires m <= |ps| && forall k :: 0 <= k < |ps| ==> (ps[k] < n <==> k < m)
    ensures m < |ps| ==> ps[m] >= n
  {
  }

  lemma SameCut(ps: seq<nat>, d: nat, n: nat, m: nat, b: nat)
    requires Links(ps, |ps|) && d > 0 && n == Above(ps, d - 1) && m == Above(ps, d) && b <= |ps|
    requires forall k :: 0 <= k < |ps| ==> (ps[k] < n <==> k < b)
    ensures m == b
  {
    hide AboveFrom;
    assert m <= |ps| by {
      assert Depth(ps, |ps|) == 0;
    }
    assert forall i :: 0 <= i < |ps| ==> (Depth(ps, i) >= d <==> Depth(ps, ps[i]) >= d - 1);
    PastMark(ps, n, m);
    PastMark(ps, n, b);
  }

  ghost predicate Bounded(links: seq<nat>, n: nat) {
    forall k :: 0 <= k < |links| ==> links[k] < n
  }

  /** A number for each node, read at its children's links. */
  function At(g: seq<nat>, links: seq<nat>): (r: seq<nat>)
    requires Bounded(links, |g|)
    ensures |r| == |links|
  {
    seq(|links|, k requires 0 <= k < |links| => g[links[k]])
  }

  /** The children's weights, each times the number of its parent. */
  function Children(w: seq<nat>, q: Queue, lp: seq<nat>, g: seq<nat>): nat
    requires |lp| == q.leaf <= |w| && |q.ps| == q.root <= |q.ws| && Bounded(lp, |g|) && Bounded(q.ps, |g|)
  {
    Weighted(w[..q.leaf], At(g, lp)) + Weighted(q.ws[..q.root], At(g, q.ps))
  }

  lemma AtPush(g: seq<nat>, links: seq<nat>, t: nat)
    requires Bounded(links, |g|) && t < |g|
    ensures Bounded(links + [t], |g|) && At(g, links + [t]) == At(g, links) + [g[t]]
  {
  }

  lemma WeightedPush(f: seq<nat>, ls: seq<nat>, x: nat, l: nat)
    requires |f| == |ls|
    ensures Weighted(f + [x], ls + [l]) == Weighted(f, ls) + x * l
  {
    assert (f + [x])[..|f|] == f && (ls + [l])[..|ls|] == ls;
  }

  /** Taking a node adds its weight times the number of the parent to come. */
  lemma TakeChild(w: seq<nat>, q: Queue, lp: seq<nat>, g: seq<nat>)
    requires |lp| == q.leaf <= |w| && |q.ps| == q.root <= |q.ws| < |g| && Bounded(lp, |g|) && Bounded(q.ps, |g|)
    requires if TakesInternal(w, q) then q.root < |q.ws| else q.leaf < |w|
    ensures var r, next := Take(w, q), TakeLeaf(w, q, lp);
            && |next| == r.leaf <= |w| && |r.ps| == r.root <= |r.ws| && Bounded(next, |g|) && Bounded(r.ps, |g|)
            && Children(w, r, next, g) == Children(w, q, lp, g) + NextWeight(w, q) * g[|q.ws|]
  {
    hide Weighted, At, Bounded;
    var t := |q.ws|;
    if TakesInternal(w, q) {
      AtPush(g, q.ps, t);
      assert q.ws[..q.root + 1] == q.ws[..q.root] + [q.ws[q.root]];
      WeightedPush(q.ws[..q.root], At(g, q.ps), q.ws[q.root], g[t]);
    } else {
      AtPush(g, lp, t);
      assert w[..q.leaf + 1] == w[..q.leaf] + [w[q.leaf]];
      WeightedPush(w[..q.leaf], At(g, lp), w[q.leaf], g[t]);
    }
  }

  /** Whatever the numbers, children and parents come to the same. */
  ghost predicate Even(w: seq<nat>, q: Queue, lp: seq<nat>, g: seq<nat>) {
    && |lp| == q.leaf <= |w| && |q.ps| == q.root <= |q.ws| <= |g| && Bounded(lp, |g|) && Bounded(q.ps, |g|)
    && Children(w, q, lp, g) == Weighted(q.ws, g[..|q.ws|])
  }

  lemma MergeEven(w: seq<nat>, q: Queue, lp: seq<nat>, g: seq<nat>)
    requires Settled(w, q) && |q.ws| < |w| - 1 == |g| && Even(w, q, lp, g)
    ensures Even(w, Merge(w, q), MergeLeaf(w, q, lp), g)
  {
    hide Weighted, At, Bounded, Children, TakesInternal;
    FirstTake(w, q);
    var half, t := Take(w, q), |q.ws|;
    SecondTake(w, half);
    TakeSides(w, q);
    TakeSides(w, half);
    TakeChild(w, q, lp, g);
    TakeChild(w, half, TakeLeaf(w, q, lp), g);
    var x, y := NextWeight(w, q), NextWeight(w, half);
    var both, r := Take(w, half), Merge(w, q);
    SameChildren(w, both, r, MergeLeaf(w, q, lp), g);
    assert g[..t + 1] == g[..t] + [g[t]];
    WeightedPush(q.ws, g[..t], x + y, g[t]);
    Distributes(x, y, g[t]);
  }

  lemma TakeSides(w: seq<nat>, q: Queue)
    requires TakesInternal(w, q) ==> q.root < |q.ws|
    requires q.leaf <= |w|
    ensures if TakesInternal(w, q) then q.root < |q.ws| else q.leaf < |w|
  {
  }

  lemma SameChildren(w: seq<nat>, q: Queue, r: Queue, lp: seq<nat>, g: seq<nat>)
    requires |lp| == q.leaf <= |w| && |q.ps| == q.root <= |q.ws| && Bounded(lp, |g|) && Bounded(q.ps, |g|)
    requires |q.ws| < |r.ws| && r == q.(ws := r.ws) && r.ws[..|q.ws|] == q.ws
    ensures Children(w, r, lp, g) == Children(w, q, lp, g)
  {
    assert r.ws[..q.root] == q.ws[..q.root];
  }

  lemma {:induction false} BuildEven(w: seq<nat>, q: Queue, lp: seq<nat>, g: seq<nat>)
    requires Settled(w, q) && |w| - 1 == |g| && Even(w, q, lp, g)
    ensures Even(w, Build(w, q), BuildLeaf(w, q, lp), g)
    decreases |w| - |q.ws|
  {
    hide Even, Merge, MergeLeaf;
    if |q.ws| < |w| - 1 {
      MergeEven(w, q, lp, g);
      BuildEven(w, Merge(w, q), MergeLeaf(w, q, lp), g);
    }
  }

  lemma StartEven(w: seq<nat>, g: seq<nat>)
    requires |w| >= 2 && |g| == |w| - 1
    ensures Even(w, Start(w), [0, 0], g)
  {
    hide Weighted;
    assert w[..2] == [w[0]] + [w[1]] && At(g, [0, 0]) == [g[0]] + [g[0]];
    WeightedPush([w[0]], [g[0]], w[1], g[0]);
    WeightedOne(w[0], g[0]);
    assert g[..1] == [g[0]] && [w[0] + w[1]][..0] == [] && At(g, []) == [];
    WeightedOne(w[0] + w[1], g[0]);
    WeightedNone();
    Distributes(w[0], w[1], g[0]);
  }

  lemma WeightedNone()
    ensures Weighted([], []) == 0
  {
  }

  /** The depths of the leaves. */
  function Depths(w: seq<nat>): (ds: seq<nat>)
    requires |w| >= 2
    ensures |ds| == |w|
  {
    AllLeaves(w);
    seq(|w|, k requires 0 <= k < |w| => DepthOf(w, k))
  }

  /** The depths of the internal nodes. */
  function NodeDepths(ps: seq<nat>): (ds: seq<nat>)
    requires Links(ps, |ps|)
    ensures |ds| == |ps| + 1
  {
    seq(|ps| + 1, k requires 0 <= k <= |ps| => Depth(ps, k))
  }

  function Deeper(ds: seq<nat>): (es: seq<nat>)
    ensures |es| == |ds|
  {
    seq(|ds|, k requires 0 <= k < |ds| => ds[k] + 1)
  }

  lemma {:induction false} WeightedDeeper(f: seq<nat>, ds: seq<nat>)
    requires |f| == |ds|
    ensures Weighted(f, Deeper(ds)) == Weighted(f, ds) + SumOf(f)
  {
    if f != [] {
      var n := |f| - 1;
      WeightedDeeper(f[..n], ds[..n]);
      assert Deeper(ds)[..n] == Deeper(ds[..n]);
    }
  }

  /** The leaves cost what the internal nodes weigh. */
  lemma LeafCost(w: seq<nat>)
    requires |w| >= 2
    ensures Weighted(w, Depths(w)) == SumOf(Nodes(w))
  {
    hide Weighted, SumOf, Build, BuildLeaf, Even, NodeDepths, Deeper, At, Bounded, Depths, Links, Settled;
    var q, lp := Build(w, Start(w)), LeafParents(w);
    Taken(w);
    var ds := NodeDepths(Parents(w));
    var g := Deeper(ds);
    StartEven(w, g);
    BuildEven(w, Start(w), [0, 0], g);
    AllLeaves(w);
    EvenIs(w, q, lp, g);
    LeafNumbers(w, g);
    NodeNumbers(q.ps, g);
    Balance(w, Depths(w), q.ws, ds);
  }

  /** In the end every node but the root has a parent. */
  lemma Taken(w: seq<nat>)
    requires |w| >= 2
    ensures var q := Build(w, Start(w)); q.leaf == |w| && |q.ps| == |w| - 2 && q.ps == Parents(w)
  {
    hide Build;
  }

  lemma Balance(w: seq<nat>, leaves: seq<nat>, ws: seq<nat>, ds: seq<nat>)
    requires |w| == |leaves| && |ws| == |ds| > 0 && ds[|ds| - 1] == 0
    requires var m := |ws| - 1; Weighted(w, leaves) + Weighted(ws[..m], ds[..m]) == Weighted(ws, Deeper(ds))
    ensures Weighted(w, leaves) == SumOf(ws)
  {
    hide Weighted, SumOf, Deeper;
    WeightedDeeper(ws, ds);
    RootCostsNothing(ws, ds);
  }

  lemma RootCostsNothing(ws: seq<nat>, ds: seq<nat>)
    requires |ws| == |ds| > 0 && ds[|ds| - 1] == 0
    ensures Weighted(ws, ds) == Weighted(ws[..|ws| - 1], ds[..|ws| - 1])
  {
  }

  lemma EvenIs(w: seq<nat>, q: Queue, lp: seq<nat>, g: seq<nat>)
    requires Even(w, q, lp, g) && |g| == |q.ws| && q.leaf == |w|
    ensures Bounded(lp, |g|) && Bounded(q.ps, |g|) && |lp| == |w| && |q.ps| <= |q.ws|
    ensures Weighted(w, At(g, lp)) + Weighted(q.ws[..|q.ps|], At(g, q.ps)) == Weighted(q.ws, g)
  {
    assert w[..|w|] == w && g[..|q.ws|] == g;
  }

  lemma LeafNumbers(w: seq<nat>, g: seq<nat>)
    requires |w| >= 2 && g == Deeper(NodeDepths(Parents(w))) && Bounded(LeafParents(w), |g|) && |LeafParents(w)| == |w|
    ensures At(g, LeafParents(w)) == Depths(w)
  {
    hide Depth, Build, BuildLeaf;
    AllLeaves(w);
  }

  lemma NodeNumbers(ps: seq<nat>, g: seq<nat>)
    requires Links(ps, |ps|) && g == Deeper(NodeDepths(ps)) && Bounded(ps, |g|)
    ensures At(g, ps) == NodeDepths(ps)[..|ps|] && NodeDepths(ps)[|ps|] == 0
  {
  }

  /** The tree is a best one: no code lengths within the Kraft sum cost less. */
  lemma Optimal(w: seq<nat>, ls: seq<nat>, n: nat)
    requires |w| >= 2 && Ascends(w) && |ls| == |w| && Within(ls, n) && Room(ls, n) <= Pow2(n)
    ensures Weighted(w, Depths(w)) <= Weighted(w, ls)
  {
    hide *;
    LeafCost(w);
    CodeBound(w, ls, n);
  }
}
