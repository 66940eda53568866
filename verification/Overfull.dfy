/** Where huff_lengths in http1/deflate.v hands out too many codes: frequencies that each
    outweigh all before them but one build a ladder of a tree, and a ladder three levels
    past the limit is folded too little. */
module Overfull {
  import opened Bits
  import opened Canonical
  import opened HuffTree
  import opened SortKeys
  import opened HuffLengths
  import opened SameCode

  function PartialSum(w: seq<nat>, n: nat): nat
    requires n <= |w|
  {
    if n == 0 then 0 else PartialSum(w, n - 1) + w[n - 1]
  }

  /** Each weight is at most the sum before it, and the next one above that sum. */
  ghost predicate Ladder(w: seq<nat>) {
    && |w| >= 2
    && (forall k :: 2 <= k < |w| ==> w[k] <= PartialSum(w, k))
    && (forall k :: 3 <= k < |w| ==> PartialSum(w, k - 1) < w[k])
  }

  /** The queues after k merges of a ladder. */
  ghost predicate Rung(w: seq<nat>, q: Queue, k: nat) {
    && 1 <= k < |w| && q.leaf == k + 1 && q.root == |q.ps| == k - 1 && |q.ws| == k
    && q.ws[k - 1] == PartialSum(w, k + 1)
    && (forall i :: 0 <= i < k - 1 ==> q.ps[i] == i + 1)
  }

  lemma NextRung(w: seq<nat>, q: Queue, k: nat)
    requires Ladder(w) && Rung(w, q, k) && k + 1 < |w| && Settled(w, q)
    ensures Rung(w, Merge(w, q), k + 1)
  {
    hide Settled;
    assert q.ws[q.root] == PartialSum(w, k + 1);
    assert w[k + 1] <= PartialSum(w, k + 1);
    assert !TakesInternal(w, q);
    var half := Take(w, q);
    assert half == q.(leaf := k + 2);
    if k + 2 < |w| {
      assert PartialSum(w, k + 2 - 1) < w[k + 2];
    }
    assert TakesInternal(w, half);
    var both := Take(w, half);
    assert both == half.(root := k, ps := q.ps + [k]);
    assert PartialSum(w, k + 2) == PartialSum(w, k + 1) + w[k + 1];
  }

  lemma {:induction false} LadderBuilds(w: seq<nat>, q: Queue, k: nat)
    requires Ladder(w) && Settled(w, q) && Rung(w, q, k)
    ensures Rung(w, Build(w, q), |w| - 1)
    decreases |w| - k
  {
    hide Settled, Merge, Rung, Ladder;
    assert |q.ws| == k && 1 <= k < |w| by {
      RungSize(w, q, k);
    }
    if k < |w| - 1 {
      NextRung(w, q, k);
      LadderBuilds(w, Merge(w, q), k + 1);
    }
  }

  lemma RungSize(w: seq<nat>, q: Queue, k: nat)
    requires Rung(w, q, k)
    ensures |q.ws| == k && 1 <= k < |w|
  {
  }

  /** Every node of a ladder but the root hangs under the next. */
  lemma LadderParents(w: seq<nat>)
    requires Ladder(w)
    ensures forall i :: 0 <= i < |w| - 2 ==> Parents(w)[i] == i + 1
  {
    hide Build;
    assert PartialSum(w, 2) == PartialSum(w, 1) + w[1] && PartialSum(w, 1) == PartialSum(w, 0) + w[0];
    LadderBuilds(w, Start(w), 1);
  }

  lemma {:induction false} LadderDepth(ps: seq<nat>, i: nat)
    requires Links(ps, |ps|) && i <= |ps| && forall j :: 0 <= j < |ps| ==> ps[j] == j + 1
    ensures Depth(ps, i) == |ps| - i
    decreases |ps| - i
  {
    hide Links;
    if i < |ps| {
      LadderDepth(ps, i + 1);
    }
  }

  /** How many nodes of a ladder are at depth d or deeper. */
  lemma LadderAbove(w: seq<nat>, d: nat)
    requires Ladder(w) && d <= |w| - 2
    ensures Above(Parents(w), d) == |w| - 1 - d
  {
    hide Build, Links, Depth;
    var ps := Parents(w);
    LadderParents(w);
    var n := Above(ps, d);
    LadderDepth(ps, |ps| - d);
    if d > 0 {
      LadderDepth(ps, |ps| - d + 1);
    }
  }

  /** Frequencies in rising order, unused symbols last. */
  ghost predicate Rising(freq: seq<nat>, m: nat) {
    && m <= |freq| <= 512
    && (forall i :: 0 <= i < m ==> freq[i] > 0) && (forall i :: m <= i < |freq| ==> freq[i] == 0)
    && (forall i, j :: 0 <= i < j < m ==> freq[i] <= freq[j])
  }

  lemma {:induction false} RisingKeys(freq: seq<nat>, m: nat)
    requires Rising(freq, m)
    ensures var ks := UsedKeys(freq); |ks| == m && forall i :: 0 <= i < m ==> ks[i] == Key(freq[i], i)
  {
    hide Key;
    if freq != [] {
      var s := |freq| - 1;
      RisingKeys(freq[..s], if m <= s then m else s);
    }
  }

  lemma {:induction false} InsertLast(s: seq<nat>, v: nat)
    requires forall i :: 0 <= i < |s| ==> s[i] <= v
    ensures Insert(s, v) == s + [v]
  {
  }

  lemma {:induction false} SortedAlready(s: seq<nat>)
    requires Ascending(s)
    ensures Sorted(s) == s
  {
    hide Insert;
    if s != [] {
      var n := |s| - 1;
      SortedAlready(s[..n]);
      InsertLast(s[..n], s[n]);
    }
  }

  lemma KeyOrder(f: nat, g: nat, i: nat, j: nat)
    requires f <= g && i < j
    ensures Key(f, i) <= Key(g, j)
  {
  }

  /** Rising frequencies are the tree's weights. */
  lemma RisingWeights(freq: seq<nat>, m: nat)
    requires Rising(freq, m)
    ensures Weights(Sorted(UsedKeys(freq))) == freq[..m]
  {
    hide Key, WeightOf, Sorted, UsedKeys;
    RisingKeys(freq, m);
    var ks := UsedKeys(freq);
    forall i, j | 0 <= i < j < m
      ensures ks[i] <= ks[j]
    {
      KeyOrder(freq[i], freq[j], i, j);
    }
    SortedAlready(ks);
    forall i | 0 <= i < m
      ensures WeightOf(ks[i]) == freq[i]
    {
      KeyParts(freq[i], i);
    }
  }

  /** A ladder of m symbols has m - 2 - max nodes too deep: past max + 3 symbols the
      lengths cannot be a code. */
  lemma LadderDeep(freq: seq<nat>, m: nat, max: nat)
    requires Rising(freq, m) && Ladder(freq[..m]) && max + 3 <= m
    ensures DeepNodes(freq, max) == m - 2 - max
  {
    hide Above, Parents, Ladder, Sorted, UsedKeys;
    RisingWeights(freq, m);
    LadderAbove(freq[..m], max + 1);
  }

  /** Nineteen frequencies, as many as there are code length symbols. */
  const STEEP: seq<nat> := [1, 1, 1, 3, 4, 7, 11, 18, 29, 47, 76, 0, 0, 0, 0, 0, 0, 0, 0]

  lemma SteepSums(w: seq<nat>)
    requires w == [1, 1, 1, 3, 4, 7, 11, 18, 29, 47, 76]
    ensures PartialSum(w, 1) == 1 && PartialSum(w, 2) == 2 && PartialSum(w, 3) == 3 && PartialSum(w, 4) == 6
    ensures PartialSum(w, 5) == 10 && PartialSum(w, 6) == 17 && PartialSum(w, 7) == 28 && PartialSum(w, 8) == 46
    ensures PartialSum(w, 9) == 75 && PartialSum(w, 10) == 122 && PartialSum(w, 11) == 198
  {
    assert PartialSum(w, 0) == 0;
  }

  lemma SteepDeep()
    ensures DeepNodes(STEEP, 7) == 2
  {
    hide DeepNodes, PartialSum;
    var w := STEEP[..11];
    assert w == [1, 1, 1, 3, 4, 7, 11, 18, 29, 47, 76];
    SteepSums(w);
    LadderDeep(STEEP, 11, 7);
  }

  /** What huff_lengths makes of them within seven bits is one code too many. */
  method SteepOverfull() returns (lens: seq<nat>)
    ensures |lens| == 19 && (forall s :: 0 <= s < 19 ==> lens[s] <= 7) && Kraft(lens, 7) == Pow2(7) + 1
    ensures !Complete(lens)
  {
    hide Kraft, DeepNodes, Complete, UsedKeys, Overlong, Best;
    SteepDeep();
    assert 19 <= Pow2(7);
    var a := HuffLengths.HuffLengths(STEEP, 7);
    lens := a[..];
    CompleteIff(lens, 19, 7, 1);
    assert lens[..19] == lens;
  }
}
