/** huff_lengths in http1/deflate.v: code lengths of at most max bits for a frequency
    table, and exactly how full a code they make. */
module HuffLengths {
  import opened Basics
  import opened Bits
  import opened Canonical
  import opened HuffTree
  import opened HuffLinks
  import opened HuffCounts
  import opened SortKeys
  import opened RadixSort
  import opened HuffBound
  import opened HuffOptimal

  /** The frequency above the symbol, so that sorting keys sorts by both. */
  function Key(f: nat, s: nat): nat {
    f * 512 + s
  }

  /** The used symbols as keys, frequency above symbol. */
  function UsedKeys(freq: seq<nat>): (ks: seq<nat>)
    requires |freq| <= 512
    ensures |ks| <= |freq|
  {
    if freq == [] then [] else
      var s := |freq| - 1;
      UsedKeys(freq[..s]) + if freq[s] != 0 then [Key(freq[s], s)] else []
  }

  function SymbolOf(key: nat): (s: nat)
    ensures s < 512
  {
    key % 512
  }

  function WeightOf(key: nat): nat {
    key / 512
  }

  /** A key names a used symbol and its frequency. */
  ghost predicate KeyOf(freq: seq<nat>, key: nat) {
    SymbolOf(key) < |freq| && freq[SymbolOf(key)] > 0 && WeightOf(key) == freq[SymbolOf(key)]
  }

  lemma KeyParts(f: nat, s: nat)
    requires s < 512
    ensures SymbolOf(Key(f, s)) == s && WeightOf(Key(f, s)) == f
  {
    DivUnique(f * 512 + s, 512, f, s);
  }

  /** The symbols of some keys. */
  ghost function Symbols(keys: seq<nat>): set<nat> {
    set i | 0 <= i < |keys| :: SymbolOf(keys[i])
  }

  lemma SymbolsPush(keys: seq<nat>, k: nat)
    requires k < |keys|
    ensures Symbols(keys[..k + 1]) == Symbols(keys[..k]) + {SymbolOf(keys[k])}
  {
    hide SymbolOf;
    var some, more := keys[..k], keys[..k + 1];
    forall s | s in Symbols(more)
      ensures s in Symbols(some) + {SymbolOf(keys[k])}
    {
      var i :| 0 <= i < |more| && SymbolOf(more[i]) == s;
      if i < k {
        assert some[i] == more[i];
      }
    }
    forall s | s in Symbols(some)
      ensures s in Symbols(more)
    {
      var i :| 0 <= i < |some| && SymbolOf(some[i]) == s;
      assert more[i] == some[i];
    }
    assert more[k] == keys[k];
  }

  /** The keys are those of the used symbols, in symbol order. */
  ghost predicate KeysAre(freq: seq<nat>, ks: seq<nat>) {
    && (forall i :: 0 <= i < |ks| ==> KeyOf(freq, ks[i]))
    && (forall s :: 0 <= s < |freq| && freq[s] > 0 ==> s in Symbols(ks))
    && (forall i, j :: 0 <= i < j < |ks| ==> SymbolOf(ks[i]) < SymbolOf(ks[j]))
  }

  lemma {:induction false} UsedKeysAre(freq: seq<nat>)
    requires |freq| <= 512
    ensures KeysAre(freq, UsedKeys(freq))
  {
    hide SymbolOf, WeightOf, Key, KeysAre;
    if freq == [] {
      NoKeys();
    } else {
      var s := |freq| - 1;
      UsedKeysAre(freq[..s]);
      KeysPush(freq[..s], freq[s], UsedKeys(freq[..s]));
      assert freq == freq[..s] + [freq[s]];
    }
  }

  lemma NoKeys()
    ensures KeysAre([], [])
  {
  }

  lemma KeysPush(freq: seq<nat>, f: nat, ks: seq<nat>)
    requires |freq| < 512 && KeysAre(freq, ks)
    ensures KeysAre(freq + [f], ks + if f != 0 then [Key(f, |freq|)] else [])
  {
    hide SymbolOf, WeightOf, Key, Symbols;
    var more := freq + [f];
    assert forall k :: KeyOf(freq, k) ==> KeyOf(more, k);
    if f == 0 {
      assert ks + [] == ks;
    } else {
      KeyParts(f, |freq|);
      var all := ks + [Key(f, |freq|)];
      SymbolsPush(all, |ks|);
      assert all[..|ks|] == ks && all[..|all|] == all;
      assert forall i :: 0 <= i < |ks| ==> all[i] == ks[i];
    }
  }

  /** The frequencies of the used symbols in order. */
  function Weights(keys: seq<nat>): (w: seq<nat>)
    ensures |w| == |keys|
  {
    seq(|keys|, i requires 0 <= i < |keys| => WeightOf(keys[i]))
  }

  /** The internal nodes of the unlimited Huffman tree that lie deeper than max. */
  ghost function DeepNodes(freq: seq<nat>, max: nat): nat
    requires |freq| <= 512
  {
    var w := Weights(Sorted(UsedKeys(freq)));
    if |w| < 2 then 0 else Above(Parents(w), max + 1)
  }

  /** Lengths for sorted keys: every key's symbol gets one, longest first. */
  ghost predicate Assigned(lens: seq<nat>, keys: seq<nat>, k: nat, l: nat, max: nat) {
    && k <= |keys|
    && (forall i :: 0 <= i < k ==> SymbolOf(keys[i]) < |lens| && l <= lens[SymbolOf(keys[i])] <= max)
    && (forall i, j :: 0 <= i < j < k ==> lens[SymbolOf(keys[i])] >= lens[SymbolOf(keys[j])])
    && (forall s :: 0 <= s < |lens| && s !in Symbols(keys[..k]) ==> lens[s] == 0)
  }

  ghost predicate DistinctSymbols(keys: seq<nat>, n: nat) {
    && (forall i :: 0 <= i < |keys| ==> SymbolOf(keys[i]) < n)
    && (forall i, j :: 0 <= i < j < |keys| ==> SymbolOf(keys[i]) != SymbolOf(keys[j]))
  }

  lemma AssignOne(lens: seq<nat>, keys: seq<nat>, k: nat, l: nat, max: nat)
    requires DistinctSymbols(keys, |lens|) && k < |keys| && 1 <= l <= max && Assigned(lens, keys, k, l, max)
    ensures lens[SymbolOf(keys[k])] == 0
    ensures Assigned(lens[SymbolOf(keys[k]) := l], keys, k + 1, l, max)
  {
    hide SymbolOf, Symbols;
    var s := SymbolOf(keys[k]);
    SymbolsPush(keys, k);
    SymbolFresh(keys, k, |lens|);
  }

  lemma SymbolFresh(keys: seq<nat>, k: nat, n: nat)
    requires DistinctSymbols(keys, n) && k < |keys|
    ensures SymbolOf(keys[k]) !in Symbols(keys[..k])
    ensures forall i :: 0 <= i < k ==> SymbolOf(keys[i]) != SymbolOf(keys[k])
  {
    hide SymbolOf;
  }

  /** The first k keys have the lengths their counts give them. */
  ghost predicate Counted(lens: seq<nat>, keys: seq<nat>, k: nat, c: seq<nat>, max: nat)
    requires max < |c|
  {
    && k <= |keys|
    && (forall i :: 0 <= i < k ==> SymbolOf(keys[i]) < |lens|)
    && (forall i, d: nat :: 0 <= i < k && d < max ==> (lens[SymbolOf(keys[i])] > d <==> i < |keys| - CodesUpTo(c, d)))
  }

  lemma {:induction false} TotalRises(c: seq<nat>, d: nat, e: nat)
    requires d <= e < |c|
    ensures CodesUpTo(c, d) <= CodesUpTo(c, e)
  {
    if d < e {
      TotalRises(c, d, e - 1);
    }
  }

  lemma CountOne(lens: seq<nat>, keys: seq<nat>, k: nat, l: nat, c: seq<nat>, max: nat)
    requires max < |c| && Counted(lens, keys, k, c, max) && DistinctSymbols(keys, |lens|) && k < |keys| && 1 <= l <= max
    requires |keys| - CodesUpTo(c, l) <= k < |keys| - CodesUpTo(c, l - 1)
    ensures Counted(lens[SymbolOf(keys[k]) := l], keys, k + 1, c, max)
  {
    hide SymbolOf, Symbols, CodesUpTo;
    SymbolFresh(keys, k, |lens|);
    forall d: nat | d < max
      ensures l > d <==> k < |keys| - CodesUpTo(c, d)
    {
      if d < l {
        TotalRises(c, d, l - 1);
      } else {
        TotalRises(c, l, d);
      }
    }
  }

  /** The lengths the tree of the sorted keys gives their symbols: counts per depth, those
      past max folded back, and the longest codes to the lightest keys. */
  ghost predicate FromCounts(lens: seq<nat>, keys: seq<nat>, max: nat)
    requires |keys| >= 2 && 1 <= max <= 15
  {
    var ps := Parents(Weights(keys));
    && Assigned(lens, keys, |keys|, 1, max)
    && exists c :: |c| == 16 && Clamped(c, ps, max)
                   && Counted(lens, keys, |keys|, FoldAll(c, max, LeavesAbove(ps, max + 1)), max)
  }

  /** No other lengths do. */
  lemma FromCountsUnique(x: seq<nat>, y: seq<nat>, keys: seq<nat>, max: nat)
    requires |keys| >= 2 && 1 <= max <= 15 && FromCounts(x, keys, max) && FromCounts(y, keys, max) && |x| == |y|
    ensures x == y
  {
    hide Assigned, Counted, LeavesAbove, Parents, Links, Clamped, FoldAll;
    var ps := Parents(Weights(keys));
    var over := LeavesAbove(ps, max + 1);
    var c :| |c| == 16 && Clamped(c, ps, max) && Counted(x, keys, |keys|, FoldAll(c, max, over), max);
    var d :| |d| == 16 && Clamped(d, ps, max) && Counted(y, keys, |keys|, FoldAll(d, max, over), max);
    ClampedUnique(c, d, ps, max);
    SameCounts(x, y, keys, FoldAll(c, max, over), max);
  }

  lemma SameCounts(x: seq<nat>, y: seq<nat>, keys: seq<nat>, c: seq<nat>, max: nat)
    requires max < |c| && Counted(x, keys, |keys|, c, max) && Counted(y, keys, |keys|, c, max) && |x| == |y|
    requires Assigned(x, keys, |keys|, 1, max) && Assigned(y, keys, |keys|, 1, max)
    ensures x == y
  {
    hide SymbolOf, CodesUpTo, Counted;
    assert keys[..|keys|] == keys;
    forall s | 0 <= s < |x|
      ensures x[s] == y[s]
    {
      if s in Symbols(keys) {
        var i :| 0 <= i < |keys| && SymbolOf(keys[i]) == s;
        var d := if x[s] <= y[s] then x[s] else y[s];
        if d < max {
          SameSide(x, y, keys, i, d, c, max);
        }
      }
    }
  }

  lemma SameSide(x: seq<nat>, y: seq<nat>, keys: seq<nat>, i: nat, d: nat, c: seq<nat>, max: nat)
    requires max < |c| && Counted(x, keys, |keys|, c, max) && Counted(y, keys, |keys|, c, max)
    requires i < |keys| && d < max
    ensures SymbolOf(keys[i]) < |x| && SymbolOf(keys[i]) < |y|
    ensures x[SymbolOf(keys[i])] > d <==> y[SymbolOf(keys[i])] > d
  {
    hide SymbolOf, CodesUpTo;
    assert x[SymbolOf(keys[i])] > d <==> i < |keys| - CodesUpTo(c, d);
  }

  lemma CountNone(lens: seq<nat>, keys: seq<nat>, c: seq<nat>, max: nat)
    requires max < |c|
    ensures Counted(lens, keys, 0, c, max)
  {
  }

  /** Hands out count[l] codes of each length, the longest first. */
  method Assign(keys: seq<nat>, count: array<nat>, max: nat, n: nat) returns (lens: array<nat>)
    requires count.Length == 16 && 1 <= max <= 15 && DistinctSymbols(keys, n)
    requires CodesUpTo(count[..], max) == |keys|
    ensures fresh(lens) && lens.Length == n
    ensures Assigned(lens[..], keys, |keys|, 1, max)
    ensures Kraft(lens[..], max) == CountSum(count[..], max, max)
    ensures Counted(lens[..], keys, |keys|, count[..], max)
  {
    hide Assigned, Kraft, Pow2, CountSum, CodesUpTo, SymbolOf, Counted;
    lens := new nat[n](_ => 0);
    KraftZeros(lens[..], max);
    ghost var c: seq<nat> := count[..];
    AssignNone(lens[..], keys, max);
    CountNone(lens[..], keys, c, max);
    SumsSplit(c, max, max);
    var k, l := 0, max;
    while l >= 1
      invariant 0 <= l <= max && k + CodesUpTo(c, l) == |keys| && count[..] == c
      invariant Kraft(lens[..], max) + CountSum(c, max, l) == CountSum(c, max, max)
      invariant Assigned(lens[..], keys, k, l + (if l == max then 0 else 1), max) && Counted(lens[..], keys, k, c, max)
      modifies lens
    {
      SumsSplit(c, max, l);
      AssignLower(lens[..], keys, k, l, max);
      ghost var start := Kraft(lens[..], max);
      var i := 0;
      assert 0 * Pow2(max - l) == 0;
      while i < count[l]
        invariant 0 <= i <= c[l] && k + (c[l] - i) + CodesUpTo(c, l - 1) == |keys| && count[..] == c
        invariant Kraft(lens[..], max) == start + i * Pow2(max - l)
        invariant Assigned(lens[..], keys, k, l, max) && Counted(lens[..], keys, k, c, max)
        modifies lens
      {
        var s := SymbolOf(keys[k]);
        AssignOne(lens[..], keys, k, l, max);
        CountOne(lens[..], keys, k, l, c, max);
        KraftSet(lens[..], s, l, max);
        MulSucc(i, Pow2(max - l));
        ghost var was: seq<nat> := lens[..];
        lens[s] := l;
        assert lens[..] == was[s := l];
        k, i := k + 1, i + 1;
      }
      l := l - 1;
    }
    SumsSplit(c, max, 0);
  }

  lemma AssignNone(lens: seq<nat>, keys: seq<nat>, max: nat)
    requires forall s :: 0 <= s < |lens| ==> lens[s] == 0
    ensures Assigned(lens, keys, 0, max, max)
  {
  }

  lemma AssignLower(lens: seq<nat>, keys: seq<nat>, k: nat, l: nat, max: nat)
    requires Assigned(lens, keys, k, l + (if l == max then 0 else 1), max)
    ensures Assigned(lens, keys, k, l, max)
  {
  }

  lemma SumsSplit(c: seq<nat>, max: nat, l: nat)
    requires l < |c| && l <= max
    ensures l == 0 ==> CountSum(c, max, l) == 0 && CodesUpTo(c, l) == 0
    ensures l > 0 ==> CountSum(c, max, l) == CountSum(c, max, l - 1) + c[l] * Pow2(max - l)
    ensures l > 0 ==> CodesUpTo(c, l) == CodesUpTo(c, l - 1) + c[l]
  {
  }

  lemma {:induction false} OccursOnce(s: seq<nat>)
    requires forall i, j :: 0 <= i < j < |s| ==> s[i] != s[j]
    ensures forall x :: multiset(s)[x] <= 1
  {
    if s != [] {
      var n := |s| - 1;
      OccursOnce(s[..n]);
      assert s == s[..n] + [s[n]];
      assert s[n] !in s[..n];
    }
  }

  lemma OccursTwice(t: seq<nat>, i: nat, j: nat)
    requires i < j < |t| && t[i] == t[j]
    ensures multiset(t)[t[i]] >= 2
  {
    assert t == t[..i + 1] + t[i + 1..];
    assert t[i] in t[..i + 1] && t[i + 1..][j - i - 1] == t[i];
    assert t[i] in multiset(t[..i + 1]) && t[i] in multiset(t[i + 1..]);
  }

  /** What sorting keeps of the keys: each names a used symbol, each symbol once. */
  lemma SortedKeysAre(freq: seq<nat>)
    requires |freq| <= 512
    ensures var t := Sorted(UsedKeys(freq));
            && Ascending(t) && (forall i :: 0 <= i < |t| ==> KeyOf(freq, t[i]))
            && DistinctSymbols(t, |freq|) && (forall s :: 0 <= s < |freq| && freq[s] > 0 ==> s in Symbols(t))
  {
    hide SymbolOf, WeightOf, Sorted, UsedKeys, Ascending;
    var ks, t := UsedKeys(freq), Sorted(UsedKeys(freq));
    UsedKeysAre(freq);
    SortedAscends(ks);
    SameMembers(ks, t);
    assert forall i :: 0 <= i < |t| ==> KeyOf(freq, t[i]) by {
      assert forall i :: 0 <= i < |t| ==> t[i] in ks;
    }
    assert forall s :: s in Symbols(ks) ==> s in Symbols(t) by {
      SymbolsSame(ks, t);
    }
    OccursOnce(ks);
    forall i, j | 0 <= i < j < |t|
      ensures SymbolOf(t[i]) != SymbolOf(t[j])
    {
      if SymbolOf(t[i]) == SymbolOf(t[j]) {
        SameKey(t[i], t[j]);
        OccursTwice(t, i, j);
      }
    }
  }

  lemma SameKey(x: nat, y: nat)
    requires SymbolOf(x) == SymbolOf(y) && WeightOf(x) == WeightOf(y)
    ensures x == y
  {
  }

  lemma SameMembers(s: seq<nat>, t: seq<nat>)
    requires multiset(s) == multiset(t)
    ensures forall i :: 0 <= i < |t| ==> t[i] in s
    ensures forall i :: 0 <= i < |s| ==> s[i] in t
  {
    forall i | 0 <= i < |t|
      ensures t[i] in s
    {
      assert t[i] in multiset(t);
    }
    forall i | 0 <= i < |s|
      ensures s[i] in t
    {
      assert s[i] in multiset(s);
    }
  }

  lemma SymbolsSame(s: seq<nat>, t: seq<nat>)
    requires forall i :: 0 <= i < |s| ==> s[i] in t
    ensures forall x :: x in Symbols(s) ==> x in Symbols(t)
  {
    hide SymbolOf;
    forall x | x in Symbols(s)
      ensures x in Symbols(t)
    {
      var i :| 0 <= i < |s| && SymbolOf(s[i]) == x;
      assert s[i] in t;
      var j :| 0 <= j < |t| && t[j] == s[i];
    }
  }

  /** The used symbols, collected as keys. */
  method Collect(freq: seq<nat>) returns (keys: array<nat>, m: nat)
    requires |freq| <= 288 && forall s :: 0 <= s < |freq| ==> freq[s] < 8388608
    ensures fresh(keys) && keys.Length == 288 && m <= |freq| && keys[..m] == UsedKeys(freq)
    ensures forall k :: 0 <= k < m ==> keys[k] < 4294967296
  {
    keys := new nat[288](_ => 0);
    m := 0;
    assert freq[..0] == [];
    for s := 0 to |freq|
      invariant m <= s && keys[..m] == UsedKeys(freq[..s])
      invariant forall k :: 0 <= k < m ==> keys[k] < 4294967296
    {
      assert freq[..s + 1][..s] == freq[..s];
      if freq[s] != 0 {
        ghost var was := keys[..m];
        keys[m] := Key(freq[s], s);
        m := m + 1;
        assert keys[..m] == was + [Key(freq[s], s)];
      }
    }
    assert freq[..|freq|] == freq;
  }

  /** The lengths of m >= 2 sorted keys. */
  method FromTree(freq: seq<nat>, keys: seq<nat>, max: nat) returns (lens: array<nat>)
    requires 2 <= |keys| <= |freq| <= 288 && 1 <= max <= 15 && |freq| <= Pow2(max)
    requires DistinctSymbols(keys, |freq|)
    ensures fresh(lens) && lens.Length == |freq| && Assigned(lens[..], keys, |keys|, 1, max)
    ensures Kraft(lens[..], max) == Pow2(max) + Above(Parents(Weights(keys)), max + 1) / 2
    ensures LeavesAbove(Parents(Weights(keys)), max + 1) == 0 ==> BySymbol(lens[..], keys) == Depths(Weights(keys))
    ensures FromCounts(lens[..], keys, max)
  {
    hide Assigned, Kraft, Pow2, CountSum, CodesUpTo, SymbolOf, WeightOf, Above, Depth, LeavesAbove, Clamped;
    hide Parents, Links;
    hide Counted, BySymbol, Depths;
    var m := |keys|;
    var a := new nat[288](_ => 0);
    for k := 0 to m
      invariant forall j :: 0 <= j < k ==> a[j] == WeightOf(keys[j])
    {
      a[k] := WeightOf(keys[k]);
    }
    ghost var w := Weights(keys);
    assert a[..m] == w;
    ghost var ps := Parents(w);
    BuildLinks(a, m);
    LinksToDepths(a, m, ps);
    LeafDepths(a, m, ps);
    var count, overflow := Tally(a, m, max, ps);
    ClampedFacts(count[..], ps, max);
    ClampedSum(count[..], ps, max);
    FoldExcess(ps, max);
    ghost var c: seq<nat> := count[..];
    Fold(count, max, overflow, Above(ps, max));
    lens := Assign(keys, count, max, |freq|);
    if overflow == 0 {
      TreeLengths(lens[..], keys, c, max);
    }
  }

  /** The lengths of the keys' symbols, key by key. */
  function BySymbol(lens: seq<nat>, keys: seq<nat>): (ls: seq<nat>)
    requires forall i :: 0 <= i < |keys| ==> SymbolOf(keys[i]) < |lens|
    ensures |ls| == |keys|
  {
    seq(|keys|, i requires 0 <= i < |keys| => lens[SymbolOf(keys[i])])
  }

  /** With no leaf too deep, the lengths are the depths of the leaves. */
  lemma TreeLengths(lens: seq<nat>, keys: seq<nat>, c: seq<nat>, max: nat)
    requires 2 <= |keys| && Clamped(c, Parents(Weights(keys)), max) && LeavesAbove(Parents(Weights(keys)), max + 1) == 0
    requires Assigned(lens, keys, |keys|, 1, max) && Counted(lens, keys, |keys|, c, max)
    ensures (forall i :: 0 <= i < |keys| ==> SymbolOf(keys[i]) < |lens|)
    ensures BySymbol(lens, keys) == Depths(Weights(keys))
  {
    hide SymbolOf, WeightOf, LeavesAbove, Parents, Links, CodesUpTo, Symbols;
    var w, ps := Weights(keys), Parents(Weights(keys));
    AtLeastOne(ps);
    forall i | 0 <= i < |keys|
      ensures lens[SymbolOf(keys[i])] == Depths(w)[i]
    {
      var l, d := lens[SymbolOf(keys[i])], Depths(w)[i];
      DeepLeaves(w, i, max + 1);
      DeepLeaves(w, i, l);
      DeepLeaves(w, i, d);
      CountSumShort(c, ps, max, l - 1);
      if d < l {
        DeepLeaves(w, i, d + 1);
        CountSumShort(c, ps, max, d);
      } else {
        CountSumShort(c, ps, max, d - 1);
      }
    }
  }

  lemma ClampedFacts(c: seq<nat>, ps: seq<nat>, max: nat)
    requires Links(ps, |ps|) && Clamped(c, ps, max)
    ensures c[0] == 0 && LeavesAbove(ps, max + 1) <= c[max]
  {
    hide LeavesAbove;
    LeavesAt(ps, max);
  }

  /** Overlong leaves are two for each node at max and one for each deeper node; the fold
      takes off half of them, so half the deeper nodes stay unpaid. */
  lemma FoldExcess(ps: seq<nat>, max: nat)
    requires Links(ps, |ps|)
    ensures (LeavesAbove(ps, max + 1) + 1) / 2 <= Above(ps, max)
    ensures Above(ps, max) - (LeavesAbove(ps, max + 1) + 1) / 2 == Above(ps, max + 1) / 2
  {
    hide Above;
    AboveFallsBy(ps, max);
  }

  /** A code for the used symbols: lengths of at most n bits within the Kraft sum. */
  ghost predicate IsCode(freq: seq<nat>, ls: seq<nat>, n: nat) {
    && |ls| == |freq| && Kraft(ls, n) <= Pow2(n)
    && forall s :: 0 <= s < |freq| ==> ls[s] <= n && (freq[s] > 0 ==> ls[s] >= 1)
  }

  /** No code for the frequencies spends fewer bits. */
  ghost predicate Best(freq: seq<nat>, lens: seq<nat>)
    requires |lens| == |freq|
  {
    forall ls, n :: IsCode(freq, ls, n) ==> Weighted(freq, lens) <= Weighted(freq, ls)
  }

  /** The leaves of the unlimited tree that lie deeper than max. */
  ghost function Overlong(freq: seq<nat>, max: nat): nat
    requires |freq| <= 512
  {
    var w := Weights(Sorted(UsedKeys(freq)));
    if |w| < 2 then 0 else LeavesAbove(Parents(w), max + 1)
  }

  lemma {:induction false} WeightedSwap(f: seq<nat>, ls: seq<nat>)
    requires |f| == |ls|
    ensures Weighted(f, ls) == Weighted(ls, f)
  {
    if f != [] {
      WeightedSwap(f[..|f| - 1], ls[..|f| - 1]);
    }
  }

  lemma WeightedClear(f: seq<nat>, ls: seq<nat>, s: nat)
    requires |f| == |ls| && s < |f|
    ensures Weighted(f, ls) == Weighted(f[s := 0], ls) + f[s] * ls[s]
  {
    hide Weighted;
    WeightedSwap(f, ls);
    WeightedSwap(f[s := 0], ls);
    WeightedSet(ls, f, s, 0);
  }

  lemma {:induction false} WeightedZeros(f: seq<nat>, ls: seq<nat>)
    requires |f| == |ls| && forall s :: 0 <= s < |f| ==> f[s] == 0
    ensures Weighted(f, ls) == 0
  {
    if f != [] {
      WeightedZeros(f[..|f| - 1], ls[..|f| - 1]);
    }
  }

  /** The keys stand for the used symbols of the table, each once. */
  ghost predicate Cover(freq: seq<nat>, keys: seq<nat>) {
    && DistinctSymbols(keys, |freq|) && (forall i :: 0 <= i < |keys| ==> KeyOf(freq, keys[i]))
    && (forall s :: 0 <= s < |freq| && freq[s] > 0 ==> s in Symbols(keys))
  }

  /** Without the last key's symbol. */
  lemma CoverLess(freq: seq<nat>, keys: seq<nat>)
    requires Cover(freq, keys) && keys != []
    ensures var n := |keys| - 1; Cover(freq[SymbolOf(keys[n]) := 0], keys[..n])
  {
    hide SymbolOf, WeightOf, Symbols;
    var n := |keys| - 1;
    SymbolFresh(keys, n, |freq|);
    SymbolsPush(keys, n);
    assert keys[..n + 1] == keys;
  }

  /** What a table costs, symbol by symbol or key by key. */
  lemma {:induction false} KeyCost(freq: seq<nat>, ls: seq<nat>, keys: seq<nat>)
    requires |ls| == |freq| && Cover(freq, keys)
    ensures Weighted(freq, ls) == Weighted(Weights(keys), BySymbol(ls, keys))
    decreases |keys|
  {
    hide SymbolOf, WeightOf, Weighted, Symbols;
    if keys == [] {
      assert forall s :: 0 <= s < |freq| ==> freq[s] == 0 by {
        NoSymbols();
      }
      WeightedZeros(freq, ls);
      WeightedNone();
    } else {
      var n := |keys| - 1;
      var s := SymbolOf(keys[n]);
      CoverLess(freq, keys);
      KeyCost(freq[s := 0], ls, keys[..n]);
      WeightedClear(freq, ls, s);
      assert Weights(keys) == Weights(keys[..n]) + [WeightOf(keys[n])];
      assert BySymbol(ls, keys) == BySymbol(ls, keys[..n]) + [ls[s]];
      WeightedPush(Weights(keys[..n]), BySymbol(ls, keys[..n]), WeightOf(keys[n]), ls[s]);
    }
  }

  lemma NoSymbols()
    ensures Symbols([]) == {}
  {
  }

  /** The used symbols take no more room than all. */
  lemma {:induction false} KeyRoom(ls: seq<nat>, keys: seq<nat>, n: nat)
    requires DistinctSymbols(keys, |ls|) && forall i :: 0 <= i < |keys| ==> 1 <= ls[SymbolOf(keys[i])] <= n
    ensures Room(BySymbol(ls, keys), n) <= Kraft(ls, n)
    decreases |keys|
  {
    hide SymbolOf, Pow2, Kraft;
    if keys != [] {
      hide Room;
      var k := |keys| - 1;
      var s := SymbolOf(keys[k]);
      var less := ls[s := 0];
      SymbolFresh(keys, k, |ls|);
      KeyRoom(less, keys[..k], n);
      assert BySymbol(less, keys[..k]) == BySymbol(ls, keys[..k]);
      assert BySymbol(ls, keys) == BySymbol(ls, keys[..k]) + [ls[s]];
      RoomConcat(BySymbol(ls, keys[..k]), [ls[s]], n);
      RoomOne(ls[s], n);
      assert less[s := ls[s]] == ls;
      KraftSet(less, s, ls[s], n);
    }
  }

  /** The depths of a best tree, symbol by symbol, are a best code. */
  lemma TreeBest(freq: seq<nat>, lens: seq<nat>, keys: seq<nat>)
    requires |lens| == |freq| && Cover(freq, keys) && |keys| >= 2 && Ascends(Weights(keys))
    requires BySymbol(lens, keys) == Depths(Weights(keys))
    ensures Best(freq, lens)
  {
    hide SymbolOf, WeightOf, Weighted, Room, Kraft, Pow2, BySymbol, Depths, Symbols, Ascends;
    KeyCost(freq, lens, keys);
    forall ls, n | IsCode(freq, ls, n)
      ensures Weighted(freq, lens) <= Weighted(freq, ls)
    {
      KeyCost(freq, ls, keys);
      KeyRoom(ls, keys, n);
      WithinKeys(ls, keys, n);
      Optimal(Weights(keys), BySymbol(ls, keys), n);
    }
  }

  lemma WithinKeys(ls: seq<nat>, keys: seq<nat>, n: nat)
    requires forall i :: 0 <= i < |keys| ==> SymbolOf(keys[i]) < |ls| && ls[SymbolOf(keys[i])] <= n
    ensures Within(BySymbol(ls, keys), n)
  {
  }

  /** One symbol, or none, cannot do better than one bit. */
  lemma FewBest(freq: seq<nat>, lens: seq<nat>, used: nat)
    requires |lens| == |freq| && used < |freq| && lens[used] == 1 && forall s :: 0 <= s < |freq| && s != used ==>
              freq[s] == 0
    ensures Best(freq, lens)
  {
    hide Weighted, Kraft, Pow2;
    forall ls, n | IsCode(freq, ls, n)
      ensures Weighted(freq, lens) <= Weighted(freq, ls)
    {
      WeightedClear(freq, lens, used);
      WeightedClear(freq, ls, used);
      WeightedZeros(freq[used := 0], lens);
      WeightedZeros(freq[used := 0], ls);
      if freq[used] > 0 {
        AtLeast(ls[used], freq[used]);
        assert ls[used] * freq[used] == freq[used] * ls[used];
      }
    }
  }

  lemma WeightsAscend(keys: seq<nat>)
    requires Ascending(keys)
    ensures Ascends(Weights(keys))
  {
    hide WeightOf;
    forall i, j | 0 <= i < j < |keys|
      ensures WeightOf(keys[i]) <= WeightOf(keys[j])
    {
      HeavierLater(keys[i], keys[j]);
    }
  }

  /** What the frequencies make of the lengths: those of the folded tree, or one bit for
      each of two symbols when fewer than two are used. */
  ghost predicate Huffman(freq: seq<nat>, lens: seq<nat>, max: nat)
    requires 2 <= |freq| <= 512 && 1 <= max <= 15
  {
    var t := Sorted(UsedKeys(freq));
    |lens| == |freq| && if |t| < 2 then TwoOnes(freq, lens) else FromCounts(lens, t, max)
  }

  /** The used symbol, or symbol 0, and another one. */
  ghost predicate TwoOnes(freq: seq<nat>, lens: seq<nat>)
    requires 2 <= |freq| <= 512 && |lens| == |freq|
  {
    var ks := UsedKeys(freq);
    var used := if |ks| == 1 then SymbolOf(ks[0]) else 0;
    var other := if used == 0 then 1 else 0;
    forall s :: 0 <= s < |lens| ==> lens[s] == if s == used || s == other then 1 else 0
  }

  /** A frequency table has one such table of lengths. */
  lemma HuffmanUnique(freq: seq<nat>, x: seq<nat>, y: seq<nat>, max: nat)
    requires 2 <= |freq| <= 512 && 1 <= max <= 15 && Huffman(freq, x, max) && Huffman(freq, y, max)
    ensures x == y
  {
    hide FromCounts, Sorted, UsedKeys, SymbolOf;
    var t := Sorted(UsedKeys(freq));
    if |t| >= 2 {
      FromCountsUnique(x, y, t, max);
    }
  }

  /** huff_lengths. Every used symbol gets 1 to max bits, rarer symbols no fewer, and the
      Kraft sum exceeds one by half the deep nodes: the code is complete exactly when at
      most one internal node of the unlimited tree lies deeper than max. When no leaf does,
      no code of any lengths spends fewer bits. */
  method HuffLengths(freq: seq<nat>, max: nat) returns (lens: array<nat>)
    requires 2 <= |freq| <= 288 && 1 <= max <= 15 && |freq| <= Pow2(max)
    requires forall s :: 0 <= s < |freq| ==> freq[s] < 8388608
    ensures fresh(lens) && lens.Length == |freq|
    ensures forall s :: 0 <= s < |freq| ==> lens[s] <= max && (freq[s] > 0 ==> lens[s] >= 1)
    ensures forall s, t :: 0 <= s < |freq| && 0 <= t < |freq| && 0 < freq[s] < freq[t] ==> lens[s] >= lens[t]
    ensures |UsedKeys(freq)| >= 2 ==> forall s :: 0 <= s < |freq| && freq[s] == 0 ==> lens[s] == 0
    ensures Kraft(lens[..], max) == Pow2(max) + DeepNodes(freq, max) / 2
    ensures Overlong(freq, max) == 0 ==> Best(freq, lens[..])
    ensures Huffman(freq, lens[..], max)
  {
    hide Kraft, Pow2, SymbolOf, WeightOf, Above, Parents, Sorted, UsedKeys, Assigned, Symbols, KeyOf;
    hide LeavesAbove, Best, BySymbol, Depths;
    var keys, m := Collect(freq);
    UsedKeysAre(freq);
    if m < 2 {
      var used := if m == 1 then SymbolOf(keys[0]) else 0;
      FewKeys(freq, UsedKeys(freq));
      var other := if used == 0 then 1 else 0;
      lens := new nat[|freq|](_ => 0);
      KraftZeros(lens[..], max);
      ghost var zero: seq<nat> := lens[..];
      KraftSet(zero, used, 1, max);
      KraftSet(zero[used := 1], other, 1, max);
      Pow2Double(max);
      lens[used] := 1;
      lens[other] := 1;
      assert lens[..] == zero[used := 1][other := 1];
      FewBest(freq, lens[..], used);
      return;
    }
    SortedKeysAre(freq);
    Sort(keys, m);
    ghost var t := Sorted(UsedKeys(freq));
    lens := FromTree(freq, keys[..m], max);
    LengthsOf(freq, lens[..], t, max);
    if Overlong(freq, max) == 0 {
      WeightsAscend(t);
      TreeBest(freq, lens[..], t);
    }
  }

  lemma Pow2Double(n: nat)
    requires n > 0
    ensures Pow2(n) == 2 * Pow2(n - 1)
  {
  }

  lemma FewKeys(freq: seq<nat>, ks: seq<nat>)
    requires KeysAre(freq, ks) && |ks| < 2
    ensures |ks| == 1 ==> SymbolOf(ks[0]) < |freq| && forall s :: 0 <= s < |freq| && freq[s] > 0 ==>
              s == SymbolOf(ks[0])
    ensures |ks| == 0 ==> forall s :: 0 <= s < |freq| ==> freq[s] == 0
  {
    hide SymbolOf;
    if |ks| == 1 {
      assert KeyOf(freq, ks[0]);
    }
  }

  /** Lengths by key position read back by symbol. */
  lemma LengthsOf(freq: seq<nat>, lens: seq<nat>, t: seq<nat>, max: nat)
    requires |lens| == |freq| && Assigned(lens, t, |t|, 1, max) && Ascending(t)
    requires forall i :: 0 <= i < |t| ==> KeyOf(freq, t[i])
    requires forall s :: 0 <= s < |freq| && freq[s] > 0 ==> s in Symbols(t)
    ensures forall s :: 0 <= s < |freq| ==> lens[s] <= max && (freq[s] > 0 ==> lens[s] >= 1)
    ensures forall s, u :: 0 <= s < |freq| && 0 <= u < |freq| && 0 < freq[s] < freq[u] ==> lens[s] >= lens[u]
    ensures forall s :: 0 <= s < |freq| && freq[s] == 0 ==> lens[s] == 0
  {
    hide SymbolOf, WeightOf;
    assert t[..|t|] == t;
    forall s | 0 <= s < |freq|
      ensures lens[s] <= max && (freq[s] > 0 ==> lens[s] >= 1) && (freq[s] == 0 ==> lens[s] == 0)
    {
      if s in Symbols(t) {
        var i :| 0 <= i < |t| && SymbolOf(t[i]) == s;
        assert KeyOf(freq, t[i]);
      }
    }
    forall s, u | 0 <= s < |freq| && 0 <= u < |freq| && 0 < freq[s] < freq[u]
      ensures lens[s] >= lens[u]
    {
      assert s in Symbols(t) && u in Symbols(t);
      var i :| 0 <= i < |t| && SymbolOf(t[i]) == s;
      var j :| 0 <= j < |t| && SymbolOf(t[j]) == u;
      assert KeyOf(freq, t[i]) && KeyOf(freq, t[j]);
      if j <= i {
        HeavierLater(t[j], t[i]);
      }
    }
  }

  lemma HeavierLater(x: nat, y: nat)
    requires x <= y
    ensures WeightOf(x) <= WeightOf(y)
  {
  }
}
