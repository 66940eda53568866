/** sort_keys in http1/deflate.v: insertion sort for a few keys, a least-significant-digit
    radix sort for more. Both leave the one ascending arrangement of the keys. */
module SortKeys {
  import opened Basics

  function Insert(s: seq<nat>, v: nat): (r: seq<nat>)
    ensures |r| == |s| + 1
  {
    if s == [] || s[|s| - 1] <= v then s + [v] else Insert(s[..|s| - 1], v) + [s[|s| - 1]]
  }

  /** The keys in ascending order. */
  function Sorted(s: seq<nat>): (r: seq<nat>)
    ensures |r| == |s|
  {
    if s == [] then [] else Insert(Sorted(s[..|s| - 1]), s[|s| - 1])
  }

  ghost predicate Ascending(s: seq<nat>) {
    forall i, j :: 0 <= i < j < |s| ==> s[i] <= s[j]
  }

  lemma {:induction false} InsertKeeps(s: seq<nat>, v: nat)
    ensures multiset(Insert(s, v)) == multiset(s) + multiset{v}
  {
    if s == [] || s[|s| - 1] <= v {
    } else {
      var n := |s| - 1;
      InsertKeeps(s[..n], v);
      assert s == s[..n] + [s[n]];
    }
  }

  lemma {:induction false} InsertAscends(s: seq<nat>, v: nat)
    requires Ascending(s)
    ensures Ascending(Insert(s, v))
  {
    if s == [] || s[|s| - 1] <= v {
    } else {
      var n := |s| - 1;
      InsertAscends(s[..n], v);
      InsertKeeps(s[..n], v);
      AllBelow(Insert(s[..n], v), s[..n], v, s[n]);
    }
  }

  lemma AllBelow(r: seq<nat>, s: seq<nat>, v: nat, top: nat)
    requires multiset(r) == multiset(s) + multiset{v} && v <= top && forall i :: 0 <= i < |s| ==> s[i] <= top
    ensures forall i :: 0 <= i < |r| ==> r[i] <= top
  {
    forall i | 0 <= i < |r|
      ensures r[i] <= top
    {
      assert r[i] in multiset(r);
      assert r[i] == v || r[i] in s;
    }
  }

  /** Sorting orders the keys and keeps them all. */
  lemma {:induction false} SortedAscends(s: seq<nat>)
    ensures Ascending(Sorted(s)) && multiset(Sorted(s)) == multiset(s)
  {
    if s != [] {
      var n := |s| - 1;
      SortedAscends(s[..n]);
      InsertAscends(Sorted(s[..n]), s[n]);
      InsertKeeps(Sorted(s[..n]), s[n]);
      assert s == s[..n] + [s[n]];
    }
  }

  lemma LastLargest(s: seq<nat>, x: nat)
    requires Ascending(s) && s != [] && x in multiset(s)
    ensures x <= s[|s| - 1]
  {
    assert x in s;
    var i :| 0 <= i < |s| && s[i] == x;
  }

  lemma LastOff(s: seq<nat>)
    requires s != []
    ensures multiset(s[..|s| - 1]) == multiset(s) - multiset{s[|s| - 1]} && s[|s| - 1] in multiset(s)
  {
    assert s == s[..|s| - 1] + [s[|s| - 1]];
  }

  lemma FrontAscends(s: seq<nat>, n: nat)
    requires Ascending(s) && n <= |s|
    ensures Ascending(s[..n])
  {
  }

  lemma SameSize(s: seq<nat>, t: seq<nat>)
    requires multiset(s) == multiset(t)
    ensures |s| == |t|
  {
    assert |multiset(s)| == |multiset(t)|;
  }

  lemma SameLast(s: seq<nat>, t: seq<nat>)
    requires Ascending(s) && Ascending(t) && multiset(s) == multiset(t) && s != [] && t != []
    ensures s[|s| - 1] == t[|t| - 1]
    ensures multiset(s[..|s| - 1]) == multiset(t[..|t| - 1])
  {
    hide Ascending;
    LastOff(s);
    LastOff(t);
    LastLargest(s, t[|t| - 1]);
    LastLargest(t, s[|s| - 1]);
  }

  /** There is only one ascending arrangement. */
  lemma {:induction false} AscendingUnique(s: seq<nat>, t: seq<nat>)
    requires Ascending(s) && Ascending(t) && multiset(s) == multiset(t)
    ensures s == t
  {
    hide Ascending;
    SameSize(s, t);
    if s != [] {
      SameLast(s, t);
      var n := |s| - 1;
      FrontAscends(s, n);
      FrontAscends(t, n);
      AscendingUnique(s[..n], t[..n]);
      Rejoin(s, n);
      Rejoin(t, n);
    }
  }

  lemma Rejoin(s: seq<nat>, n: nat)
    requires |s| == n + 1
    ensures s == s[..n] + [s[n]]
  {
  }

  lemma InsertPeel(p: seq<nat>, v: nat, j: nat)
    requires 0 < j <= |p| && p[j - 1] > v
    ensures Insert(p[..j], v) + p[j..] == Insert(p[..j - 1], v) + p[j - 1..]
  {
    assert p[..j][..j - 1] == p[..j - 1];
    Assoc(Insert(p[..j - 1], v), [p[j - 1]], p[j..]);
    assert [p[j - 1]] + p[j..] == p[j - 1..];
  }

  lemma InsertHere(p: seq<nat>, v: nat, j: nat)
    requires j <= |p| && (j == 0 || p[j - 1] <= v)
    ensures Insert(p[..j], v) == p[..j] + [v]
  {
  }

  /** The place of v in the sorted front p, found by shifting larger keys up. */
  method InsertInto(keys: array<nat>, k: nat, ghost p: seq<nat>)
    requires k < keys.Length && keys[..k] == p
    modifies keys
    ensures keys[..k + 1] == Insert(p, old(keys[k]))
    ensures keys[k + 1..] == old(keys[k + 1..])
  {
    hide Insert;
    var v := keys[k];
    var j := k;
    assert p[..k] == p && p[k..] == [] && Insert(p, v) + [] == Insert(p, v);
    while j > 0 && keys[j - 1] > v
      invariant 0 <= j <= k
      invariant forall i :: 0 <= i < j ==> keys[i] == p[i]
      invariant forall i :: j <= i < k ==> keys[i + 1] == p[i]
      invariant forall i :: k < i < keys.Length ==> keys[i] == old(keys[i])
      invariant Insert(p, v) == Insert(p[..j], v) + p[j..]
    {
      InsertPeel(p, v, j);
      keys[j] := keys[j - 1];
      j := j - 1;
    }
    InsertHere(p, v, j);
    keys[j] := v;
    assert keys[..k + 1] == (p[..j] + [v]) + p[j..];
  }

  method InsertionSort(keys: array<nat>, m: nat)
    requires m <= keys.Length
    modifies keys
    ensures keys[..m] == Sorted(old(keys[..m]))
  {
    ghost var s := keys[..m];
    if m == 0 {
      return;
    }
    assert s[..1] == [s[0]] && s[..1][..0] == [];
    for k := 1 to m
      invariant keys[..k] == Sorted(s[..k])
      invariant forall i :: k <= i < m ==> keys[i] == s[i]
    {
      ghost var was := keys[..];
      InsertInto(keys, k, keys[..k]);
      assert s[..k + 1][..k] == s[..k];
      forall i | k + 1 <= i < m
        ensures keys[i] == s[i]
      {
        assert keys[k + 1..][i - k - 1] == was[k + 1..][i - k - 1];
      }
    }
    assert s[..m] == s;
  }
}
