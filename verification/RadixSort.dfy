/** The radix half of sort_keys in http1/deflate.v: one stable pass per byte, least
    significant first, as many passes as the largest key needs. */
module RadixSort {
  import opened Basics
  import opened Bits
  import opened SortKeys

  /** The byte of x a pass at weight p sorts by. */
  function Digit(x: nat, p: nat): (d: nat)
    requires p > 0
    ensures d < 256
  {
    DivNat(x, p);
    (x / p) % 256
  }

  /** The keys whose digit is d, in order. */
  function Bucket(s: seq<nat>, d: nat, p: nat): (r: seq<nat>)
    requires p > 0
  {
    if s == [] then [] else
      var n := |s| - 1;
      Bucket(s[..n], d, p) + if Digit(s[n], p) == d then [s[n]] else []
  }

  /** Buckets 0..n one after another: what a pass leaves when n is 256. */
  function Buckets(s: seq<nat>, n: nat, p: nat): seq<nat>
    requires p > 0
  {
    if n == 0 then [] else Buckets(s, n - 1, p) + Bucket(s, n - 1, p)
  }

  /** Sorted by the bytes below weight p. */
  ghost predicate Ordered(s: seq<nat>, p: nat)
    requires p > 0
  {
    forall i, j :: 0 <= i < j < |s| ==> Low(s[i], p) <= Low(s[j], p)
  }

  function Low(x: nat, p: nat): (r: nat)
    requires p > 0
    ensures r < p
  {
    DivNat(x, p);
    x % p
  }

  lemma LowDigit(x: nat, p: nat)
    requires p > 0
    ensures Low(x, 256 * p) == Digit(x, p) * p + Low(x, p)
  {
    DivNat(x, p);
    var q, d, r := x / p, (x / p) % 256, x % p;
    assert q == 256 * (q / 256) + d;
    SplitTwice(q / 256, d, p, r);
    assert x == (q / 256) * (256 * p) + (d * p + r);
    MulMono(d, 255, p);
    MulMono(0, d, p);
    DivUnique(x, 256 * p, q / 256, d * p + r);
  }

  lemma SplitTwice(h: int, d: int, p: int, r: int)
    ensures (256 * h + d) * p + r == h * (256 * p) + (d * p + r)
  {
  }

  lemma {:induction false} BucketOrdered(s: seq<nat>, d: nat, p: nat)
    requires p > 0 && Ordered(s, p)
    ensures Ordered(Bucket(s, d, p), p)
    ensures forall i :: 0 <= i < |Bucket(s, d, p)| ==> Digit(Bucket(s, d, p)[i], p) == d && Bucket(s, d, p)[i] in s
  {
    hide Digit, Low;
    if s != [] {
      var n := |s| - 1;
      BucketOrdered(s[..n], d, p);
      var b := Bucket(s[..n], d, p);
      forall i | 0 <= i < |b|
        ensures b[i] in s && Low(b[i], p) <= Low(s[n], p)
      {
        assert b[i] in s[..n];
        var j :| 0 <= j < n && s[..n][j] == b[i];
        assert s[j] == b[i];
      }
    }
  }

  /** A stable pass orders by one byte more. */
  lemma {:induction false} BucketsOrdered(s: seq<nat>, n: nat, p: nat)
    requires p > 0 && Ordered(s, p)
    ensures Ordered(Buckets(s, n, p), 256 * p)
    ensures forall i :: 0 <= i < |Buckets(s, n, p)| ==> Digit(Buckets(s, n, p)[i], p) < n
  {
    hide Digit, Low;
    if n > 0 {
      BucketsOrdered(s, n - 1, p);
      BucketOrdered(s, n - 1, p);
      var a, b := Buckets(s, n - 1, p), Bucket(s, n - 1, p);
      forall i, j | 0 <= i < j < |a + b|
        ensures Low((a + b)[i], 256 * p) <= Low((a + b)[j], 256 * p)
      {
        if j >= |a| {
          var x, y := (a + b)[i], b[j - |a|];
          LowDigit(x, p);
          LowDigit(y, p);
          if i < |a| {
            assert Digit(x, p) + 1 <= n - 1;
            MulMono(Digit(x, p) + 1, n - 1, p);
            MulSucc(Digit(x, p), p);
          } else {
            assert x == b[i - |a|];
          }
        }
      }
    }
  }

  lemma BucketPush(s: seq<nat>, x: nat, d: nat, p: nat)
    requires p > 0
    ensures Bucket(s + [x], d, p) == Bucket(s, d, p) + if Digit(x, p) == d then [x] else []
  {
    assert (s + [x])[..|s|] == s;
  }

  lemma {:induction false} BucketsPush(s: seq<nat>, x: nat, n: nat, p: nat)
    requires p > 0
    ensures multiset(Buckets(s + [x], n, p)) == multiset(Buckets(s, n, p)) + if Digit(x, p) < n then multiset{x}
              else multiset{}
  {
    hide Digit, Bucket;
    if n > 0 {
      BucketsPush(s, x, n - 1, p);
      BucketPush(s, x, n - 1, p);
    }
  }

  lemma {:induction false} BucketsKeep(s: seq<nat>, p: nat)
    requires p > 0
    ensures multiset(Buckets(s, 256, p)) == multiset(s)
  {
    hide Digit, Bucket, Buckets;
    if s == [] {
      NoBuckets(256, p);
    } else {
      var n := |s| - 1;
      BucketsKeep(s[..n], p);
      BucketsPush(s[..n], s[n], 256, p);
      assert s == s[..n] + [s[n]];
    }
  }

  lemma {:induction false} NoBuckets(n: nat, p: nat)
    requires p > 0
    ensures Buckets([], n, p) == []
  {
    if n > 0 {
      NoBuckets(n - 1, p);
    }
  }

  lemma {:induction false} BucketGrows(s: seq<nat>, k: nat, d: nat, p: nat)
    requires p > 0 && k <= |s|
    ensures |Bucket(s[..k], d, p)| <= |Bucket(s, d, p)|
    ensures k < |s| && Digit(s[k], p) == d ==> |Bucket(s[..k], d, p)| < |Bucket(s, d, p)|
    decreases |s|
  {
    hide Digit;
    if k == |s| {
      assert s[..k] == s;
    } else {
      var n := |s| - 1;
      BucketGrows(s[..n], k, d, p);
      assert s[..n][..k] == s[..k];
    }
  }

  lemma {:induction false} StartsAscend(s: seq<nat>, d: nat, e: nat, p: nat)
    requires p > 0 && d <= e
    ensures |Buckets(s, d, p)| <= |Buckets(s, e, p)|
  {
    hide Bucket;
    if d < e {
      StartsAscend(s, d, e - 1, p);
    }
  }

  /** How many keys there are before each digit's bucket. */
  method Offsets(s: seq<nat>, p: nat) returns (count: array<nat>)
    requires p > 0
    ensures fresh(count) && count.Length == 257
    ensures forall d :: 0 <= d <= 256 ==> count[d] == |Buckets(s, d, p)|
  {
    hide Digit, Bucket, Buckets;
    count := new nat[257](_ => 0);
    EmptyBuckets(s[..0], p);
    assert s[..0] == [];
    for k := 0 to |s|
      invariant count[0] == 0
      invariant forall d :: 1 <= d <= 256 ==> count[d] == |Bucket(s[..k], d - 1, p)|
    {
      assert s[..k + 1] == s[..k] + [s[k]];
      forall d: nat
        ensures |Bucket(s[..k + 1], d, p)| == |Bucket(s[..k], d, p)| + if Digit(s[k], p) == d then 1 else 0
      {
        BucketPush(s[..k], s[k], d, p);
      }
      var b := Digit(s[k], p);
      ghost var was: seq<nat> := count[..];
      count[b + 1] := count[b + 1] + 1;
      assert forall d :: 1 <= d <= 256 ==> count[d] == was[d] + if d == b + 1 then 1 else 0;
    }
    assert s[..|s|] == s;
    FirstBucket(s, p);
    for b := 1 to 257
      invariant forall d :: 0 <= d < b ==> count[d] == |Buckets(s, d, p)|
      invariant forall d :: b <= d <= 256 ==> count[d] == |Bucket(s, d - 1, p)|
    {
      NextBucket(s, b, p);
      count[b] := count[b] + count[b - 1];
    }
  }

  lemma EmptyBuckets(s: seq<nat>, p: nat)
    requires p > 0 && s == []
    ensures forall d: nat :: |Bucket(s, d, p)| == 0
  {
  }

  lemma FirstBucket(s: seq<nat>, p: nat)
    requires p > 0
    ensures |Buckets(s, 0, p)| == 0
  {
  }

  lemma NextBucket(s: seq<nat>, n: nat, p: nat)
    requires p > 0 && n > 0
    ensures Buckets(s, n, p) == Buckets(s, n - 1, p) + Bucket(s, n - 1, p)
  {
  }

  /** Every key placed so far is at its bucket's offset. */
  ghost predicate Placed(tmp: seq<nat>, s: seq<nat>, k: nat, p: nat)
    requires p > 0 && k <= |s|
  {
    && |tmp| >= |s| == |Buckets(s, 256, p)|
    && forall d :: 0 <= d < 256 ==> PlacedDigit(tmp, s, k, d, p)
  }

  ghost predicate PlacedDigit(tmp: seq<nat>, s: seq<nat>, k: nat, d: nat, p: nat)
    requires p > 0 && k <= |s|
  {
    var at, b := |Buckets(s, d, p)|, Bucket(s[..k], d, p);
    at + |b| <= |tmp| && tmp[at..at + |b|] == b
  }

  lemma PlaceBounds(s: seq<nat>, k: nat, d: nat, p: nat)
    requires p > 0 && k <= |s| == |Buckets(s, 256, p)| && d < 256
    ensures |Buckets(s, d, p)| + |Bucket(s[..k], d, p)| <= |Buckets(s, d + 1, p)| <= |s|
    ensures k < |s| && Digit(s[k], p) == d ==> |Buckets(s, d, p)| + |Bucket(s[..k], d, p)| < |Buckets(s, d + 1, p)|
  {
    hide Digit, Bucket, Buckets;
    BucketGrows(s, k, d, p);
    NextBucket(s, d + 1, p);
    StartsAscend(s, d + 1, 256, p);
  }

  lemma PlaceOne(tmp: seq<nat>, s: seq<nat>, k: nat, p: nat)
    requires p > 0 && k < |s| && Placed(tmp, s, k, p)
    ensures var b := Digit(s[k], p);
            var at := |Buckets(s, b, p)| + |Bucket(s[..k], b, p)|;
            at < |s| && Placed(tmp[at := s[k]], s, k + 1, p)
  {
    hide Digit, Bucket, Buckets;
    var b := Digit(s[k], p);
    var at := |Buckets(s, b, p)| + |Bucket(s[..k], b, p)|;
    PlaceBounds(s, k, b, p);
    var now := tmp[at := s[k]];
    assert s[..k + 1] == s[..k] + [s[k]];
    var next := k + 1;
    forall d | 0 <= d < 256
      ensures PlacedDigit(now, s, next, d, p)
    {
      assert PlacedDigit(tmp, s, k, d, p);
      BucketPush(s[..k], s[k], d, p);
      PlaceBounds(s, k, d, p);
      var start, old_ := |Buckets(s, d, p)|, Bucket(s[..k], d, p);
      if d == b {
        assert now[start..at + 1] == tmp[start..at] + [s[k]];
      } else {
        if d < b {
          StartsAscend(s, d + 1, b, p);
        } else {
          StartsAscend(s, b + 1, d, p);
        }
        assert now[start..start + |old_|] == tmp[start..start + |old_|];
        assert old_ + [] == old_;
      }
    }
  }

  lemma {:induction false} PlacedAll(tmp: seq<nat>, s: seq<nat>, n: nat, p: nat)
    requires p > 0 && n <= 256 && Placed(tmp, s, |s|, p)
    ensures |Buckets(s, n, p)| <= |s| && tmp[..|Buckets(s, n, p)|] == Buckets(s, n, p)
  {
    hide Digit, Bucket;
    StartsAscend(s, n, 256, p);
    if n > 0 {
      PlacedAll(tmp, s, n - 1, p);
      assert s[..|s|] == s;
      var a, b := Buckets(s, n - 1, p), Bucket(s, n - 1, p);
      assert PlacedDigit(tmp, s, |s|, n - 1, p);
      assert tmp[..|a| + |b|] == tmp[..|a|] + tmp[|a|..|a| + |b|];
    }
  }

  /** One pass: keys become the buckets in order. */
  method Pass(keys: array<nat>, m: nat, p: nat)
    requires p > 0 && m <= keys.Length
    modifies keys
    ensures keys[..m] == Buckets(old(keys[..m]), 256, p)
  {
    hide Digit, Bucket, Buckets, Placed;
    var s := keys[..m];
    var count := Offsets(s, p);
    var tmp := new nat[m](_ => 0);
    PlaceNone(tmp[..], s, p);
    for k := 0 to m
      invariant Placed(tmp[..], s, k, p)
      invariant forall d :: 0 <= d < 256 ==> count[d] == |Buckets(s, d, p)| + |Bucket(s[..k], d, p)|
    {
      var b := Digit(s[k], p);
      PlaceOne(tmp[..], s, k, p);
      assert s[..k + 1] == s[..k] + [s[k]];
      forall d: nat
        ensures |Bucket(s[..k + 1], d, p)| == |Bucket(s[..k], d, p)| + if b == d then 1 else 0
      {
        BucketPush(s[..k], s[k], d, p);
      }
      ghost var was: seq<nat> := tmp[..];
      ghost var at := count[b];
      tmp[count[b]] := s[k];
      assert tmp[..] == was[at := s[k]];
      count[b] := count[b] + 1;
    }
    PlacedAll(tmp[..], s, 256, p);
    PassLength(s, p);
    forall k | 0 <= k < m {
      keys[k] := tmp[k];
    }
    assert keys[..m] == tmp[..][..m];
  }

  lemma PassLength(s: seq<nat>, p: nat)
    requires p > 0
    ensures |Buckets(s, 256, p)| == |s|
  {
    BucketsKeep(s, p);
    SameSize(Buckets(s, 256, p), s);
  }

  lemma PlaceNone(tmp: seq<nat>, s: seq<nat>, p: nat)
    requires p > 0 && |tmp| == |s|
    ensures Placed(tmp, s, 0, p)
    ensures forall d: nat :: |Bucket(s[..0], d, p)| == 0
  {
    hide Buckets;
    EmptyBuckets(s[..0], p);
    PassLength(s, p);
    forall d | 0 <= d < 256
      ensures PlacedDigit(tmp, s, 0, d, p)
    {
      StartsAscend(s, d, 256, p);
    }
  }

  /** The union of two words, bit by bit. */
  function Or(a: nat, b: nat): nat
    decreases a + b
  {
    if a == 0 then b else if b == 0 then a else
      (if a % 2 == 1 || b % 2 == 1 then 1 else 0) + 2 * Or(a / 2, b / 2)
  }

  /** A union is below a power of two exactly when both words are. */
  lemma {:induction false} OrBelow(a: nat, b: nat, n: nat)
    ensures Or(a, b) < Pow2(n) <==> a < Pow2(n) && b < Pow2(n)
    decreases n
  {
    if a != 0 && b != 0 {
      if n == 0 {
        OrPositive(a, b);
      } else {
        OrBelow(a / 2, b / 2, n - 1);
      }
    }
  }

  lemma {:induction false} OrPositive(a: nat, b: nat)
    requires a > 0 || b > 0
    ensures Or(a, b) > 0
    decreases a + b
  {
    if a != 0 && b != 0 && a % 2 == 0 && b % 2 == 0 {
      OrPositive(a / 2, b / 2);
    }
  }

  /** The union of all keys: it needs as many bytes as the largest does. */
  method UnionOf(keys: array<nat>, m: nat) returns (top: nat)
    requires m <= keys.Length
    ensures forall n: nat :: top < Pow2(n) <==> forall k :: 0 <= k < m ==> keys[k] < Pow2(n)
  {
    top := 0;
    for k := 0 to m
      invariant forall n: nat :: top < Pow2(n) <==> forall j :: 0 <= j < k ==> keys[j] < Pow2(n)
    {
      forall n: nat
        ensures Or(top, keys[k]) < Pow2(n) <==> top < Pow2(n) && keys[k] < Pow2(n)
      {
        OrBelow(top, keys[k], n);
      }
      top := Or(top, keys[k]);
    }
  }

  lemma OrderedOne(s: seq<nat>)
    ensures Ordered(s, 1)
  {
  }

  lemma OrderedAll(s: seq<nat>, p: nat)
    requires p > 0 && Ordered(s, p) && forall i :: 0 <= i < |s| ==> s[i] < p
    ensures Ascending(s)
  {
    forall i | 0 <= i < |s|
      ensures Low(s[i], p) == s[i]
    {
      DivUnique(s[i], p, 0, s[i]);
    }
  }

  /** The radix sort of 32-bit keys. */
  method Radix(keys: array<nat>, m: nat)
    requires m <= keys.Length && forall k :: 0 <= k < m ==> keys[k] < 4294967296
    modifies keys
    ensures keys[..m] == Sorted(old(keys[..m]))
  {
    hide Ordered, Pow2, Buckets;
    ghost var s := keys[..m];
    var top := UnionOf(keys, m);
    Pow2Word();
    Pow2Eight();
    var shift := 0;
    OrderedOne(s);
    Pow2Zero();
    while shift < 32 && ShiftDown(top, shift) != 0
      invariant 0 <= shift <= 32 && shift % 8 == 0
      invariant multiset(keys[..m]) == multiset(s) && Ordered(keys[..m], Pow2(shift))
      decreases 32 - shift
    {
      Pow2Add(8, shift);
      BucketsOrdered(keys[..m], 256, Pow2(shift));
      BucketsKeep(keys[..m], Pow2(shift));
      Pass(keys, m, Pow2(shift));
      shift := shift + 8;
    }
    KeysBelow(s, top, shift);
    SameBelow(s, keys[..m], Pow2(shift));
    OrderedAll(keys[..m], Pow2(shift));
    SortedAscends(s);
    AscendingUnique(keys[..m], Sorted(s));
  }

  lemma KeysBelow(s: seq<nat>, top: nat, shift: nat)
    requires shift == 32 || ShiftDown(top, shift) == 0
    requires forall k :: 0 <= k < |s| ==> s[k] < 4294967296
    requires forall n: nat :: top < Pow2(n) <==> forall k :: 0 <= k < |s| ==> s[k] < Pow2(n)
    ensures forall k :: 0 <= k < |s| ==> s[k] < Pow2(shift)
  {
    hide Pow2;
    Pow2Word();
    DivNat(top, Pow2(shift));
    if shift != 32 {
      assert (top / Pow2(shift)) * Pow2(shift) == 0;
      assert top < Pow2(shift);
    }
  }

  lemma SameBelow(s: seq<nat>, t: seq<nat>, p: nat)
    requires multiset(s) == multiset(t) && forall k :: 0 <= k < |s| ==> s[k] < p
    ensures forall k :: 0 <= k < |t| ==> t[k] < p
  {
    forall k | 0 <= k < |t|
      ensures t[k] < p
    {
      assert t[k] in multiset(t);
      assert t[k] in s;
    }
  }

  /** sort_keys: either sort leaves the ascending arrangement. */
  method Sort(keys: array<nat>, m: nat)
    requires m <= keys.Length && forall k :: 0 <= k < m ==> keys[k] < 4294967296
    modifies keys
    ensures keys[..m] == Sorted(old(keys[..m]))
  {
    if m <= 24 {
      InsertionSort(keys, m);
    } else {
      Radix(keys, m);
    }
  }
}
