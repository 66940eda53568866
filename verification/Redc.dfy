/** Montgomery reduction of a double-length number (viltrum_mont_redc in engine/rsa.h). */
module Redc {
  import opened Basics
  import opened Limbs
  import opened Montgomery

  /** What the rows keep: t and the carry owed above it hold x + u * m, and the limbs
      already cleared are zero. */
  ghost predicate Rows(t: seq<u64>, top: u64, x: int, us: seq<u64>, m: int, k: nat) {
    && |t| == 2 * k && |us| <= k
    && (forall j :: 0 <= j < |us| ==> t[j] == 0)
    && Val(t) + top * Weight(|us| + k) == x + Val(us) * m
  }

  /** A number cut at limbs i, i + k and i + k + 1. */
  lemma FourParts(t: seq<u64>, i: nat, k: nat)
    requires i + k < |t|
    ensures Val(t) == Val(t[..i]) + Weight(i) * (Val(t[i..i + k])
                      + Weight(k) * (t[i + k] + WORD * Val(t[i + k + 1..])))
  {
    hide *;
    ValSplit(t, i);
    ValSplit(t[i..], k);
    assert t[i..][..k] == t[i..i + k];
    assert t[i..][k..] == t[i + k..];
    FirstLimb(t[i + k..]);
    assert t[i + k..][1..] == t[i + k + 1..];
  }

  lemma FirstLimb(s: seq<u64>)
    requires s != []
    ensures Val(s) == s[0] + WORD * Val(s[1..])
  {
    ValSplit(s, 1);
    assert s[..1] == [s[0]];
    assert Val([s[0]]) == s[0] by {
      assert [s[0]][..0] == [];
    }
  }

  lemma RowAdds(t: seq<u64>, t': seq<u64>, top: u64, top': u64, c: u64, q: u64, x: int, us: seq<u64>,
                ms: seq<u64>, k: nat)
    requires k == |ms| && |us| < k && Rows(t, top, x, us, Val(ms), k) && |t'| == 2 * k
    requires var i := |us|;
             && t'[..i] == t[..i] && t'[i + k + 1..] == t[i + k + 1..] && t'[i] == 0
             && Val(t'[i..i + k]) + c * Weight(k) == Val(t[i..i + k]) + q * Val(ms)
             && t'[i + k] + WORD * top' == t[i + k] + c + top
    ensures Rows(t', top', x, us + [q], Val(ms), k)
  {
    hide Val, Weight;
    var i := |us|;
    assert forall j :: 0 <= j < i ==> t'[j] == t'[..i][j] == t[..i][j] == t[j];
    RowAddsValue(t, t', top, top', c, q, x, us, Val(ms), i, k);
  }

  lemma RowAddsValue(t: seq<u64>, t': seq<u64>, top: u64, top': u64, c: u64, q: u64, x: int, us: seq<u64>,
                     m: int, i: nat, k: nat)
    requires i == |us| && i + k < |t| == |t'|
    requires Val(t) + top * Weight(i + k) == x + Val(us) * m
    requires t'[..i] == t[..i] && t'[i + k + 1..] == t[i + k + 1..]
    requires Val(t'[i..i + k]) + c * Weight(k) == Val(t[i..i + k]) + q * m
    requires t'[i + k] + WORD * top' == t[i + k] + c + top
    ensures Val(t') + top' * Weight(i + 1 + k) == x + Val(us + [q]) * m
  {
    hide Val, Weight;
    FourParts(t, i, k);
    FourParts(t', i, k);
    WeightAdd(i, k);
    WeightAdd(1, i + k);
    WeightOne();
    ValPush(us, q);
    RowSum(Val(t), Val(t'), Val(t[..i]), Weight(i), Weight(k), Val(t[i..i + k]), Val(t'[i..i + k]),
           t[i + k], t'[i + k], Val(t[i + k + 1..]), c, q, m, top, top', Weight(i + k));
    Distribute(Val(us), q, Weight(i), m);
  }

  lemma WeightOne()
    ensures Weight(1) == WORD
  {
    assert Weight(0) == 1;
  }

  lemma Distribute(u: int, q: int, w: int, m: int)
    ensures (u + q * w) * m == u * m + w * (q * m)
  {
  }

  lemma RowSum(v: int, v': int, low: int, wi: int, wk: int, mid: int, mid': int, h: int, h': int, rest: int,
               c: int, q: int, m: int, top: int, top': int, wik: int)
    requires v == low + wi * (mid + wk * (h + WORD * rest))
    requires v' == low + wi * (mid' + wk * (h' + WORD * rest))
    requires mid' + c * wk == mid + q * m && h' + WORD * top' == h + c + top && wik == wi * wk
    ensures v' + top' * (WORD * wik) == v + top * wik + wi * (q * m)
  {
    var a, a' := mid + wk * (h + WORD * rest), mid' + wk * (h' + WORD * rest);
    assert a' == a + q * m + wk * (top - WORD * top') by {
      assert wk * (h' + WORD * rest) == wk * (h + WORD * rest) + wk * (c + top - WORD * top');
      assert wk * (c + top - WORD * top') == c * wk + wk * (top - WORD * top');
    }
    assert wi * a' == wi * a + wi * (q * m) + wi * (wk * (top - WORD * top'));
    assert wi * (wk * (top - WORD * top')) == top * (wi * wk) - top' * (WORD * (wi * wk));
  }

  /** Adds the multiple of m that clears limb i of t. */
  method ClearLimb(t: array<u64>, i: nat, m: seq<u64>, n0: u64) returns (c: u64, mq: u64)
    requires 1 <= |m| && i + |m| < t.Length && (m[0] * n0 + 1) % WORD == 0
    modifies t
    ensures t[..i] == old(t[..i]) && t[i + |m|..] == old(t[i + |m|..]) && t[i] == 0
    ensures Val(t[i..i + |m|]) + c * Weight(|m|) == old(Val(t[i..i + |m|])) + mq * Val(m)
  {
    hide Val, Weight;
    LowWordClears(t[i], n0, m[0]);
    mq := (t[i] * n0) % WORD;
    c := AddRow(t, i, mq, m);
  }

  /** One round: limb i cleared, the carry kept in top for the next limb up. */
  method Round(t: array<u64>, i: nat, m: seq<u64>, n0: u64, top: u64, ghost x: int, ghost us: seq<u64>)
      returns (top': u64, ghost q: u64)
    requires i == |us| < |m| && t.Length == 2 * |m| && (m[0] * n0 + 1) % WORD == 0
    requires Rows(t[..], top, x, us, Val(m), |m|) && top <= 1
    modifies t
    ensures Rows(t[..], top', x, us + [q], Val(m), |m|) && top' <= 1
  {
    hide Val, Weight, Rows;
    var k := |m|;
    ghost var was := t[..];
    var c, mq := ClearLimb(t, i, m, n0);
    q := mq;
    ghost var mid := t[..];
    assert mid[i + k..] == was[i + k..] && mid[..i] == was[..i] && mid[i..i + k] == t[i..i + k];
    assert mid[i + k] == mid[i + k..][0] == was[i + k..][0] == was[i + k];
    assert mid[i + k + 1..] == mid[i + k..][1..] == was[i + k..][1..] == was[i + k + 1..];
    var s := t[i + k] + c + top;
    t[i + k] := s % WORD;
    top' := s / WORD;
    assert t[..] == mid[i + k := s % WORD];
    RowAdds(was, t[..], top, top', c, mq, x, us, m, k);
  }

  lemma Cleared(t: seq<u64>, top: u64, x: int, us: seq<u64>, m: int, k: nat)
    requires Rows(t, top, x, us, m, k) && |us| == k
    ensures (Val(t[k..]) + top * Weight(k)) * Weight(k) == x + Val(us) * m
  {
    hide Val, Weight;
    ValSplit(t, k);
    ValZeros(t[..k]);
    WeightAdd(k, k);
    Factor(Val(t[k..]), top, Weight(k));
  }

  lemma Factor(v: int, top: int, w: int)
    ensures (v + top * w) * w == w * v + top * (w * w)
  {
  }

  lemma DoubleBelow(x: int, u: int, m: int, w: int, t: int)
    requires x < m * w && 0 <= u < w && 0 < m && t * w == x + u * m
    ensures t < 2 * m
  {
    MulMono(u, w, m);
    assert m * w == w * m;
    TwiceBelow(t, m, w, w * m);
  }

  /** viltrum_mont_redc: r = x / R mod m for a 2k-limb x < m * R. */
  method MontRedc(x: seq<u64>, m: seq<u64>, n0: u64) returns (r: seq<u64>)
    requires 1 <= |m| <= 32 && |x| == 2 * |m| && GoodN0(m, n0)
    requires Val(x) < Val(m) * Weight(|m|)
    ensures |r| == |m| && Reduced(Val(r), Val(x), Val(m), |m|)
  {
    hide Val, Weight, Rows, Reduced;
    var k := |m|;
    var t := new u64[2 * k](j requires 0 <= j < |x| => x[j]);
    assert t[..] == x;
    var top: u64 := 0;
    ghost var us: seq<u64> := [];
    RowsStart(t[..], Val(m), k);
    for i := 0 to k
      invariant |us| == i && top <= 1
      invariant Rows(t[..], top, Val(x), us, Val(m), k)
    {
      ghost var q;
      top, q := Round(t, i, m, n0, top, Val(x), us);
      us := us + [q];
    }
    Cleared(t[..], top, Val(x), us, Val(m), k);
    assert t[..][k..] == t[k..];
    ValBound(us);
    MPositive(Val(x), Val(m), Weight(k));
    DoubleBelow(Val(x), Val(us), Val(m), Weight(k), Val(t[k..]) + top * Weight(k));
    r := SubtractOnce(t[k..], top, m);
    ReducedFrom(Val(r), Val(t[k..]) + top * Weight(k), Val(x), Val(us), Val(m), k);
  }

  lemma RowsStart(t: seq<u64>, m: int, k: nat)
    requires |t| == 2 * k
    ensures Rows(t, 0, Val(t), [], m, k)
  {
  }

  lemma MPositive(x: int, m: int, w: int)
    requires 0 <= x < m * w && w > 0
    ensures m > 0
  {
    if m <= 0 {
      MulMono(m, 0, w);
    }
  }
}
