/** Canonical Huffman codes from code lengths (section 3.2.2 of RFC 1951): the codes, why
    no code is a prefix of another, and reading a symbol back. */
module Canonical {
  import opened Basics
  import opened Bits

  /** The longest code DEFLATE allows. */
  const MAX_BITS: nat := 15

  /** How many symbols have codes of length l. */
  function CountLen(lens: seq<nat>, l: nat): (c: nat)
    ensures c <= |lens|
  {
    if lens == [] then 0 else
      CountLen(lens[..|lens| - 1], l) + if lens[|lens| - 1] == l then 1 else 0
  }

  /** The first code of length l. */
  function First(lens: seq<nat>, l: nat): nat {
    if l <= 1 then 0 else 2 * (First(lens, l - 1) + CountLen(lens, l - 1))
  }

  /** One past the last code of length l. */
  function End(lens: seq<nat>, l: nat): nat {
    First(lens, l) + CountLen(lens, l)
  }

  /** The code of symbol s, as a number. */
  function Code(lens: seq<nat>, s: nat): nat
    requires s < |lens|
  {
    First(lens, lens[s]) + CountLen(lens[..s], lens[s])
  }

  /** The code of symbol s as it stands in the stream. */
  function CodeBits(lens: seq<nat>, s: nat): (b: seq<bool>)
    requires s < |lens|
    ensures |b| == lens[s]
  {
    Msb(Code(lens, s), lens[s])
  }

  /** The Kraft sum in units of 2^-max. */
  function Kraft(lens: seq<nat>, max: nat): nat {
    if lens == [] then 0 else
      Kraft(lens[..|lens| - 1], max)
      + var l := lens[|lens| - 1]; if 0 < l <= max then Pow2(max - l) else 0
  }

  /** Lengths in range whose codes use up every bit string: what a decoder accepts. */
  ghost predicate Complete(lens: seq<nat>) {
    (forall s :: 0 <= s < |lens| ==> lens[s] <= MAX_BITS) && Kraft(lens, MAX_BITS) == Pow2(MAX_BITS)
  }

  lemma {:induction false} EndPush(lens: seq<nat>, x: nat, l: nat)
    requires l >= 1
    ensures End(lens + [x], l) == End(lens, l) + if 0 < x <= l then Pow2(l - x) else 0
  {
    var more := lens + [x];
    assert more[..|lens|] == lens;
    if l > 1 {
      EndPush(lens, x, l - 1);
    }
  }

  /** Counting codes length by length is the Kraft sum. */
  lemma {:induction false} EndIsKraft(lens: seq<nat>, l: nat)
    requires l >= 1
    ensures End(lens, l) == Kraft(lens, l)
  {
    if lens == [] {
      EmptyEnd(l);
    } else {
      var n := |lens| - 1;
      EndIsKraft(lens[..n], l);
      EndPush(lens[..n], lens[n], l);
      assert lens == lens[..n] + [lens[n]];
    }
  }

  lemma {:induction false} EmptyEnd(l: nat)
    ensures End([], l) == 0
  {
    if l > 1 {
      EmptyEnd(l - 1);
    }
  }

  /** Longer codes start past every shorter one. */
  lemma {:induction false} EndGrows(lens: seq<nat>, l: nat, m: nat)
    requires 1 <= l < m
    ensures End(lens, l) * Pow2(m - l) <= First(lens, m)
  {
    if l + 1 == m {
      assert Pow2(1) == 2 * Pow2(0);
    } else {
      EndGrows(lens, l, m - 1);
      var p := Pow2(m - 1 - l);
      assert Pow2(m - l) == 2 * p;
      assert End(lens, l) * (2 * p) == 2 * (End(lens, l) * p);
    }
  }

  /** Codes fit their lengths when the Kraft sum is at most one. */
  lemma EndFits(lens: seq<nat>, l: nat)
    requires 1 <= l <= MAX_BITS && End(lens, MAX_BITS) <= Pow2(MAX_BITS)
    ensures End(lens, l) <= Pow2(l)
  {
    if l < MAX_BITS {
      EndGrows(lens, l, MAX_BITS);
      Pow2Add(l, MAX_BITS - l);
      Divide(End(lens, l), Pow2(l), Pow2(MAX_BITS - l));
    }
  }

  lemma Divide(a: nat, b: nat, p: nat)
    requires p > 0 && a * p <= b * p
    ensures a <= b
  {
    if a > b {
      MulSucc(b, p);
      MulMono(b + 1, a, p);
    }
  }

  lemma {:induction false} RankBelow(lens: seq<nat>, s: nat, t: nat, l: nat)
    requires s < t <= |lens| && lens[s] == l
    ensures CountLen(lens[..s], l) < CountLen(lens[..t], l)
    decreases t
  {
    var u := lens[..t];
    assert u[..t - 1] == lens[..t - 1];
    if s < t - 1 {
      RankBelow(lens, s, t - 1, l);
    }
  }

  lemma CodeInRange(lens: seq<nat>, s: nat)
    requires s < |lens|
    ensures First(lens, lens[s]) <= Code(lens, s) < End(lens, lens[s])
  {
    RankBelow(lens, s, |lens|, lens[s]);
    assert lens[..|lens|] == lens;
  }

  lemma CodeFits(lens: seq<nat>, s: nat)
    requires s < |lens| && 0 < lens[s] <= MAX_BITS && End(lens, MAX_BITS) <= Pow2(MAX_BITS)
    ensures Code(lens, s) < Pow2(lens[s])
  {
    CodeInRange(lens, s);
    EndFits(lens, lens[s]);
  }

  /** No code is a prefix of another. */
  lemma PrefixFree(lens: seq<nat>, s: nat, t: nat)
    requires s < |lens| && t < |lens| && s != t && 0 < lens[s] <= lens[t] <= MAX_BITS
    requires End(lens, MAX_BITS) <= Pow2(MAX_BITS)
    ensures CodeBits(lens, t)[..lens[s]] != CodeBits(lens, s)
  {
    hide Msb, Pow2, First, End, Code;
    var l, m := lens[s], lens[t];
    var c, d := Code(lens, s), Code(lens, t);
    CodeFits(lens, s);
    CodeFits(lens, t);
    MsbPrefix(d, m, l);
    MsbRoundTrip(c, l);
    if l == m {
      RanksDiffer(lens, s, t);
      Pow2Zero();
      assert d / 1 == d;
      MsbRoundTrip(d, l);
    } else {
      LongerPast(lens, s, t);
      MsbRoundTrip(d / Pow2(m - l), l);
    }
  }

  /** The first rule of the format: codes of one length are consecutive, in the order of
      their symbols. */
  lemma {:induction false} Consecutive(lens: seq<nat>, s: nat, t: nat)
    requires s < t < |lens| && lens[s] == lens[t]
    requires forall u :: s < u < t ==> lens[u] != lens[s]
    ensures Code(lens, t) == Code(lens, s) + 1
  {
    hide First;
    RanksBetween(lens, s, t);
  }

  lemma {:induction false} RanksBetween(lens: seq<nat>, s: nat, t: nat)
    requires s < t <= |lens| && forall u :: s < u < t ==> lens[u] != lens[s]
    ensures CountLen(lens[..t], lens[s]) == CountLen(lens[..s], lens[s]) + 1
    decreases t
  {
    var u := lens[..t];
    assert u[..t - 1] == lens[..t - 1];
    if s < t - 1 {
      RanksBetween(lens, s, t - 1);
    }
  }

  /** The second rule: shorter codes come before longer ones. */
  lemma ShorterFirst(lens: seq<nat>, s: nat, t: nat)
    requires s < |lens| && t < |lens| && 0 < lens[s] < lens[t]
    ensures (Code(lens, s) + 1) * Pow2(lens[t] - lens[s]) <= Code(lens, t)
  {
    hide First, End, Code, Pow2;
    var l, m := lens[s], lens[t];
    EndGrows(lens, l, m);
    CodeInRange(lens, s);
    CodeInRange(lens, t);
    MulMono(Code(lens, s) + 1, End(lens, l), Pow2(m - l));
  }

  /** And the first code of all is zero. */
  lemma StartsAtZero(lens: seq<nat>, s: nat)
    requires s < |lens| && lens[s] > 0
    requires forall t :: 0 <= t < |lens| && lens[t] > 0 ==> lens[s] < lens[t] || (lens[s] == lens[t] && s <= t)
    ensures Code(lens, s) == 0
  {
    NoneBelow(lens, lens[s]);
    NoneLike(lens, s, s, lens[s]);
  }

  lemma {:induction false} NoneBelow(lens: seq<nat>, l: nat)
    requires forall t :: 0 <= t < |lens| && lens[t] > 0 ==> l <= lens[t]
    ensures First(lens, l) == 0
    decreases l
  {
    if l > 1 {
      NoneBelow(lens, l - 1);
      NoneLike(lens, |lens|, |lens|, l - 1);
      assert lens[..|lens|] == lens;
    }
  }

  lemma {:induction false} NoneLike(lens: seq<nat>, n: nat, s: nat, l: nat)
    requires n <= s <= |lens| && l > 0 && forall t :: 0 <= t < s ==> lens[t] != l
    ensures CountLen(lens[..n], l) == 0
    decreases n
  {
    if n > 0 {
      assert lens[..n][..n - 1] == lens[..n - 1];
      NoneLike(lens, n - 1, s, l);
    }
  }

  lemma RanksDiffer(lens: seq<nat>, s: nat, t: nat)
    requires s < |lens| && t < |lens| && s != t && lens[s] == lens[t]
    ensures Code(lens, s) != Code(lens, t)
  {
    hide First, CountLen;
    if s < t {
      RankBelow(lens, s, t, lens[s]);
    } else {
      RankBelow(lens, t, s, lens[s]);
    }
  }

  lemma LongerPast(lens: seq<nat>, s: nat, t: nat)
    requires s < |lens| && t < |lens| && 0 < lens[s] < lens[t] <= MAX_BITS
    requires Code(lens, t) < Pow2(lens[t])
    ensures Code(lens, s) < Code(lens, t) / Pow2(lens[t] - lens[s]) < Pow2(lens[s])
  {
    hide First, End, Code, Pow2;
    var l, m := lens[s], lens[t];
    EndGrows(lens, l, m);
    CodeInRange(lens, s);
    CodeInRange(lens, t);
    Pow2Add(l, m - l);
    ShiftedPast(Code(lens, t), Code(lens, s), End(lens, l), First(lens, m), Pow2(m - l), Pow2(l));
  }

  lemma ShiftedPast(t: nat, s: nat, end: nat, first: nat, p: nat, q: nat)
    requires p > 0 && s < end && end * p <= first <= t < q * p
    ensures s < t / p < q
  {
    var d := t / p;
    assert t == d * p + t % p;
    if d < end {
      MulSucc(d, p);
      MulMono(d + 1, end, p);
    }
    if d >= q {
      MulMono(q, d, p);
    }
  }

  /** Reads one symbol: the one whose code the stream begins with. */
  ghost function DecodeSym(lens: seq<nat>, bits: seq<bool>): (r: Option<(nat, seq<bool>)>)
    ensures r.Some? ==> r.value.0 < |lens| && |r.value.1| < |bits|
  {
    if exists s :: 0 <= s < |lens| && Starts(lens, s, bits) then
      var s :| 0 <= s < |lens| && Starts(lens, s, bits);
      Some((s, bits[lens[s]..]))
    else None
  }

  ghost predicate Starts(lens: seq<nat>, s: nat, bits: seq<bool>)
    requires s < |lens|
  {
    0 < lens[s] <= |bits| && bits[..lens[s]] == CodeBits(lens, s)
  }

  /** A symbol written is the symbol read. */
  lemma DecodesSym(lens: seq<nat>, s: nat, rest: seq<bool>)
    requires s < |lens| && lens[s] > 0 && Complete(lens)
    ensures DecodeSym(lens, CodeBits(lens, s) + rest) == Some((s, rest))
  {
    var bits := CodeBits(lens, s) + rest;
    assert Starts(lens, s, bits);
    assert End(lens, MAX_BITS) <= Pow2(MAX_BITS) by {
      EndIsKraft(lens, MAX_BITS);
    }
    forall t | 0 <= t < |lens| && Starts(lens, t, bits)
      ensures t == s
    {
      if t != s {
        if lens[t] <= lens[s] {
          assert bits[..lens[t]] == CodeBits(lens, s)[..lens[t]];
          PrefixFree(lens, t, s);
        } else {
          assert bits[..lens[s]] == CodeBits(lens, t)[..lens[s]];
          PrefixFree(lens, s, t);
        }
      }
    }
  }
}
