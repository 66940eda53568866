/** When two length tables give the same codes: a dynamic block sends its tables without
    their trailing zeros, and a fixed block's distance table may leave out its last two
    entries. */
module SameCode {
  import opened Basics
  import opened Bits
  import opened Canonical
  import opened Tokens

  /** Every code of a is a code of b. */
  ghost predicate Same(a: seq<nat>, b: seq<nat>) {
    forall s :: 0 <= s < |a| && a[s] > 0 ==> s < |b| && CodeBits(a, s) == CodeBits(b, s)
  }

  /** Cut after h: nothing shorter than a kept code is lost. */
  ghost predicate Cuts(lens: seq<nat>, h: nat) {
    h <= |lens| && forall s, t :: 0 <= s < h && h <= t < |lens| ==> lens[t] == 0 || lens[t] >= lens[s]
  }

  lemma {:induction false} CountPrefix(lens: seq<nat>, h: nat, l: nat)
    requires h <= |lens| && forall t :: h <= t < |lens| ==> lens[t] != l
    ensures CountLen(lens, l) == CountLen(lens[..h], l)
  {
    if h == |lens| {
      assert lens[..h] == lens;
    } else {
      var m := |lens| - 1;
      CountPrefix(lens[..m], h, l);
      assert lens[..m][..h] == lens[..h];
    }
  }

  lemma {:induction false} FirstPrefix(lens: seq<nat>, h: nat, l: nat)
    requires h <= |lens| && forall t :: h <= t < |lens| ==> lens[t] == 0 || lens[t] >= l
    ensures First(lens, l) == First(lens[..h], l)
  {
    if l > 1 {
      FirstPrefix(lens, h, l - 1);
      CountPrefix(lens, h, l - 1);
    }
  }

  /** A cut table keeps its codes. */
  lemma CutSame(lens: seq<nat>, h: nat)
    requires Cuts(lens, h)
    ensures Same(lens[..h], lens)
  {
    hide Msb, First, CountLen;
    forall s | 0 <= s < h
      ensures CodeBits(lens[..h], s) == CodeBits(lens, s)
    {
      FirstPrefix(lens, h, lens[s]);
      assert lens[..h][..s] == lens[..s];
    }
  }

  lemma {:induction false} KraftPrefix(lens: seq<nat>, h: nat, max: nat)
    requires h <= |lens| && forall t :: h <= t < |lens| ==> lens[t] == 0
    ensures Kraft(lens, max) == Kraft(lens[..h], max)
  {
    if h == |lens| {
      assert lens[..h] == lens;
    } else {
      var m := |lens| - 1;
      KraftPrefix(lens[..m], h, max);
      assert lens[..m][..h] == lens[..h];
    }
  }

  lemma {:induction false} KraftScale(lens: seq<nat>, m: nat, n: nat)
    requires m <= n && forall s :: 0 <= s < |lens| ==> lens[s] <= m
    ensures Kraft(lens, n) == Kraft(lens, m) * Pow2(n - m)
  {
    hide Pow2;
    if lens != [] {
      var l := lens[|lens| - 1];
      KraftScale(lens[..|lens| - 1], m, n);
      if l > 0 {
        Pow2Add(m - l, n - m);
        assert (m - l) + (n - m) == n - l;
      }
      Distribute(Kraft(lens[..|lens| - 1], m), if l > 0 then Pow2(m - l) else 0, Pow2(n - m));
    }
  }

  lemma Distribute(a: int, b: int, c: int)
    ensures (a + b) * c == a * c + b * c
  {
  }

  /** Completeness of lengths within m, whatever zeros follow them. */
  lemma CompleteIff(lens: seq<nat>, h: nat, m: nat, deep: nat)
    requires m <= MAX_BITS && h <= |lens| && (forall s :: 0 <= s < |lens| ==> lens[s] <= m)
    requires forall t :: h <= t < |lens| ==> lens[t] == 0
    requires Kraft(lens, m) == Pow2(m) + deep
    ensures Complete(lens[..h]) <==> deep == 0
  {
    hide Kraft, Pow2;
    KraftPrefix(lens, h, MAX_BITS);
    KraftScale(lens, m, MAX_BITS);
    Pow2Add(m, MAX_BITS - m);
    Distribute(Pow2(m), deep, Pow2(MAX_BITS - m));
    if deep > 0 {
      MulMono(1, deep, Pow2(MAX_BITS - m));
    }
  }

  lemma CodedSame(t: Token, lit: seq<nat>, dist: seq<nat>, lit': seq<nat>, dist': seq<nat>)
    requires t.Sound() && Coded(t, lit, dist) && Same(lit, lit') && Same(dist, dist')
    ensures Coded(t, lit', dist') && TokenBits(t, lit, dist) == TokenBits(t, lit', dist')
  {
    hide CodeBits, LenSym, DistSym, Lsb;
    if t.Match? {
      assert CodeBits(dist, DistSym(t.dist)) == CodeBits(dist', DistSym(t.dist));
    }
  }

  /** Tables with the same codes write the same bits. */
  lemma {:induction false} TokensSame(ts: seq<Token>, lit: seq<nat>, dist: seq<nat>, lit': seq<nat>, dist': seq<nat>)
    requires AllCoded(ts, lit, dist) && Same(lit, lit') && Same(dist, dist')
    ensures AllCoded(ts, lit', dist') && TokensBits(ts, lit, dist) == TokensBits(ts, lit', dist')
  {
    hide Same, Coded, TokenBits;
    if ts != [] {
      CodedSame(ts[0], lit, dist, lit', dist');
      TokensSame(ts[1..], lit, dist, lit', dist');
      assert forall i :: 0 < i < |ts| ==> ts[i] == ts[1..][i - 1];
    }
  }

  /** A table is the same with its unused tail cut off. */
  lemma TrimSame(lens: seq<nat>, h: nat)
    requires h <= |lens| && forall t :: h <= t < |lens| ==> lens[t] == 0
    ensures Same(lens, lens[..h])
  {
    CutSame(lens, h);
  }
}
