/** The first half of block in http1/deflate.v: the two codes of a dynamic block, the
    header that sends them, and the cost of each block type. */
module BlockPlan {
  import opened Bits
  import opened Canonical
  import opened Tokens
  import opened CodeLengths
  import opened Inflate
  import opened BlockFormat
  import opened Cost
  import opened SameCode
  import opened HuffLengths

  /** h is the table's size without its trailing zeros, but at least least. */
  predicate Trimmed(lens: seq<nat>, least: nat, h: nat) {
    && least <= h <= |lens| && (forall t :: h <= t < |lens| ==> lens[t] == 0)
    && (h > least ==> lens[h - 1] > 0)
  }

  /** Drops the trailing zeros of a table, down to a least size. */
  method TrimZeros(lens: seq<nat>, least: nat) returns (h: nat)
    requires least <= |lens|
    ensures Trimmed(lens, least, h)
  {
    h := |lens|;
    while h > least && lens[h - 1] == 0
      invariant least <= h <= |lens| && forall t :: h <= t < |lens| ==> lens[t] == 0
    {
      h := h - 1;
    }
  }

  /** The same for the code length code, in the order it is sent. */
  predicate OrderTrimmed(cl: seq<nat>, h: nat)
    requires |cl| == 19
  {
    && 4 <= h <= 19 && (forall j :: h <= j < 19 ==> cl[OrderAt(j)] == 0)
    && (h > 4 ==> cl[OrderAt(h - 1)] > 0)
  }

  method TrimOrder(cl: seq<nat>) returns (h: nat)
    requires |cl| == 19
    ensures OrderTrimmed(cl, h)
  {
    hide OrderAt;
    h := 19;
    OrderTable(18);
    while h > 4 && cl[CL_ORDER[h - 1]] == 0
      invariant 4 <= h <= 19 && forall j :: h <= j < 19 ==> cl[OrderAt(j)] == 0
      invariant CL_ORDER[h - 1] == OrderAt(h - 1)
    {
      h := h - 1;
      OrderTable(h - 1);
    }
  }

  method CountCl(rle: array<nat>, nrle: nat) returns (freq: array<nat>)
    requires nrle <= rle.Length && forall k :: 0 <= k < nrle ==> SoundCl(rle[k])
    ensures fresh(freq) && freq[..] == ClCounts(rle[..nrle])
  {
    hide ClSym, ClExtra;
    freq := new nat[19](_ => 0);
    for k := 0 to nrle
      invariant forall s :: 0 <= s < 19 ==> freq[s] == ClUses(rle[..k], s)
    {
      assert rle[..k + 1][..k] == rle[..k];
      var s := ClSym(rle[k]);
      assert SoundCl(rle[k]);
      freq[s] := freq[s] + 1;
    }
  }

  /** The lengths are Huffman's for the frequencies, within max bits: a rarer symbol has no
      shorter code, the Kraft sum exceeds one by half the nodes too deep, and no code is
      cheaper when no leaf is too deep. */
  ghost predicate HuffCoded(f: seq<nat>, lens: seq<nat>, max: nat) {
    && 2 <= |f| == |lens| <= 512 && 1 <= max <= 15 && Huffman(f, lens, max)
    && (forall s, t :: 0 <= s < |f| && 0 <= t < |f| && 0 < f[s] < f[t] ==> lens[s] >= lens[t])
    && Kraft(lens, max) == Pow2(max) + DeepNodes(f, max) / 2
    && (Overlong(f, max) == 0 ==> Best(f, lens))
  }

  /** The plan for a block's frequencies: the tables are Huffman's, the header sends them,
      trimmed and run-length coded, under Huffman's code for the symbols that takes; each
      code is sound exactly when its unlimited tree has at most one node too deep. */
  ghost predicate Planned(lf: seq<nat>, df: seq<nat>, lit: seq<nat>, dist: seq<nat>, h: Header) {
    && |lf| == |lit| == 286 && |df| == |dist| == 30 && h.Sound()
    && HuffCoded(lf, lit, 15) && HuffCoded(df, dist, 15) && HuffCoded(ClCounts(h.ws), h.cl, 7)
    && Trimmed(lit, 257, h.hlit) && Trimmed(dist, 1, h.hdist) && OrderTrimmed(h.cl, h.hclen)
    && h.Lens() == lit[..h.hlit] + dist[..h.hdist] && h.ws == Rle(h.Lens())
    && InTable(lf, lit, h.hlit) && InTable(df, dist, h.hdist)
    && (Complete(lit[..h.hlit]) <==> DeepNodes(lf, 15) < 2)
    && (Complete(dist[..h.hdist]) <==> DeepNodes(df, 15) < 2)
    && (Complete(h.cl) <==> DeepNodes(ClCounts(h.ws), 7) < 2)
  }

  lemma TrimmedUnique(lens: seq<nat>, least: nat, g: nat, h: nat)
    requires Trimmed(lens, least, g) && Trimmed(lens, least, h)
    ensures g == h
  {
    assert g > least ==> lens[g - 1] > 0;
    assert h > least ==> lens[h - 1] > 0;
  }

  lemma OrderUnique(cl: seq<nat>, g: nat, h: nat)
    requires |cl| == 19 && OrderTrimmed(cl, g) && OrderTrimmed(cl, h)
    ensures g == h
  {
    hide OrderAt;
    assert g > 4 ==> cl[OrderAt(g - 1)] > 0;
    assert h > 4 ==> cl[OrderAt(h - 1)] > 0;
  }

  /** The frequencies determine the plan: no other tables and no other header is one. */
  lemma PlanUnique(lf: seq<nat>, df: seq<nat>, lit: seq<nat>, dist: seq<nat>, h: Header, lit': seq<nat>,
                   dist': seq<nat>, h': Header)
    requires Planned(lf, df, lit, dist, h) && Planned(lf, df, lit', dist', h')
    ensures lit == lit' && dist == dist' && h == h'
  {
    hide Huffman, Best, Trimmed, OrderTrimmed, Complete, DeepNodes, Kraft, InTable, Rle, ClCounts, Overlong;
    hide Header.Sound, Header.Lens;
    HuffmanUnique(lf, lit, lit', 15);
    HuffmanUnique(df, dist, dist', 15);
    TrimmedUnique(lit, 257, h.hlit, h'.hlit);
    TrimmedUnique(dist, 1, h.hdist, h'.hdist);
    HuffmanUnique(ClCounts(h.ws), h.cl, h'.cl, 7);
    OrderUnique(h.cl, h.hclen, h'.hclen);
  }

  /** Lengths within 15, none past h, one for each used symbol. */
  ghost predicate InTable(f: seq<nat>, lens: seq<nat>, h: nat) {
    && |f| == |lens| && h <= |lens|
    && (forall s :: 0 <= s < |lens| ==> lens[s] <= 15 && (f[s] > 0 ==> lens[s] > 0))
    && (forall s :: h <= s < |lens| ==> lens[s] == 0)
  }

  /** A table's code lengths. */
  method Table(f: seq<nat>, max: nat) returns (lens: seq<nat>)
    requires 2 <= |f| <= 288 && 1 <= max <= 15 && |f| <= Pow2(max)
    requires forall s :: 0 <= s < |f| ==> f[s] < 8388608
    ensures HuffCoded(f, lens, max) && InTable(f, lens, |f|) && forall s :: 0 <= s < |f| ==> lens[s] <= max
  {
    hide Kraft, DeepNodes, UsedKeys, Pow2, Overlong, Best, Huffman;
    var a := HuffLengths.HuffLengths(f, max);
    lens := a[..];
  }

  lemma HuffComplete(f: seq<nat>, lens: seq<nat>, max: nat, h: nat)
    requires HuffCoded(f, lens, max) && InTable(f, lens, h) && forall s :: 0 <= s < |lens| ==> lens[s] <= max
    ensures Complete(lens[..h]) <==> DeepNodes(f, max) < 2
  {
    hide Kraft, DeepNodes, Complete, Pow2, Overlong, Best, Huffman;
    CompleteIff(lens, h, max, DeepNodes(f, max) / 2);
  }

  method Plan(lf: seq<nat>, df: seq<nat>) returns (lit: seq<nat>, dist: seq<nat>, h: Header)
    requires |lf| == 286 && |df| == 30
    requires forall s :: 0 <= s < 286 ==> lf[s] < 8388608
    requires forall s :: 0 <= s < 30 ==> df[s] < 8388608
    ensures Planned(lf, df, lit, dist, h)
  {
    hide HuffCoded, DeepNodes, Complete, ClExpand, ClUses, OrderAt, SoundCl, Pow2, Rle;
    TableRoom();
    lit := Table(lf, 15);
    dist := Table(df, 15);
    var hlit := TrimZeros(lit, 257);
    var hdist := TrimZeros(dist, 1);
    HuffComplete(lf, lit, 15, hlit);
    HuffComplete(df, dist, 15, hdist);
    var all := lit[..hlit] + dist[..hdist];
    var rle, nrle := RleLengths(all);
    ghost var ws: seq<nat> := rle[..nrle];
    var cf := CountCl(rle, nrle);
    var cl := Table(cf[..], 7);
    HuffComplete(cf[..], cl, 7, 19);
    assert cl[..19] == cl;
    var hclen := TrimOrder(cl);
    forall k | 0 <= k < nrle
      ensures SoundCl(ws[k]) && ClSym(ws[k]) < 19 && cl[ClSym(ws[k])] > 0
    {
      ClUsed(ws, k);
      SoundClSym(rle[k]);
    }
    h := Header(hlit, hdist, hclen, cl, rle[..nrle]);
  }

  lemma TableRoom()
    ensures 286 <= Pow2(15) && 19 <= Pow2(7)
  {
    PowersOfTwo();
    Pow2Mono(13, 15);
  }

  lemma SoundClSym(w: nat)
    requires SoundCl(w)
    ensures ClSym(w) < 19
  {
  }

  /** A fixed block's lengths, as the encoder fills them in. */
  function FixedLitLen(s: nat): (l: nat)
    requires s < 288
    ensures l == FixedLit()[s]
  {
    if s < 144 then 8 else if s < 256 then 9 else if s < 280 then 7 else 8
  }

  /** The bits of each block type, as the cost model adds them up. */
  method Costs(lf: seq<nat>, df: seq<nat>, lit: seq<nat>, dist: seq<nat>, h: Header, n: nat)
      returns (dyn: nat, fixed: nat, stored: nat)
    requires |lf| == 286 && |df| == 30 && |lit| == 286 && |dist| == 30 && h.Sound()
    ensures dyn == 3 + |h.Encode()| + SymbolCost(lf, df, lit, dist)
    ensures fixed == 3 + SymbolCost(lf, df, FixedLit(), FixedDist())
    ensures stored == 42 + 8 * n
  {
    hide Dot, FixedLit, FixedDist, Header.Sound;
    var extra := ExtraCost(lf, df);
    dyn := 3 + 14 + 3 * h.hclen + extra;
    var cl := ClPart(h);
    dyn := dyn + cl;
    HeaderCost(h);
    fixed := 3 + extra;
    FixedSizes();
    var a := Priced(lf, lit, 286);
    var b := Priced(df, dist, 30);
    dyn := dyn + a + b;
    var c := FixedPriced(lf, df);
    fixed := fixed + c;
    stored := 3 + 7 + 32 + n * 8;
  }

  lemma FixedSizes()
    ensures |FixedLit()| == 288 && |FixedDist()| == 32
    ensures forall s :: 0 <= s < 32 ==> FixedDist()[s] == 5
  {
  }

  method Priced(f: seq<nat>, c: seq<nat>, n: nat) returns (sum: nat)
    requires n <= |f| && n <= |c|
    ensures sum == Dot(f, c, n)
  {
    sum := 0;
    for s := 0 to n
      invariant sum == Dot(f, c, s)
    {
      sum := sum + Times(f[s], c[s]);
    }
  }

  method FixedPriced(lf: seq<nat>, df: seq<nat>) returns (sum: nat)
    requires |lf| == 286 && |df| == 30
    ensures |FixedLit()| == 288 && |FixedDist()| == 32
    ensures sum == Dot(lf, FixedLit(), 286) + Dot(df, FixedDist(), 30)
  {
    hide FixedLit, FixedDist;
    FixedSizes();
    sum := 0;
    for s := 0 to 286
      invariant sum == Dot(lf, FixedLit(), s)
    {
      sum := sum + Times(lf[s], FixedLitLen(s));
    }
    for s := 0 to 30
      invariant sum == Dot(lf, FixedLit(), 286) + Dot(df, FixedDist(), s)
    {
      sum := sum + Times(df[s], 5);
    }
  }

  /** The extra bits of lengths and distances. */
  method ExtraCost(lf: seq<nat>, df: seq<nat>) returns (extra: nat)
    requires |lf| == 286 && |df| == 30
    ensures extra == Dot(lf, LitExtras(), 286) + Dot(df, DistExtras(), 30)
  {
    hide LenExtra, DistExtra;
    extra := 0;
    NoExtras(lf);
    for s := 0 to 29
      invariant extra == Dot(lf, LitExtras(), 257 + s)
    {
      LenTable(s);
      extra := extra + Times(lf[257 + s], LEN_XBITS[s]);
    }
    for s := 0 to 30
      invariant extra == Dot(lf, LitExtras(), 286) + Dot(df, DistExtras(), s)
    {
      DistTable(s);
      extra := extra + Times(df[s], DIST_XBITS[s]);
    }
  }

  lemma NoExtras(lf: seq<nat>)
    requires |lf| == 286
    ensures Dot(lf, LitExtras(), 257) == 0
  {
    NoPrice(lf, LitExtras(), 257);
  }

  lemma {:induction false} NoPrice(f: seq<nat>, c: seq<nat>, n: nat)
    requires n <= |f| && n <= |c| && forall s :: 0 <= s < n ==> c[s] == 0
    ensures Dot(f, c, n) == 0
  {
    if n > 0 {
      NoPrice(f, c, n - 1);
    }
  }

  /** The coded lengths' part of the dynamic cost. */
  method ClPart(h: Header) returns (sum: nat)
    requires h.Sound()
    ensures sum == ClCost(h.ws, h.cl)
  {
    hide ClSym, SoundCl, ClExpand, OrderAt;
    sum := 0;
    assert h.ws[..0] == [];
    for k := 0 to |h.ws|
      invariant AllCl(h.ws[..k], h.cl) && sum == ClCost(h.ws[..k], h.cl)
    {
      assert h.ws[..k + 1][..k] == h.ws[..k];
      var sym := ClSym(h.ws[k]);
      sum := sum + h.cl[sym];
      sum := sum + if sym == 16 then 2 else if sym == 17 then 3 else if sym == 18 then 7 else 0;
    }
    assert h.ws[..|h.ws|] == h.ws;
  }
}
