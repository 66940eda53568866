/** What the cost model of block in http1/deflate.v counts: symbol uses times code
    lengths are exactly the bits written. */
module Cost {
  import opened Basics
  import opened Bits
  import opened Canonical
  import opened Tokens
  import opened CodeLengths
  import opened Inflate
  import opened BlockFormat
  import opened Chunk

  /** Frequencies against prices, for the first n symbols. */
  function Dot(f: seq<nat>, c: seq<nat>, n: nat): nat
    requires n <= |f| && n <= |c|
  {
    if n == 0 then 0 else Dot(f, c, n - 1) + Times(f[n - 1], c[n - 1])
  }

  function Times(a: nat, b: nat): (p: nat)
    ensures p == a * b
  {
    MulMono(0, a, b);
    a * b
  }

  /** One more use of s costs its price. */
  lemma {:induction false} DotMore(f: seq<nat>, c: seq<nat>, n: nat, s: nat)
    requires n <= |f| && n <= |c| && s < |f|
    ensures Dot(f[s := f[s] + 1], c, n) == Dot(f, c, n) + if s < n then c[s] else 0
  {
    if n > 0 {
      DotMore(f, c, n - 1, s);
      if s == n - 1 {
        MulSucc(f[s], c[s]);
      }
    }
  }

  lemma {:induction false} DotZeros(f: seq<nat>, c: seq<nat>, n: nat)
    requires n <= |f| && n <= |c| && forall s :: 0 <= s < n ==> f[s] == 0
    ensures Dot(f, c, n) == 0
  {
    if n > 0 {
      DotZeros(f, c, n - 1);
    }
  }

  /** The uses of each literal/length symbol, the end of block aside. */
  ghost function LitCounts(ts: seq<Token>): (f: seq<nat>)
    requires AllSound(ts)
    ensures |f| == 286 && forall s :: 0 <= s < 286 ==> f[s] == LitUses(ts, s)
  {
    seq(286, s requires 0 <= s < 286 => LitUses(ts, s))
  }

  ghost function DistCounts(ts: seq<Token>): (f: seq<nat>)
    requires AllSound(ts)
    ensures |f| == 30 && forall s :: 0 <= s < 30 ==> f[s] == DistUses(ts, s)
  {
    seq(30, s requires 0 <= s < 30 => DistUses(ts, s))
  }

  lemma CountsPush(ts: seq<Token>, t: Token)
    requires AllSound(ts) && t.Sound()
    ensures AllSound(ts + [t])
    ensures var f := LitCounts(ts); LitCounts(ts + [t]) == f[LitSymbol(t) := f[LitSymbol(t)] + 1]
    ensures var f := DistCounts(ts);
            DistCounts(ts + [t]) == if t.Match? then f[DistSym(t.dist) := f[DistSym(t.dist)] + 1] else f
  {
    hide LitUses, DistUses, LitSymbol, DistSym;
    forall s ensures AllSound(ts + [t])
                     && LitUses(ts + [t], s) == LitUses(ts, s) + (if LitSymbol(t) == s then 1 else 0)
                     && DistUses(ts + [t], s) == DistUses(ts, s) + (if t.Match? && DistSym(t.dist) == s then 1 else 0) {
      UsesPush(ts, t, s);
    }
  }

  /** The extra bits of each literal/length symbol. */
  function LitExtras(): (x: seq<nat>)
    ensures |x| == 286 && (forall s :: 0 <= s < 257 ==> x[s] == 0) && forall s :: 257 <= s < 286 ==>
              x[s] == LenExtra(s - 257)
  {
    seq(286, s requires 0 <= s < 286 => if s < 257 then 0 else LenExtra(s - 257))
  }

  function DistExtras(): (x: seq<nat>)
    ensures |x| == 30 && forall s :: 0 <= s < 30 ==> x[s] == DistExtra(s)
  {
    seq(30, s requires 0 <= s < 30 => DistExtra(s))
  }

  /** Code bits and extra bits of all the symbols counted in f and g. */
  ghost function SymbolCost(f: seq<nat>, g: seq<nat>, lit: seq<nat>, dist: seq<nat>): nat
    requires |f| == 286 && |g| == 30 && |lit| >= 286 && |dist| >= 30
  {
    (Dot(f, lit, 286) + Dot(f, LitExtras(), 286)) + (Dot(g, dist, 30) + Dot(g, DistExtras(), 30))
  }

  /** The tokens' bits number what their symbol counts cost. */
  lemma {:induction false} TokensCost(ts: seq<Token>, lit: seq<nat>, dist: seq<nat>)
    requires |lit| >= 286 && |dist| >= 30 && AllCoded(ts, lit, dist)
    ensures AllSound(ts)
    ensures |TokensBits(ts, lit, dist)| == SymbolCost(LitCounts(ts), DistCounts(ts), lit, dist)
  {
    hide LitUses, DistUses, TokenBits, Coded, Dot;
    if ts == [] {
      NoTokensCost(lit, dist);
    } else {
      var m := |ts| - 1;
      var t := ts[m];
      assert ts == ts[..m] + [t];
      TokensBitsPush(ts[..m], t, lit, dist);
      TokensCost(ts[..m], lit, dist);
      TokenCost(ts[..m], t, lit, dist);
    }
  }

  lemma NoTokensCost(lit: seq<nat>, dist: seq<nat>)
    requires |lit| >= 286 && |dist| >= 30
    ensures SymbolCost(LitCounts([]), DistCounts([]), lit, dist) == 0
  {
    hide Dot;
    DotZeros(LitCounts([]), lit, 286);
    DotZeros(LitCounts([]), LitExtras(), 286);
    DotZeros(DistCounts([]), dist, 30);
    DotZeros(DistCounts([]), DistExtras(), 30);
  }

  lemma TokenCost(ts: seq<Token>, t: Token, lit: seq<nat>, dist: seq<nat>)
    requires AllSound(ts) && t.Sound() && |lit| >= 286 && |dist| >= 30 && Coded(t, lit, dist)
    ensures AllSound(ts + [t])
    ensures SymbolCost(LitCounts(ts + [t]), DistCounts(ts + [t]), lit, dist)
         == SymbolCost(LitCounts(ts), DistCounts(ts), lit, dist) + |TokenBits(t, lit, dist)|
  {
    hide LitUses, DistUses, Dot, LenSym, DistSym, Lsb, CodeBits, LenExtra, DistExtra;
    CountsPush(ts, t);
    var f, g := LitCounts(ts), DistCounts(ts);
    DotMore(f, lit, 286, LitSymbol(t));
    DotMore(f, LitExtras(), 286, LitSymbol(t));
    if t.Match? {
      DotMore(g, dist, 30, DistSym(t.dist));
      DotMore(g, DistExtras(), 30, DistSym(t.dist));
    }
  }

  /** With the end of block counted once. */
  ghost function WithEnd(f: seq<nat>): (g: seq<nat>)
    requires |f| == 286
    ensures |g| == 286
  {
    f[256 := 1]
  }

  /** The tokens and the end of block. */
  ghost function DataBits(ts: seq<Token>, lit: seq<nat>, dist: seq<nat>): seq<bool>
    requires AllCoded(ts, lit, dist) && |lit| > 256
  {
    TokensBits(ts, lit, dist) + CodeBits(lit, 256)
  }

  lemma DataCost(ts: seq<Token>, lit: seq<nat>, dist: seq<nat>)
    requires |lit| >= 286 && |dist| >= 30 && AllCoded(ts, lit, dist)
    ensures AllSound(ts)
    ensures |DataBits(ts, lit, dist)| == SymbolCost(WithEnd(LitCounts(ts)), DistCounts(ts), lit, dist)
  {
    hide LitUses, DistUses, TokenBits, Coded, Dot, CodeBits;
    TokensCost(ts, lit, dist);
    NoEnd(ts);
    var f := LitCounts(ts);
    DotMore(f, lit, 286, 256);
    DotMore(f, LitExtras(), 286, 256);
  }

  lemma {:induction false} NoEnd(ts: seq<Token>)
    requires AllSound(ts)
    ensures LitUses(ts, 256) == 0
  {
    hide LitSymbol;
    if ts != [] {
      NoEnd(ts[..|ts| - 1]);
    }
  }

  /** The bits of the run-length coded lengths, as the cost model adds them. */
  ghost function ClCost(ws: seq<nat>, cl: seq<nat>): nat
    requires AllCl(ws, cl)
  {
    if ws == [] then 0 else
      var m := |ws| - 1;
      ClCost(ws[..m], cl) + (cl[ClSym(ws[m])] + ClExtra(ClSym(ws[m])))
  }

  lemma {:induction false} ClBitsCost(ws: seq<nat>, cl: seq<nat>)
    requires AllCl(ws, cl)
    ensures |ClBits(ws, cl)| == ClCost(ws, cl)
  {
    hide ClSym, ClExtra, CodeBits, Lsb, SoundCl;
    if ws != [] {
      var m := |ws| - 1;
      assert ws == ws[..m] + [ws[m]];
      ClBitsPush(ws[..m], ws[m], cl);
      ClBitsCost(ws[..m], cl);
    }
  }

  lemma {:induction false} OrderCost(cl: seq<nat>, k: nat, hclen: nat)
    requires |cl| == 19 && k <= hclen <= 19
    ensures |OrderBits(cl, k, hclen)| == 3 * (hclen - k)
    decreases hclen - k
  {
    hide Lsb, OrderAt;
    if k < hclen {
      OrderCost(cl, k + 1, hclen);
    }
  }

  /** A header is 14 bits, 3 for each length sent, and the coded lengths. */
  lemma HeaderCost(h: Header)
    requires h.Sound()
    ensures |h.Encode()| == 14 + 3 * h.hclen + ClCost(h.ws, h.cl)
  {
    hide AllCl, ClExpand, OrderBits, ClBits, Lsb, ClCost, OrderAt;
    OrderCost(h.cl, 0, h.hclen);
    ClBitsCost(h.ws, h.cl);
  }

  /** How often each code length symbol is sent. */
  ghost function ClUses(ws: seq<nat>, s: nat): (n: nat)
    ensures n <= |ws|
  {
    if ws == [] then 0 else
      var m := |ws| - 1;
      ClUses(ws[..m], s) + if ClSym(ws[m]) == s then 1 else 0
  }

  ghost function ClCounts(ws: seq<nat>): (f: seq<nat>)
    ensures |f| == 19 && forall s :: 0 <= s < 19 ==> f[s] == ClUses(ws, s)
  {
    seq(19, s requires 0 <= s < 19 => ClUses(ws, s))
  }

  lemma {:induction false} ClUsed(ws: seq<nat>, k: nat)
    requires k < |ws|
    ensures ClUses(ws, ClSym(ws[k])) > 0
  {
    var m := |ws| - 1;
    if k < m {
      ClUsed(ws[..m], k);
    }
  }

  lemma {:induction false} TokensUsed(ts: seq<Token>, k: nat)
    requires AllSound(ts) && k < |ts|
    ensures LitUses(ts, LitSymbol(ts[k])) > 0
    ensures ts[k].Match? ==> DistUses(ts, DistSym(ts[k].dist)) > 0
  {
    hide LitSymbol, DistSym;
    var m := |ts| - 1;
    if k < m {
      TokensUsed(ts[..m], k);
    }
  }

  /** Codes for every counted symbol code every token. */
  lemma UsedAreCoded(ts: seq<Token>, lit: seq<nat>, dist: seq<nat>)
    requires AllSound(ts) && |lit| >= 286 && |dist| >= 30
    requires forall s :: 0 <= s < 286 && LitUses(ts, s) > 0 ==> lit[s] > 0
    requires forall s :: 0 <= s < 30 && DistUses(ts, s) > 0 ==> dist[s] > 0
    ensures AllCoded(ts, lit, dist)
  {
    hide LitUses, DistUses, LenSym, DistSym;
    forall k | 0 <= k < |ts|
      ensures Coded(ts[k], lit, dist)
    {
      TokensUsed(ts, k);
    }
  }
}
