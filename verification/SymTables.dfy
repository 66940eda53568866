/** The symbol tables of http1/deflate.v: make_len_sym, make_dist_sym and the two-part
    lookup dist_sym. */
module SymTables {
  import opened Bits
  import opened Tokens

  /** The ranges leave no gap and, but for the last lengths, no overlap. */
  lemma LenStep(s: nat)
    requires s < 28
    ensures LenBase(s) + Pow2(LenExtra(s)) == if s == 27 then 259 else LenBase(s + 1)
    ensures LenBase(s) < LenBase(s + 1) <= 258
  {
    hide Pow2, LenBase, LenExtra;
    LenTable(s);
    LenTable(s + 1);
    PowersOfTwo();
  }

  lemma DistStep(s: nat)
    requires s < 30
    ensures DistBase(s) + Pow2(DistExtra(s)) == if s == 29 then 32769 else DistBase(s + 1)
  {
    hide Pow2, DistBase, DistExtra;
    DistTable(s);
    if s < 29 {
      DistTable(s + 1);
    }
    PowersOfTwo();
  }

  lemma DistLimits(s: nat)
    requires s < 30
    ensures 1 <= DistBase(s) && DistBase(s) + Pow2(DistExtra(s)) <= 32769
  {
    hide DistBase, DistExtra, Pow2;
    Ends();
    DistStep(29);
    DistStep(s);
    if s > 0 {
      DistBaseRises(0, s);
    }
    if s < 29 {
      DistBaseRises(s, 29);
      if s < 28 {
        DistBaseRises(s + 1, 29);
      }
    }
  }

  lemma FarBlocks(s: nat)
    requires s < 30
    ensures s < 16 ==> DistBase(s) + Pow2(DistExtra(s)) <= 257
    ensures s >= 16 ==> DistBase(s) % 128 == 1 && DistBase(s) >= 257
  {
    hide Pow2, DistBase, DistExtra;
    DistTable(s);
    PowersOfTwo();
  }

  lemma {:induction false} LenBaseRises(s: nat, t: nat)
    requires s < t < 29
    ensures LenBase(s) < LenBase(t)
  {
    hide LenBase, LenExtra, Pow2;
    LenStep(t - 1);
    if s < t - 1 {
      LenBaseRises(s, t - 1);
    }
  }

  lemma {:induction false} DistBaseRises(s: nat, t: nat)
    requires s < t < 30
    ensures DistBase(s) < DistBase(t)
  {
    hide DistBase, DistExtra, Pow2;
    DistStep(t - 1);
    if s < t - 1 {
      DistBaseRises(s, t - 1);
    }
  }

  /** The symbol is the one whose range holds the length. */
  lemma LenSymIs(len: nat, s: nat)
    requires s < 29 && LenBase(s) <= len && (if s == 28 then len == 258 else len < LenBase(s + 1))
    ensures 3 <= len <= 258 && LenSym(len) == s
  {
    hide LenBase, LenExtra, Pow2, LenSym;
    Ends();
    if s > 0 {
      LenBaseRises(0, s);
    }
    if s < 28 {
      LenStep(s);
    }
    var r := LenSym(len);
    if s < r {
      if s + 1 < r {
        LenBaseRises(s + 1, r);
      }
    } else if r < s {
      LenStep(r);
      if r + 1 < s {
        LenBaseRises(r + 1, s);
      }
    }
    LastLen(len, s, r);
  }

  /** Only 258 falls in two ranges, and it belongs to the last. */
  lemma LastLen(len: nat, s: nat, r: nat)
    requires 3 <= len <= 258 && r == LenSym(len)
    ensures len == 258 ==> r == 28
  {
  }

  lemma Ends()
    ensures LenBase(0) == 3 && LenBase(28) == 258 && DistBase(0) == 1
  {
  }

  lemma DistSymIs(dist: nat, s: nat)
    requires s < 30 && DistBase(s) <= dist < DistBase(s) + Pow2(DistExtra(s))
    ensures 1 <= dist <= 32768 && DistSym(dist) == s
  {
    hide DistBase, DistExtra, Pow2, DistSym;
    Ends();
    DistStep(s);
    DistLimits(s);
    var r := DistSym(dist);
    DistStep(r);
    if s < r {
      if s + 1 < r {
        DistBaseRises(s + 1, r);
      }
    } else if r < s {
      if r + 1 < s {
        DistBaseRises(r + 1, s);
      }
    }
  }

  /** make_len_sym: entry l is the symbol of length l. */
  method MakeLenSym() returns (t: array<nat>)
    ensures fresh(t) && t.Length == 259
    ensures forall l :: 3 <= l <= 258 ==> t[l] == LenSym(l)
  {
    hide LenBase, LenExtra, Pow2, LenSym;
    t := new nat[259](_ => 0);
    Ends();
    for s := 0 to 28
      invariant forall l :: 3 <= l < LenBase(s) && l < 258 ==> t[l] == LenSym(l)
    {
      LenStep(s);
      LenTable(s);
      for l := LEN_BASE[s] to LEN_BASE[s] + Pow2(LEN_XBITS[s])
        invariant forall k :: 3 <= k < l && k < 258 ==> t[k] == LenSym(k)
      {
        if l < 258 {
          LenSymIs(l, s);
          t[l] := s;
        }
      }
    }
    LenSymIs(258, 28);
    t[258] := 28;
  }

  /** make_dist_sym for the near distances: entry d is the symbol of distance d + 1. */
  method MakeDistLow() returns (t: array<nat>)
    ensures fresh(t) && t.Length == 256
    ensures forall d :: 0 <= d < 256 ==> t[d] == DistSym(d + 1)
  {
    hide DistBase, DistExtra, Pow2, DistSym;
    t := new nat[256](_ => 0);
    Ends();
    for s := 0 to 30
      invariant forall d :: 0 <= d < 256 && (s == 30 || d + 1 < DistBase(s)) ==> t[d] == DistSym(d + 1)
    {
      DistStep(s);
      DistLimits(s);
      DistTable(s);
      for d := DIST_BASE[s] - 1 to DIST_BASE[s] - 1 + Pow2(DIST_XBITS[s])
        invariant forall k :: 0 <= k < d && k < 256 ==> t[k] == DistSym(k + 1)
      {
        DistSymIs(d + 1, s);
        if d < 256 {
          t[d] := s;
        }
      }
    }
  }

  /** make_dist_sym for the far ones: all distances of one block of 128 share an entry. */
  method MakeDistHigh() returns (t: array<nat>)
    ensures fresh(t) && t.Length == 256
    ensures forall d :: 256 <= d < 32768 ==> t[d / 128] == DistSym(d + 1)
  {
    hide DistBase, DistExtra, Pow2, DistSym;
    t := new nat[256](_ => 0);
    Ends();
    for s := 0 to 30
      invariant forall d :: 256 <= d < 32768 && (s == 30 || d + 1 < DistBase(s)) ==> t[d / 128] == DistSym(d + 1)
    {
      DistStep(s);
      DistLimits(s);
      FarBlocks(s);
      DistTable(s);
      var start, end := DIST_BASE[s] - 1, DIST_BASE[s] - 1 + Pow2(DIST_XBITS[s]);
      for d := start to end
        invariant forall k :: 256 <= k < start ==> t[k / 128] == DistSym(k + 1)
        invariant s >= 16 ==> forall k :: start <= k < d ==> t[k / 128] == s
      {
        if d >= 256 {
          SameBlock(start, d);
          t[d / 128] := s;
        }
      }
      forall dist | start + 1 <= dist < end + 1
        ensures DistSym(dist) == s
      {
        DistSymIs(dist, s);
      }
    }
  }

  lemma SameBlock(start: nat, d: nat)
    requires start <= d
    ensures start % 128 == 0 ==> forall k :: 0 <= k < start ==> k / 128 < d / 128
  {
  }

  /** dist_sym: the lookup the encoder uses. */
  method LookUpDist(lo: array<nat>, hi: array<nat>, dist: nat) returns (s: nat)
    requires 1 <= dist <= 32768 && lo.Length == hi.Length == 256
    requires forall d :: 0 <= d < 256 ==> lo[d] == DistSym(d + 1)
    requires forall d :: 256 <= d < 32768 ==> hi[d / 128] == DistSym(d + 1)
    ensures s == DistSym(dist)
  {
    s := if dist <= 256 then lo[dist - 1] else hi[(dist - 1) / 128];
  }
}
