/** The bits of each block type and why the reference inflater reads them back. */
module BlockFormat {
  import opened Basics
  import opened Bits
  import opened BitWriter
  import opened Canonical
  import opened Tokens
  import opened CodeLengths
  import opened Inflate

  /** Every symbol has a code. */
  ghost predicate AllCl(ws: seq<nat>, cl: seq<nat>) {
    forall k :: 0 <= k < |ws| ==> SoundCl(ws[k]) && ClSym(ws[k]) < |cl| && cl[ClSym(ws[k])] > 0
  }

  ghost function ClItemBits(w: nat, cl: seq<nat>): seq<bool>
    requires ClSym(w) < |cl|
  {
    CodeBits(cl, ClSym(w)) + Lsb(ClValue(w), ClExtra(ClSym(w)))
  }

  /** The bits of the run-length coded lengths. */
  ghost function ClBits(ws: seq<nat>, cl: seq<nat>): seq<bool>
    requires AllCl(ws, cl)
  {
    if ws == [] then [] else ClItemBits(ws[0], cl) + ClBits(ws[1..], cl)
  }

  lemma {:induction false} ClBitsPush(ws: seq<nat>, w: nat, cl: seq<nat>)
    requires AllCl(ws + [w], cl)
    ensures AllCl(ws, cl) && ClSym(w) < |cl|
    ensures ClBits(ws + [w], cl) == ClBits(ws, cl) + ClItemBits(w, cl)
  {
    hide ClItemBits, SoundCl, ClSym;
    assert (ws + [w])[|ws|] == w && forall k :: 0 <= k < |ws| ==> ws[k] == (ws + [w])[k];
    if ws == [] {
      assert ws + [w] == [w] && [w][1..] == [];
    } else {
      assert (ws + [w])[1..] == ws[1..] + [w];
      ClBitsPush(ws[1..], w, cl);
      Assoc(ClItemBits(ws[0], cl), ClBits(ws[1..], cl), ClItemBits(w, cl));
    }
  }

  lemma {:induction false} ClExpandGrows(ws: seq<nat>, out: seq<nat>)
    ensures ClExpand(ws, out).Some? ==> |ClExpand(ws, out).value| >= |out| + |ws|
  {
    hide ClApply, ClSym, ClValue;
    if ws != [] {
      ClGrows(ClSym(ws[0]), ClValue(ws[0]), out);
      var more := ClApply(ClSym(ws[0]), ClValue(ws[0]), out);
      if more.Some? {
        ClExpandGrows(ws[1..], more.value);
      }
    }
  }

  /** Lengths written are lengths read. */
  lemma {:induction false} ReadsLens(ws: seq<nat>, cl: seq<nat>, out: seq<nat>, rest: seq<bool>)
    requires AllCl(ws, cl) && Complete(cl) && ClExpand(ws, out).Some?
    ensures var all := ClExpand(ws, out).value;
            ReadLens(cl, ClBits(ws, cl) + rest, |all|, out) == Some((all, rest))
  {
    hide ClApply, ClSym, ClValue, DecodeSym, ReadBits, CodeBits, Lsb, ClExtra, Complete, Pow2;
    ClExpandGrows(ws, out);
    if ws == [] {
      assert [] + rest == rest;
    } else {
      var s, v := ClSym(ws[0]), ClValue(ws[0]);
      var more := ClApply(s, v, out).value;
      ReadsLens(ws[1..], cl, more, rest);
      ClExpandGrows(ws[1..], more);
      ClGrows(s, v, out);
      var tail := ClBits(ws[1..], cl) + rest;
      Assoc(ClItemBits(ws[0], cl), ClBits(ws[1..], cl), rest);
      Assoc(CodeBits(cl, s), Lsb(v, ClExtra(s)), tail);
      DecodesSym(cl, s, Lsb(v, ClExtra(s)) + tail);
      ReadsBits(v, ClExtra(s), tail);
    }
  }

  /** The lengths of the code length code from place k on. */
  ghost function OrderBits(cl: seq<nat>, k: nat, hclen: nat): seq<bool>
    requires |cl| == 19 && hclen <= 19
    decreases hclen - k
  {
    if k >= hclen then [] else Lsb(cl[OrderAt(k)], 3) + OrderBits(cl, k + 1, hclen)
  }

  lemma {:induction false} OrderBitsPush(cl: seq<nat>, k: nat, hclen: nat)
    requires |cl| == 19 && k <= hclen < 19
    ensures OrderBits(cl, k, hclen + 1) == OrderBits(cl, k, hclen) + Lsb(cl[OrderAt(hclen)], 3)
    decreases hclen - k
  {
    hide Lsb, OrderAt;
    if k == hclen {
      assert OrderBits(cl, k + 1, hclen + 1) == [];
      assert Lsb(cl[OrderAt(k)], 3) + [] == [] + Lsb(cl[OrderAt(k)], 3);
    } else {
      OrderBitsPush(cl, k + 1, hclen);
      Assoc(Lsb(cl[OrderAt(k)], 3), OrderBits(cl, k + 1, hclen), Lsb(cl[OrderAt(hclen)], 3));
    }
  }

  /** Places k on have been read into acc, or are zero in both. */
  ghost predicate OrderRead(acc: seq<nat>, cl: seq<nat>, k: nat) {
    && |acc| == |cl| == 19 && k <= 19
    && (forall j :: 0 <= j < k ==> acc[OrderAt(j)] == cl[OrderAt(j)])
    && (forall s :: 0 <= s < 19 ==> acc[s] == cl[s] || acc[s] == 0)
  }

  lemma {:induction false} ReadsOrder(cl: seq<nat>, k: nat, hclen: nat, acc: seq<nat>, rest: seq<bool>)
    requires |cl| == 19 && k <= hclen <= 19 && OrderRead(acc, cl, k)
    requires forall s :: 0 <= s < 19 ==> cl[s] < 8
    requires forall j :: hclen <= j < 19 ==> cl[OrderAt(j)] == 0
    ensures ReadOrder(OrderBits(cl, k, hclen) + rest, k, hclen, acc) == Some((cl, rest))
    decreases hclen - k
  {
    hide Lsb, OrderAt, ReadBits, Pow2;
    if k == hclen {
      assert [] + rest == rest;
      forall s | 0 <= s < 19
        ensures acc[s] == cl[s]
      {
        var j := OrderPlace(s);
      }
      assert acc == cl;
    } else {
      var v := cl[OrderAt(k)];
      PowersOfTwo();
      Assoc(Lsb(v, 3), OrderBits(cl, k + 1, hclen), rest);
      ReadsBits(v, 3, OrderBits(cl, k + 1, hclen) + rest);
      ReadsOrder(cl, k + 1, hclen, acc[OrderAt(k) := v], rest);
    }
  }

  /** Every symbol has its place in the order. */
  lemma OrderPlace(s: nat) returns (j: nat)
    requires s < 19
    ensures j < 19 && OrderAt(j) == s
  {
    j := if s >= 16 then s - 16 else if s == 0 then 3 else if s >= 8 then 4 + 2 * (s - 8) else 3 + 2 * (8 - s);
  }

  /** A dynamic block's header. */
  datatype Header = Header(hlit: nat, hdist: nat, hclen: nat, cl: seq<nat>, ws: seq<nat>) {
    ghost predicate Sound() {
      && 257 <= hlit <= 286 && 1 <= hdist <= 30 && 4 <= hclen <= 19
      && |cl| == 19 && (forall s :: 0 <= s < 19 ==> cl[s] < 8)
      && (forall j :: hclen <= j < 19 ==> cl[OrderAt(j)] == 0)
      && AllCl(ws, cl) && ClExpand(ws, []).Some? && |ClExpand(ws, []).value| == hlit + hdist
    }

    ghost function Counts(): seq<bool>
      requires hlit >= 257 && hdist >= 1 && hclen >= 4
    {
      Lsb(hlit - 257, 5) + (Lsb(hdist - 1, 5) + Lsb(hclen - 4, 4))
    }

    ghost function Encode(): seq<bool>
      requires Sound()
    {
      Counts() + (OrderBits(cl, 0, hclen) + ClBits(ws, cl))
    }

    ghost function Lens(): seq<nat>
      requires Sound()
    {
      ClExpand(ws, []).value
    }
  }

  lemma ReadsCounts(h: Header, tail: seq<bool>)
    requires h.Sound()
    ensures var r1 := ReadBits(h.Counts() + tail, 5);
            && r1.Some? && r1.value.0 == h.hlit - 257
            && var r2 := ReadBits(r1.value.1, 5);
            && r2.Some? && r2.value.0 == h.hdist - 1
            && ReadBits(r2.value.1, 4) == Some((h.hclen - 4, tail))
  {
    hide Lsb, ReadBits, Pow2, AllCl, ClExpand;
    PowersOfTwo();
    var a, b, c := Lsb(h.hlit - 257, 5), Lsb(h.hdist - 1, 5), Lsb(h.hclen - 4, 4);
    Assoc(a, b + c, tail);
    Assoc(b, c, tail);
    ReadsBits(h.hlit - 257, 5, b + (c + tail));
    ReadsBits(h.hdist - 1, 5, c + tail);
    ReadsBits(h.hclen - 4, 4, tail);
  }

  /** A header written is read back, or refused when its own code is not complete. */
  lemma ReadsHeader(h: Header, rest: seq<bool>)
    requires h.Sound()
    ensures ReadHeader(h.Encode() + rest)
         == if Complete(h.cl) then Some(((h.Lens()[..h.hlit], h.Lens()[h.hlit..]), rest)) else None
  {
    hide Lsb, ReadBits, AllCl, ClExpand, ReadOrder, ReadLens, Complete, OrderBits, ClBits, OrderAt;
    var order, lens := OrderBits(h.cl, 0, h.hclen), ClBits(h.ws, h.cl);
    Assoc(h.Counts(), order + lens, rest);
    Assoc(order, lens, rest);
    ReadsCounts(h, order + (lens + rest));
    OrderStart(h.cl);
    ReadsOrder(h.cl, 0, h.hclen, Repeat(0, 19), lens + rest);
    if Complete(h.cl) {
      ReadsLens(h.ws, h.cl, [], rest);
    }
  }

  lemma OrderStart(cl: seq<nat>)
    requires |cl| == 19
    ensures OrderRead(Repeat(0, 19), cl, 0)
  {
  }

  /** A stored block's data after its header bits and padding. */
  ghost function StoredBits(s: seq<byte>): seq<bool>
    requires |s| <= 65535
  {
    (Lsb(|s|, 16) + Lsb(65535 - |s|, 16)) + ByteBits(s)
  }

  lemma ReadsStored(pad: nat, s: seq<byte>, rest: seq<bool>, out: seq<byte>)
    requires |s| <= 65535 && pad < 8 && |rest| % 8 == 0
    ensures ReadStored(Zeros(pad) + (StoredBits(s) + rest), out) == Some((out + s, rest))
  {
    hide Lsb, ReadBits, ByteBits, BitBytes, Pow2;
    var n := |s|;
    var bits := Zeros(pad) + (StoredBits(s) + rest);
    assert |bits| % 8 == pad by {
      assert |StoredBits(s) + rest| == 8 * (4 + n + |rest| / 8);
    }
    assert bits[pad..] == StoredBits(s) + rest;
    Pow2Word();
    var a, b := Lsb(n, 16), Lsb(65535 - n, 16);
    Assoc(a + b, ByteBits(s), rest);
    Assoc(a, b, ByteBits(s) + rest);
    ReadsBits(n, 16, b + (ByteBits(s) + rest));
    ReadsBits(65535 - n, 16, ByteBits(s) + rest);
    var data := ByteBits(s) + rest;
    assert data[..8 * n] == ByteBits(s) && data[8 * n..] == rest;
    BitBytesRoundTrip(s);
  }

  lemma {:induction false} KraftRun(s: seq<nat>, l: nat, n: nat, max: nat)
    requires 1 <= l <= max
    ensures Kraft(s + Repeat(l, n), max) == Kraft(s, max) + n * Pow2(max - l)
  {
    if n == 0 {
      assert s + Repeat(l, 0) == s;
    } else {
      KraftRun(s, l, n - 1, max);
      var t := s + Repeat(l, n);
      assert t[..|t| - 1] == s + Repeat(l, n - 1);
      MulSucc(n - 1, Pow2(max - l));
    }
  }

  /** The fixed codes are complete. */
  lemma FixedComplete()
    ensures Complete(FixedLit()) && Complete(FixedDist())
    ensures |FixedLit()| == 288 && |FixedDist()| == 32
  {
    hide Kraft;
    var a, b, c := Repeat(8, 144), Repeat(8, 144) + Repeat(9, 112), Repeat(8, 144) + Repeat(9, 112) + Repeat(7, 24);
    KraftRun([], 8, 144, 15);
    assert [] + a == a;
    KraftRun(a, 9, 112, 15);
    KraftRun(b, 7, 24, 15);
    KraftRun(c, 8, 8, 15);
    KraftRun([], 5, 32, 15);
    assert [] + FixedDist() == FixedDist();
    KraftEmpty(15);
    PowersOfTwo();
    assert Pow2(14) == 2 * Pow2(13) && Pow2(15) == 2 * Pow2(14);
  }

  lemma KraftEmpty(max: nat)
    ensures Kraft([], max) == 0
  {
  }
}
