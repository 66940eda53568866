/** Code lengths as a dynamic block sends them (section 3.2.7 of RFC 1951): run-length
    coded by rle_lengths in http1/deflate.v, and a reference decoder. */
module CodeLengths {
  import opened Basics
  import opened Bits
  import opened Tokens

  /** The encoder's order of the code length code's lengths. */
  const CL_ORDER: seq<nat> := [16, 17, 18, 0, 8, 7, 9, 6, 10, 5, 11, 4, 12, 3, 13, 2, 14, 1, 15]

  function Repeat(x: nat, n: nat): (s: seq<nat>)
    ensures |s| == n && forall i :: 0 <= i < n ==> s[i] == x
  {
    seq(n, _ => x)
  }

  /** The extra bits of a code length symbol. */
  function ClExtra(sym: nat): (x: nat)
    ensures x <= 7
  {
    if sym == 16 then 2 else if sym == 17 then 3 else if sym == 18 then 7 else 0
  }

  /** A code length symbol with its extra value, packed: value * 32 + symbol. */
  function ClSym(w: nat): (s: nat)
    ensures s < 32
  {
    w % 32
  }

  function ClValue(w: nat): nat {
    w / 32
  }

  function ClWord(sym: nat, value: nat): nat {
    sym + value * 32
  }

  lemma ClParts(sym: nat, value: nat)
    requires sym < 32
    ensures ClSym(ClWord(sym, value)) == sym && ClValue(ClWord(sym, value)) == value
  {
    DivUnique(sym + value * 32, 32, value, sym);
  }

  predicate SoundCl(w: nat) {
    ClSym(w) <= 18 && ClValue(w) < Pow2(ClExtra(ClSym(w)))
  }

  /** What a symbol adds to the lengths; none when there is nothing to repeat. */
  function ClApply(sym: nat, value: nat, out: seq<nat>): Option<seq<nat>> {
    if sym < 16 then Some(out + [sym])
    else if sym == 16 then (if out == [] then None else Some(out + Repeat(out[|out| - 1], 3 + value)))
    else if sym == 17 then Some(out + Repeat(0, 3 + value))
    else if sym == 18 then Some(out + Repeat(0, 11 + value))
    else None
  }

  lemma ClGrows(sym: nat, value: nat, out: seq<nat>)
    ensures ClApply(sym, value, out).Some? ==> |ClApply(sym, value, out).value| > |out|
  {
  }

  /** The lengths a string of symbols spells. */
  function ClExpand(ws: seq<nat>, out: seq<nat>): Option<seq<nat>> {
    if ws == [] then Some(out) else
      var more :- ClApply(ClSym(ws[0]), ClValue(ws[0]), out);
      ClExpand(ws[1..], more)
  }

  lemma {:induction false} ClExpandPush(ws: seq<nat>, w: nat, out: seq<nat>)
    ensures ClExpand(ws + [w], out) == (var r :- ClExpand(ws, out); ClApply(ClSym(w), ClValue(w), r))
  {
    hide ClApply, ClSym, ClValue;
    if ws == [] {
      assert ws + [w] == [w] && [w][1..] == [];
    } else {
      assert (ws + [w])[1..] == ws[1..] + [w];
      var more := ClApply(ClSym(ws[0]), ClValue(ws[0]), out);
      if more.Some? {
        ClExpandPush(ws[1..], w, more.value);
      }
    }
  }

  /** The string so far spells the first i lengths. */
  ghost predicate Spells(ws: seq<nat>, all: seq<nat>, i: nat) {
    && i <= |all| && ClExpand(ws, []) == Some(all[..i]) && |ws| <= i
    && (forall k :: 0 <= k < |ws| ==> SoundCl(ws[k]))
  }

  /** One more symbol, covering n equal lengths. */
  lemma SpellsMore(ws: seq<nat>, all: seq<nat>, i: nat, sym: nat, value: nat, n: nat)
    requires Spells(ws, all, i) && n >= 1 && i + n <= |all| && sym <= 18 && value < Pow2(ClExtra(sym))
    requires forall k :: i <= k < i + n ==> all[k] == all[i]
    requires sym < 16 ==> n == 1 && all[i] == sym
    requires sym == 16 ==> i > 0 && all[i - 1] == all[i] && n == 3 + value
    requires sym == 17 ==> all[i] == 0 && n == 3 + value
    requires sym == 18 ==> all[i] == 0 && n == 11 + value
    ensures Spells(ws + [ClWord(sym, value)], all, i + n)
  {
    hide ClExpand, ClWord, ClSym, ClValue, Pow2;
    ClParts(sym, value);
    ClExpandPush(ws, ClWord(sym, value), []);
    assert all[..i] + Repeat(all[i], n) == all[..i + n];
    assert sym < 16 ==> Repeat(all[i], 1) == [sym];
  }

  lemma SpellsFacts(ws: seq<nat>, all: seq<nat>, i: nat)
    requires Spells(ws, all, i)
    ensures |ws| <= i <= |all| && Pow2(0) == 1 && Pow2(2) == 4 && Pow2(3) == 8 && Pow2(7) == 128
  {
    PowersOfTwo();
  }

  lemma PlainWord(l: nat)
    ensures ClWord(l, 0) == l
  {
  }

  /** A run of n zeros: 18 for up to 138 at a time, then 17, then zeros. */
  function ZeroCodes(n: nat): (ws: seq<nat>)
    ensures |ws| <= n
  {
    if n >= 11 then
      var r := if n > 138 then 138 else n;
      [ClWord(18, r - 11)] + ZeroCodes(n - r)
    else if n >= 3 then [ClWord(17, n - 3)]
    else Repeat(0, n)
  }

  /** n more lengths l: 16 for up to 6 at a time, then plain. */
  function SameCodes(l: nat, n: nat): (ws: seq<nat>)
    ensures |ws| <= n
    decreases n
  {
    if n >= 3 then
      var r := if n > 6 then 6 else n;
      [ClWord(16, r - 3)] + SameCodes(l, n - r)
    else Repeat(l, n)
  }

  /** A run of n equal lengths. */
  function RunCodes(l: nat, n: nat): (ws: seq<nat>)
    requires n >= 1
    ensures |ws| <= n
  {
    if l == 0 then ZeroCodes(n) else [l] + SameCodes(l, n - 1)
  }

  /** How many of the first lengths are equal. */
  function RunLength(s: seq<nat>): (n: nat)
    requires s != []
    ensures 1 <= n <= |s| && (forall k :: 0 <= k < n ==> s[k] == s[0]) && (n < |s| ==> s[n] != s[0])
  {
    if |s| > 1 && s[1] == s[0] then 1 + RunLength(s[1..]) else 1
  }

  /** The lengths run by run. */
  function Rle(s: seq<nat>): (ws: seq<nat>)
    ensures |ws| <= |s|
  {
    if s == [] then [] else RunCodes(s[0], RunLength(s)) + Rle(s[RunLength(s)..])
  }

  lemma {:induction false} SpellsPlain(ws: seq<nat>, all: seq<nat>, i: nat, l: nat, n: nat)
    requires Spells(ws, all, i) && i + n <= |all| && l <= 15 && forall k :: i <= k < i + n ==> all[k] == l
    ensures Spells(ws + Repeat(l, n), all, i + n)
    decreases n
  {
    hide Spells, Pow2, ClWord;
    if n == 0 {
      assert ws + Repeat(l, 0) == ws;
    } else {
      SpellsFacts(ws, all, i);
      SpellsMore(ws, all, i, l, 0, 1);
      PlainWord(l);
      SpellsPlain(ws + [l], all, i + 1, l, n - 1);
      assert ws + [l] + Repeat(l, n - 1) == ws + Repeat(l, n);
    }
  }

  lemma {:induction false} SpellsZeros(ws: seq<nat>, all: seq<nat>, i: nat, n: nat)
    requires Spells(ws, all, i) && i + n <= |all| && forall k :: i <= k < i + n ==> all[k] == 0
    ensures Spells(ws + ZeroCodes(n), all, i + n)
    decreases n
  {
    hide Spells, Pow2, ClWord;
    SpellsFacts(ws, all, i);
    if n >= 11 {
      var r := if n > 138 then 138 else n;
      SpellsMore(ws, all, i, 18, r - 11, r);
      SpellsZeros(ws + [ClWord(18, r - 11)], all, i + r, n - r);
      Assoc(ws, [ClWord(18, r - 11)], ZeroCodes(n - r));
    } else if n >= 3 {
      SpellsMore(ws, all, i, 17, n - 3, n);
    } else {
      SpellsPlain(ws, all, i, 0, n);
    }
  }

  lemma {:induction false} SpellsSame(ws: seq<nat>, all: seq<nat>, i: nat, l: nat, n: nat)
    requires Spells(ws, all, i) && 0 < i && i + n <= |all|
    requires 1 <= l <= 15 && forall k :: i - 1 <= k < i + n ==> all[k] == l
    ensures Spells(ws + SameCodes(l, n), all, i + n)
    decreases n
  {
    hide Spells, Pow2, ClWord;
    SpellsFacts(ws, all, i);
    if n >= 3 {
      var r := if n > 6 then 6 else n;
      SpellsMore(ws, all, i, 16, r - 3, r);
      SpellsSame(ws + [ClWord(16, r - 3)], all, i + r, l, n - r);
      Assoc(ws, [ClWord(16, r - 3)], SameCodes(l, n - r));
    } else {
      SpellsPlain(ws, all, i, l, n);
    }
  }

  lemma SpellsRun(ws: seq<nat>, all: seq<nat>, i: nat, l: nat, n: nat)
    requires Spells(ws, all, i) && 1 <= n <= |all| - i && l <= 15 && forall k :: i <= k < i + n ==> all[k] == l
    ensures Spells(ws + RunCodes(l, n), all, i + n)
  {
    hide Spells, Pow2, ClWord, ZeroCodes, SameCodes;
    if l == 0 {
      SpellsZeros(ws, all, i, n);
    } else {
      SpellsPlain(ws, all, i, l, 1);
      assert Repeat(l, 1) == [l];
      SpellsSame(ws + [l], all, i + 1, l, n - 1);
      Assoc(ws, [l], SameCodes(l, n - 1));
    }
  }

  lemma {:induction false} SpellsAll(ws: seq<nat>, all: seq<nat>, i: nat)
    requires Spells(ws, all, i) && i <= |all| && forall k :: 0 <= k < |all| ==> all[k] <= 15
    ensures Spells(ws + Rle(all[i..]), all, |all|)
    decreases |all| - i
  {
    hide Spells, RunCodes;
    var s := all[i..];
    if s == [] {
      assert ws + [] == ws;
    } else {
      var n := RunLength(s);
      forall k | i <= k < i + n
        ensures all[k] == s[0]
      {
        assert all[k] == s[k - i];
      }
      SpellsRun(ws, all, i, s[0], n);
      SpellsAll(ws + RunCodes(s[0], n), all, i + n);
      assert s[n..] == all[i + n..];
      Assoc(ws, RunCodes(s[0], n), Rle(s[n..]));
    }
  }

  /** The symbols spell exactly the lengths, whatever the lengths. */
  lemma RleSpells(all: seq<nat>)
    requires forall k :: 0 <= k < |all| ==> all[k] <= 15
    ensures ClExpand(Rle(all), []) == Some(all) && |Rle(all)| <= |all|
    ensures forall k :: 0 <= k < |Rle(all)| ==> SoundCl(Rle(all)[k])
  {
    hide Rle;
    assert all[..0] == [] && all[0..] == all && all[..|all|] == all && [] + Rle(all) == Rle(all);
    SpellsAll([], all, 0);
  }

  method Put(rle: array<nat>, nrle: nat, w: nat)
    requires nrle < rle.Length
    modifies rle
    ensures rle[..nrle + 1] == old(rle[..nrle]) + [w]
  {
    rle[nrle] := w;
  }

  /** Appends n symbols l. */
  method Singles(rle: array<nat>, nrle: nat, l: nat, n: nat) returns (nrle': nat)
    requires nrle + n <= rle.Length
    modifies rle
    ensures nrle' <= rle.Length && rle[..nrle'] == old(rle[..nrle]) + Repeat(l, n)
  {
    nrle' := nrle;
    for j := 0 to n
      invariant nrle' == nrle + j && rle[..nrle'] == old(rle[..nrle]) + Repeat(l, j)
    {
      rle[nrle'] := l;
      nrle' := nrle' + 1;
    }
  }

  lemma ZeroStep(was: seq<nat>, n: nat)
    requires n >= 11
    ensures var r := if n > 138 then 138 else n;
            was + ZeroCodes(n) == (was + [ClWord(18, r - 11)]) + ZeroCodes(n - r)
  {
    hide ClWord;
  }

  lemma SameStep(was: seq<nat>, l: nat, n: nat)
    requires n >= 3
    ensures var r := if n > 6 then 6 else n;
            was + SameCodes(l, n) == (was + [ClWord(16, r - 3)]) + SameCodes(l, n - r)
  {
    hide ClWord;
  }

  lemma RunEnds(l: nat, n: nat)
    ensures n < 3 ==> ZeroCodes(n) == Repeat(0, n) && SameCodes(l, n) == Repeat(l, n)
    ensures 3 <= n < 11 ==> ZeroCodes(n) == [ClWord(17, n - 3)]
  {
    hide ClWord;
  }

  /** Appends the symbols of a run of zeros. */
  method ZeroRun(rle: array<nat>, nrle: nat, n: nat) returns (nrle': nat)
    requires nrle + n <= rle.Length
    modifies rle
    ensures nrle' <= rle.Length && rle[..nrle'] == old(rle[..nrle]) + ZeroCodes(n)
  {
    hide ClWord, ZeroCodes, SameCodes, Repeat;
    nrle' := nrle;
    var run := n;
    while run >= 11
      invariant 0 <= run <= n && nrle' + run <= rle.Length
      invariant rle[..nrle'] + ZeroCodes(run) == old(rle[..nrle]) + ZeroCodes(n)
    {
      var r := if run > 138 then 138 else run;
      ZeroStep(rle[..nrle'], run);
      Put(rle, nrle', ClWord(18, r - 11));
      nrle', run := nrle' + 1, run - r;
    }
    RunEnds(0, run);
    if run >= 3 {
      Put(rle, nrle', ClWord(17, run - 3));
      nrle' := nrle' + 1;
    } else {
      nrle' := Singles(rle, nrle', 0, run);
    }
  }

  /** Appends the symbols of a run of equal nonzero lengths. */
  method NonzeroRun(rle: array<nat>, nrle: nat, l: nat, n: nat) returns (nrle': nat)
    requires l > 0 && n >= 1 && nrle + n <= rle.Length
    modifies rle
    ensures nrle' <= rle.Length && rle[..nrle'] == old(rle[..nrle]) + RunCodes(l, n)
  {
    hide ClWord, ZeroCodes, SameCodes, Repeat;
    ghost var start := rle[..nrle];
    Put(rle, nrle, l);
    nrle' := nrle + 1;
    var run := n - 1;
    while run >= 3
      invariant 0 <= run <= n - 1 && nrle' + run <= rle.Length
      invariant rle[..nrle'] + SameCodes(l, run) == start + [l] + SameCodes(l, n - 1)
    {
      var r := if run > 6 then 6 else run;
      SameStep(rle[..nrle'], l, run);
      Put(rle, nrle', ClWord(16, r - 3));
      nrle', run := nrle' + 1, run - r;
    }
    RunEnds(l, run);
    nrle' := Singles(rle, nrle', l, run);
    Assoc(start, [l], SameCodes(l, n - 1));
  }

  /** How many lengths from i on are equal. */
  method CountRun(all: seq<nat>, i: nat) returns (run: nat)
    requires i < |all|
    ensures run == RunLength(all[i..])
  {
    hide RunLength;
    ghost var s := all[i..];
    run := 1;
    while i + run < |all| && all[i + run] == all[i]
      invariant 1 <= run <= RunLength(s)
    {
      assert s[run] == s[0];
      run := run + 1;
    }
    assert run < |s| ==> s[run] == all[i + run];
  }

  lemma RleStep(all: seq<nat>, i: nat)
    requires i < |all|
    ensures var n := RunLength(all[i..]);
            1 <= n <= |all| - i && Rle(all[i..]) == RunCodes(all[i], n) + Rle(all[i + n..])
  {
    hide RunCodes, RunLength;
    var s := all[i..];
    assert s[RunLength(s)..] == all[i + RunLength(s)..];
  }

  /** One run's symbols. */
  method AddRun(rle: array<nat>, nrle: nat, l: nat, run: nat) returns (nrle': nat)
    requires run >= 1 && nrle + run <= rle.Length
    modifies rle
    ensures nrle' <= rle.Length && rle[..nrle'] == old(rle[..nrle]) + RunCodes(l, run)
  {
    hide ZeroCodes;
    if l == 0 {
      nrle' := ZeroRun(rle, nrle, run);
    } else {
      nrle' := NonzeroRun(rle, nrle, l, run);
    }
  }

  /** rle_lengths: the run-length code of the lengths, which spells exactly them. */
  method RleLengths(all: seq<nat>) returns (rle: array<nat>, nrle: nat)
    requires |all| <= 320 && forall k :: 0 <= k < |all| ==> all[k] <= 15
    ensures fresh(rle) && rle.Length == 320 && nrle <= |all|
    ensures rle[..nrle] == Rle(all) && ClExpand(rle[..nrle], []) == Some(all)
    ensures forall k :: 0 <= k < nrle ==> SoundCl(rle[k])
  {
    hide RunCodes, RunLength, Rle, ClExpand, SoundCl;
    RleSpells(all);
    rle := new nat[320](_ => 0);
    nrle := 0;
    var i := 0;
    assert all[0..] == all && rle[..0] == [];
    while i < |all|
      invariant 0 <= i <= |all| && nrle <= i && rle[..nrle] + Rle(all[i..]) == Rle(all)
    {
      RleStep(all, i);
      var run := CountRun(all, i);
      ghost var was := rle[..nrle];
      nrle := AddRun(rle, nrle, all[i], run);
      Assoc(was, RunCodes(all[i], run), Rle(all[i + run..]));
      i := i + run;
    }
    RleNone(all);
    assert rle[..nrle] + [] == rle[..nrle];
    assert forall k :: 0 <= k < nrle ==> rle[k] == Rle(all)[k];
  }

  lemma RleNone(all: seq<nat>)
    ensures Rle(all[|all|..]) == []
  {
  }
}
