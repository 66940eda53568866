/** The reduction of engine/aesgcm.h (viltrum_gf_reduce) on 128-bit registers. A register
    is given by the coefficients it holds: byte- and bit-reflected, bit i is coefficient
    127 - i, so a shift of bits down is a shift of coefficients up. */
module GfReduce {
  import opened Basics
  import opened BitWriter
  import opened Gf128

  /** Shifted up k coefficients. */
  function U(p: Poly, k: nat): (r: Poly)
    requires k <= 128
    ensures forall i :: 0 <= i < 128 ==> r[i] == (i >= k && p[i - k])
  {
    Zeros(k) + p[..128 - k]
  }

  /** What k coefficients shifted out at the top come to: each is a multiple of R. */
  function Over(p: Poly, k: nat): (r: Poly)
    requires k <= 7
    ensures forall i :: 0 <= i < 128 ==> r[i] == OverAt(p, k, i)
  {
    seq(128, i requires 0 <= i < 128 => OverAt(p, k, i))
  }

  function OverAt(p: Poly, k: nat, i: nat): bool
    requires k <= 7
  {
    ((OutOf(p, k, i) != OutOf(p, k, i - 1)) != OutOf(p, k, i - 2)) != OutOf(p, k, i - 7)
  }

  /** Coefficient j of those shifted out. */
  function OutOf(p: Poly, k: nat, j: int): bool
    requires k <= 7
  {
    0 <= j < k && p[128 - k + j]
  }

  /** Multiplied by x up to seven times. */
  lemma {:induction false} TimesIs(p: Poly, k: nat)
    requires k <= 7
    ensures Times(p, k) == Add(U(p, k), Over(p, k))
  {
    hide Add, U, Over, T;
    if k == 0 {
      NoneOver(p);
    } else {
      TimesIs(p, k - 1);
      OverStep(p, k - 1);
      TStep(p, k - 1);
    }
  }

  lemma NoneOver(p: Poly)
    ensures Add(U(p, 0), Over(p, 0)) == p
  {
  }

  lemma OutStep(p: Poly, k: nat, j: int)
    requires k < 7
    ensures OutOf(p, k + 1, j) == if j == 0 then p[127 - k] else OutOf(p, k, j - 1)
  {
  }

  lemma OverStep(p: Poly, k: nat)
    requires k < 7
    ensures Over(p, k + 1) == Add(Up(Over(p, k)), Pick(p[127 - k], R()))
  {
    hide OutOf;
    var old1, r := Over(p, k), R();
    forall i | 0 <= i < 128
      ensures Over(p, k + 1)[i] == (Up(old1)[i] != (p[127 - k] && r[i]))
    {
      OutStep(p, k, i);
      OutStep(p, k, i - 1);
      OutStep(p, k, i - 2);
      OutStep(p, k, i - 7);
      NoOut(p, k);
    }
  }

  lemma NoOut(p: Poly, k: nat)
    requires k <= 7
    ensures forall j: int :: j < 0 ==> !OutOf(p, k, j)
  {
  }

  lemma TStep(p: Poly, k: nat)
    requires k < 7 && Over(p, k + 1) == Add(Up(Over(p, k)), Pick(p[127 - k], R()))
    ensures T(Add(U(p, k), Over(p, k))) == Add(U(p, k + 1), Over(p, k + 1))
  {
    hide R, Pick, Add, U, Over, Up;
    var u, o := U(p, k), Over(p, k);
    TopOf(p, k);
    UpAdd(u, o);
    UpU(p, k);
    AddAssoc(U(p, k + 1), Up(o), Pick(p[127 - k], R()));
  }

  lemma UpAdd(a: Poly, b: Poly)
    ensures Up(Add(a, b)) == Add(Up(a), Up(b))
  {
  }

  lemma UpU(p: Poly, k: nat)
    requires k < 128
    ensures Up(U(p, k)) == U(p, k + 1)
  {
  }

  lemma TopOf(p: Poly, k: nat)
    requires k < 7
    ensures Add(U(p, k), Over(p, k))[127] == p[127 - k]
  {
  }

  lemma Leading(x: bool, w: seq<bool>, p: Poly)
    ensures Act([x] + w, p) == Add(Pick(x, p), T(Act(w, p)))
  {
    assert ([x] + w)[1..] == w;
  }

  lemma {:induction false} Skipped(n: nat, w: seq<bool>, p: Poly)
    ensures Act(Zeros(n) + w, p) == Times(Act(w, p), n)
  {
    hide T, Add, Act;
    if n == 0 {
      assert Zeros(0) + w == w;
    } else {
      Skipped(n - 1, w, p);
      assert Zeros(n) + w == [false] + (Zeros(n - 1) + w);
      Leading(false, Zeros(n - 1) + w, p);
      AddZero(T(Times(Act(w, p), n - 1)));
    }
  }

  lemma {:induction false} TrailingZeros(w: seq<bool>, n: nat, p: Poly)
    ensures Act(w + Zeros(n), p) == Act(w, p)
  {
    if w == [] {
      assert w + Zeros(n) == Zeros(n);
      ZeroAct(n, p);
    } else {
      assert (w + Zeros(n))[1..] == w[1..] + Zeros(n);
      TrailingZeros(w[1..], n, p);
    }
  }

  lemma {:induction false} TimesAdd(a: Poly, b: Poly, k: nat)
    ensures Times(Add(a, b), k) == Add(Times(a, k), Times(b, k))
  {
    hide Add, T;
    if k > 0 {
      TimesAdd(a, b, k - 1);
      TAdd(Times(a, k - 1), Times(b, k - 1));
    }
  }

  lemma {:induction false} TimesTimes(a: Poly, j: nat, k: nat)
    ensures Times(Times(a, j), k) == Times(a, j + k)
  {
    hide T;
    if k > 0 {
      TimesTimes(a, j, k - 1);
    }
  }

  /** R times p, term by term. */
  lemma RTimes(p: Poly)
    ensures Act(R(), p) == Add(p, Add(Times(p, 1), Add(Times(p, 2), Times(p, 7))))
  {
    var tail := [true] + Zeros(120);
    assert R() == [true] + ([true] + ([true] + (Zeros(4) + tail)));
    hide T, Add, Pick, Times, R, Act;
    Leading(true, [true] + ([true] + (Zeros(4) + tail)), p);
    Leading(true, [true] + (Zeros(4) + tail), p);
    Leading(true, Zeros(4) + tail, p);
    Skipped(4, tail, p);
    Leading(true, Zeros(120), p);
    ZeroAct(120, p);
    TZero();
    AddZero(p);
    PickTrue(p);
    Nested(p);
  }

  lemma PickTrue(p: Poly)
    ensures Pick(true, p) == p
  {
  }

  lemma Nested(p: Poly)
    ensures Add(p, T(Add(p, T(Add(p, T(Times(p, 4))))))) == Add(p, Add(Times(p, 1), Add(Times(p, 2), Times(p, 7))))
  {
    hide Add, T;
    var a := Times(p, 4);
    TAdd(p, T(a));
    TAdd(p, T(Add(p, T(a))));
    TAdd(T(p), T(T(a)));
    assert Times(p, 1) == T(Times(p, 0)) && Times(p, 2) == T(Times(p, 1)) && Times(p, 5) == T(a)
        && Times(p, 6) == T(Times(p, 5))
           && Times(p, 7) == T(Times(p, 6));
  }

  /** The coefficients shifted out by one, two and seven places together. */
  function Spill(p: Poly): (r: Poly)
    ensures forall i :: 0 <= i < 128 ==> r[i] == ((OutOf(p, 1, i) != OutOf(p, 2, i)) != OutOf(p, 7, i))
  {
    seq(128, i requires 0 <= i < 128 => (OutOf(p, 1, i) != OutOf(p, 2, i)) != OutOf(p, 7, i))
  }

  predicate SpreadAt(p: Poly, i: nat)
    requires i < 128
  {
    ((p[i] != (i >= 1 && p[i - 1])) != (i >= 2 && p[i - 2])) != (i >= 7 && p[i - 7])
  }

  /** p and p shifted up by one, two and seven. */
  function Spread(p: Poly): (r: Poly)
    ensures forall i :: 0 <= i < 128 ==> r[i] == SpreadAt(p, i)
  {
    seq(128, i requires 0 <= i < 128 => SpreadAt(p, i))
  }

  /** R times p: what is shifted out is added to p first, and then nothing falls off. */
  lemma RTimesIs(p: Poly)
    ensures Act(R(), p) == Spread(Add(p, Spill(p)))
  {
    hide Act, Times, R, Add, Spread, Spill, U, Over;
    RTimes(p);
    TimesIs(p, 1);
    TimesIs(p, 2);
    TimesIs(p, 7);
    SpreadAdd(p, Spill(p));
    SpreadIs(p);
    SpillOver(p);
    Rearranged(p, U(p, 1), Over(p, 1), U(p, 2), Over(p, 2), U(p, 7), Over(p, 7));
  }

  lemma SpreadAdd(a: Poly, b: Poly)
    ensures Spread(Add(a, b)) == Add(Spread(a), Spread(b))
  {
  }

  lemma SpreadIs(p: Poly)
    ensures Spread(p) == Add(p, Add(U(p, 1), Add(U(p, 2), U(p, 7))))
  {
  }

  lemma SpillOver(p: Poly)
    ensures Spread(Spill(p)) == Add(Over(p, 1), Add(Over(p, 2), Over(p, 7)))
  {
    hide OutOf;
    NoOut(p, 1);
    NoOut(p, 2);
    NoOut(p, 7);
    var x, y := Spread(Spill(p)), Add(Over(p, 1), Add(Over(p, 2), Over(p, 7)));
    forall i | 0 <= i < 128
      ensures x[i] == y[i]
    {
    }
  }

  lemma Rearranged(p: Poly, a: Poly, b: Poly, c: Poly, d: Poly, e: Poly, f: Poly)
    ensures Add(p, Add(Add(a, b), Add(Add(c, d), Add(e, f)))) == Add(Add(p, Add(a, Add(c, e))), Add(b, Add(d, f)))
  {
  }

  /** srli_epi32: bits down within each 32-bit lane. */
  function Srl(p: Poly, s: nat): (r: Poly)
    requires s < 32
    ensures forall d :: 0 <= d < 128 ==> r[d] == (d % 32 >= s && p[d - s])
  {
    seq(128, d requires 0 <= d < 128 => d % 32 >= s && p[d - s])
  }

  /** slli_epi32. */
  function Sll(p: Poly, s: nat): (r: Poly)
    requires s < 32
    ensures forall d :: 0 <= d < 128 ==> r[d] == (d % 32 + s < 32 && p[d + s])
  {
    seq(128, d requires 0 <= d < 128 => d % 32 + s < 32 && p[d + s])
  }

  /** srli_si128: n bytes down. */
  function ByteSrl(p: Poly, n: nat): (r: Poly)
    requires n <= 16
    ensures forall d :: 0 <= d < 128 ==> r[d] == (d >= 8 * n && p[d - 8 * n])
  {
    seq(128, d requires 0 <= d < 128 => d >= 8 * n && p[d - 8 * n])
  }

  /** slli_si128. */
  function ByteSll(p: Poly, n: nat): (r: Poly)
    requires n <= 16
    ensures forall d :: 0 <= d < 128 ==> r[d] == (d + 8 * n < 128 && p[d + 8 * n])
  {
    seq(128, d requires 0 <= d < 128 => d + 8 * n < 128 && p[d + 8 * n])
  }

  function Or(a: Poly, b: Poly): (r: Poly)
    ensures forall d :: 0 <= d < 128 ==> r[d] == (a[d] || b[d])
  {
    seq(128, d requires 0 <= d < 128 => a[d] || b[d])
  }

  /** The 256-bit shift by one: every coefficient one down, into hi from lo. */
  method ShiftOne(lo: Poly, hi: Poly) returns (l: Poly, h: Poly)
    ensures l == lo[1..] + [false] && h == hi[1..] + [lo[0]]
  {
    var t7 := Srl(lo, 31);
    var t8 := Srl(hi, 31);
    l := Sll(lo, 1);
    h := Sll(hi, 1);
    var t9 := ByteSrl(t7, 12);
    t8 := ByteSll(t8, 4);
    t7 := ByteSll(t7, 4);
    l := Or(l, t7);
    h := Or(Or(h, t8), t9);
  }

  /** The fold of the coefficients from 128 on. */
  method FoldHigh(d: Poly) returns (r: Poly)
    ensures r == Act(R(), d)
  {
    hide Act, R;
    RTimesIs(d);
    var t7 := Add(Add(Sll(d, 31), Sll(d, 30)), Sll(d, 25));
    var t8 := ByteSrl(t7, 4);
    var g := Add(d, ByteSll(t7, 12));
    SpillLanes(d, t7);
    var t2 := Add(Add(Add(Srl(g, 1), Srl(g, 2)), Srl(g, 7)), t8);
    r := Add(g, t2);
    SpreadLanes(d, g, t7, t2);
  }

  /** What the lanes shift out of the last one. */
  lemma SpillLanes(d: Poly, t7: Poly)
    requires t7 == Add(Add(Sll(d, 31), Sll(d, 30)), Sll(d, 25))
    ensures ByteSll(t7, 12) == Spill(d)
  {
  }

  /** The lane shifts and what crosses between lanes are the shifts of the whole. */
  lemma SpreadLanes(d: Poly, g: Poly, t7: Poly, t2: Poly)
    requires t7 == Add(Add(Sll(d, 31), Sll(d, 30)), Sll(d, 25)) && g == Add(d, Spill(d))
    requires t2 == Add(Add(Add(Srl(g, 1), Srl(g, 2)), Srl(g, 7)), ByteSrl(t7, 4))
    ensures Add(g, t2) == Spread(g)
  {
    hide *;
    LaneShift(d, 1);
    LaneShift(d, 2);
    LaneShift(d, 7);
    SpreadIs(g);
    var c1, c2, c7 := ByteSrl(Sll(d, 31), 4), ByteSrl(Sll(d, 30), 4), ByteSrl(Sll(d, 25), 4);
    BytesAdd(Sll(d, 31), Sll(d, 30), Sll(d, 25));
    Collected(g, Srl(g, 1), c1, Srl(g, 2), c2, Srl(g, 7), c7);
  }

  lemma SpillLow(d: Poly)
    ensures forall i :: 7 <= i < 128 ==> !Spill(d)[i]
  {
  }

  lemma BytesAdd(a: Poly, b: Poly, c: Poly)
    ensures ByteSrl(Add(Add(a, b), c), 4) == Add(Add(ByteSrl(a, 4), ByteSrl(b, 4)), ByteSrl(c, 4))
  {
  }

  /** A shift of the whole: within lanes, and from each lane into the next. */
  lemma LaneShift(d: Poly, s: nat)
    requires s == 1 || s == 2 || s == 7
    ensures var g := Add(d, Spill(d)); U(g, s) == Add(Srl(g, s), ByteSrl(Sll(d, 32 - s), 4))
  {
    hide Spill;
    var g := Add(d, Spill(d));
    SpillLow(d);
    var across := ByteSrl(Sll(d, 32 - s), 4);
    forall i | 0 <= i < 128
      ensures U(g, s)[i] == (Srl(g, s)[i] != across[i])
    {
      assert across[i] == (i >= 32 && i % 32 < s && d[i - s]);
    }
  }

  lemma Collected(g: Poly, a: Poly, b: Poly, c: Poly, d: Poly, e: Poly, f: Poly)
    ensures Add(g, Add(Add(Add(a, c), e), Add(Add(b, d), f))) == Add(g, Add(Add(a, b), Add(Add(c, d), Add(e, f))))
  {
  }

  /** viltrum_gf_reduce: the field element a 256-coefficient product stands for, its first
      coefficient empty from the reflection. */
  method Reduce(lo: Poly, hi: Poly) returns (r: Poly)
    ensures r == Act((hi + lo)[1..], One())
  {
    hide Act, R, Add;
    var l, h := ShiftOne(lo, hi);
    var f := FoldHigh(l);
    r := Add(h, f);
    ReduceIs(lo, hi, l, h);
  }

  lemma ReduceIs(lo: Poly, hi: Poly, l: Poly, h: Poly)
    requires l == lo[1..] + [false] && h == hi[1..] + [lo[0]]
    ensures Act((hi + lo)[1..], One()) == Add(h, Act(R(), l))
  {
    hide Act, R, Add, Times;
    var w := (hi + lo)[1..];
    assert w + Zeros(1) == h + l;
    TrailingZeros(w, 1, One());
    Concat(h, l, One());
    ActOne(h);
    PadSelf(h);
    ActTimes(l, One(), 128);
    OneTimes128();
    // l times R is R times l
    ActOne(l);
    PadSelf(l);
    ActOne(R());
    PadSelf(R());
    ActSwap(l, R(), One());
  }

  /** The value of two strings one after the other. */
  lemma {:induction false} Concat(v: seq<bool>, w: seq<bool>, c: Poly)
    ensures Act(v + w, c) == Add(Act(v, c), Times(Act(w, c), |v|))
  {
    hide Add, T, Pick;
    if v == [] {
      assert v + w == w;
      AddZero(Act(w, c));
    } else {
      assert (v + w)[1..] == v[1..] + w;
      Concat(v[1..], w, c);
      var k := |v| - 1;
      TAdd(Act(v[1..], c), Times(Act(w, c), k));
      AddAssoc(Pick(v[0], c), T(Act(v[1..], c)), T(Times(Act(w, c), k)));
    }
  }
}
