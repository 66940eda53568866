/** The encoder's code tables (canonical and rev8 in http1/deflate.v): canonical codes in
    16-bit words, bit-reversed for a least-significant-first writer. */
module CodeTable {
  import opened Basics
  import opened Bits
  import opened Canonical

  lemma {:induction false} ReverseConcat(lo: nat, m: nat, hi: nat, n: nat)
    requires lo < Pow2(m)
    ensures Reverse(lo + hi * Pow2(m), m + n) == Reverse(lo, m) * Pow2(n) + Reverse(hi, n)
  {
    hide Pow2;
    if m == 0 {
      Pow2Zero();
      assert hi * Pow2(0) == hi;
    } else {
      Pow2Half(m);
      ReverseConcat(lo / 2, m - 1, hi, n);
      var p := Pow2(m - 1);
      var v := lo + hi * Pow2(m);
      HalfOf(lo, hi, p);
      assert v == lo + hi * (2 * p);
      Pow2Add(m - 1, n);
      Redistribute(Reverse(lo / 2, m - 1), lo % 2, p, Pow2(n));
    }
  }

  lemma HalfOf(lo: nat, hi: nat, p: nat)
    ensures var v := lo + hi * (2 * p); v >= 0 && v % 2 == lo % 2 && v / 2 == lo / 2 + hi * p
  {
    assert hi * (2 * p) == 2 * (hi * p);
    MulMono(0, hi, p);
  }

  lemma Pow2Half(m: nat)
    requires m > 0
    ensures Pow2(m) == 2 * Pow2(m - 1)
  {
  }

  lemma Redistribute(r: int, b: int, p: int, q: int)
    ensures (r + b * p) * q == r * q + b * (p * q)
  {
    assert (b * p) * q == b * (p * q);
  }

  /** Only the low n bits are reversed. */
  lemma ReverseLow(v: nat, n: nat, lo: nat, hi: nat)
    requires lo < Pow2(n) && v == lo + hi * Pow2(n)
    ensures Reverse(v, n) == Reverse(lo, n)
  {
    ReverseConcat(lo, n, hi, 0);
    assert Reverse(lo, n) * Pow2(0) == Reverse(lo, n);
  }

  /** The byte table rev8, built bit by bit. */
  method MakeRev8() returns (t: array<nat>)
    ensures fresh(t) && t.Length == 256
    ensures forall v :: 0 <= v < 256 ==> t[v] == Reverse(v, 8)
  {
    t := new nat[256](_ => 0);
    for v := 0 to 256
      invariant forall u :: 0 <= u < v ==> t[u] == Reverse(u, 8)
    {
      var r := ReversedByte(v);
      t[v] := r;
    }
  }

  method ReversedByte(v: nat) returns (r: nat)
    requires v < 256
    ensures r == Reverse(v, 8)
  {
    r := 0;
    var rest := v;
    assert Pow2(0) == 1 && Pow2(8) == 256;
    for b := 0 to 8
      invariant rest >= 0 && r + Reverse(rest, 8 - b) == Reverse(v, 8)
    {
      // bit b of v, set at 7 - b
      r := r + (rest % 2) * Pow2(7 - b);
      rest := rest / 2;
    }
  }

  /** Both bytes reversed and swapped, then shifted down: the l-bit code reversed. */
  function Reversed16(c: nat, l: nat): (r: nat)
    requires c < 65536 && l <= 16
  {
    ShiftDown(Reverse(c % 256, 8) * 256 + Reverse(c / 256, 8), 16 - l)
  }

  lemma Reversed16Is(c: nat, l: nat, v: nat)
    requires c < 65536 && l <= 16 && c == v % 65536
    ensures Reversed16(c, l) == Reverse(v, l)
  {
    hide Reverse, Pow2;
    Pow2Eight();
    ReverseConcat(c % 256, 8, c / 256, 8);
    assert c == c % 256 + (c / 256) * 256;
    DivNat(c, Pow2(l));
    var lo, hi := c % Pow2(l), c / Pow2(l);
    ReverseConcat(lo, l, hi, 16 - l);
    var p := Pow2(16 - l);
    assert Reverse(c, 16) == Reverse(lo, l) * p + Reverse(hi, 16 - l) by {
      assert l + (16 - l) == 16 && 8 + 8 == 16;
    }
    DivUnique(Reverse(c, 16), p, Reverse(lo, l), Reverse(hi, 16 - l));
    LowOfWord(v, c, l, lo, hi);
  }

  lemma LowOfWord(v: nat, c: nat, l: nat, lo: nat, hi: nat)
    requires c == v % 65536 && l <= 16 && lo < Pow2(l) && c == lo + hi * Pow2(l)
    ensures Reverse(v, l) == Reverse(lo, l)
  {
    hide Reverse, Pow2;
    Pow2Add(l, 16 - l);
    Pow2Word();
    var q, p, r := v / 65536, Pow2(l), Pow2(16 - l);
    assert v == c + q * 65536;
    assert q * (p * r) == (q * r) * p;
    assert lo + hi * p + (q * r) * p == lo + (hi + q * r) * p;
    ReverseLow(v, l, lo, hi + q * r);
  }

  /** How many codes there are of each length, with none of length zero. */
  method CountLengths(lens: seq<nat>) returns (count: array<nat>)
    requires |lens| <= 288 && forall s :: 0 <= s < |lens| ==> lens[s] <= MAX_BITS
    ensures fresh(count) && count.Length == 16 && count[0] == 0
    ensures forall l :: 1 <= l < 16 ==> count[l] == CountLen(lens, l)
  {
    count := new nat[16](_ => 0);
    for s := 0 to |lens|
      invariant forall l :: 0 <= l < 16 ==> count[l] == CountLen(lens[..s], l)
    {
      assert lens[..s + 1][..s] == lens[..s];
      count[lens[s]] := count[lens[s]] + 1;
    }
    assert lens[..|lens|] == lens;
    count[0] := 0;
  }

  /** The first code of each length, in a 16-bit word. */
  method FirstCodes(lens: seq<nat>, count: array<nat>) returns (next: array<nat>)
    requires count.Length == 16 && count[0] == 0
    requires forall l :: 1 <= l < 16 ==> count[l] == CountLen(lens, l)
    ensures fresh(next) && next.Length == 16
    ensures forall l :: 1 <= l < 16 ==> next[l] == First(lens, l) % 65536
  {
    hide CountLen, First;
    next := new nat[16](_ => 0);
    var code := 0;
    for b := 1 to 16
      invariant code == (if b == 1 then 0 else First(lens, b - 1) % 65536)
      invariant forall l :: 1 <= l < b ==> next[l] == First(lens, l) % 65536
    {
      FirstStep(lens, b, code, count[b - 1]);
      code := ((code + count[b - 1]) * 2) % 65536;
      next[b] := code;
    }
  }

  lemma FirstStep(lens: seq<nat>, b: nat, code: nat, c: nat)
    requires b >= 1 && code == (if b == 1 then 0 else First(lens, b - 1) % 65536)
    requires c == if b == 1 then 0 else CountLen(lens, b - 1)
    ensures ((code + c) * 2) % 65536 == First(lens, b) % 65536
  {
    hide CountLen;
    if b > 1 {
      ModDouble(First(lens, b - 1), c);
    }
  }

  lemma ModDouble(f: nat, c: nat)
    ensures ((f % 65536 + c) * 2) % 65536 == (2 * (f + c)) % 65536
  {
  }

  lemma ModSucc(x: nat)
    ensures (x % 65536 + 1) % 65536 == (x + 1) % 65536
  {
  }

  /** canonical: the reversed code of every used symbol, whatever the lengths. */
  method CanonicalCodes(lens: seq<nat>) returns (codes: array<nat>)
    requires |lens| <= 288 && forall s :: 0 <= s < |lens| ==> lens[s] <= MAX_BITS
    ensures fresh(codes) && codes.Length == |lens|
    ensures forall s :: 0 <= s < |lens| && lens[s] > 0 ==> codes[s] == Reverse(Code(lens, s), lens[s])
  {
    hide CountLen, First, Reverse, Reversed16;
    codes := new nat[|lens|](_ => 0);
    var count := CountLengths(lens);
    var next := FirstCodes(lens, count);
    EmptyCounts(lens);
    for s := 0 to |lens|
      invariant forall l :: 1 <= l < 16 ==> next[l] == (First(lens, l) + CountLen(lens[..s], l)) % 65536
      invariant forall t :: 0 <= t < s && lens[t] > 0 ==> codes[t] == Reverse(Code(lens, t), lens[t])
    {
      CountStep(lens, s);
      var l := lens[s];
      if l != 0 {
        var c := next[l];
        ModSucc(Code(lens, s));
        next[l] := (c + 1) % 65536;
        Reversed16Is(c, l, Code(lens, s));
        codes[s] := Reversed16(c, l);
      }
    }
  }

  lemma EmptyCounts(lens: seq<nat>)
    ensures forall l :: CountLen(lens[..0], l) == 0
  {
    assert lens[..0] == [];
  }

  lemma CountStep(lens: seq<nat>, s: nat)
    requires s < |lens|
    ensures forall l :: CountLen(lens[..s + 1], l) == CountLen(lens[..s], l) + if l == lens[s] then 1 else 0
  {
    assert lens[..s + 1][..s] == lens[..s];
  }
}
