/** CRC-32 (section 8 of RFC 1952): the bit-at-a-time definition, and the tables of
    http1/deflate.v that take eight bytes a step. A word is its 32 bits, least significant
    first. */
module Crc {
  import opened Basics
  import opened Bits
  import opened BitWriter

  type Word = w: seq<bool> | |w| == 32 witness Zeros(32)

  function Xor(a: Word, b: Word): (r: Word)
    ensures forall i :: 0 <= i < 32 ==> r[i] == (a[i] != b[i])
  {
    seq(32, i requires 0 <= i < 32 => a[i] != b[i])
  }

  /** Shifted down n places. */
  function Shr(a: Word, n: nat): (r: Word)
    requires n <= 32
    ensures forall i :: 0 <= i < 32 ==> r[i] == (i + n < 32 && a[i + n])
  {
    a[n..] + Zeros(n)
  }

  /** Shifted up n places. */
  function Shl(a: Word, n: nat): (r: Word)
    requires n <= 32
    ensures forall i :: 0 <= i < 32 ==> r[i] == (i >= n && a[i - n])
  {
    Zeros(n) + a[..32 - n]
  }

  /** The low byte. */
  function Low(a: Word): (r: Word)
    ensures forall i :: 0 <= i < 32 ==> r[i] == (i < 8 && a[i])
  {
    a[..8] + Zeros(24)
  }

  /** The powers below x^32 in the polynomial of ISO 3309. */
  const POWERS: set<nat> := {26, 23, 22, 16, 12, 11, 10, 8, 7, 5, 4, 2, 1, 0}

  /** The polynomial reflected, the power x^31 first. */
  function Poly(): Word {
    seq(32, i requires 0 <= i < 32 => 31 - i in POWERS)
  }

  /** The constant of the code. */
  lemma PolyWord()
    ensures Lsb(0xedb88320, 32) == Poly()
  {
    hide Lsb;
    LsbByte(0xedb88320, 24);
    LsbByte(0xedb883, 16);
    LsbByte(0xedb8, 8);
    PolyBytes();
  }

  lemma PolyBytes()
    ensures Lsb(0x20, 8) == [false, false, false, false, false, true, false, false]
    ensures Lsb(0x83, 8) == [true, true, false, false, false, false, false, true]
    ensures Lsb(0xb8, 8) == [false, false, false, true, true, true, false, true]
    ensures Lsb(0xed, 8) == [true, false, true, true, false, true, true, true]
  {
    hide Lsb;
    Byte20();
    Byte83();
    ByteB8();
    ByteEd();
  }

  lemma Byte20()
    ensures Lsb(0x20, 8) == [false, false, false, false, false, true, false, false]
  {
  }

  lemma Byte83()
    ensures Lsb(0x83, 8) == [true, true, false, false, false, false, false, true]
  {
  }

  lemma ByteB8()
    ensures Lsb(0xb8, 8) == [false, false, false, true, true, true, false, true]
  {
  }

  lemma ByteEd()
    ensures Lsb(0xed, 8) == [true, false, true, true, false, true, true, true]
  {
  }

  /** All 32 bits set, as the code writes it. */
  lemma {:induction false} OnesWord()
    ensures Lsb(0xffffffff, 32) == Ones()
  {
    hide Lsb;
    LsbByte(0xffffffff, 24);
    LsbByte(0xffffff, 16);
    LsbByte(0xffff, 8);
    AllBits();
  }

  lemma AllBits()
    ensures Lsb(0xff, 8) == [true, true, true, true, true, true, true, true]
  {
  }

  function Not(a: Word): (r: Word)
    ensures r == Xor(a, Ones())
  {
    seq(32, i requires 0 <= i < 32 => !a[i])
  }

  /** One bit: divide by the polynomial. */
  function Bit(c: Word): Word {
    if c[0] then Xor(Shr(c, 1), Poly()) else Shr(c, 1)
  }

  lemma BitLinear(x: Word, y: Word)
    ensures Bit(Xor(x, y)) == Xor(Bit(x), Bit(y))
  {
    hide Xor, Shr, Poly;
  }

  /** n bits. */
  function Divide(c: Word, n: nat): Word
    decreases n
  {
    if n == 0 then c else Divide(Bit(c), n - 1)
  }

  lemma {:induction false} DivideLinear(x: Word, y: Word, n: nat)
    ensures Divide(Xor(x, y), n) == Xor(Divide(x, n), Divide(y, n))
    decreases n
  {
    hide Bit, Xor;
    if n > 0 {
      BitLinear(x, y);
      DivideLinear(Bit(x), Bit(y), n - 1);
    }
  }

  lemma {:induction false} DivideAdd(x: Word, m: nat, n: nat)
    ensures Divide(Divide(x, m), n) == Divide(x, m + n)
    decreases m
  {
    hide Bit;
    if m > 0 {
      DivideAdd(Bit(x), m - 1, n);
    }
  }

  /** While the low bits are clear, dividing only shifts. */
  lemma {:induction false} DivideShifts(x: Word, n: nat)
    requires n <= 32 && forall i :: 0 <= i < n ==> !x[i]
    ensures Divide(x, n) == Shr(x, n)
    decreases n
  {
    hide Xor, Shr, Poly;
    if n > 0 {
      DivideShifts(Shr(x, 1), n - 1);
      assert Shr(Shr(x, 1), n - 1) == Shr(x, n);
    } else {
      assert Shr(x, 0) == x;
    }
  }

  /** The table step: only the low byte needs dividing. */
  lemma TableStep(x: Word)
    ensures Divide(x, 8) == Xor(Divide(Low(x), 8), Shr(x, 8))
  {
    hide Divide, Xor, Shr, Low, Shl;
    var high := Shl(Shr(x, 8), 8);
    assert x == Xor(Low(x), high);
    assert Shr(high, 8) == Shr(x, 8);
    DivideLinear(Low(x), high, 8);
    DivideShifts(high, 8);
  }

  /** A byte as a word. */
  function OfByte(b: byte): Word {
    Lsb(b, 32)
  }

  /** The number the low byte spells: a table index. */
  function Index(x: Word): (i: nat)
    ensures i < 256
  {
    hide LsbVal, Pow2;
    LsbValBound(x[..8]);
    Pow2Eight();
    LsbVal(x[..8])
  }

  lemma {:induction false} PaddedLsb(b: seq<bool>, n: nat)
    ensures Lsb(LsbVal(b), |b| + n) == b + Zeros(n)
  {
    if b == [] {
      LsbZero(n);
    } else {
      PaddedLsb(b[1..], n);
    }
  }

  lemma IndexIsLow(x: Word)
    ensures OfByte(Index(x)) == Low(x)
  {
    hide Lsb, LsbVal;
    PaddedLsb(x[..8], 24);
  }

  lemma ByteHigh(b: byte)
    ensures forall i :: 8 <= i < 32 ==> !OfByte(b)[i]
  {
    hide Lsb;
    LsbByte(b, 24);
    LsbZero(24);
  }

  /** The checksum register after some bytes, one bit at a time. */
  function Register(c: Word, s: seq<byte>): Word {
    if s == [] then c else Divide(Xor(Register(c, s[..|s| - 1]), OfByte(s[|s| - 1])), 8)
  }

  function Ones(): Word {
    seq(32, _ => true)
  }

  /** The CRC-32 of a byte string. */
  function Checksum(s: seq<byte>): Word {
    Xor(Register(Ones(), s), Ones())
  }

  /** A byte shifted under the register comes out after one step. */
  lemma FeedLater(x: Word, b: byte, k: nat)
    requires k <= 2
    ensures Divide(Xor(x, Shl(OfByte(b), 8 * k + 8)), 8) == Xor(Divide(x, 8), Shl(OfByte(b), 8 * k))
  {
    hide Divide, Xor, Shr, Shl, OfByte;
    var high := Shl(OfByte(b), 8 * k + 8);
    DivideLinear(x, high, 8);
    DivideShifts(high, 8);
    ByteHigh(b);
    assert Shr(high, 8) == Shl(OfByte(b), 8 * k);
  }

  /** Four bytes in a word, least significant first. */
  function Word4(b0: byte, b1: byte, b2: byte, b3: byte): Word {
    Xor(Xor(Xor(OfByte(b0), Shl(OfByte(b1), 8)), Shl(OfByte(b2), 16)), Shl(OfByte(b3), 24))
  }

  lemma XorAssoc(a: Word, b: Word, c: Word)
    ensures Xor(a, Xor(b, c)) == Xor(Xor(a, b), c)
  {
  }

  lemma ShlZero(a: Word)
    ensures Shl(a, 0) == a
  {
  }

  /** Four bytes at once, or one after another. */
  lemma FourAtOnce(c: Word, b0: byte, b1: byte, b2: byte, b3: byte)
    ensures Register(c, [b0, b1, b2, b3]) == Divide(Xor(Word4(b0, b1, b2, b3), c), 32)
  {
    hide Divide, Xor, Shl, OfByte;
    var w0, w1, w2, w3 := OfByte(b0), OfByte(b1), OfByte(b2), OfByte(b3);
    var x0 := Xor(c, w0);
    var y2 := Xor(x0, Shl(w1, 8));
    var y3 := Xor(y2, Shl(w2, 16));
    assert Xor(Word4(b0, b1, b2, b3), c) == Xor(y3, Shl(w3, 24)) by {
      Gather(c, w0, Shl(w1, 8), Shl(w2, 16), Shl(w3, 24));
    }
    // the first byte leaves, the others move down
    FeedLater(y3, b3, 2);
    FeedLater(y2, b2, 1);
    FeedLater(x0, b1, 0);
    ShlZero(w1);
    ShlZero(w2);
    ShlZero(w3);
    var x1 := Xor(Divide(x0, 8), w1);
    var z2 := Xor(x1, Shl(w2, 8));
    FeedLater(z2, b3, 1);
    FeedLater(x1, b2, 0);
    var x2 := Xor(Divide(x1, 8), w2);
    FeedLater(x2, b3, 0);
    var x3 := Xor(Divide(x2, 8), w3);
    FourRegisters(c, b0, b1, b2, b3);
    var all := Xor(y3, Shl(w3, 24));
    DivideAdd(all, 8, 8);
    DivideAdd(all, 16, 8);
    DivideAdd(all, 24, 8);
  }

  lemma Gather(c: Word, a: Word, b: Word, d: Word, e: Word)
    ensures Xor(Xor(Xor(Xor(a, b), d), e), c) == Xor(Xor(Xor(Xor(c, a), b), d), e)
  {
  }

  lemma FourRegisters(c: Word, b0: byte, b1: byte, b2: byte, b3: byte)
    ensures Register(c, [b0, b1, b2, b3])
         == Divide(Xor(Divide(Xor(Divide(Xor(Divide(Xor(c, OfByte(b0)), 8), OfByte(b1)), 8), OfByte(b2)), 8),
             OfByte(b3)), 8)
  {
    hide Divide, Xor, OfByte;
    OneMore(c, [b0, b1, b2], b3);
    OneMore(c, [b0, b1], b2);
    OneMore(c, [b0], b1);
    OneMore(c, [], b0);
    assert [b0, b1, b2] + [b3] == [b0, b1, b2, b3] && [b0, b1] + [b2] == [b0, b1, b2] && [b0] + [b1] == [b0, b1]
        && [] + [b0] == [b0];
    assert Register(c, []) == c;
  }

  lemma OneMore(c: Word, s: seq<byte>, b: byte)
    ensures Register(c, s + [b]) == Divide(Xor(Register(c, s), OfByte(b)), 8)
  {
    hide Divide, Xor, OfByte;
    assert (s + [b])[..|s|] == s;
  }

  /** Bytes of a word divided separately, each as far as it has to go. */
  lemma ByBytes(x: Word, n: nat)
    ensures Divide(x, n + 32)
         == Xor(Xor(Xor(Divide(Low(x), n + 32), Divide(Low(Shr(x, 8)), n + 24)), Divide(Low(Shr(x, 16)), n + 16)),
                Divide(Low(Shr(x, 24)), n + 8))
  {
    hide Divide, Xor, Shr, Low;
    ByByte(x, n + 24);
    ByByte(Shr(x, 8), n + 16);
    ByByte(Shr(x, 16), n + 8);
    ByByte(Shr(x, 24), n);
    assert Shr(Shr(x, 8), 8) == Shr(x, 16) && Shr(Shr(x, 16), 8) == Shr(x, 24);
    assert Shr(Shr(x, 24), 8) == Zeros(32);
    DivideZeros(n);
    var a, b, c, d := Divide(Low(x), n + 32), Divide(Low(Shr(x, 8)), n + 24), Divide(Low(Shr(x, 16)), n + 16),
        Divide(Low(Shr(x, 24)), n + 8);
    assert Xor(d, Zeros(32)) == d;
    XorAssoc(a, b, Xor(c, d));
    XorAssoc(Xor(a, b), c, d);
  }

  lemma ByByte(x: Word, n: nat)
    ensures Divide(x, n + 8) == Xor(Divide(Low(x), n + 8), Divide(Shr(x, 8), n))
  {
    hide Divide, Xor, Shr, Low;
    TableStep(x);
    DivideAdd(x, 8, n);
    DivideAdd(Low(x), 8, n);
    DivideLinear(Divide(Low(x), 8), Shr(x, 8), n);
  }

  lemma {:induction false} DivideZeros(n: nat)
    ensures Divide(Zeros(32), n) == Zeros(32)
  {
    if n > 0 {
      assert Bit(Zeros(32)) == Zeros(32) by {
        assert Shr(Zeros(32), 1) == Zeros(32);
      }
      DivideZeros(n - 1);
    }
  }

  lemma {:induction false} RegisterConcat(c: Word, s: seq<byte>, t: seq<byte>)
    ensures Register(c, s + t) == Register(Register(c, s), t)
  {
    hide Divide, Xor, OfByte;
    if t == [] {
      assert s + t == s;
    } else {
      var n := |t| - 1;
      assert (s + t)[..|s| + n] == s + t[..n];
      RegisterConcat(c, s, t[..n]);
    }
  }

  /** Entry i of table k: byte i divided 8 * (k + 1) bits. */
  function Entry(k: nat, i: byte): Word {
    Divide(OfByte(i), 8 * k + 8)
  }

  function Place(k: nat, i: nat): (p: nat)
    requires k < 8 && i < 256
    ensures p < 2048
  {
    k * 256 + i
  }

  lemma PlaceApart(k: nat, i: nat, l: nat, j: nat)
    requires k < 8 && i < 256 && l < 8 && j < 256
    ensures Place(k, i) == Place(l, j) <==> k == l && i == j
  {
  }

  ghost predicate Tables(t: seq<Word>) {
    |t| == 2048 && forall k, i :: 0 <= k < 8 && 0 <= i < 256 ==> t[Place(k, i)] == Entry(k, i)
  }

  /** From one table to the next. */
  lemma NextEntry(k: nat, i: byte)
    ensures Entry(k + 1, i) == Xor(Shr(Entry(k, i), 8), Entry(0, Index(Entry(k, i))))
  {
    hide Divide, Xor, Shr, OfByte, Low, Index;
    var prev := Entry(k, i);
    DivideAdd(OfByte(i), 8 * k + 8, 8);
    TableStep(prev);
    IndexIsLow(prev);
    XorComm(Divide(Low(prev), 8), Shr(prev, 8));
  }

  lemma XorComm(a: Word, b: Word)
    ensures Xor(a, b) == Xor(b, a)
  {
  }

  /** Table 0 divides each byte bit by bit. */
  method FirstTable(t: array<Word>)
    requires t.Length == 2048
    modifies t
    ensures forall i :: 0 <= i < 256 ==> t[Place(0, i)] == Entry(0, i)
  {
    hide Divide, Bit, OfByte, Entry;
    for i := 0 to 256
      invariant forall j :: 0 <= j < i ==> t[Place(0, j)] == Entry(0, j)
    {
      var c := OfByte(i);
      var b := 0;
      assert Divide(c, 0) == c by {
        NoBits(c);
      }
      while b < 8
        invariant 0 <= b <= 8 && c == Divide(OfByte(i), b)
        modifies {}
        decreases 8 - b
      {
        MoreBits(OfByte(i), b);
        BitIs(c);
        c := if c[0] then Xor(Shr(c, 1), Lsb(0xedb88320, 32)) else Shr(c, 1);
        b := b + 1;
      }
      EntryZero(i);
      t[i] := c;
    }
  }

  lemma BitIs(c: Word)
    ensures Bit(c) == if c[0] then Xor(Shr(c, 1), Lsb(0xedb88320, 32)) else Shr(c, 1)
  {
    hide Xor, Shr, Poly, Lsb;
    PolyWord();
  }

  lemma NoBits(c: Word)
    ensures Divide(c, 0) == c
  {
  }

  lemma EntryZero(i: byte)
    ensures Entry(0, i) == Divide(OfByte(i), 8)
  {
  }

  lemma MoreBits(c: Word, n: nat)
    ensures Divide(c, n + 1) == Bit(Divide(c, n))
  {
    hide Bit;
    DivideAdd(c, n, 1);
    assert Divide(Divide(c, n), 1) == Divide(Bit(Divide(c, n)), 0);
  }

  /** make_crc_table: the eight tables of slice-by-8. */
  method MakeTables() returns (t: array<Word>)
    ensures fresh(t) && Tables(t[..])
  {
    hide Xor, Shr, Place, Entry, Index;
    t := new Word[2048](_ => Zeros(32));
    FirstTable(t);
    for i := 0 to 256
      invariant forall j :: 0 <= j < 256 ==> t[Place(0, j)] == Entry(0, j)
      invariant forall l, j :: 0 <= l < 8 && 0 <= j < i ==> t[Place(l, j)] == Entry(l, j)
    {
      for k := 1 to 8
        invariant forall j :: 0 <= j < 256 ==> t[Place(0, j)] == Entry(0, j)
        invariant forall l, j :: 0 <= l < 8 && 0 <= j < i ==> t[Place(l, j)] == Entry(l, j)
        invariant forall l :: 0 <= l < k ==> t[Place(l, i)] == Entry(l, i)
      {
        var prev := t[Place(k - 1, i)];
        NextEntry(k - 1, i);
        forall l, j | 0 <= l < 8 && 0 <= j < 256
          ensures Place(l, j) == Place(k, i) <==> l == k && j == i
        {
          PlaceApart(l, j, k, i);
        }
        t[Place(k, i)] := Xor(Shr(prev, 8), t[Place(0, Index(prev))]);
      }
    }
  }

  /** One byte from table 0. */
  lemma ByteStep(t: seq<Word>, c: Word, b: byte)
    requires Tables(t)
    ensures Divide(Xor(c, OfByte(b)), 8) == Xor(t[Place(0, Index(Xor(c, OfByte(b))))], Shr(c, 8))
  {
    hide Divide, Xor, Shr, OfByte, Low, Index, Place;
    var x := Xor(c, OfByte(b));
    TableStep(x);
    IndexIsLow(x);
    ByteHigh(b);
    assert Shr(x, 8) == Shr(c, 8);
  }

  /** Eight bytes from eight tables. */
  function Slice(t: seq<Word>, lo: Word, hi: Word): Word
    requires |t| == 2048
  {
    Xor(Half(t, 4, lo), Half(t, 0, hi))
  }

  function Half(t: seq<Word>, k: nat, x: Word): Word
    requires |t| == 2048 && k <= 4
  {
    Xor(Xor(Xor(t[Place(k + 3, Index(x))], t[Place(k + 2, Index(Shr(x, 8)))]), t[Place(k + 1, Index(Shr(x, 16)))]),
        t[Place(k, Index(Shr(x, 24)))])
  }

  lemma HalfIs(t: seq<Word>, k: nat, x: Word)
    requires Tables(t) && k <= 4
    ensures Half(t, k, x) == Divide(x, 8 * k + 32)
  {
    hide Divide, Xor, Shr, OfByte, Low, Index, Place;
    ByBytes(x, 8 * k);
    IndexIsLow(x);
    IndexIsLow(Shr(x, 8));
    IndexIsLow(Shr(x, 16));
    IndexIsLow(Shr(x, 24));
  }

  lemma SliceStep(t: seq<Word>, c: Word, b: seq<byte>)
    requires Tables(t) && |b| == 8
    ensures Register(c, b) == Slice(t, Xor(Word4(b[0], b[1], b[2], b[3]), c), Word4(b[4], b[5], b[6], b[7]))
  {
    hide Divide, Xor, Half, Word4, Register, Tables;
    var lo, hi := Xor(Word4(b[0], b[1], b[2], b[3]), c), Word4(b[4], b[5], b[6], b[7]);
    assert b == [b[0], b[1], b[2], b[3]] + [b[4], b[5], b[6], b[7]];
    RegisterConcat(c, [b[0], b[1], b[2], b[3]], [b[4], b[5], b[6], b[7]]);
    FourAtOnce(c, b[0], b[1], b[2], b[3]);
    var mid := Divide(lo, 32);
    FourAtOnce(mid, b[4], b[5], b[6], b[7]);
    DivideLinear(hi, mid, 32);
    DivideAdd(lo, 32, 32);
    XorComm(Divide(hi, 32), Divide(mid, 32));
    assert Tables(t) ==> |t| == 2048 by {
      TablesSize(t);
    }
    HalfIs(t, 4, lo);
    HalfIs(t, 0, hi);
  }

  lemma TablesSize(t: seq<Word>)
    requires Tables(t)
    ensures |t| == 2048
  {
  }

  lemma NoBytes(c: Word, s: seq<byte>)
    requires s == []
    ensures Register(c, s) == c
  {
  }
}
