/** CRC-32 by carry-less multiplication (http1/crc32_clmul.h, and crc32 in
    http1/deflate.v that uses it): 128-bit lanes folded by constants, then a Barrett
    reduction. A register is its bits, least significant first, which are a polynomial's
    coefficients, the highest power first. */
module CrcClmul {
  import opened Basics
  import opened Bits
  import opened BitWriter
  import opened Crc
  import opened CrcPoly

  const K1: bv64 := 0x0154442bd4
  const K2: bv64 := 0x01c6e41596
  const K3: bv64 := 0x01751997d0
  const K4: bv64 := 0x00ccaa009e
  const K5: bv64 := 0x0163cd6124
  const POLY: bv64 := 0x01db710641
  const MU: bv64 := 0x01f7011641

  function LowBit(v: bv64): bool {
    v & 1 == 1
  }

  function Down(v: bv64): bv64 {
    v >> 1
  }

  function Mix(a: bv64, b: bv64): bv64 {
    a ^ b
  }

  /** The low n bits of v, least significant first. */
  function Str(v: bv64, n: nat): (s: seq<bool>)
    ensures |s| == n
    decreases n
  {
    if n == 0 then [] else [LowBit(v)] + Str(Down(v), n - 1)
  }

  lemma {:induction false} StrZero(n: nat)
    ensures Str(0, n) == Zeros(n)
    decreases n
  {
    hide LowBit, Down;
    if n > 0 {
      ZeroBits();
      StrZero(n - 1);
    }
  }

  lemma ZeroBits()
    ensures !LowBit(0) && Down(0) == 0
  {
  }

  lemma MixBits(a: bv64, b: bv64)
    ensures Down(Mix(a, b)) == Mix(Down(a), Down(b)) && LowBit(Mix(a, b)) == (LowBit(a) != LowBit(b))
  {
  }

  lemma {:induction false} StrSum(a: bv64, b: bv64, n: nat)
    ensures Str(Mix(a, b), n) == Sum(Str(a, n), Str(b, n))
    decreases n
  {
    hide LowBit, Down, Mix;
    if n > 0 {
      MixBits(a, b);
      StrSum(Down(a), Down(b), n - 1);
    }
  }

  function Drop2(v: bv64): bv64 {
    v >> 2
  }

  function Drop4(v: bv64): bv64 {
    v >> 4
  }

  function Drop8(v: bv64): bv64 {
    v >> 8
  }

  function Drop16(v: bv64): bv64 {
    v >> 16
  }

  function Drop32(v: bv64): bv64 {
    v >> 32
  }

  lemma Drops(v: bv64)
    ensures Drop2(v) == Down(Down(v)) && Drop4(v) == Drop2(Drop2(v)) && Drop8(v) == Drop4(Drop4(v))
    ensures Drop16(v) == Drop8(Drop8(v)) && Drop32(v) == Drop16(Drop16(v))
  {
    hide Down, Drop2, Drop4, Drop8, Drop16, Drop32;
    DropTwo(v);
    DropFour(v);
    DropEight(v);
    DropSixteen(v);
    DropMore(v);
  }

  lemma DropTwo(v: bv64)
    ensures Drop2(v) == Down(Down(v))
  {
  }

  lemma DropFour(v: bv64)
    ensures Drop4(v) == Drop2(Drop2(v))
  {
  }

  lemma DropEight(v: bv64)
    ensures Drop8(v) == Drop4(Drop4(v))
  {
  }

  lemma DropSixteen(v: bv64)
    ensures Drop16(v) == Drop8(Drop8(v))
  {
  }

  lemma DropMore(v: bv64)
    ensures Drop32(v) == Drop16(Drop16(v))
  {
  }

  lemma Cut2(v: bv64, n: nat)
    ensures Str(v, 2 + n) == Str(v, 2) + Str(Drop2(v), n)
  {
    hide LowBit, Down, Drop2, Drop4, Drop8, Drop16, Drop32;
    Drops(v);
    assert Str(v, 2 + n) == [LowBit(v)] + Str(Down(v), 1 + n);
    assert Str(Down(v), 1 + n) == [LowBit(Down(v))] + Str(Down(Down(v)), n);
    assert Str(Down(v), 1) == [LowBit(Down(v))] + Str(Down(Down(v)), 0);
  }

  lemma Cut4(v: bv64, n: nat)
    ensures Str(v, 4 + n) == Str(v, 4) + Str(Drop4(v), n)
  {
    hide Str, Down, Drop2, Drop4, Drop8, Drop16, Drop32;
    Drops(v);
    Cut2(v, 2 + n);
    Cut2(v, 2);
    Cut2(Drop2(v), n);
  }

  lemma Cut8(v: bv64, n: nat)
    ensures Str(v, 8 + n) == Str(v, 8) + Str(Drop8(v), n)
  {
    hide Str, Down, Drop2, Drop4, Drop8, Drop16, Drop32;
    Drops(v);
    Cut4(v, 4 + n);
    Cut4(v, 4);
    Cut4(Drop4(v), n);
  }

  lemma Cut16(v: bv64, n: nat)
    ensures Str(v, 16 + n) == Str(v, 16) + Str(Drop16(v), n)
  {
    hide Str, Down, Drop2, Drop4, Drop8, Drop16, Drop32;
    Drops(v);
    Cut8(v, 8 + n);
    Cut8(v, 8);
    Cut8(Drop8(v), n);
  }

  lemma Cut32(v: bv64, n: nat)
    ensures Str(v, 32 + n) == Str(v, 32) + Str(Drop32(v), n)
  {
    hide Str, Down, Drop2, Drop4, Drop8, Drop16, Drop32;
    Drops(v);
    Cut16(v, 16 + n);
    Cut16(v, 16);
    Cut16(Drop16(v), n);
  }

  /** The low n bits of m are set. */
  predicate AllSet(m: bv64, n: nat)
    decreases n
  {
    n == 0 || (LowBit(m) && AllSet(Down(m), n - 1))
  }

  function Both(a: bv64, m: bv64): bv64 {
    a & m
  }

  lemma BothBits(a: bv64, m: bv64)
    ensures Down(Both(a, m)) == Both(Down(a), Down(m)) && (LowBit(m) ==> LowBit(Both(a, m)) == LowBit(a))
  {
  }

  /** Bits above the ones asked for do not matter. */
  lemma {:induction false} StrMask(a: bv64, m: bv64, n: nat)
    requires AllSet(m, n)
    ensures Str(Both(a, m), n) == Str(a, n)
    decreases n
  {
    hide LowBit, Down, Both;
    if n > 0 {
      BothBits(a, m);
      StrMask(Down(a), Down(m), n - 1);
    }
  }

  lemma Nibble(m: bv64)
    requires m & 15 == 15
    ensures LowBit(m) && LowBit(Down(m)) && LowBit(Drop2(m)) && LowBit(Down(Drop2(m)))
    ensures Drop2(m) == Down(Down(m)) && Drop4(m) == Down(Down(Drop2(m)))
  {
  }

  lemma Set4(m: bv64, n: nat)
    requires m & 15 == 15 && AllSet(Drop4(m), n)
    ensures AllSet(m, 4 + n)
  {
    Nibble(m);
    hide LowBit, Down, Drop2, Drop4;
    assert AllSet(Down(Drop2(m)), 1 + n);
    assert AllSet(Drop2(m), 2 + n);
    assert AllSet(Down(m), 3 + n);
  }

  lemma Masks()
    ensures AllSet(0xffffffff, 32) && AllSet(0x7fffffffffffffff, 63)
  {
    assert AllSet(0, 0);
    assert AllSet(0x1, 1) && AllSet(0x3, 2) && AllSet(0x7, 3);
    hide AllSet;
    Set4(0xf, 0);
    Set4(0xff, 4);
    Set4(0xfff, 8);
    Set4(0xffff, 12);
    Set4(0xfffff, 16);
    Set4(0xffffff, 20);
    Set4(0xfffffff, 24);
    Set4(0xffffffff, 28);
    Set4(0x7f, 3);
    Set4(0x7ff, 7);
    Set4(0x7fff, 11);
    Set4(0x7ffff, 15);
    Set4(0x7fffff, 19);
    Set4(0x7ffffff, 23);
    Set4(0x7fffffff, 27);
    Set4(0x7ffffffff, 31);
    Set4(0x7fffffffff, 35);
    Set4(0x7ffffffffff, 39);
    Set4(0x7fffffffffff, 43);
    Set4(0x7ffffffffffff, 47);
    Set4(0x7fffffffffffff, 51);
    Set4(0x7ffffffffffffff, 55);
    Set4(0x7fffffffffffffff, 59);
  }

  lemma {:induction false} FewerSet(m: bv64, n: nat, k: nat)
    requires AllSet(m, n) && k <= n
    ensures AllSet(m, k)
    decreases n
  {
    hide LowBit, Down;
    if k > 0 {
      FewerSet(Down(m), n - 1, k - 1);
    }
  }

  function Up(v: bv64): bv64 {
    v << 1
  }

  lemma UpBits(a: bv64)
    ensures Down(Up(a)) == Both(a, 0x7fffffffffffffff) && !LowBit(Up(a))
  {
  }

  lemma StrUp(a: bv64, n: nat)
    requires n <= 63
    ensures Str(Up(a), n + 1) == [false] + Str(a, n)
  {
    hide LowBit, Down, Up, Both, AllSet;
    Masks();
    FewerSet(0x7fffffffffffffff, 63, n);
    StrMask(a, 0x7fffffffffffffff, n);
    UpBits(a);
  }

  lemma StrSmall(q: bv64, n: nat)
    requires Drop32(q) == 0
    ensures Str(q, 32 + n) == Str(q, 32) + Zeros(n)
  {
    hide Str, Drop32;
    Cut32(q, n);
    StrZero(n);
  }

  /** One step of a product: q where the bit is set, and the rest moved up. */
  function Join(x: bool, q: bv64, t: bv64): bv64 {
    Mix(if x then q else 0, Up(t))
  }

  /** The carry-less product of the low n bits of p with q. */
  function Times(p: bv64, q: bv64, n: nat): bv64
    decreases n
  {
    if n == 0 then 0 else Join(LowBit(p), q, Times(Down(p), q, n - 1))
  }

  lemma {:induction false} TimesIs(p: bv64, q: bv64, n: nat)
    requires Drop32(q) == 0 && n <= 33
    ensures Str(Times(p, q, n), n + 31) == Prod(Str(p, n), Str(q, 32))
    decreases n
  {
    hide Prod, Sum, Drop32, LowBit, Down, Join;
    if n == 0 {
      StrZero(31);
      ProdNone(Str(q, 32));
    } else {
      TimesIs(Down(p), q, n - 1);
      JoinIs(LowBit(p), q, Times(Down(p), q, n - 1), n - 1);
      ProdMore(LowBit(p), Str(Down(p), n - 1), Str(q, 32));
    }
  }

  lemma JoinIs(x: bool, q: bv64, t: bv64, n: nat)
    requires Drop32(q) == 0 && n <= 32
    ensures Str(Join(x, q, t), n + 32) == Sum(PickBits(x, Str(q, 32)) + Zeros(n), [false] + Str(t, n + 31))
  {
    hide Str, Mix, Up, Drop32, Sum;
    var v := if x then q else 0;
    StrSum(v, Up(t), n + 32);
    StrUp(t, n + 31);
    StrSmall(q, n);
    StrZero(n + 32);
    assert Zeros(32) + Zeros(n) == Zeros(n + 32);
  }

  lemma ProdNone(b: seq<bool>)
    requires |b| == 32
    ensures Prod([], b) == Zeros(31)
  {
  }

  lemma ProdMore(x: bool, a: seq<bool>, b: seq<bool>)
    requires |b| == 32
    ensures Prod([x] + a, b) == Sum(PickBits(x, b) + Zeros(|a|), [false] + Prod(a, b))
  {
    assert ([x] + a)[1..] == a;
  }

  /** Two, four, eight, sixteen steps of it. */
  function Two(p: bv64, q: bv64, t: bv64): bv64 {
    Join(LowBit(p), q, Join(LowBit(Down(p)), q, t))
  }

  function Four(p: bv64, q: bv64, t: bv64): bv64 {
    Two(p, q, Two(Drop2(p), q, t))
  }

  function Eight(p: bv64, q: bv64, t: bv64): bv64 {
    Four(p, q, Four(Drop4(p), q, t))
  }

  function Sixteen(p: bv64, q: bv64, t: bv64): bv64 {
    Eight(p, q, Eight(Drop8(p), q, t))
  }

  lemma SixteenIs(p: bv64, q: bv64, n: nat)
    ensures Times(p, q, 16 + n) == Sixteen(p, q, Times(Drop16(p), q, n))
  {
    hide Times, LowBit, Down, Drop2, Drop4, Drop8, Drop16, Drop32;
    Drops(p);
    EightIs(p, q, 8 + n);
    EightIs(Drop8(p), q, n);
  }

  lemma EightIs(p: bv64, q: bv64, n: nat)
    ensures Times(p, q, 8 + n) == Eight(p, q, Times(Drop8(p), q, n))
  {
    hide Times, LowBit, Down, Drop2, Drop4, Drop8, Drop16, Drop32;
    Drops(p);
    FourIs(p, q, 4 + n);
    FourIs(Drop4(p), q, n);
  }

  lemma FourIs(p: bv64, q: bv64, n: nat)
    ensures Times(p, q, 4 + n) == Four(p, q, Times(Drop4(p), q, n))
  {
    hide Times, LowBit, Down, Drop2, Drop4, Drop8, Drop16, Drop32;
    Drops(p);
    TwoIs(p, q, 2 + n);
    TwoIs(Drop2(p), q, n);
  }

  lemma TwoIs(p: bv64, q: bv64, n: nat)
    ensures Times(p, q, 2 + n) == Two(p, q, Times(Drop2(p), q, n))
  {
    hide LowBit, Down, Join, Drop2, Drop4, Drop8, Drop16, Drop32;
    Drops(p);
    assert Times(Down(p), q, 1 + n) == Join(LowBit(Down(p)), q, Times(Down(Down(p)), q, n));
  }

  /** All 33 steps. */
  function Whole(p: bv64, q: bv64): bv64 {
    Sixteen(p, q, Sixteen(Drop16(p), q, Join(LowBit(Drop32(p)), q, 0)))
  }

  lemma WholeIs(p: bv64, q: bv64)
    ensures Whole(p, q) == Times(p, q, 33)
  {
    hide Sixteen, LowBit, Down, Join, Drop2, Drop4, Drop8, Drop16, Drop32;
    Drops(p);
    SixteenIs(p, q, 17);
    SixteenIs(Drop16(p), q, 1);
    assert Times(Drop32(p), q, 1) == Join(LowBit(Drop32(p)), q, Times(Down(Drop32(p)), q, 0));
  }

  /** The two halves of a product with the polynomial. */
  lemma HalvesOf(q: bv64)
    requires Drop32(q) == 0
    ensures Prod(Str(POLY, 33), Str(q, 32))
         == Str(Both(Whole(POLY, q), 0xffffffff), 32) + Str(Drop32(Whole(POLY, q)), 32)
  {
    hide Str, Whole, Prod, Both, Drop32, AllSet;
    var v := Whole(POLY, q);
    WholeIs(POLY, q);
    TimesIs(POLY, q, 33);
    Cut32(v, 32);
    Masks();
    StrMask(v, 0xffffffff, 32);
  }

  function Byte8(v: bv64): seq<bool> {
    [v & 1 != 0, v & 2 != 0, v & 4 != 0, v & 8 != 0, v & 16 != 0, v & 32 != 0, v & 64 != 0, v & 128 != 0]
  }

  lemma Str4(v: bv64)
    ensures Str(v, 4) == [v & 1 != 0, v & 2 != 0, v & 4 != 0, v & 8 != 0]
  {
    FourBits(v);
    hide LowBit, Down, Drop2;
    Cut2(v, 2);
    Str2(v);
    Str2(Drop2(v));
  }

  lemma Str2(v: bv64)
    ensures Str(v, 2) == [LowBit(v), LowBit(Down(v))]
  {
    hide LowBit, Down;
    assert Str(Down(v), 1) == [LowBit(Down(v))] + Str(Down(Down(v)), 0);
  }

  lemma FourBits(v: bv64)
    ensures (LowBit(v) <==> v & 1 != 0) && (LowBit(Down(v)) <==> v & 2 != 0)
    ensures (LowBit(Drop2(v)) <==> v & 4 != 0) && (LowBit(Down(Drop2(v))) <==> v & 8 != 0)
  {
  }

  lemma HighBits(v: bv64)
    ensures (Drop4(v) & 1 != 0 <==> v & 16 != 0) && (Drop4(v) & 2 != 0 <==> v & 32 != 0)
    ensures (Drop4(v) & 4 != 0 <==> v & 64 != 0) && (Drop4(v) & 8 != 0 <==> v & 128 != 0)
  {
  }

  lemma Str8(v: bv64)
    ensures Str(v, 8) == Byte8(v)
  {
    hide Str, Drop4;
    Cut4(v, 4);
    Str4(v);
    Str4(Drop4(v));
    HighBits(v);
  }

  lemma Str32(v: bv64)
    ensures Str(v, 32) == Byte8(v) + Byte8(Drop8(v)) + Byte8(Drop16(v)) + Byte8(Drop8(Drop16(v)))
  {
    hide Str, Byte8, Drop8, Drop16;
    Cut16(v, 16);
    Cut8(v, 8);
    Cut8(Drop16(v), 8);
    Str8(v);
    Str8(Drop8(v));
    Str8(Drop16(v));
    Str8(Drop8(Drop16(v)));
  }

  lemma PolyIs()
    ensures Str(0xedb88320, 32) == Poly()
  {
    hide Str;
    Str32(0xedb88320);
  }

  lemma OneIs()
    ensures Str(0x80000000, 32) == One() && Str(1, 32) == Unit()
  {
    hide Str;
    Str32(0x80000000);
    Str32(1);
  }

  /** x^32 is the polynomial's low part. */
  lemma TopPower()
    ensures Divide(One(), 32) == Poly()
  {
    hide Divide, Poly, Xor, Shr;
    OneMoves(31);
    DivideAdd(One(), 31, 1);
    var w := Divide(One(), 31);
    NoBits(w);
    MoreBits(w, 0);
    assert Shr(w, 1) == Zeros(32);
    XorZero(Poly());
  }

  /** The polynomial is congruent to zero. */
  lemma PolyZero()
    ensures Mod(Str(POLY, 33)) == Zeros(32)
  {
    hide Divide, Xor, Act;
    var low := Str(0xedb88320, 32);
    PolyStr();
    TopPower();
    PolyIs();
    ModConcat([true], low);
    ModShort(low);
    assert Zeros(0) + low == low;
    ModShort([true]);
    assert Zeros(31) + [true] == One();
    XorZero(Poly());
  }

  lemma PolyStr()
    ensures Str(POLY, 33) == [true] + Str(0xedb88320, 32)
  {
    assert LowBit(POLY) && Down(POLY) == 0xedb88320;
  }

  /** One power of x^32 more, by its quotient. */
  lemma NextPower(n: nat, c: bv64, q: bv64, r: bv64)
    requires Divide(One(), n) == Str(c, 32) && Drop32(q) == 0
    requires Both(Whole(POLY, q), 0xffffffff) == c && Drop32(Whole(POLY, q)) == r
    ensures Divide(One(), n + 32) == Str(r, 32)
  {
    hide Divide, Xor, Act, Str, Whole, Prod, Both, Drop32;
    HalvesOf(q);
    PolyZero();
    var cs, rs := Str(c, 32), Str(r, 32);
    ProdAct(Str(POLY, 33), Str(q, 32), One());
    NoneActs(Str(POLY, 33), Mod(Str(q, 32)));
    ModConcat(cs, rs);
    ModShort(cs);
    ModShort(rs);
    assert Zeros(0) + cs == cs && Zeros(0) + rs == rs;
    XorCancel(Divide(cs, 32), rs);
    DivideAdd(One(), n, 32);
  }

  lemma XorCancel(a: Word, b: Word)
    requires Xor(a, b) == Zeros(32)
    ensures a == b
  {
    assert forall i :: 0 <= i < 32 ==> !Xor(a, b)[i];
  }

  /** The powers of x the constants stand for. */
  lemma Powers()
    ensures Divide(One(), 64) == Str(0xb1e6b092, 32) && Divide(One(), 96) == Str(0x6655004f, 32)
    ensures Divide(One(), 160) == Str(0xba8ccbe8, 32) && Divide(One(), 480) == Str(0xe3720acb, 32)
    ensures Divide(One(), 544) == Str(0xaa2215ea, 32)
  {
    hide Divide, Str;
    Powers160();
    Powers288();
    Powers416();
    Powers544();
  }

  lemma Powers160()
    ensures Divide(One(), 64) == Str(0xb1e6b092, 32)
    ensures Divide(One(), 96) == Str(0x6655004f, 32)
    ensures Divide(One(), 160) == Str(0xba8ccbe8, 32)
  {
    hide Divide, Str;
    TopPower();
    PolyIs();
    NextPower(32, 0xedb88320, 0xfb808b20, 0xb1e6b092);
    NextPower(64, 0xb1e6b092, 0x5a72d812, 0x6655004f);
    NextPower(96, 0x6655004f, 0xe05f418f, 0xa06a2517);
    NextPower(128, 0xa06a2517, 0xf47b62d7, 0xba8ccbe8);
  }

  lemma Powers288()
    ensures Divide(One(), 288) == Str(0x78ed02d5, 32)
  {
    hide Divide, Str;
    Powers160();
    NextPower(160, 0xba8ccbe8, 0x2c50c1e8, 0x32b39da3);
    NextPower(192, 0x32b39da3, 0xea600f63, 0xad2a31b3);
    NextPower(224, 0xad2a31b3, 0x80abc773, 0xed627dae);
    NextPower(256, 0xed627dae, 0x4884122e, 0x78ed02d5);
  }

  lemma Powers416()
    ensures Divide(One(), 416) == Str(0x1ed8f66e, 32)
  {
    hide Divide, Str;
    Powers288();
    NextPower(288, 0x78ed02d5, 0xe45b1995, 0xa700e96a);
    NextPower(320, 0xa700e96a, 0xf4b16fea, 0xba1aca03);
    NextPower(352, 0xba1aca03, 0x1db770c3, 0x15141c31);
    NextPower(384, 0x15141c31, 0x12a9a671, 0x1ed8f66e);
  }

  lemma Powers544()
    ensures Divide(One(), 480) == Str(0xe3720acb, 32)
    ensures Divide(One(), 544) == Str(0xaa2215ea, 32)
  {
    hide Divide, Str;
    Powers416();
    NextPower(416, 0x1ed8f66e, 0xa9d8e9ee, 0xd95efd26);
    NextPower(448, 0xd95efd26, 0x881b00a6, 0xe3720acb);
    NextPower(480, 0xe3720acb, 0xd8a9b20b, 0x88d14467);
    NextPower(512, 0x88d14467, 0xee387fa7, 0xaa2215ea);
  }

  /** A constant of 33 bits, its last bit zero, acts as the power its other bits are. */
  lemma KeyActs(k: bv64, n: nat, c: Word)
    requires !LowBit(k) && Divide(One(), n) == Str(Down(k), 32)
    ensures Act(Str(k, 33), c) == Divide(c, n)
  {
    hide Divide, Xor, Act, LowBit, Down;
    var low := Str(Down(k), 32);
    assert Str(k, 33) == [false] + low;
    LeadingZero(low, One());
    ModShort(low);
    assert Zeros(0) + low == low;
    PowerActs(Str(k, 33), n, c);
  }

  lemma KeyStr(k: bv64)
    requires Down(Drop32(k)) == 0
    ensures Str(k, 64) == Str(k, 33) + Zeros(31)
  {
    hide Str, Drop32;
    Cut32(k, 32);
    Cut32(k, 1);
    OneBit(Drop32(k));
  }

  lemma OneBit(d: bv64)
    requires Down(d) == 0
    ensures Str(d, 32) == Str(d, 1) + Zeros(31)
  {
    hide LowBit, Down;
    StrZero(31);
    assert Str(d, 1) == [LowBit(d)] + Str(Down(d), 0);
  }

  /** The Barrett constant inverts the polynomial as a power series. */
  lemma MuInverts()
    ensures Series(Str(MU, 33)[..32], Str(POLY, 33)[..32]) == Unit()
  {
    hide Series, Prod, Str;
    var p, q := Str(POLY, 33), Str(0xf7011641, 32);
    HalvesOf(0xf7011641);
    assert Both(Whole(POLY, 0xf7011641), 0xffffffff) == 1;
    OneIs();
    ProdTail(p, q, 1);
    var b := q + Zeros(1);
    ProdSeries(p, b);
    assert b[..32] == q && Prod(p, b)[..32] == Prod(p, q)[..32] == Unit();
    assert p == p[..32] + [p[32]];
    SeriesPush(p[..32], p[32], q);
    ShlAway(p[32], q);
    XorZero(Series(p[..32], q));
    SeriesComm(p[..32], q);
    MuLow();
  }

  lemma ShlAway(x: bool, c: Word)
    ensures Pick(x, Shl(c, 32)) == Zeros(32)
  {
  }

  lemma MuLow()
    ensures Str(MU, 33)[..32] == Str(0xf7011641, 32)
  {
    hide Str;
    Cut32(MU, 1);
    Masks();
    StrMask(MU, 0xffffffff, 32);
    assert Both(MU, 0xffffffff) == 0xf7011641;
  }

  type Reg = r: seq<bool> | |r| == 128 witness Zeros(128)

  /** The low and the high quadword. */
  function Lo(x: Reg): (h: seq<bool>)
    ensures |h| == 64
  {
    x[..64]
  }

  function Hi(x: Reg): (h: seq<bool>)
    ensures |h| == 64
  {
    x[64..]
  }

  /** clmulepi64_si128: the 127 bits of the product. */
  function Clmul(a: seq<bool>, b: seq<bool>): Reg
    requires |a| == |b| == 64
  {
    Prod(a, b) + [false]
  }

  /** srli_si128, n bytes. */
  function ByteSrl(x: Reg, n: nat): Reg
    requires n <= 16
  {
    x[8 * n..] + Zeros(8 * n)
  }

  /** The doublewords 0 and 2. */
  function Masked(x: Reg): Reg {
    x[..32] + Zeros(32) + x[64..96] + Zeros(32)
  }

  /** Sixteen bytes. */
  function Load(s: seq<byte>, i: nat): Reg
    requires i + 16 <= |s|
  {
    ByteBits(s[i..i + 16])
  }

  /** A product with a constant of 33 bits ends in 32 zeros. */
  lemma ClmulKey(a: seq<bool>, k: bv64)
    requires |a| == 64 && Down(Drop32(k)) == 0
    ensures Clmul(a, Str(k, 64)) == Prod(a, Str(k, 33)) + Zeros(32)
  {
    hide Prod, Str;
    KeyStr(k);
    ProdTail(a, Str(k, 33), 31);
    assert Zeros(31) + [false] == Zeros(32);
  }

  /** One lane folded: its halves times two constants. */
  function Fold(x: Reg, a: bv64, b: bv64): Reg {
    Sum(Clmul(Hi(x), Str(b, 64)), Clmul(Lo(x), Str(a, 64)))
  }

  /** Folding multiplies by x^n when the constants are x^(n+32) and x^(n-32). */
  lemma FoldIs(x: Reg, a: bv64, b: bv64, n: nat)
    requires n >= 32 && Down(Drop32(a)) == 0 && Down(Drop32(b)) == 0 && !LowBit(a) && !LowBit(b)
    requires Divide(One(), n + 32) == Str(Down(a), 32) && Divide(One(), n - 32) == Str(Down(b), 32)
    ensures Mod(Fold(x, a, b)) == Divide(Mod(x), n)
  {
    hide Divide, Xor, Act, Prod, Str, Sum;
    var lo, hi := Lo(x), Hi(x);
    KeyPart(lo, a, n + 32);
    KeyPart(hi, b, n - 32);
    ActSum(Clmul(hi, Str(b, 64)), Clmul(lo, Str(a, 64)), One());
    assert x == lo + hi;
    ModConcat(lo, hi);
    DivideLinear(Divide(Mod(lo), 64), Mod(hi), n);
    DivideAdd(Mod(lo), 64, n);
    XorComm(Divide(Mod(hi), n), Divide(Mod(lo), n + 64));
  }

  lemma KeyPart(a: seq<bool>, k: bv64, n: nat)
    requires |a| == 64 && Down(Drop32(k)) == 0 && !LowBit(k) && Divide(One(), n) == Str(Down(k), 32)
    ensures Mod(Clmul(a, Str(k, 64))) == Divide(Mod(a), n + 32)
  {
    hide Divide, Xor, Act, Prod, Str, Clmul;
    ClmulKey(a, k);
    ModZeros(Prod(a, Str(k, 33)), 32);
    ProdAct(a, Str(k, 33), One());
    KeyActs(k, n, One());
    ActDivide(a, One(), n);
    DivideAdd(Mod(a), n, 32);
  }

  lemma FoldFour(x: Reg)
    ensures Mod(Fold(x, K1, K2)) == Divide(Mod(x), 512)
  {
    hide Divide, Str, Fold, Act;
    Powers();
    FoldIs(x, K1, K2, 512);
  }

  lemma FoldOne(x: Reg)
    ensures Mod(Fold(x, K3, K4)) == Divide(Mod(x), 128)
  {
    hide Divide, Str, Fold, Act;
    Powers();
    FoldIs(x, K3, K4, 128);
  }

  /** A lane folded and the next block behind it. */
  lemma FoldNext(x: Reg, y: Reg)
    ensures Mod(Sum(Fold(x, K3, K4), y)) == Mod(x + y)
  {
    hide Divide, Fold, Act, Xor, Sum;
    FoldOne(x);
    ActSum(Fold(x, K3, K4), y, One());
    ModConcat(x, y);
  }

  /** 128 bits to 64. */
  method To64(x: Reg) returns (t: Reg)
    ensures t[64..] == Zeros(64) && Mod(t[..64]) == Divide(Mod(x), 32)
  {
    hide Divide, Act, Xor, Prod, Str, Sum;
    var x2 := Clmul(Lo(x), Str(K4, 64));
    var x1 := Sum(ByteSrl(x, 8), x2);
    ghost var s := First96(x, x1);
    x2 := ByteSrl(x1, 4);
    assert x2 == s[32..] + Zeros(32) + Zeros(32) && Lo(Masked(x1)) == s[..32] + Zeros(32);
    x1 := Clmul(Lo(Masked(x1)), Str(K5, 64));
    t := Sum(x1, x2);
    Then64(s, t);
  }

  lemma First96(x: Reg, x1: Reg) returns (s: seq<bool>)
    requires x1 == Sum(ByteSrl(x, 8), Clmul(Lo(x), Str(K4, 64)))
    ensures |s| == 96 && x1 == s + Zeros(32) && Mod(s) == Divide(Mod(x), 32)
  {
    hide Divide, Act, Xor, Prod, Str;
    var lo, hi := Lo(x), Hi(x);
    ClmulKey(lo, K4);
    var w := Prod(lo, Str(K4, 33));
    s := Sum(hi + Zeros(32), w);
    assert x1 == s + Zeros(32);
    ActSum(hi + Zeros(32), w, One());
    ModZeros(hi, 32);
    ProdAct(lo, Str(K4, 33), One());
    Powers();
    KeyActs(K4, 96, One());
    ActDivide(lo, One(), 96);
    assert x == lo + hi;
    ModConcat(lo, hi);
    DivideLinear(Divide(Mod(lo), 64), Mod(hi), 32);
    DivideAdd(Mod(lo), 64, 32);
    XorComm(Divide(Mod(hi), 32), Divide(Mod(lo), 96));
  }

  lemma Then64(s: seq<bool>, t: Reg)
    requires |s| == 96
    requires t == Sum(Clmul(s[..32] + Zeros(32), Str(K5, 64)), s[32..] + Zeros(32) + Zeros(32))
    ensures t[64..] == Zeros(64) && Mod(t[..64]) == Mod(s)
  {
    hide Divide, Act, Xor, Prod, Str;
    var top, rest := s[..32], s[32..];
    ClmulKey(top + Zeros(32), K5);
    ProdPad(top, 32, Str(K5, 33));
    var w := Prod(top, Str(K5, 33));
    assert t == Sum(w, rest) + Zeros(64);
    ActSum(w, rest, One());
    ProdAct(top, Str(K5, 33), One());
    Powers();
    KeyActs(K5, 64, One());
    ActDivide(top, One(), 64);
    assert s == top + rest;
    ModConcat(top, rest);
  }

  /** Barrett reduction to 32 bits. */
  method To32(t: Reg) returns (r: Word)
    requires t[64..] == Zeros(64)
    ensures r == Mod(t[..64])
  {
    hide Divide, Act, Xor, Prod, Str, Sum;
    var x2 := Clmul(Lo(Masked(t)), Str(MU, 64));
    assert Lo(Masked(t)) == t[..32] + Zeros(32) && Lo(Masked(x2)) == x2[..32] + Zeros(32);
    x2 := Clmul(Lo(Masked(x2)), Str(POLY, 64));
    var x1 := Sum(t, x2);
    r := x1[32..64];
    Reduced(t, x1);
  }

  lemma Reduced(t: Reg, x1: Reg)
    requires t[64..] == Zeros(64)
    requires var q := Clmul(t[..32] + Zeros(32), Str(MU, 64))[..32];
             x1 == Sum(t, Clmul(q + Zeros(32), Str(POLY, 64)))
    ensures x1[32..64] == Mod(t[..64])
  {
    hide Divide, Act, Xor, Prod, Str, Series;
    var top, mu, p := t[..32], Str(MU, 33), Str(POLY, 33);
    ClmulKey(top + Zeros(32), MU);
    ProdPad(top, 32, mu);
    var q := Prod(top, mu)[..32];
    assert Clmul(top + Zeros(32), Str(MU, 64))[..32] == q;
    ClmulKey(q + Zeros(32), POLY);
    ProdPad(q, 32, p);
    MuInverts();
    Barrett(top, mu, p);
    var w, r := Prod(q, p), x1[32..64];
    assert Clmul(q + Zeros(32), Str(POLY, 64)) == w + Zeros(64);
    assert x1 == Sum(t, w + Zeros(64));
    forall i | 0 <= i < 64
      ensures Sum(t[..64], w)[i] == (Zeros(32) + r)[i]
    {
      if i < 32 {
        assert w[i] == w[..32][i] == top[i] == t[i];
      } else {
        assert r[i - 32] == x1[i] == (t[i] != w[i]);
      }
    }
    assert Sum(t[..64], w) == Zeros(32) + r;
    ActSum(t[..64], w, One());
    ProdAct(q, p, One());
    PolyZero();
    ActNothing(q);
    XorZero(Mod(t[..64]));
    ModConcat(Zeros(32), r);
    ActZeros(32, One());
    DivideZeros(32);
    ModShort(r);
    XorZero(r);
    assert Zeros(0) + r == r;
  }

  /** The lanes hold what the bytes so far come to. */
  ghost predicate Holds(l: seq<bool>, c: Word, s: seq<byte>) {
    Divide(Mod(l), 32) == Register(c, s)
  }

  /** The first 64 bytes, the register added to their first bits. */
  lemma HoldsStart(c: Word, s: seq<byte>, l: seq<bool>)
    requires |s| == 64 && l == Sum(ByteBits(s), c + Zeros(480))
    ensures Holds(l, c, s)
  {
    hide Divide, Act, Xor, Sum;
    ActSum(ByteBits(s), c + Zeros(480), One());
    ModZeros(c, 480);
    ModShort(c);
    assert Zeros(0) + c == c;
    DivideLinear(Mod(ByteBits(s)), Divide(c, 480), 32);
    DivideAdd(c, 480, 32);
    RegisterIs(c, s);
    XorComm(Divide(Mod(ByteBits(s)), 32), Divide(c, 512));
  }

  /** More bytes behind. */
  lemma HoldsMore(c: Word, s: seq<byte>, t: seq<byte>, l: seq<bool>, m: seq<bool>)
    requires Holds(l, c, s) && Mod(m) == Mod(l + ByteBits(t))
    ensures Holds(m, c, s + t)
  {
    hide Divide, Act, Xor;
    ModConcat(l, ByteBits(t));
    DivideLinear(Divide(Mod(l), 8 * |t|), Mod(ByteBits(t)), 32);
    DivideAdd(Mod(l), 8 * |t|, 32);
    DivideAdd(Mod(l), 32, 8 * |t|);
    RegisterConcat(c, s, t);
    RegisterIs(Register(c, s), t);
  }

  /** Four lanes as one string. */
  function Lanes(x1: Reg, x2: Reg, x3: Reg, x4: Reg): (l: seq<bool>)
    ensures |l| == 512
  {
    var front: seq<bool> := x1 + x2;
    front + (x3 + x4)
  }

  /** Four lanes folded over the next 64 bytes. */
  lemma FourLanes(x1: Reg, x2: Reg, x3: Reg, x4: Reg, y1: Reg, y2: Reg, y3: Reg, y4: Reg)
    ensures Mod(Lanes(Sum(Fold(x1, K1, K2), y1), Sum(Fold(x2, K1, K2), y2), Sum(Fold(x3, K1, K2), y3),
                      Sum(Fold(x4, K1, K2), y4)))
         == Mod(Lanes(x1, x2, x3, x4) + Lanes(y1, y2, y3, y4))
  {
    hide Divide, Act, Xor, Fold;
    var a, b, d, e := Fold(x1, K1, K2), Fold(x2, K1, K2), Fold(x3, K1, K2), Fold(x4, K1, K2);
    var l, m, folded := Lanes(x1, x2, x3, x4), Lanes(y1, y2, y3, y4), Lanes(a, b, d, e);
    assert Lanes(Sum(a, y1), Sum(b, y2), Sum(d, y3), Sum(e, y4)) == Sum(folded, m);
    hide Lanes;
    ActSum(folded, m, One());
    ModConcat(l, m);
    FoldFour(x1);
    FoldFour(x2);
    FoldFour(x3);
    FoldFour(x4);
    ModFour(x1, x2, x3, x4);
    ModFour(a, b, d, e);
    MovedFour(Mod(x1), Mod(x2), Mod(x3), Mod(x4));
  }

  lemma MovedFour(p: Word, q: Word, r: Word, s: Word)
    ensures var (a, b, d, e) := (Divide(p, 512), Divide(q, 512), Divide(r, 512), Divide(s, 512));
            Xor(Xor(Divide(a, 384), Divide(b, 256)), Xor(Divide(d, 128), e))
            == Divide(Xor(Xor(Divide(p, 384), Divide(q, 256)), Xor(Divide(r, 128), s)), 512)
  {
    hide Divide, Xor;
    DivideLinear(Xor(Divide(p, 384), Divide(q, 256)), Xor(Divide(r, 128), s), 512);
    DivideLinear(Divide(p, 384), Divide(q, 256), 512);
    DivideLinear(Divide(r, 128), s, 512);
    DividesSwap(p, 384, 512);
    DividesSwap(q, 256, 512);
    DividesSwap(r, 128, 512);
  }

  lemma DividesSwap(p: Word, m: nat, n: nat)
    ensures Divide(Divide(p, m), n) == Divide(Divide(p, n), m)
  {
    hide Divide;
    DivideAdd(p, m, n);
    DivideAdd(p, n, m);
  }

  lemma ModFour(x1: Reg, x2: Reg, x3: Reg, x4: Reg)
    ensures Mod(Lanes(x1, x2, x3, x4))
         == Xor(Xor(Divide(Mod(x1), 384), Divide(Mod(x2), 256)), Xor(Divide(Mod(x3), 128), Mod(x4)))
  {
    hide Divide, Act, Xor;
    var front: seq<bool> := x1 + x2;
    var back: seq<bool> := x3 + x4;
    ModConcat(front, back);
    ModConcat(x1, x2);
    ModConcat(x3, x4);
    DivideLinear(Divide(Mod(x1), 128), Mod(x2), 256);
    DivideAdd(Mod(x1), 128, 256);
  }

  /** Four lanes into one. */
  lemma OneLane(x1: Reg, x2: Reg, x3: Reg, x4: Reg)
    ensures var a := Sum(Fold(x1, K3, K4), x2);
            var b := Sum(Fold(a, K3, K4), x3);
            Mod(Sum(Fold(b, K3, K4), x4)) == Mod(Lanes(x1, x2, x3, x4))
  {
    hide Divide, Act, Xor, Fold, Sum;
    var a := Sum(Fold(x1, K3, K4), x2);
    var b := Sum(Fold(a, K3, K4), x3);
    FoldNext(x1, x2);
    FoldNext(a, x3);
    FoldNext(b, x4);
    var two: seq<bool> := x1 + x2;
    var three: seq<bool> := two + x3;
    ModConcat(b, x4);
    ModConcat(a, x3);
    ModConcat(two, x3);
    ModConcat(three, x4);
    assert three + x4 == Lanes(x1, x2, x3, x4);
  }

  lemma FourBlocks(s: seq<byte>, i: nat)
    requires i + 64 <= |s|
    ensures ByteBits(s[i..i + 64]) == Lanes(Load(s, i), Load(s, i + 16), Load(s, i + 32), Load(s, i + 48))
  {
    hide ByteBits;
    ByteBitsConcat(s[i..i + 16], s[i + 16..i + 32]);
    ByteBitsConcat(s[i..i + 32], s[i + 32..i + 48]);
    ByteBitsConcat(s[i..i + 48], s[i + 48..i + 64]);
    assert s[i..i + 16] + s[i + 16..i + 32] == s[i..i + 32] && s[i..i + 32] + s[i + 32..i + 48] == s[i..i + 48]
        && s[i..i + 48] + s[i + 48..i + 64] == s[i..i + 64];
  }

  lemma StartLanes(c: Word, s: seq<byte>, x1: Reg, x2: Reg, x3: Reg, x4: Reg)
    requires |s| >= 64 && x1 == Sum(Load(s, 0), c + Zeros(96))
    requires x2 == Load(s, 16) && x3 == Load(s, 32) && x4 == Load(s, 48)
    ensures Holds(Lanes(x1, x2, x3, x4), c, s[..64])
  {
    hide Divide, Act, ByteBits, Register;
    FourBlocks(s, 0);
    assert s[0..64] == s[..64];
    assert Lanes(x1, x2, x3, x4) == Sum(ByteBits(s[..64]), c + Zeros(480));
    HoldsStart(c, s[..64], Lanes(x1, x2, x3, x4));
  }

  /** viltrum_crc32_clmul: the register after the bytes. */
  method ClmulRegister(c: Word, s: seq<byte>) returns (r: Word)
    requires |s| >= 64 && |s| % 16 == 0
    ensures r == Register(c, s)
  {
    hide Divide, Act, Xor, Prod, Str, Sum, Fold, Register, ByteBits, Lanes;
    var x1: Reg, x2: Reg, x3: Reg, x4: Reg := Load(s, 0), Load(s, 16), Load(s, 32), Load(s, 48);
    FourBlocks(s, 0);
    x1 := Sum(x1, c + Zeros(96));
    StartLanes(c, s, x1, x2, x3, x4);
    var i := 64;
    while |s| - i >= 64
      invariant 64 <= i <= |s| && (|s| - i) % 16 == 0
      invariant Holds(Lanes(x1, x2, x3, x4), c, s[..i])
    {
      var y1: Reg, y2: Reg, y3: Reg, y4: Reg := Load(s, i), Load(s, i + 16), Load(s, i + 32), Load(s, i + 48);
      FourBlocks(s, i);
      FourLanes(x1, x2, x3, x4, y1, y2, y3, y4);
      ghost var l := Lanes(x1, x2, x3, x4);
      x1, x2, x3, x4 := Sum(Fold(x1, K1, K2), y1), Sum(Fold(x2, K1, K2), y2), Sum(Fold(x3, K1, K2), y3),
          Sum(Fold(x4, K1, K2), y4);
      HoldsMore(c, s[..i], s[i..i + 64], l, Lanes(x1, x2, x3, x4));
      assert s[..i] + s[i..i + 64] == s[..i + 64];
      i := i + 64;
    }
    OneLane(x1, x2, x3, x4);
    x1 := Sum(Fold(x1, K3, K4), x2);
    x1 := Sum(Fold(x1, K3, K4), x3);
    x1 := Sum(Fold(x1, K3, K4), x4);
    while |s| - i >= 16
      invariant 64 <= i <= |s| && (|s| - i) % 16 == 0 && Holds(x1, c, s[..i])
    {
      x2 := Load(s, i);
      FoldNext(x1, x2);
      ghost var l := x1;
      x1 := Sum(Fold(x1, K3, K4), x2);
      HoldsMore(c, s[..i], s[i..i + 16], l, x1);
      assert s[..i] + s[i..i + 16] == s[..i + 16];
      i := i + 16;
    }
    assert s[..i] == s;
    var t := To64(x1);
    r := To32(t);
  }

  /** crc32: whole blocks by carry-less multiplication where the processor has it, then eight
      bytes a step, then one at a time, is the bitwise checksum. */
  method Crc32(t: array<Word>, haveClmul: bool, s: seq<byte>) returns (r: Word)
    requires Tables(t[..])
    ensures r == Checksum(s)
  {
    hide Divide, Xor, Shr, OfByte, Register, Tables, Slice, Word4, Index, Place, Lsb, Not, Half;
    var tables := t[..];
    TablesSize(tables);
    OnesWord();
    var c := Lsb(0xffffffff, 32);
    var i := 0;
    assert Register(c, s[..0]) == c by {
      NoBytes(c, s[..0]);
    }
    if haveClmul && |s| >= 64 {
      i := |s| - |s| % 16;
      c := ClmulRegister(c, s[..i]);
    }
    while i + 8 <= |s|
      invariant 0 <= i <= |s| && c == Register(Ones(), s[..i])
    {
      ghost var b := s[i..i + 8];
      var lo := Xor(Word4(s[i], s[i + 1], s[i + 2], s[i + 3]), c);
      var hi := Word4(s[i + 4], s[i + 5], s[i + 6], s[i + 7]);
      SliceStep(tables, c, b);
      RegisterConcat(Ones(), s[..i], b);
      assert s[..i] + b == s[..i + 8];
      c := Slice(tables, lo, hi);
      i := i + 8;
    }
    while i < |s|
      invariant 0 <= i <= |s| && c == Register(Ones(), s[..i])
    {
      ByteStep(tables, c, s[i]);
      OneMore(Ones(), s[..i], s[i]);
      assert s[..i] + [s[i]] == s[..i + 1];
      c := Xor(tables[Place(0, Index(Xor(c, OfByte(s[i]))))], Shr(c, 8));
      i := i + 1;
    }
    assert s[..i] == s;
    r := Not(c);
  }
}
