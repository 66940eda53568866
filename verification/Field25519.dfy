/** The field of X25519 (engine/x25519.h): numbers modulo 2^255 - 19 as five 51-bit limbs
    with carries left pending. Every sum and product is taken in a 64- or 128-bit word, so
    the types rule out wrap-around. */
module Field25519 {
  import opened Basics
  import opened ModArith
  import opened Limbs

  type u128 = x: int | 0 <= x < 0x1_0000_0000_0000_0000_0000_0000_0000_0000

  const P: int := 0x7fffffffffffffffffffffffffffffffffffffffffffffffffffffffffffffed

  /** 2^51, the weight of limb 1. */
  const B: int := 0x8000000000000

  /** The number five limbs stand for, before reduction. */
  function Five(a0: int, a1: int, a2: int, a3: int, a4: int): int {
    a0 + a1 * 0x8000000000000 + a2 * 0x40000000000000000000000000 + a3 * 0x200000000000000000000000000000000000000
    + a4 * 0x1000000000000000000000000000000000000000000000000000
  }

  function Value(s: seq<u64>): int
    requires |s| == 5
  {
    Five(s[0], s[1], s[2], s[3], s[4])
  }

  /** Limbs as a carry leaves them. */
  ghost predicate Tight(s: seq<u64>) {
    |s| == 5 && s[0] < B && s[1] < B + 4096 && s[2] < B && s[3] < B && s[4] < B
  }

  /** Limbs as a sum or difference of tight ones leaves them. */
  ghost predicate Loose(s: seq<u64>) {
    |s| == 5 && s[0] < 4 * B && s[1] < 4 * B && s[2] < 4 * B && s[3] < 4 * B && s[4] < 4 * B
  }

  /** Column sums that a carry can fold without overflow. */
  ghost predicate Columns(t0: int, t1: int, t2: int, t3: int, t4: int) {
    && 0 <= t0 < 0x20000000000000000000000000000 && 0 <= t1 < 0x20000000000000000000000000000
    && 0 <= t2 < 0x20000000000000000000000000000 && 0 <= t3 < 0x20000000000000000000000000000
    && 0 <= t4 < 0x2000000000000000000000000000
  }

  /** The element a register holds. */
  ghost function Elem(a: array<u64>): (x: int)
    requires a.Length == 5
    reads a
  {
    Red(Value(a[..]))
  }

  ghost predicate IsTight(a: array<u64>)
    reads a
  {
    Tight(a[..])
  }

  ghost predicate IsLoose(a: array<u64>)
    reads a
  {
    Loose(a[..])
  }

  lemma TightIsLoose(a: array<u64>)
    requires IsTight(a)
    ensures IsLoose(a)
  {
  }

  /** A number reduced modulo p. */
  function Red(v: int): (x: int)
    ensures 0 <= x < P
  {
    v % P
  }

  /** The operations of the field. */
  function Add(x: int, y: int): int {
    Red(x + y)
  }

  function Sub(x: int, y: int): int {
    Red(x - y)
  }

  function Mul(x: int, y: int): int {
    Red(x * y)
  }

  lemma RedAdd(v: int, w: int)
    ensures Red(v + w) == Add(Red(v), Red(w)) && Red(v - w) == Sub(Red(v), Red(w))
  {
    CongRemainder(v, P);
    CongRemainder(w, P);
    CongAdd(v % P, v, w % P, w, P);
    CongSub(v % P, v, w % P, w, P);
    RedCong(v % P + w % P, v + w);
    RedCong(v % P - w % P, v - w);
  }

  lemma RedMul(v: int, w: int)
    ensures Red(v * w) == Mul(Red(v), Red(w))
  {
    CongRemainder(v, P);
    CongRemainder(w, P);
    CongMul(v % P, v, w % P, w, P);
    RedCong((v % P) * (w % P), v * w);
  }

  lemma RedCong(v: int, w: int)
    ensures Red(v) == Red(w) <==> Cong(v, w, P)
  {
    CongIsMod(v, w, P);
  }

  /** fe_carry: folds column sums back to limbs. */
  method Carry(r: array<u64>, t0: u128, t1: u128, t2: u128, t3: u128, t4: u128)
    requires r.Length == 5 && Columns(t0, t1, t2, t3, t4)
    modifies r
    ensures Tight(r[..]) && Cong(Value(r[..]), Five(t0, t1, t2, t3, t4), P)
  {
    var c0: u64 := t0 / B;
    var u1: u128 := t1 + c0;
    var c1: u64 := u1 / B;
    var u2: u128 := t2 + c1;
    var c2: u64 := u2 / B;
    var u3: u128 := t3 + c2;
    var c3: u64 := u3 / B;
    var u4: u128 := t4 + c3;
    var c4: u64 := u4 / B;
    var r0: u64 := t0 % B + c4 * 19;
    var r1: u64 := u1 % B + r0 / B;
    r[0], r[1], r[2], r[3], r[4] := r0 % B, r1, u2 % B, u3 % B, u4 % B;
    CongBy(Value(r[..]), Five(t0, t1, t2, t3, t4), P, -(c4 as int));
  }

  /** Five limbs as numbers. */
  datatype Limbs5 = Limbs5(v0: int, v1: int, v2: int, v3: int, v4: int) {
    function Number(): int {
      Five(v0, v1, v2, v3, v4)
    }
  }

  function Sum5(x0: int, y0: int, x1: int, y1: int, x2: int, y2: int, x3: int, y3: int, x4: int, y4: int): int {
    x0 * y0 + x1 * y1 + x2 * y2 + x3 * y3 + x4 * y4
  }

  function Sum3(x0: int, y0: int, x1: int, y1: int, x2: int, y2: int): int {
    x0 * y0 + x1 * y1 + x2 * y2
  }

  /** The column sums of a product, 2^255 counting as 19. */
  function Product(a: Limbs5, b: Limbs5): Limbs5 {
    Limbs5(Sum5(a.v0, b.v0, a.v1, b.v4 * 19, a.v2, b.v3 * 19, a.v3, b.v2 * 19, a.v4, b.v1 * 19),
           Sum5(a.v0, b.v1, a.v1, b.v0, a.v2, b.v4 * 19, a.v3, b.v3 * 19, a.v4, b.v2 * 19),
           Sum5(a.v0, b.v2, a.v1, b.v1, a.v2, b.v0, a.v3, b.v4 * 19, a.v4, b.v3 * 19),
           Sum5(a.v0, b.v3, a.v1, b.v2, a.v2, b.v1, a.v3, b.v0, a.v4, b.v4 * 19),
           Sum5(a.v0, b.v4, a.v1, b.v3, a.v2, b.v2, a.v3, b.v1, a.v4, b.v0))
  }

  /** The column sums of a square, products that come twice taken once and doubled. */
  function Square(a: Limbs5): Limbs5 {
    Limbs5(Sum3(a.v0, a.v0, a.v1 * 2, a.v4 * 19, a.v2 * 2 * 19, a.v3),
           Sum3(a.v0 * 2, a.v1, a.v2 * 2 * 19, a.v4, a.v3, a.v3 * 19),
           Sum3(a.v0 * 2, a.v2, a.v1, a.v1, a.v3 * 2, a.v4 * 19),
           Sum3(a.v0 * 2, a.v3, a.v1 * 2, a.v2, a.v4, a.v4 * 19),
           Sum3(a.v0 * 2, a.v4, a.v1 * 2, a.v3, a.v2, a.v2))
  }

  lemma SquareIsProduct(a: Limbs5)
    ensures Square(a) == Product(a, a)
  {
    hide Sum3, Sum5;
    Doubled0(a.v0, a.v1, a.v2, a.v3, a.v4);
    Doubled1(a.v0, a.v1, a.v2, a.v3, a.v4);
    Doubled2(a.v0, a.v1, a.v2, a.v3, a.v4);
    Doubled3(a.v0, a.v1, a.v2, a.v3, a.v4);
    Doubled4(a.v0, a.v1, a.v2, a.v3, a.v4);
  }

  lemma Doubled0(a: int, b: int, c: int, d: int, e: int)
    ensures Sum3(a, a, b * 2, e * 19, c * 2 * 19, d) == Sum5(a, a, b, e * 19, c, d * 19, d, c * 19, e, b * 19)
  {
  }

  lemma Doubled1(a: int, b: int, c: int, d: int, e: int)
    ensures Sum3(a * 2, b, c * 2 * 19, e, d, d * 19) == Sum5(a, b, b, a, c, e * 19, d, d * 19, e, c * 19)
  {
  }

  lemma Doubled2(a: int, b: int, c: int, d: int, e: int)
    ensures Sum3(a * 2, c, b, b, d * 2, e * 19) == Sum5(a, c, b, b, c, a, d, e * 19, e, d * 19)
  {
  }

  lemma Doubled3(a: int, b: int, c: int, d: int, e: int)
    ensures Sum3(a * 2, d, b * 2, c, e, e * 19) == Sum5(a, d, b, c, c, b, d, a, e, e * 19)
  {
  }

  lemma Doubled4(a: int, b: int, c: int, d: int, e: int)
    ensures Sum3(a * 2, e, b * 2, d, c, c) == Sum5(a, e, b, d, c, c, d, b, e, a)
  {
  }

  /** One limb times a number: a row of the product. */
  function Row(x: int, b: Limbs5): Limbs5 {
    Limbs5(x * b.v0, x * b.v1, x * b.v2, x * b.v3, x * b.v4)
  }

  lemma RowStands(x: int, b: Limbs5)
    ensures Row(x, b).Number() == x * b.Number()
  {
    FiveTimes(b.v0, b.v1, b.v2, b.v3, b.v4, x);
  }

  /** Five rows added up by columns, what lies at 2^255 and above counted 19 times. */
  function Columned(r: Limbs5, s: Limbs5, t: Limbs5, u: Limbs5, v: Limbs5): Limbs5 {
    Limbs5(r.v0 + s.v4 * 19 + t.v3 * 19 + u.v2 * 19 + v.v1 * 19, r.v1 + s.v0 + t.v4 * 19 + u.v3 * 19 + v.v2 * 19,
           r.v2 + s.v1 + t.v0 + u.v4 * 19 + v.v3 * 19, r.v3 + s.v2 + t.v1 + u.v0 + v.v4 * 19,
           r.v4 + s.v3 + t.v2 + u.v1 + v.v0)
  }

  /** The columns stand for the rows but for a multiple of p. */
  lemma Gathered(r: Limbs5, s: Limbs5, t: Limbs5, u: Limbs5, v: Limbs5)
    ensures var wrapped := Five(s.v4 + t.v3 + u.v2 + v.v1, t.v4 + u.v3 + v.v2, u.v4 + v.v3, v.v4, 0);
            Columned(r, s, t, u, v).Number()
            == Five(r.Number(), s.Number(), t.Number(), u.Number(), v.Number()) - wrapped * P
  {
  }

  lemma Nineteen(x: int, y: int)
    ensures x * (y * 19) == x * y * 19
  {
  }

  lemma ColumnsOf(a: Limbs5, b: Limbs5)
    ensures Product(a, b) == Columned(Row(a.v0, b), Row(a.v1, b), Row(a.v2, b), Row(a.v3, b), Row(a.v4, b))
  {
    Nineteen(a.v1, b.v4);
    Nineteen(a.v2, b.v3);
    Nineteen(a.v2, b.v4);
    Nineteen(a.v3, b.v2);
    Nineteen(a.v3, b.v3);
    Nineteen(a.v3, b.v4);
    Nineteen(a.v4, b.v1);
    Nineteen(a.v4, b.v2);
    Nineteen(a.v4, b.v3);
    Nineteen(a.v4, b.v4);
  }

  /** The columns stand for the product. */
  ghost method ProductStands(a: Limbs5, b: Limbs5)
    ensures Cong(Product(a, b).Number(), a.Number() * b.Number(), P)
  {
    hide Five, Row, Columned, Product;
    var r, s, t, u, v := Row(a.v0, b), Row(a.v1, b), Row(a.v2, b), Row(a.v3, b), Row(a.v4, b);
    ColumnsOf(a, b);
    Gathered(r, s, t, u, v);
    RowStands(a.v0, b);
    RowStands(a.v1, b);
    RowStands(a.v2, b);
    RowStands(a.v3, b);
    RowStands(a.v4, b);
    FiveTimes(a.v0, a.v1, a.v2, a.v3, a.v4, b.Number());
    var wrapped := Five(s.v4 + t.v3 + u.v2 + v.v1, t.v4 + u.v3 + v.v2, u.v4 + v.v3, v.v4, 0);
    CongBy(Product(a, b).Number(), a.Number() * b.Number(), P, -wrapped);
  }

  lemma ProductWithin(x: int, y: int, xm: int, ym: int)
    requires 0 <= x <= xm && 0 <= y <= ym
    ensures 0 <= x * y <= xm * ym
  {
    MulMono(0, x, y);
    MulMono(x, xm, y);
    assert y * xm == xm * y;
    MulMono(y, ym, xm);
  }

  /** fe_add. */
  method FeAdd(r: array<u64>, a: array<u64>, b: array<u64>)
    requires r.Length == 5 && IsTight(a) && IsTight(b)
    modifies r
    ensures IsLoose(r) && Elem(r) == Add(old(Elem(a)), old(Elem(b)))
  {
    hide Five, Red, Add;
    ghost var s: seq<u64>, t: seq<u64> := a[..], b[..];
    r[0], r[1], r[2], r[3], r[4] := a[0] + b[0], a[1] + b[1], a[2] + b[2], a[3] + b[3], a[4] + b[4];
    FiveSum(s[0], s[1], s[2], s[3], s[4], t[0], t[1], t[2], t[3], t[4]);
    RedAdd(Value(s), Value(t));
  }

  lemma FiveSum(a0: int, a1: int, a2: int, a3: int, a4: int, b0: int, b1: int, b2: int, b3: int, b4: int)
    ensures Five(a0 + b0, a1 + b1, a2 + b2, a3 + b3, a4 + b4) == Five(a0, a1, a2, a3, a4) + Five(b0, b1, b2, b3, b4)
  {
  }

  /** fe_sub: 2p is added first, so no limb goes below zero. */
  method FeSub(r: array<u64>, a: array<u64>, b: array<u64>)
    requires r.Length == 5 && IsTight(a) && IsTight(b)
    modifies r
    ensures IsLoose(r) && Elem(r) == Sub(old(Elem(a)), old(Elem(b)))
  {
    hide Five, Red, Sub;
    ghost var s: seq<u64>, t: seq<u64> := a[..], b[..];
    r[0], r[1], r[2], r[3], r[4] :=
      a[0] + 0xfffffffffffda - b[0], a[1] + 0xffffffffffffe - b[1], a[2] + 0xffffffffffffe - b[2],
      a[3] + 0xffffffffffffe - b[3], a[4] + 0xffffffffffffe - b[4];
    FiveDifference(s[0], s[1], s[2], s[3], s[4], t[0], t[1], t[2], t[3], t[4]);
    RedAdd(Value(s), Value(t));
  }

  /** The constants added are the limbs of 2p. */
  lemma FiveDifference(a0: int, a1: int, a2: int, a3: int, a4: int, b0: int, b1: int, b2: int, b3: int, b4: int)
    ensures Red(Five(a0 + 0xfffffffffffda - b0, a1 + 0xffffffffffffe - b1, a2 + 0xffffffffffffe - b2,
                     a3 + 0xffffffffffffe - b3, a4 + 0xffffffffffffe - b4))
         == Red(Five(a0, a1, a2, a3, a4) - Five(b0, b1, b2, b3, b4))
  {
    hide Red;
    var d := Five(a0, a1, a2, a3, a4) - Five(b0, b1, b2, b3, b4);
    var v := Five(a0 + 0xfffffffffffda - b0, a1 + 0xffffffffffffe - b1, a2 + 0xffffffffffffe - b2,
                  a3 + 0xffffffffffffe - b3, a4 + 0xffffffffffffe - b4);
    CongBy(v, d, P, 2);
    RedCong(v, d);
  }

  /** fe_mul. */
  method FeMul(r: array<u64>, a: array<u64>, b: array<u64>)
    requires r.Length == 5 && IsLoose(a) && IsLoose(b)
    modifies r
    ensures IsTight(r) && Elem(r) == Mul(old(Elem(a)), old(Elem(b)))
  {
    hide Five, Red, Mul, Sum5;
    var b1: u64, b2: u64, b3: u64, b4: u64 := b[1] * 19, b[2] * 19, b[3] * 19, b[4] * 19;
    ghost var x := Limbs5(a[0], a[1], a[2], a[3], a[4]);
    ghost var y := Limbs5(b[0], b[1], b[2], b[3], b[4]);
    ProductFits(x, y);
    ProductStands(x, y);
    Carry(r, Sum5(a[0], b[0], a[1], b4, a[2], b3, a[3], b2, a[4], b1),
          Sum5(a[0], b[1], a[1], b[0], a[2], b4, a[3], b3, a[4], b2),
          Sum5(a[0], b[2], a[1], b[1], a[2], b[0], a[3], b4, a[4], b3),
          Sum5(a[0], b[3], a[1], b[2], a[2], b[1], a[3], b[0], a[4], b4),
          Sum5(a[0], b[4], a[1], b[3], a[2], b[2], a[3], b[1], a[4], b[0]));
    CarriedProduct(Value(r[..]), x.Number(), y.Number(), Product(x, y).Number());
  }

  /** fe_sq. */
  method FeSq(r: array<u64>, a: array<u64>)
    requires r.Length == 5 && IsLoose(a)
    modifies r
    ensures IsTight(r) && Elem(r) == Mul(old(Elem(a)), old(Elem(a)))
  {
    hide Five, Red, Mul, Sum3, Product;
    var d0: u64, d1: u64, d2: u64, d3: u64, d4: u64 := a[0] * 2, a[1] * 2, a[2] * 2 * 19, a[3] * 19, a[4] * 19;
    var e3: u64 := a[3] * 2;
    ghost var x := Limbs5(a[0], a[1], a[2], a[3], a[4]);
    ProductFits(x, x);
    ProductStands(x, x);
    SquareIsProduct(x);
    Carry(r, Sum3(a[0], a[0], d1, d4, d2, a[3]), Sum3(d0, a[1], d2, a[4], a[3], d3), Sum3(d0, a[2], a[1], a[1], e3, d4),
          Sum3(d0, a[3], d1, a[2], a[4], d4), Sum3(d0, a[4], d1, a[3], a[2], a[2]));
    CarriedProduct(Value(r[..]), x.Number(), x.Number(), Product(x, x).Number());
  }

  lemma CarriedProduct(r: int, v: int, w: int, t: int)
    requires Cong(r, t, P) && Cong(t, v * w, P)
    ensures Red(r) == Mul(Red(v), Red(w))
  {
    hide Red;
    CongTrans(r, t, v * w, P);
    RedCong(r, v * w);
    RedMul(v, w);
  }

  ghost predicate Small(a: Limbs5) {
    0 <= a.v0 < 4 * B && 0 <= a.v1 < 4 * B && 0 <= a.v2 < 4 * B && 0 <= a.v3 < 4 * B && 0 <= a.v4 < 4 * B
  }

  /** Products of loose limbs, one of them times at most 19. */
  lemma SumFits(x0: int, y0: int, x1: int, y1: int, x2: int, y2: int, x3: int, y3: int, x4: int, y4: int, f: int)
    requires Small(Limbs5(x0, x1, x2, x3, x4)) && 1 <= f <= 19
    requires 0 <= y0 <= f * 4 * B && 0 <= y1 <= f * 4 * B && 0 <= y2 <= f * 4 * B && 0 <= y3 <= f * 4 * B
    requires 0 <= y4 <= f * 4 * B
    ensures 0 <= Sum5(x0, y0, x1, y1, x2, y2, x3, y3, x4, y4) <= f * 0x1400000000000000000000000000
  {
    ProductWithin(x0, y0, 4 * B, f * 4 * B);
    ProductWithin(x1, y1, 4 * B, f * 4 * B);
    ProductWithin(x2, y2, 4 * B, f * 4 * B);
    ProductWithin(x3, y3, 4 * B, f * 4 * B);
    ProductWithin(x4, y4, 4 * B, f * 4 * B);
  }

  /** Loose limbs make columns that can be carried. */
  lemma ProductFits(a: Limbs5, b: Limbs5)
    requires Small(a) && Small(b)
    ensures var t := Product(a, b); Columns(t.v0, t.v1, t.v2, t.v3, t.v4)
  {
    hide Sum5;
    SumFits(a.v0, b.v0, a.v1, b.v4 * 19, a.v2, b.v3 * 19, a.v3, b.v2 * 19, a.v4, b.v1 * 19, 19);
    SumFits(a.v0, b.v1, a.v1, b.v0, a.v2, b.v4 * 19, a.v3, b.v3 * 19, a.v4, b.v2 * 19, 19);
    SumFits(a.v0, b.v2, a.v1, b.v1, a.v2, b.v0, a.v3, b.v4 * 19, a.v4, b.v3 * 19, 19);
    SumFits(a.v0, b.v3, a.v1, b.v2, a.v2, b.v1, a.v3, b.v0, a.v4, b.v4 * 19, 19);
    SumFits(a.v0, b.v4, a.v1, b.v3, a.v2, b.v2, a.v3, b.v1, a.v4, b.v0, 1);
  }

  /** fe_mul_a24: times 121665. */
  method FeMulA24(r: array<u64>, a: array<u64>)
    requires r.Length == 5 && IsLoose(a)
    modifies r
    ensures IsTight(r) && Elem(r) == Mul(old(Elem(a)), 121665)
  {
    hide Five, Red, Mul;
    ghost var s: seq<u64> := a[..];
    Carry(r, a[0] as int * 121665, a[1] as int * 121665, a[2] as int * 121665, a[3] as int * 121665,
        a[4] as int * 121665);
    FiveTimes(s[0], s[1], s[2], s[3], s[4], 121665);
    CongRefl(Value(s) * 121665, P);
    CarriedProduct(Value(r[..]), Value(s), 121665, Value(s) * 121665);
    SmallRed(121665);
  }

  lemma FiveTimes(a0: int, a1: int, a2: int, a3: int, a4: int, k: int)
    ensures Five(a0 * k, a1 * k, a2 * k, a3 * k, a4 * k) == Five(a0, a1, a2, a3, a4) * k
  {
  }

  lemma SmallRed(v: int)
    requires 0 <= v < P
    ensures Red(v) == v
  {
  }

  /** fe_cswap: exchanges two registers, limb by limb, when swap is one. */
  method FeCswap(a: array<u64>, b: array<u64>, swap: bool)
    requires a.Length == b.Length == 5 && a != b && IsTight(a) && IsTight(b)
    modifies a, b
    ensures IsTight(a) && IsTight(b)
    ensures Elem(a) == old(if swap then Elem(b) else Elem(a)) && Elem(b) == old(if swap then Elem(a) else Elem(b))
  {
    hide Five, Red, Tight;
    ghost var s: seq<u64>, t: seq<u64> := a[..], b[..];
    for i := 0 to 5
      invariant forall j :: 0 <= j < 5 ==> a[j] == (if swap && j < i then t[j] else s[j])
      invariant forall j :: 0 <= j < 5 ==> b[j] == (if swap && j < i then s[j] else t[j])
    {
      if swap {
        a[i], b[i] := b[i], a[i];
      }
    }
    assert a[..] == (if swap then t else s) && b[..] == (if swap then s else t);
  }
}
