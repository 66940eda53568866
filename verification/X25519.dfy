/** viltrum_x25519 in engine/x25519.h: the whole function against its specification. */
module X25519 {
  import opened Basics
  import opened ModArith
  import opened Limbs
  import opened Field25519
  import opened Invert25519
  import opened Ladder25519
  import opened Bytes25519

  /** The registers of the ladder. */
  ghost predicate Registers(x1: array<u64>, x2: array<u64>, z2: array<u64>, x3: array<u64>, z3: array<u64>)
    reads x1, x2, z2, x3, z3
  {
    && x1.Length == x2.Length == z2.Length == x3.Length == z3.Length == 5
    && IsTight(x1) && IsTight(x2) && IsTight(z2) && IsTight(x3) && IsTight(z3)
    && x1 != x2 && x1 != z2 && x1 != x3 && x1 != z3 && x2 != z2 && x2 != x3 && x2 != z3 && z2 != x3 && z2 != z3
        && x3 != z3
  }

  ghost function At(x: array<u64>, z: array<u64>): Point
    requires x.Length == z.Length == 5
    reads x, z
  {
    Point(Elem(x), Elem(z))
  }

  /** The sums and differences both halves of a pass use. */
  method Pass(x1: array<u64>, x2: array<u64>, z2: array<u64>, x3: array<u64>, z3: array<u64>)
    requires Registers(x1, x2, z2, x3, z3)
    modifies x2, z2, x3, z3
    ensures Registers(x1, x2, z2, x3, z3)
    ensures At(x2, z2) == Double(old(At(x2, z2)))
    ensures At(x3, z3) == DiffAdd(old(Elem(x1)), old(At(x2, z2)), old(At(x3, z3)))
  {
    hide Add, Sub, Mul, Elem, Loose, Tight, IsTight, IsLoose;
    var a, b, c, d := new u64[5], new u64[5], new u64[5], new u64[5];
    FeAdd(a, x2, z2);
    FeSub(b, x2, z2);
    FeAdd(c, x3, z3);
    FeSub(d, x3, z3);
    Cross(x1, a, b, c, d, x3, z3);
    Doubled(a, b, x2, z2);
  }

  /** The differential sum from a, b, c and d. */
  method Cross(x1: array<u64>, a: array<u64>, b: array<u64>, c: array<u64>, d: array<u64>, x3: array<u64>,
               z3: array<u64>)
    requires x1.Length == a.Length == b.Length == c.Length == d.Length == 5
    requires IsTight(x1) && IsLoose(a) && IsLoose(b) && IsLoose(c) && IsLoose(d)
    requires {x1, a, b, c, d} !! {x3, z3} && x3 != z3 && x3.Length == z3.Length == 5
    modifies x3, z3
    ensures IsTight(x3) && IsTight(z3)
    ensures var (da, cb) := (Mul(old(Elem(d)), old(Elem(a))), Mul(old(Elem(c)), old(Elem(b))));
            Elem(x3) == Sq(Add(da, cb)) && Elem(z3) == Mul(old(Elem(x1)), Sq(Sub(da, cb)))
  {
    hide Add, Sub, Mul, Elem, Loose, Tight, IsTight, IsLoose;
    var da, cb, t := new u64[5], new u64[5], new u64[5];
    FeMul(da, d, a);
    FeMul(cb, c, b);
    FeAdd(t, da, cb);
    FeSq(x3, t);
    FeSub(t, da, cb);
    FeSq(t, t);
    TightIsLoose(x1);
    TightIsLoose(t);
    FeMul(z3, x1, t);
  }

  /** The double from a and b. */
  method Doubled(a: array<u64>, b: array<u64>, x2: array<u64>, z2: array<u64>)
    requires a.Length == b.Length == 5 && IsLoose(a) && IsLoose(b) && {a, b} !! {x2, z2} && x2 != z2
    requires x2.Length == z2.Length == 5
    modifies x2, z2
    ensures IsTight(x2) && IsTight(z2)
    ensures var (aa, bb) := (Sq(old(Elem(a))), Sq(old(Elem(b))));
            && Elem(x2) == Mul(aa, bb)
            && var e := Sub(aa, bb); Elem(z2) == Mul(e, Add(aa, Mul(e, 121665)))
  {
    hide Add, Sub, Mul, Elem, Loose, Tight, IsTight, IsLoose;
    var aa, bb, e, t := new u64[5], new u64[5], new u64[5], new u64[5];
    FeSq(aa, a);
    FeSq(bb, b);
    FeSub(e, aa, bb);
    TightIsLoose(aa);
    TightIsLoose(bb);
    FeMul(x2, aa, bb);
    FeMulA24(t, e);
    FeAdd(t, aa, t);
    FeMul(z2, e, t);
  }

  /** v shifted down n bits. */
  function Down(v: nat, n: nat): (d: nat) {
    PowPositive(2, n);
    QuotientNat(v, Pow(2, n));
    v / Pow(2, n)
  }

  lemma QuotientNat(v: nat, p: int)
    requires p > 0
    ensures v / p >= 0
  {
  }

  /** Bit pos of the scalar, as the loop takes it from its bytes. */
  lemma BitAt(k: seq<byte>, pos: nat)
    requires |k| == 32 && pos < 256
    ensures Down(k[pos / 8], pos % 8) % 2 == Down(Little(k), pos) % 2
  {
    hide Little, Pow, Down;
    var o, j := pos / 8, pos % 8;
    LittleSplit(k, o);
    LittleHead(k[o..]);
    DownByte(Little(k[..o]), o, k[o] + 256 * Little(k[o..][1..]), j);
    LowBit(k[o], Little(k[o..][1..]), j);
  }

  lemma DownByte(lo: nat, o: nat, x: nat, j: nat)
    requires lo < Pow(256, o)
    ensures 0 <= lo + Pow(256, o) * x && Down(lo + Pow(256, o) * x, 8 * o + j) == Down(x, j)
  {
    hide Pow;
    PowPositive(2, j);
    PowPositive(256, o);
    TwoPowers(o, j);
    MulMono(0, x, Pow(256, o));
    Shifted(lo, Pow(256, o), x, Pow(2, j));
  }

  lemma LittleHead(s: seq<byte>)
    requires s != []
    ensures Little(s) == s[0] + 256 * Little(s[1..])
  {
  }

  lemma TwoPowers(o: nat, j: nat)
    ensures Pow(2, 8 * o + j) == Pow(256, o) * Pow(2, j)
  {
    assert Pow(2, 8) == 256;
    hide Pow;
    PowAdd(2, 8 * o, j);
    PowPow(2, 8, o);
  }

  lemma Shifted(lo: nat, p: int, x: nat, q: int)
    requires p > 0 && q > 0 && lo < p
    ensures p * q > 0 && (lo + p * x) / (p * q) == x / q
  {
    var d, r := x / q, x % q;
    assert x == q * d + r;
    assert p * (q * d) == d * (p * q);
    assert lo + p * x == d * (p * q) + (lo + p * r);
    MulMono(r + 1, q, p);
    assert (r + 1) * p == p * r + p && q * p == p * q;
    DivUnique(lo + p * x, p * q, d, lo + p * r);
  }

  lemma LowBit(b: byte, hi: nat, j: nat)
    requires j < 8
    ensures Down(b + 256 * hi, j) % 2 == Down(b, j) % 2
  {
    hide Pow;
    PowPositive(2, j);
    PowAdd(2, j, 8 - j);
    PowAdd(2, 7 - j, 1);
    SmallPowers();
    EvenAbove(b, hi, Pow(2, j), Pow(2, 7 - j));
  }

  lemma SmallPowers()
    ensures Pow(2, 8) == 256 && Pow(2, 1) == 2
  {
    assert Pow(2, 0) == 1 && Pow(2, 4) == 16;
  }

  lemma EvenAbove(b: nat, hi: nat, q: int, s: int)
    requires q > 0 && q * (s * 2) == 256
    ensures ((b + 256 * hi) / q) % 2 == (b / q) % 2
  {
    var m := s * hi;
    Regrouped(q, s, hi);
    AddMultiple(b, q, 2 * m);
    EvenMore(b / q, m);
  }

  lemma Regrouped(q: int, s: int, hi: int)
    ensures (q * (s * 2)) * hi == (2 * (s * hi)) * q
  {
  }

  lemma AddMultiple(b: int, q: int, m: int)
    requires q > 0
    ensures (b + m * q) / q == b / q + m
  {
    assert b == (b / q) * q + b % q;
    DivUnique(b + m * q, q, b / q + m, b % q);
  }

  lemma EvenMore(d: int, m: int)
    ensures (d + 2 * m) % 2 == d % 2
  {
  }

  /** The scalar's leading bits at pos, from those above it. */
  lemma WindowPrefix(n: nat, pos: nat)
    ensures var next := pos + 1; Down(n, pos) == 2 * Down(n, next) + Down(n, pos) % 2
  {
    hide Pow;
    PowPositive(2, pos);
    PowAdd(2, pos, 1);
    SmallPowers();
    var p := Pow(2, pos);
    Shifted(n % p, p, n / p, 2);
    assert n == n % p + p * (n / p);
  }

  /** A clamped scalar lies between 2^254 and 2^255. */
  lemma ClampRange(s: seq<byte>)
    requires |s| == 32
    ensures Down(Little(Clamp(s)), 255) == 0 && Down(Little(Clamp(s)), 254) == 1
  {
    hide Little, Pow;
    var k := Clamp(s);
    LittleSplit(k, 31);
    LittleHead(k[31..]);
    assert k[31..][1..] == [];
    NoBytes();
    SevenPow();
    DownByte(Little(k[..31]), 31, k[31], 7);
    DownByte(Little(k[..31]), 31, k[31], 6);
  }

  lemma NoBytes()
    ensures Little([]) == 0
  {
  }

  lemma SevenPow()
    ensures Pow(2, 7) == 128 && Pow(2, 6) == 64
  {
    assert Pow(2, 0) == 1 && Pow(2, 2) == 4 && Pow(2, 4) == 16;
  }

  /** 255 passes over the scalar's bits from the top. */
  method Ladder(k: seq<byte>, x1: array<u64>, x2: array<u64>, z2: array<u64>, x3: array<u64>, z3: array<u64>)
    requires |k| == 32 && Registers(x1, x2, z2, x3, z3)
    requires At(x2, z2) == Point(1, 0) && At(x3, z3) == Point(Elem(x1), 1)
    requires Down(Little(k), 255) == 0 && Down(Little(k), 254) == 1
    modifies x2, z2, x3, z3
    ensures Registers(x1, x2, z2, x3, z3) && At(x2, z2) == Multiples(OnCurve(old(Elem(x1))), Little(k)).0
  {
    hide Little, Down, Double, DiffAdd, Elem, IsTight, Multiples;
    ghost var n := Little(k);
    ghost var u := Elem(x1);
    var swap := false;
    var pos := 255;
    ghost var c := OnCurve(u);
    Start(c);
    while pos > 0
      invariant 0 <= pos <= 255 && Registers(x1, x2, z2, x3, z3) && Elem(x1) == u
      invariant pos < 255 ==> Down(n, pos) > 0
      invariant Crossed(c, Down(n, pos), At(x2, z2), At(x3, z3), swap)
    {
      ghost var above := Down(n, pos);
      pos := pos - 1;
      BitAt(k, pos);
      WindowPrefix(n, pos);
      var bit := Down(k[pos / 8], pos % 8) % 2 == 1;
      DiffAddComm(u, At(x2, z2), At(x3, z3));
      CrossedStep(c, above, At(x2, z2), At(x3, z3), swap, bit);
      FeCswap(x2, x3, swap != bit);
      FeCswap(z2, z3, swap != bit);
      swap := bit;
      Pass(x1, x2, z2, x3, z3);
    }
    WholeScalar(n);
    FeCswap(x2, x3, swap);
    FeCswap(z2, z3, swap);
  }

  lemma WholeScalar(n: nat)
    ensures Down(n, 0) == n
  {
  }

  lemma Start(c: Curve)
    ensures Multiples(c, 0) == (Point(1, 0), c.base)
  {
  }

  /** viltrum_x25519. */
  method Viltrum(out: array<byte>, scalar: seq<byte>, point: seq<byte>)
    requires out.Length == 32 && |scalar| == 32 && |point| == 32
    modifies out
    ensures out[..] == X25519(scalar, point)
  {
    hide Little, Down, Clamp, Elem, IsTight, Multiples, Bytes, Exp, Mul, Red;
    var k := Clamp(scalar);
    ClampRange(scalar);
    var x1, x2, z2, x3, z3 := new u64[5], new u64[5], new u64[5], new u64[5], new u64[5];
    FromBytes(x1, point);
    SetSmall(x2, 1);
    SetSmall(z2, 0);
    FeCopy(x3, x1);
    SetSmall(z3, 1);
    Ladder(k, x1, x2, z2, x3, z3);
    Divide(x2, z2);
    ToBytes(out, x2);
  }

  /** x over z. */
  method Divide(x: array<u64>, z: array<u64>)
    requires x.Length == z.Length == 5 && x != z && IsTight(x) && IsTight(z)
    modifies x, z
    ensures IsTight(x) && Elem(x) == Affine(old(At(x, z)))
  {
    hide Elem, IsTight, Exp, Mul;
    FeInvert(z, z);
    TightIsLoose(x);
    TightIsLoose(z);
    FeMul(x, x, z);
  }

  /** A register cleared but for its lowest limb. */
  method SetSmall(r: array<u64>, v: u64)
    requires r.Length == 5 && v <= 1
    modifies r
    ensures IsTight(r) && Elem(r) == v
  {
    r[0], r[1], r[2], r[3], r[4] := v, 0, 0, 0, 0;
    SmallRed(v);
  }

  method FeCopy(r: array<u64>, a: array<u64>)
    requires r.Length == 5 && IsTight(a)
    modifies r
    ensures IsTight(r) && Elem(r) == old(Elem(a))
  {
    hide Five, Red;
    ghost var s: seq<u64> := a[..];
    for i := 0 to 5
      invariant forall j :: 0 <= j < 5 ==> r[j] == s[j] || (j >= i && a[j] == s[j])
      invariant forall j :: i <= j < 5 ==> a[j] == s[j]
    {
      r[i] := a[i];
    }
    assert r[..] == s;
  }
}
