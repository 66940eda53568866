/** X25519 as a function (section 5 of RFC 7748) and why the swapping ladder computes the
    textbook one. */
module Ladder25519 {
  import opened Basics
  import opened Field25519
  import opened Invert25519

  /** A projective x-coordinate. */
  datatype Point = Point(x: int, z: int)

  function Sq(x: int): int {
    Mul(x, x)
  }

  /** Doubling. */
  function Double(p: Point): Point {
    var aa, bb := Sq(Add(p.x, p.z)), Sq(Sub(p.x, p.z));
    var e := Sub(aa, bb);
    Point(Mul(aa, bb), Mul(e, Add(aa, Mul(e, 121665))))
  }

  /** The sum of two points whose difference has x-coordinate x1. */
  function DiffAdd(x1: int, p: Point, q: Point): Point {
    var da, cb := Mul(Sub(q.x, q.z), Add(p.x, p.z)), Mul(Add(q.x, q.z), Sub(p.x, p.z));
    Point(Sq(Add(da, cb)), Mul(x1, Sq(Sub(da, cb))))
  }

  /** Doubling is Montgomery's: x(2P) = (x^2 - z^2)^2 / (4xz (x^2 + Axz + z^2)) with
      A = 486662. */
  ghost method DoubleFormula(p: Point)
    ensures var (x, z) := (p.x, p.z);
            Double(p) == Point(Red((x * x - z * z) * (x * x - z * z)),
                Red(4 * (x * z) * (x * x + 486662 * (x * z) + z * z)))
  {
    hide Red;
    var x, z := p.x, p.z;
    var u, v := (x + z) * (x + z), (x - z) * (x - z);
    RedMul(x + z, x + z);
    RedMul(x - z, x - z);
    RedAdd(u, v);
    RedMul(u, v);
    RedMul(u - v, 121665);
    SmallRed(121665);
    RedAdd(u, (u - v) * 121665);
    RedMul(u - v, u + (u - v) * 121665);
    DoubleAlgebra(x, z);
  }

  lemma DoubleAlgebra(x: int, z: int)
    ensures var u, v := (x + z) * (x + z), (x - z) * (x - z);
            && u * v == (x * x - z * z) * (x * x - z * z)
            && (u - v) * (u + (u - v) * 121665) == 4 * (x * z) * (x * x + 486662 * (x * z) + z * z)
  {
  }

  /** The differential sum is Montgomery's: 4 (x2 x3 - z2 z3)^2 over 4 x1 (x3 z2 - x2 z3)^2. */
  ghost method DiffAddFormula(x1: int, p: Point, q: Point)
    requires 0 <= x1 < P
    ensures var (s, d) := (q.x * p.x - q.z * p.z, q.x * p.z - q.z * p.x);
            DiffAdd(x1, p, q) == Point(Red(4 * (s * s)), Red(x1 * (4 * (d * d))))
  {
    hide Red;
    var s, d := q.x * p.x - q.z * p.z, q.x * p.z - q.z * p.x;
    var u, v := (q.x - q.z) * (p.x + p.z), (q.x + q.z) * (p.x - p.z);
    RedMul(q.x - q.z, p.x + p.z);
    RedMul(q.x + q.z, p.x - p.z);
    RedAdd(u, v);
    RedMul(u + v, u + v);
    RedMul(u - v, u - v);
    RedMul(x1, (u - v) * (u - v));
    SmallRed(x1);
    assert u + v == 2 * s && u - v == 2 * d;
    TwiceSquared(s);
    TwiceSquared(d);
  }

  lemma TwiceSquared(s: int)
    ensures (2 * s) * (2 * s) == 4 * (s * s)
  {
  }

  /** What a ladder needs: doubling, the sum of two points one base apart, and the base. */
  datatype Curve = Curve(dbl: Point -> Point, sum: (Point, Point) -> Point, base: Point)

  /** Curve25519 with a base of x-coordinate x1. */
  function OnCurve(x1: int): Curve {
    Curve(p => Double(p), (p, q) => DiffAdd(x1, p, q), Point(x1, 1))
  }

  /** The textbook ladder: n and n + 1 times the base, by halving n. */
  function Multiples(c: Curve, n: nat): (Point, Point) {
    if n == 0 then (Point(1, 0), c.base) else
      var (p, q) := Multiples(c, n / 2);
      if n % 2 == 0 then (c.dbl(p), c.sum(p, q)) else (c.sum(p, q), c.dbl(q))
  }

  lemma AddComm(x: int, y: int)
    ensures Add(x, y) == Add(y, x) && Mul(x, y) == Mul(y, x)
  {
    hide Red;
    assert x * y == y * x;
  }

  /** The differential sum is symmetric: a difference either way round has one square. */
  lemma DiffAddComm(x1: int, p: Point, q: Point)
    ensures DiffAdd(x1, p, q) == DiffAdd(x1, q, p)
  {
    hide Red;
    var u, v := Mul(Sub(q.x, q.z), Add(p.x, p.z)), Mul(Add(q.x, q.z), Sub(p.x, p.z));
    AddComm(Sub(q.x, q.z), Add(p.x, p.z));
    AddComm(Add(q.x, q.z), Sub(p.x, p.z));
    RedMul(u - v, u - v);
    RedMul(v - u, v - u);
    SquareSign(u - v);
  }

  lemma SquareSign(d: int)
    ensures d * d == (-d) * (-d)
  {
  }

  /** The registers hold the multiples, crossed over when the last bit was one. */
  ghost predicate Crossed(c: Curve, n: nat, p: Point, q: Point, swap: bool) {
    Multiples(c, n) == if swap then (q, p) else (p, q)
  }

  /** A pass on the next bit: swap if it differs from the last, then double and add. */
  lemma CrossedStep(c: Curve, n: nat, p: Point, q: Point, swap: bool, bit: bool)
    requires Crossed(c, n, p, q, swap) && 2 * n + (if bit then 1 else 0) > 0 && c.sum(p, q) == c.sum(q, p)
    ensures var (p1, q1) := if swap != bit then (q, p) else (p, q);
            Crossed(c, 2 * n + (if bit then 1 else 0), c.dbl(p1), c.sum(p1, q1), bit)
  {
    var m: nat := 2 * n + if bit then 1 else 0;
    assert m / 2 == n && m % 2 == if bit then 1 else 0;
  }

  /** Affine x, the inverse taken as z^(p - 2): zero for the point at infinity. */
  function Affine(p: Point): int {
    Mul(p.x, Exp(p.z, P - 2))
  }

  /** The number a little-endian byte string spells. */
  function Little(s: seq<byte>): (n: nat) {
    if s == [] then 0 else s[0] + 256 * Little(s[1..])
  }

  /** The low n bytes of a number, least significant first. */
  function Bytes(v: nat, n: nat): (s: seq<byte>)
    ensures |s| == n
  {
    if n == 0 then [] else [v % 256] + Bytes(v / 256, n - 1)
  }

  /** The scalar with its low three bits cleared, bit 255 cleared and bit 254 set. */
  function Clamp(s: seq<byte>): (k: seq<byte>)
    requires |s| == 32
    ensures |k| == 32
  {
    [s[0] - s[0] % 8] + s[1..31] + [s[31] % 64 + 64]
  }

  /** X25519: the clamped scalar times the point of x-coordinate u, u read modulo 2^255. */
  function X25519(scalar: seq<byte>, point: seq<byte>): (out: seq<byte>)
    requires |scalar| == 32 && |point| == 32
    ensures |out| == 32
  {
    var u := Red(Little(point) % 0x8000000000000000000000000000000000000000000000000000000000000000);
    var r := Affine(Multiples(OnCurve(u), Little(Clamp(scalar))).0);
    Bytes(r, 32)
  }
}
