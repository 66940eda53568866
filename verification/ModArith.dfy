/** Powers and congruences over the integers: what both arithmetic cores (RSA and
    X25519) state their results in. */
module ModArith {
  import opened Basics

  /** x exceeds y by the q-th multiple of m. A named relation, so that a congruence
      can be opened and closed by its quotient. */
  ghost predicate Apart(x: int, y: int, m: int, q: int) {
    x - y == q * m
  }

  /** x and y leave the same remainder modulo m. */
  ghost predicate Cong(x: int, y: int, m: int) {
    exists q: int :: Apart(x, y, m, q)
  }

  function Pow(b: int, e: nat): int {
    if e == 0 then 1 else b * Pow(b, e - 1)
  }

  ghost function Quotient(x: int, y: int, m: int): (q: int)
    requires Cong(x, y, m)
    ensures x - y == q * m
  {
    var q :| Apart(x, y, m, q);
    q
  }

  lemma CongBy(x: int, y: int, m: int, q: int)
    requires x - y == q * m
    ensures Cong(x, y, m)
  {
    assert Apart(x, y, m, q);
  }

  lemma CongRefl(x: int, m: int)
    ensures Cong(x, x, m)
  {
    CongBy(x, x, m, 0);
  }

  lemma CongSym(x: int, y: int, m: int)
    requires Cong(x, y, m)
    ensures Cong(y, x, m)
  {
    var q := Quotient(x, y, m);
    assert y - x == (-q) * m;
    CongBy(y, x, m, -q);
  }

  lemma CongTrans(x: int, y: int, z: int, m: int)
    requires Cong(x, y, m) && Cong(y, z, m)
    ensures Cong(x, z, m)
  {
    var q, r := Quotient(x, y, m), Quotient(y, z, m);
    assert x - z == (q + r) * m;
    CongBy(x, z, m, q + r);
  }

  lemma CongAdd(x: int, y: int, u: int, v: int, m: int)
    requires Cong(x, y, m) && Cong(u, v, m)
    ensures Cong(x + u, y + v, m)
  {
    var q, r := Quotient(x, y, m), Quotient(u, v, m);
    assert (x + u) - (y + v) == (q + r) * m;
    CongBy(x + u, y + v, m, q + r);
  }

  lemma CongSub(x: int, y: int, u: int, v: int, m: int)
    requires Cong(x, y, m) && Cong(u, v, m)
    ensures Cong(x - u, y - v, m)
  {
    var q, r := Quotient(x, y, m), Quotient(u, v, m);
    assert (x - u) - (y - v) == (q - r) * m;
    CongBy(x - u, y - v, m, q - r);
  }

  lemma CongMul(x: int, y: int, u: int, v: int, m: int)
    requires Cong(x, y, m) && Cong(u, v, m)
    ensures Cong(x * u, y * v, m)
  {
    var q, r := Quotient(x, y, m), Quotient(u, v, m);
    calc {
      x * u - y * v;
      (x - y) * u + y * (u - v);
      (q * m) * u + y * (r * m);
      (q * u + y * r) * m;
    }
    CongBy(x * u, y * v, m, q * u + y * r);
  }

  lemma CongMulLeft(c: int, x: int, y: int, m: int)
    requires Cong(x, y, m)
    ensures Cong(c * x, c * y, m)
  {
    CongRefl(c, m);
    CongMul(c, c, x, y, m);
  }

  /** A factor with an inverse modulo m can be cancelled. */
  lemma CongCancel(c: int, inv: int, x: int, y: int, m: int)
    requires Cong(c * inv, 1, m)
    requires Cong(c * x, c * y, m)
    ensures Cong(x, y, m)
  {
    CongMulLeft(inv, c * x, c * y, m);
    assert inv * (c * x) == (c * inv) * x;
    assert inv * (c * y) == (c * inv) * y;
    CongMulLeft(x, c * inv, 1, m);
    CongMulLeft(y, c * inv, 1, m);
    assert x * (c * inv) == inv * (c * x) && y * (c * inv) == inv * (c * y);
    CongSym(x * (c * inv), x, m);
    CongTrans(x, inv * (c * x), inv * (c * y), m);
    CongTrans(x, inv * (c * y), y, m);
  }

  /** Congruence is equality of remainders. */
  lemma CongIsMod(x: int, y: int, m: int)
    requires m > 0
    ensures Cong(x, y, m) <==> x % m == y % m
  {
    if Cong(x, y, m) {
      var q := Quotient(x, y, m);
      DivUnique(x, m, y / m + q, y % m);
    } else if x % m == y % m {
      assert x - y == (x / m - y / m) * m;
      CongBy(x, y, m, x / m - y / m);
    }
  }

  lemma CongRemainder(x: int, m: int)
    requires m > 0
    ensures Cong(x % m, x, m)
  {
    assert x % m - x == (-(x / m)) * m;
    CongBy(x % m, x, m, -(x / m));
  }

  /** Two remainders that are congruent are equal. */
  lemma CongSmall(x: int, y: int, m: int)
    requires 0 <= x < m && 0 <= y < m && Cong(x, y, m)
    ensures x == y
  {
    DivUnique(x, m, 0, x);
    DivUnique(y, m, 0, y);
    CongIsMod(x, y, m);
  }

  lemma {:induction false} CongPow(x: int, y: int, e: nat, m: int)
    requires Cong(x, y, m)
    ensures Cong(Pow(x, e), Pow(y, e), m)
  {
    if e == 0 {
      CongRefl(1, m);
    } else {
      CongPow(x, y, e - 1, m);
      CongMul(x, y, Pow(x, e - 1), Pow(y, e - 1), m);
    }
  }

  lemma PowZero(b: int)
    ensures Pow(b, 0) == 1
  {
  }

  lemma PowSucc(b: int, n: nat)
    ensures Pow(b, n + 1) == b * Pow(b, n) == Pow(b, n) * b
  {
  }

  lemma {:induction false} PowAdd(b: int, x: nat, y: nat)
    ensures Pow(b, x + y) == Pow(b, x) * Pow(b, y)
  {
    if x == 0 {
    } else {
      PowAdd(b, x - 1, y);
      assert b * (Pow(b, x - 1) * Pow(b, y)) == (b * Pow(b, x - 1)) * Pow(b, y);
    }
  }

  lemma {:induction false} PowMulBase(a: int, b: int, e: nat)
    ensures Pow(a * b, e) == Pow(a, e) * Pow(b, e)
  {
    if e == 0 {
    } else {
      PowMulBase(a, b, e - 1);
      var p, q := Pow(a, e - 1), Pow(b, e - 1);
      Exchange(a, b, p, q);
    }
  }

  lemma Exchange(a: int, b: int, p: int, q: int)
    ensures (a * b) * (p * q) == (a * p) * (b * q)
  {
    assert (a * b) * (p * q) == a * (b * (p * q));
    assert b * (p * q) == p * (b * q);
    assert a * (p * (b * q)) == (a * p) * (b * q);
  }

  lemma {:induction false} PowPow(b: int, x: nat, y: nat)
    ensures Pow(Pow(b, x), y) == Pow(b, x * y)
  {
    if y == 0 {
      assert x * y == 0;
    } else {
      PowPow(b, x, y - 1);
      assert x * y == x + x * (y - 1);
      PowAdd(b, x, x * (y - 1));
    }
  }

  lemma {:induction false} PowOne(e: nat)
    ensures Pow(1, e) == 1
  {
    if e != 0 {
      PowOne(e - 1);
    }
  }

  lemma {:induction false} PowPositive(b: int, e: nat)
    requires b > 0
    ensures Pow(b, e) > 0
  {
    if e != 0 {
      PowPositive(b, e - 1);
      assert b * Pow(b, e - 1) > 0;
    }
  }
}
