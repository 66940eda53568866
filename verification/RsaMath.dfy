/** The number theory the private operation of engine/rsa.h rests on: recombination,
    blinding and unblinding, stated on integers. */
module RsaMath {
  import opened ModArith

  /** c has the inverse inv modulo m, so c^e can be cancelled. */
  lemma CancelPower(c: int, inv: int, e: nat, x: int, y: int, m: int)
    requires Cong(c * inv, 1, m) && Cong(Pow(c, e) * x, Pow(c, e) * y, m)
    ensures Cong(x, y, m)
  {
    CongPow(c * inv, 1, e, m);
    PowOne(e);
    PowMulBase(c, inv, e);
    CongCancel(Pow(c, e), Pow(inv, e), x, y, m);
  }

  /** A number divisible by p and by q is divisible by p * q when q is a unit modulo p. */
  lemma Coprime(x: int, y: int, p: int, q: int, inv: int)
    requires Cong(q * inv, 1, p) && Cong(x, y, p) && Cong(x, y, q)
    ensures Cong(x, y, p * q)
  {
    var b := Quotient(x, y, q);
    var a := Quotient(x, y, p);
    assert q * b == a * p;
    CongBy(q * b, q * 0, p, a);
    CongCancel(q, inv, b, 0, p);
    var c := Quotient(b, 0, p);
    assert (c * p) * q == c * (p * q);
    CongBy(x, y, p * q, c);
  }

  /** The next blinding pair is related as the last was: both are squared in Montgomery
      form, and R^(e + 1) cancels. */
  lemma BlindingKept(vi: int, vf: int, vi': int, vf': int, e: nat, w: int, inv: int, n: int)
    requires Cong(w * inv, 1, n)
    requires Cong(vi * Pow(vf, e), Pow(w, e + 1), n)
    requires Cong(vi' * w, vi * vi, n) && Cong(vf' * w, vf * vf, n)
    ensures Cong(vi' * Pow(vf', e), Pow(w, e + 1), n)
  {
    hide *;
    var big := Pow(w, e + 1);
    CongPow(vf' * w, vf * vf, e, n);
    PowMulBase(vf', w, e);
    PowMulBase(vf, vf, e);
    CongMul(vi' * w, vi * vi, Pow(vf', e) * Pow(w, e), Pow(vf, e) * Pow(vf, e), n);
    CongMul(vi * Pow(vf, e), big, vi * Pow(vf, e), big, n);
    Exchange(vi, vi, Pow(vf, e), Pow(vf, e));
    CongTrans((vi' * w) * (Pow(vf', e) * Pow(w, e)), (vi * vi) * (Pow(vf, e) * Pow(vf, e)), big * big, n);
    Exchange(vi', w, Pow(vf', e), Pow(w, e));
    PowSucc(w, e);
    CancelPower(w, inv, e + 1, vi' * Pow(vf', e), big, n) by {
      assert (vi' * Pow(vf', e)) * big == big * (vi' * Pow(vf', e));
    }
  }

  /** Unblinding: if s^e is the blinded message, the unblinded result's power is the
      message itself. */
  lemma Unblinded(m: int, x: int, s: int, out: int, vi: int, vf: int, e: nat, w: int, inv: int, n: int)
    requires Cong(w * inv, 1, n)
    requires Cong(vi * Pow(vf, e), Pow(w, e + 1), n)
    requires Cong(x * w, m * vi, n) && Cong(out * w, s * vf, n)
    requires Cong(Pow(s, e), x, n)
    ensures Cong(Pow(out, e), m, n)
  {
    hide *;
    var big, oe, fe := Pow(w, e + 1), Pow(out, e), Pow(vf, e);
    CongPow(out * w, s * vf, e, n);
    PowMulBase(out, w, e);
    PowMulBase(s, vf, e);
    CongRefl(fe, n);
    CongMul(Pow(s, e), x, fe, fe, n);
    CongTrans(oe * Pow(w, e), Pow(s, e) * fe, x * fe, n);
    CongMulLeft(w, oe * Pow(w, e), x * fe, n);
    PowSucc(w, e);
    assert w * (oe * Pow(w, e)) == big * oe by {
      Rotate(w, oe, Pow(w, e));
    }
    assert w * (x * fe) == fe * (x * w) by {
      Rotate(w, x, fe);
      assert fe * (x * w) == (w * fe) * x by { Rotate(fe, x, w); }
    }
    CongMulLeft(fe, x * w, m * vi, n);
    assert fe * (m * vi) == m * (vi * fe) by {
      Rotate(fe, m, vi);
      assert m * (vi * fe) == (fe * vi) * m by { Rotate3(m, vi, fe); }
    }
    CongMulLeft(m, vi * fe, big, n);
    CongTrans(big * oe, fe * (x * w), m * (vi * fe), n);
    CongTrans(big * oe, m * (vi * fe), m * big, n);
    assert m * big == big * m;
    CancelPower(w, inv, e + 1, oe, m, n);
  }

  lemma Rotate(a: int, b: int, c: int)
    ensures a * (b * c) == (a * c) * b
  {
  }

  lemma Rotate3(a: int, b: int, c: int)
    ensures a * (b * c) == (c * b) * a
  {
  }

  /** One half: s = x^d modulo the prime gives s^e = x, for exponents that match. */
  lemma HalfPower(s: int, s1: int, x: int, d: nat, e: nat, p: int)
    requires Cong(s, s1, p) && Cong(s1, Pow(x, d), p)
    requires Cong(Pow(x, d * e), x, p)
    ensures Cong(Pow(s, e), x, p)
  {
    CongTrans(s, s1, Pow(x, d), p);
    CongPow(s, Pow(x, d), e, p);
    PowPow(x, d, e);
    CongTrans(Pow(s, e), Pow(x, d * e), x, p);
  }
}
