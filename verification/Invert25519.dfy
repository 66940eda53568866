/** The inversion of engine/x25519.h: a chain of squarings and products that raises to the
    power p - 2. */
module Invert25519 {
  import opened ModArith
  import opened Limbs
  import opened Field25519

  /** A power in the field. */
  function Exp(x: int, e: int): (y: int)
    requires e >= 0
    ensures 0 <= y < P
  {
    Red(Pow(x, e))
  }

  lemma ExpMul(x: int, e: nat, f: nat)
    ensures Mul(Exp(x, e), Exp(x, f)) == Exp(x, e + f)
  {
    hide Red;
    PowAdd(x, e, f);
    RedMul(Pow(x, e), Pow(x, f));
  }

  lemma ExpOne(x: int)
    requires 0 <= x < P
    ensures Exp(x, 1) == x
  {
    assert Pow(x, 1) == x * Pow(x, 0);
    SmallRed(x);
  }

  /** The register holds x to the e. */
  ghost predicate Holds(a: array<u64>, x: int, e: nat)
    reads a
  {
    IsTight(a) && Elem(a) == Exp(x, e)
  }

  /** e squared n times. */
  function Shift(e: nat, n: nat): nat {
    if n == 0 then e else 2 * Shift(e, n - 1)
  }

  lemma {:induction false} ShiftAdd(e: nat, m: nat, n: nat)
    ensures Shift(Shift(e, m), n) == Shift(e, m + n)
  {
    if n > 0 {
      ShiftAdd(e, m, n - 1);
    }
  }

  method Square1(r: array<u64>, a: array<u64>, ghost x: int, ghost e: nat)
    requires r.Length == 5 && Holds(a, x, e)
    modifies r
    ensures Holds(r, x, 2 * e)
  {
    hide Exp, Mul, Elem, IsTight, IsLoose;
    TightIsLoose(a);
    ExpMul(x, e, e);
    FeSq(r, a);
  }

  /** fe_sq_n: n squarings. */
  method FeSqN(r: array<u64>, a: array<u64>, n: nat, ghost x: int, ghost e: nat)
    requires r.Length == 5 && n >= 1 && Holds(a, x, e)
    modifies r
    ensures Holds(r, x, Shift(e, n))
  {
    hide Holds;
    assert Shift(e, 1) == 2 * Shift(e, 0);
    Square1(r, a, x, e);
    for i := 1 to n
      invariant Holds(r, x, Shift(e, i))
    {
      Square1(r, r, x, Shift(e, i));
    }
  }

  method Times(r: array<u64>, a: array<u64>, b: array<u64>, ghost x: int, ghost e: nat, ghost f: nat)
    requires r.Length == 5 && Holds(a, x, e) && Holds(b, x, f)
    modifies r
    ensures Holds(r, x, e + f)
  {
    hide Exp, Mul, Elem, IsTight, IsLoose;
    TightIsLoose(a);
    TightIsLoose(b);
    ExpMul(x, e, f);
    FeMul(r, a, b);
  }

  lemma ChainPowers(e: nat)
    ensures Shift(e, 2) == 4 * e && Shift(e, 5) == 32 * e && Shift(e, 10) == 1024 * e && Shift(e, 20) == 1048576 * e
    ensures Shift(e, 50) == 1125899906842624 * e && Shift(e, 100) == 1267650600228229401496703205376 * e
  {
    FiveSquarings(e);
    FiveSquarings(32 * e);
    ShiftAdd(e, 5, 5);
    TenMore(e);
    TenMore(1024 * e);
    ShiftAdd(e, 10, 10);
    FiftyMore(e);
    FiftyMore(1125899906842624 * e);
    ShiftAdd(e, 50, 50);
  }

  lemma FiveSquarings(e: nat)
    ensures Shift(e, 2) == 4 * e && Shift(e, 5) == 32 * e
  {
    assert Shift(e, 1) == 2 * Shift(e, 0) && Shift(e, 3) == 2 * Shift(e, 2);
  }

  lemma TenMore(e: nat)
    ensures Shift(e, 10) == 1024 * e
  {
    hide Shift;
    FiveSquarings(e);
    FiveSquarings(32 * e);
    ShiftAdd(e, 5, 5);
  }

  lemma FiftyMore(e: nat)
    ensures Shift(e, 50) == 1125899906842624 * e
  {
    hide Shift;
    TenMore(e);
    TenMore(1024 * e);
    TenMore(1048576 * e);
    TenMore(1073741824 * e);
    TenMore(1099511627776 * e);
    ShiftAdd(e, 10, 10);
    ShiftAdd(e, 20, 10);
    ShiftAdd(e, 30, 10);
    ShiftAdd(e, 40, 10);
  }

  /** fe_invert: z^(p - 2), r and z perhaps the same register. */
  method FeInvert(r: array<u64>, z: array<u64>)
    requires r.Length == 5 && IsTight(z)
    modifies r
    ensures IsTight(r) && Elem(r) == Exp(old(Elem(z)), P - 2)
  {
    ghost var x := Elem(z);
    ElemRange(z);
    ExpOne(x);
    hide Holds, Shift;
    var z11, z5 := FirstTerms(z, x);
    LastTerms(r, z11, z5, x);
    HoldsGives(r, x, P - 2);
  }

  lemma HoldsGives(r: array<u64>, x: int, e: nat)
    requires Holds(r, x, e)
    ensures IsTight(r) && Elem(r) == Exp(x, e)
  {
  }

  lemma ElemRange(a: array<u64>)
    requires a.Length == 5
    ensures 0 <= Elem(a) < P
  {
  }

  /** z^11 and z^31. */
  method FirstTerms(z: array<u64>, ghost x: int) returns (z11: array<u64>, z5: array<u64>)
    requires Holds(z, x, 1)
    ensures fresh(z11) && fresh(z5) && z11 != z5 && Holds(z11, x, 11) && Holds(z5, x, 31)
  {
    hide Holds, Shift;
    ChainPowers(2);
    var z2, z9, t := new u64[5], new u64[5], new u64[5];
    z11, z5 := new u64[5], new u64[5];
    Square1(z2, z, x, 1);
    FeSqN(t, z2, 2, x, 2);
    Times(z9, t, z, x, 8, 1);
    Times(z11, z9, z2, x, 9, 2);
    Square1(t, z11, x, 11);
    Times(z5, t, z9, x, 22, 9);
  }

  /** From z^(2^5 - 1) by doubling the run of ones: 10, 20, 40, 50, 100, 200, 250. */
  method LastTerms(r: array<u64>, z11: array<u64>, z5: array<u64>, ghost x: int)
    requires r.Length == 5 && r != z11 && r != z5 && Holds(z11, x, 11) && Holds(z5, x, 31)
    modifies r
    ensures Holds(r, x, P - 2)
  {
    hide Holds, Shift;
    var z50 := FiftyOnes(z5, x);
    var z100, t := new u64[5], new u64[5];
    ChainPowers(1125899906842623);
    FeSqN(t, z50, 50, x, 1125899906842623);
    Times(z100, t, z50, x, 1267650600228228275596796362752, 1125899906842623);
    ChainPowers(1267650600228229401496703205375);
    FeSqN(t, z100, 100, x, 1267650600228229401496703205375);
    Times(t, t, z100, x, 1606938044258990275541962092339894951921974764381296132096000,
        1267650600228229401496703205375);
    ghost var e200 := 1606938044258990275541962092341162602522202993782792835301375;
    ChainPowers(e200);
    FeSqN(t, t, 50, x, e200);
    Times(t, t, z50, x, 1125899906842624 * e200, 1125899906842623);
    ghost var e250 := 1125899906842624 * e200 + 1125899906842623;
    ChainPowers(e250);
    FeSqN(t, t, 5, x, e250);
    Times(r, t, z11, x, 32 * e250, 11);
  }

  /** z^(2^50 - 1). */
  method FiftyOnes(z5: array<u64>, ghost x: int) returns (z50: array<u64>)
    requires Holds(z5, x, 31)
    ensures fresh(z50) && Holds(z50, x, 1125899906842623)
  {
    hide Holds, Shift;
    var z10, z20, t := new u64[5], new u64[5], new u64[5];
    z50 := new u64[5];
    ChainPowers(31);
    FeSqN(t, z5, 5, x, 31);
    Times(z10, t, z5, x, 992, 31);
    ChainPowers(1023);
    FeSqN(t, z10, 10, x, 1023);
    Times(z20, t, z10, x, 1047552, 1023);
    ChainPowers(1048575);
    FeSqN(t, z20, 20, x, 1048575);
    Times(t, t, z20, x, 1099510579200, 1048575);
    ChainPowers(1099511627775);
    FeSqN(t, t, 10, x, 1099511627775);
    Times(z50, t, z10, x, 1125899906841600, 1023);
  }
}
