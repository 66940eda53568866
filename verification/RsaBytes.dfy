/** Big-endian byte strings and their limbs (the ends of viltrum_rsa_private). */
module RsaBytes {
  import opened Basics
  import opened ModArith
  import opened Limbs

  /** The number a big-endian byte string spells. */
  function Big(b: seq<byte>): (v: int)
    ensures v >= 0
  {
    if b == [] then 0 else Big(b[..|b| - 1]) * 256 + b[|b| - 1]
  }

  lemma BigPush(b: seq<byte>, x: byte)
    ensures Big(b + [x]) == Big(b) * 256 + x
  {
    assert (b + [x])[..|b|] == b;
  }

  lemma {:induction false} BigConcat(a: seq<byte>, b: seq<byte>)
    ensures Big(a + b) == Big(a) * Pow(256, |b|) + Big(b)
  {
    if b == [] {
      assert a + b == a;
    } else {
      var n := |b| - 1;
      BigConcat(a, b[..n]);
      assert (a + b)[..|a + b| - 1] == a + b[..n];
      var p := Pow(256, n);
      assert Pow(256, |b|) == 256 * p;
      assert (Big(a) * p) * 256 == Big(a) * (256 * p);
    }
  }

  lemma Eight()
    ensures Pow(256, 8) == WORD
  {
    assert Pow(256, 2) == 65536;
    PowAdd(256, 2, 2);
    PowAdd(256, 4, 4);
  }

  lemma {:induction false} ByteWeight(i: nat)
    ensures Pow(256, 8 * i) == Weight(i)
  {
    if i != 0 {
      ByteWeight(i - 1);
      PowAdd(256, 8, 8 * (i - 1));
      Eight();
    }
  }

  lemma {:induction false} BigBound(b: seq<byte>)
    ensures Big(b) < Pow(256, |b|)
  {
    if b != [] {
      BigBound(b[..|b| - 1]);
    }
  }

  /** Eight bytes make a word. */
  method LoadWord(b: seq<byte>) returns (v: u64)
    requires |b| == 8
    ensures v == Big(b)
  {
    hide Big, Pow;
    v := 0;
    EmptyIsZero();
    assert b[..0] == [];
    for j := 0 to 8
      invariant v == Big(b[..j])
    {
      assert b[..j + 1] == b[..j] + [b[j]];
      BigPush(b[..j], b[j]);
      PrefixFits(b, j + 1);
      v := (v * 256) % WORD + b[j];
    }
    assert b[..8] == b;
  }

  lemma EmptyIsZero()
    ensures Big([]) == 0
  {
  }

  lemma PrefixFits(b: seq<byte>, j: nat)
    requires j <= |b| == 8
    ensures Big(b[..j]) < WORD
  {
    hide Big, Pow;
    BigBound(b[..j]);
    Eight();
    PowAdd(256, j, 8 - j);
    PowPositive(256, j);
    PowPositive(256, 8 - j);
    MulMono(1, Pow(256, 8 - j), Pow(256, j));
  }

  lemma NextWord(b: seq<byte>, i: nat)
    requires 8 * (i + 1) <= |b|
    ensures var at := |b| - 8 * (i + 1);
            Big(b[at..]) == Big(b[at + 8..]) + Big(b[at..at + 8]) * Weight(i)
  {
    hide Big, Pow;
    var at := |b| - 8 * (i + 1);
    assert b[at..] == b[at..at + 8] + b[at + 8..];
    BigConcat(b[at..at + 8], b[at + 8..]);
    ByteWeight(i);
  }

  /** The message as limbs: limb i from the i-th eight bytes from the end. */
  method LoadLimbs(b: seq<byte>, k: nat) returns (m: array<u64>)
    requires |b| == 8 * k
    ensures fresh(m) && m.Length == k && Val(m[..]) == Big(b)
  {
    hide Big, Val, Weight;
    m := new u64[k](_ => 0);
    assert m[..0] == [] && b[8 * k..] == [];
    EmptyIsZero();
    ValZeros([]);
    for i := 0 to k
      invariant Val(m[..i]) == Big(b[8 * (k - i)..])
    {
      var at := 8 * (k - 1 - i);
      var v := LoadWord(b[at..at + 8]);
      NextWord(b, i);
      ghost var low := m[..i];
      m[i] := v;
      assert m[..i + 1] == low + [v];
      ValPush(low, v);
    }
    assert b[0..] == b && m[..k] == m[..];
  }

  /** The eight bytes of a word, most significant first. */
  method StoreWord(v: u64) returns (b: seq<byte>)
    ensures |b| == 8 && Big(b) == v
  {
    hide Big, Pow;
    var rest := v;
    b := [];
    EmptyIsZero();
    assert Pow(256, 0) == 1 by { One(); }
    for j := 0 to 8
      invariant |b| == j && 0 <= rest
      invariant rest * Pow(256, j) + Big(b) == v
      invariant Pow(256, j) > 0
    {
      BigConcat([rest % 256], b);
      Single(rest % 256);
      StoreStep(rest, Pow(256, j));
      PowStep(j);
      b := [rest % 256] + b;
      rest := rest / 256;
    }
    Eight();
    if rest >= 1 {
      MulMono(1, rest, WORD);
      assert false;
    }
  }

  lemma One()
    ensures Pow(256, 0) == 1
  {
  }

  lemma PowStep(j: nat)
    ensures Pow(256, j + 1) == 256 * Pow(256, j)
  {
  }

  lemma Single(x: byte)
    ensures Big([x]) == x
  {
    assert [x][..0] == [];
  }

  lemma StoreStep(rest: int, p: int)
    ensures rest * p == (rest / 256) * (256 * p) + (rest % 256) * p
  {
    assert rest == 256 * (rest / 256) + rest % 256;
    assert (256 * (rest / 256) + rest % 256) * p == (rest / 256) * (256 * p) + (rest % 256) * p;
  }

  /** The result as bytes. */
  method StoreLimbs(x: seq<u64>) returns (out: seq<byte>)
    ensures |out| == 8 * |x| && Big(out) == Val(x)
  {
    hide Big, Val, Weight;
    out := [];
    EmptyIsZero();
    ValZeros([]);
    assert x[..0] == [];
    for i := 0 to |x|
      invariant |out| == 8 * i && Big(out) == Val(x[..i])
    {
      var w := StoreWord(x[i]);
      BigConcat(w, out);
      ByteWeight(i);
      ValTake(x, i);
      out := w + out;
    }
    assert x[..|x|] == x;
  }
}
