/** Bytes, options, prefixes and the few facts of integer arithmetic that every part
    needs. */
module Basics {

  type byte = x: int | 0 <= x < 256

  datatype Option<T> = None | Some(value: T) {
    predicate IsFailure() {
      None?
    }

    function PropagateFailure<U>(): Option<U>
      requires None?
    {
      None
    }

    function Extract(): T
      requires Some?
    {
      value
    }
  }

  ghost predicate Prefix<T>(s: seq<T>, t: seq<T>) {
    |s| <= |t| && s == t[..|s|]
  }

  lemma Assoc<T>(a: seq<T>, b: seq<T>, c: seq<T>)
    ensures a + (b + c) == (a + b) + c
  {
  }

  lemma MulMono(a: int, b: int, c: int)
    requires a <= b && 0 <= c
    ensures a * c <= b * c
  {
  }

  lemma MulSucc(a: int, c: int)
    ensures (a + 1) * c == a * c + c
  {
  }

  lemma NoMultiple(d: int, m: int)
    requires -m < d * m < m
    ensures d == 0
  {
  }

  /** The quotient and remainder are the only ones. */
  lemma DivUnique(x: int, m: int, q: int, r: int)
    requires m > 0 && 0 <= r < m && x == q * m + r
    ensures x / m == q && x % m == r
  {
    var d := x / m - q;
    assert d * m == r - x % m;
    NoMultiple(d, m);
  }

  /** The bytes of an ASCII text. */
  function Ascii(s: string): (b: seq<byte>)
    ensures |b| == |s|
  {
    seq(|s|, i requires 0 <= i < |s| => s[i] as int % 256)
  }
}
