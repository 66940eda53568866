/** AES-GCM as the record layer's cipher: it meets every law the record layer asks of one,
    and what viltrum_gcm_seal_record writes is the record. */
module GcmSuite {
  import opened Basics
  import opened GcmSpec
  import opened Nonce
  import opened Records

  /** The block cipher and the key schedule, as total functions. */
  datatype Primitives = Primitives(aes: seq<byte> -> Cipher, key: Secret -> seq<byte>, iv: Secret -> seq<byte>,
      next: Secret -> Secret) {
    ghost predicate Sized() {
      (forall k :: aes(k).Lawful()) && forall s :: |iv(s)| == 12
    }
  }

  /** Nonces are 12 bytes; any other is read as zero. */
  function Twelve(n: seq<byte>): (r: seq<byte>)
    ensures |r| == 12
  {
    if |n| == 12 then n else Zeroes(12)
  }

  /** Ciphertext, then tag. */
  ghost function SealWith(c: Cipher, n: seq<byte>, h: seq<byte>, p: seq<byte>): (s: seq<byte>)
    requires c.Lawful()
    ensures |s| == |p| + 16
  {
    var (ct, tag) := Encrypt(c, Twelve(n), h, p);
    ct + tag
  }

  ghost function OpenWith(c: Cipher, n: seq<byte>, h: seq<byte>, s: seq<byte>): (p: Option<seq<byte>>)
    requires c.Lawful()
    ensures p.Some? ==> |p.value| + 16 == |s|
  {
    if |s| < 16 then None else Decrypt(c, Twelve(n), h, s[..|s| - 16], s[|s| - 16..])
  }

  lemma SealedOpens(c: Cipher, n: seq<byte>, h: seq<byte>, p: seq<byte>)
    requires c.Lawful()
    ensures OpenWith(c, n, h, SealWith(c, n, h, p)) == Some(p)
  {
    hide Tag, Ctr;
    var (ct, tag) := Encrypt(c, Twelve(n), h, p);
    var s := ct + tag;
    assert s[..|s| - 16] == ct && s[|s| - 16..] == tag;
    Opens(c, Twelve(n), h, p);
  }

  ghost function SuiteOf(m: Primitives): Suite
    requires m.Sized()
  {
    Suite((k, n, h, p) => SealWith(m.aes(k), n, h, p), (k, n, h, s) => OpenWith(m.aes(k), n, h, s), m.key, m.iv, m.next)
  }

  /** GCM is a lawful cipher: every theorem about the record layer holds with it. */
  lemma GcmLawful(m: Primitives)
    requires m.Sized()
    ensures SuiteOf(m).Lawful()
  {
    hide SealWith, OpenWith;
    forall k, n, h, p
      ensures OpenWith(m.aes(k), n, h, SealWith(m.aes(k), n, h, p)) == Some(p)
    {
      SealedOpens(m.aes(k), n, h, p);
    }
  }

  /** The record is the header, then the encryption of content and type under the record's
      nonce with the header authenticated, then the tag. */
  lemma RecordIs(m: Primitives, k: Keys, i: Item)
    requires m.Sized() && i.Fits()
    ensures SuiteOf(m).Lawful()
    ensures var h := Header(|i.Content()| + 17);
            var (ct, tag) := Encrypt(m.aes(m.key(k.secret)), NonceOf(m.iv(k.secret), k.n), h, i.Content() + [i.Type()]);
            Sealed(SuiteOf(m), k, i) == h + ct + tag
  {
    hide Encrypt, NonceOf, Header;
    GcmLawful(m);
    var h := Header(|i.Content()| + 17);
    var (ct, tag) := Encrypt(m.aes(m.key(k.secret)), NonceOf(m.iv(k.secret), k.n), h, i.Content() + [i.Type()]);
    Assoc(h, ct, tag);
  }
}
