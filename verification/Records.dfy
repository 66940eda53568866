/** TLS 1.3 records on the wire (sections 5.1 to 5.3, 4.6.3 and 7.2 of RFC 8446), over any
    lawful AEAD and key schedule: what a sender's messages encode to, key updates and all,
    and what a reader makes of any bytes. The numbers are the standard's. */
module Records {
  import opened Basics
  import opened Nonce

  type Secret = seq<byte>

  /** The cipher and the key schedule: seal and open take key, nonce, header and text. */
  datatype Suite = Suite(
    seal: (seq<byte>, seq<byte>, seq<byte>, seq<byte>) -> seq<byte>,
    open: (seq<byte>, seq<byte>, seq<byte>, seq<byte>) -> Option<seq<byte>>,
    key: Secret -> seq<byte>,
    iv: Secret -> seq<byte>,
    next: Secret -> Secret)
  {
    /** A 16-byte tag, opening undoes sealing, 12-byte IVs. */
    ghost predicate Lawful() {
      && (forall k, n, h, p :: |seal(k, n, h, p)| == |p| + 16)
      && (forall k, n, h, p :: open(k, n, h, seal(k, n, h, p)) == Some(p))
      && (forall k, n, h, c :: open(k, n, h, c).Some? ==> |open(k, n, h, c).value| + 16 == |c|)
      && (forall s :: |iv(s)| == 12)
    }
  }

  /** What one record carries. */
  datatype Item = App(data: seq<byte>) | Update(requested: bool) | Close {
    function Type(): byte {
      match this
      case App(_) => 23
      case Update(_) => 22
      case Close => 21
    }

    function Content(): (c: seq<byte>) {
      match this
      case App(data) => data
      case Update(requested) => [24, 0, 0, 1, if requested then 1 else 0]
      case Close => [1, 0]
    }

    predicate Fits() {
      |Content()| <= 16384
    }
  }

  /** One direction's key state: a traffic secret, how many updates led to it, and the
      next record's sequence number. */
  datatype Keys = Keys(secret: Secret, gen: nat, n: nat) {
    /** After a record: an update moves to the next secret and restarts the count. */
    function After(a: Suite, i: Item): Keys {
      if i.Update? then Keys(a.next(secret), gen + 1, 0) else Keys(secret, gen, n + 1)
    }
  }

  /** The five-byte header of a record with so many bytes after it. */
  function Header(length: nat): (h: seq<byte>)
    requires length < 65536
    ensures |h| == 5
  {
    [23, 3, 3, length / 256, length % 256]
  }

  /** A record sealed under key state k. */
  function Sealed(a: Suite, k: Keys, i: Item): (r: seq<byte>)
    requires a.Lawful() && i.Fits()
    ensures |r| == 5 + |i.Content()| + 17
  {
    var h := Header(|i.Content()| + 17);
    h + a.seal(a.key(k.secret), NonceOf(a.iv(k.secret), k.n), h, i.Content() + [i.Type()])
  }

  ghost predicate AllFit(items: seq<Item>) {
    forall j :: 0 <= j < |items| ==> items[j].Fits()
  }

  /** The key state after some records. */
  function KeysAfter(a: Suite, k: Keys, items: seq<Item>): Keys {
    if items == [] then k else KeysAfter(a, k, items[..|items| - 1]).After(a, items[|items| - 1])
  }

  /** The records of some items, each under the key state the ones before leave. */
  ghost function Wire(a: Suite, k: Keys, items: seq<Item>): (w: seq<byte>)
    requires a.Lawful() && AllFit(items)
  {
    if items == [] then [] else
      var n := |items| - 1;
      Wire(a, k, items[..n]) + Sealed(a, KeysAfter(a, k, items[..n]), items[n])
  }

  /** The application data some items carry. */
  ghost function AppData(items: seq<Item>): seq<byte> {
    if items == [] then [] else
      var n := |items| - 1;
      AppData(items[..n]) + if items[n].App? then items[n].data else []
  }

  ghost function Updates(items: seq<Item>): (n: nat)
    ensures n <= |items|
  {
    if items == [] then 0 else
      var n := |items| - 1;
      Updates(items[..n]) + if items[n].Update? then 1 else 0
  }

  /** The updates that were sealed when the keys had sealed 2^24 records. */
  ghost function Rekeys(a: Suite, k: Keys, items: seq<Item>): nat {
    if items == [] then 0 else
      var n := |items| - 1;
      var late := items[n] == Update(false) && KeysAfter(a, k, items[..n]).n >= 16777216;
      Rekeys(a, k, items[..n]) + if late then 1 else 0
  }

  /** Those sealed sooner without asking for the peer's. */
  ghost function Replies(a: Suite, k: Keys, items: seq<Item>): nat {
    if items == [] then 0 else
      var n := |items| - 1;
      var soon := items[n] == Update(false) && KeysAfter(a, k, items[..n]).n < 16777216;
      Replies(a, k, items[..n]) + if soon then 1 else 0
  }

  /** Those that ask for the peer's. */
  ghost function Requests(items: seq<Item>): nat {
    if items == [] then 0 else
      var n := |items| - 1;
      Requests(items[..n]) + if items[n] == Update(true) then 1 else 0
  }

  lemma CountPush(a: Suite, k: Keys, items: seq<Item>, i: Item)
    ensures Requests(items + [i]) == Requests(items) + if i == Update(true) then 1 else 0
    ensures var soon := i == Update(false) && KeysAfter(a, k, items).n < 16777216;
            Replies(a, k, items + [i]) == Replies(a, k, items) + if soon then 1 else 0
  {
    hide KeysAfter;
    assert (items + [i])[..|items|] == items;
  }

  lemma {:induction false} RequestsWithin(items: seq<Item>, i: nat, j: nat)
    requires i <= j <= |items|
    ensures Requests(items[..i]) <= Requests(items[..j])
    ensures (exists m :: i <= m < j && items[m] == Update(true)) ==> Requests(items[..i]) < Requests(items[..j])
  {
    if i < j {
      RequestsWithin(items, i, j - 1);
      assert items[..j][..j - 1] == items[..j - 1];
    }
  }

  /** Keys that seal 2^24 records before each such update take that many to it. */
  lemma {:induction false} RekeysSpaced(a: Suite, k: Keys, items: seq<Item>)
    requires k.n == 0
    ensures Rekeys(a, k, items) * 16777217 + KeysAfter(a, k, items).n <= |items|
  {
    if items != [] {
      RekeysSpaced(a, k, items[..|items| - 1]);
    }
  }

  lemma {:induction false} UpdateKinds(a: Suite, k: Keys, items: seq<Item>)
    ensures Updates(items) == Rekeys(a, k, items) + Replies(a, k, items) + Requests(items)
  {
    hide KeysAfter;
    if items != [] {
      UpdateKinds(a, k, items[..|items| - 1]);
    }
  }

  /** One more record. */
  lemma WirePush(a: Suite, k: Keys, items: seq<Item>, i: Item)
    requires a.Lawful() && AllFit(items) && i.Fits()
    ensures AllFit(items + [i])
    ensures Wire(a, k, items + [i]) == Wire(a, k, items) + Sealed(a, KeysAfter(a, k, items), i)
    ensures KeysAfter(a, k, items + [i]) == KeysAfter(a, k, items).After(a, i)
    ensures AppData(items + [i]) == AppData(items) + if i.App? then i.data else []
    ensures Updates(items + [i]) == Updates(items) + if i.Update? then 1 else 0
  {
    hide Sealed, Keys.After, Suite.Lawful, Item.Fits;
    assert (items + [i])[..|items|] == items;
  }

  /** One more of a longer list. */
  lemma WireTake(a: Suite, k: Keys, items: seq<Item>, j: nat)
    requires a.Lawful() && AllFit(items) && j < |items|
    ensures AllFit(items[..j]) && AllFit(items[..j + 1])
    ensures Wire(a, k, items[..j + 1]) == Wire(a, k, items[..j]) + Sealed(a, KeysAfter(a, k, items[..j]), items[j])
    ensures KeysAfter(a, k, items[..j + 1]) == KeysAfter(a, k, items[..j]).After(a, items[j])
    ensures AppData(items[..j + 1]) == AppData(items[..j]) + if items[j].App? then items[j].data else []
    ensures Updates(items[..j + 1]) == Updates(items[..j]) + if items[j].Update? then 1 else 0
  {
    hide Sealed, Keys.After, Suite.Lawful, Item.Fits, Wire, KeysAfter, AppData, Updates;
    assert items[..j + 1] == items[..j] + [items[j]];
    WirePush(a, k, items[..j], items[j]);
  }

  lemma PrefixMore<T>(s: seq<T>, t: seq<T>, u: seq<T>)
    ensures Prefix(s, t) ==> Prefix(s, t + u)
    ensures Prefix(t, t)
  {
  }

  /** The records of a prefix are a prefix of the records, and so with the data. */
  lemma {:induction false} WirePrefix(a: Suite, k: Keys, items: seq<Item>, j: nat)
    requires a.Lawful() && AllFit(items) && j <= |items|
    ensures AllFit(items[..j]) && Prefix(Wire(a, k, items[..j]), Wire(a, k, items))
    ensures Prefix(AppData(items[..j]), AppData(items)) && Updates(items[..j]) <= Updates(items)
    decreases |items|
  {
    hide *;
    if j == |items| {
      assert items[..j] == items;
      PrefixMore(Wire(a, k, items), Wire(a, k, items), []);
      PrefixMore(AppData(items), AppData(items), []);
    } else {
      var n := |items| - 1;
      FitsCut(items, n);
      WirePrefix(a, k, items[..n], j);
      assert items[..n][..j] == items[..j] && items == items[..n] + [items[n]];
      WirePush(a, k, items[..n], items[n]);
      PrefixMore(Wire(a, k, items[..j]), Wire(a, k, items[..n]), Sealed(a, KeysAfter(a, k, items[..n]), items[n]));
      PrefixMore(AppData(items[..j]), AppData(items[..n]), if items[n].App? then items[n].data else []);
    }
  }

  lemma FitsCut(items: seq<Item>, n: nat)
    requires AllFit(items) && n < |items|
    ensures AllFit(items[..n]) && items[n].Fits()
  {
  }

  /** An earlier record has an earlier generation, or the same one and a lower number. */
  ghost predicate Before(x: Keys, y: Keys) {
    x.gen < y.gen || (x.gen == y.gen && x.n < y.n)
  }

  /** Key states only move forward: no generation and number is ever sealed twice. */
  lemma {:induction false} NoReuse(a: Suite, k: Keys, items: seq<Item>, i: nat, j: nat)
    requires i < j <= |items|
    ensures Before(KeysAfter(a, k, items[..i]), KeysAfter(a, k, items[..j]))
    decreases j
  {
    var m := j - 1;
    assert items[..j][..m] == items[..m];
    if i < m {
      NoReuse(a, k, items, i, m);
    }
  }

  /** Within a generation the secret stays the same. */
  lemma {:induction false} SameSecret(a: Suite, k: Keys, items: seq<Item>, i: nat, j: nat)
    requires i <= j <= |items| && KeysAfter(a, k, items[..i]).gen == KeysAfter(a, k, items[..j]).gen
    ensures KeysAfter(a, k, items[..i]).secret == KeysAfter(a, k, items[..j]).secret
    decreases j
  {
    if i < j {
      var m := j - 1;
      assert items[..j][..m] == items[..m];
      if i < m {
        NoReuse(a, k, items, i, m);
      }
      SameSecret(a, k, items, i, m);
    }
  }

  /** The length of a plaintext without its zero padding. */
  function Unpadded(p: seq<byte>): (e: nat)
    ensures e <= |p| && (e > 0 ==> p[e - 1] != 0) && forall i :: e <= i < |p| ==> p[i] == 0
  {
    if p == [] || p[|p| - 1] != 0 then |p| else Unpadded(p[..|p| - 1])
  }

  /** The first record of some bytes. */
  datatype Next = Partial | Bad | Record(typ: byte, content: seq<byte>, size: nat)

  function NextRecord(a: Suite, k: Keys, s: seq<byte>): (r: Next)
    requires a.Lawful()
    ensures r.Partial? ==> |s| < 5 + 16640
    ensures r.Record? ==> 0 < r.size <= |s|
  {
    if |s| < 5 then Partial else
      var length := s[3] as int * 256 + s[4];
      if s[0] != 23 || length > 16640 || length < 17 then Bad
      else if |s| < 5 + length then Partial
      else
        var p := a.open(a.key(k.secret), NonceOf(a.iv(k.secret), k.n), s[..5], s[5..5 + length]);
        if p.None? then Bad else
          var e := Unpadded(p.value);
          if e == 0 || e - 1 > 16384 then Bad else Record(p.value[e - 1], p.value[..e - 1], 5 + length)
  }

  lemma UnpaddedEnd(p: seq<byte>)
    requires p == [] || p[|p| - 1] != 0
    ensures Unpadded(p) == |p|
  {
  }

  lemma HeaderLength(length: nat)
    requires length < 65536
    ensures Header(length)[3] as int * 256 + Header(length)[4] == length
  {
  }

  /** A sealed record is read back, whatever follows it. */
  lemma ReadsSealed(a: Suite, k: Keys, i: Item, rest: seq<byte>)
    requires a.Lawful() && i.Fits()
    ensures NextRecord(a, k, Sealed(a, k, i) + rest) == Record(i.Type(), i.Content(), |Sealed(a, k, i)|)
  {
    hide Header, NonceOf, Unpadded;
    var length := |i.Content()| + 17;
    var h, r := Header(length), Sealed(a, k, i);
    HeaderLength(length);
    HeaderType(length);
    var s := r + rest;
    var p := i.Content() + [i.Type()];
    assert s[..5] == h && s[5..5 + length] == r[5..] == a.seal(a.key(k.secret), NonceOf(a.iv(k.secret), k.n), h, p);
    assert p[|p| - 1] != 0;
    UnpaddedEnd(p);
    assert p[..|p| - 1] == i.Content();
  }

  lemma HeaderType(length: nat)
    requires length < 65536
    ensures Header(length)[0] == 23
  {
  }

  /** Any shorter piece of it waits for more. */
  lemma WaitsForMore(a: Suite, k: Keys, i: Item, s: seq<byte>)
    requires a.Lawful() && i.Fits() && Prefix(s, Sealed(a, k, i)) && |s| < |Sealed(a, k, i)|
    ensures NextRecord(a, k, s).Partial?
  {
    hide Header, NonceOf;
    var length := |i.Content()| + 17;
    HeaderLength(length);
    HeaderType(length);
    if |s| >= 5 {
      assert s[0] == Header(length)[0] && s[3] == Header(length)[3] && s[4] == Header(length)[4];
    }
  }

  /** What follows the records opened so far, when the bytes received are a prefix of the
      records sent. */
  lemma Upcoming(a: Suite, k: Keys, items: seq<Item>, j: nat, rest: seq<byte>)
    requires a.Lawful() && AllFit(items) && j <= |items| && AllFit(items[..j])
    requires Prefix(Wire(a, k, items[..j]) + rest, Wire(a, k, items))
    ensures j == |items| ==> rest == []
    ensures j < |items| ==>
              var record := Sealed(a, KeysAfter(a, k, items[..j]), items[j]);
              if |rest| < |record| then Prefix(rest, record) else rest == record + rest[|record|..]
  {
    hide Wire, KeysAfter, Sealed, Suite.Lawful, Item.Fits;
    if j == |items| {
      assert items[..j] == items;
    } else {
      WireTake(a, k, items, j);
      WirePrefix(a, k, items, j + 1);
      AfterPrefix(Wire(a, k, items[..j]), Sealed(a, KeysAfter(a, k, items[..j]), items[j]), rest, Wire(a, k, items));
    }
  }

  lemma AfterPrefix(w: seq<byte>, r: seq<byte>, rest: seq<byte>, all: seq<byte>)
    requires Prefix(w + r, all) && Prefix(w + rest, all)
    ensures if |rest| < |r| then Prefix(rest, r) else rest == r + rest[|r|..]
  {
    assert forall i :: 0 <= i < |rest| ==> rest[i] == (w + rest)[|w| + i] == all[|w| + i];
    assert forall i :: 0 <= i < |r| ==> r[i] == (w + r)[|w| + i] == all[|w| + i];
  }

  /** The next record is the next item's, whole or still arriving. */
  lemma NextIs(a: Suite, k: Keys, items: seq<Item>, j: nat, rest: seq<byte>)
    requires a.Lawful() && AllFit(items) && j <= |items| && AllFit(items[..j])
    requires Prefix(Wire(a, k, items[..j]) + rest, Wire(a, k, items))
    ensures var r := NextRecord(a, KeysAfter(a, k, items[..j]), rest);
            || r.Partial?
            || (j < |items|
                && r == Record(items[j].Type(), items[j].Content(), |Sealed(a, KeysAfter(a, k, items[..j]), items[j])|))
    ensures var r := NextRecord(a, KeysAfter(a, k, items[..j]), rest);
            r.Partial? && j < |items| ==> |rest| < |Sealed(a, KeysAfter(a, k, items[..j]), items[j])|
  {
    hide Wire, KeysAfter, Sealed, Suite.Lawful, Item.Fits, NextRecord, Prefix;
    Upcoming(a, k, items, j, rest);
    if j == |items| {
      NothingYet(a, KeysAfter(a, k, items[..j]));
    } else {
      var key := KeysAfter(a, k, items[..j]);
      var record := Sealed(a, key, items[j]);
      if |rest| < |record| {
        WaitsForMore(a, key, items[j], rest);
      } else {
        ReadsSealed(a, key, items[j], rest[|record|..]);
      }
    }
  }

  lemma NothingYet(a: Suite, k: Keys)
    requires a.Lawful()
    ensures NextRecord(a, k, []).Partial?
  {
  }

  predicate IsUpdate(c: seq<byte>) {
    |c| == 5 && c[0] == 24 && c[1] == 0 && c[2] == 0 && c[3] == 1 && c[4] <= 1
  }

  /** What a reader makes of some bytes: the content in them, its place after them (key
      state, key updates taken, what is not a whole record yet), and how they end. */
  datatype Reading = Reading(data: seq<byte>, rx: Keys, seen: nat, rest: seq<byte>, end: End)
  datatype End = More | Closed | Refused

  /** With content handed out before. */
  function Ahead(data: seq<byte>, r: Reading): Reading {
    r.(data := data + r.data)
  }

  /** The reader, over the bytes of any peer. */
  ghost function ReadAll(a: Suite, rx: Keys, seen: nat, s: seq<byte>): Reading
    requires a.Lawful()
    decreases |s|
  {
    match NextRecord(a, rx, s)
    case Partial => Reading([], rx, seen, s, More)
    case Bad => Reading([], rx, seen, s, Refused)
    case Record(typ, content, size) =>
      if typ == 23 then Ahead(content, ReadAll(a, Keys(rx.secret, rx.gen, rx.n + 1), seen, s[size..]))
      else if typ == 22 && IsUpdate(content) && seen < 1024 then
        ReadAll(a, Keys(a.next(rx.secret), rx.gen + 1, 0), seen + 1, s[size..])
      else if typ == 21 && |content| == 2 && content[1] == 0 then Reading([], rx, seen, s, Closed)
      else Reading([], rx, seen, s, Refused)
  }

  /** More bytes do not change a record that is there. */
  lemma NextStays(a: Suite, k: Keys, s: seq<byte>, t: seq<byte>)
    requires a.Lawful() && !NextRecord(a, k, s).Partial?
    ensures NextRecord(a, k, s + t) == NextRecord(a, k, s)
  {
    hide NonceOf, Unpadded;
    var length := s[3] as int * 256 + s[4];
    assert (s + t)[..5] == s[..5];
    if 5 + length <= |s| {
      assert (s + t)[5..5 + length] == s[5..5 + length];
    }
  }

  /** Bytes in two parts are read as the bytes at once, whoever sent them: where they end
      while more is expected, the reader goes on, and an end stays the end. */
  lemma {:induction false} ReadSplit(a: Suite, rx: Keys, seen: nat, s: seq<byte>, t: seq<byte>)
    requires a.Lawful()
    ensures var r := ReadAll(a, rx, seen, s);
            ReadAll(a, rx, seen, s + t)
            == if r.end.More? then Ahead(r.data, ReadAll(a, r.rx, r.seen, r.rest + t)) else r.(rest := r.rest + t)
    decreases |s|
  {
    hide NextRecord, Suite.Lawful, IsUpdate;
    var next := NextRecord(a, rx, s);
    if !next.Partial? {
      NextStays(a, rx, s, t);
    }
    if next.Record? {
      var size := next.size;
      assert (s + t)[size..] == s[size..] + t;
      if next.typ == 23 {
        var k := Keys(rx.secret, rx.gen, rx.n + 1);
        ReadSplit(a, k, seen, s[size..], t);
        var r := ReadAll(a, k, seen, s[size..]);
        Assoc(next.content, r.data, ReadAll(a, r.rx, r.seen, r.rest + t).data);
      } else if next.typ == 22 && IsUpdate(next.content) && seen < 1024 {
        ReadSplit(a, Keys(a.next(rx.secret), rx.gen + 1, 0), seen + 1, s[size..], t);
      }
    }
  }

  /** What a reader behind its first reading makes of bytes that arrive. */
  lemma ReadGrows(a: Suite, rx0: Keys, got: seq<byte>, done: seq<byte>, rx: Keys, seen: nat, unread: seq<byte>,
                  more: seq<byte>)
    requires a.Lawful() && ReadAll(a, rx0, 0, got) == Ahead(done, ReadAll(a, rx, seen, unread))
    ensures ReadAll(a, rx0, 0, got + more) == Ahead(done, ReadAll(a, rx, seen, unread + more))
  {
    hide ReadAll;
    ReadSplit(a, rx0, 0, got, more);
    ReadSplit(a, rx, seen, unread, more);
    var r := ReadAll(a, rx, seen, unread);
    Assoc(done, r.data, ReadAll(a, r.rx, r.seen, r.rest + more).data);
  }

  /** The records of a peer within the limit that has not closed are read as what they
      carry, all of it. */
  lemma {:induction false} ReadsWire(a: Suite, k: Keys, items: seq<Item>)
    requires a.Lawful() && AllFit(items) && Updates(items) <= 1024
    requires forall j :: 0 <= j < |items| ==> !items[j].Close?
    ensures ReadAll(a, k, 0, Wire(a, k, items))
         == Reading(AppData(items), KeysAfter(a, k, items), Updates(items), [], More)
    decreases |items|
  {
    hide NextRecord, Sealed, Suite.Lawful, Item.Fits, IsUpdate;
    if items == [] {
      NothingYet(a, k);
    } else {
      var n := |items| - 1;
      FitsCut(items, n);
      ReadsWire(a, k, items[..n]);
      var key, r := KeysAfter(a, k, items[..n]), Sealed(a, KeysAfter(a, k, items[..n]), items[n]);
      ReadSplit(a, k, 0, Wire(a, k, items[..n]), r);
      assert [] + r == r;
      ReadsOne(a, key, Updates(items[..n]), items[n]);
    }
  }

  lemma ReadsOne(a: Suite, k: Keys, seen: nat, i: Item)
    requires a.Lawful() && i.Fits() && !i.Close? && (i.Update? ==> seen < 1024)
    ensures ReadAll(a, k, seen, Sealed(a, k, i))
         == Reading(if i.App? then i.data else [], k.After(a, i), if i.Update? then seen + 1 else seen, [], More)
  {
    hide NextRecord, Sealed, Suite.Lawful;
    ReadsSealed(a, k, i, []);
    var s := Sealed(a, k, i);
    assert s + [] == s && s[|s|..] == [];
    NothingYet(a, k.After(a, i));
    if i.App? {
      assert i.data + [] == i.data;
    }
  }
}
