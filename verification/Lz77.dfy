/** Hash-chain matching (insert and find in http1/deflate.v): what the chains hold, and the
    match a search in them yields, whatever the tables held before. */
module Lz77 {
  import opened Basics
  import opened Bits

  const WINDOW_SIZE: nat := 32768
  const MIN_MATCH: nat := 4
  const MAX_MATCH: nat := 258
  const MAX_CHUNK: nat := 65534
  const MAX_HASH_BITS: nat := 15
  const SEARCH_DEPTH: nat := 4
  const NICE_MATCH: nat := 32
  const GOOD_MATCH: nat := 8
  const MAX_INSERT: nat := 4

  function Load32(s: seq<byte>, i: nat): (v: nat)
    requires i + 4 <= |s|
    ensures v < 4294967296
  {
    s[i] as int + 256 * s[i + 1] as int + 65536 * s[i + 2] as int + 16777216 * s[i + 3] as int
  }

  lemma Load32Equal(s: seq<byte>, i: nat, j: nat)
    requires i + 4 <= |s| && j + 4 <= |s| && Load32(s, i) == Load32(s, j)
    ensures s[i] == s[j] && s[i + 1] == s[j + 1] && s[i + 2] == s[j + 2] && s[i + 3] == s[j + 3]
  {
    Digits(s[i], s[i + 1], s[i + 2], s[i + 3]);
    Digits(s[j], s[j + 1], s[j + 2], s[j + 3]);
  }

  lemma Digits(a: byte, b: byte, c: byte, d: byte)
    ensures var v := a as int + 256 * b as int + 65536 * c as int + 16777216 * d as int;
            v % 256 == a && (v / 256) % 256 == b && (v / 65536) % 256 == c && v / 16777216 == d
  {
    var v := a as int + 256 * b as int + 65536 * c as int + 16777216 * d as int;
    var w := b as int + 256 * c as int + 65536 * d as int;
    var x := c as int + 256 * d as int;
    DivUnique(v, 256, w, a);
    DivUnique(w, 256, x, b);
    DivUnique(x, 256, d, c);
    DivUnique(v, 65536, x, a as int + 256 * b as int);
    DivUnique(v, 16777216, d, a as int + 256 * b as int + 65536 * c as int);
  }

  /** The multiplicative hash of four bytes, its top hb bits. */
  function Hash(s: seq<byte>, i: nat, hb: nat): (h: nat)
    requires i + 4 <= |s| && 1 <= hb <= 15
    ensures h < Pow2(hb)
  {
    var product := (Load32(s, i) * 0x1e35a7bd) % 4294967296;
    HashInRange(product, hb);
    ShiftDown(product, 32 - hb)
  }

  lemma HashInRange(x: nat, hb: nat)
    requires x < 4294967296 && 1 <= hb <= 15
    ensures ShiftDown(x, 32 - hb) < Pow2(hb)
  {
    hide Pow2;
    Pow2Add(hb, 32 - hb);
    Pow2Word();
    var p := Pow2(32 - hb);
    DivNat(x, p);
    if x / p >= Pow2(hb) {
      MulMono(Pow2(hb), x / p, p);
    }
  }

  /** Four bytes start at every entered position. */
  ghost predicate Positions(s: seq<byte>, entered: set<nat>) {
    forall c :: c in entered ==> c + 4 <= |s|
  }

  /** One past the last position below so many that was entered with hash h; 0 for none. */
  ghost function Top(s: seq<byte>, hb: nat, entered: set<nat>, h: nat, below: nat): (t: nat)
    requires Positions(s, entered) && 1 <= hb <= 15
    ensures t <= below && (t > 0 ==> t - 1 in entered && Hash(s, t - 1, hb) == h)
    ensures forall c :: t <= c < below && c in entered ==> Hash(s, c, hb) != h
  {
    if below == 0 then 0
    else if below - 1 in entered && Hash(s, below - 1, hb) == h then below
    else Top(s, hb, entered, h, below - 1)
  }

  /** A position entered later changes nothing below it. */
  lemma {:induction false} TopMore(s: seq<byte>, hb: nat, entered: set<nat>, h: nat, below: nat, i: nat)
    requires Positions(s, entered) && 1 <= hb <= 15 && below <= i && i + 4 <= |s|
    ensures Top(s, hb, entered + {i}, h, below) == Top(s, hb, entered, h, below)
    decreases below
  {
    hide Hash;
    if below > 0 {
      TopMore(s, hb, entered, h, below - 1, i);
    }
  }

  /** Where nothing was entered there is nothing to find. */
  lemma {:induction false} TopSkips(s: seq<byte>, hb: nat, entered: set<nat>, h: nat, a: nat, b: nat)
    requires Positions(s, entered) && 1 <= hb <= 15 && a <= b && forall c :: c in entered ==> c < a
    ensures Top(s, hb, entered, h, b) == Top(s, hb, entered, h, a)
    decreases b
  {
    hide Hash;
    if a < b {
      TopSkips(s, hb, entered, h, a, b - 1);
    }
  }

  lemma TopAtTop(s: seq<byte>, hb: nat, entered: set<nat>, h: nat, below: nat)
    requires Positions(s, entered) && 1 <= hb <= 15
    ensures var t := Top(s, hb, entered, h, below); Top(s, hb, entered, h, t) == t
  {
    hide Hash;
  }

  /** A head names the last position entered with its hash, and a link of an entered
      position the one before it with the same hash; links of positions never entered, left
      from an earlier chunk, are not among them. */
  ghost predicate Chains(s: seq<byte>, hb: nat, head: seq<nat>, prev: seq<nat>, entered: set<nat>, bound: nat)
    requires 1 <= hb <= 15
  {
    && Positions(s, entered) && (forall c :: c in entered ==> c < bound && c < |prev|)
    && (forall h :: 0 <= h < |head| ==> head[h] == Top(s, hb, entered, h, bound))
    && (forall c :: c in entered ==> prev[c] == Top(s, hb, entered, Hash(s, c, hb), c))
  }

  lemma ChainsEnter(s: seq<byte>, hb: nat, head: seq<nat>, prev: seq<nat>, entered: set<nat>, bound: nat, i: nat)
    requires 1 <= hb <= 15 && Chains(s, hb, head, prev, entered, bound) && bound <= i < |prev| && i + 4 <= |s|
    requires Hash(s, i, hb) < |head|
    ensures var h := Hash(s, i, hb);
            Chains(s, hb, head[h := i + 1], prev[i := head[h]], entered + {i}, i + 1)
  {
    hide Hash, Top;
    var more, h := entered + {i}, Hash(s, i, hb);
    var heads, links := head[h := i + 1], prev[i := head[h]];
    forall k | 0 <= k < |head|
      ensures heads[k] == Top(s, hb, more, k, i + 1)
    {
      TopEnter(s, hb, entered, k, bound, i);
    }
    forall c | c in more
      ensures c < i + 1 && c < |prev| && links[c] == Top(s, hb, more, Hash(s, c, hb), c)
    {
      LinkEnter(s, hb, entered, Hash(s, c, hb), bound, i, c);
    }
  }

  lemma LinkEnter(s: seq<byte>, hb: nat, entered: set<nat>, h: nat, bound: nat, i: nat, c: nat)
    requires Positions(s, entered) && 1 <= hb <= 15 && bound <= i && i + 4 <= |s|
    requires forall k :: k in entered ==> k < bound
    requires c < bound || c == i
    ensures Top(s, hb, entered + {i}, h, c) == Top(s, hb, entered, h, if c == i then bound else c)
  {
    hide Hash, Top;
    TopMore(s, hb, entered, h, c, i);
    TopSkips(s, hb, entered, h, bound, i);
  }

  lemma TopEnter(s: seq<byte>, hb: nat, entered: set<nat>, h: nat, bound: nat, i: nat)
    requires Positions(s, entered) && 1 <= hb <= 15 && bound <= i && i + 4 <= |s|
    requires forall c :: c in entered ==> c < bound
    ensures Top(s, hb, entered + {i}, h, i + 1)
         == if Hash(s, i, hb) == h then i + 1 else Top(s, hb, entered, h, bound)
  {
    hide Hash, Top;
    TopMore(s, hb, entered, h, i, i);
    TopSkips(s, hb, entered, h, bound, i);
    TopStep(s, hb, entered + {i}, h, i);
  }

  lemma TopStep(s: seq<byte>, hb: nat, entered: set<nat>, h: nat, i: nat)
    requires Positions(s, entered) && 1 <= hb <= 15 && i in entered
    ensures Top(s, hb, entered, h, i + 1) == if Hash(s, i, hb) == h then i + 1 else Top(s, hb, entered, h, i)
  {
    hide Hash;
  }

  /** The last positions entered with hash h below so many, at most depth of them, the
      latest first. */
  ghost function Candidates(s: seq<byte>, hb: nat, entered: set<nat>, h: nat, below: nat, depth: nat): (cs: seq<nat>)
    requires Positions(s, entered) && 1 <= hb <= 15
    ensures |cs| <= depth && forall k :: 0 <= k < |cs| ==> cs[k] < below && cs[k] in entered
    decreases depth
  {
    var t := Top(s, hb, entered, h, below);
    if t == 0 || depth == 0 then [] else [t - 1] + Candidates(s, hb, entered, h, t - 1, depth - 1)
  }

  /** When there are fewer, they are all of them. */
  lemma {:induction false} CandidatesAll(s: seq<byte>, hb: nat, entered: set<nat>, h: nat, below: nat, depth: nat,
                                         c: nat)
    requires Positions(s, entered) && 1 <= hb <= 15 && c in entered && c < below && Hash(s, c, hb) == h
    requires |Candidates(s, hb, entered, h, below, depth)| < depth
    ensures c in Candidates(s, hb, entered, h, below, depth)
    decreases depth
  {
    hide Hash;
    var t := Top(s, hb, entered, h, below);
    if c < t - 1 {
      CandidatesAll(s, hb, entered, h, t - 1, depth - 1, c);
    }
  }

  /** How many bytes from l on, up to max, are the same at i and c. */
  function Common(s: seq<byte>, i: nat, c: nat, max: nat, l: nat): (n: nat)
    requires c < i && i + max <= |s| && l <= max
    ensures l <= n <= max && (forall k :: i + l <= k < i + n ==> s[k] == s[k - (i - c)])
    ensures n < max ==> s[c + n] != s[i + n]
    decreases max - l
  {
    if l < max && s[c + l] == s[i + l] then Common(s, i, c, max, l + 1) else l
  }

  /** The most bytes a match at i may have. */
  function Most(s: seq<byte>, i: nat): (m: nat)
    requires i <= |s|
    ensures i + m <= |s| && m <= 258
  {
    if |s| - i < 258 then |s| - i else 258
  }

  /** The match taken from candidates, the latest first: the longest, the nearest of those,
      but the first that is long enough, and none from beyond the window. */
  ghost function Pick(s: seq<byte>, i: nat, cs: seq<nat>, len: nat, dist: nat): (m: (nat, nat))
    requires i <= |s| && forall k :: 0 <= k < |cs| ==> cs[k] < i
    ensures len <= Most(s, i) ==> m.0 <= Most(s, i)
    decreases |cs|
  {
    if cs == [] || i - cs[0] > 32768 then (len, dist) else
      var l := Common(s, i, cs[0], Most(s, i), 0);
      if l <= len then Pick(s, i, cs[1..], len, dist)
      else if l >= 32 || l >= Most(s, i) then (l, i - cs[0])
      else Pick(s, i, cs[1..], l, i - cs[0])
  }

  /** The match find yields. */
  ghost function Found(s: seq<byte>, hb: nat, entered: set<nat>, i: nat, depth: nat): (m: (nat, nat))
    requires Positions(s, entered) && 1 <= hb <= 15 && i + 4 <= |s|
    ensures (m.0 == 0 || m.0 >= 4) && i + m.0 <= |s|
  {
    var m := Pick(s, i, Candidates(s, hb, entered, Hash(s, i, hb), i, depth), 3, 0);
    if m.0 < 4 then (0, 0) else m
  }

  /** A search only stops early at a match that is long enough: otherwise no candidate in the
      window has a longer one. */
  lemma {:induction false} PickLongest(s: seq<byte>, i: nat, cs: seq<nat>, len: nat, dist: nat, k: nat)
    requires i <= |s| && (forall j :: 0 <= j < |cs| ==> cs[j] < i) && Falls(cs)
    requires k < |cs| && i - cs[k] <= WINDOW_SIZE && len <= Most(s, i)
    ensures var best := Pick(s, i, cs, len, dist).0;
            best >= len && (best >= NICE_MATCH || best >= Most(s, i) || Common(s, i, cs[k], Most(s, i), 0) <= best)
    decreases |cs|
  {
    hide Common, Most;
    var l := Common(s, i, cs[0], Most(s, i), 0);
    if k == 0 {
      PickGrows(s, i, cs[1..], if l <= len then len else l, if l <= len then dist else i - cs[0]);
    } else {
      PickLongest(s, i, cs[1..], if l <= len then len else l, if l <= len then dist else i - cs[0], k - 1);
    }
  }

  lemma {:induction false} PickGrows(s: seq<byte>, i: nat, cs: seq<nat>, len: nat, dist: nat)
    requires i <= |s| && forall j :: 0 <= j < |cs| ==> cs[j] < i
    ensures Pick(s, i, cs, len, dist).0 >= len
    decreases |cs|
  {
    hide Common, Most;
    if cs != [] {
      var l := Common(s, i, cs[0], Most(s, i), 0);
      PickGrows(s, i, cs[1..], if l <= len then len else l, if l <= len then dist else i - cs[0]);
    }
  }

  lemma {:induction false} CandidatesFall(s: seq<byte>, hb: nat, entered: set<nat>, h: nat, below: nat, depth: nat)
    requires Positions(s, entered) && 1 <= hb <= 15
    ensures Falls(Candidates(s, hb, entered, h, below, depth))
    decreases depth
  {
    hide Hash;
    var t := Top(s, hb, entered, h, below);
    if t > 0 && depth > 0 {
      CandidatesFall(s, hb, entered, h, t - 1, depth - 1);
      FallsPush(t - 1, Candidates(s, hb, entered, h, t - 1, depth - 1));
    }
  }

  ghost predicate Falls(cs: seq<nat>) {
    forall j, k :: 0 <= j < k < |cs| ==> cs[j] > cs[k]
  }

  lemma FallsPush(c: nat, cs: seq<nat>)
    requires Falls(cs) && forall k :: 0 <= k < |cs| ==> cs[k] < c
    ensures Falls([c] + cs)
  {
    var all := [c] + cs;
    assert forall k :: 0 < k < |all| ==> all[k] == cs[k - 1];
  }

  /** Nothing is missed: unless the chain is longer than the search or the match is long
      enough, no entered position within the window matches more bytes. */
  lemma NothingMissed(s: seq<byte>, hb: nat, entered: set<nat>, i: nat, depth: nat, c: nat)
    requires Positions(s, entered) && 1 <= hb <= 15 && i + 4 <= |s|
    requires c in entered && c < i && i - c <= WINDOW_SIZE
    requires |Candidates(s, hb, entered, Hash(s, i, hb), i, depth)| < depth
    ensures var (len, n) := (Found(s, hb, entered, i, depth).0, Common(s, i, c, Most(s, i), 0));
            n < MIN_MATCH || n <= len || NICE_MATCH <= len || Most(s, i) <= len
  {
    hide Hash, Pick, Candidates, Most;
    if Common(s, i, c, Most(s, i), 0) >= MIN_MATCH {
      SameHash(s, hb, i, c);
      var h := Hash(s, i, hb);
      var cs := Candidates(s, hb, entered, h, i, depth);
      CandidatesAll(s, hb, entered, h, i, depth, c);
      CandidatesFall(s, hb, entered, h, i, depth);
      var k :| 0 <= k < |cs| && cs[k] == c;
      PickLongest(s, i, cs, MIN_MATCH - 1, 0, k);
    }
  }

  /** Positions that agree over four bytes have the same hash. */
  lemma SameHash(s: seq<byte>, hb: nat, i: nat, c: nat)
    requires c < i && i + 4 <= |s| && 1 <= hb <= 15 && Common(s, i, c, Most(s, i), 0) >= MIN_MATCH
    ensures Hash(s, c, hb) == Hash(s, i, hb)
  {
    hide Common;
    var n := Common(s, i, c, Most(s, i), 0);
    assert s[i] == s[c] && s[i + 1] == s[c + 1] && s[i + 2] == s[c + 2] && s[i + 3] == s[c + 3];
    assert Load32(s, c) == Load32(s, i);
  }

  lemma PickFirst(s: seq<byte>, i: nat, c: nat, cs: seq<nat>, len: nat, dist: nat)
    requires c < i <= |s| && forall k :: 0 <= k < |cs| ==> cs[k] < i
    ensures var l := Common(s, i, c, Most(s, i), 0);
            Pick(s, i, [c] + cs, len, dist)
            == if i - c > WINDOW_SIZE then (len, dist) else if l <= len then Pick(s, i, cs, len, dist)
               else if l >= NICE_MATCH || l >= Most(s, i) then (l, i - c) else Pick(s, i, cs, l, i - c)
  {
    hide Common, Most;
    assert ([c] + cs)[1..] == cs;
  }

  /** One more link of the chain. */
  lemma CandidatesNext(s: seq<byte>, hb: nat, entered: set<nat>, h: nat, cand: nat, depth: nat)
    requires Positions(s, entered) && 1 <= hb <= 15 && cand == Top(s, hb, entered, h, cand)
    ensures cand == 0 || depth == 0 ==> Candidates(s, hb, entered, h, cand, depth) == []
    ensures cand > 0 && depth > 0 ==>
              Candidates(s, hb, entered, h, cand, depth)
              == [cand - 1] + Candidates(s, hb, entered, h, Top(s, hb, entered, h, cand - 1), depth - 1)
  {
    hide Top;
    if cand > 0 && depth > 0 {
      CandidatesAtTop(s, hb, entered, h, cand - 1, depth - 1);
    }
  }

  lemma CandidatesAtTop(s: seq<byte>, hb: nat, entered: set<nat>, h: nat, below: nat, depth: nat)
    requires Positions(s, entered) && 1 <= hb <= 15
    ensures Candidates(s, hb, entered, h, Top(s, hb, entered, h, below), depth)
         == Candidates(s, hb, entered, h, below, depth)
  {
    hide Top;
    TopAtTop(s, hb, entered, h, below);
  }

  /** Positions i and i - dist agree over len bytes. */
  ghost predicate Agrees(s: seq<byte>, i: nat, dist: nat, len: nat) {
    i + len <= |s| && 1 <= dist <= i && forall k :: i <= k < i + len ==> s[k] == s[k - dist]
  }

  /** A usable match at i. */
  ghost predicate Usable(s: seq<byte>, i: nat, len: nat, dist: nat) {
    MIN_MATCH <= len <= MAX_MATCH && dist <= WINDOW_SIZE && Agrees(s, i, dist, len)
  }

  /** The length of the match of i with i - dist, eight bytes at a time and then one. */
  method Extend(s: seq<byte>, i: nat, dist: nat, maxLen: nat) returns (l: nat)
    requires 4 <= maxLen && i + maxLen <= |s| && 1 <= dist <= i
    requires Load32(s, i - dist) == Load32(s, i)
    ensures 4 <= l <= maxLen && Agrees(s, i, dist, l)
    ensures l == Common(s, i, i - dist, maxLen, 0)
  {
    hide Load32;
    Load32Equal(s, i - dist, i);
    var c := i - dist;
    l := 4;
    while l + 8 <= maxLen && s[c + l..c + l + 8] == s[i + l..i + l + 8]
      invariant 4 <= l <= maxLen && Agrees(s, i, dist, l)
    {
      SliceAgrees(s, c, i, l);
      l := l + 8;
    }
    while l < maxLen && s[c + l] == s[i + l]
      invariant 4 <= l <= maxLen && Agrees(s, i, dist, l)
    {
      l := l + 1;
    }
    CommonIs(s, i, c, maxLen, 0, l);
  }

  lemma {:induction false} CommonIs(s: seq<byte>, i: nat, c: nat, max: nat, from: nat, l: nat)
    requires c < i && i + max <= |s| && from <= l <= max && Agrees(s, i, i - c, l) && (l < max ==> s[c + l] != s[i + l])
    ensures Common(s, i, c, max, from) == l
    decreases l - from
  {
    if from < l {
      assert s[i + from] == s[c + from];
      CommonIs(s, i, c, max, from + 1, l);
    }
  }

  lemma CommonSame(s: seq<byte>, i: nat, c: nat, max: nat, len: nat)
    requires c < i && i + max <= |s| && 3 <= len < Common(s, i, c, max, 0)
    ensures s[i + len] == s[c + len] && Load32(s, c) == Load32(s, i)
  {
    hide Common;
    assert s[i] == s[c] && s[i + 1] == s[c + 1] && s[i + 2] == s[c + 2] && s[i + 3] == s[c + 3];
  }

  /** A candidate that fails the quick test has no longer match. */
  lemma QuickTest(s: seq<byte>, i: nat, c: nat, max: nat, len: nat)
    requires c < i && i + max <= |s| && 3 <= len < max && (s[c + len] != s[i + len] || Load32(s, c) != Load32(s, i))
    ensures Common(s, i, c, max, 0) <= len
  {
    hide Common, Load32;
    if Common(s, i, c, max, 0) > len {
      CommonSame(s, i, c, max, len);
    }
  }

  /** The match with a candidate, when it is longer than len. */
  method Compare(s: seq<byte>, i: nat, c: nat, maxLen: nat, len: nat) returns (l: nat)
    requires c < i && i + maxLen <= |s| && 3 <= len < maxLen
    ensures l <= maxLen && (l > len ==> l == Common(s, i, c, maxLen, 0) && Agrees(s, i, i - c, l))
    ensures l <= len ==> Common(s, i, c, maxLen, 0) <= len
  {
    hide Load32, Common, Agrees;
    if s[c + len] == s[i + len] && Load32(s, c) == Load32(s, i) {
      l := Extend(s, i, i - c, maxLen);
    } else {
      QuickTest(s, i, c, maxLen, len);
      l := 0;
    }
  }

  lemma SliceAgrees(s: seq<byte>, c: nat, i: nat, l: nat)
    requires c <= i && i + l + 8 <= |s| && s[c + l..c + l + 8] == s[i + l..i + l + 8]
    ensures forall k :: i + l <= k < i + l + 8 ==> s[k] == s[k - (i - c)]
  {
    forall k | i + l <= k < i + l + 8
      ensures s[k] == s[k - (i - c)]
    {
      assert s[k] == s[i + l..i + l + 8][k - i - l];
      assert s[k - (i - c)] == s[c + l..c + l + 8][k - i - l];
    }
  }

  /** The chain tables of a Deflater, with the positions entered since they were cleared. */
  class ChainTables {
    const head: array<nat>
    const prev: array<nat>
    ghost var entered: set<nat>

    /** The storage alone: what it holds is what the allocator left. */
    constructor ()
      ensures Storage() && fresh(head) && fresh(prev)
    {
      head := new nat[Pow2(MAX_HASH_BITS)];
      prev := new nat[MAX_CHUNK + 1];
      entered := {};
      new;
      HeadFits(MAX_HASH_BITS);
    }

    ghost predicate Storage() {
      head.Length == 32768 && prev.Length == MAX_CHUNK + 1 && head != prev
    }

    /** Chains over the first 2^hb heads, every entered position below bound. */
    ghost predicate Valid(s: seq<byte>, hb: nat, bound: nat)
      reads this, head, prev
    {
      && Storage() && 10 <= hb <= MAX_HASH_BITS && Pow2(hb) <= head.Length
      && Chains(s, hb, head[..Pow2(hb)], prev[..], entered, bound)
    }

    /** Clears the heads in use. */
    method Clear(hb: nat, ghost s: seq<byte>)
      requires Storage() && 10 <= hb <= MAX_HASH_BITS
      modifies this, head
      ensures Valid(s, hb, 0) && entered == {}
    {
      HeadFits(hb);
      forall h | 0 <= h < Pow2(hb) {
        head[h] := 0;
      }
      entered := {};
    }

    /** Enters position i at the front of its chain. */
    method Insert(s: seq<byte>, i: nat, hb: nat)
      requires Valid(s, hb, i) && i + 4 <= |s| <= MAX_CHUNK
      modifies this, head, prev
      ensures Valid(s, hb, i + 1)
      ensures entered == old(entered) + {i}
      ensures forall c :: 0 <= c < prev.Length && c != i ==> prev[c] == old(prev[c])
    {
      hide Pow2, Hash, Chains;
      var h := Hash(s, i, hb);
      ChainsEnter(s, hb, head[..Pow2(hb)], prev[..], entered, i, i);
      ghost var heads: seq<nat>, links: seq<nat> := head[..Pow2(hb)], prev[..];
      prev[i] := head[h];
      head[h] := i + 1;
      entered := entered + {i};
      assert head[..Pow2(hb)] == heads[h := i + 1] && prev[..] == links[i := heads[h]];
    }

    lemma EnteredFit(s: seq<byte>, hb: nat, bound: nat)
      requires Valid(s, hb, bound)
      ensures Positions(s, entered) && 10 <= hb <= MAX_HASH_BITS && Storage()
    {
    }

    /** What the chains hold, before position i is entered. */
    lemma ChainFacts(s: seq<byte>, i: nat, hb: nat)
      requires Valid(s, hb, i) && i + 4 <= |s|
      ensures Positions(s, entered) && Hash(s, i, hb) < head.Length
      ensures head[Hash(s, i, hb)] == Top(s, hb, entered, Hash(s, i, hb), i)
      ensures forall c :: c in entered ==> c < i && prev[c] == Top(s, hb, entered, Hash(s, c, hb), c)
    {
      hide Pow2, Hash, Top;
      assert head[Hash(s, i, hb)] == head[..Pow2(hb)][Hash(s, i, hb)];
    }

    /** The longest earlier match the chain yields within its depth, (0, 0) when none
        reaches four bytes; i is entered. */
    method Find(s: seq<byte>, i: nat, hb: nat, depthMax: nat) returns (len: nat, dist: nat)
      requires Valid(s, hb, i) && i + 4 <= |s| <= MAX_CHUNK
      modifies this, head, prev
      ensures Valid(s, hb, i + 1) && entered == old(entered) + {i}
      ensures Positions(s, old(entered)) && (len, dist) == Found(s, hb, old(entered), i, depthMax)
      ensures (len == 0 && dist == 0) || Usable(s, i, len, dist)
    {
      hide Pow2, Hash, Load32, Chains, Pick, Top, Candidates, Common, Usable;
      ghost var before, h := entered, Hash(s, i, hb);
      ChainFacts(s, i, hb);
      var cand := head[Hash(s, i, hb)];
      TopAtTop(s, hb, before, h, i);
      CandidatesAtTop(s, hb, before, h, i, depthMax);
      Insert(s, i, hb);
      len, dist := Search(s, i, hb, cand, depthMax, before);
      if len < MIN_MATCH {
        len, dist := 0, 0;
      }
    }

    /** The loop of find, down the links from cand. */
    method Search(s: seq<byte>, i: nat, hb: nat, cand: nat, depthMax: nat, ghost before: set<nat>)
        returns (len: nat, dist: nat)
      requires Storage() && 1 <= hb <= 15 && i + 4 <= |s| <= MAX_CHUNK && Linked(s, hb, prev[..], before)
      requires cand <= i && cand == Top(s, hb, before, Hash(s, i, hb), cand)
      ensures (len, dist) == SearchFrom(s, i, hb, before, cand, depthMax, MIN_MATCH - 1, 0)
      ensures (len == MIN_MATCH - 1 && dist == 0) || Usable(s, i, len, dist)
    {
      hide Pick, Candidates, Top, Hash, Common, Usable, Agrees, Positions, Most, Load32, Pow2;
      hide Linked, SearchFrom;
      LinkedPositions(s, hb, prev[..], before);
      var maxLen := if |s| - i < MAX_MATCH then |s| - i else MAX_MATCH;
      MostIs(s, i);
      len, dist := MIN_MATCH - 1, 0;
      var c, depth := cand, depthMax;
      ghost var best := SearchFrom(s, i, hb, before, cand, depthMax, len, dist);
      while c > 0 && depth > 0
        invariant 0 <= c <= i && c == Top(s, hb, before, Hash(s, i, hb), c)
        invariant MIN_MATCH - 1 <= len < maxLen
        invariant (len == MIN_MATCH - 1 && dist == 0) || Usable(s, i, len, dist)
        invariant SearchFrom(s, i, hb, before, c, depth, len, dist) == best
        decreases depth
      {
        var at := c - 1;
        SearchOn(s, i, hb, prev[..], before, at, depth, len, dist, Common(s, i, at, maxLen, 0), prev[at]);
        if i - at > WINDOW_SIZE {
          return;
        }
        var l := Compare(s, i, at, maxLen, len);
        if l > len {
          len, dist := l, i - at;
          UsableIs(s, i, len, dist);
          if l >= NICE_MATCH || l >= maxLen {
            return;
          }
        }
        c := prev[at];
        depth := depth - 1;
      }
      SearchEnds(s, i, hb, before, c, depth, len, dist);
    }
  }

  /** The match found from cand on, the best so far given. */
  ghost function SearchFrom(s: seq<byte>, i: nat, hb: nat, before: set<nat>, cand: nat, depth: nat, len: nat,
                            dist: nat): (nat, nat)
    requires Positions(s, before) && 1 <= hb <= 15 && i + 4 <= |s| && cand <= i
  {
    Pick(s, i, Candidates(s, hb, before, Hash(s, i, hb), cand, depth), len, dist)
  }

  lemma SearchEnds(s: seq<byte>, i: nat, hb: nat, before: set<nat>, cand: nat, depth: nat, len: nat, dist: nat)
    requires Positions(s, before) && 1 <= hb <= 15 && i + 4 <= |s| && cand <= i && (cand == 0 || depth == 0)
    ensures SearchFrom(s, i, hb, before, cand, depth, len, dist) == (len, dist)
  {
    hide Hash;
  }

  /** One candidate, with l bytes in common. */
  lemma SearchOn(s: seq<byte>, i: nat, hb: nat, links: seq<nat>, before: set<nat>, at: nat, depth: nat, len: nat,
                 dist: nat, l: nat, next: nat)
    requires 1 <= hb <= 15 && Linked(s, hb, links, before) && Positions(s, before) && i + 4 <= |s| && depth > 0
    requires at < i && at + 1 == Top(s, hb, before, Hash(s, i, hb), at + 1) && at < |links| && next == links[at]
    requires l == Common(s, i, at, Most(s, i), 0)
    ensures next <= at && next == Top(s, hb, before, Hash(s, i, hb), next)
    ensures i - at > WINDOW_SIZE ==> SearchFrom(s, i, hb, before, at + 1, depth, len, dist) == (len, dist)
    ensures i - at <= WINDOW_SIZE && l > len && (l >= NICE_MATCH || l >= Most(s, i)) ==>
              SearchFrom(s, i, hb, before, at + 1, depth, len, dist) == (l, i - at)
    ensures i - at <= WINDOW_SIZE && l > len && l < NICE_MATCH && l < Most(s, i) ==>
              SearchFrom(s, i, hb, before, at + 1, depth, len, dist)
              == SearchFrom(s, i, hb, before, next, depth - 1, l, i - at)
    ensures i - at <= WINDOW_SIZE && l <= len ==>
              SearchFrom(s, i, hb, before, at + 1, depth, len, dist)
              == SearchFrom(s, i, hb, before, next, depth - 1, len, dist)
  {
    hide Hash, Common, Most, Top, Pick, Candidates, Linked;
    var h := Hash(s, i, hb);
    CandidatesNext(s, hb, before, h, at + 1, depth);
    LinkAt(s, hb, links, before, h, at + 1);
    PickFirst(s, i, at, Candidates(s, hb, before, h, next, depth - 1), len, dist);
  }

  lemma MostIs(s: seq<byte>, i: nat)
    requires i + 4 <= |s|
    ensures Most(s, i) == (if |s| - i < MAX_MATCH then |s| - i else MAX_MATCH) && 4 <= Most(s, i) <= MAX_MATCH
  {
  }

  lemma UsableIs(s: seq<byte>, i: nat, len: nat, dist: nat)
    requires MIN_MATCH <= len <= MAX_MATCH && dist <= WINDOW_SIZE && Agrees(s, i, dist, len)
    ensures Usable(s, i, len, dist)
  {
  }

  /** Each entered position's link names the one before it with the same hash. */
  ghost predicate Linked(s: seq<byte>, hb: nat, links: seq<nat>, entered: set<nat>)
    requires 1 <= hb <= 15
  {
    && Positions(s, entered)
    && forall c :: c in entered ==> c < |links| && links[c] == Top(s, hb, entered, Hash(s, c, hb), c)
  }

  lemma LinkedPositions(s: seq<byte>, hb: nat, links: seq<nat>, entered: set<nat>)
    requires 1 <= hb <= 15 && Linked(s, hb, links, entered)
    ensures Positions(s, entered)
  {
  }

  lemma LinkAt(s: seq<byte>, hb: nat, links: seq<nat>, entered: set<nat>, h: nat, c: nat)
    requires 1 <= hb <= 15 && Linked(s, hb, links, entered) && Positions(s, entered)
    requires 0 < c == Top(s, hb, entered, h, c)
    ensures c - 1 < |links| && links[c - 1] == Top(s, hb, entered, h, c - 1)
    ensures var t := Top(s, hb, entered, h, c - 1); t < c && t == Top(s, hb, entered, h, t)
  {
    hide Hash;
    TopAtTop(s, hb, entered, h, c - 1);
  }

  lemma HeadFits(hb: nat)
    requires hb <= MAX_HASH_BITS
    ensures Pow2(hb) <= 32768 && Pow2(MAX_HASH_BITS) == 32768
  {
    Pow2Eight();
    Pow2Add(8, 7);
    assert Pow2(7) == 128;
    Pow2Mono(hb, 15);
  }
}
