/** One chunk's sequences (chunk in http1/deflate.v): matched, packed into words and
    counted. */
module Chunk {
  import opened Basics
  import opened Bits
  import opened Tokens
  import opened Lz77

  /** The literal/length symbol of a token. */
  function LitSymbol(t: Token): (s: nat)
    requires t.Sound()
    ensures s < 286 && s != 256
  {
    match t
    case Literal(b) => b
    case Match(len, _) => 257 + LenSym(len)
  }

  ghost predicate AllSound(ts: seq<Token>) {
    forall k :: 0 <= k < |ts| ==> ts[k].Sound()
  }

  /** How many tokens use literal/length symbol s. */
  ghost function LitUses(ts: seq<Token>, s: nat): (n: nat)
    requires AllSound(ts)
    ensures n <= |ts|
  {
    if ts == [] then 0 else
      var m := |ts| - 1;
      LitUses(ts[..m], s) + if LitSymbol(ts[m]) == s then 1 else 0
  }

  /** How many tokens use distance symbol s. */
  ghost function DistUses(ts: seq<Token>, s: nat): (n: nat)
    requires AllSound(ts)
    ensures n <= |ts|
  {
    if ts == [] then 0 else
      var m := |ts| - 1;
      DistUses(ts[..m], s) + if ts[m].Match? && DistSym(ts[m].dist) == s then 1 else 0
  }

  lemma UsesPush(ts: seq<Token>, t: Token, s: nat)
    requires AllSound(ts) && t.Sound()
    ensures AllSound(ts + [t])
    ensures LitUses(ts + [t], s) == LitUses(ts, s) + if LitSymbol(t) == s then 1 else 0
    ensures DistUses(ts + [t], s) == DistUses(ts, s) + if t.Match? && DistSym(t.dist) == s then 1 else 0
  {
    hide LitSymbol, DistSym;
    assert (ts + [t])[..|ts|] == ts;
  }

  /** A token as a 32-bit word: a literal byte, or bit 31, the distance symbol from bit
      25, the length from bit 16 and the distance. */
  function Pack(t: Token): (w: nat)
    requires t.Sound()
    ensures w < 4294967296
  {
    match t
    case Literal(b) => b
    case Match(len, dist) => 2147483648 + DistSym(dist) * 33554432 + len * 65536 + dist
  }

  /** The fields block reads back from a word. */
  lemma PackFields(t: Token)
    requires t.Sound()
    ensures var w := Pack(t);
            match t
            case Literal(b) => w / 2147483648 == 0 && w == b
            case Match(len, dist) =>
              w / 2147483648 == 1 && (w / 65536) % 512 == len && w % 65536 == dist
              && (w / 33554432) % 32 == DistSym(dist)
  {
    hide DistSym;
    match t
    case Literal(b) =>
    case Match(len, dist) =>
      MatchFields(DistSym(dist), len, dist);
  }

  lemma MatchFields(ds: nat, len: nat, dist: nat)
    requires ds < 32 && len < 512 && dist < 65536
    ensures var w := 2147483648 + ds * 33554432 + len * 65536 + dist;
            w / 2147483648 == 1 && (w / 65536) % 512 == len && w % 65536 == dist && (w / 33554432) % 32 == ds
  {
    var w := 2147483648 + ds * 33554432 + len * 65536 + dist;
    DivUnique(w, 65536, 32768 + ds * 512 + len, dist);
    DivUnique(32768 + ds * 512 + len, 512, 64 + ds, len);
    DivUnique(w, 33554432, 64 + ds, len * 65536 + dist);
    DivUnique(64 + ds, 32, 2, ds);
    DivUnique(w, 2147483648, 1, ds * 33554432 + len * 65536 + dist);
  }

  /** The chunk's words and symbol counts. */
  class Sequences {
    const words: array<nat>
    const litFreq: array<nat>
    const distFreq: array<nat>
    var ns: nat
    ghost var tokens: seq<Token>

    ghost predicate Storage() {
      && words.Length == MAX_CHUNK && litFreq.Length == 286 && distFreq.Length == 30
      && litFreq != distFreq && words != litFreq && words != distFreq
    }

    ghost predicate Valid()
      reads this, words, litFreq, distFreq
    {
      && Storage() && ns == |tokens| <= MAX_CHUNK && AllSound(tokens)
      && (forall k :: 0 <= k < ns ==> words[k] == Pack(tokens[k]))
      && (forall s :: 0 <= s < 286 ==> litFreq[s] == LitUses(tokens, s))
      && (forall s :: 0 <= s < 30 ==> distFreq[s] == DistUses(tokens, s))
    }

    constructor ()
      ensures Valid() && tokens == [] && fresh(words) && fresh(litFreq) && fresh(distFreq)
    {
      words := new nat[MAX_CHUNK];
      litFreq := new nat[286](_ => 0);
      distFreq := new nat[30](_ => 0);
      ns := 0;
      tokens := [];
    }

    /** Empties it for a new chunk. */
    method Reset()
      requires Storage()
      modifies this, litFreq, distFreq
      ensures Valid() && tokens == []
    {
      forall s | 0 <= s < 286 {
        litFreq[s] := 0;
      }
      forall s | 0 <= s < 30 {
        distFreq[s] := 0;
      }
      ns := 0;
      tokens := [];
    }

    lemma Count()
      requires Valid()
      ensures ns == |tokens| && Storage()
    {
    }

    method AddLiteral(b: byte)
      requires Valid() && ns < MAX_CHUNK
      modifies this, words, litFreq
      ensures Valid() && tokens == old(tokens) + [Literal(b)]
    {
      hide LitUses, DistUses, DistSym, LenSym;
      ghost var t := Literal(b);
      ghost var was := tokens;
      forall s ensures AllSound(was + [t]) && LitUses(was + [t], s) == LitUses(was, s) + (if s == b then 1 else 0)
                       && DistUses(was + [t], s) == DistUses(was, s) {
        UsesPush(was, t, s);
      }
      litFreq[b] := litFreq[b] + 1;
      words[ns] := b;
      ns := ns + 1;
      tokens := tokens + [t];
    }

    method AddMatch(len: nat, dist: nat)
      requires Valid() && ns < MAX_CHUNK && Match(len, dist).Sound()
      modifies this, words, litFreq, distFreq
      ensures Valid() && tokens == old(tokens) + [Match(len, dist)]
    {
      hide LitUses, DistUses, DistSym, LenSym;
      var t := Match(len, dist);
      ghost var was := tokens;
      var ls, ds := LenSym(len), DistSym(dist);
      forall s ensures AllSound(was + [t])
                       && LitUses(was + [t], s) == LitUses(was, s) + (if s == 257 + ls then 1 else 0)
                       && DistUses(was + [t], s) == DistUses(was, s) + (if s == ds then 1 else 0) {
        UsesPush(was, t, s);
      }
      litFreq[257 + ls] := litFreq[257 + ls] + 1;
      distFreq[ds] := distFreq[ds] + 1;
      words[ns] := Pack(t);
      ns := ns + 1;
      tokens := tokens + [t];
    }
  }

  /** Copying an agreeing match rebuilds the source. */
  lemma {:induction false} CopyRebuilds(prior: seq<byte>, s: seq<byte>, i: nat, dist: nat, len: nat)
    requires Agrees(s, i, dist, len)
    ensures Copy(prior + s[..i], dist, len) == prior + s[..i + len]
    decreases len
  {
    var out := prior + s[..i];
    if len > 0 {
      assert out[|out| - dist] == s[i - dist] == s[i];
      assert out + [s[i]] == prior + s[..i + 1];
      CopyRebuilds(prior, s, i + 1, dist, len - 1);
    }
  }

  /** What the matching loop keeps: the tokens so far expand to the first i bytes, from
      any output before them. */
  ghost predicate Covers(ts: seq<Token>, prior: seq<byte>, s: seq<byte>, i: nat) {
    && i <= |s| && Expand(ts, prior) == Some(prior + s[..i]) && |ts| <= i
    && (forall k :: 0 <= k < |ts| ==> ts[k].Match? ==> MIN_MATCH <= ts[k].len <= MAX_MATCH && ts[k].dist <= WINDOW_SIZE)
  }

  lemma CoversLiteral(ts: seq<Token>, prior: seq<byte>, s: seq<byte>, i: nat)
    requires Covers(ts, prior, s, i) && i < |s|
    ensures Covers(ts + [Literal(s[i])], prior, s, i + 1)
  {
    hide Expand;
    ExpandPush(ts, Literal(s[i]), prior);
    assert prior + s[..i] + [s[i]] == prior + s[..i + 1];
  }

  lemma CoversMatch(ts: seq<Token>, prior: seq<byte>, s: seq<byte>, i: nat, len: nat, dist: nat)
    requires Covers(ts, prior, s, i) && Usable(s, i, len, dist)
    ensures Covers(ts + [Match(len, dist)], prior, s, i + len)
  {
    hide Expand, Copy;
    ExpandPush(ts, Match(len, dist), prior);
    CopyRebuilds(prior, s, i, dist, len);
  }

  /** The positions from a up to b. */
  ghost function Range(a: nat, b: nat): (r: set<nat>)
    ensures forall k :: k in r <==> a <= k < b
  {
    if b <= a then {} else Range(a, b - 1) + {b - 1}
  }

  function Literals(s: seq<byte>, a: nat, b: nat): (ts: seq<Token>)
    requires a <= b <= |s|
    ensures |ts| == b - a
  {
    seq(b - a, k requires 0 <= k < b - a => Literal(s[a + k]))
  }

  /** How far a search goes for a match better than one of len bytes. */
  function Depth(len: nat): nat {
    if len >= 8 then 1 else 4
  }

  /** A match held at position i, the positions entered, and the next one to enter. */
  datatype Held = Held(i: nat, len: nat, dist: nat, ins: nat, entered: set<nat>)

  /** The match held in the end, i's being entered: while the next position has a longer
      one, that. */
  ghost function Lazy(s: seq<byte>, hb: nat, entered: set<nat>, i: nat, len: nat, dist: nat): (h: Held)
    requires Positions(s, entered) && 1 <= hb <= 15 && i + len <= |s| && len >= MIN_MATCH
    ensures Positions(s, h.entered) && i <= h.i && MIN_MATCH <= h.len && h.i + h.len <= |s| && h.ins <= h.i + 2
    decreases |s| - i
  {
    if len >= 32 || i + 1 + 4 > |s| then Held(i, len, dist, i + 1, entered) else
      var m := Found(s, hb, entered, i + 1, Depth(len));
      var more := entered + {i + 1};
      if m.0 <= len then Held(i, len, dist, i + 2, more) else Lazy(s, hb, more, i + 1, m.0, m.1)
  }

  /** Every literal put before a match is paid for: the match is at least so much longer. It
      stays where it is because it is long enough, the end is near, or the next position has
      no longer one. */
  lemma {:induction false} LazyPays(s: seq<byte>, hb: nat, entered: set<nat>, i: nat, len: nat, dist: nat)
    requires Positions(s, entered) && 1 <= hb <= 15 && i + len <= |s| && len >= MIN_MATCH
    ensures var h := Lazy(s, hb, entered, i, len, dist);
            && h.len >= len + (h.i - i)
            && (h.len < NICE_MATCH && h.i + 1 + MIN_MATCH <= |s| ==> Beaten(s, hb, h))
    decreases |s| - i
  {
    hide Found;
    if len < NICE_MATCH && i + 1 + MIN_MATCH <= |s| {
      var m := Found(s, hb, entered, i + 1, Depth(len));
      if m.0 > len {
        LazyPays(s, hb, entered + {i + 1}, i + 1, m.0, m.1);
      } else {
        var h := Lazy(s, hb, entered, i, len, dist);
        assert h.entered == entered + {i + 1} && Found(s, hb, entered, h.i + 1, Depth(h.len)).0 <= h.len;
      }
    }
  }

  /** The search at the next position found no longer match. */
  ghost predicate Beaten(s: seq<byte>, hb: nat, h: Held)
    requires 1 <= hb <= 15 && h.i + 1 + MIN_MATCH <= |s|
  {
    exists e: set<nat> ::
      Positions(s, e) && h.entered == e + {h.i + 1} && Found(s, hb, e, h.i + 1, Depth(h.len)).0 <= h.len
  }

  /** The positions entered once those up to i are, and i. */
  ghost function Enter(s: seq<byte>, entered: set<nat>, ins: nat, i: nat): (all: set<nat>)
    requires Positions(s, entered) && ins <= i && i + MIN_MATCH <= |s|
    ensures Positions(s, all)
  {
    entered + Range(ins, i) + {i}
  }

  /** The positions up to i are entered, and a match at i is looked for. */
  ghost function Look(s: seq<byte>, hb: nat, entered: set<nat>, ins: nat, i: nat): (m: (nat, nat))
    requires Positions(s, entered) && 1 <= hb <= 15 && ins <= i && i + MIN_MATCH <= |s|
    ensures (m.0 == 0 || m.0 >= MIN_MATCH) && i + m.0 <= |s|
  {
    Found(s, hb, entered + Range(ins, i), i, 4)
  }

  /** The tokens from position i on, with the positions entered and the next to enter:
      literals, and the matches held in the end with the literals before them; positions
      within a match of more than four bytes are not entered. */
  ghost function Parse(s: seq<byte>, hb: nat, entered: set<nat>, ins: nat, i: nat): seq<Token>
    requires Positions(s, entered) && 1 <= hb <= 15 && ins <= i <= |s|
    decreases |s| - i
  {
    if i == |s| then []
    else if i + 4 > |s| then [Literal(s[i])] + Parse(s, hb, entered, ins, i + 1)
    else
      var all, m := Enter(s, entered, ins, i), Look(s, hb, entered, ins, i);
      if m.0 < 4 then [Literal(s[i])] + Parse(s, hb, all, i + 1, i + 1)
      else
        var h := Lazy(s, hb, all, i, m.0, m.1);
        var next := h.i + h.len;
        Literals(s, i, h.i) + [Match(h.len, h.dist)]
        + Parse(s, hb, h.entered, if h.len > 4 then next else h.ins, next)
  }

  /** The tokens of a chunk. */
  ghost function Matches(s: seq<byte>): seq<Token> {
    Parse(s, HashBitsFor(|s|, 10), {}, 0, 0)
  }

  /** The lazy step: while a longer match starts one byte on, a literal goes out and the
      longer match is held instead. */
  method LazyStep(q: Sequences, t: ChainTables, s: seq<byte>, i: nat, len: nat, dist: nat, hb: nat,
                  ghost prior: seq<byte>)
      returns (i': nat, len': nat, dist': nat, ins: nat)
    requires q.Valid() && t.Valid(s, hb, i + 1) && Disjoint(q, t) && |s| <= MAX_CHUNK
    requires Covers(q.tokens, prior, s, i) && Usable(s, i, len, dist)
    modifies q, q.words, q.litFreq, t, t.head, t.prev
    ensures q.Valid() && t.Valid(s, hb, ins) && i < i' + 1 && ins <= i' + 2
    ensures Covers(q.tokens, prior, s, i') && Usable(s, i', len', dist')
    ensures i' <= |s| && q.tokens == old(q.tokens) + Literals(s, i, i')
    ensures Positions(s, old(t.entered)) && MIN_MATCH <= len && i + len <= |s|
    ensures Held(i', len', dist', ins, t.entered) == Lazy(s, hb, old(t.entered), i, len, dist)
  {
    hide Covers, Usable, Chains, LitUses, DistUses, Pack, Pow2, Found, Positions, Lazy, Literals;
    hide ChainTables.Valid, Sequences.Valid;
    i', len', dist', ins := i, len, dist, i + 1;
    UsableFacts(s, i', len', dist');
    t.EnteredFit(s, hb, i + 1);
    NoLiterals(s, i);
    while len' < NICE_MATCH && i' + 1 + MIN_MATCH <= |s|
      invariant q.Valid() && t.Valid(s, hb, ins) && ins == i' + 1 && i <= i'
      invariant Covers(q.tokens, prior, s, i') && Usable(s, i', len', dist')
      invariant MIN_MATCH <= len' && i' + len' <= |s| && Positions(s, t.entered) && 10 <= hb <= 15
      invariant q.tokens == old(q.tokens) + Literals(s, i, i')
      invariant Lazy(s, hb, t.entered, i', len', dist') == Lazy(s, hb, old(t.entered), i, len, dist)
      decreases |s| - i'
    {
      var depth := if len' >= GOOD_MATCH then SEARCH_DEPTH / 4 else SEARCH_DEPTH;
      ghost var before := t.entered;
      var len2, dist2 := t.Find(s, i' + 1, hb, depth);
      ins := i' + 2;
      LazyNext(s, hb, before, i', len', dist', len2, dist2);
      t.EnteredFit(s, hb, ins);
      if len2 <= len' {
        return;
      }
      CoversFacts(q.tokens, prior, s, i');
      q.Count();
      CoversLiteral(q.tokens, prior, s, i');
      q.AddLiteral(s[i']);
      MoreLiterals(old(q.tokens), s, i, i');
      i' := i' + 1;
      len', dist' := len2, dist2;
      UsableFacts(s, i', len', dist');
    }
    LazyStays(s, hb, t.entered, i', len', dist');
  }

  lemma NoLiterals(s: seq<byte>, i: nat)
    requires i <= |s|
    ensures forall ts: seq<Token> :: ts + Literals(s, i, i) == ts
  {
  }

  lemma MoreLiterals(ts: seq<Token>, s: seq<byte>, i: nat, j: nat)
    requires i <= j < |s|
    ensures ts + Literals(s, i, j) + [Literal(s[j])] == ts + Literals(s, i, j + 1)
  {
  }

  lemma LazyStays(s: seq<byte>, hb: nat, entered: set<nat>, i: nat, len: nat, dist: nat)
    requires Positions(s, entered) && 1 <= hb <= 15 && i + len <= |s| && len >= MIN_MATCH
    requires len >= NICE_MATCH || i + 1 + MIN_MATCH > |s|
    ensures Lazy(s, hb, entered, i, len, dist) == Held(i, len, dist, i + 1, entered)
  {
  }

  lemma LazyNext(s: seq<byte>, hb: nat, entered: set<nat>, i: nat, len: nat, dist: nat, len2: nat, dist2: nat)
    requires Positions(s, entered) && 1 <= hb <= 15 && i + len <= |s| && MIN_MATCH <= len < NICE_MATCH
    requires i + 1 + MIN_MATCH <= |s| && (len2, dist2) == Found(s, hb, entered, i + 1, Depth(len))
    ensures Positions(s, entered + {i + 1}) && i + 1 + len2 <= |s|
    ensures Lazy(s, hb, entered, i, len, dist)
         == if len2 <= len then Held(i, len, dist, i + 2, entered + {i + 1})
            else Lazy(s, hb, entered + {i + 1}, i + 1, len2, dist2)
  {
    hide Found;
  }

  ghost predicate Disjoint(q: Sequences, t: ChainTables) {
    {q.words, q.litFreq, q.distFreq} !! {t.head, t.prev}
  }

  lemma UsableFacts(s: seq<byte>, i: nat, len: nat, dist: nat)
    requires Usable(s, i, len, dist)
    ensures MIN_MATCH <= len <= MAX_MATCH && i + len <= |s| && 1 <= dist <= WINDOW_SIZE && Match(len, dist).Sound()
  {
  }

  lemma CoversFacts(ts: seq<Token>, prior: seq<byte>, s: seq<byte>, i: nat)
    requires Covers(ts, prior, s, i)
    ensures |ts| <= i <= |s|
  {
  }

  /** Enters the positions from ins up to i. */
  method InsertUpTo(t: ChainTables, s: seq<byte>, ins: nat, i: nat, hb: nat)
    requires t.Valid(s, hb, ins) && ins <= i && i + MIN_MATCH <= |s| <= MAX_CHUNK
    modifies t, t.head, t.prev
    ensures t.Valid(s, hb, i) && t.entered == old(t.entered) + Range(ins, i)
  {
    for k := ins to i
      invariant t.Valid(s, hb, k) && t.entered == old(t.entered) + Range(ins, k)
    {
      t.Insert(s, k, hb);
    }
  }

  /** The number of hash bits for n bytes, from hb on. */
  function HashBitsFor(n: nat, hb: nat): (r: nat)
    requires hb <= 15
    ensures hb <= r <= 15
    decreases 15 - hb
  {
    if hb < 15 && Pow2(hb) < n then HashBitsFor(n, hb + 1) else hb
  }

  method HashBits(n: nat) returns (hb: nat)
    ensures hb == HashBitsFor(n, 10)
  {
    hb := 10;
    while hb < MAX_HASH_BITS && Pow2(hb) < n
      invariant 10 <= hb <= MAX_HASH_BITS && HashBitsFor(n, hb) == HashBitsFor(n, 10)
    {
      hb := hb + 1;
    }
  }

  /** chunk's matching loop: the tokens expand to the chunk after any output before it,
      every match 4 to 258 bytes from at most 32768 back. */
  method MatchChunk(q: Sequences, t: ChainTables, s: seq<byte>, ghost prior: seq<byte>)
    requires q.Storage() && t.Storage() && Disjoint(q, t) && |s| <= MAX_CHUNK
    modifies q, q.words, q.litFreq, q.distFreq, t, t.head, t.prev
    ensures q.Valid() && Covers(q.tokens, prior, s, |s|) && q.tokens == Matches(s)
  {
    hide Covers, Usable, Chains, LitUses, DistUses, Pack, Pow2, Lazy, Found, Range, Literals, Positions, Parse;
    hide ChainTables.Valid, Sequences.Valid, HashBitsFor;
    var hb := HashBits(|s|);
    t.Clear(hb, s);
    q.Reset();
    CoversNothing(prior, s);
    var i: nat, ins: nat := 0, 0;
    t.EnteredFit(s, hb, 0);
    assert q.tokens + Parse(s, hb, {}, 0, 0) == Matches(s);
    while i < |s|
      invariant q.Valid() && t.Valid(s, hb, ins) && ins <= i <= |s|
      invariant Covers(q.tokens, prior, s, i)
      invariant Positions(s, t.entered) && q.tokens + Parse(s, hb, t.entered, ins, i) == Matches(s)
      decreases |s| - i
    {
      CoversFacts(q.tokens, prior, s, i);
      q.Count();
      ghost var ts, before, from := q.tokens, t.entered, ins;
      if i + MIN_MATCH > |s| {
        ParseEnd(ts, s, hb, before, from, i);
        CoversLiteral(q.tokens, prior, s, i);
        q.AddLiteral(s[i]);
        i := i + 1;
        continue;
      }
      InsertUpTo(t, s, ins, i, hb);
      var len, dist := t.Find(s, i, hb, SEARCH_DEPTH);
      ins := i + 1;
      t.EnteredFit(s, hb, ins);
      if len < MIN_MATCH {
        ParseLiteral(ts, s, hb, before, from, i);
        CoversLiteral(q.tokens, prior, s, i);
        q.AddLiteral(s[i]);
        i := i + 1;
        continue;
      }
      ghost var entered := t.entered;
      var i2, len2, dist2, ins2 := LazyStep(q, t, s, i, len, dist, hb, prior);
      UsableFacts(s, i2, len2, dist2);
      CoversFacts(q.tokens, prior, s, i2);
      q.Count();
      CoversMatch(q.tokens, prior, s, i2, len2, dist2);
      q.AddMatch(len2, dist2);
      ParseMatch(ts, s, hb, before, from, i, len, dist, Held(i2, len2, dist2, ins2, t.entered));
      i, ins := i2 + len2, ins2;
      if len2 > MAX_INSERT {
        BoundGrows(t, s, hb, ins, i);
        ins := i;
      }
    }
    ParseNone(q.tokens, s, hb, t.entered, ins);
  }

  lemma ParseNone(ts: seq<Token>, s: seq<byte>, hb: nat, entered: set<nat>, ins: nat)
    requires Positions(s, entered) && 1 <= hb <= 15 && ins <= |s|
    ensures ts + Parse(s, hb, entered, ins, |s|) == ts
  {
  }

  lemma ParseEnd(ts: seq<Token>, s: seq<byte>, hb: nat, entered: set<nat>, ins: nat, i: nat)
    requires Positions(s, entered) && 1 <= hb <= 15 && ins <= i < |s| && i + MIN_MATCH > |s|
    ensures ts + Parse(s, hb, entered, ins, i) == (ts + [Literal(s[i])]) + Parse(s, hb, entered, ins, i + 1)
  {
  }

  lemma ParseLiteral(ts: seq<Token>, s: seq<byte>, hb: nat, entered: set<nat>, ins: nat, i: nat)
    requires Positions(s, entered) && 1 <= hb <= 15 && ins <= i && i + MIN_MATCH <= |s|
    requires Look(s, hb, entered, ins, i).0 < MIN_MATCH
    ensures ts + Parse(s, hb, entered, ins, i)
         == (ts + [Literal(s[i])]) + Parse(s, hb, Enter(s, entered, ins, i), i + 1, i + 1)
  {
    hide Look, Enter, Positions;
  }

  lemma ParseMatch(ts: seq<Token>, s: seq<byte>, hb: nat, entered: set<nat>, ins: nat, i: nat, len: nat, dist: nat,
                   h: Held)
    requires Positions(s, entered) && 1 <= hb <= 15 && ins <= i && i + MIN_MATCH <= |s| && len >= MIN_MATCH
    requires Look(s, hb, entered, ins, i) == (len, dist) && i + len <= |s|
    requires h == Lazy(s, hb, Enter(s, entered, ins, i), i, len, dist)
    ensures i <= h.i && h.i + h.len <= |s| && Positions(s, h.entered) && h.ins <= h.i + h.len
    ensures var next := h.i + h.len;
            ts + Parse(s, hb, entered, ins, i)
            == ts + Literals(s, i, h.i) + [Match(h.len, h.dist)]
               + Parse(s, hb, h.entered, if h.len > MAX_INSERT then next else h.ins, next)
  {
    hide Look, Enter, Positions, Literals, Lazy;
    var next := h.i + h.len;
    var rest := Parse(s, hb, h.entered, if h.len > MAX_INSERT then next else h.ins, next);
    Assoc(ts, Literals(s, i, h.i) + [Match(h.len, h.dist)], rest);
    Assoc(ts, Literals(s, i, h.i), [Match(h.len, h.dist)]);
  }

  lemma CoversNothing(prior: seq<byte>, s: seq<byte>)
    ensures Covers([], prior, s, 0)
  {
    assert prior + s[..0] == prior;
  }

  lemma BoundGrows(t: ChainTables, s: seq<byte>, hb: nat, a: nat, b: nat)
    requires t.Valid(s, hb, a) && a <= b
    ensures t.Valid(s, hb, b)
  {
    hide Hash, Pow2, Top;
    forall h: nat
      ensures Top(s, hb, t.entered, h, b) == Top(s, hb, t.entered, h, a)
    {
      TopSkips(s, hb, t.entered, h, a, b);
    }
  }
}
