# Verification of a web server engine

Dafny models of the parts of the server where a mistake is hardest to see: the arithmetic
under TLS, the gzip encoder, the HTTP/2 connection, the TLS 1.3 record layer, the parsers
that resume between reads, and the two small protocols that move messages and buffers
between threads and connections. `dafny verify dfyconfig.toml` checks everything.

Each part has a simple definition of what it is for, and the code's own loops, arrays and
in-place updates are proved against it.

- **RSA** (`ModArith`, `Limbs`, `Columns`, `Montgomery`, `Redc`, `MontExp`, `RsaMath`,
  `RsaBytes`, `RsaKey`, `RsaPrivate`, `RsaLoad`). Numbers are 64-bit limbs with their
  carries; the specification is congruence modulo the key. The main result is
  `RsaPrivate.Key.Private`, on every key `RsaLoad.Load` makes.
- **DEFLATE and gzip** (`Bits`, `BitWriter`, `Tokens`, `Lz77`, `Chunk`, `SymTables`,
  `HuffTree`, `HuffBound`, `HuffOptimal`, `HuffLinks`, `HuffCounts`, `HuffLengths`,
  `SortKeys`, `RadixSort`, `Canonical`, `CodeTable`, `SameCode`, `CodeLengths`,
  `BlockFormat`, `Cost`, `BlockPlan`, `BlockWrite`, `Blocks`, `BlockChoice`, `Crc`,
  `CrcPoly`, `CrcClmul`, `Gzip`, `Overfull`). `Inflate` is a reference inflater for
  RFC 1951, written from the format and not from the encoder. The main results are
  `Gzip.Deflater.Compress`, with `Gzip.MemberUnique` that its contract leaves one output,
  and `CrcClmul.ClmulRegister`.
- **X25519** (`Field25519`, `Invert25519`, `Ladder25519`, `Bytes25519`, `X25519`). The
  specification is the function of section 5 of RFC 7748; the main result is
  `X25519.Viltrum`.
- **AES-GCM** (`Gf128`, `GfReduce`, `Clmul`, `Ghash`, `GcmSpec`, `Gcm`, `GcmSuite`). The
  field and the mode are NIST SP 800-38D's, the block cipher any function to 16 bytes.
  `GcmSuite` shows it is a cipher the record layer's theorems hold for.
- **TLS 1.3 records** (`Nonce`, `Records`, `Tls13`, `TlsLink`). Both ends are objects with
  ghost histories; `Records.ReadAll` is what a reader makes of the bytes of any peer,
  `Tls13.Fidelity`, `Tls13.NothingLost` and `Tls13.NeverTwice` relate a writer and the peer
  that reads it, and `TlsLink.Link` is a session of two ends from the handshake's end on.
- **HTTP/2** (`H2Slots`, `H2Receive`, `H2Client`, `H2World`, `H2Conn`). `H2Client` is what
  a client sees: it has its own windows, takes HEADERS and DATA only where the protocol
  allows them, and remembers every RST_STREAM on a stream that is idle. Every method of
  `H2Conn.H2Conn` keeps `Valid`, so `Promises` holds in every reachable state.
- **HTTP/1.1 framing** (`Chunked`, `ChunkedBody`, `ChunkGrammar`, `Fields`, `Framing`,
  `Heads`). The code's resumed scans give what one look at all the bytes does, and that is
  what RFC 9112 says of them: `Heads` reads field lines off the bytes and `ChunkGrammar`
  chunked bodies, and every request a sender writes ends where it was written to.
- **WebSocket** (`WsFrames`, `WebSocket`). Frames are related both ways to the bytes a client
  sends, and the machine over them to what the frames alone say (`WebSocket.RunMeans`).
- **Inbox, pools and dates** (`Inbox`, `Pools`, `Calendar`, `HttpDate`).

Findings, each proved:

- `huff_lengths` does not always give a complete code. Its Kraft sum is one plus half the
  number of the unlimited tree's internal nodes deeper than the limit (rounded down), so the
  code is complete if and only if fewer than two are deeper. `Overfull.SteepOverfull` has a
  table of 19 frequencies for which it is over-full. A dynamic block is readable if and only
  if none of its three frequency tables is of that kind, and `Gzip.Deflater.Compress`
  carries the condition to the whole member. The comment above the function promises a
  complete code.
- Which status a refused body gets can depend on where a read ends
  (`Chunked.StatusDepends`), though whether it is refused cannot. It does so if and only if
  the scan stops at a trailer line that is malformed only past the 8192 bytes a line may
  have (`Chunked.StatusDependsIff`, and `Framing.FrameStatusIff` for whole messages).
- RST_STREAM can go out on an idle stream, which section 6.4 of RFC 9113 forbids. A malformed
  PRIORITY does it if and only if its stream is above the last one opened or even, and DATA
  within the connection's window if and only if its stream is even, no higher than the last
  one opened and not one of the last sixteen reset (`H2Conn.H2Conn.OnPriority`,
  `H2Conn.H2Conn.OnData`). Nothing else does. `H2Conn.StrayPriority` and `H2Conn.StrayData`
  are runs that end there.

## Model

| member | source | states |
|---|---|---|
| Limbs.MulAccExact | engine/rsa.h:91-101 | while the sum stays below 2^192, one step adds exactly the product to the three words: no carry is lost |
| Limbs.MulAccTwice | engine/rsa.h:102-115 | the doubled step adds the product twice |
| Limbs.Subtract | engine/rsa.h:177-183 | limb-wise subtraction: difference plus y is x plus the borrow times 2^(64k), and the borrow says whether x was less |
| Columns.ColumnSumIsProduct | engine/rsa.h:139-175 | the weighted column sums of two numbers add up to their product |
| Columns.FoldColumn | engine/rsa.h:147-153 | a column of a square is its cross terms twice and its middle term |
| Montgomery.SumColumn | engine/rsa.h:145-158 | both ways of summing a column, multiplying and squaring, add the same exact total without overflow for up to 64 limbs |
| Montgomery.ClearLowWord | engine/rsa.h:162-163 | the chosen multiple of the modulus leaves a zero low word |
| Montgomery.ColumnLoop | engine/rsa.h:144-175 | the words written and the two left are a*b + u*m divided by 2^(64k), exactly |
| Montgomery.MontProduct | engine/rsa.h:139-189 | for every odd modulus of up to 64 limbs and a, b below it, multiplying or squaring: r < m and r * 2^(64k) = a * b modulo m |
| Montgomery.MontMul | engine/rsa.h:191-247 | the same into an array that may be either operand |
| Montgomery.NewtonN0 | engine/rsa.h:317-324 | six Newton steps from 1 give n0 with m0 * n0 = -1 modulo 2^64, for every odd m0 |
| Redc.MontRedc | engine/rsa.h:248-281 | for a 2k-limb x below m * 2^(64k), the deferred carry and all: r < m and r * 2^(64k) = x modulo m |
| MontExp.WindowsAreValue | engine/rsa.h:295-299 | the four-bit windows read from the top spell the whole exponent |
| MontExp.Table | engine/rsa.h:289-293 | the sixteen table entries are the powers 0 to 15 in Montgomery form |
| MontExp.Lookup | engine/rsa.h:300-308 | reading every entry under a mask selects the one asked for |
| MontExp.MontPower | engine/rsa.h:284-315 | fixed-window exponentiation gives x^e in Montgomery form for every k-limb exponent |
| RsaBytes.LoadLimbs | engine/rsa.h:448-455 | the limbs have the value of the big-endian bytes |
| RsaBytes.StoreLimbs | engine/rsa.h:551-558 | the bytes have the value of the limbs |
| RsaKey.SubtractMod | engine/rsa.h:483-507 | (s1 - s2) modulo p by masked subtraction and addition, for s2 < 2p |
| RsaKey.Schoolbook | engine/rsa.h:510-519 | the 2h-limb product |
| RsaKey.PublicPower | engine/rsa.h:529-544 | x^e modulo n by the bits of e |
| RsaPrivate.Half | engine/rsa.h:470-475 | x^d modulo one prime, fully reduced |
| RsaPrivate.Recombine | engine/rsa.h:482-525 | the CRT recombination is below p*q and agrees with both halves |
| RsaMath.BlindingKept | engine/rsa.h:465-467 | squaring both numbers of a blinding pair keeps vi * vf^e = 1 |
| RsaMath.Unblinded | engine/rsa.h:526-528 | if s^e is the blinded message, the unblinded result's e-th power is the message |
| RsaLoad.FromMpi | engine/rsa.h:326-343 | the k limbs of a number, none exactly when it does not fit |
| RsaLoad.MontConst | engine/rsa.h:345-366 | x * R^power modulo m stands, in Montgomery form, for x * R^(power - 1) |
| RsaLoad.Blinds | engine/rsa.h:420-431 | for a random number prime to n, its e-th power and its inverse, both in Montgomery form, are a blinding pair |
| RsaLoad.Load | engine/rsa.h:368-439 | a key exactly when the library's numbers have the shape the code handles and a number prime to n is drawn before a draw fails; it is then valid: the exported numbers in limbs, the Newton and Montgomery constants, and a blinding pair |
| RsaPrivate.Key.NextBlinding | engine/rsa.h:465-467 | both numbers of the pair are squared modulo n and stay related |
| RsaPrivate.Key.Crt | engine/rsa.h:469-525 | s < n, and s^e = x modulo n when the exponents belong to e |
| RsaPrivate.Key.Private | engine/rsa.h:444-567 | success implies out < n and out^e = in modulo n; in >= n fails and changes nothing; otherwise the blinding pair is squared and kept valid; with matching exponents every in < n succeeds |
| BitWriter.Writer.Put | http1/deflate.v:541-559 | the stream grows by the n bits of v, least significant first, and the word never overflows |
| BitWriter.Writer.Flush | http1/deflate.v:561-576 | fewer than eight zero bits are added to reach a byte boundary |
| SymTables.MakeLenSym | http1/deflate.v:48-59 | every match length maps to the symbol whose range holds it, 258 to the last |
| SymTables.MakeDistLow | http1/deflate.v:61-73 | the near table gives each distance's symbol |
| SymTables.MakeDistHigh | http1/deflate.v:61-73 | the far table does so for all of each block of 128 distances |
| SymTables.LookUpDist | http1/deflate.v:192-195 | the two tables together give the symbol of every distance 1 to 32768 |
| Lz77.ChainTables.Insert | http1/deflate.v:285-292 | each head names the last position entered with its hash, and each entered position's link the one before it with the same hash |
| Lz77.Extend | http1/deflate.v:319-325 | eight bytes at a time and then one: the longest agreement within the limit |
| Lz77.ChainTables.Find | http1/deflate.v:294-341 | (0, 0), or the match the search function picks from the last positions entered with the same hash: 4 to 258 bytes at distance at most 32768 that agree |
| Lz77.NothingMissed | http1/deflate.v:294-341 | unless more positions with the same hash lie between than the search goes down, or the match is long enough already, no entered position within the window matches more bytes |
| Chunk.PackFields | http1/deflate.v:269-274 | a sequence word gives back its type, length, distance and distance symbol |
| Chunk.Sequences.AddMatch | http1/deflate.v:269-275 | the word and both symbol counts are entered, so the counts stay the tokens' own |
| Chunk.MatchChunk | http1/deflate.v:200-283 | for every chunk and any output before it, the tokens are exactly those of the lazy parse, and expand to exactly the chunk |
| Chunk.LazyPays | http1/deflate.v:240-263 | every literal put before a match is paid for by at least one more byte of match, and the match held in the end is long enough, near the end, or not beaten by the next position's |
| SortKeys.SortedAscends | http1/deflate.v:689-694 | sorting is ascending and a permutation |
| SortKeys.AscendingUnique | http1/deflate.v:689-690 | there is only one ascending arrangement, so both sorts agree |
| SortKeys.InsertionSort | http1/deflate.v:695-706 | the in-place insertion sort leaves the sorted keys |
| RadixSort.BucketsOrdered | http1/deflate.v:714-729 | a stable pass orders by one byte more |
| RadixSort.Radix | http1/deflate.v:707-730 | as many byte passes as the largest key needs leave the sorted keys |
| RadixSort.Sort | http1/deflate.v:693-731 | either way, the sorted keys |
| HuffLinks.BuildLinks | http1/deflate.v:607-632 | the in-place merge leaves the parent links of the two-queue Huffman tree of the weights |
| HuffLinks.LinksToDepths | http1/deflate.v:633-636 | links become depths |
| HuffLinks.LeafDepths | http1/deflate.v:637-655 | each leaf gets its depth in that tree, the lightest the deepest |
| HuffCounts.LeafSumFills | http1/deflate.v:606-655 | the unlimited tree is full: leaves down to a level and nodes at it fill the level |
| HuffCounts.ClampedSum | http1/deflate.v:656-666 | clamping to the limit over-fills the code by the nodes at the limit and deeper |
| HuffCounts.Fold | http1/deflate.v:667-676 | the fold lowers the Kraft sum by half the overlong leaves, rounded up, and keeps the number of codes; it is the repeated split of the longest code shorter than the limit |
| HuffLengths.FoldExcess | http1/deflate.v:656-676 | what remains is exactly half the nodes deeper than the limit |
| HuffBound.MergeBound | http1/deflate.v:612-632 | any code lengths cost at least the two lightest weights more than some lengths, within the Kraft sum, of the nodes left by merging them |
| HuffOptimal.CodeBound | http1/deflate.v:606-632 | no code lengths within the Kraft sum cost less than the internal nodes of the two-queue tree weigh together |
| HuffOptimal.LeafCost | http1/deflate.v:633-655 | the leaves of that tree cost exactly that |
| HuffOptimal.DeepLeaves | http1/deflate.v:637-655 | the depths read off level by level are the leaves' own depths in the tree |
| HuffOptimal.Optimal | http1/deflate.v:578-655 | so the tree's depths are a cheapest code |
| HuffLengths.HuffLengths | http1/deflate.v:583-687 | every used symbol gets 1 to max bits, no shorter for rarer ones; the Kraft sum is one plus half the nodes too deep: one if and only if fewer than two are; and when no leaf is too deep, no code of any lengths spends fewer bits on the frequencies |
| HuffLengths.HuffmanUnique | http1/deflate.v:583-687 | the frequencies determine the lengths: no other table is the one described |
| Overfull.LadderDeep | http1/deflate.v:656-676 | frequencies that each outweigh all before them have m - 2 - max nodes too deep |
| Overfull.SteepOverfull | http1/deflate.v:578-676 | a concrete table of 19 frequencies for which the lengths it computes within seven bits are over-full |
| CodeTable.MakeRev8 | http1/deflate.v:735-745 | each byte's entry is the byte reversed |
| CodeTable.CanonicalCodes | http1/deflate.v:747-776 | every used symbol gets its canonical code of section 3.2.2 of RFC 1951, reversed, for any lengths |
| Canonical.PrefixFree | http1/deflate.v:747-776 | with a Kraft sum of at most one, no code is a prefix of another |
| Canonical.StartsAtZero | http1/deflate.v:747-776 | by the rules of section 3.2.2 of RFC 1951: the first code of the shortest length is all zeros |
| Canonical.Consecutive | http1/deflate.v:747-776 | codes of one length are consecutive numbers in the order of their symbols |
| Canonical.ShorterFirst | http1/deflate.v:747-776 | shorter codes come before longer ones |
| Canonical.DecodesSym | http1/deflate.v:747-776 | a code written is the symbol read, whatever follows |
| SameCode.CutSame | http1/deflate.v:348-361 | the lengths cut to hlit and hdist have the same codes as the full tables |
| CodeLengths.RleLengths | http1/deflate.v:491-532 | the symbols are the run-length code of the lengths, run by run, and fit their array |
| CodeLengths.RleSpells | http1/deflate.v:491-532 | for any lengths, their run-length code expands to exactly them, in no more symbols than lengths |
| BlockFormat.ReadsHeader | http1/deflate.v:440-455 | the reference reader reads a header back, or refuses it exactly when its own code is not complete |
| BlockFormat.FixedComplete | http1/deflate.v:478-489 | the fixed codes are complete |
| Tokens.ReadsTokens | http1/deflate.v:457-474 | tokens written are read back as what they expand to |
| Tokens.LenTable | http1/deflate.v:29-32 | the base lengths and extra bits written out are those the format gives each length symbol |
| Tokens.DistTable | http1/deflate.v:33-37 | and each distance symbol |
| Inflate.OrderTable | http1/deflate.v:38 | the order of the code length code is that of section 3.2.7 of RFC 1951, which the reader has as a rule of its own |
| Cost.DataCost | http1/deflate.v:375-403 | the data's bits number exactly the frequency-weighted code and extra bits |
| Cost.HeaderCost | http1/deflate.v:383-393 | a dynamic header's bits number exactly what the cost model adds |
| BlockPlan.Plan | http1/deflate.v:346-373 | the plan of the counts: both tables and the code length code are Huffman's, each with its exact Kraft sum, its order, and its least cost when no leaf is too deep; the header holds them trimmed and run-length coded |
| BlockPlan.PlanUnique | http1/deflate.v:346-373 | the counts determine the plan: no other tables and no other header is one |
| BlockPlan.Costs | http1/deflate.v:375-404 | the three costs are the real sizes of the three block types (for stored, its largest) |
| BlockWrite.WriteHeader | http1/deflate.v:440-455 | the stream grows by the header's encoding |
| BlockWrite.WriteData | http1/deflate.v:457-474 | the stream grows by the tokens' codes and the end of block |
| BlockWrite.WriteStored | http1/deflate.v:410-424 | type, padding, length, complement and the bytes |
| BlockChoice.DynamicBlock | http1/deflate.v:435-474 | a dynamic block is readable if and only if none of its three trees has two nodes too deep |
| BlockChoice.WriteBlock | http1/deflate.v:343-476 | the smallest of the three types is written, the dynamic one being that of the plan of the tokens, in exactly the bits of its encoding, at most 42 + 8n; it stands for the chunk's bytes, and is readable if and only if it is not a dynamic block with a tree too deep |
| Blocks.ReadsBlock | http1/deflate.v:406-476 | each kind of block is read back, or refused exactly when a code of its own is not complete |
| Blocks.ReadsFlow | http1/deflate.v:153-162 | the inflater recovers a whole flow of blocks if and only if all are readable |
| Crc.MakeTables | http1/deflate.v:75-92 | entry i of table k is byte i divided bit by bit through k + 1 bytes |
| Crc.PolyWord | http1/deflate.v:75-92 | the constant the tables divide by is the polynomial given as powers of x in ISO 3309 |
| CrcPoly.RegisterIs | http1/crc32_clmul.h:31-40 | the register after any bytes is the start moved up by x^8n plus the remainder of their bits times x^32 |
| CrcPoly.PowerActs | http1/crc32_clmul.h:24-29 | a constant congruent to a power of x multiplies any remainder by that power |
| CrcClmul.Powers | http1/crc32_clmul.h:24-29 | the five folding constants are the powers 544, 480, 160, 96 and 64 of x modulo the polynomial |
| CrcClmul.FourLanes | http1/crc32_clmul.h:44-63 | folding the four lanes and adding the next 64 bytes keeps the remainder of everything so far |
| CrcClmul.OneLane | http1/crc32_clmul.h:64-74 | and so does folding four lanes into one |
| CrcClmul.To64 | http1/crc32_clmul.h:84-93 | the 64 bits left have 32 places times the remainder of the 128 |
| CrcPoly.Barrett | http1/crc32_clmul.h:94-100 | multiplying by a series and then by its inverse gives back the first 32 places |
| CrcClmul.To32 | http1/crc32_clmul.h:94-101 | the Barrett reduction gives the remainder of the 64 bits |
| CrcClmul.ClmulRegister | http1/crc32_clmul.h:31-102 | for every start and every multiple of 16 bytes from 64 up, the folded register is the bit-at-a-time one |
| CrcClmul.Crc32 | http1/deflate.v:786-812 | whether or not the carry-less path runs first, eight bytes a step and then one at a time is the bit-at-a-time CRC-32 |
| Gzip.ReadsMember | http1/deflate.v:130-175 | a member of header, blocks, padding and trailer is read as its source exactly when its blocks are readable |
| Gzip.Deflater.Compress | http1/deflate.v:130-175 | for every source the output is the header of RFC 1952, one block for each 65534 bytes, each the cheapest under the plan of its tokens, the padding and the trailer; the reference reader, with tables and magic numbers of its own from the standards, recovers the source if and only if no dynamic block has a tree too deep, and refuses it otherwise; the output stays within the reserved bound |
| Gzip.MemberUnique | http1/deflate.v:130-175 | a source has one such member, byte for byte: no other output meets that contract |
| Field25519.Carry | engine/x25519.h:55-71 | column sums within their bound carry to tight limbs of the same residue |
| Field25519.FeAdd | engine/x25519.h:40-44 | the sum in the field, loose limbs |
| Field25519.FeSub | engine/x25519.h:46-53 | the difference in the field; no limb goes below zero |
| Field25519.FeMul | engine/x25519.h:73-86 | the product of loose operands, no 128-bit overflow, result tight; operands may alias |
| Field25519.SquareIsProduct | engine/x25519.h:88-96 | the squaring's columns are the product's |
| Field25519.FeSq | engine/x25519.h:88-96 | the square |
| Field25519.FeMulA24 | engine/x25519.h:105-109 | times 121665 |
| Field25519.FeCswap | engine/x25519.h:111-120 | exchanged or left, both elements |
| Invert25519.FeSqN | engine/x25519.h:98-103 | n squarings double the exponent n times |
| Invert25519.FeInvert | engine/x25519.h:196-221 | the chain computes z^(p-2), in place too |
| Bytes25519.FromBytes | engine/x25519.h:130-138 | the element of the low 255 bits, tight limbs |
| Bytes25519.Reduce | engine/x25519.h:140-183 | the limbs of the one representative below p |
| Bytes25519.ToBytes | engine/x25519.h:140-194 | the 32 bytes of that representative |
| Ladder25519.DoubleFormula | engine/x25519.h:253-270 | the doubling is Montgomery's doubling formula for A = 486662 |
| Ladder25519.DiffAddFormula | engine/x25519.h:258-266 | the addition is Montgomery's differential addition |
| Ladder25519.CrossedStep | engine/x25519.h:248-252 | with the conditional swap deferred, a pass takes the multiples n, n+1 to those of the next bit |
| X25519.Pass | engine/x25519.h:253-270 | one pass doubles one point and adds both, limb bounds kept |
| X25519.Ladder | engine/x25519.h:246-273 | 255 passes give the scalar's multiple |
| X25519.Viltrum | engine/x25519.h:230-276 | for every scalar and point, the bytes X25519 defines |
| Clmul.ClmulKar | engine/aesgcm.h:145-153 | three carry-less products add a times b to the running sums |
| Clmul.KarFold | engine/aesgcm.h:155-159 | the sums become one 256-coefficient product |
| Clmul.GfMul | engine/aesgcm.h:189-194 | the product in the field |
| GfReduce.ShiftOne | engine/aesgcm.h:165-173 | the lane shifts move all 256 bits by one |
| GfReduce.FoldHigh | engine/aesgcm.h:174-186 | the lane shifts multiply the upper half by x^128 reduced |
| GfReduce.Reduce | engine/aesgcm.h:161-187 | the field element a 256-coefficient product stands for |
| Gf128.MulAssoc | engine/aesgcm.h:161-163 | the bit-serial multiplication of SP 800-38D is associative |
| Ghash.PowerTable.constructor | engine/aesgcm.h:202-209 | the powers 1 to 8 of H and their folded halves |
| Ghash.SerialIs | engine/aesgcm.h:213-229 | serial hashing is the sum of blocks times powers of H |
| Ghash.PowerTable.Eight | engine/aesgcm.h:216-226 | eight Karatsuba products with one reduction are eight serial steps |
| Ghash.PowerTable.Blocks | engine/aesgcm.h:213-236 | any number of blocks: the serial hash |
| Gcm.Key.CtrFrom | engine/aesgcm.h:250-296 | counter mode from any counter for every length, in place or apart, and nothing else written |
| Gcm.Key.Hash | engine/aesgcm.h:238-248 | the hash of the zero-padded bytes |
| Gcm.Key.EncGhash | engine/aesgcm.h:298-352 | hashing each chunk while the next is encrypted: the whole chunks encrypted, and the hash of their ciphertext |
| Gcm.Key.MakeTag | engine/aesgcm.h:359-372 | the tag of SP 800-38D |
| Gcm.Key.Seal | engine/aesgcm.h:374-381 | for every length, in place or not: CTR, then GHASH of data, ciphertext and lengths |
| Gcm.Key.SealRecord | engine/aesgcm.h:383-398 | the same as sealing content and type byte together |
| Gcm.Key.Open | engine/aesgcm.h:400-416 | decrypts exactly when the tag is right, and otherwise writes nothing |
| GcmSpec.CtrSplit | engine/aesgcm.h:374-378 | whole blocks first and the rest from the counter after them is all at once |
| GcmSpec.Opens | engine/aesgcm.h:400-416 | what was sealed opens to itself |
| GcmSuite.GcmLawful | engine/tls13_linux.c.v:322-326 | GCM meets every law the record layer asks of its cipher |
| GcmSuite.RecordIs | engine/tls13_linux.c.v:431-447 | a record is the header, then the encryption and tag of content and type under its nonce |
| Nonce.NonceInto | engine/tls13_linux.c.v:233-242 | the IV with the sequence number in its last eight bytes |
| Nonce.NonceValue | engine/tls13_linux.c.v:233-242 | by value: the first four bytes are the IV's, and the last eight the IV's XORed with the sequence number, most significant byte first |
| Nonce.NonceUnique | engine/tls13_linux.c.v:233-242 | two sequence numbers never give one nonce |
| Records.ReadsSealed | engine/tls13_linux.c.v:304-371 | a sealed record is read back as its type and content, whatever follows |
| Records.WaitsForMore | engine/tls13_linux.c.v:309-321 | any shorter piece of it waits |
| Records.NoReuse | engine/tls13_linux.c.v:215-231 | key generation and sequence number only move forward |
| Records.ReadSplit | engine/tls13_linux.c.v:244-371 | whoever sent them, bytes in two parts are read as the bytes at once, and an end stays the end |
| Records.ReadsWire | engine/tls13_linux.c.v:244-371 | the records of a peer within the limit that has not closed are read as exactly what they carry, all of it |
| Records.UpdateKinds | engine/tls13_linux.c.v:402-412 | every key update asks for the peer's, was sealed by keys that had sealed 2^24 records, or came sooner |
| Records.RekeysSpaced | engine/tls13_linux.c.v:402-412 | the second kind comes at most once in 2^24 + 1 records |
| Tls13.Tls13.Seal | engine/tls13_linux.c.v:431-447 | one record more, its header, nonce, content and type as the standard has them, under the next key state |
| Tls13.Tls13.Send | engine/tls13_linux.c.v:449-468 | under any partial sends the socket gets the next bytes of the records, in order; -1 and -2 only where the socket answered full or failed |
| Tls13.Tls13.Write | engine/tls13_linux.c.v:388-429 | what it takes is sealed after what was, in records that are full but for the last, and three of them before any is left for later; -1 only while earlier records still wait and the socket is full, and then nothing changes; -2 only when the socket failed; a KeyUpdate is sealed first if one was owed and otherwise exactly when the keys have sealed 2^24 records |
| Tls13.Tls13.Fill | engine/tls13_linux.c.v:400-424 | the same of what one call seals into the buffer, whatever the socket takes |
| Tls13.DueCounts | engine/tls13_linux.c.v:402-412 | such updates answer at most the one owed and ask for none |
| Tls13.Tls13.CloseNotify | engine/tls13_linux.c.v:470-478 | a close_notify unless a record is still going out |
| Tls13.Tls13.OpenNext | engine/tls13_linux.c.v:304-371 | handles the next record as the protocol reads it, waits exactly while it is not whole |
| Tls13.Tls13.Read | engine/tls13_linux.c.v:244-302 | from any peer, what comes out is what a reader makes of the bytes received, in order, all of it before it waits, ends or fails; it closes and refuses exactly as that reader does, and ends and fails otherwise only where the socket did; it waits only where the socket had nothing or brought less than there was room for; the read-ahead never wedges full; a KeyUpdate is owed exactly when a record opened asks for one; from a peer that keeps to the protocol only the socket fails it |
| Tls13.TracksGrow | engine/tls13_linux.c.v:244-302 | a reader's state stays right as the writer goes on |
| Tls13.Fidelity | engine/tls13_linux.c.v:244-468 | under any splits and KeyUpdates, what was read is a prefix of what was written |
| Tls13.NothingLost | engine/tls13_linux.c.v:244-468 | and all of it once every byte has arrived |
| Tls13.NeverTwice | engine/tls13_linux.c.v:401-447 | no key and nonce pair is used twice, and no sequence number passes 2^24 |
| TlsLink.Link.constructor | engine/tls13_linux.c.v:184-199 | two ends that hold each other's secrets carry nothing yet |
| TlsLink.Link.Write | engine/tls13_linux.c.v:388-429 | the bytes reported taken join those taken before, whatever the socket takes; nothing is taken only when it is full, the direction breaks only when it failed; a KeyUpdate asked for goes out first, and no other before its keys have sealed 2^24 records |
| TlsLink.Link.UpdatesBounded | engine/tls13_linux.c.v:352-412 | in every state of every run a side has updated its keys no more often than either side asked, and once more for every 2^24 + 1 records |
| TlsLink.Link.Read13 | engine/tls13_linux.c.v:244-302 | whatever arrives of what is on its way, in any pieces, while the requests made so far and the records sealed keep updates within 1024: it fails and ends only where the socket did, waits only when the socket has nothing more or came up short, and once all has arrived and it waits, it has read all of it; a request for new keys it opens is owed |
| TlsLink.Link.Ask | engine/tls13_linux.c.v:352-371 | a side that asks for new keys leaves what both directions carry as it was, and is counted |
| TlsLink.Link.Close | engine/tls13_linux.c.v:470-478 | a close leaves both directions as they were |
| TlsLink.Link.Faithful | engine/tls13_linux.c.v:244-468 | after every run from the constructor on, each side has read a prefix of exactly the bytes the other reported taken |
| H2Slots.TotalUpdate | engine/h2.v:372-415 | changing one slot changes the recomputed counts by exactly that slot's |
| H2Slots.Find | engine/h2.v:334-341 | the slot of a stream, or none has it |
| H2Slots.OldestReceiving | engine/h2.v:418-426 | the lowest id whose body is coming |
| H2Receive.BufferedBound | engine/h2.v:427-465 | a connection never holds more than three budgets of bodies |
| H2Receive.Leaves | engine/h2.v:454-465 | when a body ends the budget rule still holds, and no stream is left closed unless a window was withheld |
| H2Receive.Credited | engine/h2.v:434-450 | reopening a window keeps the budget rule, for the oldest stream even over budget |
| H2Receive.Admitted | engine/h2.v:691-725 | so does one more body within the budget |
| H2Client.DataTwice | engine/h2.v:1209-1224 | for the client, two DATA frames are one longer one |
| H2Client.IdleIs | engine/h2.v:1475-1488 | which streams are idle for a client: those above the last one opened, and the even ones |
| H2Conn.H2Conn.constructor | engine/h2.v:121-175 | a connection in which everything promised holds |
| H2Conn.H2Conn.Promises | engine/h2.v:1229-1328 | in every reachable open state: each answer's DATA is a prefix of its body, and all of it once ended; an answer neither ended nor reset has a slot with exactly the rest of it; a request neither answered nor reset has a slot that receives its body or waits for its answer; counters equal the slots'; bodies within three budgets; the oldest body's window is open, and all are unless one is withheld |
| H2Conn.H2Conn.Release | engine/h2.v:372-415 | the slot is freed and taken out of every counter |
| H2Conn.H2Conn.Credit | engine/h2.v:434-450 | the window opens to its first size or one byte past the body limit, in a WINDOW_UPDATE of exactly the difference; it stays only if it is there or so near that an update can wait, or if the bodies held pass the budget and the stream is not the oldest, and only then is it withheld |
| H2Conn.H2Conn.CreditAll | engine/h2.v:454-465 | afterwards no stream is stuck: each window is open that far unless the budget is passed and the stream is not the oldest |
| H2Conn.H2Conn.Reset | engine/h2.v:199-211 | the stream's slot is freed and the other slots stay; the client gets RST_STREAM, on an idle stream too, and the stream is among the last sixteen reset |
| H2Conn.H2Conn.Fail | engine/h2.v:225-234 | the connection closes, once |
| H2Conn.H2Conn.DataFrames | engine/h2.v:1209-1226 | frames of at most 16384 bytes carry the bytes, END_STREAM on the last, all within both windows |
| H2Conn.H2Conn.Sendable | engine/h2.v:1146-1155 | no more than asked or than either window, and less only if a window is the reason |
| H2Conn.H2Conn.Take | engine/h2.v:344-369 | a blank slot for the stream, no other slot has its id |
| H2Conn.H2Conn.Respond | engine/h2.v:1028-1102 | HEADERS, what the windows allow, the rest held; END_STREAM exactly when nothing is left |
| H2Conn.H2Conn.PumpHeld | engine/h2.v:1256-1328 | one DATA frame of exactly the next bytes both windows and the frame size allow, END_STREAM on it if and only if they are the last and nothing more is written |
| H2Conn.H2Conn.PumpFile | engine/h2.v:1256-1328 | the same from a file, END_STREAM if and only if it is all sent; a reset exactly when the file has fewer bytes than the frame needs |
| H2Conn.H2Conn.PumpPass | engine/h2.v:1236-1250 | from the slot it begins with, each slot in turn that has output and a window sends one frame of at most 16384 bytes and nothing of the others' goes out; it ends early only when nothing more may be sent, and says where the next begins |
| H2Conn.H2Conn.Pump | engine/h2.v:1229-1252 | stops only when the buffer is full, the connection window is used up or every stream waits on its own; the turns go round from one call to the next; an answer goes on or is ended, none is reset but one whose file was cut, and slots with nothing to send stay |
| H2Conn.H2Conn.Finish | engine/h2.v:929-953 | the application's answer is given, parked or streamed |
| H2Conn.H2Conn.Defer | engine/h2.v:958-969 | a slot keeps the stream and its credit |
| H2Conn.H2Conn.Resume | engine/h2.v:974-995 | serves exactly the streams still waiting, with the credit their slot kept |
| H2Conn.H2Conn.OpenStream | engine/h2_stream.v:18-39 | the head goes now and a slot holds the rest; the stream is reset at once if and only if its first output is more than it may hold |
| H2Conn.H2Conn.WriteStream | engine/h2_stream.v:42-116 | what a callback writes is promised after what was; not ended, the stream is reset if and only if what it holds unsent then is more than four times max_pending, and otherwise goes on with nothing else changed; ending it ends the stream now, or leaves a slot no longer written whose last frame will |
| H2Conn.H2Conn.EndStream | engine/h2_stream.v:121-144 | the slot stays for what is held, counted as such |
| H2Conn.H2Conn.OnStreamWrite | engine/h2_stream.v:157-214 | a callback runs exactly on a stream still being written, and its outcome is exactly that of the write |
| H2Conn.H2Conn.OnData | engine/h2.v:498-550 | closed exactly for stream 0, the connection's window passed, a stream not opened yet, or bad padding; flow control, a body over its limit, and what the last byte brings; a stream without a slot is reset unless it lately was |
| H2Conn.H2Conn.RequestDone | engine/h2.v:553-576 | answered, or reset when the length is not the one declared |
| H2Conn.H2Conn.EarlyAnswer | engine/h2.v:581-585 | the client is reset only when nothing of the answer is left |
| H2Conn.H2Conn.OnHeaders | engine/h2.v:587-725 | closed exactly for an even or zero stream, an undecodable block, or a stream that is over and not lately reset; every other fate of a block: a request, a refusal, trailers, or ignored |
| H2Conn.H2Conn.OnReset | engine/h2.v:1452-1473 | closed exactly for stream 0, a bad length or an idle stream; else the stream and its slot are gone and every other slot stays |
| H2Conn.H2Conn.OnConnWindow | engine/h2.v:1413-1450 | closed exactly for a zero or overflowing increment; else the credit is given and used, and no stream is reset but one whose file was cut |
| H2Conn.H2Conn.OnStreamWindow | engine/h2.v:1413-1450 | the same for a stream: a reset of it in place of the error, and idle streams are an error; no other stream is reset but one whose file was cut |
| H2Conn.H2Conn.OnInitialWindow | engine/h2.v:1365-1394 | every stream's window moves by the difference, perhaps below zero; closed exactly when the setting or one of them passes the maximum; else what that lets go is sent, and no stream is reset but one whose file was cut |
| H2Conn.H2Conn.OnPriority | engine/h2.v:1475-1488 | closed exactly for stream 0; a malformed frame resets its stream, an idle one if and only if it is above the last opened or even |
| H2Conn.StrayPriority | engine/h2.v:1481-1483 | from a fresh connection, two malformed PRIORITY frames reset two idle streams |
| H2Conn.StrayData | engine/h2.v:515-516 | from a fresh connection, DATA on an even stream resets it |
| H2Conn.H2Conn.Settle | engine/h2.v:312-316 | the connection window is more than half open; what was read is given back, all of it, exactly when it is not |
| Chunked.ChunkScan.Scan | http1/chunked.v:32-128 | the resumable scan computes the verdict and the state of one pass over the buffer |
| Chunked.Resumes | http1/chunked.v:32-128 | resuming where a scan stopped is starting over |
| Chunked.Settled | http1/chunked.v:32-128 | an end stays where it is and a refusal stays one on any longer buffer |
| Chunked.SplitIndependent | http1/chunked.v:32-128 | for every split into growing buffers, refused exactly when one look refuses, and otherwise the same end |
| Chunked.StatusDepends | http1/chunked.v:157-176 | after any head, a body refused with 431 until one more byte arrives and with 400 then |
| Chunked.StatusDependsIff | http1/chunked.v:32-128 | every earlier look that refuses gives the status of the look at the whole, if and only if the scan does not stop at a trailer line malformed past its limit |
| Chunked.SplitStatus | http1/chunked.v:32-128 | over any run of reads, without such a line the answer is that of one look, status and all |
| Chunked.PayloadSize | http1/chunked.v:32-128 | the scanner's total is the length of the data, within the limit |
| Chunked.Decode | http1/chunked.v:131-153 | exactly the chunk data of what the scanner accepted |
| ChunkedBody.ReadsChunks | http1/chunked.v:32-128 | a body encoded as section 7.1 of RFC 9112 says, in any chunks within the limit, is accepted to its end and its data is theirs |
| ChunkGrammar.Accepts | http1/chunked.v:32-153 | a buffer is accepted up to an end with some data if and only if a chunked body by section 7.1 of RFC 9112 with that data, within the limits on digits, lines, trailers and data, stands at its front up to there |
| Fields.FindCrlf | http1/frame.v:217-232 | jumping from LF to LF finds the first CRLF |
| Fields.HeaderValue | http1/frame.v:148-189 | the value of the first field of that name, trimmed, without regard to case |
| Fields.FramingFields | http1/frame.v:195-213 | one pass by first letters finds what three searches would |
| Framing.FindHeadEnd | http1/frame.v:126-143 | the first head terminator |
| Framing.HeadResumes | http1/frame.v:68-76 | looking again from three bytes before the end misses none |
| Framing.ParseLength | http1/frame.v:263-278 | the decimal value, none unless all digits; past the largest int it stays past it |
| Framing.FrameStable | http1/frame.v:67-124 | a length found stays, a refusal stays one, resuming is starting over |
| Framing.FramingIndependent | http1/frame.v:67-124 | for every message and split: more is needed until it is whole, then the one-look length, and refusal agrees |
| Framing.FrameStatusIff | http1/frame.v:67-124 | every earlier look that refuses a message gives the status of the look at the whole, if and only if its body is not in chunks whose scan stops at a trailer line malformed past its limit |
| Framing.FramingStatus | http1/frame.v:67-124 | over any run of reads, without such a line the answer is that of one look, status and all |
| Framing.FrameState.Next | http1/frame.v:67-124 | the code computes that function, and the expect flag of the head |
| Heads.FieldIs | http1/frame.v:148-259 | on every head, the search finds the value of the first field line of the name, read off the bytes by sections 5 and 5.1 of RFC 9112, and nothing if and only if there is none |
| Heads.Refuses | http1/frame.v:78-104 | by section 6.3 of RFC 9112, over bytes: every buffer whose complete head has both framing fields, a transfer coding other than chunked, or a length not all digits is refused with 400, and one past the limit with 431 |
| Heads.Takes | http1/frame.v:78-124 | and any other head is taken: no body without either field, exactly so many bytes with a length, refused with 413 past the limit, and chunks for chunked |
| Heads.NeverFramed | http1/frame.v:67-124 | over any run of reads, a request two readers could end differently is refused |
| Heads.ExpectsIs | http1/frame.v:106 | the expect flag is set if and only if the first Expect field says 100-continue |
| Heads.ReadsRequest | http1/frame.v:67-124 | every request written as a first line, any fields, at most one framing field in any case, and a body, is framed at exactly its length, whatever follows; the data of its chunks is what was sent |
| WsFrames.FrameStable | engine/ws.v:30-79 | more bytes change nothing about a frame that was decided |
| WebSocket.RunTwice | engine/ws.v:30-135 | bytes in two parts give the deliveries, pongs and close code of the bytes at once |
| WebSocket.RunProper | engine/ws.v:137-184 | at most one Close is written and nothing follows it |
| WebSocket.DeliversJoined | engine/ws.v:80-153 | what a frame delivers is the joined payloads of its message, of the kind the first says |
| WebSocket.DeliversMessages | engine/ws.v:30-153 | over any bytes, every delivery is the message that ends with one of the frames they hold |
| WebSocket.DeliversAll | engine/ws.v:30-153 | over any bytes, the deliveries are exactly the messages completed while the connection is not closing by a frame that does not end it, each once and in order |
| WebSocket.AllDue | engine/ws.v:80-184 | while nothing closes, those are all the messages completed |
| WebSocket.WsConn.Promises | engine/ws.v:30-184 | whatever the reads: with what the bytes still held will bring, exactly what the frames that arrived say, with the code and the pongs due; the messages due, each once and in order, all that were completed while nothing closes, none too long; and at most one Close, the last thing written |
| WebSocket.Sized | engine/ws.v:30-135 | and at most max_message long |
| WebSocket.RunMeans | engine/ws.v:30-184 | over any bytes, everything that comes out, whether the connection ended, and the code the application is told are what the frames say by sections 5.4, 5.5, 7.4 and 8.1 of RFC 6455: the messages with the handler's answers, the pongs, and the Close with the code of what ended it |
| WebSocket.FramesWritten | engine/ws.v:30-79 | the frames handled are those the bytes spell as a client sends them, one after another, and the rest is unread |
| WebSocket.PongsAll | engine/ws.v:111-115 | over any bytes the pongs are the payloads of the pings that come before the connection is closing, each once and in order |
| WsFrames.ReadsFrame | engine/ws.v:30-79 | every frame within the rules, its length in any of the three forms, is read as it was sent |
| WsFrames.FrameWritten | engine/ws.v:30-79 | and whatever is read is such a frame |
| WsFrames.RefusedIs | engine/ws.v:44-72 | 1002 exactly for a start that no frame of a client has, 1009 exactly for data past the limit once the header is there |
| WsFrames.UnmaskInPlace | http1/ws.v:260-278 | eight bytes at a time or one by one, in place: each byte XORed with the mask byte of its place modulo 4, and no other byte changed |
| WebSocket.WsConn.Process | engine/ws.v:30-135 | any reads and any stops: exactly so many frames are handled, and the state and outputs are those of one run over all bytes read |
| Inbox.AlwaysInv | engine/hub.v:31-64 | the invariant holds in every state of every interleaving |
| Inbox.NoLostWakeup | engine/worker_linux.c.v:224-232 | a non-empty queue has a readable eventfd, a write pending, or a worker between read and take |
| Inbox.TakenOnce | engine/hub.v:43-64 | taken then waiting is what was put: once each, and in each producer's order |
| Inbox.PutEverywhere | engine/hub.v:31-41 | a post that ended is in every box it is for |
| Inbox.ExactlyOnce | engine/hub.v:31-64 | from the moment a post ended, in every later state of the run each box it is for has it exactly once, taken or waiting |
| Inbox.FewWrites | engine/hub.v:22-64 | however many posts come, the eventfd is written at most once for each time the queue was taken, and once more |
| Pools.Moved | engine/process.v:195-221 | a transfer keeps every buffer with exactly one owner over all pools and connections, or dropped |
| Pools.Worker.Lend | engine/process.v:226-241 | missing buffers are lent, present ones stay |
| Pools.Worker.Settle | engine/process.v:243-285 | exactly the empty buffers go back, each to the pool of its size; dropped exactly when grown past what is kept, or the big pool is full |
| Pools.Worker.SettleTls | engine/tls13_linux.c.v:140-172 | the record buffers that are empty, or all when closing, go to their own pools, and none is dropped |
| Pools.Worker.LendBig | engine/process.v:287-295 | a grown buffer for an empty standard one, which goes back to the write pool; else nothing changes |
| Pools.Worker.LendAhead | engine/tls13_linux.c.v:174-182 | every buffer of the write pool is long enough for the handshake's read-ahead |
| Calendar.CivilCounts | http1/date.v:41-72 | the date arithmetic names each day as counting days one by one does |
| Calendar.WeekdayIs | http1/date.v:41-72 | and its weekday |
| Calendar.FourDigitYear | http1/date.v:41-72 | years have at most four digits up to day 2932896 and no later |
| HttpDate.FormatImf | http1/date.v:41-84 | the 29 bytes of the counted date and the time |
| HttpDate.Spelled | http1/date.v:5-84 | read as a text, it is the name of the counted weekday, the counted day and the time of day |
| HttpDate.Example | http1/date.v:35-37 | second 784111777 is the date section 5.6.7 of RFC 9110 writes |
| HttpDate.ParseImf | http1/date.v:86-129 | the second its fields spell, read at their places; none unless punctuation, month and every digit are right |
| HttpDate.RoundTrip | http1/date.v:41-129 | every second from 1970 through 9999 is read back as itself |
| HttpDate.DateCache.TextNow | http1/date.v:26-39 | the cached text is always that of the second asked for |

## Left out

- Pools.Worker.Lend: buffers are identities with a length and a capacity, without contents.
- H2Conn.H2Conn.OnHeaders: takes a whole decoded header block; CONTINUATION frames, HPACK and the header checks decide its kind outside the model.
- H2Conn.H2Conn.PumpFile: a file is its bytes and how many of them can still be read; its descriptor is not modelled.
- H2Conn.H2Conn.Respond: the length of the write buffer leaves out encoded header blocks, whose size HPACK decides; the pump's limit is then reached later than in the code.
- RsaLoad.Load: mbedtls is not part of the model: its arithmetic is that of natural numbers, what it guarantees of a key it exports is a precondition, and allocation failures are left out.
- WebSocket.WsConn.Process: frames are unmasked by value, the loop in place being `WsFrames.UnmaskInPlace`; what is sent is its opcode and payload, without the server's own frame headers and close reasons; handlers are functions of the message, and UTF-8 validity is a predicate.
- Heads.Refuses: where a head repeats a framing field the first counts, as in the code; the repetition is refused by the HTTP/1.1 head parser, which is not part of this model.
- Framing.FrameState.Next: lengths are unbounded integers, so the sum of head and body lengths does not wrap.
- GcmSuite.GcmLawful: a nonce that is not 12 bytes is read as zeros, which the record layer never passes.
- Overfull.SteepOverfull: no byte source that leads gzip to such a table is shown.
- Primality of 2^255 - 19 and of the RSA primes, and Fermat's theorem: exponents are taken to match e, and inversion is stated as the power p - 2.
- Constant-time masks and wiping: a masked choice is modelled by the value it selects.
- AES itself, HKDF and SHA-2: total functions; key setup does not fail.
- CrcClmul.Crc32: whether the processor has carry-less multiplication is a parameter; 32-bit words and 128-bit registers are sequences of bits.
- TlsLink.Link.Ask: the server never asks for new keys itself, so this is a peer's step; it waits for its last records to be out.
- HTTP/2 flood counting, PING, GOAWAY, SETTINGS other than the initial window, and the connection preface.
- The WebSocket opening handshake, topics and posts to connections.
- Forwarding of inbox posts to connections after they are taken, and eventfd errors.
- Dates before 1970 and after 9999.
- Sockets, epoll, sendfile, timers, the file cache, the router, the HTTP/1.1 head parser, response writers, JSON, cookies, ranges, MIME types and multipart bodies: I/O or single-branch code.
