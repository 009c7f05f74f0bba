# Verified model of slterm's algorithmic core

A Dafny model of the parts of the terminal slterm and of its tools in which the difficult algorithms are, with
proofs that they do what they are for. `dafny verify dfyconfig.toml` checks everything.

**The DEFLATE pair** (`tools/sdefl.h`, `tools/sinfl.h`; `src/sinfl.h` is the same text). The compressor is modelled
in place, from the hash chains over the length-limited Huffman codes to the bits, and the inflater from the bit
buffer over its two-level tables to the overlapping copies. Between them stands the format: `Format.dfy` says which
bits a sequence of blocks has and what it means, `Reference.dfy` decodes bit by bit with the branches of the
inflater. `SdeflParse.dfy` says, without hash chains, which matches are looked for and how the input is parsed. The
compressor is proved to write the blocks of this parse, which mean its input, the inflater to compute the reference
decoder, and the reference decoder to give back the meaning of every well-formed sequence. There is one
exception, which the proof brought out: between two refills of the bit buffer only 56 to 63 bits are there, but a
literal and a match may take 61. `RoundTripExact` states the law with exactly this condition, `BudgetFails` gives
two legal blocks that violate it, and `SmallRoundTrip` shows that it always holds for inputs of up to 3947 bytes.

**The Huffman codes** are proved complete, canonical and prefix-free for every frequency vector, and optimal among
all prefix codes whenever the tree keeps the length limit by itself.

**The constant database writer** (`tools/tic/cdbw.c`). Peeling a hypergraph that is stored as degrees and XORs
succeeds exactly if it can be peeled, and the values assigned in reverse order are a perfect hash. The 32-bit
arithmetic is right exactly if three times the number of entries does not exceed 2^32, or the number divides 2^32;
the limit in the source is larger.

**The terminfo `use=` resolver** (`tools/tic/tic.c`, `compile.c`, `term_private.h`). The packed buffers refine lists
of records; the passes of `merge_use` are runs of a small state machine, which ends, is confluent and reports
cycles exactly. What the records refer to and which values follow is stated on the records themselves.

**What both sides share**, tables and bit layouts that a round trip cannot check, is compared with the standards in
`Standard.dfy`.

**The scrollback** (`src/scroll.c`, `src/term.h`, `tnew`). The swapped line pointers and the masked index agree with
a log that only grows; output below a view that is scrolled back does not disturb it. A key that asks for more
lines than the ring has is caught by the guard only while the ring has not come round (`PageUpBreaks`).

How to read it: methods follow the source and are proved against functions and predicates; lemmas prove the laws
about those. Numbers are unbounded unless a width matters, where it is written out (`% 0x1_0000_0000`). Bit strings
are `seq<bool>`, least significant bit first.

## Model

| member | source | states |
|---|---|---|
| `Deflate.RoundTripExact` | tools/sdefl.h:662-733 | For every stream that encodes an input in the sense `Sdeflate` ensures: inflating returns exactly the input if and only if the input is not empty and no literal and match between two refills need more bits than the bit buffer then holds; otherwise the reference decoder is undefined, it never gives a wrong output |
| `Deflate.SmallRoundTrip` | tools/sdefl.h:662-733 | The condition always holds for inputs of 1 to 3947 bytes: all of them survive |
| `Deflate.MatchesGive` | tools/sdefl.h:630-661 | Every match gives at least four bytes of output, so small inputs have few matches |
| `Deflate.Sdeflate` | tools/sdefl.h:729-733 | At every level 0..8 the output encodes the input: it is a sequence of well-formed, legal blocks whose meaning is the input, padded to a byte, and empty only for the empty input; the blocks are those of the parse that `SdeflParse` states without hash chains, one candidate for every 256 KiB, each written as it is or in stored pieces; the state is left as it was found |
| `Deflate.CompressExpand` | tools/sdefl.h:729-733 | Compressing at any level and expanding, with SIMD or plain word copies and whatever bytes follow the input, gives back every input of 1 to 3947 bytes |
| `Deflate.Expand` | tools/sinfl.h:568-571 | The inflater run on such a stream puts exactly the input in its buffer |
| `RoundTrip.BlocksRead` | tools/sinfl.h:367-567 | Any well-formed sequence of stored and dynamic blocks, at any bit offset, inflates to its meaning exactly if it stays within the bit budget |
| `BudgetFails.BudgetFails` | tools/sinfl.h:463-492 | The budget is a real restriction: for any 24576 bytes, the stream of a stored block with them and a dynamic block of one literal and one match is legal, has no code longer than the limits of the compressor, and cannot be expanded: the literal of 14 bits and the match of 14 + 5 + 15 + 13 bits need 61 bits between two refills, the buffer has 58 |
| `BudgetFails.BodyFails` | tools/sinfl.h:463-492 | The same for the body of such a block behind any output of at least 24576 bytes |
| `BudgetFails.LongComplete` | tools/sdefl.h:362-382 | The codes of that block are complete |
| `SdeflCompr.Compr` | tools/sdefl.h:662-728 | For every candidate, made from the parse of its 256 KiB with the positions inserted in earlier blocks still found, either it or the stored pieces are written, whichever is reckoned cheaper; the blocks mean the input, in order and without gaps, no literal code is longer than 14 bits, and with fewer matches than a Fibonacci number the distance codes are short |
| `SdeflCompr.OneBlock` | tools/sdefl.h:672-722 | The candidate has exactly the tokens of the parse of this part of the input; what is written means exactly that part, takes at most 8 * (5 * pieces + length + 3) + 2 bits, and leaves chains, counters and sequences ready for the next block |
| `SdeflCompr.Advance` | tools/sdefl.h:674-716 | One token of the parse, literal or match: the position moves on by its width, a match is recorded behind the pending literals, the positions passed are inserted, and what is recorded is still the parse so far and counted exactly |
| `SdeflCompr.ProgressMatch` | tools/sdefl.h:608-625 | Recording a match keeps that invariant: the sequences are the parse up to the position behind it, and the counters of its two symbols rise by one |
| `SdeflCompr.Choose` | tools/sdefl.h:674-688 | The token that the parse prescribes: the match found, dropped from level 5 on for a longer one a byte later, or a literal |
| `SdeflParse.ParseMeans` | tools/sdefl.h:672-716 | A parse stands for its part of the input, whatever positions are inserted: every match copies the bytes that are there |
| `SdeflParse.NextIsLongest` | tools/sdefl.h:674-688 | If the window holds no more inserted positions than the level looks at, a match that is not given up is the longest there is with any of them, and the nearest of those; the token is a literal only if there is none of four bytes |
| `SdeflParse.GivenUpExact` | tools/sdefl.h:679-688 | A match of n bytes is given up exactly if the level is at least 5, n + 1 is below the bytes left and the good length of the level (48, 65, 96, 130), and an inserted position has a match of n + 1 bytes with the next byte |
| `SdeflParse.SearchFinds` | tools/sdefl.h:630-661 | Looking at the last positions with the same hash is enough: if there are no more in the window than are looked at, no inserted position at all has a longer match, and no nearer one has one as long |
| `SdeflMatch.Find` | tools/sdefl.h:630-661 | Walking the chain finds exactly the best match with the last `chain` inserted positions of the same hash in the window; it is a match of 4..max bytes with an inserted position in the window; and if the window holds no more than `chain` inserted positions, every inserted position in it with a match has a shorter one, or one as long and is not nearer |
| `SdeflMatch.Insert` | tools/sdefl.h:704-715 | Afterwards exactly the positions i, i + inc, .. before i + run * inc are inserted besides those that were; the table holds the last inserted position of every hash, and `prv`, which wraps and is never cleared, the one before it for every inserted position of the window |
| `SdeflMatch.ChainsInsert` | tools/sdefl.h:707-709 | The same for one position, inserted under the hash of its own four bytes |
| `SdeflMatch.PassedOver` | tools/sdefl.h:642-656 | A candidate that differs in the byte after the best match so far, or in its first four bytes, has no longer match |
| `SdeflFlush.Flush` | tools/sdefl.h:529-607 | The candidate is a dynamic block with the recorded tokens, whose three codes are the best for the counts of its symbols where the tree keeps the limit; it is written exactly if it has fewer bits than 8 * (5 * pieces + length + 3) + 3, else the stored pieces; what is written means the block of the input, within the cost bound; counters and sequences are cleared |
| `SdeflFlush.BlkType` | tools/sdefl.h:480-506 | The dynamic kind is chosen exactly if its cost is below that of the stored one |
| `SdeflCost.CostExact` | tools/sdefl.h:480-506 | The cost plus the three header bits is exactly the number of bits of the dynamic block, because the counters match the recorded sequences |
| `SdeflFlush.PiecesPlay` | tools/sdefl.h:555-573 | Cutting into pieces of at most 65535 bytes loses nothing: the stored blocks mean the data |
| `SdeflFlush.PiecesLen` | tools/sdefl.h:555-573 | They take at most 8 bits a byte, 40 bits a piece and 2 bits of padding, exactly that from a byte boundary |
| `SdeflFlush.PutStored` | tools/sdefl.h:555-573 | The stored pieces are written bit for bit as section 3.2.4 of RFC 1951 has them |
| `SdeflFlush.PutDynamic` | tools/sdefl.h:574-604 | The header, the run-coded lengths, the tokens and the end symbol are written bit for bit |
| `Standard.BlockHead` | tools/sdefl.h:561-577 | Every block begins with the last-block flag and its type, least significant bit first: 0 stored, 2 dynamic |
| `SdeflWrite.PutMatch` | tools/sdefl.h:514-528 | Length and distance symbols and their extra bits, as section 3.2.5 of RFC 1951 has them |
| `SdeflPut.BitWriter.Put` | tools/sdefl.h:233-244 | Appends exactly the given bits to the stream of whole bytes and accumulator |
| `MatchCodes.LengthCode` | tools/sdefl.h:446-475 | Every length is its slot base plus extra bits that fit |
| `MatchCodes.DistCode` | tools/sdefl.h:446-475 | Every distance is its symbol base plus exactly as many extra bits as the symbol has |
| `MatchCodes.LengthTable` | tools/sinfl.h:374-377 | The length slots tile 3..257 in order, in groups of four with one extra bit more each, and the last one is 258 alone |
| `MatchCodes.DistTable` | tools/sinfl.h:370-373 | The distance symbols tile 1..32768 in order, in pairs with one extra bit more each |
| `MatchCodes.LastSlot` | tools/sdefl.h:449-464 | Only the length 258 uses the last slot, although the one before it could express it |
| `HeapSort.Sort` | tools/sdefl.h:245-272 | The segment becomes sorted and a permutation of what it was; nothing else changes |
| `HuffSort.SortSym` | tools/sdefl.h:273-296 | The used symbols are listed once each with their frequencies, rarest first; unused ones get length 0 |
| `HuffTree.BuildTree` | tools/sdefl.h:297-314 | In place, the array comes to hold the parents of the two-queue tree over the old weights, and the symbols stay |
| `HuffTree.JoinGrows` | tools/sdefl.h:297-314 | Every step keeps parents above their sons and monotone, and gives every inner node exactly two sons |
| `HuffLens.GenLenCnt` | tools/sdefl.h:315-339 | The leaf counts fill the code space exactly at every limit, count every leaf once, and are those of the tree if it keeps the limit by itself |
| `HuffLens.CountsStep` | tools/sdefl.h:322-338 | Every step finds a non-empty shorter length, keeps the Kraft sum at exactly 1 and adds one leaf |
| `HuffLens.DepthMono` | tools/sdefl.h:322-338 | Depths of inner nodes fall with the index |
| `HuffLens.FindShorter` | tools/sdefl.h:332-336 | The search for a shorter length ends at the deepest non-empty one |
| `HuffCodes.AssignLens` | tools/sdefl.h:340-346 | The longest lengths go to the rarest symbols, as many of each as counted |
| `HuffCodes.RevCorrect` | tools/sdefl.h:354-361 | Masking and shifting reverses the bits |
| `HuffCodes.Huff` | tools/sdefl.h:362-382 | Every used symbol gets a length in 1..max, the code is complete (also with one used symbol) and canonical, the codewords are bit-reversed; and if the tree keeps the limit by itself no prefix code for these frequencies is shorter |
| `HuffCodes.DealtOptimal` | tools/sdefl.h:297-346 | Lengths dealt out along the exact leaf counts give an optimal prefix code |
| `HuffOptimal.TreeOptimal` | tools/sdefl.h:297-314 | The tree over two or more sorted weights costs no more than any set of words of which none starts another |
| `HuffOptimal.TreeBound` | tools/sdefl.h:297-314 | From any state of the two queues on, the weights of the inner nodes still to be made are a lower bound for every code |
| `HuffOptimal.MergeLightest` | tools/sdefl.h:297-314 | Any code can be changed, without cost, so that its two lightest words are brothers, and merging them saves their weight |
| `HuffOptimal.TreeCost` | tools/sdefl.h:297-339 | The leaves cost what the inner nodes weigh |
| `HuffOptimal.LeafCount` | tools/sdefl.h:315-339 | The leaves of a depth are twice the inner nodes above less the inner nodes at that depth |
| `HuffOptimal.HeightBound` | tools/sdefl.h:297-339 | A tree with leaves at depth h weighs at least the Fibonacci number of h + 2 |
| `HuffCodes.DealtBrief` | tools/sdefl.h:315-346 | So no length exceeds d while the frequencies add up to less than the Fibonacci number of d + 3 |
| `HuffCodes.FewShallow` | tools/sdefl.h:297-339 | The tree keeps the limit by itself, and the code is optimal, while the frequencies of two or more symbols add up to less than the Fibonacci number of max + 3: 1597 for literals and lengths |
| `HuffOptimal.KraftHolds` | tools/sdefl.h:340-353 | Words of which none starts another satisfy the Kraft inequality |
| `Canonical.PrefixFree` | tools/sdefl.h:340-353 | Canonical codes of a length vector that is not oversubscribed are prefix-free |
| `Standard.CodeOrder` | tools/sdefl.h:347-353 | Codes of one length are consecutive in the order of the symbols, shorter ones come before all extensions of longer ones, and the first is zero, as section 3.2.2 of RFC 1951 has it |
| `Canonical.SymUnique` | tools/sinfl.h:353-366 | At most one symbol can be read at any place of any bit string |
| `Canonical.SymExists` | tools/sinfl.h:353-366 | A complete code reads a symbol from every bit string that is long enough |
| `Precode.Precode` | tools/sdefl.h:388-442 | Expanding the items with the 16/17/18 rules gives back both length vectors, also where a run crosses from one to the other, and the counters count the items |
| `Standard.Runs` | tools/sdefl.h:388-442 | What every item adds to the lengths: symbol 16 repeats the last one 3..6 times, 17 gives 3..10 zeros, 18 gives 11..138, others themselves |
| `Standard.PreOrder` | tools/sdefl.h:539-540 | The code length code lengths are sent in the order 16, 17, 18, 0 and then outwards from 8 |
| `SinflDecompress.Decompress` | tools/sinfl.h:367-567 | The state machine computes exactly the bit-level reference decoder wherever that is defined, and writes nothing at or behind `cap` |
| `SinflDecompress.Step` | tools/sinfl.h:463-564 | What happens between two refills: one or two literals, a match, the end of the block or a halt |
| `SinflDecompress.FixedComplete` | tools/sinfl.h:420-433 | The fixed codes of section 3.2.6 of RFC 1951 are complete |
| `Standard.FixedLitCodes` | tools/sinfl.h:420-433 | The fixed literal/length code has the lengths and code values of the table in section 3.2.6 of RFC 1951: from 00110000, 110010000, 0000000 and 11000000 on |
| `Standard.FixedDstCodes` | tools/sinfl.h:420-433 | The fixed distance codes are the five-bit numbers |
| `SinflBlocks.DynBlock` | tools/sinfl.h:434-462 | The header of a dynamic block: code lengths are read as the reference decoder reads them, and the tables are right for them |
| `SinflBlocks.StoredBlock` | tools/sinfl.h:401-419 | A stored block: its bytes are copied, a bad, long or zero length halts |
| `Sinfl.Sinfl.Refill` | tools/sinfl.h:211-216 | OR-ing eight overlapping bytes in leaves the position unchanged and 56..63 right bits in the buffer |
| `SinflBits.RefillOk` | tools/sinfl.h:211-216 | The invariant behind it: the low `bitcnt` bits are the next stream bits, every higher bit is zero or already right, and `bitcnt | 56` counts the bytes taken |
| `Sinfl.Sinfl.Peek` | tools/sinfl.h:217-222 | The next bits of the stream |
| `Sinfl.Sinfl.Eat` | tools/sinfl.h:223-228 | The position advances by the bits eaten |
| `Sinfl.Sinfl.Decode` | tools/sinfl.h:353-366 | The lookup returns the unique symbol whose codeword comes next and eats exactly its bits |
| `SinflBits.SymFound` | tools/sinfl.h:353-366 | With at least 15 bits in the buffer the two-level tables lead to the next symbol |
| `SinflBuild.Build` | tools/sinfl.h:322-352 | For every length vector that is not oversubscribed the tables are right: sorted by length, then filled; an incomplete code reads symbol 0 |
| `SinflTables.BuildTbl` | tools/sinfl.h:246-276 | The main table, doubled in place, holds every short codeword at all indices that start with it, and none is overwritten |
| `SinflSubTables.BuildSubTbl` | tools/sinfl.h:277-321 | Every long codeword is found through its link, sub-tables do not overlap and are as large as needed |
| `SinflBuild.PlaceDistinct` | tools/sinfl.h:332-342 | The counting sort gives every symbol a place of its own |
| `CopyMatch.Copy` | tools/sinfl.h:493-562 | All variants of the match copy, SIMD, word, run of one byte and plain, leave exactly the bytes of the rule out[i] = out[i - offs], and their overshoot stays below `cap` under the 48-byte or 21-byte guard |
| `CopyMatch.RepeatsCopy` | tools/sinfl.h:493-562 | That rule determines the copy |
| `Adler.Adler32` | tools/sdefl.h:734-764 | The unrolled checksum with one reduction for 5552 bytes equals the byte-by-byte definition of section 2.2 of RFC 1950 |
| `Adler.AddChunk` | tools/sinfl.h:572-598 | Within a chunk neither sum reaches 32 bits |
| `Adler.ChecksumConcat` | tools/sinfl.h:572-598 | A checksum can be continued |
| `Standard.ChecksumIs` | tools/sdefl.h:734-764 | The two sums in closed form: one plus all bytes, and the number of bytes plus every byte times the number of bytes from it on, both modulo 65521 |
| `Zlib.Zsdeflate` | tools/sdefl.h:765-783 | Header, encoded input, big-endian checksum |
| `Zlib.Zsinflate` | tools/sinfl.h:599-611 | The result is the number of bytes exactly if the stored checksum is that of the output, else -1 |
| `Zlib.ZRoundTrip` | tools/sdefl.h:765-783 | A zlib stream expands to its input, also to the empty one, exactly under the budget condition |
| `Zlib.ZCompressExpand` | tools/sdefl.h:765-783 | Every input of up to 3947 bytes survives the wrapper and its checksum is accepted |
| `CdbwGraph.Peel` | tools/tic/cdbw.c:372-392 | Peeling succeeds exactly if some order removes all edges; on failure every vertex of the edges left is on at least two of them; on success the recorded order is such an order |
| `CdbwGraph.Peeler.ChangeEdge` | tools/tic/cdbw.c:310-322 | Degree and XOR of the three vertices change by the edge, nothing else does |
| `CdbwGraph.Peeler.RemoveVertex` | tools/tic/cdbw.c:324-335 | Removing a vertex of degree one keeps degree and XOR equal to the count and the XOR of the edges left |
| `CdbwGraph.RemoveEdge` | tools/tic/cdbw.c:310-335 | The incidence invariant behind it |
| `CdbwGraph.StuckNotPeelable` | tools/tic/cdbw.c:372-392 | Edges without a vertex of degree one have no peeling order |
| `CdbwAssign.AssignNodes` | tools/tic/cdbw.c:394-423 | Every edge has an unvisited vertex when its turn comes, and at the end all edges have their sums at once |
| `CdbwAssign.AssignExact` | tools/tic/cdbw.c:417-418 | The 32-bit computation is right for all edges if and only if three times the number of entries is at most 2^32 or the number divides 2^32; the source allows more |
| `Cdbw.Output` | tools/tic/cdbw.c:515-570 | With the number of vertices 10 or keys + (keys + 3) / 4, a round succeeds exactly if the seed gives every key three different vertices and the keys can be removed one by one, each with a vertex of its own; then for every key the sum of the three values at its hashes modulo the number of values, modulo the number of data, is the index of its data |
| `Cdbw.MakeEdges` | tools/tic/cdbw.c:337-371 | Fails exactly if some key has the same vertex twice |
| `Cdbw.Cdbw.Put` | tools/tic/cdbw.c:93-111 | On success the data is appended and the key leads to it; it fails exactly for a known key or a full table, and then changes nothing |
| `Cdbw.Cdbw.PutData` | tools/tic/cdbw.c:113-158 | Appends, unless a counter or the total size is at its limit |
| `Cdbw.Cdbw.PutKey` | tools/tic/cdbw.c:160-233 | Adds the key to the table unless it is there, also when the table grows |
| `Cdbw.Resize` | tools/tic/cdbw.c:209-230 | Moving all entries to a table twice as large keeps the map it stands for |
| `TermBuf.CapBuf.Find` | tools/tic/compile.c:186-216 | The scan over packed records finds a capability exactly if there is one, and the first one |
| `TermBuf.ExtraBuf.Find` | tools/tic/compile.c:218-250 | The same for named records |
| `TermBuf.CapBuf.Append` | tools/tic/compile.c:549-583 | One more packed record |
| `TermBuf.ExtraBuf.Cut` | tools/tic/tic.c:491-507 | Moving the tail of the buffer down removes exactly one record |
| `TermBuf.Dec32Reads` | tools/tic/term_private.h:196-248 | Decoding gives back the 32-bit number that was encoded |
| `TermMerge.Merge` | tools/tic/tic.c:252-334 | In the packed buffers, the left-biased merge of all four lists |
| `TermMerge.MergeLookup` | tools/tic/tic.c:252-334 | The rule for one capability in one merge: own value or cancellation first, then the first valid value of the used entry; cancellations block but are not inherited |
| `TermMerge.MergeLookupExtra` | tools/tic/tic.c:252-334 | The rule for a named record: the same if unknown capabilities are kept, else nothing is inherited |
| `TermMerge.UniqueValid` | tools/tic/tic.c:252-334 | In a list without duplicates the first valid value is the value |
| `TermMerge.MergeNoDup` | tools/tic/tic.c:252-334 | Merging makes no duplicates |
| `TermMerge.CancelledBlocked` | tools/tic/term_private.h:96-104 | An absent or cancelled value (flags 255 and 254, numbers -1 and -2, the empty string) is never inherited, and a flag 0 or 1, a number from 0 on or a non-empty string always is found |
| `TermMerge.CancelledBlockedExtra` | tools/tic/term_private.h:96-104 | The same for named records |
| `TermMerge.StoreExtra` | tools/tic/compile.c:290-345 | `use` records are always appended, others only if they are new and wanted |
| `TermUse.MergeUse` | tools/tic/tic.c:416-516 | One pass over the entries is a run of as many steps as it reports; a pass without a step is a state in which none is possible, and "circular" then means that some entry waits |
| `TermUse.Resolve` | tools/tic/tic.c:715-717 | The passes end, and together are a run to a state in which no step is possible |
| `TermUse.ResolveAll` | tools/tic/tic.c:416-516 | Stated on the records themselves: a record needs entry j if it is the string `name` with a zero byte, the lookup finds j under that name, and neither it nor the name of j is the own name. With string-typed `use` records, "circular" is reported exactly if entries need each other in a circle. In every set of entries that needs none outside and has no circle, also when one is reported elsewhere, no `use` record is left, and every capability has its own value or cancellation at first, else what the first of the records offers whose entry ends with a valid value; named records the same if unknown ones are kept. Without a circle the final records are the only solution of the recursive rule |
| `TermUse.NeedsIs` | tools/tic/tic.c:434-470 | The entries that an entry waits for in the state machine are exactly those that its records need |
| `TermUse.InheritedIs` | tools/tic/tic.c:434-490 | The value inherited in the state machine is what the first of the records offers that offers one |
| `TermUse.CircleIs` | tools/tic/tic.c:513-514 | The circles of records are the cycles of the state machine |
| `TermResolve.FoldLookup` | tools/tic/tic.c:416-516 | The left-biased rule for an indexed capability over all `use` records of an entry, in their order |
| `TermResolve.FoldLookupExtra` | tools/tic/tic.c:416-516 | The same for named records, which are inherited only if unknown capabilities are kept |
| `TermResolve.SolutionsAreLeftBiased` | tools/tic/tic.c:416-516 | Any solution of the recursive rule has these values everywhere, and no list in it gains duplicates |
| `TermResolve.RunBounded` | tools/tic/tic.c:439-515 | Every step takes exactly one `use` record away, so the passes end |
| `TermResolve.Confluence` | tools/tic/tic.c:416-516 | Whatever the order of steps, the final values are the one solution of the recursive rule |
| `TermResolve.SameResult` | tools/tic/tic.c:416-516 | Two runs from the same entries that resolve them end in the same values |
| `TermResolve.RunCycle` | tools/tic/tic.c:416-516 | No step makes or breaks a cycle |
| `TermResolve.ResolvedExact` | tools/tic/tic.c:513-514 | A run that has come to its end has resolved all entries exactly if there was no cycle |
| `Scroll.Term.constructor` | src/term.c:58-90 | The start state: an empty log and a blank screen |
| `Scroll.TestExact` | src/term.c:71-72 | The test on the history size lets exactly the powers of two pass |
| `Scroll.MaskIs` | src/term.h:39-41 | Masking is the remainder, also for the negative numbers in the macro |
| `Scroll.Term.TLine` | src/term.h:39-41 | A row of the view is the line of the log `scr` lines before its end, or from row `scr` on a row of the screen |
| `Scroll.Term.TScrollUp` | src/scroll.c:182-257 | The first line of the screen is appended to the log, the others move up, the last one is blank; a view that is scrolled back goes back one line further, below the bound of the ring; and no line is in two places of ring and screen |
| `Scroll.PushPointers` | src/scroll.c:190-226 | Swapping a line through the ring keeps all line pointers different |
| `Scroll.PushHolds` | src/scroll.c:190-226 | The ring still holds the last lines of the log at their places |
| `Scroll.Term.TNewLine` | src/scroll.c:259-271 | At the bottom the screen scrolls, elsewhere only the cursor moves |
| `Scroll.Term.KScrollUp` | src/scroll.c:64-87 | While no more lines are asked for than the ring has, the first row in view becomes line |log| - scr - m of log and screen, or the first line; the state stays valid if and only if no more lines are asked for than the ring has or the ring has not come round, because the guard is unsigned |
| `Scroll.PageUpBreaks` | src/scroll.c:64-87 | That state is reached: more rows than the ring has places, as many new lines as places once the cursor is at the bottom, then a page up |
| `Scroll.Term.KScrollDown` | src/scroll.c:17-39 | The view moves down m lines, at most to the bottom; an argument below minus the number of rows moves it up, and the state stays valid exactly if it then does not pass the end of the log or of the ring |
| `Scroll.Term.ScrollToTop` | src/scroll.c:52-61 | `scr` becomes the smaller of the size of the ring and the length of the log, and the first row in view is the oldest line that is kept |
| `Scroll.Term.ScrollToBottom` | src/scroll.c:41-50 | `scr` becomes 0 and the view shows the screen |
| `Scroll.Term.Perform` | src/scroll.c:17-271 | Any run of output and scroll keys refines the log: state and screen are those of the specification |
| `Scroll.LogGrows` | src/scroll.c:182-257 | The log that the model keeps only grows, over any run of operations; the ring holds its last `hist.Length` lines (part of `Valid`) |
| `Scroll.ViewStays` | src/scroll.c:229-231 | Output below a view that is scrolled back changes no visible row, while the number of lines back stays below the size of the ring |
| `Scroll.ViewMoves` | src/scroll.c:229-231 | From then on every new line moves the view by one |

## Left out

- Optimality when the length limit is reached: the limited code is proved complete and within the limit only.
- The round trip for inputs over 3947 bytes is stated with the bit budget of the blocks as its exact condition; whether the compressor ever chooses codes that exceed it is not decided: the counterexample is a legal stream, but not shown to be a run of the compressor. An input of size 0 is undefined too: the source then reads on into the bytes behind it.
- Growing output: the compressor appends to a sequence instead of writing through a pointer; `sdefl_bound` is not stated (it counts the pieces of the whole input, a flush those of each 256 KiB block), the bound of each flush is.
- The capacity of the sequence array and its assertion (`SDEFL_SEQ_SIZ`): the sequences grow without limit.
- The table sizes 1334 and 402: tables are 32768 entries longer than their index range, so that no search for the largest need enters.
- Bytes behind the input: 15 are required to be readable (17 with the zlib header), as many as refills at the end can touch.
- Inputs on which the source asserts, reads or writes outside its buffers (among them oversubscribed codes and outputs beyond `cap`): the reference decoder says `Undefined`, and nothing is claimed.
- Symbol weights are unbounded; in the source they are 22-bit numbers, enough for the symbols of one 256 KiB block.
- The length slot table is written as ranges; SIMD registers are blocks of 8 or 16 bytes.
- `mi_vector_hash` is an arbitrary function of key and seed; that some seed is good is not proved, `Output` is one round of the search.
- `& (hash_size - 1)` is written as a remainder; the sizes are powers of two.
- `print_hash`, file output, the case of an empty database, and failures of `malloc` everywhere.
- String `use` records without a terminated name: one with an empty payload, which the source would read past, is excluded by `UsesNamed`.
- `TERMINFO_COMPAT`, warnings, and the parsing of entries; names are looked up in a fixed map, and string values are shorter than 32768 bytes.
- Scroll regions that are not the whole screen, the alternate screen, `tscrolldown`, marks, less mode, selections, line widths and resizing; `scr` and `histindex` are unbounded numbers.
- X11, fonts, drawing, processes and the other parts that are input and output.
