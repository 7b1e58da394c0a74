# DEFLATE and the ZIP central directory of cziplib, verified

A Dafny model of the compression library that ships in `deps/cziplib/src`: the whole DEFLATE codec of `miniz.h`
(`tdefl_*` and `tinfl_*`, RFC 1951), Adler-32 (RFC 1950), and the central directory of ZIP archives with its name index and
ZIP64 fields (`miniz.h` and `zip.c`). Check it with `dafny verify dfyconfig.toml`.

## What is proved

**Compressing and decompressing gives back the input.** `Sessions.RoundTripWhole`: for every input, all options and any
room for each call, a whole run of the compressor ends, and each of the three whole-stream decompressors gives back exactly
the input. `Runs.Session` is the same for any sequence of calls with any flush modes. There is no condition that no byte be
dropped: `BlockSize.DynamicFits` and `Capacity.StaticFits` show that every block the compressor can build fits its output.

**What the decompressor makes of any input at all.** `Accept.MeaningIn` says on the bits what is to be made of a stream, RFC 1951
or not: RFC 1951 (`Accept.PlainMeaning`), and where the decoder takes more than that. `Inflater.Decompress` and the drivers in
`Sessions` report success exactly for what this gives a meaning, with exactly that output, and fail for nothing else.

**The compressor finds what its search can reach.** The hash chains hold every place of the window in order (`HashChains`), and no
match that they offer within the probes is missed (`Window.Win.Find`, `Compressor.Deflater.ParseStep`). Blocks are stored exactly
when the compressed form would be larger (`Compressor.Deflater.PutBlock`), which bounds what a flush puts.

The layers below it, each with its own statement:

- *Specification* (`Bits`, `Lz`, `Canonical`, `Inflate`, `Accept`, `Stream`): `Inflate.Meaning` says what bytes a bit stream stands
  for, section by section of RFC 1951; `Accept.MeaningIn` what the decoder makes of any bits. `Stream` says what it means for bits
  to be a run of blocks, or a whole stream, for some data.
- *Huffman construction* (`RadixSort`, `Sums`, `PrefixCost`, `MergeTree`, `NodeDepths`, `TreeCost`, `MinRedundancy`,
  `CodeLimit`, `LimitCost`, `SymbolLists`, `HuffTable`, `FixedCode`): the in-place pass leaves a code of Kraft sum 1 and lengths
  of at most 22 that no prefix code beats (Huffman's theorem); limiting it to 15 bits ends, keeps Kraft sum 1, and costs at
  most 2n/540 bits more per symbol.
- *Blocks* (`BitWriter`, `CodeLengths`, `DynamicHeader`, `LzCodes`, `LzBuffer`, `Emitter`, `FastEmitter`, `FixedCode`,
  `Capacity`, `BlockSize`, `Block`, `Flushing`): headers and bodies read back; both emitters put the same bits.
- *Parsing and calls* (`HashChains`, `MatchFinder`, `Window`, `Parse`, `Compressor`, `Runs`): `tdefl_compress_normal` and
  `tdefl_compress_fast` keep the records equal to the data and overlook no match they could take; both match finders agree;
  `Deflater.Compress` relates the bytes taken and the bytes handed out over any number of calls.
- *Decompressor* (`DecodeTable`, `HuffDecode`, `HuffTab`, `HuffTail`, `BitReader`, `MatchCopy`, `OutSink`, `Resume`, `Inflater`,
  `Sessions`): the coroutine is a state machine whose every step keeps what is left to do equal to what is to be made of the
  stream, so that cuts of input and output make no difference.
- *Archive* (`LittleEndian`, `ZipIndex`, `ZipRecord`, `ZipDirectory`) and `Adler32`; `Arith` holds lemmas about whole numbers.

The C code's classes with fields (`tdefl_compressor`, `tinfl_decompressor`, its tables, the archive) are Dafny classes, its
loops are loops, and every method that changes state is specified by what the new state stands for. Sizes and counts are
mathematical integers; that 16-, 32- and 64-bit variables hold them is proved where it matters (`LzBuffer.FewRecords`,
`BitWriter.PutRange`, `FastEmitter.PutFast`, `NodeDepths.DepthBound`, `Adler32.PlainFits`).

## Model

| member | source | states |
|---|---|---|
| Canonical.PrefixFree | deps/cziplib/src/miniz.h:4352-4360 | Once the decoder's check on the code lengths has passed, no code word of the numbering `next_code` is the front of another symbol's |
| Canonical.StartsUnique | deps/cziplib/src/miniz.h:4352-4360 | At most one symbol's code word begins a bit string |
| Canonical.LongCodesFollow | deps/cziplib/src/miniz.h:4353-4357 | Doubling the running total at each length numbers the fronts of long code words after all shorter code words |
| Canonical.ReadWrittenSym | deps/cziplib/src/miniz.h:4172-4199 | A symbol whose code word is written is the one that reading finds, whatever follows it |
| RadixSort.RadixSortSyms | deps/cziplib/src/miniz.h:2548-2578 | One of the two arrays holds the symbols in order of frequency, and the same symbols as before, also when the second pass is skipped |
| PrefixCost.Merge | deps/cziplib/src/miniz.h:2593-2604 | Joining the two lightest weights loses nothing but their sum: a lower bound on the cost of all prefix codes for the joined list gives one for the original list |
| MergeTree.BuildParents | deps/cziplib/src/miniz.h:2590-2604 | The building loop never overwrites a node it still needs: the array ends up holding the parents in a tree that greedily joins the two lightest weights left |
| NodeDepths.DepthBound | deps/cziplib/src/miniz.h:2590-2607 | With 16-bit weights no internal node is deeper than 21, by the growth of Fibonacci numbers, so the 33 entries of `num_codes` are never overrun |
| TreeCost.NoneCheaper | deps/cziplib/src/miniz.h:2593-2604 | No prefix code for the leaves costs less than the internal nodes weigh together |
| TreeCost.CostOfTree | deps/cziplib/src/miniz.h:2605-2625 | The lengths read off level by level cost exactly what the internal nodes weigh together |
| TreeCost.TreeIsOptimal | deps/cziplib/src/miniz.h:2582-2625 | Huffman's theorem for those lengths: they cost no more than the lengths of any prefix code |
| TreeCost.LeafShare | deps/cziplib/src/miniz.h:2582-2625 | A symbol with l bits makes the whole weigh its share of a Fibonacci number: only rare symbols have long code words |
| MinRedundancy.MinimumRedundancy | deps/cziplib/src/miniz.h:2582-2625 | For sorted positive frequencies whose sum fits 16 bits, the array ends up with nonincreasing lengths from 1 to 22 of Kraft sum exactly 1, whose weighted total is minimal among all prefix codes |
| CodeLimit.EnforceMaxCodeSize | deps/cziplib/src/miniz.h:2629-2650 | From Kraft sum 1 and at most 2^max code words the loop ends with Kraft sum 1, as many code words, none longer than max and no negative count, and code words shorter than the last one demoted left alone |
| LimitCost.LimitedCost | deps/cziplib/src/miniz.h:2629-2650 | Limiting to 15 bits adds at most 2n/540 bits per symbol to the cost, n being the number of symbols |
| HuffTable.OptimizeHuffmanTable | deps/cziplib/src/miniz.h:2652-2701 | Exactly the symbols that occur get code words, the decoder accepts the code, it is nearly the cheapest there is, and `m_huff_codes` holds the canonical code words with their bits in stream order; static tables keep their lengths |
| BitWriter.Writer.PutBits | deps/cziplib/src/miniz.h:2703-2717 | The bits are appended to all bits put so far; bytes are dropped only past the limit, and none was dropped while the limit is not reached |
| BitWriter.PutRange | deps/cziplib/src/miniz.h:2708-2709 | The accumulator stays below 2^(pending + new bits), 23 bits at most |
| CodeLengths.PackLengths | deps/cziplib/src/miniz.h:2719-2759 | The packed code sizes unroll to the given lengths, send runs as runs, fit the 320 entries, and `m_huff_count[2]` counts the symbols used |
| CodeLengths.CompactRuns | deps/cziplib/src/miniz.h:2789-2819 | Sending runs as runs: no three zeros and no four other equal lengths in a row are sent one by one |
| DynamicHeader.TrimmedSize | deps/cziplib/src/miniz.h:2778-2783 | All code lengths that are not zero are sent, and no zeros behind them beyond the least number |
| CodeLengths.ReadTokens | deps/cziplib/src/miniz.h:4402-4419 | Reading the bits of packed lengths with symbols 16, 17 and 18 gives the lengths they unroll to, whatever follows |
| DynamicHeader.ReadHeader | deps/cziplib/src/miniz.h:2764-2847 | The decoder reads a dynamic block's header back as the same literal and distance code lengths, and stops right behind it |
| LzCodes.LengthTables | deps/cziplib/src/miniz.h:2440-2471 | The compressor's length symbol and extra bits, read with the decoder's base and extra tables, give the length back |
| LzCodes.DistanceTables | deps/cziplib/src/miniz.h:2473-2541 | The same for distances, through the two tables for small and large ones |
| LzCodes.ReadWrittenBody | deps/cziplib/src/miniz.h:2971-3012 | The bits of records and of the end of the block decode to the bytes that the records stand for |
| LzBuffer.Buffer.RecordLiteral | deps/cziplib/src/miniz.h:3474-3484 | The packed buffer holds one more literal behind its flag bit, the counts count it, and nothing else changes |
| LzBuffer.Buffer.RecordMatch | deps/cziplib/src/miniz.h:3486-3512 | The same for a match and its two symbols |
| LzBuffer.FewRecords | deps/cziplib/src/miniz.h:3474-3512 | A buffer of 64 KB holds fewer than 58255 records, so no 16-bit count or sum of counts wraps |
| Emitter.CompressLzCodes | deps/cziplib/src/miniz.h:2971-3012 | Exactly the bits of the buffer's records and the end of the block are put, and the result is true exactly when they all fit |
| FastEmitter.CompressLzCodesFast | deps/cziplib/src/miniz.h:2876-2969 | The 64-bit emitter succeeds under exactly the same condition, with exactly the same bits, and stores at most 7 bytes past the limit |
| FastEmitter.SameState | deps/cziplib/src/miniz.h:2876-3012 | Two writers that hold the same bits with room left agree on bytes, accumulator and bit count: on success both emitters leave the same state |
| FastEmitter.PutFast | deps/cziplib/src/miniz.h:2884-2888 | The 64-bit accumulator is never exceeded |
| Capacity.StaticFits | deps/cziplib/src/miniz.h:797-816 | Whatever the code buffer holds, as a fixed block it takes fewer bits than `TDEFL_OUT_BUF_SIZE - 16` bytes |
| BlockSize.DynamicAgainstFixed | deps/cziplib/src/miniz.h:3085-3091 | With codes made for the counts, a block's body takes at most what the fixed codes would, and 2n/540 bits for each symbol |
| BlockSize.DynamicFits | deps/cziplib/src/miniz.h:3085-3091 | Whatever the code buffer holds, the body of a dynamic block stays below a bound that leaves room for the longest header and trailer: the fallback for blocks that do not fit is never needed |
| Block.StartStaticBlock | deps/cziplib/src/miniz.h:2849-2868 | The tables become the fixed code and the block type is put |
| Block.StartDynamicBlock | deps/cziplib/src/miniz.h:2764-2847 | The bits put are a header that reads back as codes with a code word for every symbol that the records need, with no trailing zeros in any of its three lists and runs sent as runs |
| Block.CompressStatic | deps/cziplib/src/miniz.h:3016-3022 | A fixed block's body decodes, after any data, to what the records make of it |
| Block.CompressDynamic | deps/cziplib/src/miniz.h:3016-3022 | The same for a dynamic block, which always fits |
| Flushing.PutStored | deps/cziplib/src/miniz.h:3072-3083 | The stored fallback puts padding, LEN, its complement and exactly the bytes from the block's start on, all of them still in the ring, and the running count is back as it was |
| Flushing.PutTrailer | deps/cziplib/src/miniz.h:3093-3115 | A finish pads to a byte, a flush appends an empty stored block, no flush appends nothing |
| Stream.FlushStands | deps/cziplib/src/miniz.h:3024-3129 | A flush takes a stream that stands for some data to one that stands for what its block's body makes of the data, open or ended |
| MatchFinder.SearchSound | deps/cziplib/src/miniz.h:3230-3275 | Whatever the hash chains hold, a reported match is a true one within reach, and longer than the one before |
| MatchFinder.SearchFinds | deps/cziplib/src/miniz.h:3230-3275 | The search is complete: what the first places of a chain agree on with the lookahead, within the probes, is not longer than what is found |
| MatchFinder.FindMatch | deps/cziplib/src/miniz.h:3230-3275 | The byte-at-a-time finder computes the function `Search` |
| MatchFinder.FindMatchFast | deps/cziplib/src/miniz.h:3170-3228 | Started with at least two bytes, the two-bytes-at-a-time finder computes the same function: same distance, same length |
| HashChains.LinkPlace | deps/cziplib/src/miniz.h:3563-3564 | The two assignments keep the chains: `m_hash` leads to the latest place with each hash, and `m_next` from each place to the one before it with its hash, as 16-bit positions |
| HashChains.LinksBack | deps/cziplib/src/miniz.h:3242-3258 | Following j links from a place arrives at the j-th place before it with the same hash, as long as none of them is position 0 of 65536 or beyond reach |
| HashChains.MarkPlace | deps/cziplib/src/miniz.h:3331 | The one assignment of the fast parser keeps its table: the latest place looked up with each hash |
| Window.Win.Link | deps/cziplib/src/miniz.h:3563-3564 | The chains hold one more place |
| Window.Win.Fill | deps/cziplib/src/miniz.h:3519-3569 | The ring and its mirror hold the last 32 KB of the input, and the chains all its places with three bytes, once more bytes are taken, with the rolling hash or without |
| Window.Win.Find | deps/cziplib/src/miniz.h:3230-3275 | The match found is a true one in reach, longer than the length to beat, and as long as any that a place within that many links of the chain has with the lookahead |
| Window.Win.FindRun | deps/cziplib/src/miniz.h:3579-3592 | The run of the last byte is exactly as long as it goes on in the lookahead |
| Window.Win.FillFast | deps/cziplib/src/miniz.h:3301-3319 | The same for chunks copied with `memcpy` around the ring's end |
| Window.Win.FindFast | deps/cziplib/src/miniz.h:3324-3365 | The match of the fast parser is a true one of at least 3 bytes inside lookahead and dictionary, also when 16-bit positions collide at distance 0, and no shorter than what the place last looked up with its hash offers |
| Compressor.Deflater.ChooseMatch | deps/cziplib/src/miniz.h:3574-3602 | The match considered is a true one, no shorter than any that the chain offers within the probes for the saved length, or than the run if only runs are looked for, unless the options or the rules for short far matches turn that down |
| Compressor.Deflater.ParseStep | deps/cziplib/src/miniz.h:3573-3637 | Expanding the records gives the input up to the lookahead, less one byte while a match is saved; the saved match is a true one; none is saved when the lookahead is empty; and what is recorded and saved about the match considered follows the table of lazy and greedy parsing |
| Compressor.Deflater.FastStep | deps/cziplib/src/miniz.h:3323-3406 | Expanding the records gives the input up to the lookahead after a turn of the fast parser, which takes a match as long as any on offer |
| Compressor.Deflater.Turn | deps/cziplib/src/miniz.h:3573-3649 | A block is ended in time and not before: beyond 31 KB it goes on only while its records take less room than the data, never if it is to be stored, and it ends only beyond 31 KB or with the code buffer full |
| Compressor.Deflater.PutBlock | deps/cziplib/src/miniz.h:3054-3091 | A block is stored exactly if the dictionary holds its bytes and either that is forced or the compressed form, whose size is bounded, would expand; otherwise it is the compressed form of the kind that its size and the options give |
| Compressor.Deflater.RawBlock | deps/cziplib/src/miniz.h:3063-3084 | A block that is taken back is stored instead, with exactly the bytes that its records stand for |
| Compressor.Deflater.FlushBlock | deps/cziplib/src/miniz.h:3024-3129 | The bytes sent and the bits pending stand for the input up to where the records go, whichever kind of block is chosen; data that the dictionary holds takes at most 6 bytes more than it has, or 11 with a sync or full flush; every block is stored if that is forced; and the output is not used up |
| Compressor.Deflater.CompressNormal | deps/cziplib/src/miniz.h:3514-3656 | Input is parsed until it is used up or output is pending, and the invariants of parser and stream hold between turns |
| Compressor.Deflater.CompressFast | deps/cziplib/src/miniz.h:3288-3471 | The same for the fast parser |
| Compressor.Deflater.Compress | deps/cziplib/src/miniz.h:3679-3749 | What a call takes and hands out: DoneAll means that all output is a whole stream for all input, a flush that leaves room makes the input so far decodable, a finish that leaves room is DoneAll, and a call is refused exactly after an end or a fault or when a finish is taken back |
| Runs.Session | deps/cziplib/src/miniz.h:3679-3749 | Every call of every sequence of calls is served as its flush mode promises, over the total input and output so far |
| Runs.SessionCloses | deps/cziplib/src/miniz.h:3679-3749 | If any call reports DoneAll, the bytes of all calls decode to exactly the bytes taken by all calls |
| Runs.Deflate | deps/cziplib/src/miniz.h:3679-3749 | Offering all the input with finish until DoneAll ends, whatever room each call has, with a whole stream for the input |
| DecodeTable.RoomForNode | deps/cziplib/src/miniz.h:4379-4399 | There is always room for one more node, so building never leaves the 576 entries of `m_tree` |
| HuffTab.Table.Build | deps/cziplib/src/miniz.h:4341-4400 | The code lengths are refused exactly when they are neither complete nor of at most one symbol, and otherwise the lookup and the tree represent their canonical code |
| HuffDecode.DecodeSafe | deps/cziplib/src/miniz.h:4186-4197 | Whatever the bits, decoding stays within the tables and gives a symbol and at most 15 bits |
| HuffDecode.DecodeRight | deps/cziplib/src/miniz.h:4186-4197 | If a code word begins the bits, its symbol and length are decoded |
| HuffDecode.DecodeMore | deps/cziplib/src/miniz.h:4137-4155 | While only the front of a code word is buffered, no code word is found in the bits there are, so another byte is asked for exactly when it is needed |
| HuffDecode.DecodeUnassigned | deps/cziplib/src/miniz.h:4358 | Bits that no code word begins, which only incomplete codes leave, give symbol 0 with no bits or more than ten |
| HuffDecode.DecodeEmpty | deps/cziplib/src/miniz.h:4358 | A code without symbols gives symbol 0 and takes no bits, so a stream with one is decoded into zeros without end |
| HuffTail.CompleteStarts | deps/cziplib/src/miniz.h:4352-4360 | In a code whose Kraft sum is 1, any 15 bits begin with a code word |
| HuffTail.FreeDecode | deps/cziplib/src/miniz.h:4186-4197 | What decoding makes of bits that no code word of a code with at most one symbol begins, exactly: symbol 0 of no bits, or of the bits up to the first set one if the code word is longer than ten bits and more than ten bits agree with it |
| HuffTail.SymbolTaken | deps/cziplib/src/miniz.h:4172-4199 | Whatever the code and the bits, the symbol taken from the bit buffer is the one that is to be read from the stream, and at the end of the input none is taken exactly if none can be read |
| HuffTab.Table.Decode | deps/cziplib/src/miniz.h:4186-4195 | The loop over lookup and tree computes `DecodeOf`, of which the lemmas above speak |
| Accept.PlainMeaning | deps/cziplib/src/miniz.h:4201-4646 | What the decoder is to make of a stream of RFC 1951 is what that stands for, whatever the ring held before |
| Accept.FreeMeaning | deps/cziplib/src/miniz.h:4201-4646 | Taking bits without a code word changes nothing of a stream that has none |
| MatchCopy.CopyMatch | deps/cziplib/src/miniz.h:4552-4588 | The eight-byte and three-byte paths write what `out[i] = out[i - dist]` says, for overlapping matches too, with distance 0 in a ring as a whole ring back |
| Inflater.Inflater.StepWrapped | deps/cziplib/src/miniz.h:4541-4551 | The byte loop for matches around the ring's end is the same rule, and can stop for room at any byte |
| Resume.RemainingGrows | deps/cziplib/src/miniz.h:4269-4591 | At every state, the output so far begins the output of the whole stream, and what is to be written next is part of it |
| Resume.BitsAreThere | deps/cziplib/src/miniz.h:4101-4126 | If something can be made of the stream, the bits that the next state reads are there |
| Resume.BadComplement | deps/cziplib/src/miniz.h:4280-4284 | Nothing can be made of a stream with a stored block whose LEN and NLEN are not complements |
| Inflater.RingSizes | deps/cziplib/src/miniz.h:4236-4243 | The sizes of a ring that are not refused are the powers of 2, and 0 |
| Inflater.Inflater.CheckHead | deps/cziplib/src/miniz.h:4280-4284 | A stored block goes on exactly if LEN and NLEN are complements, and fails otherwise: what is left to do stays what is to be made of the stream |
| Inflater.Inflater.DoStep | deps/cziplib/src/miniz.h:4251-4591 | Every step from every state, on any input, keeps what is left to do equal to what is to be made of the stream, fails only if that is nothing, uses input, writes output or goes down in rank, and stops only for the reason it gives |
| Inflater.Inflater.StepEnd | deps/cziplib/src/miniz.h:4593-4607 | At the end the position is right behind the last byte of the stream, in spite of read-ahead and put-back |
| Inflater.Inflater.Decompress | deps/cziplib/src/miniz.h:4201-4646 | Whatever the input, its cuts and the room: Done is reported only if something can be made of the input, with all the output that is and, if all bits belong to code words, the exact byte count; failure only if nothing can; before that the output so far begins it, input is asked for only when all was taken and more is needed, and room only when the buffer is full and more is to come |
| Sessions.PlainMade | deps/cziplib/src/miniz.h:4201-4646 | For a stream of RFC 1951, what the contracts below speak of is what it stands for, and all of its bits belong to code words |
| Sessions.PlainDecoded | deps/cziplib/src/miniz.h:4201-4646 | For such a stream any run gives the front of its output, all of it when done, and the exact number of bytes consumed |
| Sessions.MemToMem | deps/cziplib/src/miniz.h:4722-4735 | For every input: what something can be made of is decoded if there is room for it, and everything else is refused |
| Sessions.MemToHeap | deps/cziplib/src/miniz.h:4682-4720 | The same with a buffer that doubles, exactly if the capacity that the doubling arrives at can be had |
| Sessions.MemToCallback | deps/cziplib/src/miniz.h:4737-4768 | For every input and whatever the 32 KB ring holds at first: success exactly if something can be made of the input and the callback takes all of its pieces, which are then exactly that, and otherwise the front of it |
| Sessions.RingRun | deps/cziplib/src/miniz.h:4201-4252 | Any cut of any input into a ring gives the front of what can be made of it, is done only with all of it and never if that is nothing, and is done after at most as many calls as there are bytes of input and output |
| Sessions.FlatRun | deps/cziplib/src/miniz.h:4201-4252 | The same for any cut of input and room into one growing buffer |
| Sessions.RoundTrip | deps/cziplib/src/miniz.h:3679-4646 | Any run of the compressor that finishes, unpacked with any cuts through a ring, gives back the bytes taken, and enough calls get there |
| Sessions.RoundTripOnce | deps/cziplib/src/miniz.h:4722-4735 | One call with room for it gives back the input of any finished run |
| Sessions.RoundTripWhole | deps/cziplib/src/miniz.h:4681-4768 | Every input, compressed as a whole with any options, comes back from each of the three drivers |
| Adler32.Checksum | deps/cziplib/src/miniz.h:1799-1822 | With the modulo put off for 5552 bytes and eight bytes a turn, the checksum is the bytewise one of RFC 1950, and its halves are the sums of section 8.2: the bytes, and the bytes each weighted by its distance from the end, with the starting halves carried in, modulo 65521 |
| Adler32.PlainClosed | deps/cziplib/src/miniz.h:1806-1816 | The two running sums in closed form, for any start and any data |
| Adler32.PlainFits | deps/cziplib/src/miniz.h:4652-4671 | No 32-bit sum overflows within 5552 bytes |
| Adler32.AdlerConcat | deps/cziplib/src/miniz.h:4647-4672 | Checksumming a, then b from there, is checksumming a followed by b |
| ZipIndex.SortIndex | deps/cziplib/src/miniz.h:5389-5447 | The heapsort leaves the same entries, sorted by case-folded name |
| ZipIndex.FoldSame | deps/cziplib/src/miniz.h:5373-5380 | Folded names are equal exactly if the names have the same length and at each place the same byte or the two cases of one ASCII letter |
| ZipIndex.BisectCase | deps/cziplib/src/miniz.h:6338-6377 | Changing the case of letters in the name does not change what the binary search finds |
| ZipIndex.BuildIndex | deps/cziplib/src/miniz.h:5678-5683 | The index lists every entry once, in order |
| ZipIndex.BinarySearch | deps/cziplib/src/miniz.h:6338-6377 | In a sorted index an entry with the name, up to the case of ASCII letters, is found exactly when there is one |
| ZipIndex.Locate | deps/cziplib/src/miniz.h:6388-6458 | Index and scan both find an entry exactly when there is one with the name up to the case of ASCII letters, the scan the first one, both the same one if no two names are equal up to case; changing the case of letters in the name changes neither result |
| ZipRecord.CreateExtra | deps/cziplib/src/miniz.h:8193-8225 | The extra data is a ZIP64 field with exactly the values that are saturated in the record |
| ZipRecord.SizesBack | deps/cziplib/src/miniz.h:6227-6299 | For all 64-bit sizes and offsets, the reader gets all three back, each from the field exactly when its slot is saturated |
| ZipRecord.RecordBack | deps/cziplib/src/miniz.h:6172-6299 | A written record is read back with all its values and its name, whatever follows it |
| ZipRecord.StatInternal | deps/cziplib/src/miniz.h:6172-6299 | What the reader makes of any record that is all there, or that its extra data is corrupt |
| ZipRecord.Archive.AddToCentralDir | deps/cziplib/src/miniz.h:8278-8329 | Header, name and extra data are appended, or nothing is, exactly when the directory would reach 4 GB or a plain archive's offset would not fit |
| ZipRecord.OuterBits | deps/cziplib/src/zip.c:1255-1259 | The external attributes are the entry's, with the directory bit set exactly for a name that ends in a slash and has no content |
| ZipRecord.Archive.CloseEntry | deps/cziplib/src/zip.c:1228-1275 | The directory part of closing an entry: every record, old or new, says what it was written for, and `m_total_files` counts them |
| ZipDirectory.ReadDirectory | deps/cziplib/src/miniz.h:5664-5792 | The reader's walk over the directory computes the function `Walk`: the offsets of the records, or that one is refused |
| ZipDirectory.WrittenAccepted | deps/cziplib/src/miniz.h:5672-5787 | The walk accepts a written record exactly when its sizes agree and lie within the archive, told in numbers that the record was written for, and it is not masked |
| ZipDirectory.DirectoryFound | deps/cziplib/src/miniz.h:5664-5792 | Walking a written directory gives back the writer's offsets, exactly when the sizes of every entry agree and lie within the archive |
| ZipDirectory.Reopen | deps/cziplib/src/zip.c:1228-1275 | Closing any entries works exactly while they fit, and reopening the archive gives back every entry's sizes, offset, attributes and name, exactly when the sizes agree and lie within the archive |

## Left out

- zlib framing: `TDEFL_WRITE_ZLIB_HEADER` and `TINFL_FLAG_PARSE_ZLIB_HEADER`, with the Adler-32 in and behind the stream; the
  checksum itself is modelled on its own.
- The compressor's output callback (`m_pPutBuf_func`, `TDEFL_STATUS_PUT_BUF_FAILED`); calls have output buffers.
- `TDEFL_NONDETERMINISTIC_PARSING_FLAG`, which leaves dictionary and hash chains uninitialised; they begin as zeros here.
- Compressor.Deflater.PutBlock: the second attempt at a block that does not fit its output; `BlockSize.DynamicFits` shows that there is
  none.
- Builds without unaligned loads or without a 64-bit bit buffer: the decompressor refills 32 bits at a time, the compressor uses
  the two-byte match finder and the fast parser. It calls the portable emitter, whose contract the 64-bit one shares; where the
  64-bit one gives up it leaves the output position where it was, but no block gets it there.
- Positions in the compressor are unbounded, not 32 bits wide; the code uses them through differences and their low bits only.
- The fast parser's four-byte store of a two-byte distance is modelled as the two-byte store it amounts to.
- Inflater.Inflater.Decompress: of a stream with bits without a code word, which RFC 1951 does not allow, the position at the end is
  only known not to be before its last byte: such bits ask for 15 bits, and what an earlier call has read of them is not put back.
  What is taken beyond RFC 1951 is `Accept.MeaningIn`: length symbols 286 and 287 and distance symbols 30 and 31 as 0, bits
  without a code word as symbol 0, and distances before the start of the output when the buffer is a ring.
- How much `realloc` can give and how many pieces a callback takes are parameters of the drivers (`memory`, `accepts`): without
  such a limit a stream whose literal code is empty is never done (`HuffDecode.DecodeEmpty`), and the loops would not end.
- The jumps of the decoder's `switch` into its loops: the model has one method for each state instead, and runs them in turn.
- Adler32.Checksum: the null pointer that asks for the initial value.
- ZipIndex.BinarySearch: names of 2 GB and more, whose length difference does not fit an `int`.
- ZipIndex.Scan: the comment argument, `MZ_ZIP_FLAG_IGNORE_PATH` and `MZ_ZIP_FLAG_CASE_SENSITIVE`.
- ZipRecord.Archive.CloseEntry: finishing the compressor, the data descriptor and the error returns of I/O; `end` is where the
  entry's data ends. Times are DOS times, and the checksum is a number: CRC-32 is not part of this model.
- ZipDirectory.ReadDirectory: locating and checking the end records, and reading the directory from the file.
- Writing local headers and opening, writing and extracting entries (`_zip_entry_open`, `zip_entry_write`, extraction): what is left
  of them without I/O and the compressor adds nothing hard.
- `zip_entries_delete`, `mz_zip_writer_add_mem_ex_v2`, `mz_zip_writer_add_from_zip_reader`, the PNG writer, `mz_deflateBound`, paths,
  permissions, files and the applications that use the library.
