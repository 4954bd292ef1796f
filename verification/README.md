# A Dafny model of the SREP long-range preprocessor

SREP replaces repeated data in a file by references to an earlier copy. Its compressor finds
matches block by block (pass 1); for the future and index layouts it then sorts all matches
by source, cuts them at the boundaries of source blocks and writes each piece with the block
that holds its source (pass 2). The decoder keeps the pieces whose destination still lies
ahead in a chunked memory store and, under memory pressure, spills the farthest of them to
blocks of a virtual-memory file. This project models that chain in Dafny and proves that it
loses nothing, together with four cores beside it: the backward layout, the VHASH checksum,
the two-buffer protocol of the background thread, and the streaming hashes.

The central notion is in `MatchModel`: matches and literals *describe* an output when every
matched byte equals the byte its match points back to and the remaining bytes are, in order,
the literals. A description determines the output. Encoders are proved to write
descriptions of their input, decoders to return what is described and to accept exactly when
something is described, and the round trips follow.

Files, from the bottom up:

- `Bytes`, `WideArithmetic`: machine words, byte layouts, 128-bit arithmetic in registers.
- `ChunkMemory`, `ChunkStore`, `MatchStore`, `StoreDemand`: the chunk allocator, its accounts, its
  class, and the most chunks it can need.
- `MatchHeap`, `PendingModel`, `SpillRecords`, `SpillModel`, `HeapItems`, `VirtualMemory`: the ordered
  heap, the abstract map of pending matches it stands for together with store and VM file, the memory
  machine that says when decoding stalls, spilling and restoring.
- `MatchModel`, `Records`: what matches and literals mean; match records.
- `FutureSpec`, `FutureDecoder`, `BlockLimits`, `Decompress`: the three-phase block decoder, the
  size limits of the driver, and the block loop.
- `Cutting`, `Compress`, `Lossless`, `Pipeline`, `FullBlocks`: pass 2, the round trip, and inputs on
  which decoding stalls.
- `BackwardDecoder`, `BackwardPipeline`: the backward layouts.
- `Recording`, `RollingHash`, `RepDictionary`, `RepRuns`, `RepSources`, `RepPipeline`, `ShortChunks`:
  how match finders write lists; the dictionary compressor on its ring, its runs over an input, how
  often a block can be a source, the round trip with the decoders, and an input they refuse.
- `ChunkTable`, `ScanModel`, `EarlierMatches`, `ScanTrace`, `ScanLaws`, `BlockEncoder`, `DigestRuns`,
  `DigestPipeline`: the digest match finder, what its runs over a block and over an input have in
  common, and the round trip with the decoders.
- `PolyHash`, `VHash`, `VHashLaws`, `VHashStream`: VHASH-128 in both word sizes, one-shot and
  incremental, and the laws its parts obey.
- `DoubleBuffer`: the background thread as a state machine over all interleavings.
- `StreamingHash`: MD5, SHA-1 and SHA-512 around uninterpreted block functions.

Objects the program updates in place are classes with the same fields; loops are loops. Each
method is proved against functions and predicates on plain values, and what the program
promises is proved about those. A long source function may appear as several methods, one for
each part of its body.

What the program relies on, stated as preconditions where it does:

- Match lengths are positive, since zero marks an end of records and a marking point;
  destinations of pending matches are distinct. Pass 2 is proved to deliver this.
- Every block but the last has the full buffer size, and the chunk length L divides it, with
  L at least 8. For rounded records the base length divides L, and offsets in units of the base
  length fit 32 bits.
- The base length is positive and at most the minimum match.
- The digest tells the windows of L bytes of the input apart (only for the digest method).
- A VM block has at least four bytes, and chunk numbers fit 32 bits: either the memory limit with
  a VM block stays within them, or the chunks that all listed matches would take do. The latter
  holds for every input below four GiB less 16 KiB, and with a base length of 512 for every one
  below about 190 GiB (`Lossless.PiecesBound`); past that, chunk numbers of the program can run out.
- VHASH keys are masked and below 2^64-257 where key set-up makes them so.

Seven observations about the code, each backed by lemmas:

- The slot a client returns with `write` may be refilled before it comes back with `read`.
  `DoubleBuffer.ReturnedSlotIsRefilled` gives the exact condition, `DoubleBuffer.RefillHappens` a run
  for every input of two blocks or more, and `DoubleBuffer.RefillNeedsTwo` excludes it below. In the
  future and index layouts the program copies the block header from that slot after `write`
  (legacy/Compression/SREP/srep.cpp:650); that copy is not a step of the machine, so what is proved
  is that the slot it reads from may be the one being filled.
- An archive the program wrote can be refused by its own decoder in the layouts with inline lists:
  the compressor does not bound them, and src/decode/mod.rs:163 does. `Pipeline.RoundTrip` and
  `BackwardPipeline.RoundTripBackward` give the exact conditions; `ShortChunks.RefusedFuture` and
  `ShortChunks.RefusedBackward` run an input of 200 bytes through the dictionary compressor, with
  chunks and matches of one byte, and are refused. It cannot happen in the index layout
  (`Lossless.IndexFits`), in the backward layouts with matches of eight bytes or more
  (`BackwardPipeline.LongMatchesFit`), nor in the future layout with dictionary chunks of 48 bytes
  for every time the input goes round the ring (`RepSources.RepListsFit`); the default chunk has 64.
- With blocks and VM blocks of one size, as by default, a match as long as a block cannot be
  spilled, so the memory must hold all of them that wait at once. `FullBlocks.StalledRun` is a run
  that stalls for that reason; its match lists are ones the contract of pass 1 allows. Whether an
  archive stalls at all can be worked out beforehand from destinations, lengths and the memory
  settings: `Pipeline.RoundTrip` gives the exact condition.
- Rounded records lose matches whose source or length is no multiple of the base length, as with
  chunks of 1000 bytes and the default method (`Records.RoundedExactly`, `Records.RoundedLoss`).
- src/decode/backward.rs:73 computes an offset that wraps when the whole
  match came from earlier blocks; it is then never used (`BackwardDecoder.CopyBack`).
- An entry written at the last slot of a full probe chain is never found, because lookup stops
  before comparing that slot; `ChunkTable.FoundAgain` says exactly when an entry is found.
- Below one MiB of memory limit the useful memory wraps to practically unlimited
  (`ChunkStore.UsefulMemoryValue`), as the comment in src/decode/storage.rs:28 says.

## Model

| member | source | states |
|---|---|---|
| `Pipeline.RoundTrip` | src/compress.rs:234-320 | Future and index layouts lose nothing: for any input, any per-block lists of ordered true-copy matches, any VM block size, decoder buffer and `maximum_save`, and any memory limit unless chunk numbers could run out, pass 2 followed by block-by-block decoding stalls, or gives the input back when every block is within the limits of the driver, or is refused when one is not; in the index layout a buffer of the compressor suffices always. Within those limits it stalls exactly when the memory machine of `SpillModel`, which knows only destinations, lengths and the settings, stalls on the pieces; in particular never when the memory holds a VM block and every match with its 24 bytes of framing fits one, nor when the memory holds at each block start the pieces that wait and are not to be reread; always (unless refused) when no piece fits a VM block and those pieces exceed the memory at some block |
| `Lossless.ArchiveFits` | src/decode/mod.rs:158-173 | What pass 2 writes is within the limits of the driver exactly when, for each block, 16 bytes per piece of its list plus the bytes outside its matches are |
| `Lossless.IndexFits` | src/decode/mod.rs:158-173 | With the lists in the index no block exceeds the limits of a buffer of the compressor |
| `Lossless.PiecesBound` | src/decode/storage.rs:86-94 | All pieces of the matches together take no more chunks than the input has bytes, nor than one for 60 of its bytes and two for every base length |
| `Lossless.PendingWithin` | src/compress.rs:262-308 | What is pending in the decoder at the start of a block are the pieces with source before and destination behind it |
| `Lossless.ListsWritten` | src/compress.rs:262-308 | The lists the decoder meets, and where its blocks end, are those pass 2 cuts |
| `RepPipeline.RoundTripRep` | src/compress.rs:133-197 | End to end with the dictionary compressor: nothing is assumed of the matches, they come from the modelled ring; the result is the input exactly when all blocks are within the limits of the driver, or a stall, which a VM block larger than a block rules out, and likewise a memory that holds what must wait; all blocks are within them in the index layout, and in the future layout too with chunks of 48 bytes for every time the input goes round the ring |
| `RepSources.RepListsFit` | src/decode/mod.rs:158-173 | What pass 2 makes of the lists of the dictionary compressor stays within the limits of the driver when chunks have 48 bytes for every time the input goes round the ring |
| `RepSources.SourcesBound` | src/matchfind/rep.rs:67-137 | No more than three matches for every chunk of a block and every lap of the ring have their source in that block |
| `RepSources.BlocksAnchored` | src/matchfind/rep.rs:93-134 | Over a whole input every match is found through a chunk that no other match is found through, since looking an entry up replaces it |
| `ShortChunks.SingleBytesFit` | src/matchfind/rep.rs:67-137 | With chunks and matches of one byte, and an input in which no two neighbouring bytes come again, the exact condition under which the decoder takes what the dictionary compressor wrote, in the future and in the backward layout |
| `ShortChunks.ByteStates` | src/matchfind/rep.rs:67-137 | On such an input the compressor records every byte it has seen before as a match of its own |
| `ShortChunks.SampleRefused` | src/decode/mod.rs:158-173 | An input of 200 bytes over 23 letters for which the condition fails |
| `ShortChunks.RefusedFuture` | src/decode/mod.rs:158-173 | Compressing that input so and decoding in the future layout ends in the refusal |
| `ShortChunks.RefusedBackward` | src/decode/mod.rs:158-173 | and likewise in the backward layout |
| `RepPipeline.RoundTripRepBackward` | src/compress.rs:133-227 | The same in the backward layout, which never stalls; from a base length of eight on it always gives the input back |
| `DigestPipeline.RoundTripDigest` | src/compress.rs:137-197 | End to end with the digest method, with or without the dictionary in front, for inputs on which the digest has no collision: the lists are those of the traced runs, and the result is the input exactly when all blocks are within the limits of the driver, or a stall, which a VM block larger than a block rules out, and likewise a memory that holds what must wait |
| `DigestPipeline.RoundTripDigestBackward` | src/compress.rs:137-227 | The same in the backward layouts, plain and rounded, which never stall; from a base length of eight on the input always comes back |
| `BackwardPipeline.RoundTripBackward` | src/decode/backward.rs:22-81 | Backward decoding of the pass-1 lists and the extracted literals restores every block in turn exactly when all are within the limits of the driver, which matches of eight bytes or more guarantee |
| `BackwardPipeline.LongMatchesFit` | src/decode/mod.rs:158-173 | With matches of eight bytes or more, list and literals of a block never exceed the limit |
| `Decompress.Decompress` | src/decode/mod.rs:128-250 | An output is returned exactly when the archive describes it and every block is within the limits; a refusal for size names a block that exceeds them, a rejection means the archive describes nothing, and none of these depends on the memory; whether it stalls instead is decided by the destinations and lengths of the lists and the memory settings; the cause of a stall is named, and there is none when the memory holds all matches to be saved that are pending between any two blocks; with matches too long to be spilled, success means just that; and as long as nothing is read back from the VM file, the store stays within a memory limit of one MiB or more |
| `Decompress.DecodeBlock` | src/decode/mod.rs:158-225 | One block: refused for its size, rejected as broken, stalled, or appended to what the blocks before describe; while nothing is spilled it cannot stall, nor spill, when the memory holds what is to be saved for later blocks |
| `Decompress.Archive.DescribesUnique` | src/decode/mod.rs:133-244 | An archive describes at most one output, so all successful decodings agree |
| `Decompress.UsefulCoversBlock` | src/decode/mod.rs:116-123 | The memory the driver works with always holds a VM block, whatever its size, so the stall condition on memory cannot arise there |
| `MatchModel.DecodesUnique` | src/decode/future.rs:63-110 | Matches and literals determine the output: two outputs meeting the same description are equal |
| `MatchModel.AppendLits` | src/decode/future.rs:81-83 | Appending literals extends a described output |
| `MatchModel.AppendPiece` | src/decode/future.rs:85-97 | Appending the bytes of a match extends a described output |
| `MatchModel.LitAt` | src/compress.rs:336-353 | An unmatched byte is the literal whose index counts the unmatched bytes before it |
| `MatchStore.MemoryManager.Save` | src/decode/storage.rs:121-145 | Saving adds one string under a fresh nonzero head, takes exactly the chunks its length needs, and grows the memory only when no chunk is free |
| `MatchStore.MemoryManager.Restore` | src/decode/storage.rs:148-162 | Restoring delivers the bytes saved, whatever was saved or freed in between |
| `MatchStore.MemoryManager.Free` | src/decode/storage.rs:165-172 | Freeing removes exactly that string and gives its chunks back |
| `MatchStore.MemoryManager.Allocate` | src/decode/storage.rs:86-94 | An allocated chunk was free, is never chunk 0, and is the only change to the accounts |
| `MatchStore.MemoryManager.AllocateBlock` | src/decode/storage.rs:103-118 | A new block links all its chunks, leaving chunk 0 out, and goes on top of whatever is free |
| `MatchStore.MemoryManager.MarkAsFree` | src/decode/storage.rs:96-101 | Returning a chunk pushes it on the free list and touches no other chunk |
| `MatchStore.MemoryManager.constructor` | src/decode/storage.rs:27-42 | A new store is empty, with the useful memory of the limit |
| `ChunkStore.Popped` | src/decode/storage.rs:90-93 | Taking a free chunk keeps free list and chains disjoint, acyclic and complete |
| `ChunkStore.Pushed` | src/decode/storage.rs:96-101 | Returning a chunk keeps them so |
| `ChunkStore.Extended` | src/decode/storage.rs:103-118 | Adding a block keeps them so |
| `ChunkStore.Committed` | src/decode/storage.rs:127-145 | A finished chain becomes a saved string without disturbing the others |
| `ChunkStore.Released` | src/decode/storage.rs:165-172 | Starting to free a string takes it out of the saved ones without disturbing the others |
| `ChunkStore.Exhausted` | src/decode/storage.rs:86-89 | With no chunk free, the count of used chunks is all chunks but chunk 0 |
| `ChunkStore.UsefulMemoryValue` | src/decode/storage.rs:27-34 | Useful memory is a multiple of 60 from one MiB on, and wraps to practically unlimited below |
| `ChunkStore.GuardedGrowth` | src/decode/storage.rs:49-60 | A save that fits the available space keeps used chunks within the useful memory and the blocks taken within the limit, as blocks are added only when all chunks are used |
| `ChunkStore.GuardedSave` | src/decode/storage.rs:49-60 | Rounding up to whole chunks never overshoots, since the available space is a multiple of 60 |
| `StoreDemand.UsedIsHeld` | src/decode/storage.rs:86-101 | The chunks in use are chunks of saved matches in the heap, each used once |
| `StoreDemand.RoomToSave` | src/decode/storage.rs:121-145 | So saving one match more never needs more chunks than all pending matches and it together |
| `StoreDemand.AmpleToSave` | src/decode/storage.rs:121-145 | When the memory holds the bytes of all saved matches and one more, there is room for that one now |
| `StoreDemand.RoomToRestore` | src/decode/storage.rs:322-344 | and restoring a record never more than all pending matches |
| `StoreDemand.DemandApart` | src/decode/storage.rs:121-145 | Matches that share no byte of the output need no more chunks than it has bytes |
| `StoreDemand.DemandSpread` | src/decode/storage.rs:121-145 | nor than one for every 60 bytes of it and one more for each match |
| `StoreDemand.HeldIsUsed` | src/decode/storage.rs:121-145 | With nothing on disk, the chunks in use hold the bytes of every saved match |
| `MatchHeap.LzMatchHeap.Insert` | src/decode/storage.rs:409-412 | Inserting keeps the destination order and adds one entry with a fresh serial |
| `MatchHeap.LzMatchHeap.Begin` | src/decode/storage.rs:414-416 | The first entry precedes all others |
| `MatchHeap.LzMatchHeap.Remove` | src/decode/storage.rs:418-420 | Removing takes out exactly that entry |
| `MatchHeap.LzMatchHeap.InsertBarrier` | src/decode/storage.rs:426-435 | The barrier lies behind every match |
| `VirtualMemory.VirtualMemoryManager.SaveToDisk` | src/decode/storage.rs:223-293 | Spilling keeps every pending match with its bytes, moves exactly the farthest saved matches that fit a VM block out of heap and store into a block, and leaves all other VM blocks alone; it does nothing exactly when no match is saved or the farthest saved one does not fit |
| `VirtualMemory.VirtualMemoryManager.PackMatches` | src/decode/storage.rs:233-261 | The matches packed are the saved ones of farthest destination, up to the first that no longer fits, and the buffer holds exactly their records |
| `VirtualMemory.VirtualMemoryManager.WriteOut` | src/decode/storage.rs:263-277 | A VM block goes to a free slot of the file, or a new one, and no other slot changes |
| `VirtualMemory.VirtualMemoryManager.RestoreFromDisk` | src/decode/storage.rs:296-348 | Restoring keeps every pending match, brings the match the mark stood for back into the heap, and stalls exactly when spilling block after block cannot make room for one |
| `VirtualMemory.VirtualMemoryManager.MakeRoom` | src/decode/storage.rs:302-306 | The loop that spills until there is room ends; it fails exactly when spilling the farthest saved matches block after block comes to one that does not fit a VM block, or to none, before there is room, and does nothing when there is room already |
| `HeapItems.RemoveFarthest` | src/decode/storage.rs:254-259 | Removing the farthest saved match from the ordered heap leaves the others, and the spilled blocks, in their order |
| `SpillModel.Spill` | src/decode/storage.rs:223-293 | A spill turns the farthest matches in memory into one block and keeps all the others |
| `SpillModel.RoomBehind` | src/decode/storage.rs:296-306 | A block due before all matches in memory is not in the way of spilling them |
| `HeapItems.InsertItem` | src/decode/storage.rs:409-412 | Inserting into the heap puts the saved match, or the block, in its place among those it stands for |
| `HeapItems.MatchComesFirst` | src/decode/storage.rs:317-347 | With a saved match due before all marks, a match comes first |
| `VirtualMemory.StallReason` | src/decode/storage.rs:302-306 | A failure to make room means that a pending match does not fit a VM block, or that the request exceeds the memory |
| `VirtualMemory.NoneFits` | src/decode/storage.rs:233-252 | When no pending match fits a VM block, nothing can be spilled |
| `FullBlocks.StalledRun` | src/decode/storage.rs:250-306 | A whole run that stalls: blocks, decoder buffer and VM block of one size, and an input whose second half repeats the first, whole blocks at a time, with a memory limit no larger than that half |
| `FullBlocks.CopiesLong` | src/decode/storage.rs:250-252 | None of its pieces fits a VM block of the size of a block |
| `FullBlocks.CopiesDemand` | src/decode/storage.rs:121-145 | and all of them wait across its middle, taking at least their own length |
| `PendingModel.SpillOne` | src/decode/storage.rs:250-259 | One spilled match: the mapping from destinations to source and bytes stays the same, and the mark still covers the nearest destination |
| `PendingModel.RestoreOne` | src/decode/storage.rs:328-344 | One restored record: the mapping stays the same |
| `PendingModel.BlockDone` | src/decode/storage.rs:317-347 | A drained block is owned by no mark any more, and the match its mark stood for is in the heap |
| `PendingModel.AddOne` | src/decode/future.rs:131-137 | Queueing a match adds it under its destination and nothing else |
| `PendingModel.RemoveOne` | src/decode/future.rs:97-102 | Taking a match out removes exactly it |
| `PendingModel.PackStep` | src/decode/storage.rs:239-260 | Each step of packing a block keeps the abstract pending matches |
| `SpillRecords.ReadRec` | src/decode/storage.rs:322-344 | Records are read back from a VM block in order, field by field |
| `SpillRecords.ReadEnd` | src/decode/storage.rs:322 | A zero length ends the records, and no record has one |
| `SpillRecords.WriteBlock` | src/decode/storage.rs:272-276 | Writing a block of the file reads back as that block |
| `SpillRecords.WriteOtherBlock` | src/decode/storage.rs:272-276 | and leaves every other block as it was |
| `FutureDecoder.DecompressFutureLz` | src/decode/future.rs:19-154 | A block is accepted exactly when its list is in order and the due matches and literals tile it; then the output is the one they describe and the matches for later blocks are pending; otherwise it is rejected, or it stalls, as the memory machine does, for a stated cause, and not at all when nothing is spilled and the memory holds what is to be saved for later blocks |
| `FutureDecoder.InsertDue` | src/decode/future.rs:35-61 | Phase 1 accepts exactly the lists in order and queues the matches due in the block |
| `FutureDecoder.CopyDue` | src/decode/future.rs:63-103 | Phase 2 ends although marks are replaced while it runs, and copies the due matches in destination order; it takes out of memory, brings back and stalls as the memory machine does |
| `FutureDecoder.CopyRound` | src/decode/future.rs:63-103 | One round of phase 2: a match is copied and taken out, or a mark replaced by the matches of its block, after which a match comes first; it stalls exactly at a mark when spilling what is behind it cannot make room for a VM block |
| `FutureDecoder.RestoreFirst` | src/decode/future.rs:66-70 | Replacing a mark keeps every pending match; the exact condition of a stall |
| `FutureDecoder.CopyNext` | src/decode/future.rs:73-101 | One match: rejected exactly when it overlaps, lacks literals or overruns; otherwise its literals and bytes are appended |
| `FutureDecoder.CopyMatch` | src/decode/future.rs:85-96 | All three sources of bytes (output file, saved copy, current block) give a true copy |
| `FutureDecoder.OverlapCopy` | src/decode/future.rs:11-16 | The byte-wise copy repeats the bytes a fixed distance before, also when source and target overlap |
| `FutureDecoder.SaveMatch` | src/decode/future.rs:124-137 | Saving a match makes room first, queues it with its bytes, and keeps the store within its memory limit; it stalls exactly when spilling block after block cannot make room, and neither stalls nor spills when the memory holds all saved matches with it |
| `FutureDecoder.QueueLater` | src/decode/future.rs:124-150 | One record of phase 3: it stalls exactly when its match is to be saved and spilling cannot make room for it |
| `FutureDecoder.SaveLater` | src/decode/future.rs:112-151 | Phase 3 queues exactly the matches for later blocks, saved or to be reread, spilling and stalling as the memory machine does; when the memory holds all that are then saved it neither stalls nor spills |
| `FutureSpec.RejectedMatch` | src/decode/future.rs:74-79 | Each reason for rejecting a match is a violation of the block layout |
| `FutureSpec.PendingAfterBlock` | src/decode/future.rs:112-151 | What is pending after a block is what its list and the earlier ones left for later |
| `Records.PlainRoundTrip` | src/format/records.rs:28-79 | Plain records read back as written, in both directions |
| `Records.RoundedRoundTrip` | src/format/records.rs:28-79 | Rounded records recover an aligned source exactly, also for unaligned destinations |
| `Records.PlainWords` | src/format/records.rs:28-46 | A plain record is literal count, low and high word of the distance, and length above the base |
| `Records.RoundedExactly` | src/format/records.rs:28-79 | They read back as written exactly when source and length are multiples of the base length |
| `Records.RoundedLoss` | src/format/records.rs:28-79 | With chunks of 1000 bytes and a base length of 512 the second chunk does not |
| `Compress.EncodeBlock` | src/compress.rs:262-288 | The list of a block decodes to exactly the pieces of all matches with source in it, although the cursor rewinds only to the last expired match |
| `Compress.ExtractLiterals` | src/compress.rs:336-353 | Literals and matches of a block describe it |
| `Compress.DecodeList` | src/compress.rs:243-251 | A pass-1 list decodes to its matches |
| `Compress.FutureAppend` | src/compress.rs:275-283 | Appending a record appends its piece |
| `Cutting.RewindEnough` | src/compress.rs:265-288 | Everything before the rewind point has expired by the end of a full block |
| `Cutting.CutListOk` | src/compress.rs:265-284 | The list of a block in source order is one the decoder accepts |
| `Cutting.CutWithin` | src/compress.rs:271-273 | A piece lies in block and match, and keeps the distance |
| `Cutting.CutContains` | src/compress.rs:265-285 | Every byte of a match with source in the block is in the piece |
| `Cutting.CutTrueCopy` | src/compress.rs:271-273 | A piece of a true copy is a true copy |
| `Cutting.SortSorted` | src/compress.rs:252 | Sorting orders by source and keeps the matches |
| `Lossless.ArchiveWellFormed` | src/compress.rs:262-308 | What pass 2 writes meets all the decoder relies on: lengths positive, destinations distinct, totals in range |
| `Lossless.ArchiveDescribes` | src/compress.rs:262-308 | What pass 2 writes describes exactly the input |
| `Lossless.BlockDescribed` | src/compress.rs:262-308 | The pieces due in a block and its literals describe the block |
| `Lossless.DueApart` | src/compress.rs:262-288 | Pieces due in a block do not overlap, even from one match cut several times |
| `Lossless.DueCovers` | src/compress.rs:262-288 | A byte is covered by the pieces exactly when it is covered by the matches |
| `Pipeline.CompressFuture` | src/compress.rs:234-308 | Pass 2 as a whole writes a well-formed archive that describes the input |
| `Pipeline.WriteBlock` | src/compress.rs:262-298 | One block of pass 2 |
| `Pipeline.GatherMatches` | src/compress.rs:241-251 | The matches of all blocks are gathered |
| `BackwardDecoder.DecompressBackward` | src/decode/backward.rs:22-81 | A backward block is accepted exactly when its records point backwards, lie in the block and leave room for exactly the literals; then the output is the one they describe |
| `BackwardDecoder.DecodeRecord` | src/decode/backward.rs:36-79 | One record: its literals and its match, or a rejection that means the list is unacceptable |
| `BackwardDecoder.CopyBack` | src/decode/backward.rs:53-72 | A match starting before the block and running into it, or overlapping itself, gives a true copy; the wrapped offset of an empty rest is never used |
| `BackwardDecoder.RejectedRecord` | src/decode/backward.rs:41-46 | Each reason for rejecting a record is a violation of what is acceptable |
| `BackwardDecoder.AllRecords` | src/decode/backward.rs:74-80 | The final length test holds exactly for acceptable lists |
| `BackwardDecoder.SmallIsOrdered` | src/decode/backward.rs:37-39 | Short of 2^64, positions never wrap: the order the decoder contract asks for holds of every list |
| `BackwardPipeline.GoodIsAcceptable` | src/decode/backward.rs:22-81 | Lists of match finders are acceptable |
| `BackwardPipeline.BlockRoundTrip` | src/decode/backward.rs:22-81 | One block there and back |
| `Recording.RecordPlain` | src/format/records.rs:28-46 | Writing a record for a true copy behind the last match keeps the list in order |
| `Recording.RecordRounded` | src/format/records.rs:28-46 | The same for rounded records |
| `Recording.LiteralCount` | src/encode.rs:181 | The running count of literals equals the number of literals extracted |
| `RepPipeline.CountedLiterals` | src/compress.rs:190-195 | The count stored with a block is the number of literals extracted from it later |
| `RepDictionary.RingCopy` | src/matchfind/rep.rs:92-117 | Agreement in the ring at an admissible distance is a true copy of the input, on whichever lap the table entry was made |
| `RepDictionary.BoundsOk` | src/matchfind/rep.rs:82-115 | For an admissible distance no index underflows or leaves the ring, and the comparison never runs from one lap into the other |
| `RepDictionary.FindMatchStart` | src/matchfind/rep.rs:143-152 | The backward comparison stops at the earliest agreeing position |
| `RepDictionary.FindMatchEnd` | src/matchfind/rep.rs:156-162 | The forward comparison stops at the latest agreeing position |
| `RepDictionary.RingWrite` | src/compress.rs:140-142 | Writing a block keeps the ring in step with the input |
| `RepDictionary.RingWrap` | src/compress.rs:140 | At the end of the ring the next lap begins |
| `RepDictionary.DictionaryCompressor.PrepareBuffer` | src/matchfind/rep.rs:36-63 | Each chunk is entered with the first of its largest window hashes |
| `RepDictionary.DictionaryCompressor.PickMax` | src/matchfind/rep.rs:46-55 | Rolling through a chunk meets the hash of each of its windows |
| `RepDictionary.DictionaryCompressor.Compress` | src/matchfind/rep.rs:67-138 | The list of a block is in order, its matches are true copies, the literal count is right, and the list is the outcome of probing chunk after chunk: the candidate is the table entry of the chunk's largest hash, which the chunk then replaces |
| `RepDictionary.DictionaryCompressor.TryMatch` | src/matchfind/rep.rs:92-131 | One candidate: ignored when it lies too far back, else extended as far as the bytes agree both ways, and recorded exactly when that is long enough |
| `RepPipeline.RepBlock` | src/compress.rs:140-145 | One block through the ring |
| `RepPipeline.CompressRep` | src/compress.rs:134-197 | Pass 1 of the dictionary method delivers what pass 2 relies on, and its lists are the result of one traced run per block, each with the table the run before left |
| `RepPipeline.BlockFitsRing` | src/compress.rs:130-142 | A block never wraps around in the ring |
| `RollingHash.Power` | src/rolling.rs:10-23 | Exponentiation by squaring modulo 2^64 |
| `RollingHash.PolyRoll` | src/rolling.rs:84-92 | One roll gives the polynomial of the next window |
| `RollingHash.PolynomialRollingHash.UpdateByte` | src/rolling.rs:86-92 | A single roll moves the hash to the next window |
| `RollingHash.PolynomialRollingHash.UpdateN` | src/rolling.rs:97-146 | Rolling by N equals N single rolls, for every N |
| `RollingHash.PolynomialRollingHash.MoveTo` | src/rolling.rs:149-170 | The block-wise start hash is the polynomial of the window |
| `ChunkTable.SlotDecodes` | src/matchfind/hash_table.rs:207-220 | A slot gives back chunk number and hash bits |
| `ChunkTable.HashTable.PrepareBuffer` | src/matchfind/hash_table.rs:227-239 | The digests of all full chunks of a block are in place, and no others change |
| `ChunkTable.HashTable.FindMatch` | src/matchfind/hash_table.rs:241-282 | The chunk found is the first of its probe chain with hash and digest of the window, and was added before; none is found when the chain reaches a free slot or its last slot first |
| `ChunkTable.HashTable.AddHash` | src/matchfind/hash_table.rs:284-327 | The chunk goes where probing for it ends and nothing else changes; every occupied slot still points at an added chunk, and chunk 0 is never entered |
| `ChunkTable.FoundAgain` | src/matchfind/hash_table.rs:241-327 | A chunk once entered is found again exactly when its slot is one that probing compares: the last slot of a chain is filled but not compared |
| `ChunkTable.OthersKept` | src/matchfind/hash_table.rs:284-327 | Entering a chunk loses another one exactly when it overwrites its slot, which only the last slot of a chain allows |
| `ChunkTable.Neighbours` | src/matchfind/hash_table.rs:276-279 | Within each group of four, probing goes to the neighbouring slot |
| `ChunkTable.BothFound` | src/matchfind/hash_table.rs:241-327 | Two chunks with one hash are both found again when their slot and the next are free |
| `BlockEncoder.MatchLen` | src/encode.rs:30-45 | Without digest collisions the match found by chunks and bytes is a copy of its whole length inside the block, and the longest one |
| `BlockEncoder.RecordMatch` | src/encode.rs:116-164 | The longest match is recorded exactly when it reaches the minimum, rounded down or not, and keeps the list in order |
| `BlockEncoder.MergeInput` | src/encode.rs:218-247 | An earlier match is clipped behind the last one and taken over exactly when what is left reaches the base length, and reading never passes the fence |
| `EarlierMatches.ReadNext` | src/encode.rs:185-190 | Reading gives the next earlier match, or the fence, which lies behind the block |
| `BlockEncoder.SkipAhead` | src/encode.rs:249-260 | The jump and the four-byte rolls end where the specified skip does, within four bytes of the end of the last match and never past it, and keep the hash that of the window |
| `BlockEncoder.Collect` | src/encode.rs:262-276 | The candidates are all positions behind the last match, in order, each with the hash of its window |
| `BlockEncoder.TryPosition` | src/encode.rs:277-286 | Every lookup uses the hash of its window; the chunk the table holds for it is matched as far as it goes and recorded exactly when that is long enough, and otherwise nothing changes |
| `BlockEncoder.EnterChunk` | src/encode.rs:290 | Every chunk is entered under the hash of its window, once its digest is prepared |
| `BlockEncoder.CompressBlock` | src/encode.rs:169-294 | The list of a block, own matches and earlier ones merged, is in order, all its matches are true copies, and the literal count is right; it is the end of a run of lookups, rounds and entries from the table before to the table after, complete in that every chunk is entered, and in which every position is looked up but those before the end of a match recorded and the rest of a group in which one was found |
| `ScanLaws.OneOutcome` | src/encode.rs:169-294 | All complete runs over a block from one table end with the same list, count and table |
| `ScanLaws.EveryChunkEntered` | src/encode.rs:203-290 | A complete run enters every chunk of the block exactly once, in order |
| `ScanLaws.EnteredFirst` | src/encode.rs:203-290 | A chunk is entered before any position behind its start is looked up |
| `ScanLaws.ReachedIsMerged` | src/encode.rs:214-247 | Earlier matches are merged one in a round, in order, as the scan reaches them: with as many rounds behind the start of one as there are up to it, it has been merged |
| `BlockEncoder.ScanRound` | src/encode.rs:213-290 | One round of the scan: merge what has been reached, skip, collect and look up; it accounts for every position it passes |
| `BlockEncoder.TryCandidates` | src/encode.rs:277-288 | The collected positions are looked up in order until one gives a match |
| `DigestPipeline.CompressDigest` | src/compress.rs:137-197 | Pass 1 of the digest method delivers what pass 2 relies on, and its lists are the result of one complete run per block, each on top of the list of the dictionary compressor, with the table the run before left and the digests of its own chunks in place |
| `DigestPipeline.DigestBlock` | src/compress.rs:157-188 | One block of it: its list and count are those of a complete run over the block |
| `DigestPipeline.ListBeforehand` | src/compress.rs:137-156 | The list found beforehand is the one of the dictionary compressor's run over the block, or empty without one |
| `DigestRuns.DigestedOnce` | src/compress.rs:137-197 | Those lists and counts are determined by the settings, the table at the start and the lists found beforehand |
| `WideArithmetic.Add128` | src/checksum/vhash.rs:21-28 | Register addition with carry is addition modulo 2^128 |
| `PolyHash.PolyStep` | src/checksum/vhash.rs:136-160 | The 64-bit step is acc * key + m modulo 2^127-1, without overflow, for masked keys |
| `PolyHash.PolyStepFunc` | legacy/Compression/_Encryption/hashes/vmac/vmac.c:626-692 | The 32-bit step overflows nowhere and has the same residue |
| `PolyHash.L3Hash` | src/checksum/vhash.rs:164-209 | The final hash is exactly ((x div (2^64-2^32)) + k1) * ((x mod (2^64-2^32)) + k2) mod (2^64-257) with x the accumulator plus length modulo 2^127-1 |
| `PolyHash.Reduce127` | src/checksum/vhash.rs:168-185 | Full reduction modulo 2^127-1 |
| `PolyHash.DivideRadix` | src/checksum/vhash.rs:187-191 | Quotient and remainder by 2^64-2^32 without division |
| `PolyHash.MulMod64` | src/checksum/vhash.rs:198-208 | The product modulo 2^64-257 |
| `VHash.NhBlock` | src/checksum/vhash.rs:49-92 | Both lanes of the block hash |
| `VHash.NhTail` | src/checksum/vhash.rs:96-133 | The hash of a rest is that of the rest padded with zeros |
| `VHash.StepLane` | src/checksum/vhash.rs:314-322 | One block more of Horner's rule, with the 64-bit or the 32-bit step |
| `VHash.VHash` | src/checksum/vhash.rs:285-357 | The method gives, for every length, the two halves of the specified hash: the final hash of the polynomial value with the length of the last part block added; what these are is said by the laws that follow |
| `VHashLaws.LittleEndian` | src/checksum/vhash.rs:37-40 | Byte k of a word has weight 256 to the power k |
| `VHashLaws.ZeroHash` | src/checksum/vhash.rs:49-133 | A block whose even words are the negatives of their key words has the hash zero |
| `VHashLaws.HashMoves` | src/checksum/vhash.rs:49-133 | Changing one word of a block moves its hash by the change of the word with its key word added, times the other word of its pair with its own key word added |
| `VHashLaws.PolySum` | src/checksum/vhash.rs:285-357 | The polynomial value of a message of n blocks is the sum of the hash of block i times the key to the power n-1-i, and the key to the power n, modulo 2^127-1 |
| `VHashLaws.FinalZero` | src/checksum/vhash.rs:164-209 | The final hash is zero where the high digit cancels its key word |
| `VHashLaws.FinalMoves` | src/checksum/vhash.rs:164-209 | One more in the high digit of the value moves the final hash by the keyed low digit, one more in the low digit by the keyed high digit |
| `VHashLaws.SampleTag` | src/checksum/vhash.rs:285-357 | The hash of the words 1 and 0 under a key of zeros but for one word: 2^46 + 128 |
| `VHashStream.Nh16` | legacy/Compression/_Encryption/hashes/vmac/vmac.c:608-624 | The 32-bit block hash collects its middle products apart without overflow and equals the 64-bit one |
| `VHashStream.NhTailLimbs` | legacy/Compression/_Encryption/hashes/vmac/vmac.c:1036-1049 | The same for a rest, with its fragment hashed apart |
| `VHashStream.VmacCtx.VhashUpdate` | legacy/Compression/_Encryption/hashes/vmac/vmac.c:773-836 | Absorbing whole blocks in any number of calls keeps the polynomial of everything absorbed |
| `VHashStream.VmacCtx.Vhash` | legacy/Compression/_Encryption/hashes/vmac/vmac.c:896-1068 | Finishing after any updates gives the hash of the whole message, on 64-bit and on 32-bit machines |
| `VHashStream.VmacCtx.Abort` | legacy/Compression/_Encryption/hashes/vmac/vmac.c:719-728 | Aborting starts afresh |
| `VHashStream.HornerPrefix` | legacy/Compression/_Encryption/hashes/vmac/vmac.c:773-836 | The polynomial of a prefix of whole blocks does not depend on what follows |
| `DoubleBuffer.StepKeeps` | legacy/Compression/SREP/io.cpp:117-170 | Every step of either thread keeps counts of signals and waits, slot order and results in agreement |
| `DoubleBuffer.RunKeeps` | legacy/Compression/SREP/io.cpp:117-170 | So does every run, whatever the interleaving |
| `DoubleBuffer.HeldSlotIsExclusive` | legacy/Compression/SREP/io.cpp:117-135 | Between read and write a slot is neither filled nor saved |
| `DoubleBuffer.HeldUndisturbed` | legacy/Compression/SREP/io.cpp:138-164 | No step of the background thread changes a slot the client holds |
| `DoubleBuffer.SavedUndisturbed` | legacy/Compression/SREP/io.cpp:159-160 | No step of the client changes a slot being saved |
| `DoubleBuffer.RunDelivers` | legacy/Compression/SREP/io.cpp:129-135 | In every run the output thread has been given exactly the results handed over, in order, but for one just left in the client's slot |
| `DoubleBuffer.ReturnedSlotIsRefilled` | legacy/Compression/SREP/io.cpp:129-135 | The exact condition under which the slot last returned may already be filled again |
| `DoubleBuffer.RefillHappens` | legacy/Compression/SREP/io.cpp:117-164 | It is met in a run over any input of two blocks or more |
| `DoubleBuffer.RefillNeedsTwo` | legacy/Compression/SREP/io.cpp:117-164 | With fewer than two blocks no slot handed over is ever filled again |
| `DoubleBuffer.NoSignalLost` | legacy/Compression/LZMA2/C/ThreadsUnix.c:473-501 | No event is signalled while it is still set |
| `DoubleBuffer.NoDeadlock` | legacy/Compression/LZMA2/C/ThreadsUnix.c:487-501 | Until both threads have ended, one of them can go on |
| `DoubleBuffer.EveryRunEnds` | legacy/Compression/SREP/io.cpp:138-170 | Every run ends within 10 N + 12 working steps; at its end the client has seen every block in order, has handed over one result for each, and every block was saved exactly once, in order, with the result handed over for it |
| `StreamingHash.HashState.Process` | legacy/Compression/_Encryption/headers/tomcrypt_hash.h:341-375 | Input is absorbed whatever is already buffered |
| `StreamingHash.HashState.Done` | legacy/Compression/_Encryption/hashes/md5.c:260-307 | The digest of everything absorbed, padded as the standard says |
| `StreamingHash.HashPieces` | legacy/Compression/_Encryption/headers/tomcrypt_hash.h:341-375 | However the input is split over calls, the digest is that of the whole |
| `StreamingHash.HashState.PadBuffer` | legacy/Compression/_Encryption/hashes/sha2/sha512.c:206-246 | The last one or two blocks, as they are filled and compressed |
| `StreamingHash.StartRoots` | legacy/Compression/_Encryption/hashes/sha2/sha512.c:180-187 | The start words of SHA-512 are the first 64 fractional bits of the square roots of the first eight primes |
| `StreamingHash.StartBytes` | legacy/Compression/_Encryption/hashes/md5.c:236-239 | The start words of MD5 and SHA-1 spell out the sixteen digits up and down, byte by byte |
| `StreamingHash.OutputReadBack` | legacy/Compression/_Encryption/hashes/sha2/sha512.c:247-250 | Read back in words, the digest is the final state |
| `StreamingHash.Finished` | legacy/Compression/_Encryption/hashes/sha1.c:193-232 | Those blocks are the rest of the message with its padding |
| `StreamingHash.StoredField` | legacy/Compression/_Encryption/hashes/sha2/sha512.c:234-246 | For messages below 2^61 bytes the 64 stored bits are the standard's length field, whose upper half is then zero |
| `StreamingHash.PaddingInjective` | legacy/Compression/_Encryption/hashes/sha1.c:193-232 | Different messages are padded differently |
| `StreamingHash.WholeStep` | legacy/Compression/_Encryption/headers/tomcrypt_hash.h:351-358 | A whole block bypasses the buffer |
| `StreamingHash.FullStep` | legacy/Compression/_Encryption/headers/tomcrypt_hash.h:359-371 | A completed buffer is folded in |

## Left out

- Headers, footers, checksums of blocks, the end-of-file sentinel, slicing of the index by its list sizes, standard input and output, temporary files: I/O plumbing around the block loop.
- Decompress.Decompress: an archive is a sequence of decoded block records; reading it from a file is not modelled, nor are read and write errors.
- VM block numbers and their 32-bit counter: unbounded here; the lazily opened file and buffer exist from the start.
- Decompress.Decompress: requires that the limit with a VM block, or the bytes of all listed matches, stay within the 32-bit space of chunk numbers; otherwise more chunks might be in use at once than the program has numbers for, and they would wrap.
- Decompress.Decompress: bounds the memory only for runs that read nothing back from the VM file; a restore may overshoot by chunk rounding, as the program allows.
- src/decode/future.rs:73 subtracts before it tests; the model tests first, with the same outcome in wrapping arithmetic.
- The order of equal sources in pass 2: the stable sort is modelled as a stable insertion sort.
- The reread path of `match_len` for the -m4 and -m5 methods (src/encode.rs:46-92): its matches need not be true copies, so only the digest path is modelled; slice hashes belong to it.
- Content-defined chunking (src/matchfind/cdc.rs): the third producer of match lists is not modelled.
- ChunkTable.HashTable.constructor: the sizes of slot array and chunk numbers are parameters; the program rounds them up to powers of two, so that masks are remainders.
- RepDictionary.DictionaryCompressor.constructor: table sizes are parameters; the program rounds them up to powers of two, so that masks are remainders.
- Size fields of match lists: a list of four GiB or more, which takes 2^28 matches with source in one block, does not fit its 32-bit field (src/compress.rs:290); the model keeps lists whole.
- BlockLimits.CompBufSize: unbounded arithmetic, which the program's 64-bit sums agree with for decoder buffers below 2^62 bytes.
- BackwardPipeline.RoundTripBackward: for inputs at least twelve GiB short of 2^64 bytes, so that positions plus a record never wrap.
- VHash.VHash: AES and the key set-up are not modelled; a key is any that satisfies what set-up delivers.
- VHashStream.VmacCtx.Vhash: the SSE2 and assembly variants of the two steps are not modelled.
- StreamingHash.HashState.Done: block functions are uninterpreted, argument checks that cannot fail for an initialised state are left out, and for SHA the message is below 2^61 bytes as the program assumes.
- DoubleBuffer.EveryRunEnds: error exits of the background thread are not modelled, and saving a block is one step that records its data and result; partial work on a slot being filled or compressed is modelled.
- Fortuna, SipHash, size suffixes, command line.
