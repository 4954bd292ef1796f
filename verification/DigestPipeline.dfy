/** The whole way with the digest match finder, alone or on top of the dictionary compressor. */
module DigestPipeline {
  import opened Bytes
  import opened WideArithmetic
  import opened ChunkStore
  import opened StoreDemand
  import opened Compress
  import opened Recording
  import opened RepDictionary
  import opened RepPipeline
  import opened Lossless
  import opened ChunkTable
  import opened ScanModel
  import opened EarlierMatches
  import opened BlockEncoder
  import opened ScanTrace
  import opened DigestRuns
  import opened RepRuns
  import Pipeline
  import SpillModel
  import BackwardPipeline

  /** The table before a block: digests of all earlier chunks, and no later chunk entered. */
  ghost predicate TableReady(d: seq<byte>, st: Settings, h: HashTable, next: nat, chunks: nat, added: nat)
    reads h, h.chunkarr, h.hasharr, h.digestarr
  {
    && st.l > 0 && h.l == st.l && h.digestarr.Length >= |d| / st.l && added <= chunks && h.Valid(d, chunks, added)
    && (next < |d| ==> next == Product(chunks, st.l))
  }

  /** The chunks of a block lie behind those of the blocks before. */
  lemma BlockChunks(d: seq<byte>, st: Settings, next: nat, chunks: nat, size: nat)
    requires st.Ok(d) && next < |d| && next == Product(chunks, st.l) && size == Min(st.bufsize, |d| - next)
    ensures chunks + size / st.l <= |d| / st.l && size / st.l >= 0
    ensures next + size < Product(chunks + size / st.l, st.l) + st.l
    ensures next + size < |d| ==> next + size == Product(chunks + size / st.l, st.l)
  {
    hide Product;
    DivMod(size, st.l);
    ChunkOffset(chunks, size / st.l, st.l);
    QuotientAtLeast(chunks + size / st.l, st.l, |d|);
  }

  lemma ScanIsOk(d: seq<byte>, st: Settings, next: u64, size: u32, chunks: nat)
    requires st.Ok(d) && next < |d| && next == Product(chunks, st.l) && size == Min(st.bufsize, |d| - next) && size / st.l >= 0
    requires next + size < Product(chunks + size / st.l, st.l) + st.l
    ensures ScanOf(d, st, next, size, chunks, chunks + size / st.l).Ok()
  {
  }

  lemma RecordedIsRep(s: Scan, rep: seq<u32>, end: nat, literals: int)
    requires s.Ok() && (s.round ==> rep == [])
    requires Recorded(rep, s.round, s.baseLen, s.d, s.blockStart, s.blockStart + s.blockSize, end, literals)
    ensures RepOk(s, rep)
  {
    hide Scan.Ok, WholeRecords, LengthsFit, GoodList, Pass1List;
  }

  lemma HasIsCounted(s: Scan, stats: seq<u32>, end: nat, literals: u32)
    requires s.Ok() && s.Has(Progress(stats, end, literals))
    ensures Counted(s.d, PendingBlock(s.blockStart, s.blockSize, stats), s.round, s.baseLen, literals)
  {
    Bounds(s);
    hide Recorded, Scan.Ok;
    CountedIs(s.d, PendingBlock(s.blockStart, s.blockSize, stats), s.round, s.baseLen, literals, s.blockStart + end);
  }

  /** Find the matches of one block by digests, after those found in the dictionary. */
  method DigestBlock(d: seq<byte>, st: Settings, h: HashTable, next: nat, rep: seq<u32>,
      ghost repEnd: nat, ghost repLiterals: int, ghost chunks0: nat, ghost added0: nat)
      returns (literalBytes: u32, stats: seq<u32>, ghost chunks: nat, ghost added: nat, ghost x: DigestRun)
    requires st.Ok(d) && next < |d| && TableReady(d, st, h, next, chunks0, added0) && NoCollisions(d, st.l, h.digest)
    requires (st.round ==> rep == []) && Recorded(rep, st.round, st.baseLen, d, next, next + Min(st.bufsize, |d| - next), repEnd, repLiterals)
    modifies h.chunkarr, h.hasharr, h.digestarr
    ensures var size := Min(st.bufsize, |d| - next);
            && Counted(d, PendingBlock(next, size, stats), st.round, st.baseLen, literalBytes)
            && TableReady(d, st, h, next + size, chunks, added)
            && BlockScanned(d, st, h.digest, PendingBlock(next, size, stats), literalBytes, rep, x)
    ensures Follows(old(h.Contents()), x) && x.Last() == h.Contents()
  {
    var size := Min(st.bufsize, |d| - next);
    BlockChunks(d, st, next, chunks0, size);
    ScanIsOk(d, st, next, size, chunks0);
    ExactChunk(chunks0, st.l);
    hide Recorded, SlotsOk, Prepared, NoCollisions, Counted, RepOk, Fence, Scan.Ok, Scan.Has, Product, BlockScanned, Follows, Run.Ran, Run.Complete;
    ghost var t0 := h.Contents();
    chunks := h.PrepareBuffer(next, d[next..next + size], d, chunks0, added0);
    var s := ScanOf(d, st, next, size, next / st.l, next / st.l + size / st.l);
    RecordedIsRep(s, rep, repEnd, repLiterals);
    var inStats := rep + Fence(s);
    ghost var table := h.Contents();
    ghost var end, run, trace;
    literalBytes, stats, end, added, run, trace := CompressBlock(s, h, inStats, rep, added0);
    HasIsCounted(s, stats, end, literalBytes);
    x := DigestRun(run, trace);
    BlockIsScanned(d, st, h.digest, t0, table, PendingBlock(next, size, stats), literalBytes, rep, end, x);
  }

  lemma BlockIsScanned(d: seq<byte>, st: Settings, digest: DigestFn, t0: Table, t: Table, b: PendingBlock, count: u32, rep: seq<u32>,
      end: nat, x: DigestRun)
    requires st.l > 0 && b.size <= U32_MAX && b.start / st.l >= 0 && b.size / st.l >= 0
    requires var s := ScanOf(d, st, b.start, b.size, b.start / st.l, b.start / st.l + b.size / st.l);
             && s.Ok() && x.run == Run(s, digest, rep, Unscanned(Progress([], 0, b.size), t)) && Prepared(t.digests, d, st.l, digest, s.prepared)
             && x.run.Ran(x.trace) && (if 2 * st.l > b.size then x.trace == [] else x.run.Complete(x.run.Now(x.trace)))
             && x.run.Now(x.trace).p == Progress(b.stats, end, count) && NewDigests(t0, t, s.blockChunks, s.prepared)
    ensures BlockScanned(d, st, digest, b, count, rep, x) && Follows(t0, x)
  {
    hide Scan.Ok, Run.Ran, Run.Complete, Prepared, NewDigests;
  }

  /** The dictionary compressor in front, if there is one. */
  function Used(dict: DictionaryCompressor?): Option<RepSettings> {
    if dict == null then None else Some(SettingsOf(dict))
  }

  ghost function TableOf(dict: DictionaryCompressor?): seq<u64>
    reads if dict == null then {} else {dict.hasharr}
  {
    if dict == null then [] else dict.hasharr[..]
  }

  function RingSize(dict: DictionaryCompressor?, bufsize: u32): nat
    requires bufsize > 0
  {
    if dict == null then 0 else RingLength(dict.maxDist, bufsize)
  }

  /** Ring and table of the dictionary compressor, if there is one, are ready for the block at `next`. */
  ghost predicate FrontReady(d: seq<byte>, st: Settings, dict: DictionaryCompressor?, ring: array<byte>, next: nat, base: nat, a: nat, c: nat)
    reads ring, if dict == null then {} else {dict, dict.hasharr}
  {
    dict != null ==>
      && dict.Valid() && dict.baseLen == st.baseLen && !st.round && ring.Length < W64 && dict.maxDist + 2 * st.bufsize <= ring.Length
      && RingReady(d, st.bufsize, ring[..], dict.hasharr[..], next, base, a, c)
  }

  /** The list the dictionary compressor finds for a block; empty without one. */
  method ListBeforehand(d: seq<byte>, st: Settings, dict: DictionaryCompressor?, ring: array<byte>, next: nat,
      ghost base0: nat, ghost a0: nat, ghost c: nat, ghost repBlocks: seq<PendingBlock>, ghost runs0: seq<BlockRun>)
      returns (rep: seq<u32>, ghost end: nat, ghost literals: int, ghost base: nat, ghost a: nat, ghost runs: seq<BlockRun>)
    requires st.Ok(d) && next < |d| && (st.round <==> dict == null) && FrontReady(d, st, dict, ring, next, base0, a0, c)
    requires BeforehandSoFar(d, Used(dict), ring.Length, repBlocks, runs0, TableOf(dict))
    modifies ring, if dict == null then {} else {dict.hasharr}
    ensures (st.round ==> rep == []) && Recorded(rep, st.round, st.baseLen, d, next, next + Min(st.bufsize, |d| - next), end, literals)
    ensures FrontReady(d, st, dict, ring, next + Min(st.bufsize, |d| - next), base, a, c)
    ensures BeforehandSoFar(d, Used(dict), ring.Length, repBlocks + [PendingBlock(next, Min(st.bufsize, |d| - next), rep)], runs, TableOf(dict))
  {
    hide RingReady, Recorded, RepRuns.RunOk, RunsOk, Chained;
    var size := Min(st.bufsize, |d| - next);
    rep, end, literals, base, a, runs := [], next, size, base0, a0, runs0;
    if dict == null {
      RecordedNone(st.round, st.baseLen, d, next, next + size);
    } else {
      ghost var table := dict.hasharr[..];
      var count;
      ghost var x;
      count, rep, end, base, a, x := RepBlock(d, st.bufsize, dict, ring, next, base0, a0, c);
      literals := count;
      RunsNext(d, SettingsOf(dict), ring.Length, repBlocks, runs0, table, PendingBlock(next, size, rep), x);
      runs := runs0 + [x];
    }
  }

  /** The blocks up to `next` are cut, counted and traced; `t` is the table they have left. */
  ghost predicate DigestSoFar(d: seq<byte>, st: Settings, digest: DigestFn, t0: Table, blocks: seq<PendingBlock>, counts: seq<u32>,
      reps: seq<seq<u32>>, t: Table, next: nat)
  {
    && CutSoFar(d, st.bufsize, blocks, next) && DigestedBy(d, st, digest, t0, blocks, counts, reps, t)
    && |counts| == |blocks| == |reps| && forall k :: 0 <= k < |blocks| ==> Counted(d, blocks[k], st.round, st.baseLen, counts[k])
  }

  lemma DigestStart(d: seq<byte>, st: Settings, digest: DigestFn, t0: Table)
    ensures DigestSoFar(d, st, digest, t0, [], [], [], t0, 0)
  {
    DigestedNone(d, st, digest, t0);
  }

  lemma DigestNext(d: seq<byte>, st: Settings, digest: DigestFn, t0: Table, blocks: seq<PendingBlock>, counts: seq<u32>,
      reps: seq<seq<u32>>, t: Table, b: PendingBlock, count: u32, rep: seq<u32>, x: DigestRun)
    requires DigestSoFar(d, st, digest, t0, blocks, counts, reps, t, b.start) && b.start < |d| && b.size == Min(st.bufsize, |d| - b.start)
    requires st.Ok(d) && Counted(d, b, st.round, st.baseLen, count)
    requires BlockScanned(d, st, digest, b, count, rep, x) && Follows(t, x)
    ensures DigestSoFar(d, st, digest, t0, blocks + [b], counts + [count], reps + [rep], x.Last(), b.start + b.size)
  {
    hide CutSoFar, DigestedBy, BlockScanned, Follows, Counted;
    CutNext(d, st.bufsize, blocks, b.start, b);
    DigestedNext(d, st, digest, t0, blocks, counts, reps, t, b, count, rep, x);
  }

  lemma DigestDone(d: seq<byte>, st: Settings, digest: DigestFn, t0: Table, blocks: seq<PendingBlock>, counts: seq<u32>,
      reps: seq<seq<u32>>, t: Table)
    requires st.Ok(d) && DigestSoFar(d, st, digest, t0, blocks, counts, reps, t, |d|)
    ensures GoodInput(d, st.bufsize, blocks, st.round, st.baseLen) && DigestedBy(d, st, digest, t0, blocks, counts, reps, t)
    ensures |counts| == |blocks| && forall k :: 0 <= k < |blocks| ==> Counted(d, blocks[k], st.round, st.baseLen, counts[k])
  {
    hide CutSoFar, DigestedBy, Counted, GoodInput;
    CountedAll(d, st.bufsize, blocks, counts, st.round, st.baseLen);
  }

  /** Pass 1 of the digest method, with or without the dictionary compressor in front. `reps` are the
      lists found beforehand; with them, the lists of all blocks are those of one run after the other. */
  method CompressDigest(d: seq<byte>, st: Settings, h: HashTable, dict: DictionaryCompressor?)
      returns (blocks: seq<PendingBlock>, counts: seq<u32>, ghost reps: seq<seq<u32>>)
    requires st.Ok(d) && NoCollisions(d, st.l, h.digest) && TableReady(d, st, h, 0, 0, 0) && (st.round <==> dict == null)
    requires dict != null ==> DictReady(dict, st, h)
    modifies h.chunkarr, h.hasharr, h.digestarr, if dict == null then {} else {dict.hasharr}
    ensures GoodInput(d, st.bufsize, blocks, st.round, st.baseLen)
    ensures |counts| == |blocks| && forall k :: 0 <= k < |blocks| ==> Counted(d, blocks[k], st.round, st.baseLen, counts[k])
    ensures DigestedBy(d, st, h.digest, old(h.Contents()), blocks, counts, reps, h.Contents())
    ensures Beforehand(d, Used(dict), RingSize(dict, st.bufsize), blocks, reps)
  {
    hide RingReady, RingLength, NoCollisions, TableReady, DigestedBy, Beforehand, DigestSoFar, Counted, CutSoFar, BeforehandSoFar, GoodInput,
      RunsOk, Chained;
    var ring := new byte[RingSize(dict, st.bufsize)](_ => 0);
    ghost var c := FrontStart(d, st, h, dict, ring);
    blocks, counts, reps := DigestBlocks(d, st, h, dict, ring, c);
  }

  /** Ring and table at the start. */
  lemma FrontStart(d: seq<byte>, st: Settings, h: HashTable, dict: DictionaryCompressor?, ring: array<byte>) returns (c: nat)
    requires st.Ok(d) && (st.round <==> dict == null) && (dict != null ==> DictReady(dict, st, h)) && ring.Length == RingSize(dict, st.bufsize)
    ensures FrontReady(d, st, dict, ring, 0, 0, 0, c) && BeforehandSoFar(d, Used(dict), ring.Length, [], [], TableOf(dict))
  {
    c := 0;
    if dict != null {
      c := RingLengthOk(dict.maxDist, st.bufsize);
      Started(d, st.bufsize, ring[..], dict.hasharr[..], c);
      RunsNone(d, SettingsOf(dict), ring.Length, dict.hasharr[..]);
    }
  }

  /** The block loop. */
  method DigestBlocks(d: seq<byte>, st: Settings, h: HashTable, dict: DictionaryCompressor?, ring: array<byte>, ghost c: nat)
      returns (blocks: seq<PendingBlock>, counts: seq<u32>, ghost reps: seq<seq<u32>>)
    requires st.Ok(d) && NoCollisions(d, st.l, h.digest) && TableReady(d, st, h, 0, 0, 0) && (st.round <==> dict == null)
    requires FrontReady(d, st, dict, ring, 0, 0, 0, c) && BeforehandSoFar(d, Used(dict), ring.Length, [], [], TableOf(dict))
    requires Separate(h, dict, ring)
    modifies ring, h.chunkarr, h.hasharr, h.digestarr, if dict == null then {} else {dict.hasharr}
    ensures GoodInput(d, st.bufsize, blocks, st.round, st.baseLen)
    ensures |counts| == |blocks| && forall k :: 0 <= k < |blocks| ==> Counted(d, blocks[k], st.round, st.baseLen, counts[k])
    ensures DigestedBy(d, st, h.digest, old(h.Contents()), blocks, counts, reps, h.Contents())
    ensures Beforehand(d, Used(dict), ring.Length, blocks, reps)
  {
    hide RingReady, NoCollisions, TableReady, DigestedBy, Beforehand, DigestSoFar, Counted, CutSoFar, BeforehandSoFar, GoodInput, FrontReady,
      BlockScanned, Follows, Recorded;
    blocks, counts, reps := [], [], [];
    var blockStart: nat := 0;
    ghost var base: nat, a: nat, chunks: nat, added: nat, runs: seq<BlockRun> := 0, 0, 0, 0, [];
    DigestStart(d, st, h.digest, h.Contents());
    assert WithLists(blocks, reps) == [];
    while blockStart < |d|
      invariant blockStart <= |d| && |blocks| == |reps|
      invariant DigestSoFar(d, st, h.digest, old(h.Contents()), blocks, counts, reps, h.Contents(), blockStart)
      invariant FrontReady(d, st, dict, ring, blockStart, base, a, c)
      invariant BeforehandSoFar(d, Used(dict), ring.Length, WithLists(blocks, reps), runs, TableOf(dict))
      invariant TableReady(d, st, h, blockStart, chunks, added)
      decreases |d| - blockStart
    {
      var size := Min(st.bufsize, |d| - blockStart);
      var rep, literalBytes, stats;
      ghost var end, literals, x;
      rep, end, literals, base, a, runs := ListBeforehand(d, st, dict, ring, blockStart, base, a, c, WithLists(blocks, reps), runs);
      ghost var table := h.Contents();
      literalBytes, stats, chunks, added, x := DigestBlock(d, st, h, blockStart, rep, end, literals, chunks, added);
      var b := PendingBlock(blockStart, size, stats);
      DigestNext(d, st, h.digest, old(h.Contents()), blocks, counts, reps, table, b, literalBytes, rep, x);
      WithListsNext(blocks, reps, b, rep);
      blocks, counts, reps := blocks + [b], counts + [literalBytes], reps + [rep];
      blockStart := blockStart + size;
    }
    DigestDone(d, st, h.digest, old(h.Contents()), blocks, counts, reps, h.Contents());
    BeforehandDone(d, Used(dict), ring.Length, blocks, reps, runs, TableOf(dict));
  }

  /** Ring and tables share no memory. */
  ghost predicate Separate(h: HashTable, dict: DictionaryCompressor?, ring: array<byte>) {
    && ring as object != h.chunkarr && ring as object != h.hasharr && ring as object != h.digestarr
    && (dict != null ==>
          && ring as object != dict.hasharr
          && dict.hasharr as object != h.chunkarr && dict.hasharr as object != h.hasharr && dict.hasharr as object != h.digestarr)
  }

  /** A fresh dictionary compressor with the settings of the digest method. */
  ghost predicate DictReady(dict: DictionaryCompressor, st: Settings, h: HashTable)
    reads dict, dict.hasharr
    requires st.bufsize > 0
  {
    && dict.Valid() && dict.baseLen == st.baseLen && RingLength(dict.maxDist, st.bufsize) < W64
    && (forall k :: 0 <= k < dict.hasharr.Length ==> dict.hasharr[k] == 0)
    && dict.hasharr as object != h.chunkarr && dict.hasharr as object != h.hasharr && dict.hasharr as object != h.digestarr
  }

  /** Compressing by digests and decoding, in the future or index layout, gives the input back,
      is refused for a block too large for the driver, or stalls, provided the digest tells the
      windows of this input apart; it cannot stall when a VM block holds any match of a block
      and the memory holds a VM block, and nothing is too large in the index layout. */
  method RoundTripDigest(d: seq<byte>, st: Settings, h: HashTable, dict: DictionaryCompressor?,
      decBuf: u64, inlineLists: bool, memlimit: u64, vmBlock: nat, maximumSave: u32)
      returns (r: Result<seq<byte>>, ghost blocks: seq<PendingBlock>, ghost counts: seq<u32>, ghost reps: seq<seq<u32>>)
    requires st.Ok(d) && NoCollisions(d, st.l, h.digest) && TableReady(d, st, h, 0, 0, 0) && (st.round <==> dict == null)
    requires dict != null ==> DictReady(dict, st, h)
    requires vmBlock >= 4 && Min(UsefulMemory(memlimit) / 60 + vmBlock, ChunkBound(|d|, st.baseLen)) <= MAX_USED
    modifies h.chunkarr, h.hasharr, h.digestarr, if dict == null then {} else {dict.hasharr}
    ensures GoodInput(d, st.bufsize, blocks, st.round, st.baseLen)
    ensures DigestedBy(d, st, h.digest, old(h.Contents()), blocks, counts, reps, h.Contents())
    ensures Beforehand(d, Used(dict), RingSize(dict, st.bufsize), blocks, reps)
    ensures r == Err(Stalled) || r == if AllFit(blocks, st.round, st.baseLen, decBuf, inlineLists) then Ok(d) else Err(TooLarge)
    ensures !inlineLists && st.bufsize <= decBuf ==> r == Ok(d) || r == Err(Stalled)
    ensures st.bufsize + 24 <= vmBlock <= UsefulMemory(memlimit) ==> r != Err(Stalled)
    ensures Pipeline.NoneOverfull(blocks, st.round, st.baseLen, maximumSave, UsefulMemory(memlimit)) ==> r != Err(Stalled)
    ensures AllFit(blocks, st.round, st.baseLen, decBuf, inlineLists) ==>
              (r == Err(Stalled) <==> Pipeline.Stalls(blocks, st.round, st.baseLen, maximumSave, SpillModel.Limits(UsefulMemory(memlimit), vmBlock)))
  {
    hide GoodInput, Gathered, UsefulMemory, RingLength, Counted, NoCollisions, TableReady, AllFit, AllPieces, Sorted, Demand, ChunkBound,
      DigestedBy, Beforehand, Pipeline.NoneOverfull, Pipeline.Stalls, DictReady;
    var found, foundCounts;
    found, foundCounts, reps := CompressDigest(d, st, h, dict);
    blocks, counts := found, foundCounts;
    MatchesFitBlocks(d, st.bufsize, blocks, st.round, st.baseLen);
    PiecesBound(d, st.bufsize, blocks, st.round, st.baseLen);
    r := Pipeline.RoundTrip(d, st.bufsize, found, st.round, st.baseLen, decBuf, inlineLists, memlimit, vmBlock, maximumSave);
  }

  /** The same in the backward layouts, rounded or plain, which never stall; with a base length
      of eight or more they always give the input back. */
  method RoundTripDigestBackward(d: seq<byte>, st: Settings, h: HashTable, dict: DictionaryCompressor?, decBuf: u64)
      returns (r: Result<seq<byte>>, ghost blocks: seq<PendingBlock>, ghost counts: seq<u32>, ghost reps: seq<seq<u32>>)
    requires st.Ok(d) && NoCollisions(d, st.l, h.digest) && TableReady(d, st, h, 0, 0, 0) && (st.round <==> dict == null)
    requires dict != null ==> DictReady(dict, st, h)
    requires |d| < W64 - 3 * W32
    modifies h.chunkarr, h.hasharr, h.digestarr, if dict == null then {} else {dict.hasharr}
    ensures GoodInput(d, st.bufsize, blocks, st.round, st.baseLen)
    ensures DigestedBy(d, st, h.digest, old(h.Contents()), blocks, counts, reps, h.Contents())
    ensures Beforehand(d, Used(dict), RingSize(dict, st.bufsize), blocks, reps)
    ensures r == if BackwardPipeline.AllFitBackward(blocks, st.round, st.baseLen, decBuf) then Ok(d) else Err(TooLarge)
    ensures st.baseLen >= 8 && st.bufsize <= decBuf ==> r == Ok(d)
  {
    hide GoodInput, RingLength, Counted, NoCollisions, TableReady, BackwardPipeline.AllFitBackward, DigestedBy, Beforehand, DictReady;
    var found, foundCounts;
    found, foundCounts, reps := CompressDigest(d, st, h, dict);
    blocks, counts := found, foundCounts;
    r := BackwardPipeline.RoundTripBackward(d, st.bufsize, found, st.round, st.baseLen, decBuf);
  }
}
