/** The whole way with the in-memory dictionary compressor: input, matches, archive, input. */
module RepPipeline {
  import opened Bytes
  import opened MatchModel
  import opened WideArithmetic
  import opened ChunkStore
  import opened StoreDemand
  import opened Compress
  import opened Recording
  import opened RepDictionary
  import opened RepRuns
  import opened RepSources
  import opened Lossless
  import Pipeline
  import SpillModel
  import BackwardPipeline

  /** Pass 1 counts this many literals in the block. */
  ghost predicate Counted(d: seq<byte>, b: PendingBlock, round: bool, base: u32, literals: u32)
    requires round ==> base > 0
  {
    exists end: nat :: CountedTo(d, b, round, base, literals, end)
  }

  ghost predicate CountedTo(d: seq<byte>, b: PendingBlock, round: bool, base: u32, literals: u32, end: nat)
    requires round ==> base > 0
  {
    Recorded(b.stats, round, base, d, b.start, b.start + b.size, end, literals)
  }

  /** The count is the number of literals extracted later. */
  lemma CountedLiterals(d: seq<byte>, b: PendingBlock, round: bool, base: u32, literals: u32, lits: seq<byte>)
    requires (round ==> base > 0) && Counted(d, b, round, base, literals) && b.start + b.size <= |d|
    requires Decodes(d[..b.start + b.size], b.start, SetOf(Pass1List(b.stats, round, base, b.start)), lits)
    ensures |lits| == literals
  {
    var end: nat :| CountedTo(d, b, round, base, literals, end);
    LiteralCount(b.stats, round, base, d, b.start, b.start + b.size, end, literals, lits);
  }

  lemma CountedIs(d: seq<byte>, b: PendingBlock, round: bool, base: u32, literals: u32, end: nat)
    requires (round ==> base > 0) && Recorded(b.stats, round, base, d, b.start, b.start + b.size, end, literals)
    ensures Counted(d, b, round, base, literals)
  {
    assert CountedTo(d, b, round, base, literals, end);
  }

  lemma CountedGood(d: seq<byte>, b: PendingBlock, round: bool, base: u32, literals: u32)
    requires (round ==> base > 0) && Counted(d, b, round, base, literals)
    ensures GoodBlock(d, b, round, base)
  {
  }

  /** Blocks cut so far: all of full size unless the input has ended. */
  ghost predicate CutSoFar(d: seq<byte>, bufsize: u32, blocks: seq<PendingBlock>, next: nat) {
    && next == BlocksEnd(blocks, |blocks|) <= |d|
    && forall k :: 0 <= k < |blocks| ==> CutBlock(d, bufsize, blocks, k, next)
  }

  ghost predicate CutBlock(d: seq<byte>, bufsize: u32, blocks: seq<PendingBlock>, k: nat, next: nat)
    requires k < |blocks|
  {
    && 0 < blocks[k].size <= bufsize && blocks[k].start == BlocksEnd(blocks, k)
    && (k + 1 < |blocks| || next < |d| ==> blocks[k].size == bufsize)
  }

  lemma CutNext(d: seq<byte>, bufsize: u32, blocks: seq<PendingBlock>, next: u64, b: PendingBlock)
    requires CutSoFar(d, bufsize, blocks, next) && next < |d|
    requires b.start == next && b.size == Min(bufsize, |d| - next) && bufsize > 0
    ensures CutSoFar(d, bufsize, blocks + [b], next + b.size)
  {
    var bs, end := blocks + [b], next + b.size;
    forall k | 0 <= k < |bs| ensures CutBlock(d, bufsize, bs, k, end) {
      if k < |blocks| {
        assert CutBlock(d, bufsize, blocks, k, next);
        assert bs[k] == blocks[k] && BlocksEnd(bs, k) == BlocksEnd(blocks, k);
      }
    }
  }

  lemma CutDone(d: seq<byte>, bufsize: u32, blocks: seq<PendingBlock>)
    requires CutSoFar(d, bufsize, blocks, |d|)
    ensures Blocked(d, bufsize, blocks)
  {
    forall k | 0 <= k < |blocks|
      ensures 0 < blocks[k].size <= bufsize && blocks[k].start == BlocksEnd(blocks, k) && (k + 1 < |blocks| ==> blocks[k].size == bufsize)
    {
      assert CutBlock(d, bufsize, blocks, k, |d|);
    }
  }

  /** The ring: a whole number of blocks, two more than the dictionary needs. */
  function RingLength(dictsize: nat, bufsize: u32): (r: nat)
    requires bufsize > 0
    ensures r >= 2 * bufsize
  {
    QuotientNat(dictsize + bufsize - 1, bufsize);
    NextProduct((dictsize + bufsize - 1) / bufsize, bufsize);
    (dictsize + bufsize - 1) / bufsize * bufsize + 2 * bufsize
  }

  lemma RingLengthOk(dictsize: nat, bufsize: u32) returns (c: nat)
    requires bufsize > 0
    ensures RingLength(dictsize, bufsize) == Product(c, bufsize) >= dictsize + 2 * bufsize
  {
    var x := dictsize + bufsize - 1;
    c := x / bufsize + 2;
    assert x == x / bufsize * bufsize + x % bufsize;
    assert (x / bufsize + 2) * bufsize == x / bufsize * bufsize + 2 * bufsize;
  }

  /** Where the next block goes: `a` blocks into the current lap. */
  ghost predicate AtBlock(next: nat, base: nat, a: nat, c: nat, bufsize: u32, ringLen: nat) {
    && ringLen > 0 && ringLen == Product(c, bufsize) && next == base + Product(a, bufsize) && a <= c && base % ringLen == 0
  }

  lemma BlockFitsRing(next: nat, base: nat, a: nat, c: nat, bufsize: u32, ringLen: nat)
    requires ringLen > 0 && AtBlock(next, base, a, c, bufsize, ringLen) && a < c
    ensures next - base + bufsize <= ringLen && next % ringLen == next - base
    ensures AtBlock(next + bufsize, base, a + 1, c, bufsize, ringLen)
  {
    Monotone(a + 1, c, bufsize);
    assert (a + 1) * bufsize == a * bufsize + bufsize;
    Monotone(0, a, bufsize);
    ModIs(next, ringLen, base / ringLen, next - base);
  }

  lemma SomeBlock(next: nat, base: nat, a: nat, c: nat, bufsize: u32, ringLen: nat)
    requires AtBlock(next, base, a, c, bufsize, ringLen)
    ensures c > 0
  {
  }

  lemma NextLap(next: nat, base: nat, c: nat, bufsize: u32, ringLen: nat)
    requires ringLen > 0 && AtBlock(next, base, c, c, bufsize, ringLen)
    ensures next == base + ringLen && AtBlock(next, base + ringLen, 0, c, bufsize, ringLen)
  {
    SameMod(base + ringLen, base, ringLen, 1);
  }

  /** Ring and table are ready for the block at `next`. */
  ghost predicate RingReady(d: seq<byte>, bufsize: u32, ring: seq<byte>, h: seq<u64>, next: nat, base: nat, a: nat, c: nat) {
    && base <= next && Entries(h, next, |ring|)
    && (next < |d| ==> a <= c && AtBlock(next, base, a, c, bufsize, |ring|) && RingHolds(ring, d, base, next - base))
  }

  /** Put a block into the ring and find its matches there. */
  method RepBlock(d: seq<byte>, bufsize: u32, dict: DictionaryCompressor, ring: array<byte>, blockStart: nat,
      ghost base0: nat, ghost a0: nat, ghost c: nat)
      returns (literalBytes: u32, stats: seq<u32>, ghost end: nat, ghost base: nat, ghost a: nat, ghost x: BlockRun)
    requires dict.Valid() && bufsize > 0 && blockStart < |d| <= W64 - W32 && ring.Length < W64
    requires dict.maxDist + 2 * bufsize <= ring.Length
    requires RingReady(d, bufsize, ring[..], dict.hasharr[..], blockStart, base0, a0, c)
    modifies ring, dict.hasharr
    ensures var size := Min(bufsize, |d| - blockStart);
            && Recorded(stats, false, dict.baseLen, d, blockStart, blockStart + size, end, literalBytes)
            && RingReady(d, bufsize, ring[..], dict.hasharr[..], blockStart + size, base, a, c)
            && RunOk(d, SettingsOf(dict), ring.Length, PendingBlock(blockStart, size, stats), x)
            && x.First() == old(dict.hasharr[..]) && x.Last().table == dict.hasharr[..]
  {
    hide RingHolds, Entries, AtBlock, TableOk, Recorded, Chunks, TraceRecorded, RepBlockRun.Trace;
    base, a := base0, a0;
    if a == c {
      NextLap(blockStart, base, c, bufsize, ring.Length);
      RingWrap(ring[..], d, base);
      base, a := base + ring.Length, 0;
      SomeBlock(blockStart, base, a, c, bufsize, ring.Length);
    }
    BlockFitsRing(blockStart, base, a, c, bufsize, ring.Length);
    var size := Min(bufsize, |d| - blockStart);
    var bufstart := blockStart % ring.Length;
    var block := d[blockStart..blockStart + size];
    RingWrite(ring[..], d, base, bufstart, size);
    CopyInto(ring, bufstart, block);
    var hashptr := dict.PrepareBuffer(block);
    if dict.maxDist > 0 { ChunksTable(block, dict.l, hashptr, dict.hasharr.Length); }
    ghost var trace;
    literalBytes, stats, end, trace := dict.Compress(ring[..], bufstart, size, hashptr, d, base, bufsize);
    x := BlockRun(RepBlockRun(ring[..], hashptr, bufstart, bufstart + size, dict.l, dict.maxDist, dict.minMatch, dict.baseLen), trace, base);
    a := a + 1;
  }

  function SettingsOf(dict: DictionaryCompressor): RepSettings {
    RepSettings(dict.maxDist, dict.l, dict.minMatch, dict.baseLen, dict.hasharr.Length)
  }

  /** The next block of pass 1. */
  method RepNext(d: seq<byte>, bufsize: u32, dict: DictionaryCompressor, ring: array<byte>, blockStart: nat,
      ghost blocks: seq<PendingBlock>, ghost counts: seq<u32>, ghost runs0: seq<BlockRun>, ghost base0: nat, ghost a0: nat, ghost c: nat)
      returns (b: PendingBlock, count: u32, ghost runs: seq<BlockRun>, ghost base: nat, ghost a: nat)
    requires dict.Valid() && bufsize > 0 && blockStart < |d| <= W64 - W32 && ring.Length < W64
    requires dict.maxDist + 2 * bufsize <= ring.Length
    requires RingReady(d, bufsize, ring[..], dict.hasharr[..], blockStart, base0, a0, c)
    requires Pass1SoFar(d, bufsize, SettingsOf(dict), ring.Length, blocks, counts, runs0, dict.hasharr[..], blockStart)
    modifies ring, dict.hasharr
    ensures 0 < b.size && blockStart + b.size <= |d|
    ensures RingReady(d, bufsize, ring[..], dict.hasharr[..], blockStart + b.size, base, a, c)
    ensures Pass1SoFar(d, bufsize, SettingsOf(dict), ring.Length, blocks + [b], counts + [count], runs, dict.hasharr[..], blockStart + b.size)
  {
    hide Counted, RingReady, RunOk, Recorded, Pass1SoFar;
    ghost var table := dict.hasharr[..];
    var size := Min(bufsize, |d| - blockStart);
    var stats;
    ghost var end, x;
    count, stats, end, base, a, x := RepBlock(d, bufsize, dict, ring, blockStart, base0, a0, c);
    b := PendingBlock(blockStart, size, stats);
    CountedIs(d, b, false, dict.baseLen, count, end);
    BlockSoFar(d, bufsize, SettingsOf(dict), ring.Length, blocks, counts, runs0, table, blockStart, b, count, x);
    runs := runs0 + [x];
  }

  /** Pass 1 with the dictionary compressor: cut the input into blocks and find the matches of each. */
  method CompressRep(d: seq<byte>, bufsize: u32, dict: DictionaryCompressor) returns (blocks: seq<PendingBlock>, counts: seq<u32>)
    requires dict.Valid() && bufsize > 0 && |d| <= W64 - W32 && RingLength(dict.maxDist, bufsize) < W64
    requires forall k :: 0 <= k < dict.hasharr.Length ==> dict.hasharr[k] == 0
    modifies dict.hasharr
    ensures GoodInput(d, bufsize, blocks, false, dict.baseLen)
    ensures |counts| == |blocks| && forall k :: 0 <= k < |blocks| ==> Counted(d, blocks[k], false, dict.baseLen, counts[k])
    ensures WrittenBy(d, SettingsOf(dict), RingLength(dict.maxDist, bufsize), blocks)
  {
    ghost var c := RingLengthOk(dict.maxDist, bufsize);
    hide Counted, CutSoFar, RingReady, RingLength, RunsOk, Chained, WrittenBy, GoodInput, Pass1SoFar, Product;
    var ring := new byte[RingLength(dict.maxDist, bufsize)](_ => 0);
    Started(d, bufsize, ring[..], dict.hasharr[..], c);
    NothingSoFar(d, bufsize, SettingsOf(dict), ring.Length, dict.hasharr[..]);
    ghost var runs;
    blocks, counts, runs := RepBlocks(d, bufsize, dict, ring, c);
    AllSoFar(d, bufsize, SettingsOf(dict), ring.Length, blocks, counts, runs, dict.hasharr[..]);
  }

  method RepBlocks(d: seq<byte>, bufsize: u32, dict: DictionaryCompressor, ring: array<byte>, ghost c: nat)
      returns (blocks: seq<PendingBlock>, counts: seq<u32>, ghost runs: seq<BlockRun>)
    requires dict.Valid() && bufsize > 0 && |d| <= W64 - W32 && dict.maxDist + 2 * bufsize <= ring.Length < W64
    requires RingReady(d, bufsize, ring[..], dict.hasharr[..], 0, 0, 0, c)
    requires Pass1SoFar(d, bufsize, SettingsOf(dict), ring.Length, [], [], [], dict.hasharr[..], 0)
    modifies ring, dict.hasharr
    ensures Pass1SoFar(d, bufsize, SettingsOf(dict), ring.Length, blocks, counts, runs, dict.hasharr[..], |d|)
  {
    hide RingReady, Pass1SoFar, SettingsOf;
    blocks, counts, runs := [], [], [];
    var blockStart: nat := 0;
    ghost var base: nat, a: nat := 0, 0;
    while blockStart < |d|
      invariant blockStart <= |d|
      invariant Pass1SoFar(d, bufsize, SettingsOf(dict), ring.Length, blocks, counts, runs, dict.hasharr[..], blockStart)
      invariant RingReady(d, bufsize, ring[..], dict.hasharr[..], blockStart, base, a, c)
      decreases |d| - blockStart
    {
      var b, count;
      b, count, runs, base, a := RepNext(d, bufsize, dict, ring, blockStart, blocks, counts, runs, base, a, c);
      blocks, counts := blocks + [b], counts + [count];
      blockStart := blockStart + b.size;
    }
  }

  /** The blocks up to `next` are cut, counted and traced. */
  ghost predicate Pass1SoFar(d: seq<byte>, bufsize: u32, s: RepSettings, ringLen: nat, blocks: seq<PendingBlock>, counts: seq<u32>,
      runs: seq<BlockRun>, table: seq<u64>, next: nat)
  {
    && CutSoFar(d, bufsize, blocks, next) && RunsOk(d, s, ringLen, blocks, runs) && Chained(runs, s.size, table)
    && |counts| == |blocks| && forall k :: 0 <= k < |blocks| ==> Counted(d, blocks[k], false, s.baseLen, counts[k])
  }

  lemma NothingSoFar(d: seq<byte>, bufsize: u32, s: RepSettings, ringLen: nat, table: seq<u64>)
    requires CutSoFar(d, bufsize, [], 0) && Zero(table, s.size)
    ensures Pass1SoFar(d, bufsize, s, ringLen, [], [], [], table, 0)
  {
    RunsNone(d, s, ringLen, table);
    hide CutSoFar, RunsOk, Chained, Zero;
  }

  lemma BlockSoFar(d: seq<byte>, bufsize: u32, s: RepSettings, ringLen: nat, blocks: seq<PendingBlock>, counts: seq<u32>,
      runs: seq<BlockRun>, table: seq<u64>, next: u64, b: PendingBlock, count: u32, x: BlockRun)
    requires Pass1SoFar(d, bufsize, s, ringLen, blocks, counts, runs, table, next) && next < |d|
    requires b.start == next && b.size == Min(bufsize, |d| - next) && bufsize > 0
    requires Counted(d, b, false, s.baseLen, count) && RunOk(d, s, ringLen, b, x) && x.First() == table
    ensures Pass1SoFar(d, bufsize, s, ringLen, blocks + [b], counts + [count], runs + [x], x.Last().table, next + b.size)
  {
    hide CutSoFar, RunsOk, Chained, RunOk, Counted;
    CutNext(d, bufsize, blocks, next, b);
    RunsNext(d, s, ringLen, blocks, runs, table, b, x);
  }

  lemma AllSoFar(d: seq<byte>, bufsize: u32, s: RepSettings, ringLen: nat, blocks: seq<PendingBlock>, counts: seq<u32>,
      runs: seq<BlockRun>, table: seq<u64>)
    requires Pass1SoFar(d, bufsize, s, ringLen, blocks, counts, runs, table, |d|) && |d| <= W64 - W32
    ensures GoodInput(d, bufsize, blocks, false, s.baseLen) && WrittenBy(d, s, ringLen, blocks)
    ensures |counts| == |blocks| && forall k :: 0 <= k < |blocks| ==> Counted(d, blocks[k], false, s.baseLen, counts[k])
  {
    hide CutSoFar, RunsOk, Chained, Counted, GoodInput, WrittenBy;
    CountedAll(d, bufsize, blocks, counts, false, s.baseLen);
    RunsWritten(d, s, ringLen, blocks, runs, table);
  }

  /** Blocks cut to the end of the input, each with a list in order. */
  lemma CountedAll(d: seq<byte>, bufsize: u32, blocks: seq<PendingBlock>, counts: seq<u32>, round: bool, base: u32)
    requires (round ==> base > 0) && CutSoFar(d, bufsize, blocks, |d|) && |d| <= W64 - W32 && |counts| == |blocks|
    requires forall k :: 0 <= k < |blocks| ==> Counted(d, blocks[k], round, base, counts[k])
    ensures GoodInput(d, bufsize, blocks, round, base)
  {
    CutDone(d, bufsize, blocks);
    hide Counted, CutSoFar, Blocked, GoodBlock;
    forall k | 0 <= k < |blocks| ensures GoodBlock(d, blocks[k], round, base) {
      CountedGood(d, blocks[k], round, base, counts[k]);
    }
  }

  lemma Started(d: seq<byte>, bufsize: u32, ring: seq<byte>, h: seq<u64>, c: nat)
    requires bufsize > 0 && |ring| == Product(c, bufsize) && |ring| > 0 && forall k :: 0 <= k < |h| ==> h[k] == 0
    ensures CutSoFar(d, bufsize, [], 0) && RingReady(d, bufsize, ring, h, 0, 0, 0, c)
  {
  }

  /** No match is longer than a block. */
  lemma MatchesFitBlocks(d: seq<byte>, bufsize: u32, blocks: seq<PendingBlock>, round: bool, base: u32)
    requires (round ==> base > 0) && GoodInput(d, bufsize, blocks, round, base)
    ensures forall m :: m in Gathered(blocks, |blocks|, round, base) ==> m.len <= bufsize
  {
    hide GoodInput, Gathered, GoodBlock;
    var g := Gathered(blocks, |blocks|, round, base);
    forall m | m in g ensures m.len <= bufsize {
      var i :| 0 <= i < |g| && g[i] == m;
      var k := GatheredFrom(d, bufsize, blocks, |blocks|, round, base, i);
      GoodBlockAt(d, bufsize, blocks, round, base, k);
      BlockAt(d, bufsize, blocks, k);
    }
  }

  /** Compressing with the dictionary compressor and decoding, in the future or index layout,
      gives the input back, is refused for a block too large for the driver, or stalls; it
      cannot stall when a VM block holds any match of a block and the memory holds a VM block.
      Nothing is too large in the index layout, nor in the future layout when chunks have 48
      bytes for every time the input goes round the ring. */
  method RoundTripRep(d: seq<byte>, bufsize: u32, dict: DictionaryCompressor,
      decBuf: u64, inlineLists: bool, memlimit: u64, vmBlock: nat, maximumSave: u32)
      returns (r: Result<seq<byte>>, ghost blocks: seq<PendingBlock>)
    requires dict.Valid() && bufsize > 0 && |d| <= W64 - W32 && RingLength(dict.maxDist, bufsize) < W64
    requires forall k :: 0 <= k < dict.hasharr.Length ==> dict.hasharr[k] == 0
    requires vmBlock >= 4 && Min(UsefulMemory(memlimit) / 60 + vmBlock, ChunkBound(|d|, dict.baseLen)) <= MAX_USED
    modifies dict.hasharr
    ensures GoodInput(d, bufsize, blocks, false, dict.baseLen)
    ensures r == Err(Stalled) || r == if AllFit(blocks, false, dict.baseLen, decBuf, inlineLists) then Ok(d) else Err(TooLarge)
    ensures WrittenBy(d, SettingsOf(dict), RingLength(dict.maxDist, bufsize), blocks)
    ensures bufsize <= decBuf && (!inlineLists || 48 * Laps(|d|, RingLength(dict.maxDist, bufsize)) <= dict.l) ==> r == Ok(d) || r == Err(Stalled)
    ensures bufsize + 24 <= vmBlock <= UsefulMemory(memlimit) ==> r != Err(Stalled)
    ensures Pipeline.NoneOverfull(blocks, false, dict.baseLen, maximumSave, UsefulMemory(memlimit)) ==> r != Err(Stalled)
    ensures AllFit(blocks, false, dict.baseLen, decBuf, inlineLists) ==>
              (r == Err(Stalled) <==> Pipeline.Stalls(blocks, false, dict.baseLen, maximumSave, SpillModel.Limits(UsefulMemory(memlimit), vmBlock)))
  {
    hide GoodInput, Gathered, UsefulMemory, RingLength, Counted, AllFit, AllPieces, Sorted, Demand, ChunkBound, WrittenBy, Laps,
      Pipeline.NoneOverfull, Pipeline.Stalls;
    var found, counts := CompressRep(d, bufsize, dict);
    blocks := found;
    MatchesFitBlocks(d, bufsize, blocks, false, dict.baseLen);
    PiecesBound(d, bufsize, blocks, false, dict.baseLen);
    ghost var c := RingLengthOk(dict.maxDist, bufsize);
    if bufsize <= decBuf && 48 * Laps(|d|, RingLength(dict.maxDist, bufsize)) <= dict.l {
      RepListsFit(d, bufsize, SettingsOf(dict), RingLength(dict.maxDist, bufsize), c, blocks, decBuf, inlineLists);
    }
    r := Pipeline.RoundTrip(d, bufsize, found, false, dict.baseLen, decBuf, inlineLists, memlimit, vmBlock, maximumSave);
  }

  /** The same in the backward layout, which never stalls; with a base length of eight or more
      it always gives the input back. */
  method RoundTripRepBackward(d: seq<byte>, bufsize: u32, dict: DictionaryCompressor, decBuf: u64)
      returns (r: Result<seq<byte>>, ghost blocks: seq<PendingBlock>)
    requires dict.Valid() && bufsize > 0 && |d| < W64 - 3 * W32 && RingLength(dict.maxDist, bufsize) < W64
    requires forall k :: 0 <= k < dict.hasharr.Length ==> dict.hasharr[k] == 0
    modifies dict.hasharr
    ensures GoodInput(d, bufsize, blocks, false, dict.baseLen)
    ensures WrittenBy(d, SettingsOf(dict), RingLength(dict.maxDist, bufsize), blocks)
    ensures r == if BackwardPipeline.AllFitBackward(blocks, false, dict.baseLen, decBuf) then Ok(d) else Err(TooLarge)
    ensures dict.baseLen >= 8 && bufsize <= decBuf ==> r == Ok(d)
  {
    hide GoodInput, RingLength, Counted, BackwardPipeline.AllFitBackward, WrittenBy;
    var found, counts := CompressRep(d, bufsize, dict);
    blocks := found;
    r := BackwardPipeline.RoundTripBackward(d, bufsize, found, false, dict.baseLen, decBuf);
  }
}
