/** What the dictionary compressor does to a whole input: one run per block, each on the ring as
    it then is and with the table the run before left. */
module RepRuns {
  import opened Bytes
  import opened WideArithmetic
  import opened Compress
  import opened RepDictionary

  /** The settings of a dictionary compressor, `size` being that of its table. */
  datatype RepSettings = RepSettings(maxDist: nat, l: nat, minMatch: nat, baseLen: u32, size: nat) {
    predicate Ok() {
      l > 0 && minMatch > 0 && baseLen <= minMatch && size > 0
    }
  }

  /** The run of one block, with the ring position 0 standing for input position `base`. */
  datatype BlockRun = BlockRun(run: RepBlockRun, trace: seq<RepStep>, base: nat) {
    function First(): seq<u64>
      requires trace != []
    {
      trace[0].table
    }

    function Last(): RepStep
      requires trace != []
    {
      trace[|trace| - 1]
    }
  }

  /** The number of chunks of a block that are looked up: all whole ones but the last. */
  function Steps(s: RepSettings, size: nat): (n: nat)
    requires s.l > 0
  {
    if s.maxDist == 0 then 0 else Max(0, size / s.l - 1)
  }

  /** The run looks the chunks of the block up one after the other, under the largest of their
      window hashes, and ends with the list of the block. */
  ghost predicate RunOk(d: seq<byte>, s: RepSettings, ringLen: nat, b: PendingBlock, x: BlockRun) {
    && s.Ok() && x.run.l == s.l && x.run.maxDist == s.maxDist && x.run.minMatch == s.minMatch && x.run.baseLen == s.baseLen
    && |x.run.ring| == ringLen < W64 && s.maxDist < ringLen && x.run.bufstart < ringLen && |d| < W64
    && b.start == x.base + x.run.bufstart && x.run.bufstart == b.start % ringLen
    && x.run.bufend == x.run.bufstart + b.size && RingHolds(x.run.ring, d, x.base, x.run.bufend)
    && Lookups(d, s, b, x.run.hashptr)
    && |x.trace| == 1 + Steps(s, b.size)
    && x.trace[0].state == RepState([], x.run.bufstart, b.size) && x.Last().state.stats == b.stats
    && |x.First()| == s.size && x.run.Trace(x.trace)
    && TraceRecorded(x.trace, s.baseLen, d, x.base, x.run.bufstart, x.run.bufend)
  }

  /** The table indices and offsets are those of the block's chunks. */
  ghost predicate Lookups(d: seq<byte>, s: RepSettings, b: PendingBlock, hashptr: seq<u64>)
    requires s.Ok()
  {
    b.start + b.size <= |d| &&
    (Steps(s, b.size) > 0 ==> Chunks(d[b.start..b.start + b.size], s.l, hashptr, Steps(s, b.size), s.size))
  }

  ghost predicate Zero(t: seq<u64>, size: nat) {
    |t| == size && forall k :: 0 <= k < size ==> t[k] == 0
  }

  /** Each run starts with the table the one before left, and the last leaves `table`. */
  ghost predicate Chained(runs: seq<BlockRun>, size: nat, table: seq<u64>) {
    && (forall k :: 0 <= k < |runs| ==> runs[k].trace != [])
    && (forall k :: 0 < k < |runs| ==> runs[k].First() == runs[k - 1].Last().table)
    && (if runs == [] then Zero(table, size) else Zero(runs[0].First(), size) && table == runs[|runs| - 1].Last().table)
  }

  ghost predicate RunsOk(d: seq<byte>, s: RepSettings, ringLen: nat, blocks: seq<PendingBlock>, runs: seq<BlockRun>) {
    |runs| == |blocks| && forall k :: 0 <= k < |runs| ==> RunOk(d, s, ringLen, blocks[k], runs[k])
  }

  /** The lists of the blocks are those the dictionary compressor writes. */
  ghost predicate WrittenBy(d: seq<byte>, s: RepSettings, ringLen: nat, blocks: seq<PendingBlock>) {
    exists runs: seq<BlockRun>, table: seq<u64> :: RunsOk(d, s, ringLen, blocks, runs) && Chained(runs, s.size, table)
  }

  lemma RunsNone(d: seq<byte>, s: RepSettings, ringLen: nat, table: seq<u64>)
    requires Zero(table, s.size)
    ensures RunsOk(d, s, ringLen, [], []) && Chained([], s.size, table)
  {
  }

  lemma RunsNext(d: seq<byte>, s: RepSettings, ringLen: nat, blocks: seq<PendingBlock>, runs: seq<BlockRun>, table: seq<u64>,
      b: PendingBlock, x: BlockRun)
    requires RunsOk(d, s, ringLen, blocks, runs) && Chained(runs, s.size, table)
    requires RunOk(d, s, ringLen, b, x) && x.First() == table
    ensures RunsOk(d, s, ringLen, blocks + [b], runs + [x]) && Chained(runs + [x], s.size, x.Last().table)
  {
    RunShape(d, s, ringLen, b, x);
    ChainNext(runs, s.size, table, x);
    hide RunOk, Chained;
  }

  lemma ChainNext(runs: seq<BlockRun>, size: nat, table: seq<u64>, x: BlockRun)
    requires Chained(runs, size, table) && x.trace != [] && x.First() == table
    ensures Chained(runs + [x], size, x.Last().table)
  {
    hide Zero;
    var more := runs + [x];
    forall k | 0 < k < |more| ensures more[k].First() == more[k - 1].Last().table {
      if k == |runs| { assert more[k] == x && more[k - 1] == runs[k - 1]; }
    }
  }

  lemma RunShape(d: seq<byte>, s: RepSettings, ringLen: nat, b: PendingBlock, x: BlockRun)
    requires RunOk(d, s, ringLen, b, x)
    ensures x.trace != [] && |x.First()| == s.size
  {
  }

  lemma RunsWritten(d: seq<byte>, s: RepSettings, ringLen: nat, blocks: seq<PendingBlock>, runs: seq<BlockRun>, table: seq<u64>)
    requires RunsOk(d, s, ringLen, blocks, runs) && Chained(runs, s.size, table)
    ensures WrittenBy(d, s, ringLen, blocks)
  {
  }

  /** What the step of chunk `j` does: it looks the entry of its hash up and replaces it. */
  lemma StepAt(d: seq<byte>, s: RepSettings, ringLen: nat, b: PendingBlock, x: BlockRun, j: nat) returns (h: nat, i: nat)
    requires RunOk(d, s, ringLen, b, x) && j < Steps(s, b.size)
    ensures j + 1 < |x.trace| && h < |x.trace[j].table| && i < W64
    ensures x.run.bufstart <= i < x.run.bufstart + b.size
    ensures s.maxDist < ringLen && x.run.bufstart < ringLen && |x.run.ring| == ringLen
    ensures Probed(x.trace[j].state, x.trace[j + 1].state, x.run.ring, x.run.bufstart, x.run.bufend, s.maxDist, s.minMatch, s.baseLen,
              x.trace[j].table[h], i)
    ensures x.trace[j + 1].table == x.trace[j].table[h := i]
    ensures StateRecorded(x.trace[j].state, s.baseLen, d, x.base, x.run.bufstart, x.run.bufend)
    ensures StateRecorded(x.trace[j + 1].state, s.baseLen, d, x.base, x.run.bufstart, x.run.bufend)
    ensures x.base + x.run.bufstart == b.start && x.base + x.run.bufend <= |d| < W64 && x.run.bufend <= ringLen
    ensures s.Ok() && b.start + b.size <= |d| && 2 * j + 1 < |x.run.hashptr|
    ensures ChunkOk(d[b.start..b.start + b.size], s.l, x.run.hashptr, j, s.size)
    ensures h == x.run.hashptr[2 * j] && i == x.run.bufstart + Product(j, s.l) + x.run.hashptr[2 * j + 1]
  {
    hide Probed, StateRecorded, Product, Steps;
    InputBound(x.run.ring, d, x.base, x.run.bufend);
    assert x.run.Step(x.trace[j], x.trace[j + 1], j);
    assert ChunkOk(d[b.start..b.start + b.size], s.l, x.run.hashptr, j, s.size);
    OffsetInBlock(j, s.l, x.run.hashptr[2 * j + 1], b.size);
    h := x.run.hashptr[2 * j];
    i := x.run.bufstart + Product(j, s.l) + x.run.hashptr[2 * j + 1];
  }

  lemma OffsetInBlock(j: nat, l: nat, offset: nat, n: nat)
    requires ChunkFits(n, l, j) && offset < l
    ensures 0 <= Product(j, l) + offset < n
  {
    Monotone(0, j, l);
  }
}
