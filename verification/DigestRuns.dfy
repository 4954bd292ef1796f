/** What the digest method does to a whole input: one run per block, on top of the list found
    beforehand, each with the table the run before left and the digests of its own chunks. */
module DigestRuns {
  import opened Bytes
  import opened WideArithmetic
  import opened Compress
  import opened ChunkTable
  import opened RepRuns
  import opened ScanModel
  import opened ScanTrace
  import opened ScanLaws

  /** The command-line settings of the digest method that matching depends on. */
  datatype Settings = Settings(bufsize: u32, round: bool, baseLen: u32, minMatch: nat, l: nat) {
    ghost predicate Ok(d: seq<byte>) {
      && l >= 8 && 0 < baseLen <= minMatch && 0 < bufsize < U32_MAX && bufsize % l == 0 && |d| <= W64 - W32
      && (round ==> l % baseLen == 0 && |d| / baseLen < W32)
    }
  }

  /** The scan of a block, once its digests are prepared. */
  function ScanOf(d: seq<byte>, st: Settings, next: u64, size: u32, chunks: nat, prepared: nat): Scan {
    Scan(d, st.round, st.baseLen, st.minMatch, st.l, next, size, chunks, prepared)
  }

  datatype DigestRun = DigestRun(run: Run, trace: seq<Entry>) {
    ghost function First(): Table { run.start.t }

    ghost function Last(): Table { run.Now(trace).t }
  }

  /** The run scans the block, with the digests of its chunks in place and `rep` as the list found
      beforehand, until every chunk is entered, and ends with the list and the count of the block. */
  ghost predicate BlockScanned(d: seq<byte>, st: Settings, digest: DigestFn, b: PendingBlock, count: u32, rep: seq<u32>, x: DigestRun) {
    && x.run.s.Ok() && st.l > 0 && b.size <= U32_MAX && 0 <= b.start / st.l && x.run.s == ScanOf(d, st, b.start, b.size, b.start / st.l, x.run.s.prepared)
    && x.run.s.prepared == b.start / st.l + b.size / st.l
    && x.run.digest == digest && x.run.rep == rep && x.run.start == Unscanned(Progress([], 0, b.size), x.First())
    && Prepared(x.First().digests, d, st.l, digest, x.run.s.prepared)
    && x.run.Ran(x.trace) && (if 2 * st.l > b.size then x.trace == [] else x.run.Complete(x.run.Now(x.trace)))
    && x.run.Now(x.trace).p.stats == b.stats && x.run.Now(x.trace).p.literals == count
  }

  /** Only the digests of the chunks `from..upto` are new. */
  ghost predicate NewDigests(t: Table, t': Table, from: nat, upto: nat) {
    && t' == t.(digests := t'.digests) && |t'.digests| == |t.digests|
    && forall c :: 0 <= c < |t.digests| && !(from <= c < upto) ==> t'.digests[c] == t.digests[c]
  }

  ghost predicate Follows(t: Table, x: DigestRun) {
    NewDigests(t, x.First(), x.run.s.blockChunks, x.run.s.prepared)
  }

  ghost predicate BlocksScanned(d: seq<byte>, st: Settings, digest: DigestFn, blocks: seq<PendingBlock>, counts: seq<u32>, reps: seq<seq<u32>>,
      runs: seq<DigestRun>)
  {
    && |runs| == |blocks| == |counts| == |reps|
    && forall k :: 0 <= k < |runs| ==> BlockScanned(d, st, digest, blocks[k], counts[k], reps[k], runs[k])
  }

  /** The table after the first `k` blocks. */
  ghost function TableAfter(runs: seq<DigestRun>, t0: Table, k: nat): Table
    requires k <= |runs|
  {
    if k == 0 then t0 else runs[k - 1].Last()
  }

  ghost predicate TablesLinked(runs: seq<DigestRun>, t0: Table) {
    forall k :: 0 <= k < |runs| ==> Follows(TableAfter(runs, t0, k), runs[k])
  }

  /** Starting with the table `t0`, the digest method gives these lists and counts, and leaves the table `t`. */
  ghost predicate DigestedBy(d: seq<byte>, st: Settings, digest: DigestFn, t0: Table, blocks: seq<PendingBlock>, counts: seq<u32>,
      reps: seq<seq<u32>>, t: Table)
  {
    exists runs :: BlocksScanned(d, st, digest, blocks, counts, reps, runs) && TablesLinked(runs, t0) && t == TableAfter(runs, t0, |runs|)
  }

  lemma DigestedNone(d: seq<byte>, st: Settings, digest: DigestFn, t0: Table)
    ensures DigestedBy(d, st, digest, t0, [], [], [], t0)
  {
    assert BlocksScanned(d, st, digest, [], [], [], []) && TablesLinked([], t0) && t0 == TableAfter([], t0, 0);
  }

  lemma DigestedNext(d: seq<byte>, st: Settings, digest: DigestFn, t0: Table, blocks: seq<PendingBlock>, counts: seq<u32>,
      reps: seq<seq<u32>>, t: Table, b: PendingBlock, count: u32, rep: seq<u32>, x: DigestRun)
    requires DigestedBy(d, st, digest, t0, blocks, counts, reps, t)
    requires BlockScanned(d, st, digest, b, count, rep, x) && Follows(t, x)
    ensures DigestedBy(d, st, digest, t0, blocks + [b], counts + [count], reps + [rep], x.Last())
  {
    hide BlockScanned, Follows, BlocksScanned, TablesLinked, TableAfter;
    var runs :| BlocksScanned(d, st, digest, blocks, counts, reps, runs) && TablesLinked(runs, t0) && t == TableAfter(runs, t0, |runs|);
    ScannedNext(d, st, digest, blocks, counts, reps, runs, b, count, rep, x);
    LinkedNext(runs, t0, x);
    assert BlocksScanned(d, st, digest, blocks + [b], counts + [count], reps + [rep], runs + [x]);
  }

  lemma ScannedNext(d: seq<byte>, st: Settings, digest: DigestFn, blocks: seq<PendingBlock>, counts: seq<u32>, reps: seq<seq<u32>>,
      runs: seq<DigestRun>, b: PendingBlock, count: u32, rep: seq<u32>, x: DigestRun)
    requires BlocksScanned(d, st, digest, blocks, counts, reps, runs) && BlockScanned(d, st, digest, b, count, rep, x)
    ensures BlocksScanned(d, st, digest, blocks + [b], counts + [count], reps + [rep], runs + [x])
  {
    hide BlockScanned;
  }

  lemma LinkedNext(runs: seq<DigestRun>, t0: Table, x: DigestRun)
    requires TablesLinked(runs, t0) && Follows(TableAfter(runs, t0, |runs|), x)
    ensures TablesLinked(runs + [x], t0) && x.Last() == TableAfter(runs + [x], t0, |runs + [x]|)
  {
    hide Follows;
    var more := runs + [x];
    forall k | 0 <= k < |more| ensures Follows(TableAfter(more, t0, k), more[k]) {
      assert TableAfter(more, t0, k) == TableAfter(runs, t0, k);
    }
  }

  // ---- one outcome ----

  /** Digests that are all in place are the same. */
  lemma PreparedOnce(d: seq<byte>, st: Settings, digest: DigestFn, t: Table, t1: Table, t2: Table, from: nat, upto: nat)
    requires st.l > 0 && NewDigests(t, t1, from, upto) && NewDigests(t, t2, from, upto)
    requires Prepared(t1.digests, d, st.l, digest, upto) && Prepared(t2.digests, d, st.l, digest, upto)
    ensures t1 == t2
  {
    hide Product;
    forall c | 0 <= c < |t.digests| ensures t1.digests[c] == t2.digests[c] {
      if c < upto { assert DigestOk(t1.digests, d, st.l, digest, c) && DigestOk(t2.digests, d, st.l, digest, c); }
    }
    assert t1.digests == t2.digests;
  }

  lemma RunOnce(d: seq<byte>, st: Settings, digest: DigestFn, t: Table, start: nat, size: nat, rep: seq<u32>,
      b: PendingBlock, count: u32, x: DigestRun, b': PendingBlock, count': u32, x': DigestRun)
    requires b.start == b'.start == start && b.size == b'.size == size && st.l > 0
    requires BlockScanned(d, st, digest, b, count, rep, x) && BlockScanned(d, st, digest, b', count', rep, x') && Follows(t, x) && Follows(t, x')
    ensures b == b' && count == count' && x.Last() == x'.Last()
  {
    hide Scan.Ok, Run.Ran, Run.Complete, Prepared, NewDigests;
    PreparedOnce(d, st, digest, t, x.First(), x'.First(), start / st.l, start / st.l + size / st.l);
    assert x.run == x'.run;
    if 2 * st.l <= size { OneOutcome(x.run, x.trace, x'.trace); }
  }

  lemma {:induction false} TablesOnce(d: seq<byte>, st: Settings, digest: DigestFn, t0: Table, reps: seq<seq<u32>>, k: nat,
      blocks: seq<PendingBlock>, counts: seq<u32>, runs: seq<DigestRun>,
      blocks': seq<PendingBlock>, counts': seq<u32>, runs': seq<DigestRun>)
    requires BlocksScanned(d, st, digest, blocks, counts, reps, runs) && TablesLinked(runs, t0)
    requires BlocksScanned(d, st, digest, blocks', counts', reps, runs') && TablesLinked(runs', t0)
    requires forall j :: 0 <= j < |reps| ==> blocks[j].start == blocks'[j].start && blocks[j].size == blocks'[j].size
    requires k <= |reps|
    ensures TableAfter(runs, t0, k) == TableAfter(runs', t0, k)
    ensures forall j :: 0 <= j < k ==> blocks[j] == blocks'[j] && counts[j] == counts'[j]
  {
    hide BlockScanned, Follows, BlocksScanned, TablesLinked, TableAfter;
    ScannedSize(d, st, digest, blocks, counts, reps, runs);
    ScannedSize(d, st, digest, blocks', counts', reps, runs');
    if k == 0 {
      assert TableAfter(runs, t0, 0) == t0 == TableAfter(runs', t0, 0) by { NoTable(runs, t0); NoTable(runs', t0); }
    } else {
      var j := k - 1;
      ScannedAt(d, st, digest, t0, blocks, counts, reps, runs, j);
      ScannedAt(d, st, digest, t0, blocks', counts', reps, runs', j);
      TablesOnce(d, st, digest, t0, reps, j, blocks, counts, runs, blocks', counts', runs');
      RunOnce(d, st, digest, TableAfter(runs, t0, j), blocks[j].start, blocks[j].size, reps[j],
        blocks[j], counts[j], runs[j], blocks'[j], counts'[j], runs'[j]);
    }
  }

  lemma ScannedSize(d: seq<byte>, st: Settings, digest: DigestFn, blocks: seq<PendingBlock>, counts: seq<u32>, reps: seq<seq<u32>>, runs: seq<DigestRun>)
    requires BlocksScanned(d, st, digest, blocks, counts, reps, runs)
    ensures |runs| == |blocks| == |counts| == |reps|
  {
  }

  lemma NoTable(runs: seq<DigestRun>, t0: Table)
    ensures TableAfter(runs, t0, 0) == t0
  {
  }

  lemma ScannedAt(d: seq<byte>, st: Settings, digest: DigestFn, t0: Table, blocks: seq<PendingBlock>, counts: seq<u32>, reps: seq<seq<u32>>,
      runs: seq<DigestRun>, j: nat)
    requires BlocksScanned(d, st, digest, blocks, counts, reps, runs) && TablesLinked(runs, t0) && j < |runs|
    ensures |runs| == |blocks| == |counts| == |reps| && st.l > 0
    ensures BlockScanned(d, st, digest, blocks[j], counts[j], reps[j], runs[j]) && Follows(TableAfter(runs, t0, j), runs[j])
    ensures TableAfter(runs, t0, j + 1) == runs[j].Last()
  {
    hide Follows, Run.Ran, Run.Complete, Prepared, ScanOf;
    assert BlockScanned(d, st, digest, blocks[j], counts[j], reps[j], runs[j]) && Follows(TableAfter(runs, t0, j), runs[j]);
  }

  /** The lists and counts of an input cut into blocks are determined by the settings, the table at
      the start and the lists found beforehand. */
  lemma DigestedOnce(d: seq<byte>, st: Settings, digest: DigestFn, t0: Table, reps: seq<seq<u32>>,
      blocks: seq<PendingBlock>, counts: seq<u32>, t: Table, blocks': seq<PendingBlock>, counts': seq<u32>, t': Table)
    requires DigestedBy(d, st, digest, t0, blocks, counts, reps, t) && DigestedBy(d, st, digest, t0, blocks', counts', reps, t')
    requires |blocks| == |blocks'| && forall j :: 0 <= j < |blocks| ==> blocks[j].start == blocks'[j].start && blocks[j].size == blocks'[j].size
    ensures blocks == blocks' && counts == counts' && t == t'
  {
    hide BlockScanned, TablesLinked;
    var runs :| BlocksScanned(d, st, digest, blocks, counts, reps, runs) && TablesLinked(runs, t0) && t == TableAfter(runs, t0, |runs|);
    var runs' :| BlocksScanned(d, st, digest, blocks', counts', reps, runs') && TablesLinked(runs', t0) && t' == TableAfter(runs', t0, |runs'|);
    TablesOnce(d, st, digest, t0, reps, |reps|, blocks, counts, runs, blocks', counts', runs');
  }

  // ---- lists found beforehand ----

  /** The blocks with the lists `reps` instead of their own. */
  function WithLists(blocks: seq<PendingBlock>, reps: seq<seq<u32>>): (bs: seq<PendingBlock>)
    requires |blocks| == |reps|
  {
    seq(|blocks|, k requires 0 <= k < |blocks| => PendingBlock(blocks[k].start, blocks[k].size, reps[k]))
  }

  /** The lists found beforehand are those of the dictionary compressor, or empty without one. */
  ghost predicate Beforehand(d: seq<byte>, dict: Option<RepSettings>, ringLen: nat, blocks: seq<PendingBlock>, reps: seq<seq<u32>>) {
    && |reps| == |blocks|
    && if dict.None? then forall k :: 0 <= k < |reps| ==> reps[k] == [] else WrittenBy(d, dict.value, ringLen, WithLists(blocks, reps))
  }

  /** So far: the runs of the dictionary compressor, which have left its table as `table`. */
  ghost predicate BeforehandSoFar(d: seq<byte>, dict: Option<RepSettings>, ringLen: nat, repBlocks: seq<PendingBlock>, runs: seq<BlockRun>,
      table: seq<u64>)
  {
    if dict.None? then forall k :: 0 <= k < |repBlocks| ==> repBlocks[k].stats == []
    else RunsOk(d, dict.value, ringLen, repBlocks, runs) && Chained(runs, dict.value.size, table)
  }

  lemma BeforehandDone(d: seq<byte>, dict: Option<RepSettings>, ringLen: nat, blocks: seq<PendingBlock>, reps: seq<seq<u32>>,
      runs: seq<BlockRun>, table: seq<u64>)
    requires |reps| == |blocks| && BeforehandSoFar(d, dict, ringLen, WithLists(blocks, reps), runs, table)
    ensures Beforehand(d, dict, ringLen, blocks, reps)
  {
    hide RunsOk, Chained, WrittenBy;
    if dict.None? {
      forall k | 0 <= k < |reps| ensures reps[k] == [] {
        assert WithLists(blocks, reps)[k].stats == reps[k];
      }
    } else {
      RunsWritten(d, dict.value, ringLen, WithLists(blocks, reps), runs, table);
    }
  }

  lemma WithListsNext(blocks: seq<PendingBlock>, reps: seq<seq<u32>>, b: PendingBlock, rep: seq<u32>)
    requires |blocks| == |reps|
    ensures WithLists(blocks + [b], reps + [rep]) == WithLists(blocks, reps) + [PendingBlock(b.start, b.size, rep)]
  {
  }
}
