/** An archive the decoder refuses: with chunks and matches of a single byte, the dictionary
    compressor writes a record for every byte it has seen before, as long as no two bytes repeat. */
module ShortChunks {
  import opened Bytes
  import opened MatchModel
  import opened Records
  import opened WideArithmetic
  import opened RollingHash
  import opened Cutting
  import opened Compress
  import opened Recording
  import opened RepDictionary
  import opened RepRuns
  import opened Lossless
  import opened BlockLimits
  import opened ChunkStore
  import BackwardPipeline
  import RepPipeline

  /** No two neighbouring bytes come a second time. */
  ghost predicate NoRepeatedPair(d: seq<byte>) {
    forall i: nat, j: nat :: i < j && j + 1 < |d| ==> d[i] != d[j] || d[i + 1] != d[j + 1]
  }

  /** The single-byte settings, with a table that tells all bytes apart and the whole input in reach. */
  predicate Single(s: RepSettings, d: seq<byte>) {
    s.l == 1 && s.minMatch == 1 && s.baseLen == 1 && 256 <= s.size && 2 <= |d| <= s.maxDist
  }

  /** Where byte `v` was last seen in `d[1..j]`; the table takes position 0 for none. */
  ghost function LastSeen(d: seq<byte>, j: nat, v: byte): (p: nat)
    requires j <= |d|
    ensures p == 0 || (0 < p < j && d[p] == v)
  {
    if j == 0 then 0 else if d[j - 1] == v then j - 1 else LastSeen(d, j - 1, v)
  }

  /** The bytes in `d[1..j]`. */
  ghost function Letters(d: seq<byte>, j: nat): set<byte>
    requires j <= |d|
  {
    if j <= 1 then {} else Letters(d, j - 1) + {d[j - 1]}
  }

  /** How many of the first `j` bytes had been seen before. */
  ghost function Repeats(d: seq<byte>, j: nat): (n: nat)
    requires j <= |d|
    ensures n <= j
  {
    if j == 0 then 0 else Repeats(d, j - 1) + if LastSeen(d, j - 1, d[j - 1]) != 0 then 1 else 0
  }

  lemma {:induction false} SeenLetters(d: seq<byte>, j: nat, v: byte)
    requires j <= |d|
    ensures LastSeen(d, j, v) != 0 <==> v in Letters(d, j)
  {
    if j > 0 { SeenLetters(d, j - 1, v); }
  }

  /** All but the first byte are repeats or new. */
  lemma {:induction false} RepeatsAre(d: seq<byte>, j: nat)
    requires j <= |d|
    ensures Repeats(d, j) + |Letters(d, j)| == if j == 0 then 0 else j - 1
  {
    if j == 1 {
      assert LastSeen(d, 0, d[0]) == 0 && Repeats(d, 0) == 0;
    } else if j > 1 {
      RepeatsAre(d, j - 1);
      SeenLetters(d, j - 1, d[j - 1]);
      if d[j - 1] in Letters(d, j - 1) { assert Letters(d, j) == Letters(d, j - 1); }
    }
  }

  // ---- one chunk ----

  /** The hash of a window of one byte is the byte. */
  lemma ByteHash(v: byte)
    ensures HashOf(PRIME1, [v]) == v
  {
    assert [v][..0] == [];
    assert Poly(PRIME1, []) == 0;
    assert Product(0, PRIME1) == 0;
  }

  lemma ByteChunk(d: seq<byte>, size: nat, hashptr: seq<u64>, j: nat)
    requires size >= 256 && |hashptr| >= 2 * j + 2 && ChunkOk(d, 1, hashptr, j, size)
    ensures j + 2 <= |d| && hashptr[2 * j] == d[j] && hashptr[2 * j + 1] == 0 && Product(j, 1) == j
  {
    hide WindowHash, ChunkMax, Slot;
    OneTimes(j);
    WindowByte(d, j);
    ByteSlot(d[j], size);
  }

  lemma OneTimes(j: nat)
    ensures j * 1 == j && Product(j, 1) == j
  {
  }

  lemma WindowByte(d: seq<byte>, j: nat)
    requires j + 2 <= |d|
    ensures ChunkFits(|d|, 1, j) && WindowHash(d, 1, j, 0) == d[j]
  {
    hide HashOf;
    OneTimes(j);
    assert d[j..j + 1] == [d[j]];
    ByteHash(d[j]);
  }

  lemma ByteSlot(v: byte, size: nat)
    requires size >= 256
    ensures Slot(v, size) == v
  {
    ModIs(v, size, 0, v);
  }

  /** What the run does at byte `j`. */
  lemma ByteStep(d: seq<byte>, s: RepSettings, ringLen: nat, b: PendingBlock, x: BlockRun, j: nat)
    requires Single(s, d) && RunOk(d, s, ringLen, b, x) && b.start == 0 && b.size == |d| && j < |d| - 1
    ensures |x.trace| == |d| && x.base == 0 && x.run.bufstart == 0 && x.run.bufend == |d| <= ringLen == |x.run.ring|
    ensures s.maxDist < ringLen && |x.trace[j].table| >= 256
    ensures Probed(x.trace[j].state, x.trace[j + 1].state, x.run.ring, 0, |d|, s.maxDist, 1, 1, x.trace[j].table[d[j]], j)
    ensures x.trace[j + 1].table == x.trace[j].table[d[j] := j]
  {
    hide Probed, StateRecorded, HashOf, RunOk, ChunkOk, Steps, Product;
    ByteRun(d, s, ringLen, b, x);
    var h, i := StepAt(d, s, ringLen, b, x, j);
    assert d[b.start..b.start + b.size] == d;
    ByteChunk(d, s.size, x.run.hashptr, j);
    TableSize(d, s, ringLen, b, x, j);
  }

  lemma ByteRun(d: seq<byte>, s: RepSettings, ringLen: nat, b: PendingBlock, x: BlockRun)
    requires Single(s, d) && RunOk(d, s, ringLen, b, x) && b.start == 0 && b.size == |d|
    ensures Steps(s, b.size) == |d| - 1 && |x.trace| == |d| && x.base == 0 && x.run.bufstart == 0 && x.run.bufend == |d|
    ensures |d| <= ringLen == |x.run.ring| && x.run.ring[..|d|] == d
  {
    hide RepBlockRun.Trace, TraceRecorded, Lookups;
  }

  lemma {:induction false} TableSize(d: seq<byte>, s: RepSettings, ringLen: nat, b: PendingBlock, x: BlockRun, j: nat)
    requires RunOk(d, s, ringLen, b, x) && j < |x.trace|
    ensures |x.trace[j].table| == s.size
  {
    if j > 0 {
      TableSize(d, s, ringLen, b, x, j - 1);
      assert x.run.Step(x.trace[j - 1], x.trace[j], j - 1);
    }
  }

  // ---- the list ----

  /** The state before byte `j`: the table has the last positions, and every repeat is a match of its own. */
  ghost predicate ByteState(d: seq<byte>, x: RepStep, j: nat)
    requires j <= |d|
  {
    && |x.table| >= 256 && (forall v: byte :: x.table[v] == LastSeen(d, j, v))
    && x.state.lastEnd <= j && |x.state.stats| == 4 * Repeats(d, j) && x.state.literals == |d| - Repeats(d, j)
  }

  /** A repeated byte is matched alone: neither neighbour can agree, or a pair would repeat. */
  lemma ByteMatch(d: seq<byte>, ring: seq<byte>, u: RepState, v: RepState, maxDist: nat, m: nat, j: nat)
    requires NoRepeatedPair(d) && |d| <= maxDist < |ring| < W64 && ring[..|d|] == d && j + 1 < |d|
    requires u.lastEnd <= j && (m == 0 || (0 < m < j && d[m] == d[j]))
    requires Probed(u, v, ring, 0, |d|, maxDist, 1, 1, m, j)
    ensures if m == 0 then v == u
            else v.lastEnd == j + 1 && |v.stats| == |u.stats| + 4 && v.literals == u.literals - 1
  {
    if m != 0 {
      var start: nat, end: nat :| ExtendedTo(u, v, ring, 0, |d|, maxDist, 1, 1, m, j, start, end);
      hide EncodeLzMatch, DataStart;
      MatchAlone(d, ring, Max(u.lastEnd, LowBound(m, j, DataStart(0, |ring|, maxDist))), Min(|d|, |ring|), m, j, start, end);
    }
  }

  lemma MatchAlone(d: seq<byte>, ring: seq<byte>, low: int, high: int, m: nat, j: nat, start: nat, end: nat)
    requires NoRepeatedPair(d) && |d| <= |ring| && ring[..|d|] == d && j + 1 < |d| && 0 < m < j && d[m] == d[j] && j < high <= |d|
    requires Extension(ring, m, j, low, high, start, end)
    ensures start == j && end == j + 1
  {
    assert forall p :: 0 <= p < |d| ==> ring[p] == d[p];
    assert AgreeAt(ring, m, j, j) && !AgreeAt(ring, m, j, j - 1) && !AgreeAt(ring, m, j, j + 1);
  }

  /** The table has the last positions, and every repeat so far is a match of its own. */
  lemma {:induction false} ByteStates(d: seq<byte>, s: RepSettings, ringLen: nat, b: PendingBlock, x: BlockRun, j: nat)
    requires NoRepeatedPair(d) && Single(s, d) && RunOk(d, s, ringLen, b, x) && b.start == 0 && b.size == |d| && j < |d|
    requires x.trace != [] && Zero(x.First(), s.size)
    ensures |x.trace| == |d| && ByteState(d, x.trace[j], j)
  {
    hide RunOk, NoRepeatedPair, LastSeen, Repeats, Zero, Probed;
    ByteRun(d, s, ringLen, b, x);
    RunSmall(d, s, ringLen, b, x);
    if j == 0 {
      FirstState(d, s, ringLen, b, x);
    } else {
      ByteStates(d, s, ringLen, b, x, j - 1);
      ByteStep(d, s, ringLen, b, x, j - 1);
      var u, v := x.trace[j - 1], x.trace[j];
      ByteMatch(d, x.run.ring, u.state, v.state, s.maxDist, u.table[d[j - 1]], j - 1);
      NextState(d, u, v, j);
    }
  }

  lemma RunSmall(d: seq<byte>, s: RepSettings, ringLen: nat, b: PendingBlock, x: BlockRun)
    requires RunOk(d, s, ringLen, b, x)
    ensures s.maxDist < ringLen == |x.run.ring| < W64
  {
  }

  lemma FirstState(d: seq<byte>, s: RepSettings, ringLen: nat, b: PendingBlock, x: BlockRun)
    requires Single(s, d) && RunOk(d, s, ringLen, b, x) && b.start == 0 && b.size == |d| && x.trace != [] && Zero(x.First(), s.size)
    ensures ByteState(d, x.trace[0], 0)
  {
    ByteRun(d, s, ringLen, b, x);
    hide RepBlockRun.Trace, TraceRecorded, Lookups, Steps;
  }

  lemma NextState(d: seq<byte>, u: RepStep, v: RepStep, j: nat)
    requires 0 < j <= |d| < W64 && ByteState(d, u, j - 1) && v.table == u.table[d[j - 1] := j - 1]
    requires var m := LastSeen(d, j - 1, d[j - 1]);
             if m == 0 then v.state == u.state
             else v.state.lastEnd == j && |v.state.stats| == |u.state.stats| + 4 && v.state.literals == u.state.literals - 1
    ensures ByteState(d, v, j)
  {
  }

  /** The list of the block: a record for every repeat but the last byte, and everything else literal. */
  lemma ByteList(d: seq<byte>, bufsize: u32, s: RepSettings, ringLen: nat, blocks: seq<PendingBlock>)
    requires NoRepeatedPair(d) && Single(s, d) && 0 < |d| <= bufsize
    requires GoodInput(d, bufsize, blocks, false, 1) && WrittenBy(d, s, ringLen, blocks)
    ensures |blocks| == 1 && blocks[0].start == 0 && blocks[0].size == |d|
    ensures var n, own := Repeats(d, |d| - 1), Own(blocks[0], false, 1);
            && |blocks[0].stats| == 4 * n && |own| == n && Gaps(0, |d|, SetOf(own)) == |d| - n
  {
    hide GoodInput, RunOk, WrittenBy, NoRepeatedPair, Zero, Own, Repeats, Gaps, Single;
    OneBlock(d, bufsize, blocks, 1);
    var x := OneRun(d, s, ringLen, blocks);
    ByteListOf(d, s, ringLen, blocks[0], x);
  }

  lemma ByteListOf(d: seq<byte>, s: RepSettings, ringLen: nat, b: PendingBlock, x: BlockRun)
    requires NoRepeatedPair(d) && Single(s, d) && RunOk(d, s, ringLen, b, x) && b.start == 0 && b.size == |d|
    requires x.trace != [] && Zero(x.First(), s.size)
    ensures var n, own := Repeats(d, |d| - 1), Own(b, false, 1);
            && |b.stats| == 4 * n && |own| == n && Gaps(0, |d|, SetOf(own)) == |d| - n
  {
    hide RunOk, NoRepeatedPair, Zero, Steps, StateRecorded, Own, ByteState, Repeats, LastSeen, Gaps;
    ByteRun(d, s, ringLen, b, x);
    ByteStates(d, s, ringLen, b, x, |d| - 1);
    StateCounts(d, x.trace[|d| - 1], |d| - 1);
    LastState(d, s, ringLen, b, x);
    ListCount(d, x.Last().state, b);
  }

  lemma StateCounts(d: seq<byte>, x: RepStep, j: nat)
    requires j <= |d| && ByteState(d, x, j)
    ensures |x.state.stats| == 4 * Repeats(d, j) && x.state.literals == |d| - Repeats(d, j)
  {
    hide LastSeen, Repeats;
  }

  lemma ListCount(d: seq<byte>, c: RepState, b: PendingBlock)
    requires |d| < W64 && StateRecorded(c, 1, d, 0, 0, |d|) && b.stats == c.stats && b.start == 0
    ensures |b.stats| == 4 * |Own(b, false, 1)| && Gaps(0, |d|, SetOf(Own(b, false, 1))) == c.literals
  {
    hide Pass1List, LengthsFit, GoodList, WholeRecords;
    Pass1Words(b.stats, 1, 0);
    GapsOfBlock(d, 0, |d|, Own(b, false, 1));
  }

  lemma OneRun(d: seq<byte>, s: RepSettings, ringLen: nat, blocks: seq<PendingBlock>) returns (x: BlockRun)
    requires WrittenBy(d, s, ringLen, blocks) && |blocks| == 1
    ensures RunOk(d, s, ringLen, blocks[0], x) && x.trace != [] && Zero(x.First(), s.size)
  {
    hide RunOk, Zero;
    var runs: seq<BlockRun>, table: seq<u64> :| RunsOk(d, s, ringLen, blocks, runs) && Chained(runs, s.size, table);
    x := runs[0];
  }

  lemma OneBlock(d: seq<byte>, bufsize: u32, blocks: seq<PendingBlock>, base: u32)
    requires GoodInput(d, bufsize, blocks, false, base) && 0 < |d| <= bufsize
    ensures |blocks| == 1 && blocks[0].start == 0 && blocks[0].size == |d|
  {
    GoodBlocked(d, bufsize, blocks, base);
    hide GoodInput;
  }

  lemma GoodBlocked(d: seq<byte>, bufsize: u32, blocks: seq<PendingBlock>, base: u32)
    requires GoodInput(d, bufsize, blocks, false, base)
    ensures Blocked(d, bufsize, blocks)
  {
  }

  /** All sources lie in the one block, so its list in pass 2 has a piece for every match. */
  lemma ByteListed(d: seq<byte>, bufsize: u32, blocks: seq<PendingBlock>)
    requires GoodInput(d, bufsize, blocks, false, 1) && 0 < |d| <= bufsize
    ensures |blocks| == 1 && blocks[0].start == 0 && blocks[0].size == |d|
    ensures var s := Sorted(blocks, false, 1); |CutList(s, |s|, 0, |d|)| == |Own(blocks[0], false, 1)|
  {
    OneBlock(d, bufsize, blocks, 1);
    var g := Gathered(blocks, 1, false, 1);
    assert g == Own(blocks[0], false, 1) by { assert Gathered(blocks, 0, false, 1) == []; }
    var s := SortBySource(g);
    GatheredApart(d, bufsize, blocks, 1, false, 1);
    SortLength(g);
    SortApart(g);
    hide SortBySource, Gathered, GoodInput;
    forall i | 0 <= i < |s| ensures Meets(s[i], 0, |d|) {
      assert s[i] in s && s[i] in g;
      var j :| 0 <= j < |g| && g[j] == s[i];
      var k := GatheredFrom(d, bufsize, blocks, 1, false, 1, j);
    }
    AllMeet(s, |s|, 0, |d|);
  }

  lemma SortLength(s: seq<Piece>)
    ensures |SortBySource(s)| == |s|
  {
    SortSorted(s);
    assert |multiset(SortBySource(s))| == |multiset(s)|;
  }

  lemma {:induction false} AllMeet(s: seq<Piece>, n: nat, lo: nat, hi: nat)
    requires n <= |s| && lo < hi && forall i :: 0 <= i < n ==> Meets(s[i], lo, hi)
    ensures |CutList(s, n, lo, hi)| == n
  {
    if n > 0 { AllMeet(s, n - 1, lo, hi); }
  }

  /** The size of list and literals of the block. */
  function BlockBytes(n: nat, repeats: nat): int { 15 * repeats + n }

  /** What the decoder makes of it, with the list inline: it is refused exactly when list and
      literals exceed its limit. In the future and the backward layout the sizes are the same. */
  lemma SingleBytesFit(d: seq<byte>, bufsize: u32, s: RepSettings, ringLen: nat, blocks: seq<PendingBlock>, decBuf: u64)
    requires NoRepeatedPair(d) && Single(s, d) && |d| <= bufsize <= decBuf
    requires GoodInput(d, bufsize, blocks, false, 1) && WrittenBy(d, s, ringLen, blocks)
    ensures Repeats(d, |d| - 1) == |d| - 2 - |Letters(d, |d| - 1)|
    ensures AllFit(blocks, false, 1, decBuf, true) <==> BlockBytes(|d|, Repeats(d, |d| - 1)) <= CompBufSize(decBuf)
    ensures BackwardPipeline.AllFitBackward(blocks, false, 1, decBuf) <==> BlockBytes(|d|, Repeats(d, |d| - 1)) <= CompBufSize(decBuf)
  {
    hide GoodInput, WrittenBy, NoRepeatedPair, Repeats, Letters, CompBufSize, Gaps, Own, Sorted, CutList;
    RepeatsAre(d, |d| - 1);
    ByteList(d, bufsize, s, ringLen, blocks);
    ByteListed(d, bufsize, blocks);
    var fits := BlockBytes(|d|, Repeats(d, |d| - 1)) <= CompBufSize(decBuf);
    assert BlockFits(blocks, false, 1, 0, decBuf, true) <==> fits;
    assert BackwardPipeline.FitsBackward(blocks[0], false, 1, decBuf) <==> fits;
    hide BlockFits, BackwardPipeline.FitsBackward;
  }

  // ---- an input ----

  /** Two hundred bytes over 23 letters, no two of them neighbours twice. */
  ghost function Sample(): (d: seq<byte>)
    ensures |d| == 200 && forall i :: 0 <= i < 200 ==> d[i] == SampleAt(i)
  {
    seq(200, i requires 0 <= i < 200 => SampleAt(i))
  }

  function SampleAt(i: int): byte
    requires 0 <= i < 200
  {
    if i % 2 == 0 then i / 2 % 16 else 16 + i / 2 / 16
  }

  lemma SamplePairs()
    ensures NoRepeatedPair(Sample())
  {
    hide Sample;
    var d := Sample();
    forall i: nat, j: nat | i < j && j + 1 < |d| ensures d[i] != d[j] || d[i + 1] != d[j + 1] {
      assert d[i] == SampleAt(i) && d[j] == SampleAt(j) && d[i + 1] == SampleAt(i + 1) && d[j + 1] == SampleAt(j + 1);
      SamplePair(i, j);
    }
  }

  lemma SamplePair(i: nat, j: nat)
    requires i < j < 199
    ensures SampleAt(i) != SampleAt(j) || SampleAt(i + 1) != SampleAt(j + 1)
  {
    SampleDigits(i);
    SampleDigits(i + 1);
    SampleDigits(j);
    SampleDigits(j + 1);
    hide SampleAt;
  }

  /** Even positions carry the low digit of their half in base 16, odd ones the high digit. */
  lemma SampleDigits(i: nat)
    requires i < 200
    ensures var t := i / 2;
            && (i == 2 * t || i == 2 * t + 1) && t == 16 * (t / 16) + t % 16 && 0 <= t % 16 < 16 && t / 16 >= 0
            && SampleAt(i) == if i == 2 * t then t % 16 else 16 + t / 16
  {
  }

  lemma {:induction false} FewLetters(j: nat)
    requires j <= 200
    ensures forall v :: v in Letters(Sample(), j) ==> v < 23
  {
    hide Sample;
    if j > 1 { FewLetters(j - 1); }
  }

  lemma SmallSet(a: set<byte>, n: nat)
    requires forall v :: v in a ==> v < n
    ensures |a| <= n
  {
    if n == 0 {
      assert a == {};
    } else {
      SmallSet(a - {n - 1}, n - 1);
    }
  }

  /** With single-byte settings, blocks and buffers of 200 bytes, the compressor writes more than
      2800 bytes for this input, and the decoder's limit is 1440. */
  lemma SampleRefused(s: RepSettings, ringLen: nat, blocks: seq<PendingBlock>)
    requires Single(s, Sample()) && GoodInput(Sample(), 200, blocks, false, 1) && WrittenBy(Sample(), s, ringLen, blocks)
    ensures !AllFit(blocks, false, 1, 200, true) && !BackwardPipeline.AllFitBackward(blocks, false, 1, 200)
  {
    hide Sample, Single, GoodInput, WrittenBy, NoRepeatedPair, Letters, Repeats, AllFit, BackwardPipeline.AllFitBackward;
    SamplePairs();
    FewLetters(199);
    SmallSet(Letters(Sample(), 199), 23);
    SingleBytesFit(Sample(), 200, s, ringLen, blocks, 200);
  }

  /** The whole way with such a compressor: in the future layout and in the backward layout the
      decoder refuses what was compressed from this input. */
  method RefusedFuture(dict: DictionaryCompressor, memlimit: u64, vmBlock: nat, maximumSave: u32) returns (r: Result<seq<byte>>)
    requires dict.Valid() && Single(RepPipeline.SettingsOf(dict), Sample()) && RepPipeline.RingLength(dict.maxDist, 200) < W64
    requires forall k :: 0 <= k < dict.hasharr.Length ==> dict.hasharr[k] == 0
    requires 224 <= vmBlock <= UsefulMemory(memlimit)
    modifies dict.hasharr
    ensures r == Err(TooLarge)
  {
    hide Sample, GoodInput, WrittenBy, AllFit, UsefulMemory, RepPipeline.RingLength, BackwardPipeline.AllFitBackward;
    ghost var blocks;
    var d := SampleBytes();
    r, blocks := RepPipeline.RoundTripRep(d, 200, dict, 200, true, memlimit, vmBlock, maximumSave);
    SampleRefused(RepPipeline.SettingsOf(dict), RepPipeline.RingLength(dict.maxDist, 200), blocks);
  }

  method RefusedBackward(dict: DictionaryCompressor) returns (r: Result<seq<byte>>)
    requires dict.Valid() && Single(RepPipeline.SettingsOf(dict), Sample()) && RepPipeline.RingLength(dict.maxDist, 200) < W64
    requires forall k :: 0 <= k < dict.hasharr.Length ==> dict.hasharr[k] == 0
    modifies dict.hasharr
    ensures r == Err(TooLarge)
  {
    hide Sample, GoodInput, WrittenBy, AllFit, RepPipeline.RingLength, BackwardPipeline.AllFitBackward;
    ghost var blocks;
    var d := SampleBytes();
    r, blocks := RepPipeline.RoundTripRepBackward(d, 200, dict, 200);
    SampleRefused(RepPipeline.SettingsOf(dict), RepPipeline.RingLength(dict.maxDist, 200), blocks);
  }

  method SampleBytes() returns (d: seq<byte>)
    ensures d == Sample()
  {
    d := seq(200, i requires 0 <= i < 200 => SampleAt(i));
  }

  lemma LastState(d: seq<byte>, s: RepSettings, ringLen: nat, b: PendingBlock, x: BlockRun)
    requires RunOk(d, s, ringLen, b, x) && x.trace != [] && b.start == 0 && x.base == 0 && x.run.bufstart == 0 && x.run.bufend == |d|
    ensures b.stats == x.Last().state.stats && |d| < W64
    ensures StateRecorded(x.Last().state, s.baseLen, d, 0, 0, |d|)
  {
    hide RepBlockRun.Trace, Lookups, Steps, StateRecorded;
  }
}
