/** The in-memory dictionary compressor: matches found in a ring buffer of recent input. */
module RepDictionary {
  import opened Bytes
  import opened MatchModel
  import opened Records
  import opened WideArithmetic
  import opened RollingHash
  import opened Recording

  const PREFETCH := 100

  // ---- the ring ----

  /** The ring holds the input up to `base + e`: this lap's bytes before `e`, and those of the
      lap before from `e` on. */
  ghost predicate RingHolds(ring: seq<byte>, d: seq<byte>, base: nat, e: nat) {
    && e <= |ring| && base + e <= |d| && (base == 0 || base >= |ring|)
    && (forall q :: 0 <= q < e ==> ring[q] == d[base + q])
    && (base > 0 ==> forall q :: e <= q < |ring| ==> ring[q] == d[base - |ring| + q])
  }

  /** Writing a block into the ring. */
  lemma RingWrite(ring: seq<byte>, d: seq<byte>, base: nat, e: nat, n: nat)
    requires RingHolds(ring, d, base, e) && e + n <= |ring| && base + e + n <= |d|
    ensures RingHolds(Splice(ring, e, d[base + e..base + e + n]), d, base, e + n)
  {
    var r := Splice(ring, e, d[base + e..base + e + n]);
    forall q | 0 <= q < |ring|
      ensures r[q] == if e <= q < e + n then d[base + e..base + e + n][q - e] else ring[q]
    {
    }
  }

  /** At the end of the ring the next lap begins. */
  lemma RingWrap(ring: seq<byte>, d: seq<byte>, base: nat)
    requires RingHolds(ring, d, base, |ring|)
    ensures RingHolds(ring, d, base + |ring|, 0)
  {
  }

  /** Table entries are ring positions visited before `frontier` in the input. */
  ghost predicate Entries(h: seq<u64>, frontier: nat, ringLen: nat) {
    forall k :: 0 <= k < |h| ==> h[k] == 0 || (h[k] < frontier && h[k] < ringLen)
  }

  lemma EntriesNext(h: seq<u64>, frontier: nat, ringLen: nat, k: nat, i: u64, frontier': nat)
    requires Entries(h, frontier, ringLen) && k < |h| && frontier <= frontier' && i < frontier' && i < ringLen
    ensures Entries(h[k := i], frontier', ringLen)
  {
  }

  /** How far back ring position `m` lies from `i`. */
  function Distance(m: nat, i: nat, ringLen: nat): int {
    if m < i then i - m else ringLen - m + i
  }

  /** The ring agrees with itself `m - i` apart on `lo..hi`. */
  ghost predicate Agree(ring: seq<byte>, m: nat, i: nat, lo: nat, hi: nat) {
    && hi <= |ring|
    && forall k :: lo <= k < hi ==> AgreeAt(ring, m, i, k)
  }

  ghost predicate AgreeAt(ring: seq<byte>, m: nat, i: nat, k: int) {
    0 <= k < |ring| && 0 <= k + (m - i) < |ring| && ring[k] == ring[k + (m - i)]
  }

  /** Agreement in the ring at an admissible distance is a true copy in the input, on whichever
      lap the entry was made: older positions have been cut off by the distance. */
  lemma RingCopy(ring: seq<byte>, d: seq<byte>, base: nat, e: nat, m: nat, i: nat, lo: nat, hi: nat)
    requires RingHolds(ring, d, base, e) && 0 < m < |ring| && lo <= i <= hi <= e && m != i
    requires m < base + i && Agree(ring, m, i, lo, hi)
    requires m < i ==> i - m <= lo
    requires m > i ==> lo + (m - i) >= e && hi + (m - i) <= |ring|
    ensures var dist := Distance(m, i, |ring|);
            0 < dist <= base + lo && TrueCopy(d, Piece(base + lo - dist, base + lo, hi - lo))
  {
    var dist := Distance(m, i, |ring|);
    forall x | base + lo <= x < base + hi ensures d[x] == d[x - dist] {
      var k := x - base;
      assert AgreeAt(ring, m, i, k);
      assert ring[k] == ring[k + (m - i)] && ring[k] == d[base + k];
    }
  }

  /** Backward byte compare: the earliest start from which the ring agrees. */
  method FindMatchStart(ring: seq<byte>, m: nat, i: nat, start: nat) returns (r: nat)
    requires start <= i < |ring| && m < |ring| && i - start <= m
    ensures start <= r <= i && Agree(ring, m, i, r, i)
    ensures r > start ==> ring[r - 1] != ring[r - 1 + (m - i)]
  {
    var p, q := m, i;
    while q > start
      invariant start <= q <= i && p == m - (i - q) && Agree(ring, m, i, q, i)
      decreases q
    {
      p, q := p - 1, q - 1;
      if ring[p] != ring[q] {
        return q + 1;
      }
    }
    return q;
  }

  /** Forward byte compare: the latest end up to which the ring agrees. */
  method FindMatchEnd(ring: seq<byte>, m: nat, i: nat, end: nat) returns (r: nat)
    requires i <= end <= |ring| && end + (m - i) <= |ring|
    ensures i <= r <= end && Agree(ring, m, i, i, r)
    ensures r < end ==> ring[r] != ring[r + (m - i)]
  {
    var p, q := m, i;
    while q < end && ring[p] == ring[q]
      invariant i <= q <= end && p == m + (q - i) && Agree(ring, m, i, i, q)
      decreases end - q
    {
      p, q := p + 1, q + 1;
    }
    return q;
  }

  lemma MatchTaken(c: RepState, c': RepState, ring: seq<byte>, bufstart: nat, bufend: nat, maxDist: nat, minMatch: nat,
      baseLen: u32, m: nat, i: nat, start: nat, end: nat)
    requires maxDist < |ring| && bufstart < |ring| && i >= c.lastEnd && m != 0 && Distance(m, i, |ring|) <= maxDist
    requires Extension(ring, m, i, Max(c.lastEnd, LowBound(m, i, DataStart(bufstart, |ring|, maxDist))), Min(bufend, HighBound(m, i, |ring|)), start, end)
    requires if end - start >= minMatch then
               && 0 <= start - c.lastEnd < W32 && 0 <= Distance(m, i, |ring|) < W64 && baseLen <= end - start < W32
               && c'.stats == c.stats + EncodeLzMatch(false, baseLen, start - c.lastEnd, Distance(m, i, |ring|), end - start)
               && c'.lastEnd == end && c'.literals == c.literals - (end - start)
             else c' == c
    ensures Probed(c, c', ring, bufstart, bufend, maxDist, minMatch, baseLen, m, i)
  {
    assert ExtendedTo(c, c', ring, bufstart, bufend, maxDist, minMatch, baseLen, m, i, start, end);
  }

  lemma ExtensionFound(ring: seq<byte>, m: nat, i: nat, low: nat, high: nat, start: nat, end: nat)
    requires low <= start <= i <= end <= high <= |ring| && Agree(ring, m, i, start, i) && Agree(ring, m, i, i, end)
    requires i - low <= m && high + (m - i) <= |ring|
    requires start > low ==> ring[start - 1] != ring[start - 1 + (m - i)]
    requires end < high ==> ring[end] != ring[end + (m - i)]
    ensures Extension(ring, m, i, low, high, start, end)
  {
    AgreeJoin(ring, m, i, start, end);
  }

  lemma AgreeJoin(ring: seq<byte>, m: nat, i: nat, lo: nat, hi: nat)
    requires lo <= i <= hi && Agree(ring, m, i, lo, i) && Agree(ring, m, i, i, hi)
    ensures Agree(ring, m, i, lo, hi)
  {
  }

  /** `start..end` is the longest agreement around `i` within the bounds. */
  ghost predicate Extension(ring: seq<byte>, m: nat, i: nat, low: int, high: int, start: nat, end: nat) {
    && low <= start <= i <= end <= high && Agree(ring, m, i, start, end)
    && (start > low ==> !AgreeAt(ring, m, i, start - 1))
    && (end < high ==> !AgreeAt(ring, m, i, end))
  }

  /** What one candidate does to the list: nothing, unless it is admissible and its extension long enough. */
  ghost predicate Probed(c: RepState, c': RepState, ring: seq<byte>, bufstart: nat, bufend: nat, maxDist: nat, minMatch: nat, baseLen: u32, m: nat, i: nat)
    requires maxDist < |ring| && bufstart < |ring|
  {
    if i < c.lastEnd || m == 0 || Distance(m, i, |ring|) > maxDist then c' == c
    else
      exists start: nat, end: nat :: ExtendedTo(c, c', ring, bufstart, bufend, maxDist, minMatch, baseLen, m, i, start, end)
  }

  ghost predicate ExtendedTo(c: RepState, c': RepState, ring: seq<byte>, bufstart: nat, bufend: nat, maxDist: nat, minMatch: nat,
      baseLen: u32, m: nat, i: nat, start: nat, end: nat)
    requires maxDist < |ring| && bufstart < |ring|
  {
    var low := Max(c.lastEnd, LowBound(m, i, DataStart(bufstart, |ring|, maxDist)));
    && Extension(ring, m, i, low, Min(bufend, HighBound(m, i, |ring|)), start, end)
    && if end - start >= minMatch then
         && 0 <= start - c.lastEnd < W32 && 0 <= Distance(m, i, |ring|) < W64 && baseLen <= end - start < W32
         && c'.stats == c.stats + EncodeLzMatch(false, baseLen, start - c.lastEnd, Distance(m, i, |ring|), end - start)
         && c'.lastEnd == end && c'.literals == c.literals - (end - start)
       else c' == c
  }

  /** A candidate that is not admissible changes nothing. */
  lemma NothingTried(c: RepState, ring: seq<byte>, bufstart: nat, bufend: nat, maxDist: nat, minMatch: nat, baseLen: u32, m: nat, i: nat)
    requires maxDist < |ring| && bufstart < |ring|
    ensures i < c.lastEnd || m == 0 || Distance(m, i, |ring|) > maxDist ==> Probed(c, c, ring, bufstart, bufend, maxDist, minMatch, baseLen, m, i)
  {
  }

  /** The list written so far, the ring position of its end, and the count of literals. */
  datatype RepState = RepState(stats: seq<u32>, lastEnd: nat, literals: int)

  /** The list and the table between two chunks. */
  datatype RepStep = RepStep(state: RepState, table: seq<u64>)

  /** The settings and the data of one block's run. */
  datatype RepBlockRun = RepBlockRun(ring: seq<byte>, hashptr: seq<u64>, bufstart: nat, bufend: nat, l: nat,
                                     maxDist: nat, minMatch: nat, baseLen: u32)
  {
    /** Chunk `b`: its candidate is the old table entry of its hash, and it replaces that entry. */
    ghost predicate Step(x: RepStep, y: RepStep, b: nat) {
      && maxDist < |ring| && bufstart < |ring| && 2 * b + 1 < |hashptr| && hashptr[2 * b] < |x.table|
      && var i := bufstart + Product(b, l) + hashptr[2 * b + 1];
         && 0 <= i < W64 && Probed(x.state, y.state, ring, bufstart, bufend, maxDist, minMatch, baseLen, x.table[hashptr[2 * b]], i)
         && y.table == x.table[hashptr[2 * b] := i]
    }

    ghost predicate Trace(t: seq<RepStep>) {
      forall b :: 0 <= b < |t| - 1 ==> Step(t[b], t[b + 1], b)
    }

    lemma TraceStart(x: RepStep)
      ensures Trace([x])
    {
    }

    lemma TraceNext(t: seq<RepStep>, y: RepStep)
      requires t != [] && Trace(t) && Step(t[|t| - 1], y, |t| - 1)
      ensures Trace(t + [y])
    {
      hide Step;
      var u := t + [y];
      forall b | 0 <= b < |u| - 1 ensures Step(u[b], u[b + 1], b) {
        if b < |t| - 1 { assert Step(t[b], t[b + 1], b); }
      }
    }
  }

  // ---- the compressor ----

  /** Where the data within reach of a block begins, in the ring. */
  function DataStart(bufstart: nat, ringLen: nat, maxDist: nat): nat
    requires maxDist < ringLen && bufstart < ringLen
  {
    (bufstart + ringLen - maxDist) % ringLen
  }

  lemma DataStartValue(bufstart: nat, ringLen: nat, maxDist: nat)
    requires maxDist < ringLen && bufstart < ringLen
    ensures DataStart(bufstart, ringLen, maxDist) == if bufstart >= maxDist then bufstart - maxDist else bufstart + ringLen - maxDist
  {
    if bufstart >= maxDist {
      ModIs(bufstart + ringLen - maxDist, ringLen, 1, bufstart - maxDist);
    } else {
      ModIs(bufstart + ringLen - maxDist, ringLen, 0, bufstart + ringLen - maxDist);
    }
  }

  /** How far a match at `i` may be extended backwards, and that this index exists. */
  function LowBound(m: nat, i: nat, dataStart: nat): (r: int)
  {
    if m >= dataStart then Max(0, i - (m - dataStart)) else i - m
  }

  function HighBound(m: nat, i: nat, ringLen: nat): int {
    if m < i then ringLen else ringLen - m + i
  }

  /** No index leaves the ring, and on the far side of the block none reaches into it. */
  lemma BoundsOk(bufstart: nat, bufend: nat, ringLen: nat, maxDist: nat, slack: nat, m: nat, i: nat, lastEnd: nat)
    requires bufstart <= lastEnd <= i < bufend <= ringLen && bufend - bufstart <= slack && maxDist + 2 * slack <= ringLen
    requires 0 < slack && 0 < m < ringLen && Distance(m, i, ringLen) <= maxDist
    ensures var start := Max(lastEnd, LowBound(m, i, DataStart(bufstart, ringLen, maxDist)));
            var end := Min(bufend, HighBound(m, i, ringLen));
            && LowBound(m, i, DataStart(bufstart, ringLen, maxDist)) >= 0 && m != i
            && bufstart <= start <= i < end <= bufend && i - start <= m && end + (m - i) <= ringLen
            && (m < i ==> i - m <= start) && (m > i ==> start + (m - i) >= bufend)
  {
    DataStartValue(bufstart, ringLen, maxDist);
  }

  /** A block's chunk table stays within its bounds. */
  ghost predicate TableOk(hashptr: seq<u64>, n: nat, l: nat, size: nat)
    requires l > 0
  {
    n / l > 1 ==>
      && |hashptr| >= 2 * (n / l - 1)
      && forall b :: 0 <= b < n / l - 1 ==> hashptr[2 * b] < size && hashptr[2 * b + 1] < l
  }

  /** The table index of a hash; the table size is a power of two, so the source masks. */
  function Slot(hash: u64, size: nat): (s: u64)
    requires size > 0
    ensures s < size
  {
    Remainder(hash, size);
    hash % size
  }

  lemma Remainder(x: nat, m: nat)
    requires m > 0
    ensures 0 <= x % m <= x && x % m < m
  {
    assert x == x / m * m + x % m;
    if x / m < 0 { Monotone(x / m, -1, m); } else { Monotone(0, x / m, m); }
  }

  /** Chunk `b` and the one behind it lie in the buffer. */
  predicate ChunkFits(n: nat, l: nat, b: nat) {
    b * l + 2 * l <= n
  }

  /** The rolling hash stands at the start of chunk `b`. */
  ghost predicate AtChunk(buf: seq<byte>, l: nat, b: nat, value: u64) {
    b * l + l <= |buf| && value == HashOf(PRIME1, buf[b * l..b * l + l])
  }

  /** The first of the largest window hashes of a chunk. */
  ghost predicate ChunkMax(buf: seq<byte>, l: nat, b: nat, i: nat)
    requires ChunkFits(|buf|, l, b) && i < l
  {
    forall j {:trigger WindowHash(buf, l, b, j)} :: 0 <= j < l ==>
      if j < i then WindowHash(buf, l, b, j) < WindowHash(buf, l, b, i) else WindowHash(buf, l, b, j) <= WindowHash(buf, l, b, i)
  }

  /** The hash of the window at offset `j` of chunk `b`. */
  function WindowHash(buf: seq<byte>, l: nat, b: nat, j: nat): u64
    requires ChunkFits(|buf|, l, b) && j < l
  {
    HashOf(PRIME1, buf[b * l + j..b * l + j + l])
  }

  class DictionaryCompressor {
    const maxDist: nat
    const l: nat
    const minMatch: nat
    const baseLen: u32
    const hasharr: array<u64>

    ghost predicate Valid()
      reads this
    {
      l > 0 && minMatch > 0 && baseLen <= minMatch && hasharr.Length > 0
    }

    constructor (dictsize: nat, tableSize: nat, minMatch: nat, l: nat, baseLen: u32)
      requires l > 0 && minMatch > 0 && baseLen <= minMatch && tableSize > 0
      ensures Valid() && maxDist == dictsize && this.l == l && this.minMatch == minMatch && this.baseLen == baseLen
      ensures fresh(hasharr) && hasharr.Length == tableSize && forall k :: 0 <= k < tableSize ==> hasharr[k] == 0
    {
      maxDist, this.l, this.minMatch, this.baseLen := dictsize, l, minMatch, baseLen;
      hasharr := new u64[tableSize](_ => 0);
    }

    /** The ring holds the block of `n` bytes at `bufstart` and the data before it, with room for two blocks more. */
    ghost predicate Ready(ring: seq<byte>, d: seq<byte>, base: nat, bufstart: nat, n: u32, slack: nat)
      reads this
    {
      && Valid() && RingHolds(ring, d, base, bufstart + n) && bufstart < |ring| && |d| < W64
      && n <= slack && 0 < slack && maxDist + 2 * slack <= |ring| < W64
    }

    lemma ReadyBounds(ring: seq<byte>, d: seq<byte>, base: nat, bufstart: nat, n: u32, slack: nat)
      requires Ready(ring, d, base, bufstart, n, slack)
      ensures Valid() && l > 0 && hasharr.Length > 0 && maxDist < |ring| && bufstart < |ring| && bufstart + n <= |ring| < W64
      ensures base + bufstart + n <= |d| < W64
    {
    }

    /** Compress one block, given the ring that already holds it: every match recorded is a true
        copy of the input, and the matches are in order and disjoint. */
    method Compress(ring: seq<byte>, bufstart: nat, n: u32, hashptr: seq<u64>, ghost d: seq<byte>, ghost base: nat, ghost slack: nat)
        returns (literalBytes: u32, stats: seq<u32>, ghost end: nat, ghost trace: seq<RepStep>)
      requires Ready(ring, d, base, bufstart, n, slack) && (maxDist > 0 ==> TableOk(hashptr, n, l, hasharr.Length))
      requires Entries(hasharr[..], base + bufstart, |ring|)
      modifies hasharr
      ensures Recorded(stats, false, baseLen, d, base + bufstart, base + bufstart + n, end, literalBytes)
      ensures Entries(hasharr[..], base + bufstart + n, |ring|)
      ensures trace != [] && trace[0] == RepStep(RepState([], bufstart, n), old(hasharr[..]))
      ensures base + trace[|trace| - 1].state.lastEnd == end
      ensures trace[|trace| - 1] == RepStep(RepState(stats, end - base, literalBytes), hasharr[..])
      ensures RepBlockRun(ring, hashptr, bufstart, bufstart + n, l, maxDist, minMatch, baseLen).Trace(trace)
      ensures |trace| == 1 + if maxDist == 0 then 0 else Max(0, n / l - 1)
      ensures base + bufstart + n < W64 && TraceRecorded(trace, baseLen, d, base, bufstart, bufstart + n)
    {
      hide Recorded, RingHolds, Entries, TableOk, DataStart, Product, Probed, StatsPerMatch, RepBlockRun.Trace, RepBlockRun.Step, Ready, TraceRecorded;
      ReadyBounds(ring, d, base, bufstart, n, slack);
      ghost var run := RepBlockRun(ring, hashptr, bufstart, bufstart + n, l, maxDist, minMatch, baseLen);
      trace := [RepStep(RepState([], bufstart, n), hasharr[..])];
      run.TraceStart(trace[0]);
      literalBytes, stats, end := n, [], base + bufstart;
      RecordedNone(false, baseLen, d, base + bufstart, base + bufstart + n);
      EntriesLater(hasharr[..], base + bufstart, base + bufstart + n, |ring|);
      RecordedFirst(trace[0], baseLen, d, base, bufstart, bufstart + n);
      if maxDist == 0 {
        return;
      }
      var bufend, lastMatchEnd := bufstart + n, bufstart;
      var dataStart := DataStart(bufstart, |ring|, maxDist);
      var hp: nat, lastI: nat := 0, bufstart;
      ghost var b: nat := 0;
      NextProduct(0, l);
      while lastI + 2 * l <= bufend
        invariant hp == 2 * b && lastI == bufstart + Product(b, l) && bufstart <= lastMatchEnd <= bufend
        invariant Recorded(stats, false, baseLen, d, base + bufstart, base + bufend, base + lastMatchEnd, literalBytes)
        invariant lastI <= bufend && Entries(hasharr[..], base + lastI, |ring|)
        invariant |trace| == b + 1 && run.Trace(trace) && trace[0] == RepStep(RepState([], bufstart, n), old(hasharr[..]))
        invariant trace[b] == RepStep(RepState(stats, lastMatchEnd, literalBytes), hasharr[..])
        invariant (b > 0 ==> Product(b, l) + l <= n) && TraceRecorded(trace, baseLen, d, base, bufstart, bufend)
        decreases bufend - lastI
      {
        NextProduct(b, l);
        ghost var before := trace;
        literalBytes, stats, lastMatchEnd, trace :=
          TableChunk(ring, bufstart, n, dataStart, hashptr, hp, lastI, literalBytes, stats, lastMatchEnd, d, base, slack, b, trace);
        RecordedMore(before, trace[b + 1], baseLen, d, base, bufstart, bufend);
        hp := hp + 2;
        lastI := lastI + l;
        b := b + 1;
      }
      StepCount(b, l, n);
      end := base + lastMatchEnd;
      EntriesLater(hasharr[..], base + lastI, base + bufend, |ring|);
    }

    /** Look the chunk at `lastI` up under its largest window hash, then enter it. */
    method ProbeChunk(ring: seq<byte>, bufstart: nat, n: u32, dataStart: nat, hash: nat, lastI: nat, offset: nat,
        literals0: u32, stats0: seq<u32>, lastEnd0: nat, ghost d: seq<byte>, ghost base: nat, ghost slack: nat)
        returns (literalBytes: u32, stats: seq<u32>, lastMatchEnd: nat)
      requires Ready(ring, d, base, bufstart, n, slack) && 0 < maxDist && dataStart == DataStart(bufstart, |ring|, maxDist)
      requires hash < hasharr.Length && offset < l && bufstart <= lastI && lastI + 2 * l <= bufstart + n
      requires bufstart <= lastEnd0 <= bufstart + n && Entries(hasharr[..], base + lastI, |ring|)
      requires Recorded(stats0, false, baseLen, d, base + bufstart, base + bufstart + n, base + lastEnd0, literals0)
      modifies hasharr
      ensures bufstart <= lastMatchEnd <= bufstart + n && Entries(hasharr[..], base + lastI + l, |ring|)
      ensures 0 <= lastI + offset < W64 && hasharr[..] == old(hasharr[..])[hash := lastI + offset]
      ensures Probed(RepState(stats0, lastEnd0, literals0), RepState(stats, lastMatchEnd, literalBytes), ring, bufstart, bufstart + n,
                maxDist, minMatch, baseLen, old(hasharr[..])[hash], lastI + offset)
      ensures Recorded(stats, false, baseLen, d, base + bufstart, base + bufstart + n, base + lastMatchEnd, literalBytes)
    {
      InputBound(ring, d, base, bufstart + n);
      hide Recorded, RingHolds, Entries, DataStart, Probed;
      EntryBounds(hasharr[..], base + lastI, |ring|, hash);
      literalBytes, stats, lastMatchEnd :=
        TryMatch(ring, bufstart, n, dataStart, hasharr[hash], lastI + offset, literals0, stats0, lastEnd0, d, base, slack);
      Store(hash, lastI + offset, base + lastI, base + lastI + l, |ring|);
    }

    /** The chunk behind table entry `hp`. */
    method TableChunk(ring: seq<byte>, bufstart: nat, n: u32, dataStart: nat, hashptr: seq<u64>, hp: nat, lastI: nat,
        literals0: u32, stats0: seq<u32>, lastEnd0: nat, ghost d: seq<byte>, ghost base: nat, ghost slack: nat,
        ghost b: nat, ghost trace0: seq<RepStep>)
        returns (literalBytes: u32, stats: seq<u32>, lastMatchEnd: nat, ghost trace: seq<RepStep>)
      requires Ready(ring, d, base, bufstart, n, slack) && 0 < maxDist && dataStart == DataStart(bufstart, |ring|, maxDist)
      requires TableOk(hashptr, n, l, hasharr.Length) && hp == 2 * b && lastI == bufstart + Product(b, l)
      requires bufstart <= lastI && lastI + 2 * l <= bufstart + n
      requires bufstart <= lastEnd0 <= bufstart + n && Entries(hasharr[..], base + lastI, |ring|)
      requires Recorded(stats0, false, baseLen, d, base + bufstart, base + bufstart + n, base + lastEnd0, literals0)
      requires |trace0| == b + 1 && trace0[b] == RepStep(RepState(stats0, lastEnd0, literals0), hasharr[..])
      requires RepBlockRun(ring, hashptr, bufstart, bufstart + n, l, maxDist, minMatch, baseLen).Trace(trace0)
      modifies hasharr
      ensures bufstart <= lastMatchEnd <= bufstart + n && Entries(hasharr[..], base + lastI + l, |ring|)
      ensures Recorded(stats, false, baseLen, d, base + bufstart, base + bufstart + n, base + lastMatchEnd, literalBytes)
      ensures trace == trace0 + [RepStep(RepState(stats, lastMatchEnd, literalBytes), hasharr[..])]
      ensures RepBlockRun(ring, hashptr, bufstart, bufstart + n, l, maxDist, minMatch, baseLen).Trace(trace)
    {
      hide Recorded, RingHolds, Entries, TableOk, DataStart, Product, Probed, RepBlockRun.Trace, RepBlockRun.Step, Ready, Valid;
      ReadyBounds(ring, d, base, bufstart, n, slack);
      TableEntry(hashptr, n, l, hasharr.Length, b);
      ghost var run := RepBlockRun(ring, hashptr, bufstart, bufstart + n, l, maxDist, minMatch, baseLen);
      literalBytes, stats, lastMatchEnd :=
        ProbeChunk(ring, bufstart, n, dataStart, hashptr[hp], lastI, hashptr[hp + 1], literals0, stats0, lastEnd0, d, base, slack);
      ghost var next := RepStep(RepState(stats, lastMatchEnd, literalBytes), hasharr[..]);
      TraceStep(run, trace0, next, b, lastI + hashptr[hp + 1]);
      trace := trace0 + [next];
    }

    method Store(hash: nat, i: u64, ghost frontier: nat, ghost frontier': nat, ghost ringLen: nat)
      requires hash < hasharr.Length && Entries(hasharr[..], frontier, ringLen) && frontier <= frontier' && i < frontier' && i < ringLen
      modifies hasharr
      ensures Entries(hasharr[..], frontier', ringLen) && hasharr[..] == old(hasharr[..])[hash := i]
    {
      EntriesNext(hasharr[..], frontier, ringLen, hash, i, frontier');
      hide Entries;
      hasharr[hash] := i;
    }

    /** Extend the match of table entry `m` at position `i` both ways, and record it if it is long enough. */
    method TryMatch(ring: seq<byte>, bufstart: nat, n: u32, dataStart: nat, m: u64, i: nat,
        literals0: u32, stats0: seq<u32>, lastEnd0: nat, ghost d: seq<byte>, ghost base: nat, ghost slack: nat)
        returns (literalBytes: u32, stats: seq<u32>, lastMatchEnd: nat)
      requires Ready(ring, d, base, bufstart, n, slack) && 0 < maxDist && dataStart == DataStart(bufstart, |ring|, maxDist)
      requires (m != 0 ==> m < |ring| && m < base + i) && bufstart <= lastEnd0 <= bufstart + n && bufstart <= i < bufstart + n
      requires Recorded(stats0, false, baseLen, d, base + bufstart, base + bufstart + n, base + lastEnd0, literals0)
      ensures bufstart <= lastMatchEnd <= bufstart + n
      ensures Recorded(stats, false, baseLen, d, base + bufstart, base + bufstart + n, base + lastMatchEnd, literalBytes)
      ensures Probed(RepState(stats0, lastEnd0, literals0), RepState(stats, lastMatchEnd, literalBytes), ring, bufstart, bufstart + n,
                maxDist, minMatch, baseLen, m, i)
    {
      hide Recorded, TrueCopy, RingHolds, Agree, DataStart, ExtendedTo, EncodeLzMatch, Probed, LowBound, HighBound;
      literalBytes, stats, lastMatchEnd := literals0, stats0, lastEnd0;
      ReadyBounds(ring, d, base, bufstart, n, slack);
      ghost var c := RepState(stats0, lastEnd0, literals0);
      NothingTried(c, ring, bufstart, bufstart + n, maxDist, minMatch, baseLen, m, i);
      if i < lastMatchEnd || m == 0 {
        return;
      }
      var matchDistance := Distance(m, i, |ring|);
      if matchDistance <= maxDist {
        BoundsOk(bufstart, bufstart + n, |ring|, maxDist, slack, m, i, lastMatchEnd);
        var lowBound, highBound := LowBound(m, i, dataStart), HighBound(m, i, |ring|);
        var start := FindMatchStart(ring, m, i, Max(lastMatchEnd, lowBound));
        var end := FindMatchEnd(ring, m, i, Min(bufstart + n, highBound));
        var matchLen, litLen := end - start, start - lastMatchEnd;
        ExtensionFound(ring, m, i, Max(lastMatchEnd, lowBound), Min(bufstart + n, highBound), start, end);
        if matchLen >= minMatch {
          MatchRecorded(ring, d, base, bufstart, bufstart + n, m, i, start, end, baseLen, stats, lastMatchEnd, literalBytes);
          stats := stats + EncodeLzMatch(false, baseLen, litLen, matchDistance, matchLen);
          literalBytes := literalBytes - matchLen;
          lastMatchEnd := end;
        }
        MatchTaken(c, RepState(stats, lastMatchEnd, literalBytes), ring, bufstart, bufstart + n, maxDist, minMatch, baseLen, m, i, start, end);
      }
    }

    /** For each chunk of the block but the last, the largest of its window hashes, reduced to a
        table index, and the offset of that window. */
    method PrepareBuffer(buf: seq<byte>) returns (hashptr: seq<u64>)
      requires Valid() && |buf| < W64
      ensures maxDist > 0 && |buf| / l > 1 ==> Chunks(buf, l, hashptr, |buf| / l - 1, hasharr.Length)
    {
      hide Chunks, WindowHash, ChunkMax, ChunkFits, AtChunk;
      hashptr := [];
      if maxDist == 0 {
        return;
      }
      var numBlocks := |buf| / l;
      if numBlocks > 1 {
        ChunksFit(|buf|, l, numBlocks);
        hashptr := FillTable(buf, numBlocks);
      }
    }

    method FillTable(buf: seq<byte>, numBlocks: nat) returns (hashptr: seq<u64>)
      requires Valid() && numBlocks > 1 && 2 * l <= |buf| < W64 && ChunkFits(|buf|, l, numBlocks - 2)
      ensures Chunks(buf, l, hashptr, numBlocks - 1, hasharr.Length)
    {
      hide Chunks, WindowHash, ChunkMax, ChunkFits, AtChunk, HashOf, Slot;
      hashptr := [];
      var hash := new PolynomialRollingHash(l, PRIME1);
      hash.MoveTo(buf);
      var block := 1;
      ChunksNone(buf, l, hasharr.Length);
      while block < numBlocks
        invariant 1 <= block <= numBlocks && |hashptr| == 2 * (block - 1)
        invariant fresh(hash) && hash.Valid() && hash.l == l && hash.seed == PRIME1
        invariant AtChunk(buf, l, block - 1, hash.value)
        invariant Chunks(buf, l, hashptr, block - 1, hasharr.Length)
      {
        EarlierFits(|buf|, l, numBlocks - 2, block - 1);
        var maxhash, maxi := PickMax(buf, block - 1, hash);
        var index := Slot(maxhash, hasharr.Length);
        ChunksAppend(buf, l, hashptr, block - 1, hasharr.Length, index, maxi);
        hashptr := hashptr + [index, maxi];
        block := block + 1;
      }
      ChunksPrefix(buf, l, hashptr, numBlocks - 1, hasharr.Length, seq(2 * PREFETCH, k => 0));
      hashptr := hashptr + seq(2 * PREFETCH, k => 0);
    }

    /** Roll over one chunk, keeping the largest hash met and its offset. */
    method PickMax(buf: seq<byte>, b: nat, hash: PolynomialRollingHash) returns (maxhash: u64, maxi: nat)
      requires Valid() && hash.Valid() && hash.l == l && hash.seed == PRIME1 && ChunkFits(|buf|, l, b) && l < W64
      requires AtChunk(buf, l, b, hash.value)
      modifies hash`value
      ensures maxi < l && maxi < W64 && ChunkMax(buf, l, b, maxi) && maxhash == WindowHash(buf, l, b, maxi)
      ensures AtChunk(buf, l, b + 1, hash.value)
    {
      hide HashOf, WindowHash, AtChunk;
      maxhash, maxi := hash.value, 0;
      var ptr, i := b * l, 0;
      ghost var start := ptr;
      ChunkStarts(buf, l, b, hash.value);
      WindowIs(buf, l, b, 0, ptr);
      while i < l
        invariant 0 <= i <= l && ptr == start + i && maxi < l && (i > 0 ==> maxi < i) && (i == 0 ==> maxi == 0)
        invariant hash.value == HashOf(PRIME1, buf[ptr..ptr + l]) && maxhash == WindowHash(buf, l, b, maxi)
        invariant forall j {:trigger WindowHash(buf, l, b, j)} :: 0 <= j < i ==>
          if j < maxi then WindowHash(buf, l, b, j) < maxhash else WindowHash(buf, l, b, j) <= maxhash
      {
        WindowIs(buf, l, b, i, ptr);
        if hash.value > maxhash {
          maxhash, maxi := hash.value, i;
        }
        assert buf[ptr..ptr + l][1..] + [buf[ptr + l]] == buf[ptr + 1..ptr + 1 + l];
        hash.UpdateByte(buf[ptr], buf[ptr + l], buf[ptr..ptr + l]);
        ptr, i := ptr + 1, i + 1;
      }
      ChunkEnds(buf, l, b, ptr, hash.value);
    }
  }

  lemma ChunkStarts(buf: seq<byte>, l: nat, b: nat, value: u64)
    requires ChunkFits(|buf|, l, b) && AtChunk(buf, l, b, value)
    ensures 0 <= b * l && b * l + 2 * l <= |buf| && value == HashOf(PRIME1, buf[b * l..b * l + l])
  {
    Monotone(0, b, l);
  }

  lemma WindowIs(buf: seq<byte>, l: nat, b: nat, j: nat, ptr: nat)
    requires ChunkFits(|buf|, l, b) && j < l && ptr == b * l + j
    ensures ptr + l <= |buf| && WindowHash(buf, l, b, j) == HashOf(PRIME1, buf[ptr..ptr + l])
  {
  }

  lemma ChunkEnds(buf: seq<byte>, l: nat, b: nat, ptr: nat, value: u64)
    requires ChunkFits(|buf|, l, b) && ptr == b * l + l && value == HashOf(PRIME1, buf[ptr..ptr + l])
    ensures AtChunk(buf, l, b + 1, value)
  {
    assert (b + 1) * l == b * l + l;
  }

  lemma TraceStep(run: RepBlockRun, t: seq<RepStep>, y: RepStep, b: nat, i: u64)
    requires |t| == b + 1 && run.Trace(t)
    requires run.maxDist < |run.ring| && run.bufstart < |run.ring| && 2 * b + 1 < |run.hashptr| && run.hashptr[2 * b] < |t[b].table|
    requires i == run.bufstart + Product(b, run.l) + run.hashptr[2 * b + 1]
    requires Probed(t[b].state, y.state, run.ring, run.bufstart, run.bufend, run.maxDist, run.minMatch, run.baseLen, t[b].table[run.hashptr[2 * b]], i)
    requires y.table == t[b].table[run.hashptr[2 * b] := i]
    ensures run.Trace(t + [y])
  {
    StepTaken(run, t[b], y, b, i);
    hide RepBlockRun.Step, RepBlockRun.Trace, Probed, Product;
    run.TraceNext(t, y);
  }

  /** The list is in order at every step of the run. */
  ghost predicate TraceRecorded(t: seq<RepStep>, baseLen: u32, d: seq<byte>, base: nat, bufstart: nat, bufend: nat)
    requires base + bufstart < W64
  {
    forall j :: 0 <= j < |t| ==> StateRecorded(t[j].state, baseLen, d, base, bufstart, bufend)
  }

  ghost predicate StateRecorded(c: RepState, baseLen: u32, d: seq<byte>, base: nat, bufstart: nat, bufend: nat)
    requires base + bufstart < W64
  {
    bufstart <= c.lastEnd <= bufend && Recorded(c.stats, false, baseLen, d, base + bufstart, base + bufend, base + c.lastEnd, c.literals)
  }

  lemma RecordedFirst(x: RepStep, baseLen: u32, d: seq<byte>, base: nat, bufstart: nat, bufend: nat)
    requires base + bufstart < W64 && StateRecorded(x.state, baseLen, d, base, bufstart, bufend)
    ensures TraceRecorded([x], baseLen, d, base, bufstart, bufend)
  {
  }

  lemma RecordedMore(t: seq<RepStep>, y: RepStep, baseLen: u32, d: seq<byte>, base: nat, bufstart: nat, bufend: nat)
    requires base + bufstart < W64 && TraceRecorded(t, baseLen, d, base, bufstart, bufend)
    requires StateRecorded(y.state, baseLen, d, base, bufstart, bufend)
    ensures TraceRecorded(t + [y], baseLen, d, base, bufstart, bufend)
  {
    hide StateRecorded;
  }

  /** The loop takes a step for every whole chunk but the last. */
  lemma StepCount(b: nat, l: nat, n: nat)
    requires l > 0 && Product(b, l) + 2 * l > n && (b > 0 ==> Product(b, l) + l <= n)
    ensures b == Max(0, n / l - 1)
  {
    NextProduct(b, l);
    assert n == n / l * l + n % l;
    if b == 0 {
      if n / l >= 2 { Monotone(2, n / l, l); }
    } else {
      ModIs(n, l, b + 1, n - Product(b + 1, l));
    }
  }

  lemma StepTaken(run: RepBlockRun, x: RepStep, y: RepStep, b: nat, i: u64)
    requires run.maxDist < |run.ring| && run.bufstart < |run.ring| && 2 * b + 1 < |run.hashptr| && run.hashptr[2 * b] < |x.table|
    requires i == run.bufstart + Product(b, run.l) + run.hashptr[2 * b + 1]
    requires Probed(x.state, y.state, run.ring, run.bufstart, run.bufend, run.maxDist, run.minMatch, run.baseLen, x.table[run.hashptr[2 * b]], i)
    requires y.table == x.table[run.hashptr[2 * b] := i]
    ensures run.Step(x, y, b)
  {
    hide Probed, Product;
  }

  lemma InputBound(ring: seq<byte>, d: seq<byte>, base: nat, e: nat)
    requires RingHolds(ring, d, base, e)
    ensures e <= |ring| && base + e <= |d|
  {
  }

  lemma EntriesLater(h: seq<u64>, frontier: nat, frontier': nat, ringLen: nat)
    requires Entries(h, frontier, ringLen) && frontier <= frontier'
    ensures Entries(h, frontier', ringLen)
  {
  }

  lemma EntryBounds(h: seq<u64>, frontier: nat, ringLen: nat, k: nat)
    requires Entries(h, frontier, ringLen) && k < |h|
    ensures h[k] != 0 ==> h[k] < frontier && h[k] < ringLen
  {
  }

  /** The extended match is a true copy, so its record keeps the list in order. */
  lemma MatchRecorded(ring: seq<byte>, d: seq<byte>, base: nat, bufstart: nat, bufend: nat, m: nat, i: nat, start: nat, end: nat,
      baseLen: u32, stats: seq<u32>, lastEnd: nat, literals: u32)
    requires RingHolds(ring, d, base, bufend) && 0 < m < |ring| < W64 && m < base + i && m != i && |d| < W64
    requires bufstart <= lastEnd <= start <= i <= end <= bufend && bufend - bufstart < W32 && bufstart < |ring|
    requires Agree(ring, m, i, start, i) && Agree(ring, m, i, i, end) && start < end && baseLen <= end - start
    requires (m < i ==> i - m <= start) && (m > i ==> start + (m - i) >= bufend) && end + (m - i) <= |ring|
    requires Distance(m, i, |ring|) < W64
    requires Recorded(stats, false, baseLen, d, base + bufstart, base + bufend, base + lastEnd, literals)
    ensures end - start <= literals
    ensures Distance(m, i, |ring|) > 0
    ensures Recorded(stats + EncodeLzMatch(false, baseLen, start - lastEnd, Distance(m, i, |ring|), end - start), false, baseLen,
              d, base + bufstart, base + bufend, base + end, literals - (end - start))
  {
    hide RingHolds, Agree, Recorded, TrueCopy, EncodeLzMatch;
    InputBound(ring, d, base, bufend);
    AgreeJoin(ring, m, i, start, end);
    RingCopy(ring, d, base, bufend, m, i, start, end);
    var dist := Distance(m, i, |ring|);
    RecordPlain(stats, baseLen, d, base + bufstart, base + bufend, base + lastEnd, literals, start - lastEnd, dist, end - start);
    RecordedCount(stats + EncodeLzMatch(false, baseLen, start - lastEnd, dist, end - start), false, baseLen, d, base + bufstart,
      base + bufend, base + end, literals - (end - start));
  }

  lemma TableEntry(hashptr: seq<u64>, n: nat, l: nat, size: nat, b: nat)
    requires l > 0 && TableOk(hashptr, n, l, size) && Product(b, l) + 2 * l <= n
    ensures 2 * b + 1 < |hashptr| && hashptr[2 * b] < size && hashptr[2 * b + 1] < l
  {
    assert n == n / l * l + n % l;
    if b + 2 > n / l {
      assert (b + 2) * l == b * l + 2 * l;
      Monotone(n / l + 1, b + 2, l);
    }
  }

  lemma ChunksFit(n: nat, l: nat, k: nat)
    requires l > 0 && 2 <= k <= n / l
    ensures ChunkFits(n, l, k - 2) && 2 * l <= n
  {
    Monotone(k, n / l, l);
    assert n == n / l * l + n % l;
    assert k * l == (k - 2) * l + 2 * l;
    Monotone(0, k - 2, l);
  }

  lemma EarlierFits(n: nat, l: nat, k: nat, j: nat)
    requires ChunkFits(n, l, k) && j <= k
    ensures ChunkFits(n, l, j)
  {
    Monotone(j, k, l);
  }

  /** The table of the first `k` chunks. */
  ghost predicate Chunks(buf: seq<byte>, l: nat, hashptr: seq<u64>, k: nat, size: nat)
    requires l > 0 && size > 0
  {
    |hashptr| >= 2 * k && forall b :: 0 <= b < k ==> ChunkOk(buf, l, hashptr, b, size)
  }

  lemma ChunksNone(buf: seq<byte>, l: nat, size: nat)
    requires 0 < l <= |buf| && size > 0
    ensures Chunks(buf, l, [], 0, size) && AtChunk(buf, l, 0, HashOf(PRIME1, buf[..l]))
  {
    assert 0 * l == 0;
    assert buf[0 * l..0 * l + l] == buf[..l];
  }

  lemma ChunksPrefix(buf: seq<byte>, l: nat, hashptr: seq<u64>, k: nat, size: nat, more: seq<u64>)
    requires l > 0 && size > 0 && Chunks(buf, l, hashptr, k, size)
    ensures Chunks(buf, l, hashptr + more, k, size)
  {
    hide ChunkMax, WindowHash;
    forall b: nat | b < k ensures ChunkOk(buf, l, hashptr + more, b, size) {
      assert ChunkOk(buf, l, hashptr, b, size);
    }
  }

  lemma ChunksAppend(buf: seq<byte>, l: nat, hashptr: seq<u64>, k: nat, size: nat, index: u64, i: u64)
    requires l > 0 && size > 0 && |hashptr| == 2 * k && Chunks(buf, l, hashptr, k, size)
    requires i < l && ChunkFits(|buf|, l, k) && ChunkMax(buf, l, k, i)
    requires index == Slot(WindowHash(buf, l, k, i), size)
    ensures Chunks(buf, l, hashptr + [index, i], k + 1, size)
  {
    hide ChunkMax, WindowHash;
    ChunksPrefix(buf, l, hashptr, k, size, [index, i]);
    hide Chunks;
    var h := hashptr + [index, i];
    assert h[2 * k] == index && h[2 * k + 1] == i;
    ChunksLast(buf, l, h, k, size);
  }

  lemma ChunksLast(buf: seq<byte>, l: nat, hashptr: seq<u64>, k: nat, size: nat)
    requires l > 0 && size > 0 && Chunks(buf, l, hashptr, k, size) && |hashptr| >= 2 * k + 2 && ChunkOk(buf, l, hashptr, k, size)
    ensures Chunks(buf, l, hashptr, k + 1, size)
  {
    hide ChunkOk;
  }

  lemma ChunksTable(buf: seq<byte>, l: nat, hashptr: seq<u64>, size: nat)
    requires l > 0 && size > 0 && (|buf| / l > 1 ==> Chunks(buf, l, hashptr, |buf| / l - 1, size))
    ensures TableOk(hashptr, |buf|, l, size)
  {
    hide ChunkMax, WindowHash;
    if |buf| / l > 1 {
      forall b: nat | b < |buf| / l - 1 ensures hashptr[2 * b] < size && hashptr[2 * b + 1] < l {
        assert ChunkOk(buf, l, hashptr, b, size);
      }
    }
  }

  ghost predicate ChunkOk(buf: seq<byte>, l: nat, hashptr: seq<u64>, b: nat, size: nat)
    requires l > 0 && size > 0 && |hashptr| >= 2 * b + 2
  {
    && hashptr[2 * b + 1] < l && ChunkFits(|buf|, l, b) && ChunkMax(buf, l, b, hashptr[2 * b + 1])
    && hashptr[2 * b] == Slot(WindowHash(buf, l, b, hashptr[2 * b + 1]), size)
  }
}
