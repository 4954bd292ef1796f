/** The block compressor of the digest mode: a rolling-hash scan for earlier chunks, merged
    with matches found beforehand. */
module BlockEncoder {
  import opened Bytes
  import opened MatchModel
  import opened Records
  import opened WideArithmetic
  import opened RollingHash
  import opened Compress
  import opened Recording
  import opened ChunkTable
  import opened ScanModel
  import opened EarlierMatches
  import opened ScanTrace

  // ---- the length of a match ----

  /** The whole chunks of the match of chunk `k` at `startPos`, compared by digest. */
  method ChunkRun(h: HashTable, k: nat, startPos: nat, blockSize: nat, blockStart: nat, history: seq<byte>,
      ghost blockChunks: nat, ghost prepared: nat, ghost added: nat) returns (p: nat, oldOffset: nat)
    requires h.Valid(history, prepared, added) && NoCollisions(history, h.l, h.digest)
    requires blockStart == Product(blockChunks, h.l) && blockChunks <= prepared && blockStart + blockSize <= |history|
    requires k < prepared && startPos + h.l <= blockSize && Product(k, h.l) < blockStart + startPos
    requires h.digestarr[k] == h.digest(Window(history, blockStart + startPos, h.l))
    ensures startPos + h.l <= p <= blockSize && oldOffset == Product(k, h.l) + (p - startPos)
    ensures Product(k, h.l) >= 0 && Same(history, Product(k, h.l), blockStart + startPos, p - startPos)
  {
    hide SlotsOk, Prepared, Same, Product, NoCollisions;
    NextProduct(k, h.l);
    NextProduct(blockChunks, h.l);
    ghost var src: nat, dest := Product(k, h.l), blockStart + startPos;
    PreparedSize(h.digestarr[..], history, h.l, h.digest, prepared);
    oldOffset, p := Product(k, h.l), startPos;
    ghost var c: nat := k;
    FirstChunkSame(history, h.l, h.digest, h.digestarr[..], prepared, k, dest);
    while true
      invariant oldOffset == Product(c, h.l) == src + (p - startPos) && startPos <= p && p + h.l <= blockSize && c < prepared
      invariant Same(history, src, dest, p - startPos + h.l)
      decreases blockSize - p
    {
      NextProduct(c, h.l);
      p, oldOffset, c := p + h.l, oldOffset + h.l, c + 1;
      if oldOffset >= blockStart {
        break;
      }
      if blockSize - p < h.l {
        break;
      }
      ChunkIndex(oldOffset, h.l, c, blockChunks);
      if h.digest(Window(history, blockStart + p, h.l)) != h.digestarr[oldOffset / h.l] {
        break;
      }
      NextChunkSame(history, h.l, h.digest, h.digestarr[..], prepared, c, src, dest, p - startPos);
    }
  }

  lemma FirstChunkSame(d: seq<byte>, l: nat, digest: DigestFn, digests: seq<seq<byte>>, prepared: nat, k: nat, dest: nat)
    requires NoCollisions(d, l, digest) && Prepared(digests, d, l, digest, prepared) && k < prepared && dest + l <= |d|
    requires k < |digests| && digests[k] == digest(Window(d, dest, l)) && Product(k, l) >= 0
    ensures Same(d, Product(k, l), dest, l)
  {
    hide NoCollisions, Same, Product;
    ChunkDigest(digests, d, l, digest, prepared, k);
    SameNone(d, Product(k, l), dest);
    SameChunk(d, l, digest, Product(k, l), dest, 0);
  }

  lemma NextChunkSame(d: seq<byte>, l: nat, digest: DigestFn, digests: seq<seq<byte>>, prepared: nat, c: nat, src: nat, dest: nat, n: nat)
    requires NoCollisions(d, l, digest) && Prepared(digests, d, l, digest, prepared) && c < prepared && Product(c, l) == src + n
    requires Same(d, src, dest, n) && dest + n + l <= |d| && c < |digests| && digests[c] == digest(Window(d, dest + n, l))
    ensures Same(d, src, dest, n + l)
  {
    hide NoCollisions, Same, Product;
    ChunkDigest(digests, d, l, digest, prepared, c);
    SameChunk(d, l, digest, src, dest, n);
  }

  /** The bytes behind them, compared one by one. */
  method ByteRun(history: seq<byte>, p0: nat, oldOffset: nat, blockSize: nat, blockStart: nat, ghost startPos: nat, ghost src: nat)
      returns (p: nat)
    requires startPos <= p0 <= blockSize && blockStart + blockSize <= |history| && src < blockStart + startPos
    requires oldOffset == src + (p0 - startPos) && Same(history, src, blockStart + startPos, p0 - startPos)
    ensures p0 <= p <= blockSize && Longest(history, src, blockStart + startPos, blockStart + blockSize, p - startPos)
  {
    hide Same;
    p := p0;
    while true
      invariant p0 <= p <= blockSize && Same(history, src, blockStart + startPos, p - startPos)
      decreases blockSize - p
    {
      if p >= blockSize {
        break;
      }
      var srcAbs := oldOffset + (p - p0);
      if srcAbs >= |history| || history[blockStart + p] != history[srcAbs] {
        break;
      }
      SameNext(history, src, blockStart + startPos, p - startPos);
      p := p + 1;
    }
    IsLongest(history, src, blockStart + startPos, blockStart + blockSize, p - startPos);
  }

  /** The length of the match of chunk `k` at `startPos`: first whole chunks by digest, then bytes. */
  method MatchLen(h: HashTable, k: nat, startPos: nat, blockSize: nat, blockStart: nat, history: seq<byte>,
      ghost blockChunks: nat, ghost prepared: nat, ghost added: nat) returns (len: nat)
    requires h.Valid(history, prepared, added) && NoCollisions(history, h.l, h.digest)
    requires blockStart == Product(blockChunks, h.l) && blockChunks <= prepared && blockStart + blockSize <= |history|
    requires k < prepared && startPos + h.l <= blockSize && Product(k, h.l) < blockStart + startPos
    requires h.digestarr[k] == h.digest(Window(history, blockStart + startPos, h.l))
    ensures h.l <= len && startPos + len <= blockSize
    ensures Longest(history, Product(k, h.l), blockStart + startPos, blockStart + blockSize, len)
  {
    hide SlotsOk, Prepared, Same, Product, NoCollisions, Longest;
    var p, oldOffset := ChunkRun(h, k, startPos, blockSize, blockStart, history, blockChunks, prepared, added);
    p := ByteRun(history, p, oldOffset, blockSize, blockStart, startPos, Product(k, h.l));
    len := p - startPos;
  }

  // ---- recording ----

  /** Record the match of chunk `k` at `i`, if it is long enough. */
  method RecordMatch(s: Scan, h: HashTable, p: Progress, i: nat, k: nat, ghost added: nat)
      returns (found: bool, q: Progress, ghost len: nat)
    requires s.Ok() && s.Has(p) && h.l == s.l
    requires h.Valid(s.d, s.prepared, added) && NoCollisions(s.d, s.l, h.digest)
    requires p.end <= i && i + s.l <= s.blockSize && k < s.prepared && Product(k, s.l) < s.blockStart + i
    requires h.digestarr[k] == h.digest(Window(s.d, s.blockStart + i, s.l))
    ensures s.Has(q) && Matched(s, p, q, i, k, len) && (found <==> len >= s.minMatch)
  {
    hide Scan.Has, SlotsOk, Prepared, Same, NoCollisions, EncodeLzMatch, Product;
    found, q := false, p;
    var n := MatchLen(h, k, i, s.blockSize, s.blockStart, s.d, s.blockChunks, s.prepared, added);
    len := n;
    if n >= s.minMatch {
      q := WriteMatch(s, p, i, k, n);
      found := true;
    }
  }

  method WriteMatch(s: Scan, p: Progress, i: nat, k: nat, len: nat) returns (q: Progress)
    requires s.Ok() && s.Has(p) && p.end <= i && s.l <= len && i + len <= s.blockSize
    requires s.minMatch <= len && Longest(s.d, Product(k, s.l), s.blockStart + i, s.blockStart + s.blockSize, len)
    ensures s.Has(q) && Matched(s, p, q, i, k, len)
  {
    hide Scan.Ok, Scan.Has, Longest, Product, Align, EncodeLzMatch, Matched, StoredPart;
    MatchSizes(s, p, i, k, len);
    var matchLen := StoredPart(s, len);
    var lit, offset := i - p.end, s.blockStart + i - Product(k, s.l);
    MatchWritten(s, p, i, k, len);
    q := Progress(p.stats + EncodeLzMatch(s.round, s.baseLen, lit, offset, matchLen), i + matchLen, p.literals - matchLen);
  }

  /** The fields of a match's record are in range, and aligned where they are rounded. */
  lemma MatchSizes(s: Scan, p: Progress, i: nat, k: nat, len: nat)
    requires s.Ok() && p.end <= i && s.l <= len && i + len <= s.blockSize && s.minMatch <= len
    requires Longest(s.d, Product(k, s.l), s.blockStart + i, s.blockStart + s.blockSize, len)
    ensures s.l > 0 && 0 <= Product(k, s.l) < s.blockStart + i < W64
    ensures 0 < s.baseLen <= StoredPart(s, len) <= len < W32 && 0 <= i - p.end < W32
    ensures s.round ==>
              && Product(k, s.l) % s.baseLen == 0 && StoredPart(s, len) % s.baseLen == 0
              && (s.blockStart + i - Product(k, s.l)) / s.baseLen < W32
  {
    hide Product, Align, Same;
    if s.round { RoundedMatch(s, k, i, len); }
  }

  /** The record of a match keeps the list in order and the count of literals right. */
  lemma MatchWritten(s: Scan, p: Progress, i: nat, k: nat, len: nat)
    requires s.Ok() && s.Has(p) && p.end <= i && s.l <= len && i + len <= s.blockSize && s.minMatch <= len
    requires Longest(s.d, Product(k, s.l), s.blockStart + i, s.blockStart + s.blockSize, len)
    ensures 0 < s.baseLen <= StoredPart(s, len) < W32 && 0 <= i - p.end < W32 && 0 <= s.blockStart + i - Product(k, s.l) < W64
    ensures 0 <= p.literals - StoredPart(s, len)
    ensures var n := StoredPart(s, len);
            var stats := p.stats + EncodeLzMatch(s.round, s.baseLen, i - p.end, s.blockStart + i - Product(k, s.l), n);
            var q := Progress(stats, i + n, p.literals - n);
            s.Has(q) && Matched(s, p, q, i, k, len)
  {
    hide Recorded, Longest, Same, Product, Align, EncodeLzMatch, TrueCopy, StoredPart, Scan.Ok;
    Bounds(s);
    MatchSizes(s, p, i, k, len);
    var src: nat, n: nat := Product(k, s.l), StoredPart(s, len);
    var lo, hi, dest := s.blockStart, s.blockStart + s.blockSize, s.blockStart + i;
    LongestIsSame(s.d, src, dest, hi, len);
    SameIsCopy(s.d, src, dest, len, n);
    if s.round {
      RecordRounded(p.stats, s.baseLen, s.d, lo, hi, lo + p.end, p.literals, i - p.end, src, n);
    } else {
      RecordPlain(p.stats, s.baseLen, s.d, lo, hi, lo + p.end, p.literals, i - p.end, dest - src, n);
    }
    var stats := p.stats + EncodeLzMatch(s.round, s.baseLen, i - p.end, dest - src, n);
    RecordedCount(stats, s.round, s.baseLen, s.d, lo, hi, dest + n, p.literals - n);
  }

  lemma LongestIsSame(d: seq<byte>, src: int, dest: nat, limit: nat, len: nat)
    requires Longest(d, src, dest, limit, len)
    ensures 0 <= src < dest && Same(d, src, dest, len)
  {
  }

  // ---- matches found beforehand ----

  /** Take over a match found beforehand, as far as it lies behind the last one recorded, and read on. */
  method MergeInput(s: Scan, p: Progress, inStats: seq<u32>, w: Waiting, i: nat, ghost rep: seq<u32>, ghost n: nat)
      returns (q: Progress, w': Waiting)
    requires s.Ok() && s.Has(p) && RepOk(s, rep) && inStats == rep + Fence(s)
    requires AtMatch(s, rep, n, w) && w.start <= i <= s.blockSize
    ensures s.Has(q) && AtMatch(s, rep, n + 1, w') && Merged(s, p, w, q)
  {
    hide Scan.Ok, Scan.Has, TakenOver, Recorded, TrueCopy, Pass1List, AtMatch, RepOk, Reading1, WholeRecords, Fence, DecodeLzMatch, ReadWaiting, StatsPerMatch;
    Bounds(s);
    WaitingMatch(s, rep, n, w);
    q := p;
    if w.start + w.len >= s.baseLen + p.end {
      q := TakeOver(s, p, w);
    }
    ReadNext(s, rep, inStats, w.cur, n + 1, s.blockStart + w.start + w.len);
    w' := ReadWaiting(s, inStats, w.cur, s.blockStart + w.start + w.len);
  }

  method TakeOver(s: Scan, p: Progress, w: Waiting) returns (q: Progress)
    requires s.Ok() && s.Has(p) && !s.round
    requires w.start + w.len <= s.blockSize && 0 < w.offset <= s.blockStart + w.start && s.baseLen <= w.len
    requires TrueCopy(s.d, Piece(s.blockStart + w.start - w.offset, s.blockStart + w.start, w.len))
    requires w.start + w.len >= s.baseLen + p.end
    ensures s.Has(q) && TakenOver(s, p, w, q)
  {
    hide Recorded, TrueCopy, EncodeLzMatch, Scan.Ok;
    Bounds(s);
    var start := Max(w.start, p.end);
    var len, lit := w.len - (start - w.start), start - p.end;
    CopySuffix(s.d, s.blockStart + w.start - w.offset, s.blockStart + w.start, w.len, start - w.start);
    RecordPlain(p.stats, s.baseLen, s.d, s.blockStart, s.blockStart + s.blockSize, s.blockStart + p.end, p.literals, lit, w.offset, len);
    var stats := p.stats + EncodeLzMatch(s.round, s.baseLen, lit, w.offset, len);
    RecordedCount(stats, s.round, s.baseLen, s.d, s.blockStart, s.blockStart + s.blockSize, s.blockStart + start + len, p.literals - len);
    q := Progress(stats, start + len, p.literals - len);
  }

  // ---- the scan ----

  ghost predicate Rolling(s: Scan, hash: PolynomialRollingHash) {
    hash.Valid() && hash.l == s.l && hash.seed == PRIME1
  }

  /** Set the hash to the window at `i`. */
  method MoveHash(s: Scan, hash: PolynomialRollingHash, i: nat)
    requires s.Ok() && Rolling(s, hash) && i + s.l <= s.blockSize
    modifies hash`value
    ensures Synced(s, hash.value, i)
  {
    hash.MoveTo(s.d[s.blockStart + i..]);
    hide HashOf;
    assert s.d[s.blockStart + i..][..s.l] == Window(s.d, s.blockStart + i, s.l);
  }

  /** Roll on by four bytes. */
  method RollFour(s: Scan, hash: PolynomialRollingHash, i: nat)
    requires s.Ok() && Rolling(s, hash) && Synced(s, hash.value, i) && i + 4 + s.l <= s.blockSize
    modifies hash`value
    ensures Synced(s, hash.value, i + 4)
  {
    hide HashOf;
    var ptr := s.d[s.blockStart + i..];
    assert ptr[..s.l] == Window(s.d, s.blockStart + i, s.l);
    assert ptr[4..4 + s.l] == Window(s.d, s.blockStart + (i + 4), s.l);
    hash.UpdateN(4, ptr);
  }

  /** Roll on by one byte. */
  method RollOne(s: Scan, hash: PolynomialRollingHash, i: nat)
    requires s.Ok() && Rolling(s, hash) && Synced(s, hash.value, i) && i + 1 + s.l <= s.blockSize
    modifies hash`value
    ensures Synced(s, hash.value, i + 1)
  {
    hide HashOf;
    ghost var w := Window(s.d, s.blockStart + i, s.l);
    assert w[1..] + [s.d[s.blockStart + i + s.l]] == Window(s.d, s.blockStart + (i + 1), s.l);
    hash.UpdateByte(s.d[s.blockStart + i], s.d[s.blockStart + i + s.l], w);
  }

  /** Skip what the last match covers: by jumping when it is far, by rolling when it is near. */
  method SkipAhead(s: Scan, hash: PolynomialRollingHash, i0: nat, nextChunk: nat, lastMatchEnd: nat) returns (i: nat)
    requires s.Ok() && Rolling(s, hash) && Synced(s, hash.value, i0) && i0 < nextChunk && nextChunk + s.l <= s.blockSize
    modifies hash`value
    ensures i0 <= i < nextChunk && Synced(s, hash.value, i)
    ensures s.l >= 8 && i == SkipTo(i0, nextChunk, lastMatchEnd, s.l)
    ensures var nextI := Min(nextChunk - 1, Max(lastMatchEnd - 1, 0)); nextI < i + 4 && (i == i0 || i <= nextI)
  {
    Bounds(s);
    hide Scan.Ok, Synced, Rolling;
    hide SkipTo;
    i := i0;
    ghost var k := 0;
    var nextI := Min(nextChunk - 1, Max(lastMatchEnd - 1, 0));
    SkipSteps(i0, nextChunk, lastMatchEnd, s.l);
    if nextI >= i + s.l / 2 {
      i := nextI / 4 * 4;
      MoveHash(s, hash, i);
    } else {
      while i + 4 <= nextI
        invariant i0 <= i < nextChunk && (i == i0 || i <= nextI) && Synced(s, hash.value, i) && i == i0 + 4 * k && k >= 0
      {
        RollFour(s, hash, i);
        i, k := i + 4, k + 1;
      }
    }
  }

  /** The skip in steps of four ends where no further step fits. */
  lemma SkipSteps(i: nat, nextChunk: nat, end: nat, l: nat)
    requires i < nextChunk && l >= 8
    ensures var nextI := Min(nextChunk - 1, Max(end - 1, 0));
            if nextI >= i + l / 2 then SkipTo(i, nextChunk, end, l) == nextI / 4 * 4
            else forall k: nat {:trigger 4 * k} :: (i + 4 * k <= nextI || k == 0) && nextI < i + 4 * k + 4 ==> SkipTo(i, nextChunk, end, l) == i + 4 * k
  {
  }

  /** A position to look up, with its hash. */
  datatype Candidate = Candidate(hash: u64, pos: nat)

  ghost predicate CandidateOk(s: Scan, c: Candidate, lo: nat, hi: nat, lastMatchEnd: nat)
    requires s.Ok()
  {
    lo < c.pos <= hi && lastMatchEnd <= c.pos && Synced(s, c.hash, c.pos)
  }

  ghost predicate CandidatesOk(s: Scan, cs: seq<Candidate>, lo: nat, hi: nat, lastMatchEnd: nat)
    requires s.Ok()
  {
    forall x :: 0 <= x < |cs| ==> CandidateOk(s, cs[x], lo, hi, lastMatchEnd) && cs[x].pos == Max(lo + 1, lastMatchEnd) + x
  }

  lemma OneMoreCandidate(s: Scan, cs: seq<Candidate>, lo: nat, hi: nat, lastMatchEnd: nat, c: Candidate)
    requires s.Ok() && CandidatesOk(s, cs, lo, hi, lastMatchEnd) && CandidateOk(s, c, lo, hi, lastMatchEnd)
    requires c.pos == Max(lo + 1, lastMatchEnd) + |cs|
    ensures CandidatesOk(s, cs + [c], lo, hi, lastMatchEnd)
  {
    hide CandidateOk, Scan.Ok;
  }

  /** Roll on by one position and collect it if it lies behind the last match. */
  method CollectOne(s: Scan, hash: PolynomialRollingHash, i: nat, candidates: seq<Candidate>, lastMatchEnd: nat, ghost lo: nat, ghost hi: nat)
      returns (candidates': seq<Candidate>)
    requires s.Ok() && Rolling(s, hash) && Synced(s, hash.value, i) && lo <= i < hi && hi + s.l <= s.blockSize
    requires CandidatesOk(s, candidates, lo, hi, lastMatchEnd) && |candidates| == Max(0, i + 1 - Max(lo + 1, lastMatchEnd))
    modifies hash`value
    ensures Synced(s, hash.value, i + 1) && CandidatesOk(s, candidates', lo, hi, lastMatchEnd)
    ensures |candidates'| == Max(0, i + 2 - Max(lo + 1, lastMatchEnd))
  {
    hide Scan.Ok, Synced, CandidatesOk;
    candidates' := candidates;
    RollOne(s, hash, i);
    if i + 1 >= lastMatchEnd {
      OneMoreCandidate(s, candidates, lo, hi, lastMatchEnd, Candidate(hash.value, i + 1));
      candidates' := candidates + [Candidate(hash.value, i + 1)];
    }
  }

  lemma NoCandidates(s: Scan, lo: nat, hi: nat, lastMatchEnd: nat)
    requires s.Ok()
    ensures CandidatesOk(s, [], lo, hi, lastMatchEnd)
  {
  }

  /** Roll on, at most to the next chunk, collecting every position behind the last match, in order. */
  method Collect(s: Scan, hash: PolynomialRollingHash, i0: nat, nextChunk: nat, lastMatchEnd: nat)
      returns (i: nat, candidates: seq<Candidate>)
    requires s.Ok() && Rolling(s, hash) && Synced(s, hash.value, i0) && i0 < nextChunk && nextChunk + s.l <= s.blockSize
    modifies hash`value
    ensures i0 < i <= nextChunk && Synced(s, hash.value, i)
    ensures CandidatesOk(s, candidates, i0, nextChunk, lastMatchEnd) && |candidates| == Max(0, i + 1 - Max(i0 + 1, lastMatchEnd))
    ensures i == Min(nextChunk, i0 + 128)
  {
    NoCandidates(s, i0, nextChunk, lastMatchEnd);
    hide Scan.Ok, Synced, Rolling, CandidatesOk;
    i, candidates := i0, [];
    var lastI := Min(nextChunk, i + 128);
    while i < lastI
      invariant i0 <= i <= lastI && Synced(s, hash.value, i)
      invariant CandidatesOk(s, candidates, i0, nextChunk, lastMatchEnd) && |candidates| == Max(0, i + 1 - Max(i0 + 1, lastMatchEnd))
      decreases lastI - i
    {
      ghost var start := i;
      var j := 0;
      while j < 4 && i < lastI
        invariant start <= i <= lastI && (j == 0 <==> i == start) && Synced(s, hash.value, i)
        invariant CandidatesOk(s, candidates, i0, nextChunk, lastMatchEnd) && |candidates| == Max(0, i + 1 - Max(i0 + 1, lastMatchEnd))
        decreases lastI - i
      {
        candidates := CollectOne(s, hash, i, candidates, lastMatchEnd, i0, nextChunk);
        i, j := i + 1, j + 1;
      }
    }
  }

  /** Look a position up and record the match found there. Every lookup uses the hash of its window. */
  method TryPosition(s: Scan, h: HashTable, p: Progress, i: nat, value: u64, ghost added: nat)
      returns (found: bool, q: Progress, ghost e: nat, ghost len: nat)
    requires s.Ok() && s.Has(p) && h.l == s.l && NoCollisions(s.d, s.l, h.digest)
    requires h.Valid(s.d, s.prepared, added) && p.end <= i && Synced(s, value, i)
    requires Product(added, s.l) < s.blockStart + i + s.l
    ensures s.Has(q) && LookedUp(s, h.digest, h.Contents(), p, q, i, e, len)
    ensures if found then q.end > i else q == p
  {
    hide Scan.Has, SlotsOk, Prepared, NoCollisions, HashOf, Product, Table.EndsAt, Table.Found, Longest, StoredPart, EncodeLzMatch;
    Bounds(s);
    found, q, len := false, p, 0;
    var buf := s.d[s.blockStart..];
    var k;
    k, e := h.FindMatch(buf, i, value, s.d, s.prepared, added);
    assert buf[i..i + s.l] == WindowAt(s, i);
    if k != NOT_FOUND {
      ChunkBefore(k, added, s.l);
      found, q, len := RecordMatch(s, h, p, i, k, added);
    }
  }

  /** The run so far is in order, and has led to this state. */
  ghost predicate OnTrack(r: Run, tr: seq<Entry>, x: ScanState) {
    r.s.Ok() && r.Ran(tr) && r.Now(tr) == x && (tr == [] ==> x.p.end == 0)
  }

  /** Between two rounds: this list and this table, and the scan has come to `i`. */
  ghost predicate Resting(x: ScanState, p: Progress, t: Table, i: nat) {
    x.p == p && x.t == t && x.at == i && x.Idle()
  }

  lemma StayOnTrack(r: Run, tr: seq<Entry>, x: ScanState, ev: Event, y: ScanState)
    requires OnTrack(r, tr, x) && r.Step(x, ev, y)
    ensures OnTrack(r, tr + [Entry(ev, y)], y)
  {
    hide Run.Step;
    r.Next(tr, Entry(ev, y));
  }

  lemma StepLooked(r: Run, x: ScanState, pos: nat, e: nat, len: nat, q: Progress)
    requires r.s.Ok() && LookedUp(r.s, r.digest, x.t, x.p, q, pos, e, len) && pos == x.next <= x.last
    ensures r.Step(x, Lookup(pos, e, len), x.(p := q, next := if q.end > pos then x.last + 1 else pos + 1))
  {
  }

  lemma StepRound(r: Run, x: ScanState, w: Waiting, q: Progress, n: nat, nextChunk: nat, lo: nat, to: nat)
    requires r.s.Ok() && x.Idle() && x.at < nextChunk == Product(x.c, r.s.l) && nextChunk + r.s.l <= r.s.blockSize
    requires AtMatch(r.s, r.rep, x.n, w)
    requires if w.start <= x.at then Merged(r.s, x.p, w, q) && n == x.n + 1 else q == x.p && n == x.n
    requires lo == SkipTo(x.at, nextChunk, q.end, r.s.l) && to == Min(nextChunk, lo + 128)
    ensures r.Step(x, Round(w), x.(p := q, n := n, at := to, next := Max(lo + 1, q.end), last := to))
  {
    hide AtMatch, Merged, SkipTo;
  }

  lemma StepEntered(r: Run, x: ScanState, pos: nat, e: nat, t': Table)
    requires r.s.Ok() && EnteredAt(r.s, r.digest, x.t, t', pos, e) && x.Idle() && pos == x.at == Product(x.c, r.s.l)
    ensures r.Step(x, Enter(pos, e), x.(t := t', c := x.c + 1))
  {
  }

  /** The positions `lo..hi` are accounted for. */
  ghost predicate AllAccounted(tr: seq<Entry>, lo: nat, hi: nat) {
    forall pos: nat :: lo <= pos < hi ==> Accounted(tr, pos)
  }

  lemma LaterAccounted(tr: seq<Entry>, more: seq<Entry>, lo: nat, hi: nat)
    requires AllAccounted(tr, lo, hi) && tr <= more
    ensures AllAccounted(more, lo, hi)
  {
    AccountedLater(tr, more, lo, hi);
  }

  /** Everything before the end of the last match is accounted for. */
  lemma EndAccounted(r: Run, tr: seq<Entry>, x: ScanState, lo: nat)
    requires OnTrack(r, tr, x)
    ensures AllAccounted(tr, lo, x.p.end)
  {
    forall pos: nat | lo <= pos < x.p.end ensures Accounted(tr, pos) {
      assert tr[|tr| - 1] in tr && Accounts(tr[|tr| - 1], pos);
    }
  }

  /** A lookup accounts for its position, and one that found a match for the rest of the group. */
  lemma LookupAccounted(tr: seq<Entry>, y: Entry, lo: nat, hi: nat)
    requires y.ev.Lookup? && AllAccounted(tr, lo, y.ev.pos)
    requires hi == y.ev.pos + 1 || (y.ev.pos < y.after.p.end && hi <= y.ev.pos + 128)
    ensures AllAccounted(tr + [y], lo, hi)
  {
    LaterAccounted(tr, tr + [y], lo, y.ev.pos);
    forall pos: nat | y.ev.pos <= pos < hi ensures Accounted(tr + [y], pos) {
      assert y in tr + [y] && Accounts(y, pos);
    }
  }

  lemma JoinAccounted(tr: seq<Entry>, lo: nat, mid: nat, mid': nat, hi: nat)
    requires AllAccounted(tr, lo, mid) && AllAccounted(tr, mid', hi) && mid' <= mid
    ensures AllAccounted(tr, lo, hi)
  {
  }

  /** Try the collected positions until one gives a match. */
  method TryCandidates(s: Scan, h: HashTable, p: Progress, candidates: seq<Candidate>,
      ghost lo: nat, ghost hi: nat, ghost added: nat, ghost r: Run, ghost tr0: seq<Entry>, ghost x0: ScanState)
      returns (q: Progress, ghost tr: seq<Entry>, ghost x: ScanState)
    requires s.Ok() && s.Has(p) && h.l == s.l && NoCollisions(s.d, s.l, h.digest)
    requires h.Valid(s.d, s.prepared, added) && Product(added, s.l) <= s.blockStart + lo + s.l
    requires CandidatesOk(s, candidates, lo, hi, p.end) && |candidates| <= 128
    requires r.s == s && r.digest == h.digest && OnTrack(r, tr0, x0) && x0.p == p && x0.t == h.Contents()
    requires x0.next == Max(lo + 1, p.end) && |candidates| == Max(0, x0.last + 1 - x0.next)
    ensures s.Has(q) && OnTrack(r, tr, x) && tr0 <= tr
    ensures x == x0.(p := q, next := x.next) && x.Idle()
    ensures var first := Max(lo + 1, p.end); AllAccounted(tr, first, first + |candidates|)
  {
    hide Scan.Has, SlotsOk, Prepared, NoCollisions, Synced, Product, Scan.Ok, OnTrack, AllAccounted, LookedUp, Run.Step;
    q, tr, x := p, tr0, x0;
    var k := 0;
    ghost var first: nat := Max(lo + 1, p.end);
    NoneAccounted(tr, first);
    while k < |candidates|
      invariant 0 <= k <= |candidates| && q == p && x == x0.(next := first + k)
      invariant OnTrack(r, tr, x) && tr0 <= tr && AllAccounted(tr, first, first + k)
    {
      var c := candidates[k];
      assert CandidateOk(s, c, lo, hi, p.end) && c.pos == first + k;
      var found;
      ghost var e, len;
      found, q, e, len := TryPosition(s, h, p, c.pos, c.hash, added);
      ghost var y := x.(p := q, next := if q.end > c.pos then x.last + 1 else c.pos + 1);
      StepLooked(r, x, c.pos, e, len, q);
      StayOnTrack(r, tr, x, Lookup(c.pos, e, len), y);
      LookupAccounted(tr, Entry(Lookup(c.pos, e, len), y), first, if found then first + |candidates| else c.pos + 1);
      tr, x := tr + [Entry(Lookup(c.pos, e, len), y)], y;
      if found {
        return;
      }
      k := k + 1;
    }
  }

  lemma NoneAccounted(tr: seq<Entry>, lo: nat)
    ensures AllAccounted(tr, lo, lo)
  {
  }

  /** Enter the chunk at `i`, under the hash of its window. */
  method EnterChunk(s: Scan, h: HashTable, i: nat, value: u64, ghost j: nat, ghost added: nat,
      ghost r: Run, ghost tr0: seq<Entry>, ghost x0: ScanState)
      returns (ghost tr: seq<Entry>, ghost x: ScanState)
    requires s.Ok() && h.l == s.l && h.Valid(s.d, s.prepared, added) && Synced(s, value, i)
    requires i == Product(j, s.l) && added <= s.blockChunks + j + 1
    requires r.s == s && r.digest == h.digest && OnTrack(r, tr0, x0) && Resting(x0, x0.p, h.Contents(), i) && x0.c == j
    modifies h.hasharr, h.chunkarr
    ensures s.blockChunks + j + 1 <= s.prepared && h.Valid(s.d, s.prepared, s.blockChunks + j + 1)
    ensures OnTrack(r, tr, x) && tr0 <= tr && x == x0.(t := h.Contents(), c := j + 1)
  {
    hide SlotsOk, Prepared, Product, Scan.Ok, HashOf, OnTrack, EnteredAt, Table.EndsAt, Run.Step;
    ChunkPrepared(s, i, j);
    ghost var t := h.Contents();
    var found;
    ghost var e;
    found, e := h.AddHash(s.blockStart, i, value, s.d, s.prepared, added, s.blockChunks + j + 1);
    TableEntered(s, h.digest, t, h.Contents(), i, value, e);
    x := x0.(t := h.Contents(), c := j + 1);
    StepEntered(r, x0, i, e, h.Contents());
    StayOnTrack(r, tr0, x0, Enter(i, e), x);
    tr := tr0 + [Entry(Enter(i, e), x)];
  }

  lemma TableEntered(s: Scan, digest: DigestFn, t: Table, t': Table, i: nat, value: u64, e: nat)
    requires s.Ok() && Synced(s, value, i) && t.Ok() && t'.digests == t.digests && t'.range == t.range
    requires 0 <= (s.blockStart + i) / s.l < |t.hashes|
    requires var c := (s.blockStart + i) / s.l;
             && t'.hashes == t.hashes[c := StoredHash(value)]
             && if c == NOT_FOUND then t'.slots == t.slots
                else
                  var u := Table(t.slots, t'.hashes, t.digests, t.range);
                  && u.EndsAt(value, t.digests[c], e)
                  && t'.slots == t.slots[Index(ChainAt(value, e), |t.slots|) := SlotValue(value, c, t.range)]
    ensures EnteredAt(s, digest, t, t', i, e)
  {
    hide HashOf, Table.EndsAt, ChainAt, SlotValue;
  }

  lemma ChunkPrepared(s: Scan, i: nat, j: nat)
    requires s.Ok() && i == Product(j, s.l) && i + s.l <= s.blockSize
    ensures s.blockChunks + j < s.prepared && (s.blockStart + i) / s.l == s.blockChunks + j
  {
    ChunkOffset(s.blockChunks, j, s.l);
    ExactChunk(s.blockChunks + j, s.l);
    if s.prepared <= s.blockChunks + j { Monotone(s.prepared, s.blockChunks + j, s.l); }
  }

  /** One round of the scan of a chunk: merge what has been reached, skip what is covered, roll on
      and look up. */
  method ScanRound(s: Scan, h: HashTable, hash: PolynomialRollingHash, inStats: seq<u32>, i0: nat, nextChunk: nat,
      p0: Progress, w0: Waiting, ghost rep: seq<u32>, ghost added: nat, ghost r: Run, ghost tr0: seq<Entry>, ghost x0: ScanState)
      returns (i: nat, p: Progress, w: Waiting, ghost tr: seq<Entry>, ghost x: ScanState)
    requires s.Ok() && s.Has(p0) && h.l == s.l && NoCollisions(s.d, s.l, h.digest)
    requires h.Valid(s.d, s.prepared, added) && Product(added, s.l) <= s.blockStart + i0 + s.l
    requires RepOk(s, rep) && inStats == rep + Fence(s) && AtMatch(s, rep, x0.n, w0)
    requires Rolling(s, hash) && Synced(s, hash.value, i0) && i0 < nextChunk && nextChunk + s.l <= s.blockSize
    requires r.s == s && r.digest == h.digest && r.rep == rep && OnTrack(r, tr0, x0)
    requires Resting(x0, p0, h.Contents(), i0) && nextChunk == Product(x0.c, s.l)
    modifies hash`value
    ensures i0 < i <= nextChunk && Synced(s, hash.value, i)
    ensures s.Has(p) && AtMatch(s, rep, x.n, w) && OnTrack(r, tr, x) && tr0 <= tr
    ensures Resting(x, p, h.Contents(), i) && x.c == x0.c
    ensures AllAccounted(tr, i0 + 1, i + 1)
  {
    hide Scan.Ok, Scan.Has, SlotsOk, Prepared, NoCollisions, Synced, Product, RepOk, AtMatch, Fence, CandidatesOk, Rolling, OnTrack, AllAccounted, Merged,
      Run.Step, SkipTo;
    p, w := p0, w0;
    ghost var n := x0.n;
    if i0 >= w.start {
      p, w := MergeInput(s, p0, inStats, w0, i0, rep, n);
      n := n + 1;
    }
    i := SkipAhead(s, hash, i0, nextChunk, p.end);
    ghost var lo, end := i, p.end;
    var candidates;
    i, candidates := Collect(s, hash, i, nextChunk, p.end);
    ghost var y := x0.(p := p, n := n, at := i, next := Max(lo + 1, end), last := i);
    StepRound(r, x0, w0, p, n, nextChunk, lo, i);
    StayOnTrack(r, tr0, x0, Round(w0), y);
    ghost var tr1 := tr0 + [Entry(Round(w0), y)];
    EndAccounted(r, tr1, y, i0 + 1);
    p, tr, x := TryCandidates(s, h, p, candidates, lo, nextChunk, added, r, tr1, y);
    RoundAccounted(tr1, tr, i0, lo, i, end, |candidates|);
  }

  /** What was skipped lies before the end of the last match, and the rest was collected. */
  lemma RoundAccounted(tr1: seq<Entry>, tr: seq<Entry>, i0: nat, lo: nat, i: nat, end: nat, count: nat)
    requires tr1 <= tr && AllAccounted(tr1, i0 + 1, end) && i0 <= lo < i && (lo == i0 || lo < end)
    requires count == Max(0, i + 1 - Max(lo + 1, end))
    requires AllAccounted(tr, Max(lo + 1, end), Max(lo + 1, end) + count)
    ensures AllAccounted(tr, i0 + 1, i + 1)
  {
    LaterAccounted(tr1, tr, i0 + 1, end);
    hide Accounted;
  }

  /** One chunk of the scan: merge, skip, roll and look up until its end is reached. */
  method ScanChunk(s: Scan, h: HashTable, hash: PolynomialRollingHash, inStats: seq<u32>, i0: nat,
      p0: Progress, w0: Waiting, ghost rep: seq<u32>, ghost j: nat, ghost added: nat, ghost r: Run, ghost tr0: seq<Entry>, ghost x0: ScanState)
      returns (p: Progress, w: Waiting, ghost tr: seq<Entry>, ghost x: ScanState)
    requires s.Ok() && s.Has(p0) && h.l == s.l && NoCollisions(s.d, s.l, h.digest)
    requires h.Valid(s.d, s.prepared, added) && added <= s.blockChunks + j + 1
    requires RepOk(s, rep) && inStats == rep + Fence(s) && AtMatch(s, rep, x0.n, w0)
    requires Rolling(s, hash) && Synced(s, hash.value, i0) && i0 == Product(j, s.l) && i0 + 2 * s.l <= s.blockSize
    requires r.s == s && r.digest == h.digest && r.rep == rep && OnTrack(r, tr0, x0) && Resting(x0, p0, h.Contents(), i0) && x0.c == j + 1
    modifies hash`value
    ensures s.Has(p) && AtMatch(s, rep, x.n, w) && Synced(s, hash.value, i0 + s.l)
    ensures Resting(x, p, h.Contents(), i0 + s.l) && x.c == j + 1
    ensures OnTrack(r, tr, x) && tr0 <= tr && AllAccounted(tr, i0 + 1, i0 + s.l + 1)
  {
    hide Scan.Ok, Scan.Has, SlotsOk, Prepared, NoCollisions, Synced, Product, RepOk, AtMatch, Fence, Rolling, OnTrack, AllAccounted;
    Bounds(s);
    Reach(s, i0, j, added);
    NextProduct(j, s.l);
    p, w, tr, x := p0, w0, tr0, x0;
    var i, nextChunk := i0, i0 + s.l;
    NoneAccounted(tr, i0 + 1);
    while i < nextChunk
      invariant i0 <= i <= nextChunk && Synced(s, hash.value, i)
      invariant s.Has(p) && AtMatch(s, rep, x.n, w) && Resting(x, p, h.Contents(), i) && x.c == j + 1
      invariant OnTrack(r, tr, x) && tr0 <= tr && AllAccounted(tr, i0 + 1, i + 1)
      decreases nextChunk - i
    {
      ghost var tr1, mid := tr, i + 1;
      i, p, w, tr, x := ScanRound(s, h, hash, inStats, i, nextChunk, p, w, rep, added, r, tr, x);
      LaterAccounted(tr1, tr, i0 + 1, mid);
      JoinAccounted(tr, i0 + 1, mid, mid, i + 1);
    }
  }

  /** Chunks added so far lie before any position still to be looked up. */
  lemma Reach(s: Scan, i: nat, j: nat, added: nat)
    requires s.Ok() && i == Product(j, s.l) && added <= s.blockChunks + j + 1
    ensures Product(added, s.l) <= s.blockStart + i + s.l
  {
    ChunkOffset(s.blockChunks, j, s.l);
    NextProduct(s.blockChunks + j, s.l);
    Monotone(added, s.blockChunks + j + 1, s.l);
  }

  /** Compress one block. The list is in order, every match in it is a true copy, and the count of
      literals is what the matches leave. `tr` is the run that led there, from the table before to
      the table after, every chunk of the block entered: no position is left out but those before the
      end of a match recorded, or in the group in which one had just been found. */
  method CompressBlock(s: Scan, h: HashTable, inStats: seq<u32>, ghost rep: seq<u32>, ghost added0: nat)
      returns (literalBytes: u32, stats: seq<u32>, ghost end: nat, ghost added: nat, ghost r: Run, ghost tr: seq<Entry>)
    requires s.Ok() && h.l == s.l && NoCollisions(s.d, s.l, h.digest)
    requires h.Valid(s.d, s.prepared, added0) && added0 <= s.blockChunks
    requires RepOk(s, rep) && inStats == rep + Fence(s)
    modifies h.hasharr, h.chunkarr
    ensures s.Has(Progress(stats, end, literalBytes))
    ensures added0 <= added <= s.prepared && h.Valid(s.d, s.prepared, added)
    ensures r == Run(s, h.digest, rep, Unscanned(Progress([], 0, s.blockSize), old(h.Contents())))
    ensures r.Ran(tr) && r.Now(tr).p == Progress(stats, end, literalBytes) && r.Now(tr).t == h.Contents()
    ensures if 2 * s.l > s.blockSize then tr == [] else r.Complete(r.Now(tr)) && AllAccounted(tr, 0, s.blockSize - 2 * s.l + 2)
  {
    hide Scan.Ok, Scan.Has, SlotsOk, Prepared, NoCollisions, Synced, Product, RepOk, AtMatch, Fence, Rolling, OnTrack, AllAccounted;
    Bounds(s);
    FirstRead(s, rep);
    NothingYet(s);
    NextProduct(0, s.l);
    PreparedBounds(s);
    var p := Progress([], 0, s.blockSize);
    literalBytes, stats, end, added := s.blockSize, [], 0, added0;
    r, tr := Run(s, h.digest, rep, Unscanned(p, h.Contents())), [];
    StartOnTrack(r);
    ReadNext(s, rep, inStats, 0, 0, s.blockStart);
    var w := ReadWaiting(s, inStats, 0, s.blockStart);
    if 2 * s.l > s.blockSize {
      return;
    }
    var hash := new PolynomialRollingHash(s.l, PRIME1);
    RollingNew(s, hash);
    ghost var x;
    p, tr, x := FirstChunk(s, h, hash, added0, r);
    p, added, tr, x := ScanChunks(s, h, hash, inStats, p, w, rep, r, tr, x);
    literalBytes, stats, end := p.literals, p.stats, p.end;
    TrackEnds(r, tr, x);
  }

  lemma StartOnTrack(r: Run)
    requires r.s.Ok() && r.start.p.end == 0
    ensures OnTrack(r, [], r.start) && r.Ran([])
  {
  }

  lemma TrackEnds(r: Run, tr: seq<Entry>, x: ScanState)
    requires OnTrack(r, tr, x)
    ensures r.s.Ok() && r.Ran(tr) && r.Now(tr) == x
  {
  }

  /** Scan one chunk and enter the next. */
  method PassChunk(s: Scan, h: HashTable, hash: PolynomialRollingHash, inStats: seq<u32>, i0: nat,
      p0: Progress, w0: Waiting, ghost rep: seq<u32>, ghost j: nat, ghost r: Run, ghost tr0: seq<Entry>, ghost x0: ScanState)
      returns (p: Progress, w: Waiting, ghost tr: seq<Entry>, ghost x: ScanState)
    requires s.Ok() && s.Has(p0) && h.l == s.l && NoCollisions(s.d, s.l, h.digest)
    requires s.blockChunks + j + 1 <= s.prepared && h.Valid(s.d, s.prepared, s.blockChunks + j + 1)
    requires RepOk(s, rep) && inStats == rep + Fence(s) && AtMatch(s, rep, x0.n, w0)
    requires Rolling(s, hash) && Synced(s, hash.value, i0) && i0 == Product(j, s.l) && i0 + 2 * s.l <= s.blockSize
    requires r.s == s && r.digest == h.digest && r.rep == rep && OnTrack(r, tr0, x0) && Resting(x0, p0, h.Contents(), i0) && x0.c == j + 1
    modifies h.hasharr, h.chunkarr, hash`value
    ensures s.Has(p) && AtMatch(s, rep, x.n, w) && Synced(s, hash.value, i0 + s.l)
    ensures Resting(x, p, h.Contents(), i0 + s.l) && x.c == j + 2
    ensures i0 + s.l == Product(j + 1, s.l)
    ensures s.blockChunks + j + 2 <= s.prepared && h.Valid(s.d, s.prepared, s.blockChunks + j + 2)
    ensures OnTrack(r, tr, x) && tr0 <= tr && AllAccounted(tr, i0 + 1, i0 + s.l + 1)
  {
    hide Scan.Ok, Scan.Has, SlotsOk, Prepared, NoCollisions, Synced, Product, RepOk, AtMatch, Fence, Rolling, OnTrack, AllAccounted;
    NextProduct(j, s.l);
    p, w, tr, x := ScanChunk(s, h, hash, inStats, i0, p0, w0, rep, j, s.blockChunks + j + 1, r, tr0, x0);
    ghost var tr1 := tr;
    tr, x := EnterChunk(s, h, i0 + s.l, hash.value, j + 1, s.blockChunks + j + 1, r, tr, x);
    LaterAccounted(tr1, tr, i0 + 1, i0 + s.l + 1);
  }

  /** The scan of a block, chunk by chunk; each chunk passed is entered. */
  method ScanChunks(s: Scan, h: HashTable, hash: PolynomialRollingHash, inStats: seq<u32>,
      p0: Progress, w0: Waiting, ghost rep: seq<u32>, ghost r: Run, ghost tr0: seq<Entry>, ghost x0: ScanState)
      returns (p: Progress, ghost added: nat, ghost tr: seq<Entry>, ghost x: ScanState)
    requires s.Ok() && h.l == s.l && NoCollisions(s.d, s.l, h.digest) && s.Has(p0)
    requires s.blockChunks + 1 <= s.prepared && h.Valid(s.d, s.prepared, s.blockChunks + 1)
    requires RepOk(s, rep) && inStats == rep + Fence(s) && AtMatch(s, rep, x0.n, w0)
    requires Rolling(s, hash) && Synced(s, hash.value, 0) && 2 * s.l <= s.blockSize
    requires r.s == s && r.digest == h.digest && r.rep == rep && OnTrack(r, tr0, x0) && Resting(x0, p0, h.Contents(), 0) && x0.c == 1
    requires AllAccounted(tr0, 0, 1)
    modifies h.hasharr, h.chunkarr, hash`value
    ensures s.Has(p) && x.p == p && x.t == h.Contents() && r.Complete(x)
    ensures s.blockChunks < added <= s.prepared && h.Valid(s.d, s.prepared, added)
    ensures OnTrack(r, tr, x) && AllAccounted(tr, 0, s.blockSize - 2 * s.l + 2)
  {
    hide Scan.Ok, Scan.Has, SlotsOk, Prepared, NoCollisions, Synced, Product, RepOk, AtMatch, Fence, Rolling, OnTrack, AllAccounted;
    Bounds(s);
    NextProduct(0, s.l);
    p, added, tr, x := p0, s.blockChunks + 1, tr0, x0;
    var w, i: nat := w0, 0;
    ghost var j: nat := 0;
    while i <= s.blockSize - 2 * s.l
      invariant i + s.l <= s.blockSize && i == Product(j, s.l) && added == s.blockChunks + j + 1 <= s.prepared
      invariant s.Has(p) && AtMatch(s, rep, x.n, w) && Resting(x, p, h.Contents(), i) && x.c == j + 1
      invariant Rolling(s, hash) && Synced(s, hash.value, i)
      invariant h.Valid(s.d, s.prepared, added)
      invariant OnTrack(r, tr, x) && AllAccounted(tr, 0, i + 1)
      decreases s.blockSize - i
    {
      ghost var tr1 := tr;
      p, w, tr, x := PassChunk(s, h, hash, inStats, i, p, w, rep, j, r, tr, x);
      LaterAccounted(tr1, tr, 0, i + 1);
      JoinAccounted(tr, 0, i + 1, i + 1, i + s.l + 1);
      i, j, added := i + s.l, j + 1, added + 1;
    }
    FewerAccounted(tr, i + 1, s.blockSize - 2 * s.l + 2);
    NextProduct(j, s.l);
    ChunkEnd(j + 1, s.l, s.blockSize);
  }

  lemma FewerAccounted(tr: seq<Entry>, hi: nat, lower: nat)
    requires AllAccounted(tr, 0, hi) && lower <= hi
    ensures AllAccounted(tr, 0, lower)
  {
    hide Accounted;
  }

  /** The first chunk of a block is looked up and entered before the scan. */
  method FirstChunk(s: Scan, h: HashTable, hash: PolynomialRollingHash, ghost added: nat, ghost r: Run)
      returns (p: Progress, ghost tr: seq<Entry>, ghost x: ScanState)
    requires s.Ok() && h.l == s.l && NoCollisions(s.d, s.l, h.digest) && s.l <= s.blockSize && Rolling(s, hash)
    requires h.Valid(s.d, s.prepared, added) && added <= s.blockChunks
    requires r.s == s && r.digest == h.digest && r.start == Unscanned(Progress([], 0, s.blockSize), h.Contents())
    modifies h.hasharr, h.chunkarr, hash`value
    ensures s.Has(p) && Synced(s, hash.value, 0)
    ensures s.blockChunks + 1 <= s.prepared && h.Valid(s.d, s.prepared, s.blockChunks + 1)
    ensures OnTrack(r, tr, x) && Resting(x, p, h.Contents(), 0) && x.c == 1 && x.n == 0 && AllAccounted(tr, 0, 1)
  {
    hide Scan.Ok, Scan.Has, SlotsOk, Prepared, NoCollisions, Synced, Product, Rolling, OnTrack, AllAccounted, LookedUp, Run.Step;
    NothingYet(s);
    NextProduct(0, s.l);
    EarlierOnly(s, added);
    MoveHash(s, hash, 0);
    StartOnTrack(r);
    NoneAccounted([], 0);
    var found;
    ghost var e, len;
    found, p, e, len := TryPosition(s, h, Progress([], 0, s.blockSize), 0, hash.value, added);
    x := r.start.(p := p, next := 1);
    StepLooked(r, r.start, 0, e, len, p);
    StayOnTrack(r, [], r.start, Lookup(0, e, len), x);
    LookupAccounted([], Entry(Lookup(0, e, len), x), 0, 1);
    tr := [] + [Entry(Lookup(0, e, len), x)];
    ghost var tr1 := tr;
    tr, x := EnterChunk(s, h, 0, hash.value, 0, added, r, tr, x);
    LaterAccounted(tr1, tr, 0, 1);
  }

  lemma RollingNew(s: Scan, hash: PolynomialRollingHash)
    requires hash.Valid() && hash.l == s.l && hash.seed == PRIME1
    ensures Rolling(s, hash)
  {
  }

  lemma PreparedBounds(s: Scan)
    requires s.Ok()
    ensures s.blockChunks <= s.prepared
  {
  }

  lemma EarlierOnly(s: Scan, added: nat)
    requires s.Ok() && added <= s.blockChunks
    ensures Product(added, s.l) < s.blockStart + 0 + s.l
  {
    Monotone(added, s.blockChunks, s.l);
  }
}
