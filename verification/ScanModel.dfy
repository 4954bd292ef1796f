/** What the scan of a block in the digest mode works on: windows of the input, matches of
    greatest length, and the list written so far. */
module ScanModel {
  import opened Bytes
  import opened MatchModel
  import opened Records
  import opened WideArithmetic
  import opened RollingHash
  import opened Recording
  import opened ChunkTable

  function Window(d: seq<byte>, a: nat, l: nat): (w: seq<byte>)
    requires a + l <= |d|
    ensures |w| == l
  {
    d[a..a + l]
  }

  /** On this input the digest tells windows of `l` bytes apart. */
  ghost predicate NoCollisions(d: seq<byte>, l: nat, digest: DigestFn) {
    forall a: nat, b: nat :: a + l <= |d| && b + l <= |d| && digest(Window(d, a, l)) == digest(Window(d, b, l)) ==>
      Window(d, a, l) == Window(d, b, l)
  }

  /** `n` bytes at `src` equal those at `dest`. */
  ghost predicate Same(d: seq<byte>, src: nat, dest: nat, n: nat) {
    src + n <= |d| && dest + n <= |d| && forall x :: dest <= x < dest + n ==> d[x] == d[x - dest + src]
  }

  lemma SameIsCopy(d: seq<byte>, src: nat, dest: nat, n: nat, m: nat)
    requires Same(d, src, dest, n) && src < dest && m <= n
    ensures TrueCopy(d, Piece(src, dest, m))
  {
    forall x | dest <= x < dest + m ensures d[x] == d[x - (dest - src)] {
      assert d[x] == d[x - dest + src];
    }
  }

  /** Equal digests extend a run by a chunk. */
  lemma SameChunk(d: seq<byte>, l: nat, digest: DigestFn, src: nat, dest: nat, n: nat)
    requires NoCollisions(d, l, digest) && Same(d, src, dest, n) && src + n + l <= |d| && dest + n + l <= |d|
    requires digest(Window(d, src + n, l)) == digest(Window(d, dest + n, l))
    ensures Same(d, src, dest, n + l)
  {
    assert Window(d, src + n, l) == Window(d, dest + n, l);
    forall x | dest <= x < dest + n + l ensures d[x] == d[x - dest + src] {
      if x >= dest + n {
        assert Window(d, dest + n, l)[x - dest - n] == d[x];
        assert Window(d, src + n, l)[x - dest - n] == d[x - dest + src];
      }
    }
  }

  lemma SameNext(d: seq<byte>, src: nat, dest: nat, n: nat)
    requires Same(d, src, dest, n) && src + n < |d| && dest + n < |d| && d[src + n] == d[dest + n]
    ensures Same(d, src, dest, n + 1)
  {
  }

  lemma SameNone(d: seq<byte>, src: nat, dest: nat)
    requires src <= |d| && dest <= |d|
    ensures Same(d, src, dest, 0)
  {
  }

  lemma ChunkDigest(h: seq<seq<byte>>, d: seq<byte>, l: nat, digest: DigestFn, prepared: nat, c: nat)
    requires Prepared(h, d, l, digest, prepared) && c < prepared
    ensures c < |h| && Product(c, l) + l <= |d| && h[c] == digest(Window(d, Product(c, l), l))
  {
    assert DigestOk(h, d, l, digest, c);
  }

  lemma ChunkIndex(offset: nat, l: nat, c: nat, blockChunks: nat)
    requires l > 0 && offset == Product(c, l) < Product(blockChunks, l)
    ensures offset / l == c < blockChunks
  {
    ExactChunk(c, l);
    if c >= blockChunks { Monotone(blockChunks, c, l); }
  }

  /** The copy of `src` at `dest` is `len` long, and no longer before `limit`. */
  ghost predicate Longest(d: seq<byte>, src: int, dest: nat, limit: nat, len: nat) {
    && 0 <= src < dest && dest + len <= limit <= |d| && Same(d, src, dest, len)
    && (dest + len < limit ==> d[dest + len] != d[src + len])
  }

  lemma IsLongest(d: seq<byte>, src: nat, dest: nat, limit: nat, len: nat)
    requires src < dest && dest + len <= limit <= |d| && Same(d, src, dest, len)
    requires dest + len < limit ==> d[dest + len] != d[src + len]
    ensures Longest(d, src, dest, limit, len)
  {
  }

  /** The list written so far, where its last match ends in the block, and the count of literals. */
  datatype Progress = Progress(stats: seq<u32>, end: nat, literals: u32)

  /** Everything the scan of one block needs: the input, the block, the table and its progress. */
  datatype Scan = Scan(d: seq<byte>, round: bool, baseLen: u32, minMatch: nat, l: nat,
                       blockStart: u64, blockSize: u32, blockChunks: nat, prepared: nat)
  {
    ghost predicate Ok() {
      && l >= 8 && 0 < baseLen <= minMatch && 0 < blockSize < U32_MAX && |d| <= W64 - W32
      && blockStart == Product(blockChunks, l) && blockStart + blockSize <= |d|
      && blockChunks <= prepared && blockStart + blockSize < Product(prepared, l) + l
      && (round ==> l % baseLen == 0 && |d| / baseLen < W32)
    }

    /** The list written so far is in order, and the count of literals is right. */
    ghost predicate Has(p: Progress)
      requires Ok()
    {
      p.end <= blockSize && Recorded(p.stats, round, baseLen, d, blockStart, blockStart + blockSize, blockStart + p.end, p.literals)
    }
  }

  lemma Bounds(s: Scan)
    requires s.Ok()
    ensures s.blockStart + s.blockSize <= |s.d| <= W64 - W32 && 0 < s.blockSize < U32_MAX && s.baseLen > 0 && s.l >= 8
  {
  }

  lemma NothingYet(s: Scan)
    requires s.Ok()
    ensures s.Has(Progress([], 0, s.blockSize))
  {
    RecordedNone(s.round, s.baseLen, s.d, s.blockStart, s.blockStart + s.blockSize);
  }

  lemma RoundedMatch(s: Scan, k: nat, i: nat, len: nat)
    requires s.Ok() && s.round && s.l <= len && Product(k, s.l) < s.blockStart + i <= |s.d|
    ensures var n := Align(len, s.l);
            s.baseLen <= n <= len && n % s.baseLen == 0 && Product(k, s.l) % s.baseLen == 0 && Product(k, s.l) >= 0
    ensures (s.blockStart + i - Product(k, s.l)) / s.baseLen < W32
  {
    var m := len / s.l;
    MultipleOf(k, s.l, s.baseLen);
    AtLeastOne(len, s.l);
    MultipleOf(m, s.l, s.baseLen);
    DivMonotone(s.blockStart + i - Product(k, s.l), |s.d|, s.baseLen);
  }

  lemma MultipleOf(k: nat, l: nat, base: nat)
    requires l > 0 && base > 0 && l % base == 0
    ensures Product(k, l) % base == 0 && Product(k, l) >= 0 && base <= l
  {
    var q := l / base;
    assert l == q * base;
    Monotone(0, k, l);
    assert k * l == (k * q) * base;
    ModIs(k * l, base, k * q, 0);
    if l < base { ModIs(l, base, 0, l); }
  }

  lemma AtLeastOne(len: nat, l: nat)
    requires 0 < l <= len
    ensures len / l >= 1 && l <= Product(len / l, l) == Align(len, l) <= len
  {
    assert len == len / l * l + len % l;
    if len / l < 1 { Monotone(len / l, 0, l); }
    Monotone(1, len / l, l);
  }

  lemma DivMonotone(a: nat, b: nat, m: nat)
    requires m > 0 && a <= b
    ensures 0 <= a / m <= b / m
  {
    assert a == a / m * m + a % m && b == b / m * m + b % m;
    if a / m > b / m {
      assert (b / m + 1) * m == b / m * m + m;
      Monotone(b / m + 1, a / m, m);
    }
    if a / m < 0 { Monotone(a / m, -1, m); }
  }

  /** Rounded records store whole chunks only. */
  function StoredPart(s: Scan, len: nat): nat
    requires s.l > 0
  {
    if s.round then Align(len, s.l) else len
  }

  /** The hash is that of the window at `i`. */
  ghost predicate Synced(s: Scan, value: u64, i: nat)
    requires s.Ok()
  {
    i + s.l <= s.blockSize && value == HashOf(PRIME1, Window(s.d, s.blockStart + i, s.l))
  }

  /** The window at `i` of the block. */
  function WindowAt(s: Scan, i: nat): (w: seq<byte>)
    requires s.blockStart + i + s.l <= |s.d|
    ensures |w| == s.l
  {
    Window(s.d, s.blockStart + i, s.l)
  }
}
