/** Inputs on which decoding stalls although every buffer has its default relation to the others:
    matches as long as a block do not fit a VM block of the same size with their framing. */
module FullBlocks {
  import opened Bytes
  import opened MatchModel
  import opened WideArithmetic
  import opened Records
  import opened ChunkMemory
  import opened ChunkStore
  import opened StoreDemand
  import opened VirtualMemory
  import opened Cutting
  import opened Compress
  import opened Lossless
  import Pipeline

  /** The second half of the input repeats the first, `m` blocks of `size` bytes each. */
  ghost predicate Halves(d: seq<byte>, size: u32, m: nat) {
    && |d| == 2 * Product(m, size) <= W64 - W32 && size > 0 && m > 0
    && forall x :: 0 <= x < Product(m, size) ==> d[Product(m, size) + x] == d[x]
  }

  /** Block `k` of a list of passes: in the second half, one match to the block `m` earlier. */
  ghost function TwiceBlock(size: u32, base: u32, m: nat, k: nat): PendingBlock
    requires base <= size && Product(k, size) < W64 && Product(m, size) < W64 && Product(k, size) >= 0 && Product(m, size) >= 0
  {
    PendingBlock(Product(k, size), size, if k < m then [] else EncodeLzMatch(false, base, 0, Product(m, size), size))
  }

  ghost predicate TwiceBlocks(blocks: seq<PendingBlock>, size: u32, base: u32, m: nat) {
    && base <= size && |blocks| == 2 * m
    && forall k :: 0 <= k < |blocks| ==> InRange(size, m, k) && blocks[k] == TwiceBlock(size, base, m, k)
  }

  predicate InRange(size: u32, m: nat, k: nat) {
    0 <= Product(k, size) < W64 && 0 <= Product(m, size) < W64
  }

  lemma Ranges(d: seq<byte>, size: u32, m: nat, k: nat)
    requires Halves(d, size, m) && k < 2 * m
    ensures InRange(size, m, k) && Product(k, size) + size <= |d| && |d| == Product(2 * m, size)
    ensures k >= m ==> Product(k, size) == Product(m, size) + Product(k - m, size) && Product(k - m, size) >= 0
    ensures k < m ==> Product(k, size) + size <= Product(m, size)
  {
    NextProduct(k, size);
    NextProduct(m, size);
    assert (2 * m) * size == 2 * (m * size);
    Monotone(k + 1, 2 * m, size);
    if k < m { Monotone(k + 1, m, size); }
    if k >= m {
      assert k * size == m * size + (k - m) * size;
      NextProduct(k - m, size);
    }
  }

  /** The match of a block in the second half. */
  ghost function Copy(size: u32, m: nat, i: nat): Piece
    requires Product(i, size) >= 0 && Product(m, size) >= 0
  {
    Piece(Product(i, size), Product(m, size) + Product(i, size), size)
  }

  lemma TwiceOwn(d: seq<byte>, size: u32, base: u32, m: nat, k: nat)
    requires Halves(d, size, m) && base <= size && k < 2 * m
    ensures InRange(size, m, k) && LengthsFit(TwiceBlock(size, base, m, k).stats, false, base)
    ensures k < m ==> Own(TwiceBlock(size, base, m, k), false, base) == []
    ensures k >= m ==> Product(k - m, size) >= 0 && Own(TwiceBlock(size, base, m, k), false, base) == [Copy(size, m, k - m)]
  {
    Ranges(d, size, m, k);
    hide Product, Halves;
    if k >= m {
      OneRecordList(base, Product(m, size), size, Product(k, size));
    }
  }

  lemma OneRecordList(base: u32, offset: u64, len: u32, pos: u64)
    requires base <= len && offset <= pos
    ensures var s := EncodeLzMatch(false, base, 0, offset, len);
            Pass1List(s, false, base, pos) == [Piece(pos - offset, pos, len)] && LengthsFit(s, false, base)
  {
    PlainRoundTrip(base, 0, offset, len, pos);
    PlainWords(base, 0, offset, len);
    var s := EncodeLzMatch(false, base, 0, offset, len);
    hide EncodeLzMatch, DecodeLzMatch;
    assert s[4..] == [];
    assert Pass1List([], false, base, (pos + len) % W64) == [];
  }

  lemma TwiceGood(d: seq<byte>, size: u32, base: u32, m: nat, k: nat)
    requires Halves(d, size, m) && base <= size && k < 2 * m
    ensures InRange(size, m, k) && GoodBlock(d, TwiceBlock(size, base, m, k), false, base)
  {
    TwiceOwn(d, size, base, m, k);
    Ranges(d, size, m, k);
    hide Pass1List, LengthsFit, Product;
    if k >= m {
      var p := Copy(size, m, k - m);
      CopyIsTrue(d, size, m, k - m);
      hide Halves, TrueCopy;
      assert GoodItem(d, Product(k, size), Product(k, size) + size, [p], 0);
    }
  }

  lemma CopyIsTrue(d: seq<byte>, size: u32, m: nat, i: nat)
    requires Halves(d, size, m) && i < m
    ensures Product(i, size) >= 0 && Product(m, size) >= 0 && TrueCopy(d, Copy(size, m, i))
  {
    Ranges(d, size, m, i);
    NextProduct(m, size);
    Monotone(1, m, size);
    hide Product;
  }

  /** What pass 1 may hand over for such an input. */
  lemma TwiceInput(d: seq<byte>, size: u32, base: u32, m: nat, blocks: seq<PendingBlock>)
    requires Halves(d, size, m) && TwiceBlocks(blocks, size, base, m)
    ensures GoodInput(d, size, blocks, false, base)
  {
    hide GoodBlock, Product, Halves, Blocked, TwiceBlock;
    TwiceBlocked(d, size, base, m, blocks);
    HalvesBounds(d, size, m);
    forall k | 0 <= k < |blocks| ensures GoodBlock(d, blocks[k], false, base) {
      TwiceGood(d, size, base, m, k);
    }
  }

  lemma TwiceEnds(d: seq<byte>, size: u32, base: u32, m: nat, blocks: seq<PendingBlock>, k: nat)
    requires Halves(d, size, m) && TwiceBlocks(blocks, size, base, m) && k <= |blocks|
    ensures BlocksEnd(blocks, k) == Product(k, size)
    ensures k < |blocks| ==> blocks[k].start == Product(k, size) && blocks[k].size == size
  {
    hide Product, Halves;
    NextProduct(0, size);
    if k > 0 {
      NextProduct(k - 1, size);
      assert blocks[k - 1].start == Product(k - 1, size) && blocks[k - 1].size == size;
    }
  }

  lemma TwiceBlocked(d: seq<byte>, size: u32, base: u32, m: nat, blocks: seq<PendingBlock>)
    requires Halves(d, size, m) && TwiceBlocks(blocks, size, base, m)
    ensures Blocked(d, size, blocks)
  {
    hide Product, Halves, BlocksEnd, TwiceBlock;
    HalvesBounds(d, size, m);
    forall k | 0 <= k < |blocks| ensures blocks[k].size == size && blocks[k].start == BlocksEnd(blocks, k) {
      TwiceEnds(d, size, base, m, blocks, k);
    }
    TwiceEnds(d, size, base, m, blocks, |blocks|);
    Ranges(d, size, m, 0);
  }

  lemma HalvesBounds(d: seq<byte>, size: u32, m: nat)
    requires Halves(d, size, m)
    ensures |d| <= W64 - W32 && m > 0 && size > 0
  {
  }

  // ---- its pieces ----

  /** A block-aligned match of a block's length meets only the block its source is. */
  lemma AlignedMeets(size: nat, i: nat, j: nat, dest: nat)
    requires size > 0 && Product(i, size) >= 0 && Product(j, size) >= 0
    requires Meets(Piece(Product(i, size), dest, size), Product(j, size), Product(j, size) + size)
    ensures i == j
  {
    NextProduct(i, size);
    NextProduct(j, size);
    if i < j { Monotone(i + 1, j, size); }
    if j < i { Monotone(j + 1, i, size); }
  }

  lemma SortedCopies(d: seq<byte>, size: u32, base: u32, m: nat, blocks: seq<PendingBlock>, p: Piece)
    requires Halves(d, size, m) && TwiceBlocks(blocks, size, base, m) && p in Sorted(blocks, false, base)
    ensures exists i: nat :: i < m && Product(i, size) >= 0 && Product(m, size) >= 0 && p == Copy(size, m, i)
  {
    hide Product, Halves, Gathered, SortBySource, Pass1List;
    var g := Gathered(blocks, |blocks|, false, base);
    TwiceInput(d, size, base, m, blocks);
    GatheredApart(d, size, blocks, |blocks|, false, base);
    SortApart(g);
    var k := GatheredFromOwn(blocks, |blocks|, false, base, p);
    TwiceOwn(d, size, base, m, k);
    assert k >= m && p == Copy(size, m, k - m);
    assert k - m < m;
  }

  /** No piece fits a VM block of the same size. */
  lemma CopiesLong(d: seq<byte>, size: u32, base: u32, m: nat, blocks: seq<PendingBlock>, vs: nat)
    requires Halves(d, size, m) && TwiceBlocks(blocks, size, base, m) && vs < size + 24
    ensures TooLong(AllPieces(blocks, Sorted(blocks, false, base)), vs)
  {
    hide Product, Halves, Sorted, AllPieces, Cut, Meets;
    var s := Sorted(blocks, false, base);
    forall p | p in AllPieces(blocks, s) ensures vs < 24 + p.len {
      var j, h := PieceOrigin(blocks, s, p);
      assert s[h] in s;
      SortedCopies(d, size, base, m, blocks, s[h]);
      var i: nat :| i < m && Product(i, size) >= 0 && Product(m, size) >= 0 && s[h] == Copy(size, m, i);
      AlignedMeets(size, i, j, s[h].dest);
      WholeCut(s[h], size);
    }
  }

  lemma WholeCut(p: Piece, size: nat)
    requires size > 0 && p.len == size
    ensures Meets(p, p.src, p.src + size) && Cut(p, p.src, p.src + size) == p
  {
  }

  /** All copies wait across the middle of the input. */
  lemma CopiesPending(d: seq<byte>, size: u32, base: u32, m: nat, blocks: seq<PendingBlock>, i: nat)
    requires Halves(d, size, m) && TwiceBlocks(blocks, size, base, m) && i < m
    ensures Product(i, size) >= 0 && Product(m, size) >= 0
    ensures Copy(size, m, i) in PendingPieces(blocks, Sorted(blocks, false, base), m)
  {
    hide Product, Halves, Gathered, SortBySource, Pass1List, AllPieces;
    Ranges(d, size, m, i);
    Ranges(d, size, m, m + i);
    TwiceOwn(d, size, base, m, m + i);
    HalvesBounds(d, size, m);
    var p, s := Copy(size, m, i), Sorted(blocks, false, base);
    assert blocks[m + i] == TwiceBlock(size, base, m, m + i) && blocks[i] == TwiceBlock(size, base, m, i) && blocks[m] == TwiceBlock(size, base, m, m);
    InSorted(d, size, base, m, blocks, p);
    var h :| 0 <= h < |s| && s[h] == p;
    WholeCut(p, size);
    PieceOfAll(blocks, s, i, h, p);
  }

  lemma InSorted(d: seq<byte>, size: u32, base: u32, m: nat, blocks: seq<PendingBlock>, p: Piece)
    requires Halves(d, size, m) && TwiceBlocks(blocks, size, base, m) && exists k :: 0 <= k < |blocks| && p in Own(blocks[k], false, base)
    ensures p in Sorted(blocks, false, base)
  {
    hide Product, Halves, Gathered, SortBySource, Pass1List, TwiceBlocks, Own;
    TwiceInput(d, size, base, m, blocks);
    GatheredApart(d, size, blocks, |blocks|, false, base);
    SortApart(Gathered(blocks, |blocks|, false, base));
    var k :| 0 <= k < |blocks| && p in Own(blocks[k], false, base);
    GatheredHas(blocks, |blocks|, false, base, k, p);
  }

  lemma PieceOfAll(blocks: seq<PendingBlock>, s: seq<Piece>, k: nat, h: nat, p: Piece)
    requires PieceAt(blocks, s, k, h, p)
    ensures p in AllPieces(blocks, s)
  {
    hide Cut, Meets;
  }

  ghost function Copies(size: u32, m: nat, n: nat): (ps: seq<Piece>)
    requires Product(m, size) >= 0 && forall i: nat :: i < n ==> Product(i, size) >= 0
  {
    seq(n, i requires 0 <= i < n => Copy(size, m, i))
  }

  /** Together they take at least their own length. */
  lemma CopiesDemand(d: seq<byte>, size: u32, base: u32, m: nat, blocks: seq<PendingBlock>, maximumSave: u32)
    requires Halves(d, size, m) && TwiceBlocks(blocks, size, base, m) && size < maximumSave && m < |blocks|
    ensures 60 * Demand(Savable(PendingPieces(blocks, Sorted(blocks, false, base), m), maximumSave)) >= Product(m, size)
  {
    hide Halves, TwiceBlocks, PendingPieces, Sorted, Demand, Product;
    HalvesBounds(d, size, m);
    NextProduct(m, size);
    forall i: nat | i < m ensures Product(i, size) >= 0 && Product(m, size) >= 0 {
      Ranges(d, size, m, i);
    }
    var ps := Copies(size, m, m);
    forall i, j | 0 <= i < j < |ps| ensures ps[i] != ps[j] {
      NextProduct(i, size);
      StrictProduct(i, j, size);
    }
    DistinctSize(ps);
    var all := Savable(PendingPieces(blocks, Sorted(blocks, false, base), m), maximumSave);
    forall p | p in SetOf(ps) ensures p in all && p.len == size {
      var i :| 0 <= i < |ps| && ps[i] == p;
      CopiesPending(d, size, base, m, blocks, i);
    }
    EqualDemand(SetOf(ps), size);
    MoreDemand(SetOf(ps), all);
    ChunkBytes(m, size);
  }

  lemma StrictProduct(i: nat, j: nat, size: nat)
    requires i < j && size > 0
    ensures Product(i, size) < Product(j, size)
  {
    NextProduct(i, size);
    Monotone(i + 1, j, size);
  }

  lemma EqualDemand(ps: set<Piece>, len: nat)
    requires forall p :: p in ps ==> p.len == len
    ensures Demand(ps) == Product(|ps|, ChunksFor(len))
  {
    FirstBytesSize(ps, ChunksFor(len));
    assert Slots(ps) == FirstBytes(ps, ChunksFor(len));
  }

  lemma MoreDemand(ps: set<Piece>, qs: set<Piece>)
    requires ps <= qs
    ensures Demand(ps) <= Demand(qs)
  {
    SlotsGrow(ps, qs);
    SubsetSize(Slots(ps), Slots(qs));
  }

  lemma ChunkBytes(m: nat, size: nat)
    ensures 60 * Product(m, ChunksFor(size)) >= Product(m, size)
  {
    assert 60 * (m * ChunksFor(size)) == (60 * ChunksFor(size)) * m;
    Monotone(size, 60 * ChunksFor(size), m);
  }

  /** The useful memory is less than the limit. */
  lemma UsefulBelow(memlimit: u64)
    requires memlimit >= A_BLOCK_SIZE
    ensures UsefulMemory(memlimit) < memlimit
  {
    UsefulMemoryValue(memlimit);
  }

  /** A run that stalls: blocks, decoder buffer and VM block of one size, and a memory limit no
      larger than the half of the input that comes again. In the index layout nothing else can
      happen. */
  method StalledRun(d: seq<byte>, size: u32, base: u32, m: nat, blocks: seq<PendingBlock>, memlimit: u64, maximumSave: u32)
      returns (r: Result<seq<byte>>)
    requires Halves(d, size, m) && TwiceBlocks(blocks, size, base, m) && 4 <= size < maximumSave
    requires A_BLOCK_SIZE <= memlimit <= Product(m, size)
    requires Min(UsefulMemory(memlimit) / 60 + size, ChunkBound(|d|, base)) <= MAX_USED
    ensures r == Err(Stalled)
  {
    hide Halves, TwiceBlocks, UsefulMemory, GoodInput, ChunkBound, AllPieces, Sorted, Demand, Savable, PendingPieces, AllFit, Pipeline.Overfull, TooLong, Product;
    TwiceInput(d, size, base, m, blocks);
    PiecesBound(d, size, blocks, false, base);
    CopiesLong(d, size, base, m, blocks, size);
    MiddleBlock(d, size, base, m, blocks);
    CopiesDemand(d, size, base, m, blocks, maximumSave);
    UsefulBelow(memlimit);
    OverfullIs(blocks, Sorted(blocks, false, base), m, maximumSave, UsefulMemory(memlimit));
    r := Pipeline.RoundTrip(d, size, blocks, false, base, size, false, memlimit, size, maximumSave);
  }

  lemma MiddleBlock(d: seq<byte>, size: u32, base: u32, m: nat, blocks: seq<PendingBlock>)
    requires Halves(d, size, m) && TwiceBlocks(blocks, size, base, m)
    ensures m < |blocks|
  {
  }

  lemma OverfullIs(blocks: seq<PendingBlock>, s: seq<Piece>, k: nat, maximumSave: u32, useful: nat)
    requires k < |blocks| && 60 * Demand(Savable(PendingPieces(blocks, s, k), maximumSave)) > useful
    ensures Pipeline.Overfull(blocks, s, k, maximumSave, useful)
  {
  }
}
