/** Compression in the future and index layouts followed by decompression. */
module Pipeline {
  import opened Bytes
  import opened MatchModel
  import opened ChunkStore
  import opened VirtualMemory
  import opened ChunkMemory
  import opened FutureSpec
  import opened Cutting
  import opened Compress
  import opened StoreDemand
  import opened Decompress
  import opened Lossless
  import SpillModel

  lemma OwnIsExact(d: seq<byte>, bufsize: u32, blocks: seq<PendingBlock>, round: bool, base: u32, k: nat)
    requires (round ==> base > 0) && GoodInput(d, bufsize, blocks, round, base) && k < |blocks|
    ensures OwnExactly(Own(blocks[k], round, base), Sorted(blocks, round, base), blocks[k].start, blocks[k].start + blocks[k].size)
  {
    hide GoodInput, GoodBlock, Pass1List, Belongs, Blocked;
    var g, own := Gathered(blocks, |blocks|, round, base), Own(blocks[k], round, base);
    GoodBlockAt(d, bufsize, blocks, round, base, k);
    GatheredApart(d, bufsize, blocks, |blocks|, round, base);
    SortApart(g);
    forall p | p in own ensures p in SortBySource(g) {
      GatheredHas(blocks, |blocks|, round, base, k, p);
    }
    forall p | p in SortBySource(g) && blocks[k].start <= p.dest < blocks[k].start + blocks[k].size ensures p in own {
      var j := GatheredFromOwn(blocks, |blocks|, round, base, p);
      GoodBlockAt(d, bufsize, blocks, round, base, j);
      var o := Own(blocks[j], round, base);
      var i :| 0 <= i < |o| && o[i] == p;
      OwnBelongs(d, blocks[j], round, base, i);
      OwnHome(d, bufsize, blocks, j, k, p);
    }
  }

  lemma OwnHome(d: seq<byte>, bufsize: u32, blocks: seq<PendingBlock>, j: nat, k: nat, p: Piece)
    requires Blocked(d, bufsize, blocks) && j < |blocks| && k < |blocks| && Belongs(d, blocks[j], p)
    requires blocks[k].start <= p.dest < blocks[k].start + blocks[k].size
    ensures j == k
  {
    HomeBlock(d, bufsize, blocks, j, k, p, p.dest);
  }

  /** The sorted matches with the sentinel behind them. */
  lemma SentinelOk(d: seq<byte>, bufsize: u32, blocks: seq<PendingBlock>, s: seq<Piece>, home: seq<nat>)
    requires Matches(d, bufsize, blocks, s, home) && |d| < W64
    ensures WithSentinel(s + [Piece(|d|, 0, 0)], bufsize, |d|)
  {
    MatchesBlocked(d, bufsize, blocks, s, home);
    hide Matches, Blocked;
    assert (s + [Piece(|d|, 0, 0)])[..|s|] == s;
    forall i | 0 <= i < |s| ensures MatchFits(s[i], bufsize, |d|) {
      HomeOf(d, bufsize, blocks, s, home, i);
      BlockAt(d, bufsize, blocks, home[i]);
    }
  }

  /** Decode the pass-1 lists of all blocks into one list. */
  method GatherMatches(d: seq<byte>, bufsize: u32, blocks: seq<PendingBlock>, round: bool, base: u32) returns (m: seq<Piece>)
    requires (round ==> base > 0) && GoodInput(d, bufsize, blocks, round, base)
    ensures m == Gathered(blocks, |blocks|, round, base)
  {
    hide GoodInput, GoodBlock, Pass1List, Blocked;
    m := [];
    var i := 0;
    while i < |blocks|
      invariant i <= |blocks| && m == Gathered(blocks, i, round, base)
    {
      GoodBlockAt(d, bufsize, blocks, round, base, i);
      BlockInside(d, bufsize, blocks, i);
      InputFits(d, bufsize, blocks, round, base);
      var list := DecodeList(blocks[i], round, base, d);
      m := m + list;
      i := i + 1;
    }
  }

  /** Write list and literals of one block. */
  method WriteBlock(d: seq<byte>, bufsize: u32, blocks: seq<PendingBlock>, round: bool, base: u32, m: seq<Piece>, cursor0: nat, i: nat)
      returns (w: Block, cursor: nat)
    requires (round ==> base > 0) && GoodInput(d, bufsize, blocks, round, base) && i < |blocks|
    requires m != [] && m[..|m| - 1] == Sorted(blocks, round, base) && WithSentinel(m, bufsize, |d|)
    requires cursor0 <= |m| - 1 && Behind(m, cursor0, blocks[i].start)
    ensures BlockWritten(d, blocks[i], Own(blocks[i], round, base), Sorted(blocks, round, base), w)
    ensures cursor <= |m| - 1 && (i + 1 < |blocks| ==> Behind(m, cursor, blocks[i + 1].start))
  {
    hide GoodInput, GoodBlock, Pass1List, Blocked, WithSentinel, Behind, Decodes, OwnExactly, CutList, FutureList, Sorted;
    GoodBlockAt(d, bufsize, blocks, round, base, i);
    BlockInside(d, bufsize, blocks, i);
    BlockAt(d, bufsize, blocks, i);
    InputFits(d, bufsize, blocks, round, base);
    OwnIsExact(d, bufsize, blocks, round, base, i);
    GoodBlockParts(d, blocks[i], round, base);
    var b := blocks[i];
    var list;
    list, cursor := EncodeBlock(m, cursor0, b.start, b.start + b.size, bufsize, |d|);
    var lits := ExtractLiterals(d[b.start..b.start + b.size], b.stats, round, base, d, b.start);
    w := Block(b.size, list, lits);
    if i + 1 < |blocks| { BlockAt(d, bufsize, blocks, i + 1); }
  }

  /** Write lists and literals of all blocks. */
  method WriteBlocks(d: seq<byte>, bufsize: u32, blocks: seq<PendingBlock>, round: bool, base: u32, m: seq<Piece>)
      returns (written: seq<Block>, ghost own: seq<seq<Piece>>)
    requires (round ==> base > 0) && GoodInput(d, bufsize, blocks, round, base) && (blocks != [] ==> blocks[0].start == 0)
    requires m != [] && m[..|m| - 1] == Sorted(blocks, round, base) && WithSentinel(m, bufsize, |d|)
    ensures |written| == |own| == |blocks| && forall k :: 0 <= k < |blocks| ==> own[k] == Own(blocks[k], round, base)
    ensures forall k {:trigger BlockWritten(d, blocks[k], own[k], m[..|m| - 1], written[k])} :: 0 <= k < |blocks| ==>
              BlockWritten(d, blocks[k], own[k], m[..|m| - 1], written[k])
  {
    hide GoodInput, WithSentinel, Behind, BlockWritten, Sorted, Own;
    ghost var s := m[..|m| - 1];
    written, own := [], [];
    var cursor: nat, i := 0, 0;
    BehindNone(m);
    while i < |blocks|
      invariant i <= |blocks| && |written| == |own| == i && cursor <= |m| - 1
      invariant forall k :: 0 <= k < i ==> own[k] == Own(blocks[k], round, base)
      invariant i < |blocks| ==> Behind(m, cursor, blocks[i].start)
      invariant forall k {:trigger BlockWritten(d, blocks[k], own[k], s, written[k])} :: 0 <= k < i ==> BlockWritten(d, blocks[k], own[k], s, written[k])
    {
      var w;
      w, cursor := WriteBlock(d, bufsize, blocks, round, base, m, cursor, i);
      written, own := written + [w], own + [Own(blocks[i], round, base)];
      i := i + 1;
    }
  }

  /** Pass 2: decode and sort the matches, then write each block's list and literals. */
  method CompressFuture(d: seq<byte>, bufsize: u32, blocks: seq<PendingBlock>, round: bool, base: u32) returns (ar: Archive)
    requires (round ==> base > 0) && GoodInput(d, bufsize, blocks, round, base)
    ensures ar.WellFormed() && ar.Describes(d, |ar.blocks|)
    ensures NoLonger(ar.Listed(|ar.blocks|), Gathered(blocks, |blocks|, round, base))
    ensures ar.Listed(|ar.blocks|) <= AllPieces(blocks, Sorted(blocks, round, base))
    ensures |ar.blocks| == |blocks| && ar.PendingAt(|ar.blocks|) == {}
    ensures ar.Lists(|ar.blocks|) == PieceLists(blocks, Sorted(blocks, round, base)) && ar.Ends(|ar.blocks|) == BlockEnds(blocks)
    ensures forall k :: 0 <= k < |blocks| ==> PendingPieces(blocks, Sorted(blocks, round, base), k) == ar.PendingAt(k)
    ensures forall decBuf: u64, inlineLists :: ar.Fits(decBuf, inlineLists) <==> AllFit(blocks, round, base, decBuf, inlineLists)
  {
    hide GoodInput, WithSentinel, Behind, BlockWritten, Archive.WellFormed, Archive.Describes, Matches, Pass1List, AllPieces, AllFit, Archive.Fits, Own, PendingPieces,
      Archive.PendingAt, NoLonger, Gathered, Archive.Lists, Archive.Ends, PieceLists, BlockEnds;
    InputFits(d, bufsize, blocks, round, base);
    var m := GatherMatches(d, bufsize, blocks, round, base);
    m := SortBySource(m);
    ghost var s := m;
    ghost var home := SortedMatches(d, bufsize, blocks, round, base);
    SentinelOk(d, bufsize, blocks, s, home);
    m := m + [Piece(|d|, 0, 0)];
    assert m[..|m| - 1] == s;
    var written;
    ghost var own;
    written, own := WriteBlocks(d, bufsize, blocks, round, base, m);
    ar := Archive(false, 0, written);
    ArchiveWellFormed(d, bufsize, blocks, own, s, home, ar);
    ArchiveDescribes(d, bufsize, blocks, own, s, home, ar, |ar.blocks|);
    assert d[..|d|] == d;
    ListedLengths(d, bufsize, blocks, round, base, own, s, home, ar);
    ListedWithin(d, bufsize, blocks, own, s, home, ar);
    NonePending(d, bufsize, blocks, own, s, home, ar);
    AllPending(d, bufsize, blocks, own, s, home, ar);
    ListsWritten(d, bufsize, blocks, own, s, home, ar);
    AllSizes(d, blocks, round, base, own, ar);
  }

  lemma AllPending(d: seq<byte>, bufsize: u32, blocks: seq<PendingBlock>, own: seq<seq<Piece>>, s: seq<Piece>, home: seq<nat>, ar: Archive)
    requires Produced(d, bufsize, blocks, own, s, home, ar) && ar.WellFormed() && |ar.blocks| == |blocks|
    ensures forall k :: 0 <= k < |blocks| ==> PendingPieces(blocks, s, k) == ar.PendingAt(k)
  {
    hide Produced, Archive.WellFormed, PendingPieces, Archive.PendingAt;
    forall k | 0 <= k < |blocks| ensures PendingPieces(blocks, s, k) == ar.PendingAt(k) {
      PendingWithin(d, bufsize, blocks, own, s, home, ar, k);
    }
  }

  lemma AllSizes(d: seq<byte>, blocks: seq<PendingBlock>, round: bool, base: u32, own: seq<seq<Piece>>, ar: Archive)
    requires (round ==> base > 0) && PassTwo(d, blocks, own, Sorted(blocks, round, base), ar)
    requires forall k :: 0 <= k < |blocks| ==> own[k] == Own(blocks[k], round, base)
    ensures forall decBuf: u64, inlineLists :: ar.Fits(decBuf, inlineLists) <==> AllFit(blocks, round, base, decBuf, inlineLists)
  {
    hide AllFit, Archive.Fits, BlockWritten, Sorted, Own;
    forall decBuf: u64, inlineLists ensures ar.Fits(decBuf, inlineLists) <==> AllFit(blocks, round, base, decBuf, inlineLists) {
      ArchiveFits(d, blocks, round, base, own, ar, decBuf, inlineLists);
    }
  }

  lemma BehindNone(m: seq<Piece>)
    ensures Behind(m, 0, 0)
  {
  }

  lemma InputFits(d: seq<byte>, bufsize: u32, blocks: seq<PendingBlock>, round: bool, base: u32)
    requires GoodInput(d, bufsize, blocks, round, base)
    ensures |d| <= W64 - W32 && Blocked(d, bufsize, blocks) && (blocks != [] ==> blocks[0].start == 0)
  {
    if blocks != [] { BlockAt(d, bufsize, blocks, 0); }
  }

  lemma GoodBlockParts(d: seq<byte>, b: PendingBlock, round: bool, base: u32)
    requires (round ==> base > 0) && GoodBlock(d, b, round, base)
    ensures LengthsFit(b.stats, round, base) && GoodList(d, b.start, b.start + b.size, Own(b, round, base))
  {
  }

  /** None of the pieces is longer than the longest match. */
  ghost predicate NoLonger(ps: set<Piece>, ms: seq<Piece>) {
    forall p :: p in ps ==> exists m :: m in ms && p.len <= m.len
  }

  lemma ListedLengths(d: seq<byte>, bufsize: u32, blocks: seq<PendingBlock>, round: bool, base: u32,
      own: seq<seq<Piece>>, s: seq<Piece>, home: seq<nat>, ar: Archive)
    requires (round ==> base > 0) && GoodInput(d, bufsize, blocks, round, base) && s == Sorted(blocks, round, base)
    requires Produced(d, bufsize, blocks, own, s, home, ar) && ar.WellFormed()
    ensures NoLonger(ar.Listed(|ar.blocks|), Gathered(blocks, |blocks|, round, base))
  {
    hide GoodInput, Produced, Archive.WellFormed, Pass1List;
    var g := Gathered(blocks, |blocks|, round, base);
    GatheredApart(d, bufsize, blocks, |blocks|, round, base);
    SortApart(g);
    forall p | p in ar.Listed(|ar.blocks|) ensures exists m :: m in g && p.len <= m.len {
      var k, i := ListedPiece(d, bufsize, blocks, own, s, home, ar, |ar.blocks|, p);
      assert s[i] in s && s[i] in g;
    }
  }

  /** The whole way: whatever the memory limit, the VM block size and `maximumSave`, decoding
      what was compressed gives the input back when every block is within the driver's limits
      for its buffer, and is refused when one is not; or it stalls, which cannot happen when the
      memory holds a VM block and every match fits one. With the lists in the index, a buffer of
      the compressor's size is always enough. The memory limit matters only to inputs so long
      that chunk numbers might run out. */
  method RoundTrip(d: seq<byte>, bufsize: u32, blocks: seq<PendingBlock>, round: bool, base: u32,
      decBuf: u64, inlineLists: bool, memlimit: u64, vmBlock: nat, maximumSave: u32) returns (r: Result<seq<byte>>)
    requires (round ==> base > 0) && GoodInput(d, bufsize, blocks, round, base)
    requires vmBlock >= 4 && Room(UsefulMemory(memlimit) / 60 + vmBlock, AllPieces(blocks, Sorted(blocks, round, base)))
    ensures r == Err(Stalled) || r == if AllFit(blocks, round, base, decBuf, inlineLists) then Ok(d) else Err(TooLarge)
    ensures !inlineLists && bufsize <= decBuf ==> r == Ok(d) || r == Err(Stalled)
    // Whether it stalls can be worked out from destinations and lengths before decoding.
    ensures AllFit(blocks, round, base, decBuf, inlineLists) ==>
              (r == Err(Stalled) <==> Stalls(blocks, round, base, maximumSave, SpillModel.Limits(UsefulMemory(memlimit), vmBlock)))
    // Without room for what must wait, and no way to spill it, decoding does stall.
    ensures memlimit >= A_BLOCK_SIZE && TooLong(AllPieces(blocks, Sorted(blocks, round, base)), vmBlock)
            && (exists k :: 0 <= k < |blocks| && Overfull(blocks, Sorted(blocks, round, base), k, maximumSave, UsefulMemory(memlimit)))
            ==> r.Err?
    // And with room for all that must wait it does not, whatever the size of a VM block.
    ensures NoneOverfull(blocks, round, base, maximumSave, UsefulMemory(memlimit)) ==> r != Err(Stalled)
    ensures vmBlock <= UsefulMemory(memlimit) && (forall m :: m in Gathered(blocks, |blocks|, round, base) ==> 24 + m.len <= vmBlock)
            ==> r != Err(Stalled)
  {
    hide GoodInput, Gathered, Archive.WellFormed, Archive.Describes, UsefulMemory, Demand, AllFit, Archive.Fits, AllPieces, Sorted, Room,
      TooLong, Overfull, HeldFits, PendingPieces, Archive.PendingAt, Archive.Lists, Archive.Ends, PieceLists, BlockEnds, SpillModel.Blocks;
    var ar := CompressFuture(d, bufsize, blocks, round, base);
    InputFits(d, bufsize, blocks, round, base);
    RoomLess(UsefulMemory(memlimit) / 60 + vmBlock, AllPieces(blocks, Sorted(blocks, round, base)), ar.Listed(|ar.blocks|));
    if !inlineLists && bufsize <= decBuf { IndexFits(d, bufsize, blocks, round, base, decBuf); }
    ghost var s := Sorted(blocks, round, base);
    ghost var long := memlimit >= A_BLOCK_SIZE && TooLong(AllPieces(blocks, s), vmBlock);
    if long { ListedLong(vmBlock, AllPieces(blocks, s), ar.Listed(|ar.blocks|)); }
    if NoneOverfull(blocks, round, base, maximumSave, UsefulMemory(memlimit)) {
      forall k | 0 <= k <= |blocks| ensures HeldFits(ar, k, maximumSave, UsefulMemory(memlimit)) {
        if k < |blocks| {
          OverfullIff(blocks, s, ar, k, maximumSave, UsefulMemory(memlimit));
        } else {
          NoneHeld(ar, maximumSave, UsefulMemory(memlimit));
        }
      }
    }
    ghost var taken, reread;
    r, taken, reread := Decompress.Decompress(ar, decBuf, inlineLists, memlimit, vmBlock, maximumSave);
    if r.Ok? {
      ar.DescribesUnique(r.value, d, |ar.blocks|);
      if long {
        forall k | 0 <= k < |blocks| ensures !Overfull(blocks, s, k, maximumSave, UsefulMemory(memlimit)) {
          OverfullIff(blocks, s, ar, k, maximumSave, UsefulMemory(memlimit));
        }
      }
    }
  }

  /** The memory machine stalls on the lists that pass 2 writes. */
  ghost predicate Stalls(blocks: seq<PendingBlock>, round: bool, base: u32, maximumSave: u32, lim: SpillModel.Limits)
    requires round ==> base > 0
  {
    SpillModel.Blocks(PieceLists(blocks, Sorted(blocks, round, base)), BlockEnds(blocks), maximumSave, lim).None?
  }

  /** The bytes that must wait across the start of block `k` exceed the useful memory. */
  ghost predicate Overfull(blocks: seq<PendingBlock>, s: seq<Piece>, k: nat, maximumSave: u32, useful: nat)
    requires k < |blocks|
  {
    !Ample(Savable(PendingPieces(blocks, s, k), maximumSave), useful)
  }

  /** At no block do they. */
  ghost predicate NoneOverfull(blocks: seq<PendingBlock>, round: bool, base: u32, maximumSave: u32, useful: nat)
    requires round ==> base > 0
  {
    forall k :: 0 <= k < |blocks| ==> !Overfull(blocks, Sorted(blocks, round, base), k, maximumSave, useful)
  }

  lemma OverfullIff(blocks: seq<PendingBlock>, s: seq<Piece>, ar: Archive, k: nat, maximumSave: u32, useful: nat)
    requires ar.WellFormed() && k < |blocks| == |ar.blocks| && PendingPieces(blocks, s, k) == ar.PendingAt(k)
    ensures HeldFits(ar, k, maximumSave, useful) <==> !Overfull(blocks, s, k, maximumSave, useful)
  {
    hide Archive.WellFormed, Archive.PendingAt, PendingPieces, Ample, Savable;
  }

  lemma NoneHeld(ar: Archive, maximumSave: u32, useful: nat)
    requires ar.WellFormed() && ar.PendingAt(|ar.blocks|) == {}
    ensures HeldFits(ar, |ar.blocks|, maximumSave, useful)
  {
    hide Archive.WellFormed, Archive.PendingAt;
    assert Savable({}, maximumSave) == {} && Slots({}) == {};
  }

  lemma ListedLong(vs: nat, all: set<Piece>, ps: set<Piece>)
    requires TooLong(all, vs) && ps <= all
    ensures TooLong(ps, vs)
  {
  }
}
