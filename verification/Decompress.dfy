/** The block loop of the decoder for the future and index layouts, and what an archive as a whole means. */
module Decompress {
  import opened Bytes
  import opened MatchModel
  import opened ChunkMemory
  import opened ChunkStore
  import opened MatchStore
  import opened MatchHeap
  import opened PendingModel
  import opened StoreDemand
  import opened VirtualMemory
  import opened FutureSpec
  import opened FutureDecoder
  import opened BlockLimits
  import SpillModel
  import HeapItems

  /** A block of an archive: its size in the output, its match list and its literals. */
  datatype Block = Block(size: u32, stat: seq<u32>, literals: seq<byte>) {
    /** The driver refuses the block; in the index layout the list is stored apart from it. */
    predicate TooLarge(bufsize: u64, inlineLists: bool) {
      Oversized(size, if inlineLists then 4 * |stat| else 0, |literals|, bufsize)
    }
  }

  /** The archive's blocks, with the record format they share. */
  datatype Archive = Archive(round: bool, l: u32, blocks: seq<Block>) {
    ghost predicate FormatOk() { round ==> l > 0 }

    /** The driver refuses none of the blocks. */
    ghost predicate Fits(bufsize: u64, inlineLists: bool) {
      forall k :: 0 <= k < |blocks| ==> !blocks[k].TooLarge(bufsize, inlineLists)
    }

    /** Where block `k` starts in the output. */
    ghost function Start(k: nat): nat
      requires k <= |blocks|
    {
      if k == 0 then 0 else Start(k - 1) + blocks[k - 1].size
    }

    ghost function List(k: nat): seq<Piece>
      requires k < |blocks| && Start(k) <= U64_MAX && FormatOk()
    {
      FutureList(blocks[k].stat, round, l, Start(k))
    }

    /** Total size in range, lengths positive, destinations distinct. */
    ghost predicate WellFormed() {
      && FormatOk() && Start(|blocks|) < U64_MAX
      && (forall k :: 0 <= k <= |blocks| ==> Start(k) <= Start(|blocks|))
      && (forall k, i :: 0 <= k < |blocks| && 0 <= i < |List(k)| ==> List(k)[i].len > 0 && List(k)[i].dest < U64_MAX)
      && (forall k, i, m, j :: 0 <= k < |blocks| && 0 <= i < |List(k)| && 0 <= m < |blocks| && 0 <= j < |List(m)| && (k != m || i != j) ==>
            List(k)[i].dest != List(m)[j].dest)
    }

    /** Lists and ends of the blocks before `k`. */
    ghost function Lists(k: nat): (ls: seq<seq<Piece>>)
      requires k <= |blocks| && WellFormed()
    {
      seq(k, i requires 0 <= i < k => List(i))
    }

    ghost function Ends(k: nat): (es: seq<nat>)
      requires k <= |blocks|
    {
      seq(k, i requires 0 <= i < k => Start(i + 1))
    }

    /** What is in memory and what is spilled after the blocks before `k`; none when decoding stalls. */
    ghost function Memory(k: nat, maximumSave: u32, lim: SpillModel.Limits): Option<seq<SpillModel.Item>>
      requires k <= |blocks| && WellFormed()
    {
      SpillModel.Blocks(Lists(k), Ends(k), maximumSave, lim)
    }

    lemma MemoryNone(maximumSave: u32, lim: SpillModel.Limits)
      requires WellFormed()
      ensures Memory(0, maximumSave, lim) == Some([])
    {
    }

    lemma MemoryNext(k: nat, maximumSave: u32, lim: SpillModel.Limits)
      requires k < |blocks| && WellFormed()
      ensures Memory(k, maximumSave, lim).Some? ==>
                Memory(k + 1, maximumSave, lim) == SpillModel.Block(Memory(k, maximumSave, lim).value, List(k), Start(k + 1), maximumSave, lim)
    {
      hide WellFormed, List;
      assert Lists(k + 1)[..k] == Lists(k) && Ends(k + 1)[..k] == Ends(k);
    }

    lemma MemoryStalled(k: nat, maximumSave: u32, lim: SpillModel.Limits)
      requires k <= |blocks| && WellFormed() && Memory(k, maximumSave, lim).None?
      ensures Memory(|blocks|, maximumSave, lim).None?
    {
      hide WellFormed, List;
      var n := |blocks|;
      assert Lists(n)[..k] == Lists(k) && Ends(n)[..k] == Ends(k);
      SpillModel.BlocksStalled(Lists(n), Ends(n), k, maximumSave, lim);
    }

    /** The matches listed in the blocks before `k`. */
    ghost function Listed(k: nat): set<Piece>
      requires k <= |blocks| && WellFormed()
    {
      if k == 0 then {} else Listed(k - 1) + SetOf(List(k - 1))
    }

    /** Those with destination in block `k` or later. */
    ghost function PendingAt(k: nat): set<Piece>
      requires k <= |blocks| && WellFormed()
    {
      set p | p in Listed(k) && p.dest >= Start(k)
    }

    /** Those of all lists up to block `k` with destination in block `k`. */
    ghost function DueAt(k: nat): set<Piece>
      requires k < |blocks| && WellFormed()
    {
      set p | p in Listed(k + 1) && Start(k) <= p.dest < Start(k + 1)
    }

    /** Block `k`'s list and the layout of the matches due in it are in order. */
    ghost predicate BlockOk(k: nat)
      requires k < |blocks| && WellFormed()
    {
      && ListOk(List(k), Start(k), Start(k + 1))
      && Layout(DueAt(k), Start(k), Start(k + 1), |blocks[k].literals|)
    }

    /** `out` is what the first `n` blocks describe. */
    ghost predicate Describes(out: seq<byte>, n: nat)
      requires n <= |blocks| && WellFormed()
      decreases n
    {
      && |out| == Start(n)
      && (n > 0 ==>
            && BlockOk(n - 1)
            && Decodes(out, Start(n - 1), DueAt(n - 1), blocks[n - 1].literals)
            && Describes(out[..Start(n - 1)], n - 1))
    }

    /** An archive describes at most one output. */
    lemma {:induction false} DescribesUnique(v: seq<byte>, w: seq<byte>, n: nat)
      requires n <= |blocks| && WellFormed() && Describes(v, n) && Describes(w, n)
      ensures v == w
      decreases n
    {
      if n > 0 {
        DescribesUnique(v[..Start(n - 1)], w[..Start(n - 1)], n - 1);
        DecodesUnique(v, w, Start(n - 1), DueAt(n - 1), blocks[n - 1].literals);
      }
    }

    /** Whatever the first `n` blocks describe, each of them is in order. */
    lemma {:induction false} DescribesBlocks(v: seq<byte>, n: nat, k: nat)
      requires k < n <= |blocks| && WellFormed() && Describes(v, n)
      ensures BlockOk(k)
      decreases n
    {
      hide WellFormed, BlockOk, Decodes;
      if k < n - 1 { DescribesBlocks(v[..Start(n - 1)], n - 1, k); }
    }

    lemma {:induction false} StartMonotone(j: nat, k: nat)
      requires j <= k <= |blocks|
      ensures Start(j) <= Start(k)
      decreases k
    {
      if j < k { StartMonotone(j, k - 1); }
    }

    lemma {:induction false} ListedIn(k: nat, p: Piece) returns (m: nat, i: nat)
      requires k <= |blocks| && WellFormed() && p in Listed(k)
      ensures m < k && i < |List(m)| && List(m)[i] == p
    {
      if p in SetOf(List(k - 1)) {
        m := k - 1;
        i :| 0 <= i < |List(m)| && List(m)[i] == p;
      } else {
        m, i := ListedIn(k - 1, p);
      }
    }

    /** Block `k`'s list is fresh with respect to what is pending before it. */
    lemma FreshAt(k: nat, a: PendingMap)
      requires k < |blocks| && WellFormed() && PieceSet(a) == PendingAt(k) && forall x :: x in a ==> a[x].piece.dest == x
      ensures ListFresh(a, List(k))
    {
      forall i | 0 <= i < |List(k)| ensures List(k)[i].dest !in a {
        var x := List(k)[i].dest;
        if x in a {
          assert a[x].piece in PieceSet(a);
          var m, j := ListedIn(k, a[x].piece);
        }
      }
    }

    /** The decoder's due matches are those of the specification. */
    lemma DueMatches(k: nat, a: PendingMap)
      requires k < |blocks| && WellFormed() && PieceSet(a) == PendingAt(k) && forall x :: x in a ==> a[x].piece.dest == x
      requires ListOk(List(k), Start(k), Start(k + 1))
      ensures Due(a, List(k), Start(k + 1)) == DueAt(k)
    {
      SourcesFrom(List(k), Start(k), Start(k + 1));
      DueSet(a, List(k), Listed(k), Start(k), Start(k + 1));
      hide WellFormed, ListOk, FutureList, PieceSet, Due;
    }

    lemma LaterMatches(k: nat, a: PendingMap)
      requires k < |blocks| && WellFormed() && PieceSet(a) == PendingAt(k) && forall x :: x in a ==> a[x].piece.dest == x
      ensures Later(a, List(k), Start(k + 1)) == PendingAt(k + 1)
    {
      var later := Later(a, List(k), Start(k + 1));
      forall p | p in later ensures p in PendingAt(k + 1) {
        if p in List(k) {
          assert p in SetOf(List(k));
        } else {
          var x :| x in a && x >= Start(k + 1) && a[x].piece == p;
          assert p in PieceSet(a);
        }
      }
      forall p | p in PendingAt(k + 1) ensures p in later {
        if p !in SetOf(List(k)) {
          assert p in PieceSet(a);
          var x :| x in a && a[x].piece == p;
        }
      }
    }

    lemma {:induction false} ListedMonotone(j: nat, k: nat)
      requires j <= k <= |blocks| && WellFormed()
      ensures Listed(j) <= Listed(k)
    {
      if j < k { ListedMonotone(j, k - 1); }
    }
  }

  const MIB := 0x10_0000

  lemma DueSet(a: PendingMap, ps: seq<Piece>, listed: set<Piece>, lo: nat, hi: nat)
    requires PieceSet(a) == (set p | p in listed && p.dest >= lo) && forall x :: x in a ==> a[x].piece.dest == x
    requires forall p :: p in ps ==> lo <= p.src < p.dest
    ensures Due(a, ps, hi) == set p | p in listed + SetOf(ps) && lo <= p.dest < hi
  {
    var due, all := Due(a, ps, hi), set p | p in listed + SetOf(ps) && lo <= p.dest < hi;
    forall p | p in due ensures p in all {
      if p in ps {
        assert p in SetOf(ps);
      } else {
        var x :| x in a && x < hi && a[x].piece == p;
        assert p in PieceSet(a);
      }
    }
    forall p | p in all ensures p in due {
      if p !in SetOf(ps) {
        assert p in PieceSet(a);
        var x :| x in a && a[x].piece == p;
      }
    }
  }

  /** The memory given to the match store, from the total memory and the buffer sizes. */
  function MemoryLimit(vmMem: u64, vmBlock: u64, bufsize: u64): (limit: nat)
    ensures limit >= vmBlock * 4
  {
    var ioMem := vmBlock + bufsize + CompBufSize(bufsize) + 8 * MIB;
    if vmMem >= ioMem + vmBlock * 4 then vmMem - ioMem else vmBlock * 4
  }

  /** A VM block always fits the memory the decoder works with: from one MiB of limit on because
      the limit is at least four VM blocks, and below because the useful memory wraps. */
  lemma UsefulCoversBlock(vmMem: u64, vmBlock: u64, bufsize: u64)
    requires MemoryLimit(vmMem, vmBlock, bufsize) <= U64_MAX
    ensures vmBlock <= UsefulMemory(MemoryLimit(vmMem, vmBlock, bufsize))
  {
    var limit := MemoryLimit(vmMem, vmBlock, bufsize);
    UsefulMemoryValue(limit);
    if limit >= MIB {
      var n := limit / MIB;
      assert n * MIB > limit - MIB;
      assert n >= 1;
    }
  }

  /** The cause of a stall, for a whole archive. */
  ghost predicate ArchiveStall(ar: Archive, vs: nat, useful: nat)
    requires ar.WellFormed()
  {
    StallCause(ar.Listed(|ar.blocks|), vs, useful)
  }

  lemma StallOfBlock(ar: Archive, k: nat, a: PendingMap, vs: nat, useful: nat)
    requires ar.WellFormed() && k < |ar.blocks| && PieceSet(a) == ar.PendingAt(k)
    requires StallCause(PieceSet(a) + SetOf(ar.List(k)), vs, useful)
    ensures ArchiveStall(ar, vs, useful)
  {
    ar.ListedMonotone(k + 1, |ar.blocks|);
    if useful >= vs {
      var p :| p in PieceSet(a) + SetOf(ar.List(k)) && vs < 24 + p.len;
      assert p in ar.Listed(k + 1);
    }
  }

  lemma PendingKeys(a: PendingMap, d: seq<byte>, maximumSave: u32)
    requires PendingOk(a, d, maximumSave)
    ensures forall x :: x in a ==> a[x].piece.dest == x
  {
    forall x | x in a ensures a[x].piece.dest == x {
      assert KeyOk(a[x], x);
    }
  }

  /** Decoder state between blocks: `backend` is what the first `k` blocks describe, and the
      matches pending are those listed in them with destination still to come. */
  ghost predicate Between(ar: Archive, k: nat, backend: seq<byte>, a: PendingMap, maximumSave: u32)
    requires ar.WellFormed() && k <= |ar.blocks|
  {
    && ar.Describes(backend, k)
    && PieceSet(a) == ar.PendingAt(k)
    && PendingOk(a, backend, maximumSave) && KeysFrom(a, ar.Start(k))
  }

  lemma FreshBlock(ar: Archive, k: nat, backend: seq<byte>, a: PendingMap, maximumSave: u32)
    requires ar.WellFormed() && k < |ar.blocks| && Between(ar, k, backend, a, maximumSave)
    ensures |backend| == ar.Start(k) && ListFresh(a, ar.List(k)) && PendingOk(a, backend, maximumSave) && KeysFrom(a, ar.Start(k))
    ensures ar.Start(k) + ar.blocks[k].size == ar.Start(k + 1) < U64_MAX
    ensures PieceSet(a) == ar.PendingAt(k) && forall x :: x in a ==> a[x].piece.dest == x
    ensures ar.FormatOk()
  {
    PendingKeys(a, backend, maximumSave);
    ar.FreshAt(k, a);
    ar.StartMonotone(k + 1, |ar.blocks|);
  }

  lemma BlockAccepted(ar: Archive, k: nat, backend: seq<byte>, a: PendingMap, out: seq<byte>, b: PendingMap, maximumSave: u32)
    requires ar.WellFormed() && k < |ar.blocks| && Between(ar, k, backend, a, maximumSave)
    requires |out| == ar.blocks[k].size
    requires var hi := ar.Start(k + 1);
             && ListOk(ar.List(k), ar.Start(k), hi)
             && Layout(Due(a, ar.List(k), hi), ar.Start(k), hi, |ar.blocks[k].literals|)
             && Decodes(backend + out, ar.Start(k), Due(a, ar.List(k), hi), ar.blocks[k].literals)
             && PieceSet(b) == Later(a, ar.List(k), hi)
             && PendingOk(b, backend + out, maximumSave) && KeysFrom(b, hi)
    ensures Between(ar, k + 1, backend + out, b, maximumSave)
  {
    hide Archive.WellFormed, Decodes, Layout, ListOk, Due, Later, PendingOk, KeysFrom, Archive.DueAt, Archive.PendingAt;
    PendingKeys(a, backend, maximumSave);
    ar.DueMatches(k, a);
    ar.LaterMatches(k, a);
    assert (backend + out)[..ar.Start(k)] == backend;
  }

  lemma BlockRejected(ar: Archive, k: nat, backend: seq<byte>, a: PendingMap, maximumSave: u32)
    requires ar.WellFormed() && k < |ar.blocks| && Between(ar, k, backend, a, maximumSave)
    requires var hi := ar.Start(k + 1);
             !(ListOk(ar.List(k), ar.Start(k), hi) && Layout(Due(a, ar.List(k), hi), ar.Start(k), hi, |ar.blocks[k].literals|))
    ensures forall v :: !ar.Describes(v, |ar.blocks|)
  {
    FreshBlock(ar, k, backend, a, maximumSave);
    hide Archive.WellFormed, Layout, ListOk, Due, PendingOk, KeysFrom, Archive.DueAt, Archive.PendingAt, Archive.Describes;
    PendingKeys(a, backend, maximumSave);
    if ListOk(ar.List(k), ar.Start(k), ar.Start(k + 1)) {
      ar.DueMatches(k, a);
    }
    forall v ensures !ar.Describes(v, |ar.blocks|) {
      if ar.Describes(v, |ar.blocks|) { ar.DescribesBlocks(v, |ar.blocks|, k); }
    }
  }

  lemma BetweenStart(ar: Archive, maximumSave: u32)
    requires ar.WellFormed()
    ensures Between(ar, 0, [], map[], maximumSave)
  {
  }

  /** Between two blocks, the storage included. */
  ghost predicate DecoderAt(ar: Archive, k: nat, backend: seq<byte>, mm: MemoryManager, vm: VirtualMemoryManager, heap: LzMatchHeap, maximumSave: u32)
    requires ar.WellFormed() && k <= |ar.blocks|
    reads mm, vm, heap
  {
    && vm.State(mm, heap) && mm.usedChunks <= mm.usefulMemory / 60 + vm.vmblockSize
    && Between(ar, k, backend, vm.PendingMatches(mm), maximumSave)
  }

  /** Test the sizes of block `k`, decode it, and append it to the output. */
  method DecodeBlock(ar: Archive, k: nat, backend: seq<byte>, bufsize: u64, inlineLists: bool,
      mm: MemoryManager, vm: VirtualMemoryManager, heap: LzMatchHeap, maximumSave: u32) returns (r: Result<seq<byte>>)
    requires ar.WellFormed() && k < |ar.blocks| && DecoderAt(ar, k, backend, mm, vm, heap, maximumSave)
    requires Room(mm.usefulMemory / 60 + vm.vmblockSize, ar.Listed(|ar.blocks|))
    modifies mm, vm, vm.vmbuf, heap
    ensures match r
            case Ok(v) => DecoderAt(ar, k + 1, v, mm, vm, heap, maximumSave) && !ar.blocks[k].TooLarge(bufsize, inlineLists)
            case Err(TooLarge) => ar.blocks[k].TooLarge(bufsize, inlineLists)
            case Err(Broken) => forall v :: !ar.Describes(v, |ar.blocks|)
            case Err(e) => e == Stalled && ArchiveStall(ar, vm.vmblockSize, mm.usefulMemory)
    ensures r.Ok? ==> vm.totalRead >= old(vm.totalRead)
    ensures r.Ok? && old(vm.layout) == map[] && TooLong(ar.Listed(|ar.blocks|), vm.vmblockSize) ==>
              vm.layout == map[] && vm.totalRead == old(vm.totalRead)
    ensures old(vm.layout) == map[] && HeldFits(ar, k + 1, maximumSave, mm.usefulMemory) ==>
              r != Err(Stalled) && (r.Ok? ==> vm.layout == map[])
    ensures var after := SpillModel.Block(old(vm.Stock(heap)), ar.List(k), ar.Start(k + 1), maximumSave, vm.MemoryLimits(mm));
            (r.Ok? ==> after == Some(vm.Stock(heap))) && (r == Err(Stalled) ==> after.None?)
    ensures r.Ok? && vm.totalRead == old(vm.totalRead) ==> forall memlimit: u64 :: old(mm.WithinLimit(memlimit)) ==> mm.WithinLimit(memlimit)
  {
    hide Archive.WellFormed, Archive.Describes, Consistent, Inv, MarksOk, FileOk, Barred, ListOk, ListFresh, Layout, Decodes, PendingOk, KeysFrom,
      Between, Due, Later, PieceSet, StallCause, ArchiveStall, Archive.PendingAt, Room, MemoryManager.WithinLimit, VirtualMemoryManager.State,
      TooLong, HeldFits, LaterFits, VirtualMemoryManager.Stock, SpillModel.Block;
    var b := ar.blocks[k];
    if b.TooLarge(bufsize, inlineLists) {
      return Err(TooLarge);
    }
    ghost var a := vm.PendingMatches(mm);
    FreshBlock(ar, k, backend, a, maximumSave);
    RoomForBlock(mm.usefulMemory / 60 + vm.vmblockSize, ar, k, a);
    if TooLong(ar.Listed(|ar.blocks|), vm.vmblockSize) { LongForBlock(vm.vmblockSize, ar, k, a); }
    HeldNext(ar, k, a, maximumSave, mm.usefulMemory);
    var out := new byte[b.size](_ => 0);
    var ok := DecompressFutureLz(ar.round, ar.l, backend, |backend|, b.stat, b.literals, out, mm, vm, heap, maximumSave);
    if ok.Err? {
      StallOfBlock(ar, k, a, vm.vmblockSize, mm.usefulMemory);
      return Err(ok.error);
    }
    if !ok.value {
      BlockRejected(ar, k, backend, a, maximumSave);
      return Err(Broken);
    }
    BlockAccepted(ar, k, backend, a, out[..], vm.PendingMatches(mm), maximumSave);
    r := Ok(backend + out[..]);
  }

  /** What must fit after block `k` is what will then be pending. */
  lemma HeldNext(ar: Archive, k: nat, a: PendingMap, maximumSave: u32, useful: nat)
    requires ar.WellFormed() && k < |ar.blocks| && PieceSet(a) == ar.PendingAt(k) && forall x :: x in a ==> a[x].piece.dest == x
    requires ar.Start(k) <= U64_MAX
    ensures HeldFits(ar, k + 1, maximumSave, useful) == LaterFits(a, ar.List(k), ar.Start(k + 1), maximumSave, useful)
  {
    hide Archive.WellFormed, Archive.PendingAt, PieceSet, Ample, Savable, Later;
    ar.LaterMatches(k, a);
  }

  lemma PiecesOfBlock(ar: Archive, k: nat, a: PendingMap)
    requires ar.WellFormed() && k < |ar.blocks| && PieceSet(a) == ar.PendingAt(k)
    ensures PieceSet(a) + SetOf(ar.List(k)) <= ar.Listed(|ar.blocks|)
  {
    hide Archive.WellFormed, Archive.Listed, Archive.PendingAt, Archive.List, PieceSet, SetOf;
    ListedNext(ar, k);
    ar.ListedMonotone(k + 1, |ar.blocks|);
  }

  lemma ListedNext(ar: Archive, k: nat)
    requires ar.WellFormed() && k < |ar.blocks|
    ensures ar.Start(k) <= U64_MAX && ar.PendingAt(k) <= ar.Listed(k) && ar.Listed(k + 1) == ar.Listed(k) + SetOf(ar.List(k))
  {
  }

  lemma LongForBlock(vs: nat, ar: Archive, k: nat, a: PendingMap)
    requires ar.WellFormed() && k < |ar.blocks| && PieceSet(a) == ar.PendingAt(k) && TooLong(ar.Listed(|ar.blocks|), vs)
    ensures TooLong(PieceSet(a) + SetOf(ar.List(k)), vs)
  {
    PiecesOfBlock(ar, k, a);
    hide Archive.WellFormed, Archive.Listed, Archive.PendingAt, PieceSet, SetOf;
  }

  lemma RoomForBlock(n: int, ar: Archive, k: nat, a: PendingMap)
    requires ar.WellFormed() && k < |ar.blocks| && PieceSet(a) == ar.PendingAt(k) && Room(n, ar.Listed(|ar.blocks|))
    ensures Room(n, PieceSet(a) + SetOf(ar.List(k)))
  {
    PiecesOfBlock(ar, k, a);
    hide Archive.WellFormed, Archive.Listed, Archive.PendingAt, PieceSet, Room;
    RoomLess(n, ar.Listed(|ar.blocks|), PieceSet(a) + SetOf(ar.List(k)));
  }

  /** Between the blocks, the bytes of the saved matches pending fit the useful memory. */
  ghost predicate HeldFits(ar: Archive, k: nat, maximumSave: u32, useful: nat)
    requires ar.WellFormed() && k <= |ar.blocks|
  {
    Ample(Savable(ar.PendingAt(k), maximumSave), useful)
  }

  /** With nothing spilled, what is pending has its place in memory. */
  lemma HeldInMemory(ar: Archive, k: nat, backend: seq<byte>, mm: MemoryManager, vm: VirtualMemoryManager, heap: LzMatchHeap, maximumSave: u32,
      memlimit: u64)
    requires ar.WellFormed() && k <= |ar.blocks| && DecoderAt(ar, k, backend, mm, vm, heap, maximumSave)
    requires vm.layout == map[] && mm.WithinLimit(memlimit)
    ensures HeldFits(ar, k, maximumSave, mm.usefulMemory)
  {
    hide Archive.WellFormed, Archive.Describes, Consistent, Inv, MarksOk, FileOk, Barred, Archive.PendingAt, KeysFrom, UsefulMemory;
    var a := vm.PendingMatches(mm);
    assert DiskOf(vm.layout) == map[];
    HeldIsUsed(mm.blockAddr, mm.usedChunks, mm.account, heap.Contents(), vm.index);
    hide VirtualMemoryManager.State;
    forall p | p in Savable(ar.PendingAt(k), maximumSave) ensures p in SavedPieces(a) {
      var x :| x in a && a[x].piece == p;
      assert Stored(a[x], backend, maximumSave);
    }
    SubsetSize(Slots(Savable(ar.PendingAt(k), maximumSave)), Slots(SavedPieces(a)));
  }

  /** Decode an archive block by block. Success means that every block fits the buffers and
      the output is the one the archive describes, a block reported too large is too large, and
      rejection means that the archive describes nothing; none of these depends on the memory
      limit, the VM block size or `maximumSave`. Those decide only whether decoding may stall.
      `taken` is the memory of the store and `reread` what was read back from the VM file:
      without that, the store never outgrows its limit. */
  method Decompress(ar: Archive, bufsize: u64, inlineLists: bool, memlimit: u64, vmBlock: nat, maximumSave: u32)
      returns (r: Result<seq<byte>>, ghost taken: nat, ghost reread: nat)
    requires ar.WellFormed() && vmBlock >= 4
    requires Room(UsefulMemory(memlimit) / 60 + vmBlock, ar.Listed(|ar.blocks|))
    ensures match r
            case Ok(v) => ar.Describes(v, |ar.blocks|) && ar.Fits(bufsize, inlineLists)
            case Err(TooLarge) => !ar.Fits(bufsize, inlineLists)
            case Err(Broken) => forall v :: !ar.Describes(v, |ar.blocks|)
            case Err(e) => e == Stalled && ArchiveStall(ar, vmBlock, UsefulMemory(memlimit))
    ensures r.Ok? && memlimit >= A_BLOCK_SIZE && reread == 0 ==> taken <= memlimit
    // Matches too long for a VM block cannot be spilled, so memory must hold all that are pending.
    ensures r.Ok? && memlimit >= A_BLOCK_SIZE && TooLong(ar.Listed(|ar.blocks|), vmBlock) ==>
              forall k :: 0 <= k <= |ar.blocks| ==> HeldFits(ar, k, maximumSave, UsefulMemory(memlimit))
    // Whether it stalls is decided by destinations and lengths alone.
    ensures r.Ok? ==> ar.Memory(|ar.blocks|, maximumSave, SpillModel.Limits(UsefulMemory(memlimit), vmBlock)).Some?
    ensures r == Err(Stalled) ==> ar.Memory(|ar.blocks|, maximumSave, SpillModel.Limits(UsefulMemory(memlimit), vmBlock)).None?
    // With room for all that are to be saved, nothing stalls, whatever the size of a VM block.
    ensures (forall k :: 0 <= k <= |ar.blocks| ==> HeldFits(ar, k, maximumSave, UsefulMemory(memlimit))) ==> r != Err(Stalled)
  {
    hide Archive.WellFormed, Archive.Describes, Consistent, Inv, MarksOk, FileOk, Barred, Between, ArchiveStall, UsefulMemory, Room, HeldFits, TooLong,
      Archive.Memory, VirtualMemoryManager.State, VirtualMemoryManager.Stock, VirtualMemoryManager.PendingMatches;
    var mm, vm, heap := EmptyStorage(memlimit, vmBlock);
    BetweenStart(ar, maximumSave);
    r := DecodeBlocks(ar, bufsize, inlineLists, mm, vm, heap, maximumSave, memlimit);
    taken, reread := mm.totalChunks * CHUNK_SIZE, vm.totalRead;
  }

  /** Store, VM file and heap before the first block: only the barrier is there. */
  method EmptyStorage(memlimit: u64, vmBlock: nat) returns (mm: MemoryManager, vm: VirtualMemoryManager, heap: LzMatchHeap)
    requires vmBlock >= 4
    ensures fresh(mm) && fresh(vm) && fresh(vm.vmbuf) && fresh(heap)
    ensures vm.State(mm, heap) && vm.PendingMatches(mm) == map[] && vm.Stock(heap) == []
    ensures vm.layout == map[] && vm.totalRead == 0 && vm.vmblockSize == vmBlock
    ensures mm.usedChunks == 0 && mm.usefulMemory == UsefulMemory(memlimit) && (memlimit >= A_BLOCK_SIZE ==> mm.WithinLimit(memlimit))
  {
    hide Consistent, Inv, MarksOk, FileOk, Barred, UsefulMemory, HeapItems.Items;
    mm := new MemoryManager(memlimit);
    vm := new VirtualMemoryManager(vmBlock);
    heap := new LzMatchHeap();
    ghost var barrier := heap.InsertBarrier();
    BarrierAlone(heap.entries, barrier);
    InitialState(heap.Contents(), barrier, vm.index);
    assert DiskOf(vm.layout) == map[];
  }

  /** The block loop, from an empty storage. */
  method DecodeBlocks(ar: Archive, bufsize: u64, inlineLists: bool,
      mm: MemoryManager, vm: VirtualMemoryManager, heap: LzMatchHeap, maximumSave: u32, ghost memlimit: u64) returns (r: Result<seq<byte>>)
    requires ar.WellFormed() && DecoderAt(ar, 0, [], mm, vm, heap, maximumSave) && vm.layout == map[] && vm.totalRead == 0
    requires Room(mm.usefulMemory / 60 + vm.vmblockSize, ar.Listed(|ar.blocks|))
    requires memlimit >= A_BLOCK_SIZE ==> mm.WithinLimit(memlimit)
    requires vm.Stock(heap) == []
    modifies mm, vm, vm.vmbuf, heap
    ensures match r
            case Ok(v) => ar.Describes(v, |ar.blocks|) && ar.Fits(bufsize, inlineLists)
            case Err(TooLarge) => !ar.Fits(bufsize, inlineLists)
            case Err(Broken) => forall v :: !ar.Describes(v, |ar.blocks|)
            case Err(e) => e == Stalled && ArchiveStall(ar, vm.vmblockSize, mm.usefulMemory)
    ensures r.Ok? && memlimit >= A_BLOCK_SIZE && vm.totalRead == 0 ==> mm.WithinLimit(memlimit)
    ensures r.Ok? && memlimit >= A_BLOCK_SIZE && TooLong(ar.Listed(|ar.blocks|), vm.vmblockSize) ==>
              forall k :: 0 <= k <= |ar.blocks| ==> HeldFits(ar, k, maximumSave, mm.usefulMemory)
    ensures (forall k :: 0 <= k <= |ar.blocks| ==> HeldFits(ar, k, maximumSave, mm.usefulMemory)) ==> r != Err(Stalled)
    ensures r.Ok? ==> ar.Memory(|ar.blocks|, maximumSave, vm.MemoryLimits(mm)).Some?
    ensures r == Err(Stalled) ==> ar.Memory(|ar.blocks|, maximumSave, vm.MemoryLimits(mm)).None?
  {
    hide Archive.WellFormed, Archive.Describes, Between, ArchiveStall, Room, HeldFits, TooLong, VirtualMemoryManager.State, MemoryManager.WithinLimit,
      VirtualMemoryManager.Stock, Archive.Memory, SpillModel.Block;
    var backend: seq<byte> := [];
    var k := 0;
    ghost var long := memlimit >= A_BLOCK_SIZE && TooLong(ar.Listed(|ar.blocks|), vm.vmblockSize);
    ghost var ample := forall k :: 0 <= k <= |ar.blocks| ==> HeldFits(ar, k, maximumSave, mm.usefulMemory);
    ar.MemoryNone(maximumSave, vm.MemoryLimits(mm));
    while k < |ar.blocks|
      invariant k <= |ar.blocks| && DecoderAt(ar, k, backend, mm, vm, heap, maximumSave)
      invariant forall j :: 0 <= j < k ==> !ar.blocks[j].TooLarge(bufsize, inlineLists)
      invariant memlimit >= A_BLOCK_SIZE && vm.totalRead == 0 ==> mm.WithinLimit(memlimit)
      invariant ample ==> vm.layout == map[]
      invariant ar.Memory(k, maximumSave, vm.MemoryLimits(mm)) == Some(vm.Stock(heap))
      invariant long ==> vm.layout == map[] && vm.totalRead == 0 && forall j :: 0 <= j < k ==> HeldFits(ar, j, maximumSave, mm.usefulMemory)
    {
      if long { HeldInMemory(ar, k, backend, mm, vm, heap, maximumSave, memlimit); }
      ar.MemoryNext(k, maximumSave, vm.MemoryLimits(mm));
      r := DecodeBlock(ar, k, backend, bufsize, inlineLists, mm, vm, heap, maximumSave);
      if r.Err? {
        if r.error == Stalled { ar.MemoryStalled(k + 1, maximumSave, vm.MemoryLimits(mm)); }
        return;
      }
      backend := r.value;
      k := k + 1;
    }
    BetweenEnd(ar, backend, vm.PendingMatches(mm), maximumSave);
    if long { HeldInMemory(ar, k, backend, mm, vm, heap, maximumSave, memlimit); }
    r := Ok(backend);
  }

  lemma BetweenEnd(ar: Archive, backend: seq<byte>, a: PendingMap, maximumSave: u32)
    requires ar.WellFormed() && Between(ar, |ar.blocks|, backend, a, maximumSave)
    ensures ar.Describes(backend, |ar.blocks|)
  {
  }

  /** The barrier takes no memory. */
  lemma BarrierAlone(s: seq<HeapEntry>, b: HeapEntry)
    requires Elems(s) == {b} && Sorted(s) && b.len > 0 && b.index == 0
    ensures HeapItems.Items(s, map[]) == [] && SpillModel.Used([]) == 0
  {
    assert b in Elems(s);
    forall i | 0 <= i < |s| ensures s[i] == b {
      assert s[i] in Elems(s);
    }
    assert |s| > 1 ==> s[0].Before(s[1]);
    assert s[1..] == [];
  }

  lemma InitialState(h: Heap, b: HeapEntry, w: Index)
    requires h == {b} && b.IsBarrier() && b.len > 0 && b.index == 0 && w == Index(map[], map[], map[])
    ensures Inv(h, map[], map[], w) && MarksOk(h, w) && Barred(h) && Abs(map[], w) == map[]
  {
  }
}
