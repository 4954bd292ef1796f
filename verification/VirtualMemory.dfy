/** Spilling pending matches to blocks of a file, and restoring them. */
module VirtualMemory {
  import opened Bytes
  import opened ChunkStore
  import opened MatchStore
  import opened MatchHeap
  import opened MatchModel
  import opened PendingModel
  import opened SpillRecords
  import opened StoreDemand
  import opened SpillModel
  import opened HeapItems

  /** The blocks of the VM file: each is either free or holds its records. */
  ghost predicate FileOk(file: seq<byte>, vs: nat, free: seq<nat>, newBlock: nat, layout: map<nat, seq<Rec>>) {
    && |file| == newBlock * vs
    && (forall i :: 0 <= i < |free| ==> free[i] < newBlock && free[i] !in layout)
    && (forall i, j :: 0 <= i < j < |free| ==> free[i] != free[j])
    && (forall b: nat {:trigger b in layout} {:trigger b in free} :: b < newBlock ==> b in layout || b in free)
    && (forall b :: b in layout ==> b < newBlock && LayoutOk(file, vs, b, layout[b]))
  }

  ghost predicate LayoutOk(file: seq<byte>, vs: nat, b: nat, rs: seq<Rec>) {
    && (b + 1) * vs <= |file|
    && Holds(BlockAt(file, vs, b), rs)
    && rs != [] && Descending(rs)
  }

  ghost predicate Descending(rs: seq<Rec>) {
    forall i, j :: 0 <= i < j < |rs| ==> rs[j].dest < rs[i].dest
  }

  ghost function DiskOf(layout: map<nat, seq<Rec>>): Disk {
    map b | b in layout :: SetOf(layout[b])
  }

  /** The block the next spill will use. */
  function NextBlock(free: seq<nat>, newBlock: nat): nat {
    if free == [] then newBlock else free[|free| - 1]
  }

  /** The list of free blocks, and the number of blocks, once that block is taken. */
  function FreeAfter(free: seq<nat>): seq<nat> {
    if free == [] then free else free[..|free| - 1]
  }

  function CountAfter(free: seq<nat>, newBlock: nat): nat {
    if free == [] then newBlock + 1 else newBlock
  }

  lemma NextBlockOk(file: seq<byte>, vs: nat, free: seq<nat>, newBlock: nat, layout: map<nat, seq<Rec>>)
    requires FileOk(file, vs, free, newBlock, layout)
    ensures NextBlock(free, newBlock) !in layout && NextBlock(free, newBlock) * vs <= |file|
  {
    MulLe(NextBlock(free, newBlock), newBlock, vs);
  }

  /** Writing the next block keeps the file in order. */
  lemma FileSpilled(file: seq<byte>, vs: nat, free: seq<nat>, newBlock: nat, layout: map<nat, seq<Rec>>, buf: seq<byte>, rs: seq<Rec>, b: nat)
    requires FileOk(file, vs, free, newBlock, layout) && |buf| == vs
    requires Holds(buf, rs) && rs != [] && Descending(rs)
    requires b == NextBlock(free, newBlock) && b * vs <= |file| && b !in layout
    ensures FileOk(WriteAt(file, b * vs, buf), vs, FreeAfter(free), CountAfter(free, newBlock), layout[b := rs])
  {
    hide Holds, WriteAt, BlockAt, Descending, LayoutOk;
    WriteBlock(file, vs, b, buf, newBlock);
    var r := WriteAt(file, b * vs, buf);
    forall c | c in layout ensures LayoutOk(r, vs, c, layout[c]) {
      WriteOtherBlock(file, vs, b, buf, newBlock, c);
      OtherLayout(file, r, vs, c, layout[c]);
    }
    ThisLayout(r, vs, b, rs);
  }

  lemma OtherLayout(file: seq<byte>, r: seq<byte>, vs: nat, c: nat, rs: seq<Rec>)
    requires LayoutOk(file, vs, c, rs) && (c + 1) * vs <= |r| && BlockAt(r, vs, c) == BlockAt(file, vs, c)
    ensures LayoutOk(r, vs, c, rs)
  {
    hide Holds, BlockAt, Descending;
  }

  lemma ThisLayout(r: seq<byte>, vs: nat, b: nat, rs: seq<Rec>)
    requires (b + 1) * vs <= |r| && Holds(BlockAt(r, vs, b), rs) && rs != [] && Descending(rs)
    ensures LayoutOk(r, vs, b, rs)
  {
  }

  lemma BlockLayout(file: seq<byte>, vs: nat, free: seq<nat>, newBlock: nat, layout: map<nat, seq<Rec>>, b: nat)
    requires FileOk(file, vs, free, newBlock, layout) && b in layout
    ensures (b + 1) * vs <= |file| && Holds(BlockAt(file, vs, b), layout[b]) && Fits(layout[b]) && layout[b] != [] && Descending(layout[b])
  {
    assert LayoutOk(file, vs, b, layout[b]);
  }

  lemma FileRestored(file: seq<byte>, vs: nat, free: seq<nat>, newBlock: nat, layout: map<nat, seq<Rec>>, b: nat)
    requires FileOk(file, vs, free, newBlock, layout) && b in layout
    ensures FileOk(file, vs, free + [b], newBlock, layout - {b})
  {
    hide LayoutOk;
    var f := free + [b];
    forall c: nat | c < newBlock ensures c in layout - {b} || c in f {
      if c == b {
        assert f[|free|] == b;
      } else if c !in layout {
        var i :| 0 <= i < |free| && free[i] == c;
        assert f[i] == c;
      }
    }
  }

  class VirtualMemoryManager {
    const vmblockSize: nat
    const vmbuf: array<byte>
    var vmfile: seq<byte>
    var freeBlocks: seq<nat>
    var newBlock: nat
    var totalRead: nat
    var totalWrite: nat
    /** The records of each spilled block, in block order. */
    ghost var layout: map<nat, seq<Rec>>
    /** Where every pending match is. */
    ghost var index: Index

    /** The decoder's storage as a whole is consistent. */
    ghost predicate State(mm: MemoryManager, heap: LzMatchHeap)
      reads this, mm, heap
    {
      && Valid() && mm.Valid() && heap.Valid()
      && Inv(heap.Contents(), mm.Store(), DiskOf(layout), index)
      && MarksOk(heap.Contents(), index)
      && Barred(heap.Contents())
      && mm.usedChunks == Used(Stock(heap))
    }

    /** The saved matches in memory and the spilled blocks, the nearest first. */
    ghost function Stock(heap: LzMatchHeap): seq<Item>
      reads this, heap
    {
      Items(heap.entries, layout)
    }

    ghost function MemoryLimits(mm: MemoryManager): Limits
      reads mm
    {
      Limits(mm.usefulMemory, vmblockSize)
    }

    /** The storage is consistent but for `mark`, whose block has been restored. */
    ghost predicate StateWithout(mm: MemoryManager, heap: LzMatchHeap, mark: HeapEntry)
      reads this, mm, heap
    {
      var h := heap.Contents() - {mark};
      && Valid() && mm.Valid() && heap.Valid()
      && Inv(h, mm.Store(), DiskOf(layout), index)
      && MarksOk(h, index)
      && Barred(h)
      && mm.usedChunks == Used(Items(Removed(heap.entries, mark), layout))
    }

    /** The pending matches, by destination: the meaning of heap, store and disk together. */
    ghost function PendingMatches(mm: MemoryManager): map<nat, Pending>
      reads this, mm
    {
      Abs(mm.Store(), index)
    }

    ghost predicate Valid()
      reads this
    {
      && vmbuf.Length == vmblockSize >= 4
      && FileOk(vmfile, vmblockSize, freeBlocks, newBlock, layout)
    }

    constructor (blockSize: nat)
      requires blockSize >= 4
      ensures Valid() && layout == map[] && index == Index(map[], map[], map[]) && vmblockSize == blockSize && fresh(vmbuf)
      ensures totalRead == 0
    {
      vmblockSize := blockSize;
      vmbuf := new byte[blockSize](_ => 0);
      vmfile, freeBlocks, newBlock, totalRead, totalWrite := [], [], 0, 0, 0;
      layout, index := map[], Index(map[], map[], map[]);
    }

    /** The first `p` bytes of the buffer are the records packed so far, and the end mark still fits. */
    ghost predicate BufferHolds(p: nat, recs: seq<Rec>)
      reads vmbuf
    {
      Fits(recs) && p == |Encode(recs)| && p + 4 <= vmblockSize == vmbuf.Length && vmbuf[..p] == Encode(recs)
    }

    lemma BufferStart()
      requires vmbuf.Length == vmblockSize >= 4
      ensures BufferHolds(0, [])
    {
    }

    /** Append the record of saved match `e` to the block being packed and drop its string from the store. */
    method PackRecord(mm: MemoryManager, e: HeapEntry, p: nat, ghost recs: seq<Rec>) returns (q: nat)
      requires mm.Valid() && vmbuf.Length == vmblockSize
      requires e.IsLive() && e.index in mm.Store() && |mm.Store()[e.index]| == e.len
      requires BufferHolds(p, recs) && vmblockSize - p >= 24 + e.len
      modifies vmbuf, mm
      ensures mm.Valid() && mm.Store() == old(mm.Store()) - {e.index}
      ensures mm.usedChunks == old(mm.usedChunks) - ChunksFor(e.len) && mm.totalChunks == old(mm.totalChunks)
      ensures BufferHolds(q, recs + [RecOf(e, old(mm.Store()))]) && q == p + 20 + e.len
    {
      hide Consistent;
      ghost var r := RecOf(e, mm.Store());
      ghost var was := vmbuf[..];
      CopyInto(vmbuf, p, LE32(e.len));
      CopyInto(vmbuf, p + 4, LE64(e.src));
      CopyInto(vmbuf, p + 12, LE64(e.dest));
      mm.Restore(e.index, vmbuf, p + 20, e.len);
      mm.Free(e.index);
      q := p + 20 + e.len;
      Fields(was, p, LE32(e.len), LE64(e.src), LE64(e.dest), r.data);
      assert RecBytes(r) == LE32(e.len) + LE64(e.src) + LE64(e.dest) + r.data;
      assert vmbuf[..p] == vmbuf[..][..p] && vmbuf[p..q] == vmbuf[..][p..q];
      WriteRec(vmbuf[..], recs, r);
      assert vmbuf[..q] == vmbuf[..][..q];
    }

    /** Spill one saved match into the block being packed. */
    method PackEntry(mm: MemoryManager, e: HeapEntry, p: nat,
        ghost k: Packed, ghost h: Heap, ghost d: Disk, ghost b: nat, ghost serial: nat, ghost a: map<nat, Pending>)
        returns (q: nat, ghost r: Packed)
      requires mm.Valid() && PackOk(k, h, mm.Store(), d, b, serial, a)
      requires e in h && e !in k.erased && e.index != 0
      requires k.erased != [] ==> e.dest <= k.erased[|k.erased| - 1].dest
      requires BufferHolds(p, k.recs) && vmblockSize - p >= 24 + e.len && vmbuf.Length == vmblockSize
      modifies vmbuf, mm
      ensures mm.Valid() && mm.usedChunks == old(mm.usedChunks) - ChunksFor(e.len) && mm.totalChunks == old(mm.totalChunks)
      ensures PackOk(r, h, mm.Store(), d, b, serial, a)
      ensures r.erased == k.erased + [e] && e.IsLive()
      ensures BufferHolds(q, r.recs) && q == p + 20 + e.len
    {
      hide Consistent, PackOk, PackNext, BufferHolds;
      PackStep(k, h, mm.Store(), d, b, serial, a, e);
      r := PackNext(k, mm.Store(), b, serial, e);
      PackNextParts(k, mm.Store(), b, serial, e);
      q := PackRecord(mm, e, p, k.recs);
    }

    /** Walk `asc[..n]` from the farthest destination down and pack saved matches while they fit the block. */
    method PackWalk(mm: MemoryManager, asc: seq<HeapEntry>, n: nat,
        ghost k0: Packed, ghost h: Heap, ghost d: Disk, ghost b: nat, ghost serial: nat, ghost a: map<nat, Pending>)
        returns (erased: seq<HeapEntry>, p: nat, ghost k: Packed)
      requires mm.Valid() && vmbuf.Length == vmblockSize >= 4
      requires k0.erased == [] && PackOk(k0, h, mm.Store(), d, b, serial, a)
      requires n <= |asc| && Sorted(asc) && Elems(asc) == h
      requires forall e :: e in asc[n..] ==> e.index == 0
      modifies vmbuf, mm
      ensures mm.Valid() && k.erased == erased && BufferHolds(p, k.recs)
      ensures PackOk(k, h, mm.Store(), d, b, serial, a)
      ensures mm.usedChunks == old(mm.usedChunks) - HeldChunks(HeldsOf(erased))
      ensures FarthestThatFit(asc, erased, vmblockSize)
      ensures mm.totalChunks == old(mm.totalChunks)
      ensures forall x :: x in erased ==> x.index != 0 && x.IsLive()
    {
      hide Consistent, PackOk, BufferHolds, Sorted, FarthestThatFit, SavedDown, HeldChunks, HeldsOf, Walked;
      erased, p, k := [], 0, k0;
      NoneSaved(asc[n..]);
      WalkStart(SavedDown(asc), vmblockSize);
      BufferStart();
      PackSizes(k, h, mm.Store(), d, b, serial, a);
      var i := n;
      while i > 0
        invariant 0 <= i <= |asc| && mm.Valid() && k.erased == erased && mm.totalChunks == old(mm.totalChunks)
        invariant PackOk(k, h, mm.Store(), d, b, serial, a) && BufferHolds(p, k.recs)
        invariant forall x :: x in erased ==> x in asc[i..] && x.index != 0 && x.IsLive()
        invariant mm.usedChunks == old(mm.usedChunks) - HeldChunks(HeldsOf(erased))
        invariant erased == SavedDown(asc[i..]) && Walked(SavedDown(asc), erased, p, vmblockSize)
      {
        i := i - 1;
        var e := asc[i];
        assert asc[i..] == [e] + asc[i + 1..];
        SavedNext(asc, i);
        if e.index == 0 {
          continue;
        }
        if vmblockSize - p < 24 + e.len {
          StoppedAt(asc, i, p, vmblockSize);
          return;
        }
        SuffixAfter(asc, i);
        NextFits(asc, i, p, vmblockSize);
        HeldsNext(erased, e);
        p, k := PackEntry(mm, e, p, k, h, d, b, serial, a);
        erased := erased + [e];
      }
      StoppedAtEnd(asc, p, vmblockSize);
    }

    /** Pack the farthest saved matches of the heap, the barrier excepted. */
    method PackMatches(mm: MemoryManager, heap: LzMatchHeap, ghost b: nat)
        returns (erased: seq<HeapEntry>, p: nat, ghost k: Packed)
      requires State(mm, heap) && b !in layout
      modifies vmbuf, mm
      ensures mm.Valid() && k.erased == erased && BufferHolds(p, k.recs)
      ensures PackOk(k, heap.Contents(), mm.Store(), DiskOf(layout), b, heap.serialCounter, old(PendingMatches(mm)))
      ensures mm.usedChunks == old(mm.usedChunks) - HeldChunks(HeldsOf(erased))
      ensures erased == [] <==> CannotSpill(heap.entries, vmblockSize)
      ensures FarthestThatFit(heap.entries, erased, vmblockSize)
      ensures mm.totalChunks == old(mm.totalChunks)
      ensures forall x :: x in erased ==> x.index != 0 && x.IsLive()
    {
      hide Consistent, MarksOk, PackOk, FileOk, BufferHolds, FarthestThatFit, CannotSpill;
      ghost var h, d, serial, a := heap.Contents(), DiskOf(layout), heap.serialCounter, PendingMatches(mm);
      LastIsNotLive(heap.entries, mm.Store(), d, index);
      k := Packed(h, index, [], []);
      PackStart(k, h, mm.Store(), d, b, serial);
      erased, p, k := PackWalk(mm, heap.entries, |heap.entries| - 1, k, h, d, b, serial, a);
      NothingFits(heap.entries, erased, vmblockSize);
    }

    /** Put the end mark behind the packed records. */
    method MarkEnd(p: nat, ghost recs: seq<Rec>)
      requires BufferHolds(p, recs)
      modifies vmbuf
      ensures Holds(vmbuf[..], recs)
    {
      CopyInto(vmbuf, p, LE32(0));
      EndMarked(vmbuf[..], p, recs);
    }

    /** Write the packed block to the file and take its block number. */
    method WriteOut(p: nat, ghost recs: seq<Rec>) returns (block: nat)
      requires Valid() && BufferHolds(p, recs) && Descending(recs)
      modifies `vmfile, `freeBlocks, `newBlock, `totalWrite, `layout, vmbuf
      ensures block == NextBlock(old(freeBlocks), old(newBlock))
      ensures if recs != [] then Valid() && layout == old(layout)[block := recs] else layout == old(layout)
    {
      hide FileOk, Descending, WriteAt, Holds, BufferHolds;
      MarkEnd(p, recs);
      NextBlockOk(vmfile, vmblockSize, freeBlocks, newBlock, layout);
      block := NextBlock(freeBlocks, newBlock);
      if freeBlocks == [] {
        newBlock := newBlock + 1;
      } else {
        freeBlocks := freeBlocks[..|freeBlocks| - 1];
      }
      vmfile := WriteAt(vmfile, block * vmblockSize, vmbuf[..]);
      totalWrite := totalWrite + vmblockSize;
      if recs != [] {
        FileSpilled(old(vmfile), vmblockSize, old(freeBlocks), old(newBlock), layout, vmbuf[..], recs, block);
        layout := layout[block := recs];
      }
    }

    /** Remove the spilled entries from the heap. */
    method EraseAll(heap: LzMatchHeap, erased: seq<HeapEntry>)
      requires heap.Valid() && SetOf(erased) <= heap.Contents() && erased <= SavedDown(heap.entries) && Marked(heap.entries, layout)
      requires forall i, j :: 0 <= i < j < |erased| ==> erased[i] != erased[j]
      modifies heap`entries
      ensures heap.Valid() && heap.Contents() == old(heap.Contents()) - SetOf(erased)
      ensures Marked(heap.entries, layout)
      ensures Stock(heap) == Keep(old(Stock(heap)), |SavedDown(old(heap.entries))| - |erased|)
    {
      hide LzMatchHeap.Valid, SavedDown, LzMatchHeap.Contents, Items, Keep, Marked, HeldsOf;
      var i := 0;
      NoneErased(heap.Contents(), erased);
      ghost var all := |SavedDown(heap.entries)|;
      AllKept(heap.entries, layout);
      while i < |erased|
        invariant 0 <= i <= |erased| && heap.Valid()
        invariant heap.Contents() == old(heap.Contents()) - SetOf(erased[..i])
        invariant SavedDown(heap.entries) == SavedDown(old(heap.entries))[i..] && Marked(heap.entries, layout)
        invariant Stock(heap) == Keep(old(Stock(heap)), all - i)
      {
        OneErased(old(heap.Contents()), erased, i);
        HeadRemoved(heap, erased[i], layout);
        KeepKeep(old(Stock(heap)), all - i, all - i - 1);
        heap.Remove(erased[i]);
        i := i + 1;
      }
      assert erased[..i] == erased;
    }

    /** Remove the spilled entries from the heap and put the mark of their block in. */
    method ReplaceByMark(heap: LzMatchHeap, erased: seq<HeapEntry>, block: nat, minDest: u64)
      requires heap.Valid() && SetOf(erased) <= heap.Contents() && erased <= SavedDown(heap.entries) && Marked(heap.entries, layout)
      requires forall i, j :: 0 <= i < j < |erased| ==> erased[i] != erased[j]
      modifies heap
      ensures heap.Valid()
      ensures var m := HeapEntry(block, minDest, 0, 0, old(heap.serialCounter));
              MarkFits(m, layout) ==> Stock(heap) == Put(Keep(old(Stock(heap)), |SavedDown(old(heap.entries))| - |erased|), ItemOf(m, layout)[0])
      ensures heap.Contents() == old(heap.Contents()) - SetOf(erased) + {HeapEntry(block, minDest, 0, 0, old(heap.serialCounter))}
    {
      hide SavedDown, SetOf, Items, Keep, Put, Marked;
      EraseAll(heap, erased);
      ghost var before := heap.entries;
      ghost var m := heap.Insert(HeapEntry(block, minDest, 0, 0, 0));
      if MarkFits(m, layout) { InsertItem(before, m, layout); }
    }

    /** Spill the saved matches with the farthest destinations to one block of the file.
        If any was spilled, every pending match is still there and the store has shrunk. */
    method SaveToDisk(mm: MemoryManager, heap: LzMatchHeap) returns (spilled: bool)
      requires State(mm, heap)
      modifies this, vmbuf, mm, heap
      ensures spilled ==> State(mm, heap) && PendingMatches(mm) == old(PendingMatches(mm))
      ensures var n := Fitting(MemDown(old(Stock(heap))), 0, vmblockSize);
              if spilled then n > 0 && Stock(heap) == Spill(old(Stock(heap)), n) else n == 0
      ensures spilled ==> mm.usedChunks < old(mm.usedChunks) && mm.totalChunks == old(mm.totalChunks)
      ensures totalRead == old(totalRead)
      ensures spilled ==> SpillStep(old(heap.Contents()), heap.Contents())
      ensures spilled ==> forall b :: b in old(layout) ==> b in layout && layout[b] == old(layout)[b]
      ensures !spilled <==> CannotSpill(old(heap.entries), vmblockSize)
    {
      hide Consistent, Inv, MarksOk, FileOk, PackShape, BufferHolds, CannotSpill, FarthestThatFit, HeldChunks, HeldsOf, SavedDown, Barred,
        SpillStep, Descending, LzMatchHeap.Valid, Items, Used, Spill, MemDown, Marked, MarkFits, Put, Keep;
      MarksFit(heap.entries, mm.Store(), vmfile, vmblockSize, freeBlocks, newBlock, layout, index);
      ghost var b, layout0 := NextBlock(freeBlocks, newBlock), layout;
      NextBlockOk(vmfile, vmblockSize, freeBlocks, newBlock, layout);
      ghost var h, d, serial, a := heap.Contents(), DiskOf(layout), heap.serialCounter, PendingMatches(mm);
      var erased, p;
      ghost var k: Packed;
      erased, p, k := PackMatches(mm, heap, b);
      PackUse(k, h, mm.Store(), d, b, serial, a);
      ItemsDown(heap.entries, layout);
      CannotSpillIff(heap.entries, vmblockSize);
      WriteSpill(heap, erased, p, k.recs);
      spilled := erased != [];
      if spilled {
        index := k.w;
        SpilledDisk(layout0, b, k, d);
        assert heap.Contents() == k.h;
      }
    }

    /** Write the packed block and put its mark in the place of the matches in it. */
    method WriteSpill(heap: LzMatchHeap, erased: seq<HeapEntry>, p: nat, ghost recs: seq<Rec>)
      requires Valid() && heap.Valid() && Marked(heap.entries, layout) && BufferHolds(p, recs) && Descending(recs)
      requires FarthestThatFit(heap.entries, erased, vmblockSize) && SetOf(erased) <= heap.Contents() && |recs| == |erased|
      requires forall i :: 0 <= i < |recs| ==> recs[i].dest == erased[i].dest && |recs[i].data| == erased[i].len
      requires (forall i, j :: 0 <= i < j < |erased| ==> erased[i] != erased[j]) && forall e :: e in erased ==> e.IsLive()
      modifies `vmfile, `freeBlocks, `newBlock, `totalWrite, `layout, vmbuf, heap
      ensures var b := NextBlock(old(freeBlocks), old(newBlock));
              erased != [] ==>
                && Valid() && heap.Valid() && layout == old(layout)[b := recs]
                && heap.Contents() == old(heap.Contents()) - SetOf(erased) + {HeapEntry(b, erased[|erased| - 1].dest, 0, 0, old(heap.serialCounter))}
                && |erased| == Fitting(MemDown(old(Stock(heap))), 0, vmblockSize) && Stock(heap) == Spill(old(Stock(heap)), |erased|)
                && Used(Stock(heap)) == Used(old(Stock(heap))) - HeldChunks(HeldsOf(erased)) < Used(old(Stock(heap)))
    {
      hide FileOk, BufferHolds, FarthestThatFit, HeldChunks, HeldsOf, SavedDown, Descending, LzMatchHeap.Valid, Items, Used, Spill, MemDown, Marked,
        MarkFits, Put, Keep, Fitting, SetOf;
      FarthestPrefix(heap.entries, erased, vmblockSize);
      NextBlockOk(vmfile, vmblockSize, freeBlocks, newBlock, layout);
      ghost var before, layout0, serial := heap.entries, layout, heap.serialCounter;
      var minDest := if erased == [] then U64_MAX else erased[|erased| - 1].dest;
      var block := WriteOut(p, recs);
      OneBlockMore(before, layout0, layout);
      ReplaceByMark(heap, erased, block, minDest);
      if erased != [] {
        AfterSpill(before, layout0, erased, recs, block, minDest, serial, vmblockSize);
      }
    }

    /** Spill until `need` bytes are available. The only failure is a stall, and only when
        the memory is smaller than `need` or a pending match is too long for a block. */
    method MakeRoom(mm: MemoryManager, heap: LzMatchHeap, need: nat) returns (ok: bool)
      requires State(mm, heap)
      modifies this, vmbuf, mm, heap
      ensures ok ==> State(mm, heap) && PendingMatches(mm) == old(PendingMatches(mm)) && need <= mm.AvailableSpace()
      ensures ok ==> SpillStep(old(heap.Contents()), heap.Contents())
      ensures ok ==> forall b :: b in old(layout) ==> b in layout && layout[b] == old(layout)[b]
      ensures RoomFor(old(Stock(heap)), MemoryLimits(mm), need) == if ok then Some(Stock(heap)) else None
      ensures ok ==> mm.usedChunks <= old(mm.usedChunks) && mm.totalChunks == old(mm.totalChunks)
      ensures totalRead == old(totalRead)
      ensures !ok ==> MayStall(old(PendingMatches(mm)), vmblockSize, mm.usefulMemory, need)
      ensures need <= old(mm.AvailableSpace()) ==> ok && layout == old(layout)
      ensures old(mm.AvailableSpace()) < need && (CannotSpill(old(heap.entries), vmblockSize) || mm.usefulMemory < need) ==> !ok
      ensures ok && CannotSpill(old(heap.entries), vmblockSize) ==> layout == old(layout)
    {
      hide Consistent, Inv, MarksOk, FileOk, CannotSpill, MayStall, Barred, SpillStep, SavedDown, Items, Used, Spill, MemDown, Fitting;
      ghost var h, a := heap.Contents(), PendingMatches(mm);
      NoStep(h);
      ok := true;
      while mm.AvailableSpace() < need
        invariant State(mm, heap) && PendingMatches(mm) == a
        invariant SpillStep(h, heap.Contents())
        invariant forall b :: b in old(layout) ==> b in layout && layout[b] == old(layout)[b]
        invariant mm.usedChunks <= old(mm.usedChunks) && mm.totalChunks == old(mm.totalChunks) && totalRead == old(totalRead)
        invariant CannotSpill(old(heap.entries), vmblockSize) ==>
                    heap.entries == old(heap.entries) && mm.usedChunks == old(mm.usedChunks) && layout == old(layout)
        invariant RoomFor(old(Stock(heap)), MemoryLimits(mm), need) == RoomFor(Stock(heap), MemoryLimits(mm), need)
        invariant need <= old(mm.AvailableSpace()) ==> mm.usedChunks == old(mm.usedChunks) && layout == old(layout)
        invariant ok
        decreases mm.usedChunks
      {
        StallReason(mm, heap.entries, layout, index, vmblockSize, need);
        ghost var h1 := heap.Contents();
        ok := SaveToDisk(mm, heap);
        if !ok {
          return;
        }
        StepTwice(h, h1, heap.Contents());
      }
    }

    /** Bring one record back from the buffer into the store and the heap. */
    method RestoreRecord(mm: MemoryManager, heap: LzMatchHeap, p: nat, len: u32,
        ghost rs: seq<Rec>, ghost k: nat, ghost d: Disk, ghost m: HeapEntry) returns (q: nat)
      requires mm.Valid() && heap.Valid() && vmbuf.Length == vmblockSize
      requires k < |rs| && Holds(vmbuf[..], rs) && Descending(rs) && p == Start(rs, k) && len == |rs[k].data|
      requires p + 20 + len <= vmbuf.Length
      requires Inv(heap.Contents(), mm.Store(), Draining(d, m.src, rs, k), index) && Nearest(heap.Contents(), index, m)
      requires mm.usedChunks + ChunksFor(len) <= MAX_USED && FirstIs(heap.entries, m, layout)
      modifies `index, mm, heap
      ensures mm.Valid() && heap.Valid() && q == Start(rs, k + 1) == p + 20 + len
      ensures Inv(heap.Contents(), mm.Store(), Draining(d, m.src, rs, k + 1), index) && Nearest(heap.Contents(), index, m)
      ensures PendingMatches(mm) == old(PendingMatches(mm))
      ensures mm.usedChunks == old(mm.usedChunks) + ChunksFor(len)
      ensures old(heap.Contents()) <= heap.Contents()
      ensures FirstIs(heap.entries, m, layout)
      ensures Items(heap.entries[1..], layout) == Put(old(Items(heap.entries[1..], layout)), Mem(Held(rs[k].dest, len)))
    {
      hide Consistent, Inv, Nearest, CanRestore, Holds, Start, Draining, FirstIs, Items, Put, LzMatchHeap.Valid, Abs, RestoreIndex;
      MarkLeads(heap.entries, m, layout);
      ghost var r, h, s, dk, w := rs[k], heap.Contents(), mm.Store(), Draining(d, m.src, rs, k), index;
      ReadRec(vmbuf[..], rs, k);
      Distinct(rs);
      DrainNext(d, m.src, rs, k);
      var src := FromLE(vmbuf[p + 4..p + 12]);
      var dest := FromLE(vmbuf[p + 12..p + 20]);
      assert vmbuf[p + 4..p + 12] == vmbuf[..][p + 4..p + 12] && vmbuf[p + 12..p + 20] == vmbuf[..][p + 12..p + 20];
      assert vmbuf[p + 20..p + 20 + len] == vmbuf[..][p + 20..p + 20 + len];
      var idx := mm.Save(vmbuf[p + 20..p + 20 + len]);
      ghost var before := heap.entries;
      SerialsBelow(heap);
      ghost var e := heap.Insert(HeapEntry(src, dest, len, idx, 0));
      MarkBefore(h, s, dk, w, m, r);
      RecordBehind(before, m, e, layout);
      MayRestore(h, s, dk, w, m.src, r, e);
      RestoreOne(h, s, dk, w, m.src, r, e);
      RestoreNearest(h, s, dk, w, m.src, r, e, m);
      index := RestoreIndex(index, e);
      q := p + 20 + len;
    }

    /** Read block `b` of the file into the buffer and release it. */
    method ReadBlock(b: nat)
      requires Valid() && b in layout
      modifies `freeBlocks, `totalRead, `layout, vmbuf
      ensures Valid() && layout == old(layout) - {b} && totalRead == old(totalRead) + vmblockSize
      ensures Holds(vmbuf[..], old(layout)[b]) && Fits(old(layout)[b]) && old(layout)[b] != [] && Descending(old(layout)[b])
    {
      hide Holds, Fits, Descending, FileOk, Splice, BlockAt;
      BlockLayout(vmfile, vmblockSize, freeBlocks, newBlock, layout, b);
      SpliceWhole(vmbuf[..], BlockAt(vmfile, vmblockSize, b));
      CopyInto(vmbuf, 0, BlockAt(vmfile, vmblockSize, b));
      totalRead := totalRead + vmblockSize;
      FileRestored(vmfile, vmblockSize, freeBlocks, newBlock, layout, b);
      freeBlocks := freeBlocks + [b];
      layout := layout - {b};
    }

    /** Bring all records of the buffer back. */
    method RestoreRecords(mm: MemoryManager, heap: LzMatchHeap, ghost rs: seq<Rec>, ghost d: Disk, ghost m: HeapEntry)
        returns (r: Result<()>)
      requires mm.Valid() && heap.Valid() && vmbuf.Length == vmblockSize
      requires Fits(rs) && Holds(vmbuf[..], rs) && Descending(rs)
      requires Inv(heap.Contents(), mm.Store(), Draining(d, m.src, rs, 0), index) && Nearest(heap.Contents(), index, m)
      requires Room(mm.usedChunks + vmblockSize, PieceSet(PendingMatches(mm)))
      requires FirstIs(heap.entries, m, layout) && mm.usedChunks == Used(Items(heap.entries[1..], layout))
      modifies `index, mm, heap
      ensures FirstIs(heap.entries, m, layout) && mm.usedChunks == Used(Items(heap.entries[1..], layout))
      ensures Items(heap.entries[1..], layout) == PutAll(old(Items(heap.entries[1..], layout)), RecHelds(rs))
      ensures r.Ok? && mm.Valid() && heap.Valid()
      ensures Inv(heap.Contents(), mm.Store(), Draining(d, m.src, rs, |rs|), index) && Nearest(heap.Contents(), index, m)
      ensures PendingMatches(mm) == old(PendingMatches(mm))
      ensures mm.usedChunks <= old(mm.usedChunks) + vmblockSize
      ensures old(heap.Contents()) <= heap.Contents()
    {
      hide Consistent, Inv, Nearest, Holds, Fits, Descending, Draining, Start, Room, FromLE, FirstIs, Items, Used, LzMatchHeap.Valid, Abs, PutAll, PieceSet;
      MarkLeads(heap.entries, m, layout);
      NoneBack(old(Items(heap.entries[1..], layout)), rs);
      var p: nat := 0;
      ghost var k, used := 0, mm.usedChunks;
      ghost var buf := vmbuf[..];
      EndOfRecords(buf, rs, k);
      while FromLE(vmbuf[p..p + 4]) != 0
        invariant mm.Valid() && heap.Valid() && vmbuf[..] == buf
        invariant 0 <= k <= |rs| && p + 4 <= vmblockSize && AtRecord(buf, rs, k, p)
        invariant Inv(heap.Contents(), mm.Store(), Draining(d, m.src, rs, k), index) && Nearest(heap.Contents(), index, m)
        invariant PendingMatches(mm) == old(PendingMatches(mm))
        invariant used <= mm.usedChunks <= used + p
        invariant old(heap.Contents()) <= heap.Contents()
        invariant FirstIs(heap.entries, m, layout) && heap.entries != [] && mm.usedChunks == Used(Items(heap.entries[1..], layout))
        invariant Items(heap.entries[1..], layout) == PutAll(old(Items(heap.entries[1..], layout)), RecHelds(rs)[..k])
        decreases |rs| - k
      {
        if p + 20 > vmblockSize {
          return Err(CorruptBlock);
        }
        var len := FromLE(vmbuf[p..p + 4]);
        if p + 20 + len > vmblockSize {
          return Err(CorruptBlock);
        }
        RoomForRecord(mm, heap.Contents(), d, m.src, rs, k, index, used, p, vmblockSize);
        p := RestoreRecord(mm, heap, p, len, rs, k, d, m);
        MarkLeads(heap.entries, m, layout);
        NextBack(old(Items(heap.entries[1..], layout)), rs, k);
        k := k + 1;
        EndOfRecords(buf, rs, k);
      }
      AllBack(rs, k);
      r := Ok(());
    }

    /** Read the block of `mark`, the nearest mark of the heap, and bring its records back. */
    method RestoreBlock(mm: MemoryManager, heap: LzMatchHeap, mark: HeapEntry) returns (r: Result<()>)
      requires Valid() && mm.Valid() && heap.Valid() && Barred(heap.Contents()) && mark.src in layout
      requires Inv(heap.Contents(), mm.Store(), DiskOf(layout), index) && Nearest(heap.Contents(), index, mark)
      requires Room(mm.usedChunks + vmblockSize, PieceSet(PendingMatches(mm)))
      requires heap.entries[0] == mark && Marked(heap.entries, layout) && mm.usedChunks == Used(Stock(heap))
      modifies this, vmbuf, mm, heap
      ensures Items(Removed(heap.entries, mark), layout) == PutAll(old(Items(heap.entries[1..], layout)), RecHelds(old(layout)[mark.src]))
      ensures r.Ok? && mark in heap.Contents() && StateWithout(mm, heap, mark)
      ensures PendingMatches(mm) == old(PendingMatches(mm)) && mm.usedChunks <= old(mm.usedChunks) + vmblockSize
      ensures totalRead == old(totalRead) + vmblockSize
      ensures exists e :: e in heap.Contents() - {mark} && e.IsLive() && e.index != 0 && e.dest == mark.dest
      ensures forall n :: n in heap.Contents() - {mark} && n.IsMarkingPoint() ==> mark.dest < n.dest
    {
      hide Consistent, Inv, MarksOk, FileOk, Holds, Fits, Descending, Draining, Room, Items, Used, FirstIs, LzMatchHeap.Valid, Marked, Removed;
      var block := mark.src;
      SerialsBelow(heap);
      MarkAhead(heap.entries, mark, layout, mm.Store(), index);
      DueSaved(heap.entries, mm.Store(), layout, index, mark);
      ghost var rs, layout1, d1 := layout[block], layout, DiskOf(layout);
      NearestIsMark(heap.Contents(), index, mark);
      BarrierStays(heap.Contents(), mark);
      hide Nearest;
      ReadBlock(block);
      DrainStart(d1, block, rs);
      r := RestoreRecords(mm, heap, rs, d1, mark);
      DrainEnd(layout1, block, rs);
      ghost var d2 := Draining(d1, block, rs, |rs|);
      BlockDone(heap.Contents(), mm.Store(), d2, index, block, mark);
      index := index.(mark := index.mark - {block});
      ghost var e :| e in heap.Contents() - {mark} && e.IsLive() && e.dest == mark.dest;
      EntrySaved(heap.Contents() - {mark}, mm.Store(), DiskOf(layout), index, e);
      MarkLeads(heap.entries, mark, layout);
    }

    /** Restore the spilled block behind `mark`, the nearest entry of the heap. The pending
        matches stay the same; afterwards, `mark` aside, the match it stood for is in the
        heap and every other mark is farther away. */
    method RestoreFromDisk(mm: MemoryManager, heap: LzMatchHeap, mark: HeapEntry) returns (r: Result<()>)
      requires State(mm, heap) && mark in heap.Contents() && mark.IsMarkingPoint()
      requires forall e :: e in heap.Contents() && e != mark ==> mark.Before(e)
      requires Room(mm.usefulMemory / 60 + vmblockSize, PieceSet(PendingMatches(mm)))
      modifies this, vmbuf, mm, heap
      ensures r.Ok? ==> mark in heap.Contents() && StateWithout(mm, heap, mark)
      ensures r.Ok? ==> PendingMatches(mm) == old(PendingMatches(mm))
      ensures r.Ok? ==> mm.usedChunks <= mm.usefulMemory / 60 + vmblockSize
      ensures r.Ok? ==> totalRead == old(totalRead) + vmblockSize
      ensures r.Ok? ==> exists e :: e in heap.Contents() - {mark} && e.IsLive() && e.index != 0 && e.dest == mark.dest
      ensures r.Ok? ==> forall n :: n in heap.Contents() - {mark} && n.IsMarkingPoint() ==> mark.dest < n.dest
      ensures r.Err? ==> r.error == Stalled && MayStall(old(PendingMatches(mm)), vmblockSize, mm.usefulMemory, vmblockSize)
      ensures var items := old(Stock(heap));
              && items != [] && items[0].Mark? && items[0].Key() == mark.dest
              && BringBack(items, MemoryLimits(mm)) == if r.Ok? then Some(Items(Removed(heap.entries, mark), layout)) else None
      ensures old(mm.AvailableSpace()) < vmblockSize && CannotSpill(old(heap.entries), vmblockSize) ==> r.Err?
    {
      hide Consistent, Inv, MarksOk, FileOk, MayStall, Nearest, SpillStep, EntryOk, Barred, CannotSpill, Items, Used, RoomFor, PutAll, Marked,
        LzMatchHeap.Valid;
      MarksFit(heap.entries, mm.Store(), vmfile, vmblockSize, freeBlocks, newBlock, layout, index);
      ghost var before, layout0, items, lim := heap.entries, layout, Stock(heap), MemoryLimits(mm);
      SerialsBelow(heap);
      RoomBehindMark(before, layout, mark, lim);
      ghost var h, s, d, w := heap.Contents(), mm.Store(), DiskOf(layout), index;
      FirstIsNearest(h, s, d, w, mark);
      MarkBlock(h, s, d, w, mark);
      var ok := MakeRoom(mm, heap, vmblockSize);
      if !ok {
        return Err(Stalled);
      }
      AfterRoom(h, s, d, w, heap.Contents(), index, mark);
      MarksFit(heap.entries, mm.Store(), vmfile, vmblockSize, freeBlocks, newBlock, layout, index);
      SerialsBelow(heap);
      RoomMade(items, before, heap.entries, layout0, layout, mark, lim);
      assert Room(mm.usedChunks + vmblockSize, PieceSet(PendingMatches(mm)));
      r := RestoreBlock(mm, heap, mark);
    }
  }

  /** `erased` are the farthest saved matches, as many as fit a block. */
  ghost predicate FarthestThatFit(s: seq<HeapEntry>, erased: seq<HeapEntry>, vs: nat) {
    erased == SavedDown(s)[..Fitting(HeldsOf(SavedDown(s)), 0, vs)]
  }

  /** The marks of the heap fit the blocks of the file. */
  lemma MarksFit(s: seq<HeapEntry>, st: Strings, file: seq<byte>, vs: nat, free: seq<nat>, newBlock: nat, layout: map<nat, seq<Rec>>, w: Index)
    requires Inv(Elems(s), st, DiskOf(layout), w) && MarksOk(Elems(s), w) && FileOk(file, vs, free, newBlock, layout)
    ensures Marked(s, layout)
  {
    forall e | e in s && e.IsMarkingPoint() ensures MarkFits(e, layout) {
      assert e in Elems(s) && EntryOk(e, st, DiskOf(layout), w) && MarkOk(e, w);
      assert LocOk(e.dest, Elems(s), DiskOf(layout), w);
      BlockLayout(file, vs, free, newBlock, layout, e.src);
      var rs := layout[e.src];
      var last := rs[|rs| - 1];
      assert BlockOk(e.src, Elems(s), DiskOf(layout), w) && last in DiskOf(layout)[e.src] && RecOk(e.src, last, w);
      var i :| 0 <= i < |rs| && rs[i] == w.loc[e.dest].r;
      LastIsNearest(rs, i);
    }
  }

  /** `m` is the first entry, and the marks behind it fit. */
  ghost predicate FirstIs(s: seq<HeapEntry>, m: HeapEntry, layout: map<nat, seq<Rec>>) {
    s != [] && s[0] == m && m.IsMarkingPoint() && Marked(s[1..], layout)
  }

  lemma MarkLeads(s: seq<HeapEntry>, m: HeapEntry, layout: map<nat, seq<Rec>>)
    requires FirstIs(s, m, layout)
    ensures s != [] && s[0] == m && m.IsMarkingPoint() && Removed(s, m) == s[1..]
  {
  }

  lemma SerialsBelow(heap: LzMatchHeap)
    requires heap.Valid()
    ensures Sorted(heap.entries) && forall e :: e in heap.entries ==> e.serial < heap.serialCounter
  {
  }

  /** A record of the block is due no earlier than its mark. */
  lemma MarkBefore(h: Heap, s: Strings, d: Disk, w: Index, m: HeapEntry, r: Rec)
    requires Inv(h, s, d, w) && m in h && m.IsMarkingPoint() && m.src in d && r in d[m.src]
    ensures m.dest <= r.dest
  {
    assert EntryOk(m, s, d, w) && BlockOk(m.src, h, d, w) && RecOk(m.src, r, w);
  }

  /** The match a mark stands for has its bytes on disk. */
  lemma DueSaved(s: seq<HeapEntry>, st: Strings, layout: map<nat, seq<Rec>>, w: Index, m: HeapEntry)
    requires Inv(Elems(s), st, DiskOf(layout), w) && m in s && m.IsMarkingPoint() && Marked(s, layout)
    ensures m.dest in Abs(st, w) && Abs(st, w)[m.dest].saved.Some?
  {
    assert m in Elems(s) && EntryOk(m, st, DiskOf(layout), w) && MarkFits(m, layout);
    var rs := layout[m.src];
    assert rs[|rs| - 1] in DiskOf(layout)[m.src] && BlockOk(m.src, Elems(s), DiskOf(layout), w) && RecOk(m.src, rs[|rs| - 1], w);
  }

  lemma EntrySaved(h: Heap, st: Strings, d: Disk, w: Index, e: HeapEntry)
    requires Inv(h, st, d, w) && e in h && e.IsLive() && e.dest in Abs(st, w) && Abs(st, w)[e.dest].saved.Some?
    ensures e.index != 0
  {
    assert EntryOk(e, st, d, w);
  }

  lemma RecordBehind(s: seq<HeapEntry>, m: HeapEntry, e: HeapEntry, layout: map<nat, seq<Rec>>)
    requires FirstIs(s, m, layout) && Sorted(s) && m.dest <= e.dest && e.len > 0 && e.index != 0 && forall f :: f in s ==> f.serial < e.serial
    ensures FirstIs(Inserted(s, e), m, layout)
    ensures Items(Inserted(s, e)[1..], layout) == Put(Items(s[1..], layout), Mem(Held(e.dest, e.len)))
  {
    InsertBehind(s, e);
    SortedTail(s);
    assert Inserted(s, e)[1..] == Inserted(s[1..], e);
    hide Items, Put, Marked, Sorted;
    MarkedInsert(s[1..], e, layout);
    InsertItem(s[1..], e, layout);
  }

  lemma NoneBack(items: seq<Item>, rs: seq<Rec>)
    ensures PutAll(items, RecHelds(rs)[..0]) == items
  {
  }

  lemma AllBack(rs: seq<Rec>, k: nat)
    requires k == |rs|
    ensures RecHelds(rs)[..k] == RecHelds(rs)
  {
  }

  lemma NextBack(items: seq<Item>, rs: seq<Rec>, k: nat)
    requires k < |rs|
    ensures |RecHelds(rs)| == |rs| && PutAll(items, RecHelds(rs)[..k + 1]) == Put(PutAll(items, RecHelds(rs)[..k]), Mem(Held(rs[k].dest, |rs[k].data|)))
  {
    var ms := RecHelds(rs)[..k + 1];
    assert ms[..|ms| - 1] == RecHelds(rs)[..k];
  }

  /** Once its block is read, the marks behind the first one still fit. */
  lemma MarkAhead(s: seq<HeapEntry>, m: HeapEntry, layout: map<nat, seq<Rec>>, st: Strings, w: Index)
    requires Inv(Elems(s), st, DiskOf(layout), w) && Sorted(s) && s != [] && s[0] == m && m.IsMarkingPoint() && Marked(s, layout)
    ensures FirstIs(s, m, layout) && FirstIs(s, m, layout - {m.src})
    ensures Items(s[1..], layout - {m.src}) == Items(s[1..], layout) && Used(Items(s, layout)) == Used(Items(s[1..], layout))
  {
    MarkedTail(s, layout);
    SortedTail(s);
    RemoveFirst(s, layout);
    MarkFirst(ItemOf(m, layout)[0], Items(s[1..], layout));
    assert ItemOf(m, layout) == [ItemOf(m, layout)[0]];
    hide Items;
    forall e | e in s[1..] && e.IsMarkingPoint()
      ensures e.src in layout && e.src in layout - {m.src} && layout[e.src] == (layout - {m.src})[e.src]
    {
      assert MarkFits(e, layout);
      assert e in Elems(s) && m in Elems(s) && EntryOk(e, st, DiskOf(layout), w) && EntryOk(m, st, DiskOf(layout), w);
    }
    OtherBlocks(s[1..], layout, layout - {m.src});
  }

  /** What is behind the first mark is spilled as if the mark were not there. */
  lemma RoomBehindMark(s: seq<HeapEntry>, layout: map<nat, seq<Rec>>, m: HeapEntry, lim: Limits)
    requires Sorted(s) && Marked(s, layout)
    requires m in s && m.IsMarkingPoint() && forall f :: f in s && f != m ==> m.Before(f)
    ensures var items := Items(s, layout);
            && m.src in layout && items != [] && items[0] == Mark(RecHelds(layout[m.src])) && items[0].Key() == m.dest
            && var rest := RoomFor(items[1..], lim, lim.vs);
               RoomFor(items, lim, lim.vs) == if rest.None? then None else Some([items[0]] + rest.value)
  {
    hide RoomFor, Marked, Items;
    FirstEntry(s, m);
    MarkInFront(s, m, layout);
    NoneBeforeMark(s, m, layout);
    MarkedHas(s, m, layout);
    var x, rest := Mark(RecHelds(layout[m.src])), Items(s[1..], layout);
    RoomBehind(x, rest, lim, lim.vs);
    assert ([x] + rest)[1..] == rest;
  }

  /** Making room leaves the first mark where it is, and so what is behind it is what that leaves. */
  lemma RoomMade(items: seq<Item>, s: seq<HeapEntry>, s': seq<HeapEntry>, layout: map<nat, seq<Rec>>, layout': map<nat, seq<Rec>>,
      m: HeapEntry, lim: Limits)
    requires Sorted(s) && Sorted(s') && Marked(s', layout') && m in s && m.IsMarkingPoint() && m.index == 0
    requires (forall f :: f in s && f != m ==> m.Before(f)) && (forall f :: f in s && f.IsLive() ==> m.dest < f.dest)
    requires SpillStep(Elems(s), Elems(s')) && m.src in layout && forall b :: b in layout ==> b in layout' && layout'[b] == layout[b]
    requires items != [] && items[0] == Mark(RecHelds(layout[m.src])) && RoomFor(items, lim, lim.vs) == Some(Items(s', layout'))
    requires var rest := RoomFor(items[1..], lim, lim.vs);
             RoomFor(items, lim, lim.vs) == if rest.None? then None else Some([items[0]] + rest.value)
    ensures s' != [] && s'[0] == m && RoomFor(items[1..], lim, lim.vs) == Some(Items(s'[1..], layout'))
  {
    hide RoomFor, Marked, SpillStep, Items;
    MarkStaysFirst(s, s', m);
    MarkInFront(s', m, layout');
    var rest := RoomFor(items[1..], lim, lim.vs).value;
    assert ([items[0]] + rest)[1..] == rest && ([items[0]] + Items(s'[1..], layout'))[1..] == Items(s'[1..], layout');
  }

  lemma MarkedHas(s: seq<HeapEntry>, m: HeapEntry, layout: map<nat, seq<Rec>>)
    requires Marked(s, layout) && m in s && m.IsMarkingPoint()
    ensures m.src in layout && Mark(RecHelds(layout[m.src])).Key() == m.dest
  {
    assert MarkFits(m, layout);
  }

  lemma MarkInFront(s: seq<HeapEntry>, m: HeapEntry, layout: map<nat, seq<Rec>>)
    requires Marked(s, layout) && s != [] && s[0] == m && m.IsMarkingPoint()
    ensures m.src in layout && Items(s, layout) == [Mark(RecHelds(layout[m.src]))] + Items(s[1..], layout)
  {
    MarkedHas(s, m, layout);
    RemoveFirst(s, layout);
  }

  lemma NoneBeforeMark(s: seq<HeapEntry>, m: HeapEntry, layout: map<nat, seq<Rec>>)
    requires Marked(s, layout) && Sorted(s) && s != [] && s[0] == m
    ensures NoneBefore(Items(s[1..], layout), m.dest)
  {
    MarkedTail(s, layout);
    SortedTail(s);
    NoneBeforeFirst(s[1..], layout, m.dest);
  }

  lemma MarkStaysFirst(s: seq<HeapEntry>, s': seq<HeapEntry>, m: HeapEntry)
    requires Sorted(s) && Sorted(s') && m in s && m.IsMarkingPoint() && m.index == 0 && (forall f :: f in s && f != m ==> m.Before(f))
    requires SpillStep(Elems(s), Elems(s')) && forall f :: f in s && f.IsLive() ==> m.dest < f.dest
    ensures s != [] && s[0] == m && s' != [] && s'[0] == m
  {
    FirstEntry(s, m);
    assert m in Elems(s) && m in Elems(s');
    forall f | f in s' && f != m ensures m.Before(f) {
      if f !in s {
        assert f in Elems(s') && f !in Elems(s);
        var g :| g in Elems(s) && g.IsLive() && g.index != 0 && g.dest == f.dest;
      }
    }
    FirstEntry(s', m);
  }

  lemma LastIsNearest(rs: seq<Rec>, i: nat)
    requires Descending(rs) && i < |rs|
    ensures rs[|rs| - 1].dest <= rs[i].dest
  {
  }

  lemma AllKept(s: seq<HeapEntry>, layout: map<nat, seq<Rec>>)
    requires Marked(s, layout)
    ensures Keep(Items(s, layout), |SavedDown(s)|) == Items(s, layout)
  {
    ItemsDown(s, layout);
    KeepAll(Items(s, layout), |SavedDown(s)|);
  }

  /** A block that no mark of the heap stands for does not change what the heap stands for. */
  lemma OneBlockMore(s: seq<HeapEntry>, layout: map<nat, seq<Rec>>, layout': map<nat, seq<Rec>>)
    requires Marked(s, layout) && forall b :: b in layout ==> b in layout' && layout'[b] == layout[b]
    ensures Items(s, layout') == Items(s, layout) && Marked(s, layout')
  {
    forall e | e in s && e.IsMarkingPoint() ensures e.src in layout && e.src in layout' && layout[e.src] == layout'[e.src] {
      assert MarkFits(e, layout);
    }
    OtherBlocks(s, layout, layout');
  }

  lemma FarthestPrefix(s: seq<HeapEntry>, erased: seq<HeapEntry>, vs: nat)
    requires FarthestThatFit(s, erased, vs)
    ensures erased <= SavedDown(s)
  {
    hide SavedDown, Fitting;
  }

  /** What a spill makes of the heap. */
  lemma AfterSpill(s: seq<HeapEntry>, layout: map<nat, seq<Rec>>, erased: seq<HeapEntry>, recs: seq<Rec>, b: nat, minDest: u64, serial: nat, vs: nat)
    requires Marked(s, layout) && FarthestThatFit(s, erased, vs) && erased != [] && |recs| == |erased|
    requires forall i :: 0 <= i < |recs| ==> recs[i].dest == erased[i].dest && |recs[i].data| == erased[i].len
    requires minDest == erased[|erased| - 1].dest && forall e :: e in erased ==> e.IsLive()
    ensures var items, m, layout' := Items(s, layout), HeapEntry(b, minDest, 0, 0, serial), layout[b := recs];
            && MarkFits(m, layout') && |erased| == Fitting(MemDown(items), 0, vs)
            && Put(Keep(items, |SavedDown(s)| - |erased|), ItemOf(m, layout')[0]) == Spill(items, |erased|)
            && Used(Spill(items, |erased|)) == Used(items) - HeldChunks(HeldsOf(erased)) < Used(items)
  {
    hide Items, Used, Put, Keep, MemDown, HeldChunks, SavedDown, Fitting, Marked, Spill, HeldsOf, RecHelds, FarthestThatFit;
    SomeChunks(erased);
    var items := Items(s, layout);
    ItemsDown(s, layout);
    SameHelds(s, erased, recs, vs);
    NewMark(erased, recs, b, minDest, serial, layout);
    SpillIs(items, |erased|);
    UsedSpill(items, |erased|);
  }

  lemma SameHelds(s: seq<HeapEntry>, erased: seq<HeapEntry>, recs: seq<Rec>, vs: nat)
    requires FarthestThatFit(s, erased, vs) && |recs| == |erased|
    requires forall i :: 0 <= i < |recs| ==> recs[i].dest == erased[i].dest && |recs[i].data| == erased[i].len
    ensures var all := HeldsOf(SavedDown(s));
            |erased| == Fitting(all, 0, vs) && |all| == |SavedDown(s)| && all[..|erased|] == HeldsOf(erased) == RecHelds(recs)
  {
    hide SavedDown, Fitting;
  }

  lemma NewMark(erased: seq<HeapEntry>, recs: seq<Rec>, b: nat, minDest: u64, serial: nat, layout: map<nat, seq<Rec>>)
    requires erased != [] && |recs| == |erased| && recs[|recs| - 1].dest == erased[|erased| - 1].dest == minDest
    ensures var m := HeapEntry(b, minDest, 0, 0, serial);
            MarkFits(m, layout[b := recs]) && ItemOf(m, layout[b := recs]) == [Mark(RecHelds(recs))]
  {
    hide RecHelds;
  }

  lemma SomeChunks(es: seq<HeapEntry>)
    requires es != [] && forall e :: e in es ==> e.IsLive()
    ensures HeldChunks(HeldsOf(es)) > 0
  {
    assert es[|es| - 1] in es;
  }

  lemma SpilledDisk(layout: map<nat, seq<Rec>>, b: nat, k: Packed, d: Disk)
    requires d == DiskOf(layout) && k.erased != []
    ensures DiskOf(layout[b := k.recs]) == PackDisk(k, d, b)
  {
  }

  lemma CannotSpillIff(s: seq<HeapEntry>, vs: nat)
    ensures CannotSpill(s, vs) <==> Fitting(HeldsOf(SavedDown(s)), 0, vs) == 0
  {
  }

  lemma HeldsNext(es: seq<HeapEntry>, e: HeapEntry)
    ensures HeldChunks(HeldsOf(es + [e])) == HeldChunks(HeldsOf(es)) + ChunksFor(e.len)
  {
    assert HeldsOf(es + [e]) == HeldsOf(es) + [Held(e.dest, e.len)];
    HeldAppend(HeldsOf(es), [Held(e.dest, e.len)]);
    assert [Held(e.dest, e.len)][..0] == [];
  }

  /** The walk has packed `erased`, in `p` bytes, and what comes next decides how many more. */
  ghost predicate Walked(all: seq<HeapEntry>, erased: seq<HeapEntry>, p: nat, vs: nat) {
    erased <= all && Fitting(HeldsOf(all), 0, vs) == |erased| + Fitting(HeldsOf(all[|erased|..]), p, vs)
  }

  lemma WalkStart(all: seq<HeapEntry>, vs: nat)
    ensures Walked(all, [], 0, vs) && HeldChunks(HeldsOf([])) == 0
  {
    assert all[0..] == all;
  }

  /** Another saved match fits. */
  lemma NextFits(s: seq<HeapEntry>, i: nat, p: nat, vs: nat)
    requires i < |s| && s[i].index != 0 && vs - p >= 24 + s[i].len && Walked(SavedDown(s), SavedDown(s[i + 1..]), p, vs)
    ensures Walked(SavedDown(s), SavedDown(s[i..]), p + 20 + s[i].len, vs)
  {
    hide SavedDown, Fitting, HeldsOf;
    SavedPrefix(s, i);
    SavedNext(s, i);
    WalkedNext(SavedDown(s), SavedDown(s[i + 1..]), s[i], p, vs);
  }

  lemma WalkedNext(all: seq<HeapEntry>, erased: seq<HeapEntry>, e: HeapEntry, p: nat, vs: nat)
    requires Walked(all, erased, p, vs) && erased + [e] <= all && vs - p >= 24 + e.len
    ensures Walked(all, erased + [e], p + 20 + e.len, vs)
  {
    hide Fitting, HeldsOf;
    var n := |erased|;
    assert all[n] == (erased + [e])[n];
    FittingNext(all[n..], p, vs);
    assert all[n..][1..] == all[n + 1..];
  }

  lemma FittingNext(all: seq<HeapEntry>, p: nat, vs: nat)
    requires all != [] && vs - p >= 24 + all[0].len
    ensures Fitting(HeldsOf(all), p, vs) == 1 + Fitting(HeldsOf(all[1..]), p + 20 + all[0].len, vs)
  {
    assert HeldsOf(all)[1..] == HeldsOf(all[1..]);
  }

  lemma NoneErased(h: Heap, erased: seq<HeapEntry>)
    ensures h - SetOf(erased[..0]) == h
  {
  }

  lemma OneErased(h: Heap, erased: seq<HeapEntry>, i: nat)
    requires i < |erased| && SetOf(erased) <= h && forall i, j :: 0 <= i < j < |erased| ==> erased[i] != erased[j]
    ensures erased[i] in h - SetOf(erased[..i]) && h - SetOf(erased[..i + 1]) == h - SetOf(erased[..i]) - {erased[i]}
  {
    assert erased[i] in SetOf(erased) && erased[i] !in erased[..i];
    assert erased[..i + 1] == erased[..i] + [erased[i]];
    SetOfAppend(erased[..i], erased[i]);
  }

  lemma HeadRemoved(heap: LzMatchHeap, e: HeapEntry, layout: map<nat, seq<Rec>>)
    requires heap.Valid() && Marked(heap.entries, layout) && SavedDown(heap.entries) != [] && e == SavedDown(heap.entries)[0]
    ensures SavedDown(Removed(heap.entries, e)) == SavedDown(heap.entries)[1..]
    ensures Items(Removed(heap.entries, e), layout) == Keep(Items(heap.entries, layout), |SavedDown(heap.entries)| - 1)
    ensures Marked(Removed(heap.entries, e), layout)
  {
    SavedIn(heap.entries, e);
    RemovedHas(heap.entries, e);
    hide MarkFits;
    RemoveFarthest(heap.entries, e, layout);
  }

  /** Nothing can be spilled: no match is saved, or the farthest saved match is too long for a block. */
  ghost predicate CannotSpill(s: seq<HeapEntry>, vs: nat) {
    SavedDown(s) == [] || vs < 24 + SavedDown(s)[0].len
  }

  /** The next record of a block finds room. */
  lemma RoomForRecord(mm: MemoryManager, h: Heap, d: Disk, b: nat, rs: seq<Rec>, k: nat, w: Index, used: nat, p: nat, vs: nat)
    requires mm.Valid() && k < |rs| && Inv(h, mm.Store(), Draining(d, b, rs, k), w)
    requires Room(used + vs, PieceSet(Abs(mm.Store(), w)))
    requires mm.usedChunks <= used + p && p + SPILL_HEADER + |rs[k].data| + 4 <= vs
    ensures |rs[k].data| <= U32_MAX && mm.usedChunks + ChunksFor(|rs[k].data|) <= MAX_USED
  {
    var dk := Draining(d, b, rs, k);
    assert rs[k] == rs[k..][0];
    assert BlockOk(b, h, dk, w) && RecOk(b, rs[k], w);
    hide Consistent, Inv, Demand, Abs, PieceSet;
    RoomToRestore(mm.blockAddr, mm.usedChunks, mm.account, h, dk, w, b, rs[k]);
  }

  lemma EndMarked(buf: seq<byte>, p: nat, recs: seq<Rec>)
    requires Fits(recs) && p == |Encode(recs)| && p + 4 <= |buf|
    requires buf[..p] == Encode(recs) && buf[p..p + 4] == LE32(0)
    ensures Holds(buf, recs)
  {
  }

  lemma {:induction false} NoneSaved(s: seq<HeapEntry>)
    requires forall e :: e in s ==> e.index == 0
    ensures SavedDown(s) == []
  {
    if s != [] { NoneSaved(s[1..]); }
  }

  lemma SavedNext(s: seq<HeapEntry>, i: nat)
    requires i < |s|
    ensures SavedDown(s[i..]) == SavedDown(s[i + 1..]) + if s[i].index == 0 then [] else [s[i]]
  {
    assert s[i..][1..] == s[i + 1..];
  }

  /** The saved matches behind a position come first. */
  lemma {:induction false} SavedPrefix(s: seq<HeapEntry>, i: nat)
    requires i <= |s|
    ensures SavedDown(s[i..]) <= SavedDown(s)
  {
    if i > 0 {
      SavedPrefix(s[1..], i - 1);
      assert s[1..][i - 1..] == s[i..];
    }
  }

  /** The walk stopped before saved match `i`. */
  lemma StoppedAt(s: seq<HeapEntry>, i: nat, p: nat, vs: nat)
    requires i < |s| && s[i].index != 0 && vs - p < 24 + s[i].len
    requires Walked(SavedDown(s), SavedDown(s[i + 1..]), p, vs)
    ensures FarthestThatFit(s, SavedDown(s[i + 1..]), vs)
  {
    SavedPrefix(s, i);
    SavedNext(s, i);
    hide SavedDown;
    var all, erased := SavedDown(s), SavedDown(s[i + 1..]);
    assert SavedDown(s[i..])[|erased|] == s[i];
    assert all[|erased|] == s[i];
  }

  lemma StoppedAtEnd(s: seq<HeapEntry>, p: nat, vs: nat)
    requires Walked(SavedDown(s), SavedDown(s[0..]), p, vs)
    ensures FarthestThatFit(s, SavedDown(s[0..]), vs)
  {
    assert s[0..] == s;
  }

  lemma NothingFits(s: seq<HeapEntry>, erased: seq<HeapEntry>, vs: nat)
    requires FarthestThatFit(s, erased, vs)
    ensures erased == [] <==> CannotSpill(s, vs)
  {
  }

  /** In a sorted list an entry is absent from, and no farther than, what follows it. */
  lemma SuffixAfter(s: seq<HeapEntry>, i: nat)
    requires Sorted(s) && i < |s|
    ensures s[i] in Elems(s) && s[i] !in s[i + 1..]
    ensures forall x :: x in s[i + 1..] ==> s[i].dest <= x.dest
  {
    assert s[i] in s;
    forall x | x in s[i + 1..] ensures s[i].Before(x) {
      var j :| 0 <= j < |s| - i - 1 && s[i + 1..][j] == x;
      assert s[i + 1 + j] == x;
    }
  }

  lemma PackStart(k: Packed, h: Heap, s: Strings, d: Disk, b: nat, serial: nat)
    requires k.h == h && k.recs == [] && k.erased == [] && b !in d
    requires forall e :: e in h ==> e.serial < serial
    requires Inv(h, s, d, k.w) && MarksOk(h, k.w)
    ensures PackOk(k, h, s, d, b, serial, Abs(s, k.w))
  {
    assert h - SetOf(k.erased) == h;
  }

  lemma PackSizes(k: Packed, h: Heap, s: Strings, d: Disk, b: nat, serial: nat, a: map<nat, Pending>)
    requires PackOk(k, h, s, d, b, serial, a)
    ensures |k.recs| == |k.erased|
  {
  }

  /** One spill keeps all unsaved entries and adds at most a mark at the destination of a spilled match. */
  ghost predicate SpillStep(h: Heap, h': Heap) {
    && (forall e :: e in h && e.index == 0 ==> e in h')
    && (forall e :: e in h' && e !in h ==> e.IsMarkingPoint() && exists f :: f in h && f.IsLive() && f.index != 0 && f.dest == e.dest)
  }

  lemma PackUse(k: Packed, h: Heap, s: Strings, d: Disk, b: nat, serial: nat, a: map<nat, Pending>)
    requires PackOk(k, h, s, d, b, serial, a) && Barred(h)
    requires forall e :: e in k.erased ==> e.index != 0 && e.IsLive()
    ensures |k.recs| == |k.erased| && SetOf(k.erased) <= h && Descending(k.recs)
    ensures forall i :: 0 <= i < |k.recs| ==> k.recs[i].dest == k.erased[i].dest && |k.recs[i].data| == k.erased[i].len
    ensures forall i, j :: 0 <= i < j < |k.erased| ==> k.erased[i] != k.erased[j]
    ensures k.erased != [] ==> Barred(k.h) && SpillStep(h, k.h)
    ensures k.erased != [] ==> k.h == h - SetOf(k.erased) + {HeapEntry(b, k.erased[|k.erased| - 1].dest, 0, 0, serial)}
  {
    hide Inv, MarksOk, Abs;
    forall i, j | 0 <= i < j < |k.erased| ensures k.erased[i] != k.erased[j] {
      assert k.recs[j].dest < k.recs[i].dest;
    }
    var x :| x in h && x.IsBarrier() && x.len > 0;
    assert x !in SetOf(k.erased);
    if k.erased != [] {
      var last := k.erased[|k.erased| - 1];
      assert last in h && last.IsLive();
    }
  }

  /** What a stall tells: the store is smaller than what is needed, or a pending match is too long for a block. */
  ghost predicate MayStall(a: map<nat, Pending>, vs: nat, useful: nat, need: nat) {
    || useful < need
    || (exists x :: x in a && vs < 24 + a[x].piece.len)
  }

  lemma NoStep(h: Heap)
    ensures SpillStep(h, h)
  {
  }

  lemma StepTwice(h: Heap, h1: Heap, h2: Heap)
    requires SpillStep(h, h1) && SpillStep(h1, h2)
    ensures SpillStep(h, h2)
  {
    forall e | e in h2 && e !in h
      ensures e.IsMarkingPoint() && exists f :: f in h && f.IsLive() && f.index != 0 && f.dest == e.dest
    {
      if e !in h1 {
        var f :| f in h1 && f.IsLive() && f.index != 0 && f.dest == e.dest;
        assert f in h;
      }
    }
  }

  lemma OwnerInHeap(h: Heap, s: Strings, d: Disk, w: Index, i: nat)
    requires Inv(h, s, d, w) && i in s
    ensures i != 0 && exists e :: e in h && e.index == i
  {
    assert OwnerOk(i, w) && LocOk(w.owner[i], h, d, w);
    assert w.loc[w.owner[i]].e in h;
  }

  lemma NothingStored(h: Heap, s: Strings, d: Disk, w: Index)
    requires Inv(h, s, d, w) && forall e :: e in h ==> e.index == 0
    ensures s == map[]
  {
    if s != map[] {
      var i :| i in s;
      OwnerInHeap(h, s, d, w, i);
    }
  }

  /** None of the matches fits a VM block with its framing. */
  ghost predicate TooLong(ps: set<Piece>, vs: nat) {
    forall p :: p in ps ==> vs < 24 + p.len
  }

  /** Then nothing can be spilled. */
  lemma NoneFits(mm: MemoryManager, s: seq<HeapEntry>, d: Disk, w: Index, vs: nat)
    requires Inv(Elems(s), mm.Store(), d, w) && TooLong(PieceSet(Abs(mm.Store(), w)), vs)
    ensures CannotSpill(s, vs)
  {
    if SavedDown(s) != [] {
      var e := SavedDown(s)[0];
      SavedIn(s, e);
      assert e in Elems(s) && EntryOk(e, mm.Store(), d, w);
      assert Abs(mm.Store(), w)[e.dest].piece.len == e.len;
    }
  }

  lemma StallReason(mm: MemoryManager, s: seq<HeapEntry>, layout: map<nat, seq<Rec>>, w: Index, vs: nat, need: nat)
    requires mm.Valid() && Inv(Elems(s), mm.Store(), DiskOf(layout), w) && mm.AvailableSpace() < need
    ensures CannotSpill(s, vs) ==> MayStall(Abs(mm.Store(), w), vs, mm.usefulMemory, need)
  {
    hide Consistent;
    var st := mm.Store();
    if SavedDown(s) == [] {
      forall e | e in Elems(s) ensures e.index == 0 {
        if e.index != 0 { AllSavedIn(s, e); }
      }
      NothingStored(Elems(s), st, DiskOf(layout), w);
      NothingUsed(mm.blockAddr, mm.usedChunks, mm.account);
    } else {
      var e := SavedDown(s)[0];
      SavedIn(s, e);
      assert e in Elems(s) && EntryOk(e, st, DiskOf(layout), w);
      assert Abs(st, w)[e.dest].piece.len == e.len;
    }
  }

  lemma Distinct(rs: seq<Rec>)
    requires Descending(rs)
    ensures forall i, j :: 0 <= i < j < |rs| ==> rs[i] != rs[j]
  {
  }

  lemma MayRestore(h: Heap, s: Strings, d: Disk, w: Index, b: nat, r: Rec, e: HeapEntry)
    requires Inv(h, s, d, w) && b in d && r in d[b] && e !in h && e.index != 0 && e.index !in s
    requires e.src == r.src && e.dest == r.dest && e.len == |r.data|
    ensures CanRestore(h, s, d, w, b, r, e)
  {
  }

  /** A reader at `p` is at the start of record `k`, or of the end mark behind the last one. */
  ghost predicate AtRecord(buf: seq<byte>, rs: seq<Rec>, k: nat, p: nat)
    requires Fits(rs) && k <= |rs| && p + 4 <= |buf|
  {
    && p == Start(rs, k)
    && FromLE(buf[p..p + 4]) == (if k < |rs| then |rs[k].data| else 0)
    && (k < |rs| ==> rs[k].data != [] && p + SPILL_HEADER + |rs[k].data| + 4 <= |buf|)
  }

  /** What a reader at the start of record `k` sees. */
  lemma EndOfRecords(buf: seq<byte>, rs: seq<Rec>, k: nat)
    requires Holds(buf, rs) && k <= |rs|
    ensures Start(rs, 0) == 0 && Start(rs, k) + 4 <= |buf|
    ensures AtRecord(buf, rs, k, Start(rs, k))
  {
    if k < |rs| { ReadRec(buf, rs, k); } else { ReadEnd(buf, rs); }
  }

  lemma MarkBlock(h: Heap, s: Strings, d: Disk, w: Index, m: HeapEntry)
    requires Inv(h, s, d, w) && m in h && m.IsMarkingPoint()
    ensures m.src in d && m.index == 0 && EntryOk(m, s, d, w)
  {
    assert EntryOk(m, s, d, w);
  }

  lemma AfterRoom(h: Heap, s: Strings, d: Disk, w: Index, h': Heap, w': Index, m: HeapEntry)
    requires Nearest(h, w, m) && EntryOk(m, s, d, w) && SpillStep(h, h') && MarksOk(h', w')
    requires forall e :: e in h && e.IsLive() ==> m.dest < e.dest
    ensures Nearest(h', w', m)
  {
    StillNearest(h, s, d, w, h', w', m);
  }

  lemma NearestIsMark(h: Heap, w: Index, m: HeapEntry)
    requires Nearest(h, w, m)
    ensures m in h && m.IsMarkingPoint()
  {
  }

  lemma DrainStart(d: Disk, b: nat, rs: seq<Rec>)
    requires b in d && d[b] == SetOf(rs)
    ensures Draining(d, b, rs, 0) == d
  {
    assert rs[0..] == rs;
  }

  lemma DrainEnd(layout: map<nat, seq<Rec>>, b: nat, rs: seq<Rec>)
    requires b in layout
    ensures var d := Draining(DiskOf(layout), b, rs, |rs|);
            b in d && d[b] == {} && d - {b} == DiskOf(layout - {b})
  {
  }

  lemma BarrierStays(h: Heap, m: HeapEntry)
    requires Barred(h) && m.IsMarkingPoint()
    ensures forall h' {:trigger Barred(h' - {m})} :: h <= h' ==> Barred(h' - {m})
  {
    var b :| b in h && b.IsBarrier() && b.len > 0;
    forall h' | h <= h' ensures Barred(h' - {m}) {
      assert b in h' - {m};
    }
  }

  lemma PackNextParts(k: Packed, s: Strings, b: nat, serial: nat, e: HeapEntry)
    requires e.index in s && e.IsLive()
    ensures PackNext(k, s, b, serial, e).recs == k.recs + [RecOf(e, s)]
    ensures PackNext(k, s, b, serial, e).erased == k.erased + [e]
  {
  }

  /** The farthest entry is the barrier. */
  lemma LastIsNotLive(s: seq<HeapEntry>, st: Strings, d: Disk, w: Index)
    requires Sorted(s) && Barred(Elems(s)) && forall e :: e in s ==> EntryOk(e, st, d, w)
    ensures s != [] && s[|s| - 1].index == 0
  {
    var b :| b in Elems(s) && b.IsBarrier() && b.len > 0;
    var i :| 0 <= i < |s| && s[i] == b;
    assert s[|s| - 1].dest == U64_MAX;
    assert EntryOk(s[|s| - 1], st, d, w);
  }

  /** Four fields written one after the other. */
  lemma Fields(s: seq<byte>, p: nat, a: seq<byte>, b: seq<byte>, c: seq<byte>, d: seq<byte>)
    requires |a| == 4 && |b| == 8 && |c| == 8 && p + 20 + |d| <= |s|
    ensures var t := Splice(Splice(Splice(Splice(s, p, a), p + 4, b), p + 12, c), p + 20, d);
            t[..p] == s[..p] && t[p..p + 20 + |d|] == a + b + c + d
  {
    var t1 := Splice(s, p, a);
    var t2 := Splice(t1, p + 4, b);
    assert t2[..p + 12] == s[..p] + a + b;
    var t3 := Splice(t2, p + 12, c);
    assert t3[..p + 20] == s[..p] + a + b + c;
    var t4 := Splice(t3, p + 20, d);
    assert t4[..p + 20 + |d|] == s[..p] + a + b + c + d;
    assert t4[p..p + 20 + |d|] == t4[..p + 20 + |d|][p..];
    assert s[..p] + a + b + c + d == s[..p] + (a + b + c + d);
  }
}
