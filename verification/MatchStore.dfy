/** The in-memory match store as the decoder uses it: an allocator of chunk chains
    over the byte blocks of `ChunkMemory`. */
module MatchStore {
  import opened Bytes
  import opened ChunkMemory
  import opened ChunkStore

  class MemoryManager {
    var blockAddr: Memory
    var firstFree: u32
    var usedChunks: nat
    const usefulMemory: u64
    var totalChunks: u32
    ghost var account: Account

    /** The invariant while the chunks of `part[start..]` are being added or removed. */
    ghost predicate Partial(part: seq<nat>, start: nat)
      reads this
    {
      && Consistent(blockAddr, usedChunks, account, part, start)
      && firstFree == Top(account.free)
      && totalChunks == |blockAddr| * K
    }

    ghost predicate Valid()
      reads this
    {
      Partial([], 0)
    }

    /** The used chunks fit the useful memory, and the blocks taken (64 bytes a chunk) the limit itself. */
    ghost predicate WithinLimit(memlimit: u64)
      reads this
    {
      && memlimit >= A_BLOCK_SIZE && usefulMemory == UsefulMemory(memlimit)
      && usedChunks * USEFUL_CHUNK_SPACE <= usefulMemory && totalChunks * CHUNK_SIZE <= memlimit
    }

    /** The saved strings by handle: what the store means to its clients. */
    ghost function Store(): map<nat, seq<byte>>
      reads this
    {
      account.strings
    }

    constructor (memlimit: u64)
      ensures Valid() && Store() == map[] && usedChunks == 0 && totalChunks == 0
      ensures usefulMemory == UsefulMemory(memlimit) && (memlimit >= A_BLOCK_SIZE ==> WithinLimit(memlimit))
    {
      UsefulMemoryValue(memlimit);
      usefulMemory := UsefulMemory(memlimit);
      blockAddr, firstFree, usedChunks, totalChunks := [], INVALID_INDEX, 0, 0;
      account := Account([], map[], map[], map[], map[]);
    }

    function AvailableSpace(): (n: nat)
      reads this
    {
      Max(usefulMemory - usedChunks * USEFUL_CHUNK_SPACE, 0)
    }

    /** Append a block whose chunks link to one another; `last` is the link of the last one. */
    static method AppendBlock(m: Memory, last: u32) returns (r: Memory)
      requires WellFormed(m) && |m| + 1 < 0x4_0000
      ensures FreshBlock(m, r, last)
    {
      var block := |m|;
      r := m + [seq(A_BLOCK_SIZE, _ => 0)];
      var i := block * K;
      while i < (block + 1) * K - 1
        invariant block * K <= i <= (block + 1) * K - 1
        invariant Keeps(m, r) && |r| == block + 1
        invariant forall j {:trigger NextIndex(r, j)} :: block * K <= j < i ==> NextIndex(r, j) == j + 1
      {
        r := SetNextIndex(r, i, i + 1);
        i := i + 1;
      }
      r := SetNextIndex(r, (block + 1) * K - 1, last);
    }

    /** Add one block of chunks, on top of those that are free. */
    method AllocateBlock(ghost part: seq<nat>)
      requires Partial(part, 0) && |blockAddr| + 1 < 0x4_0000
      modifies `blockAddr, `firstFree, `totalChunks, `account
      ensures Partial(part, 0) && account.free != [] && old(account.free) <= account.free
      ensures totalChunks == old(totalChunks) + K
      ensures account.strings == old(account.strings) && account.place == old(account.place)
      ensures Keeps(old(blockAddr), blockAddr)
    {
      hide StringsOk, PartOk, FreeListOk, Extend, Top;
      var block := |blockAddr|;
      blockAddr := AppendBlock(blockAddr, firstFree);
      firstFree := block * K;
      if firstFree == INVALID_INDEX {
        firstFree := firstFree + 1;
      }
      totalChunks := (block + 1) * K;
      Extended(old(blockAddr), blockAddr, usedChunks, account, part, firstFree);
      ExtendTop(account, firstFree, totalChunks - 1);
      account := Extend(account, firstFree, totalChunks - 1);
    }

    /** Pop a chunk off the free list and make it the newest chunk of `part`. */
    method Allocate(ghost part: seq<nat>) returns (chunk: u32)
      requires Partial(part, 0) && usedChunks < MAX_USED
      modifies this
      ensures Partial(part + [chunk], 0) && chunk != INVALID_INDEX && InMemory(blockAddr, chunk)
      ensures usedChunks == old(usedChunks) + 1 && account.strings == old(account.strings)
      ensures chunk !in old(account.place)
      ensures totalChunks == old(totalChunks) || totalChunks <= usedChunks + K
      ensures Keeps(old(blockAddr), blockAddr)
    {
      hide StringsOk, PartOk, FreeListOk;
      TopZero(blockAddr, account);
      if firstFree == INVALID_INDEX {
        Exhausted(blockAddr, usedChunks, account, part);
        AllocateBlock(part);
      }
      Popped(blockAddr, usedChunks, account, part);
      PoppedTop(blockAddr, account, part);
      chunk := firstFree;
      firstFree := NextIndex(blockAddr, chunk);
      usedChunks := usedChunks + 1;
      account := Pop(account, part);
    }

    method MarkAsFree(index: u32, ghost part: seq<nat>, ghost start: nat)
      requires Partial(part, start) && start < |part| && part[start] == index && InMemory(blockAddr, index)
      modifies this
      ensures Partial(part, start + 1)
      ensures usedChunks == old(usedChunks) - 1 && account.strings == old(account.strings) && totalChunks == old(totalChunks)
      ensures ChangedOnly(old(blockAddr), blockAddr, index)
    {
      hide StringsOk, PartOk, FreeListOk;
      var ff := firstFree;
      blockAddr := SetNextIndex(blockAddr, index, ff);
      Pushed(old(blockAddr), blockAddr, usedChunks, account, part, start);
      firstFree := index;
      usedChunks := usedChunks - 1;
      account := Push(account, index);
    }


    /** Store a link in a chunk of the chain under construction. */
    method SetLink(index: u32, next: u32, ghost part: seq<nat>, ghost i: nat)
      requires Partial(part, 0) && i < |part| && part[i] == index && InMemory(blockAddr, index)
      modifies `blockAddr
      ensures Partial(part, 0)
      ensures ChangedOnly(old(blockAddr), blockAddr, index)
      ensures NextIndex(blockAddr, index) == next && Payload(blockAddr, index) == Payload(old(blockAddr), index)
    {
      hide StringsOk, PartOk, FreeListOk;
      blockAddr := SetNextIndex(blockAddr, index, next);
      PartWritten(old(blockAddr), blockAddr, usedChunks, account, part, i);
    }

    /** Fill the payload of a chunk of the chain under construction. */
    method Fill(index: u32, bytes: seq<byte>, ghost part: seq<nat>, ghost i: nat)
      requires Partial(part, 0) && i < |part| && part[i] == index && InMemory(blockAddr, index)
      requires |bytes| <= USEFUL_CHUNK_SPACE
      modifies `blockAddr
      ensures Partial(part, 0)
      ensures ChangedOnly(old(blockAddr), blockAddr, index)
      ensures Payload(blockAddr, index)[..|bytes|] == bytes
    {
      hide StringsOk, PartOk, FreeListOk;
      blockAddr := SetPayload(blockAddr, index, bytes);
      PartWritten(old(blockAddr), blockAddr, usedChunks, account, part, i);
    }

    /** One round of `Save`: add a chunk carrying the next bytes of `data`. */
    method AddChunk(prev: u32, data: seq<byte>, off: nat, len: nat, ghost part: seq<nat>) returns (index: u32)
      requires Partial(part, 0) && usedChunks < MAX_USED
      requires Growing(blockAddr, part, data) && off == Lo(|part|) < |data| && len == |data| - off
      requires prev == if part == [] then INVALID_INDEX else part[|part| - 1]
      modifies this
      ensures Partial(part + [index], 0) && Store() == old(Store()) && usedChunks == old(usedChunks) + 1
      ensures totalChunks == old(totalChunks) || totalChunks <= usedChunks + K
      ensures Growing(blockAddr, part + [index], data)
    {
      hide StringsOk, FreeListOk, Growing;
      ghost var m := blockAddr;
      index := Allocate(part);
      ghost var a := blockAddr;
      ghost var p := part + [index];
      GrowingNonzero(m, part, data);
      if prev != INVALID_INDEX {
        SetLink(prev, index, p, |part| - 1);
      }
      ghost var b := blockAddr;
      var bytes := Min(len, USEFUL_CHUNK_SPACE);
      Fill(index, data[off..off + bytes], p, |part|);
      LinkedBySteps(m, a, b, blockAddr, part, index);
      Grown(m, blockAddr, part, index, data);
    }

    /** Save a non-empty string; the handle is new and every other saved string stays as it is. */
    method Save(data: seq<byte>) returns (first: u32)
      requires Valid() && data != [] && usedChunks + ChunksFor(|data|) <= MAX_USED
      modifies this
      ensures Valid() && first != INVALID_INDEX && first !in old(Store())
      ensures Store() == old(Store())[first := data]
      ensures usedChunks == old(usedChunks) + ChunksFor(|data|)
      // The store grows only when it is exhausted.
      ensures totalChunks == old(totalChunks) || totalChunks <= usedChunks + K
    {
      hide StringsOk, FreeListOk, PartOk, Growing, Finished;
      var index: u32, prev: u32 := INVALID_INDEX, INVALID_INDEX;
      first := INVALID_INDEX;
      var off, len := 0, |data|;
      ghost var part: seq<nat> := [];
      GrowingStart(blockAddr, data);
      while len > 0
        invariant Partial(part, 0) && Store() == old(Store())
        invariant Growing(blockAddr, part, data) && |part| <= ChunksFor(|data|)
        invariant off == Min(Lo(|part|), |data|) && len == |data| - off
        invariant usedChunks == old(usedChunks) + |part|
        invariant totalChunks == old(totalChunks) || totalChunks <= usedChunks + K
        invariant prev == index == if part == [] then INVALID_INDEX else part[|part| - 1]
        invariant part != [] ==> first == part[0] && prev != INVALID_INDEX
      {
        index := AddChunk(prev, data, off, len, part);
        if prev == INVALID_INDEX {
          first := index;
        }
        part := part + [index];
        prev := index;
        var bytes := Min(len, USEFUL_CHUNK_SPACE);
        off := off + bytes;
        len := len - bytes;
        GrowingNonzero(blockAddr, part, data);
      }
      GrowingNonzero(blockAddr, part, data);
      ghost var m := blockAddr;
      SetLink(index, INVALID_INDEX, part, |part| - 1);
      Ended(m, blockAddr, account, part, data);
      Committed(blockAddr, usedChunks, account, part, data);
      account := Commit(account, part, data);
    }

    /** Copy the saved string with handle `index` into `buf` at `off0`. */
    method Restore(index: u32, buf: array<byte>, off0: nat, len: nat)
      requires Valid() && index in Store() && len == |Store()[index]| && off0 + len <= buf.Length
      modifies buf
      ensures buf[..] == Splice(old(buf[..]), off0, Store()[index])
    {
      hide StringsOk, FreeListOk, PartOk, Saved, Filled, Splice;
      var c, off, rest := index, 0, len;
      ghost var k, data, was := 0, Store()[index], buf[..];
      ChainOf(blockAddr, usedChunks, account, index);
      ghost var chain := account.chains[index];
      FilledEnds(was, off0, data);
      while rest > 0
        invariant off == Min(Lo(k), len) && rest == len - off && k <= |chain|
        invariant k < |chain| ==> c == chain[k]
        invariant buf[..] == Filled(was, off0, data, off)
      {
        ChunkOf(blockAddr, account, index, k);
        var bytes := Min(rest, USEFUL_CHUNK_SPACE);
        CopyInto(buf, off0 + off, Payload(blockAddr, c)[..bytes]);
        FilledNext(was, off0, data, off, bytes);
        off := off + bytes;
        rest := rest - bytes;
        c := NextIndex(blockAddr, c);
        k := k + 1;
      }
    }

    /** Return the chunks of a saved string to the free list; every other saved string stays as it is. */
    method Free(index0: u32)
      requires Valid() && index0 in Store()
      modifies this
      ensures Valid() && Store() == old(Store()) - {index0}
      ensures usedChunks == old(usedChunks) - ChunksFor(|old(Store())[index0]|) && totalChunks == old(totalChunks)
    {
      hide StringsOk, FreeListOk, PartOk;
      ChainOf(blockAddr, usedChunks, account, index0);
      ghost var chain := account.chains[index0];
      Released(blockAddr, usedChunks, account, index0);
      account := Release(account, index0);
      var index := index0;
      ghost var start := 0;
      while index != INVALID_INDEX
        invariant start <= |chain| && Partial(chain, start) && Chain(blockAddr, chain, start, false)
        invariant index == if start < |chain| then chain[start] else INVALID_INDEX
        invariant Store() == old(Store()) - {index0}
        invariant usedChunks == old(usedChunks) - start && totalChunks == old(totalChunks)
        decreases |chain| - start
      {
        var next := NextIndex(blockAddr, index);
        ghost var m, g := blockAddr, account;
        MarkAsFree(index, chain, start);
        ChainTail(m, blockAddr, g, chain, start);
        start := start + 1;
        index := next;
      }
      NoPart(account, chain);
    }
  }
}
