/** The Future-LZ block decoder: matches are queued when their source is decoded and
    copied when their destination is reached. */
module FutureDecoder {
  import opened Bytes
  import opened MatchModel
  import opened ChunkStore
  import opened MatchStore
  import opened MatchHeap
  import opened PendingModel
  import opened StoreDemand
  import opened VirtualMemory
  import opened SpillModel
  import opened HeapItems
  import opened Records
  import opened FutureSpec

  /** Put a match into the heap; `s0` is the store before the match's own bytes were saved. */
  method InsertMatch(mm: MemoryManager, vm: VirtualMemoryManager, heap: LzMatchHeap, m: LzMatch, idx: u32, ghost s0: Strings)
    requires vm.Valid() && mm.Valid() && heap.Valid()
    requires Inv(heap.Contents(), s0, DiskOf(vm.layout), vm.index) && MarksOk(heap.Contents(), vm.index) && Barred(heap.Contents())
    requires m.len > 0 && m.dest < U64_MAX && m.dest !in vm.index.loc
    requires if idx == 0 then mm.Store() == s0
             else idx !in s0 && idx in mm.Store() && |mm.Store()[idx]| == m.len && mm.Store() == s0[idx := mm.Store()[idx]]
    requires mm.usedChunks == Used(vm.Stock(heap)) + if idx == 0 then 0 else ChunksFor(m.len)
    modifies vm`index, heap
    ensures vm.State(mm, heap)
    ensures vm.Stock(heap) == if idx == 0 then old(vm.Stock(heap)) else Put(old(vm.Stock(heap)), Mem(Held(m.dest, m.len)))
    ensures vm.PendingMatches(mm) == old(Abs(s0, vm.index))[m.dest :=
              Pending(Piece(m.src, m.dest, m.len), if idx == 0 then None else Some(mm.Store()[idx]))]
  {
    hide Consistent, MarksOk, FileOk, Inv, Items, Used, Put, LzMatchHeap.Valid;
    NoStringZero(heap.Contents(), s0, DiskOf(vm.layout), vm.index);
    MarksFit(heap.entries, s0, vm.vmfile, vm.vmblockSize, vm.freeBlocks, vm.newBlock, vm.layout, vm.index);
    SerialsBelow(heap);
    ghost var h, before := heap.Contents(), heap.entries;
    ghost var e := heap.Insert(HeapEntry(m.src, m.dest, m.len, idx, 0));
    MatchInserted(before, e, vm.layout);
    AddOne(h, s0, mm.Store(), DiskOf(vm.layout), vm.index, e);
    vm.index := AddIndex(vm.index, e);
    BarredMore(h, e);
  }

  lemma MatchInserted(s: seq<HeapEntry>, e: HeapEntry, layout: FileLayout)
    requires Sorted(s) && Marked(s, layout) && e.len > 0 && forall f :: f in s ==> f.serial < e.serial
    ensures Items(Inserted(s, e), layout) == if e.index == 0 then Items(s, layout) else Put(Items(s, layout), Mem(Held(e.dest, e.len)))
  {
    hide Items, Put, Sorted, Marked;
    if e.index == 0 { InsertPlain(s, e, layout); } else { InsertItem(s, e, layout); }
  }

  lemma NoStringZero(h: Heap, s: Strings, d: Disk, w: Index)
    requires Inv(h, s, d, w)
    ensures 0 !in s
  {
  }

  lemma BarredMore(h: Heap, e: HeapEntry)
    requires Barred(h)
    ensures Barred(h + {e})
  {
    var b :| b in h && b.IsBarrier() && b.len > 0;
    assert b in h + {e};
  }

  // ---- reading a match list ----

  /** The list read record by record: `L[n..]` is what the words from `cur` on still hold. */
  ghost predicate Reading(stat: seq<u32>, round: bool, l: u32, start: u64, cur: nat, n: nat, pos: u64)
    requires round ==> l > 0
  {
    var ps := FutureList(stat, round, l, start);
    cur <= |stat| && n <= |ps| && ps[n..] == FutureList(stat[cur..], round, l, pos) && pos == Previous(ps, start, n)
  }

  lemma ReadingStart(stat: seq<u32>, round: bool, l: u32, start: u64)
    requires round ==> l > 0
    ensures Reading(stat, round, l, start, 0, 0, start)
  {
    assert stat[0..] == stat;
  }

  lemma FutureCons(stat: seq<u32>, round: bool, l: u32, pos: u64)
    requires (round ==> l > 0) && |stat| >= StatsPerMatch(round)
    ensures var m := DecodeLzMatch(stat, true, round, l, pos).1;
            FutureList(stat, round, l, pos) == [Piece(m.src, m.dest, m.len)] + FutureList(stat[StatsPerMatch(round)..], round, l, m.src)
  {
    hide DecodeLzMatch;
  }

  lemma ReadingNext(stat: seq<u32>, round: bool, l: u32, start: u64, cur: nat, n: nat, pos: u64)
    requires (round ==> l > 0) && Reading(stat, round, l, start, cur, n, pos)
    requires |stat| - cur >= StatsPerMatch(round)
    ensures var m := DecodeLzMatch(stat[cur..], true, round, l, pos).1;
            var ps := FutureList(stat, round, l, start);
            && n < |ps| && ps[n] == Piece(m.src, m.dest, m.len) && ps[..n + 1] == ps[..n] + [ps[n]]
            && Reading(stat, round, l, start, cur + StatsPerMatch(round), n + 1, m.src)
  {
    var ps, spp := FutureList(stat, round, l, start), StatsPerMatch(round);
    FutureCons(stat[cur..], round, l, pos);
    hide DecodeLzMatch, FutureList, StatsPerMatch;
    var m := DecodeLzMatch(stat[cur..], true, round, l, pos).1;
    assert stat[cur..][spp..] == stat[cur + spp..];
    SuffixCons(ps, n, Piece(m.src, m.dest, m.len), FutureList(stat[cur + spp..], round, l, m.src));
  }

  lemma ReadingEnd(stat: seq<u32>, round: bool, l: u32, start: u64, cur: nat, n: nat, pos: u64)
    requires (round ==> l > 0) && Reading(stat, round, l, start, cur, n, pos)
    requires |stat| - cur < StatsPerMatch(round)
    ensures n == |FutureList(stat, round, l, start)|
  {
  }

  lemma FreshNext(a: PendingMap, ps: seq<Piece>, n: nat, hi: nat)
    requires ListFresh(a, ps) && n < |ps|
    ensures ps[n].dest !in WithDue(a, ps[..n], hi) && ps[n].len > 0 && ps[n].dest < U64_MAX
    ensures WithDue(a, ps[..n + 1], hi) ==
      if ps[n].dest < hi then WithDue(a, ps[..n], hi)[ps[n].dest := Pending(ps[n], None)] else WithDue(a, ps[..n], hi)
  {
    assert ps[..n + 1][..n] == ps[..n];
    DueStep(a, ps[..n + 1], hi);
    var qs, x := ps[..n], ps[n].dest;
    assert ListFresh(a, qs);
    WithDueEntries(a, qs, hi);
    hide WithDue;
    var b := WithDue(a, qs, hi);
    forall i | 0 <= i < n ensures qs[i].dest != x { assert qs[i] == ps[i]; }
    assert x !in a;
  }

  lemma ListOkNone(pos: nat, hi: nat)
    ensures ListOk([], pos, hi)
  {
  }

  lemma ListOkNext(ps: seq<Piece>, pos: nat, hi: nat, n: nat)
    requires n < |ps| && ListOk(ps[..n], pos, hi)
    ensures ListOk(ps[..n + 1], pos, hi) <==> RecordOk(ps[n], Previous(ps, pos, n), hi)
    ensures !RecordOk(ps[n], Previous(ps, pos, n), hi) ==> !ListOk(ps, pos, hi)
  {
    var qs := ps[..n + 1];
    forall i | 0 <= i <= n ensures Previous(qs, pos, i) == Previous(ps, pos, i) && qs[i] == ps[i] {
    }
    forall i | 0 <= i < n ensures RecordOk(qs[i], Previous(qs, pos, i), hi) {
      assert RecordOk(ps[..n][i], Previous(ps[..n], pos, i), hi);
    }
    if ListOk(qs, pos, hi) {
      assert RecordOk(qs[n], Previous(qs, pos, n), hi);
    }
  }

  /** Phase 1: insert the matches whose destination lies in the current block. */
  method InsertDue(round: bool, l: u32, blockStart: u64, blockEnd: u64, statraw: seq<u32>,
      mm: MemoryManager, vm: VirtualMemoryManager, heap: LzMatchHeap) returns (ok: bool)
    requires vm.State(mm, heap) && (round ==> l > 0)
    requires ListFresh(vm.PendingMatches(mm), FutureList(statraw, round, l, blockStart))
    modifies vm`index, heap
    ensures vm.State(mm, heap) && vm.Stock(heap) == old(vm.Stock(heap))
    ensures ok <==> ListOk(FutureList(statraw, round, l, blockStart), blockStart, blockEnd)
    ensures ok ==> vm.PendingMatches(mm) == WithDue(old(vm.PendingMatches(mm)), FutureList(statraw, round, l, blockStart), blockEnd)
  {
    hide Consistent, MarksOk, FileOk, Inv, Reading, FutureList, ListFresh, ListOk, Barred, Items, Used;
    ghost var ps, a := FutureList(statraw, round, l, blockStart), vm.PendingMatches(mm);
    var blockPos: u64, cur := blockStart, 0;
    ghost var n := 0;
    ReadingStart(statraw, round, l, blockStart);
    ListOkNone(blockStart, blockEnd);
    while |statraw| - cur >= StatsPerMatch(round)
      invariant cur <= |statraw| && n <= |ps| && Reading(statraw, round, l, blockStart, cur, n, blockPos)
      invariant vm.State(mm, heap) && vm.PendingMatches(mm) == WithDue(a, ps[..n], blockEnd) && vm.Stock(heap) == old(vm.Stock(heap))
      invariant blockPos == Previous(ps, blockStart, n)
      invariant ListOk(ps[..n], blockStart, blockEnd)
      decreases |statraw| - cur
    {
      ReadingNext(statraw, round, l, blockStart, cur, n, blockPos);
      FreshNext(a, ps, n, blockEnd);
      ListOkNext(ps, blockStart, blockEnd, n);
      var lz := DecodeLzMatch(statraw[cur..], true, round, l, blockPos).1;
      cur := cur + StatsPerMatch(round);
      if lz.src < blockPos || lz.src >= blockEnd || lz.len > blockEnd - lz.src || lz.dest <= lz.src {
        return false;
      }
      if lz.dest < blockEnd {
        InsertMatch(mm, vm, heap, lz, 0, mm.Store());
      }
      blockPos := lz.src;
      n := n + 1;
    }
    ReadingEnd(statraw, round, l, blockStart, cur, n, blockPos);
    assert ps[..n] == ps;
    ok := true;
  }

  // ---- phase 2 ----

  /** Forward-overlap byte expander (increasing address order). */
  method OverlapCopy(out: array<byte>, dstOff: nat, srcOff: nat, len: nat)
    requires srcOff < dstOff && dstOff + len <= out.Length
    modifies out
    ensures forall k :: 0 <= k < out.Length && !(dstOff <= k < dstOff + len) ==> out[k] == old(out[k])
    ensures forall k :: dstOff <= k < dstOff + len ==> out[k] == out[k - (dstOff - srcOff)]
  {
    for i := 0 to len
      invariant forall k :: 0 <= k < out.Length && !(dstOff <= k < dstOff + i) ==> out[k] == old(out[k])
      invariant forall k :: dstOff <= k < dstOff + i ==> out[k] == out[k - (dstOff - srcOff)]
    {
      var v := out[srcOff + i];
      out[dstOff + i] := v;
    }
  }

  /** Bytes taken from the earlier output make a true copy. */
  lemma StoredCopy(d: seq<byte>, backend: seq<byte>, p: Piece, c: seq<byte>)
    requires backend <= d && p.src + p.len <= |backend| && p.src < p.dest == |d|
    requires c == backend[p.src..p.src + p.len]
    ensures TrueCopy(d + c, p)
  {
    forall x | p.dest <= x < p.dest + p.len ensures (d + c)[x] == (d + c)[x - (p.dest - p.src)] {
      var y := x - p.dest;
      assert c[y] == backend[p.src + y] == d[p.src + y];
    }
  }

  /** Copy the bytes of one match to `out[outPos..]`, from wherever they are. */
  method CopyMatch(backend: seq<byte>, blockStart: u64, out: array<byte>, outPos: nat, e: HeapEntry,
      mm: MemoryManager, maximumSave: u32, ghost q: Pending) returns (r: Result<()>)
    requires mm.Valid() && |backend| == blockStart
    requires q.piece == Piece(e.src, e.dest, e.len) && KeyOk(q, e.dest) && Fetchable(q, backend, maximumSave)
    requires if e.index == 0 then q.saved.None? else e.index in mm.Store() && q.saved == Some(mm.Store()[e.index])
    requires blockStart + outPos == e.dest && outPos + e.len <= out.Length
    modifies out
    ensures r.Ok? && out[..outPos] == old(out[..outPos])
    ensures TrueCopy(backend + out[..outPos] + out[outPos..outPos + e.len], q.piece)
  {
    hide Consistent;
    ghost var d := backend + out[..outPos];
    if e.len >= maximumSave && e.src < blockStart {
      if e.src + e.len > |backend| {
        return Err(ReadFailed);
      }
      var tmp := backend[e.src..e.src + e.len];
      CopyInto(out, outPos, tmp);
      StoredCopy(d, backend, q.piece, tmp);
      SplicedParts(old(out[..]), outPos, tmp, out[..]);
    } else if e.index != 0 {
      mm.Restore(e.index, out, outPos, e.len);
      StoredCopy(d, backend, q.piece, mm.Store()[e.index]);
      SplicedParts(old(out[..]), outPos, mm.Store()[e.index], out[..]);
    } else {
      var srcOff := e.src - blockStart;
      OverlapCopy(out, outPos, srcOff, e.len);
      assert out[..outPos] == old(out[..outPos]);
      OverlapTrue(backend, out[..], outPos, q.piece);
    }
    assert out[..][..outPos] == out[..outPos] && out[..][outPos..outPos + e.len] == out[outPos..outPos + e.len];
    r := Ok(());
  }

  lemma SplicedParts(s: seq<byte>, off: nat, data: seq<byte>, t: seq<byte>)
    requires off + |data| <= |s| && t == Splice(s, off, data)
    ensures t[..off] == s[..off] && t[off..off + |data|] == data
  {
  }

  lemma OverlapTrue(backend: seq<byte>, o: seq<byte>, outPos: nat, p: Piece)
    requires |backend| <= p.src < p.dest == |backend| + outPos && outPos + p.len <= |o|
    requires forall k :: outPos <= k < outPos + p.len ==> o[k] == o[k - (p.dest - p.src)]
    ensures TrueCopy(backend + o[..outPos] + o[outPos..outPos + p.len], p)
  {
    var d := backend + o[..outPos] + o[outPos..outPos + p.len];
    assert d == backend + o[..outPos + p.len];
    forall x | p.dest <= x < p.dest + p.len ensures d[x] == d[x - (p.dest - p.src)] {
      assert d[x] == o[x - |backend|];
    }
  }

  /** Take a copied match out of heap and store. */
  method FinishMatch(mm: MemoryManager, vm: VirtualMemoryManager, heap: LzMatchHeap, e: HeapEntry)
    requires vm.State(mm, heap) && e in heap.Contents() && e.IsLive() && forall f :: f in heap.Contents() && f != e ==> e.Before(f)
    modifies mm, vm`index, heap
    ensures vm.State(mm, heap) && vm.PendingMatches(mm) == old(vm.PendingMatches(mm)) - {e.dest}
    ensures Taken(old(vm.Stock(heap)), e, vm.Stock(heap))
    ensures mm.usedChunks <= old(mm.usedChunks) && mm.totalChunks == old(mm.totalChunks)
  {
    hide Consistent, MarksOk, FileOk, Inv, Items, Used, LzMatchHeap.Valid;
    SerialsBelow(heap);
    FirstTaken(heap.entries, e, vm.layout);
    ghost var h, s := heap.Contents(), mm.Store();
    NoStringZero(h, s, DiskOf(vm.layout), vm.index);
    EntryStored(h, s, DiskOf(vm.layout), vm.index, e);
    RemoveOne(h, s, DiskOf(vm.layout), vm.index, e);
    if e.index != 0 {
      mm.Free(e.index);
    } else {
      assert s - {e.index} == s;
    }
    heap.Remove(e);
    vm.index := vm.index.(loc := vm.index.loc - {e.dest});
    BarredLess(h, e);
  }

  /** The first entry has been taken out: a saved match was the first item, another was none. */
  ghost predicate Taken(items: seq<Item>, e: HeapEntry, left: seq<Item>) {
    if e.index == 0 then left == items else items != [] && items[0] == Mem(Held(e.dest, e.len)) && left == items[1..]
  }

  lemma FirstTaken(s: seq<HeapEntry>, e: HeapEntry, layout: FileLayout)
    requires Sorted(s) && e in s && e.IsLive() && forall f :: f in s && f != e ==> e.Before(f)
    ensures Taken(Items(s, layout), e, Items(Removed(s, e), layout))
    ensures Used(Items(s, layout)) == Used(Items(Removed(s, e), layout)) + if e.index == 0 then 0 else ChunksFor(e.len)
  {
    FirstEntry(s, e);
    RemoveFirst(s, layout);
    var rest := Items(s[1..], layout);
    hide Items, Sorted;
    assert ItemOf(e, layout) == if e.index == 0 then [] else [Mem(Held(e.dest, e.len))];
    assert [] + rest == rest && ([Mem(Held(e.dest, e.len))] + rest)[1..] == rest;
  }

  lemma BarredLess(h: Heap, e: HeapEntry)
    requires Barred(h) && e.IsLive()
    ensures Barred(h - {e})
  {
    var b :| b in h && b.IsBarrier() && b.len > 0;
    assert b in h - {e};
  }

  lemma EntryStored(h: Heap, s: Strings, d: Disk, w: Index, e: HeapEntry)
    requires Inv(h, s, d, w) && e in h && e.IsLive()
    ensures e.index != 0 ==> e.index in s && |s[e.index]| == e.len
    ensures e.index == 0 ==> e.index !in s
    ensures e.dest in w.loc && w.loc[e.dest] == InHeap(e)
  {
    assert EntryOk(e, s, d, w);
  }

  /** The first entry of the heap, when it is a match, is the nearest pending match. */
  lemma FirstIsMatch(h: Heap, s: Strings, d: Disk, w: Index, e: HeapEntry)
    requires Inv(h, s, d, w) && e in h && e.IsLive()
    requires forall f :: f in h && f != e ==> e.Before(f)
    ensures NextDue(Abs(s, w), e.dest)
    ensures Abs(s, w)[e.dest] == Meaning(InHeap(e), s)
  {
    EntryStored(h, s, d, w, e);
    forall x | x in w.loc ensures e.dest <= x {
      assert LocOk(x, h, d, w);
      match w.loc[x]
      case InHeap(f) =>
      case OnDisk(b, r) => assert BlockOk(b, h, d, w) && RecOk(b, r, w);
    }
  }

  /** When the first entry lies past the block, so does every pending match. */
  lemma NothingDue(h: Heap, s: Strings, d: Disk, w: Index, e: HeapEntry, hi: nat)
    requires Inv(h, s, d, w) && e in h && e.dest >= hi
    requires forall f :: f in h && f != e ==> e.Before(f)
    ensures forall x :: x in w.loc ==> x >= hi
  {
    forall x | x in w.loc ensures x >= hi {
      assert LocOk(x, h, d, w);
      match w.loc[x]
      case InHeap(f) =>
      case OnDisk(b, r) => assert BlockOk(b, h, d, w) && RecOk(b, r, w);
    }
  }

  /** Copy a run of bytes behind the output so far. */
  method Append(out: array<byte>, outPos: nat, data: seq<byte>)
    requires outPos + |data| <= out.Length
    modifies out
    ensures out[..outPos + |data|] == old(out[..outPos]) + data
  {
    CopyInto(out, outPos, data);
    assert out[..outPos + |data|] == out[..][..outPos + |data|];
  }

  lemma Extend(backend: seq<byte>, o: seq<byte>, outPos: nat, n: nat)
    requires outPos + n <= |o|
    ensures backend + o[..outPos + n] == backend + o[..outPos] + o[outPos..outPos + n]
  {
  }

  /** Copy the literals before the match of entry `e`, then the match itself; false when it does not fit. */
  method CopyNext(backend: seq<byte>, blockStart: u64, literals: seq<byte>, out: array<byte>, inPos0: nat, outPos0: nat, e: HeapEntry,
      mm: MemoryManager, maximumSave: u32, ghost c: Copying, ghost due: set<Piece>)
      returns (r: Result<bool>, inPos: nat, outPos: nat, ghost c': Copying)
    requires mm.Valid() && |backend| == blockStart && outPos0 <= out.Length
    requires c.d == backend + out[..outPos0]
    requires CopyingOk(c, blockStart, blockStart + out.Length, due, backend, literals, inPos0, maximumSave)
    requires NextDue(c.a, e.dest) && e.dest < blockStart + out.Length && c.a[e.dest].piece == Piece(e.src, e.dest, e.len)
    requires if e.index == 0 then c.a[e.dest].saved.None? else e.index in mm.Store() && c.a[e.dest].saved == Some(mm.Store()[e.index])
    modifies out
    ensures r.Ok?
    ensures !r.value ==> !Layout(due, blockStart, blockStart + out.Length, |literals|)
    ensures r.value ==> outPos <= out.Length && c'.d == backend + out[..outPos] && c'.a == c.a - {e.dest}
    ensures r.value ==> CopyingOk(c', blockStart, blockStart + out.Length, due, backend, literals, inPos, maximumSave)
  {
    hide Consistent, CopyingOk, NextDue, Layout, Copied;
    inPos, outPos, c' := inPos0, outPos0, c;
    ghost var hi := blockStart + out.Length;
    var litLen := (e.dest - blockStart) - outPos;
    ParseState(c, blockStart, hi, due, backend, literals, inPos, maximumSave, e.dest);
    if e.dest < blockStart + outPos || litLen > |literals| - inPos || litLen + e.len > out.Length - outPos {
      RejectedMatch(c, blockStart, hi, due, backend, literals, inPos, maximumSave, e.dest);
      return Ok(false), inPos, outPos, c;
    }
    var lits := literals[inPos..inPos + litLen];
    Append(out, outPos, lits);
    inPos := inPos + litLen;
    outPos := outPos + litLen;
    assert backend + out[..outPos] == c.d + lits;
    var copied := CopyMatch(backend, blockStart, out, outPos, e, mm, maximumSave, c.a[e.dest]);
    ghost var bytes := out[outPos..outPos + e.len];
    Extend(backend, out[..], outPos, e.len);
    CopiedOk(c, blockStart, hi, due, backend, literals, inPos0, maximumSave, e.dest, lits, bytes);
    c' := Copied(c, lits, e.dest, bytes);
    CopiedParts(c, lits, e.dest, bytes);
    outPos := outPos + e.len;
    r := Ok(true);
  }

  lemma CopiedParts(c: Copying, lits: seq<byte>, x: nat, bytes: seq<byte>)
    requires x in c.a
    ensures Copied(c, lits, x, bytes).d == c.d + lits + bytes && Copied(c, lits, x, bytes).a == c.a - {x}
  {
  }

  lemma ParseState(c: Copying, lo: nat, hi: nat, due: set<Piece>, backend: seq<byte>, literals: seq<byte>, inPos: nat, maximumSave: u32, x: nat)
    requires CopyingOk(c, lo, hi, due, backend, literals, inPos, maximumSave) && NextDue(c.a, x)
    ensures x in c.a && inPos <= |literals| && KeyOk(c.a[x], x) && Fetchable(c.a[x], backend, maximumSave)
  {
  }

  /** Some live entry stands before all marks: the first entry is not a mark. */
  ghost predicate MatchFirst(h: Heap) {
    exists e :: e in h && e.IsLive() && forall n :: n in h && n.IsMarkingPoint() ==> e.dest < n.dest
  }

  lemma FirstIsNoMark(h: Heap, e: HeapEntry)
    requires MatchFirst(h) && e in h && forall f :: f in h && f != e ==> e.Before(f)
    ensures !e.IsMarkingPoint()
  {
  }

  lemma AfterRestore(h: Heap, m: HeapEntry)
    requires exists e :: e in h - {m} && e.IsLive() && e.dest == m.dest
    requires forall n :: n in h - {m} && n.IsMarkingPoint() ==> m.dest < n.dest
    ensures MatchFirst(h - {m})
  {
  }

  /** `b` is what is left of `a` after only matches due before `hi` were taken out. */
  ghost predicate Remains(a: PendingMap, b: PendingMap, hi: nat) {
    && (forall x :: x in b ==> x in a && a[x] == b[x])
    && (forall x :: x in a && x >= hi ==> x in b)
  }

  lemma RemainsAll(a: PendingMap, hi: nat)
    ensures Remains(a, a, hi)
  {
  }

  lemma RemainsLess(a: PendingMap, b: PendingMap, hi: nat, x: nat)
    requires Remains(a, b, hi) && x < hi
    ensures Remains(a, b - {x}, hi)
  {
  }

  /** A stall is reported for a match that was pending from the start. */
  lemma StallFromStart(a: PendingMap, b: PendingMap, hi: nat, vs: nat, useful: nat, need: nat)
    requires MayStall(b, vs, useful, need) && Remains(a, b, hi)
    ensures MayStall(a, vs, useful, need)
  {
  }

  lemma StartCopying(a: PendingMap, backend: seq<byte>, hi: nat, literals: seq<byte>, maximumSave: u32)
    requires PendingDue(a, backend, hi, maximumSave) && |backend| <= hi
    ensures CopyingOk(Copying(backend, {}, a, None), |backend|, hi, DueIn(a, hi), backend, literals, 0, maximumSave)
  {
    assert Lits(backend, |backend|, {}) == [];
    assert {} + DueIn(a, hi) == DueIn(a, hi);
  }

  lemma NeverEmpty(h: Heap)
    requires Barred(h)
    ensures h != {}
  {
  }

  /** One round of phase 2 for a match: copy it and take it out of heap and store. */
  method CopyEntry(backend: seq<byte>, blockStart: u64, literals: seq<byte>, out: array<byte>, inPos0: nat, outPos0: nat, e: HeapEntry,
      mm: MemoryManager, vm: VirtualMemoryManager, heap: LzMatchHeap, maximumSave: u32, ghost c: Copying, ghost due: set<Piece>)
      returns (r: Result<bool>, inPos: nat, outPos: nat, ghost c': Copying)
    requires vm.State(mm, heap) && c.a == vm.PendingMatches(mm) && vm.vmbuf != out
    requires |backend| == blockStart && outPos0 <= out.Length && c.d == backend + out[..outPos0]
    requires CopyingOk(c, blockStart, blockStart + out.Length, due, backend, literals, inPos0, maximumSave)
    requires e in heap.Contents() && !e.IsMarkingPoint() && e.dest < blockStart + out.Length < U64_MAX
    requires forall f :: f in heap.Contents() && f != e ==> e.Before(f)
    modifies out, mm, vm`index, heap
    ensures r.Ok?
    ensures !r.value ==> !Layout(due, blockStart, blockStart + out.Length, |literals|)
    ensures r.value ==> vm.State(mm, heap) && c'.a == vm.PendingMatches(mm) == c.a - {e.dest} && |c'.a| < |c.a|
    ensures r.value ==> Taken(old(vm.Stock(heap)), e, vm.Stock(heap))
    ensures r.value ==> outPos <= out.Length && c'.d == backend + out[..outPos]
    ensures r.value ==> CopyingOk(c', blockStart, blockStart + out.Length, due, backend, literals, inPos, maximumSave)
    ensures mm.usedChunks <= old(mm.usedChunks) && mm.totalChunks == old(mm.totalChunks)
  {
    hide Consistent, Inv, MarksOk, FileOk, CopyingOk, NextDue, Layout, Barred, Taken, Items, Used;
    LiveEntry(heap.Contents(), mm.Store(), DiskOf(vm.layout), vm.index, e);
    EntryStored(heap.Contents(), mm.Store(), DiskOf(vm.layout), vm.index, e);
    FirstIsMatch(heap.Contents(), mm.Store(), DiskOf(vm.layout), vm.index, e);
    r, inPos, outPos, c' := CopyNext(backend, blockStart, literals, out, inPos0, outPos0, e, mm, maximumSave, c, due);
    if r.value {
      FinishMatch(mm, vm, heap, e);
      FewerPending(c.a, e.dest);
    }
  }

  lemma LiveEntry(h: Heap, s: Strings, d: Disk, w: Index, e: HeapEntry)
    requires Inv(h, s, d, w) && e in h && !e.IsMarkingPoint() && e.dest < U64_MAX
    ensures e.IsLive()
  {
    assert EntryOk(e, s, d, w);
  }

  lemma FewerPending(a: PendingMap, x: nat)
    requires x in a
    ensures |a - {x}| < |a|
  {
    assert (a - {x}).Keys == a.Keys - {x};
  }

  /** One round of phase 2 for a mark: bring its block back and take it out of the heap. */
  method RestoreFirst(e: HeapEntry, mm: MemoryManager, vm: VirtualMemoryManager, heap: LzMatchHeap) returns (r: Result<()>)
    requires vm.State(mm, heap) && e in heap.Contents() && e.IsMarkingPoint()
    requires forall f :: f in heap.Contents() && f != e ==> e.Before(f)
    requires Room(mm.usefulMemory / 60 + vm.vmblockSize, PieceSet(vm.PendingMatches(mm)))
    modifies mm, vm, vm.vmbuf, heap
    ensures r.Ok? ==> vm.State(mm, heap) && vm.PendingMatches(mm) == old(vm.PendingMatches(mm)) && MatchFirst(heap.Contents())
    ensures r.Ok? ==> mm.usedChunks <= mm.usefulMemory / 60 + vm.vmblockSize && vm.totalRead > old(vm.totalRead)
    ensures r.Err? ==> r.error == Stalled && MayStall(old(vm.PendingMatches(mm)), vm.vmblockSize, mm.usefulMemory, vm.vmblockSize)
    ensures var items := old(vm.Stock(heap));
            && items != [] && items[0].Mark? && items[0].Key() == e.dest
            && BringBack(items, vm.MemoryLimits(mm)) == if r.Ok? then Some(vm.Stock(heap)) else None
    ensures r.Ok? ==> vm.Stock(heap) != [] && vm.Stock(heap)[0].Mem?
  {
    hide Consistent, Inv, MarksOk, FileOk, MatchFirst, MayStall, Barred, Room, Items, Used, BringBack, LzMatchHeap.Valid;
    r := vm.RestoreFromDisk(mm, heap, e);
    if r.Ok? {
      AfterRestore(heap.Contents(), e);
      ghost var m :| m in heap.Contents() - {e} && m.IsLive() && m.index != 0 && m.dest == e.dest;
      heap.Remove(e);
      MarksFit(heap.entries, mm.Store(), vm.vmfile, vm.vmblockSize, vm.freeBlocks, vm.newBlock, vm.layout, vm.index);
      SerialsBelow(heap);
      MatchComesFirst(heap.entries, m, vm.layout);
    }
  }

  lemma RoomWhileCopying(n: int, a: PendingMap, b: PendingMap, hi: nat)
    requires Room(n, PieceSet(a)) && Remains(a, b, hi)
    ensures Room(n, PieceSet(b))
  {
    forall p | p in PieceSet(b) ensures p in PieceSet(a) {
      var x :| x in b && b[x].piece == p;
      assert a[x].piece == p;
    }
    RoomLess(n, PieceSet(a), PieceSet(b));
  }

  /** Between two rounds of phase 2: the output is what was copied so far, and what is still
      pending is what was pending at its start (`a`) but for matches already copied. */
  ghost predicate CopyState(backend: seq<byte>, blockStart: u64, literals: seq<byte>, out: array<byte>, inPos: nat, outPos: nat,
      mm: MemoryManager, vm: VirtualMemoryManager, heap: LzMatchHeap, maximumSave: u32, c: Copying, a: PendingMap)
    reads out, mm, vm, heap
  {
    var hi := blockStart + out.Length;
    && vm.State(mm, heap) && vm.PendingMatches(mm) == c.a && Remains(a, c.a, hi)
    && outPos <= out.Length && c.d == backend + out[..outPos]
    && CopyingOk(c, blockStart, hi, DueIn(a, hi), backend, literals, inPos, maximumSave)
    && mm.usedChunks <= mm.usefulMemory / 60 + vm.vmblockSize
  }

  /** One round of phase 2, for the first entry of the heap: a match is copied, a mark replaced
      by the matches of its block, after which a match comes first. */
  method CopyRound(backend: seq<byte>, blockStart: u64, literals: seq<byte>, out: array<byte>, inPos0: nat, outPos0: nat, e: HeapEntry,
      mm: MemoryManager, vm: VirtualMemoryManager, heap: LzMatchHeap, maximumSave: u32, ghost c0: Copying, ghost a: PendingMap)
      returns (r: Result<bool>, inPos: nat, outPos: nat, ghost c: Copying)
    requires CopyState(backend, blockStart, literals, out, inPos0, outPos0, mm, vm, heap, maximumSave, c0, a)
    requires vm.vmbuf != out && |backend| == blockStart && e.dest < blockStart + out.Length < U64_MAX
    requires e in heap.Contents() && forall f :: f in heap.Contents() && f != e ==> e.Before(f)
    requires Room(mm.usefulMemory / 60 + vm.vmblockSize, PieceSet(a))
    modifies out, mm, vm, vm.vmbuf, heap
    ensures r.Ok? && r.value ==> CopyState(backend, blockStart, literals, out, inPos, outPos, mm, vm, heap, maximumSave, c, a)
    ensures r.Ok? && r.value ==> if e.IsMarkingPoint() then c == c0 && MatchFirst(heap.Contents()) else |c.a| < |c0.a|
    ensures r.Ok? && !r.value ==> !Layout(DueIn(a, blockStart + out.Length), blockStart, blockStart + out.Length, |literals|)
    ensures r.Err? ==> r.error == Stalled && MayStall(a, vm.vmblockSize, mm.usefulMemory, vm.vmblockSize)
    // Only bringing a block back can stall, and exactly when there is no room for one.
    ensures e.IsMarkingPoint() ==> Rounded(old(vm.Stock(heap)), vm.MemoryLimits(mm), if r.Ok? then Some(vm.Stock(heap)) else None)
    ensures r.Err? ==> e.IsMarkingPoint()
    ensures r.Err? ==> CopyOut(old(vm.Stock(heap)), blockStart + out.Length, vm.MemoryLimits(mm), false).None?
    ensures r.Ok? && r.value ==>
              CopyOut(vm.Stock(heap), blockStart + out.Length, vm.MemoryLimits(mm), false)
              == CopyOut(old(vm.Stock(heap)), blockStart + out.Length, vm.MemoryLimits(mm), false)
    ensures r.Err? ==> old(vm.layout) != map[]
    ensures r.Ok? ==> UsageSince(mm, vm, old(mm.usedChunks), old(mm.totalChunks), old(vm.totalRead), old(vm.layout).Keys)
  {
    hide Consistent, Inv, MarksOk, FileOk, CopyingOk, NextDue, Layout, MatchFirst, MayStall, DueIn, Barred, Remains, Room, Items, Used, Taken,
      CopyOut, BringBack;
    ghost var hi := blockStart + out.Length;
    inPos, outPos, c := inPos0, outPos0, c0;
    if e.IsMarkingPoint() {
      NoMark(heap.Contents(), mm.Store(), vm.layout, vm.index, e);
      RoomWhileCopying(mm.usefulMemory / 60 + vm.vmblockSize, a, c.a, hi);
      var restored := RestoreFirst(e, mm, vm, heap);
      MarkRound(old(vm.Stock(heap)), vm.Stock(heap), restored.Ok?, e, hi, vm.MemoryLimits(mm));
      if restored.Err? {
        StallFromStart(a, c.a, hi, vm.vmblockSize, mm.usefulMemory, vm.vmblockSize);
        return Err(restored.error), inPos, outPos, c;
      }
      r := Ok(true);
    } else {
      r, inPos, outPos, c := CopyEntry(backend, blockStart, literals, out, inPos, outPos, e, mm, vm, heap, maximumSave, c, DueIn(a, hi));
      if r.value { MatchRound(old(vm.Stock(heap)), vm.Stock(heap), e, hi, vm.MemoryLimits(mm)); }
      RemainsLess(a, c0.a, hi, e.dest);
    }
  }

  ghost predicate Rounded(items: seq<Item>, lim: Limits, after: Option<seq<Item>>) {
    items != [] && items[0].Mark? && BringBack(items, lim) == after
  }

  /** A round for a mark is one for the first item. */
  lemma MarkRound(items: seq<Item>, after: seq<Item>, ok: bool, e: HeapEntry, hi: nat, lim: Limits)
    requires Rounded(items, lim, if ok then Some(after) else None) && items[0].Key() < hi && (ok ==> after != [] && after[0].Mem?)
    ensures !ok ==> CopyOut(items, hi, lim, false).None?
    ensures ok ==> CopyOut(after, hi, lim, false) == CopyOut(items, hi, lim, false)
  {
    hide BringBack;
    if ok { BackOnce(after, hi, lim); }
  }

  lemma MatchRound(items: seq<Item>, after: seq<Item>, e: HeapEntry, hi: nat, lim: Limits)
    requires Taken(items, e, after) && e.dest < hi
    ensures CopyOut(after, hi, lim, false) == CopyOut(items, hi, lim, false)
  {
  }

  /** Only restoring from the VM file takes memory. */
  ghost predicate UsageSince(mm: MemoryManager, vm: VirtualMemoryManager, used: nat, total: nat, read: nat, spilled: set<nat>)
    reads mm, vm
  {
    && vm.totalRead >= read && (vm.totalRead == read ==> mm.usedChunks <= used && mm.totalChunks == total)
    && (spilled == {} ==> vm.layout == map[] && vm.totalRead == read)
  }

  /** Without spilled blocks there is no mark. */
  lemma NoMark(h: Heap, s: Strings, layout: map<nat, seq<Rec>>, w: Index, e: HeapEntry)
    requires Inv(h, s, DiskOf(layout), w) && e in h && e.IsMarkingPoint()
    ensures layout != map[]
  {
    MarkBlock(h, s, DiskOf(layout), w, e);
  }

  /** What phase 2 needs of its state to find the next round. */
  lemma CopyStateParts(backend: seq<byte>, blockStart: u64, literals: seq<byte>, out: array<byte>, inPos: nat, outPos: nat,
      mm: MemoryManager, vm: VirtualMemoryManager, heap: LzMatchHeap, maximumSave: u32, c: Copying, a: PendingMap)
    requires CopyState(backend, blockStart, literals, out, inPos, outPos, mm, vm, heap, maximumSave, c, a)
    ensures heap.Valid() && heap.Contents() != {}
    ensures forall e :: e in heap.Contents() && e.dest >= blockStart + out.Length && (forall f :: f in heap.Contents() && f != e ==> e.Before(f)) ==>
              forall x :: x in c.a ==> x >= blockStart + out.Length
    ensures forall e :: e in heap.Contents() && e.dest >= blockStart + out.Length && (forall f :: f in heap.Contents() && f != e ==> e.Before(f)) ==>
              CopyOut(vm.Stock(heap), blockStart + out.Length, vm.MemoryLimits(mm), false) == Some(vm.Stock(heap))
  {
    hide Consistent, MarksOk, FileOk, CopyingOk, DueIn, Remains, Items, Used, CopyOut, LzMatchHeap.Valid;
    NeverEmpty(heap.Contents());
    MarksFit(heap.entries, mm.Store(), vm.vmfile, vm.vmblockSize, vm.freeBlocks, vm.newBlock, vm.layout, vm.index);
    hide Inv, Barred;
    var hi := blockStart + out.Length;
    forall e | e in heap.Contents() && e.dest >= hi && forall f :: f in heap.Contents() && f != e ==> e.Before(f)
      ensures CopyOut(vm.Stock(heap), hi, vm.MemoryLimits(mm), false) == Some(vm.Stock(heap))
    {
      NoneToCopy(heap.entries, e, vm.layout, hi, vm.MemoryLimits(mm));
    }
    forall e | e in heap.Contents() && e.dest >= hi && forall f :: f in heap.Contents() && f != e ==> e.Before(f)
      ensures forall x :: x in c.a ==> x >= hi
    {
      NothingDue(heap.Contents(), mm.Store(), DiskOf(vm.layout), vm.index, e, hi);
    }
  }

  /** When the first entry lies past the block, nothing is copied. */
  lemma NoneToCopy(s: seq<HeapEntry>, e: HeapEntry, layout: FileLayout, hi: nat, lim: Limits)
    requires Marked(s, layout) && e.dest >= hi && forall f :: f in Elems(s) && f != e ==> e.Before(f)
    ensures CopyOut(Items(s, layout), hi, lim, false) == Some(Items(s, layout))
  {
    hide Items, Marked;
    if Items(s, layout) != [] {
      var f := FirstItem(s, layout);
      assert f in Elems(s);
    }
  }

  lemma CopyStateStart(backend: seq<byte>, blockStart: u64, literals: seq<byte>, out: array<byte>,
      mm: MemoryManager, vm: VirtualMemoryManager, heap: LzMatchHeap, maximumSave: u32, a: PendingMap)
    requires vm.State(mm, heap) && a == vm.PendingMatches(mm) && |backend| == blockStart
    requires PendingDue(a, backend, blockStart + out.Length, maximumSave)
    requires mm.usedChunks <= mm.usefulMemory / 60 + vm.vmblockSize
    ensures CopyState(backend, blockStart, literals, out, 0, 0, mm, vm, heap, maximumSave, Copying(backend, {}, a, None), a)
  {
    hide Consistent, Inv, MarksOk, FileOk, CopyingOk, PendingDue, DueIn, Barred, Remains;
    StartCopying(a, backend, blockStart + out.Length, literals, maximumSave);
    RemainsAll(a, blockStart + out.Length);
    assert backend + out[..0] == backend;
  }

  /** Phase 2: copy the due matches in destination order, with the literals between them. */
  method CopyDue(backend: seq<byte>, blockStart: u64, literals: seq<byte>, out: array<byte>,
      mm: MemoryManager, vm: VirtualMemoryManager, heap: LzMatchHeap, maximumSave: u32)
      returns (r: Result<bool>, inPos: nat, outPos: nat, ghost c: Copying)
    requires vm.State(mm, heap) && vm.vmbuf != out
    requires |backend| == blockStart && blockStart + out.Length < U64_MAX
    requires PendingDue(vm.PendingMatches(mm), backend, blockStart + out.Length, maximumSave)
    requires Room(mm.usefulMemory / 60 + vm.vmblockSize, PieceSet(vm.PendingMatches(mm)))
    requires mm.usedChunks <= mm.usefulMemory / 60 + vm.vmblockSize
    modifies out, mm, vm, vm.vmbuf, heap
    ensures r.Ok? && r.value ==>
              && CopyState(backend, blockStart, literals, out, inPos, outPos, mm, vm, heap, maximumSave, c, old(vm.PendingMatches(mm)))
              && forall x :: x in c.a ==> x >= blockStart + out.Length
    ensures r.Ok? && !r.value ==>
              !Layout(DueIn(old(vm.PendingMatches(mm)), blockStart + out.Length), blockStart, blockStart + out.Length, |literals|)
    ensures r.Err? ==> r.error == Stalled && MayStall(old(vm.PendingMatches(mm)), vm.vmblockSize, mm.usefulMemory, vm.vmblockSize)
    ensures old(vm.layout) == map[] ==> r.Ok?
    ensures r.Err? ==> CopyOut(old(vm.Stock(heap)), blockStart + out.Length, vm.MemoryLimits(mm), false).None?
    ensures r.Ok? && r.value ==> CopyOut(old(vm.Stock(heap)), blockStart + out.Length, vm.MemoryLimits(mm), false) == Some(vm.Stock(heap))
    ensures r.Ok? ==> UsageSince(mm, vm, old(mm.usedChunks), old(mm.totalChunks), old(vm.totalRead), old(vm.layout).Keys)
  {
    hide CopyOut, Items, Rounded, CopyState, PendingDue, DueIn, Layout, MatchFirst, MayStall, Room, LzMatchHeap.Valid, VirtualMemoryManager.State;
    ghost var a := vm.PendingMatches(mm);
    inPos, outPos := 0, 0;
    c := Copying(backend, {}, a, None);
    CopyStateStart(backend, blockStart, literals, out, mm, vm, heap, maximumSave, a);
    ghost var matchFirst := false;
    while true
      invariant CopyState(backend, blockStart, literals, out, inPos, outPos, mm, vm, heap, maximumSave, c, a)
      invariant UsageSince(mm, vm, old(mm.usedChunks), old(mm.totalChunks), old(vm.totalRead), old(vm.layout).Keys)
      invariant matchFirst ==> MatchFirst(heap.Contents())
      invariant CopyOut(vm.Stock(heap), blockStart + out.Length, vm.MemoryLimits(mm), false)
             == CopyOut(old(vm.Stock(heap)), blockStart + out.Length, vm.MemoryLimits(mm), false)
      decreases |c.a|, !matchFirst
    {
      CopyStateParts(backend, blockStart, literals, out, inPos, outPos, mm, vm, heap, maximumSave, c, a);
      var first := heap.Begin();
      if first.None? || first.value.dest >= blockStart + out.Length {
        break;
      }
      var e := first.value;
      if matchFirst { FirstIsNoMark(heap.Contents(), e); }
      r, inPos, outPos, c := CopyRound(backend, blockStart, literals, out, inPos, outPos, e, mm, vm, heap, maximumSave, c, a);
      if r.Err? || !r.value {
        return;
      }
      matchFirst := e.IsMarkingPoint();
    }
    r := Ok(true);
  }

  // ---- phase 3 ----

  /** What a stall needs: memory for less than one VM block, or a match whose record exceeds one. */
  ghost predicate StallCause(ps: set<Piece>, vs: nat, useful: nat) {
    useful < vs || exists p :: p in ps && vs < 24 + p.len
  }

  lemma StallInPhase3(b: PendingMap, ps: seq<Piece>, n: nat, hi: nat, e: seq<byte>, maximumSave: u32, vs: nat, useful: nat)
    requires n < |ps| && MayStall(WithLater(b, ps[..n], hi, e, maximumSave), vs, useful, ps[n].len)
    requires forall i, j :: 0 <= i < j < |ps| ==> ps[i].dest != ps[j].dest
    requires forall i :: 0 <= i < |ps| && ps[i].dest >= hi ==> ps[i].dest !in b
    ensures StallCause(PieceSet(b) + SetOf(ps), vs, useful)
  {
    var c := WithLater(b, ps[..n], hi, e, maximumSave);
    WithLaterEntries(b, ps[..n], hi, e, maximumSave);
    if useful < ps[n].len {
      assert ps[n] in SetOf(ps);
    } else {
      var x :| x in c && vs < 24 + c[x].piece.len;
      if x in b {
        assert c[x].piece in PieceSet(b);
      } else {
        assert c[x].piece in ps[..n] && c[x].piece in SetOf(ps);
      }
    }
  }

  lemma LaterNext(b: PendingMap, ps: seq<Piece>, n: nat, hi: nat, e: seq<byte>, maximumSave: u32)
    requires n < |ps|
    requires forall i, j :: 0 <= i < j < |ps| ==> ps[i].dest != ps[j].dest
    requires forall i :: 0 <= i < |ps| && ps[i].dest >= hi ==> ps[i].dest !in b
    ensures var c := WithLater(b, ps[..n], hi, e, maximumSave);
            WithLater(b, ps[..n + 1], hi, e, maximumSave) ==
            if ps[n].dest >= hi then c[ps[n].dest := Pending(ps[n], SavedOf(ps[n], e, maximumSave))] else c
    ensures ps[n].dest >= hi ==> ps[n].dest !in WithLater(b, ps[..n], hi, e, maximumSave)
  {
    WithLaterEntries(b, ps[..n], hi, e, maximumSave);
    assert ps[..n + 1][..n] == ps[..n];
  }

  /** Save the bytes of a match, spilling others when memory is short, and queue it. */
  method SaveMatch(m: LzMatch, blockStart: u64, out: array<byte>, mm: MemoryManager, vm: VirtualMemoryManager, heap: LzMatchHeap)
      returns (r: Result<()>)
    requires vm.State(mm, heap) && vm.vmbuf != out
    requires m.len > 0 && m.dest < U64_MAX && m.dest !in vm.PendingMatches(mm)
    requires blockStart <= m.src && m.src + m.len <= blockStart + out.Length
    requires Room(mm.usefulMemory / 60 + vm.vmblockSize, PieceSet(vm.PendingMatches(mm)) + {Piece(m.src, m.dest, m.len)})
    modifies mm, vm, vm.vmbuf, heap
    ensures r.Ok? ==> vm.State(mm, heap)
    ensures r.Ok? ==> mm.usedChunks <= Max(old(mm.usedChunks), mm.usefulMemory / 60 + vm.vmblockSize)
    ensures r.Ok? ==> vm.PendingMatches(mm) == old(vm.PendingMatches(mm))[m.dest :=
              Pending(Piece(m.src, m.dest, m.len), Some(out[m.src - blockStart..m.src - blockStart + m.len]))]
    ensures r.Err? ==> r.error == Stalled && MayStall(old(vm.PendingMatches(mm)), vm.vmblockSize, mm.usefulMemory, m.len)
    ensures old(mm.AvailableSpace()) < m.len && (CannotSpill(old(heap.entries), vm.vmblockSize) || mm.usefulMemory < m.len) ==> r.Err?
    ensures var rest := RoomFor(old(vm.Stock(heap)), vm.MemoryLimits(mm), m.len);
            if r.Ok? then rest.Some? && vm.Stock(heap) == Put(rest.value, Mem(Held(m.dest, m.len))) else rest.None?
    ensures Ample(SavedPieces(old(vm.PendingMatches(mm))) + {Piece(m.src, m.dest, m.len)}, mm.usefulMemory) ==> r.Ok? && vm.layout == old(vm.layout)
    ensures r.Ok? ==> forall memlimit: u64 :: old(mm.WithinLimit(memlimit)) ==> mm.WithinLimit(memlimit)
    ensures vm.totalRead == old(vm.totalRead)
    ensures r.Ok? && TooLong(PieceSet(old(vm.PendingMatches(mm))), vm.vmblockSize) ==> vm.layout == old(vm.layout)
  {
    hide Consistent, Inv, MarksOk, FileOk, MayStall, Barred, SpillStep, Demand, CannotSpill, TooLong, PieceSet, Ample, SavedPieces, Items, Used, RoomFor, Put;
    ghost var a, p := vm.PendingMatches(mm), Piece(m.src, m.dest, m.len);
    if Ample(SavedPieces(a) + {p}, mm.usefulMemory) {
      AmpleToSave(mm.blockAddr, mm.usedChunks, mm.account, heap.Contents(), DiskOf(vm.layout), vm.index, p, mm.usefulMemory);
    }
    if TooLong(PieceSet(a), vm.vmblockSize) { NoneFits(mm, heap.entries, DiskOf(vm.layout), vm.index, vm.vmblockSize); }
    var ok := vm.MakeRoom(mm, heap, m.len);
    if !ok {
      return Err(Stalled);
    }
    SaveAndQueue(m, m.src - blockStart, out, mm, vm, heap);
    r := Ok(());
  }

  /** Save the bytes of a match, for which there is room, and queue it. */
  method SaveAndQueue(m: LzMatch, srcOff: nat, out: array<byte>, mm: MemoryManager, vm: VirtualMemoryManager, heap: LzMatchHeap)
    requires vm.State(mm, heap) && vm.vmbuf != out
    requires m.len > 0 && m.dest < U64_MAX && m.dest !in vm.PendingMatches(mm)
    requires srcOff + m.len <= out.Length && m.len <= mm.AvailableSpace()
    requires Room(mm.usefulMemory / 60 + vm.vmblockSize, PieceSet(vm.PendingMatches(mm)) + {Piece(m.src, m.dest, m.len)})
    modifies mm, vm`index, heap
    ensures vm.State(mm, heap) && mm.usedChunks <= mm.usefulMemory / 60 + vm.vmblockSize
    ensures vm.Stock(heap) == Put(old(vm.Stock(heap)), Mem(Held(m.dest, m.len)))
    ensures vm.PendingMatches(mm) == old(vm.PendingMatches(mm))[m.dest :=
              Pending(Piece(m.src, m.dest, m.len), Some(out[srcOff..srcOff + m.len]))]
    ensures forall memlimit: u64 :: old(mm.WithinLimit(memlimit)) ==> mm.WithinLimit(memlimit)
  {
    hide Consistent, Inv, MarksOk, FileOk, Barred, Demand, PieceSet, Items, Used, Put;
    ghost var a, s0, used, total := vm.PendingMatches(mm), mm.Store(), mm.usedChunks, mm.totalChunks;
    RoomToSave(mm.blockAddr, used, mm.account, heap.Contents(), DiskOf(vm.layout), vm.index, Piece(m.src, m.dest, m.len));
    assert used + ChunksFor(m.len) <= mm.usefulMemory / 60 + vm.vmblockSize;
    var idx := mm.Save(out[srcOff..srcOff + m.len]);
    forall memlimit: u64 | old(mm.WithinLimit(memlimit)) ensures mm.WithinLimit(memlimit) {
      GuardedGrowth(memlimit, used, m.len, total, |mm.blockAddr|);
    }
    assert m.dest !in a && Abs(s0, vm.index) == a;
    InsertMatch(mm, vm, heap, m, idx, s0);
  }

  /** One record of phase 3: queue its match if its destination lies behind the block. */
  method QueueLater(lz: LzMatch, blockStart: u64, out: array<byte>, ghost backend: seq<byte>,
      mm: MemoryManager, vm: VirtualMemoryManager, heap: LzMatchHeap, maximumSave: u32,
      ghost ps: seq<Piece>, ghost n: nat, ghost b: PendingMap) returns (r: Result<()>)
    requires vm.State(mm, heap) && vm.vmbuf != out && |backend| == blockStart
    requires n < |ps| && ps[n] == Piece(lz.src, lz.dest, lz.len) && lz.len > 0 && lz.dest < U64_MAX
    requires blockStart <= lz.src && lz.src + lz.len <= blockStart + out.Length
    requires vm.PendingMatches(mm) == WithLater(b, ps[..n], blockStart + out.Length, backend + out[..], maximumSave)
    requires forall i, j :: 0 <= i < j < |ps| ==> ps[i].dest != ps[j].dest
    requires forall i :: 0 <= i < |ps| && ps[i].dest >= blockStart + out.Length ==> ps[i].dest !in b
    requires Room(mm.usefulMemory / 60 + vm.vmblockSize, PieceSet(b) + SetOf(ps))
    requires mm.usedChunks <= mm.usefulMemory / 60 + vm.vmblockSize
    modifies mm, vm, vm.vmbuf, heap
    ensures r.Ok? ==> vm.State(mm, heap) && mm.usedChunks <= mm.usefulMemory / 60 + vm.vmblockSize
    ensures r.Ok? ==> vm.PendingMatches(mm) == WithLater(b, ps[..n + 1], blockStart + out.Length, backend + out[..], maximumSave)
    ensures r.Ok? ==> forall memlimit: u64 :: old(mm.WithinLimit(memlimit)) ==> mm.WithinLimit(memlimit)
    ensures vm.totalRead == old(vm.totalRead)
    ensures r.Ok? && TooLong(PieceSet(b) + SetOf(ps), vm.vmblockSize) ==> vm.layout == old(vm.layout)
    ensures r.Err? ==> r.error == Stalled && StallCause(PieceSet(b) + SetOf(ps), vm.vmblockSize, mm.usefulMemory)
    // Only saving bytes can stall, and exactly when spilling cannot make room for them.
    ensures Queue(old(vm.Stock(heap)), ps[n], blockStart + out.Length, maximumSave, vm.MemoryLimits(mm))
         == if r.Ok? then Some(vm.Stock(heap)) else None
    ensures SaveFits(b, ps, blockStart + out.Length, backend + out[..], maximumSave, mm.usefulMemory) ==> r.Ok? && vm.layout == old(vm.layout)
  {
    hide Consistent, MarksOk, FileOk, Inv, Barred, WithLater, StallCause, MayStall, Room, MemoryManager.WithinLimit, TooLong, PieceSet,
      SaveFits, Ample, SavedPieces, Items, Used, RoomFor, Put;
    ghost var hi, e := blockStart + out.Length, backend + out[..];
    LaterNext(b, ps, n, hi, e, maximumSave);
    r := Ok(());
    if lz.dest >= blockStart + out.Length {
      if lz.len >= maximumSave {
        InsertMatch(mm, vm, heap, lz, 0, mm.Store());
      } else {
        SavedSlice(backend, out[..], ps[n], maximumSave);
        RoomInPhase3(mm.usefulMemory / 60 + vm.vmblockSize, b, ps, n, hi, e, maximumSave);
        if TooLong(PieceSet(b) + SetOf(ps), vm.vmblockSize) { LongInPhase3(vm.vmblockSize, b, ps, n, hi, e, maximumSave); }
        if SaveFits(b, ps, hi, e, maximumSave, mm.usefulMemory) { SaveOneFits(b, ps, n, hi, e, maximumSave, mm.usefulMemory); }
        r := SaveMatch(lz, blockStart, out, mm, vm, heap);
        if r.Err? {
          StallInPhase3(b, ps, n, hi, e, maximumSave, vm.vmblockSize, mm.usefulMemory);
        }
      }
    }
  }

  /** The memory holds what is saved once the whole list is queued. */
  ghost predicate SaveFits(b: PendingMap, ps: seq<Piece>, hi: nat, e: seq<byte>, maximumSave: u32, useful: nat) {
    Ample(SavedPieces(WithLater(b, ps, hi, e, maximumSave)), useful)
  }

  lemma SaveOneFits(b: PendingMap, ps: seq<Piece>, n: nat, hi: nat, e: seq<byte>, maximumSave: u32, useful: nat)
    requires n < |ps| && ps[n].dest >= hi && SavedOf(ps[n], e, maximumSave).Some? && SaveFits(b, ps, hi, e, maximumSave, useful)
    requires LaterFresh(b, ps, hi)
    ensures Ample(SavedPieces(WithLater(b, ps[..n], hi, e, maximumSave)) + {ps[n]}, useful)
  {
    hide SavedOf, SavedPieces, Ample, LaterFresh;
    SavedGrows(b, ps, n, hi, e, maximumSave);
    SavedMonotone(b, ps, n + 1, hi, e, maximumSave);
    AmpleLess(SavedPieces(WithLater(b, ps, hi, e, maximumSave)), SavedPieces(WithLater(b, ps[..n], hi, e, maximumSave)) + {ps[n]}, useful);
  }

  lemma SavedGrows(b: PendingMap, ps: seq<Piece>, n: nat, hi: nat, e: seq<byte>, maximumSave: u32)
    requires n < |ps| && LaterFresh(b, ps, hi)
    ensures var c, c' := WithLater(b, ps[..n], hi, e, maximumSave), WithLater(b, ps[..n + 1], hi, e, maximumSave);
            && SavedPieces(c) <= SavedPieces(c')
            && (ps[n].dest >= hi && SavedOf(ps[n], e, maximumSave).Some? ==> ps[n] in SavedPieces(c'))
  {
    LaterNext(b, ps, n, hi, e, maximumSave);
    hide WithLater, SavedOf;
    var c, c' := WithLater(b, ps[..n], hi, e, maximumSave), WithLater(b, ps[..n + 1], hi, e, maximumSave);
    forall p | p in SavedPieces(c) ensures p in SavedPieces(c') {
      var x :| x in c && c[x].saved.Some? && c[x].piece == p;
      assert x in c' && c'[x] == c[x];
    }
    if ps[n].dest >= hi && SavedOf(ps[n], e, maximumSave).Some? {
      assert c'[ps[n].dest].piece == ps[n];
    }
  }

  lemma {:induction false} SavedMonotone(b: PendingMap, ps: seq<Piece>, n: nat, hi: nat, e: seq<byte>, maximumSave: u32)
    requires n <= |ps| && LaterFresh(b, ps, hi)
    ensures SavedPieces(WithLater(b, ps[..n], hi, e, maximumSave)) <= SavedPieces(WithLater(b, ps, hi, e, maximumSave))
    decreases |ps| - n
  {
    hide WithLater, SavedPieces, LaterFresh, SavedOf;
    if n < |ps| {
      SavedGrows(b, ps, n, hi, e, maximumSave);
      SavedMonotone(b, ps, n + 1, hi, e, maximumSave);
    } else {
      assert ps[..n] == ps;
    }
  }

  /** Phase 3: queue the matches with destination in later blocks, saving their bytes unless they are to be reread. */
  method SaveLater(round: bool, l: u32, blockStart: u64, statraw: seq<u32>, out: array<byte>, ghost backend: seq<byte>,
      mm: MemoryManager, vm: VirtualMemoryManager, heap: LzMatchHeap, maximumSave: u32) returns (r: Result<()>)
    requires vm.State(mm, heap) && vm.vmbuf != out && (round ==> l > 0)
    requires |backend| == blockStart && blockStart + out.Length < U64_MAX
    requires var ps := FutureList(statraw, round, l, blockStart);
             && ListOk(ps, blockStart, blockStart + out.Length)
             && (forall i :: 0 <= i < |ps| ==> ps[i].len > 0 && ps[i].dest < U64_MAX)
             && (forall i, j :: 0 <= i < j < |ps| ==> ps[i].dest != ps[j].dest)
             && (forall i :: 0 <= i < |ps| && ps[i].dest >= blockStart + out.Length ==> ps[i].dest !in vm.PendingMatches(mm))
             && Room(mm.usefulMemory / 60 + vm.vmblockSize, PieceSet(vm.PendingMatches(mm)) + SetOf(ps))
    requires mm.usedChunks <= mm.usefulMemory / 60 + vm.vmblockSize
    modifies mm, vm, vm.vmbuf, heap
    ensures r.Ok? ==> vm.State(mm, heap) && mm.usedChunks <= mm.usefulMemory / 60 + vm.vmblockSize
    ensures r.Ok? ==> forall memlimit: u64 :: old(mm.WithinLimit(memlimit)) ==> mm.WithinLimit(memlimit)
    ensures vm.totalRead == old(vm.totalRead)
    ensures var ps := FutureList(statraw, round, l, blockStart);
            r.Ok? && TooLong(PieceSet(old(vm.PendingMatches(mm))) + SetOf(ps), vm.vmblockSize) ==> vm.layout == old(vm.layout)
    ensures var ps := FutureList(statraw, round, l, blockStart);
            SaveFits(old(vm.PendingMatches(mm)), ps, blockStart + out.Length, backend + out[..], maximumSave, mm.usefulMemory) ==>
              r.Ok? && vm.layout == old(vm.layout)
    ensures QueueAll(old(vm.Stock(heap)), FutureList(statraw, round, l, blockStart), blockStart + out.Length, maximumSave, vm.MemoryLimits(mm))
         == if r.Ok? then Some(vm.Stock(heap)) else None
    ensures var ps := FutureList(statraw, round, l, blockStart);
            if r.Ok? then vm.PendingMatches(mm) == WithLater(old(vm.PendingMatches(mm)), ps, blockStart + out.Length, backend + out[..], maximumSave)
            else r.error == Stalled && StallCause(PieceSet(old(vm.PendingMatches(mm))) + SetOf(ps), vm.vmblockSize, mm.usefulMemory)
  {
    hide Consistent, MarksOk, FileOk, Inv, Reading, FutureList, ListOk, Barred, WithLater, StallCause, MayStall, Room, MemoryManager.WithinLimit, TooLong,
      SaveFits, VirtualMemoryManager.State, PieceSet, Items, Queue, QueueAll;
    ghost var ps, b := FutureList(statraw, round, l, blockStart), vm.PendingMatches(mm);
    ghost var hi, e := blockStart + out.Length, backend + out[..];
    var blockPos: u64, cur := blockStart, 0;
    ghost var n := 0;
    ReadingStart(statraw, round, l, blockStart);
    LaterNone(b, hi, e, maximumSave);
    QueueNone(vm.Stock(heap), hi, maximumSave, vm.MemoryLimits(mm));
    while |statraw| - cur >= StatsPerMatch(round)
      invariant cur <= |statraw| && n <= |ps| && Reading(statraw, round, l, blockStart, cur, n, blockPos)
      invariant vm.State(mm, heap) && vm.PendingMatches(mm) == WithLater(b, ps[..n], hi, e, maximumSave)
      invariant forall memlimit: u64 :: old(mm.WithinLimit(memlimit)) ==> mm.WithinLimit(memlimit)
      invariant vm.totalRead == old(vm.totalRead)
      invariant TooLong(PieceSet(b) + SetOf(ps), vm.vmblockSize) ==> vm.layout == old(vm.layout)
      invariant SaveFits(b, ps, hi, e, maximumSave, mm.usefulMemory) ==> vm.layout == old(vm.layout)
      invariant QueueAll(old(vm.Stock(heap)), ps[..n], hi, maximumSave, vm.MemoryLimits(mm)) == Some(vm.Stock(heap))
      invariant mm.usedChunks <= mm.usefulMemory / 60 + vm.vmblockSize
      decreases |statraw| - cur
    {
      ReadingNext(statraw, round, l, blockStart, cur, n, blockPos);
      SourceAt(ps, blockStart, hi, n);
      var lz := DecodeLzMatch(statraw[cur..], true, round, l, blockPos).1;
      cur := cur + StatsPerMatch(round);
      QueueNext(old(vm.Stock(heap)), ps, n, hi, maximumSave, vm.MemoryLimits(mm));
      r := QueueLater(lz, blockStart, out, backend, mm, vm, heap, maximumSave, ps, n, b);
      if r.Err? {
        QueueStalled(old(vm.Stock(heap)), ps, n + 1, hi, maximumSave, vm.MemoryLimits(mm));
        return;
      }
      blockPos := lz.src;
      n := n + 1;
    }
    ReadingEnd(statraw, round, l, blockStart, cur, n, blockPos);
    assert ps[..n] == ps;
    r := Ok(());
  }

  lemma QueueNone(items: seq<Item>, hi: nat, maximumSave: u32, lim: Limits)
    ensures QueueAll(items, [], hi, maximumSave, lim) == Some(items)
  {
  }

  lemma QueueNext(items: seq<Item>, ps: seq<Piece>, n: nat, hi: nat, maximumSave: u32, lim: Limits)
    requires n < |ps| && QueueAll(items, ps[..n], hi, maximumSave, lim).Some?
    ensures QueueAll(items, ps[..n + 1], hi, maximumSave, lim)
         == Queue(QueueAll(items, ps[..n], hi, maximumSave, lim).value, ps[n], hi, maximumSave, lim)
  {
    hide Queue;
    assert ps[..n + 1][..n] == ps[..n];
  }

  lemma RoomInPhase3(room: int, b: PendingMap, ps: seq<Piece>, n: nat, hi: nat, e: seq<byte>, maximumSave: u32)
    requires n < |ps| && Room(room, PieceSet(b) + SetOf(ps))
    requires forall i, j :: 0 <= i < j < |ps| ==> ps[i].dest != ps[j].dest
    requires forall i :: 0 <= i < |ps| && ps[i].dest >= hi ==> ps[i].dest !in b
    ensures Room(room, PieceSet(WithLater(b, ps[..n], hi, e, maximumSave)) + {ps[n]})
  {
    hide Room;
    LaterWithin(b, ps, n, hi, e, maximumSave);
    RoomLess(room, PieceSet(b) + SetOf(ps), PieceSet(WithLater(b, ps[..n], hi, e, maximumSave)) + {ps[n]});
  }

  lemma LaterWithin(b: PendingMap, ps: seq<Piece>, n: nat, hi: nat, e: seq<byte>, maximumSave: u32)
    requires n < |ps|
    requires forall i, j :: 0 <= i < j < |ps| ==> ps[i].dest != ps[j].dest
    requires forall i :: 0 <= i < |ps| && ps[i].dest >= hi ==> ps[i].dest !in b
    ensures PieceSet(WithLater(b, ps[..n], hi, e, maximumSave)) <= PieceSet(b) + SetOf(ps)
  {
    var c := WithLater(b, ps[..n], hi, e, maximumSave);
    WithLaterEntries(b, ps[..n], hi, e, maximumSave);
    forall p | p in PieceSet(c) ensures p in PieceSet(b) + SetOf(ps) {
      var x :| x in c && c[x].piece == p;
      if x in b { assert b[x].piece == p; } else { assert p in ps[..n] && p in ps; }
    }
  }

  lemma LongInPhase3(vs: nat, b: PendingMap, ps: seq<Piece>, n: nat, hi: nat, e: seq<byte>, maximumSave: u32)
    requires n < |ps| && TooLong(PieceSet(b) + SetOf(ps), vs)
    requires forall i, j :: 0 <= i < j < |ps| ==> ps[i].dest != ps[j].dest
    requires forall i :: 0 <= i < |ps| && ps[i].dest >= hi ==> ps[i].dest !in b
    ensures TooLong(PieceSet(WithLater(b, ps[..n], hi, e, maximumSave)), vs)
  {
    LaterWithin(b, ps, n, hi, e, maximumSave);
    hide PieceSet, WithLater;
  }

  lemma LaterNone(b: PendingMap, hi: nat, e: seq<byte>, maximumSave: u32)
    ensures WithLater(b, [], hi, e, maximumSave) == b
  {
  }

  lemma SavedSlice(backend: seq<byte>, o: seq<byte>, p: Piece, maximumSave: u32)
    requires |backend| <= p.src && p.src + p.len <= |backend| + |o| && p.len < maximumSave
    ensures SavedOf(p, backend + o, maximumSave) == Some(o[p.src - |backend|..p.src - |backend| + p.len])
  {
    assert (backend + o)[p.src..p.src + p.len] == o[p.src - |backend|..p.src - |backend| + p.len];
  }

  // ---- the block decoder ----

  /** Everything pending is due at or after `lo`. */
  ghost predicate KeysFrom(a: PendingMap, lo: nat) {
    forall x :: x in a ==> x >= lo
  }

  lemma StallInPhase2(a: PendingMap, ps: seq<Piece>, hi: nat, vs: nat, useful: nat)
    requires ListFresh(a, ps) && MayStall(WithDue(a, ps, hi), vs, useful, vs)
    ensures StallCause(PieceSet(a) + SetOf(ps), vs, useful)
  {
    var c := WithDue(a, ps, hi);
    WithDueEntries(a, ps, hi);
    if useful >= vs {
      var x :| x in c && vs < 24 + c[x].piece.len;
      if x in a {
        assert c[x].piece in PieceSet(a);
      } else {
        assert c[x].piece in SetOf(ps);
      }
    }
  }

  lemma RoomInPhase2(n: int, a: PendingMap, ps: seq<Piece>, hi: nat)
    requires ListFresh(a, ps) && Room(n, PieceSet(a) + SetOf(ps))
    ensures Room(n, PieceSet(WithDue(a, ps, hi)))
  {
    hide Room;
    var c := WithDue(a, ps, hi);
    WithDueEntries(a, ps, hi);
    forall p | p in PieceSet(c) ensures p in PieceSet(a) + SetOf(ps) {
      var x :| x in c && c[x].piece == p;
      if x in a { assert a[x].piece == p; }
    }
    RoomLess(n, PieceSet(a) + SetOf(ps), PieceSet(c));
  }

  lemma RestWithin(a: PendingMap, b: PendingMap, ps: seq<Piece>, hi: nat)
    requires ListFresh(a, ps) && Remains(WithDue(a, ps, hi), b, hi)
    ensures PieceSet(b) + SetOf(ps) <= PieceSet(a) + SetOf(ps)
  {
    WithDueEntries(a, ps, hi);
    forall p | p in PieceSet(b) ensures p in PieceSet(a) + SetOf(ps) {
      var x :| x in b && b[x].piece == p;
      if x in a { assert a[x].piece == p; }
    }
  }

  lemma RoomAfterPhase2(n: int, a: PendingMap, b: PendingMap, ps: seq<Piece>, hi: nat)
    requires ListFresh(a, ps) && Remains(WithDue(a, ps, hi), b, hi) && Room(n, PieceSet(a) + SetOf(ps))
    ensures Room(n, PieceSet(b) + SetOf(ps))
  {
    hide Room;
    RestWithin(a, b, ps, hi);
    RoomLess(n, PieceSet(a) + SetOf(ps), PieceSet(b) + SetOf(ps));
  }

  lemma LongAfterPhase2(vs: nat, a: PendingMap, b: PendingMap, ps: seq<Piece>, hi: nat)
    requires ListFresh(a, ps) && Remains(WithDue(a, ps, hi), b, hi) && TooLong(PieceSet(a) + SetOf(ps), vs)
    ensures TooLong(PieceSet(b) + SetOf(ps), vs)
  {
    RestWithin(a, b, ps, hi);
    hide PieceSet, SetOf;
  }

  lemma StallWeaker(a: PendingMap, b: PendingMap, ps: seq<Piece>, hi: nat, vs: nat, useful: nat)
    requires ListFresh(a, ps) && Remains(WithDue(a, ps, hi), b, hi) && StallCause(PieceSet(b) + SetOf(ps), vs, useful)
    ensures StallCause(PieceSet(a) + SetOf(ps), vs, useful)
  {
    WithDueEntries(a, ps, hi);
    if useful >= vs {
      var p :| p in PieceSet(b) + SetOf(ps) && vs < 24 + p.len;
      if p !in SetOf(ps) {
        var x :| x in b && b[x].piece == p;
        if x in a { assert p in PieceSet(a); }
      }
      assert p in PieceSet(a) + SetOf(ps);
    }
  }

  /** What phases 2 and 3 need to know of each other. */
  lemma BeforePhase3(a: PendingMap, b: PendingMap, c: PendingMap, ps: seq<Piece>, hi: nat)
    requires ListFresh(a, ps) && b == WithDue(a, ps, hi) && Remains(b, c, hi) && forall x :: x in c ==> x >= hi
    ensures forall i :: 0 <= i < |ps| && ps[i].dest >= hi ==> ps[i].dest !in c
    ensures LaterIn(c, hi) == LaterIn(b, hi)
  {
    WithDueEntries(a, ps, hi);
    LaterSame(c, b, hi);
  }

  lemma PendingDueRest(b: PendingMap, c: PendingMap, d: seq<byte>, hi: nat, maximumSave: u32)
    requires PendingDue(b, d, hi, maximumSave) && Remains(b, c, hi)
    ensures PendingDue(c, d, hi, maximumSave)
  {
  }

  lemma LaterKeys(c: PendingMap, ps: seq<Piece>, hi: nat, e: seq<byte>, maximumSave: u32)
    requires KeysFrom(c, hi)
    requires forall i, j :: 0 <= i < j < |ps| ==> ps[i].dest != ps[j].dest
    requires forall i :: 0 <= i < |ps| && ps[i].dest >= hi ==> ps[i].dest !in c
    ensures KeysFrom(WithLater(c, ps, hi, e, maximumSave), hi)
  {
    WithLaterEntries(c, ps, hi, e, maximumSave);
  }

  /** The rest of the literals completes the block. */
  method AppendTail(out: array<byte>, outPos: nat, tail: seq<byte>, ghost backend: seq<byte>)
    requires outPos + |tail| == out.Length
    modifies out
    ensures backend + out[..] == backend + old(out[..outPos]) + tail
  {
    Append(out, outPos, tail);
    assert out[..out.Length] == out[..];
  }

  /** Decode one block. It is accepted exactly when its list and layout are in order, and then
      the output is the one the matches and literals describe, whatever the memory limit, the
      VM block size and `maximumSave`; the only other outcome is a stall for the stated cause. */
  method DecompressFutureLz(round: bool, l: u32, backend: seq<byte>, blockStart: u64, statraw: seq<u32>, literals: seq<byte>,
      out: array<byte>, mm: MemoryManager, vm: VirtualMemoryManager, heap: LzMatchHeap, maximumSave: u32) returns (r: Result<bool>)
    requires vm.State(mm, heap) && vm.vmbuf != out && (round ==> l > 0)
    requires |backend| == blockStart && blockStart + out.Length < U64_MAX
    requires PendingOk(vm.PendingMatches(mm), backend, maximumSave) && KeysFrom(vm.PendingMatches(mm), blockStart)
    requires ListFresh(vm.PendingMatches(mm), FutureList(statraw, round, l, blockStart))
    requires Room(mm.usefulMemory / 60 + vm.vmblockSize, PieceSet(vm.PendingMatches(mm)) + SetOf(FutureList(statraw, round, l, blockStart)))
    requires mm.usedChunks <= mm.usefulMemory / 60 + vm.vmblockSize
    modifies out, mm, vm, vm.vmbuf, heap
    ensures var a, ps, hi := old(vm.PendingMatches(mm)), FutureList(statraw, round, l, blockStart), blockStart + out.Length;
            match r
            case Ok(true) =>
              && ListOk(ps, blockStart, hi) && Layout(Due(a, ps, hi), blockStart, hi, |literals|)
              && Decodes(backend + out[..], blockStart, Due(a, ps, hi), literals)
              && PieceSet(vm.PendingMatches(mm)) == Later(a, ps, hi)
            case Ok(false) =>
              !(ListOk(ps, blockStart, hi) && Layout(Due(a, ps, hi), blockStart, hi, |literals|))
            case Err(e) =>
              e == Stalled && StallCause(PieceSet(a) + SetOf(ps), vm.vmblockSize, mm.usefulMemory)
    ensures r == Ok(true) ==> vm.State(mm, heap) && mm.usedChunks <= mm.usefulMemory / 60 + vm.vmblockSize
    ensures r == Ok(true) ==> PendingOk(vm.PendingMatches(mm), backend + out[..], maximumSave)
    ensures r == Ok(true) ==> KeysFrom(vm.PendingMatches(mm), blockStart + out.Length)
    ensures r.Ok? ==> vm.totalRead >= old(vm.totalRead)
    ensures r == Ok(true) && old(vm.layout) == map[]
            && TooLong(PieceSet(old(vm.PendingMatches(mm))) + SetOf(FutureList(statraw, round, l, blockStart)), vm.vmblockSize)
            ==> vm.layout == map[] && vm.totalRead == old(vm.totalRead)
    // Nothing is spilled, and nothing stalls, when the memory holds what is to be saved.
    ensures var ps := FutureList(statraw, round, l, blockStart);
            old(vm.layout) == map[] && LaterFits(old(vm.PendingMatches(mm)), ps, blockStart + out.Length, maximumSave, mm.usefulMemory) ==>
              r.Ok? && (r.value ==> vm.layout == map[])
    // Whether it stalls depends on destinations and lengths alone.
    ensures var ps, hi := FutureList(statraw, round, l, blockStart), blockStart + out.Length;
            var after := SpillModel.Block(old(vm.Stock(heap)), ps, hi, maximumSave, vm.MemoryLimits(mm));
            match r case Err(_) => after.None? case Ok(true) => after == Some(vm.Stock(heap)) case _ => true
    ensures r == Ok(true) && vm.totalRead == old(vm.totalRead) ==>
              forall memlimit: u64 :: old(mm.WithinLimit(memlimit)) ==> mm.WithinLimit(memlimit)
  {
    hide Consistent, Inv, MarksOk, FileOk, Barred, FutureList, ListOk, ListFresh, Layout, Decodes, CopyingOk, PendingDue, PendingOk,
      WithDue, WithLater, StallCause, MayStall, Remains, Due, Later, DueIn, LaterIn, PieceSet, Room, TooLong, VirtualMemoryManager.State,
      LaterFits, SaveFits, Items, CopyOut, QueueAll;
    ghost var hi, a, ps := blockStart + out.Length, vm.PendingMatches(mm), FutureList(statraw, round, l, blockStart);
    var listed := InsertDue(round, l, blockStart, blockStart + out.Length, statraw, mm, vm, heap);
    if !listed {
      return Ok(false);
    }
    ghost var b := vm.PendingMatches(mm);
    DueAfterInsert(a, ps, backend, hi, maximumSave);
    RoomInPhase2(mm.usefulMemory / 60 + vm.vmblockSize, a, ps, hi);
    var inPos, outPos;
    ghost var c;
    r, inPos, outPos, c := CopyDue(backend, blockStart, literals, out, mm, vm, heap, maximumSave);
    if r.Err? {
      StallInPhase2(a, ps, hi, vm.vmblockSize, mm.usefulMemory);
      return;
    }
    if !r.value {
      return;
    }
    FinalGaps(c, blockStart, hi, Due(a, ps, hi), backend, literals, inPos, maximumSave);
    InPosOk(c, blockStart, hi, Due(a, ps, hi), backend, literals, inPos, maximumSave);
    if |literals| - inPos != out.Length - outPos {
      return Ok(false);
    }
    CopiedTail(c, blockStart, hi, Due(a, ps, hi), backend, literals, inPos, maximumSave);
    AppendTail(out, outPos, literals[inPos..], backend);
    BeforePhase3(a, b, c.a, ps, hi);
    FreshParts(a, ps);
    PendingDueRest(b, c.a, backend, hi, maximumSave);
    RoomAfterPhase2(mm.usefulMemory / 60 + vm.vmblockSize, a, c.a, ps, hi);
    if TooLong(PieceSet(a) + SetOf(ps), vm.vmblockSize) { LongAfterPhase2(vm.vmblockSize, a, c.a, ps, hi); }
    forall memlimit: u64 | old(mm.WithinLimit(memlimit)) && vm.totalRead == old(vm.totalRead) ensures mm.WithinLimit(memlimit) {}
    PendingAfterBlock(a, c.a, ps, backend, backend + out[..], maximumSave);
    if LaterFits(a, ps, hi, maximumSave, mm.usefulMemory) {
      SavableFits(a, c.a, ps, backend + out[..], maximumSave, mm.usefulMemory);
    }
    var saved := SaveLater(round, l, blockStart, statraw, out, backend, mm, vm, heap, maximumSave);
    if saved.Err? {
      StallWeaker(a, c.a, ps, hi, vm.vmblockSize, mm.usefulMemory);
      return Err(saved.error);
    }
    LaterKeys(c.a, ps, hi, backend + out[..], maximumSave);
    r := Ok(true);
  }

  /** The memory holds all matches pending after the block whose bytes are to be saved. */
  ghost predicate LaterFits(a: PendingMap, ps: seq<Piece>, hi: nat, maximumSave: u32, useful: nat) {
    Ample(Savable(Later(a, ps, hi), maximumSave), useful)
  }

  lemma SavableFits(a: PendingMap, c: PendingMap, ps: seq<Piece>, e: seq<byte>, maximumSave: u32, useful: nat)
    requires PendingOk(WithLater(c, ps, |e|, e, maximumSave), e, maximumSave)
    requires PieceSet(WithLater(c, ps, |e|, e, maximumSave)) == Later(a, ps, |e|) && LaterFits(a, ps, |e|, maximumSave, useful)
    ensures SaveFits(c, ps, |e|, e, maximumSave, useful)
  {
    hide WithLater, Ample, Later;
    var b, later := WithLater(c, ps, |e|, e, maximumSave), Later(a, ps, |e|);
    forall p | p in SavedPieces(b) ensures p in Savable(later, maximumSave) {
      var x :| x in b && b[x].saved.Some? && b[x].piece == p;
      assert Stored(b[x], e, maximumSave);
      assert p in PieceSet(b);
    }
    AmpleLess(Savable(later, maximumSave), SavedPieces(b), useful);
  }

  lemma FreshParts(a: PendingMap, ps: seq<Piece>)
    requires ListFresh(a, ps)
    ensures forall i :: 0 <= i < |ps| ==> ps[i].len > 0 && ps[i].dest < U64_MAX
    ensures forall i, j :: 0 <= i < j < |ps| ==> ps[i].dest != ps[j].dest
  {
  }

  lemma InPosOk(c: Copying, lo: nat, hi: nat, due: set<Piece>, backend: seq<byte>, literals: seq<byte>, inPos: nat, maximumSave: u32)
    requires CopyingOk(c, lo, hi, due, backend, literals, inPos, maximumSave)
    ensures inPos <= |literals|
  {
  }
}
