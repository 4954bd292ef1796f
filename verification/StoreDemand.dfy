/** How many chunks the store can need: never more than it takes to hold the bytes of all
    pending matches at once, since each saved string belongs to one pending match. */
module StoreDemand {
  import opened Bytes
  import opened MatchModel
  import opened MatchHeap
  import opened WideArithmetic
  import opened ChunkMemory
  import opened ChunkStore
  import opened PendingModel

  /** Chunk `j` of the bytes of match `p`. */
  datatype Slot = Slot(p: Piece, j: nat)

  ghost function Slots(ps: set<Piece>): set<Slot> {
    set p, j: nat | p in ps && 0 <= j < ChunksFor(p.len) :: Slot(p, j)
  }

  /** The chunks it takes to hold the bytes of all of `ps`. */
  ghost function Demand(ps: set<Piece>): nat {
    |Slots(ps)|
  }

  /** The chunk numbers suffice: `n` chunks, or the bytes of all of `ps`, stay within them. */
  ghost predicate Room(n: int, ps: set<Piece>) {
    Min(n, Demand(ps)) <= MAX_USED
  }

  lemma RoomLess(n: int, ps: set<Piece>, qs: set<Piece>)
    requires Room(n, ps) && qs <= ps
    ensures Room(n, qs)
  {
    assert Slots(qs) <= Slots(ps);
    SubsetSize(Slots(qs), Slots(ps));
  }

  /** The chunks of a match among others. */
  lemma {:induction false} SlotsOfOne(p: Piece, n: nat)
    ensures |set j: nat | 0 <= j < n :: Slot(p, j)| == n
  {
    if n > 0 {
      SlotsOfOne(p, n - 1);
      assert (set j: nat | 0 <= j < n :: Slot(p, j)) == (set j: nat | 0 <= j < n - 1 :: Slot(p, j)) + {Slot(p, n - 1)};
    }
  }

  lemma DemandMore(ps: set<Piece>, p: Piece)
    requires p !in ps
    ensures Demand(ps + {p}) == Demand(ps) + ChunksFor(p.len)
  {
    var one := set j: nat | 0 <= j < ChunksFor(p.len) :: Slot(p, j);
    SlotsOfOne(p, ChunksFor(p.len));
    assert Slots(ps + {p}) == Slots(ps) + one && Slots(ps) !! one;
  }

  /** Matches that share no byte of the output need no more chunks than the output has bytes. */
  lemma DemandApart(ps: set<Piece>, n: nat)
    requires Spread(ps, n)
    ensures Demand(ps) <= n
  {
    var f := map s | s in Slots(ps) :: s.p.dest + s.j + 1;
    forall s | s in Slots(ps) ensures f[s] in Indices(n + 1) && s.p in ps && s.p.Contains(s.p.dest + s.j) {
      assert ChunksFor(s.p.len) <= s.p.len;
    }
    InjectionSize(Slots(ps), Indices(n + 1), f);
  }

  /** The matches lie in the first `n` bytes of the output and share none of them. */
  ghost predicate Spread(ps: set<Piece>, n: nat) {
    && (forall p :: p in ps ==> p.dest + p.len <= n)
    && (forall p, q, x: nat {:trigger p.Contains(x), q.Contains(x)} :: p in ps && q in ps && p.Contains(x) && q.Contains(x) ==> p == q)
  }

  /** The first `w` bytes of each match. */
  ghost function FirstBytes(ps: set<Piece>, w: nat): set<Slot> {
    set p, i: nat | p in ps && 0 <= i < w :: Slot(p, i)
  }

  lemma {:induction false} FirstBytesSize(ps: set<Piece>, w: nat)
    ensures |FirstBytes(ps, w)| == Product(|ps|, w)
  {
    if ps == {} {
      assert FirstBytes(ps, w) == {};
    } else {
      var p :| p in ps;
      var qs, one := ps - {p}, set j: nat | 0 <= j < w :: Slot(p, j);
      FirstBytesSize(qs, w);
      SlotsOfOne(p, w);
      assert FirstBytes(ps, w) == FirstBytes(qs, w) + one && FirstBytes(qs, w) !! one;
      assert (|qs| + 1) * w == |qs| * w + w;
    }
  }

  /** There are no more than `n / w` matches of `w` bytes or more. */
  lemma SpreadCount(ps: set<Piece>, n: nat, w: nat)
    requires Spread(ps, n) && w > 0 && forall p :: p in ps ==> p.len >= w
    ensures |ps| <= n / w
  {
    var f := map s | s in FirstBytes(ps, w) :: s.p.dest + s.j + 1;
    forall s | s in FirstBytes(ps, w) ensures f[s] in Indices(n + 1) && s.p in ps && s.p.Contains(s.p.dest + s.j) {
    }
    InjectionSize(FirstBytes(ps, w), Indices(n + 1), f);
    FirstBytesSize(ps, w);
    QuotientAtLeast(|ps|, w, n);
  }

  /** The full chunks of the matches, as pieces of their own. */
  ghost function FullPieces(ps: set<Piece>): set<Piece> {
    set p, j: nat | p in ps && 0 <= j < p.len / USEFUL_CHUNK_SPACE :: FullPiece(p, j)
  }

  ghost function FullPiece(p: Piece, j: nat): Piece {
    Piece(0, p.dest + USEFUL_CHUNK_SPACE * j, USEFUL_CHUNK_SPACE)
  }

  lemma FullSpread(ps: set<Piece>, n: nat)
    requires Spread(ps, n)
    ensures Spread(FullPieces(ps), n) && forall f :: f in FullPieces(ps) ==> f.len >= USEFUL_CHUNK_SPACE
  {
    var fs := FullPieces(ps);
    forall f | f in fs ensures f.dest + f.len <= n {
      var p, j: nat :| p in ps && 0 <= j < p.len / USEFUL_CHUNK_SPACE && f == FullPiece(p, j);
    }
    forall f, g, x: nat {:trigger f.Contains(x), g.Contains(x)} | f in fs && g in fs && f.Contains(x) && g.Contains(x) ensures f == g {
      var p, j: nat :| p in ps && 0 <= j < p.len / USEFUL_CHUNK_SPACE && f == FullPiece(p, j);
      var q, i: nat :| q in ps && 0 <= i < q.len / USEFUL_CHUNK_SPACE && g == FullPiece(q, i);
      assert p.Contains(x) && q.Contains(x);
    }
  }

  /** Such matches take a chunk for every 60 bytes of the output, and one more each. */
  lemma DemandSpread(ps: set<Piece>, n: nat)
    requires Spread(ps, n)
    ensures Demand(ps) <= n / USEFUL_CHUNK_SPACE + |ps|
  {
    var full := set s | s in Slots(ps) && s.j < s.p.len / USEFUL_CHUNK_SPACE;
    var last := set s | s in Slots(ps) && s.j >= s.p.len / USEFUL_CHUNK_SPACE;
    FullSlots(ps, n, full);
    LastSlots(ps, last);
    assert Slots(ps) == full + last;
  }

  lemma FullSlots(ps: set<Piece>, n: nat, full: set<Slot>)
    requires Spread(ps, n) && forall s :: s in full ==> s.p in ps && s.j < s.p.len / USEFUL_CHUNK_SPACE
    ensures |full| <= n / USEFUL_CHUNK_SPACE
  {
    var f := map s | s in full :: FullPiece(s.p, s.j);
    forall s, t | s in full && t in full && f[s] == f[t] ensures s == t {
      assert s.p.Contains(f[s].dest) && t.p.Contains(f[s].dest);
    }
    InjectionSize(full, FullPieces(ps), f);
    FullSpread(ps, n);
    hide Spread;
    SpreadCount(FullPieces(ps), n, USEFUL_CHUNK_SPACE);
  }

  lemma LastSlots(ps: set<Piece>, last: set<Slot>)
    requires forall s :: s in last ==> s.p in ps && s.p.len / USEFUL_CHUNK_SPACE <= s.j < ChunksFor(s.p.len)
    ensures |last| <= |ps|
  {
    var f := map s | s in last :: s.p;
    forall s, t | s in last && t in last && f[s] == f[t] ensures s == t {
      LastChunk(s.p.len, s.j);
      LastChunk(t.p.len, t.j);
    }
    InjectionSize(last, ps, f);
  }

  lemma LastChunk(len: nat, j: nat)
    requires len / USEFUL_CHUNK_SPACE <= j < ChunksFor(len)
    ensures j == len / USEFUL_CHUNK_SPACE
  {
  }

  /** The chunks that the pieces of any matches of an input can take together. */
  function ChunkBound(total: nat, base: nat): int {
    if base == 0 then total else Min(total, total / USEFUL_CHUNK_SPACE + 2 * (total / base))
  }

  // ---- what the store holds ----

  /** The pending matches whose bytes are saved. */
  ghost function SavedPieces(a: map<nat, Pending>): set<Piece> {
    set x | x in a && a[x].saved.Some? :: a[x].piece
  }

  /** The matches of `ps` whose bytes are saved rather than reread. */
  ghost function Savable(ps: set<Piece>, maximumSave: u32): set<Piece> {
    set p | p in ps && p.len < maximumSave
  }

  /** The memory holds the bytes of all of `ps` at once. */
  ghost predicate Ample(ps: set<Piece>, useful: nat) {
    60 * Demand(ps) <= useful
  }

  lemma AmpleLess(ps: set<Piece>, qs: set<Piece>, useful: nat)
    requires Ample(ps, useful) && qs <= ps
    ensures Ample(qs, useful)
  {
    SlotsGrow(qs, ps);
    SubsetSize(Slots(qs), Slots(ps));
  }

  ghost function PieceOf(e: HeapEntry): Piece { Piece(e.src, e.dest, e.len) }

  /** The pending matches that are in the heap. */
  ghost function InMemoryOf(w: Index): set<Piece> {
    set x | x in w.loc && w.loc[x].InHeap? :: PieceOf(w.loc[x].e)
  }

  /** The match a used chunk works for, and which chunk of it this is. */
  ghost function SlotOf(g: Account, w: Index, c: nat): Slot
    requires c in g.place && g.place[c].head in w.owner
    requires w.owner[g.place[c].head] in w.loc && w.loc[w.owner[g.place[c].head]].InHeap?
  {
    Slot(PieceOf(w.loc[w.owner[g.place[c].head]].e), g.place[c].pos)
  }

  lemma SlotKnown(m: Memory, used: nat, g: Account, h: Heap, d: Disk, w: Index, c: nat)
    requires Consistent(m, used, g, [], 0) && Inv(h, g.strings, d, w) && c in g.place
    ensures var i := g.place[c].head; 
            && i in w.owner && w.owner[i] in w.loc && w.loc[w.owner[i]].InHeap? && w.loc[w.owner[i]].e.index == i
            && w.loc[w.owner[i]].e.dest == w.owner[i]
    ensures SlotOf(g, w, c) in Slots(InMemoryOf(w)) && SlotOf(g, w, c) in Slots(SavedPieces(Abs(g.strings, w)))
    ensures var pl := g.place[c]; pl.head in g.chains && pl.pos < |g.chains[pl.head]| && g.chains[pl.head][pl.pos] == c
  {
    hide FreeListOk;
    var i := g.place[c].head;
    assert i in g.strings && OwnerOk(i, w) && Saved(m, g, i);
    assert LocOk(w.owner[i], h, d, w);
    assert EntryOk(w.loc[w.owner[i]].e, g.strings, d, w);
    assert Abs(g.strings, w)[w.owner[i]].saved.Some?;
  }

  /** The chunks in use are chunks of saved matches in the heap. */
  lemma UsedIsHeld(m: Memory, used: nat, g: Account, h: Heap, d: Disk, w: Index)
    requires Consistent(m, used, g, [], 0) && Inv(h, g.strings, d, w)
    ensures used <= Demand(InMemoryOf(w))
    ensures used <= Demand(SavedPieces(Abs(g.strings, w)))
  {
    hide FreeListOk, StringsOk, Inv, Slots, SavedPieces, Abs;
    forall c | c in g.place
      ensures var i := g.place[c].head; i in w.owner && w.owner[i] in w.loc && w.loc[w.owner[i]].InHeap?
    {
      SlotKnown(m, used, g, h, d, w, c);
    }
    var f := map c | c in g.place :: SlotOf(g, w, c);
    forall b, c | b in g.place && c in g.place && f[b] == f[c] ensures b == c {
      SlotKnown(m, used, g, h, d, w, b);
      SlotKnown(m, used, g, h, d, w, c);
    }
    forall c | c in g.place ensures f[c] in Slots(InMemoryOf(w)) && f[c] in Slots(SavedPieces(Abs(g.strings, w))) {
      SlotKnown(m, used, g, h, d, w, c);
    }
    InjectionSize(g.place.Keys, Slots(InMemoryOf(w)), f);
    InjectionSize(g.place.Keys, Slots(SavedPieces(Abs(g.strings, w))), f);
  }

  /** There is room for one more match of `ps`. */
  lemma RoomForOne(m: Memory, used: nat, g: Account, h: Heap, d: Disk, w: Index, ps: set<Piece>, p: Piece)
    requires Consistent(m, used, g, [], 0) && Inv(h, g.strings, d, w)
    requires InMemoryOf(w) <= ps && p in ps && p !in InMemoryOf(w)
    ensures used + ChunksFor(p.len) <= Demand(ps)
  {
    UsedIsHeld(m, used, g, h, d, w);
    hide Consistent, Inv, InMemoryOf, Slots;
    DemandMore(InMemoryOf(w), p);
    SlotsGrow(InMemoryOf(w) + {p}, ps);
    SubsetSize(Slots(InMemoryOf(w) + {p}), Slots(ps));
  }

  lemma SlotsGrow(qs: set<Piece>, ps: set<Piece>)
    requires qs <= ps
    ensures Slots(qs) <= Slots(ps)
  {
  }

  /** What is in the heap is pending. */
  lemma InMemoryIsPending(h: Heap, s: Strings, d: Disk, w: Index)
    requires Inv(h, s, d, w)
    ensures InMemoryOf(w) <= PieceSet(Abs(s, w))
  {
    forall p | p in InMemoryOf(w) ensures p in PieceSet(Abs(s, w)) {
      var x :| x in w.loc && w.loc[x].InHeap? && PieceOf(w.loc[x].e) == p;
      assert Abs(s, w)[x].piece == p;
    }
  }

  lemma InMemoryDest(h: Heap, s: Strings, d: Disk, w: Index, p: Piece)
    requires Inv(h, s, d, w) && p in InMemoryOf(w)
    ensures p.dest in w.loc && w.loc[p.dest].InHeap?
  {
    var x :| x in w.loc && w.loc[x].InHeap? && PieceOf(w.loc[x].e) == p;
    assert LocOk(x, h, d, w);
  }

  /** Saving a match that is not pending yet. */
  lemma RoomToSave(m: Memory, used: nat, g: Account, h: Heap, d: Disk, w: Index, p: Piece)
    requires Consistent(m, used, g, [], 0) && Inv(h, g.strings, d, w) && p.dest !in w.loc
    ensures used + ChunksFor(p.len) <= Demand(PieceSet(Abs(g.strings, w)) + {p})
  {
    hide Consistent, Inv, InMemoryOf, Demand, Abs, PieceSet;
    InMemoryIsPending(h, g.strings, d, w);
    if p in InMemoryOf(w) { InMemoryDest(h, g.strings, d, w, p); }
    RoomForOne(m, used, g, h, d, w, PieceSet(Abs(g.strings, w)) + {p}, p);
  }

  /** When the memory holds all saved matches and one more, there is room for that one now. */
  lemma AmpleToSave(m: Memory, used: nat, g: Account, h: Heap, d: Disk, w: Index, p: Piece, useful: nat)
    requires Consistent(m, used, g, [], 0) && Inv(h, g.strings, d, w) && p.dest !in w.loc
    requires Ample(SavedPieces(Abs(g.strings, w)) + {p}, useful)
    ensures 60 * used + p.len <= useful
  {
    UsedIsHeld(m, used, g, h, d, w);
    var held := SavedPieces(Abs(g.strings, w));
    if p in held { SavedDest(h, g.strings, d, w, p); }
    hide Consistent, Inv, SavedPieces, Slots, Demand, Abs;
    DemandMore(held, p);
  }

  lemma SavedDest(h: Heap, s: Strings, d: Disk, w: Index, p: Piece)
    requires Inv(h, s, d, w) && p in SavedPieces(Abs(s, w))
    ensures p.dest in w.loc
  {
    var x :| x in w.loc && Abs(s, w)[x].piece == p;
    assert LocOk(x, h, d, w);
  }

  /** Bringing a record of the disk back. */
  lemma RoomToRestore(m: Memory, used: nat, g: Account, h: Heap, d: Disk, w: Index, b: nat, r: Rec)
    requires Consistent(m, used, g, [], 0) && Inv(h, g.strings, d, w) && b in d && r in d[b]
    ensures used + ChunksFor(|r.data|) <= Demand(PieceSet(Abs(g.strings, w)))
  {
    hide Consistent, InMemoryOf, Demand;
    assert BlockOk(b, h, d, w) && RecOk(b, r, w);
    var p := Piece(r.src, r.dest, |r.data|);
    InMemoryIsPending(h, g.strings, d, w);
    if p in InMemoryOf(w) { InMemoryDest(h, g.strings, d, w, p); }
    assert Abs(g.strings, w)[r.dest].piece == p;
    RoomForOne(m, used, g, h, d, w, PieceSet(Abs(g.strings, w)), p);
  }

  // ---- what the store must hold ----


  /** The chunk that holds part `j` of a saved match. */
  ghost function ChunkOf(g: Account, w: Index, t: Slot): nat
    requires t.p.dest in w.loc && w.loc[t.p.dest].InHeap? && w.loc[t.p.dest].e.index in g.chains
    requires t.j < |g.chains[w.loc[t.p.dest].e.index]|
  {
    g.chains[w.loc[t.p.dest].e.index][t.j]
  }

  lemma SavedSlot(m: Memory, used: nat, g: Account, h: Heap, w: Index, t: Slot)
    requires Consistent(m, used, g, [], 0) && Inv(h, g.strings, map[], w) && t in Slots(SavedPieces(Abs(g.strings, w)))
    ensures t.p.dest in w.loc && w.loc[t.p.dest].InHeap? && PieceOf(w.loc[t.p.dest].e) == t.p
    ensures var i := w.loc[t.p.dest].e.index;
            && i in g.chains && t.j < |g.chains[i]| && i in w.owner && w.owner[i] == t.p.dest
            && ChunkOf(g, w, t) in g.place && g.place[ChunkOf(g, w, t)] == Place(i, t.j)
  {
    hide FreeListOk;
    var x :| x in w.loc && Abs(g.strings, w)[x].saved.Some? && Abs(g.strings, w)[x].piece == t.p;
    assert LocOk(x, h, map[], w);
    var e := w.loc[x].e;
    assert EntryOk(e, g.strings, map[], w);
    assert Saved(m, g, e.index);
  }

  /** With nothing on disk, the chunks in use hold the bytes of every saved match. */
  lemma HeldIsUsed(m: Memory, used: nat, g: Account, h: Heap, w: Index)
    requires Consistent(m, used, g, [], 0) && Inv(h, g.strings, map[], w)
    ensures Demand(SavedPieces(Abs(g.strings, w))) <= used
  {
    hide FreeListOk, StringsOk, Inv, Slots, SavedPieces, Abs;
    var slots := Slots(SavedPieces(Abs(g.strings, w)));
    forall t | t in slots
      ensures t.p.dest in w.loc && w.loc[t.p.dest].InHeap? && w.loc[t.p.dest].e.index in g.chains
      ensures t.j < |g.chains[w.loc[t.p.dest].e.index]|
    {
      SavedSlot(m, used, g, h, w, t);
    }
    var f := map t | t in slots :: ChunkOf(g, w, t);
    forall t | t in slots ensures f[t] in g.place.Keys {
      SavedSlot(m, used, g, h, w, t);
    }
    forall t, u | t in slots && u in slots && f[t] == f[u] ensures t == u {
      SavedSlot(m, used, g, h, w, t);
      SavedSlot(m, used, g, h, w, u);
    }
    InjectionSize(slots, g.place.Keys, f);
  }
}
