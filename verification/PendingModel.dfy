/** The pending matches of the decoder as one map from destination to match and saved
    bytes, whether a match sits in the heap or in a spilled block. Every step of
    spilling and restoring is shown to leave that map alone. */
module PendingModel {
  import opened Bytes
  import opened MatchModel
  import opened MatchHeap

  /** A record of a spilled block. */
  datatype Rec = Rec(src: u64, dest: u64, data: seq<byte>)

  /** A pending match with its saved bytes, if it has any. */
  datatype Pending = Pending(piece: Piece, saved: Option<seq<byte>>)

  datatype Loc = InHeap(e: HeapEntry) | OnDisk(block: nat, r: Rec)

  /** Ghost index: where the match of each destination is, which destination owns each
      stored string, and the marking point of each spilled block. */
  datatype Index = Index(loc: map<nat, Loc>, owner: map<nat, nat>, mark: map<nat, HeapEntry>)

  ghost predicate Barred(h: Heap) {
    exists e :: e in h && e.IsBarrier() && e.len > 0
  }

  type Heap = set<HeapEntry>
  type Strings = map<nat, seq<byte>>
  type Disk = map<nat, set<Rec>>

  ghost predicate EntryOk(e: HeapEntry, s: Strings, d: Disk, w: Index) {
    if e.IsMarkingPoint() then
      e.index == 0 && e.src in d && e.src in w.mark && w.mark[e.src] == e
    else if e.IsBarrier() then
      e.index == 0
    else
      && e.IsLive() && e.dest in w.loc && w.loc[e.dest] == InHeap(e)
      && (e.index != 0 ==>
            && e.index in s && |s[e.index]| == e.len
            && e.index in w.owner && w.owner[e.index] == e.dest)
  }

  ghost predicate LocOk(x: nat, h: Heap, d: Disk, w: Index)
    requires x in w.loc
  {
    match w.loc[x]
    case InHeap(e) => e in h && e.IsLive() && e.dest == x
    case OnDisk(b, r) => b in d && r in d[b] && r.dest == x
  }

  ghost predicate BlockOk(b: nat, h: Heap, d: Disk, w: Index)
    requires b in d
  {
    && b in w.mark && w.mark[b] in h && w.mark[b].IsMarkingPoint() && w.mark[b].src == b
    && forall r :: r in d[b] ==> RecOk(b, r, w)
  }

  ghost predicate RecOk(b: nat, r: Rec, w: Index)
    requires b in w.mark
  {
    && 0 < |r.data| <= U32_MAX && r.dest < U64_MAX
    && w.mark[b].dest <= r.dest
    && r.dest in w.loc && w.loc[r.dest] == OnDisk(b, r)
  }

  ghost predicate OwnerOk(i: nat, w: Index) {
    && i in w.owner && w.owner[i] in w.loc
    && w.loc[w.owner[i]].InHeap? && w.loc[w.owner[i]].e.index == i
  }

  /** Heap, store and disk hold together every pending match exactly once. */
  ghost predicate Inv(h: Heap, s: Strings, d: Disk, w: Index) {
    && (forall e :: e in h ==> EntryOk(e, s, d, w))
    && (forall x :: x in w.loc ==> LocOk(x, h, d, w))
    && (forall i :: i in s ==> i != 0 && OwnerOk(i, w))
    && (forall b :: b in d ==> BlockOk(b, h, d, w))
  }

  /** The mark carries the destination of one of its block's records. */
  ghost predicate MarkOk(m: HeapEntry, w: Index) {
    m.dest in w.loc && w.loc[m.dest].OnDisk? && w.loc[m.dest].block == m.src
  }

  ghost predicate MarksOk(h: Heap, w: Index) {
    forall m :: m in h && m.IsMarkingPoint() ==> MarkOk(m, w)
  }

  ghost function Meaning(l: Loc, s: Strings): Pending {
    match l
    case InHeap(e) =>
      Pending(Piece(e.src, e.dest, e.len), if e.index in s then Some(s[e.index]) else None)
    case OnDisk(b, r) =>
      Pending(Piece(r.src, r.dest, |r.data|), Some(r.data))
  }

  /** The pending matches, by destination. */
  ghost function Abs(s: Strings, w: Index): (a: map<nat, Pending>)
    ensures a.Keys == w.loc.Keys
  {
    map x | x in w.loc :: Meaning(w.loc[x], s)
  }

  ghost function PieceSet(a: map<nat, Pending>): set<Piece> {
    set x | x in a :: a[x].piece
  }

  // ---- spilling one match ----

  ghost function RecOf(e: HeapEntry, s: Strings): Rec
    requires e.index in s && e.IsLive()
  {
    Rec(e.src, e.dest, s[e.index])
  }

  /** Match `e` moves from the heap to block `b`, whose mark becomes `m`. */
  ghost function SpillHeap(h: Heap, e: HeapEntry, old_m: Option<HeapEntry>, m: HeapEntry): Heap {
    h - {e} - (if old_m.Some? then {old_m.value} else {}) + {m}
  }

  ghost function SpillDisk(d: Disk, b: nat, r: Rec): Disk {
    d[b := (if b in d then d[b] else {}) + {r}]
  }

  ghost function SpillIndex(w: Index, e: HeapEntry, b: nat, r: Rec, m: HeapEntry): Index {
    w.(loc := w.loc[e.dest := OnDisk(b, r)], owner := w.owner - {e.index}, mark := w.mark[b := m])
  }

  ghost predicate CanSpill(h: Heap, s: Strings, d: Disk, w: Index, e: HeapEntry, b: nat, old_m: Option<HeapEntry>, m: HeapEntry) {
    && Inv(h, s, d, w)
    && e in h && e.index != 0 && e.IsLive()
    && m.IsMarkingPoint() && m.src == b && m.dest == e.dest && m.index == 0
    && (match old_m
        case None => b !in d && m !in h
        case Some(o) => b in d && o in h && o.IsMarkingPoint() && o.src == b && e.dest <= o.dest && (m !in h || m == o))
  }

  lemma SpillEntries(h: Heap, s: Strings, d: Disk, w: Index, e: HeapEntry, b: nat, old_m: Option<HeapEntry>, m: HeapEntry)
    requires CanSpill(h, s, d, w, e, b, old_m, m)
    ensures EntryOk(e, s, d, w) && e.index in s && e.IsLive()
    ensures var r := RecOf(e, s);
            var w' := SpillIndex(w, e, b, r, m);
            forall f :: f in SpillHeap(h, e, old_m, m) ==> EntryOk(f, s - {e.index}, SpillDisk(d, b, r), w')
  {
  }

  lemma SpillLocs(h: Heap, s: Strings, d: Disk, w: Index, e: HeapEntry, b: nat, old_m: Option<HeapEntry>, m: HeapEntry)
    requires CanSpill(h, s, d, w, e, b, old_m, m) && EntryOk(e, s, d, w)
    ensures var r := RecOf(e, s);
            var w' := SpillIndex(w, e, b, r, m);
            forall x :: x in w'.loc ==> LocOk(x, SpillHeap(h, e, old_m, m), SpillDisk(d, b, r), w')
  {
  }

  lemma SpillBlocks(h: Heap, s: Strings, d: Disk, w: Index, e: HeapEntry, b: nat, old_m: Option<HeapEntry>, m: HeapEntry)
    requires CanSpill(h, s, d, w, e, b, old_m, m) && EntryOk(e, s, d, w)
    ensures var r := RecOf(e, s);
            var w' := SpillIndex(w, e, b, r, m);
            forall c :: c in SpillDisk(d, b, r) ==> BlockOk(c, SpillHeap(h, e, old_m, m), SpillDisk(d, b, r), w')
  {
  }

  /** Spilling a match keeps the invariant and every pending match. */
  lemma SpillOne(h: Heap, s: Strings, d: Disk, w: Index, e: HeapEntry, b: nat, old_m: Option<HeapEntry>, m: HeapEntry)
    requires CanSpill(h, s, d, w, e, b, old_m, m)
    ensures e.index in s && e.IsLive()
    ensures var r := RecOf(e, s);
            var w' := SpillIndex(w, e, b, r, m);
            && Inv(SpillHeap(h, e, old_m, m), s - {e.index}, SpillDisk(d, b, r), w')
            && Abs(s - {e.index}, w') == Abs(s, w)
            && MarkOk(m, w')
  {
    SpillEntries(h, s, d, w, e, b, old_m, m);
    SpillLocs(h, s, d, w, e, b, old_m, m);
    SpillBlocks(h, s, d, w, e, b, old_m, m);
  }

  /** Only the marks of the new block change. */
  lemma SpillMarks(h: Heap, s: Strings, d: Disk, w: Index, e: HeapEntry, b: nat, old_m: Option<HeapEntry>, m: HeapEntry)
    requires CanSpill(h, s, d, w, e, b, old_m, m) && EntryOk(e, s, d, w) && MarksOk(h, w)
    ensures MarksOk(SpillHeap(h, e, old_m, m), SpillIndex(w, e, b, RecOf(e, s), m))
  {
  }

  // ---- restoring one record ----

  ghost predicate CanRestore(h: Heap, s: Strings, d: Disk, w: Index, b: nat, r: Rec, e: HeapEntry) {
    && Inv(h, s, d, w) && b in d && r in d[b]
    && e.src == r.src && e.dest == r.dest && e.len == |r.data| && e.index != 0
    && e.index !in s && e !in h
  }

  ghost function RestoreIndex(w: Index, e: HeapEntry): Index {
    w.(loc := w.loc[e.dest := InHeap(e)], owner := w.owner[e.index := e.dest])
  }

  lemma RestoreEntries(h: Heap, s: Strings, d: Disk, w: Index, b: nat, r: Rec, e: HeapEntry)
    requires CanRestore(h, s, d, w, b, r, e)
    ensures forall f :: f in h + {e} ==> EntryOk(f, s[e.index := r.data], d[b := d[b] - {r}], RestoreIndex(w, e))
    ensures e.IsLive()
  {
    assert BlockOk(b, h, d, w);
  }

  lemma RestoreLocs(h: Heap, s: Strings, d: Disk, w: Index, b: nat, r: Rec, e: HeapEntry)
    requires CanRestore(h, s, d, w, b, r, e)
    ensures forall x :: x in RestoreIndex(w, e).loc ==> LocOk(x, h + {e}, d[b := d[b] - {r}], RestoreIndex(w, e))
    ensures forall i :: i in s[e.index := r.data] ==> i != 0 && OwnerOk(i, RestoreIndex(w, e))
  {
    assert BlockOk(b, h, d, w);
  }

  lemma RestoreBlocks(h: Heap, s: Strings, d: Disk, w: Index, b: nat, r: Rec, e: HeapEntry)
    requires CanRestore(h, s, d, w, b, r, e)
    ensures forall c :: c in d ==> BlockOk(c, h + {e}, d[b := d[b] - {r}], RestoreIndex(w, e))
  {
    assert BlockOk(b, h, d, w);
  }

  /** Restoring a record keeps the invariant and every pending match. */
  lemma RestoreOne(h: Heap, s: Strings, d: Disk, w: Index, b: nat, r: Rec, e: HeapEntry)
    requires CanRestore(h, s, d, w, b, r, e)
    ensures var s' := s[e.index := r.data];
            var w' := RestoreIndex(w, e);
            && Inv(h + {e}, s', d[b := d[b] - {r}], w')
            && Abs(s', w') == Abs(s, w)
  {
    RestoreEntries(h, s, d, w, b, r, e);
    RestoreLocs(h, s, d, w, b, r, e);
    RestoreBlocks(h, s, d, w, b, r, e);
    var s' := s[e.index := r.data];
    var w' := RestoreIndex(w, e);
    forall x | x in w.loc ensures Meaning(w'.loc[x], s') == Meaning(w.loc[x], s) {
      assert LocOk(x, h, d, w);
      if w.loc[x].InHeap? { assert EntryOk(w.loc[x].e, s, d, w); }
      if x == e.dest { assert BlockOk(b, h, d, w); }
    }
    assert r.dest in w.loc by { assert BlockOk(b, h, d, w); }
  }

  /** An emptied block goes away together with its mark. */
  lemma DropBlock(h: Heap, s: Strings, d: Disk, w: Index, b: nat)
    requires Inv(h, s, d, w) && b in d && d[b] == {}
    ensures b in w.mark
    ensures Inv(h - {w.mark[b]}, s, d - {b}, w.(mark := w.mark - {b}))
    ensures Abs(s, w.(mark := w.mark - {b})) == Abs(s, w)
  {
    assert BlockOk(b, h, d, w);
    var w' := w.(mark := w.mark - {b});
    var h' := h - {w.mark[b]};
    forall x | x in w'.loc ensures LocOk(x, h', d - {b}, w') {
      assert LocOk(x, h, d, w);
    }
    forall c | c in d - {b} ensures BlockOk(c, h', d - {b}, w') {
      assert BlockOk(c, h, d, w);
    }
    forall e | e in h' ensures EntryOk(e, s, d - {b}, w') {
      assert EntryOk(e, s, d, w);
    }
  }

  // ---- inserting and finishing a match ----

  ghost function AddIndex(w: Index, e: HeapEntry): Index {
    w.(loc := w.loc[e.dest := InHeap(e)], owner := if e.index == 0 then w.owner else w.owner[e.index := e.dest])
  }

  ghost predicate CanAdd(h: Heap, s: Strings, s': Strings, d: Disk, w: Index, e: HeapEntry) {
    && Inv(h, s, d, w) && e !in h && e.IsLive() && e.dest !in w.loc
    && if e.index == 0 then s' == s else e.index !in s && e.index in s' && |s'[e.index]| == e.len && s' == s[e.index := s'[e.index]]
  }

  lemma AddLocs(h: Heap, s: Strings, s': Strings, d: Disk, w: Index, e: HeapEntry)
    requires CanAdd(h, s, s', d, w, e)
    ensures forall x :: x in AddIndex(w, e).loc ==> LocOk(x, h + {e}, d, AddIndex(w, e))
    ensures forall i :: i in s' ==> i != 0 && OwnerOk(i, AddIndex(w, e))
  {
    forall x | x in AddIndex(w, e).loc ensures LocOk(x, h + {e}, d, AddIndex(w, e)) {
      if x != e.dest { assert LocOk(x, h, d, w); }
    }
  }

  lemma AddBlocks(h: Heap, s: Strings, s': Strings, d: Disk, w: Index, e: HeapEntry)
    requires CanAdd(h, s, s', d, w, e)
    ensures forall c :: c in d ==> BlockOk(c, h + {e}, d, AddIndex(w, e))
  {
    forall c | c in d ensures BlockOk(c, h + {e}, d, AddIndex(w, e)) {
      assert BlockOk(c, h, d, w);
    }
  }

  lemma AddEntries(h: Heap, s: Strings, s': Strings, d: Disk, w: Index, e: HeapEntry)
    requires CanAdd(h, s, s', d, w, e)
    ensures forall f :: f in h + {e} ==> EntryOk(f, s', d, AddIndex(w, e))
  {
    forall f | f in h + {e} ensures EntryOk(f, s', d, AddIndex(w, e)) {
      if f != e { assert EntryOk(f, s, d, w); }
    }
  }

  lemma AddMarks(h: Heap, w: Index, e: HeapEntry)
    requires MarksOk(h, w) && e.IsLive() && e.dest !in w.loc
    ensures MarksOk(h + {e}, AddIndex(w, e))
  {
    forall m | m in h + {e} && m.IsMarkingPoint() ensures MarkOk(m, AddIndex(w, e)) {
      assert MarkOk(m, w);
    }
  }

  lemma AddOne(h: Heap, s: Strings, s': Strings, d: Disk, w: Index, e: HeapEntry)
    requires CanAdd(h, s, s', d, w, e)
    ensures Inv(h + {e}, s', d, AddIndex(w, e))
    ensures Abs(s', AddIndex(w, e)) == Abs(s, w)[e.dest := Meaning(InHeap(e), s')]
    ensures MarksOk(h, w) ==> MarksOk(h + {e}, AddIndex(w, e))
  {
    AddLocs(h, s, s', d, w, e);
    AddBlocks(h, s, s', d, w, e);
    AddEntries(h, s, s', d, w, e);
    AddMeaning(h, s, s', d, w, e);
    if MarksOk(h, w) { AddMarks(h, w, e); }
  }

  lemma AddMeaning(h: Heap, s: Strings, s': Strings, d: Disk, w: Index, e: HeapEntry)
    requires Inv(h, s, d, w) && e.dest !in w.loc
    requires if e.index == 0 then s' == s else e.index !in s && e.index in s' && s' == s[e.index := s'[e.index]]
    ensures Abs(s', AddIndex(w, e)) == Abs(s, w)[e.dest := Meaning(InHeap(e), s')]
  {
    forall x | x in w.loc ensures Meaning(w.loc[x], s') == Meaning(w.loc[x], s) {
      assert LocOk(x, h, d, w);
      if w.loc[x].InHeap? { assert EntryOk(w.loc[x].e, s, d, w); }
    }
  }

  lemma RemoveLocs(h: Heap, s: Strings, d: Disk, w: Index, e: HeapEntry)
    requires Inv(h, s, d, w) && e in h && e.IsLive()
    ensures var s', w' := s - {e.index}, w.(loc := w.loc - {e.dest});
            forall x :: x in w'.loc ==> LocOk(x, h - {e}, d, w') && Meaning(w'.loc[x], s') == Meaning(w.loc[x], s)
  {
    assert EntryOk(e, s, d, w);
    var s', w' := s - {e.index}, w.(loc := w.loc - {e.dest});
    forall x | x in w'.loc ensures LocOk(x, h - {e}, d, w') && Meaning(w'.loc[x], s') == Meaning(w.loc[x], s) {
      assert LocOk(x, h, d, w);
      if w.loc[x].InHeap? { assert EntryOk(w.loc[x].e, s, d, w); }
    }
  }

  lemma RemoveBlocks(h: Heap, s: Strings, d: Disk, w: Index, e: HeapEntry)
    requires Inv(h, s, d, w) && e in h && e.IsLive()
    ensures forall c :: c in d ==> BlockOk(c, h - {e}, d, w.(loc := w.loc - {e.dest}))
  {
    assert EntryOk(e, s, d, w);
    forall c | c in d ensures BlockOk(c, h - {e}, d, w.(loc := w.loc - {e.dest})) {
      assert BlockOk(c, h, d, w);
      assert w.mark[c] != e;
      forall r | r in d[c] ensures r.dest != e.dest {}
    }
  }

  lemma RemoveEntries(h: Heap, s: Strings, d: Disk, w: Index, e: HeapEntry)
    requires Inv(h, s, d, w) && e in h && e.IsLive()
    ensures var s', w' := s - {e.index}, w.(loc := w.loc - {e.dest});
            && (forall f :: f in h - {e} ==> EntryOk(f, s', d, w'))
            && (forall i :: i in s' ==> i != 0 && OwnerOk(i, w'))
  {
    assert EntryOk(e, s, d, w);
    forall f | f in h - {e} ensures EntryOk(f, s - {e.index}, d, w.(loc := w.loc - {e.dest})) {
      assert EntryOk(f, s, d, w);
    }
  }

  lemma RemoveMarks(h: Heap, s: Strings, d: Disk, w: Index, e: HeapEntry)
    requires Inv(h, s, d, w) && e in h && e.IsLive() && MarksOk(h, w)
    ensures MarksOk(h - {e}, w.(loc := w.loc - {e.dest}))
  {
    assert EntryOk(e, s, d, w);
    forall m | m in h - {e} && m.IsMarkingPoint() ensures MarkOk(m, w.(loc := w.loc - {e.dest})) {
      assert MarkOk(m, w);
    }
  }

  lemma RemoveOne(h: Heap, s: Strings, d: Disk, w: Index, e: HeapEntry)
    requires Inv(h, s, d, w) && e in h && e.IsLive()
    ensures var s' := s - {e.index};
            var w' := w.(loc := w.loc - {e.dest});
            && Inv(h - {e}, s', d, w')
            && Abs(s', w') == Abs(s, w) - {e.dest}
            && e.dest in w.loc && Abs(s, w)[e.dest] == Meaning(InHeap(e), s)
            && (MarksOk(h, w) ==> MarksOk(h - {e}, w'))
  {
    assert EntryOk(e, s, d, w);
    hide Meaning;
    RemoveLocs(h, s, d, w, e);
    RemoveBlocks(h, s, d, w, e);
    RemoveEntries(h, s, d, w, e);
    if MarksOk(h, w) { RemoveMarks(h, s, d, w, e); }
  }

  // ---- spilling several matches into one block ----

  /** The state after spilling `erased` from the heap `h0` as the records `recs`: the heap
      and index as they will be once the erased entries are removed and the mark is set. */
  datatype Packed = Packed(h: Heap, w: Index, recs: seq<Rec>, erased: seq<HeapEntry>)

  ghost function PackMark(k: Packed, b: nat, serial: nat): Option<HeapEntry> {
    if k.erased == [] then None else Some(HeapEntry(b, k.erased[|k.erased| - 1].dest, 0, 0, serial))
  }

  ghost function PackDisk(k: Packed, d: Disk, b: nat): Disk {
    if k.erased == [] then d else d[b := SetOf(k.recs)]
  }

  /** What was erased, what was recorded for it, and what is left in the heap. */
  ghost predicate PackShape(k: Packed, h0: Heap, b: nat, serial: nat) {
    && |k.recs| == |k.erased|
    && (forall e :: e in h0 ==> e.serial < serial)
    && (forall i :: 0 <= i < |k.erased| ==> k.erased[i] in h0 && k.erased[i] !in k.h)
    && k.h == h0 - SetOf(k.erased) + (if k.erased == [] then {} else {PackMark(k, b, serial).value})
    && (forall i :: 0 <= i < |k.recs| ==> k.recs[i].dest == k.erased[i].dest && 0 < |k.recs[i].data| == k.erased[i].len)
    && (forall i, j :: 0 <= i < j < |k.recs| ==> k.recs[j].dest < k.recs[i].dest)
  }

  ghost predicate PackOk(k: Packed, h0: Heap, s: Strings, d: Disk, b: nat, serial: nat, a: map<nat, Pending>) {
    && b !in d && PackShape(k, h0, b, serial)
    && Inv(k.h, s, PackDisk(k, d, b), k.w) && MarksOk(k.h, k.w) && Abs(s, k.w) == a
  }

  ghost function PackNext(k: Packed, s: Strings, b: nat, serial: nat, e: HeapEntry): Packed
    requires e.index in s && e.IsLive()
  {
    var m := HeapEntry(b, e.dest, 0, 0, serial);
    Packed(SpillHeap(k.h, e, PackMark(k, b, serial), m), SpillIndex(k.w, e, b, RecOf(e, s), m),
           k.recs + [RecOf(e, s)], k.erased + [e])
  }

  lemma PackCanSpill(k: Packed, h0: Heap, s: Strings, d: Disk, b: nat, serial: nat, a: map<nat, Pending>, e: HeapEntry)
    requires PackOk(k, h0, s, d, b, serial, a)
    requires e in h0 && e !in k.erased && e.index != 0
    requires k.erased != [] ==> e.dest <= k.erased[|k.erased| - 1].dest
    ensures e.IsLive() && e.index in s
    ensures CanSpill(k.h, s, PackDisk(k, d, b), k.w, e, b, PackMark(k, b, serial), HeapEntry(b, e.dest, 0, 0, serial))
    ensures k.erased != [] ==> e.dest < k.erased[|k.erased| - 1].dest
  {
    assert e in k.h && EntryOk(e, s, PackDisk(k, d, b), k.w);
    if k.erased != [] {
      var last := k.recs[|k.recs| - 1];
      assert last in SetOf(k.recs);
      assert BlockOk(b, k.h, PackDisk(k, d, b), k.w);
    }
  }

  lemma PackShapeNext(k: Packed, h0: Heap, s: Strings, b: nat, serial: nat, e: HeapEntry)
    requires PackShape(k, h0, b, serial) && e in h0 && e !in k.erased
    requires e.index in s && e.IsLive() && |s[e.index]| == e.len
    requires k.erased != [] ==> e.dest < k.erased[|k.erased| - 1].dest
    ensures PackShape(PackNext(k, s, b, serial, e), h0, b, serial)
  {
    SetOfAppend(k.erased, e);
    var k' := PackNext(k, s, b, serial, e);
    assert k'.h == h0 - SetOf(k'.erased) + {PackMark(k', b, serial).value};
  }

  lemma PackDiskNext(k: Packed, s: Strings, d: Disk, b: nat, serial: nat, e: HeapEntry)
    requires |k.recs| == |k.erased| && b !in d && e.index in s && e.IsLive()
    ensures SpillDisk(PackDisk(k, d, b), b, RecOf(e, s)) == PackDisk(PackNext(k, s, b, serial, e), d, b)
  {
    SetOfAppend(k.recs, RecOf(e, s));
    assert k.recs == [] ==> SetOf(k.recs) == {};
  }

  lemma PackStep(k: Packed, h0: Heap, s: Strings, d: Disk, b: nat, serial: nat, a: map<nat, Pending>, e: HeapEntry)
    requires PackOk(k, h0, s, d, b, serial, a)
    requires e in h0 && e !in k.erased && e.index != 0
    requires k.erased != [] ==> e.dest <= k.erased[|k.erased| - 1].dest
    ensures e.IsLive() && e.index in s && |s[e.index]| == e.len
    ensures PackOk(PackNext(k, s, b, serial, e), h0, s - {e.index}, d, b, serial, a)
  {
    PackCanSpill(k, h0, s, d, b, serial, a, e);
    var d1, old_m, m := PackDisk(k, d, b), PackMark(k, b, serial), HeapEntry(b, e.dest, 0, 0, serial);
    SpillEntries(k.h, s, d1, k.w, e, b, old_m, m);
    PackShapeNext(k, h0, s, b, serial, e);
    hide Inv, MarksOk, Abs, CanSpill, PackShape, SpillIndex, SpillHeap, SpillDisk, PackDisk;
    SpillOne(k.h, s, d1, k.w, e, b, old_m, m);
    SpillMarks(k.h, s, d1, k.w, e, b, old_m, m);
    PackDiskNext(k, s, d, b, serial, e);
  }

  // ---- restoring a block ----

  /** The disk while the records `rs[k..]` of block `b` are still to be restored. */
  ghost function Draining(d: Disk, b: nat, rs: seq<Rec>, k: nat): Disk
    requires k <= |rs|
  {
    d[b := SetOf(rs[k..])]
  }

  lemma DrainNext(d: Disk, b: nat, rs: seq<Rec>, k: nat)
    requires k < |rs| && forall i, j :: 0 <= i < j < |rs| ==> rs[i] != rs[j]
    ensures b in Draining(d, b, rs, k) && rs[k] in Draining(d, b, rs, k)[b]
    ensures Draining(d, b, rs, k)[b := Draining(d, b, rs, k)[b] - {rs[k]}] == Draining(d, b, rs, k + 1)
  {
    assert rs[k..] == [rs[k]] + rs[k + 1..];
    var rest := rs[k + 1..];
    forall j | 0 <= j < |rest| ensures rest[j] != rs[k] { assert rest[j] == rs[k + 1 + j]; }
    assert SetOf(rs[k..]) == {rs[k]} + SetOf(rs[k + 1..]);
  }

  /** All marks but `m` are in order and farther than `m`, and the record `m` was set for
      is in the block of `m` or already in the heap. */
  ghost predicate Nearest(h: Heap, w: Index, m: HeapEntry) {
    && m in h && m.IsMarkingPoint()
    && (forall n :: n in h && n.IsMarkingPoint() && n != m ==> MarkOk(n, w) && m.dest < n.dest)
    && m.dest in w.loc && (w.loc[m.dest].OnDisk? ==> w.loc[m.dest].block == m.src)
  }

  lemma FirstIsNearest(h: Heap, s: Strings, d: Disk, w: Index, m: HeapEntry)
    requires Inv(h, s, d, w) && MarksOk(h, w) && m in h && m.IsMarkingPoint()
    requires forall e :: e in h && e != m ==> m.Before(e)
    ensures Nearest(h, w, m) && forall e :: e in h && e.IsLive() ==> m.dest < e.dest
  {
    forall e | e in h && e.IsLive() ensures m.dest < e.dest {
      assert EntryOk(e, s, d, w);
    }
    forall n | n in h && n.IsMarkingPoint() && n != m ensures m.dest < n.dest {
      assert EntryOk(n, s, d, w) && EntryOk(m, s, d, w) && MarkOk(n, w) && MarkOk(m, w);
    }
  }

  /** Spilling in between keeps it the nearest mark. */
  lemma StillNearest(h: Heap, s: Strings, d: Disk, w: Index, h': Heap, w': Index, m: HeapEntry)
    requires Nearest(h, w, m) && (forall e :: e in h && e.IsLive() ==> m.dest < e.dest)
    requires EntryOk(m, s, d, w) && MarksOk(h', w')
    requires forall e :: e in h && e.index == 0 ==> e in h'
    requires forall e :: e in h' && e !in h ==> exists f :: f in h && f.IsLive() && f.dest == e.dest
    ensures Nearest(h', w', m)
  {
    forall n | n in h' && n.IsMarkingPoint() && n != m ensures m.dest < n.dest {
      if n !in h {
        var f :| f in h && f.IsLive() && f.dest == n.dest;
      }
    }
    assert MarkOk(m, w');
  }

  lemma RestoreNearest(h: Heap, s: Strings, d: Disk, w: Index, b: nat, r: Rec, e: HeapEntry, m: HeapEntry)
    requires CanRestore(h, s, d, w, b, r, e) && Nearest(h, w, m) && m.src == b
    ensures Nearest(h + {e}, RestoreIndex(w, e), m)
  {
    assert BlockOk(b, h, d, w) && RecOk(b, r, w);
    assert e.IsLive();
    forall n | n in h && n.IsMarkingPoint() && n != m ensures MarkOk(n, RestoreIndex(w, e)) {
      assert EntryOk(n, s, d, w) && EntryOk(m, s, d, w);
    }
  }

  /** Once the block is drained, its mark stands at the destination of a match in the heap. */
  lemma Drained(h: Heap, s: Strings, d: Disk, w: Index, b: nat, m: HeapEntry)
    requires Inv(h, s, d, w) && b in d && d[b] == {} && Nearest(h, w, m) && m.src == b
    ensures b in w.mark && w.mark[b] == m
    ensures exists e :: e in h - {m} && e.IsLive() && e.dest == m.dest
    ensures MarksOk(h - {m}, w)
  {
    assert EntryOk(m, s, d, w);
    assert LocOk(m.dest, h, d, w);
    assert w.loc[m.dest].e in h - {m};
  }

  lemma BlockDone(h: Heap, s: Strings, d: Disk, w: Index, b: nat, m: HeapEntry)
    requires Inv(h, s, d, w) && b in d && d[b] == {} && Nearest(h, w, m) && m.src == b
    ensures var w' := w.(mark := w.mark - {b});
            && Inv(h - {m}, s, d - {b}, w') && MarksOk(h - {m}, w') && Abs(s, w') == Abs(s, w)
    ensures m in h && exists e :: e in h - {m} && e.IsLive() && e.dest == m.dest
    ensures forall n :: n in h - {m} && n.IsMarkingPoint() ==> m.dest < n.dest
  {
    Drained(h, s, d, w, b, m);
    DropBlock(h, s, d, w, b);
    assert MarksOk(h - {m}, w.(mark := w.mark - {b})) by {
      forall n | n in h - {m} && n.IsMarkingPoint() ensures MarkOk(n, w.(mark := w.mark - {b})) {
        assert MarkOk(n, w);
      }
    }
  }
}
