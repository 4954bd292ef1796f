/** What one block of a Future-LZ archive means: the matches that fall due in it, the
    conditions under which its lists make sense, and how the pending matches change. */
module FutureSpec {
  import opened Bytes
  import opened MatchModel
  import opened PendingModel
  import opened Records

  /** The matches of a block's list; each record's source counts from the previous one's. */
  function FutureList(stat: seq<u32>, round: bool, l: u32, pos: u64): (ps: seq<Piece>)
    requires round ==> l > 0
    decreases |stat|
  {
    if |stat| < StatsPerMatch(round) then []
    else
      var m := DecodeLzMatch(stat, true, round, l, pos).1;
      [Piece(m.src, m.dest, m.len)] + FutureList(stat[StatsPerMatch(round)..], round, l, m.src)
  }

  /** The source lies in the block, not before the previous source, and the match points forward. */
  predicate RecordOk(p: Piece, pos: nat, blockEnd: nat) {
    pos <= p.src < blockEnd && p.len <= blockEnd - p.src && p.src < p.dest
  }

  ghost predicate ListOk(ps: seq<Piece>, pos: nat, blockEnd: nat) {
    forall i :: 0 <= i < |ps| ==> RecordOk(ps[i], Previous(ps, pos, i), blockEnd)
  }

  /** Where record `i` counts its source from. */
  function Previous(ps: seq<Piece>, pos: nat, i: nat): nat
    requires i <= |ps|
  {
    if i == 0 then pos else ps[i - 1].src
  }

  /** The due matches lie in the block one after the other, and the literals fill the rest. */
  ghost predicate Layout(due: set<Piece>, lo: nat, hi: nat, literals: nat) {
    && (forall p :: p in due ==> lo <= p.dest && p.dest + p.len <= hi)
    && (forall p, q :: p in due && q in due && p != q ==> Apart(p, q))
    && Gaps(lo, hi, due) == literals
  }

  predicate Apart(p: Piece, q: Piece) {
    p.dest + p.len <= q.dest || q.dest + q.len <= p.dest
  }

  // ---- pending matches ----

  type PendingMap = map<nat, Pending>

  ghost function DueIn(a: PendingMap, hi: nat): set<Piece> {
    set x | x in a && x < hi :: a[x].piece
  }

  ghost function LaterIn(a: PendingMap, hi: nat): set<Piece> {
    set x | x in a && x >= hi :: a[x].piece
  }

  /** The matches due in the block: pending from earlier blocks, or from the block's own list. */
  ghost function Due(a: PendingMap, ps: seq<Piece>, hi: nat): set<Piece> {
    DueIn(a, hi) + set p | p in ps && p.dest < hi
  }

  /** The matches pending after the block. */
  ghost function Later(a: PendingMap, ps: seq<Piece>, hi: nat): set<Piece> {
    LaterIn(a, hi) + set p | p in ps && p.dest >= hi
  }

  /** The bytes of the match are available: saved, or to be reread exactly when it is long. */
  ghost predicate Stored(q: Pending, d: seq<byte>, maximumSave: u32) {
    && q.piece.src + q.piece.len <= |d|
    && match q.saved
       case Some(s) => s == d[q.piece.src..q.piece.src + q.piece.len] && q.piece.len < maximumSave
       case None => q.piece.len >= maximumSave
  }

  ghost predicate KeyOk(q: Pending, x: nat) {
    q.piece.dest == x && q.piece.len > 0 && q.piece.src < x
  }

  /** Between blocks: everything pending was read from the output so far. */
  ghost predicate PendingOk(a: PendingMap, d: seq<byte>, maximumSave: u32) {
    forall x :: x in a ==> KeyOk(a[x], x) && Stored(a[x], d, maximumSave)
  }

  /** Within a block: a match is stored, or its source is in the block itself. */
  ghost predicate Fetchable(q: Pending, d: seq<byte>, maximumSave: u32) {
    Stored(q, d, maximumSave) || (q.saved.None? && q.piece.src >= |d|)
  }

  ghost predicate PendingDue(a: PendingMap, d: seq<byte>, hi: nat, maximumSave: u32) {
    forall x :: x in a ==> KeyOk(a[x], x) && Fetchable(a[x], d, maximumSave) && (x >= hi ==> Stored(a[x], d, maximumSave))
  }

  /** Destinations in the list are new and distinct, and lengths positive. */
  ghost predicate ListFresh(a: PendingMap, ps: seq<Piece>) {
    && (forall i :: 0 <= i < |ps| ==> ps[i].dest !in a && ps[i].len > 0 && ps[i].dest < U64_MAX)
    && (forall i, j :: 0 <= i < j < |ps| ==> ps[i].dest != ps[j].dest)
  }

  /** The first `n` records, those with destination in the block inserted. */
  ghost function WithDue(a: PendingMap, ps: seq<Piece>, hi: nat): PendingMap
  {
    if ps == [] then a
    else
      var b, p := WithDue(a, ps[..|ps| - 1], hi), ps[|ps| - 1];
      if p.dest < hi then b[p.dest := Pending(p, None)] else b
  }

  ghost function SavedOf(p: Piece, d: seq<byte>, maximumSave: u32): Option<seq<byte>> {
    if p.len >= maximumSave || p.src + p.len > |d| then None else Some(d[p.src..p.src + p.len])
  }

  /** The first `n` records, those with destination past the block inserted. */
  ghost function WithLater(a: PendingMap, ps: seq<Piece>, hi: nat, d: seq<byte>, maximumSave: u32): PendingMap
  {
    if ps == [] then a
    else
      var b, p := WithLater(a, ps[..|ps| - 1], hi, d, maximumSave), ps[|ps| - 1];
      if p.dest >= hi then b[p.dest := Pending(p, SavedOf(p, d, maximumSave))] else b
  }

  lemma DueStep(a: PendingMap, ps: seq<Piece>, hi: nat)
    requires ps != []
    ensures var n := |ps| - 1;
            WithDue(a, ps, hi) ==
              if ps[n].dest < hi then WithDue(a, ps[..n], hi)[ps[n].dest := Pending(ps[n], None)] else WithDue(a, ps[..n], hi)
  {
  }

  lemma {:induction false} WithDueEntries(a: PendingMap, ps: seq<Piece>, hi: nat)
    requires ListFresh(a, ps)
    ensures DueEntries(a, ps, hi, WithDue(a, ps, hi))
  {
    if ps != [] {
      hide WithDue, ListFresh, DueEntries;
      var n := |ps| - 1;
      DueStep(a, ps, hi);
      FreshPrefix(a, ps);
      WithDueEntries(a, ps[..n], hi);
      var b := WithDue(a, ps[..n], hi);
      if ps[n].dest < hi { DueEntryAdded(a, ps, hi, b); } else { DueEntrySkipped(a, ps, hi, b); }
    }
  }

  /** Old entries stay, and the new ones are those of the list due before `hi`. */
  ghost predicate DueEntries(a: PendingMap, ps: seq<Piece>, hi: nat, b: PendingMap) {
    && (forall x :: x in a ==> x in b && b[x] == a[x])
    && (forall i :: 0 <= i < |ps| && ps[i].dest < hi ==> ps[i].dest in b && b[ps[i].dest] == Pending(ps[i], None))
    && (forall x :: x in b && x !in a ==> b[x].piece in ps && x < hi && b[x] == Pending(b[x].piece, None) && b[x].piece.dest == x)
  }

  lemma FreshPrefix(a: PendingMap, ps: seq<Piece>)
    requires ListFresh(a, ps) && ps != []
    ensures ListFresh(a, ps[..|ps| - 1])
  {
    var qs := ps[..|ps| - 1];
    forall i | 0 <= i < |qs| ensures qs[i].dest !in a && qs[i].len > 0 && qs[i].dest < U64_MAX { assert qs[i] == ps[i]; }
    forall i, j | 0 <= i < j < |qs| ensures qs[i].dest != qs[j].dest { assert qs[i] == ps[i] && qs[j] == ps[j]; }
  }

  lemma DueEntryAdded(a: PendingMap, ps: seq<Piece>, hi: nat, b: PendingMap)
    requires ListFresh(a, ps) && ps != [] && ps[|ps| - 1].dest < hi && DueEntries(a, ps[..|ps| - 1], hi, b)
    ensures DueEntries(a, ps, hi, b[ps[|ps| - 1].dest := Pending(ps[|ps| - 1], None)])
  {
    var n := |ps| - 1;
    var qs, p := ps[..n], ps[n];
    var c := b[p.dest := Pending(p, None)];
    assert p in ps;
    forall i | 0 <= i < |ps| && ps[i].dest < hi ensures ps[i].dest in c && c[ps[i].dest] == Pending(ps[i], None) {
      if i < n { assert qs[i] == ps[i] && ps[i].dest != p.dest; }
    }
    forall x | x in c && x !in a ensures c[x].piece in ps {
      if x != p.dest { assert b[x].piece in qs; }
    }
  }

  lemma DueEntrySkipped(a: PendingMap, ps: seq<Piece>, hi: nat, b: PendingMap)
    requires ps != [] && ps[|ps| - 1].dest >= hi && DueEntries(a, ps[..|ps| - 1], hi, b)
    ensures DueEntries(a, ps, hi, b)
  {
    var n := |ps| - 1;
    var qs := ps[..n];
    forall i | 0 <= i < |ps| && ps[i].dest < hi ensures ps[i].dest in b && b[ps[i].dest] == Pending(ps[i], None) {
      assert qs[i] == ps[i];
    }
    forall x | x in b && x !in a ensures b[x].piece in ps { assert b[x].piece in qs; }
  }

  lemma LaterStep(a: PendingMap, ps: seq<Piece>, hi: nat, d: seq<byte>, maximumSave: u32)
    requires ps != []
    ensures var n := |ps| - 1;
            var b := WithLater(a, ps[..n], hi, d, maximumSave);
            WithLater(a, ps, hi, d, maximumSave) == if ps[n].dest >= hi then b[ps[n].dest := Pending(ps[n], SavedOf(ps[n], d, maximumSave))] else b
  {
  }

  lemma {:induction false} WithLaterEntries(a: PendingMap, ps: seq<Piece>, hi: nat, d: seq<byte>, maximumSave: u32)
    requires forall i, j :: 0 <= i < j < |ps| ==> ps[i].dest != ps[j].dest
    requires forall i :: 0 <= i < |ps| && ps[i].dest >= hi ==> ps[i].dest !in a
    ensures LaterEntries(a, ps, hi, d, maximumSave, WithLater(a, ps, hi, d, maximumSave))
  {
    assert LaterFresh(a, ps, hi);
    EntriesOfFresh(a, ps, hi, d, maximumSave);
  }

  ghost predicate LaterFresh(a: PendingMap, ps: seq<Piece>, hi: nat) {
    && (forall i, j :: 0 <= i < j < |ps| ==> ps[i].dest != ps[j].dest)
    && (forall i :: 0 <= i < |ps| && ps[i].dest >= hi ==> ps[i].dest !in a)
  }

  lemma LaterFreshPrefix(a: PendingMap, ps: seq<Piece>, hi: nat)
    requires LaterFresh(a, ps, hi) && ps != []
    ensures LaterFresh(a, ps[..|ps| - 1], hi)
  {
    var qs := ps[..|ps| - 1];
    forall i, j | 0 <= i < j < |qs| ensures qs[i].dest != qs[j].dest { assert qs[i] == ps[i] && qs[j] == ps[j]; }
    forall i | 0 <= i < |qs| && qs[i].dest >= hi ensures qs[i].dest !in a { assert qs[i] == ps[i]; }
  }

  lemma {:induction false} EntriesOfFresh(a: PendingMap, ps: seq<Piece>, hi: nat, d: seq<byte>, maximumSave: u32)
    requires LaterFresh(a, ps, hi)
    ensures LaterEntries(a, ps, hi, d, maximumSave, WithLater(a, ps, hi, d, maximumSave))
  {
    if ps == [] {
      assert WithLater(a, ps, hi, d, maximumSave) == a;
    } else {
      hide WithLater, LaterFresh, LaterEntries;
      var n := |ps| - 1;
      LaterFreshPrefix(a, ps, hi);
      EntriesOfFresh(a, ps[..n], hi, d, maximumSave);
      LaterStep(a, ps, hi, d, maximumSave);
      var b := WithLater(a, ps[..n], hi, d, maximumSave);
      if ps[n].dest >= hi { LaterEntryAdded(a, ps, hi, d, maximumSave, b); } else { LaterEntrySkipped(a, ps, hi, d, maximumSave, b); }
    }
  }

  /** Old entries stay, and the new ones are those of the list due from `hi` on, with their bytes as far as saved. */
  ghost predicate LaterEntries(a: PendingMap, ps: seq<Piece>, hi: nat, d: seq<byte>, maximumSave: u32, b: PendingMap) {
    && (forall x :: x in a ==> x in b && b[x] == a[x])
    && (forall i :: 0 <= i < |ps| && ps[i].dest >= hi ==> ps[i].dest in b && b[ps[i].dest].piece == ps[i])
    && (forall x :: x in b && x !in a ==> b[x].piece in ps && x >= hi && b[x].piece.dest == x)
    && (forall x :: x in b && x !in a ==> b[x].saved == SavedOf(b[x].piece, d, maximumSave))
  }

  lemma LaterEntryAdded(a: PendingMap, ps: seq<Piece>, hi: nat, d: seq<byte>, maximumSave: u32, b: PendingMap)
    requires ps != [] && ps[|ps| - 1].dest >= hi && LaterFresh(a, ps, hi)
    requires LaterEntries(a, ps[..|ps| - 1], hi, d, maximumSave, b)
    ensures var p := ps[|ps| - 1]; LaterEntries(a, ps, hi, d, maximumSave, b[p.dest := Pending(p, SavedOf(p, d, maximumSave))])
  {
    hide SavedOf;
    var n := |ps| - 1;
    var qs, p := ps[..n], ps[n];
    var c := b[p.dest := Pending(p, SavedOf(p, d, maximumSave))];
    assert p in ps;
    forall i | 0 <= i < |ps| && ps[i].dest >= hi ensures ps[i].dest in c && c[ps[i].dest].piece == ps[i] {
      if i < n { assert qs[i] == ps[i] && ps[i].dest != p.dest; }
    }
    forall x | x in c && x !in a ensures c[x].piece in ps {
      if x != p.dest { assert b[x].piece in qs; }
    }
  }

  lemma LaterEntrySkipped(a: PendingMap, ps: seq<Piece>, hi: nat, d: seq<byte>, maximumSave: u32, b: PendingMap)
    requires ps != [] && ps[|ps| - 1].dest < hi && LaterEntries(a, ps[..|ps| - 1], hi, d, maximumSave, b)
    ensures LaterEntries(a, ps, hi, d, maximumSave, b)
  {
    hide SavedOf;
    var n := |ps| - 1;
    var qs := ps[..n];
    forall i | 0 <= i < |ps| && ps[i].dest >= hi ensures ps[i].dest in b && b[ps[i].dest].piece == ps[i] {
      assert qs[i] == ps[i];
    }
    forall x | x in b && x !in a ensures b[x].piece in ps { assert b[x].piece in qs; }
  }

  /** After the insertions the due matches are exactly those of the specification. */
  lemma DueAfterInsert(a: PendingMap, ps: seq<Piece>, d: seq<byte>, hi: nat, maximumSave: u32)
    requires PendingOk(a, d, maximumSave) && ListFresh(a, ps) && ListOk(ps, |d|, hi)
    ensures PendingDue(WithDue(a, ps, hi), d, hi, maximumSave)
    ensures DueIn(WithDue(a, ps, hi), hi) == Due(a, ps, hi)
    ensures LaterIn(WithDue(a, ps, hi), hi) == LaterIn(a, hi)
  {
    var b := WithDue(a, ps, hi);
    WithDueEntries(a, ps, hi);
    SourcesFrom(ps, |d|, hi);
    forall p | p in Due(a, ps, hi) ensures p in DueIn(b, hi) {
      if p in ps && p.dest < hi {
        var i :| 0 <= i < |ps| && ps[i] == p;
        assert p.dest in b && b[p.dest].piece == p;
      } else {
        var x :| x in a && x < hi && a[x].piece == p;
        assert x in b && b[x].piece == p;
      }
    }
    forall p | p in DueIn(b, hi) ensures p in Due(a, ps, hi) {
      var x :| x in b && x < hi && b[x].piece == p;
      if x in a { assert b[x] == a[x]; }
    }
    LaterSame(a, b, hi);
  }

  lemma LaterSame(a: PendingMap, b: PendingMap, hi: nat)
    requires forall x :: x in a ==> x in b && b[x] == a[x]
    requires forall x :: x in b && x !in a ==> x < hi
    ensures LaterIn(b, hi) == LaterIn(a, hi)
  {
    forall p | p in LaterIn(a, hi) ensures p in LaterIn(b, hi) {
      var x :| x in a && x >= hi && a[x].piece == p;
      assert x in b && b[x].piece == p;
    }
    forall p | p in LaterIn(b, hi) ensures p in LaterIn(a, hi) {
      var x :| x in b && x >= hi && b[x].piece == p;
      assert x in a && a[x].piece == p;
    }
  }

  lemma {:induction false} SourceAt(ps: seq<Piece>, pos: nat, hi: nat, i: nat)
    requires ListOk(ps, pos, hi) && i < |ps|
    ensures pos <= ps[i].src && ps[i].src + ps[i].len <= hi && ps[i].src < ps[i].dest
  {
    assert RecordOk(ps[i], Previous(ps, pos, i), hi);
    if i > 0 { SourceAt(ps, pos, hi, i - 1); }
  }

  /** In an acceptable list all sources lie in the block. */
  lemma SourcesFrom(ps: seq<Piece>, pos: nat, hi: nat)
    requires ListOk(ps, pos, hi)
    ensures forall p :: p in ps ==> pos <= p.src && p.src + p.len <= hi && p.src < p.dest
  {
    forall p | p in ps ensures pos <= p.src && p.src + p.len <= hi && p.src < p.dest {
      var i :| 0 <= i < |ps| && ps[i] == p;
      SourceAt(ps, pos, hi, i);
    }
  }

  /** After the block, exactly the later matches are pending, with their bytes read from the output. */
  lemma PendingAfterBlock(a: PendingMap, b: PendingMap, ps: seq<Piece>, d: seq<byte>, e: seq<byte>, maximumSave: u32)
    requires PendingDue(b, d, |e|, maximumSave) && d <= e
    requires forall x :: x in b ==> x >= |e|
    requires ListFresh(a, ps) && ListOk(ps, |d|, |e|)
    requires forall i :: 0 <= i < |ps| && ps[i].dest >= |e| ==> ps[i].dest !in b
    requires LaterIn(b, |e|) == LaterIn(a, |e|)
    ensures PendingOk(WithLater(b, ps, |e|, e, maximumSave), e, maximumSave)
    ensures PieceSet(WithLater(b, ps, |e|, e, maximumSave)) == Later(a, ps, |e|)
  {
    hide WithLater, Stored, SavedOf, Later, LaterIn, ListOk, Fetchable, PieceSet;
    var c := WithLater(b, ps, |e|, e, maximumSave);
    WithLaterEntries(b, ps, |e|, e, maximumSave);
    SourcesFrom(ps, |d|, |e|);
    LaterPieces(a, b, c, ps, |e|);
    forall x | x in c ensures KeyOk(c[x], x) && Stored(c[x], e, maximumSave) {
      if x in b {
        StoredLonger(b[x], d, e, maximumSave);
      } else {
        SavedIsStored(c[x], e, maximumSave);
        var i :| 0 <= i < |ps| && ps[i] == c[x].piece;
      }
    }
  }

  lemma StoredLonger(q: Pending, d: seq<byte>, e: seq<byte>, maximumSave: u32)
    requires Stored(q, d, maximumSave) && d <= e
    ensures Stored(q, e, maximumSave)
  {
    var p := q.piece;
    assert e[p.src..p.src + p.len] == d[p.src..p.src + p.len];
  }

  lemma SavedIsStored(q: Pending, e: seq<byte>, maximumSave: u32)
    requires q.saved == SavedOf(q.piece, e, maximumSave) && q.piece.src + q.piece.len <= |e|
    ensures Stored(q, e, maximumSave)
  {
  }

  lemma LaterPieces(a: PendingMap, b: PendingMap, c: PendingMap, ps: seq<Piece>, hi: nat)
    requires forall x :: x in b ==> x >= hi && x in c && c[x] == b[x]
    requires forall i :: 0 <= i < |ps| && ps[i].dest >= hi ==> ps[i].dest in c && c[ps[i].dest].piece == ps[i]
    requires forall x :: x in c && x !in b ==> c[x].piece in ps && x >= hi && c[x].piece.dest == x
    requires LaterIn(b, hi) == LaterIn(a, hi)
    ensures PieceSet(c) == Later(a, ps, hi)
  {
    forall p | p in PieceSet(c) ensures p in Later(a, ps, hi) {
      var x :| x in c && c[x].piece == p;
      if x in b { assert p in LaterIn(b, hi); }
    }
    forall p | p in Later(a, ps, hi) ensures p in PieceSet(c) {
      if p in LaterIn(b, hi) {
        var x :| x in b && x >= hi && b[x].piece == p;
        assert c[x].piece == p;
      } else {
        var i :| 0 <= i < |ps| && ps[i] == p;
        assert c[p.dest].piece == p;
      }
    }
  }

  // ---- copying the due matches in order ----

  /** The copying phase: `d` is the output so far, `done` the matches copied, `a` what is
      still pending, `due` all matches due in the block, and `last` the match copied last. */
  datatype Copying = Copying(d: seq<byte>, done: set<Piece>, a: PendingMap, last: Option<Piece>)

  ghost predicate CopyingOk(c: Copying, lo: nat, hi: nat, due: set<Piece>, backend: seq<byte>, literals: seq<byte>, inPos: nat, maximumSave: u32) {
    && lo <= |c.d| <= hi && inPos <= |literals|
    && Decodes(c.d, lo, c.done, literals[..inPos])
    && (forall p, q :: p in c.done && q in c.done && p != q ==> Apart(p, q))
    && c.done + DueIn(c.a, hi) == due
    && PendingDue(c.a, backend, hi, maximumSave)
    && match c.last
       case None => |c.d| == lo
       case Some(p) => p in c.done && p.dest + p.len == |c.d| && forall x :: x in c.a ==> p.dest < x
  }

  /** `x` is the nearest pending destination. */
  ghost predicate NextDue(a: PendingMap, x: nat) {
    x in a && forall y :: y in a ==> x <= y
  }

  /** A due match not yet copied lies ahead. */
  lemma DueAhead(c: Copying, lo: nat, hi: nat, due: set<Piece>, backend: seq<byte>, literals: seq<byte>, inPos: nat, maximumSave: u32, y: nat, p: Piece)
    requires CopyingOk(c, lo, hi, due, backend, literals, inPos, maximumSave)
    requires (forall x :: x in c.a && x < hi ==> y <= x) && p in due && p !in c.done
    ensures y <= p.dest
  {
    var x :| x in c.a && x < hi && c.a[x].piece == p;
    assert KeyOk(c.a[x], x);
  }

  /** Up to the nearest pending destination, the gaps are the literals consumed and the bytes not yet written. */
  lemma GapsSoFar(c: Copying, lo: nat, hi: nat, due: set<Piece>, backend: seq<byte>, literals: seq<byte>, inPos: nat, maximumSave: u32, y: nat)
    requires CopyingOk(c, lo, hi, due, backend, literals, inPos, maximumSave)
    requires |c.d| <= y && forall x :: x in c.a && x < hi ==> y <= x
    ensures Gaps(lo, y, due) == inPos + (y - |c.d|)
  {
    assert |literals[..inPos]| == inPos;
    LitsCount(c.d, lo, c.done);
    forall x | |c.d| <= x < y ensures !Covered(c.done, x) {
      forall p | p in c.done ensures !p.Contains(x) { assert TrueCopy(c.d, p); }
    }
    GapsOpen(lo, |c.d|, y, c.done);
    forall z | lo <= z < y ensures Covered(c.done, z) <==> Covered(due, z) {
      if Covered(due, z) {
        var p :| p in due && p.Contains(z);
        if p !in c.done { DueAhead(c, lo, hi, due, backend, literals, inPos, maximumSave, y, p); }
      }
    }
    GapsSameCover(lo, y, c.done, due);
  }

  /** The three ways the next match is rejected, each a violation of the layout. */
  lemma RejectedMatch(c: Copying, lo: nat, hi: nat, due: set<Piece>, backend: seq<byte>, literals: seq<byte>, inPos: nat, maximumSave: u32, x: nat)
    requires CopyingOk(c, lo, hi, due, backend, literals, inPos, maximumSave) && NextDue(c.a, x) && x < hi
    requires x < |c.d| || x - |c.d| > |literals| - inPos || x - |c.d| + c.a[x].piece.len > hi - |c.d|
    ensures !Layout(due, lo, hi, |literals|)
  {
    var p := c.a[x].piece;
    assert KeyOk(c.a[x], x);
    assert p in DueIn(c.a, hi);
    if x < |c.d| {
      if c.last.Some? { assert !Apart(p, c.last.value); }
    } else if x - |c.d| > |literals| - inPos {
      GapsSoFar(c, lo, hi, due, backend, literals, inPos, maximumSave, x);
      GapsMonotone(lo, x, hi, due);
    }
  }

  /** At the end of the block the literals left must be exactly the bytes left. */
  lemma FinalGaps(c: Copying, lo: nat, hi: nat, due: set<Piece>, backend: seq<byte>, literals: seq<byte>, inPos: nat, maximumSave: u32)
    requires CopyingOk(c, lo, hi, due, backend, literals, inPos, maximumSave) && forall x :: x in c.a ==> x >= hi
    ensures c.done == due
    ensures Layout(due, lo, hi, |literals|) <==> |literals| - inPos == hi - |c.d|
  {
    GapsSoFar(c, lo, hi, due, backend, literals, inPos, maximumSave, hi);
    assert DueIn(c.a, hi) == {};
    forall p | p in due ensures lo <= p.dest && p.dest + p.len <= hi { assert TrueCopy(c.d, p); }
  }

  /** Copying the literals before the next match and then the match. */
  ghost function Copied(c: Copying, lits: seq<byte>, x: nat, bytes: seq<byte>): Copying
    requires x in c.a
  {
    Copying(c.d + lits + bytes, c.done + {c.a[x].piece}, c.a - {x}, Some(c.a[x].piece))
  }

  lemma CopiedOk(c: Copying, lo: nat, hi: nat, due: set<Piece>, backend: seq<byte>, literals: seq<byte>, inPos: nat, maximumSave: u32,
      x: nat, lits: seq<byte>, bytes: seq<byte>)
    requires CopyingOk(c, lo, hi, due, backend, literals, inPos, maximumSave) && NextDue(c.a, x)
    requires |c.d| <= x < hi && x + c.a[x].piece.len <= hi && inPos + |lits| <= |literals|
    requires |lits| == x - |c.d| && lits == literals[inPos..inPos + |lits|]
    requires |bytes| == c.a[x].piece.len && TrueCopy(c.d + lits + bytes, c.a[x].piece)
    ensures CopyingOk(Copied(c, lits, x, bytes), lo, hi, due, backend, literals, inPos + |lits|, maximumSave)
  {
    var p, r := c.a[x].piece, Copied(c, lits, x, bytes);
    assert KeyOk(c.a[x], x);
    AppendLits(c.d, lo, c.done, literals[..inPos], lits);
    assert literals[..inPos] + lits == literals[..inPos + |lits|];
    AppendPiece(c.d + lits, lo, c.done, literals[..inPos + |lits|], p, bytes);
    CopiedDue(c.a, x, hi);
    CopiedApart(c, lo, p);
    assert c.done + {p} + DueIn(c.a - {x}, hi) == due;
  }

  lemma CopiedDue(a: PendingMap, x: nat, hi: nat)
    requires x in a && x < hi
    ensures DueIn(a, hi) == DueIn(a - {x}, hi) + {a[x].piece}
  {
    forall p | p in DueIn(a, hi) ensures p in DueIn(a - {x}, hi) + {a[x].piece} {
      var y :| y in a && y < hi && a[y].piece == p;
      if y != x { assert y in a - {x}; }
    }
  }

  lemma CopiedApart(c: Copying, lo: nat, p: Piece)
    requires forall q :: q in c.done ==> TrueCopy(c.d, q)
    requires forall p, q :: p in c.done && q in c.done && p != q ==> Apart(p, q)
    requires |c.d| <= p.dest
    ensures forall q, r :: q in c.done + {p} && r in c.done + {p} && q != r ==> Apart(q, r)
  {
    forall q | q in c.done ensures Apart(p, q) && Apart(q, p) { assert TrueCopy(c.d, q); }
  }

  /** The tail of literals completes the block. */
  lemma CopiedTail(c: Copying, lo: nat, hi: nat, due: set<Piece>, backend: seq<byte>, literals: seq<byte>, inPos: nat, maximumSave: u32)
    requires CopyingOk(c, lo, hi, due, backend, literals, inPos, maximumSave) && forall x :: x in c.a ==> x >= hi
    requires |literals| - inPos == hi - |c.d|
    ensures Decodes(c.d + literals[inPos..], lo, due, literals)
  {
    FinalGaps(c, lo, hi, due, backend, literals, inPos, maximumSave);
    AppendLits(c.d, lo, due, literals[..inPos], literals[inPos..]);
    assert literals[..inPos] + literals[inPos..] == literals;
  }
}
