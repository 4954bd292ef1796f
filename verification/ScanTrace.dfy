/** The scan of a block as a run: every lookup, every earlier match and every chunk entered,
    with the list and the table after each. */
module ScanTrace {
  import opened Bytes
  import opened Records
  import opened WideArithmetic
  import opened RollingHash
  import opened ChunkTable
  import opened ScanModel
  import opened EarlierMatches

  /** One thing the scan does: look a position up, where probing ends at slot `e` of the chain and
      the match has length `len`; begin a round, with the earlier match then waited for; enter the
      chunk at a position. */
  datatype Event = Lookup(pos: nat, e: nat, len: nat) | Round(w: Waiting) | Enter(pos: nat, e: nat)

  /** The list, the table, the number of earlier matches passed and of chunks entered, the position
      reached, and the positions `next..last` still to be looked up. */
  datatype ScanState = ScanState(p: Progress, t: Table, n: nat, c: nat, at: nat, next: nat, last: nat) {
    /** Nothing is left to be looked up. */
    predicate Idle() { last < next }
  }

  /** Before the first lookup of a block. */
  function Unscanned(p: Progress, t: Table): ScanState {
    ScanState(p, t, 0, 0, 0, 0, 0)
  }

  /** How far a round skips what the last match covers: by a jump to a multiple of four when the
      end is far, in steps of four when it is near. */
  function SkipTo(i: nat, nextChunk: nat, end: nat, l: nat): (lo: nat)
    requires i < nextChunk && l >= 8
    ensures i <= lo < nextChunk
  {
    var nextI := Min(nextChunk - 1, Max(end - 1, 0));
    if nextI >= i + l / 2 then nextI / 4 * 4
    else if nextI >= i then i + (nextI - i) / 4 * 4
    else i
  }

  datatype Entry = Entry(ev: Event, after: ScanState)

  /** A lookup at `pos`: whatever chunk the table holds for its window is matched as far as it
      goes, and recorded exactly when that is long enough. */
  ghost predicate LookedUp(s: Scan, digest: DigestFn, t: Table, p: Progress, q: Progress, pos: nat, e: nat, len: nat)
    requires s.Ok()
  {
    && t.Ok() && p.end <= pos && pos + s.l <= s.blockSize
    && var w := WindowAt(s, pos);
       var k := t.Found(HashOf(PRIME1, w), digest(w), e);
       && t.EndsAt(HashOf(PRIME1, w), digest(w), e)
       && if k == NOT_FOUND then q == p else Matched(s, p, q, pos, k, len)
  }

  /** The match of chunk `k` at `pos` is of greatest length, and recorded if that is long enough. */
  ghost predicate Matched(s: Scan, p: Progress, q: Progress, pos: nat, k: nat, len: nat)
    requires s.Ok()
  {
    && Longest(s.d, Product(k, s.l), s.blockStart + pos, s.blockStart + s.blockSize, len)
    && if len < s.minMatch then q == p
       else
         var n, offset := StoredPart(s, len), s.blockStart + pos - Product(k, s.l);
         && 0 < s.baseLen <= n < W32 && 0 <= pos - p.end < W32 && 0 <= offset < W64
         && q.end == pos + n && q.literals == p.literals - n
         && q.stats == p.stats + EncodeLzMatch(s.round, s.baseLen, pos - p.end, offset, n)
  }

  /** Entering the chunk at `pos`: its hash is stored, and its number where probing for it ends;
      chunk 0 is never entered. */
  ghost predicate EnteredAt(s: Scan, digest: DigestFn, t: Table, t': Table, pos: nat, e: nat)
    requires s.Ok()
  {
    && pos + s.l <= s.blockSize
    && var hash, c := HashOf(PRIME1, WindowAt(s, pos)), (s.blockStart + pos) / s.l;
       && 0 <= c < |t.hashes|
       && var u := t.(hashes := t.hashes[c := StoredHash(hash)]);
          if c == NOT_FOUND then t' == u
          else u.Ok() && u.EndsAt(hash, u.digests[c], e) && t' == Entered(u, hash, c, e)
  }

  /** A run over one block: the earlier matches are those of the list `rep`. */
  datatype Run = Run(s: Scan, digest: DigestFn, rep: seq<u32>, start: ScanState) {
    ghost predicate Step(x: ScanState, ev: Event, y: ScanState)
      requires s.Ok()
    {
      match ev
      // The next position of the group; a match ends the group.
      case Lookup(pos, e, len) =>
        && pos == x.next <= x.last && LookedUp(s, digest, x.t, x.p, y.p, pos, e, len)
        && y == x.(p := y.p, next := if y.p.end > pos then x.last + 1 else pos + 1)
      case Round(w) => x.Idle() && x.at < Product(x.c, s.l) && Product(x.c, s.l) + s.l <= s.blockSize && Begun(x, w, y)
      // A chunk is entered once the scan has come to its start.
      case Enter(pos, e) =>
        x.Idle() && pos == x.at == Product(x.c, s.l) && EnteredAt(s, digest, x.t, y.t, pos, e) && y == x.(t := y.t, c := x.c + 1)
    }

    /** A round merges the earlier match it has reached, if any, skips what is covered, and goes on
        by up to 128 positions, no farther than the next chunk; those behind the last match are to be
        looked up. */
    ghost predicate Begun(x: ScanState, w: Waiting, y: ScanState)
      requires s.Ok() && x.at < Product(x.c, s.l)
    {
      && AtMatch(s, rep, x.n, w)
      && (if w.start <= x.at then Merged(s, x.p, w, y.p) && y.n == x.n + 1 else y.p == x.p && y.n == x.n)
      && var lo := SkipTo(x.at, Product(x.c, s.l), y.p.end, s.l);
         var to := Min(Product(x.c, s.l), lo + 128);
         y == x.(p := y.p, n := y.n, at := to, next := Max(lo + 1, y.p.end), last := to)
    }

    /** Every chunk of the block has been entered. */
    ghost predicate Complete(x: ScanState)
      requires s.Ok()
    {
      x.Idle() && x.c == s.blockSize / s.l && x.at + s.l == Product(x.c, s.l)
    }

    ghost function Before(tr: seq<Entry>, i: nat): ScanState
      requires i <= |tr|
    {
      if i == 0 then start else tr[i - 1].after
    }

    /** Every entry follows from the state before it. */
    ghost predicate Ran(tr: seq<Entry>)
      requires s.Ok()
    {
      forall i :: 0 <= i < |tr| ==> Step(Before(tr, i), tr[i].ev, tr[i].after)
    }

    ghost function Now(tr: seq<Entry>): ScanState { Before(tr, |tr|) }

    lemma Next(tr: seq<Entry>, y: Entry)
      requires s.Ok() && Ran(tr) && Step(Now(tr), y.ev, y.after)
      ensures Ran(tr + [y]) && Now(tr + [y]) == y.after
    {
      hide Step;
      var u := tr + [y];
      forall i | 0 <= i < |u| ensures Step(Before(u, i), u[i].ev, u[i].after) {
        assert Before(u, i) == Before(tr, i);
        if i < |tr| { assert Step(Before(tr, i), tr[i].ev, tr[i].after); }
      }
    }
  }

  /** Why position `pos` needs no further lookup: it was looked up, or lies before the end of a match
      recorded, or belongs to the group of positions in which a match had just been found. */
  predicate Accounts(y: Entry, pos: nat) {
    || pos < y.after.p.end
    || (y.ev.Lookup? && (pos == y.ev.pos || (y.ev.pos < y.after.p.end && y.ev.pos < pos < y.ev.pos + 128)))
  }

  ghost predicate Accounted(tr: seq<Entry>, pos: nat) {
    exists y :: y in tr && Accounts(y, pos)
  }

  lemma AccountedLater(tr: seq<Entry>, more: seq<Entry>, lo: nat, hi: nat)
    requires tr <= more && forall pos :: lo <= pos < hi ==> Accounted(tr, pos)
    ensures forall pos :: lo <= pos < hi ==> Accounted(more, pos)
  {
    forall pos | lo <= pos < hi ensures Accounted(more, pos) {
      assert Accounted(tr, pos);
      var y :| y in tr && Accounts(y, pos);
      assert y in more;
    }
  }
}
