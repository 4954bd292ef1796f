/** What every run over a block has in common: it is determined by where it starts, it enters each
    chunk once and before any position behind it is looked up, and it merges earlier matches as it
    reaches them. */
module ScanLaws {
  import opened Bytes
  import opened WideArithmetic
  import opened Compress
  import opened Recording
  import opened RollingHash
  import opened ChunkTable
  import opened ScanModel
  import opened EarlierMatches
  import opened ScanTrace

  // ---- one outcome ----

  /** Probing ends at one slot only. */
  lemma EndsOnce(t: Table, hash: u64, dg: seq<byte>, e: nat, e': nat)
    requires t.Ok() && t.EndsAt(hash, dg, e) && t.EndsAt(hash, dg, e')
    ensures e == e'
  {
    hide ChainAt, Table.At, Table.Hit;
  }

  lemma LongestOnce(d: seq<byte>, src: int, dest: nat, limit: nat, len: nat, len': nat)
    requires Longest(d, src, dest, limit, len) && Longest(d, src, dest, limit, len')
    ensures len == len'
  {
    NotShorter(d, src, dest, limit, len, len');
    NotShorter(d, src, dest, limit, len', len);
  }

  lemma NotShorter(d: seq<byte>, src: int, dest: nat, limit: nat, len: nat, n: nat)
    requires Longest(d, src, dest, limit, len) && dest + n <= limit && Same(d, src, dest, n)
    ensures n <= len
  {
    assert dest + len < limit ==> d[dest + len] != d[src + len];
  }

  lemma MatchedOnce(s: Scan, p: Progress, q: Progress, q': Progress, pos: nat, k: nat, len: nat, len': nat)
    requires s.Ok() && Matched(s, p, q, pos, k, len) && Matched(s, p, q', pos, k, len')
    ensures q == q'
  {
    hide Scan.Ok, Longest, Product, StoredPart;
    Bounds(s);
    LongestOnce(s.d, Product(k, s.l), s.blockStart + pos, s.blockStart + s.blockSize, len, len');
  }

  lemma LookedUpOnce(s: Scan, digest: DigestFn, t: Table, p: Progress, q: Progress, q': Progress, pos: nat, e: nat, len: nat, e': nat, len': nat)
    requires s.Ok() && LookedUp(s, digest, t, p, q, pos, e, len) && LookedUp(s, digest, t, p, q', pos, e', len')
    ensures q == q'
  {
    Bounds(s);
    hide Scan.Ok, HashOf, Table.EndsAt, Table.Found, Matched;
    var w := WindowAt(s, pos);
    EndsOnce(t, HashOf(PRIME1, w), digest(w), e, e');
    var k := t.Found(HashOf(PRIME1, w), digest(w), e);
    if k != NOT_FOUND { MatchedOnce(s, p, q, q', pos, k, len, len'); }
  }

  lemma EnteredOnce(s: Scan, digest: DigestFn, t: Table, t1: Table, t2: Table, pos: nat, e: nat, e': nat)
    requires s.Ok() && EnteredAt(s, digest, t, t1, pos, e) && EnteredAt(s, digest, t, t2, pos, e')
    ensures t1 == t2
  {
    Bounds(s);
    hide Scan.Ok, HashOf, Table.EndsAt, Entered;
    var hash, c := HashOf(PRIME1, WindowAt(s, pos)), (s.blockStart + pos) / s.l;
    var u := t.(hashes := t.hashes[c := StoredHash(hash)]);
    if c != NOT_FOUND { EndsOnce(u, hash, u.digests[c], e, e'); }
  }

  lemma MergedOnce(s: Scan, rep: seq<u32>, n: nat, w: Waiting, w': Waiting, at: nat, p: Progress, q: Progress, q': Progress)
    requires s.Ok() && AtMatch(s, rep, n, w) && AtMatch(s, rep, n, w') && at <= s.blockSize
    requires if w.start <= at then Merged(s, p, w, q) else q == p
    requires if w'.start <= at then Merged(s, p, w', q') else q' == p
    ensures q == q' && (w.start <= at <==> w'.start <= at)
  {
    hide Scan.Ok, Pass1List, WholeRecords, Reading1;
  }

  /** A state has at most one next one. */
  lemma StepOnce(r: Run, x: ScanState, ev: Event, y: ScanState, ev': Event, y': ScanState)
    requires r.s.Ok() && r.Step(x, ev, y) && r.Step(x, ev', y')
    ensures y == y'
  {
    hide Scan.Ok, LookedUp, EnteredAt, AtMatch, Merged, SkipTo, Product;
    Bounds(r.s);
    match ev
    case Lookup(pos, e, len) => LookedUpOnce(r.s, r.digest, x.t, x.p, y.p, y'.p, pos, e, len, ev'.e, ev'.len);
    case Round(w) => MergedOnce(r.s, r.rep, x.n, w, ev'.w, x.at, x.p, y.p, y'.p);
    case Enter(pos, e) => EnteredOnce(r.s, r.digest, x.t, y.t, y'.t, pos, e, ev'.e);
  }

  /** Once every chunk is entered, nothing more happens. */
  lemma CompleteEnds(r: Run, x: ScanState, ev: Event, y: ScanState)
    requires r.s.Ok() && r.Complete(x)
    ensures !r.Step(x, ev, y)
  {
    hide LookedUp, EnteredAt, Run.Begun, Scan.Ok;
    Bounds(r.s);
    DivMod(r.s.blockSize, r.s.l);
  }

  lemma {:induction false} SameStates(r: Run, tr: seq<Entry>, tr': seq<Entry>, k: nat)
    requires r.s.Ok() && r.Ran(tr) && r.Ran(tr') && k <= |tr| && k <= |tr'|
    ensures r.Before(tr, k) == r.Before(tr', k)
  {
    hide Run.Step, Scan.Ok;
    if k > 0 {
      SameStates(r, tr, tr', k - 1);
      assert r.Step(r.Before(tr, k - 1), tr[k - 1].ev, tr[k - 1].after);
      assert r.Step(r.Before(tr', k - 1), tr'[k - 1].ev, tr'[k - 1].after);
      StepOnce(r, r.Before(tr, k - 1), tr[k - 1].ev, tr[k - 1].after, tr'[k - 1].ev, tr'[k - 1].after);
    }
  }

  lemma NotLonger(r: Run, tr: seq<Entry>, tr': seq<Entry>)
    requires r.s.Ok() && r.Ran(tr) && r.Ran(tr') && r.Complete(r.Now(tr))
    ensures |tr'| <= |tr|
  {
    hide Run.Step, Run.Complete, Scan.Ok;
    var k := |tr|;
    if k < |tr'| {
      SameStates(r, tr, tr', k);
      assert r.Step(r.Before(tr', k), tr'[k].ev, tr'[k].after);
      CompleteEnds(r, r.Now(tr), tr'[k].ev, tr'[k].after);
    }
  }

  /** All complete runs over a block from one table end with the same list, count and table. */
  lemma OneOutcome(r: Run, tr: seq<Entry>, tr': seq<Entry>)
    requires r.s.Ok() && r.Ran(tr) && r.Ran(tr') && r.Complete(r.Now(tr)) && r.Complete(r.Now(tr'))
    ensures |tr| == |tr'| && r.Now(tr) == r.Now(tr')
  {
    hide Run.Ran, Run.Complete, Scan.Ok;
    NotLonger(r, tr, tr');
    NotLonger(r, tr', tr);
    SameStates(r, tr, tr', |tr|);
  }

  // ---- chunks ----

  /** The positions entered, in order. */
  ghost function Enters(tr: seq<Entry>): seq<nat> {
    if tr == [] then []
    else Enters(tr[..|tr| - 1]) + match tr[|tr| - 1].ev case Enter(pos, _) => [pos] case _ => []
  }

  lemma RanPrefix(r: Run, tr: seq<Entry>, i: nat)
    requires r.s.Ok() && r.Ran(tr) && i <= |tr|
    ensures r.Ran(tr[..i]) && r.Now(tr[..i]) == r.Before(tr, i)
  {
    hide Run.Step, Scan.Ok;
    var u := tr[..i];
    forall k | 0 <= k < |u| ensures r.Step(r.Before(u, k), u[k].ev, u[k].after) {
      assert r.Step(r.Before(tr, k), tr[k].ev, tr[k].after);
      assert r.Before(u, k) == r.Before(tr, k);
    }
  }

  /** The chunks of the block so far, each once and in order; nothing behind the next one is to be looked up. */
  ghost predicate ChunksSoFar(r: Run, tr: seq<Entry>, x: ScanState) {
    && |Enters(tr)| == x.c && (forall j :: 0 <= j < x.c ==> Enters(tr)[j] == Product(j, r.s.l))
    && x.last <= Product(x.c, r.s.l)
  }

  lemma ChunksStart(r: Run)
    requires r.start.c == 0 && r.start.last == 0
    ensures ChunksSoFar(r, [], r.start)
  {
  }

  lemma ChunksNext(r: Run, tr: seq<Entry>, x: ScanState, y: Entry)
    requires r.s.Ok() && ChunksSoFar(r, tr, x) && r.Step(x, y.ev, y.after)
    ensures ChunksSoFar(r, tr + [y], y.after)
  {
    hide Scan.Ok, LookedUp, EnteredAt, AtMatch, Merged, SkipTo, Product;
    Bounds(r.s);
    NextProduct(x.c, r.s.l);
    assert (tr + [y])[..|tr|] == tr;
  }

  lemma {:induction false} ChunksEntered(r: Run, tr: seq<Entry>)
    requires r.s.Ok() && r.Ran(tr) && r.start.c == 0 && r.start.last == 0
    ensures ChunksSoFar(r, tr, r.Now(tr))
    decreases |tr|
  {
    hide Scan.Ok, Run.Step, ChunksSoFar;
    if tr == [] {
      ChunksStart(r);
    } else {
      var n := |tr| - 1;
      RanPrefix(r, tr, n);
      ChunksEntered(r, tr[..n]);
      assert r.Step(r.Before(tr, n), tr[n].ev, tr[n].after);
      ChunksNext(r, tr[..n], r.Before(tr, n), tr[n]);
      assert tr == tr[..n] + [tr[n]];
    }
  }

  /** A complete run enters every chunk of the block exactly once, in order. */
  lemma EveryChunkEntered(r: Run, tr: seq<Entry>)
    requires r.s.Ok() && r.Ran(tr) && r.start.c == 0 && r.start.last == 0 && r.Complete(r.Now(tr))
    ensures |Enters(tr)| == r.s.blockSize / r.s.l && forall j :: 0 <= j < r.s.blockSize / r.s.l ==> Enters(tr)[j] == Product(j, r.s.l)
  {
    hide Scan.Ok, Run.Ran, Product;
    Bounds(r.s);
    ChunksEntered(r, tr);
  }

  /** A chunk is entered before any position behind its start is looked up. */
  lemma EnteredFirst(r: Run, tr: seq<Entry>, i: nat, j: nat)
    requires r.s.Ok() && r.Ran(tr) && r.start.c == 0 && r.start.last == 0
    requires i < |tr| && tr[i].ev.Lookup? && Product(j, r.s.l) < tr[i].ev.pos
    ensures j < |Enters(tr[..i])| && Enters(tr[..i])[j] == Product(j, r.s.l)
  {
    hide Scan.Ok, LookedUp, Product;
    Bounds(r.s);
    assert r.Step(r.Before(tr, i), tr[i].ev, tr[i].after);
    RanPrefix(r, tr, i);
    hide Run.Ran;
    ChunksEntered(r, tr[..i]);
    var x := r.Before(tr, i);
    if x.c <= j { Monotone(x.c, j, r.s.l); ProductIs(x.c, j, r.s.l); }
  }

  lemma ProductIs(a: nat, b: nat, l: nat)
    requires a * l <= b * l
    ensures Product(a, l) <= Product(b, l)
  {
  }

  // ---- earlier matches ----

  /** How many rounds began at `a` or behind it. */
  ghost function RoundsFrom(r: Run, tr: seq<Entry>, a: int): nat {
    if tr == [] then 0
    else
      var n := |tr| - 1;
      RoundsFrom(r, tr[..n], a) + if tr[n].ev.Round? && r.Before(tr, n).at >= a then 1 else 0
  }

  /** Where earlier match `m` starts in the block. */
  ghost function StartOf(r: Run, m: nat): int
    requires r.s.Ok() && m < |Pass1List(r.rep, r.s.round, r.s.baseLen, r.s.blockStart)|
  {
    Pass1List(r.rep, r.s.round, r.s.baseLen, r.s.blockStart)[m].dest - r.s.blockStart
  }

  /** Earlier matches start one behind the other. */
  lemma {:induction false} StartsInOrder(r: Run, k: nat, m: nat)
    requires r.s.Ok() && RepOk(r.s, r.rep) && k <= m < |Pass1List(r.rep, r.s.round, r.s.baseLen, r.s.blockStart)|
    ensures StartOf(r, k) <= StartOf(r, m)
    decreases m
  {
    hide Scan.Ok, Pass1List, LengthsFit, WholeRecords;
    Bounds(r.s);
    if k < m {
      var ps, lo := Pass1List(r.rep, r.s.round, r.s.baseLen, r.s.blockStart), r.s.blockStart;
      GoodAt(r.s.d, lo, lo + r.s.blockSize, ps, m);
      StartsInOrder(r, k, m - 1);
    }
  }

  /** A round that begins at or behind the start of match `m` merges the next earlier match, if `m` is still to come. */
  lemma RoundMerges(r: Run, x: ScanState, y: Entry, m: nat)
    requires r.s.Ok() && RepOk(r.s, r.rep) && r.Step(x, y.ev, y.after) && y.ev.Round?
    requires x.n <= m < |Pass1List(r.rep, r.s.round, r.s.baseLen, r.s.blockStart)| && x.at >= StartOf(r, m)
    ensures y.after.n == x.n + 1 && Merged(r.s, x.p, y.ev.w, y.after.p)
    ensures StartOf(r, x.n) == y.ev.w.start
  {
    hide Scan.Ok, Pass1List, RepOk, WholeRecords, Reading1, Merged, SkipTo, Product;
    Bounds(r.s);
    StartsInOrder(r, x.n, m);
  }

  lemma StepCounts(r: Run, x: ScanState, y: Entry)
    requires r.s.Ok() && r.Step(x, y.ev, y.after)
    ensures x.n <= y.after.n <= x.n + 1 && (y.after.n > x.n ==> y.ev.Round?)
  {
    hide Scan.Ok, LookedUp, EnteredAt, AtMatch, Merged, SkipTo, Product;
  }

  /** Every earlier match the scan reaches is merged, one in each round, in order: with enough rounds
      behind the start of match `m` for it and those before it, it has been passed. */
  lemma {:induction false} ReachedIsMerged(r: Run, tr: seq<Entry>, m: nat)
    requires r.s.Ok() && RepOk(r.s, r.rep) && r.Ran(tr) && m < |Pass1List(r.rep, r.s.round, r.s.baseLen, r.s.blockStart)|
    ensures r.start.n <= r.Now(tr).n && r.Now(tr).n >= Min(m + 1, r.start.n + RoundsFrom(r, tr, StartOf(r, m)))
    decreases |tr|
  {
    hide Scan.Ok, Run.Step, RepOk, Pass1List;
    if tr != [] {
      var n := |tr| - 1;
      var u := tr[..n];
      RanPrefix(r, tr, n);
      ReachedIsMerged(r, u, m);
      var x := r.Before(tr, n);
      assert r.Step(x, tr[n].ev, tr[n].after);
      StepCounts(r, x, tr[n]);
      if tr[n].ev.Round? && x.at >= StartOf(r, m) && x.n <= m { RoundMerges(r, x, tr[n], m); }
    }
  }
}
