/** How often a block can be the source of matches of the dictionary compressor: every chunk
    entered into the table is used at most once, since looking it up replaces it. */
module RepSources {
  import opened Bytes
  import opened MatchModel
  import opened Records
  import opened WideArithmetic
  import opened Compress
  import opened Cutting
  import opened Recording
  import opened RepDictionary
  import opened RepRuns
  import opened Lossless
  import opened BlockLimits

  /** Chunk `b` of block `k`. */
  datatype Chunk = Chunk(k: nat, b: nat)

  predicate Earlier(c: Chunk, k: nat, b: nat) {
    c.k < k || (c.k == k && c.b < b)
  }

  /** Which chunk made each table entry, and which have been used by a match. */
  datatype Ledger = Ledger(made: seq<Option<Chunk>>, used: set<Chunk>)

  /** The geometry of the ring: blocks of `n` bytes, `per` of them to a lap, `steps` chunks looked up in each. */
  datatype Ring = Ring(n: nat, per: nat, steps: nat) {
    predicate Ok() { n > 0 && per > 0 }

    /** Ring position `i` is in the place of block `k`. */
    predicate InPlace(k: nat, i: nat)
      requires Ok()
    {
      Product(k % per, n) <= i < Product(k % per, n) + n
    }
  }

  ghost predicate EntryOk(r: Ring, g: Ledger, table: seq<u64>, h: nat, k: nat, b: nat)
    requires r.Ok() && h < |table| == |g.made|
  {
    match g.made[h]
    case None => table[h] == 0
    case Some(c) => Earlier(c, k, b) && c.b < r.steps && c !in g.used && r.InPlace(c.k, table[h])
  }

  /** Before chunk `b` of block `k`: no chunk stands in the table twice, or after it was used. */
  ghost predicate LedgerOk(r: Ring, g: Ledger, table: seq<u64>, k: nat, b: nat)
    requires r.Ok()
  {
    && |g.made| == |table|
    && (forall h :: 0 <= h < |table| ==> EntryOk(r, g, table, h, k, b))
    && (forall h, h' :: 0 <= h < h' < |table| && g.made[h].Some? ==> g.made[h] != g.made[h'])
    && (forall c :: c in g.used ==> Earlier(c, k, b))
  }

  /** The chunk a match was found through, and the input position it stood for. */
  datatype Anchor = Anchor(c: Chunk, pos: nat)

  /** The position lies in the source of the match, and in a block at the place of the chunk's. */
  ghost predicate AnchorOk(r: Ring, p: Piece, a: Anchor)
    requires r.Ok()
  {
    p.src <= a.pos <= p.src + p.len && 0 <= a.pos / r.n && (a.pos / r.n) % r.per == a.c.k % r.per && a.c.b < r.steps
  }

  /** Every match so far has an anchor, each of a chunk of its own. */
  ghost predicate Anchored(r: Ring, ps: seq<Piece>, anchors: seq<Anchor>, used: set<Chunk>)
    requires r.Ok()
  {
    && |anchors| == |ps|
    && (forall i :: 0 <= i < |ps| ==> AnchorOk(r, ps[i], anchors[i]) && anchors[i].c in used)
    && (forall i, j :: 0 <= i < j < |anchors| ==> anchors[i].c != anchors[j].c)
  }

  // ---- one step ----

  ghost function Replace(g: Ledger, h: nat, c: Chunk, use: bool): Ledger
    requires h < |g.made|
  {
    Ledger(g.made[h := Some(c)], if use && g.made[h].Some? then g.used + {g.made[h].value} else g.used)
  }

  lemma Replaced(r: Ring, g: Ledger, table: seq<u64>, k: nat, b: nat, h: nat, i: u64, use: bool)
    requires r.Ok() && LedgerOk(r, g, table, k, b) && h < |table| && b < r.steps && r.InPlace(k, i)
    ensures LedgerOk(r, Replace(g, h, Chunk(k, b), use), table[h := i], k, b + 1)
  {
    hide Ring.InPlace;
    var g', t, next := Replace(g, h, Chunk(k, b), use), table[h := i], b + 1;
    forall x | 0 <= x < |t| ensures EntryOk(r, g', t, x, k, next) {
      assert EntryOk(r, g, table, x, k, b) && EntryOk(r, g, table, h, k, b);
    }
    forall x, y | 0 <= x < y < |t| && g'.made[x].Some? ensures g'.made[x] != g'.made[y] {
      assert EntryOk(r, g, table, x, k, b) && EntryOk(r, g, table, y, k, b);
    }
    forall c | c in g'.used ensures Earlier(c, k, b + 1) {
      assert EntryOk(r, g, table, h, k, b);
    }
  }

  lemma AnchorAdded(r: Ring, ps: seq<Piece>, anchors: seq<Anchor>, used: set<Chunk>, p: Piece, a: Anchor)
    requires r.Ok() && Anchored(r, ps, anchors, used) && AnchorOk(r, p, a) && a.c !in used
    ensures Anchored(r, ps + [p], anchors + [a], used + {a.c})
  {
    hide AnchorOk;
  }

  lemma LaterBlock(r: Ring, g: Ledger, table: seq<u64>, k: nat, b: nat)
    requires r.Ok() && LedgerOk(r, g, table, k, b)
    ensures LedgerOk(r, g, table, k + 1, 0)
  {
    hide Ring.InPlace;
    var next := k + 1;
    forall h | 0 <= h < |table| ensures EntryOk(r, g, table, h, next, 0) {
      assert EntryOk(r, g, table, h, k, b);
    }
  }

  /** Positions of the ring, lap for lap. */
  lemma BlockAtPlace(r: Ring, q: nat, k: nat, m: nat)
    requires r.Ok() && r.InPlace(k, m)
    ensures 0 <= (Product(q, Product(r.per, r.n)) + m) / r.n
    ensures (Product(q, Product(r.per, r.n)) + m) / r.n % r.per == k % r.per
  {
    var a := k % r.per;
    ModIs(k, r.per, k / r.per, a) by { assert k == k / r.per * r.per + k % r.per; }
    assert q * (r.per * r.n) + a * r.n == (q * r.per + a) * r.n;
    ModIs(Product(q, Product(r.per, r.n)) + m, r.n, q * r.per + a, m - Product(a, r.n));
    ModIs(q * r.per + a, r.per, q, a);
    Monotone(0, q, r.per);
  }

  /** Where the run of block `k` stands on the ring. */
  ghost predicate AtPlace(r: Ring, k: nat, ringLen: nat, b: PendingBlock) {
    r.Ok() && ringLen == Product(r.per, r.n) && b.start == Product(k, r.n) && b.size <= r.n
  }

  lemma PlaceOf(r: Ring, k: nat, ringLen: nat, b: PendingBlock)
    requires AtPlace(r, k, ringLen, b)
    ensures ringLen > 0 && b.start % ringLen == Product(k % r.per, r.n)
    ensures b.start == Product(k / r.per, ringLen) + Product(k % r.per, r.n)
  {
    var q, a := k / r.per, k % r.per;
    assert k == q * r.per + a;
    assert q * (r.per * r.n) + a * r.n == (q * r.per + a) * r.n;
    Monotone(1, r.per, r.n);
    Monotone(a + 1, r.per, r.n);
    assert (a + 1) * r.n == a * r.n + r.n;
    Monotone(0, a, r.n);
    ModIs(b.start, ringLen, q, a * r.n);
  }

  /** The list of block `b` before chunk `j`. */
  ghost function ListAt(s: RepSettings, b: PendingBlock, x: BlockRun, j: nat): seq<Piece>
    requires j < |x.trace|
  {
    Pass1List(x.trace[j].state.stats, false, s.baseLen, b.start)
  }

  /** A record appended to a list in order appends its match, which points backwards. */
  lemma PieceAppended(x: RepState, y: RepState, baseLen: u32, d: seq<byte>, base: nat, bufstart: nat, bufend: nat, lit: u32, dist: u64, len: u32)
    requires base + bufstart < W64 && base + bufend < W64 && base + x.lastEnd + lit < W64
    requires StateRecorded(x, baseLen, d, base, bufstart, bufend) && StateRecorded(y, baseLen, d, base, bufstart, bufend)
    requires baseLen <= len && y.stats == x.stats + EncodeLzMatch(false, baseLen, lit, dist, len)
    ensures var dest := base + x.lastEnd + lit;
            && 0 < dist <= dest
            && Pass1List(y.stats, false, baseLen, base + bufstart) == Pass1List(x.stats, false, baseLen, base + bufstart) + [Piece(dest - dist, dest, len)]
  {
    hide EncodeLzMatch, DecodeLzMatch, Pass1List, GoodList, LengthsFit, TrueCopy, StateRecorded, WholeRecords, StoredLength;
    var lo, hi := base + bufstart, base + bufend;
    StateParts(x, baseLen, d, base, bufstart, bufend);
    StateParts(y, baseLen, d, base, bufstart, bufend);
    AppendedPiece(x.stats, baseLen, d, lo, hi, base + x.lastEnd, lit, dist, len);
    var ps := Pass1List(y.stats, false, baseLen, lo);
    GoodAt(d, lo, hi, ps, |ps| - 1);
    Backwards(d, ps[|ps| - 1]);
    DistanceBack(base + x.lastEnd + lit, dist);
  }

  lemma StateParts(x: RepState, baseLen: u32, d: seq<byte>, base: nat, bufstart: nat, bufend: nat)
    requires base + bufstart < W64 && StateRecorded(x, baseLen, d, base, bufstart, bufend)
    ensures var ps := Pass1List(x.stats, false, baseLen, base + bufstart);
            && WholeRecords(|x.stats|, false) && LengthsFit(x.stats, false, baseLen)
            && GoodList(d, base + bufstart, base + bufend, ps) && base + x.lastEnd == EndBefore(ps, base + bufstart, |ps|)
            && bufstart <= x.lastEnd <= bufend
  {
    hide WholeRecords, LengthsFit, GoodList, Pass1List, EndBefore;
  }

  lemma AppendedPiece(stats: seq<u32>, baseLen: u32, d: seq<byte>, lo: u64, hi: u64, end: u64, lit: u32, dist: u64, len: u32)
    requires WholeRecords(|stats|, false) && LengthsFit(stats, false, baseLen) && lo <= hi && baseLen <= len && end + lit < W64
    requires var ps := Pass1List(stats, false, baseLen, lo); GoodList(d, lo, hi, ps) && end == EndBefore(ps, lo, |ps|)
    ensures Pass1List(stats + EncodeLzMatch(false, baseLen, lit, dist, len), false, baseLen, lo)
         == Pass1List(stats, false, baseLen, lo) + [Piece((end + lit - dist) % W64, end + lit, len)]
  {
    hide DecodeLzMatch, Pass1List, GoodList, LengthsFit, WholeRecords;
    PlainWords(baseLen, lit, dist, len);
    PlainDecode(baseLen, lit, dist, len, end);
    var rec := EncodeLzMatch(false, baseLen, lit, dist, len);
    assert StoredLength(rec, false, baseLen) == len;
    hide EncodeLzMatch, StoredLength;
    Pass1Append(stats, rec, false, baseLen, d, lo, hi);
  }

  lemma DistanceBack(dest: u64, dist: u64)
    requires (dest - dist) % W64 < dest
    ensures 0 < dist <= dest && (dest - dist) % W64 == dest - dist
  {
  }

  lemma PlainDecode(base: u32, litLen: u32, offset: u64, len: u32, pos: u64)
    requires base <= len && pos + litLen < W64
    ensures DecodeLzMatch(EncodeLzMatch(false, base, litLen, offset, len), false, false, base, pos).1
      == LzMatch((pos + litLen - offset) % W64, pos + litLen, len)
  {
    PlainWords(base, litLen, offset, len);
    WordsDecode(base, litLen, offset % W32, offset / W32, len - base, pos);
    hide EncodeLzMatch, DecodeLzMatch;
  }

  lemma WordsDecode(base: u32, litLen: u32, low: u32, high: u32, rest: u32, pos: u64)
    requires rest + base < W32 && pos + litLen < W64
    ensures DecodeLzMatch([litLen, low, high, rest], false, false, base, pos).1
      == LzMatch((pos + litLen - (low + high * W32)) % W64, pos + litLen, rest + base)
  {
    UnitScale(pos + litLen);
    UnitScale(low + high * W32);
    UnitScale(rest);
    ModIs(pos + litLen, W64, 0, pos + litLen);
    ModIs(low + high * W32, W64, 0, low + high * W32);
    ModIs(rest + base, W32, 0, rest + base);
    hide Scale, Align;
  }

  lemma UnitScale(x: nat)
    ensures Scale(x, 1) == x && Align(x, 1) == x
  {
  }

  lemma Backwards(d: seq<byte>, p: Piece)
    requires TrueCopy(d, p)
    ensures p.src < p.dest
  {
  }

  /** A match found through a table entry has the position that entry stands for in its source. */
  lemma MatchAnchored(r: Ring, ringLen: nat, k: nat, base: nat, c: Chunk, m: nat, i: nat, start: nat, end: nat)
    requires r.Ok() && ringLen == Product(r.per, r.n) && base == Product(k / r.per, ringLen) && i < ringLen
    requires c.b < r.steps && r.InPlace(c.k, m) && m < ringLen && start <= i <= end
    requires 0 <= base + start - Distance(m, i, ringLen)
    ensures var dist := Distance(m, i, ringLen);
            0 <= base + i - dist && AnchorOk(r, Piece(base + start - dist, base + start, end - start), Anchor(c, base + i - dist))
  {
    hide Product, Ring.InPlace;
    var q := k / r.per;
    QuotientNat(k, r.per);
    if m < i {
      BlockAtPlace(r, q, c.k, m);
    } else {
      NextProduct(q, ringLen);
      if q == 0 { NextProduct(0, ringLen); }
      NextProduct(q - 1, ringLen);
      BlockAtPlace(r, q - 1, c.k, m);
    }
  }

  lemma RunPlace(d: seq<byte>, s: RepSettings, ringLen: nat, b: PendingBlock, x: BlockRun)
    requires RunOk(d, s, ringLen, b, x)
    ensures x.run.bufstart == b.start % ringLen && x.base + x.run.bufstart == b.start && x.run.bufend == x.run.bufstart + b.size
  {
  }

  /** An entry that is not empty was made by a chunk that no match has used yet. */
  lemma EntryChunk(r: Ring, g: Ledger, table: seq<u64>, h: nat, k: nat, b: nat) returns (c: Chunk)
    requires r.Ok() && LedgerOk(r, g, table, k, b) && h < |table| && table[h] != 0
    ensures |g.made| == |table| && g.made[h] == Some(c)
    ensures c.b < r.steps && c !in g.used && r.InPlace(c.k, table[h])
  {
    hide Ring.InPlace;
    assert EntryOk(r, g, table, h, k, b);
    c := g.made[h].value;
  }

  /** A lookup that changes the list records one match around its position. */
  lemma ProbedRecord(u: RepState, v: RepState, ring: seq<byte>, bufstart: nat, bufend: nat, maxDist: nat, minMatch: nat, baseLen: u32,
      m: nat, i: nat) returns (start: nat, end: nat)
    requires maxDist < |ring| && bufstart < |ring| && u != v
    requires Probed(u, v, ring, bufstart, bufend, maxDist, minMatch, baseLen, m, i)
    ensures m != 0 && u.lastEnd <= start <= i <= end && minMatch <= end - start
    ensures start - u.lastEnd < W32 && 0 <= Distance(m, i, |ring|) < W64 && baseLen <= end - start < W32
    ensures v.stats == u.stats + EncodeLzMatch(false, baseLen, start - u.lastEnd, Distance(m, i, |ring|), end - start)
    ensures v.lastEnd == end && v.literals == u.literals - (end - start)
  {
    hide EncodeLzMatch, DataStart, LowBound, HighBound, Agree, AgreeAt;
    start, end :| ExtendedTo(u, v, ring, bufstart, bufend, maxDist, minMatch, baseLen, m, i, start, end);
  }

  lemma LedgerSize(r: Ring, g: Ledger, table: seq<u64>, k: nat, b: nat)
    requires r.Ok() && LedgerOk(r, g, table, k, b)
    ensures |g.made| == |table|
  {
  }

  lemma Prepended(prior: seq<Piece>, ps: seq<Piece>, p: Piece)
    ensures prior + (ps + [p]) == prior + ps + [p]
  {
  }

  /** The match a step records gets the chunk it was found through as its anchor. */
  lemma RecordAnchored(r: Ring, d: seq<byte>, s: RepSettings, ringLen: nat, k: nat, b: PendingBlock, base: nat, bufstart: nat, bufend: nat,
      u: RepState, v: RepState, c: Chunk, m: nat, i: nat, start: nat, end: nat, used: set<Chunk>, prior: seq<Piece>, anchors: seq<Anchor>)
      returns (more: seq<Anchor>)
    requires r.Ok() && ringLen == Product(r.per, r.n) && base == Product(k / r.per, ringLen) && i < ringLen && m < ringLen
    requires base + bufstart == b.start && base + bufend < W64 && base + i < W64 && start <= i <= end && u.lastEnd <= start
    requires StateRecorded(u, s.baseLen, d, base, bufstart, bufend) && StateRecorded(v, s.baseLen, d, base, bufstart, bufend)
    requires start - u.lastEnd < W32 && 0 <= Distance(m, i, ringLen) < W64 && s.baseLen <= end - start < W32
    requires v.stats == u.stats + EncodeLzMatch(false, s.baseLen, start - u.lastEnd, Distance(m, i, ringLen), end - start)
    requires c.b < r.steps && c !in used && r.InPlace(c.k, m)
    requires Anchored(r, prior + Pass1List(u.stats, false, s.baseLen, b.start), anchors, used)
    ensures Anchored(r, prior + Pass1List(v.stats, false, s.baseLen, b.start), more, used + {c})
  {
    hide Anchored, StateRecorded, Product, Ring.InPlace, EncodeLzMatch, AnchorOk, Pass1List;
    var dist := Distance(m, i, ringLen);
    PieceAppended(u, v, s.baseLen, d, base, bufstart, bufend, start - u.lastEnd, dist, end - start);
    MatchAnchored(r, ringLen, k, base, c, m, i, start, end);
    var p, a := Piece(base + start - dist, base + start, end - start), Anchor(c, base + i - dist);
    var ps := Pass1List(u.stats, false, s.baseLen, b.start);
    AnchorAdded(r, prior + ps, anchors, used, p, a);
    Prepended(prior, ps, p);
    more := anchors + [a];
  }

  /** Chunk `j` of block `k`: the ledger and the anchors go on. */
  lemma StepAnchored(r: Ring, d: seq<byte>, s: RepSettings, ringLen: nat, k: nat, b: PendingBlock, x: BlockRun, j: nat,
      g: Ledger, prior: seq<Piece>, anchors: seq<Anchor>)
      returns (g': Ledger, anchors': seq<Anchor>)
    requires RunOk(d, s, ringLen, b, x) && AtPlace(r, k, ringLen, b) && j < Steps(s, b.size) <= r.steps && j < |x.trace|
    requires LedgerOk(r, g, x.trace[j].table, k, j) && Anchored(r, prior + ListAt(s, b, x, j), anchors, g.used)
    ensures j + 1 < |x.trace| && LedgerOk(r, g', x.trace[j + 1].table, k, j + 1)
    ensures Anchored(r, prior + ListAt(s, b, x, j + 1), anchors', g'.used)
  {
    hide RunOk, LedgerOk, Anchored, StateRecorded, Product, Steps, Probed, Ring.InPlace, EncodeLzMatch, Pass1List;
    var h, i := StepAt(d, s, ringLen, b, x, j);
    PlaceOf(r, k, ringLen, b);
    RunPlace(d, s, ringLen, b, x);
    var u, v, table := x.trace[j].state, x.trace[j + 1].state, x.trace[j].table;
    LedgerSize(r, g, table, k, j);
    BlockInPlace(r, k, ringLen, b, i);
    Replaced(r, g, table, k, j, h, i, u != v);
    g', anchors' := Replace(g, h, Chunk(k, j), u != v), anchors;
    if u != v {
      var start, end := ProbedRecord(u, v, x.run.ring, x.run.bufstart, x.run.bufend, s.maxDist, s.minMatch, s.baseLen, table[h], i);
      var c := EntryChunk(r, g, table, h, k, j);
      EntryInRing(r, ringLen, c, table[h]);
      anchors' := RecordAnchored(r, d, s, ringLen, k, b, x.base, x.run.bufstart, x.run.bufend, u, v, c, table[h], i, start, end, g.used, prior, anchors);
    }
  }

  lemma BlockInPlace(r: Ring, k: nat, ringLen: nat, b: PendingBlock, i: nat)
    requires AtPlace(r, k, ringLen, b) && ringLen > 0 && b.start % ringLen <= i < b.start % ringLen + b.size
    ensures r.InPlace(k, i)
  {
    PlaceOf(r, k, ringLen, b);
    hide Product;
  }

  lemma EntryInRing(r: Ring, ringLen: nat, c: Chunk, m: nat)
    requires r.Ok() && ringLen == Product(r.per, r.n) && r.InPlace(c.k, m)
    ensures m < ringLen
  {
    Monotone(c.k % r.per + 1, r.per, r.n);
    assert (c.k % r.per + 1) * r.n == c.k % r.per * r.n + r.n;
  }

  /** A whole run: the matches of the block join those before it. */
  lemma {:induction false} RunAnchored(r: Ring, d: seq<byte>, s: RepSettings, ringLen: nat, k: nat, b: PendingBlock, x: BlockRun, j: nat,
      g: Ledger, prior: seq<Piece>, anchors: seq<Anchor>)
      returns (g': Ledger, anchors': seq<Anchor>)
    requires RunOk(d, s, ringLen, b, x) && AtPlace(r, k, ringLen, b) && j <= Steps(s, b.size) <= r.steps && x.trace != []
    requires LedgerOk(r, g, x.First(), k, 0) && Anchored(r, prior, anchors, g.used)
    ensures j < |x.trace| && LedgerOk(r, g', x.trace[j].table, k, j)
    ensures Anchored(r, prior + ListAt(s, b, x, j), anchors', g'.used)
  {
    RunEnds(d, s, ringLen, b, x);
    hide RunOk, LedgerOk, Anchored, Steps, AtPlace, ListAt;
    if j == 0 {
      g', anchors' := g, anchors;
      assert prior + [] == prior;
    } else {
      var g1, anchors1 := RunAnchored(r, d, s, ringLen, k, b, x, j - 1, g, prior, anchors);
      g', anchors' := StepAnchored(r, d, s, ringLen, k, b, x, j - 1, g1, prior, anchors1);
    }
  }

  lemma RunEnds(d: seq<byte>, s: RepSettings, ringLen: nat, b: PendingBlock, x: BlockRun)
    requires RunOk(d, s, ringLen, b, x)
    ensures |x.trace| == 1 + Steps(s, b.size) && ListAt(s, b, x, 0) == []
    ensures ListAt(s, b, x, Steps(s, b.size)) == Pass1List(b.stats, false, s.baseLen, b.start)
  {
    hide RepBlockRun.Trace, TraceRecorded, Lookups, RingHolds;
  }

  lemma FewerSteps(s: RepSettings, size: nat, bufsize: nat)
    requires s.l > 0 && size <= bufsize
    ensures Steps(s, size) <= Steps(s, bufsize)
  {
    assert size == size / s.l * s.l + size % s.l && bufsize == bufsize / s.l * s.l + bufsize % s.l;
    if size / s.l > bufsize / s.l { Monotone(bufsize / s.l + 1, size / s.l, s.l); }
  }

  /** The table after the first `k` blocks. */
  ghost function TableAfter(runs: seq<BlockRun>, k: nat): seq<u64>
    requires k <= |runs| && forall i :: 0 <= i < |runs| ==> runs[i].trace != []
  {
    if k < |runs| then runs[k].First() else if k == 0 then [] else runs[k - 1].Last().table
  }

  lemma NothingUsed(r: Ring, table: seq<u64>)
    requires r.Ok() && forall h :: 0 <= h < |table| ==> table[h] == 0
    ensures LedgerOk(r, Ledger(seq(|table|, h => None), {}), table, 0, 0) && Anchored(r, [], [], {})
  {
  }

  /** The first `k` blocks: every match has an anchor, each of a chunk of its own. */
  lemma {:induction false} BlocksAnchored(r: Ring, d: seq<byte>, bufsize: u32, s: RepSettings, ringLen: nat, blocks: seq<PendingBlock>,
      runs: seq<BlockRun>, table: seq<u64>, k: nat) returns (g: Ledger, anchors: seq<Anchor>)
    requires Blocked(d, bufsize, blocks) && RunsOk(d, s, ringLen, blocks, runs) && Chained(runs, s.size, table) && s.Ok()
    requires r == Ring(bufsize, r.per, Steps(s, bufsize)) && r.Ok() && ringLen == Product(r.per, bufsize) && k <= |blocks|
    ensures |runs| == |blocks| && LedgerOk(r, g, TableAfter(runs, k), k, 0)
    ensures Anchored(r, Gathered(blocks, k, false, s.baseLen), anchors, g.used)
  {
    ChainTables(runs, s.size, table);
    hide LedgerOk, Anchored, Blocked, RunOk, Steps, Chained;
    if k == 0 {
      NothingUsed(r, TableAfter(runs, 0));
      g, anchors := Ledger(seq(|TableAfter(runs, 0)|, h => None), {}), [];
    } else {
      var b, x := blocks[k - 1], runs[k - 1];
      var g1, anchors1 := BlocksAnchored(r, d, bufsize, s, ringLen, blocks, runs, table, k - 1);
      BlockStart(d, bufsize, blocks, k - 1);
      FewerSteps(s, b.size, bufsize);
      assert RunOk(d, s, ringLen, b, x);
      RunEnds(d, s, ringLen, b, x);
      var n := Steps(s, b.size);
      g, anchors := RunAnchored(r, d, s, ringLen, k - 1, b, x, n, g1, Gathered(blocks, k - 1, false, s.baseLen), anchors1);
      LaterBlock(r, g, x.trace[n].table, k - 1, n);
    }
  }

  lemma ChainTables(runs: seq<BlockRun>, size: nat, table: seq<u64>)
    requires Chained(runs, size, table)
    ensures forall i :: 0 <= i < |runs| ==> runs[i].trace != []
    ensures forall h :: 0 <= h < |TableAfter(runs, 0)| ==> TableAfter(runs, 0)[h] == 0
    ensures forall k :: 0 < k <= |runs| ==> TableAfter(runs, k) == runs[k - 1].Last().table
  {
  }

  // ---- counting the sources in a block ----

  /** How often the input goes round the ring. */
  function Laps(total: nat, ringLen: nat): int
    requires ringLen > 0
  {
    (total + ringLen - 1) / ringLen
  }

  /** The anchor of a match with source in block `q` is in that block or a neighbour. */
  lemma NearBlock(r: Ring, q: nat, p: Piece, pos: nat, hi: nat)
    requires r.Ok() && p.len <= r.n && p.src <= pos <= p.src + p.len
    requires hi <= Product(q, r.n) + r.n && Meets(p, Product(q, r.n), hi)
    ensures q - 1 <= pos / r.n <= q + 1
  {
    var x, lo := pos / r.n, Product(q, r.n);
    assert pos == x * r.n + pos % r.n;
    assert (q - 1) * r.n == lo - r.n && (q + 2) * r.n == lo + 2 * r.n;
    NextProduct(x, r.n);
    if x > q + 1 { Monotone(q + 2, x, r.n); }
    if x < q - 1 { Monotone(x + 1, q - 1, r.n); }
  }

  lemma LapBound(r: Ring, k: nat, total: nat, ringLen: nat)
    requires r.Ok() && ringLen == Product(r.per, r.n) > 0 && Product(k, r.n) < total
    ensures 0 <= k / r.per < Laps(total, ringLen)
  {
    QuotientNat(k, r.per);
    var q, x := k / r.per, total + ringLen - 1;
    assert k == q * r.per + k % r.per;
    Monotone(q * r.per, k, r.n);
    assert q * (r.per * r.n) == (q * r.per) * r.n;
    assert x == x / ringLen * ringLen + x % ringLen;
    if x / ringLen <= q {
      Monotone(x / ringLen, q, ringLen);
    }
  }

  /** A slot of its own for every anchor near block `q`. */
  ghost function SlotOf(r: Ring, q: nat, a: Anchor): (int, nat)
    requires r.Ok()
  {
    (3 * (a.c.k / r.per) + (a.pos / r.n - q + 1), a.c.b)
  }

  lemma SlotTells(r: Ring, q: nat, a: Anchor, a': Anchor)
    requires r.Ok() && q - 1 <= a.pos / r.n <= q + 1 && q - 1 <= a'.pos / r.n <= q + 1
    requires (a.pos / r.n) % r.per == a.c.k % r.per && (a'.pos / r.n) % r.per == a'.c.k % r.per
    requires SlotOf(r, q, a) == SlotOf(r, q, a')
    ensures a.c == a'.c
  {
    SameWord(a.c.k / r.per, a.pos / r.n - q + 1, a'.c.k / r.per, a'.pos / r.n - q + 1);
    assert a.c.k == a.c.k / r.per * r.per + a.c.k % r.per;
    assert a'.c.k == a'.c.k / r.per * r.per + a'.c.k % r.per;
  }

  lemma SameWord(x: int, w: int, x': int, w': int)
    requires 0 <= w < 3 && 0 <= w' < 3 && 3 * x + w == 3 * x' + w'
    ensures x == x' && w == w'
  {
  }

  ghost function Grid(rows: int, cols: nat): set<(int, nat)> {
    set x: int, y: nat | 0 <= x < rows && 0 <= y < cols :: (x, y)
  }

  ghost function Row(x: int, cols: nat): set<(int, nat)> {
    set y: nat | 0 <= y < cols :: (x, y)
  }

  lemma {:induction false} RowSize(x: int, cols: nat)
    ensures |Row(x, cols)| == cols
  {
    if cols > 0 {
      RowSize(x, cols - 1);
      assert Row(x, cols) == Row(x, cols - 1) + {(x, cols - 1)};
    }
  }

  lemma {:induction false} GridSize(rows: nat, cols: nat)
    ensures |Grid(rows, cols)| == Product(rows, cols)
  {
    if rows == 0 {
      NextProduct(0, cols);
      assert Grid(0, cols) == {};
    } else {
      GridSize(rows - 1, cols);
      RowSize(rows - 1, cols);
      NextProduct(rows - 1, cols);
      assert Grid(rows, cols) == Grid(rows - 1, cols) + Row(rows - 1, cols);
      assert Grid(rows - 1, cols) !! Row(rows - 1, cols);
    }
  }

  /** The anchor of a match of the list. */
  ghost function AnchorOf(ps: seq<Piece>, anchors: seq<Anchor>, p: Piece): Anchor
    requires p in ps && |anchors| == |ps|
  {
    var j :| 0 <= j < |ps| && ps[j] == p;
    anchors[j]
  }

  lemma AnchorFacts(r: Ring, ps: seq<Piece>, anchors: seq<Anchor>, used: set<Chunk>, p: Piece)
    requires r.Ok() && Anchored(r, ps, anchors, used) && p in ps
    ensures |anchors| == |ps| && AnchorOk(r, p, AnchorOf(ps, anchors, p)) && AnchorOf(ps, anchors, p).c in used
    ensures forall p' :: p' in ps && p' != p ==> AnchorOf(ps, anchors, p').c != AnchorOf(ps, anchors, p).c
  {
    hide AnchorOk;
  }

  /** Everything gathered is no longer than a block. */
  lemma GatheredShort(d: seq<byte>, bufsize: u32, blocks: seq<PendingBlock>, base: u32, p: Piece)
    requires GoodInput(d, bufsize, blocks, false, base) && p in Gathered(blocks, |blocks|, false, base)
    ensures 0 < p.len <= bufsize
  {
    hide GoodInput, Gathered, GoodBlock;
    var g := Gathered(blocks, |blocks|, false, base);
    var i :| 0 <= i < |g| && g[i] == p;
    var k := GatheredFrom(d, bufsize, blocks, |blocks|, false, base, i);
    GoodBlockAt(d, bufsize, blocks, false, base, k);
    BlockAt(d, bufsize, blocks, k);
  }

  /** The pieces listed with a block come from different gathered matches. */
  lemma ListedMatches(d: seq<byte>, bufsize: u32, blocks: seq<PendingBlock>, base: u32, lo: nat, hi: nat) returns (ms: seq<Piece>)
    requires GoodInput(d, bufsize, blocks, false, base) && lo < hi
    ensures var s := Sorted(blocks, false, base); |ms| == |CutList(s, |s|, lo, hi)|
    ensures forall p :: p in ms ==> p in Gathered(blocks, |blocks|, false, base) && Meets(p, lo, hi)
    ensures forall a, b :: 0 <= a < b < |ms| ==> ms[a] != ms[b]
  {
    hide GoodInput, Gathered;
    var g := Gathered(blocks, |blocks|, false, base);
    var s := SortBySource(g);
    var f := CutFrom(s, |s|, lo, hi);
    GatheredApart(d, bufsize, blocks, |blocks|, false, base);
    SortApart(g);
    CutListAt(s, |s|, lo, hi);
    hide SortBySource, AllApart, CutList, CutFrom;
    ms := seq(|f|, a requires 0 <= a < |f| => s[f[a]]);
    forall a | 0 <= a < |ms| ensures ms[a] in g && ms[a].len > 0 {
      assert s[f[a]] in s;
      GatheredShort(d, bufsize, blocks, base, ms[a]);
    }
    forall a, b | 0 <= a < b < |ms| ensures ms[a] != ms[b] {
      ApartAt(s, f[a], f[b]);
    }
  }

  /** At most three chunks' worth of matches a lap have their source in a block. */
  lemma SourcesBound(r: Ring, d: seq<byte>, bufsize: u32, blocks: seq<PendingBlock>, base: u32, ringLen: nat, g: Ledger, table: seq<u64>,
      anchors: seq<Anchor>, q: nat)
    requires GoodInput(d, bufsize, blocks, false, base) && r.Ok() && r.n == bufsize && ringLen == Product(r.per, bufsize) > 0
    requires LedgerOk(r, g, table, |blocks|, 0) && Anchored(r, Gathered(blocks, |blocks|, false, base), anchors, g.used)
    requires q < |blocks| && blocks[q].size > 0
    ensures var s := Sorted(blocks, false, base);
            Laps(|d|, ringLen) >= 0 &&
            |CutList(s, |s|, blocks[q].start, blocks[q].start + blocks[q].size)| <= Product(3 * Laps(|d|, ringLen), r.steps)
  {
    hide GoodInput, Gathered, LedgerOk, Anchored, AnchorOk, Sorted, CutList, Blocked, SlotOf, AnchorOf, Laps, Meets, Product;
    var ps, rows := Gathered(blocks, |blocks|, false, base), 3 * Laps(|d|, ringLen);
    var ms := ListedMatches(d, bufsize, blocks, base, blocks[q].start, blocks[q].start + blocks[q].size);
    AnchorCount(r, ps, anchors, g.used);
    var slots := map p | p in SetOf(ms) :: SlotOf(r, q, AnchorOf(ps, anchors, p));
    forall p | p in SetOf(ms) ensures slots[p] in Grid(rows, r.steps) {
      AnchorInGrid(r, d, bufsize, blocks, base, ringLen, g, table, anchors, q, p);
    }
    forall p, p' | p in SetOf(ms) && p' in SetOf(ms) && slots[p] == slots[p'] ensures p == p' {
      if p != p' { AnchorsDiffer(r, d, bufsize, blocks, base, ringLen, g, table, anchors, q, p, p'); }
    }
    InjectionSize(SetOf(ms), Grid(rows, r.steps), slots);
    DistinctSize(ms);
    LapsNat(|d|, ringLen);
    GridSize(rows, r.steps);
  }

  lemma AnchorCount(r: Ring, ps: seq<Piece>, anchors: seq<Anchor>, used: set<Chunk>)
    requires r.Ok() && Anchored(r, ps, anchors, used)
    ensures |anchors| == |ps|
  {
  }

  lemma LapsNat(total: nat, ringLen: nat)
    requires ringLen > 0
    ensures Laps(total, ringLen) >= 0
  {
    QuotientNat(total + ringLen - 1, ringLen);
  }

  lemma AnchorInGrid(r: Ring, d: seq<byte>, bufsize: u32, blocks: seq<PendingBlock>, base: u32, ringLen: nat, g: Ledger, table: seq<u64>,
      anchors: seq<Anchor>, q: nat, p: Piece)
    requires GoodInput(d, bufsize, blocks, false, base) && r.Ok() && r.n == bufsize && ringLen == Product(r.per, bufsize) > 0
    requires LedgerOk(r, g, table, |blocks|, 0) && Anchored(r, Gathered(blocks, |blocks|, false, base), anchors, g.used)
    requires q < |blocks| && p in Gathered(blocks, |blocks|, false, base) && Meets(p, blocks[q].start, blocks[q].start + blocks[q].size)
    ensures |anchors| == |Gathered(blocks, |blocks|, false, base)|
    ensures var a := AnchorOf(Gathered(blocks, |blocks|, false, base), anchors, p);
            && q - 1 <= a.pos / r.n <= q + 1 && (a.pos / r.n) % r.per == a.c.k % r.per
            && SlotOf(r, q, a) in Grid(3 * Laps(|d|, ringLen), r.steps)
  {
    hide GoodInput, Gathered, Anchored, Blocked, AnchorOf, Laps, Product, Meets;
    var ps := Gathered(blocks, |blocks|, false, base);
    AnchorFacts(r, ps, anchors, g.used, p);
    var a := AnchorOf(ps, anchors, p);
    GoodBlockAt(d, bufsize, blocks, false, base, q);
    GatheredShort(d, bufsize, blocks, base, p);
    BlockStart(d, bufsize, blocks, q);
    NearBlock(r, q, p, a.pos, blocks[q].start + blocks[q].size);
    assert Earlier(a.c, |blocks|, 0);
    BlockStart(d, bufsize, blocks, a.c.k);
    BlockInside(d, bufsize, blocks, a.c.k);
    BlockAt(d, bufsize, blocks, a.c.k);
    LapBound(r, a.c.k, |d|, ringLen);
  }

  lemma AnchorsDiffer(r: Ring, d: seq<byte>, bufsize: u32, blocks: seq<PendingBlock>, base: u32, ringLen: nat, g: Ledger, table: seq<u64>,
      anchors: seq<Anchor>, q: nat, p: Piece, p': Piece)
    requires GoodInput(d, bufsize, blocks, false, base) && r.Ok() && r.n == bufsize && ringLen == Product(r.per, bufsize) > 0
    requires LedgerOk(r, g, table, |blocks|, 0) && Anchored(r, Gathered(blocks, |blocks|, false, base), anchors, g.used)
    requires q < |blocks| && p in Gathered(blocks, |blocks|, false, base) && Meets(p, blocks[q].start, blocks[q].start + blocks[q].size)
    requires p' in Gathered(blocks, |blocks|, false, base) && Meets(p', blocks[q].start, blocks[q].start + blocks[q].size) && p != p'
    ensures |anchors| == |Gathered(blocks, |blocks|, false, base)|
    ensures var ps := Gathered(blocks, |blocks|, false, base);
            SlotOf(r, q, AnchorOf(ps, anchors, p)) != SlotOf(r, q, AnchorOf(ps, anchors, p'))
  {
    hide GoodInput, Gathered, Anchored, AnchorOf, AnchorOk, Laps, Product, Meets, LedgerOk, SlotOf, Grid;
    var ps := Gathered(blocks, |blocks|, false, base);
    AnchorFacts(r, ps, anchors, g.used, p);
    AnchorInGrid(r, d, bufsize, blocks, base, ringLen, g, table, anchors, q, p);
    AnchorInGrid(r, d, bufsize, blocks, base, ringLen, g, table, anchors, q, p');
    var a, a' := AnchorOf(ps, anchors, p), AnchorOf(ps, anchors, p');
    if SlotOf(r, q, a) == SlotOf(r, q, a') { SlotTells(r, q, a, a'); }
  }

  /** With chunks of 48 bytes or more for every lap of the ring, what pass 2 makes of the lists of
      the dictionary compressor never exceeds the limits, even with the lists inline. */
  lemma RepListsFit(d: seq<byte>, bufsize: u32, s: RepSettings, ringLen: nat, per: nat, blocks: seq<PendingBlock>, decBuf: u64, inlineLists: bool)
    requires GoodInput(d, bufsize, blocks, false, s.baseLen) && WrittenBy(d, s, ringLen, blocks) && s.Ok()
    requires bufsize > 0 && ringLen == Product(per, bufsize) > 0 && bufsize <= decBuf && 48 * Laps(|d|, ringLen) <= s.l
    ensures AllFit(blocks, false, s.baseLen, decBuf, inlineLists)
  {
    var runs: seq<BlockRun>, table: seq<u64> :| RunsOk(d, s, ringLen, blocks, runs) && Chained(runs, s.size, table);
    InputBlocked(d, bufsize, blocks, s.baseLen);
    PerPositive(per, bufsize);
    hide GoodInput, RunsOk, Chained, Blocked, LedgerOk, Anchored, BlockFits, Laps, Product, Steps, WrittenBy;
    var r := Ring(bufsize, per, Steps(s, bufsize));
    var g, anchors := BlocksAnchored(r, d, bufsize, s, ringLen, blocks, runs, table, |blocks|);
    forall q | 0 <= q < |blocks| && blocks[q].size > 0 ensures BlockFits(blocks, false, s.baseLen, q, decBuf, inlineLists) {
      BlockAt(d, bufsize, blocks, q);
      SourcesBound(r, d, bufsize, blocks, s.baseLen, ringLen, g, TableAfter(runs, |blocks|), anchors, q);
      ListSize(Laps(|d|, ringLen), s, bufsize);
      SmallList(blocks, s.baseLen, q, bufsize, decBuf, inlineLists);
    }
  }

  lemma InputBlocked(d: seq<byte>, bufsize: u32, blocks: seq<PendingBlock>, base: u32)
    requires GoodInput(d, bufsize, blocks, false, base)
    ensures Blocked(d, bufsize, blocks)
  {
  }

  lemma PerPositive(per: nat, n: nat)
    requires Product(per, n) > 0
    ensures per > 0
  {
  }

  lemma ListSize(laps: nat, s: RepSettings, bufsize: nat)
    requires s.l > 0 && 48 * laps <= s.l
    ensures 16 * Product(3 * laps, Steps(s, bufsize)) <= bufsize
  {
    var n := Steps(s, bufsize);
    Monotone(48 * laps, s.l, n);
    assert 16 * ((3 * laps) * n) == (48 * laps) * n;
    assert bufsize == bufsize / s.l * s.l + bufsize % s.l;
    QuotientNat(bufsize, s.l);
    Monotone(n, bufsize / s.l, s.l);
    assert s.l * n == n * s.l;
  }

  lemma SmallList(blocks: seq<PendingBlock>, base: u32, q: nat, bufsize: u32, decBuf: u64, inlineLists: bool)
    requires q < |blocks| && 0 < blocks[q].size <= bufsize <= decBuf
    requires var s := Sorted(blocks, false, base);
             16 * |CutList(s, |s|, blocks[q].start, blocks[q].start + blocks[q].size)| <= bufsize
    ensures BlockFits(blocks, false, base, q, decBuf, inlineLists)
  {
    hide Sorted, CutList, Gaps, CompBufSize, Own;
    GapsAtMost(blocks[q].start, blocks[q].start + blocks[q].size, SetOf(Own(blocks[q], false, base)));
  }
}
