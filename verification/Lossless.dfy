/** The future and index layouts lose nothing: what pass 2 writes describes exactly the
    input, so decoding gives the input back. */
module Lossless {
  import opened Bytes
  import opened MatchModel
  import opened Records
  import opened WideArithmetic
  import opened FutureSpec
  import opened Cutting
  import opened Compress
  import opened Decompress
  import opened BlockLimits
  import opened StoreDemand

  /** The matches of all blocks as pass 2 sees them. */
  ghost function Sorted(blocks: seq<PendingBlock>, round: bool, base: u32): seq<Piece>
    requires round ==> base > 0
  {
    SortBySource(Gathered(blocks, |blocks|, round, base))
  }

  ghost function Own(b: PendingBlock, round: bool, base: u32): seq<Piece>
    requires round ==> base > 0
  {
    Pass1List(b.stats, round, base, b.start)
  }

  /** Match `p` belongs to block `k` of the input. */
  ghost predicate Belongs(d: seq<byte>, b: PendingBlock, p: Piece) {
    p.len > 0 && b.start <= p.dest && p.dest + p.len <= b.start + b.size && TrueCopy(d, p)
  }

  lemma {:induction false} OwnBelongs(d: seq<byte>, b: PendingBlock, round: bool, base: u32, i: nat)
    requires (round ==> base > 0) && GoodBlock(d, b, round, base) && i < |Own(b, round, base)|
    ensures Belongs(d, b, Own(b, round, base)[i])
  {
    hide Pass1List, GoodList, LengthsFit;
    var ps := Own(b, round, base);
    GoodAt(d, b.start, b.start + b.size, ps, i);
    if i > 0 { OwnBelongs(d, b, round, base, i - 1); }
  }

  lemma {:induction false} OwnOrder(d: seq<byte>, b: PendingBlock, round: bool, base: u32, i: nat, j: nat)
    requires (round ==> base > 0) && GoodBlock(d, b, round, base) && i < j < |Own(b, round, base)|
    ensures Own(b, round, base)[i].dest + Own(b, round, base)[i].len <= Own(b, round, base)[j].dest
  {
    hide Pass1List, GoodList, LengthsFit;
    var ps := Own(b, round, base);
    GoodAt(d, b.start, b.start + b.size, ps, j);
    if i < j - 1 {
      OwnOrder(d, b, round, base, i, j - 1);
    }
  }

  lemma GoodBlockAt(d: seq<byte>, bufsize: u32, blocks: seq<PendingBlock>, round: bool, base: u32, k: nat)
    requires (round ==> base > 0) && GoodInput(d, bufsize, blocks, round, base) && k < |blocks|
    ensures (round ==> base > 0) && GoodBlock(d, blocks[k], round, base)
    ensures Blocked(d, bufsize, blocks)
  {
  }

  /** Every gathered match belongs to the block it was gathered from. */
  lemma {:induction false} GatheredFrom(d: seq<byte>, bufsize: u32, blocks: seq<PendingBlock>, n: nat, round: bool, base: u32, i: nat)
      returns (k: nat)
    requires (round ==> base > 0) && GoodInput(d, bufsize, blocks, round, base) && n <= |blocks| && i < |Gathered(blocks, n, round, base)|
    ensures k < n && Belongs(d, blocks[k], Gathered(blocks, n, round, base)[i])
  {
    hide GoodInput, Belongs, Pass1List, GoodBlock, Blocked;
    var g := Gathered(blocks, n - 1, round, base);
    if i < |g| {
      k := GatheredFrom(d, bufsize, blocks, n - 1, round, base, i);
    } else {
      k := n - 1;
      GoodBlockAt(d, bufsize, blocks, round, base, k);
      OwnBelongs(d, blocks[k], round, base, i - |g|);
    }
  }

  lemma {:induction false} GatheredHas(blocks: seq<PendingBlock>, n: nat, round: bool, base: u32, k: nat, p: Piece)
    requires round ==> base > 0
    requires k < n <= |blocks| && p in Own(blocks[k], round, base)
    ensures p in Gathered(blocks, n, round, base)
  {
    if k < n - 1 { GatheredHas(blocks, n - 1, round, base, k, p); }
  }

  lemma {:induction false} GatheredApart(d: seq<byte>, bufsize: u32, blocks: seq<PendingBlock>, n: nat, round: bool, base: u32)
    requires (round ==> base > 0) && GoodInput(d, bufsize, blocks, round, base) && n <= |blocks|
    ensures AllApart(Gathered(blocks, n, round, base))
  {
    hide GoodInput, GoodBlock, Pass1List, Blocked;
    if n > 0 {
      GatheredApart(d, bufsize, blocks, n - 1, round, base);
      var g, all := Gathered(blocks, n - 1, round, base), Gathered(blocks, n, round, base);
      GoodBlockAt(d, bufsize, blocks, round, base, n - 1);
      assert all == g + Own(blocks[n - 1], round, base);
      forall i, j | 0 <= i < j < |all| ensures Apart(all[i], all[j]) {
        if j < |g| {
          assert Apart(g[i], g[j]);
        } else if i < |g| {
          AcrossBlocks(d, bufsize, blocks, n, round, base, i, j - |g|);
        } else {
          OwnOrder(d, blocks[n - 1], round, base, i - |g|, j - |g|);
        }
      }
    }
  }

  lemma AcrossBlocks(d: seq<byte>, bufsize: u32, blocks: seq<PendingBlock>, n: nat, round: bool, base: u32, i: nat, j: nat)
    requires (round ==> base > 0) && GoodInput(d, bufsize, blocks, round, base) && 0 < n <= |blocks| && (round ==> base > 0)
    requires i < |Gathered(blocks, n - 1, round, base)| && j < |Own(blocks[n - 1], round, base)|
    ensures Apart(Gathered(blocks, n - 1, round, base)[i], Own(blocks[n - 1], round, base)[j])
  {
    hide GoodInput, GoodBlock, Blocked, Pass1List;
    GoodBlockAt(d, bufsize, blocks, round, base, n - 1);
    var k := GatheredFrom(d, bufsize, blocks, n - 1, round, base, i);
    BlockOrder(d, bufsize, blocks, k, n - 1);
    OwnBelongs(d, blocks[n - 1], round, base, j);
  }

  /** All pass 2 relies on: the matches, sorted and apart, each belonging to a block (`home`). */
  ghost predicate Matches(d: seq<byte>, bufsize: u32, blocks: seq<PendingBlock>, s: seq<Piece>, home: seq<nat>) {
    && Blocked(d, bufsize, blocks) && SortedBySource(s) && AllApart(s) && |home| == |s|
    && forall i {:trigger AtHome(d, blocks, s, home, i)} :: 0 <= i < |s| ==> AtHome(d, blocks, s, home, i)
  }

  ghost predicate AtHome(d: seq<byte>, blocks: seq<PendingBlock>, s: seq<Piece>, home: seq<nat>, i: nat)
    requires i < |s| == |home|
  {
    home[i] < |blocks| && Belongs(d, blocks[home[i]], s[i])
  }

  lemma {:induction false} FindHomes(d: seq<byte>, bufsize: u32, blocks: seq<PendingBlock>, round: bool, base: u32, s: seq<Piece>, n: nat)
      returns (home: seq<nat>)
    requires (round ==> base > 0) && GoodInput(d, bufsize, blocks, round, base) && n <= |s|
    requires forall q :: q in s ==> q in Gathered(blocks, |blocks|, round, base)
    ensures |home| == n && forall i :: 0 <= i < n ==> home[i] < |blocks| && Belongs(d, blocks[home[i]], s[i])
  {
    hide GoodInput, Belongs;
    if n == 0 {
      home := [];
    } else {
      var rest := FindHomes(d, bufsize, blocks, round, base, s, n - 1);
      var g := Gathered(blocks, |blocks|, round, base);
      assert s[n - 1] in g;
      var j :| 0 <= j < |g| && g[j] == s[n - 1];
      var k := GatheredFrom(d, bufsize, blocks, |blocks|, round, base, j);
      home := rest + [k];
    }
  }

  lemma SortedMatches(d: seq<byte>, bufsize: u32, blocks: seq<PendingBlock>, round: bool, base: u32) returns (home: seq<nat>)
    requires (round ==> base > 0) && GoodInput(d, bufsize, blocks, round, base)
    ensures Matches(d, bufsize, blocks, Sorted(blocks, round, base), home)
  {
    var g := Gathered(blocks, |blocks|, round, base);
    var s := SortBySource(g);
    GatheredApart(d, bufsize, blocks, |blocks|, round, base);
    SortApart(g);
    SortSorted(g);
    home := FindHomes(d, bufsize, blocks, round, base, s, |s|);
  }

  // ---- the archive pass 2 writes ----

  /** Each block of `ar` carries the pieces of the sorted matches `s` with source in it and
      the bytes of the input outside the block's own matches. */
  ghost predicate PassTwo(d: seq<byte>, blocks: seq<PendingBlock>, own: seq<seq<Piece>>, s: seq<Piece>, ar: Archive) {
    && !ar.round && ar.l == 0 && |ar.blocks| == |blocks| == |own| && |d| <= W64 - W32
    && forall k {:trigger BlockWritten(d, blocks[k], own[k], s, ar.blocks[k])} :: 0 <= k < |blocks| ==>
         BlockWritten(d, blocks[k], own[k], s, ar.blocks[k])
  }

  ghost predicate BlockWritten(d: seq<byte>, b: PendingBlock, own: seq<Piece>, s: seq<Piece>, w: Block) {
    && w.size == b.size > 0 && b.start + b.size <= |d|
    && FutureList(w.stat, false, 0, b.start) == CutList(s, |s|, b.start, b.start + b.size)
    && |w.stat| == 4 * |CutList(s, |s|, b.start, b.start + b.size)|
    && Decodes(d[..b.start + b.size], b.start, SetOf(own), w.literals)
    && OwnExactly(own, s, b.start, b.start + b.size)
  }

  /** The block's own matches are those of the sorted ones with destination in it. */
  ghost predicate OwnExactly(own: seq<Piece>, s: seq<Piece>, lo: nat, hi: nat) {
    && (forall p :: p in own ==> p in s)
    && (forall p :: p in s && lo <= p.dest < hi ==> p in own)
  }

  lemma WrittenAt(d: seq<byte>, blocks: seq<PendingBlock>, own: seq<seq<Piece>>, s: seq<Piece>, ar: Archive, k: nat)
    requires PassTwo(d, blocks, own, s, ar) && k < |blocks|
    ensures |ar.blocks| == |blocks| == |own| && !ar.round && ar.l == 0 && |d| <= W64 - W32
    ensures BlockWritten(d, blocks[k], own[k], s, ar.blocks[k])
    ensures ar.blocks[k].size == blocks[k].size > 0 && blocks[k].start + blocks[k].size <= |d|
  {
    assert BlockWritten(d, blocks[k], own[k], s, ar.blocks[k]);
  }

  lemma {:induction false} Starts(d: seq<byte>, bufsize: u32, blocks: seq<PendingBlock>, own: seq<seq<Piece>>, s: seq<Piece>, ar: Archive, k: nat)
    requires Blocked(d, bufsize, blocks) && PassTwo(d, blocks, own, s, ar) && k <= |blocks|
    ensures |ar.blocks| == |blocks| && ar.Start(k) == BlocksEnd(blocks, k)
    decreases k
  {
    hide Blocked, BlockWritten;
    if k > 0 {
      Starts(d, bufsize, blocks, own, s, ar, k - 1);
      BlockAt(d, bufsize, blocks, k - 1);
      WrittenAt(d, blocks, own, s, ar, k - 1);
    }
  }

  /** Block `k` of the archive sits where block `k` of the input does and lists its pieces. */
  lemma BlockFacts(d: seq<byte>, bufsize: u32, blocks: seq<PendingBlock>, own: seq<seq<Piece>>, s: seq<Piece>, ar: Archive, k: nat)
    requires Blocked(d, bufsize, blocks) && PassTwo(d, blocks, own, s, ar) && k < |blocks|
    ensures |ar.blocks| == |blocks| == |own| && ar.FormatOk()
    ensures ar.Start(k) == blocks[k].start && ar.Start(k + 1) == blocks[k].start + blocks[k].size <= |d| <= W64 - W32 && blocks[k].size > 0
    ensures ar.List(k) == CutList(s, |s|, blocks[k].start, blocks[k].start + blocks[k].size)
    ensures BlockWritten(d, blocks[k], own[k], s, ar.blocks[k])
  {
    hide Blocked, PassTwo;
    Starts(d, bufsize, blocks, own, s, ar, k);
    Starts(d, bufsize, blocks, own, s, ar, k + 1);
    BlockAt(d, bufsize, blocks, k);
    WrittenAt(d, blocks, own, s, ar, k);
  }

  /** Piece `a` listed with block `k` was cut from a match that belongs to some block. */
  lemma PieceFacts(d: seq<byte>, bufsize: u32, blocks: seq<PendingBlock>, s: seq<Piece>, home: seq<nat>, lo: nat, hi: nat, a: nat)
      returns (i: nat)
    requires Matches(d, bufsize, blocks, s, home) && lo < hi && a < |CutList(s, |s|, lo, hi)|
    ensures |home| == |s| && i < |s| && home[i] < |blocks| && Belongs(d, blocks[home[i]], s[i])
    ensures a < |CutFrom(s, |s|, lo, hi)| && i == CutFrom(s, |s|, lo, hi)[a]
    ensures Meets(s[i], lo, hi) && CutList(s, |s|, lo, hi)[a] == Cut(s[i], lo, hi)
    ensures var p := Cut(s[i], lo, hi);
            && p.len > 0 && p.dest - p.src == s[i].dest - s[i].src
            && s[i].dest <= p.dest && p.dest + p.len <= s[i].dest + s[i].len
            && lo <= p.src && p.src + p.len <= hi && TrueCopy(d, p)
  {
    hide Blocked, SortedBySource, AllApart, Cut, Meets;
    CutListAt(s, |s|, lo, hi);
    i := CutFrom(s, |s|, lo, hi)[a];
    assert AtHome(d, blocks, s, home, i);
    CutWithin(s[i], lo, hi);
    CutTrueCopy(d, s[i], lo, hi);
  }

  /** Everything known of pass 2's result. */
  ghost predicate Produced(d: seq<byte>, bufsize: u32, blocks: seq<PendingBlock>, own: seq<seq<Piece>>, s: seq<Piece>, home: seq<nat>, ar: Archive) {
    Matches(d, bufsize, blocks, s, home) && PassTwo(d, blocks, own, s, ar)
  }

  /** The bytes pieces are cut from are never shared: two listed pieces have different destinations. */
  lemma DestsDiffer(d: seq<byte>, bufsize: u32, blocks: seq<PendingBlock>, s: seq<Piece>, home: seq<nat>, k: nat, a: nat, m: nat, b: nat)
    requires Matches(d, bufsize, blocks, s, home) && k < |blocks| && m < |blocks| && blocks[k].size > 0 && blocks[m].size > 0
    requires a < |CutList(s, |s|, blocks[k].start, blocks[k].start + blocks[k].size)|
    requires b < |CutList(s, |s|, blocks[m].start, blocks[m].start + blocks[m].size)|
    requires k != m || a != b
    ensures CutList(s, |s|, blocks[k].start, blocks[k].start + blocks[k].size)[a].dest
         != CutList(s, |s|, blocks[m].start, blocks[m].start + blocks[m].size)[b].dest
  {
    hide Blocked, SortedBySource, AllApart, Cut, Meets, Belongs, Matches, CutList, CutFrom;
    var i := PieceFacts(d, bufsize, blocks, s, home, blocks[k].start, blocks[k].start + blocks[k].size, a);
    var j := PieceFacts(d, bufsize, blocks, s, home, blocks[m].start, blocks[m].start + blocks[m].size, b);
    MatchesBlocked(d, bufsize, blocks, s, home);
    if i != j {
      ApartAt(s, i, j);
    } else if k < m {
      BlockOrder(d, bufsize, blocks, k, m);
    } else if m < k {
      BlockOrder(d, bufsize, blocks, m, k);
    } else {
      CutListAt(s, |s|, blocks[k].start, blocks[k].start + blocks[k].size);
    }
  }

  lemma ApartAt(s: seq<Piece>, i: nat, j: nat)
    requires AllApart(s) && i < |s| && j < |s| && i != j
    ensures Apart(s[i], s[j])
  {
    if i < j { assert Apart(s[i], s[j]); } else { assert Apart(s[j], s[i]); }
  }

  lemma ArchiveWellFormed(d: seq<byte>, bufsize: u32, blocks: seq<PendingBlock>, own: seq<seq<Piece>>, s: seq<Piece>, home: seq<nat>, ar: Archive)
    requires Produced(d, bufsize, blocks, own, s, home, ar)
    ensures ar.WellFormed() && ar.Start(|ar.blocks|) == |d| && |ar.blocks| == |blocks|
  {
    hide Blocked, SortedBySource, AllApart, BlockWritten, Matches, PassTwo, Cut, Meets, Belongs, CutList, CutFrom, FutureList;
    MatchesBlocked(d, bufsize, blocks, s, home);
    Starts(d, bufsize, blocks, own, s, ar, |blocks|);
    BlocksTotal(d, bufsize, blocks);
    FormatFits(d, blocks, own, s, ar);
    forall k | 0 <= k <= |ar.blocks| ensures ar.Start(k) <= ar.Start(|ar.blocks|) {
      ar.StartMonotone(k, |ar.blocks|);
    }
    forall k, i | 0 <= k < |ar.blocks| && 0 <= i < |ar.List(k)| ensures ar.List(k)[i].len > 0 && ar.List(k)[i].dest < U64_MAX {
      BlockFacts(d, bufsize, blocks, own, s, ar, k);
      var x := PieceFacts(d, bufsize, blocks, s, home, blocks[k].start, blocks[k].start + blocks[k].size, i);
      assert TrueCopy(d, ar.List(k)[i]);
    }
    forall k, i, m, j | 0 <= k < |ar.blocks| && 0 <= i < |ar.List(k)| && 0 <= m < |ar.blocks| && 0 <= j < |ar.List(m)| && (k != m || i != j)
      ensures ar.List(k)[i].dest != ar.List(m)[j].dest
    {
      BlockFacts(d, bufsize, blocks, own, s, ar, k);
      BlockFacts(d, bufsize, blocks, own, s, ar, m);
      DestsDiffer(d, bufsize, blocks, s, home, k, i, m, j);
    }
  }

  lemma MatchesBlocked(d: seq<byte>, bufsize: u32, blocks: seq<PendingBlock>, s: seq<Piece>, home: seq<nat>)
    requires Matches(d, bufsize, blocks, s, home)
    ensures Blocked(d, bufsize, blocks) && SortedBySource(s) && AllApart(s) && |home| == |s|
  {
  }

  lemma BlocksTotal(d: seq<byte>, bufsize: u32, blocks: seq<PendingBlock>)
    requires Blocked(d, bufsize, blocks)
    ensures BlocksEnd(blocks, |blocks|) == |d|
  {
  }

  lemma FormatFits(d: seq<byte>, blocks: seq<PendingBlock>, own: seq<seq<Piece>>, s: seq<Piece>, ar: Archive)
    requires PassTwo(d, blocks, own, s, ar)
    ensures !ar.round && ar.l == 0 && |ar.blocks| == |blocks| == |own| && |d| <= W64 - W32
  {
  }

  // ---- how many chunks its pieces take ----

  /** `p` is the part of match `i` with source in block `k`. */
  ghost predicate PieceAt(blocks: seq<PendingBlock>, s: seq<Piece>, k: nat, i: nat, p: Piece) {
    && k < |blocks| && blocks[k].size > 0 && i < |s|
    && Meets(s[i], blocks[k].start, blocks[k].start + blocks[k].size)
    && p == Cut(s[i], blocks[k].start, blocks[k].start + blocks[k].size)
  }

  ghost function AllPieces(blocks: seq<PendingBlock>, s: seq<Piece>): set<Piece> {
    set k, i | 0 <= k < |blocks| && 0 <= i < |s| && blocks[k].size > 0 && Meets(s[i], blocks[k].start, blocks[k].start + blocks[k].size) ::
      Cut(s[i], blocks[k].start, blocks[k].start + blocks[k].size)
  }

  lemma PieceOrigin(blocks: seq<PendingBlock>, s: seq<Piece>, p: Piece) returns (k: nat, i: nat)
    requires p in AllPieces(blocks, s)
    ensures PieceAt(blocks, s, k, i, p)
  {
    hide Cut, Meets;
    k, i :| 0 <= k < |blocks| && 0 <= i < |s| && blocks[k].size > 0 && Meets(s[i], blocks[k].start, blocks[k].start + blocks[k].size)
      && p == Cut(s[i], blocks[k].start, blocks[k].start + blocks[k].size);
  }

  /** A piece lies in its match, and its source in its block. */
  lemma PieceInside(d: seq<byte>, bufsize: u32, blocks: seq<PendingBlock>, s: seq<Piece>, home: seq<nat>, k: nat, i: nat, p: Piece)
    requires Matches(d, bufsize, blocks, s, home) && PieceAt(blocks, s, k, i, p)
    ensures p.dest - p.src == s[i].dest - s[i].src && s[i].dest <= p.dest && p.dest + p.len <= s[i].dest + s[i].len <= |d|
    ensures blocks[k].start <= p.src && p.src + p.len <= blocks[k].start + blocks[k].size
  {
    HomeOf(d, bufsize, blocks, s, home, i);
    CutWithin(s[i], blocks[k].start, blocks[k].start + blocks[k].size);
  }

  /** Different pieces share no byte of the input. */
  lemma PiecesSpread(d: seq<byte>, bufsize: u32, blocks: seq<PendingBlock>, s: seq<Piece>, home: seq<nat>)
    requires Matches(d, bufsize, blocks, s, home)
    ensures Spread(AllPieces(blocks, s), |d|)
  {
    hide Matches, AllPieces, PieceAt;
    MatchesBlocked(d, bufsize, blocks, s, home);
    var ps := AllPieces(blocks, s);
    forall p | p in ps ensures p.dest + p.len <= |d| {
      var k, i := PieceOrigin(blocks, s, p);
      PieceInside(d, bufsize, blocks, s, home, k, i, p);
    }
    forall p, q, x: nat {:trigger p.Contains(x), q.Contains(x)} | p in ps && q in ps && p.Contains(x) && q.Contains(x) ensures p == q {
      var k, i := PieceOrigin(blocks, s, p);
      var l, h := PieceOrigin(blocks, s, q);
      SharedByte(d, bufsize, blocks, s, home, k, i, p, l, h, q, x);
    }
  }

  lemma SharedByte(d: seq<byte>, bufsize: u32, blocks: seq<PendingBlock>, s: seq<Piece>, home: seq<nat>,
      k: nat, i: nat, p: Piece, l: nat, h: nat, q: Piece, x: nat)
    requires Matches(d, bufsize, blocks, s, home) && PieceAt(blocks, s, k, i, p) && PieceAt(blocks, s, l, h, q)
    requires p.Contains(x) && q.Contains(x)
    ensures p == q
  {
    hide Matches, Blocked, AllApart, SortedBySource, Cut, Meets;
    MatchesBlocked(d, bufsize, blocks, s, home);
    PieceInside(d, bufsize, blocks, s, home, k, i, p);
    PieceInside(d, bufsize, blocks, s, home, l, h, q);
    if i != h {
      ApartAt(s, i, h);
    } else {
      if k < l { BlockOrder(d, bufsize, blocks, k, l); }
      if l < k { BlockOrder(d, bufsize, blocks, l, k); }
    }
  }

  lemma {:induction false} BlockStart(d: seq<byte>, bufsize: u32, blocks: seq<PendingBlock>, k: nat)
    requires Blocked(d, bufsize, blocks) && k < |blocks|
    ensures blocks[k].start == Product(k, bufsize) && blocks[k].size <= bufsize
  {
    hide Blocked, Product;
    BlockAt(d, bufsize, blocks, k);
    if k == 0 {
      NextProduct(0, bufsize);
    } else {
      BlockStart(d, bufsize, blocks, k - 1);
      BlockAt(d, bufsize, blocks, k - 1);
      NextProduct(k - 1, bufsize);
    }
  }

  /** A match no longer than a block is cut at most once. */
  lemma CutOnce(d: seq<byte>, bufsize: u32, blocks: seq<PendingBlock>, m: Piece, k: nat)
    requires Blocked(d, bufsize, blocks) && k < |blocks| && bufsize > 0 && m.len <= bufsize
    requires Meets(m, blocks[k].start, blocks[k].start + blocks[k].size)
    ensures m.src / bufsize <= k <= m.src / bufsize + 1
  {
    hide Blocked, Product;
    BlockStart(d, bufsize, blocks, k);
    var q := m.src / bufsize;
    DivMod(m.src, bufsize);
    NextProduct(k, bufsize);
    NextProduct(q, bufsize);
    NextProduct(q + 1, bufsize);
    if k < q { ProductUp(k + 1, q, bufsize); }
    if k > q + 1 { ProductUp(q + 2, k, bufsize); }
  }

  lemma ProductUp(x: int, x': int, y: nat)
    requires x <= x'
    ensures Product(x, y) <= Product(x', y)
  {
    Monotone(x, x', y);
  }

  /** The block of a piece of match `m` is the one its source starts in (`first`), or the next one. */
  ghost predicate CutOf(blocks: seq<PendingBlock>, s: seq<Piece>, bufsize: nat, p: Piece, m: Piece, first: bool)
    requires bufsize > 0
  {
    exists k: nat, i: nat :: PieceAt(blocks, s, k, i, p) && s[i] == m && k == m.src / bufsize + if first then 0 else 1
  }

  ghost function SourceMatch(blocks: seq<PendingBlock>, s: seq<Piece>, bufsize: nat, p: Piece, first: bool): Piece
    requires bufsize > 0 && exists m :: CutOf(blocks, s, bufsize, p, m, first)
  {
    var m :| CutOf(blocks, s, bufsize, p, m, first);
    m
  }

  lemma SourceMatchOk(blocks: seq<PendingBlock>, s: seq<Piece>, bufsize: nat, p: Piece, first: bool)
    requires bufsize > 0 && exists m :: CutOf(blocks, s, bufsize, p, m, first)
    ensures CutOf(blocks, s, bufsize, p, SourceMatch(blocks, s, bufsize, p, first), first)
  {
  }

  lemma SamePiece(blocks: seq<PendingBlock>, s: seq<Piece>, bufsize: nat, p: Piece, q: Piece, m: Piece, first: bool)
    requires bufsize > 0 && CutOf(blocks, s, bufsize, p, m, first) && CutOf(blocks, s, bufsize, q, m, first)
    ensures p == q && m in SetOf(s)
  {
    var k: nat, i: nat :| PieceAt(blocks, s, k, i, p) && s[i] == m && k == m.src / bufsize + if first then 0 else 1;
    var l: nat, h: nat :| PieceAt(blocks, s, l, h, q) && s[h] == m && l == m.src / bufsize + if first then 0 else 1;
  }

  /** Pieces from first blocks are no more than matches, and likewise those from second blocks. */
  lemma OneEach(blocks: seq<PendingBlock>, s: seq<Piece>, bufsize: nat, ps: set<Piece>, first: bool)
    requires bufsize > 0 && forall p :: p in ps ==> exists m :: CutOf(blocks, s, bufsize, p, m, first)
    ensures |ps| <= |SetOf(s)|
  {
    hide CutOf, SourceMatch;
    var f := map p | p in ps :: SourceMatch(blocks, s, bufsize, p, first);
    forall p | p in ps ensures CutOf(blocks, s, bufsize, p, f[p], first) && f[p] in SetOf(s) {
      SourceMatchOk(blocks, s, bufsize, p, first);
      SamePiece(blocks, s, bufsize, p, p, f[p], first);
    }
    forall p, q | p in ps && q in ps && f[p] == f[q] ensures p == q {
      SamePiece(blocks, s, bufsize, p, q, f[p], first);
    }
    InjectionSize(ps, SetOf(s), f);
  }

  lemma TwicePieces(d: seq<byte>, bufsize: u32, blocks: seq<PendingBlock>, s: seq<Piece>)
    requires Blocked(d, bufsize, blocks) && bufsize > 0 && forall m :: m in s ==> m.len <= bufsize
    ensures |AllPieces(blocks, s)| <= 2 * |SetOf(s)|
  {
    hide AllPieces, CutOf, Blocked;
    var ps := AllPieces(blocks, s);
    var a := set p | p in ps && exists m :: CutOf(blocks, s, bufsize, p, m, true);
    var b := ps - a;
    forall p | p in b ensures exists m :: CutOf(blocks, s, bufsize, p, m, false) {
      var k, i := PieceOrigin(blocks, s, p);
      assert s[i] in s;
      CutOnce(d, bufsize, blocks, s[i], k);
      PieceSide(blocks, s, bufsize, p, k, i);
    }
    OneEach(blocks, s, bufsize, a, true);
    OneEach(blocks, s, bufsize, b, false);
    assert ps == a + b;
  }

  lemma PieceSide(blocks: seq<PendingBlock>, s: seq<Piece>, bufsize: nat, p: Piece, k: nat, i: nat)
    requires bufsize > 0 && PieceAt(blocks, s, k, i, p) && s[i].src / bufsize <= k <= s[i].src / bufsize + 1
    ensures CutOf(blocks, s, bufsize, p, s[i], k == s[i].src / bufsize)
  {
  }

  /** All pieces of the gathered matches together take no more chunks than that. */
  lemma PiecesBound(d: seq<byte>, bufsize: u32, blocks: seq<PendingBlock>, round: bool, base: u32)
    requires (round ==> base > 0) && GoodInput(d, bufsize, blocks, round, base)
    ensures Demand(AllPieces(blocks, Sorted(blocks, round, base))) <= ChunkBound(|d|, base)
  {
    hide GoodInput, Matches, AllPieces, Demand, Sorted, Spread, CutOf;
    var s := Sorted(blocks, round, base);
    var home := SortedMatches(d, bufsize, blocks, round, base);
    var ps := AllPieces(blocks, s);
    PiecesSpread(d, bufsize, blocks, s, home);
    DemandApart(ps, |d|);
    MatchesBlocked(d, bufsize, blocks, s, home);
    SortedLengths(d, bufsize, blocks, round, base);
    if base > 0 {
      DemandSpread(ps, |d|);
      MatchSpread(d, bufsize, blocks, s, home);
      SpreadCount(SetOf(s), |d|, base);
      if s == [] {
        NoPieces(blocks);
      } else {
        assert s[0] in s;
        TwicePieces(d, bufsize, blocks, s);
      }
    }
  }

  lemma NoPieces(blocks: seq<PendingBlock>)
    ensures AllPieces(blocks, []) == {}
  {
  }

  lemma MatchSpread(d: seq<byte>, bufsize: u32, blocks: seq<PendingBlock>, s: seq<Piece>, home: seq<nat>)
    requires Matches(d, bufsize, blocks, s, home)
    ensures Spread(SetOf(s), |d|)
  {
    MatchesBlocked(d, bufsize, blocks, s, home);
    hide Matches, AllApart, Blocked, SortedBySource;
    forall p | p in SetOf(s) ensures p.dest + p.len <= |d| {
      var i :| 0 <= i < |s| && s[i] == p;
      HomeOf(d, bufsize, blocks, s, home, i);
    }
    forall p, q, x: nat {:trigger p.Contains(x), q.Contains(x)} | p in SetOf(s) && q in SetOf(s) && p.Contains(x) && q.Contains(x) ensures p == q {
      var i :| 0 <= i < |s| && s[i] == p;
      var j :| 0 <= j < |s| && s[j] == q;
      if i != j { ApartAt(s, i, j); }
    }
  }

  /** Every match is at least of the base length and fits a block. */
  lemma SortedLengths(d: seq<byte>, bufsize: u32, blocks: seq<PendingBlock>, round: bool, base: u32)
    requires (round ==> base > 0) && GoodInput(d, bufsize, blocks, round, base)
    ensures forall m :: m in Sorted(blocks, round, base) ==> base <= m.len <= bufsize && bufsize > 0
  {
    hide GoodInput, Gathered, GoodBlock, SortBySource, Pass1List;
    var g := Gathered(blocks, |blocks|, round, base);
    GatheredApart(d, bufsize, blocks, |blocks|, round, base);
    SortApart(g);
    forall m | m in SortBySource(g) ensures base <= m.len <= bufsize && bufsize > 0 {
      var k := GatheredFromOwn(blocks, |blocks|, round, base, m);
      GoodBlockAt(d, bufsize, blocks, round, base, k);
      BlockAt(d, bufsize, blocks, k);
      OwnLengths(d, blocks[k], round, base, m);
    }
  }

  lemma {:induction false} GatheredFromOwn(blocks: seq<PendingBlock>, n: nat, round: bool, base: u32, p: Piece) returns (k: nat)
    requires (round ==> base > 0) && n <= |blocks| && p in Gathered(blocks, n, round, base)
    ensures k < n && p in Own(blocks[k], round, base)
  {
    hide Pass1List;
    if p in Own(blocks[n - 1], round, base) {
      k := n - 1;
    } else {
      k := GatheredFromOwn(blocks, n - 1, round, base, p);
    }
  }

  lemma OwnLengths(d: seq<byte>, b: PendingBlock, round: bool, base: u32, m: Piece)
    requires (round ==> base > 0) && GoodBlock(d, b, round, base) && m in Own(b, round, base)
    ensures base <= m.len <= b.size
  {
    ListWords(b.stats, round, base, b.start);
    hide Pass1List, LengthsFit, GoodList;
    var i :| 0 <= i < |Own(b, round, base)| && Own(b, round, base)[i] == m;
    OwnBelongs(d, b, round, base, i);
  }

  /** A record takes at most sixteen bytes, and no match is shorter than the base length. */
  lemma {:induction false} ListWords(stat: seq<u32>, round: bool, base: u32, pos: u64)
    requires (round ==> base > 0) && LengthsFit(stat, round, base)
    ensures var ps := Pass1List(stat, round, base, pos);
            |stat| < 4 * (|ps| + 1) && forall p :: p in ps ==> p.len >= base
    decreases |stat|
  {
    if |stat| >= StatsPerMatch(round) {
      DecodeFields(stat, round, base, pos);
      ListCons(stat, round, base, pos);
      FitsCons(stat, round, base);
      var (lit, m) := DecodeLzMatch(stat, false, round, base, pos);
      hide DecodeLzMatch, Pass1List, LengthsFit;
      ListWords(stat[StatsPerMatch(round)..], round, base, (pos + lit + m.len) % W64);
    }
  }

  // ---- the sizes of its blocks ----

  /** Block `k` of the input, compressed, is within the driver's limits: records of pass 2 take 16 bytes. */
  ghost predicate BlockFits(blocks: seq<PendingBlock>, round: bool, base: u32, k: nat, bufsize: u64, inlineLists: bool)
    requires (round ==> base > 0) && k < |blocks| && blocks[k].size > 0
  {
    var s, lo, hi := Sorted(blocks, round, base), blocks[k].start, blocks[k].start + blocks[k].size;
    !Oversized(blocks[k].size, if inlineLists then 16 * |CutList(s, |s|, lo, hi)| else 0,
      Gaps(lo, hi, SetOf(Own(blocks[k], round, base))), bufsize)
  }

  ghost predicate AllFit(blocks: seq<PendingBlock>, round: bool, base: u32, bufsize: u64, inlineLists: bool)
    requires round ==> base > 0
  {
    forall k :: 0 <= k < |blocks| && blocks[k].size > 0 ==> BlockFits(blocks, round, base, k, bufsize, inlineLists)
  }

  lemma WrittenFits(d: seq<byte>, blocks: seq<PendingBlock>, round: bool, base: u32, k: nat, w: Block, bufsize: u64, inlineLists: bool)
    requires (round ==> base > 0) && k < |blocks| && BlockWritten(d, blocks[k], Own(blocks[k], round, base), Sorted(blocks, round, base), w)
    ensures BlockFits(blocks, round, base, k, bufsize, inlineLists) <==> !w.TooLarge(bufsize, inlineLists)
  {
    LitsCount(d[..blocks[k].start + blocks[k].size], blocks[k].start, SetOf(Own(blocks[k], round, base)));
  }

  /** The blocks written are within the limits exactly when the input's are. */
  lemma ArchiveFits(d: seq<byte>, blocks: seq<PendingBlock>, round: bool, base: u32, own: seq<seq<Piece>>, ar: Archive, bufsize: u64, inlineLists: bool)
    requires (round ==> base > 0) && PassTwo(d, blocks, own, Sorted(blocks, round, base), ar)
    requires forall k :: 0 <= k < |blocks| ==> own[k] == Own(blocks[k], round, base)
    ensures ar.Fits(bufsize, inlineLists) <==> AllFit(blocks, round, base, bufsize, inlineLists)
  {
    hide BlockFits, PassTwo, BlockWritten, Sorted, Own;
    FormatFits(d, blocks, own, Sorted(blocks, round, base), ar);
    forall k | 0 <= k < |blocks|
      ensures blocks[k].size > 0 && (BlockFits(blocks, round, base, k, bufsize, inlineLists) <==> !ar.blocks[k].TooLarge(bufsize, inlineLists))
    {
      WrittenAt(d, blocks, own, Sorted(blocks, round, base), ar, k);
      WrittenFits(d, blocks, round, base, k, ar.blocks[k], bufsize, inlineLists);
    }
  }

  lemma {:induction false} GapsAtMost(lo: nat, hi: nat, ps: set<Piece>)
    requires lo <= hi
    ensures Gaps(lo, hi, ps) <= hi - lo
    decreases hi
  {
    if lo < hi { GapsAtMost(lo, hi - 1, ps); }
  }

  /** With the lists in the index, nothing is too large for buffers of the compressor's size. */
  lemma IndexFits(d: seq<byte>, bufsize: u32, blocks: seq<PendingBlock>, round: bool, base: u32, decBuf: u64)
    requires (round ==> base > 0) && Blocked(d, bufsize, blocks) && bufsize <= decBuf
    ensures AllFit(blocks, round, base, decBuf, false)
  {
    hide Sorted, Own, Gaps, CutList, CompBufSize, Blocked;
    forall k | 0 <= k < |blocks| ensures blocks[k].size <= bufsize { BlockAt(d, bufsize, blocks, k); }
    forall k | 0 <= k < |blocks| && blocks[k].size > 0 ensures BlockFits(blocks, round, base, k, decBuf, false) {
      GapsAtMost(blocks[k].start, blocks[k].start + blocks[k].size, SetOf(Own(blocks[k], round, base)));
    }
  }

  // ---- the archive describes the input ----

  /** Everything listed is a true copy cut from a match, with source in its block. */
  lemma ListedPiece(d: seq<byte>, bufsize: u32, blocks: seq<PendingBlock>, own: seq<seq<Piece>>, s: seq<Piece>, home: seq<nat>, ar: Archive, n: nat, p: Piece)
      returns (k: nat, i: nat)
    requires Produced(d, bufsize, blocks, own, s, home, ar) && ar.WellFormed() && n <= |ar.blocks| && p in ar.Listed(n)
    ensures |ar.blocks| == |blocks| && k < n && blocks[k].size > 0
    ensures |home| == |s| && i < |s| && home[i] < |blocks| && Belongs(d, blocks[home[i]], s[i])
    ensures Meets(s[i], blocks[k].start, blocks[k].start + blocks[k].size)
    ensures p == Cut(s[i], blocks[k].start, blocks[k].start + blocks[k].size)
    ensures p.len > 0 && s[i].dest <= p.dest && p.dest + p.len <= s[i].dest + s[i].len && TrueCopy(d, p)
    ensures p.dest - p.src == s[i].dest - s[i].src && blocks[k].start <= p.src < blocks[k].start + blocks[k].size
  {
    hide Blocked, SortedBySource, AllApart, BlockWritten, Matches, PassTwo, Cut, Meets, Belongs, CutList, CutFrom, FutureList, Archive.WellFormed, TrueCopy;
    MatchesBlocked(d, bufsize, blocks, s, home);
    FormatFits(d, blocks, own, s, ar);
    var a;
    k, a := ar.ListedIn(n, p);
    BlockFacts(d, bufsize, blocks, own, s, ar, k);
    i := PieceFacts(d, bufsize, blocks, s, home, blocks[k].start, blocks[k].start + blocks[k].size, a);
  }

  /** A match due in block `k` lies inside the block and is one of the block's own. */
  lemma HomeBlock(d: seq<byte>, bufsize: u32, blocks: seq<PendingBlock>, j: nat, k: nat, m: Piece, x: nat)
    requires Blocked(d, bufsize, blocks) && j < |blocks| && k < |blocks| && Belongs(d, blocks[j], m)
    requires m.Contains(x) && blocks[k].start <= x < blocks[k].start + blocks[k].size
    ensures j == k
  {
    hide Blocked;
    if j < k { BlockOrder(d, bufsize, blocks, j, k); }
    if k < j { BlockOrder(d, bufsize, blocks, k, j); }
  }

  lemma DuePiece(d: seq<byte>, bufsize: u32, blocks: seq<PendingBlock>, own: seq<seq<Piece>>, s: seq<Piece>, home: seq<nat>, ar: Archive, k: nat, p: Piece)
      returns (j: nat, i: nat)
    requires Produced(d, bufsize, blocks, own, s, home, ar) && ar.WellFormed() && k < |ar.blocks| && p in ar.DueAt(k)
    ensures |ar.blocks| == |blocks| == |own| && j < |blocks| && blocks[j].size > 0 && i < |s|
    ensures Meets(s[i], blocks[j].start, blocks[j].start + blocks[j].size)
    ensures p == Cut(s[i], blocks[j].start, blocks[j].start + blocks[j].size)
    ensures ar.Start(k) == blocks[k].start && ar.Start(k + 1) == blocks[k].start + blocks[k].size <= |d|
    ensures p.len > 0 && s[i].dest <= p.dest && p.dest + p.len <= s[i].dest + s[i].len && TrueCopy(d, p)
    ensures ar.Start(k) <= p.dest && p.dest + p.len <= ar.Start(k + 1)
    ensures blocks[j].start <= p.src < blocks[j].start + blocks[j].size && p.dest - p.src == s[i].dest - s[i].src
    ensures s[i] in own[k]
  {
    hide Blocked, SortedBySource, AllApart, Matches, PassTwo, Cut, Meets, FutureList, Archive.WellFormed, CutList, TrueCopy;
    MatchesBlocked(d, bufsize, blocks, s, home);
    FormatFits(d, blocks, own, s, ar);
    j, i := ListedPiece(d, bufsize, blocks, own, s, home, ar, k + 1, p);
    BlockFacts(d, bufsize, blocks, own, s, ar, k);
    HomeBlock(d, bufsize, blocks, home[i], k, s[i], p.dest);
    assert s[i] in s;
  }

  /** Different listed pieces do not overlap. */
  lemma ListedApart(d: seq<byte>, bufsize: u32, blocks: seq<PendingBlock>, own: seq<seq<Piece>>, s: seq<Piece>, home: seq<nat>, ar: Archive, n: nat, p: Piece, q: Piece)
    requires Produced(d, bufsize, blocks, own, s, home, ar) && ar.WellFormed() && n <= |ar.blocks|
    requires p in ar.Listed(n) && q in ar.Listed(n) && p != q
    ensures Apart(p, q)
  {
    hide Blocked, SortedBySource, AllApart, Matches, PassTwo, FutureList, Archive.WellFormed, CutList, TrueCopy, Archive.Listed, Belongs;
    MatchesBlocked(d, bufsize, blocks, s, home);
    var j, i := ListedPiece(d, bufsize, blocks, own, s, home, ar, n, p);
    var l, h := ListedPiece(d, bufsize, blocks, own, s, home, ar, n, q);
    if i != h {
      ApartAt(s, i, h);
    } else {
      if j < l { BlockOrder(d, bufsize, blocks, j, l); }
      if l < j { BlockOrder(d, bufsize, blocks, l, j); }
    }
  }

  /** Everything listed is among the pieces of the sorted matches. */
  lemma ListedWithin(d: seq<byte>, bufsize: u32, blocks: seq<PendingBlock>, own: seq<seq<Piece>>, s: seq<Piece>, home: seq<nat>, ar: Archive)
    requires Produced(d, bufsize, blocks, own, s, home, ar) && ar.WellFormed()
    ensures ar.Listed(|ar.blocks|) <= AllPieces(blocks, s)
  {
    hide Produced, Archive.WellFormed, Belongs, Archive.Listed;
    forall p | p in ar.Listed(|ar.blocks|) ensures p in AllPieces(blocks, s) {
      var k, i := ListedPiece(d, bufsize, blocks, own, s, home, ar, |ar.blocks|, p);
      assert PieceAt(blocks, s, k, i, p);
    }
  }

  /** The list written with each block, and where the block ends. */
  ghost function PieceLists(blocks: seq<PendingBlock>, s: seq<Piece>): (ls: seq<seq<Piece>>)
    ensures |ls| == |blocks|
  {
    seq(|blocks|, k requires 0 <= k < |blocks| =>
      if blocks[k].size > 0 then CutList(s, |s|, blocks[k].start, blocks[k].start + blocks[k].size) else [])
  }

  ghost function BlockEnds(blocks: seq<PendingBlock>): (es: seq<nat>)
    ensures |es| == |blocks|
  {
    seq(|blocks|, k requires 0 <= k < |blocks| => blocks[k].start + blocks[k].size)
  }

  /** They are those of the archive. */
  lemma ListsWritten(d: seq<byte>, bufsize: u32, blocks: seq<PendingBlock>, own: seq<seq<Piece>>, s: seq<Piece>, home: seq<nat>, ar: Archive)
    requires Produced(d, bufsize, blocks, own, s, home, ar) && ar.WellFormed() && |ar.blocks| == |blocks|
    ensures ar.Lists(|ar.blocks|) == PieceLists(blocks, s) && ar.Ends(|ar.blocks|) == BlockEnds(blocks)
  {
    hide Blocked, Matches, PassTwo, Archive.WellFormed, Archive.List, CutList;
    MatchesBlocked(d, bufsize, blocks, s, home);
    FormatFits(d, blocks, own, s, ar);
    forall k | 0 <= k < |blocks|
      ensures ar.Start(k) <= U64_MAX && ar.List(k) == PieceLists(blocks, s)[k] && ar.Start(k + 1) == BlockEnds(blocks)[k]
    {
      BlockFacts(d, bufsize, blocks, own, s, ar, k);
    }
  }

  /** The pieces that wait across the start of block `k`. */
  ghost function PendingPieces(blocks: seq<PendingBlock>, s: seq<Piece>, k: nat): set<Piece>
    requires k < |blocks|
  {
    set p | p in AllPieces(blocks, s) && p.src < blocks[k].start <= p.dest
  }

  /** They are what is pending in the decoder. */
  lemma PendingWithin(d: seq<byte>, bufsize: u32, blocks: seq<PendingBlock>, own: seq<seq<Piece>>, s: seq<Piece>, home: seq<nat>, ar: Archive, k: nat)
    requires Produced(d, bufsize, blocks, own, s, home, ar) && ar.WellFormed() && k < |blocks| == |ar.blocks|
    ensures PendingPieces(blocks, s, k) == ar.PendingAt(k)
  {
    hide Blocked, Matches, PassTwo, AllPieces, Archive.WellFormed, BlockWritten, Archive.Listed, Archive.List;
    MatchesBlocked(d, bufsize, blocks, s, home);
    BlockFacts(d, bufsize, blocks, own, s, ar, k);
    forall p | p in ar.PendingAt(k) ensures p in PendingPieces(blocks, s, k) {
      ListedBefore(d, bufsize, blocks, own, s, home, ar, k, p);
    }
    forall p | p in PendingPieces(blocks, s, k) ensures p in ar.Listed(k) {
      var j, i := PieceOrigin(blocks, s, p);
      PieceInside(d, bufsize, blocks, s, home, j, i, p);
      PieceEarlier(d, bufsize, blocks, s, k, j, i, p);
      PieceListed(d, bufsize, blocks, own, s, home, ar, j, i, p);
      ListedHas(ar, j, k, p);
    }
  }

  /** What is listed before block `k` is a piece with its source before it. */
  lemma ListedBefore(d: seq<byte>, bufsize: u32, blocks: seq<PendingBlock>, own: seq<seq<Piece>>, s: seq<Piece>, home: seq<nat>, ar: Archive,
      k: nat, p: Piece)
    requires Produced(d, bufsize, blocks, own, s, home, ar) && ar.WellFormed() && k < |blocks| == |ar.blocks| && p in ar.Listed(k)
    ensures p in AllPieces(blocks, s) && p.src < blocks[k].start
  {
    hide Blocked, Matches, PassTwo, AllPieces, Archive.WellFormed, BlockWritten, Archive.Listed, Archive.List, Cut, Meets, Belongs;
    MatchesBlocked(d, bufsize, blocks, s, home);
    var j, i := ListedPiece(d, bufsize, blocks, own, s, home, ar, k, p);
    BlockOrder(d, bufsize, blocks, j, k);
    PieceIs(blocks, s, j, i, p);
  }

  lemma PieceIs(blocks: seq<PendingBlock>, s: seq<Piece>, k: nat, i: nat, p: Piece)
    requires PieceAt(blocks, s, k, i, p)
    ensures p in AllPieces(blocks, s)
  {
    hide Cut, Meets;
  }

  /** Behind the last block nothing is pending. */
  lemma NonePending(d: seq<byte>, bufsize: u32, blocks: seq<PendingBlock>, own: seq<seq<Piece>>, s: seq<Piece>, home: seq<nat>, ar: Archive)
    requires Produced(d, bufsize, blocks, own, s, home, ar) && ar.WellFormed() && ar.Start(|ar.blocks|) == |d|
    ensures ar.PendingAt(|ar.blocks|) == {}
  {
    hide Blocked, Matches, PassTwo, Archive.WellFormed, BlockWritten, Archive.Listed, Archive.List, Cut, Meets, Belongs;
    forall p | p in ar.Listed(|ar.blocks|) ensures p.dest < |d| {
      var j, i := ListedPiece(d, bufsize, blocks, own, s, home, ar, |ar.blocks|, p);
      PieceInside(d, bufsize, blocks, s, home, j, i, p);
    }
  }

  lemma PieceEarlier(d: seq<byte>, bufsize: u32, blocks: seq<PendingBlock>, s: seq<Piece>, k: nat, j: nat, i: nat, p: Piece)
    requires Blocked(d, bufsize, blocks) && k < |blocks| && PieceAt(blocks, s, j, i, p) && blocks[j].start <= p.src < blocks[k].start
    ensures j < k
  {
    hide Blocked;
    if k < j { BlockOrder(d, bufsize, blocks, k, j); }
  }

  lemma PieceListed(d: seq<byte>, bufsize: u32, blocks: seq<PendingBlock>, own: seq<seq<Piece>>, s: seq<Piece>, home: seq<nat>, ar: Archive,
      j: nat, i: nat, p: Piece)
    requires Produced(d, bufsize, blocks, own, s, home, ar) && ar.WellFormed() && PieceAt(blocks, s, j, i, p) && |ar.blocks| == |blocks|
    ensures ar.Start(j) <= U64_MAX && p in ar.List(j)
  {
    hide Blocked, Matches, PassTwo, Archive.WellFormed, BlockWritten, CutList, Cut, Meets;
    MatchesBlocked(d, bufsize, blocks, s, home);
    BlockFacts(d, bufsize, blocks, own, s, ar, j);
    CutListHas(s, |s|, blocks[j].start, blocks[j].start + blocks[j].size, i);
  }

  /** Pieces due in the same block do not overlap. */
  lemma DueApart(d: seq<byte>, bufsize: u32, blocks: seq<PendingBlock>, own: seq<seq<Piece>>, s: seq<Piece>, home: seq<nat>, ar: Archive, k: nat, p: Piece, q: Piece)
    requires Produced(d, bufsize, blocks, own, s, home, ar) && ar.WellFormed() && k < |ar.blocks|
    requires p in ar.DueAt(k) && q in ar.DueAt(k) && p != q
    ensures Apart(p, q)
  {
    hide Produced, Archive.WellFormed, Archive.Listed;
    ListedApart(d, bufsize, blocks, own, s, home, ar, k + 1, p, q);
  }

  lemma ListedHas(ar: Archive, j: nat, n: nat, p: Piece)
    requires ar.WellFormed() && j < n <= |ar.blocks| && p in ar.List(j)
    ensures p in ar.Listed(n)
  {
    ar.ListedMonotone(j + 1, n);
    assert p in SetOf(ar.List(j));
  }

  /** Every byte of one of block `k`'s own matches lies in a piece due in the block. */
  lemma OwnCovered(d: seq<byte>, bufsize: u32, blocks: seq<PendingBlock>, own: seq<seq<Piece>>, s: seq<Piece>, home: seq<nat>, ar: Archive, k: nat, m: Piece, x: nat)
      returns (p: Piece)
    requires Produced(d, bufsize, blocks, own, s, home, ar) && ar.WellFormed() && k < |ar.blocks| == |blocks| == |own|
    requires m in own[k] && m.Contains(x) && blocks[k].start <= x < blocks[k].start + blocks[k].size
    ensures p in ar.DueAt(k) && p.Contains(x)
  {
    hide Blocked, SortedBySource, AllApart, Matches, PassTwo, FutureList, Archive.WellFormed, CutList, Cut, Meets;
    MatchesBlocked(d, bufsize, blocks, s, home);
    BlockFacts(d, bufsize, blocks, own, s, ar, k);
    var i :| 0 <= i < |s| && s[i] == m;
    HomeOf(d, bufsize, blocks, s, home, i);
    HomeBlock(d, bufsize, blocks, home[i], k, m, x);
    var y := x - (m.dest - m.src);
    var j := BlockOf(d, bufsize, blocks, k, y);
    BlockFacts(d, bufsize, blocks, own, s, ar, j);
    var lo, hi := blocks[j].start, blocks[j].start + blocks[j].size;
    CutContains(m, lo, hi, y);
    CutWithin(m, lo, hi);
    CutListHas(s, |s|, lo, hi, i);
    p := Cut(m, lo, hi);
    ListedHas(ar, j, k + 1, p);
  }

  lemma HomeOf(d: seq<byte>, bufsize: u32, blocks: seq<PendingBlock>, s: seq<Piece>, home: seq<nat>, i: nat)
    requires Matches(d, bufsize, blocks, s, home) && i < |s|
    ensures |home| == |s| && home[i] < |blocks| && Belongs(d, blocks[home[i]], s[i])
  {
    assert AtHome(d, blocks, s, home, i);
  }

  lemma DueCovers(d: seq<byte>, bufsize: u32, blocks: seq<PendingBlock>, own: seq<seq<Piece>>, s: seq<Piece>, home: seq<nat>, ar: Archive, k: nat, x: nat)
    requires Produced(d, bufsize, blocks, own, s, home, ar) && ar.WellFormed() && k < |ar.blocks| == |blocks| == |own|
    requires blocks[k].start <= x < blocks[k].start + blocks[k].size
    ensures Covered(ar.DueAt(k), x) <==> Covered(SetOf(own[k]), x)
  {
    hide Matches, PassTwo, Archive.WellFormed, Cut, Meets, Archive.DueAt, TrueCopy;
    if Covered(ar.DueAt(k), x) {
      var p :| p in ar.DueAt(k) && p.Contains(x);
      var j, i := DuePiece(d, bufsize, blocks, own, s, home, ar, k, p);
      assert s[i] in SetOf(own[k]) && s[i].Contains(x);
    }
    if Covered(SetOf(own[k]), x) {
      var m :| m in SetOf(own[k]) && m.Contains(x);
      var p := OwnCovered(d, bufsize, blocks, own, s, home, ar, k, m, x);
    }
  }

  /** Block `k` of the archive is in order and describes block `k` of the input. */
  lemma BlockDescribed(d: seq<byte>, bufsize: u32, blocks: seq<PendingBlock>, own: seq<seq<Piece>>, s: seq<Piece>, home: seq<nat>, ar: Archive, k: nat)
    requires Produced(d, bufsize, blocks, own, s, home, ar) && ar.WellFormed() && k < |ar.blocks| == |blocks| == |own|
    ensures ar.BlockOk(k) && ar.Start(k + 1) <= |d|
    ensures Decodes(d[..ar.Start(k + 1)], ar.Start(k), ar.DueAt(k), ar.blocks[k].literals)
  {
    hide Blocked, AllApart, Matches, PassTwo, FutureList, Archive.WellFormed, CutList, Cut, Meets, Archive.DueAt, Archive.List, TrueCopy, ListOk, Apart;
    MatchesBlocked(d, bufsize, blocks, s, home);
    BlockFacts(d, bufsize, blocks, own, s, ar, k);
    var lo, hi, due := ar.Start(k), ar.Start(k + 1), ar.DueAt(k);
    var e := d[..hi];
    MatchesForward(d, bufsize, blocks, s, home);
    CutListOk(s, lo, hi);
    forall x | lo <= x < hi ensures Covered(due, x) <==> Covered(SetOf(own[k]), x) {
      DueCovers(d, bufsize, blocks, own, s, home, ar, k, x);
    }
    LitsSameCover(e, lo, due, SetOf(own[k]));
    LitsCount(e, lo, due);
    forall p | p in due ensures lo <= p.dest && p.dest + p.len <= hi && TrueCopy(e, p) {
      var j, i := DuePiece(d, bufsize, blocks, own, s, home, ar, k, p);
      PrefixCopy(d, hi, p);
    }
    forall p, q | p in due && q in due && p != q ensures Apart(p, q) {
      DueApart(d, bufsize, blocks, own, s, home, ar, k, p, q);
    }
  }

  lemma MatchesForward(d: seq<byte>, bufsize: u32, blocks: seq<PendingBlock>, s: seq<Piece>, home: seq<nat>)
    requires Matches(d, bufsize, blocks, s, home)
    ensures forall i :: 0 <= i < |s| ==> s[i].len > 0 && s[i].src < s[i].dest
  {
    forall i | 0 <= i < |s| ensures s[i].len > 0 && s[i].src < s[i].dest {
      assert AtHome(d, blocks, s, home, i);
    }
  }

  /** What pass 2 writes describes the input. */
  lemma {:induction false} ArchiveDescribes(d: seq<byte>, bufsize: u32, blocks: seq<PendingBlock>, own: seq<seq<Piece>>, s: seq<Piece>, home: seq<nat>, ar: Archive, n: nat)
    requires Produced(d, bufsize, blocks, own, s, home, ar) && ar.WellFormed() && n <= |ar.blocks| == |blocks| == |own|
    ensures ar.Start(n) <= |d| && ar.Describes(d[..ar.Start(n)], n)
  {
    hide Produced, Archive.WellFormed, Decodes, Archive.BlockOk, Archive.DueAt;
    if n > 0 {
      ArchiveDescribes(d, bufsize, blocks, own, s, home, ar, n - 1);
      BlockDescribed(d, bufsize, blocks, own, s, home, ar, n - 1);
      ar.StartMonotone(n - 1, n);
      assert d[..ar.Start(n)][..ar.Start(n - 1)] == d[..ar.Start(n - 1)];
    }
  }
}
