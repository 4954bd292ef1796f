/** Pass 2 of the compressor: the match lists of pass 1 are decoded, sorted by source, cut
    at source-block boundaries and re-encoded block by block. */
module Compress {
  import opened Bytes
  import opened MatchModel
  import opened Records
  import opened FutureSpec
  import opened Cutting

  /** A block with the match list pass 1 found for it. */
  datatype PendingBlock = PendingBlock(start: u64, size: nat, stats: seq<u32>)

  // ---- pass-1 lists ----

  /** The matches of a pass-1 list: each record's destination counts from the end of the previous match. */
  function Pass1List(stat: seq<u32>, round: bool, base: u32, pos: u64): seq<Piece>
    requires round ==> base > 0
    decreases |stat|
  {
    if |stat| < StatsPerMatch(round) then []
    else
      var (lit, m) := DecodeLzMatch(stat, false, round, base, pos);
      [Piece(m.src, m.dest, m.len)] + Pass1List(stat[StatsPerMatch(round)..], round, base, (pos + lit + m.len) % W64)
  }

  /** Where match `i` may start. */
  function EndBefore(ps: seq<Piece>, lo: nat, i: nat): nat
    requires i <= |ps|
  {
    if i == 0 then lo else ps[i - 1].dest + ps[i - 1].len
  }

  /** The contract of the match finders: true copies of earlier data, in order and disjoint inside the block. */
  ghost predicate GoodList(d: seq<byte>, lo: nat, hi: nat, ps: seq<Piece>) {
    forall i :: 0 <= i < |ps| ==> GoodItem(d, lo, hi, ps, i)
  }

  ghost predicate GoodItem(d: seq<byte>, lo: nat, hi: nat, ps: seq<Piece>, i: nat)
    requires i < |ps|
  {
    ps[i].len > 0 && EndBefore(ps, lo, i) <= ps[i].dest && ps[i].dest + ps[i].len <= hi && TrueCopy(d, ps[i])
  }

  /** No stored length exceeds its 32-bit field. */
  predicate LengthsFit(stat: seq<u32>, round: bool, base: u32)
    decreases |stat|
  {
    |stat| < StatsPerMatch(round) ||
    (StoredLength(stat, round, base) < W32 && LengthsFit(stat[StatsPerMatch(round)..], round, base))
  }

  /** The length field of the first record, before any wrapping. */
  function StoredLength(stat: seq<u32>, round: bool, base: u32): nat
    requires |stat| >= StatsPerMatch(round)
  {
    Scale(stat[StatsPerMatch(round) - 1], if round then base else 1) + base
  }

  /** `ps[n..]` is what the words from `cur` on hold, at position `pos`. */
  ghost predicate Reading1(stat: seq<u32>, round: bool, base: u32, start: u64, cur: nat, n: nat, pos: u64)
    requires round ==> base > 0
  {
    var ps := Pass1List(stat, round, base, start);
    && cur <= |stat| && n <= |ps| && ps[n..] == Pass1List(stat[cur..], round, base, pos)
    && LengthsFit(stat[cur..], round, base)
  }

  lemma DecodeFields(stat: seq<u32>, round: bool, base: u32, pos: u64)
    requires (round ==> base > 0) && |stat| >= StatsPerMatch(round)
    ensures var (lit, m) := DecodeLzMatch(stat, false, round, base, pos);
            && lit == stat[0] && m.dest == (pos + lit) % W64
            && (StoredLength(stat, round, base) < W32 ==> m.len == StoredLength(stat, round, base))
  {
  }

  lemma FitsCons(stat: seq<u32>, round: bool, base: u32)
    requires LengthsFit(stat, round, base) && |stat| >= StatsPerMatch(round)
    ensures StoredLength(stat, round, base) < W32 && LengthsFit(stat[StatsPerMatch(round)..], round, base)
  {
  }

  lemma ListCons(stat: seq<u32>, round: bool, base: u32, pos: u64)
    requires (round ==> base > 0) && |stat| >= StatsPerMatch(round)
    ensures var (lit, m) := DecodeLzMatch(stat, false, round, base, pos);
            Pass1List(stat, round, base, pos)
            == [Piece(m.src, m.dest, m.len)] + Pass1List(stat[StatsPerMatch(round)..], round, base, (pos + lit + m.len) % W64)
  {
    hide DecodeLzMatch;
  }

  lemma Reading1Next(stat: seq<u32>, round: bool, base: u32, start: u64, cur: nat, n: nat, pos: u64)
    requires (round ==> base > 0) && Reading1(stat, round, base, start, cur, n, pos) && |stat| - cur >= StatsPerMatch(round)
    ensures var ps := Pass1List(stat, round, base, start);
            var (lit, m) := DecodeLzMatch(stat[cur..], false, round, base, pos);
            && n < |ps| && ps[n] == Piece(m.src, m.dest, m.len) && ps[..n + 1] == ps[..n] + [ps[n]]
            && m.dest == (pos + lit) % W64
            && m.len == StoredLength(stat[cur..], round, base)
            && lit == stat[cur]
            && Reading1(stat, round, base, start, cur + StatsPerMatch(round), n + 1, (pos + lit + m.len) % W64)
  {
    hide DecodeLzMatch, StoredLength, Pass1List, LengthsFit;
    DecodeFields(stat[cur..], round, base, pos);
    ListCons(stat[cur..], round, base, pos);
    FitsCons(stat[cur..], round, base);
    hide StatsPerMatch;
    var ps, spp := Pass1List(stat, round, base, start), StatsPerMatch(round);
    var (lit, m) := DecodeLzMatch(stat[cur..], false, round, base, pos);
    assert stat[cur..][spp..] == stat[cur + spp..];
    SuffixCons(ps, n, Piece(m.src, m.dest, m.len), Pass1List(stat[cur + spp..], round, base, (pos + lit + m.len) % W64));
  }

  lemma Reading1End(stat: seq<u32>, round: bool, base: u32, start: u64, cur: nat, n: nat, pos: u64)
    requires (round ==> base > 0) && Reading1(stat, round, base, start, cur, n, pos) && |stat| - cur < StatsPerMatch(round)
    ensures n == |Pass1List(stat, round, base, start)|
  {
  }

  lemma Unwrapped(pos: u64, lit: u32, dest: u64, len: nat, hi: u64)
    requires dest == (pos + lit) % W64 && pos <= dest && dest + len <= hi
    ensures dest == pos + lit && (pos + lit + len) % W64 == dest + len
  {
  }

  /** The next record of a good list is its next match, without wrapping. */
  lemma NextMatch(stat: seq<u32>, round: bool, base: u32, d: seq<byte>, lo: u64, hi: u64, cur: nat, n: nat, pos: u64)
    requires (round ==> base > 0) && Reading1(stat, round, base, lo, cur, n, pos) && |stat| - cur >= StatsPerMatch(round)
    requires GoodList(d, lo, hi, Pass1List(stat, round, base, lo)) && pos == EndBefore(Pass1List(stat, round, base, lo), lo, n)
    ensures var ps, (lit, m) := Pass1List(stat, round, base, lo), DecodeLzMatch(stat[cur..], false, round, base, pos);
            && n < |ps| && ps[n] == Piece(m.src, m.dest, m.len) && ps[..n + 1] == ps[..n] + [ps[n]]
            && lit == stat[cur] && m.dest == pos + lit && m.len == StoredLength(stat[cur..], round, base)
            && 0 < m.len && m.dest + m.len <= hi && TrueCopy(d, ps[n])
            && Reading1(stat, round, base, lo, cur + StatsPerMatch(round), n + 1, m.dest + m.len)
  {
    hide GoodList, Pass1List, LengthsFit, Reading1, TrueCopy, StoredLength, DecodeLzMatch, StatsPerMatch, EndBefore;
    Reading1Next(stat, round, base, lo, cur, n, pos);
    GoodAt(d, lo, hi, Pass1List(stat, round, base, lo), n);
    var (lit, m) := DecodeLzMatch(stat[cur..], false, round, base, pos);
    Unwrapped(pos, lit, m.dest, m.len, hi);
  }

  lemma LengthWord(stat: seq<u32>, round: bool, base: u32, cur: nat)
    requires cur + StatsPerMatch(round) <= |stat|
    ensures stat[cur + StatsPerMatch(round) - 1] * (if round then base else 1) + base == StoredLength(stat[cur..], round, base)
  {
  }

  /** The bytes outside the matches, in order. */
  method ExtractLiterals(block: seq<byte>, stats: seq<u32>, round: bool, base: u32, ghost d: seq<byte>, ghost lo: u64)
      returns (out: seq<byte>)
    requires (round ==> base > 0) && LengthsFit(stats, round, base)
    requires lo + |block| <= |d| <= W64 - W32 && d[lo..lo + |block|] == block
    requires GoodList(d, lo, lo + |block|, Pass1List(stats, round, base, lo))
    ensures Decodes(d[..lo + |block|], lo, SetOf(Pass1List(stats, round, base, lo)), out)
  {
    hide Reading1, Pass1List, Decodes, LengthsFit, GoodList, DecodeLzMatch, StoredLength, TrueCopy;
    ghost var ps := Pass1List(stats, round, base, lo);
    out := [];
    var cursor, cur := 0, 0;
    ghost var n := 0;
    ExtractStart(stats, round, base, d, lo);
    while |stats| - cur >= StatsPerMatch(round)
      invariant cur <= |stats| && 0 <= cursor <= |block| && n <= |ps|
      invariant Reading1(stats, round, base, lo, cur, n, lo + cursor)
      invariant lo + cursor == EndBefore(ps, lo, n)
      invariant Decodes(d[..lo + cursor], lo, SetOf(ps[..n]), out)
      decreases |stats| - cur
    {
      NextMatch(stats, round, base, d, lo, lo + |block|, cur, n, lo + cursor);
      LengthWord(stats, round, base, cur);
      var lit := stats[cur];
      var lenWord := if round then stats[cur + 2] else stats[cur + 3];
      var len := lenWord * (if round then base else 1) + base;
      ExtractStep(d, lo, ps, n, cursor, lit, out);
      SubSlice(d, lo, block, cursor, lit);
      out := out + block[cursor..cursor + lit];
      cursor := cursor + lit + len;
      cur := cur + StatsPerMatch(round);
      n := n + 1;
    }
    Reading1End(stats, round, base, lo, cur, n, lo + cursor);
    assert ps[..n] == ps;
    AppendLits(d[..lo + cursor], lo, SetOf(ps), out, block[cursor..]);
    assert d[..lo + cursor] + block[cursor..] == d[..lo + |block|];
    out := out + block[cursor..];
  }

  lemma ExtractStart(stat: seq<u32>, round: bool, base: u32, d: seq<byte>, lo: u64)
    requires (round ==> base > 0) && LengthsFit(stat, round, base) && lo <= |d|
    ensures Reading1(stat, round, base, lo, 0, 0, lo)
    ensures Decodes(d[..lo + 0], lo, SetOf(Pass1List(stat, round, base, lo)[..0]), [])
  {
    assert stat[0..] == stat;
    assert Lits(d[..lo], lo, {}) == [];
  }

  lemma GoodAt(d: seq<byte>, lo: nat, hi: nat, ps: seq<Piece>, i: nat)
    requires GoodList(d, lo, hi, ps) && i < |ps|
    ensures ps[i].len > 0 && EndBefore(ps, lo, i) <= ps[i].dest && ps[i].dest + ps[i].len <= hi && TrueCopy(d, ps[i])
  {
    assert GoodItem(d, lo, hi, ps, i);
  }

  lemma ExtractStep(d: seq<byte>, lo: nat, ps: seq<Piece>, n: nat, cursor: nat, lit: nat, out: seq<byte>)
    requires n < |ps| && lo + cursor <= |d| && Decodes(d[..lo + cursor], lo, SetOf(ps[..n]), out)
    requires ps[n].dest == lo + cursor + lit && TrueCopy(d, ps[n])
    ensures Decodes(d[..lo + cursor + lit + ps[n].len], lo, SetOf(ps[..n + 1]), out + d[lo + cursor..lo + cursor + lit])
  {
    var p, a := ps[n], lo + cursor;
    CopyInside(d, p);
    hide Decodes, TrueCopy, SetOf;
    LiteralsTo(d, lo, SetOf(ps[..n]), out, a, a + lit);
    MatchTo(d, lo, SetOf(ps[..n]), out + d[a..a + lit], p);
    assert ps[..n + 1] == ps[..n] + [p];
    SetOfAppend(ps[..n], p);
  }

  lemma CopyInside(d: seq<byte>, p: Piece)
    requires TrueCopy(d, p)
    ensures p.dest + p.len <= |d|
  {
  }

  /** The bytes from `a` to `b` taken as literals. */
  lemma LiteralsTo(d: seq<byte>, lo: nat, ps: set<Piece>, out: seq<byte>, a: nat, b: nat)
    requires a <= b <= |d| && Decodes(d[..a], lo, ps, out)
    ensures Decodes(d[..b], lo, ps, out + d[a..b])
  {
    hide Decodes;
    AppendLits(d[..a], lo, ps, out, d[a..b]);
    assert d[..a] + d[a..b] == d[..b];
  }

  /** The bytes of `p` taken as a match. */
  lemma MatchTo(d: seq<byte>, lo: nat, ps: set<Piece>, out: seq<byte>, p: Piece)
    requires TrueCopy(d, p) && p.dest <= |d| && Decodes(d[..p.dest], lo, ps, out)
    ensures p.dest + p.len <= |d| && Decodes(d[..p.dest + p.len], lo, ps + {p}, out)
  {
    var end := p.dest + p.len;
    PrefixCopy(d, end, p);
    hide Decodes, TrueCopy;
    assert d[..p.dest] + d[p.dest..end] == d[..end];
    AppendPiece(d[..p.dest], lo, ps, out, p, d[p.dest..end]);
  }

  // ---- gathering the matches ----

  /** Where the first `k` blocks end. */
  function BlocksEnd(blocks: seq<PendingBlock>, k: nat): nat
    requires k <= |blocks|
  {
    if k == 0 then 0 else blocks[k - 1].start + blocks[k - 1].size
  }

  /** The blocks tile the input, all but the last of full size. */
  ghost predicate Blocked(d: seq<byte>, bufsize: u32, blocks: seq<PendingBlock>) {
    && (forall k :: 0 <= k < |blocks| ==>
          && 0 < blocks[k].size <= bufsize
          && blocks[k].start == BlocksEnd(blocks, k)
          && (k + 1 < |blocks| ==> blocks[k].size == bufsize))
    && |d| == BlocksEnd(blocks, |blocks|)
  }

  lemma BlockAt(d: seq<byte>, bufsize: u32, blocks: seq<PendingBlock>, k: nat)
    requires Blocked(d, bufsize, blocks) && k < |blocks|
    ensures blocks[k].start == BlocksEnd(blocks, k) && 0 < blocks[k].size <= bufsize
    ensures k + 1 < |blocks| ==> blocks[k].size == bufsize
  {
  }

  lemma {:induction false} BlockInside(d: seq<byte>, bufsize: u32, blocks: seq<PendingBlock>, k: nat)
    requires Blocked(d, bufsize, blocks) && k < |blocks|
    ensures blocks[k].start + blocks[k].size <= |d|
    decreases |blocks| - k
  {
    if k + 1 < |blocks| { BlockInside(d, bufsize, blocks, k + 1); }
  }

  /** Later blocks start no earlier than earlier ones end. */
  lemma {:induction false} BlockOrder(d: seq<byte>, bufsize: u32, blocks: seq<PendingBlock>, j: nat, k: nat)
    requires Blocked(d, bufsize, blocks) && j < k < |blocks|
    ensures blocks[j].start + blocks[j].size <= blocks[k].start
  {
    hide Blocked;
    BlockAt(d, bufsize, blocks, k);
    BlockAt(d, bufsize, blocks, k - 1);
    if j < k - 1 { BlockOrder(d, bufsize, blocks, j, k - 1); }
  }

  /** Every position of the input lies in a block. */
  lemma {:induction false} BlockOf(d: seq<byte>, bufsize: u32, blocks: seq<PendingBlock>, n: nat, x: nat) returns (k: nat)
    requires Blocked(d, bufsize, blocks) && n < |blocks| && x < blocks[n].start + blocks[n].size
    ensures k <= n && blocks[k].start <= x < blocks[k].start + blocks[k].size
  {
    hide Blocked;
    BlockAt(d, bufsize, blocks, n);
    if x >= blocks[n].start {
      k := n;
    } else {
      k := BlockOf(d, bufsize, blocks, n - 1, x);
    }
  }

  /** What pass 1 hands over for the input `d`. */
  ghost predicate GoodInput(d: seq<byte>, bufsize: u32, blocks: seq<PendingBlock>, round: bool, base: u32) {
    && |d| <= W64 - W32 && (round ==> base > 0)
    && Blocked(d, bufsize, blocks)
    && (forall k :: 0 <= k < |blocks| ==> GoodBlock(d, blocks[k], round, base))
  }

  ghost predicate GoodBlock(d: seq<byte>, b: PendingBlock, round: bool, base: u32)
    requires round ==> base > 0
  {
    && LengthsFit(b.stats, round, base)
    && GoodList(d, b.start, b.start + b.size, Pass1List(b.stats, round, base, b.start))
  }

  /** The matches of the first `n` blocks, in block order. */
  ghost function Gathered(blocks: seq<PendingBlock>, n: nat, round: bool, base: u32): seq<Piece>
    requires n <= |blocks| && (round ==> base > 0)
  {
    if n == 0 then []
    else Gathered(blocks, n - 1, round, base) + Pass1List(blocks[n - 1].stats, round, base, blocks[n - 1].start)
  }

  /** Decode one pass-1 list. */
  method DecodeList(b: PendingBlock, round: bool, base: u32, ghost d: seq<byte>) returns (m: seq<Piece>)
    requires (round ==> base > 0) && GoodBlock(d, b, round, base) && b.start + b.size <= |d| <= W64 - W32
    ensures m == Pass1List(b.stats, round, base, b.start)
  {
    hide Reading1, Pass1List, LengthsFit, GoodList, DecodeLzMatch;
    ghost var ps := Pass1List(b.stats, round, base, b.start);
    m := [];
    var blockPos, cur := b.start, 0;
    ghost var n := 0;
    ExtractStart(b.stats, round, base, d, b.start);
    while |b.stats| - cur >= StatsPerMatch(round)
      invariant cur <= |b.stats| && b.start <= blockPos <= b.start + b.size && n <= |ps|
      invariant Reading1(b.stats, round, base, b.start, cur, n, blockPos) && blockPos == EndBefore(ps, b.start, n)
      invariant m == ps[..n]
      decreases |b.stats| - cur
    {
      NextMatch(b.stats, round, base, d, b.start, b.start + b.size, cur, n, blockPos);
      var (lit, mm) := DecodeLzMatch(b.stats[cur..], false, round, base, blockPos);
      cur := cur + StatsPerMatch(round);
      m := m + [Piece(mm.src, mm.dest, mm.len)];
      blockPos := blockPos + lit + mm.len;
      n := n + 1;
    }
    Reading1End(b.stats, round, base, b.start, cur, n, blockPos);
    assert ps[..n] == ps;
  }

  // ---- writing the list of one block ----

  lemma DecodePrefix(s: seq<u32>, t: seq<u32>, pos: u64)
    requires |s| >= 4
    ensures DecodeLzMatch(s + t, true, false, 0, pos) == DecodeLzMatch(s, true, false, 0, pos)
  {
  }

  lemma PreviousCons(p: Piece, qs: seq<Piece>, pos: nat)
    ensures Previous([p] + qs, pos, 1 + |qs|) == Previous(qs, p.src, |qs|)
  {
  }

  /** Appending a record appends its match. */
  lemma {:induction false} FutureAppend(s: seq<u32>, pos: u64, lit: u32, offset: u64, len: u32)
    requires |s| % 4 == 0
    requires var ps := FutureList(s, false, 0, pos); Previous(ps, pos, |ps|) + lit + offset < W64
    ensures var ps := FutureList(s, false, 0, pos);
            var src := Previous(ps, pos, |ps|) + lit;
            FutureList(s + EncodeLzMatch(false, 0, lit, offset, len), false, 0, pos) == ps + [Piece(src, src + offset, len)]
    decreases |s|
  {
    hide DecodeLzMatch, EncodeLzMatch, FutureList;
    var rec := EncodeLzMatch(false, 0, lit, offset, len);
    if s == [] {
      assert s + rec == rec;
      OneRecord(pos, lit, offset, len);
    } else {
      DecodePrefix(s, rec, pos);
      FirstOfList(s, pos);
      FirstOfList(s + rec, pos);
      var m := DecodeLzMatch(s, true, false, 0, pos).1;
      var qs := FutureList(s[4..], false, 0, m.src);
      PreviousCons(Piece(m.src, m.dest, m.len), qs, pos);
      FutureAppend(s[4..], m.src, lit, offset, len);
      assert (s + rec)[4..] == s[4..] + rec;
    }
  }

  lemma FirstOfList(s: seq<u32>, pos: u64)
    requires |s| >= 4
    ensures var m := DecodeLzMatch(s, true, false, 0, pos).1;
            FutureList(s, false, 0, pos) == [Piece(m.src, m.dest, m.len)] + FutureList(s[4..], false, 0, m.src)
  {
    hide DecodeLzMatch;
  }

  lemma OneRecord(pos: u64, lit: u32, offset: u64, len: u32)
    ensures FutureList([], false, 0, pos) == []
    ensures pos + lit + offset < W64 ==>
      FutureList(EncodeLzMatch(false, 0, lit, offset, len), false, 0, pos) == [Piece(pos + lit, pos + lit + offset, len)]
  {
    PlainRoundTrip(0, lit, offset, len, pos);
    hide DecodeLzMatch;
    var rec := EncodeLzMatch(false, 0, lit, offset, len);
    assert |rec| == 4 && rec[4..] == [];
    hide EncodeLzMatch;
  }

  /** Whole records take four words each. */
  lemma {:induction false} FutureWords(s: seq<u32>, pos: u64)
    requires |s| % 4 == 0
    ensures |s| == 4 * |FutureList(s, false, 0, pos)|
    decreases |s|
  {
    if s != [] {
      var m := DecodeLzMatch(s, true, false, 0, pos).1;
      hide DecodeLzMatch;
      FutureWords(s[4..], m.src);
    }
  }

  /** The sorted matches with the sentinel behind them. */
  ghost predicate WithSentinel(m: seq<Piece>, bufsize: u32, origsize: nat) {
    && m != [] && m[|m| - 1].src == origsize < W64
    && SortedBySource(m[..|m| - 1])
    && forall i :: 0 <= i < |m| - 1 ==> MatchFits(m[i], bufsize, origsize)
  }

  predicate MatchFits(p: Piece, bufsize: u32, origsize: nat) {
    0 < p.len <= bufsize && p.src < p.dest && p.dest + p.len <= origsize
  }

  /** All matches before `cursor` have been left behind at `pos`. */
  ghost predicate Behind(m: seq<Piece>, cursor: nat, pos: nat)
    requires cursor <= |m|
  {
    forall j :: 0 <= j < cursor ==> Expired(m[j], pos)
  }

  /** The list of a block and the piece last written. */
  ghost predicate Written(list: seq<u32>, m: seq<Piece>, cursor: nat, lo: u64, hi: nat, blockpos: nat)
    requires 0 < |m| && cursor <= |m| - 1 && lo < hi
  {
    var ps := FutureList(list, false, 0, lo);
    |list| % 4 == 0 && ps == CutList(m[..|m| - 1], cursor, lo, hi) && blockpos == Previous(ps, lo, |ps|)
  }

  lemma WrittenStart(m: seq<Piece>, cursor: nat, lo: u64, hi: nat)
    requires 0 < |m| && cursor <= |m| - 1 && lo < hi && Behind(m, cursor, lo)
    ensures Written([], m, cursor, lo, hi, lo)
  {
    CutListSkip(m[..|m| - 1], 0, cursor, lo, hi);
  }

  lemma WrittenSkip(list: seq<u32>, m: seq<Piece>, cursor: nat, lo: u64, hi: nat, blockpos: nat)
    requires 0 < |m| && cursor < |m| - 1 && lo < hi && Written(list, m, cursor, lo, hi, blockpos) && Expired(m[cursor], lo)
    ensures Written(list, m, cursor + 1, lo, hi, blockpos)
  {
  }

  lemma WrittenSources(list: seq<u32>, m: seq<Piece>, cursor: nat, lo: u64, hi: nat, blockpos: nat, bufsize: u32, origsize: nat)
    requires WithSentinel(m, bufsize, origsize) && cursor < |m| - 1 && lo < hi && Written(list, m, cursor, lo, hi, blockpos)
    ensures lo <= blockpos <= Max(m[cursor].src, lo)
  {
    var s := m[..|m| - 1];
    CutListAt(s, cursor, lo, hi);
    var f := CutFrom(s, cursor, lo, hi);
    if f != [] {
      assert f[|f| - 1] < cursor && s[f[|f| - 1]].src <= s[cursor].src;
    }
  }

  lemma WrittenNext(list: seq<u32>, m: seq<Piece>, cursor: nat, lo: u64, hi: nat, blockpos: nat, lit: u32, offset: u64, len: u32)
    requires 0 < |m| && cursor < |m| - 1 && lo < hi && Written(list, m, cursor, lo, hi, blockpos)
    requires Meets(m[cursor], lo, hi)
    requires var p := Cut(m[cursor], lo, hi);
             p.src == blockpos + lit && p.dest == p.src + offset && p.len == len && p.dest < W64
    ensures Written(list + EncodeLzMatch(false, 0, lit, offset, len), m, cursor + 1, lo, hi, blockpos + lit)
  {
    hide FutureList, EncodeLzMatch;
    FutureAppend(list, lo, lit, offset, len);
  }

  lemma WrittenEnd(list: seq<u32>, m: seq<Piece>, cursor: nat, lo: u64, hi: nat, blockpos: nat, bufsize: u32, origsize: nat)
    requires WithSentinel(m, bufsize, origsize) && cursor <= |m| - 1 && lo < hi && Written(list, m, cursor, lo, hi, blockpos)
    requires m[cursor].src >= hi
    ensures FutureList(list, false, 0, lo) == CutList(m[..|m| - 1], |m| - 1, lo, hi)
    ensures |list| == 4 * |CutList(m[..|m| - 1], |m| - 1, lo, hi)|
  {
    FutureWords(list, lo);
    var s := m[..|m| - 1];
    forall i | cursor <= i < |s| ensures !Meets(s[i], lo, hi) {
      assert s[cursor].src <= s[i].src;
    }
    CutListSkip(s, cursor, |s|, lo, hi);
  }

  /** When the next block starts a full buffer later, everything before the rewind point has expired. */
  lemma RewindBehind(m: seq<Piece>, cursor0: nat, saved: nat, lo: nat, hi: nat, bufsize: u32, origsize: nat)
    requires WithSentinel(m, bufsize, origsize) && cursor0 <= saved <= |m| - 1 && Behind(m, cursor0, lo) && lo <= hi
    requires saved > cursor0 ==> saved < |m| - 1 && Expired(m[saved], lo)
    requires hi - lo == bufsize
    ensures Behind(m, saved, hi)
  {
    var s := m[..|m| - 1];
    if saved > cursor0 {
      forall i | 0 <= i < |s| ensures s[i].len <= hi - lo && 0 < s[i].len {
        assert MatchFits(m[i], bufsize, origsize);
      }
      RewindEnough(s, lo, hi, saved);
      forall j | 0 <= j < saved ensures Expired(m[j], hi) {
        assert Expired(s[j], hi);
      }
    }
  }

  /** Write the match list of one block, from the cursor the previous block left. No match is
      missed, although the cursor rewinds only to the last expired match. */
  method EncodeBlock(m: seq<Piece>, cursor0: nat, blockStart: u64, blockEnd: nat, ghost bufsize: u32, ghost origsize: nat)
      returns (list: seq<u32>, cursor: nat)
    requires WithSentinel(m, bufsize, origsize) && cursor0 <= |m| - 1 && Behind(m, cursor0, blockStart)
    requires blockStart < blockEnd <= origsize && blockEnd - blockStart <= bufsize
    ensures FutureList(list, false, 0, blockStart) == CutList(m[..|m| - 1], |m| - 1, blockStart, blockEnd)
    ensures |list| == 4 * |CutList(m[..|m| - 1], |m| - 1, blockStart, blockEnd)|
    ensures cursor <= |m| - 1
    ensures blockEnd - blockStart == bufsize ==> Behind(m, cursor, blockEnd)
  {
    hide Written, Behind, FutureList, EncodeLzMatch;
    list, cursor := [], cursor0;
    var blockpos: nat, saved: nat := blockStart, cursor;
    WrittenStart(m, cursor, blockStart, blockEnd);
    while m[cursor].src < blockEnd
      invariant cursor0 <= saved <= cursor <= |m| - 1
      invariant saved > cursor0 ==> saved < |m| - 1 && Expired(m[saved], blockStart)
      invariant Written(list, m, cursor, blockStart, blockEnd, blockpos)
      decreases |m| - cursor
    {
      assert cursor < |m| - 1 && MatchFits(m[cursor], bufsize, origsize);
      if m[cursor].src + m[cursor].len <= blockStart {
        WrittenSkip(list, m, cursor, blockStart, blockEnd, blockpos);
        saved := cursor;
        cursor := cursor + 1;
        continue;
      }
      WrittenSources(list, m, cursor, blockStart, blockEnd, blockpos, bufsize, origsize);
      var src := Max(m[cursor].src, blockStart);
      var len := m[cursor].len - (src - m[cursor].src);
      len := Min(len, blockEnd - src);
      WrittenNext(list, m, cursor, blockStart, blockEnd, blockpos, src - blockpos, m[cursor].dest - m[cursor].src, len);
      list := list + EncodeLzMatch(false, 0, src - blockpos, m[cursor].dest - m[cursor].src, len);
      blockpos := src;
      cursor := cursor + 1;
    }
    WrittenEnd(list, m, cursor, blockStart, blockEnd, blockpos, bufsize, origsize);
    if blockEnd - blockStart == bufsize {
      RewindBehind(m, cursor0, saved, blockStart, blockEnd, bufsize, origsize);
    }
    cursor := saved;
  }
}
