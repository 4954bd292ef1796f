/** Matches found beforehand by the dictionary compressor, as the scan of a block reads and
    takes them over. */
module EarlierMatches {
  import opened Bytes
  import opened MatchModel
  import opened Records
  import opened WideArithmetic
  import opened Compress
  import opened Recording
  import opened ScanModel

  /** The record that stops the reading of earlier matches: it starts behind the block. */
  function Fence(s: Scan): (r: seq<u32>)
    requires s.Ok()
    ensures |r| == StatsPerMatch(s.round)
  {
    EncodeLzMatch(s.round, s.baseLen, s.blockSize + 1, s.baseLen, s.baseLen)
  }

  /** A finished list of matches of the block. */
  ghost predicate RepOk(s: Scan, rep: seq<u32>)
    requires s.Ok()
  {
    && WholeRecords(|rep|, s.round) && LengthsFit(rep, s.round, s.baseLen) && (s.round ==> rep == [])
    && GoodList(s.d, s.blockStart, s.blockStart + s.blockSize, Pass1List(rep, s.round, s.baseLen, s.blockStart))
  }

  /** The match being waited for, and where reading goes on. */
  datatype Waiting = Waiting(cur: nat, start: u64, len: u32, offset: u64)

  ghost predicate AtMatch(s: Scan, rep: seq<u32>, n: nat, w: Waiting)
    requires s.Ok()
  {
    var ps := Pass1List(rep, s.round, s.baseLen, s.blockStart);
    && n <= |ps|
    && if n == |ps| then w.start > s.blockSize
       else
         && s.blockStart + w.start == ps[n].dest && s.baseLen <= w.len == ps[n].len && ps[n].dest - ps[n].src == w.offset
         && s.blockStart + w.start + w.len <= s.blockStart + s.blockSize
         && w.cur <= |rep| && WholeRecords(|rep| - w.cur, s.round)
         && Reading1(rep, s.round, s.baseLen, s.blockStart, w.cur, n + 1, s.blockStart + w.start + w.len)
  }

  function ReadWaiting(s: Scan, inStats: seq<u32>, cur: nat, pos: u64): Waiting
    requires s.Ok() && cur + StatsPerMatch(s.round) <= |inStats|
  {
    var m := DecodeLzMatch(inStats[cur..], false, s.round, s.baseLen, pos).1;
    Waiting(cur + StatsPerMatch(s.round), (m.dest - s.blockStart) % W64, m.len, (m.dest - m.src) % W64)
  }

  /** Reading the next record gives the next match, or the fence once all are read. */
  lemma ReadNext(s: Scan, rep: seq<u32>, inStats: seq<u32>, cur: nat, n: nat, pos: u64)
    requires s.Ok() && RepOk(s, rep) && inStats == rep + Fence(s) && cur <= |rep| && WholeRecords(|rep| - cur, s.round)
    requires Reading1(rep, s.round, s.baseLen, s.blockStart, cur, n, pos) && s.blockStart <= pos <= s.blockStart + s.blockSize
    requires pos == EndBefore(Pass1List(rep, s.round, s.baseLen, s.blockStart), s.blockStart, n)
    ensures cur + StatsPerMatch(s.round) <= |inStats| && AtMatch(s, rep, n, ReadWaiting(s, inStats, cur, pos))
  {
    Bounds(s);
    if cur == |rep| {
      hide *;
      ReadFence(s, rep, n, pos);
    } else {
      ReadEarlier(s, rep, cur, n, pos);
    }
  }

  lemma ReadEarlier(s: Scan, rep: seq<u32>, cur: nat, n: nat, pos: u64)
    requires s.Ok() && RepOk(s, rep) && cur < |rep| && WholeRecords(|rep| - cur, s.round)
    requires Reading1(rep, s.round, s.baseLen, s.blockStart, cur, n, pos) && s.blockStart <= pos <= s.blockStart + s.blockSize
    requires pos == EndBefore(Pass1List(rep, s.round, s.baseLen, s.blockStart), s.blockStart, n)
    ensures cur + StatsPerMatch(s.round) <= |rep| && AtMatch(s, rep, n, ReadWaiting(s, rep + Fence(s), cur, pos))
  {
    hide Scan.Ok, GoodList, LengthsFit, Pass1List, WholeRecords, Reading1, RepOk, EndBefore, StatsPerMatch, AtMatch, ReadWaiting, Fence;
    OneLess(|rep| - cur, s.round);
    SameWaiting(s, rep, Fence(s), cur, pos);
    ReadMatch(s, rep, cur, n, pos);
  }

  lemma SameWaiting(s: Scan, rep: seq<u32>, more: seq<u32>, cur: nat, pos: u64)
    requires s.Ok() && cur + StatsPerMatch(s.round) <= |rep|
    ensures ReadWaiting(s, rep + more, cur, pos) == ReadWaiting(s, rep, cur, pos)
  {
    Bounds(s);
    hide Scan.Ok, DecodeLzMatch;
    assert (rep + more)[cur..] == rep[cur..] + more;
    FirstRecord(rep[cur..], more, s.round, s.baseLen, pos);
  }

  lemma ReadFence(s: Scan, rep: seq<u32>, n: nat, pos: u64)
    requires s.Ok() && s.blockStart <= pos <= s.blockStart + s.blockSize
    requires Reading1(rep, s.round, s.baseLen, s.blockStart, |rep|, n, pos)
    ensures AtMatch(s, rep, n, ReadWaiting(s, rep + Fence(s), |rep|, pos))
  {
    Bounds(s);
    hide Scan.Ok, Fence, LengthsFit, DecodeLzMatch;
    Reading1End(rep, s.round, s.baseLen, s.blockStart, |rep|, n, pos);
    hide Pass1List;
    assert (rep + Fence(s))[|rep|..] == Fence(s);
    FenceBehind(s, pos);
  }

  lemma ReadMatch(s: Scan, rep: seq<u32>, cur: nat, n: nat, pos: u64)
    requires s.Ok() && RepOk(s, rep) && cur + StatsPerMatch(s.round) <= |rep| && WholeRecords(|rep| - cur, s.round)
    requires Reading1(rep, s.round, s.baseLen, s.blockStart, cur, n, pos) && s.blockStart <= pos <= s.blockStart + s.blockSize
    requires pos == EndBefore(Pass1List(rep, s.round, s.baseLen, s.blockStart), s.blockStart, n)
    ensures AtMatch(s, rep, n, ReadWaiting(s, rep, cur, pos))
  {
    hide Scan.Ok, GoodList, LengthsFit, Pass1List, WholeRecords, Reading1, RepOk, EndBefore, StatsPerMatch, AtMatch, ReadWaiting;
    OneLess(|rep| - cur, s.round);
    WaitingIs(s, rep, cur, n, pos);
  }

  lemma WaitingIs(s: Scan, rep: seq<u32>, cur: nat, n: nat, pos: u64)
    requires s.Ok() && RepOk(s, rep) && cur + StatsPerMatch(s.round) <= |rep| && WholeRecords(|rep| - cur - StatsPerMatch(s.round), s.round)
    requires Reading1(rep, s.round, s.baseLen, s.blockStart, cur, n, pos) && s.blockStart <= pos <= s.blockStart + s.blockSize
    requires pos == EndBefore(Pass1List(rep, s.round, s.baseLen, s.blockStart), s.blockStart, n)
    ensures AtMatch(s, rep, n, ReadWaiting(s, rep, cur, pos))
  {
    hide Scan.Ok, GoodList, LengthsFit, Pass1List, WholeRecords, DecodeLzMatch, Reading1, RepOk, EndBefore, StatsPerMatch, AtMatch;
    Bounds(s);
    NextFacts(s, rep, cur, n, pos);
    var m := DecodeLzMatch(rep[cur..], false, s.round, s.baseLen, pos).1;
    SmallDifference(m.dest, s.blockStart);
    SmallDifference(m.dest, m.src);
    var spp := StatsPerMatch(s.round);
    assert |rep| - cur - spp == |rep| - (cur + spp);
    Arrived(s, rep, n, Piece(m.src, m.dest, m.len), ReadWaiting(s, rep, cur, pos));
  }

  lemma Arrived(s: Scan, rep: seq<u32>, n: nat, p: Piece, w: Waiting)
    requires s.Ok() && n < |Pass1List(rep, s.round, s.baseLen, s.blockStart)| && Pass1List(rep, s.round, s.baseLen, s.blockStart)[n] == p
    requires s.blockStart <= p.dest && p.src < p.dest && s.baseLen <= p.len && p.dest + p.len <= s.blockStart + s.blockSize
    requires w.start == p.dest - s.blockStart && w.len == p.len && w.offset == p.dest - p.src
    requires w.cur <= |rep| && WholeRecords(|rep| - w.cur, s.round)
    requires Reading1(rep, s.round, s.baseLen, s.blockStart, w.cur, n + 1, p.dest + p.len)
    ensures AtMatch(s, rep, n, w)
  {
    hide Scan.Ok, Pass1List, WholeRecords, Reading1;
  }

  lemma SmallDifference(x: u64, y: u64)
    requires y <= x
    ensures (x - y) % W64 == x - y
  {
  }

  lemma LeastLength(stat: seq<u32>, round: bool, base: u32)
    requires |stat| >= StatsPerMatch(round)
    ensures StoredLength(stat, round, base) >= base
  {
    if round { Monotone(0, stat[StatsPerMatch(round) - 1], base); }
  }

  lemma NextFacts(s: Scan, rep: seq<u32>, cur: nat, n: nat, pos: u64)
    requires s.Ok() && RepOk(s, rep) && cur + StatsPerMatch(s.round) <= |rep|
    requires Reading1(rep, s.round, s.baseLen, s.blockStart, cur, n, pos) && s.blockStart <= pos <= s.blockStart + s.blockSize
    requires pos == EndBefore(Pass1List(rep, s.round, s.baseLen, s.blockStart), s.blockStart, n)
    ensures var ps, m := Pass1List(rep, s.round, s.baseLen, s.blockStart), DecodeLzMatch(rep[cur..], false, s.round, s.baseLen, pos).1;
            && n < |ps| && ps[n] == Piece(m.src, m.dest, m.len) && m.src < m.dest && s.baseLen <= m.len
            && pos <= m.dest && m.dest + m.len <= s.blockStart + s.blockSize
            && Reading1(rep, s.round, s.baseLen, s.blockStart, cur + StatsPerMatch(s.round), n + 1, m.dest + m.len)
  {
    hide Scan.Ok, GoodList, LengthsFit, Pass1List, WholeRecords, DecodeLzMatch, StoredLength, Reading1, EndBefore, TrueCopy, StatsPerMatch;
    Bounds(s);
    LeastLength(rep[cur..], s.round, s.baseLen);
    NextMatch(rep, s.round, s.baseLen, s.d, s.blockStart, s.blockStart + s.blockSize, cur, n, pos);
    CopyBackwards(s.d, Pass1List(rep, s.round, s.baseLen, s.blockStart)[n]);
  }

  lemma CopyBackwards(d: seq<byte>, p: Piece)
    requires TrueCopy(d, p)
    ensures p.src < p.dest
  {
  }

  lemma FenceBehind(s: Scan, pos: u64)
    requires s.Ok() && pos <= s.blockStart + s.blockSize && s.blockStart <= pos
    ensures var m := DecodeLzMatch(Fence(s), false, s.round, s.baseLen, pos).1; (m.dest - s.blockStart) % W64 > s.blockSize
  {
    Bounds(s);
    FirstWord(s);
    hide Scan.Ok, Fence;
    DecodeFields(Fence(s), s.round, s.baseLen, pos);
    hide DecodeLzMatch, StoredLength, StatsPerMatch;
    SmallDifference(pos + s.blockSize + 1, 0);
    SmallDifference(pos + s.blockSize + 1, s.blockStart);
  }

  lemma FirstWord(s: Scan)
    requires s.Ok()
    ensures Fence(s)[0] == s.blockSize + 1
  {
  }

  /** What the waiting match is, once the scan has reached it. */
  lemma WaitingMatch(s: Scan, rep: seq<u32>, n: nat, w: Waiting)
    requires s.Ok() && RepOk(s, rep) && AtMatch(s, rep, n, w) && w.start <= s.blockSize
    ensures !s.round && n < |Pass1List(rep, s.round, s.baseLen, s.blockStart)|
    ensures w.start + w.len <= s.blockSize && 0 < w.offset <= s.blockStart + w.start && s.baseLen <= w.len
    ensures TrueCopy(s.d, Piece(s.blockStart + w.start - w.offset, s.blockStart + w.start, w.len))
    ensures w.cur <= |rep| && WholeRecords(|rep| - w.cur, s.round)
    ensures Reading1(rep, s.round, s.baseLen, s.blockStart, w.cur, n + 1, s.blockStart + w.start + w.len)
    ensures s.blockStart + w.start + w.len == EndBefore(Pass1List(rep, s.round, s.baseLen, s.blockStart), s.blockStart, n + 1)
  {
    Bounds(s);
    NoneRounded(s);
    hide Scan.Ok, LengthsFit, Reading1, WholeRecords, GoodList, Pass1List;
    GoodAt(s.d, s.blockStart, s.blockStart + s.blockSize, Pass1List(rep, s.round, s.baseLen, s.blockStart), n);
    CopyBackwards(s.d, Pass1List(rep, s.round, s.baseLen, s.blockStart)[n]);
    hide TrueCopy;
  }

  lemma NoneRounded(s: Scan)
    requires s.Ok()
    ensures s.round ==> Pass1List([], s.round, s.baseLen, s.blockStart) == []
  {
  }

  /** A true copy may start later. */
  lemma CopySuffix(d: seq<byte>, src: nat, dest: nat, len: nat, skip: nat)
    requires TrueCopy(d, Piece(src, dest, len)) && skip <= len
    ensures TrueCopy(d, Piece(src + skip, dest + skip, len - skip))
  {
  }

  lemma FirstRead(s: Scan, rep: seq<u32>)
    requires s.Ok() && RepOk(s, rep)
    ensures Reading1(rep, s.round, s.baseLen, s.blockStart, 0, 0, s.blockStart) && WholeRecords(|rep| - 0, s.round)
    ensures s.blockStart == EndBefore(Pass1List(rep, s.round, s.baseLen, s.blockStart), s.blockStart, 0)
  {
    ExtractStart(rep, s.round, s.baseLen, s.d, s.blockStart);
  }

  /** The earlier match is recorded from the end of the last match on, up to its own end, at its own distance. */
  ghost predicate TakenOver(s: Scan, p: Progress, w: Waiting, q: Progress) {
    var start := Max(w.start, p.end);
    var lit, len := start - p.end, w.start + w.len - start;
    && q.end == w.start + w.len && q.literals == p.literals - len
    && lit < W32 && 0 < s.baseLen <= len < W32
    && q.stats == p.stats + EncodeLzMatch(s.round, s.baseLen, lit, w.offset, len)
  }

  /** What becomes of an earlier match: taken over when enough of it lies behind the last match recorded. */
  ghost predicate Merged(s: Scan, p: Progress, w: Waiting, q: Progress) {
    if w.start + w.len >= s.baseLen + p.end then TakenOver(s, p, w, q) else q == p
  }
}
