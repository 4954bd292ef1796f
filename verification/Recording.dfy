/** How match finders write the list of a block: one record after the other, each match
    behind the one before. */
module Recording {
  import opened Bytes
  import opened MatchModel
  import opened Records
  import opened Compress

  ghost function Lengths(ps: seq<Piece>): nat {
    if ps == [] then 0 else Lengths(ps[..|ps| - 1]) + ps[|ps| - 1].len
  }

  /** So many words are whole records. */
  predicate WholeRecords(n: nat, round: bool) {
    n % StatsPerMatch(round) == 0
  }

  /** The list written so far is in order for block `lo..hi` of `d`, its last match ends at `end`,
      and `literals` bytes of the block are in no match. */
  ghost predicate Recorded(stats: seq<u32>, round: bool, base: u32, d: seq<byte>, lo: u64, hi: nat, end: nat, literals: int)
    requires round ==> base > 0
  {
    var ps := Pass1List(stats, round, base, lo);
    && WholeRecords(|stats|, round) && LengthsFit(stats, round, base)
    && GoodList(d, lo, hi, ps) && end == EndBefore(ps, lo, |ps|)
    && literals == hi - lo - Lengths(ps)
  }

  lemma RecordedNone(round: bool, base: u32, d: seq<byte>, lo: u64, hi: nat)
    requires round ==> base > 0
    ensures Recorded([], round, base, d, lo, hi, lo, hi - lo)
  {
    assert WholeRecords(0, round);
    assert Pass1List([], round, base, lo) == [] && LengthsFit([], round, base);
    hide Pass1List, LengthsFit, WholeRecords, StoredLength, DecodeLzMatch;
  }

  /** Appending a record appends its match. */
  lemma {:induction false} Pass1Append(s: seq<u32>, rec: seq<u32>, round: bool, base: u32, d: seq<byte>, pos: u64, hi: u64)
    requires (round ==> base > 0) && WholeRecords(|s|, round) && |rec| == StatsPerMatch(round)
    requires LengthsFit(s, round, base) && GoodList(d, pos, hi, Pass1List(s, round, base, pos)) && pos <= hi
    requires StoredLength(rec, round, base) < W32
    ensures var ps := Pass1List(s, round, base, pos);
            var end := EndBefore(ps, pos, |ps|);
            && end <= hi
            && var m := DecodeLzMatch(rec, false, round, base, end).1;
               Pass1List(s + rec, round, base, pos) == ps + [Piece(m.src, m.dest, m.len)]
    decreases |s|
  {
    hide DecodeLzMatch, StoredLength, GoodList, LengthsFit, WholeRecords, Pass1List, StatsPerMatch;
    var spp := StatsPerMatch(round);
    if s == [] {
      assert s + rec == rec && rec[spp..] == [];
      OnlyRecord(rec, round, base, pos);
    } else {
      OneLess(|s|, round);
      FirstRecord(s, rec, round, base, pos);
      ListCons(s + rec, round, base, pos);
      ListCons(s, round, base, pos);
      NextPosition(s, round, base, d, pos, hi);
      var p := Pass1List(s, round, base, pos)[0];
      Pass1Append(s[spp..], rec, round, base, d, p.dest + p.len, hi);
      assert (s + rec)[spp..] == s[spp..] + rec;
      var ps, qs := Pass1List(s, round, base, pos), Pass1List(s[spp..], round, base, p.dest + p.len);
      EndCons(p, qs, pos);
      assert ps == [p] + qs;
      assert Pass1List(s + rec, round, base, pos) == [p] + Pass1List(s[spp..] + rec, round, base, p.dest + p.len);
    }
  }

  lemma OnlyRecord(rec: seq<u32>, round: bool, base: u32, pos: u64)
    requires (round ==> base > 0) && |rec| == StatsPerMatch(round)
    ensures Pass1List([], round, base, pos) == []
    ensures var m := DecodeLzMatch(rec, false, round, base, pos).1; Pass1List(rec, round, base, pos) == [Piece(m.src, m.dest, m.len)]
  {
    hide DecodeLzMatch;
    assert rec[StatsPerMatch(round)..] == [];
  }

  /** Whole plain records take four words each. */
  lemma {:induction false} Pass1Words(stats: seq<u32>, base: u32, pos: u64)
    requires WholeRecords(|stats|, false)
    ensures |stats| == 4 * |Pass1List(stats, false, base, pos)|
    decreases |stats|
  {
    if stats != [] {
      OneLess(|stats|, false);
      ListCons(stats, false, base, pos);
      var (lit, m) := DecodeLzMatch(stats, false, false, base, pos);
      hide DecodeLzMatch, Pass1List, WholeRecords;
      Pass1Words(stats[4..], base, (pos + lit + m.len) % W64);
    }
  }

  lemma OneLess(n: nat, round: bool)
    requires WholeRecords(n, round) && n > 0
    ensures n >= StatsPerMatch(round) && WholeRecords(n - StatsPerMatch(round), round)
  {
  }

  lemma {:induction false} FitAppend(s: seq<u32>, rec: seq<u32>, round: bool, base: u32)
    requires (round ==> base > 0) && WholeRecords(|s|, round) && |rec| == StatsPerMatch(round)
    requires LengthsFit(s, round, base) && StoredLength(rec, round, base) < W32
    ensures LengthsFit(s + rec, round, base)
    decreases |s|
  {
    hide StoredLength, DecodeLzMatch, WholeRecords;
    var spp := StatsPerMatch(round);
    if s == [] {
      assert s + rec == rec && rec[spp..] == [];
    } else {
      OneLess(|s|, round);
      FirstRecord(s, rec, round, base, 0);
      FitAppend(s[spp..], rec, round, base);
      assert (s + rec)[spp..] == s[spp..] + rec;
    }
  }

  lemma EndCons(p: Piece, qs: seq<Piece>, pos: nat)
    ensures EndBefore([p] + qs, pos, 1 + |qs|) == EndBefore(qs, p.dest + p.len, |qs|)
  {
  }

  lemma FirstRecord(s: seq<u32>, rec: seq<u32>, round: bool, base: u32, pos: u64)
    requires (round ==> base > 0) && |s| >= StatsPerMatch(round)
    ensures DecodeLzMatch(s + rec, false, round, base, pos) == DecodeLzMatch(s, false, round, base, pos)
    ensures StoredLength(s + rec, round, base) == StoredLength(s, round, base)
  {
  }

  /** Reading one record of a good list lands where its match ends. */
  lemma NextPosition(s: seq<u32>, round: bool, base: u32, d: seq<byte>, pos: u64, hi: u64)
    requires (round ==> base > 0) && |s| >= StatsPerMatch(round) && LengthsFit(s, round, base)
    requires GoodList(d, pos, hi, Pass1List(s, round, base, pos))
    ensures var ps, rest := Pass1List(s, round, base, pos), s[StatsPerMatch(round)..];
            && ps != [] && ps[0].dest + ps[0].len <= hi
            && (pos + DecodeLzMatch(s, false, round, base, pos).0 + ps[0].len) % W64 == ps[0].dest + ps[0].len
            && ps == [ps[0]] + Pass1List(rest, round, base, ps[0].dest + ps[0].len)
            && GoodList(d, ps[0].dest + ps[0].len, hi, Pass1List(rest, round, base, ps[0].dest + ps[0].len))
            && LengthsFit(rest, round, base)
  {
    DecodeFields(s, round, base, pos);
    var (lit, m) := DecodeLzMatch(s, false, round, base, pos);
    hide DecodeLzMatch, StoredLength;
    var ps := Pass1List(s, round, base, pos);
    assert ps[0] == Piece(m.src, m.dest, m.len);
    GoodAt(d, pos, hi, ps, 0);
    Unwrapped(pos, lit, m.dest, m.len, hi);
    GoodTail(d, pos, hi, ps);
    hide LengthsFit;
  }

  lemma GoodTail(d: seq<byte>, lo: nat, hi: nat, ps: seq<Piece>)
    requires ps != [] && GoodList(d, lo, hi, ps)
    ensures GoodList(d, ps[0].dest + ps[0].len, hi, ps[1..])
  {
    var qs, end := ps[1..], ps[0].dest + ps[0].len;
    forall i | 0 <= i < |qs|
      ensures GoodItem(d, end, hi, qs, i)
    {
      GoodAt(d, lo, hi, ps, i + 1);
    }
  }

  lemma GoodAppend(d: seq<byte>, lo: nat, hi: nat, ps: seq<Piece>, p: Piece)
    requires GoodList(d, lo, hi, ps) && EndBefore(ps, lo, |ps|) <= p.dest && 0 < p.len && p.dest + p.len <= hi && TrueCopy(d, p)
    ensures GoodList(d, lo, hi, ps + [p]) && EndBefore(ps + [p], lo, |ps| + 1) == p.dest + p.len
    ensures Lengths(ps + [p]) == Lengths(ps) + p.len
  {
    var qs := ps + [p];
    assert qs[..|ps|] == ps;
    hide TrueCopy;
    forall i | 0 <= i < |qs|
      ensures GoodItem(d, lo, hi, qs, i)
    {
      if i < |ps| { GoodAt(d, lo, hi, ps, i); }
    }
  }

  /** Recording a true copy in a plain record keeps the list in order. */
  lemma RecordPlain(stats: seq<u32>, base: u32, d: seq<byte>, lo: u64, hi: u64, end: nat, literals: int, lit: u32, offset: u64, len: u32)
    requires lo <= hi && Recorded(stats, false, base, d, lo, hi, end, literals)
    requires base <= len && 0 < len && offset <= end + lit && end + lit + len <= hi
    requires TrueCopy(d, Piece(end + lit - offset, end + lit, len))
    ensures Recorded(stats + EncodeLzMatch(false, base, lit, offset, len), false, base, d, lo, hi, end + lit + len, literals - len)
  {
    var rec := EncodeLzMatch(false, base, lit, offset, len);
    PlainWords(base, lit, offset, len);
    PlainRoundTrip(base, lit, offset, len, end);
    assert StoredLength(rec, false, base) == len;
    hide EncodeLzMatch;
    Appended(stats, rec, false, base, d, lo, hi, end, literals, Piece(end + lit - offset, end + lit, len));
  }

  /** Recording a true copy of aligned data in a rounded record keeps the list in order. */
  lemma RecordRounded(stats: seq<u32>, base: u32, d: seq<byte>, lo: u64, hi: u64, end: nat, literals: int, lit: u32, src: u64, len: u32)
    requires 0 < base <= len && lo <= hi && Recorded(stats, true, base, d, lo, hi, end, literals)
    requires src % base == 0 && len % base == 0 && src < end + lit && end + lit + len <= hi
    requires (end + lit - src) / base < W32
    requires TrueCopy(d, Piece(src, end + lit, len))
    ensures Recorded(stats + EncodeLzMatch(true, base, lit, end + lit - src, len), true, base, d, lo, hi, end + lit + len, literals - len)
  {
    var rec := EncodeLzMatch(true, base, lit, end + lit - src, len);
    RoundedWords(base, lit, end + lit - src, len);
    RoundedLength(len, base);
    assert StoredLength(rec, true, base) == len;
    RoundedRoundTrip(base, lit, src, len, end);
    hide EncodeLzMatch;
    Appended(stats, rec, true, base, d, lo, hi, end, literals, Piece(src, end + lit, len));
  }

  lemma Appended(stats: seq<u32>, rec: seq<u32>, round: bool, base: u32, d: seq<byte>, lo: u64, hi: u64, end: u64, literals: int, p: Piece)
    requires (round ==> base > 0) && lo <= hi && Recorded(stats, round, base, d, lo, hi, end, literals)
    requires |rec| == StatsPerMatch(round) && StoredLength(rec, round, base) < W32
    requires var m := DecodeLzMatch(rec, false, round, base, end).1; p == Piece(m.src, m.dest, m.len)
    requires end <= p.dest && 0 < p.len && p.dest + p.len <= hi && TrueCopy(d, p)
    ensures Recorded(stats + rec, round, base, d, lo, hi, p.dest + p.len, literals - p.len)
  {
    hide DecodeLzMatch, StoredLength, TrueCopy, LengthsFit, GoodList, Pass1List;
    Pass1Append(stats, rec, round, base, d, lo, hi);
    FitAppend(stats, rec, round, base);
    GoodAppend(d, lo, hi, Pass1List(stats, round, base, lo), p);
  }

  /** No more matched bytes than the block has. */
  lemma RecordedCount(stats: seq<u32>, round: bool, base: u32, d: seq<byte>, lo: u64, hi: nat, end: nat, literals: int)
    requires (round ==> base > 0) && lo <= hi && Recorded(stats, round, base, d, lo, hi, end, literals)
    ensures 0 <= literals && lo <= end <= hi
  {
    hide LengthsFit, Pass1List, GoodList;
    var ps := Pass1List(stats, round, base, lo);
    GapsOfList(d, lo, hi, ps);
    EndInside(d, lo, hi, ps);
  }

  // ---- what a finished list is good for ----

  /** The literals of the block are as many as the count says. */
  lemma LiteralCount(stats: seq<u32>, round: bool, base: u32, d: seq<byte>, lo: u64, hi: nat, end: nat, literals: int, lits: seq<byte>)
    requires (round ==> base > 0) && lo <= hi <= |d| && Recorded(stats, round, base, d, lo, hi, end, literals)
    requires Decodes(d[..hi], lo, SetOf(Pass1List(stats, round, base, lo)), lits)
    ensures |lits| == literals
  {
    var ps := Pass1List(stats, round, base, lo);
    LitsCount(d[..hi], lo, SetOf(ps));
    GapsOfBlock(d, lo, hi, ps);
  }

  lemma GapsOfBlock(d: seq<byte>, lo: nat, hi: nat, ps: seq<Piece>)
    requires GoodList(d, lo, hi, ps) && lo <= hi
    ensures Gaps(lo, hi, SetOf(ps)) == hi - lo - Lengths(ps)
  {
    hide GoodList;
    GapsOfList(d, lo, hi, ps);
    EndInside(d, lo, hi, ps);
    assert ps[..|ps|] == ps;
    NothingAfter(d, lo, hi, ps);
    GapsOpen(lo, EndBefore(ps, lo, |ps|), hi, SetOf(ps));
  }

  lemma EndInside(d: seq<byte>, lo: nat, hi: nat, ps: seq<Piece>)
    requires GoodList(d, lo, hi, ps) && lo <= hi
    ensures EndBefore(ps, lo, |ps|) <= hi
  {
    if ps != [] { GoodAt(d, lo, hi, ps, |ps| - 1); }
  }

  lemma {:induction false} EndsOrdered(d: seq<byte>, lo: nat, hi: nat, ps: seq<Piece>, i: nat, j: nat)
    requires GoodList(d, lo, hi, ps) && i <= j <= |ps|
    ensures lo <= EndBefore(ps, lo, i) <= EndBefore(ps, lo, j)
    decreases j
  {
    hide GoodList;
    if j > 0 { GoodAt(d, lo, hi, ps, j - 1); }
    if i < j {
      EndsOrdered(d, lo, hi, ps, i, j - 1);
    } else if i > 0 {
      EndsOrdered(d, lo, hi, ps, i - 1, i - 1);
    }
  }

  lemma NothingAfter(d: seq<byte>, lo: nat, hi: nat, ps: seq<Piece>)
    requires GoodList(d, lo, hi, ps)
    ensures forall x :: EndBefore(ps, lo, |ps|) <= x ==> !Covered(SetOf(ps), x)
  {
    forall x | EndBefore(ps, lo, |ps|) <= x ensures !Covered(SetOf(ps), x) {
      forall p | p in SetOf(ps) ensures !p.Contains(x) {
        var i :| 0 <= i < |ps| && ps[i] == p;
        EndsOrdered(d, lo, hi, ps, i + 1, |ps|);
      }
    }
  }

  /** Up to the end of the last match, the open positions are those no match covers. */
  lemma {:induction false} GapsOfList(d: seq<byte>, lo: nat, hi: nat, ps: seq<Piece>)
    requires GoodList(d, lo, hi, ps)
    ensures lo <= EndBefore(ps, lo, |ps|)
    ensures Gaps(lo, EndBefore(ps, lo, |ps|), SetOf(ps)) == EndBefore(ps, lo, |ps|) - lo - Lengths(ps)
  {
    EndsOrdered(d, lo, hi, ps, 0, |ps|);
    hide GoodList, Covered;
    if ps != [] {
      var qs, p := ps[..|ps| - 1], ps[|ps| - 1];
      GoodAt(d, lo, hi, ps, |ps| - 1);
      GoodPrefix(d, lo, hi, ps);
      var e := EndBefore(qs, lo, |qs|);
      GapsOfList(d, lo, hi, qs);
      NothingAfter(d, lo, hi, qs);
      GapsOpen(lo, e, p.dest, SetOf(qs));
      assert ps == qs + [p];
      SetOfAppend(qs, p);
      CoverBelow(SetOf(qs), p);
      GapsSameCover(lo, p.dest, SetOf(qs), SetOf(ps));
      GapsCovered(lo, p.dest, p.dest + p.len, SetOf(ps), p);
    }
  }

  lemma CoverBelow(ps: set<Piece>, p: Piece)
    ensures forall x :: x < p.dest ==> (Covered(ps, x) <==> Covered(ps + {p}, x))
  {
    forall x | x < p.dest && Covered(ps + {p}, x) ensures Covered(ps, x) {
      var q :| q in ps + {p} && q.Contains(x);
      assert q in ps;
    }
    forall x | x < p.dest && Covered(ps, x) ensures Covered(ps + {p}, x) {
      var q :| q in ps && q.Contains(x);
      assert q in ps + {p};
    }
  }

  lemma GoodPrefix(d: seq<byte>, lo: nat, hi: nat, ps: seq<Piece>)
    requires ps != [] && GoodList(d, lo, hi, ps)
    ensures var qs := ps[..|ps| - 1]; GoodList(d, lo, hi, qs) && EndBefore(qs, lo, |qs|) == EndBefore(ps, lo, |ps| - 1)
  {
    var qs := ps[..|ps| - 1];
    forall i | 0 <= i < |qs|
      ensures GoodItem(d, lo, hi, qs, i)
    {
      GoodAt(d, lo, hi, ps, i);
    }
  }

  lemma {:induction false} GapsCovered(lo: nat, mid: nat, hi: nat, ps: set<Piece>, p: Piece)
    requires lo <= mid <= hi && p in ps && p.dest == mid && hi <= mid + p.len
    ensures Gaps(lo, hi, ps) == Gaps(lo, mid, ps)
  {
    if hi > mid {
      assert p.Contains(hi - 1);
      GapsCovered(lo, mid, hi - 1, ps, p);
    }
  }
}
