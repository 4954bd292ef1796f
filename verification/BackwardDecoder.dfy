/** The IO-LZ block decoder: matches are copied backwards, from the current block or from
    the output of earlier blocks. */
module BackwardDecoder {
  import opened Bytes
  import opened MatchModel
  import opened Records
  import opened FutureSpec
  import opened FutureDecoder
  import opened Compress

  /** Positions of the list do not overflow: each match starts at or after the end of the one before. */
  ghost predicate Ordered(ps: seq<Piece>, lo: nat) {
    forall i :: 0 <= i < |ps| ==> EndBefore(ps, lo, i) <= ps[i].dest
  }

  /** Short of 2^64, positions cannot overflow: a record advances them by less than 2^33. */
  lemma {:induction false} SmallIsOrdered(stat: seq<u32>, round: bool, base: u32, pos: u64)
    requires (round ==> base > 0) && pos + |stat| * (2 * W32) < W64
    ensures Ordered(Pass1List(stat, round, base, pos), pos)
    decreases |stat|
  {
    if |stat| >= StatsPerMatch(round) {
      Budget(pos, 0, 0, |stat|, |stat| - 1);
      ListStep(stat, round, base, pos);
      hide DecodeLzMatch, Ordered, Pass1List;
      var (lit, m) := DecodeLzMatch(stat, false, round, base, pos);
      var rest := stat[StatsPerMatch(round)..];
      Budget(pos, lit, m.len, |stat|, |rest|);
      SmallIsOrdered(rest, round, base, pos + lit + m.len);
      var p, qs := Piece(m.src, m.dest, m.len), Pass1List(rest, round, base, pos + lit + m.len);
      assert Pass1List(stat, round, base, pos) == [p] + qs;
      OrderedCons(p, qs, pos);
    } else {
      OrderedNone(pos);
    }
  }

  lemma Budget(pos: nat, lit: u32, len: u32, n: nat, rest: nat)
    requires rest < n && pos + n * (2 * W32) < W64
    ensures pos + 2 * W32 < W64 && pos + lit + len + rest * (2 * W32) < W64
  {
  }

  lemma OrderedNone(lo: nat)
    ensures Ordered([], lo)
  {
  }

  lemma OrderedCons(p: Piece, qs: seq<Piece>, lo: nat)
    requires lo <= p.dest && Ordered(qs, p.dest + p.len)
    ensures Ordered([p] + qs, lo)
  {
    var ps := [p] + qs;
    forall i | 0 <= i < |ps| ensures EndBefore(ps, lo, i) <= ps[i].dest {
      if i > 0 { assert EndBefore(qs, p.dest + p.len, i - 1) <= qs[i - 1].dest; }
    }
  }

  /** The matches point backwards, lie in the block one after the other, and the literals fill the rest. */
  ghost predicate Acceptable(ps: seq<Piece>, lo: nat, hi: nat, literals: nat) {
    && (forall p :: p in ps ==> p.src < p.dest)
    && Layout(SetOf(ps), lo, hi, literals)
  }

  lemma {:induction false} OrderedEnds(ps: seq<Piece>, lo: nat, i: nat, j: nat)
    requires Ordered(ps, lo) && i < j < |ps|
    ensures ps[i].dest + ps[i].len <= ps[j].dest
  {
    assert EndBefore(ps, lo, j) <= ps[j].dest;
    if i < j - 1 { OrderedEnds(ps, lo, i, j - 1); }
  }

  /** While the first `n` matches are decoded, the gaps before the next one are the literals
      consumed and those it asks for. */
  lemma GapsBefore(ps: seq<Piece>, lo: nat, n: nat, d: seq<byte>, lits: seq<byte>, y: nat)
    requires Ordered(ps, lo) && n <= |ps| && Decodes(d, lo, SetOf(ps[..n]), lits) && |d| <= y
    requires n < |ps| ==> y <= ps[n].dest
    ensures Gaps(lo, y, SetOf(ps)) == |lits| + (y - |d|)
  {
    var done := SetOf(ps[..n]);
    LitsCount(d, lo, done);
    forall x | |d| <= x < y ensures !Covered(done, x) {
      forall p | p in done ensures !p.Contains(x) { assert TrueCopy(d, p); }
    }
    GapsOpen(lo, |d|, y, done);
    forall x | lo <= x < y ensures Covered(done, x) <==> Covered(SetOf(ps), x) {
      if Covered(SetOf(ps), x) {
        var p :| p in SetOf(ps) && p.Contains(x);
        var i :| 0 <= i < |ps| && ps[i] == p;
        if i >= n {
          if i > n { OrderedEnds(ps, lo, n, i); }
        } else {
          assert ps[..n][i] == p;
        }
      }
      if Covered(done, x) {
        var p :| p in done && p.Contains(x);
        assert p in ps[..n] && p in ps;
      }
    }
    GapsSameCover(lo, y, done, SetOf(ps));
  }

  /** The three ways a record is rejected, each a violation of what is acceptable. */
  lemma RejectedRecord(ps: seq<Piece>, lo: nat, hi: nat, n: nat, d: seq<byte>, lits: seq<byte>, literals: nat)
    requires Ordered(ps, lo) && n < |ps| && Decodes(d, lo, SetOf(ps[..n]), lits) && |d| == EndBefore(ps, lo, n) <= hi
    requires ps[n].dest - |d| > literals - |lits| || ps[n].dest - |d| + ps[n].len > hi - |d| || ps[n].src >= ps[n].dest
    ensures !Acceptable(ps, lo, hi, literals)
  {
    assert ps[n] in ps && ps[n] in SetOf(ps);
    if ps[n].dest + ps[n].len <= hi && ps[n].src < ps[n].dest {
      assert EndBefore(ps, lo, n) <= ps[n].dest;
      GapsBefore(ps, lo, n, d, lits, ps[n].dest);
      GapsMonotone(lo, ps[n].dest, hi, SetOf(ps));
    }
  }

  lemma OrderedApart(ps: seq<Piece>, lo: nat, p: Piece, q: Piece)
    requires Ordered(ps, lo) && p in ps && q in ps && p != q
    ensures Apart(p, q)
  {
    hide Ordered;
    var i :| 0 <= i < |ps| && ps[i] == p;
    var j :| 0 <= j < |ps| && ps[j] == q;
    if i < j { OrderedEnds(ps, lo, i, j); } else { OrderedEnds(ps, lo, j, i); }
  }

  lemma AllRecords(ps: seq<Piece>, lo: nat, hi: nat, d: seq<byte>, lits: seq<byte>, literals: nat)
    requires Ordered(ps, lo) && Decodes(d, lo, SetOf(ps), lits) && |d| <= hi
    ensures Acceptable(ps, lo, hi, literals) <==> literals - |lits| == hi - |d|
  {
    assert ps[..|ps|] == ps;
    GapsBefore(ps, lo, |ps|, d, lits, hi);
    hide Ordered, Apart;
    forall p | p in SetOf(ps) ensures lo <= p.dest && p.dest + p.len <= hi && p.src < p.dest {
      assert TrueCopy(d, p);
    }
    assert forall p :: p in ps ==> p in SetOf(ps);
    forall p, q | p in SetOf(ps) && q in SetOf(ps) && p != q ensures Apart(p, q) {
      OrderedApart(ps, lo, p, q);
    }
  }

  /** Each byte of `o[lo..hi]` equals the one `distance` before it. */
  ghost predicate Repeats(o: seq<byte>, lo: nat, hi: nat, distance: nat) {
    hi <= |o| && forall k {:trigger o[k]} :: lo <= k < hi ==> 0 <= k - distance && o[k] == o[k - distance]
  }

  /** A prefix read from earlier blocks and a rest copied within the block make a true copy. */
  lemma BackTrue(backend: seq<byte>, o: seq<byte>, outPos: nat, p: Piece, bytes: nat)
    requires p.src < p.dest == |backend| + outPos && outPos + p.len <= |o| && bytes <= p.len
    requires p.src + bytes <= |backend| || bytes == 0
    requires bytes < p.len ==> p.src + bytes >= |backend|
    requires bytes > 0 ==> o[outPos..outPos + bytes] == backend[p.src..p.src + bytes]
    requires Repeats(o, outPos + bytes, outPos + p.len, p.dest - p.src)
    ensures TrueCopy(backend + o[..outPos + p.len], p)
  {
    var d := backend + o[..outPos + p.len];
    forall x | p.dest <= x < p.dest + p.len ensures d[x] == d[x - (p.dest - p.src)] {
      var k := x - |backend|;
      assert d[x] == o[k];
      if k < outPos + bytes {
        assert o[k] == o[outPos..outPos + bytes][k - outPos] == backend[p.src..p.src + bytes][k - outPos];
      }
    }
  }

  /** Copy one match: first the part from earlier blocks, then the rest from the block itself. */
  method CopyBack(backend: seq<byte>, blockStart: u64, out: array<byte>, outPos0: nat, p: Piece) returns (outPos: nat)
    requires |backend| == blockStart && p.src < p.dest == blockStart + outPos0 && outPos0 + p.len <= out.Length
    requires blockStart + out.Length < W64
    modifies out
    ensures outPos == outPos0 + p.len && out[..outPos0] == old(out[..outPos0])
    ensures TrueCopy(backend + out[..outPos], p)
  {
    hide TrueCopy, Repeats;
    var read := CopyEarlier(backend, blockStart, out, outPos0, p);
    ghost var o := out[..];
    outPos := outPos0 + read;
    // With nothing left to copy the source may still lie before the block; the wrapped offset is then unused.
    var srcOff := (p.src + read - blockStart) % W64;
    if read < p.len { SmallMod(p.src + read - blockStart); }
    CopyRest(out, outPos, srcOff, p.len - read, p.dest - p.src);
    SamePrefix(o, out[..], outPos, outPos0);
    outPos := outPos0 + p.len;
    BackTrue(backend, out[..], outPos0, p, read);
    assert out[..][..outPos] == out[..outPos];
    assert out[..outPos0] == out[..][..outPos0] == o[..outPos0];
  }

  lemma SamePrefix(o: seq<byte>, o': seq<byte>, n: nat, k: nat)
    requires k <= n <= |o| == |o'| && o[..n] == o'[..n]
    ensures o[..k] == o'[..k] && o[k..n] == o'[k..n]
  {
    assert o[..k] == o[..n][..k] && o[k..n] == o[..n][k..] && o'[k..n] == o'[..n][k..];
  }

  /** The part of a match that lies in earlier blocks. */
  method CopyEarlier(backend: seq<byte>, blockStart: u64, out: array<byte>, outPos: nat, p: Piece) returns (read: nat)
    requires |backend| == blockStart && outPos + p.len <= out.Length
    modifies out
    ensures read <= p.len && out[..outPos] == old(out[..outPos])
    ensures if read == 0 then p.src >= blockStart || p.len == 0
            else p.src + read <= blockStart && out[outPos..outPos + read] == backend[p.src..p.src + read]
    ensures read < p.len ==> p.src + read >= blockStart
  {
    read := 0;
    if p.src < blockStart {
      var bytes := Min(p.len, blockStart - p.src);
      if bytes > 0 {
        var tmp := backend[p.src..p.src + bytes];
        CopyInto(out, outPos, tmp);
        SplicedParts(old(out[..]), outPos, tmp, out[..]);
        assert out[..outPos] == out[..][..outPos] && old(out[..])[..outPos] == old(out[..outPos]);
        read := bytes;
      }
    }
  }

  /** The in-block part of a copy; an empty one touches nothing, whatever its offset. */
  method CopyRest(out: array<byte>, dstOff: nat, srcOff: nat, len: nat, ghost distance: nat)
    requires dstOff + len <= out.Length && (len > 0 ==> 0 < distance && srcOff + distance == dstOff)
    modifies out
    ensures out[..][..dstOff] == old(out[..])[..dstOff]
    ensures Repeats(out[..], dstOff, dstOff + len, distance)
  {
    if len > 0 {
      OverlapCopy(out, dstOff, srcOff, len);
    }
  }

  /** Decode one block of the backward layouts. It is accepted exactly when its records are
      acceptable, and then the output is the one they describe. */
  method DecompressBackward(round: bool, l: u32, backend: seq<byte>, blockStart: u64, statraw: seq<u32>, literals: seq<byte>,
      out: array<byte>) returns (ok: bool)
    requires (round ==> l > 0) && |backend| == blockStart && blockStart + out.Length + 3 * W32 < W64
    requires Ordered(Pass1List(statraw, round, l, blockStart), blockStart)
    modifies out
    ensures ok <==> Acceptable(Pass1List(statraw, round, l, blockStart), blockStart, blockStart + out.Length, |literals|)
    ensures ok ==> Decodes(backend + out[..], blockStart, SetOf(Pass1List(statraw, round, l, blockStart)), literals)
  {
    hide Pass1List, Reading1, Decodes, Acceptable, Ordered, DecodeLzMatch;
    ghost var ps, hi := Pass1List(statraw, round, l, blockStart), blockStart + out.Length;
    var outPos: nat, inPos: nat, cur := 0, 0, 0;
    ghost var n := 0;
    BackStart(statraw, round, l, backend);
    assert backend + out[..0] == backend;
    while |statraw| - cur >= StatsPerMatch(round)
      invariant cur <= |statraw| && outPos <= out.Length && inPos <= |literals| && n <= |ps|
      invariant ReadingBack(statraw, round, l, blockStart, cur, n, blockStart + outPos)
      invariant blockStart + outPos == EndBefore(ps, blockStart, n)
      invariant Decodes(backend + out[..outPos], blockStart, SetOf(ps[..n]), literals[..inPos])
      decreases |statraw| - cur
    {
      BackNext(statraw, round, l, blockStart, cur, n, blockStart + outPos);
      var (litLen, m) := DecodeLzMatch(statraw[cur..], false, round, l, blockStart + outPos);
      cur := cur + StatsPerMatch(round);
      ok, inPos, outPos := DecodeRecord(backend, blockStart, literals, out, inPos, outPos, litLen, Piece(m.src, m.dest, m.len), ps, n);
      if !ok {
        return;
      }
      n := n + 1;
    }
    BackEnd(statraw, round, l, blockStart, cur, n, blockStart + outPos);
    assert ps[..n] == ps;
    AllRecords(ps, blockStart, hi, backend + out[..outPos], literals[..inPos], |literals|);
    if |literals| - inPos != out.Length - outPos {
      return false;
    }
    LiteralsBack(backend, blockStart, literals, out, inPos, outPos, |literals| - inPos, SetOf(ps));
    assert out[..out.Length] == out[..] && literals[..|literals|] == literals;
    ok := true;
  }

  /** Copy the next `n` literals behind the output so far. */
  method LiteralsBack(backend: seq<byte>, blockStart: u64, literals: seq<byte>, out: array<byte>, inPos: nat, outPos: nat, n: nat,
      ghost ps: set<Piece>)
    requires |backend| == blockStart && inPos + n <= |literals| && outPos + n <= out.Length
    requires Decodes(backend + out[..outPos], blockStart, ps, literals[..inPos])
    modifies out
    ensures Decodes(backend + out[..outPos + n], blockStart, ps, literals[..inPos + n])
  {
    hide Decodes;
    ghost var d := backend + out[..outPos];
    AppendLits(d, blockStart, ps, literals[..inPos], literals[inPos..inPos + n]);
    assert literals[..inPos] + literals[inPos..inPos + n] == literals[..inPos + n];
    Append(out, outPos, literals[inPos..inPos + n]);
    assert backend + out[..outPos + n] == d + literals[inPos..inPos + n];
  }

  /** One record: the literals before its match, then the match, unless they do not fit. */
  method DecodeRecord(backend: seq<byte>, blockStart: u64, literals: seq<byte>, out: array<byte>, inPos0: nat, outPos0: nat,
      litLen: u32, p: Piece, ghost ps: seq<Piece>, ghost n: nat) returns (ok: bool, inPos: nat, outPos: nat)
    requires |backend| == blockStart && outPos0 <= out.Length && inPos0 <= |literals| && blockStart + out.Length < W64
    requires n < |ps| && ps[n] == p && p.dest == blockStart + outPos0 + litLen && blockStart + outPos0 == EndBefore(ps, blockStart, n)
    requires Ordered(ps, blockStart) && Decodes(backend + out[..outPos0], blockStart, SetOf(ps[..n]), literals[..inPos0])
    modifies out
    ensures !ok ==> !Acceptable(ps, blockStart, blockStart + out.Length, |literals|)
    ensures ok ==> outPos <= out.Length && inPos <= |literals| && blockStart + outPos == EndBefore(ps, blockStart, n + 1)
    ensures ok ==> Decodes(backend + out[..outPos], blockStart, SetOf(ps[..n + 1]), literals[..inPos])
    ensures ok ==> outPos == outPos0 + litLen + p.len
  {
    hide Decodes, Acceptable, Ordered, SetOf, TrueCopy;
    ok, inPos, outPos := true, inPos0, outPos0;
    if litLen > |literals| - inPos || litLen + p.len > out.Length - outPos || p.src >= p.dest {
      RejectedRecord(ps, blockStart, blockStart + out.Length, n, backend + out[..outPos], literals[..inPos], |literals|);
      return false, inPos, outPos;
    }
    LiteralsBack(backend, blockStart, literals, out, inPos, outPos, litLen, SetOf(ps[..n]));
    inPos, outPos := inPos + litLen, outPos + litLen;
    ghost var e := backend + out[..outPos];
    var end := CopyBack(backend, blockStart, out, outPos, p);
    Extend(backend, out[..], outPos, p.len);
    assert backend + out[..end] == e + out[outPos..end];
    AppendPiece(e, blockStart, SetOf(ps[..n]), literals[..inPos], p, out[outPos..end]);
    assert ps[..n + 1] == ps[..n] + [p];
    SetOfAppend(ps[..n], p);
    outPos := end;
  }

  // ---- reading the list ----

  ghost predicate ReadingBack(stat: seq<u32>, round: bool, base: u32, start: u64, cur: nat, n: nat, pos: u64)
    requires round ==> base > 0
  {
    var ps := Pass1List(stat, round, base, start);
    cur <= |stat| && n <= |ps| && ps[n..] == Pass1List(stat[cur..], round, base, pos)
  }

  lemma BackStart(stat: seq<u32>, round: bool, base: u32, backend: seq<byte>)
    requires (round ==> base > 0) && |backend| < W64
    ensures ReadingBack(stat, round, base, |backend|, 0, 0, |backend|)
    ensures Decodes(backend, |backend|, SetOf(Pass1List(stat, round, base, |backend|)[..0]), [])
  {
    assert stat[0..] == stat;
  }

  lemma SmallMod(x: nat)
    requires x < W64
    ensures x % W64 == x
  {
  }

  /** One record, away from the end of the 64-bit range. */
  lemma ListStep(stat: seq<u32>, round: bool, base: u32, pos: u64)
    requires (round ==> base > 0) && |stat| >= StatsPerMatch(round) && pos + 2 * W32 < W64
    ensures var (lit, m) := DecodeLzMatch(stat, false, round, base, pos);
            && m.dest == pos + lit
            && Pass1List(stat, round, base, pos)
               == [Piece(m.src, m.dest, m.len)] + Pass1List(stat[StatsPerMatch(round)..], round, base, pos + lit + m.len)
  {
    DecodeFields(stat, round, base, pos);
    hide DecodeLzMatch, StoredLength;
    var (lit, m) := DecodeLzMatch(stat, false, round, base, pos);
    SmallMod(pos + lit);
    SmallMod(pos + lit + m.len);
  }

  lemma BackNext(stat: seq<u32>, round: bool, base: u32, start: u64, cur: nat, n: nat, pos: u64)
    requires (round ==> base > 0) && ReadingBack(stat, round, base, start, cur, n, pos) && |stat| - cur >= StatsPerMatch(round)
    requires pos + 2 * W32 < W64
    ensures var ps := Pass1List(stat, round, base, start);
            var (lit, m) := DecodeLzMatch(stat[cur..], false, round, base, pos);
            && n < |ps| && ps[n] == Piece(m.src, m.dest, m.len) && m.dest == pos + lit
            && ReadingBack(stat, round, base, start, cur + StatsPerMatch(round), n + 1, pos + lit + m.len)
  {
    hide DecodeLzMatch, Pass1List;
    ListStep(stat[cur..], round, base, pos);
    hide StatsPerMatch;
    var ps, spp := Pass1List(stat, round, base, start), StatsPerMatch(round);
    var (lit, m) := DecodeLzMatch(stat[cur..], false, round, base, pos);
    assert stat[cur..][spp..] == stat[cur + spp..];
    SuffixCons(ps, n, Piece(m.src, m.dest, m.len), Pass1List(stat[cur + spp..], round, base, pos + lit + m.len));
  }

  lemma BackEnd(stat: seq<u32>, round: bool, base: u32, start: u64, cur: nat, n: nat, pos: u64)
    requires (round ==> base > 0) && ReadingBack(stat, round, base, start, cur, n, pos) && |stat| - cur < StatsPerMatch(round)
    ensures n == |Pass1List(stat, round, base, start)|
  {
  }
}
