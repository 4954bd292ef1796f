/** Compression in the backward layouts followed by decompression. */
module BackwardPipeline {
  import opened Bytes
  import opened MatchModel
  import opened Compress
  import opened Lossless
  import opened FutureSpec
  import opened BackwardDecoder
  import opened BlockLimits
  import opened Recording

  /** What a match finder may produce is acceptable to the decoder, together with the extracted literals. */
  lemma GoodIsAcceptable(d: seq<byte>, lo: nat, hi: nat, ps: seq<Piece>, lits: seq<byte>)
    requires lo <= hi <= |d| && GoodList(d, lo, hi, ps) && Decodes(d[..hi], lo, SetOf(ps), lits)
    ensures Ordered(ps, lo) && Acceptable(ps, lo, hi, |lits|)
  {
    forall i | 0 <= i < |ps| ensures EndBefore(ps, lo, i) <= ps[i].dest { GoodAt(d, lo, hi, ps, i); }
    LitsCount(d[..hi], lo, SetOf(ps));
    GoodLies(d, lo, hi, ps, lits);
    hide Ordered, GoodList, Decodes, Apart;
    forall p, q | p in SetOf(ps) && q in SetOf(ps) && p != q ensures Apart(p, q) {
      OrderedApart(ps, lo, p, q);
    }
  }

  lemma GoodLies(d: seq<byte>, lo: nat, hi: nat, ps: seq<Piece>, lits: seq<byte>)
    requires lo <= hi <= |d| && Decodes(d[..hi], lo, SetOf(ps), lits)
    ensures forall p :: p in SetOf(ps) ==> lo <= p.dest && p.dest + p.len <= hi
    ensures forall p :: p in ps ==> p.src < p.dest
  {
    forall p | p in SetOf(ps) ensures lo <= p.dest && p.dest + p.len <= hi && p.src < p.dest {
      assert TrueCopy(d[..hi], p);
    }
    forall p | p in ps ensures p.src < p.dest { assert p in SetOf(ps); }
  }

  // ---- the driver's limits ----

  /** Block and list are within the driver's limits; in the backward layouts lists are inline. */
  ghost predicate FitsBackward(b: PendingBlock, round: bool, base: u32, bufsize: u64)
    requires round ==> base > 0
  {
    !Oversized(b.size, 4 * |b.stats|, Gaps(b.start, b.start + b.size, SetOf(Own(b, round, base))), bufsize)
  }

  ghost predicate AllFitBackward(blocks: seq<PendingBlock>, round: bool, base: u32, bufsize: u64)
    requires round ==> base > 0
  {
    forall k :: 0 <= k < |blocks| ==> FitsBackward(blocks[k], round, base, bufsize)
  }

  lemma {:induction false} LengthsAtLeast(ps: seq<Piece>)
    requires forall p :: p in ps ==> p.len >= 8
    ensures Lengths(ps) >= 8 * |ps|
  {
    if ps != [] { LengthsAtLeast(ps[..|ps| - 1]); }
  }

  /** Matches of eight bytes or more never make a list too large. */
  lemma LongMatchesFit(d: seq<byte>, bufsize: u32, blocks: seq<PendingBlock>, round: bool, base: u32, decBuf: u64)
    requires (round ==> base > 0) && GoodInput(d, bufsize, blocks, round, base) && base >= 8 && bufsize <= decBuf
    ensures AllFitBackward(blocks, round, base, decBuf)
  {
    hide GoodInput, GoodList, LengthsFit, Pass1List, Blocked, CompBufSize, Gaps, Lengths;
    InputBlocked(d, bufsize, blocks, round, base);
    forall k | 0 <= k < |blocks| ensures FitsBackward(blocks[k], round, base, decBuf) {
      var b := blocks[k];
      GoodBlockAt(d, bufsize, blocks, round, base, k);
      BlockAt(d, bufsize, blocks, k);
      ListWords(b.stats, round, base, b.start);
      LengthsAtLeast(Own(b, round, base));
      GapsOfBlock(d, b.start, b.start + b.size, Own(b, round, base));
    }
  }

  // ---- round trips ----

  /** One block there and back, given that the earlier blocks were restored. */
  method BlockRoundTrip(d: seq<byte>, b: PendingBlock, round: bool, base: u32, decBuf: u64, backend: seq<byte>) returns (r: Result<seq<byte>>)
    requires (round ==> base > 0) && GoodBlock(d, b, round, base)
    requires b.start + b.size <= |d| < W64 - 3 * W32 && backend == d[..b.start]
    ensures r == if FitsBackward(b, round, base, decBuf) then Ok(d[b.start..b.start + b.size]) else Err(TooLarge)
  {
    hide GoodList, LengthsFit, Pass1List, Decodes, Ordered, Acceptable, CompBufSize;
    var hi := b.start + b.size;
    ghost var ps := Pass1List(b.stats, round, base, b.start);
    var lits := ExtractLiterals(d[b.start..hi], b.stats, round, base, d, b.start);
    GoodIsAcceptable(d, b.start, hi, ps, lits);
    LiteralGaps(d, b.start, hi, SetOf(ps), lits);
    if Oversized(b.size, 4 * |b.stats|, |lits|, decBuf) {
      return Err(TooLarge);
    }
    var out := new byte[b.size](_ => 0);
    var ok := DecompressBackward(round, base, backend, b.start, b.stats, lits, out);
    SameBlock(d, b.start, hi, SetOf(ps), lits, out[..]);
    r := if ok then Ok(out[..]) else Err(Broken);
  }

  lemma LiteralGaps(d: seq<byte>, lo: nat, hi: nat, ps: set<Piece>, lits: seq<byte>)
    requires lo <= hi <= |d| && Decodes(d[..hi], lo, ps, lits)
    ensures |lits| == Gaps(lo, hi, ps)
  {
    LitsCount(d[..hi], lo, ps);
  }

  lemma SameBlock(d: seq<byte>, lo: nat, hi: nat, ps: set<Piece>, lits: seq<byte>, out: seq<byte>)
    requires lo <= hi <= |d| && |out| == hi - lo
    requires Decodes(d[..hi], lo, ps, lits) && Decodes(d[..lo] + out, lo, ps, lits)
    ensures out == d[lo..hi]
  {
    var e := d[..lo] + out;
    assert e[..lo] == d[..lo] == d[..hi][..lo];
    DecodesUnique(e, d[..hi], lo, ps, lits);
    assert out == e[lo..];
  }

  /** Every block of the input is restored, one after the other, when all are within the
      driver's limits for its buffer; otherwise one is refused. With a buffer of the
      compressor's size, matches of eight bytes or more always are. */
  method RoundTripBackward(d: seq<byte>, bufsize: u32, blocks: seq<PendingBlock>, round: bool, base: u32, decBuf: u64)
      returns (r: Result<seq<byte>>)
    requires (round ==> base > 0) && GoodInput(d, bufsize, blocks, round, base) && |d| < W64 - 3 * W32
    ensures r == if AllFitBackward(blocks, round, base, decBuf) then Ok(d) else Err(TooLarge)
    ensures base >= 8 && bufsize <= decBuf ==> r == Ok(d)
  {
    hide GoodInput, GoodBlock, Blocked, FitsBackward;
    InputBlocked(d, bufsize, blocks, round, base);
    if base >= 8 && bufsize <= decBuf { LongMatchesFit(d, bufsize, blocks, round, base, decBuf); }
    var backend: seq<byte> := [];
    var k := 0;
    while k < |blocks|
      invariant k <= |blocks| && BlocksEnd(blocks, k) <= |d| && backend == d[..BlocksEnd(blocks, k)]
      invariant forall j :: 0 <= j < k ==> FitsBackward(blocks[j], round, base, decBuf)
    {
      BlockAt(d, bufsize, blocks, k);
      BlockInside(d, bufsize, blocks, k);
      GoodBlockAt(d, bufsize, blocks, round, base, k);
      r := BlockRoundTrip(d, blocks[k], round, base, decBuf, backend);
      if r.Err? { return; }
      backend := backend + r.value;
      k := k + 1;
    }
    assert d[..|d|] == d;
    r := Ok(backend);
  }

  lemma InputBlocked(d: seq<byte>, bufsize: u32, blocks: seq<PendingBlock>, round: bool, base: u32)
    requires GoodInput(d, bufsize, blocks, round, base)
    ensures Blocked(d, bufsize, blocks) && |d| == BlocksEnd(blocks, |blocks|)
  {
  }
}
