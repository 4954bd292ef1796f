/** What a list of LZ matches and a literal stream mean, independently of any decoder:
    every matched byte equals the byte its match points back to, and the bytes outside
    all matches are, in order, the literals. */
module MatchModel {
  import opened Bytes

  datatype Piece = Piece(src: nat, dest: nat, len: nat) {
    predicate Contains(x: int) {
      dest <= x < dest + len
    }
  }

  /** The match points backwards and its bytes in `d` are those it points to. */
  ghost predicate TrueCopy(d: seq<byte>, p: Piece) {
    && p.src < p.dest && p.dest + p.len <= |d|
    && forall x :: p.dest <= x < p.dest + p.len ==> d[x] == d[x - (p.dest - p.src)]
  }

  lemma PrefixCopy(d: seq<byte>, n: nat, p: Piece)
    requires TrueCopy(d, p) && p.dest + p.len <= n <= |d|
    ensures TrueCopy(d[..n], p)
  {
  }

  ghost predicate Covered(ps: set<Piece>, x: int) {
    exists p :: p in ps && p.Contains(x)
  }

  /** The bytes of `d[lo..]` outside all matches. */
  ghost function Lits(d: seq<byte>, lo: nat, ps: set<Piece>): (l: seq<byte>)
    decreases |d|
  {
    if |d| <= lo then []
    else Lits(d[..|d| - 1], lo, ps) + if Covered(ps, |d| - 1) then [] else [d[|d| - 1]]
  }

  /** The number of positions in `lo..hi` outside all matches. */
  ghost function Gaps(lo: nat, hi: nat, ps: set<Piece>): nat {
    if hi <= lo then 0 else Gaps(lo, hi - 1, ps) + if Covered(ps, hi - 1) then 0 else 1
  }

  /** `d[lo..]` is what the matches `ps` and the literals `lits` describe, after the earlier output `d[..lo]`. */
  ghost predicate Decodes(d: seq<byte>, lo: nat, ps: set<Piece>, lits: seq<byte>) {
    && lo <= |d|
    && (forall p :: p in ps ==> lo <= p.dest && TrueCopy(d, p))
    && Lits(d, lo, ps) == lits
  }

  lemma {:induction false} LitsCount(d: seq<byte>, lo: nat, ps: set<Piece>)
    ensures |Lits(d, lo, ps)| == Gaps(lo, |d|, ps)
    decreases |d|
  {
    if |d| > lo {
      LitsCount(d[..|d| - 1], lo, ps);
    }
  }

  /** The literals of a prefix are a prefix of the literals. */
  lemma {:induction false} LitsPrefix(d: seq<byte>, lo: nat, ps: set<Piece>, n: nat)
    requires n <= |d|
    ensures Lits(d[..n], lo, ps) <= Lits(d, lo, ps)
    decreases |d|
  {
    if n == |d| {
      assert d[..n] == d;
    } else if |d| > lo {
      LitsPrefix(d[..|d| - 1], lo, ps, n);
      assert d[..|d| - 1][..n] == d[..n];
    } else {
      assert Lits(d[..n], lo, ps) == [];
    }
  }

  /** A description determines the output: two outputs that agree before `lo` and
      satisfy the same description are the same. */
  lemma {:induction false} DecodesUnique(d: seq<byte>, e: seq<byte>, lo: nat, ps: set<Piece>, lits: seq<byte>)
    requires |d| == |e| && lo <= |d| && d[..lo] == e[..lo]
    requires Decodes(d, lo, ps, lits) && Decodes(e, lo, ps, lits)
    ensures d == e
  {
    AgreeUpTo(d, e, lo, ps, lits, |d|);
    assert d[..|d|] == d && e[..|e|] == e;
  }

  lemma {:induction false} AgreeUpTo(d: seq<byte>, e: seq<byte>, lo: nat, ps: set<Piece>, lits: seq<byte>, n: nat)
    requires lo <= n <= |d| == |e| && d[..lo] == e[..lo]
    requires Decodes(d, lo, ps, lits) && Decodes(e, lo, ps, lits)
    ensures d[..n] == e[..n]
  {
    if n > lo {
      AgreeUpTo(d, e, lo, ps, lits, n - 1);
      var x := n - 1;
      if Covered(ps, x) {
        var p :| p in ps && p.Contains(x);
        var y := x - (p.dest - p.src);
        assert d[x] == d[y] && e[x] == e[y];
        assert d[..x][y] == e[..x][y];
      } else {
        LitAt(d, lo, ps, x);
        LitAt(e, lo, ps, x);
      }
      assert d[..n] == d[..x] + [d[x]] && e[..n] == e[..x] + [e[x]];
    }
  }

  /** An unmatched byte is the literal whose index is the number of literals before it. */
  lemma LitAt(d: seq<byte>, lo: nat, ps: set<Piece>, x: nat)
    requires lo <= x < |d| && !Covered(ps, x)
    ensures |Lits(d[..x], lo, ps)| < |Lits(d, lo, ps)|
    ensures Lits(d, lo, ps)[|Lits(d[..x], lo, ps)|] == d[x]
  {
    LitsPrefix(d, lo, ps, x + 1);
    assert d[..x + 1][..x] == d[..x];
    assert Lits(d[..x + 1], lo, ps) == Lits(d[..x], lo, ps) + [d[x]];
  }

  /** Only which positions are covered matters to the literals. */
  lemma {:induction false} LitsSameCover(d: seq<byte>, lo: nat, ps: set<Piece>, qs: set<Piece>)
    requires forall x :: lo <= x < |d| ==> (Covered(ps, x) <==> Covered(qs, x))
    ensures Lits(d, lo, ps) == Lits(d, lo, qs)
    decreases |d|
  {
    if |d| > lo {
      LitsSameCover(d[..|d| - 1], lo, ps, qs);
    }
  }

  lemma {:induction false} GapsSameCover(lo: nat, hi: nat, ps: set<Piece>, qs: set<Piece>)
    requires forall x :: lo <= x < hi ==> (Covered(ps, x) <==> Covered(qs, x))
    ensures Gaps(lo, hi, ps) == Gaps(lo, hi, qs)
  {
    if hi > lo {
      GapsSameCover(lo, hi - 1, ps, qs);
    }
  }

  /** Positions in no match count one each. */
  lemma {:induction false} GapsOpen(lo: nat, mid: nat, hi: nat, ps: set<Piece>)
    requires lo <= mid <= hi && forall x :: mid <= x < hi ==> !Covered(ps, x)
    ensures Gaps(lo, hi, ps) == Gaps(lo, mid, ps) + (hi - mid)
  {
    if hi > mid {
      GapsOpen(lo, mid, hi - 1, ps);
    }
  }

  lemma {:induction false} GapsMonotone(lo: nat, mid: nat, hi: nat, ps: set<Piece>)
    requires mid <= hi
    ensures Gaps(lo, mid, ps) <= Gaps(lo, hi, ps)
  {
    if hi > mid {
      GapsMonotone(lo, mid, hi - 1, ps);
    }
  }

  /** Appending literals to decoded output. */
  lemma {:induction false} AppendLits(d: seq<byte>, lo: nat, ps: set<Piece>, lits: seq<byte>, s: seq<byte>)
    requires Decodes(d, lo, ps, lits)
    ensures Decodes(d + s, lo, ps, lits + s)
  {
    if s == [] {
      assert d + s == d && lits + s == lits;
    } else {
      var t := s[..|s| - 1];
      AppendLits(d, lo, ps, lits, t);
      var e := d + s;
      assert e[..|e| - 1] == d + t;
      assert !Covered(ps, |e| - 1) by {
        forall p | p in ps ensures !p.Contains(|e| - 1) { assert TrueCopy(d, p); }
      }
      assert lits + t + [s[|s| - 1]] == lits + s;
      forall p | p in ps ensures TrueCopy(e, p) { assert TrueCopy(d, p); }
    }
  }

  /** Appending the bytes of one more match to decoded output. */
  lemma AppendPiece(d: seq<byte>, lo: nat, ps: set<Piece>, lits: seq<byte>, p: Piece, c: seq<byte>)
    requires Decodes(d, lo, ps, lits)
    requires p.dest == |d| && |c| == p.len && TrueCopy(d + c, p)
    ensures Decodes(d + c, lo, ps + {p}, lits)
  {
    forall q | q in ps ensures TrueCopy(d + c, q) { assert TrueCopy(d, q); }
    assert d == d + c[..0];
    LitsSameCover(d, lo, ps, ps + {p});
    LitsUnderPiece(d, lo, ps + {p}, p, c);
  }

  lemma {:induction false} LitsUnderPiece(d: seq<byte>, lo: nat, ps: set<Piece>, p: Piece, c: seq<byte>)
    requires p in ps && p.dest == |d| && |c| <= p.len && lo <= |d|
    ensures Lits(d + c, lo, ps) == Lits(d, lo, ps)
    decreases |c|
  {
    if c == [] {
      assert d + c == d;
    } else {
      var e := d + c;
      assert e[..|e| - 1] == d + c[..|c| - 1];
      assert p.Contains(|e| - 1);
      LitsUnderPiece(d, lo, ps, p, c[..|c| - 1]);
    }
  }
}
