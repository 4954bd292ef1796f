/** Pass 2 of the compressor on values: every match is cut at the boundaries of its source
    blocks, and each piece is listed with the block holding its source. */
module Cutting {
  import opened Bytes
  import opened MatchModel
  import opened FutureSpec

  /** The source range of `m` meets the block. */
  predicate Meets(m: Piece, lo: nat, hi: nat) {
    m.src < hi && m.src + m.len > lo
  }

  /** The part of `m` with source in the block. */
  function Cut(m: Piece, lo: nat, hi: nat): (p: Piece)
    requires Meets(m, lo, hi) && lo < hi
  {
    var src := Max(m.src, lo);
    Piece(src, m.dest + (src - m.src), Min(m.len - (src - m.src), hi - src))
  }

  /** The pieces of the first `n` matches in the block, in match order. */
  ghost function CutList(m: seq<Piece>, n: nat, lo: nat, hi: nat): seq<Piece>
    requires n <= |m| && lo < hi
  {
    if n == 0 then []
    else CutList(m, n - 1, lo, hi) + if Meets(m[n - 1], lo, hi) then [Cut(m[n - 1], lo, hi)] else []
  }

  /** The match each of those pieces comes from. */
  ghost function CutFrom(m: seq<Piece>, n: nat, lo: nat, hi: nat): seq<nat>
    requires n <= |m|
  {
    if n == 0 then []
    else CutFrom(m, n - 1, lo, hi) + if Meets(m[n - 1], lo, hi) then [n - 1] else []
  }

  ghost predicate SortedBySource(m: seq<Piece>) {
    forall i, j :: 0 <= i < j < |m| ==> m[i].src <= m[j].src
  }

  lemma {:induction false} CutListAt(m: seq<Piece>, n: nat, lo: nat, hi: nat)
    requires n <= |m| && lo < hi
    ensures var f, l := CutFrom(m, n, lo, hi), CutList(m, n, lo, hi);
            && |f| == |l|
            && (forall a :: 0 <= a < |f| ==> f[a] < n && Meets(m[f[a]], lo, hi) && l[a] == Cut(m[f[a]], lo, hi))
            && (forall a, b :: 0 <= a < b < |f| ==> f[a] < f[b])
  {
    if n > 0 {
      CutListAt(m, n - 1, lo, hi);
    }
  }

  lemma {:induction false} CutListHas(m: seq<Piece>, n: nat, lo: nat, hi: nat, i: nat)
    requires i < n <= |m| && lo < hi && Meets(m[i], lo, hi)
    ensures Cut(m[i], lo, hi) in CutList(m, n, lo, hi)
  {
    if i < n - 1 { CutListHas(m, n - 1, lo, hi, i); }
  }

  /** Matches that miss the block leave no trace in the list. */
  lemma {:induction false} CutListSkip(m: seq<Piece>, n: nat, k: nat, lo: nat, hi: nat)
    requires n <= k <= |m| && lo < hi && forall i :: n <= i < k ==> !Meets(m[i], lo, hi)
    ensures CutList(m, k, lo, hi) == CutList(m, n, lo, hi)
    decreases k
  {
    if n < k { CutListSkip(m, n, k - 1, lo, hi); }
  }

  /** In source order, the list of a block is one its decoder accepts. */
  lemma CutListOk(m: seq<Piece>, lo: nat, hi: nat)
    requires SortedBySource(m) && forall i :: 0 <= i < |m| ==> m[i].len > 0 && m[i].src < m[i].dest
    requires lo < hi
    ensures ListOk(CutList(m, |m|, lo, hi), lo, hi)
  {
    var l, f := CutList(m, |m|, lo, hi), CutFrom(m, |m|, lo, hi);
    CutListAt(m, |m|, lo, hi);
    forall a | 0 <= a < |l| ensures RecordOk(l[a], Previous(l, lo, a), hi) {
      if a > 0 {
        assert f[a - 1] < f[a] && m[f[a - 1]].src <= m[f[a]].src;
        assert l[a - 1] == Cut(m[f[a - 1]], lo, hi);
      }
    }
  }

  /** A piece lies within its match and keeps its distance; a true copy stays one. */
  lemma CutWithin(m: Piece, lo: nat, hi: nat)
    requires Meets(m, lo, hi) && m.len > 0 && lo < hi
    ensures var p := Cut(m, lo, hi);
            && p.len > 0 && p.dest - p.src == m.dest - m.src
            && m.dest <= p.dest && p.dest + p.len <= m.dest + m.len
            && lo <= p.src && p.src + p.len <= hi && p.src >= m.src
  {
  }

  /** Every byte of the match with source in the block is in the piece. */
  lemma CutContains(m: Piece, lo: nat, hi: nat, y: nat)
    requires m.src <= y < m.src + m.len && lo <= y < hi
    ensures Meets(m, lo, hi) && Cut(m, lo, hi).Contains(y + (m.dest - m.src))
  {
  }

  lemma CutTrueCopy(d: seq<byte>, m: Piece, lo: nat, hi: nat)
    requires Meets(m, lo, hi) && m.len > 0 && lo < hi && TrueCopy(d, m)
    ensures TrueCopy(d, Cut(m, lo, hi))
  {
    CutWithin(m, lo, hi);
  }

  /** The match has been left behind at `pos`. */
  predicate Expired(m: Piece, pos: nat) {
    m.src + m.len <= pos
  }

  /** Rewinding to the last expired match is enough: in source order, with no match longer
      than a full block, all matches before it have expired by the end of the block. */
  lemma RewindEnough(m: seq<Piece>, lo: nat, hi: nat, saved: nat)
    requires SortedBySource(m) && saved < |m| && Expired(m[saved], lo) && m[saved].len > 0
    requires forall i :: 0 <= i < |m| ==> m[i].len <= hi - lo
    ensures forall j :: 0 <= j < saved ==> Expired(m[j], hi)
  {
    forall j | 0 <= j < saved ensures Expired(m[j], hi) {
      assert m[j].src <= m[saved].src;
    }
  }

  // ---- stable sort by source ----

  function InsertBySource(p: Piece, s: seq<Piece>): seq<Piece> {
    if s == [] then [p]
    else if s[0].src < p.src then [s[0]] + InsertBySource(p, s[1..])
    else [p] + s
  }

  /** The library's stable sort by source, as insertion from the right. */
  function SortBySource(s: seq<Piece>): seq<Piece> {
    if s == [] then [] else InsertBySource(s[0], SortBySource(s[1..]))
  }

  lemma {:induction false} InsertMultiset(p: Piece, s: seq<Piece>)
    ensures multiset(InsertBySource(p, s)) == multiset(s) + multiset{p}
  {
    if s != [] {
      assert s == [s[0]] + s[1..];
      if s[0].src < p.src { InsertMultiset(p, s[1..]); }
    }
  }

  lemma {:induction false} InsertSorted(p: Piece, s: seq<Piece>)
    requires SortedBySource(s)
    ensures SortedBySource(InsertBySource(p, s))
    ensures forall q :: q in InsertBySource(p, s) ==> q == p || q in s
  {
    if s != [] && s[0].src < p.src {
      InsertSorted(p, s[1..]);
      var t := InsertBySource(p, s[1..]);
      forall j | 0 <= j < |t| ensures s[0].src <= t[j].src {
        assert t[j] == p || t[j] in s[1..];
      }
    }
  }

  lemma {:induction false} SortSorted(s: seq<Piece>)
    ensures SortedBySource(SortBySource(s)) && multiset(SortBySource(s)) == multiset(s)
  {
    if s != [] {
      SortSorted(s[1..]);
      InsertSorted(s[0], SortBySource(s[1..]));
      InsertMultiset(s[0], SortBySource(s[1..]));
      assert s == [s[0]] + s[1..];
    }
  }

  ghost predicate AllApart(s: seq<Piece>) {
    forall i, j :: 0 <= i < j < |s| ==> Apart(s[i], s[j])
  }

  lemma {:induction false} InsertApart(p: Piece, s: seq<Piece>)
    requires AllApart(s) && forall q :: q in s ==> Apart(p, q)
    ensures AllApart(InsertBySource(p, s))
    ensures forall q :: q in InsertBySource(p, s) <==> q == p || q in s
  {
    if s != [] && s[0].src < p.src {
      InsertApart(p, s[1..]);
      var t := InsertBySource(p, s[1..]);
      forall j | 0 <= j < |t| ensures Apart(s[0], t[j]) {
        if t[j] == p {
          assert s[0] in s && Apart(p, s[0]);
        } else {
          assert t[j] in t && t[j] in s[1..];
          var k :| 0 <= k < |s| - 1 && s[1..][k] == t[j];
          assert Apart(s[0], s[k + 1]);
        }
      }
    }
  }

  /** Sorting keeps the matches, and keeps them apart. */
  lemma {:induction false} SortApart(s: seq<Piece>)
    requires AllApart(s)
    ensures AllApart(SortBySource(s))
    ensures forall q :: q in SortBySource(s) <==> q in s
  {
    if s != [] {
      SortApart(s[1..]);
      forall q | q in SortBySource(s[1..]) ensures Apart(s[0], q) {
        var j :| 0 <= j < |s| - 1 && s[1..][j] == q;
        assert s[j + 1] == q && Apart(s[0], s[j + 1]);
      }
      InsertApart(s[0], SortBySource(s[1..]));
    }
  }
}
