/** The byte layout of a spilled block: records of length, source, destination and
    payload, ended by a zero length. */
module SpillRecords {
  import opened Bytes
  import opened PendingModel

  const SPILL_HEADER := 20

  function RecBytes(r: Rec): (b: seq<byte>)
    requires |r.data| <= U32_MAX
    ensures |b| == SPILL_HEADER + |r.data|
  {
    LE32(|r.data|) + LE64(r.src) + LE64(r.dest) + r.data
  }

  ghost predicate Fits(rs: seq<Rec>) {
    forall i :: 0 <= i < |rs| ==> 0 < |rs[i].data| <= U32_MAX
  }

  ghost function Encode(rs: seq<Rec>): seq<byte>
    requires Fits(rs)
  {
    if rs == [] then [] else Encode(rs[..|rs| - 1]) + RecBytes(rs[|rs| - 1])
  }

  /** Where record `k` starts. */
  ghost function Start(rs: seq<Rec>, k: nat): nat
    requires Fits(rs) && k <= |rs|
  {
    |Encode(rs[..k])|
  }

  /** Record `k` and, at the end, the end mark, as found in `buf`. */
  ghost predicate Holds(buf: seq<byte>, rs: seq<Rec>) {
    && Fits(rs)
    && |Encode(rs)| + 4 <= |buf|
    && buf[..|Encode(rs)|] == Encode(rs)
    && buf[|Encode(rs)|..|Encode(rs)| + 4] == LE32(0)
  }

  lemma {:induction false} EncodePrefix(rs: seq<Rec>, k: nat)
    requires Fits(rs) && k <= |rs|
    ensures Encode(rs[..k]) <= Encode(rs)
    decreases |rs|
  {
    if k == |rs| {
      assert rs[..k] == rs;
    } else {
      EncodePrefix(rs[..|rs| - 1], k);
      assert rs[..|rs| - 1][..k] == rs[..k];
    }
  }

  lemma EncodeNext(rs: seq<Rec>, k: nat)
    requires Fits(rs) && k < |rs|
    ensures Encode(rs[..k + 1]) == Encode(rs[..k]) + RecBytes(rs[k])
    ensures Start(rs, k + 1) == Start(rs, k) + SPILL_HEADER + |rs[k].data|
  {
    assert rs[..k + 1][..k] == rs[..k];
  }

  /** A reader positioned at record `k` finds its fields and payload, and the next record behind it. */
  lemma ReadRec(buf: seq<byte>, rs: seq<Rec>, k: nat)
    requires Holds(buf, rs) && k < |rs|
    ensures var p := Start(rs, k);
            var n := |rs[k].data|;
            && 0 < n <= U32_MAX && p + SPILL_HEADER + n + 4 <= |buf|
            && FromLE(buf[p..p + 4]) == n
            && FromLE(buf[p + 4..p + 12]) == rs[k].src
            && FromLE(buf[p + 12..p + 20]) == rs[k].dest
            && buf[p + 20..p + 20 + n] == rs[k].data
            && Start(rs, k + 1) == p + SPILL_HEADER + n
  {
    var p, r := Start(rs, k), rs[k];
    EncodeNext(rs, k);
    EncodePrefix(rs, k + 1);
    var e := Encode(rs);
    PrefixSlice(buf, e, Encode(rs[..k]), RecBytes(r));
    RecFields(buf, p, r);
  }

  lemma PrefixSlice(buf: seq<byte>, e: seq<byte>, a: seq<byte>, b: seq<byte>)
    requires |e| <= |buf| && buf[..|e|] == e && a + b <= e
    ensures buf[|a|..|a| + |b|] == b
  {
    assert e[|a|..|a| + |b|] == (a + b)[|a|..] == b;
    assert buf[|a|..|a| + |b|] == buf[..|e|][|a|..|a| + |b|];
  }

  lemma FourParts(a: seq<byte>, b: seq<byte>, c: seq<byte>, d: seq<byte>)
    requires |a| == 4 && |b| == 8 && |c| == 8
    ensures var s := a + b + c + d; s[0..4] == a && s[4..12] == b && s[12..20] == c && s[20..20 + |d|] == d
  {
    var s := a + b + c + d;
    assert s[0..4] == a;
    assert s[4..12] == b;
    assert s[12..20] == c;
    assert s[20..20 + |d|] == d;
  }

  lemma RecFields(buf: seq<byte>, p: nat, r: Rec)
    requires |r.data| <= U32_MAX && p + |RecBytes(r)| <= |buf| && buf[p..p + |RecBytes(r)|] == RecBytes(r)
    ensures buf[p..p + 4] == LE32(|r.data|) && buf[p + 4..p + 12] == LE64(r.src)
    ensures buf[p + 12..p + 20] == LE64(r.dest) && buf[p + 20..p + 20 + |r.data|] == r.data
  {
    var c := RecBytes(r);
    FourParts(LE32(|r.data|), LE64(r.src), LE64(r.dest), r.data);
    hide LE32, LE64;
    var q := buf[p..p + |c|];
    SubSlice(buf, p, q, 0, 4);
    SubSlice(buf, p, q, 4, 8);
    SubSlice(buf, p, q, 12, 8);
    SubSlice(buf, p, q, 20, |r.data|);
  }

  /** After the last record the reader finds the end mark. */
  lemma ReadEnd(buf: seq<byte>, rs: seq<Rec>)
    requires Holds(buf, rs)
    ensures Start(rs, |rs|) + 4 <= |buf|
    ensures FromLE(buf[Start(rs, |rs|)..Start(rs, |rs|) + 4]) == 0
  {
    assert rs[..|rs|] == rs;
  }

  /** A record written at the end of the encoded ones extends them. */
  lemma WriteRec(buf: seq<byte>, rs: seq<Rec>, r: Rec)
    requires Fits(rs) && 0 < |r.data| <= U32_MAX
    requires |Encode(rs)| + |RecBytes(r)| <= |buf|
    requires buf[..|Encode(rs)|] == Encode(rs)
    requires buf[|Encode(rs)|..|Encode(rs)| + |RecBytes(r)|] == RecBytes(r)
    ensures Fits(rs + [r])
    ensures |Encode(rs + [r])| == |Encode(rs)| + SPILL_HEADER + |r.data|
    ensures buf[..|Encode(rs + [r])|] == Encode(rs + [r])
  {
    assert (rs + [r])[..|rs|] == rs;
    var p, n := |Encode(rs)|, |RecBytes(r)|;
    assert buf[..p + n] == buf[..p] + buf[p..p + n];
  }

  // ---- the VM file ----

  /** Block `b` of the file. */
  function BlockAt(file: seq<byte>, vs: nat, b: nat): (r: seq<byte>)
    requires (b + 1) * vs <= |file|
    ensures |r| == vs
  {
    Products(b, vs);
    file[b * vs..b * vs + vs]
  }

  lemma Products(b: nat, vs: nat)
    ensures (b + 1) * vs == b * vs + vs && b * vs >= 0
  {
  }

  /** Seek to `off` and write `data`, extending the file when needed. */
  function WriteAt(file: seq<byte>, off: nat, data: seq<byte>): (r: seq<byte>)
    requires off <= |file|
    ensures |r| == Max(|file|, off + |data|)
  {
    file[..off] + data + if off + |data| < |file| then file[off + |data|..] else []
  }

  lemma WriteAtFrame(file: seq<byte>, off: nat, data: seq<byte>, lo: nat, n: nat)
    requires off <= |file| && lo + n <= |file|
    requires lo + n <= off || off + |data| <= lo
    ensures WriteAt(file, off, data)[lo..lo + n] == file[lo..lo + n]
  {
  }

  lemma WriteAtSelf(file: seq<byte>, off: nat, data: seq<byte>)
    requires off <= |file|
    ensures WriteAt(file, off, data)[off..off + |data|] == data
  {
  }

  /** Writing one block stores it and leaves every other block alone. */
  lemma WriteBlock(file: seq<byte>, vs: nat, b: nat, buf: seq<byte>, n: nat)
    requires |file| == n * vs && b <= n && |buf| == vs
    ensures b * vs <= |file|
    ensures var r := WriteAt(file, b * vs, buf);
            && |r| == (if b == n then n + 1 else n) * vs
            && (b + 1) * vs <= |r| && BlockAt(r, vs, b) == buf
  {
    Products(b, vs);
    MulLe(b, n, vs);
    if b < n { MulLe(b + 1, n, vs); }
    WriteAtSelf(file, b * vs, buf);
  }

  lemma WriteOtherBlock(file: seq<byte>, vs: nat, b: nat, buf: seq<byte>, n: nat, c: nat)
    requires |file| == n * vs && b <= n && |buf| == vs && c < n && c != b
    requires b * vs <= |file|
    ensures var r := WriteAt(file, b * vs, buf);
            (c + 1) * vs <= |file| && (c + 1) * vs <= |r| && BlockAt(r, vs, c) == BlockAt(file, vs, c)
  {
    hide WriteAt;
    Products(c, vs);
    Products(b, vs);
    MulLe(c + 1, n, vs);
    if c < b { MulLe(c + 1, b, vs); } else { MulLe(b + 1, c, vs); }
    WriteAtFrame(file, b * vs, buf, c * vs, vs);
  }

  lemma MulLe(a: nat, b: nat, c: nat)
    requires a <= b
    ensures a * c <= b * c
  {
  }
}
