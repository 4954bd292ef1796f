/** Bytes, machine words, and the little-endian layouts the program stores. */
module Bytes {
  type byte = x: int | 0 <= x < 0x100
  type u32 = x: int | 0 <= x < 0x1_0000_0000
  type u64 = x: int | 0 <= x < 0x1_0000_0000_0000_0000

  const W32 := 0x1_0000_0000
  const W64 := 0x1_0000_0000_0000_0000

  const U32_MAX := 0xFFFF_FFFF
  const U64_MAX := 0xFFFF_FFFF_FFFF_FFFF

  datatype Option<+T> = None | Some(value: T)

  /** The ways decoding fails with an error message, rather than by rejecting its input. */
  datatype Error = Stalled | CorruptBlock | ReadFailed | TooLarge | Broken

  datatype Result<+T> = Ok(value: T) | Err(error: Error)

  ghost function SetOf<T>(s: seq<T>): set<T> {
    set x | x in s
  }

  lemma SetOfAppend<T>(s: seq<T>, x: T)
    ensures SetOf(s + [x]) == SetOf(s) + {x}
  {
    var a, b := SetOf(s + [x]), SetOf(s) + {x};
    forall y | y in a ensures y in b {
      assert y in s + [x];
    }
    forall y | y in b ensures y in a {
      assert x == (s + [x])[|s|];
      if y in s { assert y in s + [x]; }
    }
  }

  lemma SubsetSize<T>(a: set<T>, b: set<T>)
    requires a <= b
    ensures |a| <= |b|
  {
    assert b == a + (b - a);
  }

  /** A one-to-one mapping into `b`. */
  lemma {:induction false} InjectionSize<S, T>(a: set<S>, b: set<T>, f: map<S, T>)
    requires forall x :: x in a ==> x in f && f[x] in b
    requires forall x, y :: x in a && y in a && f[x] == f[y] ==> x == y
    ensures |a| <= |b|
  {
    if a != {} {
      var x :| x in a;
      InjectionSize(a - {x}, b - {f[x]}, f);
    }
  }

  lemma {:induction false} DistinctSize<T>(s: seq<T>)
    requires forall i, j :: 0 <= i < j < |s| ==> s[i] != s[j]
    ensures |SetOf(s)| == |s|
  {
    if s == [] {
      assert SetOf(s) == {};
    } else {
      var n := |s| - 1;
      DistinctSize(s[..n]);
      SetOfAppend(s[..n], s[n]);
      assert s == s[..n] + [s[n]] && s[n] !in s[..n];
    }
  }

  lemma SuffixCons<T>(s: seq<T>, n: nat, x: T, t: seq<T>)
    requires n <= |s| && s[n..] == [x] + t
    ensures n < |s| && s[n] == x && s[n + 1..] == t && s[..n + 1] == s[..n] + [x]
  {
    assert s[n] == s[n..][0];
    assert s[n + 1..] == s[n..][1..];
  }

  /** Sequences that agree on a range have the same slice there. */
  lemma SameRange<T>(a: seq<T>, b: seq<T>, lo: nat, hi: nat)
    requires lo <= hi <= |a| == |b| && forall k :: lo <= k < hi ==> a[k] == b[k]
    ensures a[lo..hi] == b[lo..hi]
  {
  }

  /** A slice of a slice. */
  lemma SubSlice(d: seq<byte>, offset: nat, buf: seq<byte>, p: nat, l: nat)
    requires offset + |buf| <= |d| && buf == d[offset..offset + |buf|] && p + l <= |buf|
    ensures buf[p..p + l] == d[offset + p..offset + p + l]
  {
    var s, t := buf[p..p + l], d[offset + p..offset + p + l];
    forall x | 0 <= x < l ensures s[x] == t[x] {
      assert buf[p + x] == d[offset + (p + x)];
    }
  }

  function Zeros(n: nat): (z: seq<byte>)
    ensures |z| == n && forall i :: 0 <= i < n ==> z[i] == 0
  {
    seq(n, i => 0)
  }

  /** 256 to the power n. */
  function Pow256(n: nat): (p: nat)
    ensures p > 0
  {
    if n == 0 then 1 else 256 * Pow256(n - 1)
  }

  /** The n low bytes of x, least significant first. */
  function ToLE(x: nat, n: nat): (s: seq<byte>)
    ensures |s| == n
  {
    if n == 0 then [] else [x % 256] + ToLE(x / 256, n - 1)
  }

  function FromLE(s: seq<byte>): (x: nat)
  {
    if s == [] then 0 else s[0] + 256 * FromLE(s[1..])
  }

  /** Reading back a stored word gives the word, as long as it fits its field. */
  lemma {:induction false} FromToLE(x: nat, n: nat)
    requires x < Pow256(n)
    ensures FromLE(ToLE(x, n)) == x
  {
    if n > 0 {
      FromToLE(x / 256, n - 1);
      assert ToLE(x, n)[1..] == ToLE(x / 256, n - 1);
    }
  }

  lemma Pow256Values()
    ensures Pow256(4) == 0x1_0000_0000
    ensures Pow256(8) == 0x1_0000_0000_0000_0000
  {
    assert Pow256(2) == 0x1_0000;
    assert Pow256(4) == 0x1_0000 * 0x1_0000;
    assert Pow256(6) == 0x1_0000 * 0x1_0000_0000;
  }

  function LE32(x: u32): (s: seq<byte>)
    ensures |s| == 4 && FromLE(s) == x
  {
    Pow256Values(); FromToLE(x, 4);
    ToLE(x, 4)
  }

  function LE64(x: u64): (s: seq<byte>)
    ensures |s| == 8 && FromLE(s) == x
  {
    Pow256Values(); FromToLE(x, 8);
    ToLE(x, 8)
  }

  /** `s` with the bytes from `off` on replaced by `data`. */
  function Splice(s: seq<byte>, off: nat, data: seq<byte>): (r: seq<byte>)
    requires off + |data| <= |s|
    ensures |r| == |s|
  {
    s[..off] + data + s[off + |data|..]
  }

  lemma SpliceAt(s: seq<byte>, off: nat, data: seq<byte>)
    requires off + |data| <= |s|
    ensures var r := Splice(s, off, data);
            && r[off..off + |data|] == data
            && forall k :: 0 <= k < off || off + |data| <= k < |s| ==> r[k] == s[k]
  {
  }

  lemma SpliceWhole(s: seq<byte>, data: seq<byte>)
    requires |s| == |data|
    ensures Splice(s, 0, data) == data
  {
  }

  /** `s` after the first `n` bytes of `data` have been copied to `at`. */
  function Filled(s: seq<byte>, at: nat, data: seq<byte>, n: nat): (r: seq<byte>)
    requires at + |data| <= |s| && n <= |data|
    ensures |r| == |s|
  {
    Splice(s, at, data[..n])
  }

  /** The next piece extends the copied prefix. */
  lemma FilledNext(s: seq<byte>, at: nat, data: seq<byte>, off: nat, n: nat)
    requires at + |data| <= |s| && off + n <= |data|
    ensures Splice(Filled(s, at, data, off), at + off, data[off..off + n]) == Filled(s, at, data, off + n)
  {
    var x, y := Splice(Filled(s, at, data, off), at + off, data[off..off + n]), Filled(s, at, data, off + n);
    assert data[..off] + data[off..off + n] == data[..off + n];
    assert x == y;
  }

  lemma FilledEnds(s: seq<byte>, at: nat, data: seq<byte>)
    requires at + |data| <= |s|
    ensures Filled(s, at, data, 0) == s
    ensures Filled(s, at, data, |data|) == Splice(s, at, data)
  {
    assert data[..|data|] == data;
  }

  /** copy_from_slice into a buffer. */
  method CopyInto(buf: array<byte>, off: nat, data: seq<byte>)
    requires off + |data| <= buf.Length
    modifies buf
    ensures buf[..] == Splice(old(buf[..]), off, data)
  {
    forall k | 0 <= k < |data| {
      buf[off + k] := data[k];
    }
  }

  function Min(a: int, b: int): (m: int)
    ensures m <= a && m <= b && (m == a || m == b)
  {
    if a <= b then a else b
  }

  function Max(a: int, b: int): (m: int)
    ensures m >= a && m >= b && (m == a || m == b)
  {
    if a >= b then a else b
  }
}
