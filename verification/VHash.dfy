/** VHASH-128: a keyed hash of byte strings, as a polynomial over hashes of 4096-byte blocks. */
module VHash {
  import opened Bytes
  import opened WideArithmetic
  import opened PolyHash

  const NHBYTES := 4096
  const W126 := 0x4000_0000_0000_0000_0000_0000_0000_0000

  datatype Key = Key(nh: seq<u64>, poly: seq<u64>, l3: seq<u64>)

  /** What key set-up delivers: polynomial words are masked, final words lie below the prime. */
  predicate KeyOk(key: Key) {
    && |key.nh| == NHBYTES / 8 + 2 && |key.poly| == 4 && |key.l3| == 4
    && (forall i :: 0 <= i < 4 ==> MaskedKey(key.poly[i]))
    && (forall i :: 0 <= i < 4 ==> key.l3[i] < P64)
  }

  // ---- what is computed ----

  lemma {:induction false} FromLEBelow(s: seq<byte>)
    ensures FromLE(s) < Pow256(|s|)
  {
    if s != [] { FromLEBelow(s[1..]); }
  }

  /** The little-endian word at word offset `i`. */
  function Word(m: seq<byte>, i: nat): (w: u64)
    requires 8 * i + 8 <= |m|
  {
    FromLEBelow(m[8 * i..8 * i + 8]);
    Pow256Values();
    FromLE(m[8 * i..8 * i + 8])
  }

  /** Two message words keyed and multiplied. */
  function Term(m: seq<byte>, i: nat, kp: seq<u64>, j: nat): nat
    requires 8 * i + 16 <= |m| && j + 1 < |kp|
  {
    Product((Word(m, i) + kp[j]) % W64, (Word(m, i + 1) + kp[j + 1]) % W64)
  }

  /** The sum of the first `n` terms. */
  function Nh(m: seq<byte>, kp: seq<u64>, shift: nat, n: nat): nat
    requires 16 * n <= |m| && 2 * n + shift <= |kp|
  {
    if n == 0 then 0 else Nh(m, kp, shift, n - 1) + Term(m, 2 * (n - 1), kp, 2 * (n - 1) + shift)
  }

  /** A block padded with zeros to whole pairs of words. */
  function Pad16(b: seq<byte>): (p: seq<byte>)
    ensures |p| % 16 == 0 && |b| <= |p| < |b| + 16 && p[..|b|] == b
  {
    b + Zeros((|b| + 15) / 16 * 16 - |b|)
  }

  function BlockHash(b: seq<byte>, kp: seq<u64>, shift: nat): (h: nat)
    requires |b| <= NHBYTES && shift <= 2 && |kp| == NHBYTES / 8 + 2
    ensures h < W126
  {
    Nh(Pad16(b), kp, shift, |Pad16(b)| / 16) % W126
  }

  function BlockAt(m: seq<byte>, i: nat): (b: seq<byte>)
    requires i * NHBYTES < |m|
    ensures |b| <= NHBYTES
  {
    m[i * NHBYTES..Min(|m|, (i + 1) * NHBYTES)]
  }

  function BlockCount(m: seq<byte>): nat {
    (|m| + NHBYTES - 1) / NHBYTES
  }

  function PolyKey(key: Key, lane: nat): (k: nat)
    requires KeyOk(key) && lane < 2
  {
    Value(key.poly[2 * lane], key.poly[2 * lane + 1])
  }

  /** Horner's rule over the hashes of the first `n` blocks, modulo 2^127-1. */
  function Horner(m: seq<byte>, key: Key, lane: nat, n: nat): nat
    requires KeyOk(key) && lane < 2 && n <= BlockCount(m)
  {
    if n == 0 then 1
    else Step(Horner(m, key, lane, n - 1), PolyKey(key, lane), BlockHash(BlockAt(m, n - 1), key.nh, 2 * lane))
  }

  /** The polynomial value of a message; the empty one stands for the key itself. */
  function PolyValue(m: seq<byte>, key: Key, lane: nat): nat
    requires KeyOk(key) && lane < 2
  {
    if m == [] then PolyKey(key, lane) else Horner(m, key, lane, BlockCount(m))
  }

  /** One 64-bit half of the hash of `m`. */
  function Tag(m: seq<byte>, key: Key, lane: nat): nat
    requires KeyOk(key) && lane < 2
  {
    FinalHash((PolyValue(m, key, lane) + |m| % NHBYTES * 8 * W64) % P127, key.l3[2 * lane], key.l3[2 * lane + 1])
  }

  // ---- block hashes ----

  lemma WrapAdd(x: nat, y: nat, t: nat)
    requires x == y % W128
    ensures (x + t) % W128 == (y + t) % W128
  {
    SameMod(y + t, x + t, W128, y / W128);
  }

  lemma WordSlice(m: seq<byte>, off: nat, len: nat, i: nat)
    requires 8 * off + len <= |m| && 8 * i + 8 <= len
    ensures Word(m, off + i) == Word(m[8 * off..8 * off + len], i)
  {
    assert m[8 * off..8 * off + len][8 * i..8 * i + 8] == m[8 * (off + i)..8 * (off + i) + 8];
  }

  lemma TermSlice(m: seq<byte>, off: nat, len: nat, i: nat, kp: seq<u64>, j: nat)
    requires 8 * off + len <= |m| && 8 * i + 16 <= len && j + 1 < |kp|
    ensures Term(m, off + i, kp, j) == Term(m[8 * off..8 * off + len], i, kp, j)
  {
    WordSlice(m, off, len, i);
    WordSlice(m, off, len, i + 1);
  }

  /** `acc` holds the sum of the first `n` terms, modulo 2^128. */
  predicate Sums(acc: nat, b: seq<byte>, kp: seq<u64>, shift: nat, n: nat)
    requires 16 * n <= |b| && 2 * n + shift <= |kp|
  {
    acc == Nh(b, kp, shift, n) % W128
  }

  function Wrapping(acc: nat, t: nat): nat {
    (acc + t) % W128
  }

  /** Four terms of a lane, added with wrapping. */
  method AddFour(m: seq<byte>, off: nat, kp: seq<u64>, i: nat, shift: nat, acc: nat, ghost b: seq<byte>, ghost n: nat) returns (r: nat)
    requires 8 * off + |b| <= |m| && b == m[8 * off..8 * off + |b|] && i == 2 * n && 8 * i + 64 <= |b| && i + 8 + shift <= |kp|
    requires Sums(acc, b, kp, shift, n)
    ensures Sums(r, b, kp, shift, n + 4)
  {
    hide Term, Sums, Wrapping;
    NextTerm(m, off, kp, i, shift, b, acc, n);
    r := Wrapping(acc, Term(m, off + i, kp, i + shift));
    NextTerm(m, off, kp, i + 2, shift, b, r, n + 1);
    r := Wrapping(r, Term(m, off + i + 2, kp, i + 2 + shift));
    NextTerm(m, off, kp, i + 4, shift, b, r, n + 2);
    r := Wrapping(r, Term(m, off + i + 4, kp, i + 4 + shift));
    NextTerm(m, off, kp, i + 6, shift, b, r, n + 3);
    r := Wrapping(r, Term(m, off + i + 6, kp, i + 6 + shift));
  }

  lemma NextTerm(m: seq<byte>, off: nat, kp: seq<u64>, i: nat, shift: nat, b: seq<byte>, acc: nat, n: nat)
    requires 8 * off + |b| <= |m| && b == m[8 * off..8 * off + |b|] && i == 2 * n && 8 * i + 16 <= |b| && i + 2 + shift <= |kp|
    requires Sums(acc, b, kp, shift, n)
    ensures Sums(Wrapping(acc, Term(m, off + i, kp, i + shift)), b, kp, shift, n + 1)
  {
    TermSlice(m, off, |b|, i, kp, i + shift);
    hide Term, Sums, Wrapping;
    SumsNext(acc, b, kp, shift, n);
  }

  lemma SumsNext(acc: nat, b: seq<byte>, kp: seq<u64>, shift: nat, n: nat)
    requires 16 * n + 16 <= |b| && 2 * n + 2 + shift <= |kp| && Sums(acc, b, kp, shift, n)
    ensures Sums(Wrapping(acc, Term(b, 2 * n, kp, 2 * n + shift)), b, kp, shift, n + 1)
  {
    hide Term;
    var t := Term(b, 2 * n, kp, 2 * n + shift);
    assert Nh(b, kp, shift, n + 1) == Nh(b, kp, shift, n) + t;
    hide Nh;
    WrapAdd(acc, Nh(b, kp, shift, n), t);
  }

  lemma NhNone(b: seq<byte>, kp: seq<u64>)
    requires |kp| >= 2
    ensures Sums(0, b, kp, 0, 0) && Sums(0, b, kp, 2, 0)
  {
  }

  /** Padding adds one pair exactly when there is a fragment, and starts with it. */
  lemma PadShape(b: seq<byte>)
    ensures var p, full, rest := Pad16(b), |b| / 16, |b| % 16;
            && |p| / 16 == full + (if rest == 0 then 0 else 1)
            && (rest > 0 ==> p[16 * full..16 * full + 16] == b[16 * full..16 * full + rest] + Zeros(16 - rest))
  {
  }

  /** The registers hold the hash of a block, before its top bits are masked. */
  predicate Hashed(rh: u64, rl: u64, b: seq<byte>, kp: seq<u64>, shift: nat)
    requires |b| <= NHBYTES && shift <= 2 && |kp| == NHBYTES / 8 + 2
  {
    Value(rh, rl) == Nh(Pad16(b), kp, shift, |Pad16(b)| / 16) % W128
  }

  /** The two registers of a 128-bit sum. */
  function Halves(acc: nat): (r: (u64, u64)) {
    (acc / W64 % W64, acc % W64)
  }

  lemma ToRegisters(acc: nat, b: seq<byte>, kp: seq<u64>, shift: nat)
    requires |b| <= NHBYTES && shift <= 2 && |kp| == NHBYTES / 8 + 2
    requires Sums(acc, Pad16(b), kp, shift, |Pad16(b)| / 16)
    ensures Hashed(Halves(acc).0, Halves(acc).1, b, kp, shift)
  {
    Split(acc, W64, W64);
    ModIs(acc / W64, W64, 0, acc / W64);
  }

  /** Hash one full block in both lanes, the second a pair of key words ahead. */
  method NhBlock(m: seq<byte>, off: nat, kp: seq<u64>) returns (rh: u64, rl: u64, rh2: u64, rl2: u64)
    requires 8 * off + NHBYTES <= |m| && |kp| == NHBYTES / 8 + 2
    ensures var b := m[8 * off..8 * off + NHBYTES]; Hashed(rh, rl, b, kp, 0) && Hashed(rh2, rl2, b, kp, 2)
  {
    ghost var b := m[8 * off..8 * off + NHBYTES];
    NhNone(b, kp);
    PadWhole(b);
    hide Sums, Hashed, Halves, Pad16;
    var acc: nat, acc2: nat, i: nat := 0, 0, 0;
    ghost var q: nat := 0;
    while i < NHBYTES / 8
      invariant i == 8 * q && q <= 64
      invariant Sums(acc, b, kp, 0, 4 * q) && Sums(acc2, b, kp, 2, 4 * q)
    {
      acc := AddFour(m, off, kp, i, 0, acc, b, 4 * q);
      acc2 := AddFour(m, off, kp, i, 2, acc2, b, 4 * q);
      i, q := i + 8, q + 1;
    }
    ToRegisters(acc, b, kp, 0);
    ToRegisters(acc2, b, kp, 2);
    rh, rl, rh2, rl2 := Halves(acc).0, Halves(acc).1, Halves(acc2).0, Halves(acc2).1;
  }

  lemma PadWhole(b: seq<byte>)
    requires |b| == NHBYTES
    ensures Pad16(b) == b
  {
  }

  /** Terms before the padding are those of the message. */
  lemma {:induction false} NhPrefix(b: seq<byte>, p: seq<byte>, kp: seq<u64>, shift: nat, n: nat)
    requires |b| <= |p| && p[..|b|] == b && 16 * n <= |b| && 2 * n + shift <= |kp|
    ensures Nh(p, kp, shift, n) == Nh(b, kp, shift, n)
  {
    if n > 0 {
      NhPrefix(b, p, kp, shift, n - 1);
      var i := 2 * (n - 1);
      TermSlice(p, 0, |b|, i, kp, i + shift);
    }
  }

  lemma Fragment(m: seq<byte>, off: nat, b: seq<byte>, words: nat, tlen: nat)
    requires 8 * off + |b| <= |m| && b == m[8 * off..8 * off + |b|] && 8 * words + tlen <= |b|
    ensures m[8 * off + words * 8..8 * off + words * 8 + tlen] == b[8 * words..8 * words + tlen]
  {
    var s, t := m[8 * off + words * 8..8 * off + words * 8 + tlen], b[8 * words..8 * words + tlen];
    forall x | 0 <= x < tlen ensures s[x] == t[x] {
      assert b[8 * words + x] == m[8 * off + (8 * words + x)];
    }
  }

  /** The whole pairs of words of a rest. */
  method AddPairs(m: seq<byte>, off: nat, kp: seq<u64>, ghost b: seq<byte>, pairs: nat) returns (acc: nat, acc2: nat)
    requires 8 * off + |b| <= |m| && b == m[8 * off..8 * off + |b|] && 16 * pairs <= |b| < NHBYTES && |kp| == NHBYTES / 8 + 2
    ensures Sums(acc, b, kp, 0, pairs) && Sums(acc2, b, kp, 2, pairs)
  {
    NhNone(b, kp);
    hide Sums, Term, Wrapping;
    acc, acc2 := 0, 0;
    var i: nat := 0;
    ghost var n: nat := 0;
    while i < 2 * pairs
      invariant i == 2 * n && n <= pairs
      invariant Sums(acc, b, kp, 0, n) && Sums(acc2, b, kp, 2, n)
    {
      NextTerm(m, off, kp, i, 0, b, acc, n);
      NextTerm(m, off, kp, i, 2, b, acc2, n);
      acc := Wrapping(acc, Term(m, off + i, kp, i));
      acc2 := Wrapping(acc2, Term(m, off + i, kp, i + 2));
      i, n := i + 2, n + 1;
    }
  }

  /** Hash the rest of a message, short of a block: whole pairs of words, then a zero-padded fragment. */
  method NhTail(m: seq<byte>, off: nat, kp: seq<u64>, remaining: nat) returns (rh: u64, rl: u64, rh2: u64, rl2: u64)
    requires 0 < remaining < NHBYTES && 8 * off + remaining <= |m| && |kp| == NHBYTES / 8 + 2
    ensures var b := m[8 * off..8 * off + remaining]; Hashed(rh, rl, b, kp, 0) && Hashed(rh2, rl2, b, kp, 2)
  {
    ghost var b := m[8 * off..8 * off + remaining];
    PadShape(b);
    hide Sums, Pad16, Hashed, Halves;
    var acc, acc2 := AddPairs(m, off, kp, b, remaining / 16);
    SumsPad(b, acc, kp, 0, remaining / 16);
    SumsPad(b, acc2, kp, 2, remaining / 16);
    if remaining % 16 != 0 {
      acc, acc2 := AddFragment(m, off, kp, b, acc, acc2, 2 * (remaining / 16), remaining % 16);
    }
    ToRegisters(acc, b, kp, 0);
    ToRegisters(acc2, b, kp, 2);
    rh, rl, rh2, rl2 := Halves(acc).0, Halves(acc).1, Halves(acc2).0, Halves(acc2).1;
  }

  lemma SumsPad(b: seq<byte>, acc: nat, kp: seq<u64>, shift: nat, n: nat)
    requires 16 * n <= |b| && 2 * n + shift <= |kp| && Sums(acc, b, kp, shift, n)
    ensures Sums(acc, Pad16(b), kp, shift, n)
  {
    NhPrefix(b, Pad16(b), kp, shift, n);
  }

  /** The last fragment, padded with zeros in a buffer of its own. */
  method AddFragment(m: seq<byte>, off: nat, kp: seq<u64>, ghost b: seq<byte>, acc: nat, acc2: nat, words: nat, tlen: nat)
      returns (r: nat, r2: nat)
    requires 8 * off + |b| <= |m| && b == m[8 * off..8 * off + |b|] && |b| < NHBYTES && |kp| == NHBYTES / 8 + 2
    requires words == 2 * (|b| / 16) && 0 < tlen == |b| % 16
    requires var p := Pad16(b); Sums(acc, p, kp, 0, |b| / 16) && Sums(acc2, p, kp, 2, |b| / 16)
    ensures var p := Pad16(b); Sums(r, p, kp, 0, |p| / 16) && Sums(r2, p, kp, 2, |p| / 16)
  {
    ghost var p := Pad16(b);
    PadShape(b);
    hide Sums, Term, Pad16, Wrapping;
    var buf := m[8 * off + words * 8..8 * off + words * 8 + tlen] + Zeros(16 - tlen);
    Fragment(m, off, b, words, tlen);
    NextFragment(p, kp, words, 0, buf, acc, |b| / 16);
    NextFragment(p, kp, words, 2, buf, acc2, |b| / 16);
    r := Wrapping(acc, Term(buf, 0, kp, words));
    r2 := Wrapping(acc2, Term(buf, 0, kp, words + 2));
  }

  lemma NextFragment(p: seq<byte>, kp: seq<u64>, i: nat, shift: nat, buf: seq<byte>, acc: nat, n: nat)
    requires i == 2 * n && 8 * i + 16 <= |p| && buf == p[8 * i..8 * i + 16] && i + 2 + shift <= |kp|
    requires Sums(acc, p, kp, shift, n)
    ensures Sums(Wrapping(acc, Term(buf, 0, kp, i + shift)), p, kp, shift, n + 1)
  {
    TermSlice(p, i, 16, 0, kp, i + shift);
    hide Term, Sums, Wrapping;
    SumsNext(acc, p, kp, shift, n);
  }

  // ---- the polynomial over the blocks ----

  /** The accumulator of a lane after the first `n > 0` blocks. */
  predicate Lane(ch: u64, cl: u64, m: seq<byte>, key: Key, lane: nat, n: nat)
    requires KeyOk(key) && lane < 2 && n <= BlockCount(m)
  {
    ch <= ACC_MAX && Value(ch, cl) % P127 == Horner(m, key, lane, n)
  }

  /** Masking the top bits leaves the hash modulo 2^126. */
  lemma MaskedHash(rh: u64, rl: u64, b: seq<byte>, kp: seq<u64>, shift: nat)
    requires |b| <= NHBYTES && shift <= 2 && |kp| == NHBYTES / 8 + 2 && Hashed(rh, rl, b, kp, shift)
    ensures Value(rh % W62, rl) == BlockHash(b, kp, shift)
  {
    var x := Nh(Pad16(b), kp, shift, |Pad16(b)| / 16);
    hide Nh, Pad16;
    FoldMask(rh, rl, x);
  }

  lemma FoldMask(rh: u64, rl: u64, x: nat)
    requires Value(rh, rl) == x % W128
    ensures Value(rh % W62, rl) == x % W126
  {
    assert rh == rh / W62 * W62 + rh % W62;
    assert x == x / W128 * W128 + x % W128;
    ModIs(x, W126, x / W128 * 4 + rh / W62, Value(rh % W62, rl));
  }

  lemma StepMod(acc: nat, y: nat, k: nat, b: nat)
    requires acc % P127 == y
    ensures Step(acc, k, b) == Step(y, k, b)
  {
    var q := acc / P127;
    assert (y + q * P127) * k == y * k + q * k * P127;
    SameMod(Product(acc, k) + b, Product(y, k) + b, P127, q * k);
  }

  /** The first block: its hash plus the key. */
  method StartLane(key: Key, lane: nat, rh: u64, rl: u64, ghost m: seq<byte>) returns (ch: u64, cl: u64)
    requires KeyOk(key) && lane < 2 && m != [] && Hashed(rh, rl, BlockAt(m, 0), key.nh, 2 * lane)
    ensures Lane(ch, cl, m, key, lane, 1)
  {
    hide Hashed, BlockHash, BlockAt, MaskedKey;
    var h, l := key.poly[2 * lane], key.poly[2 * lane + 1];
    MaskedBelow(h);
    MaskedHash(rh, rl, BlockAt(m, 0), key.nh, 2 * lane);
    ch, cl := Add128(rh % W62, rl, h, l);
    HornerFirst(m, key, lane);
    FitsAccumulator(ch, cl);
  }

  lemma FitsAccumulator(h: u64, l: u64)
    requires Value(h, l) < W126 + W61 * W64
    ensures h <= ACC_MAX
  {
  }

  lemma HornerFirst(m: seq<byte>, key: Key, lane: nat)
    requires KeyOk(key) && lane < 2 && m != []
    ensures Horner(m, key, lane, 1) == (BlockHash(BlockAt(m, 0), key.nh, 2 * lane) + PolyKey(key, lane)) % P127
  {
    hide BlockHash, BlockAt, PolyKey;
    assert Horner(m, key, lane, 0) == 1;
    assert Horner(m, key, lane, 1) == Step(1, PolyKey(key, lane), BlockHash(BlockAt(m, 0), key.nh, 2 * lane));
  }

  /** One more block, in the arithmetic of either machine. */
  method StepLane(arch64: bool, key: Key, lane: nat, ch0: u64, cl0: u64, rh: u64, rl: u64, ghost m: seq<byte>, ghost n: nat)
      returns (ch: u64, cl: u64)
    requires KeyOk(key) && lane < 2 && n < BlockCount(m) && Lane(ch0, cl0, m, key, lane, n)
    requires Hashed(rh, rl, BlockAt(m, n), key.nh, 2 * lane)
    ensures Lane(ch, cl, m, key, lane, n + 1)
  {
    hide Hashed, BlockHash, BlockAt, MaskedKey, Step;
    MaskedHash(rh, rl, BlockAt(m, n), key.nh, 2 * lane);
    var h, l := key.poly[2 * lane], key.poly[2 * lane + 1];
    if arch64 {
      ch, cl := PolyStep(ch0, cl0, h, l, rh % W62, rl);
    } else {
      ch, cl := PolyStepFunc(ch0, cl0, h, l, rh % W62, rl);
    }
    StepMod(Value(ch0, cl0), Horner(m, key, lane, n), PolyKey(key, lane), BlockHash(BlockAt(m, n), key.nh, 2 * lane));
  }

  /** The final hash of a lane. */
  method FinishLane(key: Key, lane: nat, ch: u64, cl: u64, remaining: nat, ghost m: seq<byte>) returns (r: u64)
    requires KeyOk(key) && lane < 2 && remaining == |m| % NHBYTES && Value(ch, cl) % P127 == PolyValue(m, key, lane) % P127
    ensures r == Tag(m, key, lane)
  {
    hide PolyValue, FinalHash, MaskedKey;
    var bits := remaining * 8;
    SumMod(Value(ch, cl), PolyValue(m, key, lane), bits * W64);
    r := L3Hash(ch, cl, key.l3[2 * lane], key.l3[2 * lane + 1], bits);
  }

  lemma SumMod(x: int, y: int, z: int)
    requires x % P127 == y % P127
    ensures (x + z) % P127 == (y + z) % P127
  {
    var q := ModGap(x, y, P127);
    SameMod(x + z, y + z, P127, q);
  }

  lemma WholeBlock(m: seq<byte>, i: nat)
    requires (i + 1) * NHBYTES <= |m|
    ensures i < BlockCount(m) && m[8 * (i * 512)..8 * (i * 512) + NHBYTES] == BlockAt(m, i)
  {
  }

  lemma LastBlock(m: seq<byte>)
    requires |m| % NHBYTES > 0
    ensures var i := |m| / NHBYTES;
            && BlockCount(m) == i + 1 && 8 * (i * 512) + |m| % NHBYTES == |m|
            && m[8 * (i * 512)..8 * (i * 512) + |m| % NHBYTES] == BlockAt(m, i)
  {
  }

  lemma NoLastBlock(m: seq<byte>)
    requires |m| % NHBYTES == 0
    ensures BlockCount(m) == |m| / NHBYTES
  {
  }

  /** The finished accumulator of a non-empty message. */
  lemma LaneDone(ch: u64, cl: u64, m: seq<byte>, key: Key, lane: nat)
    requires KeyOk(key) && lane < 2 && m != [] && Lane(ch, cl, m, key, lane, BlockCount(m))
    ensures Value(ch, cl) % P127 == PolyValue(m, key, lane) % P127
  {
    hide Horner;
    ModIs(Value(ch, cl) % P127, P127, 0, Value(ch, cl) % P127);
  }

  /** The hash of a whole message. */
  method VHash(key: Key, m: seq<byte>) returns (res: u64, tagl: u64)
    requires KeyOk(key)
    ensures res == Tag(m, key, 0) && tagl == Tag(m, key, 1)
  {
    hide Tag, Lane, Hashed, KeyOk, BlockAt;
    var nblocks, remaining := |m| / NHBYTES, |m| % NHBYTES;
    var ch, cl, ch2, cl2;
    if nblocks > 0 {
      ch, cl, ch2, cl2 := HashBlocks(true, key, m);
      if remaining > 0 {
        LastBlock(m);
        var rh, rl, rh2, rl2 := NhTail(m, nblocks * 512, NhKey(key), remaining);
        ch, cl := StepLane(true, key, 0, ch, cl, rh, rl, m, nblocks);
        ch2, cl2 := StepLane(true, key, 1, ch2, cl2, rh2, rl2, m, nblocks);
      } else {
        NoLastBlock(m);
      }
      LaneDone(ch, cl, m, key, 0);
      LaneDone(ch2, cl2, m, key, 1);
    } else if remaining > 0 {
      LastBlock(m);
      var rh, rl, rh2, rl2 := NhTail(m, 0, NhKey(key), remaining);
      ch, cl := StartLane(key, 0, rh, rl, m);
      ch2, cl2 := StartLane(key, 1, rh2, rl2, m);
      LaneDone(ch, cl, m, key, 0);
      LaneDone(ch2, cl2, m, key, 1);
    } else {
      ch, cl, ch2, cl2 := KeyWord(key, 0), KeyWord(key, 1), KeyWord(key, 2), KeyWord(key, 3);
    }
    tagl := FinishLane(key, 1, ch2, cl2, remaining, m);
    res := FinishLane(key, 0, ch, cl, remaining, m);
  }

  function NhKey(key: Key): (kp: seq<u64>)
    requires KeyOk(key)
    ensures |kp| == NHBYTES / 8 + 2 && kp == key.nh
  {
    key.nh
  }

  function KeyWord(key: Key, i: nat): (k: u64)
    requires KeyOk(key) && i < 4
    ensures |key.poly| == 4 && k == key.poly[i]
  {
    key.poly[i]
  }

  /** All full blocks of a message that has one. */
  method HashBlocks(arch64: bool, key: Key, m: seq<byte>) returns (ch: u64, cl: u64, ch2: u64, cl2: u64)
    requires KeyOk(key) && |m| >= NHBYTES
    ensures |m| / NHBYTES <= BlockCount(m)
    ensures Lane(ch, cl, m, key, 0, |m| / NHBYTES) && Lane(ch2, cl2, m, key, 1, |m| / NHBYTES)
  {
    hide Lane, Hashed, KeyOk, BlockAt;
    WholeBlock(m, 0);
    var rh, rl, rh2, rl2 := NhBlock(m, 0, NhKey(key));
    ch, cl := StartLane(key, 0, rh, rl, m);
    ch2, cl2 := StartLane(key, 1, rh2, rl2, m);
    var i := 1;
    while i < |m| / NHBYTES
      invariant 1 <= i <= |m| / NHBYTES <= BlockCount(m)
      invariant Lane(ch, cl, m, key, 0, i) && Lane(ch2, cl2, m, key, 1, i)
    {
      WholeBlock(m, i);
      rh, rl, rh2, rl2 := NhBlock(m, i * 512, NhKey(key));
      ch, cl := StepLane(arch64, key, 0, ch, cl, rh, rl, m, i);
      ch2, cl2 := StepLane(arch64, key, 1, ch2, cl2, rh2, rl2, m, i);
      i := i + 1;
    }
  }
}
