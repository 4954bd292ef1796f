/** What the parts of VHASH-128 mean: where the block hash vanishes and how each word moves it,
    the polynomial as a sum of powers, and the final hash as a product of two keyed digits. */
module VHashLaws {
  import opened Bytes
  import opened WideArithmetic
  import opened PolyHash
  import opened VHash

  // ---- words ----

  /** Byte `k` of a little-endian number has weight 256 to the power k. */
  lemma {:induction false} LittleEndian(s: seq<byte>, x: byte)
    ensures FromLE(s + [x]) == FromLE(s) + x * Pow256(|s|)
  {
    var more := s + [x];
    if s == [] {
      assert more == [x] && FromLE([]) == 0 && Pow256(0) == 1;
      assert FromLE([x]) == x + 256 * FromLE([x][1..]);
    } else {
      assert more[1..] == s[1..] + [x];
      LittleEndian(s[1..], x);
      Rescale(FromLE(s[1..]), x, Pow256(|s| - 1));
    }
  }

  lemma Rescale(r: int, x: int, p: int)
    ensures 256 * (r + x * p) == 256 * r + x * (256 * p)
  {
  }

  // ---- the block hash ----

  /** Every even word is the negative of its key word. */
  predicate Cancels(b: seq<byte>, kp: seq<u64>, shift: nat, n: nat)
    requires 16 * n <= |b| && 2 * n + shift <= |kp|
  {
    forall i :: 0 <= i < n ==> Word(b, 2 * i) == (W64 - kp[2 * i + shift]) % W64
  }

  lemma {:induction false} CancelsSum(b: seq<byte>, kp: seq<u64>, shift: nat, n: nat)
    requires 16 * n <= |b| && 2 * n + shift <= |kp| && Cancels(b, kp, shift, n)
    ensures Nh(b, kp, shift, n) == 0
  {
    if n > 0 {
      CancelsSum(b, kp, shift, n - 1);
      var i := 2 * (n - 1);
      assert Word(b, 2 * (n - 1)) == (W64 - kp[i + shift]) % W64;
      hide Nh, Word;
      CancelledTerm(b, i, kp, i + shift);
      NhNext(b, kp, shift, n);
    }
  }

  lemma CancelledTerm(b: seq<byte>, i: nat, kp: seq<u64>, j: nat)
    requires 8 * i + 16 <= |b| && j + 1 < |kp| && Word(b, i) == (W64 - kp[j]) % W64
    ensures Term(b, i, kp, j) == 0
  {
    hide Word;
    assert (Word(b, i) + kp[j]) % W64 == 0;
  }

  lemma NhNext(b: seq<byte>, kp: seq<u64>, shift: nat, n: nat)
    requires 16 * n <= |b| && 2 * n + shift <= |kp| && n > 0
    ensures Nh(b, kp, shift, n) == Nh(b, kp, shift, n - 1) + Term(b, 2 * (n - 1), kp, 2 * (n - 1) + shift)
  {
    hide Term;
  }

  /** The hash of such a block is zero, whatever its odd words are. */
  lemma ZeroHash(b: seq<byte>, kp: seq<u64>, shift: nat)
    requires |b| <= NHBYTES && shift <= 2 && |kp| == NHBYTES / 8 + 2
    requires Cancels(Pad16(b), kp, shift, |Pad16(b)| / 16)
    ensures BlockHash(b, kp, shift) == 0
  {
    CancelsSum(Pad16(b), kp, shift, |Pad16(b)| / 16);
  }

  /** Two blocks of `n` pairs of words that differ in word `w` at most. */
  predicate DifferAt(a: seq<byte>, b: seq<byte>, n: nat, w: nat)
    requires 16 * n <= |a| && 16 * n <= |b|
  {
    forall v :: 0 <= v < 2 * n && v != w ==> Word(a, v) == Word(b, v)
  }

  lemma {:induction false} SameSum(a: seq<byte>, b: seq<byte>, kp: seq<u64>, shift: nat, n: nat, w: nat)
    requires 16 * n <= |a| && 16 * n <= |b| && 2 * n + shift <= |kp| && DifferAt(a, b, n, w) && 2 * n <= w
    ensures Nh(a, kp, shift, n) == Nh(b, kp, shift, n)
  {
    if n > 0 {
      SameElsewhere(a, b, n, w);
      SameSum(a, b, kp, shift, n - 1, w);
      SameTerm(a, b, kp, 2 * (n - 1), shift);
      hide Nh, Term, Word, DifferAt;
      NhNext(a, kp, shift, n);
      NhNext(b, kp, shift, n);
    }
  }

  lemma SameTerm(a: seq<byte>, b: seq<byte>, kp: seq<u64>, i: nat, shift: nat)
    requires 8 * i + 16 <= |a| && 8 * i + 16 <= |b| && i + shift + 1 < |kp|
    requires Word(a, i) == Word(b, i) && Word(a, i + 1) == Word(b, i + 1)
    ensures Term(a, i, kp, i + shift) == Term(b, i, kp, i + shift)
  {
    hide Word;
  }

  /** A word with its key. */
  function Keyed(b: seq<byte>, w: nat, kp: seq<u64>, shift: nat): (k: u64)
    requires 8 * w + 8 <= |b| && w + shift < |kp|
  {
    (Word(b, w) + kp[w + shift]) % W64
  }

  lemma SameElsewhere(a: seq<byte>, b: seq<byte>, n: nat, w: nat)
    requires 16 * n <= |a| && 16 * n <= |b| && n > 0 && DifferAt(a, b, n, w)
    ensures DifferAt(a, b, n - 1, w)
    ensures w != 2 * n - 2 ==> Word(a, 2 * n - 2) == Word(b, 2 * n - 2)
    ensures w != 2 * n - 1 ==> Word(a, 2 * n - 1) == Word(b, 2 * n - 1)
  {
    hide Word;
  }

  /** The other word of the pair. */
  function Partner(w: nat): nat {
    if w % 2 == 0 then w + 1 else w - 1
  }

  /** The change of the keyed word times its keyed partner. */
  function Moved(a: seq<byte>, b: seq<byte>, w: nat, kp: seq<u64>, shift: nat): int
    requires 8 * w + 8 <= |a| && 8 * w + 8 <= |b| && 8 * Partner(w) + 8 <= |a| && w + shift < |kp| && Partner(w) + shift < |kp|
  {
    Product(Keyed(b, w, kp, shift) - Keyed(a, w, kp, shift), Keyed(a, Partner(w), kp, shift))
  }

  lemma {:induction false} SumMoves(a: seq<byte>, b: seq<byte>, kp: seq<u64>, shift: nat, n: nat, w: nat)
    requires 16 * n <= |a| && 16 * n <= |b| && 2 * n + shift <= |kp| && w < 2 * n && DifferAt(a, b, n, w)
    ensures Nh(b, kp, shift, n) - Nh(a, kp, shift, n) == Moved(a, b, w, kp, shift)
  {
    hide Nh, Term, Word, Moved, DifferAt;
    var i := 2 * (n - 1);
    NhNext(a, kp, shift, n);
    NhNext(b, kp, shift, n);
    SameElsewhere(a, b, n, w);
    if w < i {
      SumMoves(a, b, kp, shift, n - 1, w);
      SameTerm(a, b, kp, i, shift);
    } else {
      SameSum(a, b, kp, shift, n - 1, w);
      LastMoves(a, b, kp, i, shift, w);
    }
  }

  lemma LastMoves(a: seq<byte>, b: seq<byte>, kp: seq<u64>, i: nat, shift: nat, w: nat)
    requires 8 * i + 16 <= |a| && 8 * i + 16 <= |b| && i + shift + 1 < |kp| && i % 2 == 0 && i <= w <= i + 1
    requires if w == i then Word(a, i + 1) == Word(b, i + 1) else Word(a, i) == Word(b, i)
    ensures Term(b, i, kp, i + shift) - Term(a, i, kp, i + shift) == Moved(a, b, w, kp, shift)
  {
    hide Word, Product;
    Apart(Keyed(a, w, kp, shift), Keyed(b, w, kp, shift), Keyed(a, Partner(w), kp, shift));
  }

  lemma Apart(x: int, y: int, z: int)
    ensures Product(y, z) - Product(x, z) == Product(y - x, z) && Product(z, y) - Product(z, x) == Product(y - x, z)
  {
  }

  /** Changing one word moves the hash, modulo 2^126, by the change of the keyed word times its
      keyed partner: words are taken in pairs, each with the key word of its own place. */
  lemma HashMoves(a: seq<byte>, b: seq<byte>, kp: seq<u64>, shift: nat, w: nat)
    requires |a| == |b| <= NHBYTES && shift <= 2 && |kp| == NHBYTES / 8 + 2
    requires w < |Pad16(a)| / 8 && DifferAt(Pad16(a), Pad16(b), |Pad16(a)| / 16, w)
    ensures BlockHash(b, kp, shift) == (BlockHash(a, kp, shift) + Moved(Pad16(a), Pad16(b), w, kp, shift)) % W126
  {
    hide Pad16, Moved, Nh, Word, DifferAt, BlockHash;
    var p, q, n := Pad16(a), Pad16(b), |Pad16(a)| / 16;
    SamePad(a, b);
    SumMoves(p, q, kp, shift, n, w);
    HashIs(a, p, kp, shift, n);
    HashIs(b, q, kp, shift, n);
    Wraps(Nh(p, kp, shift, n), Moved(p, q, w, kp, shift));
  }

  lemma SamePad(a: seq<byte>, b: seq<byte>)
    requires |a| == |b|
    ensures |Pad16(a)| == |Pad16(b)|
  {
  }

  lemma HashIs(b: seq<byte>, p: seq<byte>, kp: seq<u64>, shift: nat, n: nat)
    requires |b| <= NHBYTES && shift <= 2 && |kp| == NHBYTES / 8 + 2 && p == Pad16(b) && n == |p| / 16
    ensures 2 * n + shift <= |kp| && BlockHash(b, kp, shift) == Nh(p, kp, shift, n) % W126
  {
    hide Nh, Pad16;
  }

  lemma Wraps(x: nat, delta: int)
    ensures (x + delta) % W126 == (x % W126 + delta) % W126
  {
    SameMod(x + delta, x % W126 + delta, W126, x / W126);
  }

  // ---- the polynomial ----

  function Times(a: nat, b: nat): (r: nat)
    ensures r == Product(a, b)
  {
    a * b
  }

  function Power(k: nat, n: nat): nat {
    if n == 0 then 1 else Times(Power(k, n - 1), k)
  }

  function HashAt(m: seq<byte>, key: Key, lane: nat, i: nat): nat
    requires KeyOk(key) && lane < 2 && i < BlockCount(m)
  {
    BlockHash(BlockAt(m, i), key.nh, 2 * lane)
  }

  /** The hashes of the first `n` blocks of `total`, block `i` times the key to the power total-1-i. */
  function BlockSum(m: seq<byte>, key: Key, lane: nat, n: nat, total: nat): nat
    requires KeyOk(key) && lane < 2 && n <= BlockCount(m) && n <= total
  {
    if n == 0 then 0
    else BlockSum(m, key, lane, n - 1, total) + Times(HashAt(m, key, lane, n - 1), Power(PolyKey(key, lane), total - n))
  }

  lemma {:induction false} SumShifts(m: seq<byte>, key: Key, lane: nat, n: nat, total: nat)
    requires KeyOk(key) && lane < 2 && n <= BlockCount(m) && n <= total
    ensures BlockSum(m, key, lane, n, total + 1) == Product(BlockSum(m, key, lane, n, total), PolyKey(key, lane))
  {
    hide KeyOk, PolyKey, HashAt, BlockCount;
    if n > 0 {
      SumShifts(m, key, lane, n - 1, total);
      hide BlockSum;
      var k, h := PolyKey(key, lane), HashAt(m, key, lane, n - 1);
      SumNext(m, key, lane, n, total);
      SumNext(m, key, lane, n, total + 1);
      assert Power(k, total + 1 - n) == Product(Power(k, total - n), k);
      Distribute(BlockSum(m, key, lane, n - 1, total), h, Power(k, total - n), k);
    }
  }

  lemma SumNext(m: seq<byte>, key: Key, lane: nat, n: nat, total: nat)
    requires KeyOk(key) && lane < 2 && 0 < n <= BlockCount(m) && n <= total
    ensures BlockSum(m, key, lane, n, total)
         == BlockSum(m, key, lane, n - 1, total) + Product(HashAt(m, key, lane, n - 1), Power(PolyKey(key, lane), total - n))
  {
    hide KeyOk, PolyKey, HashAt, BlockCount;
  }

  lemma Distribute(s: int, h: int, p: int, k: int)
    ensures Product(s, k) + Product(h, Product(p, k)) == Product(s + Product(h, p), k)
  {
    assert h * (p * k) == h * p * k;
  }

  lemma {:induction false} HornerSum(m: seq<byte>, key: Key, lane: nat, n: nat)
    requires KeyOk(key) && lane < 2 && n <= BlockCount(m)
    ensures Horner(m, key, lane, n) % P127 == (BlockSum(m, key, lane, n, n) + Power(PolyKey(key, lane), n)) % P127
  {
    hide KeyOk, PolyKey, HashAt, BlockCount, Product, Step, BlockSum, Horner, Power;
    if n == 0 {
      NoSum(m, key, lane);
    } else {
      HornerSum(m, key, lane, n - 1);
      SumShifts(m, key, lane, n - 1, n - 1);
      SumNext(m, key, lane, n, n);
      HornerStep(m, key, lane, n);
      var k, h := PolyKey(key, lane), HashAt(m, key, lane, n - 1);
      var s, p := BlockSum(m, key, lane, n - 1, n - 1), Power(k, n - 1);
      HornerNext(Horner(m, key, lane, n - 1), s + p, k, h);
      Spread(s, p, k);
      PowerNext(k, n);
      Unit(h);
    }
  }

  lemma NoSum(m: seq<byte>, key: Key, lane: nat)
    requires KeyOk(key) && lane < 2
    ensures Horner(m, key, lane, 0) == 1 && BlockSum(m, key, lane, 0, 0) == 0 && Power(PolyKey(key, lane), 0) == 1
  {
  }

  lemma PowerNext(k: nat, n: nat)
    requires n > 0
    ensures Power(k, n) == Product(Power(k, n - 1), k) && Power(k, 0) == 1
  {
  }

  lemma HornerStep(m: seq<byte>, key: Key, lane: nat, n: nat)
    requires KeyOk(key) && lane < 2 && 0 < n <= BlockCount(m)
    ensures Horner(m, key, lane, n) == Step(Horner(m, key, lane, n - 1), PolyKey(key, lane), HashAt(m, key, lane, n - 1))
  {
  }

  lemma Unit(h: int)
    ensures Product(h, 1) == h
  {
  }

  lemma Spread(s: int, p: int, k: int)
    ensures Product(s + p, k) == Product(s, k) + Product(p, k)
  {
  }

  lemma HornerNext(acc: nat, sum: nat, k: nat, h: nat)
    requires acc % P127 == sum % P127
    ensures Step(acc, k, h) % P127 == (Product(sum, k) + h) % P127
  {
    StepMod(acc, acc % P127, k, h);
    StepMod(sum, sum % P127, k, h);
    ModIs(Step(acc, k, h), P127, 0, Step(acc, k, h));
  }

  /** The polynomial value of a non-empty message: with n blocks, the sum over the blocks of hash i
      times the key to the power n-1-i, and the key to the power n, modulo 2^127-1. */
  lemma PolySum(m: seq<byte>, key: Key, lane: nat)
    requires KeyOk(key) && lane < 2 && m != []
    ensures var n := BlockCount(m);
            PolyValue(m, key, lane) % P127 == (BlockSum(m, key, lane, n, n) + Power(PolyKey(key, lane), n)) % P127
  {
    hide KeyOk, Horner, BlockSum, Power;
    HornerSum(m, key, lane, BlockCount(m));
  }

  // ---- the final hash ----

  /** The final hash vanishes where its high digit cancels the first key word. */
  lemma FinalZero(x: nat, k1: nat, k2: nat)
    requires (x / RADIX + k1) % P64 == 0
    ensures FinalHash(x, k1, k2) == 0
  {
    var a, b := x / RADIX + k1, x % RADIX + k2;
    var q := ModGap(a, 0, P64);
    assert a * b == q * b * P64;
    SameMod(Product(a, b), 0, P64, q * b);
  }

  /** One more in the high digit moves it by the keyed low digit, one more in the low digit by the keyed high digit. */
  lemma FinalMoves(x: nat, k1: nat, k2: nat)
    ensures FinalHash(x + RADIX, k1, k2) == (FinalHash(x, k1, k2) + x % RADIX + k2) % P64
    ensures x % RADIX + 1 < RADIX ==> FinalHash(x + 1, k1, k2) == (FinalHash(x, k1, k2) + x / RADIX + k1) % P64
  {
    var q, r := x / RADIX, x % RADIX;
    ModIs(x + RADIX, RADIX, q + 1, r);
    MovesBy(q + k1, r + k2);
    if r + 1 < RADIX { ModIs(x + 1, RADIX, q, r + 1); }
  }

  lemma MovesBy(a: nat, b: nat)
    ensures Product(a + 1, b) % P64 == (Product(a, b) % P64 + b) % P64
    ensures Product(a, b + 1) % P64 == (Product(a, b) % P64 + a) % P64
  {
    var p := Product(a, b);
    DivMod(p, P64);
    assert Product(a + 1, b) == p + b && Product(a, b + 1) == p + a;
    SameMod(p + b, p % P64 + b, P64, p / P64);
    SameMod(p + a, p % P64 + a, P64, p / P64);
  }

  // ---- a sample ----

  /** All key words zero but one of the block hash. */
  function SampleKey(): (key: Key)
    ensures KeyOk(key) && PolyKey(key, 0) == 0
  {
    Key(seq(NHBYTES / 8 + 2, i => if i == 1 then 1 else 0), [0, 0, 0, 0], [0, 0, 0, 0])
  }

  /** The words 1 and 0. */
  function SampleMessage(): (m: seq<byte>)
    ensures |m| == 16
  {
    LE64(1) + LE64(0)
  }

  /** The first half of its hash: the block hash is 1, and 128 is the length in bits. */
  lemma SampleTag()
    ensures Tag(SampleMessage(), SampleKey(), 0) == 128 * 0x80_0000_0001
  {
    var m, key := SampleMessage(), SampleKey();
    hide PolyValue, SampleMessage, Product, BlockHash, FinalHash, KeyOk;
    SampleHash(m, key);
    SampleValue(m, key);
    assert key.l3[0] == 0 && key.l3[1] == 0;
    hide SampleKey;
    SampleFinal();
  }

  lemma SampleFinal()
    ensures FinalHash((1 + 128 * W64) % P127, 0, 0) == 128 * 0x80_0000_0001
  {
    var x := 1 + 128 * W64;
    ModIs(x, P127, 0, x);
    ModIs(x, RADIX, 128, 0x80_0000_0001);
  }

  lemma SampleValue(m: seq<byte>, key: Key)
    requires |m| == 16 && KeyOk(key) && PolyKey(key, 0) == 0 && BlockHash(m, key.nh, 0) == 1
    ensures PolyValue(m, key, 0) == 1
  {
    hide KeyOk, PolyKey, BlockHash;
    assert BlockAt(m, 0) == m && BlockCount(m) == 1;
    hide BlockAt, BlockCount;
    HornerFirst(m, key, 0);
  }

  lemma SampleWords(m: seq<byte>)
    requires m == SampleMessage()
    ensures Word(m, 0) == 1 && Word(m, 1) == 0
  {
    assert m[0..8] == LE64(1) && m[8..16] == LE64(0);
  }

  lemma SampleHash(m: seq<byte>, key: Key)
    requires m == SampleMessage() && key == SampleKey()
    ensures BlockHash(m, key.nh, 0) == 1
  {
    hide Pad16, Word, SampleMessage, KeyOk, Nh, Term;
    SampleWords(m);
    PadNone(m);
    assert key.nh[0] == 0 && key.nh[1] == 1;
    hide SampleKey, BlockHash;
    HashIs(m, m, key.nh, 0, 1);
    SampleSum(m, key.nh);
  }

  lemma SampleSum(m: seq<byte>, kp: seq<u64>)
    requires |m| == 16 && |kp| == NHBYTES / 8 + 2 && Word(m, 0) == 1 && Word(m, 1) == 0 && kp[0] == 0 && kp[1] == 1
    ensures Nh(m, kp, 0, 1) == 1
  {
    hide Word;
    NhNext(m, kp, 0, 1);
  }

  lemma PadNone(m: seq<byte>)
    requires |m| == 16
    ensures Pad16(m) == m
  {
  }
}
