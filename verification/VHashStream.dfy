/** The incremental form of VHASH and its 32-bit block hash. */
module VHashStream {
  import opened Bytes
  import opened WideArithmetic
  import opened PolyHash
  import opened VHash

  // ---- block hashes in 32-bit limbs ----

  /** `rh:rl` and the middle sum `t` together hold the first `n` terms. */
  predicate Halfway(rh: u64, rl: u64, t: nat, b: seq<byte>, kp: seq<u64>, shift: nat, n: nat)
    requires 16 * n <= |b| && 2 * n + shift <= |kp|
  {
    t <= n * (2 * W32) && (Value(rh, rl) + t * W32) % W128 == Nh(b, kp, shift, n) % W128
  }

  /** A product from four half-size products. */
  lemma LimbProduct(x: u64, y: u64)
    ensures var hi, lo := Product(x / W32, y / W32), Product(x % W32, y % W32);
            var m1, m2 := Product(x % W32, y / W32), Product(x / W32, y % W32);
            Product(x, y) == Value(hi, lo) + (m1 / W32 + m2 / W32) * W64 + (m1 % W32 + m2 % W32) * W32
  {
    var a, b, c, d := x / W32, x % W32, y / W32, y % W32;
    assert x == a * W32 + b && y == c * W32 + d;
    assert (a * W32 + b) * (c * W32 + d) == a * c * W64 + (b * c + a * d) * W32 + b * d;
    var m1, m2 := Product(b, c), Product(a, d);
    assert m1 == m1 / W32 * W32 + m1 % W32 && m2 == m2 / W32 * W32 + m2 % W32;
  }

  lemma LimbProductFits(x: u32, y: u32)
    ensures 0 <= Product(x, y) < W64
    ensures 0 <= Product(x, y) / W32 < W32
  {
    ProductBelow(x, y, W32, W32);
  }

  /** One product added limb by limb. */
  method AddLimbs(rh0: u64, rl0: u64, t0: u64, x: u64, y: u64) returns (rh: u64, rl: u64, t: u64)
    requires t0 < W63
    ensures t <= t0 + 2 * W32
    ensures (Value(rh, rl) + t * W32) % W128 == (Value(rh0, rl0) + t0 * W32 + Product(x, y)) % W128
  {
    LimbProduct(x, y);
    LimbProductFits(x / W32, y / W32);
    LimbProductFits(x % W32, y % W32);
    LimbProductFits(x / W32, y % W32);
    LimbProductFits(x % W32, y / W32);
    hide Product;
    var m2: u64 := Product(x / W32, y % W32);
    var m1: u64 := Product(x % W32, y / W32);
    rh, rl := Add128(rh0, rl0, Product(x / W32, y / W32), Product(x % W32, y % W32));
    ghost var h := rh;
    rh := (rh + m1 / W32 + m2 / W32) % W64;
    t := t0 + m1 % W32 + m2 % W32;
    LimbCarry(rh0, rl0, Value(Product(x / W32, y / W32), Product(x % W32, y % W32)), h, rl, m1 / W32 + m2 / W32);
    SumWrap(Value(rh, rl), Value(rh0, rl0) + Value(Product(x / W32, y / W32), Product(x % W32, y % W32)) + (m1 / W32 + m2 / W32) * W64, t * W32);
  }

  /** One keyed pair of words. */
  method AddTerm(m: seq<byte>, i: nat, kp: seq<u64>, j: nat, rh0: u64, rl0: u64, t0: u64) returns (rh: u64, rl: u64, t: u64)
    requires 8 * i + 16 <= |m| && j + 1 < |kp| && t0 < W63
    ensures t <= t0 + 2 * W32
    ensures (Value(rh, rl) + t * W32) % W128 == (Value(rh0, rl0) + t0 * W32 + Term(m, i, kp, j)) % W128
  {
    var t1: u64 := (Word(m, i) + kp[j]) % W64;
    var t2: u64 := (Word(m, i + 1) + kp[j + 1]) % W64;
    rh, rl, t := AddLimbs(rh0, rl0, t0, t1, t2);
  }

  lemma LimbCarry(rh0: u64, rl0: u64, v: nat, h: u64, l: u64, c: nat)
    requires Value(h, l) == (Value(rh0, rl0) + v) % W128
    ensures Value((h + c) % W64, l) % W128 == (Value(rh0, rl0) + v + c * W64) % W128
  {
    var x := Value(rh0, rl0) + v;
    assert x == x / W128 * W128 + Value(h, l);
    var k := (h + c) / W64;
    assert h + c == k * W64 + (h + c) % W64;
    SameMod(x + c * W64, Value((h + c) % W64, l), W128, x / W128 + k);
  }

  lemma SumWrap(x: int, y: int, z: int)
    requires x % W128 == y % W128
    ensures (x + z) % W128 == (y + z) % W128
  {
    var q := ModGap(x, y, W128);
    SameMod(x + z, y + z, W128, q);
  }

  lemma HalfwayNext(rh: u64, rl: u64, t: nat, rh': u64, rl': u64, t': nat, b: seq<byte>, kp: seq<u64>, shift: nat, n: nat)
    requires 16 * n + 16 <= |b| && 2 * n + 2 + shift <= |kp| && Halfway(rh, rl, t, b, kp, shift, n)
    requires t' <= t + 2 * W32
    requires (Value(rh', rl') + t' * W32) % W128 == (Value(rh, rl) + t * W32 + Term(b, 2 * n, kp, 2 * n + shift)) % W128
    ensures Halfway(rh', rl', t', b, kp, shift, n + 1)
  {
    hide Term;
    var u := Term(b, 2 * n, kp, 2 * n + shift);
    assert Nh(b, kp, shift, n + 1) == Nh(b, kp, shift, n) + u;
    hide Nh;
    SumWrap(Value(rh, rl) + t * W32, Nh(b, kp, shift, n), u);
  }

  lemma HalfwayStart(b: seq<byte>, kp: seq<u64>, shift: nat)
    requires shift <= |kp|
    ensures Halfway(0, 0, 0, b, kp, shift, 0)
  {
  }

  /** The block hash on 32-bit machines: the middle products are collected apart, without
      overflow, and added at the end. */
  method Nh16(m: seq<byte>, off: nat, kp: seq<u64>, shift: nat, pairs: nat, ghost b: seq<byte>) returns (rh: u64, rl: u64)
    requires 8 * off + |b| <= |m| && b == m[8 * off..8 * off + |b|]
    requires 16 * pairs <= |b| && 2 * pairs + shift <= |kp| && pairs <= NHBYTES / 16
    ensures Value(rh, rl) == Nh(b, kp, shift, pairs) % W128
  {
    rh, rl := 0, 0;
    var t: u64, i: nat := 0, 0;
    ghost var n: nat := 0;
    HalfwayStart(b, kp, shift);
    hide Halfway, Nh, Term, Value;
    while i < 2 * pairs
      invariant i == 2 * n && n <= pairs && t <= n * (2 * W32)
      invariant Halfway(rh, rl, t, b, kp, shift, n)
    {
      TermSlice(m, off, |b|, i, kp, i + shift);
      var h, l, u := AddTerm(m, off + i, kp, i + shift, rh, rl, t);
      HalfwayNext(rh, rl, t, h, l, u, b, kp, shift, n);
      rh, rl, t, i, n := h, l, u, i + 2, n + 1;
    }
    ghost var h := rh;
    ghost var l := rl;
    rh, rl := Add128(rh, rl, t / W32, t % W32 * W32);
    HalfwayDone(h, l, t, b, kp, shift, pairs, rh, rl);
  }

  lemma HalfwayDone(rh: u64, rl: u64, t: u64, b: seq<byte>, kp: seq<u64>, shift: nat, n: nat, rh': u64, rl': u64)
    requires 16 * n <= |b| && 2 * n + shift <= |kp| && Halfway(rh, rl, t, b, kp, shift, n)
    requires Value(rh', rl') == (Value(rh, rl) + Value(t / W32, t % W32 * W32)) % W128
    ensures Value(rh', rl') == Nh(b, kp, shift, n) % W128
  {
    hide Nh;
  }

  /** One lane of a full block on 32-bit machines. */
  method NhBlockLimbs(m: seq<byte>, off: nat, kp: seq<u64>, shift: nat) returns (rh: u64, rl: u64)
    requires 8 * off + NHBYTES <= |m| && |kp| == NHBYTES / 8 + 2 && shift <= 2
    ensures Hashed(rh, rl, m[8 * off..8 * off + NHBYTES], kp, shift)
  {
    ghost var b := m[8 * off..8 * off + NHBYTES];
    PadWhole(b);
    hide Nh, Pad16;
    rh, rl := Nh16(m, off, kp, shift, NHBYTES / 16, b);
  }

  /** One lane of the rest of a message on 32-bit machines: the fragment is hashed apart and added. */
  method NhTailLimbs(m: seq<byte>, off: nat, kp: seq<u64>, shift: nat, remaining: nat) returns (rh: u64, rl: u64)
    requires 0 < remaining < NHBYTES && 8 * off + remaining <= |m| && |kp| == NHBYTES / 8 + 2 && shift <= 2
    ensures Hashed(rh, rl, m[8 * off..8 * off + remaining], kp, shift)
  {
    ghost var b := m[8 * off..8 * off + remaining];
    ghost var p := Pad16(b);
    var full, tlen := remaining / 16, remaining % 16;
    hide Nh, Pad16, Hashed, Value;
    TailCount(b, full, tlen);
    NhPrefix(b, p, kp, shift, full);
    rh, rl := Nh16(m, off, kp, shift, full, b);
    if tlen != 0 {
      rh, rl := FragmentLimbs(m, off, kp, shift, b, full, tlen, rh, rl);
    }
    TailHashed(rh, rl, b, kp, shift);
  }

  lemma TailCount(b: seq<byte>, full: nat, tlen: nat)
    requires |b| < NHBYTES && full == |b| / 16 && tlen == |b| % 16
    ensures |b| == 16 * full + tlen && tlen < 16 && full < NHBYTES / 16
    ensures b <= Pad16(b) && |Pad16(b)| / 16 == full + (if tlen == 0 then 0 else 1)
  {
    PadShape(b);
  }

  method FragmentLimbs(m: seq<byte>, off: nat, kp: seq<u64>, shift: nat, ghost b: seq<byte>, full: nat, tlen: nat, h: u64, l: u64)
      returns (rh: u64, rl: u64)
    requires 8 * off + |b| <= |m| && b == m[8 * off..8 * off + |b|] && |b| < NHBYTES && |kp| == NHBYTES / 8 + 2 && shift <= 2
    requires full == |b| / 16 && 0 < tlen == |b| % 16
    requires Value(h, l) == Nh(Pad16(b), kp, shift, full) % W128
    ensures |Pad16(b)| / 16 == full + 1
    ensures Value(rh, rl) == Nh(Pad16(b), kp, shift, full + 1) % W128
  {
    PadShape(b);
    Fragment(m, off, b, 2 * full, tlen);
    hide Nh, Pad16, Value;
    var buf := m[8 * off + 2 * full * 8..8 * off + 2 * full * 8 + tlen] + Zeros(16 - tlen);
    var ah, al := Nh16(buf, 0, kp, shift + 2 * full, 1, buf);
    rh, rl := Add128(h, l, ah, al);
    FragmentAdded(Pad16(b), kp, shift, full, buf, h, l, ah, al, rh, rl);
  }

  lemma TailHashed(rh: u64, rl: u64, b: seq<byte>, kp: seq<u64>, shift: nat)
    requires |b| <= NHBYTES && shift <= 2 && |kp| == NHBYTES / 8 + 2
    requires Value(rh, rl) == Nh(Pad16(b), kp, shift, |Pad16(b)| / 16) % W128
    ensures Hashed(rh, rl, b, kp, shift)
  {
  }

  lemma FragmentAdded(p: seq<byte>, kp: seq<u64>, shift: nat, n: nat, buf: seq<byte>, h: u64, l: u64, ah: u64, al: u64, rh: u64, rl: u64)
    requires 16 * n + 16 <= |p| && buf == p[16 * n..16 * n + 16] && 2 * n + 2 + shift <= |kp|
    requires Value(h, l) == Nh(p, kp, shift, n) % W128 && Value(ah, al) == Nh(buf, kp, shift + 2 * n, 1) % W128
    requires Value(rh, rl) == (Value(h, l) + Value(ah, al)) % W128
    ensures Value(rh, rl) == Nh(p, kp, shift, n + 1) % W128
  {
    var t := Term(buf, 0, kp, shift + 2 * n);
    assert p[8 * (2 * n)..8 * (2 * n) + 16] == buf;
    TermSlice(p, 2 * n, 16, 0, kp, 2 * n + shift);
    hide Term, Value;
    assert Nh(buf, kp, shift + 2 * n, 0) == 0;
    assert Nh(buf, kp, shift + 2 * n, 1) == t;
    assert Nh(p, kp, shift, n + 1) == Nh(p, kp, shift, n) + t;
    hide Nh;
    TwoSums(Nh(p, kp, shift, n), t);
  }

  lemma TwoSums(x: nat, y: nat)
    ensures (x % W128 + y % W128) % W128 == (x + y) % W128
  {
    SameMod(x % W128 + y % W128, x + y, W128, -(x / W128) - y / W128);
  }

  // ---- the context ----

  /** A prefix of whole blocks keeps its polynomial value when more is appended. */
  lemma {:induction false} HornerPrefix(d: seq<byte>, m: seq<byte>, key: Key, lane: nat, n: nat)
    requires KeyOk(key) && lane < 2 && n * NHBYTES <= |d|
    ensures n <= BlockCount(d) && n <= BlockCount(d + m)
    ensures Horner(d + m, key, lane, n) == Horner(d, key, lane, n)
  {
    hide BlockCount, BlockAt, BlockHash, Step, PolyKey, KeyOk;
    CountAtLeast(d, n);
    CountAtLeast(d + m, n);
    if n > 0 {
      HornerPrefix(d, m, key, lane, n - 1);
      SameBlockAt(d, m, n - 1);
    }
  }

  lemma CountAtLeast(d: seq<byte>, n: nat)
    requires n * NHBYTES <= |d|
    ensures n <= BlockCount(d)
  {
  }

  lemma SameBlockAt(d: seq<byte>, m: seq<byte>, i: nat)
    requires (i + 1) * NHBYTES <= |d|
    ensures BlockAt(d + m, i) == BlockAt(d, i)
  {
  }

  /** Block `i` of the appended part. */
  lemma AppendedBlock(d: seq<byte>, m: seq<byte>, i: nat)
    requires |d| % NHBYTES == 0 && (i + 1) * NHBYTES <= |m|
    ensures |d| / NHBYTES + i < BlockCount(d + m)
    ensures BlockAt(d + m, |d| / NHBYTES + i) == m[8 * (i * 512)..8 * (i * 512) + NHBYTES]
  {
    var k := |d| / NHBYTES;
    assert (d + m)[(k + i) * NHBYTES..(k + i + 1) * NHBYTES] == m[i * NHBYTES..(i + 1) * NHBYTES];
  }

  lemma AppendedTail(d: seq<byte>, m: seq<byte>)
    requires |d| % NHBYTES == 0 && |m| % NHBYTES > 0
    ensures var i, r := |m| / NHBYTES, |m| % NHBYTES;
            && |d| / NHBYTES + i + 1 == BlockCount(d + m) && 8 * (i * 512) + r == |m|
            && BlockAt(d + m, |d| / NHBYTES + i) == m[8 * (i * 512)..8 * (i * 512) + r]
  {
    var k, i := |d| / NHBYTES, |m| / NHBYTES;
    assert (d + m)[(k + i) * NHBYTES..] == m[i * NHBYTES..];
  }

  /** Registers as the context stores them between calls: the key before any block, a lane's accumulator after. */
  ghost predicate Stored(h: u64, l: u64, d: seq<byte>, key: Key, lane: nat)
    requires KeyOk(key) && lane < 2 && |d| % NHBYTES == 0
  {
    if d == [] then h == key.poly[2 * lane] && l == key.poly[2 * lane + 1]
    else |d| / NHBYTES <= BlockCount(d) && Lane(h, l, d, key, lane, |d| / NHBYTES)
  }

  lemma LaneAppend(h: u64, l: u64, d: seq<byte>, m: seq<byte>, key: Key, lane: nat, n: nat)
    requires KeyOk(key) && lane < 2 && n * NHBYTES <= |d| && n <= BlockCount(d) && n <= BlockCount(d + m)
    ensures Lane(h, l, d, key, lane, n) == Lane(h, l, d + m, key, lane, n)
  {
    HornerPrefix(d, m, key, lane, n);
  }

  /** The hashing context. */
  class VmacCtx {
    const key: Key
    /** Whether the machine has 64-bit registers. */
    const arch64: bool
    var polytmp: seq<u64>
    var firstBlockProcessed: bool
    /** What has been hashed since the last result. */
    ghost var absorbed: seq<byte>

    ghost predicate Valid()
      reads this
    {
      && KeyOk(key) && |polytmp| == 4 && |absorbed| % NHBYTES == 0
      && (firstBlockProcessed <==> absorbed != [])
      && Stored(polytmp[0], polytmp[1], absorbed, key, 0)
      && Stored(polytmp[2], polytmp[3], absorbed, key, 1)
    }

    constructor (key: Key, arch64: bool)
      requires KeyOk(key)
      ensures Valid() && absorbed == [] && this.key == key && this.arch64 == arch64
    {
      this.key, this.arch64 := key, arch64;
      polytmp, firstBlockProcessed, absorbed := key.poly, false, [];
    }

    method Abort()
      requires KeyOk(key)
      modifies this
      ensures Valid() && absorbed == []
    {
      polytmp, firstBlockProcessed, absorbed := key.poly, false, [];
    }

    /** Both lanes of block `i` of `m`. */
    method HashBlock(m: seq<byte>, i: nat) returns (rh: u64, rl: u64, rh2: u64, rl2: u64)
      requires KeyOk(key) && (i + 1) * NHBYTES <= |m|
      ensures var b := m[8 * (i * 512)..8 * (i * 512) + NHBYTES]; Hashed(rh, rl, b, key.nh, 0) && Hashed(rh2, rl2, b, key.nh, 2)
    {
      hide Hashed;
      if arch64 {
        rh, rl, rh2, rl2 := NhBlock(m, i * 512, key.nh);
      } else {
        rh, rl := NhBlockLimbs(m, i * 512, key.nh, 0);
        rh2, rl2 := NhBlockLimbs(m, i * 512, key.nh, 2);
      }
    }

    /** Both lanes of what follows the last full block of `m`. */
    method HashTail(m: seq<byte>) returns (rh: u64, rl: u64, rh2: u64, rl2: u64)
      requires KeyOk(key) && |m| % NHBYTES > 0
      ensures var i, r := |m| / NHBYTES, |m| % NHBYTES;
              && 8 * (i * 512) + r == |m|
              && Hashed(rh, rl, m[8 * (i * 512)..8 * (i * 512) + r], key.nh, 0)
              && Hashed(rh2, rl2, m[8 * (i * 512)..8 * (i * 512) + r], key.nh, 2)
    {
      hide Hashed;
      var i, r := |m| / NHBYTES, |m| % NHBYTES;
      if arch64 {
        rh, rl, rh2, rl2 := NhTail(m, i * 512, key.nh, r);
      } else {
        rh, rl := NhTailLimbs(m, i * 512, key.nh, 0, r);
        rh2, rl2 := NhTailLimbs(m, i * 512, key.nh, 2, r);
      }
    }

    /** Absorb the full blocks of `m` from block `i0` on, after `d` and the blocks before. */
    method StepBlocks(m: seq<byte>, i0: nat, h: u64, l: u64, h2: u64, l2: u64, ghost d: seq<byte>)
        returns (ch: u64, cl: u64, ch2: u64, cl2: u64)
      requires KeyOk(key) && |d| % NHBYTES == 0 && i0 <= |m| / NHBYTES && |d| / NHBYTES + i0 <= BlockCount(d + m)
      requires Lane(h, l, d + m, key, 0, |d| / NHBYTES + i0) && Lane(h2, l2, d + m, key, 1, |d| / NHBYTES + i0)
      ensures |d| / NHBYTES + |m| / NHBYTES <= BlockCount(d + m)
      ensures Lane(ch, cl, d + m, key, 0, |d| / NHBYTES + |m| / NHBYTES)
      ensures Lane(ch2, cl2, d + m, key, 1, |d| / NHBYTES + |m| / NHBYTES)
    {
      hide Lane, Hashed, BlockAt, KeyOk;
      ch, cl, ch2, cl2 := h, l, h2, l2;
      var i := i0;
      ghost var k := |d| / NHBYTES;
      while i < |m| / NHBYTES
        invariant i0 <= i <= |m| / NHBYTES && k + i <= BlockCount(d + m)
        invariant Lane(ch, cl, d + m, key, 0, k + i) && Lane(ch2, cl2, d + m, key, 1, k + i)
      {
        AppendedBlock(d, m, i);
        var rh, rl, rh2, rl2 := HashBlock(m, i);
        ch2, cl2 := StepLane(arch64, key, 1, ch2, cl2, rh2, rl2, d + m, k + i);
        ch, cl := StepLane(arch64, key, 0, ch, cl, rh, rl, d + m, k + i);
        i := i + 1;
      }
    }

    /** Absorb all full blocks of `m`: the very first one starts the lanes. */
    method ContinueBlocks(m: seq<byte>) returns (ch: u64, cl: u64, ch2: u64, cl2: u64)
      requires Valid() && (firstBlockProcessed || |m| >= NHBYTES)
      ensures |absorbed| / NHBYTES + |m| / NHBYTES <= BlockCount(absorbed + m)
      ensures Lane(ch, cl, absorbed + m, key, 0, |absorbed| / NHBYTES + |m| / NHBYTES)
      ensures Lane(ch2, cl2, absorbed + m, key, 1, |absorbed| / NHBYTES + |m| / NHBYTES)
    {
      hide Lane, Hashed, BlockAt;
      ch, cl, ch2, cl2 := polytmp[0], polytmp[1], polytmp[2], polytmp[3];
      var i := 0;
      if !firstBlockProcessed {
        assert absorbed + m == m;
        WholeBlock(m, 0);
        var rh, rl, rh2, rl2 := HashBlock(m, 0);
        ch2, cl2 := StartLane(key, 1, rh2, rl2, m);
        ch, cl := StartLane(key, 0, rh, rl, m);
        i := 1;
      } else {
        HornerPrefix(absorbed, m, key, 0, |absorbed| / NHBYTES);
        LaneAppend(ch, cl, absorbed, m, key, 0, |absorbed| / NHBYTES);
        LaneAppend(ch2, cl2, absorbed, m, key, 1, |absorbed| / NHBYTES);
      }
      ch, cl, ch2, cl2 := StepBlocks(m, i, ch, cl, ch2, cl2, absorbed);
    }

    /** Absorb whole blocks. */
    method VhashUpdate(m: seq<byte>)
      requires Valid() && m != [] && |m| % NHBYTES == 0
      modifies this
      ensures Valid() && absorbed == old(absorbed) + m
    {
      hide Lane;
      ghost var d := absorbed;
      var ch, cl, ch2, cl2 := ContinueBlocks(m);
      WholeLength(d, m);
      firstBlockProcessed := true;
      polytmp := [ch, cl, ch2, cl2];
      absorbed := d + m;
    }

    /** Hash what was absorbed followed by `m`, and start afresh. */
    method Vhash(m: seq<byte>) returns (res: u64, tagl: u64)
      requires Valid()
      modifies this
      ensures Valid() && absorbed == []
      ensures res == Tag(old(absorbed) + m, key, 0) && tagl == Tag(old(absorbed) + m, key, 1)
    {
      hide Lane, Hashed, BlockAt, Tag;
      ghost var d := absorbed;
      ghost var all := d + m;
      var remaining := |m| % NHBYTES;
      var ch, cl, ch2, cl2 := polytmp[0], polytmp[1], polytmp[2], polytmp[3];
      if !firstBlockProcessed && m == [] {
        assert all == [];
      } else {
        assert firstBlockProcessed || all == m;
        if !firstBlockProcessed && |m| < NHBYTES {
          LastBlock(m);
          var rh, rl, rh2, rl2 := HashTail(m);
          ch2, cl2 := StartLane(key, 1, rh2, rl2, m);
          ch, cl := StartLane(key, 0, rh, rl, m);
        } else {
          ch, cl, ch2, cl2 := ContinueBlocks(m);
          if remaining > 0 {
            AppendedTail(d, m);
            var rh, rl, rh2, rl2 := HashTail(m);
            ghost var n := |d| / NHBYTES + |m| / NHBYTES;
            ch2, cl2 := StepLane(arch64, key, 1, ch2, cl2, rh2, rl2, all, n);
            ch, cl := StepLane(arch64, key, 0, ch, cl, rh, rl, all, n);
          } else {
            WholeLength(d, m);
          }
        }
        LaneDone(ch, cl, all, key, 0);
        LaneDone(ch2, cl2, all, key, 1);
      }
      SameRest(d, m);
      tagl := FinishLane(key, 1, ch2, cl2, remaining, all);
      res := FinishLane(key, 0, ch, cl, remaining, all);
      Abort();
    }
  }

  lemma SameRest(d: seq<byte>, m: seq<byte>)
    requires |d| % NHBYTES == 0
    ensures |d + m| % NHBYTES == |m| % NHBYTES
  {
  }

  lemma WholeLength(d: seq<byte>, m: seq<byte>)
    requires |d| % NHBYTES == 0 && |m| % NHBYTES == 0
    ensures |d + m| % NHBYTES == 0 && |d + m| / NHBYTES == |d| / NHBYTES + |m| / NHBYTES == BlockCount(d + m)
  {
  }
}
