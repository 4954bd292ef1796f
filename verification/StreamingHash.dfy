/** MD5, SHA-1 and SHA-512 as streams: buffering of partial blocks and the final padding,
    around block functions that are left uninterpreted. */
module StreamingHash {
  import opened Bytes
  import opened WideArithmetic

  datatype Algorithm = Md5 | Sha1 | Sha512 {
    function BlockSize(): (n: nat)
      ensures n > 0
    {
      if Sha512? then 128 else 64
    }

    /** Where the length field begins in the last block. */
    function LengthAt(): (n: nat)
      ensures n < BlockSize()
    {
      if Sha512? then 112 else 56
    }

    /** The length in bits as the standards store it. */
    function LengthField(bits: nat): (s: seq<byte>)
      ensures |s| == BlockSize() - LengthAt()
    {
      match this
      case Md5 => ToLE(bits % W64, 8)
      case Sha1 => ToBE(bits, 8)
      case Sha512 => ToBE(bits, 16)
    }

    /** The length as the program stores it: 64 bits at the end of the block. */
    function StoredLength(length: u64): (s: seq<byte>)
      ensures |s| == 8
    {
      if Md5? then ToLE(length, 8) else ToBE(length, 8)
    }

    function InitialState(): Words {
      match this
      case Md5 => [0x67452301, 0xefcdab89, 0x98badcfe, 0x10325476, 0, 0, 0, 0]
      case Sha1 => [0x67452301, 0xefcdab89, 0x98badcfe, 0x10325476, 0xc3d2e1f0, 0, 0, 0]
      case Sha512 => [0x6a09e667f3bcc908, 0xbb67ae8584caa73b, 0x3c6ef372fe94f82b, 0xa54ff53a5f1d36f1,
                      0x510e527fade682d1, 0x9b05688c2b3e6c1f, 0x1f83d9abfb41bd6b, 0x5be0cd19137e2179]
    }

    /** The digest: the state words in the algorithm's byte order. */
    function Output(w: Words): seq<byte> {
      match this
      case Md5 => ToLE(w[0], 4) + ToLE(w[1], 4) + ToLE(w[2], 4) + ToLE(w[3], 4)
      case Sha1 => ToBE(w[0], 4) + ToBE(w[1], 4) + ToBE(w[2], 4) + ToBE(w[3], 4) + ToBE(w[4], 4)
      case Sha512 => ToBE(w[0], 8) + ToBE(w[1], 8) + ToBE(w[2], 8) + ToBE(w[3], 8)
                     + ToBE(w[4], 8) + ToBE(w[5], 8) + ToBE(w[6], 8) + ToBE(w[7], 8)
    }
  }

  /** Eight state words; the shorter algorithms use the first four or five. */
  type Words = w: seq<u64> | |w| == 8 witness [0, 0, 0, 0, 0, 0, 0, 0]

  type Compress = (Words, seq<byte>) -> Words

  /** The n low bytes of x, most significant first. */
  function ToBE(x: nat, n: nat): (s: seq<byte>)
    ensures |s| == n
  {
    if n == 0 then [] else ToBE(x / 256, n - 1) + [x % 256]
  }

  function FromBE(s: seq<byte>): nat {
    if s == [] then 0 else 256 * FromBE(s[..|s| - 1]) + s[|s| - 1]
  }

  lemma {:induction false} FromToBE(x: nat, n: nat)
    requires x < Pow256(n)
    ensures FromBE(ToBE(x, n)) == x
  {
    if n > 0 {
      FromToBE(x / 256, n - 1);
      assert ToBE(x, n)[..n - 1] == ToBE(x / 256, n - 1);
    }
  }

  /** A short number has zeros in front. */
  lemma {:induction false} LeadingZeros(x: nat, n: nat, k: nat)
    requires x < Pow256(n)
    ensures ToBE(x, n + k) == Zeros(k) + ToBE(x, n)
  {
    if n == 0 {
      AllZeros(k);
    } else {
      LeadingZeros(x / 256, n - 1, k);
    }
  }

  lemma {:induction false} AllZeros(k: nat)
    ensures ToBE(0, k) == Zeros(k)
  {
    if k > 0 {
      AllZeros(k - 1);
      assert Zeros(k - 1) + [0] == Zeros(k);
    }
  }

  /** A string of this length is whole blocks. */
  predicate Whole(alg: Algorithm, n: nat) {
    n % alg.BlockSize() == 0
  }

  /** How far a message of `n` bytes reaches into its last block. */
  function Rest(alg: Algorithm, n: nat): (r: nat)
    ensures r < alg.BlockSize()
  {
    n % alg.BlockSize()
  }

  lemma WholeNone(alg: Algorithm)
    ensures Whole(alg, 0) && Whole(alg, alg.BlockSize()) && Whole(alg, 2 * alg.BlockSize())
  {
    ModIs(alg.BlockSize(), alg.BlockSize(), 1, 0);
    ModIs(2 * alg.BlockSize(), alg.BlockSize(), 2, 0);
  }

  lemma WholeAdd(alg: Algorithm, a: nat, b: nat)
    requires Whole(alg, a)
    ensures Whole(alg, a + b) <==> Whole(alg, b)
  {
    SameMod(a + b, b, alg.BlockSize(), a / alg.BlockSize());
  }

  /** A non-empty string of whole blocks has a first one. */
  lemma WholeFirst(alg: Algorithm, n: nat)
    requires Whole(alg, n) && n > 0
    ensures alg.BlockSize() <= n && Whole(alg, n - alg.BlockSize())
  {
    if n < alg.BlockSize() { ModIs(n, alg.BlockSize(), 0, n); }
    SameMod(n, n - alg.BlockSize(), alg.BlockSize(), 1);
  }

  lemma RestIs(alg: Algorithm, n: nat, c: nat)
    requires c < alg.BlockSize() && c <= n && Whole(alg, n - c)
    ensures Rest(alg, n) == c
  {
    ModIs(n, alg.BlockSize(), (n - c) / alg.BlockSize(), c);
  }

  lemma RestLeavesWhole(alg: Algorithm, n: nat)
    ensures Rest(alg, n) <= n && Whole(alg, n - Rest(alg, n))
  {
    var b := alg.BlockSize();
    hide Algorithm.BlockSize;
    Split(n, n + 1, b);
    ModIs(n - n % b, b, n / b, 0);
  }

  /** Chain the block function over a string of whole blocks. */
  function Fold(alg: Algorithm, f: Compress, w: Words, s: seq<byte>): Words
    requires Whole(alg, |s|)
    decreases |s|
  {
    if s == [] then w
    else
      WholeFirst(alg, |s|);
      Fold(alg, f, f(w, s[..alg.BlockSize()]), s[alg.BlockSize()..])
  }

  /** Zeros between the one bit and the length field, with the message ending `n` bytes into a block. */
  function ZeroCount(alg: Algorithm, n: nat): (k: nat)
    requires n < alg.BlockSize()
    ensures n + 1 + k == alg.LengthAt() || n + 1 + k == alg.LengthAt() + alg.BlockSize()
    ensures k < alg.BlockSize()
  {
    if n < alg.LengthAt() then alg.LengthAt() - 1 - n else alg.BlockSize() + alg.LengthAt() - 1 - n
  }

  /** What the standards append to a message of `n` bytes: a one bit, zeros up to the length field, the length. */
  function Padding(alg: Algorithm, n: nat): (p: seq<byte>)
    ensures |p| == 1 + ZeroCount(alg, Rest(alg, n)) + (alg.BlockSize() - alg.LengthAt())
    ensures p[|p| - (alg.BlockSize() - alg.LengthAt())..] == alg.LengthField(8 * n)
  {
    [0x80] + Zeros(ZeroCount(alg, Rest(alg, n))) + alg.LengthField(8 * n)
  }

  /** Padded messages are whole blocks. */
  lemma PaddedWhole(alg: Algorithm, n: nat)
    ensures Whole(alg, Rest(alg, n) + |Padding(alg, n)|) && Whole(alg, n + |Padding(alg, n)|)
  {
    var r := Rest(alg, n);
    RestLeavesWhole(alg, n);
    WholeNone(alg);
    hide Padding, Whole, Rest, Algorithm.BlockSize, Algorithm.LengthAt;
    assert r + |Padding(alg, n)| == alg.BlockSize() || r + |Padding(alg, n)| == 2 * alg.BlockSize();
    WholeAdd(alg, n - r, r + |Padding(alg, n)|);
  }

  function Digest(alg: Algorithm, f: Compress, m: seq<byte>): seq<byte> {
    PaddedWhole(alg, |m|);
    alg.Output(Fold(alg, f, alg.InitialState(), m + Padding(alg, |m|)))
  }

  lemma {:induction false} FoldAppend(alg: Algorithm, f: Compress, w: Words, s: seq<byte>, t: seq<byte>)
    requires Whole(alg, |s|) && Whole(alg, |t|)
    ensures Whole(alg, |s + t|)
    ensures Fold(alg, f, w, s + t) == Fold(alg, f, Fold(alg, f, w, s), t)
    decreases |s|
  {
    hide Whole, Algorithm.BlockSize;
    var n := alg.BlockSize();
    WholeAdd(alg, |s|, |t|);
    if s == [] {
      assert s + t == t;
    } else {
      WholeFirst(alg, |s|);
      assert (s + t)[..n] == s[..n] && (s + t)[n..] == s[n..] + t;
      FoldAppend(alg, f, f(w, s[..n]), s[n..], t);
    }
  }

  lemma FoldBlock(alg: Algorithm, f: Compress, w: Words, b: seq<byte>)
    requires |b| == alg.BlockSize()
    ensures Whole(alg, |b|) && Fold(alg, f, w, b) == f(w, b)
  {
    WholeNone(alg);
    hide Whole, Algorithm.BlockSize;
    assert b[..alg.BlockSize()] == b && b[alg.BlockSize()..] == [];
  }

  /** Different messages are padded differently, within the lengths the standards allow. */
  lemma PaddingInjective(alg: Algorithm, m: seq<byte>, m': seq<byte>)
    requires 8 * |m| < W64 && 8 * |m'| < W64 && m + Padding(alg, |m|) == m' + Padding(alg, |m'|)
    ensures m == m'
  {
    hide Padding, Algorithm.BlockSize, Algorithm.LengthAt, Algorithm.LengthField;
    PaddedEnd(alg, m);
    PaddedEnd(alg, m');
    LengthReadBack(alg, 8 * |m|, 8 * |m'|);
    assert m == (m + Padding(alg, |m|))[..|m|] && m' == (m' + Padding(alg, |m'|))[..|m'|];
  }

  /** A padded message ends in its length field. */
  lemma PaddedEnd(alg: Algorithm, m: seq<byte>)
    ensures var p, k := m + Padding(alg, |m|), alg.BlockSize() - alg.LengthAt();
            0 <= k <= |p| && p[|p| - k..] == alg.LengthField(8 * |m|)
  {
    var k := alg.BlockSize() - alg.LengthAt();
    var q := Padding(alg, |m|);
    hide Padding, Algorithm.BlockSize, Algorithm.LengthAt, Algorithm.LengthField;
    Ending(m, q, k);
  }

  lemma Ending(a: seq<byte>, b: seq<byte>, k: nat)
    requires k <= |b|
    ensures (a + b)[|a + b| - k..] == b[|b| - k..]
  {
  }

  lemma LengthReadBack(alg: Algorithm, x: u64, y: u64)
    requires alg.LengthField(x) == alg.LengthField(y)
    ensures x == y
  {
    StoredField(alg, x);
    StoredField(alg, y);
    StoredReadBack(alg, x);
    StoredReadBack(alg, y);
    hide Algorithm.LengthField;
  }

  /** In range, the stored 64 bits are the tail of the standard's field, which is zero before. */
  lemma StoredField(alg: Algorithm, x: u64)
    ensures alg.LengthField(x) == Zeros(alg.BlockSize() - alg.LengthAt() - 8) + alg.StoredLength(x)
    ensures alg.LengthField(x)[|alg.LengthField(x)| - 8..] == alg.StoredLength(x)
  {
    match alg
    case Md5 => assert x % W64 == x; hide ToLE;
    case Sha1 => hide ToBE;
    case Sha512 => Pow256Values(); LeadingZeros(x, 8, 8); hide ToBE;
  }

  function ReadStored(alg: Algorithm, s: seq<byte>): nat {
    if alg.Md5? then FromLE(s) else FromBE(s)
  }

  lemma StoredReadBack(alg: Algorithm, x: u64)
    ensures ReadStored(alg, alg.StoredLength(x)) == x
  {
    Pow256Values();
    hide ToLE, ToBE, FromLE, FromBE, Pow256;
    if alg.Md5? { FromToLE(x, 8); } else { FromToBE(x, 8); }
  }

  // ---- start words and digests ----

  /** The square root of `p` is `k`, and `w` is its fractional part, cut off after 64 bits. */
  predicate RootBits(p: nat, k: nat, w: u64) {
    Square(k * W64 + w) <= p * W128 < Square(k * W64 + w + 1)
  }

  function Square(x: nat): nat {
    x * x
  }

  const PRIMES := [2, 3, 5, 7, 11, 13, 17, 19]
  const ROOTS := [1, 1, 2, 2, 3, 3, 4, 4]

  /** The start words of SHA-512 are the square roots of the first eight primes. */
  lemma StartRoots()
    ensures forall i :: 0 <= i < 8 ==> RootBits(PRIMES[i], ROOTS[i], Sha512.InitialState()[i])
  {
  }

  /** Those of MD5 and SHA-1 spell out the sixteen digits in order and back, in bytes. */
  lemma StartBytes()
    ensures Md5.InitialState()[..4] == Sha1.InitialState()[..4]
    ensures ToLE(Md5.InitialState()[0], 4) == [0x01, 0x23, 0x45, 0x67] && ToLE(Md5.InitialState()[1], 4) == [0x89, 0xab, 0xcd, 0xef]
    ensures ToLE(Md5.InitialState()[2], 4) == [0xfe, 0xdc, 0xba, 0x98] && ToLE(Md5.InitialState()[3], 4) == [0x76, 0x54, 0x32, 0x10]
    ensures ToLE(Sha1.InitialState()[4], 4) == [0xf0, 0xe1, 0xd2, 0xc3]
  {
  }

  /** Bytes of a word in the digest, and how many words it has. */
  function WordSize(alg: Algorithm): nat {
    if alg.Sha512? then 8 else 4
  }

  function WordCount(alg: Algorithm): nat {
    match alg case Md5 => 4 case Sha1 => 5 case Sha512 => 8
  }

  /** Read back in words, the digest is the final state. */
  lemma OutputReadBack(alg: Algorithm, w: Words, i: nat)
    requires i < WordCount(alg) && (forall k :: 0 <= k < 8 ==> w[k] < Pow256(WordSize(alg)))
    ensures var s, n := alg.Output(w), WordSize(alg);
            |s| == WordCount(alg) * n && ReadStored(alg, s[n * i..n * i + n]) == w[i]
  {
    hide ToLE, ToBE, FromLE, FromBE, Pow256;
    match alg
    case Md5 =>
      hide Algorithm.Output;
      Md5Words(w, i);
      FromToLE(w[i], 4);
    case Sha1 =>
      hide Algorithm.Output;
      Sha1Words(w, i);
      FromToBE(w[i], 4);
    case Sha512 =>
      hide Algorithm.Output;
      Sha512Words(w, i);
      FromToBE(w[i], 8);
  }

  lemma Md5Words(w: Words, i: nat)
    requires i < 4
    ensures var s := Md5.Output(w); |s| == 16 && s[4 * i..4 * i + 4] == ToLE(w[i], 4)
  {
    hide ToLE;
    if i < 2 { assert i in {0, 1}; } else { assert i in {2, 3}; }
  }

  lemma Sha1Words(w: Words, i: nat)
    requires i < 5
    ensures var s := Sha1.Output(w); |s| == 20 && s[4 * i..4 * i + 4] == ToBE(w[i], 4)
  {
    hide ToBE;
    if i < 2 { assert i in {0, 1}; } else { assert i in {2, 3, 4}; }
  }

  lemma Sha512Words(w: Words, i: nat)
    requires i < 8
    ensures var s := Sha512.Output(w); |s| == 64 && s[8 * i..8 * i + 8] == ToBE(w[i], 8)
  {
    hide ToBE;
    if i < 4 { assert i in {0, 1, 2, 3}; } else { assert i in {4, 5, 6, 7}; }
  }

  // ---- streaming ----

  /** `m` has been absorbed: its whole blocks are folded into `w` and the rest waits in the buffer. */
  ghost predicate Streaming(alg: Algorithm, f: Compress, m: seq<byte>, w: Words, buf: seq<byte>, curlen: nat, length: u64) {
    && |buf| == alg.BlockSize() && curlen < alg.BlockSize() && curlen <= |m| && Whole(alg, |m| - curlen)
    && w == Fold(alg, f, alg.InitialState(), m[..|m| - curlen])
    && buf[..curlen] == m[|m| - curlen..]
    && length == 8 * (|m| - curlen) % W64
  }

  /** A whole block goes straight to the block function. */
  lemma WholeStep(alg: Algorithm, f: Compress, m: seq<byte>, w: Words, buf: seq<byte>, length: u64, b: seq<byte>)
    requires Streaming(alg, f, m, w, buf, 0, length) && |b| == alg.BlockSize()
    ensures Streaming(alg, f, m + b, f(w, b), buf, 0, (length + 8 * alg.BlockSize()) % W64)
  {
    hide Whole, Algorithm.BlockSize, Algorithm.InitialState, Fold;
    assert m[..|m|] == m && (m + b)[..|m + b|] == m + b;
    FoldBlock(alg, f, w, b);
    FoldAppend(alg, f, alg.InitialState(), m, b);
  }

  /** A piece that leaves the buffer short of a block only waits. */
  lemma WaitStep(alg: Algorithm, f: Compress, m: seq<byte>, w: Words, buf: seq<byte>, curlen: nat, length: u64, b: seq<byte>)
    requires Streaming(alg, f, m, w, buf, curlen, length) && curlen + |b| < alg.BlockSize()
    ensures Streaming(alg, f, m + b, w, Splice(buf, curlen, b), curlen + |b|, length)
  {
    hide Whole, Algorithm.BlockSize, Algorithm.InitialState, Fold;
    var whole := |m| - curlen;
    assert (m + b)[..whole] == m[..whole];
    assert Splice(buf, curlen, b)[..curlen + |b|] == buf[..curlen] + b == (m + b)[whole..];
  }

  /** A piece that completes the buffer makes it a block. */
  lemma FullStep(alg: Algorithm, f: Compress, m: seq<byte>, w: Words, buf: seq<byte>, curlen: nat, length: u64, b: seq<byte>)
    requires Streaming(alg, f, m, w, buf, curlen, length) && curlen + |b| == alg.BlockSize()
    ensures var full := Splice(buf, curlen, b);
            Streaming(alg, f, m + b, f(w, full), full, 0, (length + 8 * alg.BlockSize()) % W64)
  {
    hide Whole, Algorithm.BlockSize, Algorithm.InitialState, Fold;
    var whole, full := |m| - curlen, Splice(buf, curlen, b);
    assert full == buf[..curlen] + b;
    assert m[..whole] + full == m + b;
    assert (m + b)[..|m + b|] == m + b;
    FoldBlock(alg, f, w, full);
    FoldAppend(alg, f, alg.InitialState(), m[..whole], full);
  }

  class HashState {
    const alg: Algorithm
    const compress: Compress
    var state: Words
    var curlen: nat
    var length: u64
    const buf: array<byte>
    /** All input since the start. */
    ghost var absorbed: seq<byte>

    ghost predicate Valid()
      reads this, buf
    {
      Streaming(alg, compress, absorbed, state, buf[..], curlen, length)
    }

    constructor (alg: Algorithm, compress: Compress)
      ensures Valid() && absorbed == [] && this.alg == alg && this.compress == compress && fresh(buf)
    {
      this.alg, this.compress := alg, compress;
      state, curlen, length := alg.InitialState(), 0, 0;
      buf := new byte[alg.BlockSize()](_ => 0);
      absorbed := [];
    }

    /** Absorb more input. */
    method Process(input: seq<byte>)
      requires Valid()
      modifies this, buf
      ensures Valid() && absorbed == old(absorbed) + input
    {
      hide Streaming;
      var pos := 0;
      assert absorbed + input[..0] == absorbed;
      while pos < |input|
        invariant 0 <= pos <= |input|
        invariant Valid() && absorbed == old(absorbed) + input[..pos]
      {
        CurlenInRange();
        if curlen == 0 && |input| - pos >= alg.BlockSize() {
          var b := input[pos..pos + alg.BlockSize()];
          WholeStep(alg, compress, absorbed, state, buf[..], length, b);
          state := compress(state, b);
          length := (length + alg.BlockSize() * 8) % W64;
          absorbed := absorbed + b;
          assert input[..pos] + b == input[..pos + |b|];
          pos := pos + alg.BlockSize();
        } else {
          var n := Min(|input| - pos, alg.BlockSize() - curlen);
          var b := input[pos..pos + n];
          Buffer(b);
          assert input[..pos] + b == input[..pos + n];
          pos := pos + n;
        }
      }
      assert input[..pos] == input;
    }

    lemma CurlenInRange()
      requires Valid()
      ensures curlen < alg.BlockSize() == buf.Length
    {
    }

    /** Put a piece into the buffer, and the buffer through the block function once it is full. */
    method Buffer(b: seq<byte>)
      requires Valid() && curlen + |b| <= alg.BlockSize() == buf.Length
      modifies this, buf
      ensures Valid() && absorbed == old(absorbed) + b
    {
      hide Streaming;
      if curlen + |b| < alg.BlockSize() {
        WaitStep(alg, compress, absorbed, state, buf[..], curlen, length, b);
      } else {
        FullStep(alg, compress, absorbed, state, buf[..], curlen, length, b);
      }
      CopyInto(buf, curlen, b);
      curlen := curlen + |b|;
      absorbed := absorbed + b;
      if curlen == alg.BlockSize() {
        state := compress(state, buf[..]);
        length := (length + 8 * alg.BlockSize()) % W64;
        curlen := 0;
      }
    }

    /** Fill the buffer with zeros up to `end`. */
    method FillZeros(end: nat)
      requires curlen <= end <= buf.Length
      modifies this`curlen, buf
      ensures curlen == end && buf[..end] == old(buf[..curlen]) + Zeros(end - old(curlen))
    {
      ghost var start := curlen;
      while curlen < end
        invariant start <= curlen <= end
        invariant buf[..curlen] == old(buf[..start]) + Zeros(curlen - start)
      {
        buf[curlen] := 0;
        curlen := curlen + 1;
        assert buf[..curlen] == buf[..curlen - 1] + [0];
        assert Zeros(curlen - start) == Zeros(curlen - 1 - start) + [0];
      }
    }

    /** Finish: pad, store the length, and give the digest of everything absorbed. */
    method Done() returns (out: seq<byte>)
      requires Valid() && (alg.Md5? || 8 * |absorbed| < W64)
      modifies this, buf
      ensures out == Digest(alg, compress, absorbed) && absorbed == old(absorbed)
    {
      hide Streaming, Digest, LastState, Algorithm.Output, Algorithm.BlockSize, Fold, Whole;
      Finished(alg, compress, absorbed, state, buf[..], curlen, length);
      length := (length + curlen * 8) % W64;
      PadBuffer();
      out := alg.Output(state);
    }

    /** Pad the buffer and put the last one or two blocks through the block function. */
    method PadBuffer()
      requires curlen < buf.Length == alg.BlockSize()
      modifies this, buf
      ensures state == LastState(alg, compress, old(state), old(buf[..curlen]), old(length)) && absorbed == old(absorbed)
    {
      hide Algorithm.StoredLength;
      ghost var t := buf[..curlen] + [0x80];
      buf[curlen] := 0x80;
      curlen := curlen + 1;
      assert buf[..curlen] == t;
      if curlen > alg.LengthAt() {
        FillZeros(alg.BlockSize());
        assert buf[..] == t + Zeros(alg.BlockSize() - |t|);
        state := compress(state, buf[..]);
        curlen := 0;
        t := [];
        assert buf[..curlen] == t;
      }
      FillZeros(alg.BlockSize() - 8);
      ghost var front := buf[..alg.BlockSize() - 8];
      assert front == t + Zeros(alg.BlockSize() - 8 - |t|);
      StoreLength(front);
      if t == [] { assert front == Zeros(alg.BlockSize() - 8); }
      state := compress(state, buf[..]);
    }

    method StoreLength(ghost front: seq<byte>)
      requires buf.Length == alg.BlockSize() && front == buf[..alg.BlockSize() - 8]
      modifies buf
      ensures buf[..] == front + alg.StoredLength(length)
    {
      CopyInto(buf, alg.BlockSize() - 8, alg.StoredLength(length));
    }
  }

  /** The last one or two blocks, as the program fills them. */
  ghost function LastState(alg: Algorithm, f: Compress, w: Words, tail: seq<byte>, length: u64): Words
    requires |tail| < alg.BlockSize()
  {
    var b := alg.BlockSize();
    var t := tail + [0x80];
    if |t| > alg.LengthAt() then f(f(w, t + Zeros(b - |t|)), Zeros(b - 8) + alg.StoredLength(length))
    else f(w, t + Zeros(b - 8 - |t|) + alg.StoredLength(length))
  }

  /** Those blocks are the rest of the message with its padding. */
  lemma Finished(alg: Algorithm, f: Compress, m: seq<byte>, w: Words, buf: seq<byte>, curlen: nat, length: u64)
    requires Streaming(alg, f, m, w, buf, curlen, length) && (alg.Md5? || 8 * |m| < W64)
    ensures curlen < |buf| == alg.BlockSize()
    ensures Digest(alg, f, m) == alg.Output(LastState(alg, f, w, buf[..curlen], (length + curlen * 8) % W64))
  {
    var tail, whole := buf[..curlen], m[..|m| - curlen];
    RestIs(alg, |m|, curlen);
    PaddedWhole(alg, |m|);
    LengthOf(|m|, curlen, length);
    hide Padding, LastState, Whole, Rest, Algorithm.BlockSize, Algorithm.Output, Algorithm.InitialState, Fold;
    LastBlocks(alg, f, w, tail, |m|);
    FoldAppend(alg, f, alg.InitialState(), whole, tail + Padding(alg, |m|));
    assert m == whole + tail;
    Attach(whole, tail, Padding(alg, |m|));
  }

  lemma Attach(a: seq<byte>, b: seq<byte>, c: seq<byte>)
    ensures a + (b + c) == a + b + c
  {
  }

  lemma LengthOf(n: nat, curlen: nat, length: u64)
    requires curlen <= n && length == 8 * (n - curlen) % W64
    ensures (length + curlen * 8) % W64 == 8 * n % W64
  {
    SameMod(8 * n, length + curlen * 8, W64, 8 * (n - curlen) / W64);
  }

  lemma ZerosAppend(a: nat, b: nat)
    ensures Zeros(a) + Zeros(b) == Zeros(a + b)
  {
  }

  lemma JoinThree(a: seq<byte>, b: seq<byte>, c: seq<byte>, d: seq<byte>)
    ensures a + b + (c + d) == a + (b + c) + d
  {
  }

  lemma FieldOf(alg: Algorithm, n: nat)
    requires alg.Md5? || 8 * n < W64
    ensures alg.BlockSize() - alg.LengthAt() >= 8
    ensures alg.LengthField(8 * n) == Zeros(alg.BlockSize() - alg.LengthAt() - 8) + alg.StoredLength(8 * n % W64)
  {
    var bits := 8 * n;
    StoredField(alg, bits % W64);
    if !alg.Md5? { assert bits % W64 == bits; } else { Md5Wraps(bits); }
  }

  lemma Md5Wraps(bits: nat)
    ensures Md5.LengthField(bits) == Md5.LengthField(bits % W64)
  {
  }

  /** In the range of the length, the padding is a one bit, zeros, and the stored 64 bits. */
  lemma PaddingZeros(alg: Algorithm, n: nat, c: nat)
    requires c == Rest(alg, n) && (alg.Md5? || 8 * n < W64)
    ensures var zeros := (if c < alg.LengthAt() then alg.BlockSize() else 2 * alg.BlockSize()) - 9 - c;
            zeros >= 0 && Padding(alg, n) == [0x80] + Zeros(zeros) + alg.StoredLength(8 * n % W64)
  {
    hide Rest, Algorithm.LengthField, Algorithm.StoredLength, Zeros, Algorithm.BlockSize, Algorithm.LengthAt;
    var k, f := ZeroCount(alg, c), alg.BlockSize() - alg.LengthAt();
    FieldOf(alg, n);
    ZerosAppend(k, f - 8);
    JoinThree([0x80], Zeros(k), Zeros(f - 8), alg.StoredLength(8 * n % W64));
  }

  lemma LastBlocks(alg: Algorithm, f: Compress, w: Words, tail: seq<byte>, n: nat)
    requires |tail| == Rest(alg, n) && (alg.Md5? || 8 * n < W64)
    ensures Whole(alg, |tail + Padding(alg, n)|)
    ensures Fold(alg, f, w, tail + Padding(alg, n)) == LastState(alg, f, w, tail, 8 * n % W64)
  {
    hide Padding, Algorithm.StoredLength, Algorithm.LengthField, Zeros, Fold, Whole, Rest, Algorithm.BlockSize, Algorithm.LengthAt;
    PaddedWhole(alg, n);
    PaddingZeros(alg, n, |tail|);
    FieldOf(alg, n);
    var b, t := alg.BlockSize(), tail + [0x80];
    var stored := alg.StoredLength(8 * n % W64);
    if |t| > alg.LengthAt() {
      ZerosAppend(b - |t|, b - 8);
      Prepend(tail, [0x80], Zeros(2 * b - 8 - |t|), stored);
      JoinThree(t, Zeros(b - |t|), Zeros(b - 8), stored);
      TwoBlocks(alg, f, w, t + Zeros(b - |t|), Zeros(b - 8) + stored);
    } else {
      Prepend(tail, [0x80], Zeros(b - 8 - |t|), stored);
      FoldBlock(alg, f, w, t + Zeros(b - 8 - |t|) + stored);
    }
  }

  lemma Prepend(a: seq<byte>, b: seq<byte>, c: seq<byte>, d: seq<byte>)
    ensures a + (b + c + d) == a + b + c + d
  {
  }

  lemma TwoBlocks(alg: Algorithm, f: Compress, w: Words, x: seq<byte>, y: seq<byte>)
    requires |x| == |y| == alg.BlockSize()
    ensures Whole(alg, |x + y|) && Fold(alg, f, w, x + y) == f(f(w, x), y)
  {
    hide Whole, Fold, Algorithm.BlockSize;
    FoldBlock(alg, f, w, x);
    FoldBlock(alg, f, f(w, x), y);
    FoldAppend(alg, f, w, x, y);
  }

  ghost function Concat(pieces: seq<seq<byte>>): seq<byte> {
    if pieces == [] then [] else Concat(pieces[..|pieces| - 1]) + pieces[|pieces| - 1]
  }

  /** However the input is split over calls, the digest is that of the whole input. */
  method HashPieces(alg: Algorithm, compress: Compress, pieces: seq<seq<byte>>) returns (out: seq<byte>)
    requires alg.Md5? || 8 * |Concat(pieces)| < W64
    ensures out == Digest(alg, compress, Concat(pieces))
  {
    hide Streaming, Digest;
    var h := new HashState(alg, compress);
    var i := 0;
    while i < |pieces|
      invariant 0 <= i <= |pieces| && fresh(h) && fresh(h.buf) && h.alg == alg && h.compress == compress
      invariant h.Valid() && h.absorbed == Concat(pieces[..i])
    {
      h.Process(pieces[i]);
      assert pieces[..i + 1][..i] == pieces[..i];
      i := i + 1;
    }
    assert pieces[..i] == pieces;
    out := h.Done();
  }
}
