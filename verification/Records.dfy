/** LZ match records: three or four 32-bit words per match. */
module Records {
  import opened Bytes
  import opened WideArithmetic

  datatype LzMatch = LzMatch(src: u64, dest: u64, len: u32)

  function StatsPerMatch(round: bool): (n: nat)
    ensures n >= 3
  {
    if round then 3 else 4
  }

  /** The words of one record. `base` is subtracted from the length; with `round`, offset
      and length are stored in units of `base`. */
  function EncodeLzMatch(round: bool, base: u32, litLen: u32, offset: u64, len: u32): (s: seq<u32>)
    requires base <= len && (round ==> base > 0)
    ensures |s| == StatsPerMatch(round)
  {
    var l1 := if round then base else 1;
    var offDiv := offset / l1;
    QuotientFits(len - base, l1);
    [litLen, offDiv % W32] + (if round then [] else [offDiv / W32]) + [(len - base) / l1]
  }

  lemma QuotientFits(a: u32, b: nat)
    requires b > 0
    ensures 0 <= a / b < W32
  {
    assert a / b <= a by { DivLe(a, b); }
  }

  lemma DivLe(a: nat, b: nat)
    requires b > 0
    ensures 0 <= a / b <= a
  {
    assert a == b * (a / b) + a % b;
    if a / b > a { MulAtLeast(b, a / b); }
  }

  lemma MulAtLeast(b: nat, q: nat)
    requires b >= 1
    ensures b * q >= q
  {
  }

  function Scale(x: nat, unit: nat): nat {
    x * unit
  }

  /** `x` rounded down to a multiple of `unit`. */
  function Align(x: nat, unit: nat): nat
    requires unit > 0
  {
    Scale(x / unit, unit)
  }

  /** Decode the record at the front of `stat`, in 32- and 64-bit wrapping arithmetic. */
  function DecodeLzMatch(stat: seq<u32>, future: bool, round: bool, l: u32, pos: u64): (r: (u32, LzMatch))
    requires |stat| >= StatsPerMatch(round) && (round ==> l > 0)
  {
    var l1 := if round then l else 1;
    var litLen := stat[0];
    var words := if round then stat[1] else stat[1] + stat[2] * W32;
    var offset := Scale(words, l1) % W64;
    var len := (Scale(stat[StatsPerMatch(round) - 1], l1) + l) % W32;
    if future then
      var src := (pos + litLen) % W64;
      (litLen, LzMatch(src, (src + offset) % W64, len))
    else
      var dest := (pos + litLen) % W64;
      (litLen, LzMatch((Align(dest, l1) - offset) % W64, dest, len))
  }

  lemma PlainWords(base: u32, litLen: u32, offset: u64, len: u32)
    requires base <= len
    ensures EncodeLzMatch(false, base, litLen, offset, len) == [litLen, offset % W32, offset / W32, len - base]
    ensures offset % W32 + offset / W32 * W32 == offset
  {
  }

  /** Plain and future records read back as written. */
  lemma PlainRoundTrip(base: u32, litLen: u32, offset: u64, len: u32, pos: u64)
    requires base <= len
    ensures pos + litLen + offset < W64 ==>
      DecodeLzMatch(EncodeLzMatch(false, base, litLen, offset, len), true, false, base, pos)
      == (litLen, LzMatch(pos + litLen, pos + litLen + offset, len))
    ensures offset <= pos + litLen < W64 ==>
      DecodeLzMatch(EncodeLzMatch(false, base, litLen, offset, len), false, false, base, pos)
      == (litLen, LzMatch(pos + litLen - offset, pos + litLen, len))
  {
    hide EncodeLzMatch;
    PlainWords(base, litLen, offset, len);
    PlainDecode(base, litLen, offset, len, pos);
  }

  lemma PlainDecode(base: u32, litLen: u32, offset: u64, len: u32, pos: u64)
    requires base <= len
    ensures var s := [litLen, offset % W32, offset / W32, len - base];
            && (pos + litLen + offset < W64 ==>
                  DecodeLzMatch(s, true, false, base, pos) == (litLen, LzMatch(pos + litLen, pos + litLen + offset, len)))
            && (offset <= pos + litLen < W64 ==>
                  DecodeLzMatch(s, false, false, base, pos) == (litLen, LzMatch(pos + litLen - offset, pos + litLen, len)))
  {
    var s := [litLen, offset % W32, offset / W32, len - base];
    assert s[1] + s[2] * W32 == offset;
    Same64(offset);
    ByOne(offset);
    ByOne(len - base);
    ByOne(pos + litLen);
    hide Scale, Align;
  }

  lemma Same64(x: u64)
    ensures x % W64 == x
  {
  }

  lemma ByOne(x: nat)
    ensures Scale(x, 1) == x && Align(x, 1) == x
  {
  }

  /** Rounded records recover an aligned source exactly, wherever the destination lies:
      the stored quotient forgets the destination's misalignment and decoding rounds it away. */
  lemma RoundedRoundTrip(base: u32, litLen: u32, src: u64, len: u32, pos: u64)
    requires 0 < base <= len && src % base == 0 && len % base == 0
    requires src < pos + litLen < W64 && (pos + litLen - src) / base < W32
    ensures DecodeLzMatch(EncodeLzMatch(true, base, litLen, pos + litLen - src, len), false, true, base, pos)
      == (litLen, LzMatch(src, pos + litLen, len))
  {
    var dest := pos + litLen;
    RoundedOffset(dest, src, base);
    RoundedLength(len, base);
    RoundedWords(base, litLen, dest - src, len);
    hide Scale, Align, EncodeLzMatch;
    RoundedDecode(base, litLen, (dest - src) / base, (len - base) / base, pos, src, len);
  }

  /** And only then: rounding keeps exactly the records of aligned source and length. */
  lemma RoundedExactly(base: u32, litLen: u32, src: u64, len: u32, pos: u64)
    requires 0 < base <= len && src < pos + litLen < W64 && (pos + litLen - src) / base < W32
    ensures (DecodeLzMatch(EncodeLzMatch(true, base, litLen, pos + litLen - src, len), false, true, base, pos)
              == (litLen, LzMatch(src, pos + litLen, len)))
            <==> src % base == 0 && len % base == 0
  {
    if src % base == 0 && len % base == 0 {
      RoundedRoundTrip(base, litLen, src, len, pos);
    }
    var dest, off, n := pos + litLen, (pos + litLen - src) / base, (len - base) / base;
    RoundedWords(base, litLen, dest - src, len);
    RoundedRange(dest, src, len, base);
    hide Scale, Align, EncodeLzMatch;
    RoundedFields(base, litLen, off, n, pos);
  }

  lemma RoundedFields(base: u32, litLen: u32, off: u32, n: u32, pos: u64)
    requires base > 0 && pos + litLen < W64 && Scale(off, base) <= Align(pos + litLen, base) < W64 && Scale(n, base) + base < W32
    ensures DecodeLzMatch([litLen, off, n], false, true, base, pos)
      == (litLen, LzMatch(Align(pos + litLen, base) - Scale(off, base), pos + litLen, Scale(n, base) + base))
  {
    hide Scale, Align;
  }

  /** What comes back is a multiple of the base in both fields. */
  lemma RoundedRange(dest: u64, src: nat, len: u32, base: nat)
    requires 0 < base <= len && src < dest
    ensures Scale((dest - src) / base, base) <= Align(dest, base) <= dest
    ensures (Align(dest, base) - Scale((dest - src) / base, base)) % base == 0
    ensures Scale((len - base) / base, base) + base <= len && (Scale((len - base) / base, base) + base) % base == 0
  {
    var a, b, c := dest / base, (dest - src) / base, (len - base) / base;
    Floor(dest, base);
    Floor(len - base, base);
    QuotientMonotone(dest - src, dest, base);
    Distribute(a - b, b, base);
    Distribute(c, 1, base);
    Monotone(0, a - b, base);
    ModIs((a - b) * base, base, a - b, 0);
    ModIs((c + 1) * base, base, c + 1, 0);
  }

  lemma QuotientMonotone(x: nat, y: nat, base: nat)
    requires base > 0 && x <= y
    ensures x / base <= y / base
  {
    var p, q := x / base, y / base;
    assert x == p * base + x % base && y == q * base + y % base;
    if p > q {
      Monotone(q + 1, p, base);
      Distribute(q, 1, base);
    }
  }

  /** With chunks of 1000 bytes and the default base length of 512, the second chunk is lost. */
  lemma RoundedLoss(pos: u64)
    requires 2000 <= pos < W32
    ensures DecodeLzMatch(EncodeLzMatch(true, 512, 0, pos - 1000, 1000), false, true, 512, pos) != (0, LzMatch(1000, pos, 1000))
  {
    hide EncodeLzMatch, DecodeLzMatch;
    DivLe(pos - 1000, 512);
    RoundedExactly(512, 0, 1000, 1000, pos);
  }

  lemma RoundedWords(base: u32, litLen: u32, offset: u64, len: u32)
    requires 0 < base <= len && offset / base < W32
    ensures (len - base) / base < W32
    ensures EncodeLzMatch(true, base, litLen, offset, len) == [litLen, offset / base, (len - base) / base]
  {
    QuotientFits(len - base, base);
    DivLe(offset, base);
  }

  lemma RoundedDecode(base: u32, litLen: u32, off: u32, n: u32, pos: u64, src: u64, len: u32)
    requires base > 0 && pos + litLen < W64
    requires Scale(off, base) <= pos + litLen - src && Scale(n, base) + base == len
    requires Align(pos + litLen, base) - Scale(off, base) == src
    ensures DecodeLzMatch([litLen, off, n], false, true, base, pos) == (litLen, LzMatch(src, pos + litLen, len))
  {
    hide Scale, Align;
  }

  lemma RoundedOffset(dest: nat, src: nat, base: nat)
    requires base > 0 && src % base == 0 && src <= dest
    ensures Align(dest, base) - Scale((dest - src) / base, base) == src
    ensures Scale((dest - src) / base, base) <= dest - src
  {
    var s := src / base;
    Exact(src, base);
    SubMultiple(dest, s, base);
    assert dest / base == (dest - src) / base + s;
    Distribute((dest - src) / base, s, base);
    Floor(dest - src, base);
  }

  lemma RoundedLength(len: nat, base: nat)
    requires 0 < base <= len && len % base == 0
    ensures Scale((len - base) / base, base) + base == len
  {
    Exact(len, base);
    SubMultiple(len, 1, base);
    Distribute((len - base) / base, 1, base);
  }

  lemma Distribute(a: int, b: int, c: int)
    ensures (a + b) * c == a * c + b * c
  {
  }

  lemma Exact(a: nat, b: nat)
    requires b > 0 && a % b == 0
    ensures a == a / b * b
  {
  }

  lemma Floor(a: nat, b: nat)
    requires b > 0
    ensures 0 <= a / b * b <= a
  {
    assert a == a / b * b + a % b;
  }

  lemma SubMultiple(a: nat, k: nat, b: nat)
    requires b > 0 && k * b <= a
    ensures (a - k * b) / b == a / b - k
  {
    var q, r := a / b, a % b;
    assert a == q * b + r;
    assert a - k * b == (q - k) * b + r;
    ModIs(a - k * b, b, q - k, r);
  }
}
