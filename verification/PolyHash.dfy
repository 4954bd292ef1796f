/** The polynomial and final hashes of VHASH: arithmetic modulo 2^127-1 and 2^64-257 in registers. */
module PolyHash {
  import opened Bytes
  import opened WideArithmetic

  const P127 := 0x7FFF_FFFF_FFFF_FFFF_FFFF_FFFF_FFFF_FFFF
  const P64 := 0xFFFF_FFFF_FFFF_FEFF

  /** The high word of an accumulator never exceeds this. */
  const ACC_MAX := 0xC000_0000_0000_0000
  /** Key words are masked to 29 bits in either half. */
  const KEY_LIMB := 0x2000_0000
  /** High words of block hashes are masked to 62 bits. */
  const W62 := 0x4000_0000_0000_0000
  const W61 := 0x2000_0000_0000_0000

  predicate MaskedKey(k: u64) {
    k / W32 < KEY_LIMB && k % W32 < KEY_LIMB
  }

  lemma MaskedBelow(k: u64)
    requires MaskedKey(k)
    ensures k < W61
  {
    assert k == k / W32 * W32 + k % W32;
  }

  /** One step of the polynomial. */
  function Step(acc: nat, key: nat, m: nat): nat {
    (Product(acc, key) + m) % P127
  }

  /** The parts of the product, once summed in registers and folded at 2^127 = 1, leave its residue. */
  lemma StepSum(prod: int, high: nat, middle: nat, low: nat, m: nat, t2h: nat, ahi: nat, alo: nat, r: nat)
    requires prod == high * W128 + middle * W64 + low
    requires Value(t2h * W64 + ahi, alo) == low + 2 * high + middle * W64
    requires r == Value(ahi % W63, alo) + m + 2 * t2h + ahi / W63
    ensures r % P127 == (prod + m) % P127
  {
    var q := 2 * high + 2 * t2h + ahi / W63;
    assert ahi == ahi / W63 * W63 + ahi % W63;
    assert prod + m == r + q * P127;
    SameMod(prod + m, r, P127, q);
  }

  lemma Double(x: int, y: int)
    ensures Product(x, 2 * y) == 2 * Product(x, y)
  {
  }

  lemma Expand(ah: int, al: int, kh: int, kl: int)
    ensures Product(Value(ah, al), Value(kh, kl))
            == Product(ah, kh) * W128 + (Product(ah, kl) + Product(al, kh)) * W64 + Product(al, kl)
  {
    assert (ah * W64 + al) * (kh * W64 + kl) == ah * kh * (W64 * W64) + (ah * kl + al * kh) * W64 + al * kl;
  }

  lemma StepBounds(ah: u64, al: u64, kh: u64, kl: u64)
    requires ah <= ACC_MAX && kh < W61 && kl < W61
    ensures 2 * kh < W64
    ensures Product(al, kl) < W61 * W64 && Product(al, kh) < W61 * W64
    ensures Product(ah, kl) < W61 * W64 && Product(ah, 2 * kh) < W62 * W64
  {
    ProductBelow(al, kl, W64, W61);
    ProductBelow(al, kh, W64, W61);
    ProductBelow(ah, kl, W64, W61);
    ProductBelow(ah, 2 * kh, W64, W62);
  }

  lemma FoldHigh(t2h: nat, ahi: u64)
    requires t2h < W63 - 1
    ensures (2 * t2h % W64 + ahi / W63) % W64 == 2 * t2h + ahi / W63
    ensures 0 <= ahi / W63 <= 1 && 0 <= ahi % W63 < W63
  {
  }

  /** One polynomial step in 64-bit registers: multiply the accumulator by the key, add the
      block hash, and keep the result modulo 2^127-1 within two registers. */
  method PolyStep(ah: u64, al: u64, kh: u64, kl: u64, mh: u64, ml: u64) returns (rh: u64, rl: u64)
    requires ah <= ACC_MAX && MaskedKey(kh) && MaskedKey(kl) && mh < W62
    ensures rh <= ACC_MAX
    ensures Value(rh, rl) % P127 == Step(Value(ah, al), Value(kh, kl), Value(mh, ml))
  {
    Expand(ah, al, kh, kl);
    Double(ah, kh);
    hide Product, Mul128, MaskedKey;
    MaskedBelow(kh);
    MaskedBelow(kl);
    StepBounds(ah, al, kh, kl);
    var (t3h, t3l) := Mul128(al, kh);
    var (t2h, t2l) := Mul128(ah, kl);
    assert 2 * kh % W64 == 2 * kh;
    var (t1h, t1l) := Mul128(ah, 2 * kh % W64);
    var (ahi, alo) := Mul128(al, kl);
    ahi, alo := Add128(ahi, alo, t1h, t1l);
    t2h, t2l := Add128(t2h, t2l, t3h, t3l);
    t2h, ahi := Add128(t2h, ahi, 0, t2l);
    ghost var hi := ahi;
    ghost var lo := alo;
    FoldHigh(t2h, ahi);
    var t2hv := (2 * t2h % W64 + ahi / W63) % W64;
    ahi := ahi % W63;
    ahi, alo := Add128(ahi, alo, mh, ml);
    ahi, alo := Add128(ahi, alo, 0, t2hv);
    StepSum(Product(Value(ah, al), Value(kh, kl)), Product(ah, kh), Product(ah, kl) + Product(al, kh), Product(al, kl),
      Value(mh, ml), t2h, hi, lo, Value(ahi, alo));
    rh, rl := ahi, alo;
  }

  // ---- 32-bit limbs ----

  function Limbs(x0: int, x1: int, x2: int, x3: int): int {
    x0 + x1 * W32 + x2 * W64 + x3 * (W64 * W32)
  }

  lemma LimbsOf(h: u64, l: u64)
    ensures Value(h, l) == Limbs(l % W32, l / W32, h % W32, h / W32)
    ensures l / W32 < W32 && h / W32 < W32
  {
  }

  /** The product of two four-limb numbers, column by column. */
  lemma ExpandLimbs(a0: int, a1: int, a2: int, a3: int, k0: int, k1: int, k2: int, k3: int)
    ensures Product(Limbs(a0, a1, a2, a3), Limbs(k0, k1, k2, k3))
            == Limbs(Product(a0, k0),
                     Product(a0, k1) + Product(a1, k0),
                     Product(a0, k2) + Product(a1, k1) + Product(a2, k0),
                     Product(a0, k3) + Product(a1, k2) + Product(a2, k1) + Product(a3, k0))
             + W128 * Limbs(Product(a1, k3) + Product(a2, k2) + Product(a3, k1),
                            Product(a2, k3) + Product(a3, k2), Product(a3, k3), 0)
  {
    var k := Limbs(k0, k1, k2, k3);
    assert Limbs(a0, a1, a2, a3) * k == a0 * k + a1 * W32 * k + a2 * W64 * k + a3 * (W64 * W32) * k;
    LimbRow(a0, k0, k1, k2, k3);
    LimbRow(a1, k0, k1, k2, k3);
    LimbRow(a2, k0, k1, k2, k3);
    LimbRow(a3, k0, k1, k2, k3);
    Regroup(W32, k, a1);
    Regroup(W64, k, a2);
    Regroup(W64 * W32, k, a3);
  }

  lemma Regroup(w: int, k: int, a: int)
    ensures a * w * k == w * (a * k)
  {
  }

  lemma LimbRow(a: int, k0: int, k1: int, k2: int, k3: int)
    ensures a * Limbs(k0, k1, k2, k3) == Limbs(Product(a, k0), Product(a, k1), Product(a, k2), Product(a, k3))
  {
  }

  ghost function Column2(a0: u32, a1: u32, a2: u32, a3: u32, k0: u32, k1: u32, k2: u32, k3: u32): int {
    Product(a0, k2) + Product(a1, k1) + Product(a2, k0) + 2 * Product(a3, k3)
  }

  ghost function Column3(a0: u32, a1: u32, a2: u32, a3: u32, k0: u32, k1: u32, k2: u32, k3: u32): int {
    Product(a0, k3) + Product(a1, k2) + Product(a2, k1) + Product(a3, k0)
  }

  ghost function Column0(a0: u32, a1: u32, a2: u32, a3: u32, k0: u32, k1: u32, k2: u32, k3: u32): int {
    Product(a0, k0) + 2 * (Product(a1, k3) + Product(a2, k2) + Product(a3, k1))
  }

  ghost function Column1(a0: u32, a1: u32, a2: u32, a3: u32, k0: u32, k1: u32, k2: u32, k3: u32): int {
    Product(a0, k1) + Product(a1, k0) + 2 * (Product(a2, k3) + Product(a3, k2))
  }

  /** The columns of a product, folded at 2^128 = 2 and 2^127 = 1, leave its residue. */
  lemma LimbSum(prod: int, l0: nat, l1: nat, l2: nat, l3: nat, h0: nat, h1: nat, h2: nat, m: nat, r: nat, carry: nat)
    requires prod == Limbs(l0, l1, l2, l3) + W128 * Limbs(h0, h1, h2, 0)
    requires r + carry * P127 == m + Limbs(l0 + 2 * h0, l1 + 2 * h1, l2 + 2 * h2, l3)
    ensures r % P127 == (prod + m) % P127
  {
    var q := carry + 2 * Limbs(h0, h1, h2, 0);
    assert prod + m == r + q * P127;
    SameMod(prod + m, r, P127, q);
  }

  lemma LimbBound(a: u32, k: nat)
    requires k < KEY_LIMB
    ensures 0 <= Product(a, k) < W61
  {
    ProductBelow(a, k, W32, KEY_LIMB);
  }

  lemma LimbBounds(a0: u32, a1: u32, a2: u32, a3: u32, k: nat)
    requires k < KEY_LIMB
    ensures 0 <= Product(a0, k) < W61 && 0 <= Product(a1, k) < W61
    ensures 0 <= Product(a2, k) < W61 && 0 <= Product(a3, k) < W61
  {
    LimbBound(a0, k);
    LimbBound(a1, k);
    LimbBound(a2, k);
    LimbBound(a3, k);
  }

  /** The upper columns: `t` holds their low 63 bits, `p` what carries over to the bottom. */
  method UpperColumns(a0: u32, a1: u32, a2: u32, a3: u32, k0: u32, k1: u32, k2: u32, k3: u32, mh: u64) returns (t: u64, p: u64)
    requires k0 < KEY_LIMB && k1 < KEY_LIMB && k2 < KEY_LIMB && k3 < KEY_LIMB && mh < W62
    ensures t < W63 && p <= 0x2_0000_0000
    ensures p * W63 + t == mh + Column2(a0, a1, a2, a3, k0, k1, k2, k3) + Column3(a0, a1, a2, a3, k0, k1, k2, k3) * W32
  {
    LimbBounds(a0, a1, a2, a3, k0);
    LimbBounds(a0, a1, a2, a3, k1);
    LimbBounds(a0, a1, a2, a3, k2);
    LimbBounds(a0, a1, a2, a3, k3);
    hide Product;
    p := Product(a3, k3);
    p := p + p;
    p := p + mh;
    p := p + Product(a0, k2);
    p := p + Product(a1, k1);
    p := p + Product(a2, k0);
    ghost var c2 := p;
    t := p % W32;
    p := p / W32;
    p := p + Product(a0, k3);
    p := p + Product(a1, k2);
    p := p + Product(a2, k1);
    p := p + Product(a3, k0);
    assert c2 == c2 / W32 * W32 + t;
    t := t + p % 0x8000_0000 * W32;
    p := p / 0x8000_0000;
  }

  /** The lower columns, from the carry `c` up: `p` is what carries over to the top. */
  method LowerColumns(a0: u32, a1: u32, a2: u32, a3: u32, k0: u32, k1: u32, k2: u32, k3: u32, ml: u64, c: u64) returns (rl: u64, p: u64)
    requires k0 < KEY_LIMB && k1 < KEY_LIMB && k2 < KEY_LIMB && k3 < KEY_LIMB && c <= 0x2_0000_0000
    ensures p < W32
    ensures Value(p, rl) == c + ml + Column0(a0, a1, a2, a3, k0, k1, k2, k3) + Column1(a0, a1, a2, a3, k0, k1, k2, k3) * W32
  {
    LimbBounds(a0, a1, a2, a3, k0);
    LimbBounds(a0, a1, a2, a3, k1);
    LimbBounds(a0, a1, a2, a3, k2);
    LimbBounds(a0, a1, a2, a3, k3);
    hide Product;
    p := c;
    p := p + ml % W32;
    p := p + Product(a0, k0);
    var q: u64 := Product(a1, k3);
    q := q + Product(a2, k2);
    q := q + Product(a3, k1);
    q := q + q;
    p := p + q;
    ghost var c0 := p;
    var t2: u32 := p % W32;
    p := p / W32;
    assert c0 == p * W32 + t2;
    p := p + ml / W32;
    p := p + Product(a0, k1);
    p := p + Product(a1, k0);
    q := Product(a2, k3);
    q := q + Product(a3, k2);
    q := q + q;
    p := p + q;
    assert ml == ml / W32 * W32 + ml % W32;
    rl := p % W32 * W32 + t2;
    p := p / W32;
  }

  /** The same step for 32-bit machines. No 64-bit sum overflows, and the result has the
      residue of the 64-bit form. */
  method PolyStepFunc(ah: u64, al: u64, kh: u64, kl: u64, mh: u64, ml: u64) returns (rh: u64, rl: u64)
    requires MaskedKey(kh) && MaskedKey(kl) && mh < W62
    ensures rh <= ACC_MAX
    ensures Value(rh, rl) % P127 == Step(Value(ah, al), Value(kh, kl), Value(mh, ml))
  {
    LimbsOf(ah, al);
    LimbsOf(kh, kl);
    hide Product, Limbs;
    var a0: u32, a1: u32, a2: u32, a3: u32 := al % W32, al / W32, ah % W32, ah / W32;
    var k0: u32, k1: u32, k2: u32, k3: u32 := kl % W32, kl / W32, kh % W32, kh / W32;
    var t, carry := UpperColumns(a0, a1, a2, a3, k0, k1, k2, k3, mh);
    var p;
    rl, p := LowerColumns(a0, a1, a2, a3, k0, k1, k2, k3, ml, carry);
    rh := p + t;
    Recombine(Column0(a0, a1, a2, a3, k0, k1, k2, k3), Column1(a0, a1, a2, a3, k0, k1, k2, k3),
      Column2(a0, a1, a2, a3, k0, k1, k2, k3), Column3(a0, a1, a2, a3, k0, k1, k2, k3), mh, ml, t, p, rl, carry);
    ExpandLimbs(a0, a1, a2, a3, k0, k1, k2, k3);
    LimbBounds(a0, a1, a2, a3, k0);
    LimbBounds(a0, a1, a2, a3, k1);
    LimbBounds(a0, a1, a2, a3, k2);
    LimbBounds(a0, a1, a2, a3, k3);
    LimbSum(Product(Limbs(a0, a1, a2, a3), Limbs(k0, k1, k2, k3)),
      Product(a0, k0), Product(a0, k1) + Product(a1, k0), Product(a0, k2) + Product(a1, k1) + Product(a2, k0),
      Product(a0, k3) + Product(a1, k2) + Product(a2, k1) + Product(a3, k0),
      Product(a1, k3) + Product(a2, k2) + Product(a3, k1), Product(a2, k3) + Product(a3, k2), Product(a3, k3),
      Value(mh, ml), Value(rh, rl), carry);
  }

  /** The carry into the next multiple of 2^127 counts as one at the bottom. */
  lemma Recombine(c0: int, c1: int, c2: int, c3: int, mh: u64, ml: u64, t: u64, p: u64, rl: u64, carry: u64)
    requires carry * W63 + t == mh + c2 + c3 * W32
    requires Value(p, rl) == carry + ml + c0 + c1 * W32
    ensures Value(p + t, rl) + carry * P127 == Value(mh, ml) + Limbs(c0, c1, c2, c3)
  {
  }

  // ---- the final hash ----

  const RADIX := 0xFFFF_FFFF_0000_0000

  /** The final hash of a fully reduced polynomial value. */
  function FinalHash(x: nat, k1: nat, k2: nat): nat {
    Product(x / RADIX + k1, x % RADIX + k2) % P64
  }

  /** Reduce (p1,p2) plus the length modulo 2^127-1. */
  method Reduce127(p1: u64, p2: u64, len: u64) returns (h: u64, l: u64)
    requires len < W63
    ensures Value(h, l) == (Value(p1, p2) + len * W64) % P127
  {
    var t := p1 / W63;
    h := p1 % W63;
    assert p1 == t * W63 + h;
    ghost var v := Value(h, p2) + Value(len, t);
    h, l := Add128(h, p2, len, t);
    t := (if h > W63 - 1 then 1 else 0) + (if h == W63 - 1 && l == W64 - 1 then 1 else 0);
    ghost var first := p1 / W63;
    assert t == 1 <==> v >= P127;
    h, l := Add128(h, l, 0, t);
    ghost var before := h;
    h := h % W63;
    assert before == t * W63 + h;
    ModIs(Value(p1, p2) + len * W64, P127, first + t, Value(h, l));
  }

  /** Quotient and remainder by 2^64-2^32 without dividing. */
  method DivideRadix(p1: u64, p2: u64) returns (q: u64, r: u64)
    requires p1 < W63
    ensures q == Value(p1, p2) / RADIX && r == Value(p1, p2) % RADIX
    ensures q <= W63 + 2 * W32
  {
    var t := p1 + p2 / W32;
    ghost var th := t / W32;
    ghost var tl := t % W32;
    t := t + t / W32;
    t := t + if t % W32 > 0xFFFF_FFFE then 1 else 0;
    assert t / W32 == th + if th + tl >= W32 - 1 then 1 else 0 by { CarryOver(th, tl); }
    q := p1 + t / W32;
    ghost var rest := th + tl - (if th + tl >= W32 - 1 then W32 - 1 else 0);
    ghost var pl := p2 % W32;
    ghost var rem := rest * W32 + pl;
    assert p2 == p2 / W32 * W32 + pl;
    assert Value(p1, p2) == q * RADIX + rem;
    ModIs(Value(p1, p2), RADIX, q, rem);
    r := (p2 + q * W32 % W64) % W64;
    LowWord(p1, p2, q, rem);
  }

  lemma CarryOver(th: nat, tl: u32)
    requires th <= 0x8000_0001
    ensures var t := th * W32 + tl + th;
            (t + if t % W32 > 0xFFFF_FFFE then 1 else 0) / W32 == th + if th + tl >= W32 - 1 then 1 else 0
  {
    var t := th * W32 + tl + th;
    if th + tl < W32 {
      ModIs(t, W32, th, th + tl);
    } else {
      ModIs(t, W32, th + 1, th + tl - W32);
    }
  }

  lemma LowWord(p1: u64, p2: u64, q: nat, rem: nat)
    requires Value(p1, p2) == q * RADIX + rem && rem < RADIX
    ensures (p2 + q * W32 % W64) % W64 == rem
  {
    var c := q * W32 / W64;
    assert q * W32 == c * W64 + q * W32 % W64;
    ModIs(p2 + q * W32 % W64, W64, q - p1 - c, rem);
  }

  /** Add a key modulo 2^64-257: a wrapped sum makes up for the lost 2^64. */
  method AddKey(p: u64, k: u64) returns (r: u64)
    requires p + k < 2 * W64 - 257
    ensures r % P64 == (p + k) % P64
  {
    r := (p + k) % W64;
    var wrapped := if r < k then 257 else 0;
    assert r < k <==> p + k >= W64;
    r := (r + wrapped) % W64;
    SameMod(p + k, r, P64, if wrapped == 257 then 1 else 0);
  }

  const W56 := 0x100_0000_0000_0000

  lemma ShiftedHigh(rh: u64)
    ensures rh / W56 * W64 + rh * 0x100 % W64 == rh * 0x100 && 0 <= rh / W56 < 0x100
  {
    ModIs(rh * 0x100, W64, rh / W56, rh % W56 * 0x100);
  }

  /** The product modulo 2^64-257. */
  method MulMod64(a: u64, b: u64) returns (r: u64)
    ensures r == Product(a, b) % P64
  {
    hide Product, Mul128;
    var (rh, rl) := Mul128(a, b);
    ShiftedHigh(rh);
    var t: u64, l: u64 := rh / W56, rl;
    t, l := Add128(t, l, 0, rh);
    t, l := Add128(t, l, 0, rh * 0x100 % W64);
    assert Value(t, l) == rl + 257 * rh;
    r := FoldTop(t, l);
    SameMod(Product(a, b), Value(t, l), P64, rh);
  }

  /** The last reduction: fold the few high bits back in and subtract the modulus once more if need be. */
  method FoldTop(t0: u64, l0: u64) returns (r: u64)
    requires t0 <= 258
    ensures r == Value(t0, l0) % P64
  {
    var t: u64 := (t0 + t0 * 0x100 % W64) % W64;
    assert t == 257 * t0;
    var l := (l0 + t) % W64;
    ghost var c := if l0 + t >= W64 then 1 else 0;
    assert l0 + t == c * W64 + l && (l < t <==> c == 1);
    var l1 := (l + if l < t then 257 else 0) % W64;
    assert l1 == l + 257 * c;
    r := (l1 + if l1 > P64 - 1 then 257 else 0) % W64;
    ghost var d := if l1 > P64 - 1 then 1 else 0;
    assert l1 == d * P64 + r;
    ModIs(Value(t0, l0), P64, t0 + c + d, r);
  }

  lemma ProductMod(a: nat, b: nat, c: nat, d: nat)
    requires a % P64 == c % P64 && b % P64 == d % P64
    ensures Product(a, b) % P64 == Product(c, d) % P64
  {
    var q := ModGap(a, c, P64);
    var s := ModGap(b, d, P64);
    assert (c + q * P64) * (d + s * P64) == c * d + (q * d + c * s + q * s * P64) * P64;
    SameMod(a * b, c * d, P64, q * d + c * s + q * s * P64);
  }

  /** The final hash is the exact residue for every accumulator and length, although no step divides. */
  method L3Hash(p1: u64, p2: u64, k1: u64, k2: u64, len: u64) returns (r: u64)
    requires k1 < P64 && k2 < P64 && len < W63
    ensures r == FinalHash((Value(p1, p2) + len * W64) % P127, k1, k2)
  {
    hide Product;
    var h, l := Reduce127(p1, p2, len);
    ghost var x := Value(h, l);
    h, l := DivideRadix(h, l);
    var a := AddKey(h, k1);
    var b := AddKey(l, k2);
    r := MulMod64(a, b);
    ProductMod(a, b, x / RADIX + k1, x % RADIX + k2);
  }
}
