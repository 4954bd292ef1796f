/** The polynomial rolling hash of a window of bytes, modulo 2^64. */
module RollingHash {
  import opened Bytes
  import opened WideArithmetic

  const PRIME1 := 153191

  function Pow(b: int, n: nat): int {
    if n == 0 then 1 else Product(b, Pow(b, n - 1))
  }

  /** The polynomial whose coefficients are the bytes of the window, the last one constant. */
  function Poly(seed: int, w: seq<byte>): int {
    if w == [] then 0 else Product(Poly(seed, w[..|w| - 1]), seed) + w[|w| - 1]
  }

  /** The hash of a window. */
  function HashOf(seed: int, w: seq<byte>): u64 {
    Poly(seed, w) % W64
  }

  // ---- wrapping arithmetic ----

  function WMul(x: u64, y: u64): u64 {
    Product(x, y) % W64
  }

  function WAdd(x: u64, y: u64): u64 {
    (x + y) % W64
  }

  function WSub(x: u64, y: u64): u64 {
    (x - y) % W64
  }

  /** A register holds an integer modulo 2^64. */
  predicate Holds(x: u64, v: int) {
    x == v % W64
  }

  lemma HoldsMul(x: u64, v: int, y: u64, u: int)
    requires Holds(x, v) && Holds(y, u)
    ensures Holds(WMul(x, y), Product(v, u))
  {
    var p, q := v / W64, u / W64;
    assert v == p * W64 + x && u == q * W64 + y;
    assert (p * W64 + x) * (q * W64 + y) == x * y + (p * q * W64 + p * y + x * q) * W64;
    SameMod(Product(v, u), Product(x, y), W64, p * q * W64 + p * y + x * q);
  }

  lemma HoldsAdd(x: u64, v: int, y: u64, u: int)
    requires Holds(x, v) && Holds(y, u)
    ensures Holds(WAdd(x, y), v + u)
  {
    SameMod(v + u, x + y, W64, v / W64 + u / W64);
  }

  lemma HoldsSub(x: u64, v: int, y: u64, u: int)
    requires Holds(x, v) && Holds(y, u)
    ensures Holds(WSub(x, y), v - u)
  {
    SameMod(v - u, x - y, W64, v / W64 - u / W64);
  }

  lemma HoldsSelf(x: u64)
    ensures Holds(x, x)
  {
  }

  lemma HashHolds(x: u64, seed: int, w: seq<byte>)
    ensures Holds(x, Poly(seed, w)) <==> x == HashOf(seed, w)
  {
  }

  // ---- powers ----

  lemma {:induction false} PowSquare(b: int, n: nat)
    ensures Pow(Product(b, b), n) == Pow(b, 2 * n)
  {
    if n > 0 {
      PowSquare(b, n - 1);
      assert Pow(b, 2 * n) == Product(b, Product(b, Pow(b, 2 * n - 2)));
      assert b * (b * Pow(b, 2 * n - 2)) == b * b * Pow(b, 2 * n - 2);
    }
  }

  /** Exponentiation by squaring. */
  method Power(base0: u64, n0: nat) returns (result: u64)
    ensures Holds(result, Pow(base0, n0))
  {
    var base: u64, n: nat := base0, n0;
    result := 1;
    ghost var b: int, r: int := base0, 1;
    while n != 0
      invariant Holds(base, b) && Holds(result, r) && Product(r, Pow(b, n)) == Pow(base0, n0)
      decreases n
    {
      if n % 2 != 0 {
        HoldsMul(result, r, base, b);
        assert r * (b * Pow(b, n - 1)) == r * b * Pow(b, n - 1);
        result, r := WMul(result, base), Product(r, b);
        n := n - 1;
      }
      PowSquare(b, n / 2);
      HoldsMul(base, b, base, b);
      n := n / 2;
      base, b := WMul(base, base), Product(b, b);
    }
  }

  // ---- windows ----

  /** Taking a byte out in front. */
  lemma {:induction false} PolyFront(seed: int, x: byte, w: seq<byte>)
    ensures Poly(seed, [x] + w) == Product(x, Pow(seed, |w|)) + Poly(seed, w)
  {
    var s := [x] + w;
    if w == [] {
      assert s == [x] && s[..0] == [];
      assert Poly(seed, s) == Product(Poly(seed, s[..0]), seed) + x;
    } else {
      var u := w[..|w| - 1];
      assert s[..|s| - 1] == [x] + u;
      PolyFront(seed, x, u);
      assert (x * Pow(seed, |u|) + Poly(seed, u)) * seed == x * (seed * Pow(seed, |u|)) + Poly(seed, u) * seed;
    }
  }

  /** One roll: append a byte, drop the first. */
  lemma PolyRoll(seed: int, w: seq<byte>, add: byte)
    requires w != []
    ensures Poly(seed, w[1..] + [add]) == Product(Poly(seed, w), seed) + add - Product(Pow(seed, |w|), w[0])
  {
    var s := w + [add];
    assert s[..|s| - 1] == w;
    assert s == [w[0]] + (w[1..] + [add]);
    PolyFront(seed, w[0], w[1..] + [add]);
    assert Product(w[0], Pow(seed, |w|)) == Product(Pow(seed, |w|), w[0]);
  }

  // ---- several rolls at once ----

  /** One roll in closed form: multiply, append `a`, take out `b`. */
  function Rolled(p: int, q: int, v: int, a: int, b: int): int {
    Product(v, p) + a - Product(q, b)
  }

  lemma TwoRolls(p: int, q: int, v: int, a0: int, b0: int, a1: int, b1: int)
    ensures Rolled(p, q, Rolled(p, q, v, a0, b0), a1, b1)
      == Product(v, Product(p, p)) + Product(p, a0) + a1 - Product(Product(p, q), b0) - Product(q, b1)
  {
    assert (v * p + a0 - q * b0) * p == v * (p * p) + p * a0 - (p * q) * b0;
  }

  lemma ThreeRolls(p: int, q: int, v: int, a0: int, b0: int, a1: int, b1: int, a2: int, b2: int)
    ensures Rolled(p, q, Rolled(p, q, Rolled(p, q, v, a0, b0), a1, b1), a2, b2)
      == Product(v, Product(p, Product(p, p))) + Product(Product(p, p), a0) + Product(p, a1) + a2
         - Product(Product(p, Product(p, q)), b0) - Product(Product(p, q), b1) - Product(q, b2)
  {
    TwoRolls(p, q, v, a0, b0, a1, b1);
    var x, y, z, u := v * (p * p), p * a0, (p * q) * b0, q * b1;
    assert (x + y + a1 - z - u) * p == x * p + y * p + a1 * p - z * p - u * p;
    assert x * p == v * (p * (p * p)) && y * p == (p * p) * a0 && z * p == (p * (p * q)) * b0 && u * p == (p * q) * b1;
  }

  lemma FourRolls(p: int, q: int, v: int, a0: int, b0: int, a1: int, b1: int, a2: int, b2: int, a3: int, b3: int)
    ensures Rolled(p, q, Rolled(p, q, Rolled(p, q, Rolled(p, q, v, a0, b0), a1, b1), a2, b2), a3, b3)
      == Product(v, Product(p, Product(p, Product(p, p))))
         + Product(Product(p, Product(p, p)), a0) + Product(Product(p, p), a1) + Product(p, a2) + a3
         - Product(Product(p, Product(p, Product(p, q))), b0) - Product(Product(p, Product(p, q)), b1)
         - Product(Product(p, q), b2) - Product(q, b3)
  {
    ThreeRolls(p, q, v, a0, b0, a1, b1, a2, b2);
    var x, y, y1, z, z1, z2 := v * (p * (p * p)), (p * p) * a0, p * a1, (p * (p * q)) * b0, (p * q) * b1, q * b2;
    Spread(x, y, y1, a2, z, z1, z2, p);
    Shift(v, p * (p * p), p);
    Shift(a0, p * p, p);
    Shift(a1, p, p);
    Shift(b0, p * (p * q), p);
    Shift(b1, p * q, p);
    Shift(b2, q, p);
  }

  lemma Spread(x: int, y: int, y1: int, y2: int, z: int, z1: int, z2: int, p: int)
    ensures (x + y + y1 + y2 - z - z1 - z2) * p == x * p + y * p + y1 * p + y2 * p - z * p - z1 * p - z2 * p
  {
  }

  lemma Shift(a: int, c: int, p: int)
    ensures a * c * p == a * (p * c) && c * a * p == p * c * a
  {
  }

  lemma Powers(b: int, n: nat)
    ensures Pow(b, 2) == Product(b, b) && Pow(b, 3) == Product(b, Product(b, b)) && Pow(b, 4) == Product(b, Product(b, Product(b, b)))
    ensures Pow(b, n + 1) == Product(b, Pow(b, n)) && Pow(b, n + 2) == Product(b, Product(b, Pow(b, n)))
    ensures Pow(b, n + 3) == Product(b, Product(b, Product(b, Pow(b, n))))
  {
    assert Pow(b, 1) == b;
  }

  lemma NextWindow(ptr: seq<byte>, k: nat, l: nat)
    requires l > 0 && k + 1 + l <= |ptr|
    ensures ptr[k..k + l][1..] + [ptr[k + l]] == ptr[k + 1..k + 1 + l] && ptr[k..k + l][0] == ptr[k]
  {
    assert ptr[k..k + l][1..] == ptr[k + 1..k + l];
  }

  /** The window `l` long at `k`, and the next one. */
  lemma RollAt(seed: int, ptr: seq<byte>, k: nat, l: nat)
    requires l > 0 && k + 1 + l <= |ptr|
    ensures Poly(seed, ptr[k + 1..k + 1 + l])
      == Rolled(seed, Pow(seed, l), Poly(seed, ptr[k..k + l]), ptr[k + l], ptr[k])
  {
    hide Poly, Pow, Product;
    var w := ptr[k..k + l];
    NextWindow(ptr, k, l);
    PolyRoll(seed, w, ptr[k + l]);
  }

  lemma GrowAt(seed: int, buf: seq<byte>, i: nat)
    requires i < |buf|
    ensures Poly(seed, buf[..i + 1]) == Rolled(seed, 0, Poly(seed, buf[..i]), buf[i], 0)
  {
    assert buf[..i + 1][..i] == buf[..i];
  }

  class PolynomialRollingHash {
    const seed: u64
    const l: nat
    var value: u64
    const prime2: u64
    const prime3: u64
    const prime4: u64
    const primeL: u64
    const primeL1: u64
    const primeL2: u64
    const primeL3: u64

    predicate Valid() {
      && l > 0
      && Holds(prime2, Pow(seed, 2)) && Holds(prime3, Pow(seed, 3)) && Holds(prime4, Pow(seed, 4))
      && Holds(primeL, Pow(seed, l)) && Holds(primeL1, Pow(seed, l + 1))
      && Holds(primeL2, Pow(seed, l + 2)) && Holds(primeL3, Pow(seed, l + 3))
    }

    constructor (l: nat, seed: u64)
      requires l > 0
      ensures Valid() && this.l == l && this.seed == seed
    {
      hide Holds, Pow;
      var p2 := Times(seed, seed, 1);
      var p3 := Times(seed, p2, 2);
      var p4 := Times(seed, p3, 3);
      var pl := Power(seed, l);
      var pl1 := Times(seed, pl, l);
      var pl2 := Times(seed, pl1, l + 1);
      var pl3 := Times(seed, pl2, l + 2);
      this.l, this.seed, value := l, seed, 0;
      prime2, prime3, prime4 := p2, p3, p4;
      primeL, primeL1, primeL2, primeL3 := pl, pl1, pl2, pl3;
    }

    /** Roll by one byte. */
    method UpdateByte(sub: byte, add: byte, ghost w: seq<byte>)
      requires Valid() && |w| == l && w[0] == sub && value == HashOf(seed, w)
      modifies this`value
      ensures value == HashOf(seed, w[1..] + [add])
    {
      PolyRoll(seed, w, add);
      ghost var v := Poly(seed, w);
      HoldsSelf(seed);
      HoldsSelf(add);
      hide Poly, Pow, Product, WMul, WAdd, WSub, Holds;
      HoldsMul(value, v, seed, seed);
      HoldsAdd(WMul(value, seed), Product(v, seed), add, add);
      value := WAdd(WMul(value, seed), add);
      value := MinusTerm(value, Product(v, seed) + add, primeL, Pow(seed, l), sub);
      HashHolds(value, seed, w[1..] + [add]);
    }

    /** Roll by four bytes at once. */
    method UpdateFour(ptr: seq<byte>, off: nat)
      requires Valid() && off + l + 4 <= |ptr| && value == HashOf(seed, ptr[off..off + l])
      modifies this`value
      ensures value == HashOf(seed, ptr[off + 4..off + 4 + l])
    {
      ghost var v, q := Poly(seed, ptr[off..off + l]), Pow(seed, l);
      RollAt(seed, ptr, off, l);
      RollAt(seed, ptr, off + 1, l);
      RollAt(seed, ptr, off + 2, l);
      RollAt(seed, ptr, off + 3, l);
      FourRolls(seed, q, v, ptr[off + l], ptr[off], ptr[off + 1 + l], ptr[off + 1], ptr[off + 2 + l], ptr[off + 2], ptr[off + 3 + l], ptr[off + 3]);
      Powers(seed, l);
      hide Poly, Pow, Product, WMul, WAdd, WSub, Holds, Rolled;
      value := AddFourBytes(value, v, ptr[off + l], ptr[off + 1 + l], ptr[off + 2 + l], ptr[off + 3 + l]);
      ghost var s := Product(v, Pow(seed, 4)) + Product(Pow(seed, 3), ptr[off + l]) + Product(Pow(seed, 2), ptr[off + 1 + l])
        + Product(seed, ptr[off + 2 + l]) + ptr[off + 3 + l];
      value := MinusTerm(value, s, primeL3, Pow(seed, l + 3), ptr[off]);
      s := s - Product(Pow(seed, l + 3), ptr[off]);
      value := MinusTerm(value, s, primeL2, Pow(seed, l + 2), ptr[off + 1]);
      s := s - Product(Pow(seed, l + 2), ptr[off + 1]);
      value := MinusTerm(value, s, primeL1, Pow(seed, l + 1), ptr[off + 2]);
      s := s - Product(Pow(seed, l + 1), ptr[off + 2]);
      value := MinusTerm(value, s, primeL, q, ptr[off + 3]);
    }

    /** Multiply by the fourth power and add four bytes with their powers. */
    method AddFourBytes(x: u64, ghost v: int, a0: byte, a1: byte, a2: byte, a3: byte) returns (r: u64)
      requires Valid() && Holds(x, v)
      ensures Holds(r, Product(v, Pow(seed, 4)) + Product(Pow(seed, 3), a0) + Product(Pow(seed, 2), a1) + Product(seed, a2) + a3)
    {
      HoldsSelf(seed);
      HoldsSelf(a3);
      hide Pow, Product, WMul, WAdd, WSub, Holds;
      HoldsMul(x, v, prime4, Pow(seed, 4));
      r := WMul(x, prime4);
      ghost var s := Product(v, Pow(seed, 4));
      r := PlusTerm(r, s, prime3, Pow(seed, 3), a0);
      s := s + Product(Pow(seed, 3), a0);
      r := PlusTerm(r, s, prime2, Pow(seed, 2), a1);
      s := s + Product(Pow(seed, 2), a1);
      r := PlusTerm(r, s, seed, seed, a2);
      s := s + Product(seed, a2);
      HoldsAdd(r, s, a3, a3);
      r := WAdd(r, a3);
    }

    /** Roll by `n` bytes: first what exceeds a multiple of four, then four at a time. */
    method UpdateN(n: nat, ptr: seq<byte>)
      requires Valid() && l + n <= |ptr| && value == HashOf(seed, ptr[..l])
      modifies this`value
      ensures value == HashOf(seed, ptr[n..n + l])
    {
      hide Poly, Pow, HashOf;
      var m := n % 4;
      assert ptr[0..0 + l] == ptr[..l];
      if m == 1 {
        UpdateByte(ptr[0], ptr[l], ptr[..l]);
        assert ptr[..l][1..] + [ptr[l]] == ptr[1..1 + l];
      } else if m == 2 {
        UpdateTwo(ptr);
      } else if m == 3 {
        UpdateThree(ptr);
      }
      var off := m;
      while off < n
        invariant m <= off <= n && (n - off) % 4 == 0
        invariant value == HashOf(seed, ptr[off..off + l])
      {
        UpdateFour(ptr, off);
        off := off + 4;
      }
    }

    method UpdateTwo(ptr: seq<byte>)
      requires Valid() && l + 2 <= |ptr| && value == HashOf(seed, ptr[0..0 + l])
      modifies this`value
      ensures value == HashOf(seed, ptr[2..2 + l])
    {
      ghost var v, q := Poly(seed, ptr[0..0 + l]), Pow(seed, l);
      RollAt(seed, ptr, 0, l);
      RollAt(seed, ptr, 1, l);
      TwoRolls(seed, q, v, ptr[l], ptr[0], ptr[1 + l], ptr[1]);
      Powers(seed, l);
      HoldsSelf(seed);
      HoldsSelf(ptr[l + 1]);
      hide Poly, Pow, Product, WMul, WAdd, WSub, Holds, Rolled;
      HoldsMul(value, v, prime2, Pow(seed, 2));
      ghost var s := Product(v, Pow(seed, 2));
      value := PlusTerm(WMul(value, prime2), s, seed, seed, ptr[l]);
      s := s + Product(seed, ptr[l]);
      HoldsAdd(value, s, ptr[l + 1], ptr[l + 1]);
      value := WAdd(value, ptr[l + 1]);
      s := s + ptr[l + 1];
      value := MinusTerm(value, s, primeL1, Pow(seed, l + 1), ptr[0]);
      s := s - Product(Pow(seed, l + 1), ptr[0]);
      value := MinusTerm(value, s, primeL, q, ptr[1]);
    }

    method UpdateThree(ptr: seq<byte>)
      requires Valid() && l + 3 <= |ptr| && value == HashOf(seed, ptr[0..0 + l])
      modifies this`value
      ensures value == HashOf(seed, ptr[3..3 + l])
    {
      ghost var v, q := Poly(seed, ptr[0..0 + l]), Pow(seed, l);
      RollAt(seed, ptr, 0, l);
      RollAt(seed, ptr, 1, l);
      RollAt(seed, ptr, 2, l);
      ThreeRolls(seed, q, v, ptr[l], ptr[0], ptr[1 + l], ptr[1], ptr[2 + l], ptr[2]);
      Powers(seed, l);
      HoldsSelf(seed);
      HoldsSelf(ptr[l + 2]);
      hide Poly, Pow, Product, WMul, WAdd, WSub, Holds, Rolled;
      HoldsMul(value, v, prime3, Pow(seed, 3));
      ghost var s := Product(v, Pow(seed, 3));
      value := PlusTerm(WMul(value, prime3), s, prime2, Pow(seed, 2), ptr[l]);
      s := s + Product(Pow(seed, 2), ptr[l]);
      value := PlusTerm(value, s, seed, seed, ptr[l + 1]);
      s := s + Product(seed, ptr[l + 1]);
      HoldsAdd(value, s, ptr[l + 2], ptr[l + 2]);
      value := WAdd(value, ptr[l + 2]);
      s := s + ptr[l + 2];
      value := MinusTerm(value, s, primeL2, Pow(seed, l + 2), ptr[0]);
      s := s - Product(Pow(seed, l + 2), ptr[0]);
      value := MinusTerm(value, s, primeL1, Pow(seed, l + 1), ptr[1]);
      s := s - Product(Pow(seed, l + 1), ptr[1]);
      value := MinusTerm(value, s, primeL, q, ptr[2]);
    }

    /** Hash the window in front of `buf` from scratch, sixteen bytes at a time and then one by one. */
    method MoveTo(buf: seq<byte>)
      requires Valid() && l <= |buf|
      modifies this`value
      ensures value == HashOf(seed, buf[..l])
    {
      hide Pow, Product, WMul, WAdd;
      value := 0;
      var i := 0;
      assert buf[..0] == [];
      while i < l / 16 * 16
        invariant 0 <= i <= l / 16 * 16 && i % 16 == 0 && value == HashOf(seed, buf[..i])
      {
        value := GrowFour(buf, i, value);
        value := GrowFour(buf, i + 4, value);
        value := GrowFour(buf, i + 8, value);
        value := GrowFour(buf, i + 12, value);
        i := i + 16;
      }
      while i < l
        invariant 0 <= i <= l && value == HashOf(seed, buf[..i])
      {
        ghost var v := Poly(seed, buf[..i]);
        assert buf[..i + 1][..i] == buf[..i];
        HoldsSelf(seed);
        HoldsMul(value, v, seed, seed);
        HoldsAdd(WMul(value, seed), Product(v, seed), buf[i], buf[i]);
        value := WAdd(WMul(value, seed), buf[i]);
        i := i + 1;
      }
    }

    method GrowFour(buf: seq<byte>, b: nat, x: u64) returns (r: u64)
      requires Valid() && b + 4 <= |buf| && x == HashOf(seed, buf[..b])
      ensures r == HashOf(seed, buf[..b + 4])
    {
      ghost var v := Poly(seed, buf[..b]);
      GrowAt(seed, buf, b);
      GrowAt(seed, buf, b + 1);
      GrowAt(seed, buf, b + 2);
      GrowAt(seed, buf, b + 3);
      FourRolls(seed, 0, v, buf[b], 0, buf[b + 1], 0, buf[b + 2], 0, buf[b + 3], 0);
      Powers(seed, l);
      r := AddFourBytes(x, v, buf[b], buf[b + 1], buf[b + 2], buf[b + 3]);
    }
  }

  /** Multiply and add one more term. */
  method PlusTerm(x: u64, ghost v: int, c: u64, ghost u: int, a: byte) returns (r: u64)
    requires Holds(x, v) && Holds(c, u)
    ensures Holds(r, v + Product(u, a))
  {
    HoldsMul(c, u, a, a);
    HoldsAdd(x, v, WMul(c, a), Product(u, a));
    r := WAdd(x, WMul(c, a));
  }

  method MinusTerm(x: u64, ghost v: int, c: u64, ghost u: int, a: byte) returns (r: u64)
    requires Holds(x, v) && Holds(c, u)
    ensures Holds(r, v - Product(u, a))
  {
    HoldsMul(c, u, a, a);
    HoldsSub(x, v, WMul(c, a), Product(u, a));
    r := WSub(x, WMul(c, a));
  }

  /** The next power. */
  method Times(seed: u64, x: u64, n: nat) returns (r: u64)
    requires Holds(x, Pow(seed, n)) || (n == 1 && x == seed)
    ensures Holds(r, Pow(seed, n + 1))
  {
    HoldsSelf(seed);
    if n == 1 && x == seed { assert Pow(seed, 1) == seed; }
    HoldsMul(seed, seed, x, Pow(seed, n));
    r := WMul(seed, x);
  }
}
