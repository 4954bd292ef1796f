/** 128-bit arithmetic in 64-bit registers. */
module WideArithmetic {
  import opened Bytes

  const W63 := 0x8000_0000_0000_0000
  const W128 := 0x1_0000_0000_0000_0000_0000_0000_0000_0000

  /** The number held in a high and a low register. */
  function Value(h: int, l: int): int {
    h * W64 + l
  }

  function Product(x: int, y: int): int {
    x * y
  }

  /** Register addition with carry, wrapping at 2^128. */
  method Add128(rh: u64, rl: u64, ih: u64, il: u64) returns (h: u64, l: u64)
    ensures Value(h, l) == (Value(rh, rl) + Value(ih, il)) % W128
    ensures Value(rh, rl) + Value(ih, il) < W128 ==> Value(h, l) == Value(rh, rl) + Value(ih, il)
  {
    l := (rl + il) % W64;
    var carry := if l < il then 1 else 0;
    assert rl + il == carry * W64 + l;
    h := (rh + ih + carry) % W64;
    ghost var c := if rh + ih + carry >= W64 then 1 else 0;
    assert Value(rh, rl) + Value(ih, il) == c * W128 + Value(h, l);
    ModIs(Value(rh, rl) + Value(ih, il), W128, c, Value(h, l));
  }

  /** The 128-bit product of two registers. */
  function Mul128(x: u64, y: u64): (r: (u64, u64))
    ensures Value(r.0, r.1) == Product(x, y)
  {
    ProductBelow(x, y, W64, W64);
    Split(Product(x, y), W64, W64);
    (Product(x, y) / W64, Product(x, y) % W64)
  }

  lemma ProductBelow(x: nat, y: nat, a: nat, b: nat)
    requires x < a && y < b
    ensures 0 <= Product(x, y) < a * b
    ensures Product(x, y) <= (a - 1) * (b - 1)
  {
    assert x * y <= (a - 1) * y <= (a - 1) * (b - 1) by {
      Monotone(x, a - 1, y);
      Monotone(y, b - 1, a - 1);
    }
    Monotone(0, b, a);
    assert (a - 1) * (b - 1) == a * b - a - b + 1;
  }

  lemma Monotone(x: int, x': int, y: nat)
    requires x <= x'
    ensures x * y <= x' * y
  {
  }

  lemma NextProduct(q: int, m: nat)
    ensures Product(q + 1, m) == Product(q, m) + m && Product(0, m) == 0
    ensures q >= 0 ==> Product(q, m) >= 0
  {
    if q >= 0 { Monotone(0, q, m); }
  }

  lemma DivMod(x: nat, m: nat)
    requires m > 0
    ensures x == Product(x / m, m) + x % m && 0 <= x % m < m && x / m >= 0
  {
    QuotientNat(x, m);
  }

  lemma QuotientNat(k: nat, m: nat)
    requires m > 0
    ensures k / m >= 0
  {
    assert k == k / m * m + k % m;
    if k / m < 0 { Monotone(k / m, -1, m); }
  }

  lemma QuotientAtLeast(q: nat, w: nat, n: nat)
    requires w > 0 && Product(q, w) <= n
    ensures q <= n / w
  {
    assert n == n / w * w + n % w;
    NextProduct(n / w, w);
    if q > n / w { Monotone(n / w + 1, q, w); }
  }

  /** Division with remainder is unique. */
  lemma ModIs(x: int, m: nat, q: int, r: nat)
    requires m > 0 && x == q * m + r && r < m
    ensures x / m == q && x % m == r
  {
    var q', r' := x / m, x % m;
    assert x == q' * m + r' && 0 <= r' < m;
    assert (q - q') * m == r' - r;
    if q - q' >= 1 { Monotone(1, q - q', m); }
    if q' - q >= 1 { assert (q' - q) * m == r - r'; Monotone(1, q' - q, m); }
  }

  lemma Split(x: nat, a: nat, m: nat)
    requires a > 0 && m > 0 && x < a * m
    ensures 0 <= x / m < a && 0 <= x % m < m && x == x / m * m + x % m
  {
    if x / m >= a { Monotone(a, x / m, m); }
  }

  /** Numbers that differ by a multiple of `m` have the same remainder. */
  lemma SameMod(x: int, y: int, m: nat, q: int)
    requires m > 0 && x == y + q * m
    ensures x % m == y % m
  {
    ModIs(x, m, y / m + q, y % m);
  }

  lemma ModGap(x: int, y: int, m: nat) returns (q: int)
    requires m > 0 && x % m == y % m
    ensures x == y + q * m
  {
    q := x / m - y / m;
    assert x == x / m * m + x % m && y == y / m * m + y % m;
  }
}
