/** The chunk hash table in digest mode: which earlier chunk, if any, equals a window of the input. */
module ChunkTable {
  import opened Bytes
  import opened WideArithmetic

  const NOT_FOUND := 0
  const MAX_HASH_CHAIN := 12

  type DigestFn = seq<byte> -> seq<byte>

  /** Chunk `c` of the input. */
  function Chunk(d: seq<byte>, l: nat, c: nat): (s: seq<byte>)
    requires Product(c, l) + l <= |d|
    ensures |s| == l
  {
    d[Product(c, l)..Product(c, l) + l]
  }

  lemma {:induction false} ChunkBefore(b: nat, c: nat, l: nat)
    requires b < c
    ensures Product(b, l) + l <= Product(c, l)
  {
    Monotone(b + 1, c, l);
    assert (b + 1) * l == b * l + l;
  }

  /** The digests of the first `prepared` chunks are in place. */
  ghost predicate Prepared(digests: seq<seq<byte>>, d: seq<byte>, l: nat, digest: DigestFn, prepared: nat) {
    prepared <= |digests| && forall c :: 0 <= c < prepared ==> DigestOk(digests, d, l, digest, c)
  }

  ghost predicate DigestOk(digests: seq<seq<byte>>, d: seq<byte>, l: nat, digest: DigestFn, c: nat)
    requires c < |digests|
  {
    Product(c, l) + l <= |d| && digests[c] == digest(Chunk(d, l, c))
  }

  /** Every occupied slot decodes to a chunk already added, and never to chunk 0. */
  ghost predicate SlotsOk(slots: seq<u32>, range: nat, added: nat)
    requires range > 0
  {
    forall s :: 0 <= s < |slots| ==> slots[s] != NOT_FOUND ==> 0 < slots[s] % range < added
  }

  lemma SlotAt(slots: seq<u32>, range: nat, added: nat, s: nat)
    requires range > 0 && SlotsOk(slots, range, added) && s < |slots| && slots[s] != NOT_FOUND
    ensures 0 < slots[s] % range < added
  {
  }

  lemma SlotWritten(slots: seq<u32>, range: nat, added: nat, s: nat, v: u32, added': nat)
    requires range > 0 && SlotsOk(slots, range, added) && s < |slots| && added <= added'
    requires v == NOT_FOUND || 0 < v % range < added'
    ensures SlotsOk(slots[s := v], range, added')
  {
  }

  lemma SlotsLater(slots: seq<u32>, range: nat, added: nat, added': nat)
    requires range > 0 && SlotsOk(slots, range, added) && added <= added'
    ensures SlotsOk(slots, range, added')
  {
  }

  /** The high bits of a slot keep part of the hash, the low ones the chunk. */
  function SlotValue(hash: u64, chunk: nat, range: nat): (v: u32)
    requires range > 0
  {
    (hash % W32 - hash % W32 % range + chunk) % W32
  }

  /** Clearing the low bits rounds down to a multiple of `range`, with room for any chunk number. */
  lemma HighBits(h: u32, range: nat)
    requires 0 < range && W32 % range == 0
    ensures h - h % range == Product(h / range, range) && 0 <= Product(h / range, range) <= W32 - range
  {
    var q, k := h / range, W32 / range;
    assert h == q * range + h % range;
    assert W32 == k * range + W32 % range;
    if q >= k { Monotone(k, q, range); }
    if q < 0 { Monotone(q, -1, range); }
    Monotone(0, q, range);
    Monotone(q + 1, k, range);
    assert (q + 1) * range == q * range + range;
  }

  lemma SlotIs(hash: u64, chunk: nat, range: nat)
    requires 0 < range && W32 % range == 0 && chunk < range
    ensures SlotValue(hash, chunk, range) == Product(hash % W32 / range, range) + chunk
  {
    HighBits(hash % W32, range);
    hide Product;
  }

  /** A slot gives back its chunk and its hash bits. */
  lemma SlotDecodes(hash: u64, chunk: nat, range: nat)
    requires 0 < range && W32 % range == 0 && chunk < range
    ensures SlotValue(hash, chunk, range) % range == chunk
    ensures SlotValue(hash, chunk, range) - SlotValue(hash, chunk, range) % range == SlotValue(hash, 0, range)
  {
    SlotIs(hash, chunk, range);
    SlotIs(hash, 0, range);
    hide SlotValue;
    ModIs(SlotValue(hash, chunk, range), range, hash % W32 / range, chunk);
  }

  function StoredHash(hash: u64): (s: u32) {
    hash / W32
  }

  function NextHashSlot(h: u64): (r: u64) {
    (h * 123_456_791 % W64 + h / 0x1_0000 + 462_782_923) % W64
  }

  /** The next slot of a chain: linear within groups of four, then a jump. */
  function Following(h: u64, limit: int): (r: u64) {
    var next := (h + 1) % W64;
    if limit % 4 == 0 then NextHashSlot(next) else next
  }

  /** The slots probed for a hash, one after the other. */
  function ChainAt(hash2: u64, j: nat): u64 {
    if j == 0 then hash2 else Following(ChainAt(hash2, j - 1), MAX_HASH_CHAIN - j)
  }

  function Index(h: u64, size: nat): (i: nat)
    requires size > 0
    ensures i < size
  {
    Below(h, size);
    h % size
  }

  /** The contents of the table. */
  datatype Table = Table(slots: seq<u32>, hashes: seq<u32>, digests: seq<seq<byte>>, range: nat) {
    predicate Ok() {
      |slots| > 0 && range > 0 && |hashes| == |digests|
    }

    function At(h: u64): u32
      requires Ok()
    {
      slots[Index(h, |slots|)]
    }

    /** The chunk in the slot of `h` has the hash `hash2` and the digest `dg`. */
    predicate Hit(h: u64, hash2: u64, dg: seq<byte>)
      requires Ok()
    {
      var v := At(h);
      && v != NOT_FOUND && v - v % range == SlotValue(hash2, 0, range)
      && v % range < |hashes| && hashes[v % range] == StoredHash(hash2) && digests[v % range] == dg
    }

    /** Probing passes the first `e` slots of the chain: each is occupied, by another chunk. */
    ghost predicate Passes(hash2: u64, dg: seq<byte>, e: nat)
      requires Ok()
    {
      forall j: nat :: j < e ==> At(ChainAt(hash2, j)) != NOT_FOUND && !Hit(ChainAt(hash2, j), hash2, dg)
    }

    /** Probing ends at slot `e` of the chain: the last one allowed, a free one, or a hit. */
    ghost predicate EndsAt(hash2: u64, dg: seq<byte>, e: nat)
      requires Ok()
    {
      && e < MAX_HASH_CHAIN && Passes(hash2, dg, e)
      && (e == MAX_HASH_CHAIN - 1 || At(ChainAt(hash2, e)) == NOT_FOUND || Hit(ChainAt(hash2, e), hash2, dg))
    }

    /** The chunk found where probing ends, if it is not the last slot. */
    function Found(hash2: u64, dg: seq<byte>, e: nat): nat
      requires Ok()
    {
      if e < MAX_HASH_CHAIN - 1 && Hit(ChainAt(hash2, e), hash2, dg) then At(ChainAt(hash2, e)) % range else NOT_FOUND
    }
  }

  /** Entering a chunk where probing for it ended. */
  function Entered(t: Table, hash2: u64, c: nat, e: nat): (u: Table)
    requires t.Ok()
    ensures u.Ok()
  {
    t.(slots := t.slots[Index(ChainAt(hash2, e), |t.slots|) := SlotValue(hash2, c, t.range)])
  }

  /** Slot `e` of the chain is also probed, and compared, at an earlier place. */
  ghost predicate Compared(t: Table, hash2: u64, e: nat)
    requires t.Ok()
  {
    exists j: nat :: j < MAX_HASH_CHAIN - 1 && SameSlot(t, hash2, j, e)
  }

  ghost predicate SameSlot(t: Table, hash2: u64, j: nat, e: nat)
    requires t.Ok()
  {
    Index(ChainAt(hash2, j), |t.slots|) == Index(ChainAt(hash2, e), |t.slots|)
  }

  /** A chunk once entered is found again under its hash and digest exactly when its slot is one
      that probing compares; the last slot of a chain is filled but not compared. */
  lemma FoundAgain(t: Table, hash2: u64, c: nat, e: nat) returns (f: nat)
    requires t.Ok() && W32 % t.range == 0 && 0 < c < |t.hashes| < t.range && t.hashes[c] == StoredHash(hash2)
    requires t.EndsAt(hash2, t.digests[c], e)
    ensures Entered(t, hash2, c, e).EndsAt(hash2, t.digests[c], f)
    ensures Entered(t, hash2, c, e).Found(hash2, t.digests[c], f) == c <==> Compared(t, hash2, e)
    ensures Entered(t, hash2, c, e).Found(hash2, t.digests[c], f) in {c, NOT_FOUND}
    ensures e < MAX_HASH_CHAIN - 1 ==> Entered(t, hash2, c, e).Found(hash2, t.digests[c], f) == c
  {
    var u, dg := Entered(t, hash2, c, e), t.digests[c];
    SlotDecodes(hash2, c, t.range);
    hide SlotValue, Following, ChainAt, StoredHash;
    f := 0;
    assert u.Passes(hash2, dg, 0);
    while f < MAX_HASH_CHAIN - 1 && !SameSlot(t, hash2, f, e)
      invariant f <= MAX_HASH_CHAIN - 1 && f <= e && u.Passes(hash2, dg, f)
      invariant forall j: nat :: j < f ==> !SameSlot(t, hash2, j, e)
    {
      assert f != e;
      assert u.At(ChainAt(hash2, f)) == t.At(ChainAt(hash2, f));
      f := f + 1;
    }
    if f < MAX_HASH_CHAIN - 1 {
      assert u.At(ChainAt(hash2, f)) == SlotValue(hash2, c, t.range);
    }
  }

  /** Entering a chunk where probing ended never loses another one, but for the chunk that
      may sit in the last slot of the chain, which is overwritten whatever it holds. */
  lemma OthersKept(t: Table, hash2: u64, c: nat, e: nat, other: u64, dg: seq<byte>, o: nat)
    requires t.Ok() && W32 % t.range == 0 && 0 < c < |t.hashes| < t.range
    requires t.EndsAt(hash2, t.digests[c], e)
    requires t.EndsAt(other, dg, o) && t.Found(other, dg, o) != NOT_FOUND && dg != t.digests[c]
    ensures var written, read := Index(ChainAt(hash2, e), |t.slots|), Index(ChainAt(other, o), |t.slots|);
            && (written == read ==> e == MAX_HASH_CHAIN - 1)
            && (written != read ==> var u := Entered(t, hash2, c, e);
                  u.EndsAt(other, dg, o) && u.Found(other, dg, o) == t.Found(other, dg, o))
  {
    SlotDecodes(hash2, c, t.range);
    hide SlotValue, Following, ChainAt, StoredHash, Index;
    var u, written := Entered(t, hash2, c, e), Index(ChainAt(hash2, e), |t.slots|);
    assert t.Hit(ChainAt(other, o), other, dg);
    if written != Index(ChainAt(other, o), |t.slots|) {
      forall j: nat | j < o ensures u.At(ChainAt(other, j)) != NOT_FOUND && !u.Hit(ChainAt(other, j), other, dg) {
        assert t.At(ChainAt(other, j)) != NOT_FOUND && !t.Hit(ChainAt(other, j), other, dg);
      }
    }
  }

  /** Within each group of four, probing goes to the neighbouring slot of a table whose size is a power of two. */
  lemma Neighbours(h: u64, j: nat, size: nat)
    requires 0 < j < MAX_HASH_CHAIN && j % 4 != 0 && size > 0 && W64 % size == 0
    ensures Index(ChainAt(h, j), size) == (Index(ChainAt(h, j - 1), size) + 1) % size
  {
    var before := ChainAt(h, j - 1);
    assert ChainAt(h, j) == (before + 1) % W64;
    hide ChainAt, Following;
    WrapIndex(before, size);
  }

  lemma WrapIndex(h: u64, size: nat)
    requires size > 0 && W64 % size == 0
    ensures (h + 1) % W64 % size == (h % size + 1) % size
  {
    var k := W64 / size;
    assert W64 == k * size + W64 % size;
    if h + 1 == W64 { SameMod(h + 1, 0, size, k); }
    assert h == h / size * size + h % size;
    SameMod(h + 1, h % size + 1, size, h / size);
  }

  /** So two chunks with one hash take neighbouring slots when these are free, and both are found again. */
  lemma BothFound(t: Table, hash2: u64, a: nat, b: nat)
    requires t.Ok() && W32 % t.range == 0 && |t.hashes| < t.range && 2 <= |t.slots| && W64 % |t.slots| == 0
    requires 0 < a < |t.hashes| && 0 < b < |t.hashes| && t.digests[a] != t.digests[b]
    requires t.hashes[a] == t.hashes[b] == StoredHash(hash2)
    requires t.slots[hash2 % |t.slots|] == NOT_FOUND && t.slots[(hash2 % |t.slots| + 1) % |t.slots|] == NOT_FOUND
    ensures t.EndsAt(hash2, t.digests[a], 0)
    ensures var u := Entered(t, hash2, a, 0);
            && u.EndsAt(hash2, t.digests[b], 1)
            && var v := Entered(u, hash2, b, 1);
               && v.EndsAt(hash2, t.digests[a], 0) && v.Found(hash2, t.digests[a], 0) == a
               && v.EndsAt(hash2, t.digests[b], 1) && v.Found(hash2, t.digests[b], 1) == b
  {
    SlotDecodes(hash2, a, t.range);
    SlotDecodes(hash2, b, t.range);
    Neighbours(hash2, 1, |t.slots|);
    NotSelf(hash2 % |t.slots|, |t.slots|);
    assert ChainAt(hash2, 0) == hash2;
    hide SlotValue, Following, ChainAt, StoredHash;
  }

  lemma NotSelf(i: nat, size: nat)
    requires i < size && size >= 2
    ensures (i + 1) % size != i
  {
    if i + 1 == size { ModIs(i + 1, size, 1, 0); } else { ModIs(i + 1, size, 0, i + 1); }
  }

  class HashTable {
    const l: nat
    const digest: DigestFn
    /** One more than the mask of chunk numbers. */
    const range: nat
    const chunkarr: array<u32>
    const hasharr: array<u32>
    const digestarr: array<seq<byte>>

    ghost predicate Valid(d: seq<byte>, prepared: nat, added: nat)
      reads this, chunkarr, hasharr, digestarr
    {
      && l > 0 && 0 < range && W32 % range == 0 && hasharr.Length < range && chunkarr.Length > 0
      && hasharr.Length == digestarr.Length && chunkarr != hasharr
      && added <= prepared && Prepared(digestarr[..], d, l, digest, prepared)
      && SlotsOk(chunkarr[..], range, added)
    }

    constructor (l: nat, totalChunks: nat, range: nat, slots: nat, digest: DigestFn)
      requires l > 0 && totalChunks < range && W32 % range == 0 && slots > 0
      ensures forall d :: Valid(d, 0, 0)
      ensures this.l == l && this.digest == digest && hasharr.Length == totalChunks
      ensures fresh(chunkarr) && fresh(hasharr) && fresh(digestarr)
    {
      this.l, this.digest, this.range := l, digest, range;
      chunkarr := new u32[slots](_ => 0);
      hasharr := new u32[totalChunks](_ => 0);
      digestarr := new seq<byte>[totalChunks](_ => []);
    }

    /** Store the digests of the chunks of the next block. */
    method PrepareBuffer(offset: nat, buf: seq<byte>, ghost d: seq<byte>, ghost prepared: nat, ghost added: nat) returns (ghost prepared': nat)
      requires Valid(d, prepared, added) && offset == Product(prepared, l) && offset + |buf| <= |d| && buf == d[offset..offset + |buf|]
      requires prepared + |buf| / l <= digestarr.Length
      modifies digestarr
      ensures prepared' == prepared + |buf| / l && Valid(d, prepared', added)
      ensures forall c :: 0 <= c < digestarr.Length && !(prepared <= c < prepared') ==> digestarr[c] == old(digestarr[c])
    {
      hide SlotsOk, Product;
      var curchunk, p := offset / l, 0;
      ghost var n: nat := 0;
      ExactChunk(prepared, l);
      NextProduct(0, l);
      while |buf| - p >= l
        invariant 0 <= p <= |buf| && p == Product(n, l) && curchunk == prepared + n && n <= |buf| / l
        invariant Valid(d, prepared + n, added)
        invariant forall c :: 0 <= c < digestarr.Length && !(prepared <= c < prepared + n) ==> digestarr[c] == old(digestarr[c])
        decreases |buf| - p
      {
        ChunkCount(n, l, |buf|);
        ChunkOffset(prepared, n, l);
        NextProduct(n, l);
        SubSlice(d, offset, buf, p, l);
        PreparedNext(digestarr[..], d, l, digest, curchunk, buf[p..p + l]);
        digestarr[curchunk] := digest(buf[p..p + l]);
        curchunk, p := curchunk + 1, p + l;
        n := n + 1;
      }
      ChunkEnd(n, l, |buf|);
      prepared' := prepared + n;
    }

    ghost function Contents(): Table
      reads chunkarr, hasharr, digestarr
    {
      Table(chunkarr[..], hasharr[..], digestarr[..], range)
    }

    /** Look for an earlier chunk with the digest of the window at `i`: the first hit of the chain. */
    method FindMatch(buf: seq<byte>, i: nat, hash2: u64, ghost d: seq<byte>, ghost prepared: nat, ghost added: nat)
        returns (k: nat, ghost e: nat)
      requires Valid(d, prepared, added) && i + l <= |buf|
      ensures k != NOT_FOUND ==> k < added && k < digestarr.Length && digestarr[k] == digest(buf[i..i + l])
      ensures Contents().EndsAt(hash2, digest(buf[i..i + l]), e) && k == Contents().Found(hash2, digest(buf[i..i + l]), e)
    {
      var h;
      h, k, e := Probe(hash2, digest(buf[i..i + l]), d, prepared, added);
    }

    /** Enter the chunk at `blockStart + i`, where probing for it ends; chunk 0 is never entered. */
    method AddHash(blockStart: nat, i: nat, hash2: u64, ghost d: seq<byte>, ghost prepared: nat, ghost added: nat, ghost added': nat)
        returns (found: nat, ghost e: nat)
      requires Valid(d, prepared, added) && 0 <= (blockStart + i) / l < prepared
      requires added <= added' <= prepared && (blockStart + i) / l < added'
      modifies hasharr, chunkarr
      ensures Valid(d, prepared, added')
      ensures var c := (blockStart + i) / l;
              && c < digestarr.Length && hasharr[..] == old(hasharr[..])[c := StoredHash(hash2)]
              && if c == NOT_FOUND then found == NOT_FOUND && chunkarr[..] == old(chunkarr[..])
                 else
                   var t := Table(old(chunkarr[..]), hasharr[..], digestarr[..], range);
                   && t.EndsAt(hash2, digestarr[c], e) && found == t.Found(hash2, digestarr[c], e)
                   && chunkarr[..] == old(chunkarr[..])[Index(ChainAt(hash2, e), chunkarr.Length) := SlotValue(hash2, c, range)]
    {
      hide SlotsOk, Prepared, SlotValue, Table.EndsAt, Table.Found, ChainAt;
      PreparedSize(digestarr[..], d, l, digest, prepared);
      e := 0;
      var storedValue := StoredHash(hash2);
      var curchunk := (blockStart + i) / l;
      hasharr[curchunk] := storedValue;
      SlotsLater(chunkarr[..], range, added, added');
      if curchunk == NOT_FOUND {
        return NOT_FOUND, 0;
      }
      var h;
      h, found, e := Probe(hash2, digestarr[curchunk], d, prepared, added');
      SlotDecodes(hash2, curchunk, range);
      var slot := Index(h, chunkarr.Length);
      SlotWritten(chunkarr[..], range, added', slot, SlotValue(hash2, curchunk, range), added');
      chunkarr[slot] := SlotValue(hash2, curchunk, range);
    }

    /** Probe the chain of `hash2` for a chunk with digest `dg`. */
    method Probe(hash2: u64, dg: seq<byte>, ghost d: seq<byte>, ghost prepared: nat, ghost added: nat)
        returns (h: u64, found: nat, ghost e: nat)
      requires Valid(d, prepared, added)
      ensures h == ChainAt(hash2, e) && Contents().EndsAt(hash2, dg, e) && found == Contents().Found(hash2, dg, e)
      ensures found != NOT_FOUND ==> found < added && found < digestarr.Length && digestarr[found] == dg
    {
      hide SlotsOk, Prepared, SlotValue, Following;
      PreparedSize(digestarr[..], d, l, digest, prepared);
      var storedValue, savedHash := StoredHash(hash2), SlotValue(hash2, 0, range);
      h, e := hash2, 0;
      var limit := MAX_HASH_CHAIN;
      found := NOT_FOUND;
      while true
        invariant limit == MAX_HASH_CHAIN - e > 0 && h == ChainAt(hash2, e) && Contents().Passes(hash2, dg, e)
        decreases limit
      {
        var value := chunkarr[Index(h, chunkarr.Length)];
        assert value == Contents().At(h);
        if value == NOT_FOUND {
          break;
        }
        limit := limit - 1;
        if limit == 0 {
          break;
        }
        SlotAt(chunkarr[..], range, added, Index(h, chunkarr.Length));
        if value - value % range == savedHash {
          var chunk := value % range;
          if hasharr[chunk] == storedValue && digestarr[chunk] == dg {
            found := chunk;
            break;
          }
        }
        h := Following(h, limit);
        e := e + 1;
      }
    }
  }

  lemma Below(x: nat, m: nat)
    requires m > 0
    ensures 0 <= x % m < m
  {
  }

  lemma PreparedSize(digests: seq<seq<byte>>, d: seq<byte>, l: nat, digest: DigestFn, prepared: nat)
    requires Prepared(digests, d, l, digest, prepared)
    ensures prepared <= |digests|
  {
  }

  lemma ExactChunk(c: nat, l: nat)
    requires l > 0
    ensures Product(c, l) / l == c && Product(c, l) % l == 0
  {
    ModIs(Product(c, l), l, c, 0);
  }

  lemma ChunkOffset(a: nat, n: nat, l: nat)
    ensures Product(a, l) + Product(n, l) == Product(a + n, l)
  {
    assert (a + n) * l == a * l + n * l;
  }

  lemma ChunkCount(n: nat, l: nat, size: nat)
    requires l > 0 && Product(n, l) + l <= size
    ensures n + 1 <= size / l
  {
    assert size == size / l * l + size % l;
    if n + 1 > size / l {
      assert (n + 1) * l == n * l + l && (size / l + 1) * l == size / l * l + l;
      Monotone(size / l + 1, n + 1, l);
    }
  }

  lemma ChunkEnd(n: nat, l: nat, size: nat)
    requires l > 0 && Product(n, l) <= size < Product(n, l) + l
    ensures size / l == n
  {
    ModIs(size, l, n, size - Product(n, l));
  }

  lemma PreparedNext(digests: seq<seq<byte>>, d: seq<byte>, l: nat, digest: DigestFn, c: nat, chunk: seq<byte>)
    requires Prepared(digests, d, l, digest, c) && c < |digests| && Product(c, l) + l <= |d| && chunk == Chunk(d, l, c)
    ensures Prepared(digests[c := digest(chunk)], d, l, digest, c + 1)
  {
    var ds := digests[c := digest(chunk)];
    forall k | 0 <= k < c + 1 ensures DigestOk(ds, d, l, digest, k) {
      if k < c { assert DigestOk(digests, d, l, digest, k); }
    }
  }
}
