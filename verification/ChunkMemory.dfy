/** The byte layout of the chunk store: 1 MiB blocks of 64-byte chunks, each a
    4-byte link to the next chunk followed by 60 bytes of payload. */
module ChunkMemory {
  import opened Bytes

  const CHUNK_SIZE := 64
  const USEFUL_CHUNK_SPACE := 60
  const A_BLOCK_SIZE := 0x10_0000
  const K := 16384
  const INVALID_INDEX: u32 := 0

  /** The allocated blocks (`block_addr`), in allocation order. */
  type Memory = seq<seq<byte>>

  /** Whole blocks only, and few enough that the number of chunks fits 32 bits. */
  ghost predicate WellFormed(m: Memory) {
    && |m| < 0x4_0000
    && forall b :: 0 <= b < |m| ==> |m[b]| == A_BLOCK_SIZE
  }

  /** Two memories agree on chunk `j`. */
  ghost predicate SameChunk(m: Memory, r: Memory, j: nat)
    requires WellFormed(m) && WellFormed(r)
  {
    InMemory(m, j) && InMemory(r, j) && NextIndex(r, j) == NextIndex(m, j) && Payload(r, j) == Payload(m, j)
  }

  /** `r` is `m` except perhaps inside chunk `i`. */
  ghost predicate ChangedOnly(m: Memory, r: Memory, i: nat)
    requires WellFormed(m)
  {
    && WellFormed(r) && |r| == |m|
    && forall j {:trigger SameChunk(m, r, j)} {:trigger NextIndex(r, j)} {:trigger Payload(r, j)} ::
         InMemory(m, j) && j != i ==> SameChunk(m, r, j)
  }

  /** Every chunk of `m` is unchanged in `r`. */
  ghost predicate Keeps(m: Memory, r: Memory)
    requires WellFormed(m)
  {
    && WellFormed(r) && |m| <= |r|
    && forall j {:trigger SameChunk(m, r, j)} {:trigger NextIndex(r, j)} {:trigger Payload(r, j)} ::
         InMemory(m, j) ==> SameChunk(m, r, j)
  }

  /** Chunk `i` lies inside the allocated blocks. */
  predicate InMemory(m: Memory, i: nat) {
    i < |m| * K
  }

  /** Offset of chunk `i` inside its block. */
  function ChunkOffset(i: nat): (o: nat)
    ensures o + CHUNK_SIZE <= A_BLOCK_SIZE
  {
    (i % K) * CHUNK_SIZE
  }

  function NextIndex(m: Memory, i: nat): u32
    requires WellFormed(m) && InMemory(m, i)
  {
    var s := m[i / K][ChunkOffset(i)..ChunkOffset(i) + 4];
    WordFits(s);
    FromLE(s)
  }

  lemma WordFits(s: seq<byte>)
    requires |s| == 4
    ensures FromLE(s) < 0x1_0000_0000
  {
    assert s[1..][1..] == s[2..] && s[2..][1..] == s[3..] && s[3..][1..] == [];
    assert FromLE(s[3..]) == s[3] as int;
    assert FromLE(s[2..]) == s[2] as int + 256 * s[3] as int;
    assert FromLE(s[1..]) == s[1] as int + 256 * FromLE(s[2..]);
  }

  /** The 60 payload bytes of chunk `i`. */
  function Payload(m: Memory, i: nat): (p: seq<byte>)
    requires WellFormed(m) && InMemory(m, i)
    ensures |p| == USEFUL_CHUNK_SPACE
  {
    m[i / K][ChunkOffset(i) + 4..ChunkOffset(i) + CHUNK_SIZE]
  }

  /** Writing `data` at offset `at` of chunk `i`. */
  function Write(m: Memory, i: nat, at: nat, data: seq<byte>): (r: Memory)
    requires WellFormed(m) && InMemory(m, i) && at + |data| <= CHUNK_SIZE
    ensures WellFormed(r) && |r| == |m|
    ensures var o := ChunkOffset(i) + at;
            && r[i / K][o..o + |data|] == data
            && forall k :: 0 <= k < o || o + |data| <= k < A_BLOCK_SIZE ==> r[i / K][k] == m[i / K][k]
  {
    SpliceAt(m[i / K], ChunkOffset(i) + at, data);
    m[i / K := Splice(m[i / K], ChunkOffset(i) + at, data)]
  }

  /** A write inside chunk `i` touches no other chunk. */
  lemma WriteFrame(m: Memory, i: nat, at: nat, data: seq<byte>, j: nat)
    requires WellFormed(m) && InMemory(m, i) && at + |data| <= CHUNK_SIZE
    requires InMemory(m, j) && j != i
    ensures NextIndex(Write(m, i, at, data), j) == NextIndex(m, j)
    ensures Payload(Write(m, i, at, data), j) == Payload(m, j)
  {
    var r := Write(m, i, at, data);
    if i / K == j / K {
      Apart(i, j);
      SameRange(r[j / K], m[j / K], ChunkOffset(j), ChunkOffset(j) + 4);
      SameRange(r[j / K], m[j / K], ChunkOffset(j) + 4, ChunkOffset(j) + CHUNK_SIZE);
    }
  }

  /** Chunks of one block do not overlap. */
  lemma Apart(i: nat, j: nat)
    requires i != j && i / K == j / K
    ensures ChunkOffset(i) + CHUNK_SIZE <= ChunkOffset(j) || ChunkOffset(j) + CHUNK_SIZE <= ChunkOffset(i)
  {
    assert i == i / K * K + i % K && j == j / K * K + j % K;
  }

  /** `set_next_index`: store a link, leaving every payload and every other link alone. */
  function SetNextIndex(m: Memory, i: nat, next: u32): (r: Memory)
    requires WellFormed(m) && InMemory(m, i)
    ensures ChangedOnly(m, r, i)
    ensures NextIndex(r, i) == next
    ensures Payload(r, i) == Payload(m, i)
  {
    var r := Write(m, i, 0, LE32(next));
    assert r[i / K][ChunkOffset(i)..ChunkOffset(i) + 4] == LE32(next);
    assert Payload(r, i) == Payload(m, i);
    assert ChangedOnly(m, r, i) by {
      forall j | InMemory(m, j) && j != i ensures SameChunk(m, r, j) {
        WriteFrame(m, i, 0, LE32(next), j);
      }
    }
    r
  }

  /** Store up to 60 bytes in the payload, leaving every link and every other payload alone. */
  function SetPayload(m: Memory, i: nat, data: seq<byte>): (r: Memory)
    requires WellFormed(m) && InMemory(m, i) && |data| <= USEFUL_CHUNK_SPACE
    ensures ChangedOnly(m, r, i)
    ensures NextIndex(r, i) == NextIndex(m, i)
    ensures Payload(r, i)[..|data|] == data
  {
    var r := Write(m, i, 4, data);
    assert r[i / K][ChunkOffset(i)..ChunkOffset(i) + 4] == m[i / K][ChunkOffset(i)..ChunkOffset(i) + 4];
    assert Payload(r, i)[..|data|] == r[i / K][ChunkOffset(i) + 4..ChunkOffset(i) + 4 + |data|];
    assert ChangedOnly(m, r, i) by {
      forall j | InMemory(m, j) && j != i ensures SameChunk(m, r, j) {
        WriteFrame(m, i, 4, data, j);
      }
    }
    r
  }
}
