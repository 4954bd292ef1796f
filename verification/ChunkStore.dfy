/** The in-memory match store: byte strings saved as chains of fixed-size chunks,
    with unused chunks threaded on a free list. */
module ChunkStore {
  import opened Bytes
  import opened ChunkMemory

  /** Number of chunks taken by a saved string. */
  function ChunksFor(len: nat): (n: nat)
    ensures len > 0 ==> n > 0
    ensures n * USEFUL_CHUNK_SPACE < len + USEFUL_CHUNK_SPACE
    ensures len <= n * USEFUL_CHUNK_SPACE
  {
    (len + USEFUL_CHUNK_SPACE - 1) / USEFUL_CHUNK_SPACE
  }

  /** The most chunks that may be in use while every index, and `total_chunks`, fits 32 bits. */
  const MAX_USED := 0x1_0000_0000 - K - 1

  /** The chunks of `l` from `start` on are linked in order; unless `open`, the last link is the end mark. */
  ghost predicate Chain(m: Memory, l: seq<nat>, start: nat, open: bool)
    requires WellFormed(m)
  {
    && (forall k :: start <= k < |l| ==> 0 < l[k] && InMemory(m, l[k]))
    && (forall k {:trigger NextIndex(m, l[k])} :: start <= k < |l| - 1 ==> NextIndex(m, l[k]) == l[k + 1])
    && (start < |l| && !open ==> NextIndex(m, l[|l| - 1]) == INVALID_INDEX)
  }

  /** The free list as a stack: each chunk links to the one below it, the bottom one to the end mark. */
  ghost predicate FreeStack(m: Memory, s: seq<nat>)
    requires WellFormed(m)
  {
    && (forall k :: 0 <= k < |s| ==> 0 < s[k] && InMemory(m, s[k]))
    && (forall k {:trigger NextIndex(m, s[k])} :: 0 < k < |s| ==> NextIndex(m, s[k]) == s[k - 1])
    && (s != [] ==> NextIndex(m, s[0]) == INVALID_INDEX)
  }

  function Top(s: seq<nat>): nat {
    if s == [] then INVALID_INDEX else s[|s| - 1]
  }

  /** Chunk number `k` of a string of `n` bytes carries bytes `Lo(k)..Hi(k, n)`. */
  function Lo(k: nat): nat { k * USEFUL_CHUNK_SPACE }
  function Hi(k: nat, n: nat): int { Min(Lo(k) + USEFUL_CHUNK_SPACE, n) }

  /** The first `k` chunks of `l` carry the first bytes of `data`. */
  ghost predicate Carries(m: Memory, l: seq<nat>, data: seq<byte>, k: nat)
    requires WellFormed(m) && k <= |l| && k <= ChunksFor(|data|)
    requires forall i :: 0 <= i < |l| ==> InMemory(m, l[i])
  {
    forall i {:trigger Payload(m, l[i])} :: 0 <= i < k ==>
      Payload(m, l[i])[..Hi(i, |data|) - Lo(i)] == data[Lo(i)..Hi(i, |data|)]
  }

  /** The indices of all chunks but the unused chunk 0. */
  ghost function Indices(n: nat): (s: set<nat>)
    ensures forall c :: c in s <==> 0 < c < n
    ensures |s| == if n == 0 then 0 else n - 1
  {
    if n <= 1 then {} else Indices(n - 1) + {n - 1}
  }

  /** `useful_memory`, in wrapping 64-bit arithmetic. */
  function UsefulMemory(memlimit: u64): u64 {
    var chunks := memlimit / A_BLOCK_SIZE * A_BLOCK_SIZE / CHUNK_SIZE;
    var usable := (chunks - 1) % 0x1_0000_0000_0000_0000;
    usable * USEFUL_CHUNK_SPACE % 0x1_0000_0000_0000_0000
  }

  /** From one block up, the limit leaves all but one chunk of the whole blocks usable;
      below one block the subtraction wraps and there is practically no limit. */
  lemma UsefulMemoryValue(memlimit: u64)
    ensures memlimit >= A_BLOCK_SIZE ==> UsefulMemory(memlimit) == (memlimit / A_BLOCK_SIZE * K - 1) * USEFUL_CHUNK_SPACE
    ensures memlimit < A_BLOCK_SIZE ==> UsefulMemory(memlimit) == U64_MAX - 59
  {
    var blocks := memlimit / A_BLOCK_SIZE;
    assert blocks * A_BLOCK_SIZE / CHUNK_SIZE == blocks * K;
    if memlimit >= A_BLOCK_SIZE {
      assert 1 <= blocks < 0x1000_0000_0000;
      var usable := blocks * K - 1;
      assert 0 <= usable < 0x400_0000_0000_0000;
      assert usable % 0x1_0000_0000_0000_0000 == usable;
    } else {
      assert blocks == 0;
      assert (0 - 1) % 0x1_0000_0000_0000_0000 == U64_MAX;
      assert U64_MAX * 60 == 59 * 0x1_0000_0000_0000_0000 + (U64_MAX - 59);
    }
  }

  /** Where a used chunk stands: at position `pos` of the chain with head `head`
      (head 0 for the chain under construction or removal). */
  datatype Place = Place(head: nat, pos: nat)

  /** The ghost account of the store: the free list as a stack and the position of each
      free chunk on it, the chunks of each saved string by head index, the place of each
      used chunk, and the saved strings. */
  datatype Account = Account(
    free: seq<nat>, rank: map<nat, nat>,
    chains: map<nat, seq<nat>>, place: map<nat, Place>,
    strings: map<nat, seq<byte>>)

  /** Free and used chunks are disjoint and together are all chunks but chunk 0. */
  ghost predicate FreeListOk(m: Memory, g: Account)
    requires WellFormed(m)
  {
    && FreeStack(m, g.free)
    && (forall k :: 0 <= k < |g.free| ==> g.free[k] in g.rank && g.rank[g.free[k]] == k)
    && (forall c :: c in g.rank ==> g.rank[c] < |g.free| && g.free[g.rank[c]] == c && c !in g.place)
    && (forall c :: c in g.place ==> 0 < c && InMemory(m, c))
    && (forall c {:trigger c in g.rank} {:trigger c in g.place} :: 0 < c && InMemory(m, c) ==> c in g.rank || c in g.place)
  }

  /** The string with head `h` is held by a chain of its own chunks. */
  ghost predicate Saved(m: Memory, g: Account, h: nat)
    requires WellFormed(m) && h in g.chains && h in g.strings
  {
    var l := g.chains[h];
    && h != 0 && l != [] && l[0] == h
    && Chain(m, l, 0, false)
    && (forall k :: 0 <= k < |l| ==> l[k] in g.place && g.place[l[k]] == Place(h, k))
    && |l| == ChunksFor(|g.strings[h]|) && Carries(m, l, g.strings[h], |l|)
  }

  /** Every saved string has its chain, and every owned chunk is in its owner's chain. */
  ghost predicate StringsOk(m: Memory, g: Account)
    requires WellFormed(m)
  {
    && g.strings.Keys == g.chains.Keys && 0 !in g.chains
    && (forall h :: h in g.chains ==> Saved(m, g, h))
    && (forall c :: c in g.place && g.place[c].head != 0 ==>
          && g.place[c].head in g.chains && g.place[c].pos < |g.chains[g.place[c].head]|
          && g.chains[g.place[c].head][g.place[c].pos] == c)
  }

  /** The used chunks without an owner are exactly `part[start..]`. */
  ghost predicate PartOk(g: Account, part: seq<nat>, start: nat) {
    && (forall k :: start <= k < |part| ==> part[k] in g.place && g.place[part[k]] == Place(0, k))
    && (forall c :: c in g.place && g.place[c].head == 0 ==>
          start <= g.place[c].pos < |part| && part[g.place[c].pos] == c)
  }

  /** The store's invariant while the chunks of `part[start..]` are being added or removed. */
  ghost predicate Consistent(m: Memory, used: nat, g: Account, part: seq<nat>, start: nat) {
    && WellFormed(m)
    && FreeListOk(m, g)
    && StringsOk(m, g)
    && PartOk(g, part, start)
    && |g.place.Keys| == used
  }

  lemma SavedFrame(m: Memory, r: Memory, g: Account, g': Account, h: nat)
    requires WellFormed(m) && WellFormed(r) && h in g.chains && h in g.strings && Saved(m, g, h)
    requires h in g'.chains && h in g'.strings && g'.chains[h] == g.chains[h] && g'.strings[h] == g.strings[h]
    requires forall c :: c in g.place && g.place[c].head == h ==> SameChunk(m, r, c) && c in g'.place && g'.place[c] == g.place[c]
    ensures Saved(r, g', h)
  {
    var l := g.chains[h];
    assert forall k :: 0 <= k < |l| ==> SameChunk(m, r, l[k]);
  }

  lemma FreeStackFrame(m: Memory, r: Memory, s: seq<nat>, c: nat)
    requires WellFormed(m) && FreeStack(m, s) && c !in s && ChangedOnly(m, r, c)
    ensures FreeStack(r, s)
  {
    assert forall k :: 0 <= k < |s| ==> SameChunk(m, r, s[k]);
  }

  lemma FreeStackPush(m: Memory, r: Memory, s: seq<nat>, c: nat)
    requires WellFormed(m) && FreeStack(m, s) && c !in s && 0 < c && InMemory(m, c)
    requires ChangedOnly(m, r, c) && NextIndex(r, c) == Top(s)
    ensures FreeStack(r, s + [c])
  {
    FreeStackFrame(m, r, s, c);
  }

  /** Taking the first free chunk. */
  ghost function Pop(g: Account, part: seq<nat>): Account
    requires g.free != []
  {
    g.(free := g.free[..|g.free| - 1], rank := g.rank - {Top(g.free)}, place := g.place[Top(g.free) := Place(0, |part|)])
  }

  lemma PoppedFreeList(m: Memory, g: Account, part: seq<nat>)
    requires WellFormed(m) && FreeListOk(m, g) && g.free != []
    ensures FreeListOk(m, Pop(g, part))
  {
  }

  lemma PoppedPart(m: Memory, g: Account, part: seq<nat>)
    requires WellFormed(m) && FreeListOk(m, g) && g.free != [] && PartOk(g, part, 0)
    ensures PartOk(Pop(g, part), part + [Top(g.free)], 0)
  {
  }

  lemma PoppedStrings(m: Memory, g: Account, part: seq<nat>)
    requires WellFormed(m) && FreeListOk(m, g) && g.free != [] && StringsOk(m, g)
    ensures StringsOk(m, Pop(g, part))
  {
    hide Saved;
    var g' := Pop(g, part);
    forall h | h in g.chains ensures Saved(m, g', h) {
      SavedFrame(m, m, g, g', h);
    }
  }

  lemma PoppedTop(m: Memory, g: Account, part: seq<nat>)
    requires WellFormed(m) && FreeListOk(m, g) && g.free != []
    ensures Top(g.free) !in g.place && Top(g.free) != 0 && InMemory(m, Top(g.free))
    ensures NextIndex(m, Top(g.free)) == Top(Pop(g, part).free)
    ensures |Pop(g, part).place.Keys| == |g.place.Keys| + 1
  {
    hide FreeStack;
    FreeListStack(m, g);
    StackTop(m, g.free);
    RanksOf(m, g);
    hide FreeListOk;
    assert Pop(g, part).place.Keys == g.place.Keys + {Top(g.free)};
  }

  lemma StackTop(m: Memory, s: seq<nat>)
    requires WellFormed(m) && FreeStack(m, s) && s != []
    ensures Top(s) != 0 && InMemory(m, Top(s)) && NextIndex(m, Top(s)) == Top(s[..|s| - 1])
  {
  }

  lemma Popped(m: Memory, used: nat, g: Account, part: seq<nat>)
    requires Consistent(m, used, g, part, 0) && g.free != []
    ensures Consistent(m, used + 1, Pop(g, part), part + [Top(g.free)], 0)
  {
    PoppedTop(m, g, part);
    PoppedFreeList(m, g, part);
    PoppedPart(m, g, part);
    PoppedStrings(m, g, part);
  }

  /** Putting the first chunk of `part[start..]` back on top of the free list. */
  ghost function Push(g: Account, c: nat): Account {
    g.(free := g.free + [c], rank := g.rank[c := |g.free|], place := g.place - {c})
  }

  lemma PushedFreeList(m: Memory, r: Memory, g: Account, part: seq<nat>, start: nat)
    requires WellFormed(m) && FreeListOk(m, g) && PartOk(g, part, start) && start < |part|
    requires ChangedOnly(m, r, part[start]) && NextIndex(r, part[start]) == Top(g.free)
    ensures FreeListOk(r, Push(g, part[start]))
  {
    hide FreeStack;
    var c := part[start];
    assert c !in g.rank && c !in g.free;
    FreeStackPush(m, r, g.free, c);
  }

  lemma PushedPart(g: Account, part: seq<nat>, start: nat)
    requires PartOk(g, part, start) && start < |part|
    ensures PartOk(Push(g, part[start]), part, start + 1)
  {
  }

  lemma PushedStrings(m: Memory, r: Memory, g: Account, part: seq<nat>, start: nat)
    requires WellFormed(m) && FreeListOk(m, g) && StringsOk(m, g) && PartOk(g, part, start) && start < |part|
    requires ChangedOnly(m, r, part[start])
    ensures StringsOk(r, Push(g, part[start]))
  {
    hide Saved;
    var g' := Push(g, part[start]);
    forall h | h in g.chains ensures Saved(r, g', h) {
      SavedFrame(m, r, g, g', h);
    }
  }

  lemma PushedCard(g: Account, part: seq<nat>, start: nat)
    requires PartOk(g, part, start) && start < |part|
    ensures |g.place.Keys| == |Push(g, part[start]).place.Keys| + 1
  {
    assert Push(g, part[start]).place.Keys == g.place.Keys - {part[start]};
  }

  lemma Pushed(m: Memory, r: Memory, used: nat, g: Account, part: seq<nat>, start: nat)
    requires Consistent(m, used, g, part, start) && start < |part|
    requires ChangedOnly(m, r, part[start]) && NextIndex(r, part[start]) == Top(g.free)
    ensures used > 0
    ensures Consistent(r, used - 1, Push(g, part[start]), part, start + 1)
  {
    PushedFreeList(m, r, g, part, start);
    PushedPart(g, part, start);
    PushedStrings(m, r, g, part, start);
    PushedCard(g, part, start);
  }

  /** A write to a chunk of `part` keeps the invariant. */
  lemma PartWritten(m: Memory, r: Memory, used: nat, g: Account, part: seq<nat>, i: nat)
    requires Consistent(m, used, g, part, 0) && i < |part|
    requires ChangedOnly(m, r, part[i])
    ensures Consistent(r, used, g, part, 0)
  {
    hide Saved, FreeStack;
    assert part[i] !in g.rank && part[i] !in g.free;
    FreeStackFrame(m, r, g.free, part[i]);
    forall h | h in g.chains ensures Saved(r, g, h) {
      SavedFrame(m, r, g, g, h);
    }
  }

  lemma TopZero(m: Memory, g: Account)
    requires WellFormed(m) && FreeListOk(m, g)
    ensures Top(g.free) == INVALID_INDEX <==> g.free == []
  {
  }

  /** A fresh block: every chunk links to the next one, and the last one on to `link`. */
  ghost predicate FreshBlock(m: Memory, r: Memory, link: nat)
    requires WellFormed(m)
  {
    && Keeps(m, r) && |r| == |m| + 1
    && (forall j {:trigger NextIndex(r, j)} :: |m| * K <= j < |r| * K - 1 ==> NextIndex(r, j) == j + 1)
    && NextIndex(r, |r| * K - 1) == link
  }

  /** The chunks `first..last` as a free stack with `first` on top. */
  ghost function DownFrom(first: nat, last: nat): (s: seq<nat>)
    requires first <= last
    ensures |s| == last - first + 1
    ensures forall k :: 0 <= k < |s| ==> s[k] == last - k
  {
    seq(last - first + 1, k requires 0 <= k <= last - first => last - k)
  }

  /** Their positions on a stack that has them on top of `n` others. */
  ghost function Ranks(n: nat, first: nat, last: nat): (r: map<nat, nat>)
    requires 0 < first
    ensures forall c :: c in r ==> first <= c <= last && r[c] == n + (last - c)
    ensures forall c {:trigger c in r} :: first <= c <= last ==> c in r
  {
    map c {:trigger c in Indices(last + 1)} | c in Indices(last + 1) && first <= c :: n + (last - c)
  }

  ghost function Extend(g: Account, first: nat, last: nat): Account
    requires 0 < first <= last
  {
    g.(free := g.free + DownFrom(first, last), rank := g.rank + Ranks(|g.free|, first, last))
  }

  lemma FreshStack(m: Memory, r: Memory, s: seq<nat>, first: nat)
    requires WellFormed(m) && FreeStack(m, s) && FreshBlock(m, r, Top(s)) && first == (if m == [] then 1 else |m| * K)
    ensures FreeStack(r, s + DownFrom(first, |r| * K - 1))
  {
    hide Keeps;
    var last := |r| * K - 1;
    var t, u := DownFrom(first, last), s + DownFrom(first, last);
    KeptStack(m, r, s);
    forall k | 0 < k < |u| ensures NextIndex(r, u[k]) == u[k - 1] {
      if k > |s| { assert u[k] == t[k - |s|] && u[k - 1] == t[k - 1 - |s|]; }
    }
    forall k | 0 <= k < |u| ensures 0 < u[k] && InMemory(r, u[k]) {
      if k >= |s| { assert u[k] == t[k - |s|]; }
    }
  }

  lemma KeptStack(m: Memory, r: Memory, s: seq<nat>)
    requires WellFormed(m) && FreeStack(m, s) && Keeps(m, r)
    ensures WellFormed(r) && FreeStack(r, s)
  {
    assert forall k :: 0 <= k < |s| ==> SameChunk(m, r, s[k]);
  }

  /** `rank` gives the position of each chunk of the stack. */
  ghost predicate Ranked(s: seq<nat>, rank: map<nat, nat>) {
    && (forall k :: 0 <= k < |s| ==> s[k] in rank && rank[s[k]] == k)
    && (forall c :: c in rank ==> rank[c] < |s| && s[rank[c]] == c)
  }

  lemma RankedJoin(s: seq<nat>, rank: map<nat, nat>, first: nat, last: nat)
    requires Ranked(s, rank) && 0 < first <= last && forall c :: c in rank ==> c < first
    ensures Ranked(s + DownFrom(first, last), rank + Ranks(|s|, first, last))
  {
    var t, q := DownFrom(first, last), Ranks(|s|, first, last);
    var u, r := s + t, rank + q;
    forall k | 0 <= k < |u| ensures u[k] in r && r[u[k]] == k {
      if k < |s| {
        assert u[k] == s[k] && s[k] !in q;
      } else {
        assert u[k] == t[k - |s|] && t[k - |s|] in q;
      }
    }
    forall c | c in r ensures r[c] < |u| && u[r[c]] == c {
      if c in q { assert u[r[c]] == t[last - c]; } else { assert c in rank; }
    }
  }

  lemma ExtendedRanks(m: Memory, r: Memory, g: Account, first: nat)
    requires WellFormed(m) && FreeListOk(m, g) && |r| == |m| + 1
    requires first == (if m == [] then 1 else |m| * K)
    ensures var last, added := |r| * K - 1, Ranks(|g.free|, first, |r| * K - 1);
            && Ranked(g.free + DownFrom(first, last), g.rank + added)
            && (forall c :: c in g.rank + added ==> c !in g.place)
            && (forall c {:trigger c in g.rank} {:trigger c in g.place} :: 0 < c && InMemory(r, c) ==> c in g.rank + added || c in g.place)
  {
    hide FreeStack;
    var last, q := |r| * K - 1, Ranks(|g.free|, first, |r| * K - 1);
    RanksOf(m, g);
    assert forall c :: c in g.place ==> InMemory(m, c) && c < first;
    forall c: nat | 0 < c && InMemory(r, c) ensures c in g.rank + q || c in g.place {
      if c < first { assert c in g.rank || c in g.place; } else { assert c in q; }
    }
    hide FreeListOk;
    RankedJoin(g.free, g.rank, first, last);
  }

  lemma RanksOf(m: Memory, g: Account)
    requires WellFormed(m) && FreeListOk(m, g)
    ensures Ranked(g.free, g.rank) && forall c :: c in g.rank ==> InMemory(m, c)
    ensures g.free != [] ==> Top(g.free) !in g.place
  {
    if g.free != [] { assert g.free[|g.free| - 1] in g.rank; }
    forall c | c in g.rank ensures InMemory(m, c) { assert g.free[g.rank[c]] == c; }
  }

  lemma ExtendedFreeList(m: Memory, r: Memory, g: Account, first: nat)
    requires WellFormed(m) && FreeListOk(m, g)
    requires FreshBlock(m, r, Top(g.free)) && first == (if m == [] then 1 else |m| * K)
    ensures FreeListOk(r, Extend(g, first, |r| * K - 1))
  {
    hide FreeStack, FreshBlock, NextIndex, FreeListOk, Ranked, Ranks, DownFrom;
    BlockAdded(m, r, Top(g.free));
    FreeListStack(m, g);
    FreshStack(m, r, g.free, first);
    ExtendedRanks(m, r, g, first);
    FreeListIs(r, Extend(g, first, |r| * K - 1));
  }

  lemma FreeListStack(m: Memory, g: Account)
    requires WellFormed(m) && FreeListOk(m, g)
    ensures FreeStack(m, g.free) && forall c :: c in g.place ==> 0 < c && InMemory(m, c)
  {
    hide FreeStack;
  }

  lemma FreeListIs(m: Memory, g: Account)
    requires WellFormed(m) && FreeStack(m, g.free) && Ranked(g.free, g.rank)
    requires forall c :: c in g.rank ==> c !in g.place
    requires forall c :: c in g.place ==> 0 < c && InMemory(m, c)
    requires forall c {:trigger c in g.rank} {:trigger c in g.place} :: 0 < c && InMemory(m, c) ==> c in g.rank || c in g.place
    ensures FreeListOk(m, g)
  {
    hide FreeStack;
  }

  lemma BlockAdded(m: Memory, r: Memory, link: nat)
    requires WellFormed(m) && FreshBlock(m, r, link)
    ensures WellFormed(r) && |r| == |m| + 1
  {
  }

  lemma Extended(m: Memory, r: Memory, used: nat, g: Account, part: seq<nat>, first: nat)
    requires Consistent(m, used, g, part, 0)
    requires FreshBlock(m, r, Top(g.free)) && first == (if m == [] then 1 else |m| * K)
    ensures Consistent(r, used, Extend(g, first, |r| * K - 1), part, 0)
  {
    hide FreshBlock, FreeListOk, StringsOk, PartOk;
    BlockAdded(m, r, Top(g.free));
    ExtendedFreeList(m, r, g, first);
    ExtendedRest(m, r, used, g, part, first);
  }

  lemma ExtendedRest(m: Memory, r: Memory, used: nat, g: Account, part: seq<nat>, first: nat)
    requires Consistent(m, used, g, part, 0)
    requires FreshBlock(m, r, Top(g.free)) && first == (if m == [] then 1 else |m| * K)
    ensures StringsOk(r, Extend(g, first, |r| * K - 1)) && PartOk(Extend(g, first, |r| * K - 1), part, 0)
  {
    hide Extend, StringsOk, FreeListOk, Top;
    ExtendTop(g, first, |r| * K - 1);
    FreeListStack(m, g);
    StringsKept(m, r, g, Extend(g, first, |r| * K - 1));
  }

  /** Memory that is only added to keeps the saved strings. */
  lemma StringsKept(m: Memory, r: Memory, g: Account, g': Account)
    requires WellFormed(m) && Keeps(m, r) && StringsOk(m, g) && forall c :: c in g.place ==> InMemory(m, c)
    requires g'.chains == g.chains && g'.place == g.place && g'.strings == g.strings
    ensures WellFormed(r) && StringsOk(r, g')
  {
    hide Saved;
    forall h | h in g.chains ensures Saved(r, g', h) {
      SavedFrame(m, r, g, g', h);
    }
  }

  /** The new block is on top, and nothing else in the accounts changes. */
  lemma ExtendTop(g: Account, first: nat, last: nat)
    requires 0 < first <= last
    ensures var e := Extend(g, first, last);
            && e.free != [] && g.free <= e.free && Top(e.free) == first
            && e.chains == g.chains && e.place == g.place && e.strings == g.strings
  {
    var e, t := Extend(g, first, last), DownFrom(first, last);
    assert e.free[|e.free| - 1] == t[|t| - 1];
  }

  /** An exhausted store uses every chunk but chunk 0. */
  lemma Exhausted(m: Memory, used: nat, g: Account, part: seq<nat>)
    requires Consistent(m, used, g, part, 0) && g.free == []
    ensures used == if m == [] then 0 else |m| * K - 1
  {
    assert g.place.Keys == Indices(|m| * K);
  }

  /** The chunks of chain `from` become those of chain `to`. */
  ghost function Rehead(place: map<nat, Place>, from: nat, to: nat): (r: map<nat, Place>)
    ensures r.Keys == place.Keys
  {
    map c | c in place :: if place[c].head == from then Place(to, place[c].pos) else place[c]
  }

  lemma ReheadFreeList(m: Memory, g: Account, g': Account)
    requires WellFormed(m) && FreeListOk(m, g)
    requires g'.free == g.free && g'.rank == g.rank && g'.place.Keys == g.place.Keys
    ensures FreeListOk(m, g')
  {
    assert forall c :: c in g.place <==> c in g'.place;
  }

  /** `part` is a complete chain holding `data`. */
  ghost predicate Finished(m: Memory, part: seq<nat>, data: seq<byte>)
    requires WellFormed(m)
  {
    part != [] && Chain(m, part, 0, false) && |part| == ChunksFor(|data|) && Carries(m, part, data, |part|)
  }

  /** The finished chain `part` becomes the saved string `data`. */
  ghost function Commit(g: Account, part: seq<nat>, data: seq<byte>): Account
    requires part != []
  {
    g.(chains := g.chains[part[0] := part], strings := g.strings[part[0] := data], place := Rehead(g.place, 0, part[0]))
  }

  lemma HeadIsNew(m: Memory, g: Account, part: seq<nat>)
    requires WellFormed(m) && StringsOk(m, g) && PartOk(g, part, 0) && part != []
    ensures part[0] !in g.strings
  {
    if part[0] in g.chains { HeadOwned(m, g, part[0]); }
  }

  lemma HeadOwned(m: Memory, g: Account, h: nat)
    requires WellFormed(m) && StringsOk(m, g) && h in g.chains
    ensures h in g.place && g.place[h].head == h != 0
  {
    assert Saved(m, g, h);
    assert g.chains[h][0] == h;
  }

  lemma CommittedSelf(m: Memory, g: Account, part: seq<nat>, data: seq<byte>)
    requires WellFormed(m) && PartOk(g, part, 0)
    requires Finished(m, part, data)
    ensures part != [] && part[0] != 0 && Saved(m, Commit(g, part, data), part[0])
  {
  }

  lemma CommittedPart(g: Account, part: seq<nat>, data: seq<byte>)
    requires PartOk(g, part, 0) && part != [] && part[0] != 0
    ensures PartOk(Commit(g, part, data), [], 0)
  {
  }

  lemma CommittedStrings(m: Memory, g: Account, part: seq<nat>, data: seq<byte>)
    requires WellFormed(m) && StringsOk(m, g) && PartOk(g, part, 0) && FreeListOk(m, g)
    requires part != [] && part[0] !in g.strings && part[0] != 0
    requires Saved(m, Commit(g, part, data), part[0])
    ensures StringsOk(m, Commit(g, part, data))
  {
    hide Saved;
    var g' := Commit(g, part, data);
    forall h | h in g'.chains ensures Saved(m, g', h) {
      if h != part[0] { SavedFrame(m, m, g, g', h); }
    }
  }

  lemma Committed(m: Memory, used: nat, g: Account, part: seq<nat>, data: seq<byte>)
    requires Consistent(m, used, g, part, 0) && Finished(m, part, data)
    ensures part != [] && part[0] != 0 && part[0] !in g.strings
    ensures Consistent(m, used, Commit(g, part, data), [], 0)
  {
    hide Saved, FreeStack, Finished;
    CommittedSelf(m, g, part, data);
    HeadIsNew(m, g, part);
    CommittedStrings(m, g, part, data);
    CommittedPart(g, part, data);
    ReheadFreeList(m, g, Commit(g, part, data));
  }

  /** `part` is the start of a chain for `data`, full so far and still without end mark. */
  ghost predicate Growing(m: Memory, part: seq<nat>, data: seq<byte>)
    requires WellFormed(m)
  {
    Chain(m, part, 0, true) && |part| <= ChunksFor(|data|) && Carries(m, part, data, |part|)
  }

  lemma GrowingNonzero(m: Memory, part: seq<nat>, data: seq<byte>)
    requires WellFormed(m) && Growing(m, part, data)
    ensures |part| <= ChunksFor(|data|)
    ensures forall k :: 0 <= k < |part| ==> 0 < part[k] && InMemory(m, part[k])
  {
  }

  lemma GrowingStart(m: Memory, data: seq<byte>)
    requires WellFormed(m)
    ensures Growing(m, [], data)
  {
  }

  /** Memory `r` is `m` with the chain of `part` continued by chunk `c`. */
  ghost predicate Linked(m: Memory, r: Memory, part: seq<nat>, c: nat)
    requires WellFormed(m)
  {
    && WellFormed(r) && c !in part && 0 < c && InMemory(r, c)
    && (forall k :: 0 <= k < |part| ==> InMemory(m, part[k]) && InMemory(r, part[k]))
    && (forall k {:trigger NextIndex(r, part[k])} :: 0 <= k < |part| ==>
          NextIndex(r, part[k]) == if k == |part| - 1 then c else NextIndex(m, part[k]))
    && (forall k {:trigger Payload(r, part[k])} :: 0 <= k < |part| ==> Payload(r, part[k]) == Payload(m, part[k]))
  }

  lemma LinkedBySteps(m: Memory, a: Memory, b: Memory, r: Memory, part: seq<nat>, c: nat)
    requires WellFormed(m) && Keeps(m, a) && c !in part && 0 < c && InMemory(a, c)
    requires forall k :: 0 <= k < |part| ==> InMemory(m, part[k])
    requires forall j, k :: 0 <= j < k < |part| ==> part[j] != part[k]
    requires if part == [] then b == a else
               var last := part[|part| - 1];
               InMemory(a, last) && ChangedOnly(a, b, last) && NextIndex(b, last) == c && Payload(b, last) == Payload(a, last)
    requires ChangedOnly(b, r, c)
    ensures Linked(m, r, part, c)
  {
    forall k | 0 <= k < |part|
      ensures InMemory(r, part[k]) && Payload(r, part[k]) == Payload(m, part[k])
      ensures NextIndex(r, part[k]) == if k == |part| - 1 then c else NextIndex(m, part[k])
    {
      assert SameChunk(m, a, part[k]) && SameChunk(b, r, part[k]);
      if k < |part| - 1 {
        assert SameChunk(a, b, part[k]);
      }
    }
  }

  /** Linking in the new chunk `c` and filling it. */
  lemma Grown(m: Memory, r: Memory, part: seq<nat>, c: nat, data: seq<byte>)
    requires WellFormed(m) && Growing(m, part, data) && Linked(m, r, part, c) && Lo(|part|) < |data|
    requires Payload(r, c)[..Hi(|part|, |data|) - Lo(|part|)] == data[Lo(|part|)..Hi(|part|, |data|)]
    ensures Growing(r, part + [c], data)
  {
    var p := part + [c];
    forall k | 0 <= k < |part|
      ensures p[k] == part[k] && NextIndex(r, p[k]) == p[k + 1] && Payload(r, p[k]) == Payload(m, part[k])
    {
    }
  }

  /** Ending the chain. */
  lemma Ended(m: Memory, r: Memory, g: Account, part: seq<nat>, data: seq<byte>)
    requires WellFormed(m) && Growing(m, part, data) && part != [] && |part| == ChunksFor(|data|)
    requires PartOk(g, part, 0)
    requires var last := part[|part| - 1];
             ChangedOnly(m, r, last) && NextIndex(r, last) == INVALID_INDEX && Payload(r, last) == Payload(m, last)
    ensures Finished(r, part, data)
  {
    assert Carries(r, part, data, |part|) by {
      forall i | 0 <= i < |part| ensures Payload(r, part[i])[..Hi(i, |data|) - Lo(i)] == data[Lo(i)..Hi(i, |data|)] {
        assert Payload(r, part[i]) == Payload(m, part[i]);
      }
    }
  }

  /** The saved string `h` becomes a chain under removal. */
  ghost function Release(g: Account, h: nat): Account {
    g.(chains := g.chains - {h}, strings := g.strings - {h}, place := Rehead(g.place, h, 0))
  }

  lemma ReleasedStrings(m: Memory, g: Account, h: nat)
    requires WellFormed(m) && StringsOk(m, g) && h in g.chains && FreeListOk(m, g)
    ensures StringsOk(m, Release(g, h))
  {
    hide Saved;
    var g' := Release(g, h);
    forall k | k in g'.chains ensures Saved(m, g', k) {
      SavedFrame(m, m, g, g', k);
    }
  }

  lemma ReleasedPart(m: Memory, g: Account, h: nat)
    requires WellFormed(m) && StringsOk(m, g) && h in g.chains && PartOk(g, [], 0)
    ensures PartOk(Release(g, h), g.chains[h], 0)
    ensures Chain(m, g.chains[h], 0, false) && g.chains[h] != [] && g.chains[h][0] == h
  {
    hide Chain, Carries, FreeListOk, StringsOk;
    SavedParts(m, g, h);
    hide Saved;
    var l, p := g.chains[h], Release(g, h).place;
    forall c | c in p && p[c].head == 0 ensures p[c].pos < |l| && l[p[c].pos] == c {
      assert c in g.place;
    }
  }

  /** The chain of a saved string, and the chunks placed in it. */
  lemma SavedParts(m: Memory, g: Account, h: nat)
    requires WellFormed(m) && StringsOk(m, g) && h in g.chains
    ensures h != 0 && Chain(m, g.chains[h], 0, false) && g.chains[h] != [] && g.chains[h][0] == h
    ensures forall k :: 0 <= k < |g.chains[h]| ==> g.chains[h][k] in g.place && g.place[g.chains[h][k]] == Place(h, k)
    ensures forall c :: c in g.place && g.place[c].head == h ==> g.place[c].pos < |g.chains[h]| && g.chains[h][g.place[c].pos] == c
  {
    hide Chain, Carries;
    assert Saved(m, g, h);
  }

  lemma Released(m: Memory, used: nat, g: Account, h: nat)
    requires Consistent(m, used, g, [], 0) && h in g.chains
    ensures Consistent(m, used, Release(g, h), g.chains[h], 0)
    ensures Chain(m, g.chains[h], 0, false) && g.chains[h] != [] && g.chains[h][0] == h
  {
    ReleasedPart(m, g, h);
    hide Saved, FreeStack, Chain;
    ReleasedStrings(m, g, h);
    ReheadFreeList(m, g, Release(g, h));
  }

  /** The chain of a saved string. */
  lemma ChainOf(m: Memory, used: nat, g: Account, h: nat)
    requires Consistent(m, used, g, [], 0) && h in g.strings
    ensures h in g.chains && Saved(m, g, h)
    ensures g.chains[h] != [] && g.chains[h][0] == h && |g.chains[h]| == ChunksFor(|g.strings[h]|)
  {
    hide FreeListOk, PartOk;
    assert h in g.chains && Saved(m, g, h);
  }

  /** Chunk `k` of a saved string, as a reader finds it. */
  lemma ChunkOf(m: Memory, g: Account, h: nat, k: nat)
    requires WellFormed(m) && h in g.strings && h in g.chains && Saved(m, g, h) && k < |g.chains[h]|
    ensures var c := g.chains[h][k];
            var n := |g.strings[h]|;
            && InMemory(m, c) && 0 < c
            && NextIndex(m, c) == (if k + 1 < |g.chains[h]| then g.chains[h][k + 1] else INVALID_INDEX)
            && Lo(k) <= Hi(k, n) <= Lo(k) + USEFUL_CHUNK_SPACE
            && Payload(m, c)[..Hi(k, n) - Lo(k)] == g.strings[h][Lo(k)..Hi(k, n)]
  {
  }

  /** The remaining chunks of a chain under removal survive freeing the first of them. */
  lemma ChainTail(m: Memory, r: Memory, g: Account, l: seq<nat>, start: nat)
    requires WellFormed(m) && Chain(m, l, start, false) && start < |l| && PartOk(g, l, start)
    requires ChangedOnly(m, r, l[start])
    ensures Chain(r, l, start + 1, false)
    ensures NextIndex(m, l[start]) == if start + 1 < |l| then l[start + 1] else INVALID_INDEX
  {
  }

  lemma NoPart(g: Account, l: seq<nat>)
    requires PartOk(g, l, |l|)
    ensures PartOk(g, [], 0)
  {
  }

  /** A save that fits the available space keeps the used chunks within the useful memory,
      and the store with one block more than that within the limit. */
  lemma GuardedSave(memlimit: u64, used: nat, len: nat)
    requires memlimit >= A_BLOCK_SIZE
    requires len <= UsefulMemory(memlimit) - used * USEFUL_CHUNK_SPACE
    ensures (used + ChunksFor(len)) * USEFUL_CHUNK_SPACE <= UsefulMemory(memlimit)
    ensures forall blocks: nat {:trigger blocks * A_BLOCK_SIZE} :: blocks * K <= used + ChunksFor(len) + K ==> blocks * A_BLOCK_SIZE <= memlimit
  {
    UsefulMemoryValue(memlimit);
    var n := memlimit / A_BLOCK_SIZE;
    assert (used + ChunksFor(len)) * USEFUL_CHUNK_SPACE < UsefulMemory(memlimit) + USEFUL_CHUNK_SPACE;
    assert used + ChunksFor(len) <= n * K - 1;
  }

  /** A guarded save that adds blocks only when all chunks are used keeps memory within the limit. */
  lemma GuardedGrowth(memlimit: u64, used: nat, len: nat, total: nat, blocks: nat)
    requires memlimit >= A_BLOCK_SIZE && 0 < len <= UsefulMemory(memlimit) - used * USEFUL_CHUNK_SPACE
    requires total * CHUNK_SIZE <= memlimit && (blocks * K == total || blocks * K <= used + ChunksFor(len) + K)
    ensures (used + ChunksFor(len)) * USEFUL_CHUNK_SPACE <= UsefulMemory(memlimit) && blocks * K * CHUNK_SIZE <= memlimit
  {
    GuardedSave(memlimit, used, len);
    hide UsefulMemory;
    assert blocks * K * CHUNK_SIZE == blocks * A_BLOCK_SIZE;
  }

  /** A store without strings uses no chunks. */
  lemma NothingUsed(m: Memory, used: nat, g: Account)
    requires Consistent(m, used, g, [], 0) && g.strings == map[]
    ensures used == 0
  {
    hide FreeListOk;
    if g.place.Keys != {} {
      var c :| c in g.place;
      OwnedByString(m, used, g, c);
    }
  }

  lemma OwnedByString(m: Memory, used: nat, g: Account, c: nat)
    requires Consistent(m, used, g, [], 0) && c in g.place
    ensures g.place[c].head in g.strings
  {
    hide FreeListOk;
  }
}
