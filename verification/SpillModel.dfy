/** When decoding stalls: the decoder's memory as a machine that knows only destinations and
    lengths. Its items are the saved matches in memory and the blocks spilled to the VM file,
    the nearest destination first. */
module SpillModel {
  import opened Bytes
  import opened MatchModel
  import opened ChunkStore

  /** A match whose bytes are saved. */
  datatype Held = Held(dest: nat, len: nat)

  /** A saved match in memory, or a spilled block, its farthest match first. */
  datatype Item = Mem(m: Held) | Mark(ms: seq<Held>) {
    /** Where it is due; a block is due with its nearest match. */
    function Key(): nat {
      if Mem? then m.dest else if ms == [] then 0 else ms[|ms| - 1].dest
    }
  }

  /** Memory limits: the useful memory and the size of a VM block. */
  datatype Limits = Limits(useful: nat, vs: nat)

  /** In order of due destinations. */
  function Put(items: seq<Item>, x: Item): (r: seq<Item>)
    ensures Total(r) == Total(items) + Size(x)
    ensures Used(r) == Used(items) + Chunks(x)
  {
    if items == [] then [x]
    else if x.Key() < items[0].Key() then
      var r := [x] + items;
      assert r[1..] == items;
      r
    else
      var r := [items[0]] + Put(items[1..], x);
      assert r[1..] == Put(items[1..], x);
      r
  }

  function PutAll(items: seq<Item>, ms: seq<Held>): (r: seq<Item>)
    ensures Total(r) == Total(items) + |ms|
  {
    if ms == [] then items else Put(PutAll(items, ms[..|ms| - 1]), Mem(ms[|ms| - 1]))
  }

  function Size(x: Item): nat {
    if x.Mem? then 1 else |x.ms|
  }

  /** The saved matches, in memory or not. */
  function Total(items: seq<Item>): nat {
    if items == [] then 0 else Size(items[0]) + Total(items[1..])
  }

  function Chunks(x: Item): nat {
    if x.Mem? then ChunksFor(x.m.len) else 0
  }

  /** The chunks in use. */
  function Used(items: seq<Item>): nat {
    if items == [] then 0 else Chunks(items[0]) + Used(items[1..])
  }

  /** The saved matches in memory, the farthest first. */
  function MemDown(items: seq<Item>): seq<Held> {
    if items == [] then [] else MemDown(items[1..]) + if items[0].Mem? then [items[0].m] else []
  }

  /** All blocks and the `k` nearest matches in memory. */
  function Keep(items: seq<Item>, k: nat): seq<Item> {
    if items == [] then []
    else if items[0].Mark? then [items[0]] + Keep(items[1..], k)
    else if k > 0 then [items[0]] + Keep(items[1..], k - 1)
    else Keep(items[1..], 0)
  }

  /** How many of these, taken in order, fit a block in which `p` bytes are used. */
  function Fitting(all: seq<Held>, p: nat, vs: nat): (n: nat)
    ensures n <= |all|
  {
    if all == [] || vs - p < 24 + all[0].len then 0 else 1 + Fitting(all[1..], p + 20 + all[0].len, vs)
  }

  /** One spill: the `n` farthest matches in memory become a block. */
  function Spill(items: seq<Item>, n: nat): (r: seq<Item>)
    requires n <= |MemDown(items)|
    ensures MemDown(r) == MemDown(items)[n..] && Total(r) == Total(items)
  {
    var all := MemDown(items);
    KeepDown(items, |all| - n);
    KeepTotal(items, |all| - n);
    PutMark(Keep(items, |all| - n), Mark(all[..n]));
    Put(Keep(items, |all| - n), Mark(all[..n]))
  }

  /** Spill block after block until `need` bytes are available; none when the farthest match in
      memory does not fit a block, or there is none, before that. */
  function RoomFor(items: seq<Item>, lim: Limits, need: nat): (r: Option<seq<Item>>)
    ensures r.Some? ==> Total(r.value) == Total(items)
    decreases |MemDown(items)|
  {
    if need <= Max(lim.useful - 60 * Used(items), 0) then Some(items)
    else
      var n := Fitting(MemDown(items), 0, lim.vs);
      if n == 0 then None else RoomFor(Spill(items, n), lim, need)
  }

  /** Bringing the nearest block back, which needs room for a whole one. */
  function BringBack(items: seq<Item>, lim: Limits): (r: Option<seq<Item>>)
    requires items != [] && items[0].Mark?
    ensures r.Some? ==> Total(r.value) == Total(items)
  {
    match RoomFor(items[1..], lim, lim.vs)
    case None => None
    case Some(rest) => Some(PutAll(rest, items[0].ms))
  }

  /** Copying what is due before `hi`: the nearest match is taken out, the nearest block brought
      back. `back` says that a block has just been brought back, after which a match comes first. */
  function CopyOut(items: seq<Item>, hi: nat, lim: Limits, back: bool): Option<seq<Item>>
    decreases Total(items), !back
  {
    if items == [] || items[0].Key() >= hi then Some(items)
    else match items[0]
      case Mem(_) => CopyOut(items[1..], hi, lim, false)
      case Mark(ms) =>
        if back then Some(items)
        else match BringBack(items, lim)
          case None => None
          case Some(more) => CopyOut(more, hi, lim, true)
  }

  /** Queueing match `p` for a later block, with its bytes unless they are to be reread. */
  function Queue(items: seq<Item>, p: Piece, hi: nat, maximumSave: u32, lim: Limits): Option<seq<Item>> {
    if p.dest < hi || p.len >= maximumSave then Some(items)
    else match RoomFor(items, lim, p.len)
      case None => None
      case Some(rest) => Some(Put(rest, Mem(Held(p.dest, p.len))))
  }

  function QueueAll(items: seq<Item>, ps: seq<Piece>, hi: nat, maximumSave: u32, lim: Limits): Option<seq<Item>> {
    if ps == [] then Some(items)
    else match QueueAll(items, ps[..|ps| - 1], hi, maximumSave, lim)
      case None => None
      case Some(more) => Queue(more, ps[|ps| - 1], hi, maximumSave, lim)
  }

  /** One block, ending at `hi`, with the list `ps`. */
  function Block(items: seq<Item>, ps: seq<Piece>, hi: nat, maximumSave: u32, lim: Limits): Option<seq<Item>> {
    match CopyOut(items, hi, lim, false)
    case None => None
    case Some(rest) => QueueAll(rest, ps, hi, maximumSave, lim)
  }

  /** All blocks, from empty memory; none when one of them stalls. */
  function Blocks(lists: seq<seq<Piece>>, ends: seq<nat>, maximumSave: u32, lim: Limits): Option<seq<Item>>
    requires |lists| == |ends|
  {
    if lists == [] then Some([])
    else
      var n := |lists| - 1;
      match Blocks(lists[..n], ends[..n], maximumSave, lim)
      case None => None
      case Some(items) => Block(items, lists[n], ends[n], maximumSave, lim)
  }

  // ---- the parts ----

  lemma {:induction false} PutMark(items: seq<Item>, x: Item)
    requires x.Mark?
    ensures MemDown(Put(items, x)) == MemDown(items)
  {
    if items == [] {
      assert [x][1..] == [];
    } else if x.Key() < items[0].Key() {
      assert ([x] + items)[1..] == items;
    } else {
      PutMark(items[1..], x);
      assert ([items[0]] + Put(items[1..], x))[1..] == Put(items[1..], x);
    }
  }

  lemma Front(x: Item, items: seq<Item>, k: nat)
    ensures MemDown([x] + items) == MemDown(items) + if x.Mem? then [x.m] else []
    ensures Keep([x] + items, k) == if x.Mark? then [x] + Keep(items, k) else if k > 0 then [x] + Keep(items, k - 1) else Keep(items, 0)
  {
    assert ([x] + items)[1..] == items;
  }

  /** The nearest matches are the last of the list. */
  lemma {:induction false} KeepDown(items: seq<Item>, k: nat)
    requires k <= |MemDown(items)|
    ensures MemDown(Keep(items, k)) == MemDown(items)[|MemDown(items)| - k..]
  {
    if items != [] {
      var rest := MemDown(items[1..]);
      if items[0].Mark? {
        KeepDown(items[1..], k);
        assert ([items[0]] + Keep(items[1..], k))[1..] == Keep(items[1..], k);
      } else if k > 0 {
        KeepDown(items[1..], k - 1);
        assert ([items[0]] + Keep(items[1..], k - 1))[1..] == Keep(items[1..], k - 1);
        assert MemDown(items) == rest + [items[0].m];
      } else {
        KeepDown(items[1..], 0);
      }
    }
  }

  lemma {:induction false} KeepTotal(items: seq<Item>, k: nat)
    requires k <= |MemDown(items)|
    ensures Total(Keep(items, k)) == Total(items) - |MemDown(items)| + k
  {
    if items != [] {
      if items[0].Mark? {
        KeepTotal(items[1..], k);
        assert ([items[0]] + Keep(items[1..], k))[1..] == Keep(items[1..], k);
      } else if k > 0 {
        KeepTotal(items[1..], k - 1);
        assert ([items[0]] + Keep(items[1..], k - 1))[1..] == Keep(items[1..], k - 1);
      } else {
        KeepTotal(items[1..], 0);
      }
    }
  }

  lemma {:induction false} KeepKeep(items: seq<Item>, a: nat, b: nat)
    requires b <= a
    ensures Keep(Keep(items, a), b) == Keep(items, b)
  {
    if items != [] {
      if items[0].Mark? {
        KeepKeep(items[1..], a, b);
        assert ([items[0]] + Keep(items[1..], a))[1..] == Keep(items[1..], a);
      } else if a > 0 {
        assert ([items[0]] + Keep(items[1..], a - 1))[1..] == Keep(items[1..], a - 1);
        KeepKeep(items[1..], a - 1, if b > 0 then b - 1 else 0);
      } else {
        KeepKeep(items[1..], 0, 0);
      }
    }
  }

  lemma {:induction false} KeepAll(items: seq<Item>, k: nat)
    requires k >= |MemDown(items)|
    ensures Keep(items, k) == items
  {
    if items != [] {
      KeepAll(items[1..], if items[0].Mark? then k else k - 1);
    }
  }

  function HeldChunks(ms: seq<Held>): nat {
    if ms == [] then 0 else HeldChunks(ms[..|ms| - 1]) + ChunksFor(ms[|ms| - 1].len)
  }

  lemma {:induction false} HeldAppend(a: seq<Held>, b: seq<Held>)
    ensures HeldChunks(a + b) == HeldChunks(a) + HeldChunks(b)
  {
    if b == [] {
      assert a + b == a;
    } else {
      var n := |b| - 1;
      HeldAppend(a, b[..n]);
      assert (a + b)[..|a + b| - 1] == a + b[..n];
    }
  }

  /** The chunks in use are those of the matches in memory. */
  lemma {:induction false} UsedDown(items: seq<Item>)
    ensures Used(items) == HeldChunks(MemDown(items))
  {
    if items != [] {
      UsedDown(items[1..]);
      if items[0].Mem? {
        HeldAppend(MemDown(items[1..]), [items[0].m]);
        assert [items[0].m][..0] == [];
      } else {
        assert MemDown(items) == MemDown(items[1..]);
      }
    }
  }

  lemma UsedSpill(items: seq<Item>, n: nat)
    requires n <= |MemDown(items)|
    ensures Used(Spill(items, n)) == Used(items) - HeldChunks(MemDown(items)[..n])
  {
    hide Spill, Used, MemDown, HeldChunks;
    var all := MemDown(items);
    UsedDown(items);
    UsedDown(Spill(items, n));
    assert all[..n] + all[n..] == all;
    HeldAppend(all[..n], all[n..]);
  }

  // ---- a block in front ----

  /** No match in memory is due before `key`. */
  ghost predicate NoneBefore(items: seq<Item>, key: nat) {
    forall m :: m in MemDown(items) ==> key <= m.dest
  }

  lemma SpillBehind(x: Item, items: seq<Item>, n: nat)
    requires x.Mark? && NoneBefore(items, x.Key()) && 0 < n <= |MemDown(items)|
    ensures MemDown([x] + items) == MemDown(items) && Spill([x] + items, n) == [x] + Spill(items, n)
    ensures NoneBefore(Spill(items, n), x.Key()) && Used([x] + items) == Used(items)
  {
    hide Used, MemDown, Keep, Put, Spill;
    MarkFirst(x, items);
    var all, k := MemDown(items), |MemDown(items)| - n;
    SpillIs(items, n);
    SpillIs([x] + items, n);
    KeepBehind(x, items, k);
    var y := Mark(all[..n]);
    assert y.Key() == all[n - 1].dest && all[n - 1] in all;
    PutBehind(x, Keep(items, k), y);
    forall m | m in all[n..] ensures x.Key() <= m.dest {
      assert m in all;
    }
  }

  lemma SpillIs(items: seq<Item>, n: nat)
    requires n <= |MemDown(items)|
    ensures Spill(items, n) == Put(Keep(items, |MemDown(items)| - n), Mark(MemDown(items)[..n]))
  {
    hide Put, Keep, MemDown;
  }

  lemma KeepBehind(x: Item, items: seq<Item>, k: nat)
    requires x.Mark?
    ensures Keep([x] + items, k) == [x] + Keep(items, k)
  {
    assert ([x] + items)[1..] == items;
  }

  lemma PutBehind(x: Item, items: seq<Item>, y: Item)
    requires x.Key() <= y.Key()
    ensures Put([x] + items, y) == [x] + Put(items, y)
  {
    assert ([x] + items)[1..] == items;
  }

  /** A block due before all matches in memory is not in the way of spilling them. */
  lemma {:induction false} RoomBehind(x: Item, items: seq<Item>, lim: Limits, need: nat)
    requires x.Mark? && NoneBefore(items, x.Key())
    ensures var r := RoomFor(items, lim, need);
            RoomFor([x] + items, lim, need) == if r.None? then None else Some([x] + r.value)
    decreases |MemDown(items)|
  {
    hide Spill, Used, Keep, Put;
    var n := Fitting(MemDown(items), 0, lim.vs);
    if n > 0 {
      SpillBehind(x, items, n);
      RoomBehind(x, Spill(items, n), lim, need);
    } else {
      MarkFirst(x, items);
    }
  }

  lemma MarkFirst(x: Item, items: seq<Item>)
    requires x.Mark?
    ensures MemDown([x] + items) == MemDown(items) && Used([x] + items) == Used(items)
  {
    assert ([x] + items)[1..] == items;
  }

  // ---- once stalled ----

  lemma {:induction false} QueueStalled(items: seq<Item>, ps: seq<Piece>, n: nat, hi: nat, maximumSave: u32, lim: Limits)
    requires n <= |ps| && QueueAll(items, ps[..n], hi, maximumSave, lim).None?
    ensures QueueAll(items, ps, hi, maximumSave, lim).None?
    decreases |ps|
  {
    if n < |ps| {
      var qs := ps[..|ps| - 1];
      assert qs[..n] == ps[..n];
      QueueStalled(items, qs, n, hi, maximumSave, lim);
    } else {
      assert ps[..n] == ps;
    }
  }

  lemma {:induction false} BlocksStalled(lists: seq<seq<Piece>>, ends: seq<nat>, n: nat, maximumSave: u32, lim: Limits)
    requires |lists| == |ends| && n <= |lists| && Blocks(lists[..n], ends[..n], maximumSave, lim).None?
    ensures Blocks(lists, ends, maximumSave, lim).None?
    decreases |lists|
  {
    if n < |lists| {
      var m := |lists| - 1;
      assert lists[..m][..n] == lists[..n] && ends[..m][..n] == ends[..n];
      BlocksStalled(lists[..m], ends[..m], n, maximumSave, lim);
    } else {
      assert lists[..n] == lists && ends[..n] == ends;
    }
  }

  /** After a match has come first, it does not matter whether a block was just brought back. */
  lemma BackOnce(items: seq<Item>, hi: nat, lim: Limits)
    requires items != [] && items[0].Mem?
    ensures CopyOut(items, hi, lim, true) == CopyOut(items, hi, lim, false)
  {
  }
}
