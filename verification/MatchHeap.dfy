/** The decoder's collection of pending matches, ordered by destination. */
module MatchHeap {
  import opened Bytes

  /** A pending match, a marking point for a spilled block (length 0, `src` the block),
      or the barrier (largest destination). `serial` keeps equal destinations apart. */
  datatype HeapEntry = HeapEntry(src: nat, dest: u64, len: u32, index: u32, serial: nat) {
    predicate IsMarkingPoint() { len == 0 }

    predicate IsBarrier() { dest == U64_MAX }

    /** A match still to be copied to the output. */
    predicate IsLive() { len > 0 && dest < U64_MAX && src <= U64_MAX }

    predicate Before(e: HeapEntry) {
      dest < e.dest || (dest == e.dest && serial < e.serial)
    }

    predicate SameKey(e: HeapEntry) {
      dest == e.dest && serial == e.serial
    }
  }

  predicate Sorted(s: seq<HeapEntry>) {
    forall i, j :: 0 <= i < j < |s| ==> s[i].Before(s[j])
  }

  ghost function Elems(s: seq<HeapEntry>): set<HeapEntry> {
    set e | e in s
  }

  /** Ordered insertion and removal by key, as an ordered set does them. */
  function Inserted(s: seq<HeapEntry>, e: HeapEntry): (r: seq<HeapEntry>)
    ensures |r| == |s| + 1
  {
    if s == [] then [e]
    else if e.Before(s[0]) then [e] + s
    else [s[0]] + Inserted(s[1..], e)
  }

  function Removed(s: seq<HeapEntry>, e: HeapEntry): seq<HeapEntry> {
    if s == [] then []
    else if s[0].SameKey(e) then s[1..]
    else [s[0]] + Removed(s[1..], e)
  }

  lemma {:induction false} InsertedElems(s: seq<HeapEntry>, e: HeapEntry)
    ensures Elems(Inserted(s, e)) == Elems(s) + {e}
  {
    if s != [] {
      assert Elems(s) == {s[0]} + Elems(s[1..]);
      if !e.Before(s[0]) {
        InsertedElems(s[1..], e);
        assert Elems([s[0]] + Inserted(s[1..], e)) == {s[0]} + Elems(Inserted(s[1..], e));
      }
    }
  }

  lemma {:induction false} InsertedSorted(s: seq<HeapEntry>, e: HeapEntry)
    requires Sorted(s) && forall x :: x in s ==> !x.SameKey(e)
    ensures Sorted(Inserted(s, e))
  {
    if s != [] && !e.Before(s[0]) {
      InsertedSorted(s[1..], e);
      InsertedElems(s[1..], e);
      var t := Inserted(s[1..], e);
      assert s[0] in s && s[0].Before(e);
      forall j | 0 <= j < |t| ensures s[0].Before(t[j]) {
        assert t[j] in Elems(t);
        if t[j] != e { assert t[j] in s[1..]; }
      }
    }
  }

  lemma {:induction false} RemovedElems(s: seq<HeapEntry>, e: HeapEntry)
    requires Sorted(s) && e in s
    ensures Sorted(Removed(s, e)) && Elems(Removed(s, e)) == Elems(s) - {e}
  {
    if s[0].SameKey(e) {
      assert s[0] == e;
      assert Elems(s) == {s[0]} + Elems(s[1..]);
    } else {
      assert e in s[1..];
      RemovedElems(s[1..], e);
      var t := Removed(s[1..], e);
      forall j | 0 <= j < |t| ensures s[0].Before(t[j]) {
        assert t[j] in Elems(t);
        assert t[j] in s[1..];
      }
      assert Elems([s[0]] + t) == {s[0]} + Elems(t);
      assert Elems(s) == {s[0]} + Elems(s[1..]);
    }
  }

  class LzMatchHeap {
    var entries: seq<HeapEntry>
    var serialCounter: nat

    ghost predicate Valid()
      reads this
    {
      && Sorted(entries)
      && forall e :: e in entries ==> e.serial < serialCounter
    }

    ghost function Contents(): set<HeapEntry>
      reads this
    {
      Elems(entries)
    }

    constructor ()
      ensures Valid() && Contents() == {}
    {
      entries, serialCounter := [], 0;
    }

    method Insert(e0: HeapEntry) returns (ghost e: HeapEntry)
      requires Valid()
      modifies this
      ensures Valid() && serialCounter == old(serialCounter) + 1
      ensures e == e0.(serial := old(serialCounter)) && e !in old(Contents())
      ensures Contents() == old(Contents()) + {e} && entries == Inserted(old(entries), e)
    {
      var x := e0.(serial := serialCounter);
      InsertedElems(entries, x);
      InsertedSorted(entries, x);
      entries := Inserted(entries, x);
      serialCounter := serialCounter + 1;
      e := x;
      forall y | y in entries ensures y.serial < serialCounter {
        assert y in Elems(entries);
      }
    }

    method Begin() returns (first: Option<HeapEntry>)
      requires Valid()
      ensures first.None? <==> Contents() == {}
      ensures first.Some? ==> first.value in Contents() && forall e :: e in Contents() && e != first.value ==> first.value.Before(e)
    {
      if entries == [] {
        first := None;
      } else {
        assert entries[0] in Contents();
        first := Some(entries[0]);
      }
    }

    method Remove(e: HeapEntry)
      requires Valid() && e in Contents()
      modifies `entries
      ensures Valid() && Contents() == old(Contents()) - {e} && entries == Removed(old(entries), e)
    {
      RemovedElems(entries, e);
      entries := Removed(entries, e);
      forall y | y in entries ensures y.serial < serialCounter {
        assert y in Elems(entries);
      }
    }

    method InsertBarrier() returns (ghost e: HeapEntry)
      requires Valid()
      modifies this
      ensures Valid() && Contents() == old(Contents()) + {e}
      ensures e.IsBarrier() && e.len == U32_MAX && e.index == 0
    {
      e := Insert(HeapEntry(U64_MAX, U64_MAX, U32_MAX, 0, 0));
    }
  }
}
