/** The saved matches and spilled blocks that the ordered heap stands for, nearest first. */
module HeapItems {
  import opened MatchHeap
  import opened PendingModel
  import opened SpillModel

  /** The records of each spilled block, in block order. */
  type FileLayout = map<nat, seq<Rec>>

  ghost function RecHelds(rs: seq<Rec>): seq<Held> {
    seq(|rs|, i requires 0 <= i < |rs| => Held(rs[i].dest, |rs[i].data|))
  }

  ghost function HeldsOf(es: seq<HeapEntry>): seq<Held> {
    seq(|es|, i requires 0 <= i < |es| => Held(es[i].dest, es[i].len))
  }

  /** A mark stands for its block; a match without saved bytes takes no memory. */
  ghost function ItemOf(e: HeapEntry, layout: FileLayout): seq<Item> {
    if e.IsMarkingPoint() then [Mark(if e.src in layout then RecHelds(layout[e.src]) else [])]
    else if e.index != 0 then [Mem(Held(e.dest, e.len))]
    else []
  }

  ghost function Items(s: seq<HeapEntry>, layout: FileLayout): seq<Item> {
    if s == [] then [] else ItemOf(s[0], layout) + Items(s[1..], layout)
  }

  /** The saved matches of a sorted list, the farthest first. */
  ghost function SavedDown(s: seq<HeapEntry>): seq<HeapEntry> {
    if s == [] then [] else SavedDown(s[1..]) + if s[0].index == 0 then [] else [s[0]]
  }

  /** A mark is due with the nearest match of its block. */
  ghost predicate MarkFits(e: HeapEntry, layout: FileLayout) {
    e.IsMarkingPoint() ==>
      && e.index == 0 && e.src in layout && layout[e.src] != []
      && layout[e.src][|layout[e.src]| - 1].dest == e.dest
  }

  ghost predicate Marked(s: seq<HeapEntry>, layout: FileLayout) {
    forall e :: e in s ==> MarkFits(e, layout)
  }

  lemma MarkedTail(s: seq<HeapEntry>, layout: FileLayout)
    requires s != [] && Marked(s, layout)
    ensures MarkFits(s[0], layout) && Marked(s[1..], layout)
  {
    hide MarkFits;
  }

  lemma SortedTail(s: seq<HeapEntry>)
    requires s != [] && Sorted(s)
    ensures Sorted(s[1..]) && forall e :: e in s[1..] ==> s[0].Before(e)
  {
  }

  lemma {:induction false} ItemsDown(s: seq<HeapEntry>, layout: FileLayout)
    requires Marked(s, layout)
    ensures MemDown(Items(s, layout)) == HeldsOf(SavedDown(s))
  {
    if s == [] {
      assert HeldsOf([]) == [];
    } else {
      MarkedTail(s, layout);
      ItemsDown(s[1..], layout);
      ItemsNext(s, layout);
      var a, b := SavedDown(s[1..]), if s[0].index == 0 then [] else [s[0]];
      assert SavedDown(s) == a + b;
      hide Marked, Items, MemDown, SavedDown, RecHelds;
      var rest, y := Items(s[1..], layout), ItemOf(s[0], layout);
      HeldsApart(a, b);
      if y == [] {
        assert y + rest == rest && b == [];
      } else {
        assert y == [y[0]];
        Front(y[0], rest, 0);
      }
    }
  }

  lemma HeldsApart(a: seq<HeapEntry>, b: seq<HeapEntry>)
    ensures HeldsOf(a + b) == HeldsOf(a) + HeldsOf(b)
  {
  }

  /** The first item is an entry of the list, saved or a mark. */
  lemma {:induction false} FirstItem(s: seq<HeapEntry>, layout: FileLayout) returns (e: HeapEntry)
    requires Marked(s, layout) && Items(s, layout) != []
    ensures e in s && ItemOf(e, layout) == [Items(s, layout)[0]] && Items(s, layout)[0].Key() == e.dest
  {
    MarkedTail(s, layout);
    if ItemOf(s[0], layout) != [] {
      e := s[0];
    } else {
      e := FirstItem(s[1..], layout);
    }
  }

  lemma KeyOf(e: HeapEntry, layout: FileLayout)
    requires MarkFits(e, layout) && ItemOf(e, layout) != []
    ensures |ItemOf(e, layout)| == 1 && ItemOf(e, layout)[0].Key() == e.dest
  {
  }

  // ---- inserting ----

  lemma {:induction false} InsertItem(s: seq<HeapEntry>, e: HeapEntry, layout: FileLayout)
    requires Sorted(s) && Marked(s, layout) && MarkFits(e, layout) && (forall f :: f in s ==> f.serial < e.serial) && ItemOf(e, layout) != []
    ensures Items(Inserted(s, e), layout) == Put(Items(s, layout), ItemOf(e, layout)[0])
  {
    KeyOf(e, layout);
    if s == [] {
      assert [e][1..] == [];
    } else if e.Before(s[0]) {
      assert ([e] + s)[1..] == s;
      PutBefore(s, e, layout);
    } else {
      MarkedTail(s, layout);
      SortedTail(s);
      hide MarkFits, Marked, Sorted;
      InsertItem(s[1..], e, layout);
      var t := Inserted(s[1..], e);
      assert ([s[0]] + t)[1..] == t;
      PutAfter(s, e, layout);
    }
  }

  lemma {:induction false} PutBefore(s: seq<HeapEntry>, e: HeapEntry, layout: FileLayout)
    requires s != [] && Sorted(s) && Marked(s, layout) && MarkFits(e, layout) && ItemOf(e, layout) != []
    requires e.Before(s[0]) && s[0].serial < e.serial
    ensures Put(Items(s, layout), ItemOf(e, layout)[0]) == [ItemOf(e, layout)[0]] + Items(s, layout)
  {
    KeyOf(e, layout);
    if Items(s, layout) != [] {
      var f := FirstItem(s, layout);
      hide Items, ItemOf, MarkFits, Marked;
      assert f == s[0] || s[0].Before(f);
    }
  }

  lemma {:induction false} PutAfter(s: seq<HeapEntry>, e: HeapEntry, layout: FileLayout)
    requires s != [] && MarkFits(s[0], layout) && MarkFits(e, layout) && ItemOf(e, layout) != []
    requires !e.Before(s[0]) && s[0].serial < e.serial
    ensures ItemOf(s[0], layout) + Put(Items(s[1..], layout), ItemOf(e, layout)[0]) == Put(Items(s, layout), ItemOf(e, layout)[0])
  {
    KeyOf(e, layout);
    var rest, y := Items(s[1..], layout), ItemOf(s[0], layout);
    if y == [] {
      assert Items(s, layout) == rest;
    } else {
      KeyOf(s[0], layout);
      hide ItemOf, MarkFits;
      assert (y + rest)[1..] == rest && (y + rest)[0] == y[0];
      assert y == [y[0]];
    }
  }

  /** A match without saved bytes adds nothing. */
  lemma {:induction false} InsertPlain(s: seq<HeapEntry>, e: HeapEntry, layout: FileLayout)
    requires ItemOf(e, layout) == []
    ensures Items(Inserted(s, e), layout) == Items(s, layout)
  {
    if s == [] {
      assert [e][1..] == [];
    } else if e.Before(s[0]) {
      assert ([e] + s)[1..] == s;
    } else {
      InsertPlain(s[1..], e, layout);
      var t := Inserted(s[1..], e);
      assert ([s[0]] + t)[1..] == t;
    }
  }

  lemma {:induction false} InsertedHas(s: seq<HeapEntry>, e: HeapEntry)
    ensures forall f :: f in Inserted(s, e) <==> f == e || f in s
  {
    InsertedElems(s, e);
    forall f ensures f in Inserted(s, e) <==> f == e || f in s {
      assert f in Elems(Inserted(s, e)) <==> f in Elems(s) + {e};
    }
  }

  lemma MarkedInsert(s: seq<HeapEntry>, e: HeapEntry, layout: FileLayout)
    requires Marked(s, layout) && MarkFits(e, layout)
    ensures Marked(Inserted(s, e), layout)
  {
    InsertedHas(s, e);
    hide MarkFits;
  }

  // ---- removing ----

  /** Taking out the farthest saved match leaves the others. */
  lemma {:induction false} RemoveFarthest(s: seq<HeapEntry>, e: HeapEntry, layout: FileLayout)
    requires Sorted(s) && Marked(s, layout) && SavedDown(s) != [] && e == SavedDown(s)[0]
    ensures SavedDown(Removed(s, e)) == SavedDown(s)[1..]
    ensures Items(Removed(s, e), layout) == Keep(Items(s, layout), |SavedDown(s)| - 1)
  {
    hide RecHelds, HeldsOf, MarkFits;
    SavedIn(s, e);
    MarkedTail(s, layout);
    if s[0].SameKey(e) {
      assert s[0] == e;
      if SavedDown(s[1..]) != [] { SavedIn(s[1..], e); }
      LastSaved(s, layout);
    } else {
      SavedTail(s, e);
      SortedTail(s);
      assert Removed(s, e) == [s[0]] + Removed(s[1..], e);
      hide Sorted, Marked, SavedDown, Items, Keep, Removed, ItemOf;
      RemoveFarthest(s[1..], e, layout);
      InFront(s[0], Removed(s[1..], e), layout);
      InFront(s[0], s[1..], layout);
      assert [s[0]] + s[1..] == s;
      KeepTail(s, layout);
    }
  }

  lemma {:induction false} LastSaved(s: seq<HeapEntry>, layout: FileLayout)
    requires s != [] && Marked(s, layout) && SavedDown(s[1..]) == [] && s[0].index != 0
    ensures Items(s[1..], layout) == Keep(Items(s, layout), 0) && |SavedDown(s)| == 1
  {
    MarkedTail(s, layout);
    ItemsDown(s[1..], layout);
    var rest := Items(s[1..], layout);
    hide Items, Marked;
    KeepAll(rest, 0);
    assert Items(s, layout) == ItemOf(s[0], layout) + rest by { ItemsNext(s, layout); }
    assert ([Mem(Held(s[0].dest, s[0].len))] + rest)[1..] == rest;
  }

  lemma {:induction false} InFront(e: HeapEntry, s: seq<HeapEntry>, layout: FileLayout)
    ensures Items([e] + s, layout) == ItemOf(e, layout) + Items(s, layout)
    ensures SavedDown([e] + s) == SavedDown(s) + if e.index == 0 then [] else [e]
  {
    assert ([e] + s)[1..] == s;
  }

  lemma ItemsNext(s: seq<HeapEntry>, layout: FileLayout)
    requires s != []
    ensures Items(s, layout) == ItemOf(s[0], layout) + Items(s[1..], layout)
  {
  }

  lemma {:induction false} KeepTail(s: seq<HeapEntry>, layout: FileLayout)
    requires s != [] && MarkFits(s[0], layout) && SavedDown(s[1..]) != []
    ensures ItemOf(s[0], layout) + Keep(Items(s[1..], layout), |SavedDown(s[1..])| - 1) == Keep(Items(s, layout), |SavedDown(s)| - 1)
  {
    var k := |SavedDown(s[1..])| - 1;
    assert |SavedDown(s)| == k + 1 + if s[0].index == 0 then 0 else 1;
    hide SavedDown, RecHelds, Items, Keep;
    ItemsNext(s, layout);
    var rest, y := Items(s[1..], layout), ItemOf(s[0], layout);
    if y == [] {
      assert y + rest == rest;
    } else {
      assert y == [y[0]];
      Front(y[0], rest, |SavedDown(s)| - 1);
    }
  }

  lemma SavedTail(s: seq<HeapEntry>, e: HeapEntry)
    requires SavedDown(s) != [] && e == SavedDown(s)[0] && e != s[0]
    ensures SavedDown(s[1..]) != [] && SavedDown(s[1..])[0] == e
  {
  }

  lemma {:induction false} SavedIn(s: seq<HeapEntry>, e: HeapEntry)
    requires e in SavedDown(s)
    ensures e in s && e.index != 0
  {
    if s[0].index == 0 || e != s[0] { SavedIn(s[1..], e); }
  }

  lemma {:induction false} AllSavedIn(s: seq<HeapEntry>, e: HeapEntry)
    requires e in s && e.index != 0
    ensures e in SavedDown(s)
  {
    if e != s[0] { AllSavedIn(s[1..], e); }
  }

  lemma RemovedHas(s: seq<HeapEntry>, e: HeapEntry)
    requires Sorted(s) && e in s
    ensures forall f :: f in Removed(s, e) ==> f in s
  {
    RemovedElems(s, e);
    forall f | f in Removed(s, e) ensures f in s {
      assert f in Elems(Removed(s, e));
    }
  }

  /** The first entry taken out. */
  lemma RemoveFirst(s: seq<HeapEntry>, layout: FileLayout)
    requires s != []
    ensures Removed(s, s[0]) == s[1..]
    ensures Items(s, layout) == ItemOf(s[0], layout) + Items(s[1..], layout)
  {
  }

  /** An entry in front of a sorted list stays there. */
  lemma InsertBehind(s: seq<HeapEntry>, e: HeapEntry)
    requires s != [] && !e.Before(s[0])
    ensures Inserted(s, e) == [s[0]] + Inserted(s[1..], e)
  {
  }

  /** The entry before all others is the first. */
  lemma FirstEntry(s: seq<HeapEntry>, e: HeapEntry)
    requires Sorted(s) && e in s && forall f :: f in s && f != e ==> e.Before(f)
    ensures s[0] == e
  {
    assert s[0] in s;
  }

  /** With a saved match before all marks, a match comes first. */
  lemma {:induction false} MatchComesFirst(s: seq<HeapEntry>, e: HeapEntry, layout: FileLayout)
    requires Sorted(s) && Marked(s, layout) && e in s && e.index != 0 && !e.IsMarkingPoint()
    requires forall n :: n in s && n.IsMarkingPoint() ==> e.dest < n.dest
    ensures Items(s, layout) != [] && Items(s, layout)[0].Mem?
  {
    MarkedTail(s, layout);
    if s[0] != e {
      SortedTail(s);
      assert e in s[1..];
      hide Sorted, Marked, MarkFits;
      MatchComesFirst(s[1..], e, layout);
    }
  }

  // ---- changing the VM file ----

  /** Blocks without a mark do not matter. */
  lemma {:induction false} OtherBlocks(s: seq<HeapEntry>, layout: FileLayout, layout': FileLayout)
    requires forall e :: e in s && e.IsMarkingPoint() ==> e.src in layout && e.src in layout' && layout[e.src] == layout'[e.src]
    ensures Items(s, layout) == Items(s, layout')
    ensures Marked(s, layout) ==> Marked(s, layout')
  {
    hide RecHelds;
    if s != [] {
      OtherBlocks(s[1..], layout, layout');
      ItemsNext(s, layout);
      ItemsNext(s, layout');
      hide Items;
      SameMarks(s, layout, layout');
    }
  }

  lemma {:induction false} SameMarks(s: seq<HeapEntry>, layout: FileLayout, layout': FileLayout)
    requires forall e :: e in s && e.IsMarkingPoint() ==> e.src in layout && e.src in layout' && layout[e.src] == layout'[e.src]
    ensures Marked(s, layout) ==> Marked(s, layout')
    ensures s != [] ==> ItemOf(s[0], layout) == ItemOf(s[0], layout')
  {
  }

  /** No match in memory is due before the first entry. */
  lemma NoneBeforeFirst(s: seq<HeapEntry>, layout: FileLayout, key: nat)
    requires Sorted(s) && Marked(s, layout) && forall e :: e in s ==> key <= e.dest
    ensures NoneBefore(Items(s, layout), key)
  {
    ItemsDown(s, layout);
    var all := SavedDown(s);
    forall m | m in MemDown(Items(s, layout)) ensures key <= m.dest {
      var i :| 0 <= i < |HeldsOf(all)| && HeldsOf(all)[i] == m;
      SavedIn(s, all[i]);
    }
  }
}
