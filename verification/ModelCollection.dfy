/** The collection of src/devkit/data/ModelCollectionBase.cpp: a list whose batches of changes are
    announced as removed, added and changed indices. */
module ModelCollection {
  import opened Basics
  import opened StandardAlgorithms
  import opened ListMoves
  import opened ListReplay
  import opened BatchReplay

  /** An item owned by the collection: who it is, the position at which the observers were last told
      about it (or -1), and whether it reports its value changes to the collection. */
  datatype ModelItem = ModelItem(id: int, collectionIndex: int, watched: bool)

  function Ids(items: seq<ModelItem>): (r: seq<int>)
    ensures |r| == |items|
    ensures forall i :: 0 <= i < |items| ==> r[i] == items[i].id
  {
    seq(|items|, i requires 0 <= i < |items| => items[i].id)
  }

  function Stored(items: seq<ModelItem>): (r: seq<int>)
    ensures |r| == |items|
    ensures forall i :: 0 <= i < |items| ==> r[i] == items[i].collectionIndex
  {
    seq(|items|, i requires 0 <= i < |items| => items[i].collectionIndex)
  }

  ghost predicate KnownTo(base: seq<int>, item: ModelItem) {
    && -1 <= item.collectionIndex < |base|
    && (item.collectionIndex >= 0 ==> base[item.collectionIndex] == item.id)
    && (item.collectionIndex == -1 ==> item.id !in base)
  }

  ghost predicate DistinctIds(items: seq<ModelItem>) {
    forall i, j :: 0 <= i < j < |items| ==> items[i].id != items[j].id
  }

  /** `items` holds the live items, then the removed ones; `base` lists the items the observers know. */
  ghost predicate Consistent(items: seq<ModelItem>, size: nat, base: seq<int>) {
    && size <= |items|
    && DistinctIds(items)
    && (forall i :: 0 <= i < |items| ==> KnownTo(base, items[i]))
    && (forall k :: 0 <= k < |base| ==> k in Stored(items))
    && (forall i :: 0 <= i < size ==> (items[i].watched <==> items[i].collectionIndex >= 0))
    && (forall i :: size <= i < |items| ==> !items[i].watched)
  }

  // ----- Consistency under rearrangement

  lemma DistinctPermutes<T>(a: seq<T>, b: seq<T>)
    requires Distinct(a) && Permutation(a, b)
    ensures Distinct(b)
  {
    forall i, j | 0 <= i < j < |b| ensures b[i] != b[j] {
      if b[i] == b[j] {
        OccursTwice(b, i, j);
        assert b[i] in multiset(a);
        var k :| 0 <= k < |a| && a[k] == b[i];
        OccursOnce(a, k);
      }
    }
  }

  lemma PermutationMembers<T>(a: seq<T>, b: seq<T>)
    requires Permutation(a, b)
    ensures |a| == |b|
    ensures forall x :: x in a <==> x in b
  {
    assert |multiset(a)| == |multiset(b)|;
    forall x ensures x in a <==> x in b {
      assert x in multiset(a) <==> x in multiset(b);
    }
  }

  lemma DistinctIdsPermute(a: seq<ModelItem>, b: seq<ModelItem>)
    requires DistinctIds(a) && Permutation(a, b)
    ensures DistinctIds(b)
  {
    PermutationMembers(a, b);
    DistinctPermutes(a, b);
    forall i, j | 0 <= i < j < |b| ensures b[i].id != b[j].id {
      assert b[i] in a && b[j] in a;
      var k :| 0 <= k < |a| && a[k] == b[i];
      var l :| 0 <= l < |a| && a[l] == b[j];
      assert k != l;
    }
  }

  lemma PermutedWhole(items: seq<ModelItem>, moved: seq<ModelItem>, size: nat)
    requires size <= |items| && size <= |moved| && moved[size..] == items[size..]
    requires Permutation(moved[..size], items[..size])
    ensures Permutation(items, moved)
  {
    assert items == items[..size] + items[size..];
    assert moved == moved[..size] + moved[size..];
  }

  /** Rearranging the live items keeps the collection consistent. */
  lemma ConsistentPermutes(items: seq<ModelItem>, moved: seq<ModelItem>, size: nat, base: seq<int>)
    requires Consistent(items, size, base)
    requires size <= |moved| && moved[size..] == items[size..]
    requires Permutation(moved[..size], items[..size])
    ensures Consistent(moved, size, base)
  {
    PermutedWhole(items, moved, size);
    DistinctIdsPermute(items, moved);
    PermutationMembers(items, moved);
    forall k | 0 <= k < |base| ensures k in Stored(moved) {
      assert k in Stored(items);
      var i :| 0 <= i < |items| && Stored(items)[i] == k;
      assert items[i] in moved;
      var j :| 0 <= j < |moved| && moved[j] == items[i];
      assert Stored(moved)[j] == k;
    }
    PermutationMembers(moved[..size], items[..size]);
    forall i | 0 <= i < |moved| ensures KnownTo(base, moved[i]) {
      assert moved[i] in items;
    }
    forall i | 0 <= i < size ensures moved[i].watched <==> moved[i].collectionIndex >= 0 {
      assert moved[..size][i] in items[..size];
    }
    forall i | size <= i < |moved| ensures !moved[i].watched {
      assert moved[size..][i - size] == items[size..][i - size];
    }
  }

  /** A consistent collection describes a batch. */
  lemma ConsistentIsBatch(items: seq<ModelItem>, size: nat, base: seq<int>)
    requires Consistent(items, size, base)
    ensures Batch(base, Ids(items[..size]), Stored(items[..size]), Stored(items[size..]))
  {
    var all := Stored(items[..size]) + Stored(items[size..]);
    assert all == Stored(items);
    forall i, j | 0 <= i < j < |all| && all[i] == all[j] ensures all[i] == -1 {
      assert KnownTo(base, items[i]) && KnownTo(base, items[j]);
      assert items[i].id != items[j].id;
    }
    forall k | k in all ensures -1 <= k < |base| {
      var i :| 0 <= i < |all| && all[i] == k;
      assert KnownTo(base, items[i]);
    }
    forall i | 0 <= i < size && 0 <= Stored(items[..size])[i] < |base|
      ensures base[Stored(items[..size])[i]] == Ids(items[..size])[i] {
      assert KnownTo(base, items[i]);
    }
  }

  lemma BaseIsPresent(items: seq<ModelItem>, size: nat, base: seq<int>)
    requires Consistent(items, size, base)
    ensures |base| <= |items|
    ensures forall k :: 0 <= k < |base| ==> base[k] in Ids(items)
  {
    ConsistentIsBatch(items, size, base);
    OldItemsAddUp(base, Ids(items[..size]), Stored(items[..size]), Stored(items[size..]));
    forall k | 0 <= k < |base| ensures base[k] in Ids(items) {
      assert k in Stored(items);
      var i :| 0 <= i < |items| && Stored(items)[i] == k;
      assert KnownTo(base, items[i]);
      assert Ids(items)[i] == base[k];
    }
  }

  lemma IdsOfMoved(s: seq<ModelItem>, from: nat, to: nat)
    requires from < |s| && to < |s|
    ensures |MovedTo(s, from, to)| == |s|
    ensures Ids(MovedTo(s, from, to)) == MovedTo(Ids(s), from, to)
  {
    forall k | 0 <= k < |s| ensures MovedTo(s, from, to)[k].id == MovedTo(Ids(s), from, to)[k] {
      MovedToAt(s, from, to, k);
      MovedToAt(Ids(s), from, to, k);
    }
    MovedToPermutes(Ids(s), from, to);
  }

  class ModelCollectionBase {
    var items: seq<ModelItem>
    var size: nat
    var updateCount: nat
    /** What the observers have been told so far. */
    var events: seq<Event>
    /** The list as the observers know it. */
    ghost var base: seq<int>

    ghost predicate Valid()
      reads this
    {
      && Consistent(items, size, base)
      && (updateCount == 0 ==>
            size == |items| && base == Ids(items) && forall i :: 0 <= i < size ==> items[i].collectionIndex == i)
    }

    constructor ()
      ensures Valid() && items == [] && updateCount == 0 && events == []
    {
      items, size, updateCount, events := [], 0, 0, [];
      base := [];
    }

    // ----- Announcing a batch

    /** The stored indices of the removed items, largest first. */
    method DeletedIndices() returns (indices: seq<int>)
      requires size <= |items|
      ensures SortedDeletions(Stored(items[size..]), indices)
    {
      indices := [];
      var n := |items|;
      while n > size
        invariant size <= n <= |items|
        invariant multiset(indices) == multiset(Stored(items[n..]))
      {
        n := n - 1;
        assert Stored(items[n..]) == [items[n].collectionIndex] + Stored(items[n + 1..]);
        indices := indices + [items[n].collectionIndex];
      }
      var above := (a: int, b: int) => b < a;
      indices := Sort(indices, above);
    }

    /** Lowers one index by the number of deleted indices below it. */
    static method ShiftPast(start: int, indices: seq<int>) returns (index: int)
      ensures index == AfterRemoval(start, indices)
    {
      index := start;
      if indices != [] && index > indices[|indices| - 1] {
        for d := 0 to |indices|
          invariant ShiftIndex(index, indices[d..]) == ShiftIndex(start, indices)
        {
          assert indices[d..][1..] == indices[d + 1..];
          if indices[d] < index {
            index := index - 1;
          }
        }
      }
    }

    /** The items differ at most in the stored index. */
    static ghost predicate SameItems(a: seq<ModelItem>, b: seq<ModelItem>) {
      |a| == |b| && forall i :: 0 <= i < |a| ==> a[i].id == b[i].id && a[i].watched == b[i].watched
    }

    /** First pass: drops the removed items and lowers the stored indices of the others. */
    method DropRemoved() returns (ghost deleted: seq<int>)
      requires size <= |items|
      modifies this`items, this`events
      ensures SameItems(items, old(items[..size]))
      ensures SortedDeletions(old(Stored(items[size..])), deleted)
      ensures Stored(items) == AllAfterRemoval(old(Stored(items[..size])), deleted)
      ensures events == old(events) + Removals(deleted)
    {
      ghost var stored := Stored(items[..size]);
      if |items| > size {
        var indices := DeletedIndices();
        deleted := indices;
        assert |multiset(indices)| == |Stored(items[size..])|;
        items := items[..size];
        for n := 0 to |items|
          invariant SameItems(items, old(items[..size])) && events == old(events)
          invariant forall i :: 0 <= i < n ==> items[i].collectionIndex == AfterRemoval(stored[i], indices)
          invariant forall i :: n <= i < |items| ==> items[i].collectionIndex == stored[i]
        {
          var index := ShiftPast(items[n].collectionIndex, indices);
          items := items[n := items[n].(collectionIndex := index)];
        }
        events := events + [ItemsRemoved(indices)];
      } else {
        deleted := [];
        assert items[..size] == items;
        assert AllAfterRemoval(stored, []) == stored;
      }
    }

    static ghost function NewCount(stored: seq<int>, n: nat): nat
      requires n <= |stored|
    {
      |set k | 0 <= k < n && stored[k] == -1|
    }

    /** The index an item gets from the additions alone. */
    static ghost function Placed(stored: seq<int>, i: nat): int
      requires i < |stored|
    {
      if stored[i] == -1 then i else stored[i] + NewCount(stored, i)
    }

    static lemma NewCountStep(stored: seq<int>, n: nat)
      requires n < |stored|
      ensures NewCount(stored, n + 1) == NewCount(stored, n) + (if stored[n] == -1 then 1 else 0)
    {
      var before := set k | 0 <= k < n && stored[k] == -1;
      var after := set k | 0 <= k < n + 1 && stored[k] == -1;
      if stored[n] == -1 {
        assert after == before + {n};
      } else {
        assert after == before;
      }
    }

    static lemma {:induction false} NewPositionsStep(stored: seq<int>, n: nat)
      requires n < |stored|
      ensures NewPositions(stored[..n + 1]) == NewPositions(stored[..n]) + (if stored[n] == -1 then [n] else [])
      ensures |NewPositions(stored[..n])| == NewCount(stored, n)
    {
      assert stored[..n + 1][..n] == stored[..n];
      if n > 0 {
        NewPositionsStep(stored, n - 1);
        NewCountStep(stored, n - 1);
      }
    }

    static lemma MovedPositionsStep(stored: seq<int>, n: nat)
      requires n < |stored|
      ensures MovedPositions(stored[..n + 1]) ==
              MovedPositions(stored[..n]) + (if Placed(stored, n) != n then [n] else [])
    {
      assert stored[..n + 1][..n] == stored[..n];
      NewPositionsStep(stored, n);
    }

    /** Second pass: gives the new items their positions and moves the others up accordingly. */
    method IndexNew()
      modifies this`items, this`events
      ensures |items| == |old(items)|
      ensures forall i :: 0 <= i < |items| ==>
                            items[i].id == old(items)[i].id
                            && items[i].watched == (old(items)[i].watched || old(items)[i].collectionIndex == -1)
      ensures forall i :: 0 <= i < |items| ==> items[i].collectionIndex == Placed(old(Stored(items)), i)
      ensures events == old(events) + Additions(old(Stored(items)))
    {
      ghost var stored := Stored(items);
      var added: seq<int> := [];
      for n := 0 to |items|
        invariant |items| == |old(items)| && events == old(events)
        invariant added == NewPositions(stored[..n])
        invariant forall i :: 0 <= i < n ==> items[i].collectionIndex == Placed(stored, i)
        invariant forall i :: 0 <= i < n ==>
                                items[i].id == old(items)[i].id
                                && items[i].watched == (old(items)[i].watched || stored[i] == -1)
        invariant forall i :: n <= i < |items| ==> items[i] == old(items)[i]
      {
        NewPositionsStep(stored, n);
        if items[n].collectionIndex == -1 {
          items := items[n := items[n].(collectionIndex := n, watched := true)];
          added := added + [n];
        } else {
          items := items[n := items[n].(collectionIndex := items[n].collectionIndex + |added|)];
        }
      }
      assert stored[..|items|] == stored;
      if added != [] {
        events := events + [ItemsAdded(added)];
      }
    }

    /** Third pass: gives every other item its position. */
    method IndexMoved(ghost stored: seq<int>)
      requires |stored| == |items|
      requires forall i :: 0 <= i < |items| ==> items[i].collectionIndex == Placed(stored, i)
      modifies this`items, this`events
      ensures SameItems(items, old(items))
      ensures forall i :: 0 <= i < |items| ==> items[i].collectionIndex == i
      ensures events == old(events) + Changes(stored)
    {
      var changed: seq<int> := [];
      for n := 0 to |items|
        invariant SameItems(items, old(items)) && events == old(events)
        invariant changed == MovedPositions(stored[..n])
        invariant forall i :: 0 <= i < n ==> items[i].collectionIndex == i
        invariant forall i :: n <= i < |items| ==> items[i].collectionIndex == Placed(stored, i)
      {
        MovedPositionsStep(stored, n);
        if items[n].collectionIndex != n {
          items := items[n := items[n].(collectionIndex := n)];
          changed := changed + [n];
        }
      }
      assert stored[..|items|] == stored;
      if changed != [] {
        events := events + [ItemsChanged(changed)];
      }
    }

    static lemma NewStaysNew(gone: seq<int>, deleted: seq<int>, base: seq<int>)
      requires SortedDeletions(gone, deleted) && forall k :: k in gone ==> -1 <= k
      ensures AfterRemoval(-1, deleted) == -1
    {
      if deleted != [] {
        assert deleted[|deleted| - 1] in multiset(gone);
        assert deleted[|deleted| - 1] in gone;
      }
    }

    static lemma EveryoneIsWatched(all: seq<ModelItem>, size: nat, base: seq<int>, deleted: seq<int>,
                                   dropped: seq<ModelItem>, added: seq<ModelItem>)
      requires Consistent(all, size, base) && SortedDeletions(Stored(all[size..]), deleted)
      requires SameItems(dropped, all[..size]) && Stored(dropped) == AllAfterRemoval(Stored(all[..size]), deleted)
      requires |added| == |dropped|
      requires forall i :: 0 <= i < |added| ==>
                             added[i].watched == (dropped[i].watched || dropped[i].collectionIndex == -1)
      ensures forall i :: 0 <= i < |added| ==> added[i].watched
    {
      forall k | k in Stored(all[size..]) ensures -1 <= k {
        var i :| 0 <= i < |all[size..]| && Stored(all[size..])[i] == k;
        assert KnownTo(base, all[size + i]);
      }
      NewStaysNew(Stored(all[size..]), deleted, base);
      forall i | 0 <= i < |added| ensures added[i].watched {
        assert KnownTo(base, all[i]) && all[..size][i] == all[i];
        assert Stored(dropped)[i] == AfterRemoval(all[i].collectionIndex, deleted);
      }
    }

    static lemma IndexedIsConsistent(all: seq<ModelItem>, items: seq<ModelItem>, size: nat, base: seq<int>)
      requires Consistent(all, size, base)
      requires Ids(items) == Ids(all[..size])
      requires forall i :: 0 <= i < |items| ==> items[i].collectionIndex == i && items[i].watched
      ensures Consistent(items, size, Ids(items))
    {
      forall i | 0 <= i < |items| ensures items[i].id == all[i].id {
        assert Ids(items)[i] == Ids(all[..size])[i];
      }
      forall k | 0 <= k < |items| ensures k in Stored(items) {
        assert Stored(items)[k] == k;
      }
    }

    /** Announces the batch and makes every stored index the item's position again. */
    method UpdateIndices() returns (ghost deleted: seq<int>, ghost told: seq<Event>)
      requires Consistent(items, size, base)
      modifies this`items, this`events, this`base
      ensures Consistent(items, size, base)
      ensures Ids(items) == old(Ids(items[..size])) == base
      ensures forall i :: 0 <= i < |items| ==> items[i].collectionIndex == i
      ensures SortedDeletions(old(Stored(items[size..])), deleted)
              && told == Announce(old(Stored(items[..size])), deleted)
      ensures events == old(events) + told
      ensures Replay(old(base), told, Ids(items)) == Ids(items) <==>
              old(NoNewItemRemoved(Stored(items[size..])) || NoOldItemLeft(Stored(items[..size])))
    {
      ghost var all := items;
      ghost var live, gone := Stored(items[..size]), Stored(items[size..]);
      deleted := DropRemoved();
      ghost var dropped := items;
      IndexNew();
      ghost var added := items;
      IndexMoved(Stored(dropped));
      told := Announce(live, deleted);
      Regroup(old(events), Removals(deleted), Additions(Stored(dropped)));
      Regroup(old(events), Removals(deleted) + Additions(Stored(dropped)), Changes(Stored(dropped)));
      assert Ids(items) == Ids(all[..size]);
      ConsistentIsBatch(all, size, base);
      ReplayIsExact(base, Ids(items), live, gone, deleted);
      EveryoneIsWatched(all, size, base, deleted, dropped, added);
      IndexedIsConsistent(all, items, size, base);
      base := Ids(items);
    }

    method Settle()
      requires Consistent(items, size, base)
      requires updateCount == 0 ==> NoNewItemRemoved(Stored(items[size..]))
      modifies this`items, this`events, this`base
      ensures Valid() && Ids(items[..size]) == old(Ids(items[..size]))
      ensures updateCount == 0 ==>
                old(events) <= events && Replay(old(base), events[|old(events)|..], Ids(items)) == Ids(items)
      ensures updateCount > 0 ==> items == old(items) && events == old(events) && base == old(base)
    {
      if updateCount == 0 {
        ghost var deleted, told := UpdateIndices();
        assert items[..size] == items;
        assert events[|old(events)|..] == told;
      }
    }

    // ----- Changing the list

    static lemma StoredStays(before: seq<ModelItem>, size: nat, item: ModelItem, k: int)
      requires size <= |before| && k in Stored(before)
      ensures k in Stored(before[..size] + [item] + before[size..])
    {
      var items := before[..size] + [item] + before[size..];
      var i :| 0 <= i < |before| && Stored(before)[i] == k;
      var at := if i < size then i else i + 1;
      assert items[at] == before[i];
      assert Stored(items)[at] == k;
    }

    static lemma AddedIsConsistent(before: seq<ModelItem>, size: nat, base: seq<int>, item: ModelItem)
      requires Consistent(before, size, base)
      requires item.id !in Ids(before) && item.id !in base && item.collectionIndex == -1 && !item.watched
      ensures Consistent(before[..size] + [item] + before[size..], size + 1, base)
    {
      var items := before[..size] + [item] + before[size..];
      forall k | 0 <= k < |base| ensures k in Stored(items) {
        StoredStays(before, size, item, k);
      }
      forall i | 0 <= i < |items| ensures KnownTo(base, items[i]) {
        assert i != size ==> items[i] == before[if i < size then i else i - 1];
      }
      forall i | 0 <= i < size + 1 ensures items[i].watched <==> items[i].collectionIndex >= 0 {
        assert i < size ==> items[i] == before[i];
      }
      forall i | size + 1 <= i < |items| ensures !items[i].watched {
        assert items[i] == before[i - 1];
      }
    }

    /** Adds an item after the live ones; observers hear of it when the batch ends. */
    method AddItem(id: int)
      requires Valid() && id !in Ids(items)
      modifies this`items, this`size, this`events, this`base
      ensures Valid()
      ensures Ids(items[..size]) == old(Ids(items[..size])) + [id]
      ensures updateCount == 0 ==>
                old(events) <= events && Replay(old(base), events[|old(events)|..], Ids(items)) == Ids(items)
      ensures updateCount > 0 ==> items[size..] == old(items[size..]) && events == old(events) && base == old(base)
    {
      BaseIsPresent(items, size, base);
      ghost var before := items;
      var item := ModelItem(id, -1, false);
      items := items[..size] + [item] + items[size..];
      size := size + 1;
      AddedIsConsistent(before, size - 1, base, item);
      assert items[..size] == before[..size - 1] + [item];
      assert items[size..] == before[size - 1..];
      assert Ids(before[..size - 1] + [item]) == Ids(before[..size - 1]) + [id];
      Settle();
    }

    /** Moves the items from `to` on one place up, over the one at `from`. */
    method MakeRoomBelow(from: nat, to: nat)
      requires to < from < |items|
      modifies this`items
      ensures |items| == |old(items)|
      ensures forall k :: 0 <= k < |items| ==> items[k] == old(items)[if to < k <= from then k - 1 else k]
    {
      ghost var before := items;
      var n := from;
      while n > to
        invariant to <= n <= from < |items| == |before|
        invariant forall k :: 0 <= k <= n || from < k < |items| ==> items[k] == before[k]
        invariant forall k :: n < k <= from ==> items[k] == before[k - 1]
      {
        items := items[n := items[n - 1]];
        n := n - 1;
      }
    }

    /** Moves the items up to `to` one place down, over the one at `from`. */
    method MakeRoomAbove(from: nat, to: nat)
      requires from <= to < |items|
      modifies this`items
      ensures |items| == |old(items)|
      ensures forall k :: 0 <= k < |items| ==> items[k] == old(items)[if from <= k < to then k + 1 else k]
    {
      ghost var before := items;
      var n := from;
      while n < to
        invariant from <= n <= to < |items| == |before|
        invariant forall k :: 0 <= k < from || n <= k < |items| ==> items[k] == before[k]
        invariant forall k :: from <= k < n ==> items[k] == before[k + 1]
      {
        items := items[n := items[n + 1]];
        n := n + 1;
      }
    }

    method RotateItems(from: nat, to: nat)
      requires from < |items| && to < |items|
      modifies this`items
      ensures items == MovedTo(old(items), from, to)
    {
      ghost var before := items;
      var item := items[from];
      if to < from {
        MakeRoomBelow(from, to);
      } else {
        MakeRoomAbove(from, to);
      }
      items := items[to := item];
      MovedToPermutes(before, from, to);
      forall k | 0 <= k < |before| ensures items[k] == MovedTo(before, from, to)[k] {
        MovedToAt(before, from, to, k);
      }
    }

    method MoveItemInternal(from: nat, to: nat)
      requires Consistent(items, size, base) && from < size && to < size
      modifies this`items
      ensures Consistent(items, size, base)
      ensures items[to] == old(items[from])
      ensures items[size..] == old(items[size..])
      ensures Ids(items[..size]) == MovedTo(old(Ids(items[..size])), from, to)
    {
      ghost var before := items;
      if from != to {
        RotateItems(from, to);
      } else {
        assert MovedTo(items, from, to) == items;
      }
      MovedToPrefix(before, size, from, to);
      MovedToPermutes(before[..size], from, to);
      ConsistentPermutes(before, items, size, base);
      IdsOfMoved(before[..size], from, to);
      MovedToAt(before, from, to, to);
    }

    /** Moves an item; an index out of range changes nothing. */
    method MoveItem(from: int, to: int)
      requires Valid()
      modifies this`items, this`events, this`base
      ensures Valid()
      ensures Ids(items[..size]) ==
              if 0 <= from < size && 0 <= to < size then MovedTo(old(Ids(items[..size])), from, to)
              else old(Ids(items[..size]))
      ensures updateCount == 0 ==>
                old(events) <= events && Replay(old(base), events[|old(events)|..], Ids(items)) == Ids(items)
      ensures updateCount > 0 ==> items[size..] == old(items[size..]) && events == old(events) && base == old(base)
    {
      if from == to || from < 0 || from >= size || to < 0 || to >= size {
        assert 0 <= from == to < size ==> MovedTo(Ids(items[..size]), from, to) == Ids(items[..size]);
        return;
      }
      MoveItemInternal(from, to);
      Settle();
    }

    method MoveToEnd(index: nat)
      requires Consistent(items, size, base) && index < size
      modifies this`items
      ensures Consistent(items, size, base)
      ensures items[size - 1] == old(items[index]) && items[size..] == old(items[size..])
      ensures Ids(items[..size]) == MovedTo(old(Ids(items[..size])), index, size - 1)
    {
      if index != size - 1 {
        MoveItemInternal(index, size - 1);
      } else {
        assert MovedTo(Ids(items[..size]), index, size - 1) == Ids(items[..size]);
      }
    }

    static lemma UnwatchedIsConsistent(items: seq<ModelItem>, size: nat, base: seq<int>)
      requires size < |items| && Consistent(items, size + 1, base)
      ensures Consistent(items[size := items[size].(watched := false)], size, base)
    {
      assert Stored(items[size := items[size].(watched := false)]) == Stored(items);
    }

    /** Moves an item behind the live ones and stops watching it. */
    method RetireItem(index: nat)
      requires Consistent(items, size, base) && index < size
      modifies this`items, this`size
      ensures Consistent(items, size, base) && size == old(size) - 1
      ensures Ids(items[..size]) == old(Ids(items[..size]))[..index] + old(Ids(items[..size]))[index + 1..]
      ensures items[size..] == [old(items[index]).(watched := false)] + old(items[size..])
    {
      MoveToEnd(index);
      ghost var moved := items;
      items := items[size - 1 := items[size - 1].(watched := false)];
      size := size - 1;
      UnwatchedIsConsistent(moved, size, base);
    }

    /** Removes an item; it is dropped when the batch ends. */
    method RemoveAt(index: int)
      requires Valid()
      modifies this`items, this`size, this`events, this`base
      ensures Valid()
      ensures Ids(items[..size]) ==
              if 0 <= index < old(size) then old(Ids(items[..size]))[..index] + old(Ids(items[..size]))[index + 1..]
              else old(Ids(items[..size]))
      ensures updateCount == 0 ==>
                old(events) <= events && Replay(old(base), events[|old(events)|..], Ids(items)) == Ids(items)
      ensures updateCount > 0 ==> events == old(events) && base == old(base)
      ensures updateCount > 0 && 0 <= index < old(size) ==>
                items[size..] == [old(items[index]).(watched := false)] + old(items[size..])
    {
      if 0 <= index < size {
        RetireItem(index);
        Settle();
      }
    }

    // ----- Batches

    method BeginUpdate()
      requires Valid()
      modifies this`updateCount
      ensures Valid() && updateCount == old(updateCount) + 1
    {
      updateCount := updateCount + 1;
    }

    /** Ends a batch. The outermost end announces it; the observers' list becomes the new list exactly
        when the batch removed no item it had added, or left none of the old items. */
    method EndUpdate() returns (ghost told: seq<Event>)
      requires Valid()
      modifies this`items, this`events, this`base, this`updateCount
      ensures Valid() && updateCount == if old(updateCount) > 0 then old(updateCount) - 1 else 0
      ensures Ids(items[..size]) == old(Ids(items[..size])) && events == old(events) + told
      ensures old(updateCount) != 1 ==> told == [] && items == old(items) && base == old(base)
      ensures old(updateCount) == 1 ==>
                (Replay(old(base), told, Ids(items)) == Ids(items) <==>
                 old(NoNewItemRemoved(Stored(items[size..])) || NoOldItemLeft(Stored(items[..size]))))
    {
      told := [];
      if updateCount == 1 {
        ghost var deleted;
        deleted, told := UpdateIndices();
        assert items[..size] == items;
        updateCount := updateCount - 1;
      } else if updateCount > 0 {
        updateCount := updateCount - 1;
      }
    }

    method StopWatching()
      requires Consistent(items, size, base)
      modifies this`items
      ensures |items| == |old(items)|
      ensures forall i :: 0 <= i < |items| ==> items[i] == old(items)[i].(watched := false)
    {
      for n := 0 to |items|
        invariant |items| == |old(items)|
        invariant forall i :: 0 <= i < n ==> items[i] == old(items)[i].(watched := false)
        invariant forall i :: n <= i < |items| ==> items[i] == old(items)[i]
      {
        items := items[n := items[n].(watched := false)];
      }
    }

    static lemma StoppedIsConsistent(before: seq<ModelItem>, after: seq<ModelItem>, size: nat, base: seq<int>)
      requires Consistent(before, size, base) && |after| == |before|
      requires forall i :: 0 <= i < |after| ==> after[i] == before[i].(watched := false)
      ensures Consistent(after, 0, base)
      ensures Stored(after) == Stored(before)
    {
      assert Stored(after) == Stored(before);
      assert forall i :: 0 <= i < |after| ==> KnownTo(base, before[i]);
    }

    /** Removes every item. */
    method Clear()
      requires Valid()
      modifies this
      ensures Valid() && updateCount == old(updateCount)
      ensures Ids(items[..size]) == []
      ensures updateCount == 0 ==>
                old(events) <= events && Replay(old(base), events[|old(events)|..], Ids(items)) == Ids(items)
      ensures updateCount > 0 ==> Ids(items) == old(Ids(items)) && Stored(items) == old(Stored(items))
                                  && events == old(events) && base == old(base)
    {
      if size == 0 {
        return;
      }
      BeginUpdate();
      ghost var before := items;
      StopWatching();
      StoppedIsConsistent(before, items, size, base);
      size := 0;
      assert items[0..] == items && items[..0] == [];
      ghost var told := EndUpdate();
      assert events[|old(events)|..] == told;
    }

    // ----- Shifting a selection, on the list of identities

    /** The state of the upward loop when it is about to look at position `n`. */
    static ghost predicate ShiftingUp(ids: seq<int>, pick: int -> bool, n: nat, now: seq<int>, insertAt: int,
                                      matches: nat)
      requires n <= |ids|
    {
      var first, start := FirstPicked(ids, pick), BlockStart(ids, pick);
      && |now| == |ids|
      && (n <= first ==> insertAt == -1 && matches == 0 && now == ids)
      && (n > first ==>
            insertAt == start + matches && matches == |Picked(ids[start..n], pick)| && now == UpForm(ids, pick, n))
    }

    static lemma ShiftingUpSkip(ids: seq<int>, pick: int -> bool, n: nat, now: seq<int>, insertAt: int, matches: nat)
      requires n < |ids| && ShiftingUp(ids, pick, n, now, insertAt, matches) && !pick(ids[n])
      ensures ShiftingUp(ids, pick, n + 1, now, insertAt, matches)
    {
      if n > FirstPicked(ids, pick) {
        UpFormSkip(ids, pick, n);
      }
    }

    static lemma ShiftingUpMove(ids: seq<int>, pick: int -> bool, n: nat, now: seq<int>, to: nat, matches: nat)
      requires FirstPicked(ids, pick) <= n < |ids| && pick(ids[n])
      requires now == UpForm(ids, pick, n)
      requires matches == |Picked(ids[BlockStart(ids, pick)..n], pick)| && to == BlockStart(ids, pick) + matches
      ensures to < |ids| == |now|
      ensures ShiftingUp(ids, pick, n + 1, MovedTo(now, n, to), to + 1, matches + 1)
    {
      UpFormMove(ids, pick, n, BlockStart(ids, pick), to);
    }

    static lemma ShiftingUpNext(ids: seq<int>, pick: int -> bool, n: nat, now: seq<int>, insertAt: int, matches: nat)
      requires n < |ids| && ShiftingUp(ids, pick, n, now, insertAt, matches)
      ensures now[n] == ids[n]
      ensures !pick(now[n]) ==> ShiftingUp(ids, pick, n + 1, now, insertAt, matches)
      ensures pick(now[n]) ==>
                var to := if insertAt != -1 then insertAt else if n == 0 then 0 else n - 1;
                && 0 <= to < |ids| && (insertAt == -1 && n == 0 ==> MovedTo(now, n, to) == now)
                && ShiftingUp(ids, pick, n + 1, MovedTo(now, n, to), to + 1, matches + 1)
    {
      var first, start := FirstPicked(ids, pick), BlockStart(ids, pick);
      if !pick(ids[n]) {
        ShiftingUpSkip(ids, pick, n, now, insertAt, matches);
      } else if n == first {
        UpFormStarts(ids, pick);
        assert Picked(ids[start..first], pick) == [] by {
          OnlyAll(ids[start..first], pick, false);
        }
        ShiftingUpMove(ids, pick, n, now, start, 0);
      } else {
        ShiftingUpMove(ids, pick, n, now, insertAt, matches);
      }
    }

    method ShiftUpAt(n: nat, pick: int -> bool, insertAt: int, matches: nat, ghost ids: seq<int>)
      returns (insertNext: int, matchesNext: nat)
      requires Consistent(items, size, base) && n < size == |ids|
      requires ShiftingUp(ids, pick, n, Ids(items[..size]), insertAt, matches)
      modifies this`items
      ensures Consistent(items, size, base) && items[size..] == old(items[size..])
      ensures ShiftingUp(ids, pick, n + 1, Ids(items[..size]), insertNext, matchesNext)
    {
      ghost var now := Ids(items[..size]);
      ShiftingUpNext(ids, pick, n, now, insertAt, matches);
      assert items[n].id == now[n];
      insertNext, matchesNext := insertAt, matches;
      if pick(items[n].id) {
        matchesNext := matchesNext + 1;
        if insertNext == -1 && n == 0 {
          insertNext := 1;
        } else {
          if insertNext == -1 {
            insertNext := n - 1;
          }
          MoveItemInternal(n, insertNext);
          insertNext := insertNext + 1;
        }
      }
    }

    static lemma ShiftingUpEnds(ids: seq<int>, pick: int -> bool, now: seq<int>, insertAt: int, matches: nat)
      requires ShiftingUp(ids, pick, |ids|, now, insertAt, matches)
      ensures now == ShiftedUp(ids, pick) && matches == |Picked(ids, pick)|
    {
      var start := BlockStart(ids, pick);
      UpFormEnds(ids, pick);
      PickedBehind(ids, pick, start);
      if FirstPicked(ids, pick) == |ids| {
        UpFormStarts(ids, pick);
        assert Picked(ids, pick) == [] by {
          OnlyAll(ids, pick, false);
        }
      } else {
        assert ids[start..|ids|] == ids[start..];
      }
    }

    method ShiftUpLoop(pick: int -> bool) returns (matches: nat)
      requires Consistent(items, size, base)
      modifies this`items
      ensures Consistent(items, size, base) && items[size..] == old(items[size..])
      ensures matches == |Picked(old(Ids(items[..size])), pick)|
      ensures Ids(items[..size]) == ShiftedUp(old(Ids(items[..size])), pick)
    {
      ghost var ids := Ids(items[..size]);
      matches := 0;
      var insertAt := -1;
      for n := 0 to size
        invariant Consistent(items, size, base) && items[size..] == old(items[size..])
        invariant ShiftingUp(ids, pick, n, Ids(items[..size]), insertAt, matches)
      {
        insertAt, matches := ShiftUpAt(n, pick, insertAt, matches, ids);
      }
      ShiftingUpEnds(ids, pick, Ids(items[..size]), insertAt, matches);
    }

    /** Shifts the items for which `pick` holds up, as one block. */
    method ShiftItemsUp(pick: int -> bool) returns (matches: nat)
      requires Valid()
      modifies this
      ensures Valid() && updateCount == old(updateCount)
      ensures matches == |Picked(old(Ids(items[..size])), pick)|
      ensures Ids(items[..size]) == ShiftedUp(old(Ids(items[..size])), pick)
      ensures updateCount == 0 ==>
                old(events) <= events && Replay(old(base), events[|old(events)|..], Ids(items)) == Ids(items)
      ensures updateCount > 0 ==> items[size..] == old(items[size..]) && events == old(events) && base == old(base)
    {
      BeginUpdate();
      matches := ShiftUpLoop(pick);
      ghost var told := EndUpdate();
      assert events[|old(events)|..] == told;
    }

    /** The state of the downward loop when it has looked at the positions from `n` on. */
    static ghost predicate ShiftingDown(ids: seq<int>, pick: int -> bool, n: nat, now: seq<int>, insertAt: int,
                                        matches: nat)
      requires n <= |ids|
    {
      var after, end := AfterLastPicked(ids, pick), BlockEnd(ids, pick);
      && |now| == |ids|
      && (n >= after ==> insertAt == -1 && matches == 0 && now == ids)
      && (n < after ==>
            matches == |Picked(ids[n..end], pick)| && now == DownForm(ids, pick, n) && insertAt == end - matches - 1)
      && (n > 0 && n < after ==> insertAt >= 0)
    }

    static lemma ShiftingDownSkip(ids: seq<int>, pick: int -> bool, n: nat, now: seq<int>, insertAt: int, matches: nat)
      requires n < |ids| && ShiftingDown(ids, pick, n + 1, now, insertAt, matches) && !pick(ids[n])
      ensures ShiftingDown(ids, pick, n, now, insertAt, matches)
    {
      if n + 1 < AfterLastPicked(ids, pick) {
        DownFormSkip(ids, pick, n);
      }
    }

    static lemma ShiftingDownMove(ids: seq<int>, pick: int -> bool, n: nat, now: seq<int>, to: nat, matches: nat)
      requires n < |ids| && pick(ids[n])
      requires now == DownForm(ids, pick, n + 1)
      requires matches == |Picked(ids[n + 1..BlockEnd(ids, pick)], pick)| && to == BlockEnd(ids, pick) - matches - 1
      ensures to < |ids| == |now|
      ensures ShiftingDown(ids, pick, n, MovedTo(now, n, to), to - 1, matches + 1)
    {
      var end := BlockEnd(ids, pick);
      DownFormMove(ids, pick, n, end, to);
      assert |Picked(ids[n..end], pick)| <= end - n;
    }

    static lemma ShiftingDownNext(ids: seq<int>, pick: int -> bool, n: nat, now: seq<int>, insertAt: int, matches: nat)
      requires n < |ids| && ShiftingDown(ids, pick, n + 1, now, insertAt, matches)
      ensures now[n] == ids[n]
      ensures !pick(now[n]) ==> ShiftingDown(ids, pick, n, now, insertAt, matches)
      ensures pick(now[n]) ==>
                var to := if insertAt != -1 then insertAt else if n == |ids| - 1 then n else n + 1;
                && 0 <= to < |ids| && (insertAt == -1 && n == |ids| - 1 ==> MovedTo(now, n, to) == now)
                && ShiftingDown(ids, pick, n, MovedTo(now, n, to), to - 1, matches + 1)
    {
      var after, end := AfterLastPicked(ids, pick), BlockEnd(ids, pick);
      assert now[n] == ids[n] by {
        if n + 1 < after {
          assert ids[..n + 1][n] == ids[n];
        }
      }
      if !pick(ids[n]) {
        ShiftingDownSkip(ids, pick, n, now, insertAt, matches);
      } else if n + 1 == after {
        DownFormStarts(ids, pick);
        assert Picked(ids[after..end], pick) == [] by {
          OnlyAll(ids[after..end], pick, false);
        }
        ShiftingDownMove(ids, pick, n, now, end - 1, 0);
      } else {
        ShiftingDownMove(ids, pick, n, now, insertAt, matches);
      }
    }

    static lemma ShiftingDownEnds(ids: seq<int>, pick: int -> bool, now: seq<int>, insertAt: int, matches: nat)
      requires ShiftingDown(ids, pick, 0, now, insertAt, matches)
      ensures now == ShiftedDown(ids, pick) && matches == |Picked(ids, pick)|
    {
      var end := BlockEnd(ids, pick);
      DownFormEnds(ids, pick);
      assert Picked(ids[..end], pick) == Picked(ids, pick) by {
        OnlyAll(ids[end..], pick, false);
        OnlyConcat(ids[..end], ids[end..], pick, true);
        assert ids == ids[..end] + ids[end..];
      }
      if AfterLastPicked(ids, pick) == 0 {
        DownFormStarts(ids, pick);
        assert Picked(ids, pick) == [] by {
          OnlyAll(ids, pick, false);
        }
      } else {
        assert ids[0..end] == ids[..end];
      }
    }

    method ShiftDownAt(n: nat, pick: int -> bool, insertAt: int, matches: nat, ghost ids: seq<int>)
      returns (insertNext: int, matchesNext: nat)
      requires Consistent(items, size, base) && n < size == |ids|
      requires ShiftingDown(ids, pick, n + 1, Ids(items[..size]), insertAt, matches)
      modifies this`items
      ensures Consistent(items, size, base) && items[size..] == old(items[size..])
      ensures ShiftingDown(ids, pick, n, Ids(items[..size]), insertNext, matchesNext)
    {
      ghost var now := Ids(items[..size]);
      ShiftingDownNext(ids, pick, n, now, insertAt, matches);
      assert items[n].id == now[n];
      insertNext, matchesNext := insertAt, matches;
      if pick(items[n].id) {
        matchesNext := matchesNext + 1;
        if insertNext == -1 && n == size - 1 {
          insertNext := size - 2;
        } else {
          if insertNext == -1 {
            insertNext := n + 1;
          }
          MoveItemInternal(n, insertNext);
          insertNext := insertNext - 1;
        }
      }
    }

    method ShiftDownLoop(pick: int -> bool) returns (matches: nat)
      requires Consistent(items, size, base)
      modifies this`items
      ensures Consistent(items, size, base) && items[size..] == old(items[size..])
      ensures matches == |Picked(old(Ids(items[..size])), pick)|
      ensures Ids(items[..size]) == ShiftedDown(old(Ids(items[..size])), pick)
    {
      ghost var ids := Ids(items[..size]);
      matches := 0;
      var insertAt := -1;
      var n := size;
      while n > 0
        invariant 0 <= n <= size
        invariant Consistent(items, size, base) && items[size..] == old(items[size..])
        invariant ShiftingDown(ids, pick, n, Ids(items[..size]), insertAt, matches)
      {
        n := n - 1;
        insertAt, matches := ShiftDownAt(n, pick, insertAt, matches, ids);
      }
      ShiftingDownEnds(ids, pick, Ids(items[..size]), insertAt, matches);
    }

    /** Shifts the items for which `pick` holds down, as one block. */
    method ShiftItemsDown(pick: int -> bool) returns (matches: nat)
      requires Valid()
      modifies this
      ensures Valid() && updateCount == old(updateCount)
      ensures matches == |Picked(old(Ids(items[..size])), pick)|
      ensures Ids(items[..size]) == ShiftedDown(old(Ids(items[..size])), pick)
      ensures updateCount == 0 ==>
                old(events) <= events && Replay(old(base), events[|old(events)|..], Ids(items)) == Ids(items)
      ensures updateCount > 0 ==> items[size..] == old(items[size..]) && events == old(events) && base == old(base)
    {
      BeginUpdate();
      matches := ShiftDownLoop(pick);
      ghost var told := EndUpdate();
      assert events[|old(events)|..] == told;
    }

    // ----- Reversing

    /** The first and the last few of the live items have changed places. */
    static ghost predicate Swapped(items: seq<ModelItem>, before: seq<ModelItem>, size: nat, n: nat) {
      && size <= |items| == |before|
      && forall k :: 0 <= k < |items| ==>
                       items[k] == before[if k < size && (k < n || size - n <= k) then size - 1 - k else k]
    }

    static lemma SwappedOneMore(items: seq<ModelItem>, before: seq<ModelItem>, size: nat, n: nat)
      requires Swapped(items, before, size, n) && n < size - 1 - n
      ensures Swapped(items[n := items[size - 1 - n]][size - 1 - n := items[n]], before, size, n + 1)
    {
    }

    static lemma SwappedIsReversed(before: seq<ModelItem>, after: seq<ModelItem>, size: nat, n: nat)
      requires Swapped(after, before, size, n) && n <= size <= 2 * n + 1
      ensures after[size..] == before[size..]
      ensures after[..size] == Reversed(before[..size])
    {
    }

    method SwapEnds()
      requires size <= |items|
      modifies this`items
      ensures |items| == |old(items)| && items[size..] == old(items[size..])
      ensures items[..size] == Reversed(old(items[..size]))
    {
      ghost var before := items;
      var front, back := 0, size - 1;
      while front < back
        invariant 0 <= front <= size && back == size - 1 - front && front <= back + 1
        invariant Swapped(items, before, size, front)
      {
        var item := items[front];
        SwappedOneMore(items, before, size, front);
        items := items[front := items[back]];
        items := items[back := item];
        front, back := front + 1, back - 1;
      }
      SwappedIsReversed(before, items, size, front);
    }

    static lemma ReversedIsConsistent(before: seq<ModelItem>, after: seq<ModelItem>, size: nat, base: seq<int>)
      requires Consistent(before, size, base)
      requires |after| == |before| && after[size..] == before[size..] && after[..size] == Reversed(before[..size])
      ensures Consistent(after, size, base)
      ensures Ids(after[..size]) == Reversed(Ids(before[..size]))
    {
      ReversedPermutes(before[..size]);
      ConsistentPermutes(before, after, size, base);
    }

    method Reverse()
      requires Valid()
      modifies this
      ensures Valid() && updateCount == old(updateCount)
      ensures Ids(items[..size]) == Reversed(old(Ids(items[..size])))
      ensures updateCount == 0 ==>
                old(events) <= events && Replay(old(base), events[|old(events)|..], Ids(items)) == Ids(items)
      ensures updateCount > 0 ==> items[size..] == old(items[size..]) && events == old(events) && base == old(base)
    {
      BeginUpdate();
      ghost var before := items;
      SwapEnds();
      ReversedIsConsistent(before, items, size, base);
      ghost var told := EndUpdate();
      assert events[|old(events)|..] == told;
    }

    // ----- Value changes

    /** An item reports a value change with its stored index. It is passed on exactly when the item
        still sits at that index, which outside a batch is always so. */
    method NotifyModelValueChanged(index: int, ghost sender: nat) returns (raised: bool)
      requires Valid()
      requires sender < |items| && items[sender].watched && items[sender].collectionIndex == index
      ensures raised <==> sender == index
      ensures raised ==> index < size
      ensures updateCount == 0 ==> raised
    {
      BaseIsPresent(items, size, base);
      assert KnownTo(base, items[sender]);
      if index < 0 {
        return false;
      }
      raised := items[index].collectionIndex == index;
      assert KnownTo(base, items[index]);
    }
  }

  // ----- Where the promise ends

  method CollectionOfOne() returns (c: ModelCollectionBase)
    ensures fresh(c) && c.Valid() && c.updateCount == 0 && Ids(c.items) == [1] == c.base
  {
    c := new ModelCollectionBase();
    c.AddItem(1);
    assert c.items[..c.size] == c.items;
  }

  method AddAndRemove(c: ModelCollectionBase)
    requires c.Valid() && c.updateCount == 0 && Ids(c.items) == [1] == c.base
    modifies c
    ensures c.Valid() && c.updateCount == 1 && c.base == [1] && c.events == old(c.events)
    ensures c.size == 1 && |c.items| == 2 && Ids(c.items[..1]) == [1] && c.items[1].id == 2
  {
    assert c.items[..1] == c.items;
    c.BeginUpdate();
    c.AddItem(2);
    assert Ids(c.items[..2])[1] == 2;
    c.RemoveAt(1);
    assert c.items[1..][0] == c.items[1];
  }

  lemma NewItemIsRemoved(items: seq<ModelItem>, base: seq<int>)
    requires Consistent(items, 1, base) && base == [1] && Ids(items[..1]) == [1]
    requires |items| == 2 && items[1].id == 2
    ensures !NoNewItemRemoved(Stored(items[1..])) && !NoOldItemLeft(Stored(items[..1]))
  {
    assert KnownTo(base, items[0]) && KnownTo(base, items[1]);
    assert Ids(items[..1])[0] == items[0].id;
    assert Stored(items[1..])[0] == -1 && Stored(items[..1])[0] == 0;
  }

  /** A collection of one item, and a batch that adds another one and removes it again: an observer that
      replays the events does not get the list. */
  method AddedAndRemovedInOneBatch() returns (list: seq<int>, observed: seq<int>)
    ensures list == [1] && observed != list
  {
    var c := CollectionOfOne();
    AddAndRemove(c);
    NewItemIsRemoved(c.items, c.base);
    var before := |c.events|;
    ghost var told := c.EndUpdate();
    assert c.events[before..] == told;
    assert c.items[..c.size] == c.items;
    var items := c.items;
    list := seq(|items|, i requires 0 <= i < |items| => items[i].id);
    assert list == Ids(items);
    observed := Replay([1], c.events[before..], list);
  }
}
