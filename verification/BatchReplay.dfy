/** For which batches replaying what was announced brings an observer from the old list to the new one. */
module BatchReplay {
  import opened ListReplay

  // ----- The announcement, carried out

  lemma ReplayEach<T>(mirror: seq<T>, deleted: seq<int>, stored: seq<int>, final: seq<T>)
    ensures Replay(mirror, Removals(deleted), final) == ReplayRemoved(mirror, deleted)
    ensures Replay(mirror, Additions(stored), final) == ReplayAdded(mirror, NewPositions(stored), final)
    ensures Replay(mirror, Changes(stored), final) == ReplayChanged(mirror, MovedPositions(stored), final)
  {
  }

  lemma {:induction false} ReplayConcat<T>(mirror: seq<T>, a: seq<Event>, b: seq<Event>, final: seq<T>)
    ensures Replay(mirror, a + b, final) == Replay(Replay(mirror, a, final), b, final)
    decreases |a|
  {
    if a == [] {
      assert a + b == b;
    } else {
      assert (a + b)[1..] == a[1..] + b;
      ReplayConcat(ReplayOne(mirror, a[0], final), a[1..], b, final);
    }
  }

  /** What the observer holds after the three announcements, in one expression. */
  lemma ReplayAnnounced<T>(base: seq<T>, list: seq<T>, live: seq<int>, deleted: seq<int>)
    ensures var stored := AllAfterRemoval(live, deleted);
            Replay(base, Announce(live, deleted), list) ==
            ReplayChanged(ReplayAdded(ReplayRemoved(base, deleted), NewPositions(stored), list), MovedPositions(stored),
                          list)
  {
    var stored := AllAfterRemoval(live, deleted);
    ReplayConcat(base, Removals(deleted) + Additions(stored), Changes(stored), list);
    ReplayConcat(base, Removals(deleted), Additions(stored), list);
    var reduced := ReplayRemoved(base, deleted);
    var woven := ReplayAdded(reduced, NewPositions(stored), list);
    ReplayEach(base, deleted, stored, list);
    ReplayEach(reduced, deleted, stored, list);
    ReplayEach(woven, deleted, stored, list);
  }

  /** When only old items were removed, all deleted indices count. */
  lemma DeletionsAreOld<T>(base: seq<T>, list: seq<T>, live: seq<int>, removed: seq<int>, deleted: seq<int>)
    requires Batch(base, list, live, removed) && SortedDeletions(removed, deleted) && NoNewItemRemoved(removed)
    ensures OldPart(deleted) == deleted && RemovalsFor(deleted, |base|)
    ensures forall k :: k != -1 ==> (k in deleted <==> k in removed)
  {
    OldPartRemoves(base, list, live, removed, deleted);
    assert multiset(removed)[-1] == 0;
    OldPartIsPrefix(deleted);
  }

  lemma LiveIsNotRemoved<T>(base: seq<T>, list: seq<T>, live: seq<int>, removed: seq<int>, i: nat)
    requires Batch(base, list, live, removed) && i < |live| && live[i] != -1
    ensures live[i] !in removed
  {
    forall j | 0 <= j < |removed| ensures removed[j] != live[i] {
      assert (live + removed)[i] == live[i] && (live + removed)[|live| + j] == removed[j];
    }
  }

  /** The stored indices after the removals, when the batch removed only old items. */
  lemma SurvivorsShift<T>(base: seq<T>, list: seq<T>, live: seq<int>, removed: seq<int>, deleted: seq<int>, i: nat)
    requires Batch(base, list, live, removed) && SortedDeletions(removed, deleted) && NoNewItemRemoved(removed)
    requires i < |live|
    ensures var k := AfterRemoval(live[i], deleted);
            if live[i] == -1 then k == -1
            else 0 <= k < |ReplayRemoved(base, deleted)| && ReplayRemoved(base, deleted)[k] == list[i]
  {
    DeletionsAreOld(base, list, live, removed, deleted);
    assert live[i] in live + removed;
    if live[i] != -1 {
      LiveIsNotRemoved(base, list, live, removed, i);
      SurvivorShifts(base, deleted, live[i]);
      if deleted != [] && live[i] <= deleted[|deleted| - 1] {
        ShiftBelowAll(live[i], deleted);
      }
    }
  }

  lemma {:induction false} SameNewCount(a: seq<int>, b: seq<int>)
    requires |a| == |b| && forall i :: 0 <= i < |a| ==> (a[i] == -1 <==> b[i] == -1)
    ensures multiset(a)[-1] == multiset(b)[-1]
  {
    if a != [] {
      var n := |a| - 1;
      SameNewCount(a[..n], b[..n]);
      assert a == a[..n] + [a[n]] && b == b[..n] + [b[n]];
    }
  }

  lemma CleanLengths<T>(base: seq<T>, list: seq<T>, live: seq<int>, removed: seq<int>, deleted: seq<int>)
    requires Batch(base, list, live, removed) && SortedDeletions(removed, deleted) && NoNewItemRemoved(removed)
    ensures var stored := AllAfterRemoval(live, deleted);
            |ReplayRemoved(base, deleted)| == |stored| - |NewPositions(stored)|
  {
    var stored := AllAfterRemoval(live, deleted);
    OldPartRemoves(base, list, live, removed, deleted);
    OldPartIsPrefix(deleted);
    RemovedLength(base, deleted);
    OldItemsAddUp(base, list, live, removed);
    forall i | 0 <= i < |live| ensures stored[i] == -1 <==> live[i] == -1 {
      SurvivorsShift(base, list, live, removed, deleted, i);
    }
    NewPositionsCount(stored);
    SameNewCount(live, stored);
  }

  ghost predicate Matches<T>(mirror: seq<T>, list: seq<T>, stored: seq<int>) {
    && |stored| == |list| && |mirror| == |stored| - |NewPositions(stored)|
    && forall i :: 0 <= i < |stored| && stored[i] != -1 ==> 0 <= stored[i] < |mirror| && mirror[stored[i]] == list[i]
  }

  lemma WovenChangedAt<T>(mirror: seq<T>, list: seq<T>, stored: seq<int>, woven: seq<T>, j: nat)
    requires Matches(mirror, list, stored) && woven == Woven(mirror, stored, list)
    requires j < |list| == |woven|
    ensures |ReplayChanged(woven, MovedPositions(stored), list)| == |list|
    ensures ReplayChanged(woven, MovedPositions(stored), list)[j] == list[j]
  {
    WovenAt(mirror, stored, list, j);
    ChangesApply(woven, stored, list, j);
    if stored[j] != -1 {
      var place := j - |NewPositions(stored[..j])|;
      assert woven[j] == mirror[place];
      if !Moved(stored, j) {
        assert stored[j] == place;
      }
    }
  }

  /** A mirror that matches the list at every surviving index is turned into the list. */
  lemma WeaveAndChange<T>(mirror: seq<T>, list: seq<T>, stored: seq<int>)
    requires Matches(mirror, list, stored)
    ensures ReplayChanged(ReplayAdded(mirror, NewPositions(stored), list), MovedPositions(stored), list) == list
  {
    AdditionsWeave(mirror, stored, list);
    var woven := Woven(mirror, stored, list);
    assert woven + [] == woven;
    ChangesKeepLength(woven, MovedPositions(stored), list);
    var changed := ReplayChanged(woven, MovedPositions(stored), list);
    forall j | 0 <= j < |list| ensures changed[j] == list[j] {
      WovenChangedAt(mirror, list, stored, woven, j);
    }
  }

  lemma LastOccurrence(a: seq<int>, x: int)
    requires a != []
    ensures multiset(a)[x] == multiset(a[..|a| - 1])[x] + (if a[|a| - 1] == x then 1 else 0)
  {
    assert a == a[..|a| - 1] + [a[|a| - 1]];
  }

  lemma {:induction false} MoreOrSameNew(a: seq<int>, b: seq<int>)
    requires |a| == |b| && forall k :: 0 <= k < |a| ==> (a[k] == -1 ==> b[k] == -1)
    ensures multiset(a)[-1] <= multiset(b)[-1]
    decreases |a|
  {
    if a != [] {
      LastOccurrence(a, -1);
      LastOccurrence(b, -1);
      MoreOrSameNew(a[..|a| - 1], b[..|b| - 1]);
    }
  }

  lemma {:induction false} MoreNew(a: seq<int>, b: seq<int>, i: nat)
    requires |a| == |b| && forall k :: 0 <= k < |a| ==> (a[k] == -1 ==> b[k] == -1)
    requires i < |a| && a[i] != -1 && b[i] == -1
    ensures multiset(a)[-1] < multiset(b)[-1]
    decreases |a|
  {
    var n := |a| - 1;
    LastOccurrence(a, -1);
    LastOccurrence(b, -1);
    if i < n {
      MoreNew(a[..n], b[..n], i);
    } else {
      MoreOrSameNew(a[..n], b[..n]);
    }
  }

  lemma {:induction false} AllNew(n: nat)
    ensures multiset(seq(n, _ => -1))[-1] == n
  {
    if n > 0 {
      AllNew(n - 1);
      assert seq(n, _ => -1) == seq(n - 1, _ => -1) + [-1];
    }
  }

  lemma SomeOldLeft(live: seq<int>)
    requires !NoOldItemLeft(live)
    ensures multiset(live)[-1] < |live|
  {
    var e: nat :| e < |live| && live[e] != -1;
    MoreNew(live, seq(|live|, _ => -1), e);
    AllNew(|live|);
  }

  lemma NewItemAmongDeleted(removed: seq<int>, deleted: seq<int>)
    requires !NoNewItemRemoved(removed) && multiset(deleted) == multiset(removed)
    ensures multiset(deleted)[-1] > 0
  {
  }

  /** A batch that removed a new item: some surviving old item is taken for new. */
  lemma SurvivorMistakenForNew<T>(base: seq<T>, list: seq<T>, live: seq<int>, removed: seq<int>,
                                  deleted: seq<int>) returns (i: nat)
    requires Batch(base, list, live, removed) && SortedDeletions(removed, deleted)
    requires !NoNewItemRemoved(removed) && !NoOldItemLeft(live)
    ensures i < |live| && live[i] != -1 && AfterRemoval(live[i], deleted) == -1
  {
    OldPartRemoves(base, list, live, removed, deleted);
    OldPartIsPrefix(deleted);
    OldItemsAddUp(base, list, live, removed);
    var o := OldPart(deleted);
    var news := deleted[|o|..];
    assert deleted == o + news;
    SomeOldLeft(live);
    NewItemAmongDeleted(removed, deleted);
    var k := EveryPlaceHasSurvivor(|base|, o, 0);
    assert k in live + removed && k !in removed;
    i :| 0 <= i < |live| && live[i] == k;
    ShiftSplits(k, o, news);
    ShiftToNew(0, news);
  }

  /** Only the old part of the deletions shortens the mirror. */
  lemma OldPartLength<T>(base: seq<T>, list: seq<T>, live: seq<int>, removed: seq<int>, deleted: seq<int>)
    requires Batch(base, list, live, removed) && SortedDeletions(removed, deleted)
    ensures |ReplayRemoved(base, deleted)| == |base| - |OldPart(deleted)|
    ensures |OldPart(deleted)| == |removed| - multiset(removed)[-1]
  {
    OldPartRemoves(base, list, live, removed, deleted);
    OldPartIsPrefix(deleted);
    var o := OldPart(deleted);
    IgnoredRemovals(base, o, deleted[|o|..]);
    assert deleted == o + deleted[|o|..];
    RemovedLength(base, o);
  }

  lemma TooFewOldItems<T>(base: seq<T>, list: seq<T>, live: seq<int>, removed: seq<int>, deleted: seq<int>)
    requires Batch(base, list, live, removed) && SortedDeletions(removed, deleted)
    requires !NoNewItemRemoved(removed) && !NoOldItemLeft(live)
    ensures var stored := AllAfterRemoval(live, deleted);
            |stored| - |NewPositions(stored)| < |ReplayRemoved(base, deleted)|
  {
    OldPartLength(base, list, live, removed, deleted);
    OldItemsAddUp(base, list, live, removed);
    var i := SurvivorMistakenForNew(base, list, live, removed, deleted);
    MoreNew(live, AllAfterRemoval(live, deleted), i);
    NewPositionsCount(AllAfterRemoval(live, deleted));
  }

  lemma EverythingRemoved<T>(base: seq<T>, list: seq<T>, live: seq<int>, removed: seq<int>, deleted: seq<int>)
    requires Batch(base, list, live, removed) && SortedDeletions(removed, deleted) && NoOldItemLeft(live)
    ensures ReplayRemoved(base, deleted) == []
  {
    OldPartLength(base, list, live, removed, deleted);
    OldItemsAddUp(base, list, live, removed);
    assert live == seq(|live|, _ => -1);
    AllNew(|live|);
  }

  lemma FreshMatches<T>(list: seq<T>, live: seq<int>, deleted: seq<int>)
    requires |list| == |live| && NoOldItemLeft(live)
    requires forall i :: 0 <= i < |deleted| ==> -1 <= deleted[i]
    ensures AllAfterRemoval(live, deleted) == live
    ensures Matches([], list, live)
  {
    NewPositionsCount(live);
    assert live == seq(|live|, _ => -1);
    AllNew(|live|);
  }

  /** The new positions are those of the items that nobody knows. */
  lemma {:induction false} NewPositionsAre(stored: seq<int>, j: int)
    ensures j in NewPositions(stored) <==> 0 <= j < |stored| && stored[j] == -1
    decreases |stored|
  {
    if stored != [] {
      NewPositionsAre(stored[..|stored| - 1], j);
    }
  }

  lemma {:induction false} MovedPositionsAre(stored: seq<int>, j: int)
    ensures j in MovedPositions(stored) <==> 0 <= j < |stored| && Moved(stored, j)
    decreases |stored|
  {
    if stored != [] {
      var init := stored[..|stored| - 1];
      MovedPositionsAre(init, j);
      assert 0 <= j < |init| ==> init[..j] == stored[..j];
    }
  }

  lemma {:induction false} NothingNew(stored: seq<int>)
    requires -1 !in stored
    ensures NewPositions(stored) == []
    decreases |stored|
  {
    if stored != [] {
      NothingNew(stored[..|stored| - 1]);
    }
  }

  /** When items only change places, those are told of that do. */
  lemma ReorderedPlaces(live: seq<int>, j: nat)
    requires -1 !in live && j < |live|
    ensures j in MovedPositions(live) <==> live[j] != j
  {
    MovedPositionsAre(live, j);
    NothingNew(live[..j]);
  }

  lemma NobodyMoved(live: seq<int>)
    requires -1 !in live
    ensures MovedPositions(live) == [] <==> forall j :: 0 <= j < |live| ==> live[j] == j
  {
    var moved := MovedPositions(live);
    if moved != [] {
      assert moved[0] in moved;
      MovedPositionsAre(live, moved[0]);
      ReorderedPlaces(live, moved[0]);
    } else {
      forall j | 0 <= j < |live| ensures live[j] == j {
        ReorderedPlaces(live, j);
      }
    }
  }

  lemma NothingRemoved(live: seq<int>)
    ensures AllAfterRemoval(live, []) == live
  {
  }

  /** Nothing else is told, and nothing at all when every item is in its place. */
  lemma ReorderIsTold(live: seq<int>)
    requires -1 !in live
    ensures Announce(live, []) == if forall j :: 0 <= j < |live| ==> live[j] == j then []
                                  else [ItemsChanged(MovedPositions(live))]
  {
    NothingRemoved(live);
    NothingNew(live);
    NobodyMoved(live);
  }

  // ----- The main results

  /** A batch that removed only old items: the observer ends up with exactly the new list. */
  lemma CleanBatchReplays<T>(base: seq<T>, list: seq<T>, live: seq<int>, removed: seq<int>, deleted: seq<int>)
    requires Batch(base, list, live, removed) && SortedDeletions(removed, deleted) && NoNewItemRemoved(removed)
    ensures Replay(base, Announce(live, deleted), list) == list
  {
    var stored := AllAfterRemoval(live, deleted);
    ReplayAnnounced(base, list, live, deleted);
    CleanLengths(base, list, live, removed, deleted);
    forall i | 0 <= i < |stored| && stored[i] != -1
      ensures 0 <= stored[i] < |ReplayRemoved(base, deleted)| && ReplayRemoved(base, deleted)[stored[i]] == list[i]
    {
      SurvivorsShift(base, list, live, removed, deleted, i);
    }
    WeaveAndChange(ReplayRemoved(base, deleted), list, stored);
  }

  /** A batch that removed a new item while some old item is left: the observer ends up with too many items. */
  lemma UncleanBatchFails<T>(base: seq<T>, list: seq<T>, live: seq<int>, removed: seq<int>, deleted: seq<int>)
    requires Batch(base, list, live, removed) && SortedDeletions(removed, deleted)
    requires !NoNewItemRemoved(removed) && !NoOldItemLeft(live)
    ensures |Replay(base, Announce(live, deleted), list)| > |list|
  {
    var stored := AllAfterRemoval(live, deleted);
    var reduced := ReplayRemoved(base, deleted);
    TooFewOldItems(base, list, live, removed, deleted);
    ReplayAnnounced(base, list, live, deleted);
    AdditionsWeave(reduced, stored, list);
    ChangesKeepLength(ReplayAdded(reduced, NewPositions(stored), list), MovedPositions(stored), list);
  }

  /** A batch that leaves no old item: everything is removed and everything is added. */
  lemma FreshBatchReplays<T>(base: seq<T>, list: seq<T>, live: seq<int>, removed: seq<int>, deleted: seq<int>)
    requires Batch(base, list, live, removed) && SortedDeletions(removed, deleted) && NoOldItemLeft(live)
    ensures Replay(base, Announce(live, deleted), list) == list
  {
    assert forall i :: 0 <= i < |deleted| ==> -1 <= deleted[i] by {
      OldPartRemoves(base, list, live, removed, deleted);
    }
    assert Matches([], list, live) && AllAfterRemoval(live, deleted) == live by {
      FreshMatches(list, live, deleted);
    }
    ReplayAnnounced(base, list, live, deleted);
    EverythingRemoved(base, list, live, removed, deleted);
    WeaveAndChange([], list, live);
  }

  /** Replaying the announcement of a batch on the old list gives the new list exactly when the batch
      removed no item that it had itself added, or left none of the old items. */
  lemma ReplayIsExact<T>(base: seq<T>, list: seq<T>, live: seq<int>, removed: seq<int>, deleted: seq<int>)
    requires Batch(base, list, live, removed) && SortedDeletions(removed, deleted)
    ensures Replay(base, Announce(live, deleted), list) == list <==> NoNewItemRemoved(removed) || NoOldItemLeft(live)
  {
    if NoNewItemRemoved(removed) {
      CleanBatchReplays(base, list, live, removed, deleted);
    } else if NoOldItemLeft(live) {
      FreshBatchReplays(base, list, live, removed, deleted);
    } else {
      UncleanBatchFails(base, list, live, removed, deleted);
    }
  }

  /** The smallest failure: an item is added to a list of one and removed again in the same batch. */
  lemma AddedAndRemovedExample<T>(a: T)
    ensures Announce([0], [-1]) == [ItemsRemoved([-1]), ItemsAdded([0])]
    ensures Replay([a], Announce([0], [-1]), [a]) == [a, a]
  {
    var stored := [-1];
    assert AllAfterRemoval([0], [-1]) == stored;
    assert NewPositions(stored) == [0] && MovedPositions(stored) == [] by {
      assert stored[..0] == [];
    }
    ReplayAnnounced([a], [a], [0], [-1]);
    assert ReplayRemoved([a], [-1]) == [a];
    assert ReplayAdded([a], [0], [a]) == [a, a] by {
      assert [0][..0] == [] && [a][..0] + [a] + [a][0..] == [a, a];
    }
  }
}
