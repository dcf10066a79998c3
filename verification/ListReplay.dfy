/** What an observer of a collection is told when a batch of changes ends, and what it makes of it. */
module ListReplay {
  import opened Basics

  // Every item stores the index it had when the observers were last told about the list, or -1 when
  // they have not heard of it. From the stored indices of the live and of the removed items alone the
  // collection works out three lists of indices: removed, added, changed.

  datatype Event =
    | ItemsRemoved(indices: seq<int>)
    | ItemsAdded(indices: seq<int>)
    | ItemsChanged(indices: seq<int>)

  // ----- The observer: it keeps a mirror of the list and reads new contents from the final list

  function ReplayRemoved<T>(mirror: seq<T>, indices: seq<int>): seq<T> {
    if indices == [] then mirror
    else
      var k := indices[0];
      ReplayRemoved(if 0 <= k < |mirror| then mirror[..k] + mirror[k + 1..] else mirror, indices[1..])
  }

  function ReplayAdded<T>(mirror: seq<T>, indices: seq<int>, final: seq<T>): seq<T> {
    if indices == [] then mirror
    else
      var rest := ReplayAdded(mirror, indices[..|indices| - 1], final);
      var k := indices[|indices| - 1];
      if 0 <= k <= |rest| && k < |final| then rest[..k] + [final[k]] + rest[k..] else rest
  }

  function ReplayChanged<T>(mirror: seq<T>, indices: seq<int>, final: seq<T>): seq<T> {
    if indices == [] then mirror
    else
      var rest := ReplayChanged(mirror, indices[..|indices| - 1], final);
      var k := indices[|indices| - 1];
      if 0 <= k < |rest| && k < |final| then rest[k := final[k]] else rest
  }

  function ReplayOne<T>(mirror: seq<T>, event: Event, final: seq<T>): seq<T> {
    match event
    case ItemsRemoved(indices) => ReplayRemoved(mirror, indices)
    case ItemsAdded(indices) => ReplayAdded(mirror, indices, final)
    case ItemsChanged(indices) => ReplayChanged(mirror, indices, final)
  }

  function Replay<T>(mirror: seq<T>, events: seq<Event>, final: seq<T>): seq<T>
    decreases |events|
  {
    if events == [] then mirror else Replay(ReplayOne(mirror, events[0], final), events[1..], final)
  }

  // ----- The announcement

  ghost predicate Descending(s: seq<int>) {
    forall i, j :: 0 <= i < j < |s| ==> s[j] <= s[i]
  }

  /** `deleted` lists the stored indices of the removed items, largest first. */
  ghost predicate SortedDeletions(removed: seq<int>, deleted: seq<int>) {
    Descending(deleted) && multiset(deleted) == multiset(removed)
  }

  /** Lowers an index by one for every deleted index below it, largest first. */
  function ShiftIndex(k: int, deleted: seq<int>): int
    decreases |deleted|
  {
    if deleted == [] then k
    else ShiftIndex(if deleted[0] < k then k - 1 else k, deleted[1..])
  }

  function AfterRemoval(k: int, deleted: seq<int>): int {
    if deleted != [] && k > deleted[|deleted| - 1] then ShiftIndex(k, deleted) else k
  }

  function AllAfterRemoval(stored: seq<int>, deleted: seq<int>): seq<int> {
    seq(|stored|, i requires 0 <= i < |stored| => AfterRemoval(stored[i], deleted))
  }

  /** The positions that hold new items. */
  function NewPositions(stored: seq<int>): (r: seq<int>)
    ensures |r| <= |stored|
  {
    if stored == [] then []
    else
      var n := |stored| - 1;
      NewPositions(stored[..n]) + (if stored[n] == -1 then [n] else [])
  }

  /** The positions whose item is old and does not sit where additions alone would have put it. */
  function MovedPositions(stored: seq<int>): seq<int> {
    if stored == [] then []
    else
      var n := |stored| - 1;
      MovedPositions(stored[..n]) +
      (if stored[n] != -1 && stored[n] + |NewPositions(stored[..n])| != n then [n] else [])
  }

  function Removals(deleted: seq<int>): seq<Event> {
    if deleted == [] then [] else [ItemsRemoved(deleted)]
  }

  function Additions(stored: seq<int>): seq<Event> {
    if NewPositions(stored) == [] then [] else [ItemsAdded(NewPositions(stored))]
  }

  function Changes(stored: seq<int>): seq<Event> {
    if MovedPositions(stored) == [] then [] else [ItemsChanged(MovedPositions(stored))]
  }

  function Announce(live: seq<int>, deleted: seq<int>): seq<Event> {
    var stored := AllAfterRemoval(live, deleted);
    Removals(deleted) + Additions(stored) + Changes(stored)
  }

  // ----- When the stored indices describe a batch

  ghost predicate DistinctOld(s: seq<int>) {
    forall i, j :: 0 <= i < j < |s| && s[i] == s[j] ==> s[i] == -1
  }

  /** `live` and `removed` store the base index of every base item exactly once and -1 for the new items. */
  ghost predicate Batch<T>(base: seq<T>, list: seq<T>, live: seq<int>, removed: seq<int>) {
    && |list| == |live|
    && DistinctOld(live + removed)
    && (forall k :: k in live + removed ==> -1 <= k < |base|)
    && (forall k :: 0 <= k < |base| ==> k in live + removed)
    && (forall i :: 0 <= i < |live| && 0 <= live[i] < |base| ==> base[live[i]] == list[i])
  }

  /** The batch removed no item that the observers have not heard of. */
  ghost predicate NoNewItemRemoved(removed: seq<int>) {
    -1 !in removed
  }

  ghost predicate NoOldItemLeft(live: seq<int>) {
    forall i :: 0 <= i < |live| ==> live[i] == -1
  }

  // ----- Removals

  ghost predicate RemovalsFor(deleted: seq<int>, n: nat) {
    && (forall i, j :: 0 <= i < j < |deleted| ==> deleted[j] < deleted[i])
    && (forall i :: 0 <= i < |deleted| ==> 0 <= deleted[i] < n)
  }

  /** Removing from the end, a surviving item ends up at its shifted index. */
  lemma {:induction false} SurvivorShifts<T>(base: seq<T>, deleted: seq<int>, k: int)
    requires RemovalsFor(deleted, |base|)
    requires 0 <= k < |base| && k !in deleted
    ensures |ReplayRemoved(base, deleted)| == |base| - |deleted|
    ensures 0 <= ShiftIndex(k, deleted) < |ReplayRemoved(base, deleted)|
    ensures ReplayRemoved(base, deleted)[ShiftIndex(k, deleted)] == base[k]
    decreases |deleted|
  {
    if deleted != [] {
      var d := deleted[0];
      var next := base[..d] + base[d + 1..];
      var k' := if d < k then k - 1 else k;
      assert next[k'] == base[k];
      assert k' !in deleted[1..];
      SurvivorShifts(next, deleted[1..], k');
    }
  }

  lemma {:induction false} RemovedLength<T>(base: seq<T>, deleted: seq<int>)
    requires RemovalsFor(deleted, |base|)
    ensures |ReplayRemoved(base, deleted)| == |base| - |deleted|
    decreases |deleted|
  {
    if deleted != [] {
      RemovedLength(base[..deleted[0]] + base[deleted[0] + 1..], deleted[1..]);
    }
  }

  /** Surviving indices keep their order when they shift. */
  lemma {:induction false} SurvivorsStayApart(n: nat, deleted: seq<int>, a: int, b: int)
    requires RemovalsFor(deleted, n) && 0 <= a < b < n && a !in deleted && b !in deleted
    ensures ShiftIndex(a, deleted) < ShiftIndex(b, deleted)
    decreases |deleted|
  {
    if deleted != [] {
      var d := deleted[0];
      assert deleted == [d] + deleted[1..];
      SurvivorsStayApart(n - 1, deleted[1..], if d < a then a - 1 else a, if d < b then b - 1 else b);
    }
  }

  lemma {:induction false} EveryPlaceHasSurvivor(n: nat, deleted: seq<int>, j: nat) returns (k: int)
    requires RemovalsFor(deleted, n) && j < n - |deleted|
    ensures 0 <= k < n && k !in deleted && ShiftIndex(k, deleted) == j
    decreases |deleted|
  {
    if deleted == [] {
      k := j;
    } else {
      var d := deleted[0];
      var k' := EveryPlaceHasSurvivor(n - 1, deleted[1..], j);
      k := if k' >= d then k' + 1 else k';
      assert deleted == [d] + deleted[1..];
    }
  }

  /** Every place of the reduced mirror is where exactly one surviving index has shifted to. */
  lemma OneSurvivorForEachPlace(n: nat, deleted: seq<int>, j: nat) returns (k: int)
    requires RemovalsFor(deleted, n) && j < n - |deleted|
    ensures 0 <= k < n && k !in deleted && ShiftIndex(k, deleted) == j
    ensures forall i :: 0 <= i < n && i !in deleted && ShiftIndex(i, deleted) == j ==> i == k
  {
    k := EveryPlaceHasSurvivor(n, deleted, j);
    forall i | 0 <= i < n && i !in deleted && ShiftIndex(i, deleted) == j ensures i == k {
      if i < k {
        SurvivorsStayApart(n, deleted, i, k);
      } else if k < i {
        SurvivorsStayApart(n, deleted, k, i);
      }
    }
  }

  lemma {:induction false} ShiftBelowAll(k: int, deleted: seq<int>)
    requires forall i :: 0 <= i < |deleted| ==> k <= deleted[i]
    ensures ShiftIndex(k, deleted) == k
    decreases |deleted|
  {
    if deleted != [] {
      ShiftBelowAll(k, deleted[1..]);
    }
  }

  // ----- Additions

  /** The mirror after the additions: new items in place, the rest in mirror order. */
  function Woven<T>(mirror: seq<T>, stored: seq<int>, final: seq<T>): seq<T>
    requires |stored| <= |final| && |stored| - |NewPositions(stored)| <= |mirror|
    decreases |stored|
  {
    if stored == [] then []
    else
      var n := |stored| - 1;
      var item := if stored[n] == -1 then final[n] else mirror[n - |NewPositions(stored[..n])|];
      Woven(mirror, stored[..n], final) + [item]
  }

  lemma {:induction false} WovenAt<T>(mirror: seq<T>, stored: seq<int>, final: seq<T>, j: nat)
    requires |stored| <= |final| && |stored| - |NewPositions(stored)| <= |mirror|
    requires j < |stored|
    ensures |Woven(mirror, stored, final)| == |stored|
    ensures |NewPositions(stored[..j])| <= j
    ensures stored[j] == -1 ==> Woven(mirror, stored, final)[j] == final[j]
    ensures stored[j] != -1 ==> j - |NewPositions(stored[..j])| < |mirror|
                                && Woven(mirror, stored, final)[j] == mirror[j - |NewPositions(stored[..j])|]
    decreases |stored|
  {
    var n := |stored| - 1;
    if n == 0 {
    } else if j == n {
      WovenAt(mirror, stored[..n], final, 0);
    } else {
      WovenAt(mirror, stored[..n], final, j);
      assert stored[..n][..j] == stored[..j];
    }
  }

  lemma InsertAtSeam<T>(a: seq<T>, b: seq<T>, x: T)
    ensures (a + b)[..|a|] + [x] + (a + b)[|a|..] == (a + [x]) + b
  {
    assert (a + b)[..|a|] == a && (a + b)[|a|..] == b;
  }

  lemma PassSeam<T>(a: seq<T>, b: seq<T>)
    requires b != []
    ensures a + b == (a + [b[0]]) + b[1..]
  {
  }

  /** Inserting the new positions in ascending order weaves the new items into the mirror. */
  lemma {:induction false} AdditionsWeave<T>(mirror: seq<T>, stored: seq<int>, final: seq<T>)
    requires |stored| <= |final| && |stored| - |NewPositions(stored)| <= |mirror|
    ensures |Woven(mirror, stored, final)| == |stored|
    ensures ReplayAdded(mirror, NewPositions(stored), final)
         == Woven(mirror, stored, final) + mirror[|stored| - |NewPositions(stored)|..]
    decreases |stored|
  {
    if stored != [] {
      var n := |stored| - 1;
      var before := stored[..n];
      AdditionsWeave(mirror, before, final);
      var done := Woven(mirror, before, final);
      var rest := mirror[n - |NewPositions(before)|..];
      if stored[n] == -1 {
        var added := NewPositions(before);
        assert NewPositions(stored) == added + [n] && NewPositions(stored)[..|added|] == added;
        assert ReplayAdded(mirror, added + [n], final) == (done + rest)[..n] + [final[n]] + (done + rest)[n..];
        InsertAtSeam(done, rest, final[n]);
      } else {
        assert NewPositions(stored) == NewPositions(before);
        PassSeam(done, rest);
      }
    }
  }

  // ----- Changes

  lemma {:induction false} ChangesKeepLength<T>(mirror: seq<T>, indices: seq<int>, final: seq<T>)
    ensures |ReplayChanged(mirror, indices, final)| == |mirror|
    decreases |indices|
  {
    if indices != [] {
      ChangesKeepLength(mirror, indices[..|indices| - 1], final);
    }
  }

  ghost predicate Moved(stored: seq<int>, j: nat)
    requires j < |stored|
  {
    stored[j] != -1 && stored[j] + |NewPositions(stored[..j])| != j
  }

  lemma LastChange<T>(mirror: seq<T>, stored: seq<int>, final: seq<T>)
    requires 0 < |stored| <= |mirror| && |stored| <= |final|
    requires |ReplayChanged(mirror, MovedPositions(stored[..|stored| - 1]), final)| == |mirror|
    ensures var n := |stored| - 1;
            var before := ReplayChanged(mirror, MovedPositions(stored[..n]), final);
            ReplayChanged(mirror, MovedPositions(stored), final) ==
            if Moved(stored, n) then before[n := final[n]] else before
  {
    var n := |stored| - 1;
    var before := MovedPositions(stored[..n]);
    if Moved(stored, n) {
      var all := before + [n];
      assert MovedPositions(stored) == all;
      assert all != [] && all[..|all| - 1] == before && all[|all| - 1] == n;
    } else {
      assert MovedPositions(stored) == before;
    }
  }

  lemma {:induction false} ChangesApply<T>(mirror: seq<T>, stored: seq<int>, final: seq<T>, j: nat)
    requires |stored| <= |mirror| && |stored| <= |final| && j < |mirror|
    ensures |ReplayChanged(mirror, MovedPositions(stored), final)| == |mirror|
    ensures ReplayChanged(mirror, MovedPositions(stored), final)[j]
         == if j < |stored| && Moved(stored, j) then final[j] else mirror[j]
    decreases |stored|
  {
    if stored != [] {
      var n := |stored| - 1;
      ChangesApply(mirror, stored[..n], final, j);
      if j < n {
        assert stored[..n][..j] == stored[..j];
      }
      LastChange(mirror, stored, final);
    }
  }

  // ----- Counting old and new items

  lemma {:induction false} NewPositionsCount(stored: seq<int>)
    ensures |NewPositions(stored)| == multiset(stored)[-1]
    decreases |stored|
  {
    if stored != [] {
      var n := |stored| - 1;
      NewPositionsCount(stored[..n]);
      assert stored == stored[..n] + [stored[n]];
    }
  }

  function OldIndices(s: seq<int>): set<int> {
    set k | k in s && k != -1
  }

  lemma {:induction false} OldIndicesCount(s: seq<int>)
    requires DistinctOld(s)
    ensures |OldIndices(s)| == |s| - multiset(s)[-1]
    decreases |s|
  {
    if s != [] {
      var n := |s| - 1;
      OldIndicesCount(s[..n]);
      assert s == s[..n] + [s[n]];
      if s[n] == -1 {
        assert OldIndices(s) == OldIndices(s[..n]);
      } else {
        assert OldIndices(s) == OldIndices(s[..n]) + {s[n]};
        assert s[n] !in s[..n];
      }
    }
  }

  function Range(n: nat): (r: set<int>)
    ensures |r| == n
    ensures forall k :: k in r <==> 0 <= k < n
  {
    if n == 0 then {} else Range(n - 1) + {n - 1}
  }

  /** The base items are exactly the old items that stayed and those that were removed. */
  lemma OldItemsAddUp<T>(base: seq<T>, list: seq<T>, live: seq<int>, removed: seq<int>)
    requires Batch(base, list, live, removed)
    ensures |base| == (|live| - multiset(live)[-1]) + (|removed| - multiset(removed)[-1])
  {
    var all := live + removed;
    OldIndicesCount(all);
    assert OldIndices(all) == Range(|base|);
    assert multiset(all) == multiset(live) + multiset(removed);
  }

  // ----- The sorted deletions: old indices strictly descending, then one -1 for every new item removed

  function OldCount(deleted: seq<int>): (c: nat)
    ensures c <= |deleted|
  {
    if deleted != [] && deleted[|deleted| - 1] == -1 then OldCount(deleted[..|deleted| - 1]) else |deleted|
  }

  function OldPart(deleted: seq<int>): seq<int> {
    deleted[..OldCount(deleted)]
  }

  lemma LastNew(deleted: seq<int>)
    requires deleted != [] && deleted[|deleted| - 1] == -1
    ensures multiset(deleted)[-1] == multiset(deleted[..|deleted| - 1])[-1] + 1
  {
    assert deleted == deleted[..|deleted| - 1] + [-1];
  }

  lemma NoneNew(deleted: seq<int>)
    requires Descending(deleted) && deleted != [] && 0 <= deleted[|deleted| - 1]
    ensures multiset(deleted)[-1] == 0
    ensures forall i :: 0 <= i < |deleted| ==> 0 <= deleted[i]
  {
    forall i | 0 <= i < |deleted| - 1 ensures 0 <= deleted[i] {
      assert deleted[|deleted| - 1] <= deleted[i];
    }
    assert -1 !in deleted;
  }

  lemma {:induction false} OldPartIsPrefix(deleted: seq<int>)
    requires Descending(deleted) && forall i :: 0 <= i < |deleted| ==> -1 <= deleted[i]
    ensures OldCount(deleted) == |deleted| - multiset(deleted)[-1]
    ensures forall i :: 0 <= i < OldCount(deleted) ==> 0 <= deleted[i]
    ensures forall i :: OldCount(deleted) <= i < |deleted| ==> deleted[i] == -1
    decreases |deleted|
  {
    if deleted == [] {
    } else if deleted[|deleted| - 1] == -1 {
      var init := deleted[..|deleted| - 1];
      OldPartIsPrefix(init);
      LastNew(deleted);
    } else {
      NoneNew(deleted);
    }
  }

  lemma {:induction false} DistinctOccurOnce(s: seq<int>, x: int)
    requires DistinctOld(s) && x != -1
    ensures multiset(s)[x] <= 1
    decreases |s|
  {
    if s != [] {
      var n := |s| - 1;
      DistinctOccurOnce(s[..n], x);
      assert s == s[..n] + [s[n]];
      if s[n] == x {
        assert x !in s[..n];
      }
    }
  }

  /** The old part of the sorted deletions is a proper list of removals. */
  lemma OldPartRemoves<T>(base: seq<T>, list: seq<T>, live: seq<int>, removed: seq<int>, deleted: seq<int>)
    requires Batch(base, list, live, removed) && SortedDeletions(removed, deleted)
    ensures && (forall i :: 0 <= i < |deleted| ==> -1 <= deleted[i])
            && RemovalsFor(OldPart(deleted), |base|)
            && |OldPart(deleted)| == |removed| - multiset(removed)[-1]
            && forall k :: k != -1 ==> (k in OldPart(deleted) <==> k in removed)
  {
    assert |multiset(deleted)| == |multiset(removed)|;
    forall k ensures k in deleted <==> k in removed {
      assert k in multiset(deleted) <==> k in multiset(removed);
    }
    forall i | 0 <= i < |deleted| ensures -1 <= deleted[i] < |base| {
      assert deleted[i] in removed;
      assert deleted[i] in live + removed;
    }
    OldPartIsPrefix(deleted);
    assert DistinctOld(removed) by {
      forall i, j | 0 <= i < j < |removed| && removed[i] == removed[j] ensures removed[i] == -1 {
        assert (live + removed)[|live| + i] == (live + removed)[|live| + j];
      }
    }
    forall i, j | 0 <= i < j < |OldPart(deleted)| ensures OldPart(deleted)[j] < OldPart(deleted)[i] {
      if deleted[i] == deleted[j] {
        OccursTwice(deleted, i, j);
        DistinctOccurOnce(removed, deleted[i]);
      }
    }
  }

  lemma {:induction false} IgnoredRemovals<T>(mirror: seq<T>, a: seq<int>, b: seq<int>)
    requires forall i :: 0 <= i < |b| ==> b[i] == -1
    ensures ReplayRemoved(mirror, a + b) == ReplayRemoved(mirror, a)
    decreases |a| + |b|
  {
    if a != [] {
      var k := a[0];
      assert (a + b)[1..] == a[1..] + b;
      IgnoredRemovals(if 0 <= k < |mirror| then mirror[..k] + mirror[k + 1..] else mirror, a[1..], b);
    } else if b != [] {
      assert a + b == b && b[1..] == [] + b[1..];
      IgnoredRemovals(mirror, [], b[1..]);
    }
  }

  lemma {:induction false} ShiftSplits(k: int, a: seq<int>, b: seq<int>)
    ensures ShiftIndex(k, a + b) == ShiftIndex(ShiftIndex(k, a), b)
    decreases |a|
  {
    if a == [] {
      assert a + b == b;
    } else {
      assert (a + b)[1..] == a[1..] + b;
      ShiftSplits(if a[0] < k then k - 1 else k, a[1..], b);
    }
  }

  lemma {:induction false} ShiftToNew(k: int, b: seq<int>)
    requires forall i :: 0 <= i < |b| ==> b[i] == -1
    requires -1 <= k < |b|
    ensures ShiftIndex(k, b) == -1
    decreases |b|
  {
    if b != [] {
      if k == -1 {
        ShiftBelowAll(k, b);
      } else {
        ShiftToNew(k - 1, b[1..]);
      }
    }
  }
}
