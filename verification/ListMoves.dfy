/** Rearrangements of a list: moving one item, shifting a selection as a block, reversing.

    Each is a function here with what it means for the places of the items. The loops that do it in place
    are in the collection. */
module ListMoves {
  import opened Basics

  ghost predicate Permutation<T>(a: seq<T>, b: seq<T>) {
    multiset(a) == multiset(b)
  }

  /** Takes the item at `from` out and puts it back at `to`. */
  function MovedTo<T>(s: seq<T>, from: nat, to: nat): seq<T>
    requires from < |s| && to < |s|
  {
    var rest := s[..from] + s[from + 1..];
    rest[..to] + [s[from]] + rest[to..]
  }

  lemma MovedToPermutes<T>(s: seq<T>, from: nat, to: nat)
    requires from < |s| && to < |s|
    ensures |MovedTo(s, from, to)| == |s|
    ensures Permutation(MovedTo(s, from, to), s)
  {
    var rest := s[..from] + s[from + 1..];
    assert multiset(s) == multiset(rest) + multiset{s[from]} by {
      assert s == s[..from] + [s[from]] + s[from + 1..];
    }
    assert multiset(rest) == multiset(rest[..to]) + multiset(rest[to..]) by {
      assert rest == rest[..to] + rest[to..];
    }
  }

  /** The places the items end up at. */
  lemma MovedToAt<T>(s: seq<T>, from: nat, to: nat, k: nat)
    requires from < |s| && to < |s| && k < |s|
    ensures |MovedTo(s, from, to)| == |s|
    ensures MovedTo(s, from, to)[k] ==
            if k == to then s[from]
            else if from < to && from <= k < to then s[k + 1]
            else if to < from && to < k <= from then s[k - 1]
            else s[k]
  {
  }

  /** Moving within a prefix leaves the rest alone. */
  lemma MovedToPrefix<T>(s: seq<T>, n: nat, from: nat, to: nat)
    requires n <= |s| && from < n && to < n
    ensures |MovedTo(s, from, to)| == |s|
    ensures MovedTo(s, from, to)[..n] == MovedTo(s[..n], from, to)
    ensures MovedTo(s, from, to)[n..] == s[n..]
  {
    forall k | 0 <= k < |s| ensures MovedTo(s, from, to)[k] == if k < n then MovedTo(s[..n], from, to)[k] else s[k] {
      MovedToAt(s, from, to, k);
      if k < n {
        MovedToAt(s[..n], from, to, k);
      }
    }
  }

  // ----- Selections

  /** The items inside (or outside) the selection, in list order. */
  function Only<T>(s: seq<T>, selection: T -> bool, inside: bool): (r: seq<T>)
    ensures |r| <= |s|
  {
    if s == [] then []
    else Only(s[..|s| - 1], selection, inside) + (if selection(s[|s| - 1]) == inside then [s[|s| - 1]] else [])
  }

  function Picked<T>(s: seq<T>, selection: T -> bool): seq<T> {
    Only(s, selection, true)
  }

  function Unpicked<T>(s: seq<T>, selection: T -> bool): seq<T> {
    Only(s, selection, false)
  }

  lemma OnlyUnfold<T>(s: seq<T>, selection: T -> bool, inside: bool)
    requires s != []
    ensures Only(s, selection, inside) ==
            Only(s[..|s| - 1], selection, inside) + (if selection(s[|s| - 1]) == inside then [s[|s| - 1]] else [])
  {
  }

  lemma {:induction false} OnlyMembers<T>(s: seq<T>, selection: T -> bool, inside: bool)
    ensures forall k :: 0 <= k < |Only(s, selection, inside)| ==> selection(Only(s, selection, inside)[k]) == inside
    decreases |s|
  {
    if s != [] {
      OnlyMembers(s[..|s| - 1], selection, inside);
    }
  }

  lemma {:induction false} OnlyConcat<T>(a: seq<T>, b: seq<T>, selection: T -> bool, inside: bool)
    ensures Only(a + b, selection, inside) == Only(a, selection, inside) + Only(b, selection, inside)
    decreases |b|
  {
    if b == [] {
      assert a + b == a;
    } else {
      var n := |b| - 1;
      OnlyConcat(a, b[..n], selection, inside);
      OnlyUnfold(b, selection, inside);
      OnlyUnfold(a + b, selection, inside);
      assert (a + b)[..|a| + n] == a + b[..n] && (a + b)[|a| + n] == b[n];
      Regroup(Only(a, selection, inside), Only(b[..n], selection, inside),
              if selection(b[n]) == inside then [b[n]] else []);
    }
  }

  lemma {:induction false} OnlyAll<T>(s: seq<T>, selection: T -> bool, inside: bool)
    requires forall k :: 0 <= k < |s| ==> selection(s[k]) == inside
    ensures Only(s, selection, inside) == s && Only(s, selection, !inside) == []
    decreases |s|
  {
    if s != [] {
      OnlyAll(s[..|s| - 1], selection, inside);
    }
  }

  /** Selecting twice. */
  lemma {:induction false} OnlyTwice<T>(s: seq<T>, selection: T -> bool, inside: bool)
    ensures Only(Only(s, selection, inside), selection, inside) == Only(s, selection, inside)
    ensures Only(Only(s, selection, inside), selection, !inside) == []
    decreases |s|
  {
    if s != [] {
      var rest, last := Only(s[..|s| - 1], selection, inside), s[|s| - 1];
      var all := Only(s, selection, inside);
      OnlyTwice(s[..|s| - 1], selection, inside);
      OnlyUnfold(s, selection, inside);
      if selection(last) == inside {
        assert all == rest + [last] && all[..|all| - 1] == rest;
        OnlyUnfold(all, selection, inside);
        OnlyUnfold(all, selection, !inside);
      } else {
        assert all == rest;
      }
    }
  }

  lemma {:induction false} OnlySplits<T>(s: seq<T>, selection: T -> bool)
    ensures multiset(Picked(s, selection)) + multiset(Unpicked(s, selection)) == multiset(s)
    decreases |s|
  {
    if s != [] {
      var n := |s| - 1;
      OnlySplits(s[..n], selection);
      assert s == s[..n] + [s[n]];
      if selection(s[n]) {
        assert Unpicked(s, selection) == Unpicked(s[..n], selection);
      } else {
        assert Picked(s, selection) == Picked(s[..n], selection);
      }
    }
  }

  /** The position of the first selected item, or the length when there is none. */
  function FirstPicked<T>(s: seq<T>, selection: T -> bool): (r: nat)
    ensures r <= |s|
    ensures forall k :: 0 <= k < r ==> !selection(s[k])
    ensures r < |s| ==> selection(s[r])
  {
    if s == [] then 0 else if selection(s[0]) then 0 else 1 + FirstPicked(s[1..], selection)
  }

  /** One past the last selected item, or 0 when there is none. */
  function AfterLastPicked<T>(s: seq<T>, selection: T -> bool): (r: nat)
    ensures r <= |s|
    ensures forall k :: r <= k < |s| ==> !selection(s[k])
    ensures 0 < r ==> selection(s[r - 1])
  {
    if s == [] then 0
    else if selection(s[|s| - 1]) then |s|
    else AfterLastPicked(s[..|s| - 1], selection)
  }

  /** Where the block of a shift up starts: one place before the first selected item, or 0. */
  function BlockStart<T>(s: seq<T>, selection: T -> bool): (r: nat)
    ensures r <= |s|
  {
    var first := FirstPicked(s, selection);
    if first == 0 then 0 else first - 1
  }

  /** Where the block of a shift down ends: one place after the last selected item, or the end. */
  function BlockEnd<T>(s: seq<T>, selection: T -> bool): (r: nat)
    ensures r <= |s|
  {
    var after := AfterLastPicked(s, selection);
    if after == |s| then |s| else after + 1
  }

  function ShiftedUp<T>(s: seq<T>, selection: T -> bool): seq<T> {
    var p := BlockStart(s, selection);
    s[..p] + Picked(s, selection) + Unpicked(s[p..], selection)
  }

  function ShiftedDown<T>(s: seq<T>, selection: T -> bool): seq<T> {
    var q := BlockEnd(s, selection);
    Unpicked(s[..q], selection) + Picked(s, selection) + s[q..]
  }

  lemma OnlyConcat3<T>(a: seq<T>, b: seq<T>, c: seq<T>, selection: T -> bool, inside: bool)
    ensures Only(a + b + c, selection, inside) ==
            Only(a, selection, inside) + Only(b, selection, inside) + Only(c, selection, inside)
  {
    OnlyConcat(a, b, selection, inside);
    OnlyConcat(a + b, c, selection, inside);
  }

  /** Drawing the two groups together changes neither. */
  lemma OnlyOfGroups<T>(b: seq<T>, selection: T -> bool, inside: bool, first: bool)
    ensures Only(Only(b, selection, first) + Only(b, selection, !first), selection, inside) ==
            Only(b, selection, inside)
  {
    var x, y := Only(b, selection, first), Only(b, selection, !first);
    OnlyConcat(x, y, selection, inside);
    OnlyTwice(b, selection, first);
    OnlyTwice(b, selection, !first);
  }

  /** `grouped` is `s` with the two groups of its middle part drawn together. */
  ghost predicate Grouped<T>(grouped: seq<T>, s: seq<T>, a: seq<T>, b: seq<T>, c: seq<T>, selection: T -> bool,
                             first: bool) {
    && s == a + b + c
    && grouped == a + (Only(b, selection, first) + Only(b, selection, !first)) + c
  }

  lemma GroupsKeepOrder<T>(grouped: seq<T>, s: seq<T>, a: seq<T>, b: seq<T>, c: seq<T>, selection: T -> bool,
                           first: bool, inside: bool)
    requires Grouped(grouped, s, a, b, c, selection, first)
    ensures Only(grouped, selection, inside) == Only(s, selection, inside)
    ensures Permutation(grouped, s)
  {
    OnlyOfGroups(b, selection, inside, first);
    OnlyConcat3(a, Only(b, selection, first) + Only(b, selection, !first), c, selection, inside);
    OnlyConcat3(a, b, c, selection, inside);
    OnlySplits(b, selection);
  }

  lemma PickedNone<T>(s: seq<T>, selection: T -> bool)
    requires forall k :: 0 <= k < |s| ==> !selection(s[k])
    ensures Picked(s, selection) == []
  {
    OnlyAll(s, selection, false);
  }

  /** The selected items are those behind (or before) a place on the other side of which none is selected. */
  lemma PickedBehind<T>(s: seq<T>, selection: T -> bool, p: nat)
    requires p <= |s| && forall k :: 0 <= k < p ==> !selection(s[k])
    ensures Picked(s, selection) == Picked(s[p..], selection)
  {
    assert s == s[..p] + s[p..];
    PickedNone(s[..p], selection);
    OnlyConcat(s[..p], s[p..], selection, true);
  }

  lemma PickedBefore<T>(s: seq<T>, selection: T -> bool, q: nat)
    requires q <= |s| && forall k :: q <= k < |s| ==> !selection(s[k])
    ensures Picked(s, selection) == Picked(s[..q], selection)
  {
    assert s == s[..q] + s[q..];
    PickedNone(s[q..], selection);
    OnlyConcat(s[..q], s[q..], selection, true);
  }

  lemma NothingBefore<T>(a: seq<T>, b: seq<T>, c: seq<T>)
    ensures a + b + c == [] + (a + b) + c
  {
  }

  lemma MoveSeam<T>(a: seq<T>, b: seq<T>, c: seq<T>, d: seq<T>)
    ensures a + (b + c) + d == a + b + (c + d)
  {
  }

  lemma ShiftedUpGroups<T>(s: seq<T>, selection: T -> bool)
    ensures var p := BlockStart(s, selection);
            Grouped(ShiftedUp(s, selection), s, s[..p], s[p..], [], selection, true)
  {
    var p := BlockStart(s, selection);
    PickedBehind(s, selection, p);
    assert s == s[..p] + s[p..] + [];
  }

  lemma ShiftedDownGroups<T>(s: seq<T>, selection: T -> bool)
    ensures var q := BlockEnd(s, selection);
            Grouped(ShiftedDown(s, selection), s, [], s[..q], s[q..], selection, false)
  {
    var q := BlockEnd(s, selection);
    PickedBefore(s, selection, q);
    NothingBefore(Unpicked(s[..q], selection), Picked(s, selection), s[q..]);
    assert s == [] + s[..q] + s[q..];
  }

  /** A shift is a stable block move: a permutation that keeps the order of both groups. */
  lemma ShiftedUpIsStable<T>(s: seq<T>, selection: T -> bool)
    ensures Permutation(ShiftedUp(s, selection), s)
    ensures Picked(ShiftedUp(s, selection), selection) == Picked(s, selection)
    ensures Unpicked(ShiftedUp(s, selection), selection) == Unpicked(s, selection)
  {
    var p := BlockStart(s, selection);
    ShiftedUpGroups(s, selection);
    GroupsKeepOrder(ShiftedUp(s, selection), s, s[..p], s[p..], [], selection, true, true);
    GroupsKeepOrder(ShiftedUp(s, selection), s, s[..p], s[p..], [], selection, true, false);
  }

  lemma ShiftedDownIsStable<T>(s: seq<T>, selection: T -> bool)
    ensures Permutation(ShiftedDown(s, selection), s)
    ensures Picked(ShiftedDown(s, selection), selection) == Picked(s, selection)
    ensures Unpicked(ShiftedDown(s, selection), selection) == Unpicked(s, selection)
  {
    var q := BlockEnd(s, selection);
    ShiftedDownGroups(s, selection);
    GroupsKeepOrder(ShiftedDown(s, selection), s, [], s[..q], s[q..], selection, false, true);
    GroupsKeepOrder(ShiftedDown(s, selection), s, [], s[..q], s[q..], selection, false, false);
  }

  lemma OnlyLengths<T>(s: seq<T>, selection: T -> bool)
    ensures |Picked(s, selection)| + |Unpicked(s, selection)| == |s|
  {
    OnlySplits(s, selection);
    assert |multiset(s)| == |s|;
  }

  /** The selected items end up in one block, which starts one place before the first of them was. */
  lemma ShiftedUpPlace<T>(s: seq<T>, selection: T -> bool, first: nat)
    requires first < |s| && selection(s[first]) && forall k :: 0 <= k < first ==> !selection(s[k])
    ensures |ShiftedUp(s, selection)| == |s|
    ensures var start := if first == 0 then 0 else first - 1;
            forall k :: 0 <= k < |s| ==>
                          (selection(ShiftedUp(s, selection)[k]) <==> start <= k < start + |Picked(s, selection)|)
  {
    var p := BlockStart(s, selection);
    assert FirstPicked(s, selection) == first;
    OnlyMembers(s, selection, true);
    OnlyMembers(s[p..], selection, false);
    PickedBehind(s, selection, p);
    OnlyLengths(s[p..], selection);
  }

  /** Downwards the block ends one place after the last of them was. */
  lemma ShiftedDownPlace<T>(s: seq<T>, selection: T -> bool, last: nat)
    requires last < |s| && selection(s[last]) && forall k :: last < k < |s| ==> !selection(s[k])
    ensures |ShiftedDown(s, selection)| == |s|
    ensures var end := if last == |s| - 1 then |s| else last + 2;
            forall k :: 0 <= k < |s| ==>
                          (selection(ShiftedDown(s, selection)[k]) <==> end - |Picked(s, selection)| <= k < end)
  {
    var q := BlockEnd(s, selection);
    assert AfterLastPicked(s, selection) == last + 1;
    OnlyMembers(s, selection, true);
    OnlyMembers(s[..q], selection, false);
    PickedBefore(s, selection, q);
    OnlyLengths(s[..q], selection);
  }

  // ----- One turn of the shift loops

  lemma MoveAcross<T>(a: seq<T>, b: seq<T>, x: T, c: seq<T>)
    ensures MovedTo(a + b + [x] + c, |a| + |b|, |a|) == a + [x] + b + c
  {
    var s := a + b + [x] + c;
    var rest := s[..|a| + |b|] + s[|a| + |b| + 1..];
    assert rest == a + b + c;
    assert rest[..|a|] == a && rest[|a|..] == b + c;
  }

  lemma MoveAcrossDown<T>(a: seq<T>, x: T, b: seq<T>, c: seq<T>)
    ensures MovedTo(a + [x] + b + c, |a|, |a| + |b|) == a + b + [x] + c
  {
    var s := a + [x] + b + c;
    var rest := s[..|a|] + s[|a| + 1..];
    assert rest == a + b + c;
    assert rest[..|a| + |b|] == a + b && rest[|a| + |b|..] == c;
  }

  /** The list once the positions from `p` to `i` have been shifted up. */
  function Shifted<T>(s: seq<T>, selection: T -> bool, p: nat, i: nat): seq<T>
    requires p <= i <= |s|
  {
    s[..p] + Picked(s[p..i], selection) + Unpicked(s[p..i], selection) + s[i..]
  }

  /** The list once the positions before `i` have been shifted up. */
  function UpForm<T>(s: seq<T>, selection: T -> bool, i: nat): seq<T>
    requires BlockStart(s, selection) <= i <= |s|
  {
    Shifted(s, selection, BlockStart(s, selection), i)
  }

  lemma GlueParts<T>(s: seq<T>, i: nat, j: nat)
    requires i <= j <= |s|
    ensures s[..i] + [] + s[i..j] + s[j..] == s
    ensures s[..i] + s[i..j] + [] + s[j..] == s
  {
    assert s[..i] + [] == s[..i];
    assert s[..i] + s[i..j] == s[..j];
  }

  lemma UpFormStarts<T>(s: seq<T>, selection: T -> bool)
    ensures UpForm(s, selection, FirstPicked(s, selection)) == s
  {
    var p, first := BlockStart(s, selection), FirstPicked(s, selection);
    OnlyAll(s[p..first], selection, false);
    GlueParts(s, p, first);
  }

  lemma UpFormEnds<T>(s: seq<T>, selection: T -> bool)
    ensures UpForm(s, selection, |s|) == ShiftedUp(s, selection)
  {
    var p := BlockStart(s, selection);
    PickedBehind(s, selection, p);
    assert s[p..|s|] == s[p..] && s[|s|..] == [];
  }

  lemma OnlyLast<T>(s: seq<T>, i: nat, j: nat, selection: T -> bool, inside: bool)
    requires i <= j < |s|
    ensures Only(s[i..j + 1], selection, inside) ==
            Only(s[i..j], selection, inside) + (if selection(s[j]) == inside then [s[j]] else [])
  {
    assert s[i..j + 1][..j - i] == s[i..j];
  }

  lemma MoveToEndOfBlock<T>(a: seq<T>, up: seq<T>, down: seq<T>, x: T, c: seq<T>)
    ensures MovedTo(a + up + down + ([x] + c), |a| + |up| + |down|, |a| + |up|) == a + (up + [x]) + down + c
  {
    MoveAcross(a + up, down, x, c);
    assert a + up + down + ([x] + c) == (a + up) + down + [x] + c;
    assert a + (up + [x]) + down + c == (a + up) + [x] + down + c;
  }

  /** What the next selected item adds to both groups. */
  lemma NextPicked<T>(s: seq<T>, selection: T -> bool, i: nat, p: nat)
    requires p <= i < |s| && selection(s[i])
    ensures Picked(s[p..i + 1], selection) == Picked(s[p..i], selection) + [s[i]]
    ensures Unpicked(s[p..i + 1], selection) == Unpicked(s[p..i], selection)
    ensures |Picked(s[p..i], selection)| + |Unpicked(s[p..i], selection)| == i - p
  {
    OnlyLengths(s[p..i], selection);
    OnlyLast(s, p, i, selection, true);
    OnlyLast(s, p, i, selection, false);
  }

  lemma ShiftedMove<T>(s: seq<T>, selection: T -> bool, i: nat, p: nat, to: nat)
    requires p <= i < |s| && selection(s[i]) && to == p + |Picked(s[p..i], selection)|
    ensures to < |Shifted(s, selection, p, i)| == |Shifted(s, selection, p, i + 1)| == |s|
    ensures Shifted(s, selection, p, i + 1) == MovedTo(Shifted(s, selection, p, i), i, to)
  {
    var up, down := Picked(s[p..i], selection), Unpicked(s[p..i], selection);
    NextPicked(s, selection, i, p);
    assert s[i..] == [s[i]] + s[i + 1..];
    MoveToEndOfBlock(s[..p], up, down, s[i], s[i + 1..]);
  }

  /** One turn of the loop that shifts up, on a selected item. */
  lemma UpFormMove<T>(s: seq<T>, selection: T -> bool, i: nat, p: nat, to: nat)
    requires p == BlockStart(s, selection) <= i < |s| && selection(s[i])
    requires to == p + |Picked(s[p..i], selection)|
    ensures |Picked(s[p..i + 1], selection)| == |Picked(s[p..i], selection)| + 1
    ensures to < |UpForm(s, selection, i)| == |UpForm(s, selection, i + 1)| == |s|
    ensures UpForm(s, selection, i + 1) == MovedTo(UpForm(s, selection, i), i, to)
  {
    NextPicked(s, selection, i, p);
    ShiftedMove(s, selection, i, p, to);
  }

  /** What the next other item adds to both groups. */
  lemma NextSkipped<T>(s: seq<T>, selection: T -> bool, i: nat, p: nat)
    requires p <= i < |s| && !selection(s[i])
    ensures Picked(s[p..i + 1], selection) == Picked(s[p..i], selection)
    ensures Unpicked(s[p..i + 1], selection) == Unpicked(s[p..i], selection) + [s[i]]
  {
    OnlyLast(s, p, i, selection, true);
    OnlyLast(s, p, i, selection, false);
  }

  lemma TakeFirst<T>(s: seq<T>, i: nat)
    requires i < |s|
    ensures s[i..] == [s[i]] + s[i + 1..]
  {
  }

  /** One turn of the loop that shifts up, on any other item. */
  lemma UpFormSkip<T>(s: seq<T>, selection: T -> bool, i: nat)
    requires BlockStart(s, selection) <= i < |s| && !selection(s[i])
    ensures var p := BlockStart(s, selection);
            UpForm(s, selection, i + 1) == UpForm(s, selection, i)
            && Picked(s[p..i + 1], selection) == Picked(s[p..i], selection)
  {
    var p := BlockStart(s, selection);
    var up, down := Picked(s[p..i], selection), Unpicked(s[p..i], selection);
    NextSkipped(s, selection, i, p);
    TakeFirst(s, i);
    MoveSeam(s[..p] + up, down, [s[i]], s[i + 1..]);
  }

  /** The list once the positions from `i` on have been shifted down. */
  function DownForm<T>(s: seq<T>, selection: T -> bool, i: nat): seq<T>
    requires i <= BlockEnd(s, selection)
  {
    var q := BlockEnd(s, selection);
    s[..i] + Unpicked(s[i..q], selection) + Picked(s[i..q], selection) + s[q..]
  }

  lemma DownFormStarts<T>(s: seq<T>, selection: T -> bool)
    ensures DownForm(s, selection, AfterLastPicked(s, selection)) == s
  {
    var q, after := BlockEnd(s, selection), AfterLastPicked(s, selection);
    OnlyAll(s[after..q], selection, false);
    GlueParts(s, after, q);
  }

  lemma DownFormEnds<T>(s: seq<T>, selection: T -> bool)
    ensures DownForm(s, selection, 0) == ShiftedDown(s, selection)
  {
    var q := BlockEnd(s, selection);
    PickedBefore(s, selection, q);
    assert s[0..q] == s[..q] && s[..0] == [];
    assert [] + Unpicked(s[..q], selection) == Unpicked(s[..q], selection);
  }

  lemma {:induction false} OnlyFirst<T>(x: T, s: seq<T>, selection: T -> bool, inside: bool)
    ensures Only([x] + s, selection, inside) ==
            (if selection(x) == inside then [x] else []) + Only(s, selection, inside)
  {
    OnlyConcat([x], s, selection, inside);
    assert [x][..0] == [];
  }

  lemma MoveToStartOfBlock<T>(a: seq<T>, x: T, up: seq<T>, down: seq<T>, c: seq<T>)
    ensures MovedTo((a + [x]) + up + down + c, |a|, |a| + |up|) == a + up + ([x] + down) + c
  {
    MoveAcrossDown(a, x, up, down + c);
    assert (a + [x]) + up + down + c == a + [x] + up + (down + c);
    assert a + up + ([x] + down) + c == a + up + [x] + (down + c);
  }

  lemma OnlyFrom<T>(s: seq<T>, i: nat, q: nat, selection: T -> bool, inside: bool)
    requires i < q <= |s|
    ensures Only(s[i..q], selection, inside) ==
            (if selection(s[i]) == inside then [s[i]] else []) + Only(s[i + 1..q], selection, inside)
  {
    assert s[i..q] == [s[i]] + s[i + 1..q];
    OnlyFirst(s[i], s[i + 1..q], selection, inside);
  }

  /** One turn of the loop that shifts down, on a selected item. */
  lemma DownFormMove<T>(s: seq<T>, selection: T -> bool, i: nat, q: nat, to: int)
    requires i < q == BlockEnd(s, selection) && selection(s[i])
    requires to == q - |Picked(s[i + 1..q], selection)| - 1
    ensures |Picked(s[i..q], selection)| == |Picked(s[i + 1..q], selection)| + 1
    ensures 0 <= to < |DownForm(s, selection, i)| == |DownForm(s, selection, i + 1)| == |s|
    ensures DownForm(s, selection, i) == MovedTo(DownForm(s, selection, i + 1), i, to)
  {
    var up, down := Unpicked(s[i + 1..q], selection), Picked(s[i + 1..q], selection);
    assert |down| + |up| == q - i - 1 by {
      OnlyLengths(s[i + 1..q], selection);
    }
    assert Picked(s[i..q], selection) == [s[i]] + down by {
      OnlyFrom(s, i, q, selection, true);
    }
    assert Unpicked(s[i..q], selection) == up by {
      OnlyFrom(s, i, q, selection, false);
    }
    assert s[..i + 1] == s[..i] + [s[i]];
    MoveToStartOfBlock(s[..i], s[i], up, down, s[q..]);
  }

  lemma MoveSeams<T>(a: seq<T>, b: seq<T>, c: seq<T>, d: seq<T>, e: seq<T>)
    ensures (a + b) + c + d + e == a + (b + c) + d + e
  {
    assert (a + b) + c == a + (b + c);
  }

  /** What the previous other item adds to both groups. */
  lemma PreviousSkipped<T>(s: seq<T>, selection: T -> bool, i: nat, q: nat)
    requires i < q <= |s| && !selection(s[i])
    ensures Picked(s[i..q], selection) == Picked(s[i + 1..q], selection)
    ensures Unpicked(s[i..q], selection) == [s[i]] + Unpicked(s[i + 1..q], selection)
  {
    OnlyFrom(s, i, q, selection, true);
    OnlyFrom(s, i, q, selection, false);
  }

  /** One turn of the loop that shifts down, on any other item. */
  lemma DownFormSkip<T>(s: seq<T>, selection: T -> bool, i: nat)
    requires i < BlockEnd(s, selection) && !selection(s[i])
    ensures var q := BlockEnd(s, selection);
            DownForm(s, selection, i) == DownForm(s, selection, i + 1)
            && Picked(s[i..q], selection) == Picked(s[i + 1..q], selection)
  {
    var q := BlockEnd(s, selection);
    var up, down := Unpicked(s[i + 1..q], selection), Picked(s[i + 1..q], selection);
    PreviousSkipped(s, selection, i, q);
    assert s[..i + 1] == s[..i] + [s[i]];
    MoveSeams(s[..i], [s[i]], up, down, s[q..]);
  }

  function Reversed<T>(s: seq<T>): (r: seq<T>)
    ensures |r| == |s|
  {
    seq(|s|, i requires 0 <= i < |s| => s[|s| - 1 - i])
  }

  /** Where every item stands. */
  lemma ReversedAt<T>(s: seq<T>, k: nat)
    requires k < |s|
    ensures Reversed(s)[k] == s[|s| - 1 - k] && Reversed(s)[|s| - 1 - k] == s[k]
  {
  }

  lemma {:induction false} ReversedPermutes<T>(s: seq<T>)
    ensures Permutation(Reversed(s), s)
    decreases |s|
  {
    if s != [] {
      ReversedPermutes(s[1..]);
      assert Reversed(s) == Reversed(s[1..]) + [s[0]];
      assert s == [s[0]] + s[1..];
    }
  }
}
