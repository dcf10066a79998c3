/** Verified stand-ins for the C++ standard algorithms the modelled code calls:
    std::lower_bound, std::binary_search and std::sort. */
module StandardAlgorithms {
  ghost predicate Ascending<T>(v: seq<T>, keyOf: T -> int) {
    forall i, j :: 0 <= i < j < |v| ==> keyOf(v[i]) <= keyOf(v[j])
  }

  ghost predicate StrictlyAscending<T>(v: seq<T>, keyOf: T -> int) {
    forall i, j :: 0 <= i < j < |v| ==> keyOf(v[i]) < keyOf(v[j])
  }

  /** Position of the first element whose key is not less than `key`. */
  method LowerBound<T>(v: seq<T>, keyOf: T -> int, key: int) returns (at: nat)
    requires Ascending(v, keyOf)
    ensures at <= |v|
    ensures forall k :: 0 <= k < at ==> keyOf(v[k]) < key
    ensures forall k :: at <= k < |v| ==> key <= keyOf(v[k])
  {
    var high := |v|;
    at := 0;
    while at < high
      invariant at <= high <= |v|
      invariant forall k :: 0 <= k < at ==> keyOf(v[k]) < key
      invariant forall k :: high <= k < |v| ==> key <= keyOf(v[k])
    {
      var mid := (at + high) / 2;
      if keyOf(v[mid]) < key {
        at := mid + 1;
      } else {
        high := mid;
      }
    }
  }

  method BinarySearch<T>(v: seq<T>, keyOf: T -> int, key: int) returns (found: bool)
    requires Ascending(v, keyOf)
    ensures found <==> exists k :: 0 <= k < |v| && keyOf(v[k]) == key
  {
    var at := LowerBound(v, keyOf, key);
    found := at < |v| && keyOf(v[at]) == key;
  }

  /** `less` orders its arguments as std::sort demands (a strict weak ordering). */
  ghost predicate StrictWeakOrder<T(!new)>(less: (T, T) -> bool) {
    && (forall a, b :: !less(a, b) || !less(b, a))
    && (forall a, b, c :: !less(b, a) && !less(c, b) ==> !less(c, a))
  }

  ghost predicate SortedBy<T>(v: seq<T>, less: (T, T) -> bool) {
    forall i, j :: 0 <= i < j < |v| ==> !less(v[j], v[i])
  }

  lemma InsertedIsSorted<T>(v: seq<T>, x: T, less: (T, T) -> bool, at: nat)
    requires !less(x, x) && SortedBy(v, less) && at <= |v|
    requires forall k :: 0 <= k < at ==> !less(x, v[k])
    requires forall k :: at <= k < |v| ==> !less(v[k], x)
    ensures SortedBy(v[..at] + [x] + v[at..], less)
  {
    var r := v[..at] + [x] + v[at..];
    forall i, j | 0 <= i < j < |r| ensures !less(r[j], r[i]) {
      assert i != at ==> r[i] == v[if i < at then i else i - 1];
      assert j != at ==> r[j] == v[if j < at then j else j - 1];
    }
  }

  /** Puts an element behind all those it is not less than. */
  method InsertSorted<T(!new)>(v: seq<T>, x: T, less: (T, T) -> bool) returns (r: seq<T>)
    requires StrictWeakOrder(less) && SortedBy(v, less)
    ensures SortedBy(r, less) && multiset(r) == multiset(v) + multiset{x}
  {
    var at := |v|;
    while 0 < at && less(x, v[at - 1])
      invariant 0 <= at <= |v|
      invariant forall k :: at <= k < |v| ==> less(x, v[k])
    {
      at := at - 1;
    }
    InsertedIsSorted(v, x, less, at);
    assert v == v[..at] + v[at..];
    r := v[..at] + [x] + v[at..];
  }

  /** std::sort: some sorted permutation; the order of equivalent elements is not promised. */
  method Sort<T(!new)>(v: seq<T>, less: (T, T) -> bool) returns (r: seq<T>)
    requires StrictWeakOrder(less)
    ensures SortedBy(r, less)
    ensures multiset(r) == multiset(v)
  {
    r := [];
    for n := 0 to |v|
      invariant SortedBy(r, less)
      invariant multiset(r) == multiset(v[..n])
    {
      assert v[..n + 1] == v[..n] + [v[n]];
      r := InsertSorted(r, v[n], less);
    }
    assert v[..|v|] == v;
  }
}
