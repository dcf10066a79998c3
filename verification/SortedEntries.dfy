/** A map kept as a vector of entries sorted by key, found with std::lower_bound. */
module SortedEntries {
  import opened StandardAlgorithms

  ghost predicate HasKey<T>(v: seq<T>, keyOf: T -> int, k: int) {
    exists i :: 0 <= i < |v| && keyOf(v[i]) == k
  }

  /** The vector is sorted and holds exactly the entries of `m`, each encoded as an element. */
  ghost predicate Represents<T, V>(v: seq<T>, keyOf: T -> int, encode: (int, V) -> T, m: map<int, V>) {
    && StrictlyAscending(v, keyOf)
    && (forall i :: 0 <= i < |v| ==> keyOf(v[i]) in m && v[i] == encode(keyOf(v[i]), m[keyOf(v[i])]))
    && (forall k :: k in m ==> HasKey(v, keyOf, k))
  }

  /** Finds the entry of a key, or the place where it belongs. */
  method Find<T, V>(v: seq<T>, keyOf: T -> int, ghost encode: (int, V) -> T, k: int, ghost m: map<int, V>)
    returns (at: nat, found: bool)
    requires Represents(v, keyOf, encode, m)
    ensures found <==> k in m
    ensures found ==> at < |v| && keyOf(v[at]) == k && v[at] == encode(k, m[k])
    ensures at <= |v| && (forall i :: 0 <= i < at ==> keyOf(v[i]) < k)
            && (forall i :: at <= i < |v| ==> k <= keyOf(v[i]))
  {
    at := LowerBound(v, keyOf, k);
    found := at < |v| && keyOf(v[at]) == k;
    if HasKey(v, keyOf, k) {
      var i :| 0 <= i < |v| && keyOf(v[i]) == k;
      assert at <= i;
    }
  }

  lemma InsertHasKeys<T>(v: seq<T>, keyOf: T -> int, at: nat, e: T, k: int)
    requires at <= |v|
    ensures HasKey(v[..at] + [e] + v[at..], keyOf, k) <==> HasKey(v, keyOf, k) || k == keyOf(e)
  {
    var r := v[..at] + [e] + v[at..];
    assert r[at] == e;
    if HasKey(v, keyOf, k) {
      var i :| 0 <= i < |v| && keyOf(v[i]) == k;
      assert r[if i < at then i else i + 1] == v[i];
    }
    if HasKey(r, keyOf, k) && k != keyOf(e) {
      var i :| 0 <= i < |r| && keyOf(r[i]) == k;
      assert r[i] == v[if i < at then i else i - 1];
    }
  }

  lemma InsertRepresents<T, V>(v: seq<T>, keyOf: T -> int, encode: (int, V) -> T, m: map<int, V>, at: nat, e: T,
                               value: V)
    requires Represents(v, keyOf, encode, m) && keyOf(e) !in m && at <= |v| && e == encode(keyOf(e), value)
    requires forall i :: 0 <= i < at ==> keyOf(v[i]) < keyOf(e)
    requires forall i :: at <= i < |v| ==> keyOf(e) <= keyOf(v[i])
    ensures Represents(v[..at] + [e] + v[at..], keyOf, encode, m[keyOf(e) := value])
  {
    forall k ensures HasKey(v[..at] + [e] + v[at..], keyOf, k) <==> HasKey(v, keyOf, k) || k == keyOf(e) {
      InsertHasKeys(v, keyOf, at, e, k);
    }
  }

  lemma ReplaceRepresents<T, V>(v: seq<T>, keyOf: T -> int, encode: (int, V) -> T, m: map<int, V>, at: nat, e: T,
                                value: V)
    requires Represents(v, keyOf, encode, m) && e == encode(keyOf(e), value) && at < |v| && keyOf(v[at]) == keyOf(e)
    ensures Represents(v[at := e], keyOf, encode, m[keyOf(e) := value])
  {
    var r := v[at := e];
    forall i | 0 <= i < |v| ensures keyOf(r[i]) == keyOf(v[i]) && (i != at ==> keyOf(v[i]) != keyOf(e)) {
      if i < at {
        assert keyOf(v[i]) < keyOf(v[at]);
      } else if at < i {
        assert keyOf(v[at]) < keyOf(v[i]);
      }
    }
    forall k | k in m ensures HasKey(r, keyOf, k) {
      assert HasKey(v, keyOf, k);
      var i :| 0 <= i < |v| && keyOf(v[i]) == k;
      assert keyOf(r[i]) == k;
    }
    assert keyOf(r[at]) == keyOf(e);
  }

  lemma EraseRepresents<T, V>(v: seq<T>, keyOf: T -> int, encode: (int, V) -> T, m: map<int, V>, at: nat)
    requires Represents(v, keyOf, encode, m) && at < |v|
    ensures Represents(v[..at] + v[at + 1..], keyOf, encode, m - {keyOf(v[at])})
  {
    var r := v[..at] + v[at + 1..];
    forall i | 0 <= i < |r| ensures r[i] == v[if i < at then i else i + 1] && keyOf(r[i]) != keyOf(v[at]) {
      if i < at {
        assert keyOf(v[i]) < keyOf(v[at]);
      } else {
        assert keyOf(v[at]) < keyOf(v[i + 1]);
      }
    }
    forall i, j | 0 <= i < j < |r| ensures keyOf(r[i]) < keyOf(r[j]) {
      assert keyOf(v[if i < at then i else i + 1]) < keyOf(v[if j < at then j else j + 1]);
    }
    forall k | k in m - {keyOf(v[at])} ensures HasKey(r, keyOf, k) {
      assert HasKey(v, keyOf, k);
      var i :| 0 <= i < |v| && keyOf(v[i]) == k;
      assert r[if i < at then i else i - 1] == v[i];
    }
  }
}
