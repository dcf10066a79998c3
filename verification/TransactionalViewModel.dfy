/** The view model of src/ui/TransactionalViewModelBase.cpp: the transactions of the data model a second
    time, with one map for original integers and booleans and one for strings, proved against snapshots. */
module TransactionalViewModel {
  import opened Basics
  import opened Transactions
  import SortedEntries
  import opened Reports
  import DataModel

  /** The original values a transaction keeps; booleans are kept among the integers. */
  datatype Originals = Originals(ints: map<int, int>, strings: map<int, string>)

  const NO_ORIGINALS := Originals(map[], map[])

  function ToInt(v: Value): int {
    match v
    case BoolValue(b) => if b then 1 else 0
    case IntValue(n) => n
    case StringValue(_) => 0
  }

  function FromInt(kind: Kind, n: int): Value {
    if kind == BoolKind then BoolValue(n != 0) else IntValue(n)
  }

  /** The two maps hold exactly the entries of `level`, each property in the map of its kind. */
  ghost predicate Holds(schema: Schema, o: Originals, level: Values) {
    && level.Keys <= schema.tracked <= schema.kinds.Keys
    && (forall k :: k in o.ints <==> k in level && schema.kinds[k] != StringKind)
    && (forall k :: k in o.strings <==> k in level && schema.kinds[k] == StringKind)
    && (forall k :: k in o.ints ==> level[k] == FromInt(schema.kinds[k], o.ints[k]))
    && (forall k :: k in o.strings ==> level[k] == StringValue(o.strings[k]))
  }

  lemma HeldInt(schema: Schema, o: Originals, level: Values, k: int)
    requires Holds(schema, o, level) && k in o.ints
    ensures k in level && k in schema.tracked && k in schema.kinds && schema.kinds[k] != StringKind
    ensures level[k] == FromInt(schema.kinds[k], o.ints[k]) && KindOf(level[k]) == schema.kinds[k]
  {
  }

  lemma HeldString(schema: Schema, o: Originals, level: Values, k: int)
    requires Holds(schema, o, level) && k in o.strings
    ensures k in level && k in schema.tracked && k in schema.kinds && schema.kinds[k] == StringKind
    ensures level[k] == StringValue(o.strings[k])
  {
  }

  ghost predicate AllHold(schema: Schema, chain: seq<Originals>, levels: seq<Values>) {
    && |chain| == |levels|
    && (chain != [] ==> Holds(schema, chain[0], levels[0]) && AllHold(schema, chain[1..], levels[1..]))
  }

  lemma PushHolds(schema: Schema, o: Originals, level: Values, chain: seq<Originals>, levels: seq<Values>)
    requires Holds(schema, o, level) && AllHold(schema, chain, levels)
    ensures AllHold(schema, [o] + chain, [level] + levels)
  {
    assert ([o] + chain)[1..] == chain && ([level] + levels)[1..] == levels;
  }

  lemma PopHolds(schema: Schema, chain: seq<Originals>, levels: seq<Values>)
    requires AllHold(schema, chain, levels) && levels != []
    ensures Holds(schema, chain[0], levels[0]) && AllHold(schema, chain[1..], levels[1..])
  {
  }

  /** The booleans a level records all differ from their current values. */
  ghost predicate BoolsDiffer(schema: Schema, level: Values, values: Values) {
    forall k :: k in level && k in values && k in schema.kinds && schema.kinds[k] == BoolKind ==> level[k] != values[k]
  }

  lemma ExactBoolsDiffer(schema: Schema, c: Core, r: Ref)
    requires Exact(schema, c, r) && c.levels != []
    ensures BoolsDiffer(schema, c.levels[0], c.values)
  {
    forall k | k in c.levels[0] ensures c.levels[0][k] != c.values[k] {
      RecordedDiffers(schema, c, r, k);
    }
  }

  /** In an exact state the flag says whether the top level is empty. */
  lemma ExactFlagFollows(schema: Schema, c: Core, r: Ref)
    requires Exact(schema, c, r)
    ensures c.values[schema.flag] == TopModified(c.levels)
  {
    TopFlagIsModified(schema, r.values, r.snapshots, c.levels);
  }

  /** Recording a change is what the machine of differences does, although a boolean that is recorded
      is forgotten without looking at its new value. */
  method ValueChanged(schema: Schema, o: Originals, k: int, oldValue: Value, newValue: Value, ghost level: Values)
    returns (r: Originals)
    requires Holds(schema, o, level) && k in schema.tracked
    requires KindOf(oldValue) == KindOf(newValue) == schema.kinds[k] && oldValue != newValue
    requires schema.kinds[k] == BoolKind && k in level ==> KindOf(level[k]) == BoolKind && level[k] != oldValue
    ensures Holds(schema, r, RecordChange(level, k, oldValue, newValue))
  {
    match newValue {
      case BoolValue(_) =>
        r := o.(ints := if k in o.ints then o.ints - {k} else o.ints[k := ToInt(oldValue)]);
      case StringValue(s) =>
        var strings :=
          if k !in o.strings then o.strings[k := oldValue.s]
          else if s == o.strings[k] then o.strings - {k}
          else o.strings;
        r := Originals(o.ints, strings);
      case IntValue(n) =>
        var ints :=
          if k !in o.ints then o.ints[k := oldValue.n]
          else if n == o.ints[k] then o.ints - {k}
          else o.ints;
        r := Originals(ints, o.strings);
    }
  }

  lemma EmptyHoldsNothing(schema: Schema, o: Originals, level: Values)
    requires Holds(schema, o, level)
    ensures o.ints == map[] && o.strings == map[] <==> level == map[]
  {
    if o.ints == map[] && o.strings == map[] {
      forall k ensures k !in level {
        assert k in level ==> k in o.ints || k in o.strings;
      }
      assert level == map[];
    } else {
      forall k | k in o.ints || k in o.strings ensures level != map[] {
        assert k in level;
      }
    }
  }

  /** Two originals that hold the same level keep the same properties with the same values, whether
      they are kept in a sorted vector or in maps. */
  lemma VectorAndMapsAgree(schema: Schema, v: seq<DataModel.ModelPropertyValue>, o: Originals, level: Values, k: int)
    requires DataModel.Holds(schema, v, level) && Holds(schema, o, level)
    ensures SortedEntries.HasKey(v, DataModel.KeyOf, k) <==> k in o.ints || k in o.strings
    ensures (v == []) == (o == NO_ORIGINALS)
    ensures forall i :: 0 <= i < |v| && v[i].nKey == k ==>
                          DataModel.Decode(schema.kinds[k], v[i])
                          == if k in o.ints then FromInt(schema.kinds[k], o.ints[k]) else StringValue(o.strings[k])
  {
    DataModel.DataModelBase.EmptyIsUnmodified(schema, v, level);
    EmptyHoldsNothing(schema, o, level);
    forall i | 0 <= i < |v|
      ensures v[i].nKey in level && level[v[i].nKey] == DataModel.Decode(schema.kinds[v[i].nKey], v[i]) {
      DataModel.EntryAt(schema, v, level, i);
    }
  }

  /** The lower of two maps once the upper one has been folded into it: it keeps the older original,
      unless the property is back at it. */
  ghost function Folded<T>(top: map<int, T>, next: map<int, T>, isBack: (int, T) -> bool): map<int, T> {
    (top + next) - (set k | k in top && k in next && isBack(k, next[k]))
  }

  function FoldEntry<T>(m: map<int, T>, k: int, original: T, isBack: (int, T) -> bool): map<int, T> {
    if k !in m then m[k := original]
    else if isBack(k, m[k]) then m - {k}
    else m
  }

  lemma FoldedOneMore<T>(done: map<int, T>, next: map<int, T>, isBack: (int, T) -> bool, k: int, original: T)
    requires k !in done
    ensures k in Folded(done, next, isBack) <==> k in next
    ensures k in next ==> Folded(done, next, isBack)[k] == next[k]
    ensures Folded(done[k := original], next, isBack) ==
            FoldEntry(Folded(done, next, isBack), k, original, isBack)
  {
  }

  lemma HasEntry<T>(m: map<int, T>)
    requires m.Keys != {}
    ensures exists k :: k in m
  {
    if forall k :: k !in m {
      assert false;
    }
  }

  /** Folds the entries of one map into another, in any order. */
  method Fold<T>(top: map<int, T>, next: map<int, T>, isBack: (int, T) -> bool) returns (r: map<int, T>)
    ensures r == Folded(top, next, isBack)
  {
    r := next;
    var rest := top;
    ghost var done: map<int, T> := map[];
    assert Folded(done, next, isBack) == next;
    while rest.Keys != {}
      invariant r == Folded(done, next, isBack)
      invariant done.Keys !! rest.Keys && top == done + rest
      decreases rest.Keys
    {
      HasEntry(rest);
      var k :| k in rest;
      FoldedOneMore(done, next, isBack, k, rest[k]);
      done := done[k := rest[k]];
      r := FoldEntry(r, k, rest[k], isBack);
      rest := rest - {k};
    }
    assert rest == map[];
    assert top == done;
  }

  function IntIsBack(schema: Schema, values: Values): (int, int) -> bool {
    (k, n) => k in values && k in schema.kinds && values[k] == FromInt(schema.kinds[k], n)
  }

  function StringIsBack(values: Values): (int, string) -> bool {
    (k, s) => k in values && values[k] == StringValue(s)
  }

  lemma FoldedIntHolds(schema: Schema, top: Originals, next: Originals, values: Values, topLevel: Values,
                       nextLevel: Values, k: int)
    requires Holds(schema, top, topLevel) && Holds(schema, next, nextLevel) && Typed(schema, values)
    ensures topLevel.Keys <= values.Keys
    ensures var ints := Folded(top.ints, next.ints, IntIsBack(schema, values));
            var merged := MergeLevels(topLevel, nextLevel, values);
            && (k in ints <==> k in merged && schema.kinds[k] != StringKind)
            && (k in ints ==> merged[k] == FromInt(schema.kinds[k], ints[k]))
  {
  }

  lemma FoldedStringHolds(schema: Schema, top: Originals, next: Originals, values: Values, topLevel: Values,
                          nextLevel: Values, k: int)
    requires Holds(schema, top, topLevel) && Holds(schema, next, nextLevel) && Typed(schema, values)
    ensures topLevel.Keys <= values.Keys
    ensures var strings := Folded(top.strings, next.strings, StringIsBack(values));
            var merged := MergeLevels(topLevel, nextLevel, values);
            && (k in strings <==> k in merged && schema.kinds[k] == StringKind)
            && (k in strings ==> merged[k] == StringValue(strings[k]))
  {
  }

  /** Transaction::Commit. */
  method MergeInto(schema: Schema, top: Originals, next: Originals, values: Values, ghost topLevel: Values,
                   ghost nextLevel: Values)
    returns (r: Originals)
    requires Holds(schema, top, topLevel) && Holds(schema, next, nextLevel) && Typed(schema, values)
    ensures topLevel.Keys <= values.Keys
    ensures Holds(schema, r, MergeLevels(topLevel, nextLevel, values))
  {
    var ints := Fold(top.ints, next.ints, IntIsBack(schema, values));
    var strings := Fold(top.strings, next.strings, StringIsBack(values));
    r := Originals(ints, strings);
    var merged := MergeLevels(topLevel, nextLevel, values);
    forall k ensures k in ints <==> k in merged && schema.kinds[k] != StringKind {
      FoldedIntHolds(schema, top, next, values, topLevel, nextLevel, k);
    }
    forall k | k in ints ensures merged[k] == FromInt(schema.kinds[k], ints[k]) {
      FoldedIntHolds(schema, top, next, values, topLevel, nextLevel, k);
    }
    forall k ensures k in strings <==> k in merged && schema.kinds[k] == StringKind {
      FoldedStringHolds(schema, top, next, values, topLevel, nextLevel, k);
    }
    forall k | k in strings ensures merged[k] == StringValue(strings[k]) {
      FoldedStringHolds(schema, top, next, values, topLevel, nextLevel, k);
    }
  }

  /** The integers and booleans of a level, or its strings. */
  ghost function Part(schema: Schema, level: Values, strings: bool): Values {
    level - (set k | k in level && !(k in schema.kinds && (schema.kinds[k] == StringKind) == strings))
  }

  lemma PartOfNothing(schema: Schema, level: Values, strings: bool)
    ensures level == map[] ==> Part(schema, level, strings) == map[]
  {
  }

  lemma PartsMakeLevel(schema: Schema, level: Values)
    requires level.Keys <= schema.kinds.Keys
    ensures Part(schema, level, false) + Part(schema, level, true) == level
  {
  }

  lemma PartsHold(schema: Schema, o: Originals, level: Values)
    requires Holds(schema, o, level)
    ensures Holds(schema, Originals(o.ints, map[]), Part(schema, level, false))
    ensures Holds(schema, Originals(map[], o.strings), Part(schema, level, true))
    ensures Part(schema, Part(schema, level, true), true) == Part(schema, level, true)
    ensures Part(schema, level, false).Keys == o.ints.Keys && Part(schema, level, true).Keys == o.strings.Keys
    ensures Part(schema, level, false).Keys !! Part(schema, level, true).Keys
  {
    forall k ensures k in Part(schema, level, false).Keys <==> k in o.ints.Keys {
      assert k in o.ints <==> k in level && schema.kinds[k] != StringKind;
    }
    forall k ensures k in Part(schema, level, true).Keys <==> k in o.strings.Keys {
      assert k in o.strings <==> k in level && schema.kinds[k] == StringKind;
    }
  }

  /** Changes of one part leave the other part alone. */
  lemma RestoringLeavesOtherPart(schema: Schema, c: Core, k: int, v: Value)
    requires Restorable(schema, c, k, v)
    ensures var other, d := schema.kinds[k] != StringKind, SetCore(schema, c, k, v);
            d.levels != [] && Part(schema, d.levels[0], other) == Part(schema, c.levels[0], other)
  {
    RestoringStep(schema, c, k, v);
  }

  /** Some originals, and those of a level that are done. */
  ghost function Joined(first: Values, level: Values, done: set<int>): Values {
    first + (level - (level.Keys - done))
  }

  lemma JoinedNone(first: Values, level: Values)
    ensures Joined(first, level, {}) == first
  {
  }

  /** Some properties of a level are done and the others are left. */
  ghost predicate Divided(level: Values, done: set<int>, left: set<int>) {
    level.Keys == done + left && done !! left
  }

  lemma JoinedAll(first: Values, level: Values, done: set<int>)
    requires Divided(level, done, {})
    ensures Joined(first, level, done) == first + level
  {
    assert level - (level.Keys - done) == level;
  }

  lemma JoinedOneMore(first: Values, level: Values, done: set<int>, left: set<int>, k: int)
    requires Divided(level, done, left) && k in left && level.Keys !! first.Keys
    ensures k in level && k !in Joined(first, level, done)
    ensures Joined(first, level, done + {k}) == Joined(first, level, done)[k := level[k]]
    ensures Divided(level, done + {k}, left - {k})
  {
    assert k in level.Keys;
  }

  lemma Shrinks<T>(rest: map<int, T>, k: int)
    requires k in rest
    ensures (rest - {k}).Keys == rest.Keys - {k} && (rest - {k}).Keys < rest.Keys
  {
    assert k !in (rest - {k}).Keys;
  }

  lemma RecordKeepsBoolsDiffering(schema: Schema, level: Values, values: Values, k: int, before: Value)
    requires k in values && before != values[k] && BoolsDiffer(schema, level, values[k := before])
    requires k in level && k in schema.kinds && schema.kinds[k] == BoolKind ==>
               KindOf(level[k]) == KindOf(before) == KindOf(values[k]) == BoolKind
    ensures k in level && k in schema.kinds && schema.kinds[k] == BoolKind ==> level[k] != before
    ensures BoolsDiffer(schema, RecordChange(level, k, before, values[k]), values)
  {
    var earlier := values[k := before];
    assert forall j :: j in values && j != k ==> j in earlier && earlier[j] == values[j];
    assert k in earlier && earlier[k] == before;
  }

  class TransactionalViewModelBase {
    const schema: Schema
    var values: Values
    /** The chain of transactions, the topmost first. */
    var transactions: seq<Originals>
    /** The changes the listeners have been told about so far. */
    var notified: seq<Change>
    ghost var levels: seq<Values>
    /** What the machine of snapshots would hold. */
    ghost var ref: Ref

    ghost predicate Sound()
      reads this
    {
      && SchemaOk(schema) && Typed(schema, values)
      && AllHold(schema, transactions, levels)
      && (levels != [] ==> BoolsDiffer(schema, levels[0], values))
    }

    ghost function State(): Core
      reads this
    {
      Core(values, levels)
    }

    ghost predicate Valid()
      reads this
    {
      Sound() && Exact(schema, State(), ref)
    }

    constructor (schema: Schema, defaults: Values)
      requires SchemaOk(schema) && Typed(schema, defaults)
      requires defaults[schema.flag] == BoolValue(false)
      ensures Valid() && ref == Ref(defaults, []) && this.schema == schema && notified == []
    {
      this.schema := schema;
      notified := [];
      values, transactions, levels, ref := defaults, [], [], Ref(defaults, []);
    }

    /** Records a change in the top transaction. */
    method Record(k: int, before: Value)
      requires SchemaOk(schema) && Typed(schema, values) && AllHold(schema, transactions, levels)
      requires levels != [] && k in schema.tracked
      requires KindOf(before) == schema.kinds[k] && before != values[k]
      requires BoolsDiffer(schema, levels[0], values[k := before])
      modifies this`transactions, this`levels
      ensures Sound()
      ensures levels == [RecordChange(old(levels)[0], k, before, values[k])] + old(levels)[1..]
    {
      PopHolds(schema, transactions, levels);
      RecordKeepsBoolsDiffering(schema, levels[0], values, k, before);
      var top := ValueChanged(schema, transactions[0], k, before, values[k], levels[0]);
      ghost var level := RecordChange(levels[0], k, before, values[k]);
      PushHolds(schema, top, level, transactions[1..], levels[1..]);
      transactions := [top] + transactions[1..];
      levels := [level] + levels[1..];
    }

    /** Sets the modified flag, which no transaction tracks. */
    method SetFlag(modified: bool)
      requires SchemaOk(schema) && schema.flag in values
      modifies this`values, this`notified
      ensures old(Sound()) ==> Sound()
      ensures values == old(values)[schema.flag := BoolValue(modified)]
      ensures notified == old(notified) + FlagChange(schema, old(values)[schema.flag], values[schema.flag])
    {
      if values[schema.flag] != BoolValue(modified) {
        notified := notified + [Change(schema.flag, values[schema.flag], BoolValue(modified))];
        values := values[schema.flag := BoolValue(modified)];
      }
    }

    /** Records a change that was made in the top transaction and updates the flag. */
    method RecordAndFlag(k: int, before: Value)
      requires SchemaOk(schema) && Typed(schema, values) && AllHold(schema, transactions, levels)
      requires levels != [] && k in schema.tracked
      requires KindOf(before) == schema.kinds[k] && before != values[k]
      requires BoolsDiffer(schema, levels[0], values[k := before])
      modifies this`values, this`transactions, this`levels, this`notified
      ensures Sound()
      ensures levels == [RecordChange(old(levels)[0], k, before, old(values)[k])] + old(levels)[1..]
      ensures values == old(values)[schema.flag := TopModified(levels)]
      ensures notified == old(notified) + FlagChange(schema, old(values)[schema.flag], values[schema.flag])
    {
      Record(k, before);
      PopHolds(schema, transactions, levels);
      EmptyHoldsNothing(schema, transactions[0], levels[0]);
      SetFlag(transactions[0].ints != map[] || transactions[0].strings != map[]);
    }

    /** Lets the top transaction record a change that has been made and tells the listeners. */
    method OnValueChanged(k: int, before: Value)
      requires SchemaOk(schema) && Typed(schema, values) && AllHold(schema, transactions, levels)
      requires k in schema.kinds && k != schema.flag && KindOf(before) == schema.kinds[k] && before != values[k]
      requires levels != [] ==> BoolsDiffer(schema, levels[0], values[k := before])
      modifies this`values, this`transactions, this`levels, this`notified
      ensures Sound() && State() == RecordCore(schema, old(State()), k, before, old(values)[k])
      ensures notified == old(notified) + FlagChange(schema, old(values)[schema.flag], values[schema.flag])
                          + [Change(k, before, old(values)[k])]
    {
      var v := values[k];
      if transactions != [] && k in schema.tracked {
        RecordAndFlag(k, before);
      }
      notified := notified + [Change(k, before, v)];
    }

    /** Sets a property, lets the top transaction record the change and tells the listeners, of the flag first
        if it changes. */
    method ChangeValue(k: int, v: Value)
      requires Sound() && k in schema.kinds && k != schema.flag && KindOf(v) == schema.kinds[k]
      modifies this`values, this`transactions, this`levels, this`notified
      ensures Sound() && State() == SetCore(schema, old(State()), k, v)
      ensures notified == old(notified) + Told(schema, old(State()), k, v)
      ensures ExactReport(schema, notified[|old(notified)|..], old(values), values)
    {
      ToldIsExact(schema, State(), k, v);
      if values[k] == v {
        return;
      }
      var before := values[k];
      values := values[k := v];
      OnValueChanged(k, before);
    }

    method SetValue(k: int, v: Value)
      requires Valid() && k in schema.kinds && k != schema.flag && KindOf(v) == schema.kinds[k]
      modifies this
      ensures Valid() && ref == SetRef(schema, old(ref), k, v)
      ensures notified == old(notified) + Told(schema, old(State()), k, v)
      ensures ExactReport(schema, notified[|old(notified)|..], old(values), values)
    {
      ToldIsExact(schema, State(), k, v);
      ChangeValue(k, v);
      SetKeepsExact(schema, old(State()), ref, k, v);
      ref := SetRef(schema, ref, k, v);
    }

    method BeginTransaction()
      requires Valid()
      modifies this
      ensures Valid() && ref == BeginRef(schema, old(ref))
      ensures notified == old(notified) + FlagChange(schema, old(values)[schema.flag], values[schema.flag])
    {
      PushHolds(schema, NO_ORIGINALS, map[], transactions, levels);
      transactions := [NO_ORIGINALS] + transactions;
      levels := [map[]] + levels;
      SetFlag(false);
      BeginKeepsExact(schema, old(State()), ref);
      ref := BeginRef(schema, ref);
    }

    /** Folds the top transaction into the one below it. */
    method MergeTop()
      requires AllHold(schema, transactions, levels) && |levels| > 1 && Typed(schema, values)
      modifies this`transactions, this`levels
      ensures AllHold(schema, transactions, levels)
      ensures old(levels)[0].Keys <= values.Keys
      ensures levels == [old(levels)[0], MergeLevels(old(levels)[0], old(levels)[1], values)] + old(levels)[2..]
    {
      PopHolds(schema, transactions, levels);
      PopHolds(schema, transactions[1..], levels[1..]);
      var merged := MergeInto(schema, transactions[0], transactions[1], values, levels[0], levels[1]);
      ghost var mergedLevel := MergeLevels(levels[0], levels[1], values);
      PushHolds(schema, merged, mergedLevel, transactions[2..], levels[2..]);
      PushHolds(schema, transactions[0], levels[0], [merged] + transactions[2..], [mergedLevel] + levels[2..]);
      transactions := [transactions[0]] + ([merged] + transactions[2..]);
      levels := [levels[0]] + ([mergedLevel] + levels[2..]);
    }

    /** Drops the top transaction. */
    method Discard()
      requires SchemaOk(schema) && AllHold(schema, transactions, levels) && levels != [] && schema.flag in values
      modifies this`values, this`transactions, this`levels, this`notified
      ensures AllHold(schema, transactions, levels)
      ensures State() == Core(old(values)[schema.flag := TopModified(levels)], old(levels)[1..])
      ensures notified == old(notified) + FlagChange(schema, old(values)[schema.flag], values[schema.flag])
    {
      PopHolds(schema, transactions, levels);
      transactions := transactions[1..];
      levels := levels[1..];
      if transactions == [] {
        SetFlag(false);
      } else {
        PopHolds(schema, transactions, levels);
        EmptyHoldsNothing(schema, transactions[0], levels[0]);
        SetFlag(transactions[0].ints != map[] || transactions[0].strings != map[]);
      }
    }

    method CommitTop()
      requires SchemaOk(schema) && AllHold(schema, transactions, levels) && levels != [] && Typed(schema, values)
      modifies this`values, this`transactions, this`levels, this`notified
      ensures old(levels)[0].Keys <= old(values).Keys
      ensures AllHold(schema, transactions, levels) && State() == CommitCore(schema, old(State()))
      ensures notified == old(notified) + FlagChange(schema, old(values)[schema.flag], values[schema.flag])
    {
      PopHolds(schema, transactions, levels);
      ghost var before := State();
      if |transactions| > 1 {
        MergeTop();
      }
      CommitInTwoSteps(schema, before, levels);
      Discard();
    }

    method CommitTransaction()
      requires Valid()
      modifies this
      ensures Valid() && ref == CommitRef(schema, old(ref))
      ensures notified == old(notified) + FlagChange(schema, old(values)[schema.flag], values[schema.flag])
    {
      CommitKeepsExact(schema, State(), ref);
      if transactions != [] {
        CommitTop();
        ref := CommitRef(schema, ref);
        if levels != [] {
          ExactBoolsDiffer(schema, State(), ref);
        }
      }
    }

    /** Leaves fewer originals in the top transaction. */
    method TakeOut(left: Originals, ghost level: Values)
      requires Sound() && levels != [] && Holds(schema, left, level)
      requires forall k :: k in level ==> k in levels[0] && level[k] == levels[0][k]
      modifies this`transactions, this`levels
      ensures Sound() && levels == [level] + old(levels)[1..] && transactions == [left] + old(transactions)[1..]
    {
      PopHolds(schema, transactions, levels);
      PushHolds(schema, left, level, transactions[1..], levels[1..]);
      transactions := [left] + transactions[1..];
      levels := [level] + levels[1..];
    }

    /** Takes the integers and booleans out of the top transaction. */
    method TakeInts() returns (ints: map<int, int>)
      requires Sound() && levels != []
      modifies this`transactions, this`levels
      ensures Sound() && levels != [] && levels[1..] == old(levels)[1..]
      ensures levels[0] == Part(schema, old(levels)[0], true) == Part(schema, levels[0], true)
      ensures Holds(schema, Originals(ints, map[]), Part(schema, old(levels)[0], false))
      ensures ints.Keys == Part(schema, old(levels)[0], false).Keys && ints.Keys !! levels[0].Keys
    {
      PopHolds(schema, transactions, levels);
      PartsHold(schema, transactions[0], levels[0]);
      ints := transactions[0].ints;
      TakeOut(Originals(map[], transactions[0].strings), Part(schema, levels[0], true));
    }

    /** Sets one original again that was not set before. */
    method RestoreOne(k: int, v: Value, ghost start: Values, ghost done: Values, ghost base: seq<Change>,
                      ghost before: seq<Change>)
      returns (ghost reports: seq<Change>)
      requires Sound() && Restored(schema, start, done, State(), before) && notified == base + before
      requires Restorable(schema, State(), k, v) && k !in done
      modifies this`values, this`transactions, this`levels, this`notified
      ensures Sound() && levels != [] && levels[1..] == old(levels)[1..] && values[schema.flag] == BoolValue(true)
      ensures forall j :: j in levels[0] ==> j in old(levels)[0] || j == k
      ensures var other := schema.kinds[k] != StringKind;
              Part(schema, levels[0], other) == Part(schema, old(levels)[0], other)
      ensures Restored(schema, start, done[k := v], State(), reports) && notified == base + reports
    {
      RestoringStep(schema, State(), k, v);
      RestoringLeavesOtherPart(schema, State(), k, v);
      ghost var told := Told(schema, State(), k, v);
      RestoredOneMore(schema, start, done, State(), before, k, v);
      Regroup(base, before, told);
      ChangeValue(k, v);
      reports := before + told;
    }

    method SetInts(ints: map<int, int>, ghost level: Values, ghost start: Values, ghost base: seq<Change>,
                   ghost before: seq<Change>)
      returns (ghost reports: seq<Change>)
      requires Sound() && Restored(schema, start, map[], State(), before) && notified == base + before
      requires Holds(schema, Originals(ints, map[]), level) && level.Keys == ints.Keys && level.Keys !! levels[0].Keys
      requires level != map[] ==> values[schema.flag] == BoolValue(true)
      modifies this`values, this`transactions, this`levels, this`notified
      ensures Sound() && levels != [] && levels[1..] == old(levels)[1..]
      ensures Restored(schema, start, map[] + level, State(), reports) && notified == base + reports
      ensures Part(schema, levels[0], true) == Part(schema, old(levels)[0], true)
    {
      reports := before;
      var rest := ints;
      ghost var done := {};
      JoinedNone(map[], level);
      while rest.Keys != {}
        invariant Sound() && levels != [] && levels[1..] == old(levels)[1..] && notified == base + reports
        invariant Restored(schema, start, Joined(map[], level, done), State(), reports)
        invariant Part(schema, levels[0], true) == Part(schema, old(levels)[0], true)
        invariant Divided(level, done, rest.Keys)
        invariant rest.Keys != {} ==> values[schema.flag] == BoolValue(true)
        invariant forall k :: k in rest ==> k in ints && rest[k] == ints[k] && k !in levels[0]
        decreases rest.Keys
      {
        HasEntry(rest);
        var k :| k in rest;
        HeldInt(schema, Originals(ints, map[]), level, k);
        JoinedOneMore(map[], level, done, rest.Keys, k);
        reports := RestoreOne(k, FromInt(schema.kinds[k], rest[k]), start, Joined(map[], level, done), base, reports);
        Shrinks(rest, k);
        done := done + {k};
        rest := rest - {k};
      }
      JoinedAll(map[], level, done);
    }

    method RestoreInts() returns (ghost reports: seq<Change>)
      requires Sound() && levels != [] && values[schema.flag] == TopModified(levels)
      modifies this`values, this`transactions, this`levels, this`notified
      ensures Sound() && levels != [] && levels[1..] == old(levels)[1..]
      ensures Restored(schema, old(values), Part(schema, old(levels)[0], false), State(), reports)
      ensures notified == old(notified) + reports
      ensures Part(schema, levels[0], true) == Part(schema, old(levels)[0], true)
    {
      ghost var level := Part(schema, levels[0], false);
      PartOfNothing(schema, levels[0], false);
      ghost var start := values;
      var ints := TakeInts();
      RestoredNothing(schema, State());
      assert notified + [] == notified && map[] + level == level;
      reports := SetInts(ints, level, start, notified, []);
    }

    /** Takes the strings out of the top transaction. */
    method TakeStrings() returns (strings: map<int, string>)
      requires Sound() && levels != []
      modifies this`transactions, this`levels
      ensures Sound() && levels != [] && levels[1..] == old(levels)[1..]
      ensures levels[0] == Part(schema, old(levels)[0], false)
      ensures Holds(schema, Originals(map[], strings), Part(schema, old(levels)[0], true))
      ensures strings.Keys == Part(schema, old(levels)[0], true).Keys && strings.Keys !! levels[0].Keys
    {
      PopHolds(schema, transactions, levels);
      PartsHold(schema, transactions[0], levels[0]);
      strings := transactions[0].strings;
      TakeOut(Originals(transactions[0].ints, map[]), Part(schema, levels[0], false));
    }

    method SetStrings(strings: map<int, string>, ghost level: Values, ghost start: Values, ghost first: Values,
                      ghost base: seq<Change>, ghost before: seq<Change>)
      returns (ghost reports: seq<Change>)
      requires Sound() && Restored(schema, start, first, State(), before) && notified == base + before
      requires Holds(schema, Originals(map[], strings), level) && level.Keys == strings.Keys
      requires level.Keys !! first.Keys && level.Keys !! levels[0].Keys
      requires level != map[] ==> values[schema.flag] == BoolValue(true)
      modifies this`values, this`transactions, this`levels, this`notified
      ensures Sound() && levels != [] && levels[1..] == old(levels)[1..]
      ensures Restored(schema, start, first + level, State(), reports) && notified == base + reports
    {
      reports := before;
      var rest := strings;
      ghost var done := {};
      JoinedNone(first, level);
      while rest.Keys != {}
        invariant Sound() && levels != [] && levels[1..] == old(levels)[1..] && notified == base + reports
        invariant Restored(schema, start, Joined(first, level, done), State(), reports)
        invariant Divided(level, done, rest.Keys)
        invariant rest.Keys != {} ==> values[schema.flag] == BoolValue(true)
        invariant forall k :: k in rest ==> k in strings && rest[k] == strings[k] && k !in levels[0]
        decreases rest.Keys
      {
        HasEntry(rest);
        var k :| k in rest;
        HeldString(schema, Originals(map[], strings), level, k);
        JoinedOneMore(first, level, done, rest.Keys, k);
        reports := RestoreOne(k, StringValue(rest[k]), start, Joined(first, level, done), base, reports);
        Shrinks(rest, k);
        done := done + {k};
        rest := rest - {k};
      }
      JoinedAll(first, level, done);
    }

    method RestoreStrings(ghost start: Values, ghost done: Values, ghost base: seq<Change>, ghost before: seq<Change>)
      returns (ghost reports: seq<Change>)
      requires Sound() && Restored(schema, start, done, State(), before) && notified == base + before
      requires done.Keys !! Part(schema, levels[0], true).Keys
      requires Part(schema, levels[0], true) != map[] ==> values[schema.flag] == BoolValue(true)
      modifies this`values, this`transactions, this`levels, this`notified
      ensures Sound() && levels != [] && levels[1..] == old(levels)[1..]
      ensures Restored(schema, start, done + Part(schema, old(levels)[0], true), State(), reports)
      ensures notified == base + reports
    {
      ghost var level := Part(schema, levels[0], true);
      var strings := TakeStrings();
      reports := SetStrings(strings, level, start, done, base, before);
    }

    /** Transaction::Revert: takes the integers and booleans out of the top transaction and sets them
        again, then the strings. */
    method Restore() returns (ghost reports: seq<Change>)
      requires Sound() && levels != [] && values[schema.flag] == TopModified(levels)
      modifies this`values, this`transactions, this`levels, this`notified
      ensures Sound() && levels != [] && levels[1..] == old(levels)[1..]
      ensures Restored(schema, old(values), old(levels)[0], State(), reports) && notified == old(notified) + reports
    {
      ghost var level := levels[0];
      PopHolds(schema, transactions, levels);
      PartsMakeLevel(schema, level);
      reports := RestoreInts();
      reports := RestoreStrings(old(values), Part(schema, level, false), old(notified), reports);
    }

    method RevertTop() returns (ghost reports: seq<Change>)
      requires Sound() && levels != [] && values[schema.flag] == TopModified(levels)
      modifies this`values, this`transactions, this`levels, this`notified
      ensures AllHold(schema, transactions, levels) && State() == RevertCore(schema, old(State()))
      ensures Typed(schema, values)
      ensures notified == old(notified) + reports && ExactReport(schema, reports, old(values), values)
    {
      RevertInTwoSteps(schema, State());
      reports := Restore();
      ghost var restored := values;
      Discard();
      ghost var told := FlagChange(schema, restored[schema.flag], values[schema.flag]);
      ExactFlag(schema, reports, old(values), restored, values[schema.flag]);
      Regroup(old(notified), reports, told);
      reports := reports + told;
    }

    /** Puts the originals back and drops the transaction. Each property that gets another value, the flag
        included, is reported once, with its true old and new value. */
    method RevertTransaction() returns (ghost reports: seq<Change>)
      requires Valid()
      modifies this
      ensures Valid() && ref == RevertRef(schema, old(ref))
      ensures notified == old(notified) + reports && ExactReport(schema, reports, old(values), values)
    {
      reports := [];
      RevertKeepsExact(schema, State(), ref);
      if transactions != [] {
        ExactFlagFollows(schema, State(), ref);
        reports := RevertTop();
        ref := RevertRef(schema, ref);
        if levels != [] {
          ExactBoolsDiffer(schema, State(), ref);
        }
      }
    }

    /** The value a property had when the current transaction began, if it has another one now. */
    method GetPreviousValue(k: int) returns (previous: Option<Value>)
      requires Valid()
      ensures previous.Some? <==>
              ref.snapshots != [] && k in schema.tracked && k in ref.snapshots[0] && values[k] != ref.snapshots[0][k]
      ensures previous.Some? ==> previous.value == ref.snapshots[0][k]
    {
      previous := None;
      if transactions != [] {
        PopHolds(schema, transactions, levels);
        if k in transactions[0].ints {
          previous := Some(FromInt(schema.kinds[k], transactions[0].ints[k]));
        } else if k in transactions[0].strings {
          previous := Some(StringValue(transactions[0].strings[k]));
        }
      }
    }
  }
}
