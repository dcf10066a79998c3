/** The data model of src/devkit/data/DataModelBase.cpp: transactions kept as sorted vectors of
    original values, and batches of changes whose notifications are held back. */
module DataModel {
  import opened Basics
  import opened SortedEntries
  import opened Transactions
  import opened Reports

  /** One recorded original value; a boolean or an integer is kept in `nValue`, a string in `sValue`. */
  datatype ModelPropertyValue = ModelPropertyValue(nKey: int, nValue: int, sValue: string)

  function KeyOf(e: ModelPropertyValue): int {
    e.nKey
  }

  function Encode(k: int, v: Value): ModelPropertyValue {
    match v
    case BoolValue(b) => ModelPropertyValue(k, if b then 1 else 0, "")
    case IntValue(n) => ModelPropertyValue(k, n, "")
    case StringValue(s) => ModelPropertyValue(k, 0, s)
  }

  function Decode(kind: Kind, e: ModelPropertyValue): Value {
    match kind
    case BoolKind => BoolValue(e.nValue != 0)
    case IntKind => IntValue(e.nValue)
    case StringKind => StringValue(e.sValue)
  }

  lemma DecodeEncode(k: int, v: Value)
    ensures Decode(KindOf(v), Encode(k, v)) == v
  {
  }

  /** The vector is sorted by key and holds exactly the entries of `level`. */
  ghost predicate Holds(schema: Schema, v: seq<ModelPropertyValue>, level: Values) {
    && level.Keys <= schema.tracked <= schema.kinds.Keys
    && (forall k :: k in level ==> KindOf(level[k]) == schema.kinds[k])
    && Represents(v, KeyOf, Encode, level)
  }

  lemma EntryAt(schema: Schema, v: seq<ModelPropertyValue>, level: Values, i: nat)
    requires Holds(schema, v, level) && i < |v|
    ensures v[i].nKey in level && level[v[i].nKey] == Decode(schema.kinds[v[i].nKey], v[i])
  {
    assert KeyOf(v[i]) in level;
    DecodeEncode(v[i].nKey, level[v[i].nKey]);
  }

  ghost predicate AllHold(schema: Schema, transactions: seq<seq<ModelPropertyValue>>, levels: seq<Values>) {
    && |transactions| == |levels|
    && (transactions != [] ==>
          Holds(schema, transactions[0], levels[0]) && AllHold(schema, transactions[1..], levels[1..]))
  }

  lemma PushHolds(schema: Schema, v: seq<ModelPropertyValue>, level: Values, transactions: seq<seq<ModelPropertyValue>>,
                  levels: seq<Values>)
    requires Holds(schema, v, level) && AllHold(schema, transactions, levels)
    ensures AllHold(schema, [v] + transactions, [level] + levels)
  {
    assert ([v] + transactions)[1..] == transactions && ([level] + levels)[1..] == levels;
  }

  lemma PopHolds(schema: Schema, transactions: seq<seq<ModelPropertyValue>>, levels: seq<Values>)
    requires AllHold(schema, transactions, levels) && levels != []
    ensures Holds(schema, transactions[0], levels[0]) && AllHold(schema, transactions[1..], levels[1..])
  {
  }

  /** Finds the entry of a key. */
  method FindEntry(schema: Schema, v: seq<ModelPropertyValue>, k: int, ghost level: Values)
    returns (at: nat, found: bool)
    requires Holds(schema, v, level)
    ensures found <==> k in level
    ensures found ==> at < |v| && v[at].nKey == k && level[k] == Decode(schema.kinds[k], v[at])
    ensures at <= |v| && (forall i :: 0 <= i < at ==> KeyOf(v[i]) < k)
            && (forall i :: at <= i < |v| ==> k <= KeyOf(v[i]))
  {
    at, found := Find(v, KeyOf, Encode, k, level);
    if found {
      EntryAt(schema, v, level, at);
    }
  }

  /** Transaction::ValueChanged: records the first original value, and forgets it on the way back. */
  method ValueChanged(schema: Schema, v: seq<ModelPropertyValue>, k: int, oldValue: Value, newValue: Value,
                      ghost level: Values)
    returns (r: seq<ModelPropertyValue>)
    requires Holds(schema, v, level) && k in schema.tracked
    requires KindOf(oldValue) == KindOf(newValue) == schema.kinds[k]
    ensures Holds(schema, r, RecordChange(level, k, oldValue, newValue))
  {
    var at, found := FindEntry(schema, v, k, level);
    if !found {
      var e := Encode(k, oldValue);
      r := v[..at] + [e] + v[at..];
      InsertRepresents(v, KeyOf, Encode, level, at, e, oldValue);
    } else {
      var same := match newValue
        case BoolValue(b) => b == (v[at].nValue != 0)
        case StringValue(s) => s == v[at].sValue
        case IntValue(n) => n == v[at].nValue;
      if same {
        r := v[..at] + v[at + 1..];
        EraseRepresents(v, KeyOf, Encode, level, at);
      } else {
        r := v;
      }
    }
  }

  /** The part of a level that the first `n` entries of its vector hold. */
  ghost function FirstEntries(v: seq<ModelPropertyValue>, level: Values, n: nat): Values {
    level - (set k | k in level && forall i :: 0 <= i < n && i < |v| ==> v[i].nKey != k)
  }

  lemma NextEntry(schema: Schema, v: seq<ModelPropertyValue>, level: Values, n: nat)
    requires Holds(schema, v, level) && n < |v|
    ensures v[n].nKey !in FirstEntries(v, level, n)
    ensures v[n].nKey in level && level[v[n].nKey] == Decode(schema.kinds[v[n].nKey], v[n])
    ensures FirstEntries(v, level, n + 1) == FirstEntries(v, level, n)[v[n].nKey := level[v[n].nKey]]
  {
    EntryAt(schema, v, level, n);
    forall i | 0 <= i < n ensures v[i].nKey != v[n].nKey {
      assert KeyOf(v[i]) < KeyOf(v[n]);
    }
  }

  lemma AllEntries(schema: Schema, v: seq<ModelPropertyValue>, level: Values)
    requires Holds(schema, v, level)
    ensures FirstEntries(v, level, |v|) == level
    ensures FirstEntries(v, level, 0) == map[]
  {
    forall k | k in level ensures k in FirstEntries(v, level, |v|) {
      assert HasKey(v, KeyOf, k);
    }
  }

  ghost predicate NextInTurn(schema: Schema, v: seq<ModelPropertyValue>, done: Values, next: Values, n: nat) {
    && n < |v| && v[n].nKey in schema.tracked && v[n].nKey in schema.kinds && v[n].nKey !in done
    && next == done[v[n].nKey := Decode(schema.kinds[v[n].nKey], v[n])]
  }

  /** `first` tells what the entries of a vector that come first record, as each adds its own property. */
  ghost predicate InTurn(schema: Schema, v: seq<ModelPropertyValue>, first: nat -> Values) {
    && first(0) == map[]
    && forall n: nat :: n < |v| ==> NextInTurn(schema, v, first(n), first(n + 1), n)
  }

  lemma NextEntryInTurn(schema: Schema, v: seq<ModelPropertyValue>, level: Values, n: nat)
    requires Holds(schema, v, level) && n < |v|
    ensures NextInTurn(schema, v, FirstEntries(v, level, n), FirstEntries(v, level, n + 1), n)
  {
    NextEntry(schema, v, level, n);
  }

  lemma EntriesInTurn(schema: Schema, v: seq<ModelPropertyValue>, level: Values) returns (first: nat -> Values)
    requires Holds(schema, v, level)
    ensures InTurn(schema, v, first) && first(|v|) == level
  {
    first := (n: nat) => FirstEntries(v, level, n);
    AllEntries(schema, v, level);
    forall n: nat | n < |v| ensures NextInTurn(schema, v, first(n), first(n + 1), n) {
      NextEntryInTurn(schema, v, level, n);
    }
  }

  /** Merging one more entry is recording one more change. */
  lemma MergeOneMore(done: Values, next: Values, values: Values, k: int, original: Value)
    requires k !in done && k in values && done.Keys <= values.Keys
    ensures MergeLevels(done[k := original], next, values) ==
            RecordChange(MergeLevels(done, next, values), k, original, values[k])
  {
  }

  /** The lower level once the first `n` entries have been folded into it. */
  ghost function PartlyMerged(top: seq<ModelPropertyValue>, topLevel: Values, next: Values, values: Values,
                              n: nat): Values
    requires topLevel.Keys <= values.Keys
  {
    MergeLevels(FirstEntries(top, topLevel, n), next, values)
  }

  lemma MergeStarts(schema: Schema, top: seq<ModelPropertyValue>, topLevel: Values, next: Values, values: Values)
    requires Holds(schema, top, topLevel) && topLevel.Keys <= values.Keys
    ensures PartlyMerged(top, topLevel, next, values, 0) == next
    ensures PartlyMerged(top, topLevel, next, values, |top|) == MergeLevels(topLevel, next, values)
  {
    AllEntries(schema, top, topLevel);
  }

  lemma MergeContinues(schema: Schema, top: seq<ModelPropertyValue>, topLevel: Values, next: Values, values: Values,
                       n: nat)
    requires Holds(schema, top, topLevel) && Typed(schema, values) && topLevel.Keys <= values.Keys && n < |top|
    ensures var k := top[n].nKey;
            && k in topLevel && topLevel[k] == Decode(schema.kinds[k], top[n])
            && PartlyMerged(top, topLevel, next, values, n + 1)
               == RecordChange(PartlyMerged(top, topLevel, next, values, n), k, topLevel[k], values[k])
  {
    NextEntry(schema, top, topLevel, n);
    MergeOneMore(FirstEntries(top, topLevel, n), next, values, top[n].nKey, topLevel[top[n].nKey]);
  }

  /** Folds one entry into a level. */
  method MergeEntry(schema: Schema, v: seq<ModelPropertyValue>, e: ModelPropertyValue, values: Values,
                    ghost level: Values)
    returns (r: seq<ModelPropertyValue>)
    requires Holds(schema, v, level) && e.nKey in schema.tracked && Typed(schema, values)
    ensures Holds(schema, r, RecordChange(level, e.nKey, Decode(schema.kinds[e.nKey], e), values[e.nKey]))
  {
    r := ValueChanged(schema, v, e.nKey, Decode(schema.kinds[e.nKey], e), values[e.nKey], level);
  }

  /** Transaction::Commit: folds the entries of a level into the level below, one by one: an entry the
      lower level does not hold is moved there, one it holds is dropped when the value is back. */
  method MergeInto(schema: Schema, top: seq<ModelPropertyValue>, next: seq<ModelPropertyValue>, values: Values,
                   ghost topLevel: Values, ghost nextLevel: Values) returns (r: seq<ModelPropertyValue>)
    requires Holds(schema, top, topLevel) && Holds(schema, next, nextLevel)
    requires Typed(schema, values)
    ensures topLevel.Keys <= values.Keys
    ensures Holds(schema, r, MergeLevels(topLevel, nextLevel, values))
  {
    r := next;
    MergeStarts(schema, top, topLevel, nextLevel, values);
    for n := 0 to |top|
      invariant Holds(schema, r, PartlyMerged(top, topLevel, nextLevel, values, n))
    {
      MergeContinues(schema, top, topLevel, nextLevel, values, n);
      r := MergeEntry(schema, r, top[n], values, PartlyMerged(top, topLevel, nextLevel, values, n));
    }
  }

  // ----- Changes and their notifications

  /** The changes held back while updates are batched, one list for each kind of property. */
  datatype UpdateTransaction = UpdateTransaction(
    updateCount: nat, intChanges: seq<Change>, boolChanges: seq<Change>, stringChanges: seq<Change>)

  /** `changes` holds, once each, the properties of one kind that were touched, with their values at the
      start and now; all others of that kind have not changed. */
  ghost predicate Delayed(schema: Schema, kind: Kind, changes: seq<Change>, start: Values, now: Values)
    requires Typed(schema, start) && Typed(schema, now)
  {
    && DistinctKeys(changes)
    && (forall i :: 0 <= i < |changes| ==>
                      var c := changes[i];
                      c.key in schema.kinds && schema.kinds[c.key] == kind && c.oldValue == start[c.key]
                      && c.newValue == now[c.key])
    && (forall k :: k in schema.kinds && schema.kinds[k] == kind && !Touched(changes, k) ==> start[k] == now[k])
  }

  /** Holds a change back: the first old value stays, the newest new value wins. */
  method DelayChange(schema: Schema, changes: seq<Change>, c: Change, ghost start: Values, ghost now: Values)
    returns (r: seq<Change>)
    requires Typed(schema, start) && Typed(schema, now)
    requires c.key in schema.kinds && c.oldValue == now[c.key] && KindOf(c.newValue) == schema.kinds[c.key]
    requires Delayed(schema, schema.kinds[c.key], changes, start, now)
    ensures Delayed(schema, schema.kinds[c.key], r, start, now[c.key := c.newValue])
  {
    for n := 0 to |changes|
      invariant forall i :: 0 <= i < n ==> changes[i].key != c.key
    {
      if changes[n].key == c.key {
        r := changes[n := changes[n].(newValue := c.newValue)];
        assert forall k :: Touched(changes, k) ==> Touched(r, k) by {
          forall k | Touched(changes, k) ensures Touched(r, k) {
            var i :| 0 <= i < |changes| && changes[i].key == k;
            assert r[i].key == k;
          }
        }
        assert r[n].key == c.key;
        return;
      }
    }
    r := changes + [c];
    assert r[|changes|] == c;
    forall k | Touched(changes, k) ensures Touched(r, k) {
      var i :| 0 <= i < |changes| && changes[i].key == k;
      assert r[i].key == k;
    }
  }

  /** The held-back changes that really changed something. */
  function Effective(changes: seq<Change>): seq<Change> {
    if changes == [] then []
    else
      var c := changes[|changes| - 1];
      Effective(changes[..|changes| - 1]) + (if c.newValue != c.oldValue then [c] else [])
  }

  lemma {:induction false} EffectiveMembers(changes: seq<Change>, c: Change)
    ensures c in Effective(changes) <==> c in changes && c.newValue != c.oldValue
  {
    if changes != [] {
      EffectiveMembers(changes[..|changes| - 1], c);
      assert changes == changes[..|changes| - 1] + [changes[|changes| - 1]];
    }
  }

  lemma {:induction false} EffectiveDistinct(changes: seq<Change>)
    requires DistinctKeys(changes)
    ensures DistinctKeys(Effective(changes))
  {
    if changes != [] {
      var init, c := changes[..|changes| - 1], changes[|changes| - 1];
      EffectiveDistinct(init);
      var rest := Effective(init);
      forall i | 0 <= i < |rest| ensures rest[i].key != c.key {
        EffectiveMembers(init, rest[i]);
        var j :| 0 <= j < |init| && init[j] == rest[i];
        assert changes[j] == rest[i];
      }
    }
  }

  lemma EffectiveOfKind(schema: Schema, kind: Kind, changes: seq<Change>, start: Values, now: Values)
    requires Typed(schema, start) && Typed(schema, now) && Delayed(schema, kind, changes, start, now)
    ensures ReportFor(schema, {kind}, Effective(changes), start, now)
  {
    EffectiveDistinct(changes);
    forall i | 0 <= i < |Effective(changes)|
      ensures Effective(changes)[i] in changes && Effective(changes)[i].oldValue != Effective(changes)[i].newValue
    {
      EffectiveMembers(changes, Effective(changes)[i]);
    }
    forall k | k in schema.kinds && schema.kinds[k] == kind && start[k] != now[k]
      ensures Touched(Effective(changes), k) {
      assert Touched(changes, k);
      var i :| 0 <= i < |changes| && changes[i].key == k;
      EffectiveMembers(changes, changes[i]);
      var j :| 0 <= j < |Effective(changes)| && Effective(changes)[j] == changes[i];
    }
  }

  /** Reporting the effective changes of the three lists reports exactly what changed. */
  lemma EffectiveIsExact(schema: Schema, u: UpdateTransaction, start: Values, now: Values)
    requires Typed(schema, start) && Typed(schema, now)
    requires Delayed(schema, IntKind, u.intChanges, start, now)
    requires Delayed(schema, BoolKind, u.boolChanges, start, now)
    requires Delayed(schema, StringKind, u.stringChanges, start, now)
    ensures ExactReport(schema, Effective(u.intChanges) + Effective(u.boolChanges) + Effective(u.stringChanges), start,
                        now)
  {
    var ints, bools, strings := Effective(u.intChanges), Effective(u.boolChanges), Effective(u.stringChanges);
    EffectiveOfKind(schema, IntKind, u.intChanges, start, now);
    EffectiveOfKind(schema, BoolKind, u.boolChanges, start, now);
    EffectiveOfKind(schema, StringKind, u.stringChanges, start, now);
    JoinReports(schema, {IntKind}, ints, {BoolKind}, bools, start, now);
    JoinReports(schema, {IntKind} + {BoolKind}, ints + bools, {StringKind}, strings, start, now);
    assert {IntKind} + {BoolKind} + {StringKind} == {IntKind, BoolKind, StringKind};
  }

  /** The three lists of held-back changes describe what happened since the batch began. */
  ghost predicate BatchDescribes(schema: Schema, u: UpdateTransaction, start: Values, now: Values) {
    && Typed(schema, start) && Typed(schema, now)
    && Delayed(schema, IntKind, u.intChanges, start, now)
    && Delayed(schema, BoolKind, u.boolChanges, start, now)
    && Delayed(schema, StringKind, u.stringChanges, start, now)
  }

  /** A change of one kind leaves the lists of the other kinds alone. */
  lemma OtherKindUntouched(schema: Schema, kind: Kind, changes: seq<Change>, start: Values, now: Values, k: int,
                           v: Value)
    requires Typed(schema, start) && Typed(schema, now) && Delayed(schema, kind, changes, start, now)
    requires k in schema.kinds && schema.kinds[k] != kind && KindOf(v) == schema.kinds[k]
    ensures Delayed(schema, kind, changes, start, now[k := v])
  {
  }

  method DelayInto(schema: Schema, u: UpdateTransaction, c: Change, ghost start: Values, ghost now: Values)
    returns (r: UpdateTransaction)
    requires BatchDescribes(schema, u, start, now)
    requires c.key in schema.kinds && c.oldValue == now[c.key] && KindOf(c.newValue) == schema.kinds[c.key]
    ensures BatchDescribes(schema, r, start, now[c.key := c.newValue]) && r.updateCount == u.updateCount
  {
    match schema.kinds[c.key] {
      case IntKind =>
        var changes := DelayChange(schema, u.intChanges, c, start, now);
        OtherKindUntouched(schema, BoolKind, u.boolChanges, start, now, c.key, c.newValue);
        OtherKindUntouched(schema, StringKind, u.stringChanges, start, now, c.key, c.newValue);
        r := u.(intChanges := changes);
      case BoolKind =>
        var changes := DelayChange(schema, u.boolChanges, c, start, now);
        OtherKindUntouched(schema, IntKind, u.intChanges, start, now, c.key, c.newValue);
        OtherKindUntouched(schema, StringKind, u.stringChanges, start, now, c.key, c.newValue);
        r := u.(boolChanges := changes);
      case StringKind =>
        var changes := DelayChange(schema, u.stringChanges, c, start, now);
        OtherKindUntouched(schema, IntKind, u.intChanges, start, now, c.key, c.newValue);
        OtherKindUntouched(schema, BoolKind, u.boolChanges, start, now, c.key, c.newValue);
        r := u.(stringChanges := changes);
    }
  }

  /** The same nesting of batches. */
  ghost predicate SameBatch(a: Option<UpdateTransaction>, b: Option<UpdateTransaction>) {
    a.Some? == b.Some? && (a.Some? ==> a.value.updateCount == b.value.updateCount)
  }

  class DataModelBase {
    const schema: Schema
    var values: Values
    /** The chain of transactions, the topmost first. */
    var transactions: seq<seq<ModelPropertyValue>>
    var update: Option<UpdateTransaction>
    /** The notifications sent so far. */
    var notified: seq<Change>
    /** The originals that the transactions record. */
    ghost var levels: seq<Values>
    /** The values as far as OnValueChanged has been told about them. */
    ghost var announced: Values
    /** The values when the current batch began. */
    ghost var batchStart: Values

    ghost predicate Sound()
      reads this
    {
      && SchemaOk(schema) && Typed(schema, values)
      && AllHold(schema, transactions, levels)
    }

    ghost predicate BatchOk()
      reads this
    {
      && Typed(schema, announced)
      && (update.Some? ==> update.value.updateCount > 0 && BatchDescribes(schema, update.value, batchStart, announced))
    }

    /** Everything is in order, except that the flag may lag behind the top transaction. */
    ghost predicate Consistent()
      reads this
    {
      Sound() && BatchOk() && announced == values
    }

    ghost predicate Valid()
      reads this
    {
      Consistent() && values[schema.flag] == TopModified(levels)
    }

    ghost function State(): Core
      reads this
    {
      Core(values, levels)
    }

    constructor (schema: Schema, defaults: Values)
      requires SchemaOk(schema) && Typed(schema, defaults)
      requires defaults[schema.flag] == BoolValue(false)
      ensures Valid() && State() == Core(defaults, []) && update.None? && notified == []
      ensures this.schema == schema && Exact(schema, State(), Ref(defaults, []))
    {
      this.schema := schema;
      values, transactions, update, notified := defaults, [], None, [];
      levels, announced, batchStart := [], defaults, defaults;
    }

    /** Once the one property that was not announced is, all are, whatever the flag. */
    static lemma CatchesUp(announced: Values, values: Values, c: Change, flag: int, f: Value)
      requires c.key in values && values[c.key] == c.newValue
      requires c.key != flag ==> announced == values[c.key := c.oldValue]
      ensures c.key != flag ==> announced[c.key := c.newValue] == values
      ensures c.key != flag ==> announced[flag := f][c.key := c.newValue] == values[flag := f]
    {
    }

    static lemma EmptyIsUnmodified(schema: Schema, v: seq<ModelPropertyValue>, level: Values)
      requires Holds(schema, v, level)
      ensures v == [] <==> level == map[]
    {
      if v != [] {
        EntryAt(schema, v, level, 0);
      } else {
        forall k ensures k !in level {
          assert k in level ==> HasKey(v, KeyOf, k);
        }
        assert level == map[];
      }
    }

    /** Records a change of a tracked property in the top transaction. */
    method RecordInTop(c: Change) returns (modified: bool)
      requires Sound() && levels != [] && c.key in schema.tracked
      requires KindOf(c.oldValue) == KindOf(c.newValue) == schema.kinds[c.key]
      modifies this`transactions, this`levels
      ensures Sound()
      ensures levels == [RecordChange(old(levels)[0], c.key, c.oldValue, c.newValue)] + old(levels)[1..]
      ensures BoolValue(modified) == TopModified(levels)
    {
      PopHolds(schema, transactions, levels);
      var top := ValueChanged(schema, transactions[0], c.key, c.oldValue, c.newValue, levels[0]);
      PushHolds(schema, top, RecordChange(levels[0], c.key, c.oldValue, c.newValue), transactions[1..], levels[1..]);
      transactions := [top] + transactions[1..];
      levels := [RecordChange(levels[0], c.key, c.oldValue, c.newValue)] + levels[1..];
      EmptyIsUnmodified(schema, top, levels[0]);
      modified := top != [];
    }

    /** Holds a change back while updates are batched; notifies the listeners otherwise. */
    method Deliver(c: Change)
      requires BatchOk()
      requires c.key in schema.kinds && c.oldValue == announced[c.key] && KindOf(c.newValue) == schema.kinds[c.key]
      modifies this`update, this`announced, this`notified
      ensures BatchOk() && announced == old(announced)[c.key := c.newValue]
      ensures SameBatch(update, old(update))
      ensures notified == if old(update).Some? then old(notified) else old(notified) + [c]
    {
      if update.Some? {
        var delayed := DelayInto(schema, update.value, c, batchStart, announced);
        update := Some(delayed);
      } else {
        notified := notified + [c];
      }
      announced := announced[c.key := c.newValue];
    }

    /** Records a change in the top transaction, then holds it back or notifies the listeners. */
    method OnValueChanged(c: Change)
      requires Sound() && BatchOk()
      requires c.key in schema.kinds && KindOf(c.oldValue) == KindOf(c.newValue) == schema.kinds[c.key]
      requires announced[c.key] == c.oldValue && values[c.key] == c.newValue
      requires c.key != schema.flag ==> announced == values[c.key := c.oldValue]
      modifies this
      ensures Sound() && BatchOk() && batchStart == old(batchStart)
      ensures State() == RecordCore(schema, old(State()), c.key, c.oldValue, c.newValue)
      ensures announced == if c.key == schema.flag then old(announced)[c.key := c.newValue] else values
      ensures SameBatch(update, old(update))
      ensures notified == if old(update).Some? then old(notified) else
                          old(notified) + FlagChange(schema, old(values)[schema.flag], values[schema.flag]) + [c]
      decreases if c.key == schema.flag then 0 else 1, 0
    {
      ghost var toldBefore, valuesBefore := announced, values;
      if transactions != [] && c.key in schema.tracked {
        RecordAndFlag(c);
      }
      CatchesUp(toldBefore, valuesBefore, c, schema.flag, values[schema.flag]);
      Deliver(c);
    }

    /** Records a change of a tracked property in the top transaction and updates the modified flag. */
    method RecordAndFlag(c: Change)
      requires Sound() && BatchOk() && levels != [] && c.key in schema.tracked
      requires KindOf(c.oldValue) == KindOf(c.newValue) == schema.kinds[c.key]
      requires announced[schema.flag] == values[schema.flag]
      modifies this
      ensures Sound() && BatchOk() && batchStart == old(batchStart)
      ensures levels == [RecordChange(old(levels)[0], c.key, c.oldValue, c.newValue)] + old(levels)[1..]
      ensures values == old(values)[schema.flag := TopModified(levels)]
      ensures announced == old(announced)[schema.flag := TopModified(levels)]
      ensures SameBatch(update, old(update))
      ensures notified == if old(update).Some? then old(notified) else
                          old(notified) + FlagChange(schema, old(values)[schema.flag], values[schema.flag])
      decreases 0, 3
    {
      var modified := RecordInTop(c);
      SetFlag(modified);
    }

    /** Sets a property; setting it to its current value does nothing. */
    method ChangeValue(k: int, v: Value)
      requires Sound() && BatchOk()
      requires k in schema.kinds && KindOf(v) == schema.kinds[k]
      requires announced[k] == values[k] && (k != schema.flag ==> announced == values)
      modifies this
      ensures Sound() && BatchOk() && batchStart == old(batchStart)
      ensures State() == SetCore(schema, old(State()), k, v)
      ensures k == schema.flag ==> announced == old(announced)[k := v]
      ensures k != schema.flag ==> announced == values
      ensures SameBatch(update, old(update))
      ensures notified == if old(update).Some? then old(notified) else old(notified) + Told(schema, old(State()), k, v)
      decreases if k == schema.flag then 0 else 1, 1
    {
      if values[k] == v {
        return;
      }
      var c := Change(k, values[k], v);
      values := values[k := v];
      OnValueChanged(c);
    }

    /** Sets the modified flag, which no transaction tracks. */
    method SetFlag(modified: bool)
      requires Sound() && BatchOk() && announced[schema.flag] == values[schema.flag]
      modifies this
      ensures Sound() && BatchOk() && batchStart == old(batchStart)
      ensures values == old(values)[schema.flag := BoolValue(modified)]
      ensures levels == old(levels)
      ensures announced == old(announced)[schema.flag := BoolValue(modified)]
      ensures SameBatch(update, old(update))
      ensures notified == if old(update).Some? then old(notified) else
                          old(notified) + FlagChange(schema, old(values)[schema.flag], values[schema.flag])
      decreases 0, 2
    {
      ChangeValue(schema.flag, BoolValue(modified));
    }

    /** Sets a property. Outside a batch every property that gets another value, the flag included, is reported
        once, with its true old and new value. */
    method SetValue(k: int, v: Value)
      requires Valid() && k in schema.kinds && k != schema.flag && KindOf(v) == schema.kinds[k]
      modifies this
      ensures Valid() && SameBatch(update, old(update)) && batchStart == old(batchStart)
      ensures State() == SetCore(schema, old(State()), k, v)
      ensures notified == if old(update).Some? then old(notified) else old(notified) + Told(schema, old(State()), k, v)
      ensures old(update).None? ==> ExactReport(schema, notified[|old(notified)|..], old(values), values)
    {
      ToldIsExact(schema, State(), k, v);
      ChangeValue(k, v);
    }

    // ----- Transactions

    method BeginTransaction()
      requires Valid()
      modifies this
      ensures Valid() && SameBatch(update, old(update)) && batchStart == old(batchStart)
      ensures State() == BeginCore(schema, old(State()))
      ensures notified == if old(update).Some? then old(notified) else
                          old(notified) + FlagChange(schema, old(values)[schema.flag], values[schema.flag])
    {
      PushHolds(schema, [], map[], transactions, levels);
      transactions := [[]] + transactions;
      levels := [map[]] + levels;
      SetFlag(false);
    }

    /** Folds the top transaction into the one below it. */
    method MergeTop()
      requires Consistent() && |levels| > 1
      modifies this`transactions, this`levels
      ensures Consistent()
      ensures levels == [old(levels)[0], MergeLevels(old(levels)[0], old(levels)[1], values)] + old(levels)[2..]
    {
      PopHolds(schema, transactions, levels);
      PopHolds(schema, transactions[1..], levels[1..]);
      var merged := MergeInto(schema, transactions[0], transactions[1], values, levels[0], levels[1]);
      ghost var mergedLevel := MergeLevels(levels[0], levels[1], values);
      PushHolds(schema, merged, mergedLevel, transactions[2..], levels[2..]);
      PushHolds(schema, transactions[0], levels[0], [merged] + transactions[2..], [mergedLevel] + levels[2..]);
      transactions := [transactions[0]] + ([merged] + transactions[2..]);
      levels := [levels[0]] + ([mergedLevel] + levels[2..]);
    }

    /** Drops the top transaction. */
    method DiscardTransaction()
      requires Consistent() && levels != []
      modifies this
      ensures Valid() && SameBatch(update, old(update)) && batchStart == old(batchStart)
      ensures State() == Core(old(values)[schema.flag := TopModified(old(levels)[1..])], old(levels)[1..])
      ensures notified == if old(update).Some? then old(notified) else
                          old(notified) + FlagChange(schema, old(values)[schema.flag], values[schema.flag])
    {
      PopHolds(schema, transactions, levels);
      transactions := transactions[1..];
      levels := levels[1..];
      if transactions == [] {
        SetFlag(false);
      } else {
        PopHolds(schema, transactions, levels);
        EmptyIsUnmodified(schema, transactions[0], levels[0]);
        SetFlag(transactions[0] != []);
      }
    }

    method CommitTransaction()
      requires Valid()
      modifies this
      ensures Valid() && SameBatch(update, old(update)) && batchStart == old(batchStart)
      ensures State() == CommitCore(schema, old(State()))
      ensures notified == if old(update).Some? then old(notified) else
                          old(notified) + FlagChange(schema, old(values)[schema.flag], values[schema.flag])
    {
      if transactions != [] {
        PopHolds(schema, transactions, levels);
        ghost var before := State();
        if |transactions| > 1 {
          MergeTop();
        }
        CommitInTwoSteps(schema, before, levels);
        DiscardTransaction();
      }
    }

    /** Drops the top transaction after its originals were put back. */
    method DiscardReverted(ghost start: Values, ghost base: seq<Change>, ghost before: seq<Change>)
      returns (ghost reports: seq<Change>)
      requires Consistent() && levels != [] && Typed(schema, start) && values[schema.flag] == start[schema.flag]
      requires ExactReport(schema, before, start, values)
      requires notified == if update.Some? then base else base + before
      modifies this
      ensures Valid() && SameBatch(update, old(update)) && batchStart == old(batchStart)
      ensures State() == Core(old(values)[schema.flag := TopModified(old(levels)[1..])], old(levels)[1..])
      ensures ExactReport(schema, reports, start, values)
      ensures notified == if old(update).Some? then base else base + reports
    {
      ghost var restored := values;
      DiscardTransaction();
      ghost var told := FlagChange(schema, restored[schema.flag], values[schema.flag]);
      ExactFlag(schema, before, start, restored, values[schema.flag]);
      Regroup(base, before, told);
      reports := before + told;
    }

    /** Takes the originals out of the top transaction. */
    method TakeOut() returns (originals: seq<ModelPropertyValue>)
      requires Consistent() && levels != []
      modifies this`transactions, this`levels
      ensures Consistent() && originals == old(transactions)[0] && levels == [map[]] + old(levels)[1..]
    {
      PopHolds(schema, transactions, levels);
      PushHolds(schema, [], map[], transactions[1..], levels[1..]);
      originals := transactions[0];
      transactions := [[]] + transactions[1..];
      levels := [map[]] + levels[1..];
    }

    /** Only properties that are set again are recorded. */
    static ghost predicate Covered(level: Values, done: Values) {
      forall k :: k in level ==> k in done
    }

    /** Sets one of the originals that was not set before. */
    method RestoreEntry(e: ModelPropertyValue, ghost start: Values, ghost done: Values, ghost base: seq<Change>,
                        ghost before: seq<Change>)
      returns (ghost reports: seq<Change>)
      requires Consistent() && levels != [] && Covered(levels[0], done) && values[schema.flag] == BoolValue(true)
      requires e.nKey in schema.tracked && e.nKey !in done && Restored(schema, start, done, State(), before)
      requires notified == if update.Some? then base else base + before
      modifies this
      ensures Consistent() && SameBatch(update, old(update)) && batchStart == old(batchStart)
      ensures levels != [] && levels[1..] == old(levels)[1..]
      ensures Covered(levels[0], done[e.nKey := Decode(schema.kinds[e.nKey], e)])
      ensures values[schema.flag] == BoolValue(true)
      ensures Restored(schema, start, done[e.nKey := Decode(schema.kinds[e.nKey], e)], State(), reports)
      ensures notified == if old(update).Some? then base else base + reports
    {
      var k, v := e.nKey, Decode(schema.kinds[e.nKey], e);
      ghost var state := State();
      RestoringStep(schema, state, k, v);
      RestoredOneMore(schema, start, done, state, before, k, v);
      Regroup(base, before, Told(schema, state, k, v));
      reports := before + Told(schema, state, k, v);
      ChangeValue(k, v);
    }

    method RestoreEntries(originals: seq<ModelPropertyValue>, ghost first: nat -> Values)
      returns (ghost reports: seq<Change>)
      requires Consistent() && levels != [] && levels[0] == map[] && InTurn(schema, originals, first)
      requires originals != [] ==> values[schema.flag] == BoolValue(true)
      modifies this
      ensures Consistent() && SameBatch(update, old(update)) && batchStart == old(batchStart)
      ensures levels != [] && levels[1..] == old(levels)[1..]
      ensures Restored(schema, old(values), first(|originals|), State(), reports)
      ensures notified == if old(update).Some? then old(notified) else old(notified) + reports
    {
      ghost var start, base := values, notified;
      RestoredNothing(schema, State());
      reports := [];
      assert base + [] == base;
      for n := 0 to |originals|
        invariant Consistent() && SameBatch(update, old(update)) && batchStart == old(batchStart)
        invariant levels != [] && levels[1..] == old(levels)[1..] && Covered(levels[0], first(n))
        invariant originals != [] ==> values[schema.flag] == BoolValue(true)
        invariant Restored(schema, start, first(n), State(), reports)
        invariant notified == if update.Some? then base else base + reports
      {
        assert NextInTurn(schema, originals, first(n), first(n + 1), n);
        reports := RestoreEntry(originals[n], start, first(n), base, reports);
      }
    }

    /** Transaction::Revert: takes the recorded originals out of the top transaction and sets them again. */
    method RestoreOriginals() returns (ghost reports: seq<Change>)
      requires Valid() && levels != []
      modifies this
      ensures Consistent() && SameBatch(update, old(update)) && batchStart == old(batchStart)
      ensures levels != [] && levels[1..] == old(levels)[1..]
      ensures Restored(schema, old(values), old(levels)[0], State(), reports)
      ensures notified == if old(update).Some? then old(notified) else old(notified) + reports
    {
      PopHolds(schema, transactions, levels);
      EmptyIsUnmodified(schema, transactions[0], levels[0]);
      ghost var first := EntriesInTurn(schema, transactions[0], levels[0]);
      var originals := TakeOut();
      reports := RestoreEntries(originals, first);
    }

    /** Puts the originals back and drops the transaction. Outside a batch each property that gets another
        value, the flag included, is reported once, with its true old and new value. */
    method RevertTransaction() returns (ghost reports: seq<Change>)
      requires Valid()
      modifies this
      ensures Valid() && SameBatch(update, old(update)) && batchStart == old(batchStart)
      ensures State() == RevertCore(schema, old(State()))
      ensures ExactReport(schema, reports, old(values), values)
      ensures notified == if old(update).Some? then old(notified) else old(notified) + reports
    {
      reports := [];
      if transactions != [] {
        RevertInTwoSteps(schema, State());
        reports := RestoreOriginals();
        reports := DiscardReverted(old(values), old(notified), reports);
      }
    }

    // ----- Batches of updates

    method BeginUpdate()
      requires Valid()
      modifies this`update, this`batchStart
      ensures Valid() && update.Some?
      ensures update.value.updateCount == (if old(update).Some? then old(update).value.updateCount else 0) + 1
      ensures batchStart == if old(update).Some? then old(batchStart) else values
    {
      if update.None? {
        update := Some(UpdateTransaction(0, [], [], []));
        batchStart := values;
      }
      update := Some(update.value.(updateCount := update.value.updateCount + 1));
    }

    /** Notifies the listeners of the held-back changes that really changed something; the transactions
        have been told about them before. */
    method NotifyEffective(changes: seq<Change>)
      modifies this`notified
      ensures notified == old(notified) + Effective(changes)
    {
      for n := 0 to |changes|
        invariant notified == old(notified) + Effective(changes[..n])
      {
        assert changes[..n + 1][..n] == changes[..n];
        if changes[n].newValue != changes[n].oldValue {
          notified := notified + [changes[n]];
        }
      }
      assert changes[..|changes|] == changes;
    }

    /** Notifies of the integers first, then the booleans, then the strings. */
    method NotifyAll(delayed: UpdateTransaction) returns (ghost report: seq<Change>)
      modifies this`notified
      ensures report ==
              Effective(delayed.intChanges) + Effective(delayed.boolChanges) + Effective(delayed.stringChanges)
      ensures notified == old(notified) + report
    {
      NotifyEffective(delayed.intChanges);
      NotifyEffective(delayed.boolChanges);
      NotifyEffective(delayed.stringChanges);
      report := Effective(delayed.intChanges) + Effective(delayed.boolChanges) + Effective(delayed.stringChanges);
    }

    /** Ends the outermost batch. */
    method FinishBatch() returns (ghost report: seq<Change>)
      requires Typed(schema, values) && update.Some? && BatchDescribes(schema, update.value, batchStart, values)
      modifies this`update, this`notified
      ensures update.None? && notified == old(notified) + report
      ensures ExactReport(schema, report, batchStart, values)
    {
      var delayed := update.value;
      update := None;
      EffectiveIsExact(schema, delayed, batchStart, values);
      report := NotifyAll(delayed);
    }

    /** Ends a batch: the outermost end reports every property that differs from its value when the
        batch began once, with exactly those two values, and changes neither values nor transactions. */
    method EndUpdate() returns (ghost report: seq<Change>)
      requires Valid()
      modifies this`update, this`notified
      ensures Valid() && State() == old(State())
      ensures notified == old(notified) + report
      ensures old(update).None? ==> update.None? && report == []
      ensures old(update).Some? && old(update).value.updateCount > 1 ==>
                report == [] && update == Some(old(update).value.(updateCount := old(update).value.updateCount - 1))
      ensures old(update).Some? && old(update).value.updateCount == 1 ==>
                update.None? && ExactReport(schema, report, batchStart, values)
    {
      report := [];
      if update.Some? {
        update := Some(update.value.(updateCount := update.value.updateCount - 1));
        if update.value.updateCount == 0 {
          report := FinishBatch();
        }
      }
    }

    /** Whether a property is recorded by the current transaction. */
    method IsModified(k: int) returns (modified: bool)
      requires Valid()
      ensures modified <==> levels != [] && k in levels[0]
    {
      if transactions == [] {
        return false;
      }
      var at;
      at, modified := FindEntry(schema, transactions[0], k, levels[0]);
    }
  }
}
