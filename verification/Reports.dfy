/** The changes of properties that listeners are told about. */
module Reports {
  import opened Transactions

  datatype Change = Change(key: int, oldValue: Value, newValue: Value)

  ghost predicate Touched(changes: seq<Change>, k: int) {
    exists i :: 0 <= i < |changes| && changes[i].key == k
  }

  ghost predicate DistinctKeys(changes: seq<Change>) {
    forall i, j :: 0 <= i < j < |changes| ==> changes[i].key != changes[j].key
  }

  /** Every property of some kinds that differs between two states is reported once, with exactly those two values. */
  ghost predicate ReportFor(schema: Schema, kinds: set<Kind>, changes: seq<Change>, start: Values, now: Values)
    requires Typed(schema, start) && Typed(schema, now)
  {
    && DistinctKeys(changes)
    && (forall i :: 0 <= i < |changes| ==>
                      var c := changes[i];
                      && c.key in schema.kinds && schema.kinds[c.key] in kinds
                      && c.oldValue == start[c.key] && c.newValue == now[c.key] && c.oldValue != c.newValue)
    && (forall k :: k in schema.kinds && schema.kinds[k] in kinds && start[k] != now[k] ==> Touched(changes, k))
  }

  ghost predicate ExactReport(schema: Schema, changes: seq<Change>, start: Values, now: Values)
    requires Typed(schema, start) && Typed(schema, now)
  {
    ReportFor(schema, {IntKind, BoolKind, StringKind}, changes, start, now)
  }

  lemma JoinReports(schema: Schema, kinds: set<Kind>, a: seq<Change>, others: set<Kind>, b: seq<Change>, start: Values,
                    now: Values)
    requires Typed(schema, start) && Typed(schema, now) && kinds !! others
    requires ReportFor(schema, kinds, a, start, now) && ReportFor(schema, others, b, start, now)
    ensures ReportFor(schema, kinds + others, a + b, start, now)
  {
    forall k | Touched(a, k) || Touched(b, k) ensures Touched(a + b, k) {
      if Touched(a, k) {
        var i :| 0 <= i < |a| && a[i].key == k;
        assert (a + b)[i].key == k;
      } else {
        var i :| 0 <= i < |b| && b[i].key == k;
        assert (a + b)[|a| + i].key == k;
      }
    }
  }

  function FlagChange(schema: Schema, before: Value, after: Value): seq<Change> {
    if after != before then [Change(schema.flag, before, after)] else []
  }

  /** What the listeners hear when a property is set outside a batch: the flag first, if it changes. */
  function Told(schema: Schema, c: Core, k: int, v: Value): seq<Change>
    requires k in c.values && schema.flag in c.values
  {
    if c.values[k] == v then []
    else
      var after := SetCore(schema, c, k, v);
      (if k != schema.flag && schema.flag in after.values
       then FlagChange(schema, c.values[schema.flag], after.values[schema.flag]) else [])
      + [Change(k, c.values[k], v)]
  }

  // ----- Reports of several changes

  /** One property more has changed, and is reported. */
  lemma ExactOneMore(schema: Schema, changes: seq<Change>, start: Values, now: Values, c: Change)
    requires Typed(schema, start) && Typed(schema, now) && ExactReport(schema, changes, start, now)
    requires c.key in schema.kinds && KindOf(c.newValue) == schema.kinds[c.key]
    requires now[c.key] == start[c.key] == c.oldValue && c.oldValue != c.newValue
    ensures ExactReport(schema, changes + [c], start, now[c.key := c.newValue])
  {
    var r := changes + [c];
    assert r[|changes|] == c;
    forall k | Touched(changes, k) ensures Touched(r, k) {
      var i :| 0 <= i < |changes| && changes[i].key == k;
      assert r[i].key == k;
    }
  }

  /** The flag changes last, and is reported. */
  lemma ExactFlag(schema: Schema, changes: seq<Change>, start: Values, now: Values, f: Value)
    requires SchemaOk(schema) && Typed(schema, start) && Typed(schema, now) && ExactReport(schema, changes, start, now)
    requires now[schema.flag] == start[schema.flag] && KindOf(f) == BoolKind
    ensures ExactReport(schema, changes + FlagChange(schema, now[schema.flag], f), start, now[schema.flag := f])
  {
    if f == now[schema.flag] {
      assert changes + [] == changes && now[schema.flag := f] == now;
    } else {
      ExactOneMore(schema, changes, start, now, Change(schema.flag, now[schema.flag], f));
    }
  }

  lemma NothingChanged(schema: Schema, start: Values)
    requires Typed(schema, start)
    ensures ExactReport(schema, [], start, start)
  {
  }

  lemma OneChanged(schema: Schema, start: Values, c: Change)
    requires Typed(schema, start) && c.key in schema.kinds && KindOf(c.newValue) == schema.kinds[c.key]
    requires start[c.key] == c.oldValue && c.oldValue != c.newValue
    ensures Typed(schema, start[c.key := c.newValue])
    ensures ExactReport(schema, [c], start, start[c.key := c.newValue])
  {
    NothingChanged(schema, start);
    ExactOneMore(schema, [], start, start, c);
  }

  lemma TwoChanged(schema: Schema, start: Values, c: Change, d: Change)
    requires Typed(schema, start) && c.key in schema.kinds && KindOf(c.newValue) == schema.kinds[c.key]
    requires start[c.key] == c.oldValue && c.oldValue != c.newValue
    requires d.key in schema.kinds && KindOf(d.newValue) == schema.kinds[d.key] && d.key != c.key
    requires start[d.key] == d.oldValue && d.oldValue != d.newValue
    ensures Typed(schema, start[c.key := c.newValue][d.key := d.newValue])
    ensures ExactReport(schema, [c, d], start, start[c.key := c.newValue][d.key := d.newValue])
  {
    OneChanged(schema, start, c);
    ExactOneMore(schema, [c], start, start[c.key := c.newValue], d);
    assert [c] + [d] == [c, d];
  }

  /** What setting a property does to the values, and what is told of it. */
  lemma SetAndTold(schema: Schema, c: Core, k: int, v: Value)
    requires SchemaOk(schema) && Typed(schema, c.values) && k in schema.kinds && c.values[k] != v
    ensures var flag, own := SetCore(schema, c, k, v).values[schema.flag], Change(k, c.values[k], v);
            if k == schema.flag || flag == c.values[schema.flag] then
              SetCore(schema, c, k, v).values == c.values[k := v] && Told(schema, c, k, v) == [own]
            else
              && SetCore(schema, c, k, v).values == c.values[schema.flag := flag][k := v]
              && Told(schema, c, k, v) == [Change(schema.flag, c.values[schema.flag], flag), own]
  {
  }

  /** Setting a property outside a batch reports exactly what changes: the property, and the flag. */
  lemma ToldIsExact(schema: Schema, c: Core, k: int, v: Value)
    requires SchemaOk(schema) && Typed(schema, c.values) && k in schema.kinds && KindOf(v) == schema.kinds[k]
    ensures Typed(schema, SetCore(schema, c, k, v).values)
    ensures ExactReport(schema, Told(schema, c, k, v), c.values, SetCore(schema, c, k, v).values)
  {
    if c.values[k] == v {
      NothingChanged(schema, c.values);
    } else {
      SetAndTold(schema, c, k, v);
      var flag, own := SetCore(schema, c, k, v).values[schema.flag], Change(k, c.values[k], v);
      if k == schema.flag || flag == c.values[schema.flag] {
        OneChanged(schema, c.values, own);
      } else {
        TwoChanged(schema, c.values, Change(schema.flag, c.values[schema.flag], flag), own);
      }
    }
  }

  // ----- Setting originals again

  /** Some originals are set again, and exactly that has been reported. */
  ghost predicate Restored(schema: Schema, start: Values, done: Values, c: Core, reports: seq<Change>) {
    && SchemaOk(schema) && Typed(schema, start) && Typed(schema, c.values) && c.levels != []
    && c.values == start + done && done.Keys <= schema.tracked
    && ExactReport(schema, reports, start, c.values)
  }

  lemma RestoredNothing(schema: Schema, c: Core)
    requires SchemaOk(schema) && Typed(schema, c.values) && c.levels != []
    ensures Restored(schema, c.values, map[], c, [])
  {
    assert c.values + map[] == c.values;
  }

  /** Setting one more original of a level that is modified reports that property and not the flag. */
  lemma RestoredOneMore(schema: Schema, start: Values, done: Values, c: Core, reports: seq<Change>, k: int, v: Value)
    requires Restored(schema, start, done, c, reports) && Restorable(schema, c, k, v) && k !in done
    ensures Restored(schema, start, done[k := v], SetCore(schema, c, k, v), reports + Told(schema, c, k, v))
  {
    RestoringStep(schema, c, k, v);
    assert c.values[k := v] == start + done[k := v];
    if c.values[k] == v {
      assert reports + [] == reports && c.values[k := v] == c.values;
    } else {
      ExactOneMore(schema, reports, start, c.values, Change(k, c.values[k], v));
      assert Told(schema, c, k, v) == [Change(k, c.values[k], v)];
    }
  }
}
