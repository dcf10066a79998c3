/** Nested transactions kept as differences, and the reference machine that keeps whole snapshots. */
module Transactions {
  datatype Kind = BoolKind | IntKind | StringKind

  datatype Value = BoolValue(b: bool) | IntValue(n: int) | StringValue(s: string)

  function KindOf(v: Value): Kind {
    match v
    case BoolValue(_) => BoolKind
    case IntValue(_) => IntKind
    case StringValue(_) => StringKind
  }

  /** The registered properties, those that take part in transactions, and the modified flag. */
  datatype Schema = Schema(kinds: map<int, Kind>, tracked: set<int>, flag: int)

  type Values = map<int, Value>

  ghost predicate SchemaOk(schema: Schema) {
    && schema.tracked <= schema.kinds.Keys
    && schema.flag in schema.kinds && schema.kinds[schema.flag] == BoolKind
    && schema.flag !in schema.tracked
  }

  ghost predicate Typed(schema: Schema, values: Values) {
    && values.Keys == schema.kinds.Keys
    && forall k :: k in values ==> KindOf(values[k]) == schema.kinds[k]
  }

  // ----- The machine of differences

  /** The original values recorded at each level, the topmost level first. */
  datatype Core = Core(values: Values, levels: seq<Values>)

  /** Remembers the value before the first change; forgets it when the value is changed back. */
  function RecordChange(level: Values, k: int, oldValue: Value, newValue: Value): Values {
    if k !in level then level[k := oldValue]
    else if newValue == level[k] then level - {k}
    else level
  }

  function TopModified(levels: seq<Values>): Value {
    BoolValue(levels != [] && levels[0] != map[])
  }

  /** What the transactions make of a change that has just been made. */
  function RecordCore(schema: Schema, c: Core, k: int, oldValue: Value, newValue: Value): Core {
    if c.levels != [] && k in schema.tracked then
      var levels := [RecordChange(c.levels[0], k, oldValue, newValue)] + c.levels[1..];
      Core(c.values[schema.flag := TopModified(levels)], levels)
    else c
  }

  function SetCore(schema: Schema, c: Core, k: int, v: Value): Core
    requires k in c.values
  {
    if c.values[k] == v then c else RecordCore(schema, Core(c.values[k := v], c.levels), k, c.values[k], v)
  }

  function BeginCore(schema: Schema, c: Core): Core {
    Core(c.values[schema.flag := BoolValue(false)], [map[]] + c.levels)
  }

  /** Folds a committed level into the one below: keeps the older original value, and drops it where
      the property has the older value again. */
  function MergeLevels(top: Values, next: Values, values: Values): Values
    requires top.Keys <= values.Keys
  {
    (top + next) - (set k | k in top && k in next && values[k] == next[k])
  }

  function CommitCore(schema: Schema, c: Core): Core
    requires c.levels != [] ==> c.levels[0].Keys <= c.values.Keys
  {
    if c.levels == [] then c
    else
      var levels := if |c.levels| == 1 then [] else [MergeLevels(c.levels[0], c.levels[1], c.values)] + c.levels[2..];
      Core(c.values[schema.flag := TopModified(levels)], levels)
  }

  function RevertCore(schema: Schema, c: Core): Core {
    if c.levels == [] then c
    else Core((c.values + c.levels[0])[schema.flag := TopModified(c.levels[1..])], c.levels[1..])
  }

  // ----- The reference machine: a stack of snapshots

  datatype Ref = Ref(values: Values, snapshots: seq<Values>)

  /** Some tracked property differs from the snapshot taken when the top transaction began. */
  predicate Modified(schema: Schema, values: Values, snapshots: seq<Values>) {
    snapshots != []
    && exists k :: k in schema.tracked && k in values && k in snapshots[0] && values[k] != snapshots[0][k]
  }

  function Flagged(schema: Schema, values: Values, snapshots: seq<Values>): Ref {
    Ref(values[schema.flag := BoolValue(Modified(schema, values, snapshots))], snapshots)
  }

  function SetRef(schema: Schema, r: Ref, k: int, v: Value): Ref {
    Flagged(schema, r.values[k := v], r.snapshots)
  }

  function BeginRef(schema: Schema, r: Ref): Ref {
    Flagged(schema, r.values, [r.values] + r.snapshots)
  }

  function CommitRef(schema: Schema, r: Ref): Ref {
    if r.snapshots == [] then r else Flagged(schema, r.values, r.snapshots[1..])
  }

  /** The values with the tracked ones taken from a snapshot. */
  function WithTracked(schema: Schema, values: Values, snapshot: Values): Values {
    values + (snapshot - (set k | k in snapshot && k !in schema.tracked))
  }

  function RevertRef(schema: Schema, r: Ref): Ref {
    if r.snapshots == [] then r
    else
      Flagged(schema, WithTracked(schema, r.values, r.snapshots[0]), r.snapshots[1..])
  }

  // ----- Exactness

  /** The tracked properties that differ from the snapshot, with the snapshot's values. */
  ghost function Difference(schema: Schema, upper: Values, snapshot: Values): Values {
    snapshot - (set k | k in snapshot && !(k in schema.tracked && k in upper && upper[k] != snapshot[k]))
  }

  /** Each level records exactly the difference between its snapshot and what lies above it: the current
      values above the top level, the next snapshot above the others. */
  ghost predicate LevelsExact(schema: Schema, levels: seq<Values>, snapshots: seq<Values>, above: Values) {
    if levels == [] then snapshots == []
    else
      && snapshots != []
      && Typed(schema, snapshots[0])
      && levels[0] == Difference(schema, above, snapshots[0])
      && LevelsExact(schema, levels[1..], snapshots[1..], snapshots[0])
  }

  /** The machine holds the reference's values, its levels are exact, and the flag says whether the top one is empty. */
  ghost predicate Exact(schema: Schema, c: Core, r: Ref) {
    && SchemaOk(schema)
    && Typed(schema, r.values)
    && c.values == r.values
    && LevelsExact(schema, c.levels, r.snapshots, r.values)
    && r.values[schema.flag] == BoolValue(Modified(schema, r.values, r.snapshots))
  }

  lemma {:induction false} LevelsExactAt(schema: Schema, levels: seq<Values>, snapshots: seq<Values>, above: Values,
                                         j: nat)
    requires LevelsExact(schema, levels, snapshots, above) && j < |levels|
    ensures |levels| == |snapshots|
    ensures levels[j] == Difference(schema, if j == 0 then above else snapshots[j - 1], snapshots[j])
    decreases |levels|
  {
    if j > 0 {
      LevelsExactAt(schema, levels[1..], snapshots[1..], snapshots[0], j - 1);
    } else if |levels| > 1 {
      LevelsExactAt(schema, levels[1..], snapshots[1..], snapshots[0], 0);
    }
  }

  lemma {:induction false} SnapshotsTyped(schema: Schema, levels: seq<Values>, snapshots: seq<Values>, above: Values,
                                          j: nat)
    requires LevelsExact(schema, levels, snapshots, above) && j < |levels|
    ensures j < |snapshots| && Typed(schema, snapshots[j])
    decreases |levels|
  {
    if j > 0 {
      SnapshotsTyped(schema, levels[1..], snapshots[1..], snapshots[0], j - 1);
    }
  }

  /** Level by level: a tracked property is recorded exactly when it differs, with the snapshot's value. */
  lemma ExactLevel(schema: Schema, c: Core, r: Ref, j: nat, k: int)
    requires Exact(schema, c, r) && j < |c.levels| && k in schema.tracked
    ensures |r.snapshots| == |c.levels|
    ensures var above := if j == 0 then r.values else r.snapshots[j - 1];
            && k in above && k in r.snapshots[j]
            && (k in c.levels[j] <==> above[k] != r.snapshots[j][k])
            && (k in c.levels[j] ==> c.levels[j][k] == r.snapshots[j][k])
  {
    LevelsExactAt(schema, c.levels, r.snapshots, r.values, j);
    SnapshotsTyped(schema, c.levels, r.snapshots, r.values, j);
    if j > 0 {
      SnapshotsTyped(schema, c.levels, r.snapshots, r.values, j - 1);
    }
  }

  lemma TopFlagIsModified(schema: Schema, values: Values, snapshots: seq<Values>, levels: seq<Values>)
    requires levels == [] <==> snapshots == []
    requires levels != [] ==> levels[0] == Difference(schema, values, snapshots[0])
    ensures TopModified(levels) == BoolValue(Modified(schema, values, snapshots))
  {
    if levels != [] {
      if forall k :: k !in levels[0] {
        assert levels[0] == map[];
      } else {
        var k :| k in levels[0];
        assert k in schema.tracked && values[k] != snapshots[0][k];
      }
      if Modified(schema, values, snapshots) {
        var k :| k in schema.tracked && k in values && k in snapshots[0] && values[k] != snapshots[0][k];
        assert k in levels[0];
      }
    }
  }

  /** The flag is not tracked, so writing it changes no difference. */
  lemma FlagIsInvisible(schema: Schema, values: Values, flagged: Values, snapshots: seq<Values>, other: Values)
    requires SchemaOk(schema) && schema.flag in flagged && flagged == values[schema.flag := flagged[schema.flag]]
    ensures Difference(schema, flagged, other) == Difference(schema, values, other)
    ensures Modified(schema, flagged, snapshots) == Modified(schema, values, snapshots)
  {
    assert forall k :: k in schema.tracked ==>
                         (k in flagged <==> k in values) && (k in values ==> flagged[k] == values[k]);
  }

  lemma RecordIsDifference(schema: Schema, values: Values, snapshot: Values, k: int, v: Value)
    requires k in schema.tracked && k in values && k in snapshot && values[k] != v
    ensures RecordChange(Difference(schema, values, snapshot), k, values[k], v) ==
            Difference(schema, values[k := v], snapshot)
  {
  }

  lemma UntrackedIsInvisible(schema: Schema, values: Values, k: int, v: Value, snapshots: seq<Values>)
    requires k !in schema.tracked && snapshots != []
    ensures Difference(schema, values[k := v], snapshots[0]) == Difference(schema, values, snapshots[0])
    ensures Modified(schema, values[k := v], snapshots) == Modified(schema, values, snapshots)
  {
    var after := values[k := v];
    assert forall j :: j in schema.tracked ==> (j in after <==> j in values) && (j in after ==> after[j] == values[j]);
  }

  /** Setting a property that no transaction tracks. */
  lemma SetUntracked(schema: Schema, c: Core, r: Ref, k: int, v: Value)
    requires Exact(schema, c, r) && k in schema.kinds && k !in schema.tracked && k != schema.flag
    requires KindOf(v) == schema.kinds[k]
    ensures Exact(schema, Core(c.values[k := v], c.levels), SetRef(schema, r, k, v))
  {
    var values := r.values[k := v];
    if c.levels != [] {
      UntrackedIsInvisible(schema, r.values, k, v, r.snapshots);
    }
    assert SetRef(schema, r, k, v).values == values;
  }

  /** Setting a tracked property to another value. */
  lemma SetTracked(schema: Schema, c: Core, r: Ref, k: int, v: Value)
    requires Exact(schema, c, r) && c.levels != [] && k in schema.tracked && KindOf(v) == schema.kinds[k]
    requires c.values[k] != v
    ensures Exact(schema, SetCore(schema, c, k, v), SetRef(schema, r, k, v))
  {
    var c', r' := SetCore(schema, c, k, v), SetRef(schema, r, k, v);
    var values := r.values[k := v];
    FlagIsInvisible(schema, values, r'.values, r.snapshots, r.snapshots[0]);
    RecordIsDifference(schema, r.values, r.snapshots[0], k, v);
    TopFlagIsModified(schema, values, r.snapshots, c'.levels);
  }

  lemma SetKeepsExact(schema: Schema, c: Core, r: Ref, k: int, v: Value)
    requires Exact(schema, c, r) && k in schema.kinds && k != schema.flag && KindOf(v) == schema.kinds[k]
    ensures Exact(schema, SetCore(schema, c, k, v), SetRef(schema, r, k, v))
  {
    if c.values[k] == v {
      assert r.values[k := v] == r.values && SetRef(schema, r, k, v).values == r.values;
    } else if c.levels == [] {
      assert SetRef(schema, r, k, v).values == r.values[k := v];
    } else if k in schema.tracked {
      SetTracked(schema, c, r, k, v);
    } else {
      SetUntracked(schema, c, r, k, v);
    }
  }

  lemma BeginKeepsExact(schema: Schema, c: Core, r: Ref)
    requires Exact(schema, c, r)
    ensures Exact(schema, BeginCore(schema, c), BeginRef(schema, r))
  {
    var c', r' := BeginCore(schema, c), BeginRef(schema, r);
    FlagIsInvisible(schema, r.values, r'.values, r'.snapshots, r.values);
    assert Difference(schema, r.values, r.values) == map[];
    TopFlagIsModified(schema, r.values, r'.snapshots, c'.levels);
    assert c'.levels[1..] == c.levels && r'.snapshots[1..] == r.snapshots;
  }

  /** Merging two adjacent differences gives the difference across both. */
  lemma MergeIsDifference(schema: Schema, values: Values, upper: Values, lower: Values)
    requires Typed(schema, values) && Typed(schema, upper) && Typed(schema, lower) && SchemaOk(schema)
    ensures MergeLevels(Difference(schema, values, upper), Difference(schema, upper, lower), values) ==
            Difference(schema, values, lower)
  {
  }

  lemma CommitKeepsExact(schema: Schema, c: Core, r: Ref)
    requires Exact(schema, c, r)
    ensures c.levels != [] ==> c.levels[0].Keys <= c.values.Keys
    ensures Exact(schema, CommitCore(schema, c), CommitRef(schema, r))
  {
    if c.levels != [] {
      var c', r' := CommitCore(schema, c), CommitRef(schema, r);
      assert LevelsExact(schema, c.levels[1..], r.snapshots[1..], r.snapshots[0]);
      if |c.levels| > 1 {
        var next := r.snapshots[1..];
        assert c.levels[1..][1..] == c.levels[2..];
        MergeIsDifference(schema, r.values, r.snapshots[0], next[0]);
        assert c'.levels[1..] == c.levels[2..];
      }
      FlagIsInvisible(schema, r.values, r'.values, r'.snapshots,
                      if r'.snapshots == [] then r.values else r'.snapshots[0]);
      TopFlagIsModified(schema, r.values, r'.snapshots, c'.levels);
    }
  }

  /** Writing the recorded originals back restores the snapshot of every tracked property. */
  lemma RestoreIsSnapshot(schema: Schema, values: Values, snapshot: Values)
    requires SchemaOk(schema) && Typed(schema, values) && Typed(schema, snapshot)
    ensures values + Difference(schema, values, snapshot) == WithTracked(schema, values, snapshot)
  {
  }

  lemma DifferenceOfRestored(schema: Schema, values: Values, upper: Values, lower: Values)
    requires SchemaOk(schema) && Typed(schema, values) && Typed(schema, upper)
    ensures Difference(schema, WithTracked(schema, values, upper), lower) == Difference(schema, upper, lower)
  {
  }

  lemma RestoredIsExact(schema: Schema, values: Values, levels: seq<Values>, snapshots: seq<Values>)
    requires SchemaOk(schema) && Typed(schema, values) && levels != [] && snapshots != []
    requires LevelsExact(schema, levels, snapshots, values)
    ensures values + levels[0] == WithTracked(schema, values, snapshots[0])
    ensures LevelsExact(schema, levels[1..], snapshots[1..], values + levels[0])
  {
    RestoreIsSnapshot(schema, values, snapshots[0]);
    if |levels| > 1 {
      DifferenceOfRestored(schema, values, snapshots[0], snapshots[1]);
    }
  }

  lemma RevertKeepsExact(schema: Schema, c: Core, r: Ref)
    requires Exact(schema, c, r)
    ensures Exact(schema, RevertCore(schema, c), RevertRef(schema, r))
  {
    if c.levels != [] {
      var c', r' := RevertCore(schema, c), RevertRef(schema, r);
      var restored := c.values + c.levels[0];
      RestoredIsExact(schema, c.values, c.levels, r.snapshots);
      FlagIsInvisible(schema, restored, r'.values, r'.snapshots,
                      if r'.snapshots == [] then restored else r'.snapshots[0]);
      TopFlagIsModified(schema, restored, r'.snapshots, c'.levels);
    }
  }

  /** An original that can be set again: the flag is on, and the top level does not record the property. */
  ghost predicate Restorable(schema: Schema, c: Core, k: int, v: Value) {
    && SchemaOk(schema) && Typed(schema, c.values) && k in schema.tracked && KindOf(v) == schema.kinds[k]
    && c.levels != [] && k !in c.levels[0] && c.values[schema.flag] == BoolValue(true)
  }

  /** Setting an original again leaves the flag on, and records at most that property. */
  lemma RestoringStep(schema: Schema, c: Core, k: int, v: Value)
    requires Restorable(schema, c, k, v)
    ensures var d := SetCore(schema, c, k, v);
            && d.values == c.values[k := v] && d.values[schema.flag] == BoolValue(true)
            && |d.levels| == |c.levels| && d.levels[1..] == c.levels[1..]
            && d.levels[0] == if c.values[k] == v then c.levels[0] else c.levels[0][k := c.values[k]]
  {
    assert k in c.levels[0][k := c.values[k]];
  }

  /** Putting the originals back and dropping the top level is a revert. */
  lemma RevertInTwoSteps(schema: Schema, c: Core)
    requires c.levels != []
    ensures var rest := c.levels[1..];
            Core((c.values + c.levels[0])[schema.flag := TopModified(rest)], rest) == RevertCore(schema, c)
  {
  }

  /** Folding the top level into the one below and dropping it is a commit. */
  lemma CommitInTwoSteps(schema: Schema, c: Core, folded: seq<Values>)
    requires c.levels != [] && c.levels[0].Keys <= c.values.Keys
    requires folded == if |c.levels| == 1 then c.levels
                       else [c.levels[0], MergeLevels(c.levels[0], c.levels[1], c.values)] + c.levels[2..]
    ensures Core(c.values[schema.flag := TopModified(folded[1..])], folded[1..]) == CommitCore(schema, c)
  {
  }

  // ----- Whole runs

  datatype Op = Begin | Commit | Revert | SetProperty(k: int, v: Value)

  ghost predicate OpOk(schema: Schema, op: Op) {
    op.SetProperty? ==> op.k in schema.kinds && op.k != schema.flag && KindOf(op.v) == schema.kinds[op.k]
  }

  ghost function StepCore(schema: Schema, c: Core, op: Op): Core {
    match op
    case Begin => BeginCore(schema, c)
    case Commit => if c.levels != [] && !(c.levels[0].Keys <= c.values.Keys) then c else CommitCore(schema, c)
    case Revert => RevertCore(schema, c)
    case SetProperty(k, v) => if k in c.values then SetCore(schema, c, k, v) else c
  }

  ghost function StepRef(schema: Schema, r: Ref, op: Op): Ref {
    match op
    case Begin => BeginRef(schema, r)
    case Commit => CommitRef(schema, r)
    case Revert => RevertRef(schema, r)
    case SetProperty(k, v) => SetRef(schema, r, k, v)
  }

  ghost function RunCore(schema: Schema, c: Core, ops: seq<Op>): Core {
    if ops == [] then c else StepCore(schema, RunCore(schema, c, ops[..|ops| - 1]), ops[|ops| - 1])
  }

  ghost function RunRef(schema: Schema, r: Ref, ops: seq<Op>): Ref {
    if ops == [] then r else StepRef(schema, RunRef(schema, r, ops[..|ops| - 1]), ops[|ops| - 1])
  }

  // ----- What the reference machine does

  /** Setting a property changes that one, and perhaps the flag; snapshots stay. */
  lemma SetGives(schema: Schema, r: Ref, k: int, v: Value, j: int)
    requires SchemaOk(schema) && Typed(schema, r.values) && k in schema.kinds && k != schema.flag
    requires j in schema.kinds && j != schema.flag
    ensures var d := SetRef(schema, r, k, v);
            d.snapshots == r.snapshots && j in d.values && d.values[j] == if j == k then v else r.values[j]
  {
  }

  /** Beginning keeps all values, and remembers them. */
  lemma BeginGives(schema: Schema, r: Ref, j: int)
    requires SchemaOk(schema) && Typed(schema, r.values) && j in schema.kinds && j != schema.flag
    ensures var d := BeginRef(schema, r);
            d.snapshots == [r.values] + r.snapshots && j in d.values && d.values[j] == r.values[j]
  {
  }

  /** Committing keeps all values, and forgets the latest snapshot. */
  lemma CommitGives(schema: Schema, r: Ref, j: int)
    requires SchemaOk(schema) && Typed(schema, r.values) && r.snapshots != []
    requires j in schema.kinds && j != schema.flag
    ensures var d := CommitRef(schema, r);
            d.snapshots == r.snapshots[1..] && j in d.values && d.values[j] == r.values[j]
  {
  }

  /** Reverting takes the tracked properties from the latest snapshot, which it forgets, and keeps the others. */
  lemma RevertGives(schema: Schema, r: Ref, j: int)
    requires SchemaOk(schema) && Typed(schema, r.values) && r.snapshots != [] && Typed(schema, r.snapshots[0])
    requires j in schema.kinds && j != schema.flag
    ensures var d := RevertRef(schema, r);
            && d.snapshots == r.snapshots[1..] && j in d.values
            && d.values[j] == if j in schema.tracked then r.snapshots[0][j] else r.values[j]
  {
  }

  /** How many more transactions a run begins than it ends. */
  function Net(ops: seq<Op>): int {
    if ops == [] then 0
    else
      Net(ops[..|ops| - 1])
      + match ops[|ops| - 1]
        case Begin => 1
        case Commit => -1
        case Revert => -1
        case SetProperty(_, _) => 0
  }

  /** A run ends no transaction that it has not begun. */
  ghost predicate Nested(ops: seq<Op>) {
    forall n :: 0 <= n <= |ops| ==> Net(ops[..n]) >= 0
  }

  /** The snapshots from before such a run are still there, below those of the transactions it left open. */
  lemma {:induction false} SnapshotsBelow(schema: Schema, r: Ref, ops: seq<Op>)
    requires Nested(ops)
    ensures Net(ops) >= 0
    ensures var s := RunRef(schema, r, ops).snapshots;
            |s| == |r.snapshots| + Net(ops) && s[Net(ops)..] == r.snapshots
  {
    assert ops[..|ops|] == ops;
    if ops != [] {
      var init := ops[..|ops| - 1];
      assert forall n :: 0 <= n <= |init| ==> init[..n] == ops[..n];
      SnapshotsBelow(schema, r, init);
    }
  }

  lemma {:induction false} RunAfter(schema: Schema, r: Ref, first: Op, ops: seq<Op>)
    ensures RunRef(schema, r, [first] + ops) == RunRef(schema, StepRef(schema, r, first), ops)
  {
    var all := [first] + ops;
    if ops == [] {
      assert all[..0] == [];
    } else {
      assert all[..|all| - 1] == [first] + ops[..|ops| - 1];
      RunAfter(schema, r, first, ops[..|ops| - 1]);
    }
  }

  /** Reverting undoes all that happened to the tracked properties since the transaction began, whatever
      transactions were begun and ended in between. */
  lemma RevertUndoes(schema: Schema, r: Ref, ops: seq<Op>, k: int)
    requires SchemaOk(schema) && Typed(schema, r.values) && k in schema.tracked
    requires Nested(ops) && Net(ops) == 0
    ensures var d := RunRef(schema, r, [Begin] + ops + [Revert]);
            d.snapshots == r.snapshots && k in d.values && d.values[k] == r.values[k]
  {
    var begun := BeginRef(schema, r);
    SnapshotsBelow(schema, begun, ops);
    RunAfter(schema, r, Begin, ops);
    var all := [Begin] + ops + [Revert];
    assert all[..|all| - 1] == [Begin] + ops;
  }

  // ----- Whole runs stay exact

  /** After any run, the recorded differences are exactly those to the snapshots a naive machine would keep. */
  lemma {:induction false} RunsStayExact(schema: Schema, c: Core, r: Ref, ops: seq<Op>)
    requires Exact(schema, c, r) && forall i :: 0 <= i < |ops| ==> OpOk(schema, ops[i])
    ensures Exact(schema, RunCore(schema, c, ops), RunRef(schema, r, ops))
  {
    if ops != [] {
      var n := |ops| - 1;
      RunsStayExact(schema, c, r, ops[..n]);
      var c', r' := RunCore(schema, c, ops[..n]), RunRef(schema, r, ops[..n]);
      match ops[n] {
        case Begin => BeginKeepsExact(schema, c', r');
        case Commit => CommitKeepsExact(schema, c', r');
        case Revert => RevertKeepsExact(schema, c', r');
        case SetProperty(k, v) => SetKeepsExact(schema, c', r', k, v);
      }
    }
  }

  lemma {:induction false} LevelsExactIsUnique(schema: Schema, a: seq<Values>, b: seq<Values>, snapshots: seq<Values>,
                                               above: Values)
    requires LevelsExact(schema, a, snapshots, above) && LevelsExact(schema, b, snapshots, above)
    ensures a == b
    decreases |a|
  {
    if a != [] {
      LevelsExactIsUnique(schema, a[1..], b[1..], snapshots[1..], snapshots[0]);
      assert a == [a[0]] + a[1..] && b == [b[0]] + b[1..];
    }
  }

  /** There is only one way to be exact: two implementations that are exact for the same snapshots
      record the same originals at every level. */
  lemma ExactIsUnique(schema: Schema, c: Core, d: Core, r: Ref)
    requires Exact(schema, c, r) && Exact(schema, d, r)
    ensures c == d
  {
    LevelsExactIsUnique(schema, c.levels, d.levels, r.snapshots, r.values);
  }

  /** For a recorded boolean the current value is never the original one, so a change always changes it
      back: forgetting it without comparing is the same as comparing first. */
  lemma BoolChangesBack(schema: Schema, c: Core, r: Ref, k: int, v: Value)
    requires Exact(schema, c, r) && c.levels != [] && k in c.levels[0]
    requires schema.kinds[k] == BoolKind && KindOf(v) == BoolKind && c.values[k] != v
    ensures RecordChange(c.levels[0], k, c.values[k], v) == c.levels[0] - {k}
  {
    assert KindOf(r.snapshots[0][k]) == BoolKind;
  }

  /** A recorded original always differs from the current value. */
  lemma RecordedDiffers(schema: Schema, c: Core, r: Ref, k: int)
    requires Exact(schema, c, r) && c.levels != [] && k in c.levels[0]
    ensures k in schema.tracked && k in c.values && c.levels[0][k] != c.values[k]
    ensures KindOf(c.levels[0][k]) == schema.kinds[k]
  {
  }
}
