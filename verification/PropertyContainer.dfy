/** The property container of src/devkit/data/ModelPropertyContainer.cpp: values that are not the default. */
module PropertyContainer {
  import opened Basics
  import opened SortedEntries
  import opened Transactions
  import opened Reports

  /** What the container holds: the number kept for each property, and the string slots. */
  datatype Container = Container(entries: map<int, int>, slots: seq<string>)

  const CHUNK_COUNT := 4

  /** The registered properties with their default values. */
  type Defaults = map<int, Value>

  // ----- Reading

  function GetString(slots: seq<string>, index: int): string {
    if 0 <= index < |slots| then slots[index] else ""
  }

  function Read(defaults: Defaults, c: Container, k: int): Value
    requires k in defaults
  {
    if k !in c.entries then defaults[k]
    else match defaults[k]
         case BoolValue(_) => BoolValue(c.entries[k] != 0)
         case IntValue(_) => IntValue(c.entries[k])
         case StringValue(_) => StringValue(GetString(c.slots, c.entries[k]))
  }

  // ----- Writing

  predicate IsFirstEmpty(slots: seq<string>, at: nat) {
    && at <= |slots|
    && (forall i :: 0 <= i < at ==> slots[i] != "")
    && (at < |slots| ==> slots[at] == "")
  }

  function FirstEmpty(slots: seq<string>): (at: nat)
    ensures IsFirstEmpty(slots, at)
  {
    if slots == [] || slots[0] == "" then 0 else FirstEmpty(slots[1..]) + 1
  }

  /** Puts a string in the first empty slot, or in a new chunk if there is none. */
  function Load(slots: seq<string>, s: string): (r: seq<string>)
    ensures FirstEmpty(slots) < |r| && GetString(r, FirstEmpty(slots)) == s && GetString(slots, FirstEmpty(slots)) == ""
    ensures forall i :: i != FirstEmpty(slots) ==> GetString(r, i) == GetString(slots, i)
    ensures |r| == |slots| + if "" in slots then 0 else 4
  {
    var at := FirstEmpty(slots);
    if at < |slots| then slots[at := s] else slots + [s, "", "", ""]
  }

  function WriteNumber(c: Container, k: int, standard: int, n: int): Container {
    if (k in c.entries && n == c.entries[k]) || (k !in c.entries && n == standard) then c
    else c.(entries := if n == standard then c.entries - {k} else c.entries[k := n])
  }

  function WriteString(c: Container, k: int, standard: string, s: string): Container {
    if k !in c.entries then
      if s == standard then c
      else if s == "" then c.(entries := c.entries[k := -1])
      else Container(c.entries[k := FirstEmpty(c.slots)], Load(c.slots, s))
    else if c.entries[k] < 0 then
      if s == "" then c else Container(c.entries[k := FirstEmpty(c.slots)], Load(c.slots, s))
    else
      var i := c.entries[k];
      if i >= |c.slots| || c.slots[i] == s then c
      else if s == standard then Container(c.entries - {k}, c.slots[i := ""])
      else c.(slots := c.slots[i := s])
  }

  function Write(defaults: Defaults, c: Container, k: int, v: Value): Container
    requires k in defaults && KindOf(v) == KindOf(defaults[k])
  {
    match v
    case BoolValue(b) => WriteNumber(c, k, if defaults[k].b then 1 else 0, if b then 1 else 0)
    case IntValue(n) => WriteNumber(c, k, defaults[k].n, n)
    case StringValue(s) => WriteString(c, k, defaults[k].s, s)
  }

  // ----- What every run keeps

  predicate IsString(defaults: Defaults, k: int) {
    k in defaults && defaults[k].StringValue?
  }

  ghost predicate Owns(defaults: Defaults, c: Container, k: int, i: int) {
    IsString(defaults, k) && k in c.entries && c.entries[k] == i
  }

  ghost predicate EntryOk(standard: Value, n: int, size: nat) {
    match standard
    case BoolValue(b) => n == if b then 0 else 1
    case IntValue(d) => n != d
    case StringValue(d) => -1 <= n < size && (n == -1 ==> d != "")
  }

  /** Numbers are only kept when they are not the default, string entries point at slots, and a slot that
      nobody owns is empty. */
  ghost predicate Sound(defaults: Defaults, c: Container) {
    && |c.slots| % CHUNK_COUNT == 0
    && (forall k :: k in c.entries ==> k in defaults && EntryOk(defaults[k], c.entries[k], |c.slots|))
    && (forall i :: 0 <= i < |c.slots| && c.slots[i] != "" ==> exists k :: Owns(defaults, c, k, i))
  }

  /** Every owned slot is in use, and by one property alone. */
  ghost predicate Clean(defaults: Defaults, c: Container) {
    && Sound(defaults, c)
    && (forall k, i :: 0 <= i < |c.slots| && Owns(defaults, c, k, i) ==> c.slots[i] != "")
    && (forall j, k, i :: 0 <= i && Owns(defaults, c, j, i) && Owns(defaults, c, k, i) ==> j == k)
  }

  /** The slot whose string a write changes, or -1. */
  function TouchedSlot(c: Container, k: int, standard: string, s: string): int {
    if k !in c.entries then (if s == standard || s == "" then -1 else FirstEmpty(c.slots))
    else if c.entries[k] < 0 then (if s == "" then -1 else FirstEmpty(c.slots))
    else if GetString(c.slots, c.entries[k]) == s || (GetString(c.slots, c.entries[k]) == "" && s == standard) then -1
    else c.entries[k]
  }

  lemma StringsElsewhere(c: Container, k: int, standard: string, s: string)
    requires k in c.entries ==> -1 <= c.entries[k] < |c.slots|
    ensures var d, at := WriteString(c, k, standard, s), TouchedSlot(c, k, standard, s);
            && (forall i :: i != at ==> GetString(d.slots, i) == GetString(c.slots, i))
            && (at >= 0 ==> GetString(d.slots, at) != GetString(c.slots, at))
            && (at >= 0 && k !in d.entries ==> GetString(d.slots, at) == "")
            && (k in d.entries ==> -1 <= d.entries[k] < |d.slots| && (at >= 0 ==> d.entries[k] == at))
            && (k in c.entries && c.entries[k] >= 0 && k !in d.entries ==> GetString(d.slots, c.entries[k]) == "")
            && (k in c.entries && c.entries[k] >= 0 && k in d.entries ==> d.entries[k] == c.entries[k])
  {
  }

  lemma OtherEntriesStay(defaults: Defaults, c: Container, k: int, v: Value, j: int)
    requires k in defaults && KindOf(v) == KindOf(defaults[k]) && j != k
    ensures var d := Write(defaults, c, k, v);
            (j in d.entries <==> j in c.entries) && (j in c.entries ==> d.entries[j] == c.entries[j])
  {
  }

  /** A write is read back, and changes nothing exactly when it writes the current value. */
  lemma WriteReads(defaults: Defaults, c: Container, k: int, v: Value)
    requires Sound(defaults, c) && k in defaults && KindOf(v) == KindOf(defaults[k])
    ensures Read(defaults, Write(defaults, c, k, v), k) == v
    ensures Write(defaults, c, k, v) == c <==> Read(defaults, c, k) == v
  {
  }

  /** A string in a slot after a write was put there for its property, or was there before. */
  lemma SlotsStayOwned(defaults: Defaults, c: Container, k: int, v: Value, i: nat)
    requires Sound(defaults, c) && k in defaults && KindOf(v) == KindOf(defaults[k])
    requires GetString(Write(defaults, c, k, v).slots, i) != ""
    ensures exists j :: Owns(defaults, Write(defaults, c, k, v), j, i)
  {
    var d := Write(defaults, c, k, v);
    if v.StringValue? {
      StringsElsewhere(c, k, defaults[k].s, v.s);
    }
    if !Owns(defaults, d, k, i) {
      assert GetString(d.slots, i) == GetString(c.slots, i);
      var j :| Owns(defaults, c, j, i);
      if j != k {
        OtherEntriesStay(defaults, c, k, v, j);
      }
      assert Owns(defaults, d, j, i);
    }
  }

  lemma EntriesStayOk(defaults: Defaults, c: Container, k: int, v: Value, j: int)
    requires Sound(defaults, c) && k in defaults && KindOf(v) == KindOf(defaults[k])
    requires j in Write(defaults, c, k, v).entries
    ensures j in defaults && EntryOk(defaults[j], Write(defaults, c, k, v).entries[j], |Write(defaults, c, k, v).slots|)
  {
    if j != k {
      OtherEntriesStay(defaults, c, k, v, j);
    }
  }

  lemma WriteKeepsSound(defaults: Defaults, c: Container, k: int, v: Value)
    requires Sound(defaults, c) && k in defaults && KindOf(v) == KindOf(defaults[k])
    ensures Sound(defaults, Write(defaults, c, k, v))
  {
    var d := Write(defaults, c, k, v);
    forall i | 0 <= i < |d.slots| && d.slots[i] != "" ensures exists j :: Owns(defaults, d, j, i) {
      SlotsStayOwned(defaults, c, k, v, i);
    }
    forall j | j in d.entries ensures j in defaults && EntryOk(defaults[j], d.entries[j], |d.slots|) {
      EntriesStayOk(defaults, c, k, v, j);
    }
  }

  /** A write would land in a slot that some other property owns. */
  ghost predicate Collides(defaults: Defaults, c: Container, k: int, v: Value)
    requires k in defaults
  {
    v.StringValue? && defaults[k].StringValue? && TouchedSlot(c, k, defaults[k].s, v.s) >= 0
    && exists j :: j != k && Owns(defaults, c, j, TouchedSlot(c, k, defaults[k].s, v.s))
  }

  /** Exactly the writes that do not collide leave all other properties alone. */
  lemma OthersUnchanged(defaults: Defaults, c: Container, k: int, v: Value)
    requires Sound(defaults, c) && k in defaults && KindOf(v) == KindOf(defaults[k])
    ensures (forall j :: j in defaults && j != k ==>
                           Read(defaults, Write(defaults, c, k, v), j) == Read(defaults, c, j))
       <==> !Collides(defaults, c, k, v)
  {
    var d := Write(defaults, c, k, v);
    if v.StringValue? {
      StringsElsewhere(c, k, defaults[k].s, v.s);
    }
    if Collides(defaults, c, k, v) {
      var j :| j != k && Owns(defaults, c, j, TouchedSlot(c, k, defaults[k].s, v.s));
      OtherEntriesStay(defaults, c, k, v, j);
      assert Read(defaults, d, j) != Read(defaults, c, j);
    } else {
      forall j | j in defaults && j != k ensures Read(defaults, d, j) == Read(defaults, c, j) {
        OtherEntriesStay(defaults, c, k, v, j);
        if IsString(defaults, j) && j in c.entries && v.StringValue? {
          assert Owns(defaults, c, j, c.entries[j]);
        }
      }
    }
  }

  /** The empty string is written over a stored one, and is not the default: the slot stays owned but
      looks free. */
  predicate LeavesEmptySlot(defaults: Defaults, c: Container, k: int, v: Value)
    requires k in defaults
  {
    && v == StringValue("") && IsString(defaults, k) && defaults[k].s != ""
    && k in c.entries && c.entries[k] >= 0
  }

  lemma CleanNeverCollides(defaults: Defaults, c: Container, k: int, v: Value)
    requires Clean(defaults, c) && k in defaults && KindOf(v) == KindOf(defaults[k])
    ensures !Collides(defaults, c, k, v)
  {
    if Collides(defaults, c, k, v) {
      var at := TouchedSlot(c, k, defaults[k].s, v.s);
      var j :| j != k && Owns(defaults, c, j, at);
      assert c.slots[at] != "";
      assert Owns(defaults, c, k, at);
      assert false;
    }
  }

  lemma OwnedStayFull(defaults: Defaults, c: Container, k: int, v: Value, j: int, i: nat)
    requires Clean(defaults, c) && k in defaults && KindOf(v) == KindOf(defaults[k])
             && !LeavesEmptySlot(defaults, c, k, v)
    requires Owns(defaults, Write(defaults, c, k, v), j, i)
    ensures GetString(Write(defaults, c, k, v).slots, i) != ""
  {
    CleanNeverCollides(defaults, c, k, v);
    if v.StringValue? {
      StringsElsewhere(c, k, defaults[k].s, v.s);
    }
    if j != k {
      OtherEntriesStay(defaults, c, k, v, j);
      assert Owns(defaults, c, j, i);
    } else if k in c.entries && c.entries[k] >= 0 {
      assert Owns(defaults, c, k, i);
    }
  }

  /** No other property comes to own the slot of the one that is written. */
  lemma OwnersStayApart(defaults: Defaults, c: Container, k: int, v: Value, j: int, i: nat)
    requires Clean(defaults, c) && k in defaults && KindOf(v) == KindOf(defaults[k])
    requires j != k && Owns(defaults, Write(defaults, c, k, v), j, i)
    ensures !Owns(defaults, Write(defaults, c, k, v), k, i)
  {
    OtherEntriesStay(defaults, c, k, v, j);
    assert Owns(defaults, c, j, i);
    if Owns(defaults, Write(defaults, c, k, v), k, i) && !Owns(defaults, c, k, i) {
      assert false;
    }
  }

  /** A clean container stays clean unless a write leaves an empty slot behind. */
  lemma WriteKeepsClean(defaults: Defaults, c: Container, k: int, v: Value)
    requires Clean(defaults, c) && k in defaults && KindOf(v) == KindOf(defaults[k])
    ensures Clean(defaults, Write(defaults, c, k, v)) <==> !LeavesEmptySlot(defaults, c, k, v)
  {
    var d := Write(defaults, c, k, v);
    WriteKeepsSound(defaults, c, k, v);
    if LeavesEmptySlot(defaults, c, k, v) {
      assert Owns(defaults, c, k, c.entries[k]);
      assert Owns(defaults, d, k, d.entries[k]);
    } else {
      forall j, i | 0 <= i < |d.slots| && Owns(defaults, d, j, i) ensures d.slots[i] != "" {
        OwnedStayFull(defaults, c, k, v, j, i);
      }
      forall j, l, i | 0 <= i && Owns(defaults, d, j, i) && Owns(defaults, d, l, i) ensures j == l {
        if j == k && l != k {
          OwnersStayApart(defaults, c, k, v, l, i);
        } else if l == k && j != k {
          OwnersStayApart(defaults, c, k, v, j, i);
        } else if j != k {
          OtherEntriesStay(defaults, c, k, v, j);
          OtherEntriesStay(defaults, c, k, v, l);
          assert Owns(defaults, c, j, i) && Owns(defaults, c, l, i);
        }
      }
    }
  }

  // ----- Defaults that are kept

  /** Nothing is kept that reads as its default. */
  ghost predicate NoDefaults(defaults: Defaults, c: Container) {
    forall k :: k in c.entries && k in defaults ==> Read(defaults, c, k) != defaults[k]
  }

  /** A property that is kept as the empty string is set to its default: it gets a slot and stays. */
  predicate KeepsDefault(defaults: Defaults, c: Container, k: int, v: Value) {
    k in defaults && v.StringValue? && v == defaults[k] && k in c.entries && c.entries[k] == -1
  }

  /** A clean container without defaults gets one exactly by such a write. */
  lemma WriteKeepsNoDefaults(defaults: Defaults, c: Container, k: int, v: Value)
    requires Clean(defaults, c) && NoDefaults(defaults, c) && k in defaults && KindOf(v) == KindOf(defaults[k])
    ensures NoDefaults(defaults, Write(defaults, c, k, v)) <==> !KeepsDefault(defaults, c, k, v)
  {
    var d := Write(defaults, c, k, v);
    CleanNeverCollides(defaults, c, k, v);
    OthersUnchanged(defaults, c, k, v);
    WriteReads(defaults, c, k, v);
    forall j | j in d.entries && j in defaults && j != k ensures Read(defaults, d, j) != defaults[j] {
      OtherEntriesStay(defaults, c, k, v, j);
    }
  }

  /** The failing case: a property with the default "x" is emptied and then set to "x". */
  lemma EmptiedPropertyKeepsDefault()
    ensures var defaults: Defaults := map[1 := StringValue("x")];
            var a := Write(defaults, Container(map[], []), 1, StringValue(""));
            var b := Write(defaults, a, 1, StringValue("x"));
            && Clean(defaults, b) && NoDefaults(defaults, a)
            && 1 in b.entries && Read(defaults, b, 1) == defaults[1]
  {
    var defaults: Defaults := map[1 := StringValue("x")];
    var empty := Container(map[], []);
    assert Clean(defaults, empty);
    WriteKeepsClean(defaults, empty, 1, StringValue(""));
    WriteKeepsClean(defaults, Write(defaults, empty, 1, StringValue("")), 1, StringValue("x"));
  }

  // ----- Whole runs

  datatype Assignment = Assignment(k: int, v: Value)

  ghost predicate AssignmentOk(defaults: Defaults, a: Assignment) {
    a.k in defaults && KindOf(a.v) == KindOf(defaults[a.k])
  }

  ghost predicate AssignmentsOk(defaults: Defaults, run: seq<Assignment>) {
    forall i :: 0 <= i < |run| ==> AssignmentOk(defaults, run[i])
  }

  ghost function WriteAll(defaults: Defaults, c: Container, run: seq<Assignment>): Container
    requires AssignmentsOk(defaults, run)
  {
    if run == [] then c
    else
      var a := run[|run| - 1];
      Write(defaults, WriteAll(defaults, c, run[..|run| - 1]), a.k, a.v)
  }

  /** No write of the run leaves an empty slot behind. */
  ghost predicate LeavesNone(defaults: Defaults, c: Container, run: seq<Assignment>)
    requires AssignmentsOk(defaults, run)
  {
    forall n :: 0 <= n < |run| ==> !LeavesEmptySlot(defaults, WriteAll(defaults, c, run[..n]), run[n].k, run[n].v)
  }

  /** What a map from properties to values would hold: the last value assigned. */
  ghost function LastAssigned(run: seq<Assignment>, k: int, initial: Value): Value {
    if run == [] then initial
    else if run[|run| - 1].k == k then run[|run| - 1].v
    else LastAssigned(run[..|run| - 1], k, initial)
  }

  /** A run that leaves no empty slot behind makes the container a map from properties to values. */
  lemma {:induction false} RunsAreMaps(defaults: Defaults, c: Container, run: seq<Assignment>, k: int)
    requires Clean(defaults, c) && AssignmentsOk(defaults, run) && LeavesNone(defaults, c, run) && k in defaults
    ensures Clean(defaults, WriteAll(defaults, c, run))
    ensures Read(defaults, WriteAll(defaults, c, run), k) == LastAssigned(run, k, Read(defaults, c, k))
  {
    if run != [] {
      var n := |run| - 1;
      assert forall i :: 0 <= i < n ==> run[..n][..i] == run[..i];
      RunsAreMaps(defaults, c, run[..n], k);
      var d, a := WriteAll(defaults, c, run[..n]), run[n];
      WriteKeepsClean(defaults, d, a.k, a.v);
      WriteReads(defaults, d, a.k, a.v);
      CleanNeverCollides(defaults, d, a.k, a.v);
      OthersUnchanged(defaults, d, a.k, a.v);
    }
  }

  /** After the first `n` writes every property reads the last value written to it, or what it read at first. */
  ghost predicate ReadsAsMap(defaults: Defaults, c: Container, run: seq<Assignment>, n: nat)
    requires AssignmentsOk(defaults, run) && n <= |run|
  {
    forall k :: k in defaults ==>
                  Read(defaults, WriteAll(defaults, c, run[..n]), k) == LastAssigned(run[..n], k, Read(defaults, c, k))
  }

  /** A write of the run collides. */
  ghost predicate CollidesAt(defaults: Defaults, c: Container, run: seq<Assignment>, n: nat)
    requires AssignmentsOk(defaults, run) && n < |run|
  {
    Collides(defaults, WriteAll(defaults, c, run[..n]), run[n].k, run[n].v)
  }

  /** The first `n` writes of a run leave a map after each of them, or none of them collides. */
  ghost predicate MapsUpTo(defaults: Defaults, c: Container, run: seq<Assignment>, n: nat)
    requires AssignmentsOk(defaults, run) && n <= |run|
  {
    if n == 0 then true else MapsUpTo(defaults, c, run, n - 1) && ReadsAsMap(defaults, c, run, n)
  }

  ghost predicate CollidesUpTo(defaults: Defaults, c: Container, run: seq<Assignment>, n: nat)
    requires AssignmentsOk(defaults, run) && n <= |run|
  {
    if n == 0 then false else CollidesUpTo(defaults, c, run, n - 1) || CollidesAt(defaults, c, run, n - 1)
  }

  /** Any run at all keeps the container sound. */
  lemma {:induction false} RunsStaySound(defaults: Defaults, c: Container, run: seq<Assignment>)
    requires Sound(defaults, c) && AssignmentsOk(defaults, run)
    ensures Sound(defaults, WriteAll(defaults, c, run))
  {
    if run != [] {
      var n := |run| - 1;
      RunsStaySound(defaults, c, run[..n]);
      WriteKeepsSound(defaults, WriteAll(defaults, c, run[..n]), run[n].k, run[n].v);
    }
  }

  lemma NextReadsAsMap(defaults: Defaults, c: Container, run: seq<Assignment>, n: nat)
    requires Sound(defaults, c) && AssignmentsOk(defaults, run) && n < |run| && ReadsAsMap(defaults, c, run, n)
    ensures ReadsAsMap(defaults, c, run, n + 1) <==> !CollidesAt(defaults, c, run, n)
  {
    var d, a := WriteAll(defaults, c, run[..n]), run[n];
    RunsStaySound(defaults, c, run[..n]);
    assert run[..n + 1][..n] == run[..n];
    WriteReads(defaults, d, a.k, a.v);
    OthersUnchanged(defaults, d, a.k, a.v);
  }

  lemma {:induction false} MapsOrCollides(defaults: Defaults, c: Container, run: seq<Assignment>, n: nat)
    requires Sound(defaults, c) && AssignmentsOk(defaults, run) && n <= |run|
    ensures MapsUpTo(defaults, c, run, n) <==> !CollidesUpTo(defaults, c, run, n)
  {
    if n > 0 {
      MapsOrCollides(defaults, c, run, n - 1);
      if MapsUpTo(defaults, c, run, n - 1) {
        assert ReadsAsMap(defaults, c, run, n - 1);
        NextReadsAsMap(defaults, c, run, n - 1);
      }
    }
  }

  lemma {:induction false} MapsEverywhere(defaults: Defaults, c: Container, run: seq<Assignment>, n: nat)
    requires AssignmentsOk(defaults, run) && n <= |run|
    ensures MapsUpTo(defaults, c, run, n) <==> forall i :: 0 <= i <= n ==> ReadsAsMap(defaults, c, run, i)
  {
    if n > 0 {
      MapsEverywhere(defaults, c, run, n - 1);
    }
  }

  lemma {:induction false} CollidesSomewhere(defaults: Defaults, c: Container, run: seq<Assignment>, n: nat)
    requires AssignmentsOk(defaults, run) && n <= |run|
    ensures CollidesUpTo(defaults, c, run, n) <==> exists i :: 0 <= i < n && CollidesAt(defaults, c, run, i)
  {
    if n > 0 {
      CollidesSomewhere(defaults, c, run, n - 1);
    }
  }

  /** From any sound container, a run reads as a map after each of its writes exactly when none of them
      collides. */
  lemma RunsAreMapsExactly(defaults: Defaults, c: Container, run: seq<Assignment>)
    requires Sound(defaults, c) && AssignmentsOk(defaults, run)
    ensures (forall n :: 0 <= n <= |run| ==> ReadsAsMap(defaults, c, run, n))
       <==> (forall n :: 0 <= n < |run| ==> !CollidesAt(defaults, c, run, n))
  {
    MapsOrCollides(defaults, c, run, |run|);
    MapsEverywhere(defaults, c, run, |run|);
    CollidesSomewhere(defaults, c, run, |run|);
  }

  /** The failing case: property 1 is emptied while its default is not empty, property 2 is given the
      slot, and property 1 reads what was written to property 2. */
  lemma EmptiedPropertyIsOverwritten()
    ensures var defaults: Defaults := map[1 := StringValue("x"), 2 := StringValue("")];
            var a := Write(defaults, Container(map[], []), 1, StringValue("y"));
            var b := Write(defaults, a, 1, StringValue(""));
            var c := Write(defaults, b, 2, StringValue("z"));
            && Clean(defaults, a) && !Clean(defaults, b)
            && Read(defaults, b, 1) == StringValue("")
            && Read(defaults, c, 1) == StringValue("z")
  {
    var defaults: Defaults := map[1 := StringValue("x"), 2 := StringValue("")];
    var empty := Container(map[], []);
    var a := Write(defaults, empty, 1, StringValue("y"));
    assert Clean(defaults, empty);
    WriteKeepsClean(defaults, empty, 1, StringValue("y"));
    WriteKeepsClean(defaults, a, 1, StringValue(""));
    assert a.slots == ["y", "", "", ""];
    var b := Write(defaults, a, 1, StringValue(""));
    assert b.slots == ["", "", "", ""] && FirstEmpty(b.slots) == 0;
  }

  // ----- The pool

  ghost function OwnersBelow(defaults: Defaults, c: Container, n: nat): set<int> {
    set k | k in c.entries && IsString(defaults, k) && 0 <= c.entries[k] < n
  }

  /** While the container is clean, the slots with a string and the properties that own one match one to one. */
  lemma SlotsMatchOwners(defaults: Defaults, c: Container, i: nat)
    requires Clean(defaults, c)
    ensures GetString(c.slots, i) != "" <==> exists k :: Owns(defaults, c, k, i)
    ensures forall j, k :: Owns(defaults, c, j, i) && Owns(defaults, c, k, i) ==> j == k
  {
    if k :| Owns(defaults, c, k, i) {
      assert i < |c.slots|;
    }
  }

  /** While the container is clean, a chunk is only added when there are as many stored strings as slots. */
  lemma {:induction false} FullPool(defaults: Defaults, c: Container, n: nat)
    requires Clean(defaults, c) && n <= |c.slots| && forall i :: 0 <= i < n ==> c.slots[i] != ""
    ensures |OwnersBelow(defaults, c, n)| == n
  {
    if n == 0 {
      assert OwnersBelow(defaults, c, 0) == {};
    } else {
      FullPool(defaults, c, n - 1);
      assert c.slots[n - 1] != "";
      var k :| Owns(defaults, c, k, n - 1);
      forall j ensures j in OwnersBelow(defaults, c, n) <==> j in OwnersBelow(defaults, c, n - 1) + {k} {
        if j in c.entries && IsString(defaults, j) && c.entries[j] == n - 1 {
          assert Owns(defaults, c, j, n - 1);
        }
      }
      assert OwnersBelow(defaults, c, n) == OwnersBelow(defaults, c, n - 1) + {k};
    }
  }

  lemma ChunkOnlyWhenFull(defaults: Defaults, c: Container, k: int, v: Value)
    requires Clean(defaults, c) && k in defaults && KindOf(v) == KindOf(defaults[k])
    requires |Write(defaults, c, k, v).slots| > |c.slots|
    ensures |OwnersBelow(defaults, c, |c.slots|)| == |c.slots|
    ensures |Write(defaults, c, k, v).slots| == |c.slots| + 4
  {
    assert "" !in c.slots;
    FullPool(defaults, c, |c.slots|);
  }

  // ----- The class

  datatype PropertyValue = PropertyValue(nKey: int, nValue: int)

  function KeyOfValue(e: PropertyValue): int {
    e.nKey
  }

  function ToValue(k: int, n: int): PropertyValue {
    PropertyValue(k, n)
  }

  ghost predicate ChunksOk(chunks: seq<seq<string>>) {
    forall i :: 0 <= i < |chunks| ==> |chunks[i]| == CHUNK_COUNT
  }

  /** The slots of all chunks in a row. */
  ghost function Flat(chunks: seq<seq<string>>): (r: seq<string>)
    requires ChunksOk(chunks)
    ensures |r| == CHUNK_COUNT * |chunks|
  {
    seq(CHUNK_COUNT * |chunks|, i requires 0 <= i < CHUNK_COUNT * |chunks| => chunks[i / CHUNK_COUNT][i % CHUNK_COUNT])
  }

  lemma FlatAt(chunks: seq<seq<string>>, at: nat, i: nat)
    requires ChunksOk(chunks) && at < |chunks| && i < CHUNK_COUNT
    ensures Flat(chunks)[CHUNK_COUNT * at + i] == chunks[at][i]
  {
  }

  lemma FlatUpdate(chunks: seq<seq<string>>, at: nat, i: nat, s: string)
    requires ChunksOk(chunks) && at < |chunks| && i < CHUNK_COUNT
    ensures Flat(chunks[at := chunks[at][i := s]]) == Flat(chunks)[CHUNK_COUNT * at + i := s]
  {
  }

  lemma FlatAppend(chunks: seq<seq<string>>, s: string)
    requires ChunksOk(chunks)
    ensures Flat(chunks + [[s, "", "", ""]]) == Flat(chunks) + [s, "", "", ""]
  {
  }

  lemma FirstEmptyIs(slots: seq<string>, at: nat)
    requires IsFirstEmpty(slots, at)
    ensures at == FirstEmpty(slots)
  {
  }

  /** The one event of a write that changes the value, with the true old and new values. */
  function Report(defaults: Defaults, c: Container, k: int, v: Value): seq<Change>
    requires k in defaults
  {
    if Read(defaults, c, k) == v then [] else [Change(k, Read(defaults, c, k), v)]
  }

  /** A property is told of once if it reads differently afterwards, with its value before and after. */
  ghost predicate TellsOf(told: seq<Change>, k: int, before: Value, after: Value) {
    told == if before == after then [] else [Change(k, before, after)]
  }

  /** Every property that reads differently is told of once, with its value before and after, and no other is. */
  ghost predicate TellsAll(defaults: Defaults, c: Container, d: Container, told: seq<Change>) {
    && DistinctKeys(told)
    && (forall i :: 0 <= i < |told| ==>
                      var t := told[i];
                      && t.key in defaults && t.oldValue != t.newValue
                      && t.oldValue == Read(defaults, c, t.key) && t.newValue == Read(defaults, d, t.key))
    && (forall j :: j in defaults && Read(defaults, c, j) != Read(defaults, d, j) ==> Touched(told, j))
  }

  /** A write tells of its own property what there is to tell, and of all properties exactly when it does not
      collide. */
  lemma WriteIsTold(defaults: Defaults, c: Container, k: int, v: Value)
    requires Sound(defaults, c) && k in defaults && KindOf(v) == KindOf(defaults[k])
    ensures var d, told := Write(defaults, c, k, v), Report(defaults, c, k, v);
            && TellsOf(told, k, Read(defaults, c, k), Read(defaults, d, k))
            && (TellsAll(defaults, c, d, told) <==> !Collides(defaults, c, k, v))
  {
    var d, told := Write(defaults, c, k, v), Report(defaults, c, k, v);
    WriteReads(defaults, c, k, v);
    OthersUnchanged(defaults, c, k, v);
    if !Collides(defaults, c, k, v) {
      forall j | j in defaults && Read(defaults, c, j) != Read(defaults, d, j) ensures Touched(told, j) {
        assert j == k && told[0].key == k;
      }
    } else {
      var j :| j in defaults && j != k && Read(defaults, d, j) != Read(defaults, c, j);
      assert !Touched(told, j);
    }
  }

  class ModelPropertyContainer {
    const defaults: Defaults
    var values: seq<PropertyValue>
    var strings: seq<seq<string>>
    /** The changes reported to OnValueChanged so far. */
    var notified: seq<Change>
    ghost var entries: map<int, int>

    ghost function Contents(): Container
      reads this
      requires ChunksOk(strings)
    {
      Container(entries, Flat(strings))
    }

    ghost predicate Valid()
      reads this
    {
      Represents(values, KeyOfValue, ToValue, entries) && ChunksOk(strings) && Sound(defaults, Contents())
    }

    constructor (defaults: Defaults)
      ensures Valid() && this.defaults == defaults && Contents() == Container(map[], []) && notified == []
      ensures Clean(defaults, Contents())
      ensures forall k :: k in defaults ==> Read(defaults, Contents(), k) == defaults[k]
    {
      this.defaults := defaults;
      values, strings, notified, entries := [], [], [], map[];
    }

    /** The number kept for a property, if there is one. */
    method FindValue(k: int) returns (r: Option<int>)
      requires Valid()
      ensures r == if k in entries then Some(entries[k]) else None
    {
      var at, found := Find(values, KeyOfValue, ToValue, k, entries);
      r := if found then Some(values[at].nValue) else None;
    }

    /** Walks to the slot with the given index. */
    method SlotOf(index: nat) returns (chunk: nat, slot: nat)
      requires ChunksOk(strings)
      ensures chunk <= |strings| && (chunk < |strings| <==> index < CHUNK_COUNT * |strings|)
      ensures chunk < |strings| ==> slot < CHUNK_COUNT && index == CHUNK_COUNT * chunk + slot
    {
      chunk, slot := 0, index;
      while slot >= CHUNK_COUNT && chunk < |strings|
        invariant chunk <= |strings| && index == CHUNK_COUNT * chunk + slot
      {
        chunk := chunk + 1;
        slot := slot - CHUNK_COUNT;
      }
    }

    method GetStringAt(index: int) returns (s: string)
      requires Valid()
      ensures s == GetString(Contents().slots, index)
    {
      if index < 0 {
        return "";
      }
      var chunk, slot := SlotOf(index);
      if chunk == |strings| {
        return "";
      }
      FlatAt(strings, chunk, slot);
      s := strings[chunk][slot];
    }

    method GetValue(k: int) returns (v: Value)
      requires Valid() && k in defaults
      ensures v == Read(defaults, Contents(), k)
    {
      var n := FindValue(k);
      if n == None {
        return defaults[k];
      }
      match defaults[k] {
        case BoolValue(_) => v := BoolValue(n.value != 0);
        case IntValue(_) => v := IntValue(n.value);
        case StringValue(_) =>
          var s := GetStringAt(n.value);
          v := StringValue(s);
      }
    }

    /** Puts a string in the first slot that looks empty, in a new chunk if none does. */
    method LoadIntoEmptyStringSlot(s: string) returns (index: nat)
      requires ChunksOk(strings)
      modifies this`strings
      ensures ChunksOk(strings) && index == FirstEmpty(Flat(old(strings)))
      ensures Flat(strings) == Load(Flat(old(strings)), s)
      ensures |strings| > |old(strings)| <==> "" !in Flat(old(strings))
    {
      index := 0;
      ghost var slots := Flat(strings);
      for chunk := 0 to |strings|
        invariant index == CHUNK_COUNT * chunk && strings == old(strings)
        invariant forall j :: 0 <= j < index ==> slots[j] != ""
      {
        for i := 0 to CHUNK_COUNT
          invariant index == CHUNK_COUNT * chunk + i && strings == old(strings)
          invariant forall j :: 0 <= j < index ==> slots[j] != ""
        {
          FlatAt(strings, chunk, i);
          if strings[chunk][i] == "" {
            FirstEmptyIs(slots, index);
            FlatUpdate(strings, chunk, i, s);
            strings := strings[chunk := strings[chunk][i := s]];
            return;
          }
          index := index + 1;
        }
      }
      FirstEmptyIs(slots, index);
      FlatAppend(strings, s);
      strings := strings + [[s, "", "", ""]];
    }

    // ----- Editing the vector

    method Emplace(at: nat, k: int, n: int)
      requires Represents(values, KeyOfValue, ToValue, entries) && k !in entries && at <= |values|
      requires forall i :: 0 <= i < at ==> KeyOfValue(values[i]) < k
      requires forall i :: at <= i < |values| ==> k <= KeyOfValue(values[i])
      modifies this`values, this`entries
      ensures Represents(values, KeyOfValue, ToValue, entries) && entries == old(entries)[k := n]
    {
      InsertRepresents(values, KeyOfValue, ToValue, entries, at, PropertyValue(k, n), n);
      values := values[..at] + [PropertyValue(k, n)] + values[at..];
      entries := entries[k := n];
    }

    method Renumber(at: nat, n: int)
      requires Represents(values, KeyOfValue, ToValue, entries) && at < |values|
      modifies this`values, this`entries
      ensures Represents(values, KeyOfValue, ToValue, entries) && entries == old(entries)[old(values)[at].nKey := n]
    {
      ReplaceRepresents(values, KeyOfValue, ToValue, entries, at, PropertyValue(values[at].nKey, n), n);
      entries := entries[values[at].nKey := n];
      values := values[at := PropertyValue(values[at].nKey, n)];
    }

    method Erase(at: nat)
      requires Represents(values, KeyOfValue, ToValue, entries) && at < |values|
      modifies this`values, this`entries
      ensures Represents(values, KeyOfValue, ToValue, entries) && entries == old(entries) - {old(values)[at].nKey}
    {
      EraseRepresents(values, KeyOfValue, ToValue, entries, at);
      entries := entries - {values[at].nKey};
      values := values[..at] + values[at + 1..];
    }

    // ----- Setting a property

    /** What the listeners have been told since. */
    ghost predicate Told(before: seq<Change>, k: int, oldValue: Value, newValue: Value)
      reads this`notified
    {
      before <= notified && TellsOf(notified[|before|..], k, oldValue, newValue)
    }

    /** Writes a number; reports the number that was there when it changed. */
    method SetNumber(k: int, standard: int, n: int) returns (changed: bool, before: int)
      requires Represents(values, KeyOfValue, ToValue, entries) && ChunksOk(strings)
      modifies this`values, this`entries
      ensures Represents(values, KeyOfValue, ToValue, entries)
      ensures Contents() == WriteNumber(old(Contents()), k, standard, n)
      ensures before == if k in old(entries) then old(entries)[k] else standard
      ensures changed <==> before != n
    {
      var at, found := Find(values, KeyOfValue, ToValue, k, entries);
      before := if found then values[at].nValue else standard;
      changed := before != n;
      if changed {
        if !found {
          Emplace(at, k, n);
        } else if n == standard {
          Erase(at);
        } else {
          Renumber(at, n);
        }
      }
    }

    method SetBool(k: int, b: bool)
      requires Valid() && k in defaults && defaults[k].BoolValue?
      modifies this`values, this`entries, this`notified
      ensures Valid() && Contents() == Write(defaults, old(Contents()), k, BoolValue(b))
      ensures notified == old(notified) + Report(defaults, old(Contents()), k, BoolValue(b))
      ensures Told(old(notified), k, Read(defaults, old(Contents()), k), Read(defaults, Contents(), k))
    {
      WriteIsTold(defaults, Contents(), k, BoolValue(b));
      WriteKeepsSound(defaults, Contents(), k, BoolValue(b));
      var changed, before := SetNumber(k, if defaults[k].b then 1 else 0, if b then 1 else 0);
      if changed {
        notified := notified + [Change(k, BoolValue(!b), BoolValue(b))];
      }
    }

    method SetInt(k: int, n: int)
      requires Valid() && k in defaults && defaults[k].IntValue?
      modifies this`values, this`entries, this`notified
      ensures Valid() && Contents() == Write(defaults, old(Contents()), k, IntValue(n))
      ensures notified == old(notified) + Report(defaults, old(Contents()), k, IntValue(n))
      ensures Told(old(notified), k, Read(defaults, old(Contents()), k), Read(defaults, Contents(), k))
    {
      WriteIsTold(defaults, Contents(), k, IntValue(n));
      WriteKeepsSound(defaults, Contents(), k, IntValue(n));
      var changed, before := SetNumber(k, defaults[k].n, n);
      if changed {
        notified := notified + [Change(k, IntValue(before), IntValue(n))];
      }
    }

    /** Keeps a string of a property that had its default. */
    method StoreNew(at: nat, k: int, s: string)
      requires Represents(values, KeyOfValue, ToValue, entries) && ChunksOk(strings) && k !in entries && at <= |values|
      requires forall i :: 0 <= i < at ==> KeyOfValue(values[i]) < k
      requires forall i :: at <= i < |values| ==> k <= KeyOfValue(values[i])
      modifies this`values, this`entries, this`strings
      ensures Represents(values, KeyOfValue, ToValue, entries) && ChunksOk(strings)
      ensures Contents() == if s == "" then old(Contents()).(entries := old(entries)[k := -1])
                            else Container(old(entries)[k := FirstEmpty(old(Flat(strings)))],
                                           Load(old(Flat(strings)), s))
    {
      var n: int := -1;
      if s != "" {
        n := LoadIntoEmptyStringSlot(s);
      }
      Emplace(at, k, n);
    }

    /** Takes the string out of a slot and leaves another one there, unless the slot holds `s`. */
    method Overwrite(index: int, left: string, s: string) returns (changed: bool, before: string)
      requires ChunksOk(strings) && 0 <= index < CHUNK_COUNT * |strings|
      modifies this`strings
      ensures ChunksOk(strings) && before == Flat(old(strings))[index] && (changed <==> before != s)
      ensures Flat(strings) == if changed then Flat(old(strings))[index := left] else Flat(old(strings))
    {
      var chunk, slot := SlotOf(index);
      FlatAt(strings, chunk, slot);
      before := strings[chunk][slot];
      changed := before != s;
      if changed {
        FlatUpdate(strings, chunk, slot, left);
        strings := strings[chunk := strings[chunk][slot := left]];
      }
    }

    /** Writes a string over one in a slot, or empties the slot if the property goes back to its default. */
    method StoreAgain(at: nat, standard: string, s: string) returns (changed: bool, before: string)
      requires Represents(values, KeyOfValue, ToValue, entries) && ChunksOk(strings)
      requires at < |values| && 0 <= values[at].nValue < |Flat(strings)|
      modifies this`values, this`entries, this`strings
      ensures Represents(values, KeyOfValue, ToValue, entries) && ChunksOk(strings)
      ensures before == old(Flat(strings)[values[at].nValue]) && (changed <==> before != s)
      ensures Contents() == old(WriteString(Contents(), values[at].nKey, standard, s))
    {
      assert KeyOfValue(values[at]) in entries;
      changed, before := Overwrite(values[at].nValue, if s == standard then "" else s, s);
      if changed && s == standard {
        Erase(at);
      }
    }

    /** Writes a string; tells whether and from what it changed. */
    method StoreString(k: int, standard: string, s: string) returns (changed: bool, before: string)
      requires Represents(values, KeyOfValue, ToValue, entries) && ChunksOk(strings)
      requires k in entries ==> -1 <= entries[k] < |Flat(strings)|
      modifies this`values, this`entries, this`strings
      ensures Represents(values, KeyOfValue, ToValue, entries) && ChunksOk(strings)
      ensures Contents() == WriteString(old(Contents()), k, standard, s)
      ensures before == if k in old(entries) then GetString(old(Flat(strings)), old(entries)[k]) else standard
      ensures changed <==> before != s
    {
      var at, found := Find(values, KeyOfValue, ToValue, k, entries);
      if !found {
        changed, before := s != standard, standard;
        if changed {
          StoreNew(at, k, s);
        }
      } else if values[at].nValue == -1 {
        changed, before := s != "", "";
        if changed {
          var n := LoadIntoEmptyStringSlot(s);
          Renumber(at, n);
        }
      } else {
        changed, before := StoreAgain(at, standard, s);
      }
    }

    method SetString(k: int, s: string)
      requires Valid() && k in defaults && defaults[k].StringValue?
      modifies this
      ensures Valid() && Contents() == Write(defaults, old(Contents()), k, StringValue(s))
      ensures notified == old(notified) + Report(defaults, old(Contents()), k, StringValue(s))
      ensures Told(old(notified), k, Read(defaults, old(Contents()), k), Read(defaults, Contents(), k))
    {
      WriteIsTold(defaults, Contents(), k, StringValue(s));
      WriteKeepsSound(defaults, Contents(), k, StringValue(s));
      var changed, before := StoreString(k, defaults[k].s, s);
      if changed {
        notified := notified + [Change(k, StringValue(before), StringValue(s))];
      }
    }
  }
}
