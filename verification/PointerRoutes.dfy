/** Values and specifications of the pointer search: captures, offsets, routes and the
    combinations of aligned runs that the search walks through. */
module PointerRoutes {
  import opened Basics
  import opened StandardAlgorithms

  const MAX_DEPTH: nat := 16
  const MAX_OFFSET: int := 8192
  const ADDRESS_LIMIT: int := 0x1_0000_0000

  /** An unsigned 32-bit address. */
  type ByteAddress = a: int | 0 <= a < ADDRESS_LIMIT

  datatype PointerValue = PointerValue(address: ByteAddress, value: int, valueAsAddress: ByteAddress)

  /** The fixed-size offset array of a potential pointer; only a prefix of it is in use. */
  type Offsets = s: seq<int> | |s| == MAX_DEPTH witness seq(MAX_DEPTH, _ => 0)

  datatype PotentialPointer = PotentialPointer(rootAddress: ByteAddress, score: nat, offsetLength: nat,
                                               offsets: Offsets)

  function FirstOffset(p: PotentialPointer): int {
    p.offsets[0]
  }

  // ----- 32-bit arithmetic

  function ToSigned(a: ByteAddress): int {
    if a < 0x8000_0000 then a else a - ADDRESS_LIMIT
  }

  /** Two's complement subtraction of 32-bit integers. */
  function Int32Subtract(a: int, b: int): int {
    var d := a - b;
    if d >= 0x8000_0000 then d - ADDRESS_LIMIT else if d < -0x8000_0000 then d + ADDRESS_LIMIT else d
  }

  /** Adding a signed offset to an unsigned address. */
  function Displace(a: ByteAddress, offset: int): ByteAddress {
    (a + offset) % ADDRESS_LIMIT
  }

  function LinkOffset(target: ByteAddress, pointee: ByteAddress): int {
    Int32Subtract(ToSigned(target), ToSigned(pointee))
  }

  predicate InRange(offset: int) {
    -MAX_OFFSET < offset < MAX_OFFSET
  }

  lemma LinkOffsetReaches(target: ByteAddress, pointee: ByteAddress)
    ensures Displace(pointee, LinkOffset(target, pointee)) == target
  {
  }

  // ----- Scores

  /** Negative offsets are treated as being farther away. */
  function CalculateScore(offset: int): (score: nat)
    ensures InRange(offset) ==> score <= 8 * (MAX_OFFSET - 1)
  {
    if offset < 0 then -offset * 8 else offset
  }

  function SumScores(offsets: seq<int>): nat {
    if offsets == [] then 0 else CalculateScore(offsets[0]) + SumScores(offsets[1..])
  }

  lemma {:induction false} SumScoresBound(offsets: seq<int>)
    requires forall k :: 0 <= k < |offsets| ==> InRange(offsets[k])
    ensures SumScores(offsets) <= |offsets| * (8 * (MAX_OFFSET - 1))
  {
    if offsets != [] {
      SumScoresBound(offsets[1..]);
    }
  }

  /** The sum of the offsets that lead forward, and of the distances of those that lead back. */
  function Forward(offsets: seq<int>): nat {
    if offsets == [] then 0 else (if offsets[0] < 0 then 0 else offsets[0]) + Forward(offsets[1..])
  }

  function Back(offsets: seq<int>): nat {
    if offsets == [] then 0 else (if offsets[0] < 0 then -offsets[0] else 0) + Back(offsets[1..])
  }

  /** A step back counts eight times. */
  lemma {:induction false} ScoreCounts(offsets: seq<int>)
    ensures SumScores(offsets) == Forward(offsets) + 8 * Back(offsets)
  {
    if offsets != [] {
      ScoreCounts(offsets[1..]);
    }
  }

  /** The offsets that a link may have. */
  lemma RangeOfLinks(offset: int)
    ensures InRange(offset) <==> -8192 < offset < 8192
  {
  }

  // ----- Routes

  /** Reading the captured pointer at `root`, adding the first offset, and so on through
      all offsets, some reading of the capture ends at `target`. */
  ghost predicate Reaches(values: seq<PointerValue>, root: ByteAddress, offsets: seq<int>, target: ByteAddress)
    decreases |offsets|
  {
    if offsets == [] then root == target
    else exists k :: 0 <= k < |values| && values[k].address == root &&
                     Reaches(values, Displace(values[k].valueAsAddress, offsets[0]), offsets[1..], target)
  }

  function AddressOf(v: PointerValue): int {
    v.address
  }

  ghost predicate Captured(values: seq<PointerValue>, a: ByteAddress) {
    exists k :: 0 <= k < |values| && values[k].address == a
  }

  /** The captured pointer read at `a`; a capture sorted by address holds at most one. */
  ghost function ReadPointer(values: seq<PointerValue>, a: ByteAddress): ByteAddress
    requires Captured(values, a)
  {
    var k :| 0 <= k < |values| && values[k].address == a;
    values[k].valueAsAddress
  }

  /** Follows a route deterministically; None where no pointer was captured. */
  ghost function Follow(values: seq<PointerValue>, root: ByteAddress, offsets: seq<int>): Option<ByteAddress>
    decreases |offsets|
  {
    if offsets == [] then Some(root)
    else if !Captured(values, root) then None
    else Follow(values, Displace(ReadPointer(values, root), offsets[0]), offsets[1..])
  }

  /** On a capture sorted by address, following a route is a computation with one result. */
  lemma {:induction false} ReachesIsFollow(values: seq<PointerValue>, root: ByteAddress, offsets: seq<int>,
                                           target: ByteAddress)
    requires StrictlyAscending(values, AddressOf)
    ensures Reaches(values, root, offsets, target) <==> Follow(values, root, offsets) == Some(target)
    decreases |offsets|
  {
    if offsets != [] && Captured(values, root) {
      var k :| 0 <= k < |values| && values[k].address == root && values[k].valueAsAddress == ReadPointer(values, root);
      forall j | 0 <= j < |values| && values[j].address == root ensures j == k {
        assert AddressOf(values[j]) == AddressOf(values[k]);
      }
      ReachesIsFollow(values, Displace(values[k].valueAsAddress, offsets[0]), offsets[1..], target);
    }
  }

  /** What a result promises: for every capture its route leads from the root to the target,
      and its length and score describe exactly that route. */
  ghost predicate RouteOk(p: PotentialPointer, captures: seq<seq<PointerValue>>, finals: seq<ByteAddress>)
    requires |captures| == |finals|
  {
    && 1 <= p.offsetLength <= MAX_DEPTH
    && (forall k :: 0 <= k < p.offsetLength ==> InRange(p.offsets[k]))
    && p.score == SumScores(p.offsets[..p.offsetLength])
    && forall i :: 0 <= i < |captures| ==> Reaches(captures[i], p.rootAddress, p.offsets[..p.offsetLength], finals[i])
  }

  ghost predicate UniqueRoots(results: seq<PotentialPointer>) {
    forall i, j :: 0 <= i < j < |results| ==> results[i].rootAddress != results[j].rootAddress
  }

  ghost predicate ResultsOk(results: seq<PotentialPointer>, captures: seq<seq<PointerValue>>, finals: seq<ByteAddress>)
    requires |captures| == |finals|
  {
    UniqueRoots(results) && forall k :: 0 <= k < |results| ==> RouteOk(results[k], captures, finals)
  }

  /** No result is lost and no score gets worse. */
  ghost predicate Improves(before: seq<PotentialPointer>, after: seq<PotentialPointer>) {
    && |before| <= |after|
    && forall k :: 0 <= k < |before| ==>
                     before[k].rootAddress == after[k].rootAddress && after[k].score <= before[k].score
  }

  ghost predicate Recorded(results: seq<PotentialPointer>, root: ByteAddress, score: nat) {
    exists k :: 0 <= k < |results| && results[k].rootAddress == root && results[k].score <= score
  }

  lemma RecordedSurvives(before: seq<PotentialPointer>, after: seq<PotentialPointer>, root: ByteAddress, score: nat)
    requires Recorded(before, root, score) && Improves(before, after)
    ensures Recorded(after, root, score)
  {
    var k :| 0 <= k < |before| && before[k].rootAddress == root && before[k].score <= score;
    assert after[k].rootAddress == root;
  }

  // ----- Links: the captured pointers that lead to within MAX_OFFSET bytes of a target

  function Link(v: PointerValue, target: ByteAddress): PotentialPointer {
    var offset := LinkOffset(target, v.valueAsAddress);
    PotentialPointer(v.address, CalculateScore(offset), 1, seq(MAX_DEPTH, _ => 0)[0 := offset])
  }

  predicate IsLink(v: PointerValue, target: ByteAddress) {
    InRange(LinkOffset(target, v.valueAsAddress))
  }

  function Links(values: seq<PointerValue>, target: ByteAddress): seq<PotentialPointer> {
    if values == [] then []
    else
      var rest := Links(values[..|values| - 1], target);
      var v := values[|values| - 1];
      if IsLink(v, target) then rest + [Link(v, target)] else rest
  }

  lemma {:induction false} LinksMembers(values: seq<PointerValue>, target: ByteAddress, p: PotentialPointer)
    ensures p in Links(values, target) <==>
            exists k :: 0 <= k < |values| && IsLink(values[k], target) && p == Link(values[k], target)
  {
    if values != [] {
      var n := |values| - 1;
      LinksMembers(values[..n], target, p);
    }
  }

  /** Following a link from its root takes one step to the target. */
  lemma LinkReaches(values: seq<PointerValue>, target: ByteAddress, p: PotentialPointer, offsets: seq<int>,
                    final: ByteAddress)
    requires p in Links(values, target)
    requires Reaches(values, target, offsets, final)
    ensures InRange(FirstOffset(p))
    ensures Reaches(values, p.rootAddress, [FirstOffset(p)] + offsets, final)
  {
    LinksMembers(values, target, p);
    var k :| 0 <= k < |values| && IsLink(values[k], target) && p == Link(values[k], target);
    LinkOffsetReaches(target, values[k].valueAsAddress);
    assert ([FirstOffset(p)] + offsets)[1..] == offsets;
  }

  // ----- Offsets shared by all captures

  function OffsetSet(v: seq<PotentialPointer>): set<int> {
    set p | p in v :: FirstOffset(p)
  }

  /** The offsets that occur in every list. */
  ghost predicate SharedByAll(lists: seq<seq<PotentialPointer>>, offset: int) {
    forall i :: 0 <= i < |lists| ==> offset in OffsetSet(lists[i])
  }

  function KeepOffsets(v: seq<PotentialPointer>, keep: set<int>): seq<PotentialPointer> {
    if v == [] then []
    else
      var rest := KeepOffsets(v[..|v| - 1], keep);
      if FirstOffset(v[|v| - 1]) in keep then rest + [v[|v| - 1]] else rest
  }

  lemma {:induction false} KeepOffsetsMembers(v: seq<PotentialPointer>, keep: set<int>, p: PotentialPointer)
    ensures p in KeepOffsets(v, keep) <==> p in v && FirstOffset(p) in keep
  {
    if v != [] {
      KeepOffsetsMembers(v[..|v| - 1], keep, p);
      assert v == v[..|v| - 1] + [v[|v| - 1]];
    }
  }

  lemma {:induction false} KeepOffsetsAscending(v: seq<PotentialPointer>, keep: set<int>)
    requires Ascending(v, FirstOffset)
    ensures Ascending(KeepOffsets(v, keep), FirstOffset)
  {
    if v != [] {
      var init, last := v[..|v| - 1], v[|v| - 1];
      KeepOffsetsAscending(init, keep);
      var rest := KeepOffsets(init, keep);
      forall k | 0 <= k < |rest| ensures FirstOffset(rest[k]) <= FirstOffset(last) {
        KeepOffsetsMembers(init, keep, rest[k]);
        var j :| 0 <= j < |init| && init[j] == rest[k];
        assert FirstOffset(v[j]) <= FirstOffset(v[|v| - 1]);
      }
    }
  }

  // ----- Combinations: one position per list, each within that list's current run

  datatype Run = Run(start: nat, stop: nat)

  ghost predicate InRuns(runs: seq<Run>, at: seq<nat>) {
    && |at| == |runs|
    && forall i :: 0 <= i < |runs| ==> runs[i].start <= at[i] < runs[i].stop
  }

  function Starts(runs: seq<Run>): seq<nat> {
    seq(|runs|, i requires 0 <= i < |runs| => runs[i].start)
  }

  /** How many combinations come after `at`, counting the first position fastest. */
  ghost function Remaining(runs: seq<Run>, at: seq<nat>): nat
    requires InRuns(runs, at)
  {
    if runs == [] then 0
    else (runs[0].stop - 1 - at[0]) + (runs[0].stop - runs[0].start) * Remaining(runs[1..], at[1..])
  }

  lemma {:induction false} MultiplesApart(n: nat, y: nat, z: nat)
    requires y < z
    ensures n * y + n <= n * z
  {
    if y + 1 < z {
      MultiplesApart(n, y, z - 1);
    }
    assert n * z == n * (z - 1) + n;
  }

  lemma MixedRadix(n: nat, x: nat, y: nat, x': nat, y': nat)
    requires x < n && x' < n && x + n * y == x' + n * y'
    ensures x == x' && y == y'
  {
    if y < y' {
      MultiplesApart(n, y, y');
    } else if y' < y {
      MultiplesApart(n, y', y);
    }
  }

  lemma {:induction false} RemainingIsInjective(runs: seq<Run>, a: seq<nat>, b: seq<nat>)
    requires InRuns(runs, a) && InRuns(runs, b)
    requires Remaining(runs, a) == Remaining(runs, b)
    ensures a == b
  {
    if runs != [] {
      var n := runs[0].stop - runs[0].start;
      MixedRadix(n, runs[0].stop - 1 - a[0], Remaining(runs[1..], a[1..]), runs[0].stop - 1 - b[0],
                 Remaining(runs[1..], b[1..]));
      RemainingIsInjective(runs[1..], a[1..], b[1..]);
      assert a == [a[0]] + a[1..] && b == [b[0]] + b[1..];
    }
  }

  /** When every position stands at the end of its run, no combination is left. */
  lemma {:induction false} NoneRemain(runs: seq<Run>, at: seq<nat>)
    requires InRuns(runs, at)
    requires forall j :: 0 <= j < |runs| ==> at[j] == runs[j].stop - 1
    ensures Remaining(runs, at) == 0
  {
    if runs != [] {
      NoneRemain(runs[1..], at[1..]);
    }
  }

  /** The first `i` positions reset and the next one advanced. */
  function Advanced(runs: seq<Run>, at: seq<nat>, i: nat): (next: seq<nat>)
    requires i < |at| == |runs|
    ensures |next| == |runs|
  {
    Starts(runs)[..i] + [at[i] + 1] + at[i + 1..]
  }

  lemma AdvancedRest(runs: seq<Run>, at: seq<nat>, i: nat)
    requires i < |at| == |runs|
    ensures i == 0 ==> Advanced(runs, at, i)[0] == at[0] + 1 && Advanced(runs, at, i)[1..] == at[1..]
    ensures i > 0 ==> Advanced(runs, at, i)[0] == runs[0].start
                      && Advanced(runs, at, i)[1..] == Advanced(runs[1..], at[1..], i - 1)
  {
  }

  lemma AdvancedInRuns(runs: seq<Run>, at: seq<nat>, i: nat)
    requires InRuns(runs, at) && i < |runs| && at[i] + 1 < runs[i].stop
    ensures InRuns(runs, Advanced(runs, at, i))
  {
  }

  lemma OneLess(n: nat, x: int)
    ensures n * (x - 1) == n * x - n
  {
  }

  /** Resetting the first `i` exhausted positions and advancing the next one moves on by exactly one combination. */
  lemma {:induction false} AdvanceRemaining(runs: seq<Run>, at: seq<nat>, i: nat)
    requires InRuns(runs, at) && i < |runs|
    requires forall j :: 0 <= j < i ==> at[j] == runs[j].stop - 1
    requires at[i] + 1 < runs[i].stop
    ensures InRuns(runs, Advanced(runs, at, i))
    ensures Remaining(runs, Advanced(runs, at, i)) == Remaining(runs, at) - 1
  {
    AdvancedInRuns(runs, at, i);
    AdvancedRest(runs, at, i);
    if i > 0 {
      AdvanceRemaining(runs[1..], at[1..], i - 1);
      OneLess(runs[0].stop - runs[0].start, Remaining(runs[1..], at[1..]));
    }
  }

  /** No combination comes before the one that stands at the start of every run. */
  lemma {:induction false} StartsComeFirst(runs: seq<Run>, at: seq<nat>)
    requires InRuns(runs, at)
    ensures InRuns(runs, Starts(runs))
    ensures Remaining(runs, at) <= Remaining(runs, Starts(runs))
  {
    if runs != [] {
      StartsComeFirst(runs[1..], at[1..]);
      assert Starts(runs)[1..] == Starts(runs[1..]);
      var x, y := Remaining(runs[1..], at[1..]), Remaining(runs[1..], Starts(runs[1..]));
      if x < y {
        MultiplesApart(runs[0].stop - runs[0].start, x, y);
      }
    }
  }
}
