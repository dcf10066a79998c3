/** The recursive pointer search of src/services/PointerFinder.cpp. */
module PointerFinder {
  import opened Basics
  import opened StandardAlgorithms
  import opened PointerRoutes

  /** The working data of one capture: its candidate pointers and the bounds of the current run. */
  datatype CaptureMetrics = CaptureMetrics(
    potentialPointers: seq<PotentialPointer>, position: nat, stopPosition: nat, capture: seq<PointerValue>)

  /** What is searched: the captures and the address to reach in each of them. */
  datatype Query = Query(captures: seq<seq<PointerValue>>, targets: seq<ByteAddress>)

  function Self(a: ByteAddress): int {
    a
  }

  method InsertAddress(memo: seq<ByteAddress>, address: ByteAddress) returns (r: seq<ByteAddress>)
    requires StrictlyAscending(memo, Self)
    ensures StrictlyAscending(r, Self)
    ensures forall a :: a in r <==> a in memo || a == address
  {
    var at := LowerBound(memo, Self, address);
    if at == |memo| || memo[at] != address {
      r := memo[..at] + [address] + memo[at..];
    } else {
      r := memo;
    }
  }

  // ----- What the search has to show

  ghost function Everywhere(root: ByteAddress, n: nat): seq<ByteAddress> {
    seq(n, _ => root)
  }

  ghost predicate PointsNear(capture: seq<PointerValue>, root: ByteAddress, target: ByteAddress, offset: int) {
    exists k :: 0 <= k < |capture| && capture[k].address == root
                && LinkOffset(target, capture[k].valueAsAddress) == offset
  }

  /** In every capture some pointer leads from the local root to the target at the one offset. */
  ghost predicate Linked(captures: seq<seq<PointerValue>>, roots: seq<ByteAddress>, targets: seq<ByteAddress>,
                         offset: int)
    requires |captures| == |targets|
  {
    && InRange(offset) && |roots| == |captures|
    && forall i :: 0 <= i < |captures| ==> PointsNear(captures[i], roots[i], targets[i], offset)
  }

  /** An address captured in every snapshot whose value lies at one common offset from each target. */
  ghost predicate DirectPointer(q: Query, root: ByteAddress, offset: int)
    requires |q.captures| == |q.targets|
  {
    Linked(q.captures, Everywhere(root, |q.captures|), q.targets, offset)
  }

  /** The results so far, and the addresses that were skipped because a memo ruled them out, each with the
      length of the chain. */
  datatype Findings = Findings(results: seq<PotentialPointer>, skipped: set<(nat, ByteAddress)>)

  /** No result is lost or gets worse, and results that were all good stay all good. */
  ghost predicate Grown(a: Findings, b: Findings, q: Query)
    requires |q.captures| == |q.targets|
  {
    && Improves(a.results, b.results)
    && (ResultsOk(a.results, q.captures, q.targets) ==> ResultsOk(b.results, q.captures, q.targets))
    && a.skipped <= b.skipped
  }

  lemma GrownTransitive(a: Findings, b: Findings, c: Findings, q: Query)
    requires |q.captures| == |q.targets|
    requires Grown(a, b, q) && Grown(b, c, q)
    ensures Grown(a, c, q)
  {
  }

  ghost predicate SameRoot(roots: seq<ByteAddress>) {
    forall i :: 0 <= i < |roots| ==> roots[i] == roots[0]
  }

  /** A pointer to the local targets at this offset is recorded with at most the score of the chain it begins. */
  ghost predicate LinkRecorded(captures: seq<seq<PointerValue>>, locals: seq<ByteAddress>,
                               results: seq<PotentialPointer>, score: nat, root: ByteAddress, offset: int)
    requires |captures| == |locals|
  {
    DirectPointer(Query(captures, locals), root, offset) ==> Recorded(results, root, score + CalculateScore(offset))
  }

  /** So is every pointer to the local targets at any one offset. */
  ghost predicate LinksRecorded(captures: seq<seq<PointerValue>>, locals: seq<ByteAddress>,
                                results: seq<PotentialPointer>, score: nat)
    requires |captures| == |locals|
  {
    forall root, offset :: LinkRecorded(captures, locals, results, score, root, offset)
  }

  /** The chains of `depth` links that begin at `roots` and have this score are dealt with: a common root is
      recorded. From others the longer chains are, unless a memo ruled them out or they are as long as they may be. */
  ghost predicate Handled(captures: seq<seq<PointerValue>>, roots: seq<ByteAddress>, f: Findings, score: nat,
                          depth: nat)
    requires 0 < |captures| == |roots|
    decreases if depth < MAX_DEPTH then MAX_DEPTH - depth else 0, 0
  {
    if SameRoot(roots) then Recorded(f.results, roots[0], score)
    else depth < MAX_DEPTH ==> (depth, roots[0]) in f.skipped || Complete(captures, roots, f, score, depth + 1)
  }

  /** All chains that lead to the local targets are dealt with; one link more makes them `links` long. */
  ghost predicate Complete(captures: seq<seq<PointerValue>>, locals: seq<ByteAddress>, f: Findings, score: nat,
                           links: nat)
    requires 0 < |captures| == |locals|
    decreases if links < MAX_DEPTH then MAX_DEPTH - links else 0, 1
  {
    forall roots: seq<ByteAddress>, offset ::
      Linked(captures, roots, locals, offset) ==> Handled(captures, roots, f, score + CalculateScore(offset), links)
  }

  /** What was found is still there, in whatever order. */
  ghost predicate Keeps(a: Findings, b: Findings) {
    && a.skipped <= b.skipped
    && forall root, score :: Recorded(a.results, root, score) ==> Recorded(b.results, root, score)
  }

  lemma GrownKeeps(a: Findings, b: Findings, q: Query)
    requires |q.captures| == |q.targets| && Grown(a, b, q)
    ensures Keeps(a, b)
  {
    forall root, score | Recorded(a.results, root, score) ensures Recorded(b.results, root, score) {
      RecordedSurvives(a.results, b.results, root, score);
    }
  }

  lemma {:induction false} HandledSurvives(captures: seq<seq<PointerValue>>, roots: seq<ByteAddress>, a: Findings,
                                           b: Findings, score: nat, depth: nat)
    requires 0 < |captures| == |roots| && Keeps(a, b) && Handled(captures, roots, a, score, depth)
    ensures Handled(captures, roots, b, score, depth)
    decreases if depth < MAX_DEPTH then MAX_DEPTH - depth else 0, 0
  {
    if !SameRoot(roots) && depth < MAX_DEPTH && (depth, roots[0]) !in a.skipped {
      CompleteSurvives(captures, roots, a, b, score, depth + 1);
    }
  }

  lemma {:induction false} CompleteSurvives(captures: seq<seq<PointerValue>>, locals: seq<ByteAddress>, a: Findings,
                                            b: Findings, score: nat, links: nat)
    requires 0 < |captures| == |locals| && Keeps(a, b) && Complete(captures, locals, a, score, links)
    ensures Complete(captures, locals, b, score, links)
    decreases if links < MAX_DEPTH then MAX_DEPTH - links else 0, 1
  {
    forall roots: seq<ByteAddress>, offset | Linked(captures, roots, locals, offset)
      ensures Handled(captures, roots, b, score + CalculateScore(offset), links)
    {
      HandledSurvives(captures, roots, a, b, score + CalculateScore(offset), links);
    }
  }

  // ----- What the two memos stand for

  ghost predicate SharedLinkOffset(captures: seq<seq<PointerValue>>, locals: seq<ByteAddress>, offset: int)
    requires |captures| == |locals|
  {
    forall i :: 0 <= i < |locals| ==> offset in OffsetSet(Links(captures[i], locals[i]))
  }

  /** No pointers lead to the local targets at an offset that all captures have. */
  ghost predicate SharesNoOffset(captures: seq<seq<PointerValue>>, locals: seq<ByteAddress>)
    requires |captures| == |locals|
  {
    forall offset :: !SharedLinkOffset(captures, locals, offset)
  }

  /** In every capture the chain already fixed leads from the local target to the final one. */
  ghost predicate Anchored(q: Query, locals: seq<ByteAddress>, chain: seq<int>) {
    && |locals| == |q.captures| == |q.targets|
    && (forall k :: 0 <= k < |chain| ==> InRange(chain[k]))
    && forall i :: 0 <= i < |q.captures| ==> Reaches(q.captures[i], locals[i], chain, q.targets[i])
  }

  /** A place that the search comes to: from the addresses the chain leads to the targets, and the first is `a`. */
  ghost predicate IsLevel(q: Query, locals: seq<ByteAddress>, chain: seq<int>, a: ByteAddress) {
    0 < |q.captures| && 0 < |chain| && Anchored(q, locals, chain) && locals[0] == a
  }

  /** At some such place no offset is shared. */
  ghost predicate NothingShared(q: Query, a: ByteAddress) {
    exists locals: seq<ByteAddress>, chain: seq<int> ::
      IsLevel(q, locals, chain, a) && SharesNoOffset(q.captures, locals)
  }

  /** All longer chains through some such place, `depth` links from the targets, are dealt with. */
  ghost predicate Explored(q: Query, f: Findings, depth: nat, a: ByteAddress) {
    exists locals: seq<ByteAddress>, chain: seq<int> ::
      && IsLevel(q, locals, chain, a) && |chain| == depth
      && Complete(q.captures, locals, f, SumScores(chain), depth + 1)
  }

  ghost predicate Excused(q: Query, f: Findings, depth: nat, a: ByteAddress) {
    NothingShared(q, a) || Explored(q, f, depth, a)
  }

  /** Addresses were skipped for these reasons only. */
  ghost predicate SkippedJustified(q: Query, f: Findings) {
    forall d, a {:trigger Excused(q, f, d, a)} :: (d, a) in f.skipped ==> Excused(q, f, d, a)
  }

  /** Each address that is in a memo, or was skipped, is there for a reason. */
  ghost predicate MemosJustified(unreachable: seq<ByteAddress>, deadEnds: seq<seq<ByteAddress>>, f: Findings,
                                 q: Query)
  {
    && (forall a :: a in unreachable ==> NothingShared(q, a))
    && (forall d, a :: 0 <= d < |deadEnds| && a in deadEnds[d] ==> Explored(q, f, d, a))
    && SkippedJustified(q, f)
  }

  /** A reason stays one while more is found. */
  lemma StaysExplored(q: Query, before: Findings, after: Findings, depth: nat, a: ByteAddress)
    requires Explored(q, before, depth, a) && Keeps(before, after)
    ensures Explored(q, after, depth, a)
  {
    var locals: seq<ByteAddress>, chain: seq<int> :|
      && IsLevel(q, locals, chain, a) && |chain| == depth
      && Complete(q.captures, locals, before, SumScores(chain), depth + 1);
    CompleteSurvives(q.captures, locals, before, after, SumScores(chain), depth + 1);
  }

  /** So do the reasons of both memos, and addresses may be skipped that are in one of them. */
  lemma MemosStayJustified(unreachable: seq<ByteAddress>, deadEnds: seq<seq<ByteAddress>>, before: Findings,
                           after: Findings, q: Query)
    requires MemosJustified(unreachable, deadEnds, before, q) && Keeps(before, after)
    requires forall d, a :: (d, a) in after.skipped ==>
                              || (d, a) in before.skipped || a in unreachable
                              || (d < |deadEnds| && a in deadEnds[d])
    ensures MemosJustified(unreachable, deadEnds, after, q)
  {
    forall d: nat, a | Explored(q, before, d, a) ensures Explored(q, after, d, a) {
      StaysExplored(q, before, after, d, a);
    }
    forall d: nat, a | (d, a) in after.skipped ensures Excused(q, after, d, a) {
      assert (d, a) in before.skipped ==> Excused(q, before, d, a);
    }
  }

  /** State shared by all levels of the recursion. */
  class AnalysisProgress {
    /** Whether a progress callback was given, and what its n-th call answers. */
    const hasCallback: bool
    const answers: nat -> bool
    var calls: nat
    var checksSinceLastProgressUpdated: nat
    var aborted: bool
    var results: seq<PotentialPointer>
    /** The offsets of the chain under examination, filled from the back. */
    const offsets: array<int>
    var unreachableAddresses: seq<ByteAddress>
    const deadEndAddresses: array<seq<ByteAddress>>
    /** The addresses that were skipped because of the memos. */
    ghost var skipped: set<(nat, ByteAddress)>

    ghost predicate Valid()
      reads this, offsets, deadEndAddresses
    {
      && offsets.Length == MAX_DEPTH
      && deadEndAddresses.Length == MAX_DEPTH
      && (aborted ==> hasCallback && exists n :: !answers(n))
      && StrictlyAscending(unreachableAddresses, Self)
      && forall d :: 0 <= d < MAX_DEPTH ==> StrictlyAscending(deadEndAddresses[d], Self)
    }

    constructor (results: seq<PotentialPointer>, hasCallback: bool, answers: nat -> bool)
      ensures Valid() && !aborted && this.results == results
      ensures this.hasCallback == hasCallback && this.answers == answers
      ensures fresh(offsets) && fresh(deadEndAddresses) && offsets.Length == deadEndAddresses.Length == 16
      ensures skipped == {} && unreachableAddresses == []
      ensures forall d :: 0 <= d < MAX_DEPTH ==> deadEndAddresses[d] == []
    {
      this.hasCallback := hasCallback;
      this.answers := answers;
      this.calls := 0;
      this.checksSinceLastProgressUpdated := 0;
      this.aborted := false;
      this.results := results;
      this.offsets := new int[MAX_DEPTH](_ => 0);
      this.unreachableAddresses := [];
      this.skipped := {};
      this.deadEndAddresses := new seq<ByteAddress>[MAX_DEPTH](_ => []);
    }

    /** What there is to show. */
    ghost function Found(): Findings
      reads this`results, this`skipped
    {
      Findings(results, skipped)
    }

    ghost predicate Justified(q: Query)
      reads this, deadEndAddresses
    {
      MemosJustified(unreachableAddresses, deadEndAddresses[..], Found(), q)
    }

    /** The last `depth` offsets: the chain fixed by the levels above. */
    ghost function Chain(depth: nat): (r: seq<int>)
      requires depth <= offsets.Length
      reads offsets
      ensures |r| == depth
    {
      offsets[offsets.Length - depth..]
    }

    /** Notes that an address was skipped. */
    ghost method Skip(depth: nat, a: ByteAddress, q: Query)
      requires Valid() && depth < MAX_DEPTH && Justified(q)
      requires a in unreachableAddresses || a in deadEndAddresses[depth]
      modifies this`skipped
      ensures Valid() && Justified(q) && skipped == old(skipped) + {(depth, a)}
    {
      ghost var before := Found();
      skipped := skipped + {(depth, a)};
      MemosStayJustified(unreachableAddresses, deadEndAddresses[..], before, Found(), q);
    }

    /** Calls the progress callback; a negative answer aborts the search. */
    method CallProgress()
      requires Valid() && hasCallback
      modifies this`calls, this`aborted
      ensures Valid() && aborted == (old(aborted) || !answers(old(calls))) && calls == old(calls) + 1
    {
      if !answers(calls) {
        aborted := true;
      }
      calls := calls + 1;
    }

    /** Notes that no pointer leads to an address at an offset that all captures share. */
    method MarkUnreachable(a: ByteAddress, ghost q: Query)
      requires Valid() && Justified(q) && NothingShared(q, a)
      modifies this`unreachableAddresses
      ensures Valid() && Justified(q)
      ensures forall x :: x in unreachableAddresses <==> x in old(unreachableAddresses) || x == a
    {
      unreachableAddresses := InsertAddress(unreachableAddresses, a);
    }

    /** Notes that the search for chains to an address found nothing new. */
    method MarkDeadEnd(depth: nat, a: ByteAddress, ghost q: Query)
      requires Valid() && depth < MAX_DEPTH
      requires !aborted ==> Justified(q) && Explored(q, Found(), depth, a)
      modifies deadEndAddresses
      ensures Valid() && (!aborted ==> Justified(q))
      ensures forall x :: x in deadEndAddresses[depth] <==> x in old(deadEndAddresses[depth]) || x == a
      ensures forall d :: 0 <= d < MAX_DEPTH && d != depth ==> deadEndAddresses[d] == old(deadEndAddresses[d])
    {
      deadEndAddresses[depth] := InsertAddress(deadEndAddresses[depth], a);
    }

    /** Reports progress at every 501st check. */
    method CountCheck()
      requires Valid()
      modifies this`calls, this`aborted, this`checksSinceLastProgressUpdated
      ensures Valid() && (old(aborted) ==> aborted)
      ensures !hasCallback ==> aborted == old(aborted)
      ensures var due := hasCallback && old(checksSinceLastProgressUpdated) >= 500;
              && calls == old(calls) + (if due then 1 else 0)
              && (aborted <==> old(aborted) || (due && !answers(old(calls))))
      ensures checksSinceLastProgressUpdated
           == if !hasCallback then old(checksSinceLastProgressUpdated)
              else if old(checksSinceLastProgressUpdated) >= 500 then 0 else old(checksSinceLastProgressUpdated) + 1
    {
      if hasCallback {
        checksSinceLastProgressUpdated := checksSinceLastProgressUpdated + 1;
        if checksSinceLastProgressUpdated > 500 {
          checksSinceLastProgressUpdated := 0;
          CallProgress();
        }
      }
    }
  }

  class AnalysisState {
    var captureMetrics: seq<CaptureMetrics>
    const score: nat
    const depth: nat
    const progress: AnalysisProgress
    /** The number of links of the chains that this level makes. */
    ghost const links: nat

    constructor (progress: AnalysisProgress, captureMetrics: seq<CaptureMetrics>, score: nat, depth: nat)
      ensures this.progress == progress && this.captureMetrics == captureMetrics
      ensures this.score == score && this.depth == depth && links == depth + 1
    {
      this.progress := progress;
      this.captureMetrics := captureMetrics;
      this.score := score;
      this.depth := depth;
      this.links := depth + 1;
    }
  }

  // ----- Specification of the working data

  ghost function Lists(metrics: seq<CaptureMetrics>): seq<seq<PotentialPointer>> {
    seq(|metrics|, i requires 0 <= i < |metrics| => metrics[i].potentialPointers)
  }

  ghost function Runs(metrics: seq<CaptureMetrics>): seq<Run> {
    seq(|metrics|, i requires 0 <= i < |metrics| => Run(metrics[i].position, metrics[i].stopPosition))
  }

  /** The iterators may have moved, the lists and captures have not. */
  ghost predicate SameLists(a: seq<CaptureMetrics>, b: seq<CaptureMetrics>) {
    && |a| == |b|
    && forall i :: 0 <= i < |a| ==> a[i].potentialPointers == b[i].potentialPointers && a[i].capture == b[i].capture
  }

  /** The lists hold links to `locals`, sorted by offset, and all hold the same offsets. */
  ghost predicate Prepared(metrics: seq<CaptureMetrics>, captures: seq<seq<PointerValue>>, locals: seq<ByteAddress>) {
    && 0 < |metrics| == |captures| == |locals|
    && (forall i :: 0 <= i < |metrics| ==> metrics[i].capture == captures[i])
    && (forall i :: 0 <= i < |metrics| ==> Ascending(metrics[i].potentialPointers, FirstOffset))
    && (forall i, k :: 0 <= i < |metrics| && 0 <= k < |metrics[i].potentialPointers| ==>
                         metrics[i].potentialPointers[k] in Links(captures[i], locals[i]))
    && (forall i, j :: 0 <= i < |metrics| && 0 <= j < |metrics| ==>
                         OffsetSet(metrics[i].potentialPointers) == OffsetSet(metrics[j].potentialPointers))
  }

  ghost predicate HasPointer(v: seq<PotentialPointer>, root: ByteAddress, offset: int) {
    exists k :: 0 <= k < |v| && v[k].rootAddress == root && FirstOffset(v[k]) == offset
  }

  /** Each root is a candidate in its capture, at one common offset. */
  ghost predicate Common(metrics: seq<CaptureMetrics>, roots: seq<ByteAddress>, offset: int) {
    && |roots| == |metrics|
    && forall i :: 0 <= i < |metrics| ==> HasPointer(metrics[i].potentialPointers, roots[i], offset)
  }

  ghost predicate InRun(m: CaptureMetrics, root: ByteAddress, k: nat) {
    m.position <= k < m.stopPosition <= |m.potentialPointers| && m.potentialPointers[k].rootAddress == root
  }

  ghost predicate SomeInRun(m: CaptureMetrics, root: ByteAddress) {
    exists k: nat :: InRun(m, root, k)
  }

  ghost predicate RootsInRuns(metrics: seq<CaptureMetrics>, roots: seq<ByteAddress>) {
    |roots| == |metrics| && forall i :: 0 <= i < |metrics| ==> SomeInRun(metrics[i], roots[i])
  }

  /** Every capture stands at a non-empty run of the one offset. */
  ghost predicate Aligned(metrics: seq<CaptureMetrics>, offset: int) {
    forall i :: 0 <= i < |metrics| ==>
                  && metrics[i].position < metrics[i].stopPosition <= |metrics[i].potentialPointers|
                  && forall k :: metrics[i].position <= k < metrics[i].stopPosition ==>
                                   FirstOffset(metrics[i].potentialPointers[k]) == offset
  }

  ghost predicate DividedAt(v: seq<PotentialPointer>, at: nat, bound: int) {
    && at <= |v|
    && (forall k :: 0 <= k < at ==> FirstOffset(v[k]) < bound)
    && (forall k :: at <= k < |v| ==> bound <= FirstOffset(v[k]))
  }

  /** In every capture the iterator divides the offsets below `bound` from the rest. */
  ghost predicate Divided(metrics: seq<CaptureMetrics>, bound: int) {
    forall i :: 0 <= i < |metrics| ==> DividedAt(metrics[i].potentialPointers, metrics[i].position, bound)
  }

  // ----- Candidate pointers

  /** Appends the links of a capture and sorts by offset. */
  method InitializePotentialPointers(pointers: seq<PotentialPointer>, capture: seq<PointerValue>, target: ByteAddress)
    returns (r: seq<PotentialPointer>)
    ensures Ascending(r, FirstOffset)
    ensures multiset(r) == multiset(pointers + Links(capture, target))
  {
    r := pointers;
    for n := 0 to |capture|
      invariant r == pointers + Links(capture[..n], target)
    {
      var offset := Int32Subtract(ToSigned(target), ToSigned(capture[n].valueAsAddress));
      assert capture[..n + 1][..n] == capture[..n];
      if offset < MAX_OFFSET && offset > -MAX_OFFSET {
        var offsets: Offsets := seq(MAX_DEPTH, _ => 0);
        offsets := offsets[0 := offset];
        r := r + [PotentialPointer(capture[n].address, CalculateScore(offset), 1, offsets)];
      }
    }
    assert capture[..|capture|] == capture;
    var sorted := Sort(r, (a, b) => FirstOffset(a) < FirstOffset(b));
    assert Ascending(sorted, FirstOffset) by {
      forall i, j | 0 <= i < j < |sorted| ensures FirstOffset(sorted[i]) <= FirstOffset(sorted[j]) {
        assert !((a, b) => FirstOffset(a) < FirstOffset(b))(sorted[j], sorted[i]);
      }
    }
    r := sorted;
  }

  /** The offsets of a sorted list, each once, in ascending order. */
  method DistinctOffsets(v: seq<PotentialPointer>) returns (offsets: seq<int>)
    requires Ascending(v, FirstOffset)
    requires forall k :: 0 <= k < |v| ==> InRange(FirstOffset(v[k]))
    ensures StrictlyAscending(offsets, x => x)
    ensures forall x :: x in offsets <==> x in OffsetSet(v)
  {
    offsets := [];
    var previous := -0x8000_0000;
    for n := 0 to |v|
      invariant StrictlyAscending(offsets, x => x)
      invariant if n == 0 then offsets == [] && previous == -0x8000_0000
        else offsets != [] && previous == offsets[|offsets| - 1] == FirstOffset(v[n - 1])
      invariant forall x :: x in offsets <==> x in OffsetSet(v[..n])
    {
      var offset := FirstOffset(v[n]);
      if offset != previous {
        offsets := offsets + [offset];
        previous := offset;
      }
    }
    assert v[..|v|] == v;
  }

  method HasOffset(v: seq<PotentialPointer>, offset: int) returns (found: bool)
    ensures found <==> offset in OffsetSet(v)
  {
    found := false;
    for n := 0 to |v|
      invariant offset !in OffsetSet(v[..n])
    {
      assert v[..n + 1] == v[..n] + [v[n]];
      if FirstOffset(v[n]) == offset {
        assert v[n] in v;
        return true;
      }
    }
    assert v[..|v|] == v;
  }

  ghost function SharedOffsets(metrics: seq<CaptureMetrics>): set<int>
    requires 0 < |metrics|
  {
    set o | o in OffsetSet(metrics[0].potentialPointers) && SharedByAll(Lists(metrics), o)
  }

  /** Drops the offsets that do not occur in `v`. */
  method RetainOffsets(offsets: seq<int>, v: seq<PotentialPointer>) returns (r: seq<int>)
    requires StrictlyAscending(offsets, x => x)
    ensures StrictlyAscending(r, x => x)
    ensures forall x :: x in r <==> x in offsets && x in OffsetSet(v)
  {
    r := [];
    for n := 0 to |offsets|
      invariant StrictlyAscending(r, x => x)
      invariant forall k :: 0 <= k < |r| && n < |offsets| ==> r[k] < offsets[n]
      invariant forall x :: x in r <==> x in offsets[..n] && x in OffsetSet(v)
    {
      assert offsets[..n + 1] == offsets[..n] + [offsets[n]];
      assert n + 1 < |offsets| ==> (x => x)(offsets[n]) < (x => x)(offsets[n + 1]);
      var found := HasOffset(v, offsets[n]);
      if found {
        r := r + [offsets[n]];
      }
    }
    assert offsets[..|offsets|] == offsets;
  }

  /** Drops the pointers whose offset is not listed in `offsets`. */
  method RetainPointers(v: seq<PotentialPointer>, offsets: seq<int>, ghost keep: set<int>)
    returns (r: seq<PotentialPointer>)
    requires StrictlyAscending(offsets, x => x)
    requires forall x :: x in offsets <==> x in keep
    ensures r == KeepOffsets(v, keep)
  {
    r := [];
    for n := 0 to |v|
      invariant r == KeepOffsets(v[..n], keep)
    {
      assert v[..n + 1][..n] == v[..n];
      var found := BinarySearch(offsets, x => x, FirstOffset(v[n]));
      assert found <==> FirstOffset(v[n]) in offsets;
      if found {
        r := r + [v[n]];
      }
    }
    assert v[..|v|] == v;
  }

  lemma {:induction false} KeepNothing(v: seq<PotentialPointer>)
    ensures KeepOffsets(v, {}) == []
  {
    if v != [] {
      KeepNothing(v[..|v| - 1]);
    }
  }

  lemma SharedByOneMore(lists: seq<seq<PotentialPointer>>, n: nat, x: int)
    requires n < |lists|
    ensures SharedByAll(lists[..n + 1], x) <==> SharedByAll(lists[..n], x) && x in OffsetSet(lists[n])
  {
    assert forall i :: 0 <= i < n ==> lists[..n + 1][i] == lists[..n][i];
    assert lists[..n + 1][n] == lists[n];
  }

  /** Keeps exactly the pointers whose offset occurs in every capture. */
  method RemoveUnsharedOffsets(metrics: seq<CaptureMetrics>) returns (r: seq<CaptureMetrics>)
    requires 0 < |metrics|
    requires forall i :: 0 <= i < |metrics| ==> Ascending(metrics[i].potentialPointers, FirstOffset)
    requires forall i, k :: 0 <= i < |metrics| && 0 <= k < |metrics[i].potentialPointers| ==>
                              InRange(FirstOffset(metrics[i].potentialPointers[k]))
    ensures |r| == |metrics|
    ensures forall i :: 0 <= i < |r| ==>
                          r[i] == metrics[i].(potentialPointers := KeepOffsets(metrics[i].potentialPointers,
                                                                               SharedOffsets(metrics)))
  {
    var shared := DistinctOffsets(metrics[0].potentialPointers);
    forall x ensures x in shared <==> SharedByAll(Lists(metrics)[..1], x) {
      SharedByOneMore(Lists(metrics), 0, x);
    }
    for n := 1 to |metrics|
      invariant StrictlyAscending(shared, x => x)
      invariant forall x :: x in shared <==> SharedByAll(Lists(metrics)[..n], x)
    {
      forall x ensures SharedByAll(Lists(metrics)[..n + 1], x) <==>
                       SharedByAll(Lists(metrics)[..n], x) && x in OffsetSet(metrics[n].potentialPointers) {
        SharedByOneMore(Lists(metrics), n, x);
      }
      shared := RetainOffsets(shared, metrics[n].potentialPointers);
    }
    assert Lists(metrics)[..|metrics|] == Lists(metrics);
    ghost var keep := SharedOffsets(metrics);
    assert forall x :: x in shared <==> x in keep by {
      assert forall x :: SharedByAll(Lists(metrics), x) ==> x in OffsetSet(Lists(metrics)[0]);
    }

    r := metrics;
    for n := 0 to |metrics|
      invariant |r| == |metrics|
      invariant forall i :: 0 <= i < n ==>
                              r[i] == metrics[i].(potentialPointers := KeepOffsets(metrics[i].potentialPointers, keep))
      invariant forall i :: n <= i < |r| ==> r[i] == metrics[i]
    {
      if shared == [] {
        assert keep == {} by {
          assert forall x :: x in keep ==> x in shared;
        }
        KeepNothing(metrics[n].potentialPointers);
        r := r[n := r[n].(potentialPointers := [])];
      } else {
        var kept := RetainPointers(r[n].potentialPointers, shared, keep);
        r := r[n := r[n].(potentialPointers := kept)];
      }
    }
  }

  /** After the reduction every list is sorted and holds exactly the offsets common to all. */
  lemma SharedListsAgree(before: seq<CaptureMetrics>, after: seq<CaptureMetrics>)
    requires 0 < |before| == |after|
    requires forall i :: 0 <= i < |before| ==> Ascending(before[i].potentialPointers, FirstOffset)
    requires forall i :: 0 <= i < |after| ==>
                           after[i].potentialPointers == KeepOffsets(before[i].potentialPointers, SharedOffsets(before))
    ensures forall i :: 0 <= i < |after| ==> Ascending(after[i].potentialPointers, FirstOffset)
    ensures forall i :: 0 <= i < |after| ==> OffsetSet(after[i].potentialPointers) == SharedOffsets(before)
    ensures forall i, p :: 0 <= i < |after| ==>
                             (p in after[i].potentialPointers <==>
                              p in before[i].potentialPointers && SharedByAll(Lists(before), FirstOffset(p)))
  {
    var keep := SharedOffsets(before);
    assert forall x :: x in keep <==> SharedByAll(Lists(before), x) by {
      assert forall x :: SharedByAll(Lists(before), x) ==> x in OffsetSet(Lists(before)[0]);
    }
    forall i | 0 <= i < |after|
      ensures Ascending(after[i].potentialPointers, FirstOffset)
      ensures OffsetSet(after[i].potentialPointers) == keep
      ensures forall p :: p in after[i].potentialPointers <==>
                          p in before[i].potentialPointers && FirstOffset(p) in keep
    {
      var v := before[i].potentialPointers;
      KeepOffsetsAscending(v, keep);
      forall p ensures p in after[i].potentialPointers <==> p in v && FirstOffset(p) in keep {
        KeepOffsetsMembers(v, keep, p);
      }
      forall x | x in keep ensures x in OffsetSet(after[i].potentialPointers) {
        assert x in OffsetSet(Lists(before)[i]);
        var p :| p in v && FirstOffset(p) == x;
        assert p in after[i].potentialPointers;
      }
    }
  }

  // ----- Walking through the aligned runs

  /** The pointers between the two positions are those at one offset. */
  ghost predicate RunMarked(m: CaptureMetrics, offset: int) {
    && m.position < m.stopPosition <= |m.potentialPointers|
    && (forall k :: m.position <= k < m.stopPosition ==> FirstOffset(m.potentialPointers[k]) == offset)
    && DividedAt(m.potentialPointers, m.position, offset)
    && DividedAt(m.potentialPointers, m.stopPosition, offset + 1)
  }

  ghost predicate RunsMarked(metrics: seq<CaptureMetrics>, offset: int) {
    forall i :: 0 <= i < |metrics| ==> RunMarked(metrics[i], offset)
  }

  /** Finds the end of the run at which a list stands. */
  method MarkRun(m: CaptureMetrics, offset: int) returns (r: CaptureMetrics)
    requires Ascending(m.potentialPointers, FirstOffset) && DividedAt(m.potentialPointers, m.position, offset)
    requires m.position < |m.potentialPointers| && FirstOffset(m.potentialPointers[m.position]) == offset
    ensures r == m.(stopPosition := r.stopPosition) && RunMarked(r, offset)
  {
    var v, stop := m.potentialPointers, m.position;
    while stop < |v| && FirstOffset(v[stop]) == offset
      invariant m.position <= stop <= |v|
      invariant forall k :: m.position <= k < stop ==> FirstOffset(v[k]) == offset
    {
      stop := stop + 1;
    }
    forall k | stop <= k < |v| ensures offset + 1 <= FirstOffset(v[k]) {
      assert FirstOffset(v[m.position]) <= FirstOffset(v[stop]) <= FirstOffset(v[k]);
    }
    r := m.(stopPosition := stop);
  }

  lemma FirstOffsetBelow(metrics: seq<CaptureMetrics>, bound: int, i: nat, j: nat)
    requires i < |metrics| && j < |metrics|
    requires Ascending(metrics[j].potentialPointers, FirstOffset)
    requires OffsetSet(metrics[i].potentialPointers) == OffsetSet(metrics[j].potentialPointers)
    requires Divided(metrics, bound)
    requires metrics[i].position < |metrics[i].potentialPointers|
    ensures metrics[j].position < |metrics[j].potentialPointers|
    ensures FirstOffset(metrics[j].potentialPointers[metrics[j].position]) <=
            FirstOffset(metrics[i].potentialPointers[metrics[i].position])
  {
    var p := metrics[i].potentialPointers[metrics[i].position];
    var v := metrics[j].potentialPointers;
    assert FirstOffset(p) in OffsetSet(metrics[i].potentialPointers);
    var k :| 0 <= k < |v| && FirstOffset(v[k]) == FirstOffset(p);
    assert metrics[j].position <= k;
    if metrics[j].position < k {
      assert FirstOffset(v[metrics[j].position]) <= FirstOffset(v[k]);
    }
  }

  /** Lists that hold the same offsets and are divided at the same bound stand at the same offset. */
  lemma StandsAtOffset(metrics: seq<CaptureMetrics>, bound: int, i: nat)
    requires i < |metrics|
    requires forall i :: 0 <= i < |metrics| ==> Ascending(metrics[i].potentialPointers, FirstOffset)
    requires forall i, j :: 0 <= i < |metrics| && 0 <= j < |metrics| ==>
                              OffsetSet(metrics[i].potentialPointers) == OffsetSet(metrics[j].potentialPointers)
    requires Divided(metrics, bound)
    requires metrics[0].position < |metrics[0].potentialPointers|
    ensures var offset := FirstOffset(metrics[0].potentialPointers[metrics[0].position]);
            && metrics[i].position < |metrics[i].potentialPointers|
            && FirstOffset(metrics[i].potentialPointers[metrics[i].position]) == offset
            && bound <= offset
            && DividedAt(metrics[i].potentialPointers, metrics[i].position, offset)
  {
    FirstOffsetBelow(metrics, bound, 0, i);
    FirstOffsetBelow(metrics, bound, i, 0);
    var v, at := metrics[i].potentialPointers, metrics[i].position;
    forall k | at <= k < |v| ensures FirstOffset(v[at]) <= FirstOffset(v[k]) {
      if at < k {
        assert FirstOffset(v[at]) <= FirstOffset(v[k]);
      }
    }
  }

  /** Finds the end of the run of equal offsets at each position. */
  method FindSharedOffset(metrics: seq<CaptureMetrics>, ghost bound: int) returns (found: bool, r: seq<CaptureMetrics>)
    requires 0 < |metrics|
    requires forall i :: 0 <= i < |metrics| ==> Ascending(metrics[i].potentialPointers, FirstOffset)
    requires forall i, j :: 0 <= i < |metrics| && 0 <= j < |metrics| ==>
                              OffsetSet(metrics[i].potentialPointers) == OffsetSet(metrics[j].potentialPointers)
    requires Divided(metrics, bound)
    ensures found <==> metrics[0].position < |metrics[0].potentialPointers|
    ensures !found ==> r == metrics
    ensures found ==> SameLists(r, metrics) && forall i :: 0 <= i < |r| ==> r[i].position == metrics[i].position
    ensures found ==> var offset := FirstOffset(metrics[0].potentialPointers[metrics[0].position]);
                      bound <= offset && RunsMarked(r, offset)
  {
    r := metrics;
    if metrics[0].position == |metrics[0].potentialPointers| {
      return false, metrics;
    }
    found := true;
    var offset := FirstOffset(metrics[0].potentialPointers[metrics[0].position]);
    for n := 0 to |metrics|
      invariant |r| == |metrics|
      invariant forall i :: n <= i < |r| ==> r[i] == metrics[i]
      invariant forall i :: 0 <= i < n ==>
                              r[i] == metrics[i].(stopPosition := r[i].stopPosition) && RunMarked(r[i], offset)
    {
      StandsAtOffset(metrics, bound, n);
      var marked := MarkRun(metrics[n], offset);
      r := r[n := marked];
    }
  }

  /** Moves on to the next combination of positions, the first capture fastest. */
  method NextCombination(metrics: seq<CaptureMetrics>, at: seq<nat>) returns (next: seq<nat>, done: bool)
    requires 0 < |metrics| && InRuns(Runs(metrics), at)
    ensures done <==> Remaining(Runs(metrics), at) == 0
    ensures !done ==> InRuns(Runs(metrics), next) && Remaining(Runs(metrics), next) == Remaining(Runs(metrics), at) - 1
  {
    ghost var runs := Runs(metrics);
    next := at;
    var index := 0;
    while true
      invariant 0 <= index < |metrics| == |next|
      invariant forall j :: 0 <= j < index ==> next[j] == runs[j].start && at[j] == runs[j].stop - 1
      invariant forall j :: index <= j < |next| ==> next[j] == at[j]
      decreases |metrics| - index
    {
      var position := next[index] + 1;
      if position < metrics[index].stopPosition {
        next := next[index := position];
        assert next == Advanced(runs, at, index);
        AdvanceRemaining(runs, at, index);
        return next, false;
      }
      next := next[index := metrics[index].position];
      index := index + 1;
      if index == |metrics| {
        NoneRemain(runs, at);
        return next, true;
      }
    }
  }

  ghost function RootsAt(metrics: seq<CaptureMetrics>, at: seq<nat>): seq<ByteAddress>
    requires |at| == |metrics|
    requires forall i :: 0 <= i < |metrics| ==> at[i] < |metrics[i].potentialPointers|
  {
    seq(|metrics|, i requires 0 <= i < |metrics| => metrics[i].potentialPointers[at[i]].rootAddress)
  }

  method PointersMatch(metrics: seq<CaptureMetrics>, at: seq<nat>) returns (matches: bool)
    requires 0 < |metrics| == |at|
    requires forall i :: 0 <= i < |metrics| ==> at[i] < |metrics[i].potentialPointers|
    ensures matches <==> forall i :: 0 <= i < |metrics| ==> RootsAt(metrics, at)[i] == RootsAt(metrics, at)[0]
  {
    var address := metrics[0].potentialPointers[at[0]].rootAddress;
    for n := 1 to |metrics|
      invariant forall i :: 0 <= i < n ==> RootsAt(metrics, at)[i] == address
    {
      if metrics[n].potentialPointers[at[n]].rootAddress != address {
        assert RootsAt(metrics, at)[n] != RootsAt(metrics, at)[0];
        return false;
      }
    }
    matches := true;
  }

  // ----- Preparing a search level

  /** The members of each list: the links to the local target whose offset every capture shares. */
  ghost predicate HoldsSharedLinks(metrics: seq<CaptureMetrics>, captures: seq<seq<PointerValue>>,
                                   locals: seq<ByteAddress>)
    requires |metrics| == |captures| == |locals|
  {
    forall i, p :: 0 <= i < |metrics| ==>
                     (p in metrics[i].potentialPointers <==>
                      p in Links(captures[i], locals[i]) && SharedLinkOffset(captures, locals, FirstOffset(p)))
  }

  /** The lists hold exactly the links to the local targets. */
  ghost predicate HoldsLinks(metrics: seq<CaptureMetrics>, captures: seq<seq<PointerValue>>, locals: seq<ByteAddress>)
    requires |metrics| == |captures| == |locals|
  {
    forall i, p :: 0 <= i < |metrics| ==> (p in metrics[i].potentialPointers <==> p in Links(captures[i], locals[i]))
  }

  lemma SameMembers(v: seq<PotentialPointer>, w: seq<PotentialPointer>)
    requires multiset(v) == multiset([] + w)
    ensures forall p :: p in v <==> p in w
  {
    assert [] + w == w;
    forall p ensures p in v <==> p in w {
      assert p in multiset(v) <==> p in multiset(w);
    }
  }

  method CollectLinks(captures: seq<seq<PointerValue>>, locals: seq<ByteAddress>) returns (metrics: seq<CaptureMetrics>)
    requires |captures| == |locals|
    ensures |metrics| == |captures|
    ensures forall i :: 0 <= i < |metrics| ==> metrics[i].capture == captures[i]
    ensures forall i :: 0 <= i < |metrics| ==> Ascending(metrics[i].potentialPointers, FirstOffset)
    ensures HoldsLinks(metrics, captures, locals)
  {
    metrics := [];
    for n := 0 to |captures|
      invariant |metrics| == n
      invariant forall i :: 0 <= i < n ==> metrics[i].capture == captures[i]
      invariant forall i :: 0 <= i < n ==> Ascending(metrics[i].potentialPointers, FirstOffset)
      invariant forall i, p :: 0 <= i < n ==>
                                 (p in metrics[i].potentialPointers <==> p in Links(captures[i], locals[i]))
    {
      var pointers := InitializePotentialPointers([], captures[n], locals[n]);
      SameMembers(pointers, Links(captures[n], locals[n]));
      metrics := metrics + [CaptureMetrics(pointers, 0, 0, captures[n])];
    }
  }

  lemma SameOffsetSets(metrics: seq<CaptureMetrics>, captures: seq<seq<PointerValue>>, locals: seq<ByteAddress>)
    requires |metrics| == |captures| == |locals|
    requires HoldsLinks(metrics, captures, locals)
    ensures forall x :: SharedByAll(Lists(metrics), x) <==> SharedLinkOffset(captures, locals, x)
  {
    forall i | 0 <= i < |metrics| ensures OffsetSet(Lists(metrics)[i]) == OffsetSet(Links(captures[i], locals[i])) {
      assert forall p :: p in Lists(metrics)[i] <==> p in Links(captures[i], locals[i]);
    }
  }

  lemma ReductionPrepares(metrics: seq<CaptureMetrics>, r: seq<CaptureMetrics>, captures: seq<seq<PointerValue>>,
                          locals: seq<ByteAddress>)
    requires 0 < |metrics| == |r| == |captures| == |locals|
    requires forall i :: 0 <= i < |metrics| ==> metrics[i].capture == captures[i]
    requires forall i :: 0 <= i < |metrics| ==> Ascending(metrics[i].potentialPointers, FirstOffset)
    requires HoldsLinks(metrics, captures, locals)
    requires forall i :: 0 <= i < |r| ==>
                           r[i] == metrics[i].(potentialPointers := KeepOffsets(metrics[i].potentialPointers,
                                                                                SharedOffsets(metrics)))
    ensures Prepared(r, captures, locals)
    ensures HoldsSharedLinks(r, captures, locals)
  {
    SharedListsAgree(metrics, r);
    SameOffsetSets(metrics, captures, locals);
    forall i, k | 0 <= i < |r| && 0 <= k < |r[i].potentialPointers|
      ensures r[i].potentialPointers[k] in Links(captures[i], locals[i])
    {
      assert r[i].potentialPointers[k] in r[i].potentialPointers;
    }
  }

  /** Collects the links to a target in every capture and drops the offsets that are not shared. */
  method PrepareMetrics(captures: seq<seq<PointerValue>>, locals: seq<ByteAddress>) returns (r: seq<CaptureMetrics>)
    requires 0 < |captures| == |locals|
    ensures Prepared(r, captures, locals)
    ensures HoldsSharedLinks(r, captures, locals)
  {
    var metrics := CollectLinks(captures, locals);
    forall i, k | 0 <= i < |metrics| && 0 <= k < |metrics[i].potentialPointers|
      ensures InRange(FirstOffset(metrics[i].potentialPointers[k]))
    {
      assert metrics[i].potentialPointers[k] in metrics[i].potentialPointers;
      LinksMembers(captures[i], locals[i], metrics[i].potentialPointers[k]);
    }
    r := RemoveUnsharedOffsets(metrics);
    ReductionPrepares(metrics, r, captures, locals);
  }

  // ----- Recording a route

  /** A chain from `root` that is right in every capture. */
  ghost predicate GoodChain(q: Query, root: ByteAddress, chain: seq<int>, score: nat)
    requires |q.captures| == |q.targets|
  {
    && (forall k :: 0 <= k < |chain| ==> InRange(chain[k]))
    && score == SumScores(chain)
    && forall i :: 0 <= i < |q.captures| ==> Reaches(q.captures[i], root, chain, q.targets[i])
  }

  ghost predicate HasRoute(results: seq<PotentialPointer>, root: ByteAddress, score: nat, chain: seq<int>) {
    exists k :: 0 <= k < |results| && results[k].rootAddress == root && results[k].score == score
                && results[k].offsetLength == |chain| <= MAX_DEPTH && results[k].offsets[..|chain|] == chain
  }

  /** A route in place of a worse one from its root, or behind the others if there is none. */
  ghost function Put(results: seq<PotentialPointer>, n: nat, p: PotentialPointer): seq<PotentialPointer>
    requires n <= |results|
  {
    if n == |results| then results + [p] else results[n := p]
  }

  lemma PutRoute(results: seq<PotentialPointer>, n: nat, p: PotentialPointer, chain: seq<int>, q: Query)
    requires |q.captures| == |q.targets| && n <= |results|
    requires forall k :: 0 <= k < n ==> results[k].rootAddress != p.rootAddress
    requires n < |results| ==> results[n].rootAddress == p.rootAddress && p.score < results[n].score
    requires p.offsetLength == |chain| <= MAX_DEPTH && 1 <= |chain| && p.offsets[..|chain|] == chain
    ensures var r := Put(results, n, p);
            && Improves(results, r) && Recorded(r, p.rootAddress, p.score)
            && HasRoute(r, p.rootAddress, p.score, chain)
            && (UniqueRoots(results) ==> !Recorded(results, p.rootAddress, p.score))
            && (forall k :: 0 <= k < |results| && results[k].rootAddress != p.rootAddress ==> r[k] == results[k])
            && (ResultsOk(results, q.captures, q.targets) && GoodChain(q, p.rootAddress, chain, p.score) ==>
                  ResultsOk(r, q.captures, q.targets))
  {
    var r := Put(results, n, p);
    assert r[n] == p;
    if GoodChain(q, p.rootAddress, chain, p.score) {
      assert RouteOk(p, q.captures, q.targets) by {
        assert forall k :: 0 <= k < |chain| ==> p.offsets[k] == chain[k];
      }
    }
  }

  lemma KeptRoute(results: seq<PotentialPointer>, n: nat, root: ByteAddress, score: nat)
    requires n < |results| && results[n].rootAddress == root && results[n].score <= score
    ensures Recorded(results, root, score) && Improves(results, results)
  {
  }

  /** Adds the chain of `depth` offsets as a result, or replaces a worse one from the same root. */
  method RecordRoute(progress: AnalysisProgress, root: ByteAddress, score: nat, depth: nat, ghost q: Query)
    requires progress.Valid() && 1 <= depth <= MAX_DEPTH
    requires |q.captures| == |q.targets|
    modifies progress`results
    ensures progress.Valid() && progress.Chain(depth) == old(progress.Chain(depth))
    ensures Improves(old(progress.results), progress.results)
    ensures Recorded(progress.results, root, score)
    ensures old(UniqueRoots(progress.results)) ==>
              if old(Recorded(progress.results, root, score)) then progress.results == old(progress.results)
              else HasRoute(progress.results, root, score, progress.Chain(depth))
    ensures forall k :: 0 <= k < |old(progress.results)| && old(progress.results)[k].rootAddress != root ==>
                          progress.results[k] == old(progress.results)[k]
    ensures old(ResultsOk(progress.results, q.captures, q.targets))
            && GoodChain(q, root, progress.Chain(depth), score) ==>
              ResultsOk(progress.results, q.captures, q.targets)
  {
    var front := MAX_DEPTH - depth;
    ghost var before := progress.results;
    for n := 0 to |progress.results|
      invariant progress.results == before
      invariant forall k :: 0 <= k < n ==> before[k].rootAddress != root
    {
      var p := progress.results[n];
      if p.rootAddress == root {
        if score < p.score {
          var offsets := progress.offsets[front..] + p.offsets[depth..];
          assert offsets[..depth] == progress.Chain(depth);
          var better := PotentialPointer(root, score, depth, offsets);
          PutRoute(before, n, better, progress.Chain(depth), q);
          progress.results := progress.results[n := better];
        } else {
          KeptRoute(before, n, root, score);
        }
        return;
      }
    }
    var offsets := progress.offsets[front..] + seq(front, _ => 0);
    assert offsets[..depth] == progress.Chain(depth);
    var first := PotentialPointer(root, score, depth, offsets);
    PutRoute(before, |before|, first, progress.Chain(depth), q);
    progress.results := progress.results + [first];
  }

  /** Pointers at one offset survive the reduction to shared offsets. */
  lemma LinkedIsCommon(metrics: seq<CaptureMetrics>, captures: seq<seq<PointerValue>>, targets: seq<ByteAddress>,
                       roots: seq<ByteAddress>, offset: int)
    requires |metrics| == |captures| == |targets|
    requires HoldsSharedLinks(metrics, captures, targets)
    requires Linked(captures, roots, targets, offset)
    ensures Common(metrics, roots, offset)
  {
    forall i | 0 <= i < |metrics|
      ensures exists p :: p in Links(captures[i], targets[i]) && p.rootAddress == roots[i] && FirstOffset(p) == offset
    {
      assert PointsNear(captures[i], roots[i], targets[i], offset);
      var k :| 0 <= k < |captures[i]| && captures[i][k].address == roots[i]
               && LinkOffset(targets[i], captures[i][k].valueAsAddress) == offset;
      LinksMembers(captures[i], targets[i], Link(captures[i][k], targets[i]));
    }
    forall i | 0 <= i < |metrics| ensures HasPointer(metrics[i].potentialPointers, roots[i], offset) {
      var p :| p in Links(captures[i], targets[i]) && p.rootAddress == roots[i] && FirstOffset(p) == offset;
      assert SharedLinkOffset(captures, targets, offset);
      assert p in metrics[i].potentialPointers;
    }
  }

  lemma CommonForSameLists(a: seq<CaptureMetrics>, b: seq<CaptureMetrics>, roots: seq<ByteAddress>, offset: int)
    requires SameLists(b, a) && Common(a, roots, offset)
    ensures Common(b, roots, offset)
  {
    forall i | 0 <= i < |b| ensures HasPointer(b[i].potentialPointers, roots[i], offset) {
      assert HasPointer(a[i].potentialPointers, roots[i], offset);
    }
  }

  /** All chains that the candidates begin at one offset are dealt with. */
  ghost predicate AllHandled(metrics: seq<CaptureMetrics>, captures: seq<seq<PointerValue>>, f: Findings, score: nat,
                             depth: nat)
    requires 0 < |metrics| == |captures|
  {
    forall roots: seq<ByteAddress>, offset ::
      Common(metrics, roots, offset) ==> Handled(captures, roots, f, score + CalculateScore(offset), depth)
  }

  /** A level has no candidates left after the reduction exactly when it shares no offset. */
  lemma EmptyMeansUnreachable(metrics: seq<CaptureMetrics>, captures: seq<seq<PointerValue>>, locals: seq<ByteAddress>)
    requires Prepared(metrics, captures, locals) && HoldsSharedLinks(metrics, captures, locals)
    ensures metrics[0].potentialPointers == [] <==> SharesNoOffset(captures, locals)
  {
    var v := metrics[0].potentialPointers;
    if v == [] {
      forall offset ensures !SharedLinkOffset(captures, locals, offset) {
        if offset in OffsetSet(Links(captures[0], locals[0])) {
          var p :| p in Links(captures[0], locals[0]) && FirstOffset(p) == offset;
          assert p !in metrics[0].potentialPointers;
        }
      }
    } else {
      assert v[0] in metrics[0].potentialPointers;
      assert SharedLinkOffset(captures, locals, FirstOffset(v[0]));
    }
  }

  lemma LinkedSharesOffset(captures: seq<seq<PointerValue>>, roots: seq<ByteAddress>, locals: seq<ByteAddress>,
                           offset: int)
    requires |captures| == |locals| && Linked(captures, roots, locals, offset)
    ensures SharedLinkOffset(captures, locals, offset)
  {
    forall i | 0 <= i < |locals| ensures offset in OffsetSet(Links(captures[i], locals[i])) {
      assert PointsNear(captures[i], roots[i], locals[i], offset);
      var k :| 0 <= k < |captures[i]| && captures[i][k].address == roots[i]
               && LinkOffset(locals[i], captures[i][k].valueAsAddress) == offset;
      LinksMembers(captures[i], locals[i], Link(captures[i][k], locals[i]));
    }
  }

  lemma NothingLinked(captures: seq<seq<PointerValue>>, locals: seq<ByteAddress>, f: Findings, score: nat,
                      links: nat)
    requires 0 < |captures| == |locals| && SharesNoOffset(captures, locals)
    ensures Complete(captures, locals, f, score, links)
  {
    forall roots: seq<ByteAddress>, offset | Linked(captures, roots, locals, offset) ensures false {
      LinkedSharesOffset(captures, roots, locals, offset);
    }
  }

  /** A level that was walked to its end has dealt with all chains to its local targets. */
  lemma WalkedMeansComplete(prepared: seq<CaptureMetrics>, walked: seq<CaptureMetrics>,
                            captures: seq<seq<PointerValue>>, locals: seq<ByteAddress>, f: Findings, score: nat,
                            links: nat)
    requires Prepared(prepared, captures, locals) && HoldsSharedLinks(prepared, captures, locals)
    requires SameLists(walked, prepared) && AllHandled(walked, captures, f, score, links)
    ensures Complete(captures, locals, f, score, links)
  {
    forall roots: seq<ByteAddress>, offset | Linked(captures, roots, locals, offset)
      ensures Handled(captures, roots, f, score + CalculateScore(offset), links)
    {
      LinkedIsCommon(prepared, captures, locals, roots, offset);
      CommonForSameLists(prepared, walked, roots, offset);
    }
  }

  /** In particular it has recorded all pointers to them. */
  lemma CompleteRecordsLinks(captures: seq<seq<PointerValue>>, locals: seq<ByteAddress>, f: Findings, score: nat,
                             links: nat)
    requires 0 < |captures| == |locals| && Complete(captures, locals, f, score, links)
    ensures LinksRecorded(captures, locals, f.results, score)
  {
    forall root, offset ensures LinkRecorded(captures, locals, f.results, score, root, offset) {
      var roots := Everywhere(root, |captures|);
      if DirectPointer(Query(captures, locals), root, offset) {
        assert Handled(captures, roots, f, score + CalculateScore(offset), links);
        assert SameRoot(roots);
      }
    }
  }

  // ----- What a level finds

  /** The addresses of the pointers at which the captures stand. */
  method RootsOf(metrics: seq<CaptureMetrics>, at: seq<nat>) returns (roots: seq<ByteAddress>)
    requires |at| == |metrics|
    requires forall i :: 0 <= i < |metrics| ==> at[i] < |metrics[i].potentialPointers|
    ensures roots == RootsAt(metrics, at)
  {
    roots := [];
    for n := 0 to |metrics|
      invariant |roots| == n && forall i :: 0 <= i < n ==> roots[i] == RootsAt(metrics, at)[i]
    {
      roots := roots + [metrics[n].potentialPointers[at[n]].rootAddress];
    }
  }

  ghost predicate RunsInLists(metrics: seq<CaptureMetrics>) {
    forall i :: 0 <= i < |metrics| ==> metrics[i].stopPosition <= |metrics[i].potentialPointers|
  }

  ghost predicate Counted(metrics: seq<CaptureMetrics>, at: seq<nat>, n: nat)
  {
    && InRuns(Runs(metrics), at) && n <= Remaining(Runs(metrics), at)
    && |at| == |metrics| && forall i :: 0 <= i < |metrics| ==> at[i] < metrics[i].stopPosition
  }

  /** Every combination with at least `n` combinations after it has been dealt with. */
  ghost predicate Visited(metrics: seq<CaptureMetrics>, captures: seq<seq<PointerValue>>, f: Findings, score: nat,
                          depth: nat, n: nat)
    requires 0 < |metrics| == |captures| && RunsInLists(metrics)
  {
    forall at: seq<nat> :: Counted(metrics, at, n) ==> Handled(captures, RootsAt(metrics, at), f, score, depth)
  }

  lemma NothingBeforeStarts(metrics: seq<CaptureMetrics>, captures: seq<seq<PointerValue>>, f: Findings, score: nat,
                            depth: nat, at: seq<nat>)
    requires 0 < |metrics| == |captures| && RunsInLists(metrics)
    requires InRuns(Runs(metrics), at) && at == Starts(Runs(metrics))
    ensures Visited(metrics, captures, f, score, depth, Remaining(Runs(metrics), at) + 1)
  {
    forall c: seq<nat> | InRuns(Runs(metrics), c) ensures Remaining(Runs(metrics), c) <= Remaining(Runs(metrics), at) {
      StartsComeFirst(Runs(metrics), c);
    }
  }

  lemma VisitedOneMore(metrics: seq<CaptureMetrics>, captures: seq<seq<PointerValue>>, before: Findings,
                       after: Findings, q: Query, score: nat, depth: nat, at: seq<nat>)
    requires 0 < |metrics| == |captures| && RunsInLists(metrics)
    requires InRuns(Runs(metrics), at) && Counted(metrics, at, 0)
    requires Visited(metrics, captures, before, score, depth, Remaining(Runs(metrics), at) + 1)
    requires |q.captures| == |q.targets| && Grown(before, after, q)
    requires Handled(captures, RootsAt(metrics, at), after, score, depth)
    ensures Visited(metrics, captures, after, score, depth, Remaining(Runs(metrics), at))
  {
    GrownKeeps(before, after, q);
    forall c: seq<nat> | Counted(metrics, c, Remaining(Runs(metrics), at))
      ensures Handled(captures, RootsAt(metrics, c), after, score, depth)
    {
      if Remaining(Runs(metrics), c) == Remaining(Runs(metrics), at) {
        RemainingIsInjective(Runs(metrics), c, at);
      } else {
        assert Counted(metrics, c, Remaining(Runs(metrics), at) + 1);
        HandledSurvives(captures, RootsAt(metrics, c), before, after, score, depth);
      }
    }
  }

  lemma AllVisited(metrics: seq<CaptureMetrics>, captures: seq<seq<PointerValue>>, f: Findings, score: nat,
                   depth: nat)
    requires 0 < |metrics| == |captures| && RunsInLists(metrics)
    requires Visited(metrics, captures, f, score, depth, 0)
    ensures forall roots: seq<ByteAddress> ::
              RootsInRuns(metrics, roots) ==> Handled(captures, roots, f, score, depth)
  {
    forall roots: seq<ByteAddress> | RootsInRuns(metrics, roots) ensures Handled(captures, roots, f, score, depth) {
      assert forall i :: 0 <= i < |metrics| ==> SomeInRun(metrics[i], roots[i]);
      var at: seq<nat> :=
        seq(|metrics|, i requires 0 <= i < |metrics| => (var k: nat :| InRun(metrics[i], roots[i], k); k));
      assert forall i :: 0 <= i < |metrics| ==> InRun(metrics[i], roots[i], at[i]);
      assert Counted(metrics, at, 0);
      assert RootsAt(metrics, at) == roots;
    }
  }

  /** Every pointer of the current runs extends the fixed chain by one step. */
  lemma RunsAreAnchored(metrics: seq<CaptureMetrics>, at: seq<nat>, q: Query, locals: seq<ByteAddress>, above: seq<int>,
                        offset: int)
    requires Prepared(metrics, q.captures, locals) && InRuns(Runs(metrics), at)
    requires Aligned(metrics, offset)
    requires Anchored(q, locals, above)
    ensures Anchored(q, RootsAt(metrics, at), [offset] + above)
  {
    forall i | 0 <= i < |metrics|
      ensures InRange(offset)
      ensures Reaches(q.captures[i], RootsAt(metrics, at)[i], [offset] + above, q.targets[i])
    {
      LinkReaches(q.captures[i], locals[i], metrics[i].potentialPointers[at[i]], above, q.targets[i]);
    }
    assert InRange(offset) by {
      assert 0 < |metrics|;
      var i := 0;
      assert Runs(metrics)[i].start <= at[i];
      LinkReaches(q.captures[i], locals[i], metrics[i].potentialPointers[at[i]], above, q.targets[i]);
    }
  }

  // ----- What a walk has dealt with

  ghost predicate HandledBelow(metrics: seq<CaptureMetrics>, captures: seq<seq<PointerValue>>, f: Findings, score: nat,
                               depth: nat, bound: int)
    requires 0 < |metrics| == |captures|
  {
    forall roots: seq<ByteAddress>, offset ::
      offset < bound && Common(metrics, roots, offset) ==>
        Handled(captures, roots, f, score + CalculateScore(offset), depth)
  }

  lemma HandledForSameLists(a: seq<CaptureMetrics>, b: seq<CaptureMetrics>, captures: seq<seq<PointerValue>>,
                            f: Findings, score: nat, depth: nat, bound: int)
    requires 0 < |a| == |captures| && SameLists(a, b) && HandledBelow(a, captures, f, score, depth, bound)
    ensures HandledBelow(b, captures, f, score, depth, bound)
  {
    forall roots: seq<ByteAddress>, offset | offset < bound && Common(b, roots, offset)
      ensures Common(a, roots, offset)
    {
      CommonForSameLists(b, a, roots, offset);
    }
  }

  lemma NothingBelowRange(metrics: seq<CaptureMetrics>, captures: seq<seq<PointerValue>>, locals: seq<ByteAddress>,
                          f: Findings, score: nat, depth: nat, bound: int)
    requires Prepared(metrics, captures, locals) && bound == -MAX_OFFSET
    requires forall i :: 0 <= i < |metrics| ==> metrics[i].position == 0
    ensures Divided(metrics, bound) && HandledBelow(metrics, captures, f, score, depth, bound)
  {
    forall i, k | 0 <= i < |metrics| && 0 <= k < |metrics[i].potentialPointers|
      ensures InRange(FirstOffset(metrics[i].potentialPointers[k]))
    {
      LinksMembers(captures[i], locals[i], metrics[i].potentialPointers[k]);
    }
    forall roots: seq<ByteAddress>, offset | Common(metrics, roots, offset) ensures -MAX_OFFSET < offset {
      assert HasPointer(metrics[0].potentialPointers, roots[0], offset);
    }
  }

  method ResetPositions(metrics: seq<CaptureMetrics>) returns (r: seq<CaptureMetrics>)
    ensures SameLists(r, metrics)
    ensures forall i :: 0 <= i < |r| ==> r[i].position == 0
  {
    r := metrics;
    for n := 0 to |metrics|
      invariant SameLists(r, metrics)
      invariant forall i :: 0 <= i < n ==> r[i].position == 0
    {
      r := r[n := r[n].(position := 0)];
    }
  }

  /** Moves every position to the end of its run. */
  method SkipRuns(metrics: seq<CaptureMetrics>) returns (r: seq<CaptureMetrics>)
    ensures SameLists(r, metrics)
    ensures forall i :: 0 <= i < |r| ==> r[i].position == metrics[i].stopPosition
  {
    r := metrics;
    for n := 0 to |metrics|
      invariant SameLists(r, metrics)
      invariant forall i :: 0 <= i < n ==> r[i].position == metrics[i].stopPosition
      invariant forall i :: n <= i < |r| ==> r[i] == metrics[i]
    {
      r := r[n := r[n].(position := metrics[n].stopPosition)];
    }
  }

  lemma StandsInRun(m: CaptureMetrics, root: ByteAddress, o: int, bound: int, offset: int)
    requires HasPointer(m.potentialPointers, root, o) && bound <= o < offset + 1
    requires DividedAt(m.potentialPointers, m.position, bound)
    requires DividedAt(m.potentialPointers, m.position, offset)
    requires DividedAt(m.potentialPointers, m.stopPosition, offset + 1)
    ensures o == offset && SomeInRun(m, root)
  {
    var k: nat :| k < |m.potentialPointers| && m.potentialPointers[k].rootAddress == root
                  && FirstOffset(m.potentialPointers[k]) == o;
    assert InRun(m, root, k);
  }

  /** Roots common to all lists at an offset between the bound and the one marked are in the runs marked. */
  lemma CommonInRuns(metrics: seq<CaptureMetrics>, marked: seq<CaptureMetrics>, roots: seq<ByteAddress>, o: int,
                     bound: int, offset: int)
    requires 0 < |metrics| && SameLists(marked, metrics) && Divided(marked, bound)
    requires forall i :: 0 <= i < |marked| ==> DividedAt(marked[i].potentialPointers, marked[i].position, offset)
    requires forall i :: 0 <= i < |marked| ==>
                           DividedAt(marked[i].potentialPointers, marked[i].stopPosition, offset + 1)
    requires bound <= o < offset + 1 && Common(metrics, roots, o)
    ensures o == offset && RootsInRuns(marked, roots)
  {
    forall i | 0 <= i < |marked|
      ensures o == offset && SomeInRun(marked[i], roots[i])
    {
      assert HasPointer(metrics[i].potentialPointers, roots[i], o);
      StandsInRun(marked[i], roots[i], o, bound, offset);
    }
    assert SomeInRun(marked[0], roots[0]);
  }

  /** After one run of the offset `offset`, everything up to that offset is dealt with. */
  lemma HandledOneMore(metrics: seq<CaptureMetrics>, marked: seq<CaptureMetrics>, captures: seq<seq<PointerValue>>,
                       before: Findings, after: Findings, q: Query, score: nat, depth: nat, bound: int, offset: int)
    requires 0 < |metrics| == |captures| && SameLists(marked, metrics)
    requires forall i :: 0 <= i < |marked| ==> DividedAt(marked[i].potentialPointers, marked[i].position, offset)
    requires forall i :: 0 <= i < |marked| ==>
                           DividedAt(marked[i].potentialPointers, marked[i].stopPosition, offset + 1)
    requires Divided(marked, bound)
    requires HandledBelow(metrics, captures, before, score, depth, bound)
    requires |q.captures| == |q.targets| && Grown(before, after, q)
    requires forall roots: seq<ByteAddress> ::
               RootsInRuns(marked, roots) ==> Handled(captures, roots, after, score + CalculateScore(offset), depth)
    ensures HandledBelow(metrics, captures, after, score, depth, offset + 1)
  {
    GrownKeeps(before, after, q);
    forall roots: seq<ByteAddress>, o | o < offset + 1 && Common(metrics, roots, o)
      ensures Handled(captures, roots, after, score + CalculateScore(o), depth)
    {
      if o < bound {
        HandledSurvives(captures, roots, before, after, score + CalculateScore(o), depth);
      } else {
        CommonInRuns(metrics, marked, roots, o, bound, offset);
      }
    }
  }

  /** After the runs of one offset were examined and left behind. */
  lemma WalkedOneMore(metrics: seq<CaptureMetrics>, marked: seq<CaptureMetrics>, moved: seq<CaptureMetrics>,
                      before: Findings, after: Findings, q: Query, score: nat, newScore: nat, depth: nat, bound: int,
                      offset: int, nextBound: int)
    requires 0 < |metrics| == |q.captures| == |q.targets| && SameLists(marked, metrics) && SameLists(moved, marked)
    requires newScore == score + CalculateScore(offset) && nextBound == offset + 1
    requires forall i :: 0 <= i < |moved| ==> moved[i].position == marked[i].stopPosition
    requires RunsMarked(marked, offset) && Divided(marked, bound) && RunsInLists(marked)
    requires Visited(marked, q.captures, after, newScore, depth, 0)
    requires HandledBelow(metrics, q.captures, before, score, depth, bound) && Grown(before, after, q)
    ensures Divided(moved, nextBound) && HandledBelow(moved, q.captures, after, score, depth, nextBound)
  {
    AllVisited(marked, q.captures, after, newScore, depth);
    HandledOneMore(metrics, marked, q.captures, before, after, q, score, depth, bound, offset);
    HandledForSameLists(metrics, moved, q.captures, after, score, depth, nextBound);
  }

  /** A walk is over when the first capture has no run left. */
  lemma WalkIsOver(metrics: seq<CaptureMetrics>, captures: seq<seq<PointerValue>>, f: Findings, score: nat,
                   depth: nat, bound: int)
    requires 0 < |metrics| == |captures| && Divided(metrics, bound)
    requires HandledBelow(metrics, captures, f, score, depth, bound)
    requires metrics[0].position == |metrics[0].potentialPointers|
    ensures AllHandled(metrics, captures, f, score, depth)
  {
    forall roots: seq<ByteAddress>, offset | Common(metrics, roots, offset) ensures offset < bound {
      assert HasPointer(metrics[0].potentialPointers, roots[0], offset);
    }
  }

  // ----- The recursion

  /** Looks for chains that point at the current pointers, unless a memo rules them out. */
  method TryLongerChains(state: AnalysisState, metrics: seq<CaptureMetrics>, at: seq<nat>, ghost q: Query)
    requires state.progress.Valid() && !state.progress.aborted && state.progress.Justified(q)
    requires 1 <= state.depth < MAX_DEPTH && state.links == state.depth + 1
    requires 0 < |q.captures| == |q.targets| == |metrics| == |at|
    requires forall i :: 0 <= i < |metrics| ==> at[i] < |metrics[i].potentialPointers|
    requires forall i :: 0 <= i < |metrics| ==> metrics[i].capture == q.captures[i]
    requires Anchored(q, RootsAt(metrics, at), state.progress.Chain(state.depth))
    requires state.score == SumScores(state.progress.Chain(state.depth))
    modifies state`captureMetrics, state.progress, state.progress.offsets, state.progress.deadEndAddresses
    ensures state.progress.Valid()
    ensures state.progress.Chain(state.depth) == old(state.progress.Chain(state.depth))
    ensures !state.progress.aborted ==> state.progress.Justified(q)
    ensures Grown(old(state.progress.Found()), state.progress.Found(), q)
    ensures forall d :: 0 <= d < state.depth ==>
                          state.progress.deadEndAddresses[d] == old(state.progress.deadEndAddresses[d])
    ensures !state.progress.aborted && |state.progress.results| == |old(state.progress.results)| ==>
              var root := RootsAt(metrics, at)[0];
              root in state.progress.unreachableAddresses || root in state.progress.deadEndAddresses[state.depth]
    ensures forall x :: x in state.progress.deadEndAddresses[state.depth] ==>
                          || x in old(state.progress.deadEndAddresses[state.depth])
                          || (x == RootsAt(metrics, at)[0] && |state.progress.results| == |old(state.progress.results)|)
    ensures var root, progress := RootsAt(metrics, at)[0], state.progress;
            if root in old(progress.unreachableAddresses) || root in old(progress.deadEndAddresses[state.depth])
            then progress.Found() == old(progress.Found()).(skipped := old(progress.skipped) + {(state.depth, root)})
            else
              || progress.aborted
              || Complete(q.captures, RootsAt(metrics, at), progress.Found(), state.score, state.links)
    decreases MAX_DEPTH - state.depth, 6
  {
    var progress, depth := state.progress, state.depth;
    var root := metrics[0].potentialPointers[at[0]].rootAddress;
    var unreachable := BinarySearch(progress.unreachableAddresses, Self, root);
    if unreachable {
      progress.Skip(depth, root, q);
      return;
    }
    var deadEnd := BinarySearch(progress.deadEndAddresses[depth], Self, root);
    if deadEnd {
      progress.Skip(depth, root, q);
      return;
    }
    var captures := seq(|metrics|, i requires 0 <= i < |metrics| => metrics[i].capture);
    var locals := RootsOf(metrics, at);
    assert captures == q.captures;
    SearchChains(state, captures, locals, q);
  }

  /** Looks for chains to new local targets, and notes in a memo when there are none. */
  method SearchChains(state: AnalysisState, captures: seq<seq<PointerValue>>, locals: seq<ByteAddress>, ghost q: Query)
    requires state.progress.Valid() && !state.progress.aborted && state.progress.Justified(q)
    requires 1 <= state.depth < MAX_DEPTH && state.links == state.depth + 1
    requires captures == q.captures && 0 < |captures| == |q.targets| == |locals|
    requires Anchored(q, locals, state.progress.Chain(state.depth))
    requires state.score == SumScores(state.progress.Chain(state.depth))
    modifies state`captureMetrics, state.progress, state.progress.offsets, state.progress.deadEndAddresses
    ensures state.progress.Valid()
    ensures state.progress.Chain(state.depth) == old(state.progress.Chain(state.depth))
    ensures !state.progress.aborted ==> state.progress.Justified(q)
    ensures Grown(old(state.progress.Found()), state.progress.Found(), q)
    ensures forall d :: 0 <= d < state.depth ==>
                          state.progress.deadEndAddresses[d] == old(state.progress.deadEndAddresses[d])
    ensures SharesNoOffset(captures, locals) ==>
              && locals[0] in state.progress.unreachableAddresses
              && state.progress.Found() == old(state.progress.Found())
              && state.progress.deadEndAddresses[state.depth] == old(state.progress.deadEndAddresses[state.depth])
    ensures !SharesNoOffset(captures, locals) ==>
              forall x :: x in state.progress.deadEndAddresses[state.depth] <==>
                          || x in old(state.progress.deadEndAddresses[state.depth])
                          || (x == locals[0] && |state.progress.results| == |old(state.progress.results)|)
    ensures !state.progress.aborted ==> Complete(captures, locals, state.progress.Found(), state.score, state.links)
    decreases MAX_DEPTH - state.depth, 5
  {
    var progress := state.progress;
    var prepared := PrepareMetrics(captures, locals);
    state.captureMetrics := prepared;
    EmptyMeansUnreachable(prepared, captures, locals);
    if prepared[0].potentialPointers == [] {
      NothingLinked(captures, locals, progress.Found(), state.score, state.links);
      assert IsLevel(q, locals, progress.Chain(state.depth), locals[0]);
      progress.MarkUnreachable(locals[0], q);
    } else {
      var foundPointers := |progress.results|;
      AnalyzeState(state, q, locals);
      if !progress.aborted {
        WalkedMeansComplete(prepared, state.captureMetrics, captures, locals, progress.Found(), state.score,
                            state.links);
        assert IsLevel(q, locals, progress.Chain(state.depth), locals[0]);
      }
      if |progress.results| == foundPointers {
        progress.MarkDeadEnd(state.depth, locals[0], q);
      }
    }
  }

  /** Records a route when all captures stand at the same address, and otherwise looks for depth chains. */
  method ExamineCombination(state: AnalysisState, metrics: seq<CaptureMetrics>, at: seq<nat>, ghost q: Query)
    requires state.progress.Valid() && !state.progress.aborted && state.progress.Justified(q)
    requires 1 <= state.depth <= MAX_DEPTH && state.links == state.depth + 1
    requires 0 < |q.captures| == |q.targets| == |metrics| == |at|
    requires forall i :: 0 <= i < |metrics| ==> at[i] < |metrics[i].potentialPointers|
    requires forall i :: 0 <= i < |metrics| ==> metrics[i].capture == q.captures[i]
    requires Anchored(q, RootsAt(metrics, at), state.progress.Chain(state.depth))
    requires state.score == SumScores(state.progress.Chain(state.depth))
    modifies state`captureMetrics, state.progress, state.progress.offsets, state.progress.deadEndAddresses
    ensures state.progress.Valid()
    ensures state.progress.Chain(state.depth) == old(state.progress.Chain(state.depth))
    ensures !state.progress.aborted ==> state.progress.Justified(q)
    ensures Grown(old(state.progress.Found()), state.progress.Found(), q)
    ensures forall d :: 0 <= d < state.depth ==>
                          state.progress.deadEndAddresses[d] == old(state.progress.deadEndAddresses[d])
    ensures !state.progress.aborted ==>
              Handled(q.captures, RootsAt(metrics, at), state.progress.Found(), state.score,
                      state.depth)
    ensures !state.progress.aborted && !SameRoot(RootsAt(metrics, at)) && state.depth < MAX_DEPTH
            && |state.progress.results| == |old(state.progress.results)| ==>
              var root := RootsAt(metrics, at)[0];
              root in state.progress.unreachableAddresses || root in state.progress.deadEndAddresses[state.depth]
    ensures state.depth < MAX_DEPTH ==>
              forall x :: x in state.progress.deadEndAddresses[state.depth] ==>
                            || x in old(state.progress.deadEndAddresses[state.depth])
                            || (x == RootsAt(metrics, at)[0] && !SameRoot(RootsAt(metrics, at))
                                && |state.progress.results| == |old(state.progress.results)|)
    decreases MAX_DEPTH - state.depth, 7
  {
    var matches := PointersMatch(metrics, at);
    if matches {
      ghost var before := state.progress.Found();
      RecordRoute(state.progress, metrics[0].potentialPointers[at[0]].rootAddress, state.score, state.depth, q);
      GrownKeeps(before, state.progress.Found(), q);
      MemosStayJustified(state.progress.unreachableAddresses, state.progress.deadEndAddresses[..], before,
                         state.progress.Found(), q);
    } else if state.depth < MAX_DEPTH {
      TryLongerChains(state, metrics, at, q);
    }
  }

  /** Examines every combination of one pointer per capture within the current runs. */
  method ExamineCombinations(state: AnalysisState, metrics: seq<CaptureMetrics>, ghost q: Query,
                             ghost locals: seq<ByteAddress>,
                             ghost above: seq<int>, ghost offset: int)
    requires state.progress.Valid() && !state.progress.aborted && state.progress.Justified(q)
    requires 1 <= state.depth <= MAX_DEPTH && state.links == state.depth + 1 && |q.captures| == |q.targets|
    requires Prepared(metrics, q.captures, locals) && Aligned(metrics, offset)
    requires Anchored(q, locals, above) && state.progress.Chain(state.depth) == [offset] + above
    requires state.score == SumScores(state.progress.Chain(state.depth))
    modifies state`captureMetrics, state.progress, state.progress.offsets, state.progress.deadEndAddresses
    ensures state.progress.Valid()
    ensures state.progress.Chain(state.depth) == old(state.progress.Chain(state.depth))
    ensures !state.progress.aborted ==> state.progress.Justified(q)
    ensures Grown(old(state.progress.Found()), state.progress.Found(), q)
    ensures forall d :: 0 <= d < state.depth ==>
                          state.progress.deadEndAddresses[d] == old(state.progress.deadEndAddresses[d])
    ensures !state.progress.aborted ==>
              Visited(metrics, q.captures, state.progress.Found(), state.score, state.depth, 0)
    decreases MAX_DEPTH - state.depth, 9
  {
    var progress := state.progress;
    ghost var runs, start := Runs(metrics), progress.Found();
    var at: seq<nat> := seq(|metrics|, i requires 0 <= i < |metrics| => metrics[i].position);
    StartsComeFirst(runs, at);
    assert at == Starts(runs);
    NothingBeforeStarts(metrics, q.captures, start, state.score, state.depth, at);
    while true
      invariant progress.Valid() && !progress.aborted && progress.Justified(q)
      invariant InRuns(runs, at)
      invariant progress.Chain(state.depth) == [offset] + above
      invariant Grown(start, progress.Found(), q)
      invariant forall d :: 0 <= d < state.depth ==>
                              progress.deadEndAddresses[d] == old(progress.deadEndAddresses[d])
      invariant Visited(metrics, q.captures, progress.Found(), state.score, state.depth, Remaining(runs, at) + 1)
      decreases Remaining(runs, at)
    {
      ghost var before := progress.Found();
      ExamineNext(state, metrics, at, q, locals, above, offset);
      GrownTransitive(start, before, progress.Found(), q);
      if progress.aborted {
        return;
      }
      var next, done := NextCombination(metrics, at);
      if done {
        return;
      }
      at := next;
    }
  }

  /** Examines one combination more. */
  method ExamineNext(state: AnalysisState, metrics: seq<CaptureMetrics>, at: seq<nat>, ghost q: Query,
                     ghost locals: seq<ByteAddress>, ghost above: seq<int>, ghost offset: int)
    requires state.progress.Valid() && !state.progress.aborted && state.progress.Justified(q)
    requires 1 <= state.depth <= MAX_DEPTH && state.links == state.depth + 1 && |q.captures| == |q.targets|
    requires Prepared(metrics, q.captures, locals) && Aligned(metrics, offset)
    requires Anchored(q, locals, above) && state.progress.Chain(state.depth) == [offset] + above
    requires state.score == SumScores(state.progress.Chain(state.depth))
    requires InRuns(Runs(metrics), at)
    requires Visited(metrics, q.captures, state.progress.Found(), state.score, state.depth,
                     Remaining(Runs(metrics), at) + 1)
    modifies state`captureMetrics, state.progress, state.progress.offsets, state.progress.deadEndAddresses
    ensures state.progress.Valid()
    ensures state.progress.Chain(state.depth) == old(state.progress.Chain(state.depth))
    ensures !state.progress.aborted ==> state.progress.Justified(q)
    ensures Grown(old(state.progress.Found()), state.progress.Found(), q)
    ensures forall d :: 0 <= d < state.depth ==>
                          state.progress.deadEndAddresses[d] == old(state.progress.deadEndAddresses[d])
    ensures !state.progress.aborted ==>
              Visited(metrics, q.captures, state.progress.Found(), state.score, state.depth,
                      Remaining(Runs(metrics), at))
    decreases MAX_DEPTH - state.depth, 8
  {
    ghost var before := state.progress.Found();
    RunsAreAnchored(metrics, at, q, locals, above, offset);
    ExamineCombination(state, metrics, at, q);
    if !state.progress.aborted {
      VisitedOneMore(metrics, q.captures, before, state.progress.Found(), q, state.score, state.depth, at);
    }
  }

  /** Extends the chain by the shared offset of the current runs and examines their combinations. */
  method ProcessSharedOffset(state: AnalysisState, ghost q: Query, ghost locals: seq<ByteAddress>,
                             ghost metrics: seq<CaptureMetrics>, ghost offset: int, ghost newScore: nat)
    requires state.progress.Valid() && !state.progress.aborted && state.progress.Justified(q)
    requires state.depth < MAX_DEPTH && state.links == state.depth + 1 && |q.captures| == |q.targets|
    requires state.captureMetrics == metrics && Prepared(metrics, q.captures, locals)
    requires Anchored(q, locals, state.progress.Chain(state.depth))
    requires state.score == SumScores(state.progress.Chain(state.depth))
    requires metrics[0].position < |metrics[0].potentialPointers|
    requires offset == FirstOffset(metrics[0].potentialPointers[metrics[0].position]) && Aligned(metrics, offset)
    requires newScore == state.score + CalculateScore(offset)
    modifies state.progress, state.progress.offsets, state.progress.deadEndAddresses
    ensures state.progress.Valid()
    ensures state.progress.Chain(state.depth) == old(state.progress.Chain(state.depth))
    ensures !state.progress.aborted ==> state.progress.Justified(q)
    ensures Grown(old(state.progress.Found()), state.progress.Found(), q)
    ensures forall d :: 0 <= d <= state.depth ==>
                          state.progress.deadEndAddresses[d] == old(state.progress.deadEndAddresses[d])
    ensures !state.progress.aborted ==>
              Visited(metrics, q.captures, state.progress.Found(), newScore, state.links, 0)
    decreases MAX_DEPTH - state.depth, 0
  {
    var progress, captureMetrics := state.progress, state.captureMetrics;
    var nOffset := FirstOffset(captureMetrics[0].potentialPointers[captureMetrics[0].position]);
    var depth := state.depth + 1;
    ghost var above := progress.Chain(state.depth);
    progress.offsets[MAX_DEPTH - depth] := nOffset;
    assert progress.Chain(depth) == [offset] + above;
    var score := state.score + CalculateScore(nOffset);
    var newState := new AnalysisState(progress, [], score, depth);
    ExamineCombinations(newState, captureMetrics, q, locals, above, offset);
    assert newState.score == newScore && newState.depth == state.links;
    assert progress.Chain(state.depth) == progress.Chain(depth)[1..];
  }

  /** One turn of the walk: processes the next shared offset and moves past its runs. */
  method AnalyzeNextOffset(state: AnalysisState, ghost q: Query, ghost locals: seq<ByteAddress>, ghost bound: int)
    returns (found: bool, ghost nextBound: int)
    requires state.progress.Valid() && !state.progress.aborted && state.progress.Justified(q)
    requires state.depth < MAX_DEPTH && state.links == state.depth + 1 && |q.captures| == |q.targets|
    requires Prepared(state.captureMetrics, q.captures, locals)
    requires Anchored(q, locals, state.progress.Chain(state.depth))
    requires state.score == SumScores(state.progress.Chain(state.depth))
    requires Divided(state.captureMetrics, bound)
    requires HandledBelow(state.captureMetrics, q.captures, state.progress.Found(), state.score,
                          state.links, bound)
    modifies state`captureMetrics, state.progress, state.progress.offsets, state.progress.deadEndAddresses
    ensures state.progress.Valid()
    ensures state.progress.Chain(state.depth) == old(state.progress.Chain(state.depth))
    ensures !state.progress.aborted ==> state.progress.Justified(q)
    ensures Grown(old(state.progress.Found()), state.progress.Found(), q)
    ensures forall d :: 0 <= d <= state.depth ==>
                          state.progress.deadEndAddresses[d] == old(state.progress.deadEndAddresses[d])
    ensures SameLists(state.captureMetrics, old(state.captureMetrics))
    ensures !found ==>
              && !state.progress.aborted && nextBound == bound
              && state.captureMetrics[0].position == |state.captureMetrics[0].potentialPointers|
    ensures found && !state.progress.aborted ==>
              old(state.captureMetrics[0].position) < state.captureMetrics[0].position
    ensures !state.progress.aborted ==>
              && Divided(state.captureMetrics, nextBound)
              && HandledBelow(state.captureMetrics, q.captures, state.progress.Found(), state.score,
                              state.links, nextBound)
    decreases MAX_DEPTH - state.depth, 2
  {
    var progress := state.progress;
    var marked;
    found, marked := FindSharedOffset(state.captureMetrics, bound);
    nextBound := bound;
    if !found {
      return;
    }
    nextBound := AnalyzeRuns(state, marked, q, locals, bound);
    if !progress.aborted {
      progress.CountCheck();
    }
  }

  /** Analyzes the runs that were marked and moves behind them. */
  method AnalyzeRuns(state: AnalysisState, marked: seq<CaptureMetrics>, ghost q: Query, ghost locals: seq<ByteAddress>,
                     ghost bound: int)
    returns (ghost nextBound: int)
    requires state.progress.Valid() && !state.progress.aborted && state.progress.Justified(q)
    requires state.depth < MAX_DEPTH && state.links == state.depth + 1 && |q.captures| == |q.targets|
    requires Prepared(marked, q.captures, locals) && SameLists(marked, state.captureMetrics) && Divided(marked, bound)
    requires Anchored(q, locals, state.progress.Chain(state.depth))
    requires state.score == SumScores(state.progress.Chain(state.depth))
    requires HandledBelow(state.captureMetrics, q.captures, state.progress.Found(), state.score,
                          state.links, bound)
    requires marked[0].position < |marked[0].potentialPointers|
    requires RunsMarked(marked, FirstOffset(marked[0].potentialPointers[marked[0].position]))
    modifies state`captureMetrics, state.progress, state.progress.offsets, state.progress.deadEndAddresses
    ensures state.progress.Valid()
    ensures state.progress.Chain(state.depth) == old(state.progress.Chain(state.depth))
    ensures !state.progress.aborted ==> state.progress.Justified(q)
    ensures Grown(old(state.progress.Found()), state.progress.Found(), q)
    ensures forall d :: 0 <= d <= state.depth ==>
                          state.progress.deadEndAddresses[d] == old(state.progress.deadEndAddresses[d])
    ensures SameLists(state.captureMetrics, marked)
    ensures !state.progress.aborted ==>
              && state.captureMetrics[0].position == marked[0].stopPosition
              && Divided(state.captureMetrics, nextBound)
              && HandledBelow(state.captureMetrics, q.captures, state.progress.Found(), state.score,
                              state.links, nextBound)
    decreases MAX_DEPTH - state.depth, 1
  {
    ghost var metrics, before := state.captureMetrics, state.progress.Found();
    ghost var offset := FirstOffset(marked[0].potentialPointers[marked[0].position]);
    state.captureMetrics := marked;
    nextBound := offset + 1;
    ghost var newScore := state.score + CalculateScore(offset);
    ProcessSharedOffset(state, q, locals, marked, offset, newScore);
    if !state.progress.aborted {
      state.captureMetrics := SkipRuns(marked);
      WalkedOneMore(metrics, marked, state.captureMetrics, before, state.progress.Found(), q, state.score, newScore,
                    state.links, bound, offset, nextBound);
    }
  }

  /** Walks the aligned runs of every capture in ascending order of offset. */
  method AnalyzeState(state: AnalysisState, ghost q: Query, ghost locals: seq<ByteAddress>)
    requires state.progress.Valid() && !state.progress.aborted && state.progress.Justified(q)
    requires state.depth < MAX_DEPTH && state.links == state.depth + 1 && |q.captures| == |q.targets|
    requires Prepared(state.captureMetrics, q.captures, locals)
    requires Anchored(q, locals, state.progress.Chain(state.depth))
    requires state.score == SumScores(state.progress.Chain(state.depth))
    modifies state`captureMetrics, state.progress, state.progress.offsets, state.progress.deadEndAddresses
    ensures state.progress.Valid()
    ensures state.progress.Chain(state.depth) == old(state.progress.Chain(state.depth))
    ensures !state.progress.aborted ==> state.progress.Justified(q)
    ensures Grown(old(state.progress.Found()), state.progress.Found(), q)
    ensures forall d :: 0 <= d <= state.depth ==>
                          state.progress.deadEndAddresses[d] == old(state.progress.deadEndAddresses[d])
    ensures SameLists(state.captureMetrics, old(state.captureMetrics))
    ensures !state.progress.aborted ==>
              AllHandled(state.captureMetrics, q.captures, state.progress.Found(), state.score,
                         state.links)
    ensures !state.progress.aborted && state.progress.hasCallback && state.depth < 2 ==>
              exists n :: state.progress.answers(n)
    decreases MAX_DEPTH - state.depth, 4
  {
    state.captureMetrics := ResetPositions(state.captureMetrics);
    ghost var first := -MAX_OFFSET;
    NothingBelowRange(state.captureMetrics, q.captures, locals, state.progress.Found(), state.score, state.links,
                      first);
    WalkRuns(state, q, locals, first);
    if !state.progress.aborted && state.progress.hasCallback && state.depth < 2 {
      state.progress.CallProgress();
    }
  }

  /** Analyzes one run after the other until none is left. */
  method WalkRuns(state: AnalysisState, ghost q: Query, ghost locals: seq<ByteAddress>, ghost first: int)
    requires state.progress.Valid() && !state.progress.aborted && state.progress.Justified(q)
    requires state.depth < MAX_DEPTH && state.links == state.depth + 1 && |q.captures| == |q.targets|
    requires Prepared(state.captureMetrics, q.captures, locals)
    requires Anchored(q, locals, state.progress.Chain(state.depth))
    requires state.score == SumScores(state.progress.Chain(state.depth))
    requires Divided(state.captureMetrics, first)
    requires HandledBelow(state.captureMetrics, q.captures, state.progress.Found(), state.score,
                          state.links, first)
    modifies state`captureMetrics, state.progress, state.progress.offsets, state.progress.deadEndAddresses
    ensures state.progress.Valid()
    ensures state.progress.Chain(state.depth) == old(state.progress.Chain(state.depth))
    ensures !state.progress.aborted ==> state.progress.Justified(q)
    ensures Grown(old(state.progress.Found()), state.progress.Found(), q)
    ensures forall d :: 0 <= d <= state.depth ==>
                          state.progress.deadEndAddresses[d] == old(state.progress.deadEndAddresses[d])
    ensures SameLists(state.captureMetrics, old(state.captureMetrics))
    ensures !state.progress.aborted ==>
              AllHandled(state.captureMetrics, q.captures, state.progress.Found(), state.score,
                         state.links)
    decreases MAX_DEPTH - state.depth, 3
  {
    var progress := state.progress;
    ghost var chain, start, bound := progress.Chain(state.depth), progress.Found(), first;
    while true
      invariant progress.Valid() && !progress.aborted && progress.Justified(q)
      invariant progress.Chain(state.depth) == chain && Grown(start, progress.Found(), q)
      invariant forall d :: 0 <= d <= state.depth ==>
                              progress.deadEndAddresses[d] == old(progress.deadEndAddresses[d])
      invariant SameLists(state.captureMetrics, old(state.captureMetrics))
      invariant Divided(state.captureMetrics, bound)
      invariant HandledBelow(state.captureMetrics, q.captures, progress.Found(), state.score, state.links, bound)
      decreases |state.captureMetrics[0].potentialPointers| - state.captureMetrics[0].position
    {
      ghost var before := progress.Found();
      var found;
      found, bound := AnalyzeNextOffset(state, q, locals, bound);
      GrownTransitive(start, before, progress.Found(), q);
      if !found || progress.aborted {
        break;
      }
    }
    if !progress.aborted {
      WalkIsOver(state.captureMetrics, q.captures, progress.Found(), state.score, state.links, bound);
    }
  }

  // ----- The whole search

  predicate BetterPointer(a: PotentialPointer, b: PotentialPointer) {
    if a.score == b.score then a.rootAddress < b.rootAddress else a.score < b.score
  }

  /** Lower scores come first, and among equal ones lower addresses. */
  ghost predicate InOrder(results: seq<PotentialPointer>) {
    forall i, j :: 0 <= i < j < |results| ==>
                     || results[i].score < results[j].score
                     || (results[i].score == results[j].score && results[i].rootAddress <= results[j].rootAddress)
  }

  method SortPointers(pointers: seq<PotentialPointer>) returns (r: seq<PotentialPointer>)
    ensures InOrder(r)
    ensures multiset(r) == multiset(pointers)
  {
    r := Sort(pointers, BetterPointer);
    forall i, j | 0 <= i < j < |r|
      ensures r[i].score < r[j].score || (r[i].score == r[j].score && r[i].rootAddress <= r[j].rootAddress)
    {
      assert !BetterPointer(r[j], r[i]);
    }
  }

  /** Runs the search from the targets; results already present are kept or improved. */
  method GetPointers(q: Query, results: seq<PotentialPointer>, hasCallback: bool, answers: nat -> bool)
    returns (r: seq<PotentialPointer>, ghost aborted: bool, ghost found: Findings)
    requires 0 < |q.captures| == |q.targets|
    ensures found.results == r && Improves(results, r)
    ensures ResultsOk(results, q.captures, q.targets) ==> ResultsOk(r, q.captures, q.targets)
    ensures hasCallback && (forall n :: !answers(n)) ==> aborted
    ensures aborted ==> hasCallback && exists n :: !answers(n)
    ensures !aborted ==> SkippedJustified(q, found)
    ensures !aborted ==> Complete(q.captures, q.targets, found, 0, 1)
  {
    var progress := new AnalysisProgress(results, hasCallback, answers);
    var metrics := PrepareMetrics(q.captures, q.targets);
    if hasCallback {
      progress.calls := progress.calls + 1; // the answer to the first report is ignored
    }
    var state := new AnalysisState(progress, metrics, 0, 0);
    assert progress.Chain(0) == [];
    AnalyzeState(state, q, q.targets);
    r, aborted := progress.results, progress.aborted;
    found := progress.Found();
    if !aborted {
      WalkedMeansComplete(metrics, state.captureMetrics, q.captures, q.targets, found, state.score, state.links);
    }
  }

  lemma RootsStayUnique(v: seq<PotentialPointer>, w: seq<PotentialPointer>, i: nat, j: nat)
    requires UniqueRoots(v) && multiset(v) == multiset(w) && i < j < |w|
    ensures w[i].rootAddress != w[j].rootAddress
  {
    assert w[i] in multiset(v) && w[j] in multiset(v);
    var a :| 0 <= a < |v| && v[a] == w[i];
    var b :| 0 <= b < |v| && v[b] == w[j];
    if a == b {
      OccursTwice(w, i, j);
      assert Distinct(v);
      OccursOnce(v, a);
    }
  }

  lemma ResultsPermute(v: seq<PotentialPointer>, w: seq<PotentialPointer>, q: Query)
    requires |q.captures| == |q.targets|
    requires multiset(v) == multiset(w)
    ensures ResultsOk(v, q.captures, q.targets) ==> ResultsOk(w, q.captures, q.targets)
    ensures forall root, score :: Recorded(v, root, score) ==> Recorded(w, root, score)
  {
    forall p ensures p in v <==> p in w {
      assert p in multiset(v) <==> p in multiset(w);
    }
    forall root, score | Recorded(v, root, score) ensures Recorded(w, root, score) {
      var k :| 0 <= k < |v| && v[k].rootAddress == root && v[k].score <= score;
      assert v[k] in w;
    }
    if ResultsOk(v, q.captures, q.targets) {
      forall k | 0 <= k < |w| ensures RouteOk(w[k], q.captures, q.targets) {
        assert w[k] in v;
      }
      forall i, j | 0 <= i < j < |w| ensures w[i].rootAddress != w[j].rootAddress {
        RootsStayUnique(v, w, i, j);
      }
    }
  }

  /** The pointer search: every result is a right route in every capture, and unless the user aborts,
      every direct pointer is among the results, with at most the score of its offset. */
  method Analyze(q: Query, results: seq<PotentialPointer>, hasCallback: bool, answers: nat -> bool)
    returns (r: seq<PotentialPointer>, ghost aborted: bool, ghost found: Findings)
    requires |q.captures| == |q.targets|
    ensures q.captures == [] ==> r == results && !aborted
    ensures found.results == r
    ensures q.captures != [] ==> InOrder(r)
    ensures ResultsOk(results, q.captures, q.targets) ==> ResultsOk(r, q.captures, q.targets)
    ensures forall k :: 0 <= k < |results| ==> Recorded(r, results[k].rootAddress, results[k].score)
    ensures q.captures != [] && hasCallback && (forall n :: !answers(n)) ==> aborted
    ensures aborted ==> hasCallback && exists n :: !answers(n)
    ensures !aborted && q.captures != [] ==> SkippedJustified(q, found)
    ensures !aborted && q.captures != [] ==>
              LinksRecorded(q.captures, q.targets, r, 0) && Complete(q.captures, q.targets, found, 0, 1)
  {
    if q.captures == [] {
      return results, false, Findings(results, {});
    }
    var pointers;
    pointers, aborted, found := GetPointers(q, results, hasCallback, answers);
    assert forall k :: 0 <= k < |results| ==> pointers[k].rootAddress == results[k].rootAddress;
    r := SortPointers(pointers);
    ResultsPermute(pointers, r, q);
    ghost var unsorted := found;
    found := found.(results := r);
    if !aborted {
      MemosStayJustified([], [], unsorted, found, q);
      CompleteSurvives(q.captures, q.targets, unsorted, found, 0, 1);
      CompleteRecordsLinks(q.captures, q.targets, found, 0, 1);
    }
  }

  /** Reading a result the way the user does: in every capture sorted by address, following the
      result's offsets from its root computes the target; its score is bounded. */
  lemma ResultsLeadToTargets(p: PotentialPointer, q: Query, i: nat)
    requires |q.captures| == |q.targets| && i < |q.captures|
    requires RouteOk(p, q.captures, q.targets)
    requires StrictlyAscending(q.captures[i], AddressOf)
    ensures Follow(q.captures[i], p.rootAddress, p.offsets[..p.offsetLength]) == Some(q.targets[i])
    ensures 1 <= p.offsetLength <= 16
    ensures forall k :: 0 <= k < p.offsetLength ==> -8192 < p.offsets[k] < 8192
    ensures var route := p.offsets[..p.offsetLength]; p.score == Forward(route) + 8 * Back(route)
    ensures p.score <= 16 * 8 * 8191
  {
    ScoreCounts(p.offsets[..p.offsetLength]);
    ReachesIsFollow(q.captures[i], p.rootAddress, p.offsets[..p.offsetLength], q.targets[i]);
    SumScoresBound(p.offsets[..p.offsetLength]);
  }
}
