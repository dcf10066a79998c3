/** What the pointer search finds and what it misses, told in whole chains. */
module PointerChains {
  import opened PointerRoutes
  import opened PointerFinder

  // ----- Whole chains

  /** The pointers of all captures on the way from the targets, nearest first: each at the addresses `roots`, to
      what comes before it with `offset`. */
  datatype Path =
    | Meets(roots: seq<ByteAddress>, offset: int)
    | Goes(roots: seq<ByteAddress>, offset: int, further: Path)

  ghost function Length(path: Path): nat {
    match path
    case Meets(_, _) => 1
    case Goes(_, _, further) => 1 + Length(further)
  }

  ghost function PathOffsets(path: Path): seq<int> {
    match path
    case Meets(_, offset) => [offset]
    case Goes(_, offset, further) => [offset] + PathOffsets(further)
  }

  /** Where a path ends. */
  ghost function Top(path: Path): seq<ByteAddress> {
    match path
    case Meets(roots, _) => roots
    case Goes(_, _, further) => Top(further)
  }

  /** The path leads in every capture to its local target. It ends where all captures have the same root. */
  ghost predicate Leads(captures: seq<seq<PointerValue>>, locals: seq<ByteAddress>, path: Path)
    requires 0 < |captures| == |locals|
    decreases path
  {
    && Linked(captures, path.roots, locals, path.offset)
    && match path
       case Meets(roots, _) => SameRoot(roots)
       case Goes(roots, _, further) => !SameRoot(roots) && Leads(captures, roots, further)
  }

  /** No place on the path was skipped. */
  ghost predicate Unskipped(path: Path, f: Findings, links: nat) {
    match path
    case Meets(_, _) => true
    case Goes(roots, _, further) =>
      roots != [] && (links, roots[0]) !in f.skipped && Unskipped(further, f, links + 1)
  }

  /** A chain of at most 16 links that meets in one root is found, unless a memo cut it off: its root is a result,
      with at most the score of its offsets. */
  lemma {:induction false} ChainIsFound(captures: seq<seq<PointerValue>>, locals: seq<ByteAddress>, path: Path,
                                        f: Findings, score: nat, links: nat)
    requires 0 < |captures| == |locals| && Complete(captures, locals, f, score, links)
    requires Leads(captures, locals, path) && Unskipped(path, f, links) && links + Length(path) <= 17
    ensures |Top(path)| == |captures|
    ensures Recorded(f.results, Top(path)[0], score + Forward(PathOffsets(path)) + 8 * Back(PathOffsets(path)))
    decreases path
  {
    var next := score + CalculateScore(path.offset);
    assert Handled(captures, path.roots, f, next, links);
    ScoreCounts(PathOffsets(path));
    match path
    case Meets(_, _) =>
    case Goes(roots, offset, further) =>
      ChainIsFound(captures, roots, further, f, next, links + 1);
      ScoreCounts(PathOffsets(further));
      assert PathOffsets(path)[1..] == PathOffsets(further);
  }

  /** There is at most one place that begins with this address in the first capture. */
  ghost predicate OnePlace(q: Query, a: ByteAddress) {
    forall locals: seq<ByteAddress>, locals': seq<ByteAddress>, chain: seq<int>, chain': seq<int> ::
      IsLevel(q, locals, chain, a) && IsLevel(q, locals', chain', a) ==> locals == locals'
  }

  /** The address in the first capture tells where the search is. */
  ghost predicate FirstTells(q: Query) {
    forall a :: OnePlace(q, a)
  }

  lemma LinkedIsAnchored(q: Query, roots: seq<ByteAddress>, locals: seq<ByteAddress>, chain: seq<int>, offset: int)
    requires Anchored(q, locals, chain) && Linked(q.captures, roots, locals, offset)
    ensures Anchored(q, roots, [offset] + chain)
  {
    forall i | 0 <= i < |q.captures| ensures Reaches(q.captures[i], roots[i], [offset] + chain, q.targets[i]) {
      assert PointsNear(q.captures[i], roots[i], locals[i], offset);
      var k :| 0 <= k < |q.captures[i]| && q.captures[i][k].address == roots[i]
               && LinkOffset(locals[i], q.captures[i][k].valueAsAddress) == offset;
      LinksMembers(q.captures[i], locals[i], Link(q.captures[i][k], locals[i]));
      LinkReaches(q.captures[i], locals[i], Link(q.captures[i][k], locals[i]), chain, q.targets[i]);
    }
  }

  /** A place from which chains go on is not lost to a memo. */
  lemma NotCutOff(q: Query, f: Findings, roots: seq<ByteAddress>, chain: seq<int>, depth: nat) returns (s: nat)
    requires FirstTells(q) && SkippedJustified(q, f) && 0 < |q.captures| == |roots|
    requires IsLevel(q, roots, chain, roots[0]) && !SharesNoOffset(q.captures, roots)
    requires (depth, roots[0]) in f.skipped
    ensures Complete(q.captures, roots, f, s, depth + 1)
  {
    assert OnePlace(q, roots[0]) && Excused(q, f, depth, roots[0]);
    assert !NothingShared(q, roots[0]);
    var locals: seq<ByteAddress>, other: seq<int> :|
      && IsLevel(q, locals, other, roots[0]) && |other| == depth
      && Complete(q.captures, locals, f, SumScores(other), depth + 1);
    return SumScores(other);
  }

  /** One level further away. */
  lemma NextLevel(q: Query, f: Findings, locals: seq<ByteAddress>, chain: seq<int>, path: Path, score: nat,
                  links: nat)
    returns (s: nat)
    requires 0 < |q.captures| && Anchored(q, locals, chain) && FirstTells(q) && SkippedJustified(q, f)
    requires Complete(q.captures, locals, f, score, links)
    requires path.Goes? && Leads(q.captures, locals, path) && links < MAX_DEPTH
    ensures Leads(q.captures, path.roots, path.further)
    ensures Anchored(q, path.roots, [path.offset] + chain)
    ensures Complete(q.captures, path.roots, f, s, links + 1)
  {
    var roots := path.roots;
    s := score + CalculateScore(path.offset);
    assert Handled(q.captures, roots, f, s, links);
    LinkedIsAnchored(q, roots, locals, chain, path.offset);
    if (links, roots[0]) in f.skipped {
      LinkedSharesOffset(q.captures, path.further.roots, roots, path.further.offset);
      s := NotCutOff(q, f, roots, [path.offset] + chain, links);
    }
  }

  /** When the address in the first capture always tells where the search is, the memos cut off nothing: the root of
      every chain of at most 16 links is found. */
  lemma {:induction false} EveryChainIsFound(q: Query, f: Findings, locals: seq<ByteAddress>, chain: seq<int>,
                                             path: Path, score: nat, links: nat)
    returns (found: nat)
    requires 0 < |q.captures| && Anchored(q, locals, chain) && FirstTells(q) && SkippedJustified(q, f)
    requires Complete(q.captures, locals, f, score, links)
    requires Leads(q.captures, locals, path) && links + Length(path) <= 17
    ensures |Top(path)| == |q.captures| && Recorded(f.results, Top(path)[0], found)
    decreases path
  {
    if path.Goes? {
      var s := NextLevel(q, f, locals, chain, path, score, links);
      found := EveryChainIsFound(q, f, path.roots, [path.offset] + chain, path.further, s, links + 1);
    } else {
      found := score + CalculateScore(path.offset);
      assert Handled(q.captures, path.roots, f, found, links);
    }
  }

  // ----- Clients

  /** With all direct pointers recorded, one behind the target counts eight times its distance. */
  lemma DirectScores(q: Query, r: seq<PotentialPointer>, root: ByteAddress, offset: int)
    requires |q.captures| == |q.targets| && LinksRecorded(q.captures, q.targets, r, 0)
    requires DirectPointer(q, root, offset)
    ensures Recorded(r, root, if offset < 0 then 8 * -offset else offset)
  {
    assert LinkRecorded(q.captures, q.targets, r, 0, root, offset);
    ScoreCounts([offset]);
  }

  function TwoPointers(): Query {
    Query([[PointerValue(0x10, 0xFFFC, 0xFFFC), PointerValue(0x20, 0x1_0004, 0x1_0004)]], [0x1_0000])
  }

  /** From neither of the two pointers any route but one step leads to the target. */
  lemma OneStep(p: PotentialPointer)
    requires RouteOk(p, TwoPointers().captures, TwoPointers().targets)
    ensures (p.rootAddress == 0x10 && p.score == 4) || (p.rootAddress == 0x20 && p.score == 32)
  {
    var values, route := TwoPointers().captures[0], p.offsets[..p.offsetLength];
    assert Reaches(values, p.rootAddress, route, TwoPointers().targets[0]);
    var k :| 0 <= k < |values| && values[k].address == p.rootAddress
             && Reaches(values, Displace(values[k].valueAsAddress, route[0]), route[1..], 0x1_0000);
    assert InRange(route[0]);
    ScoreCounts(route);
    if route[1..] != [] {
      assert false;
    }
  }

  lemma ThirdRoot(r: seq<PotentialPointer>, a: ByteAddress, b: ByteAddress)
    requires UniqueRoots(r) && |r| > 2
    ensures exists k :: 0 <= k < |r| && r[k].rootAddress != a && r[k].rootAddress != b
  {
    assert r[0].rootAddress != r[1].rootAddress && r[1].rootAddress != r[2].rootAddress;
    assert r[0].rootAddress != r[2].rootAddress;
  }

  /** A pointer four bytes before the target and one four bytes behind it. */
  method ForwardIsCloser() returns (r: seq<PotentialPointer>)
    ensures |r| == 2
    ensures r[0].rootAddress == 0x10 && r[0].score == 4
    ensures r[1].rootAddress == 0x20 && r[1].score == 32
  {
    var q := TwoPointers();
    ghost var aborted, found;
    r, aborted, found := Analyze(q, [], false, _ => true);
    assert PointsNear(q.captures[0], 0x10, q.targets[0], 4) by {
      assert q.captures[0][0].address == 0x10;
    }
    assert PointsNear(q.captures[0], 0x20, q.targets[0], -4) by {
      assert q.captures[0][1].address == 0x20;
    }
    DirectScores(q, r, 0x10, 4);
    DirectScores(q, r, 0x20, -4);
    forall k | 0 <= k < |r|
      ensures (r[k].rootAddress == 0x10 && r[k].score == 4) || (r[k].rootAddress == 0x20 && r[k].score == 32)
    {
      OneStep(r[k]);
    }
    var i :| 0 <= i < |r| && r[i].rootAddress == 0x10;
    var j :| 0 <= j < |r| && r[j].rootAddress == 0x20;
    if |r| > 2 {
      ThirdRoot(r, 0x10, 0x20);
    }
  }

  /** A pointer to four bytes before a second one, which leads to the target. */
  function TwoLinks(middle: ByteAddress, target: ByteAddress): seq<PointerValue>
    requires middle >= 4
  {
    [PointerValue(0x100, middle - 4, middle - 4), PointerValue(middle, target, target)]
  }

  /** What leads to the target begins at one of the two pointers, and the number of links tells at which. */
  lemma RoutesOfTwoLinks(middle: ByteAddress, target: ByteAddress, root: ByteAddress, chain: seq<int>)
    requires 0x1_0000 <= target && target + 0x1_0000 <= middle <= 0x1000_0000
    requires chain != [] && forall k :: 0 <= k < |chain| ==> InRange(chain[k])
    requires Reaches(TwoLinks(middle, target), root, chain, target)
    ensures root == if |chain| == 1 then middle else 0x100
  {
    var values := TwoLinks(middle, target);
    var k :| 0 <= k < |values| && values[k].address == root
             && Reaches(values, Displace(values[k].valueAsAddress, chain[0]), chain[1..], target);
    assert InRange(chain[0]);
  }

  function TwoCaptures(): Query {
    Query([TwoLinks(0x3_0000, 0x1_0000), TwoLinks(0x4_0000, 0x2_0000)], [0x1_0000, 0x2_0000])
  }

  lemma PlacesOfTwoCaptures(locals: seq<ByteAddress>, chain: seq<int>, a: ByteAddress)
    requires IsLevel(TwoCaptures(), locals, chain, a)
    ensures locals == if |chain| == 1 then [0x3_0000, 0x4_0000] else [0x100, 0x100]
  {
    var q := TwoCaptures();
    assert Reaches(q.captures[0], locals[0], chain, q.targets[0]);
    assert Reaches(q.captures[1], locals[1], chain, q.targets[1]);
    RoutesOfTwoLinks(0x3_0000, 0x1_0000, locals[0], chain);
    RoutesOfTwoLinks(0x4_0000, 0x2_0000, locals[1], chain);
  }

  lemma FirstTellsInTwoCaptures()
    ensures FirstTells(TwoCaptures())
  {
    var q := TwoCaptures();
    forall a ensures OnePlace(q, a) {
      forall locals: seq<ByteAddress>, locals': seq<ByteAddress>, chain: seq<int>, chain': seq<int>
        | IsLevel(q, locals, chain, a) && IsLevel(q, locals', chain', a)
        ensures locals == locals'
      {
        PlacesOfTwoCaptures(locals, chain, a);
        PlacesOfTwoCaptures(locals', chain', a);
      }
    }
  }

  /** A pointer of each capture leads to its target at the one offset. */
  lemma BothLinked(first: seq<PointerValue>, second: seq<PointerValue>, i: nat, j: nat, locals: seq<ByteAddress>,
                   offset: int)
    requires i < |first| && j < |second| && |locals| == 2 && InRange(offset)
    requires LinkOffset(locals[0], first[i].valueAsAddress) == offset
    requires LinkOffset(locals[1], second[j].valueAsAddress) == offset
    ensures Linked([first, second], [first[i].address, second[j].address], locals, offset)
  {
    assert PointsNear(first, first[i].address, locals[0], offset);
    assert PointsNear(second, second[j].address, locals[1], offset);
  }

  lemma LeadsInTwoCaptures()
    ensures var path := Goes([0x3_0000, 0x4_0000], 0, Meets([0x100, 0x100], 4));
            Leads(TwoCaptures().captures, TwoCaptures().targets, path)
  {
    var q := TwoCaptures();
    BothLinked(q.captures[0], q.captures[1], 1, 1, q.targets, 0);
    BothLinked(q.captures[0], q.captures[1], 0, 0, [0x3_0000, 0x4_0000], 4);
  }

  lemma FoundInTwoCaptures(found: Findings) returns (score: nat)
    requires Complete(TwoCaptures().captures, TwoCaptures().targets, found, 0, 1)
    requires SkippedJustified(TwoCaptures(), found)
    ensures Recorded(found.results, 0x100, score)
  {
    var path := Goes([0x3_0000, 0x4_0000], 0, Meets([0x100, 0x100], 4));
    FirstTellsInTwoCaptures();
    LeadsInTwoCaptures();
    score := EveryChainIsFound(TwoCaptures(), found, TwoCaptures().targets, [], path, 0, 1);
  }

  lemma RootOfTwoCaptures(p: PotentialPointer)
    requires RouteOk(p, TwoCaptures().captures, TwoCaptures().targets)
    ensures p.rootAddress == 0x100
  {
    var route, locals := p.offsets[..p.offsetLength], [p.rootAddress, p.rootAddress];
    assert Anchored(TwoCaptures(), locals, route);
    PlacesOfTwoCaptures(locals, route, p.rootAddress);
  }

  lemma SecondRoot(r: seq<PotentialPointer>, a: ByteAddress)
    requires UniqueRoots(r) && |r| > 1
    ensures exists k :: 0 <= k < |r| && r[k].rootAddress != a
  {
    assert r[0].rootAddress != r[1].rootAddress;
  }

  /** The root of the two links is the one result. */
  method FindsTwoLinks() returns (r: seq<PotentialPointer>)
    ensures |r| == 1 && r[0].rootAddress == 0x100
  {
    var q := TwoCaptures();
    ghost var aborted, found;
    r, aborted, found := Analyze(q, [], false, _ => true);
    ghost var score := FoundInTwoCaptures(found);
    forall k | 0 <= k < |r| ensures r[k].rootAddress == 0x100 {
      RootOfTwoCaptures(r[k]);
    }
    if |r| > 1 {
      SecondRoot(r, 0x100);
    }
  }

  // ----- An address that means two places

  /** When two places begin at the same address in the first capture and the search that comes to the one shares no
      offset there, it skips the other. */
  method SkipsTheOther(q: Query, first: seq<ByteAddress>, metrics: seq<CaptureMetrics>, at: seq<nat>)
    returns (progress: AnalysisProgress)
    requires 0 < |q.captures| == |q.targets| == |metrics| == |at|
    requires forall i :: 0 <= i < |metrics| ==> at[i] < |metrics[i].potentialPointers|
    requires forall i :: 0 <= i < |metrics| ==> metrics[i].capture == q.captures[i]
    requires Anchored(q, first, [0]) && SharesNoOffset(q.captures, first)
    requires Anchored(q, RootsAt(metrics, at), [0]) && RootsAt(metrics, at)[0] == first[0]
    ensures progress.results == [] && progress.skipped == {(1, first[0])}
  {
    progress := new AnalysisProgress([], false, _ => true);
    progress.offsets[15] := 0;
    assert progress.Chain(1) == [0];
    var state := new AnalysisState(progress, [], 0, 1);
    SearchChains(state, q.captures, first, q);
    TryLongerChains(state, metrics, at, q);
  }

  function Ambiguous(): Query {
    Query([TwoLinks(0x3_0000, 0x1_0000),
           [PointerValue(0x100, 0x4_FFFC, 0x4_FFFC), PointerValue(0x4_0000, 0x2_0000, 0x2_0000),
            PointerValue(0x5_0000, 0x2_0000, 0x2_0000)]],
          [0x1_0000, 0x2_0000])
  }

  lemma AmbiguousLinks()
    ensures var captures, targets := Ambiguous().captures, Ambiguous().targets;
            && Linked(captures, [0x3_0000, 0x4_0000], targets, 0)
            && Linked(captures, [0x3_0000, 0x5_0000], targets, 0)
            && Linked(captures, [0x100, 0x100], [0x3_0000, 0x5_0000], 4)
  {
    var first, second := Ambiguous().captures[0], Ambiguous().captures[1];
    BothLinked(first, second, 1, 1, Ambiguous().targets, 0);
    BothLinked(first, second, 1, 2, Ambiguous().targets, 0);
    BothLinked(first, second, 0, 0, [0x3_0000, 0x5_0000], 4);
  }

  lemma AmbiguousPlaces()
    ensures Anchored(Ambiguous(), [0x3_0000, 0x4_0000], [0]) && Anchored(Ambiguous(), [0x3_0000, 0x5_0000], [0])
  {
    AmbiguousLinks();
    LinkedIsAnchored(Ambiguous(), [0x3_0000, 0x4_0000], Ambiguous().targets, [], 0);
    LinkedIsAnchored(Ambiguous(), [0x3_0000, 0x5_0000], Ambiguous().targets, [], 0);
  }

  lemma NothingToTheFirst()
    ensures SharesNoOffset(Ambiguous().captures, [0x3_0000, 0x4_0000])
  {
    var q := Ambiguous();
    forall offset | SharedLinkOffset(q.captures, [0x3_0000, 0x4_0000], offset) ensures false {
      var p :| p in Links(q.captures[1], 0x4_0000) && FirstOffset(p) == offset;
      LinksMembers(q.captures[1], 0x4_0000, p);
    }
  }

  /** The candidates when the search comes to the second place. */
  function AtTheOther(): seq<CaptureMetrics> {
    var first, second := Ambiguous().captures[0], Ambiguous().captures[1];
    [CaptureMetrics([Link(first[1], 0x1_0000)], 0, 1, first), CaptureMetrics([Link(second[2], 0x2_0000)], 0, 1, second)]
  }

  lemma RootsOfTheOther()
    ensures RootsAt(AtTheOther(), [0, 0]) == [0x3_0000, 0x5_0000]
  {
  }

  /** In the second capture two pointers lead to the target, and only the later one has a root. A search that comes
      to the earlier one first misses the root: in the first capture there is but one pointer. */
  method MissesTheRoot() returns (progress: AnalysisProgress)
    ensures var q, path := Ambiguous(), Goes([0x3_0000, 0x5_0000], 0, Meets([0x100, 0x100], 4));
            Leads(q.captures, q.targets, path)
    ensures progress.results == [] && (1, 0x3_0000) in progress.skipped
  {
    AmbiguousLinks();
    AmbiguousPlaces();
    NothingToTheFirst();
    RootsOfTheOther();
    progress := SkipsTheOther(Ambiguous(), [0x3_0000, 0x4_0000], AtTheOther(), [0, 0]);
  }
}
