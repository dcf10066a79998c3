# RetroAchievements toolkit: verified models

This project models seven stateful components of the toolkit in Dafny and proves what they are for.
`dafny verify dfyconfig.toml` checks the whole project.

- **Pointer search** (`PointerRoutes`, `PointerFinder`, `PointerChains`). Given several memory captures and an address in
  each, the search looks for chains of pointers and offsets that lead from one root to all of them. The
  search is modelled with its classes, its shared offset array that is filled from the back, its
  combination odometer and its two memos. Proved: every chain it ever reports leads to every target,
  aborted or not and whatever the memos prune, with the score that the offsets say; a search that is not
  aborted reports every direct pointer, and the root of every chain of up to 16 links unless a memo cut it off,
  which happens only when two places begin at the same address of the first capture.
- **Model collection** (`ListReplay`, `BatchReplay`, `ListMoves`, `ModelCollection`). A list whose changes are
  batched and whose stored indices are repaired lazily. Proved: for which batches the announced removals,
  additions and changes bring an observer exactly to the new list, and that shifting a selection is a stable
  block move.
- **Data model and view model** (`Transactions`, `Reports`, `SortedEntries`, `DataModel`,
  `TransactionalViewModel`). Nested undo transactions kept as differences, once in sorted vectors and once
  in maps. Proved: both behave like a machine that keeps a whole snapshot for each transaction, and a batch
  of updates, a revert, and a single setting each report exactly what changes.
- **Property container** (`PropertyContainer`). A sorted vector of values that are not the default and a
  pool of string slots in chunks of four. Proved: for which writes it is a map with defaults, and for which
  what listeners are told is all that changes.
- **Listener set** (`NotifyTargetSet`). A linked chain of copied lists with nested locks. Proved: lock
  holders go on seeing their list, and the live list is the insertion-ordered result.
- **Captured memory** (`MatchingBits`, `CapturedMemoryBlock`, `SharedMemory`). A bitmap with rank, select
  and enumeration, and byte buffers that count the blocks sharing them.
- **Play time journal** (`JournalText`, `SessionTracker`). A text file whose last line is overwritten while
  a session goes on. Proved: totals are sums of session lengths, and for which sessions loading the file gives
  the totals that are in memory.

`StandardAlgorithms` holds verified stand-ins for the C++ standard algorithms, `Basics` what several models use.

## How to read the model

A class of the source is a class here, with the same fields; vectors and maps are `seq` and `map` fields,
fixed arrays are arrays. Ghost fields hold what the proofs compare with: the list an observer was last
told about, the snapshots a naive machine would keep, the holders of the locks, the sessions that are over.
A method is proved against a function of the old state, and the lemmas state what that function means.

Callbacks are oracles: a function from the number of the call to the answer. Clocks, file contents and the
addresses the allocator returns are parameters. The checksum of the journal is any function to 32
hexadecimal digits.

Eight promises hold only under a condition. For the last one it is proved to be sufficient, for the others to be the
exact one. For each of them a lemma or a method also gives an input on which it fails:

- Replaying a batch is exact if and only if no removed item was added in the same batch, or no item from
  before the batch is left (`BatchReplay.ReplayIsExact`, `ModelCollection.AddedAndRemovedInOneBatch`). An
  observer ignores an index outside its list.
- A write to the property container leaves the others alone if and only if the slot it changes has no other
  owner, and slots stay unshared if and only if no empty string is written over a stored one whose default
  is not empty (`PropertyContainer.OthersUnchanged`, `PropertyContainer.WriteKeepsClean`,
  `PropertyContainer.RunsAreMapsExactly`, `PropertyContainer.EmptiedPropertyIsOverwritten`).
- A property container with unshared slots goes on keeping nothing at its default if and only if no property
  that is kept as the empty string is set to its default (`PropertyContainer.WriteKeepsNoDefaults`,
  `PropertyContainer.EmptiedPropertyKeepsDefault`).
- The matching addresses are those of the slice they were set from if and only if the slice has another
  length than the block, or its addresses are distinct and within the block: a slice of full length is not
  looked at (`CapturedMemoryBlock.CapturedMemoryBlock.SetMatchingAddresses`,
  `CapturedMemoryBlock.DuplicatesMatchAll`).
- Enumerating matching addresses is exact if and only if the padding bits are clear, which the first
  exclusion breaks if and only if the address count is not divisible by 8
  (`CapturedMemoryBlock.CapturedMemoryBlock.ExcludeMatchingAddress`, `CapturedMemoryBlock.PaddingIsListed`).
- Excluding an address makes it stop matching, and no other, unless its bit was set and the stored count
  becomes the number of addresses, as it can when the count came from a slice that does not fit in the block
  (`CapturedMemoryBlock.CapturedMemoryBlock.ExcludeMatchingAddress`,
  `CapturedMemoryBlock.ExcludedMatchesAgain`).
- A reload of the journal gives the totals and last starts in memory if and only if, for each game, every
  length and the latest start fit in 32 bits, since `strtoul` on Windows clips larger numbers
  (`SessionTracker.SessionTracker.ReloadIsMemory`, `SessionTracker.LateStartIsClipped`). A single line is
  read back as written if and only if all its numbers fit (`SessionTracker.LineRoundTrip`).
- The pointer search finds the root of every chain of up to 16 links if no two places that lead to the targets
  begin at the same address of the first capture, since the memos keep no other address
  (`PointerChains.EveryChainIsFound`, `PointerChains.SkipsTheOther`, `PointerChains.MissesTheRoot`). In every
  query it finds those on which nothing was skipped (`PointerChains.ChainIsFound`).

## Model

| member | source | states |
|---|---|---|
| PointerFinder.Analyze | src/services/PointerFinder.cpp:117-137 | started from results that lead to the targets, it returns only such results, aborted or not, each root once, and none given is lost or gets a higher score; the lowest score comes first, then the lowest root; it aborts only on a refusal, and always when every answer is one. Unless aborted, every direct pointer is among the results with at most the score of its offset, and all chains of up to 16 links are dealt with: each is followed to where all captures have one root, which is recorded, or to an address that was skipped; an address is skipped only if at some place that begins with it and leads to the targets no offset is shared, or all longer chains are dealt with too |
| PointerFinder.GetPointers | src/services/PointerFinder.cpp:221-248 | the same before sorting: results only improve, and unless aborted all chains are dealt with |
| PointerFinder.AnalyzeState | src/services/PointerFinder.cpp:250-302 | the chain above comes back unchanged whatever deeper calls write, and so do the dead ends of the levels above; results only improve; unless aborted every combination of pointers common to all lists is dealt with: its root is recorded when all captures agree, otherwise all longer chains through it are dealt with or its address was skipped; the recursion ends on the depth left |
| PointerFinder.AnalyzeNextOffset | src/services/PointerFinder.cpp:256-290 | one turn: everything below the next offset is dealt with, the positions stand at the next run in every list |
| PointerFinder.WalkRuns | src/services/PointerFinder.cpp:256-290 | turn after turn, all pointers common to all lists at any offset are dealt with unless the search aborts; the lists, the chain above and the dead ends up to this level are kept, and the reasons of the memos hold |
| PointerFinder.AnalyzeRuns | src/services/PointerFinder.cpp:262-267 | analyzing the runs marked deals with everything up to and with their offset and moves all positions behind them |
| PointerFinder.ProcessSharedOffset | src/services/PointerFinder.cpp:325-470 | every combination of the aligned runs is visited unless the search aborts, with the chain's score and the common offset in front of the chain; the chain above is untouched |
| PointerFinder.ExamineCombinations | src/services/PointerFinder.cpp:354-469 | the odometer visits all combinations of the runs and then stops |
| PointerFinder.ExamineCombination | src/services/PointerFinder.cpp:356-447 | a combination whose roots agree is recorded, with the chain so far; of any other all longer chains are dealt with, or its address is skipped because of a memo; one that leads nowhere ends up in one of the two memos, and no other address becomes a dead end of this depth |
| PointerFinder.TryLongerChains | src/services/PointerFinder.cpp:391-446 | an address in a memo is skipped and nothing else changes; otherwise all longer chains are dealt with unless the search aborts; results keep leading to the targets, the chain and the dead ends above are kept, and an address without a new root, and no other, is in a memo afterwards |
| PointerFinder.RecordRoute | src/services/PointerFinder.cpp:358-387 | a root that is new or gets a lower score has that score and this chain afterwards, otherwise nothing changes; all other entries keep their places and values; no root occurs twice |
| PointerFinder.RunsAreAnchored | src/services/PointerFinder.cpp:345-417 | any combination from aligned runs lies, in every capture, on a chain that leads to the target once the common offset is put in front |
| PointerFinder.VisitedOneMore | src/services/PointerFinder.cpp:452-469 | after one more combination all of those counted so far have been dealt with |
| PointerFinder.AllVisited | src/services/PointerFinder.cpp:354-469 | when no combination remains, every combination of the runs has been dealt with |
| PointerFinder.HandledOneMore | src/services/PointerFinder.cpp:258-266 | after a run everything up to and with its offset is dealt with |
| PointerFinder.HandledSurvives | src/services/PointerFinder.cpp:358-446 | a combination that has been dealt with stays so while more is found |
| PointerFinder.WalkIsOver | src/services/PointerFinder.cpp:256-290 | when the first list has no run left, everything common to all lists has been dealt with |
| PointerFinder.NextCombination | src/services/PointerFinder.cpp:452-468 | the odometer counts down the remaining combinations by exactly one and stops at none |
| PointerRoutes.AdvanceRemaining | src/services/PointerFinder.cpp:452-468 | resetting the lower positions and advancing one takes exactly one off the mixed-radix count of what remains |
| PointerRoutes.RemainingIsInjective | src/services/PointerFinder.cpp:452-468 | different positions have different counts, so no combination is skipped or repeated |
| PointerRoutes.NoneRemain | src/services/PointerFinder.cpp:464-466 | at the last element of every run nothing remains |
| PointerRoutes.StartsComeFirst | src/services/PointerFinder.cpp:327-330 | the starts of the runs have the largest count, so the walk begins at the first combination |
| PointerFinder.PointersMatch | src/services/PointerFinder.cpp:472-486 | true exactly when all captures have the same root address |
| PointerFinder.InitializePotentialPointers | src/services/PointerFinder.cpp:145-167 | the list gains exactly the captured pointers that lie within range of the target, with their offsets and scores, and is sorted by offset |
| PointerRoutes.LinkOffsetReaches | src/services/PointerFinder.cpp:151 | adding the wrapped 32-bit difference to the pointed-to address gives the target, for all 32-bit addresses |
| PointerRoutes.LinksMembers | src/services/PointerFinder.cpp:149-160 | a pointer is listed exactly when some captured value within range gives it |
| PointerRoutes.LinkReaches | src/services/PointerFinder.cpp:149-160 | putting the offset of a listed pointer in front of a chain that reaches the target from it gives a chain from its root |
| PointerFinder.RemoveUnsharedOffsets | src/services/PointerFinder.cpp:169-219 | each list keeps exactly its pointers whose offset occurs in all captures |
| PointerFinder.SharedListsAgree | src/services/PointerFinder.cpp:169-219 | afterwards every list is still sorted and all lists have the same set of offsets |
| PointerRoutes.KeepOffsetsMembers | src/services/PointerFinder.cpp:207-217 | membership in a filtered list |
| PointerRoutes.KeepOffsetsAscending | src/services/PointerFinder.cpp:207-217 | filtering keeps the order by offset |
| PointerFinder.DistinctOffsets | src/services/PointerFinder.cpp:171-183 | the offsets of the first capture, each once, ascending |
| PointerFinder.RetainOffsets | src/services/PointerFinder.cpp:185-199 | keeps exactly the offsets another capture has too |
| PointerFinder.FindSharedOffset | src/services/PointerFinder.cpp:304-323 | all captures stand at the start of the run of one common offset and are given the end of that run |
| PointerFinder.MarkRun | src/services/PointerFinder.cpp:312-322 | the end found is behind the last pointer with that offset and before the first with a larger one |
| PointerFinder.StandsAtOffset | src/services/PointerFinder.cpp:304-323 | lists with equal offset sets, divided at the same bound, stand at the same next offset |
| PointerFinder.PrepareMetrics | src/services/PointerFinder.cpp:408-420 | the lists for a deeper level hold the shared links to the new local targets |
| PointerFinder.ReductionPrepares | src/services/PointerFinder.cpp:237-247 | reducing the initial lists establishes what the search assumes of them |
| PointerFinder.MemosStayJustified | src/services/PointerFinder.cpp:358-446 | while more is found, every address of both memos, and every address skipped because of them, keeps its reason: at some place that begins with it and leads to the targets either no offset is shared, or all longer chains are dealt with |
| PointerFinder.AnalysisProgress.MarkUnreachable | src/services/PointerFinder.cpp:422-429 | an address enters the first memo only when at some place that begins with it and leads to the targets no offset is shared; the memo gains exactly that address and both memos stay justified |
| PointerFinder.AnalysisProgress.MarkDeadEnd | src/services/PointerFinder.cpp:430-443 | while the search is not aborted, an address enters the second memo only when at some place of this depth that begins with it and leads to the targets all longer chains are dealt with; the memo of that depth gains exactly that address, the others stay, and all stay justified |
| PointerFinder.SearchChains | src/services/PointerFinder.cpp:408-443 | when no offset is shared, the address of the first capture is unreachable afterwards and nothing else changes; otherwise it becomes a dead end of this depth exactly when no new root was recorded, and no other address does; unless aborted all longer chains are dealt with; the dead ends of the levels above and the chain are kept |
| PointerFinder.EmptyMeansUnreachable | src/services/PointerFinder.cpp:422-429 | a reduced level has no candidates exactly when no offset is shared by all captures, and only then is its address marked unreachable |
| PointerFinder.WalkedMeansComplete | src/services/PointerFinder.cpp:256-290 | a level walked to its end has dealt with all chains to its local targets |
| PointerFinder.CompleteRecordsLinks | src/services/PointerFinder.cpp:256-290 | in particular every pointer to them at one offset is recorded, with at most the score of its chain |
| PointerFinder.CompleteSurvives | src/services/PointerFinder.cpp:358-446 | what has been dealt with at a level, and at all below it, stays so while more is found |
| PointerFinder.InsertAddress | src/services/PointerFinder.cpp:424-443 | a memo stays sorted and free of duplicates and gains exactly the address |
| PointerFinder.SortPointers | src/services/PointerFinder.cpp:127-137 | the results are a permutation in which the lowest score comes first and then the lowest root |
| PointerFinder.ResultsPermute | src/services/PointerFinder.cpp:127-137 | sorting keeps every result a route to its targets and every root unique |
| PointerFinder.ResultsLeadToTargets | src/services/PointerFinder.cpp:325-387 | following the offsets of a result, at most 16 and each within 8191 either way, through a capture ends exactly at its target; its score is what the offsets go forward plus eight times what they go back, and at most 16 times 8 times 8191 |
| PointerRoutes.ReachesIsFollow | src/services/PointerFinder.cpp:325-387 | the relation used in the invariants is reading pointers one after the other |
| PointerRoutes.SumScoresBound | src/services/PointerFinder.cpp:139-143 | a chain of offsets in range has a score of at most 8 times 8191 for each link |
| PointerRoutes.ScoreCounts | src/services/PointerFinder.cpp:139-143 | the score of a chain is the sum of its forward offsets plus eight times the distance of its backward ones |
| PointerRoutes.RangeOfLinks | src/services/PointerFinder.cpp:152-152 | a link is at most 8191 away, either way |
| PointerFinder.LinkedIsCommon | src/services/PointerFinder.cpp:221-248 | pointers to the targets at one offset in all captures, wherever they are, survive the reduction |
| PointerFinder.AnalysisProgress.constructor | src/services/PointerFinder.hh:88-107 | a search starts with empty memos for each of the 16 depths |
| PointerFinder.AnalysisProgress.CallProgress | src/services/PointerFinder.cpp:283-287 | each report is one call; one refusal of the callback aborts the search for good |
| PointerFinder.AnalysisProgress.CountCheck | src/services/PointerFinder.cpp:268-289 | the callback is asked at every 501st check and its refusal aborts; without a callback nothing happens |
| PointerFinder.AnalysisProgress.Skip | src/services/PointerFinder.cpp:391-407 | only an address in a memo is skipped |
| PointerChains.EveryChainIsFound | src/services/PointerFinder.cpp:250-470 | when the address in the first capture always tells where the search is, the memos cut off nothing: every chain of at most 16 links that leads to the targets in all captures and meets in one root has that root among the results |
| PointerChains.ChainIsFound | src/services/PointerFinder.cpp:250-470 | in any query, the root of every such chain on which no address was skipped is a result, with at most the score of its offsets |
| PointerChains.NotCutOff | src/services/PointerFinder.cpp:391-446 | a place from which chains go on, and whose first address no other place begins with, is dealt with even if it was skipped |
| PointerChains.SkipsTheOther | src/services/PointerFinder.cpp:391-429 | where two places begin with the same address and no offset is shared at the first that the search comes to, it skips the other and finds nothing through it |
| PointerChains.MissesTheRoot | src/services/PointerFinder.cpp:391-429 | the failing case: two captures in which that loses the one root there is |
| PointerChains.FindsTwoLinks | src/services/PointerFinder.cpp:117-137 | a client with one chain of two links in two captures: its root is found, and nothing else |
| PointerChains.PlacesOfTwoCaptures | src/services/PointerFinder.cpp:345-417 | the places that lead to the targets of that client, by the number of links |
| PointerChains.DirectScores | src/services/PointerFinder.cpp:139-143 | with all direct pointers recorded, one at +d has at most d and one at -d at most 8d |
| PointerChains.ForwardIsCloser | src/services/PointerFinder.cpp:117-143 | a client with one pointer four before the target and one four behind: exactly these two are found, the first with 4, then the second with 32 |
| PointerChains.OneStep | src/services/PointerFinder.cpp:325-387 | there is no other route through these two pointers |
| BatchReplay.ReplayIsExact | src/devkit/data/ModelCollectionBase.cpp:238-329 | replaying the announced removals, additions and changes on the list from before a batch gives the list after it if and only if no removed item was added in the same batch, or no item from before is left |
| BatchReplay.CleanBatchReplays | src/devkit/data/ModelCollectionBase.cpp:238-329 | every batch that removes only items from before it replays exactly |
| BatchReplay.UncleanBatchFails | src/devkit/data/ModelCollectionBase.cpp:250-277 | a batch that removes an item it added and leaves an item from before makes the observer's list too long |
| BatchReplay.FreshBatchReplays | src/devkit/data/ModelCollectionBase.cpp:238-329 | a batch that leaves only new items replays exactly even then |
| BatchReplay.AddedAndRemovedExample | src/devkit/data/ModelCollectionBase.cpp:254-277 | the smallest failing batch: the observer sees the one item twice |
| BatchReplay.SurvivorMistakenForNew | src/devkit/data/ModelCollectionBase.cpp:264-277 | an index of -1 among the deleted ones shifts the item at 0 to -1, which makes it look new |
| BatchReplay.NewPositionsAre | src/devkit/data/ModelCollectionBase.cpp:283-311 | the additions announced are the positions of the items that were new |
| BatchReplay.ReorderIsTold | src/devkit/data/ModelCollectionBase.cpp:313-328 | when items only change places, one event names exactly the places whose item changed, and none is raised when all are in place |
| ListReplay.OldItemsAddUp | src/devkit/data/ModelCollectionBase.cpp:238-329 | the items from before are split between those left and those removed |
| BatchReplay.SurvivorsShift | src/devkit/data/ModelCollectionBase.cpp:263-277 | the repaired index of an item that is left is its place in the list once the removals are carried out |
| ListReplay.OneSurvivorForEachPlace | src/devkit/data/ModelCollectionBase.cpp:263-277 | every place of the reduced list comes from exactly one index that is left |
| ListReplay.SurvivorsStayApart | src/devkit/data/ModelCollectionBase.cpp:263-277 | repaired indices keep their order and never coincide |
| ListReplay.RemovedLength | src/devkit/data/ModelCollectionBase.cpp:257-261 | descending removals take out one item each |
| ListReplay.AdditionsWeave | src/devkit/data/ModelCollectionBase.cpp:283-311 | ascending insertions from the final list put each new item at its final place and keep the order of the others |
| ListReplay.ChangesApply | src/devkit/data/ModelCollectionBase.cpp:313-328 | changes overwrite exactly the places whose item moved |
| ListReplay.OldPartRemoves | src/devkit/data/ModelCollectionBase.cpp:250-258 | the deleted indices that count are distinct, descending and within the list |
| ModelCollection.ConsistentIsBatch | src/devkit/data/ModelCollectionBase.cpp:6-47 | any sequence of operations since the last repair is a batch: stored indices point at distinct items from before, -1 marks the new ones |
| ModelCollection.ConsistentPermutes | src/devkit/data/ModelCollectionBase.cpp:86-105 | reordering the live items keeps what the stored indices say |
| ModelCollection.ModelCollectionBase.UpdateIndices | src/devkit/data/ModelCollectionBase.cpp:238-329 | the live items stay, each gets its position as index, the removed ones go, and what is announced brings an observer to the new list if and only if the condition on the batch holds |
| ModelCollection.ModelCollectionBase.DeletedIndices | src/devkit/data/ModelCollectionBase.cpp:246-258 | the stored indices of the removed items, descending |
| ModelCollection.ModelCollectionBase.ShiftPast | src/devkit/data/ModelCollectionBase.cpp:266-275 | an index goes down by the number of removals below it, found with the running index |
| ModelCollection.ModelCollectionBase.DropRemoved | src/devkit/data/ModelCollectionBase.cpp:242-281 | removes the retired items and repairs the indices of the others; announces the removals |
| ModelCollection.ModelCollectionBase.IndexNew | src/devkit/data/ModelCollectionBase.cpp:283-311 | gives new items their positions, moves later ones on, and announces the additions |
| ModelCollection.ModelCollectionBase.IndexMoved | src/devkit/data/ModelCollectionBase.cpp:313-328 | gives every item its position and announces exactly those that had another one |
| ModelCollection.ModelCollectionBase.AddItem | src/devkit/data/ModelCollectionBase.cpp:6-22 | the item comes last; outside batches an observer that replays the events has the new list |
| ModelCollection.ModelCollectionBase.RemoveAt | src/devkit/data/ModelCollectionBase.cpp:24-47 | takes the item out and keeps the order of the rest; an index out of range does nothing |
| ModelCollection.ModelCollectionBase.Clear | src/devkit/data/ModelCollectionBase.cpp:49-62 | empties the list; outside batches the events bring an observer there |
| ModelCollection.ModelCollectionBase.MoveItem | src/devkit/data/ModelCollectionBase.cpp:64-84 | moves one item; bad indices do nothing; outside batches observers follow |
| ModelCollection.ModelCollectionBase.MoveItemInternal | src/devkit/data/ModelCollectionBase.cpp:86-105 | the item arrives and those in between close the gap |
| ModelCollection.ModelCollectionBase.RotateItems | src/devkit/data/ModelCollectionBase.cpp:91-104 | the loop of assignments in place is the move |
| ModelCollection.ModelCollectionBase.ShiftItemsUp | src/devkit/data/ModelCollectionBase.cpp:107-138 | the selected items end up together, starting one place before the first of them, both groups in their old order; returns how many |
| ModelCollection.ModelCollectionBase.ShiftItemsDown | src/devkit/data/ModelCollectionBase.cpp:140-171 | the mirror image of shifting up |
| ModelCollection.ModelCollectionBase.ShiftUpLoop | src/devkit/data/ModelCollectionBase.cpp:113-133 | the loop with its two special cases computes the block move |
| ModelCollection.ModelCollectionBase.ShiftDownLoop | src/devkit/data/ModelCollectionBase.cpp:146-166 | the downward loop computes the block move |
| ModelCollection.ModelCollectionBase.Reverse | src/devkit/data/ModelCollectionBase.cpp:173-189 | the list is reversed; outside batches observers follow |
| ModelCollection.ModelCollectionBase.SwapEnds | src/devkit/data/ModelCollectionBase.cpp:177-186 | swapping from both ends reverses |
| ModelCollection.ModelCollectionBase.BeginUpdate | src/devkit/data/ModelCollectionBase.cpp:215-219 | opens a batch |
| ModelCollection.ModelCollectionBase.EndUpdate | src/devkit/data/ModelCollectionBase.cpp:221-236 | only the outermost end announces anything, and then replay is exact if and only if the condition on the batch holds |
| ModelCollection.AddedAndRemovedInOneBatch | src/devkit/data/ModelCollectionBase.cpp:24-36 | a client that adds an item to a collection of one and removes it in the same batch: the observer ends with another list |
| ModelCollection.ModelCollectionBase.StopWatching | src/devkit/data/ModelCollectionBase.cpp:204-213 | no item is watched any more; the order and the indices stay |
| ModelCollection.ModelCollectionBase.NotifyModelValueChanged | src/devkit/data/ModelCollectionBase.cpp:331-352 | a change of a watched item is passed on exactly when the item sits at the index it reports, always outside batches |
| ListMoves.ShiftedUpIsStable | src/devkit/data/ModelCollectionBase.cpp:107-138 | the block move is a permutation that keeps the order within both groups |
| ListMoves.ShiftedDownIsStable | src/devkit/data/ModelCollectionBase.cpp:140-171 | the same downwards |
| ListMoves.ShiftedUpPlace | src/devkit/data/ModelCollectionBase.cpp:107-138 | the block of selected items starts one place before the first of them, or at the front |
| ListMoves.ShiftedDownPlace | src/devkit/data/ModelCollectionBase.cpp:140-171 | the block ends one place after the last of them, or at the end |
| ListMoves.UpFormMove | src/devkit/data/ModelCollectionBase.cpp:116-133 | one turn of the loop extends the block by the next selected item |
| ListMoves.DownFormMove | src/devkit/data/ModelCollectionBase.cpp:147-166 | one turn of the downward loop extends the block |
| ListMoves.MovedToPermutes | src/devkit/data/ModelCollectionBase.cpp:86-105 | moving an item permutes the list |
| ListMoves.MovedToAt | src/devkit/data/ModelCollectionBase.cpp:86-105 | where every item stands after a move |
| ListMoves.ReversedPermutes | src/devkit/data/ModelCollectionBase.cpp:173-189 | reversing permutes the list |
| ListMoves.ReversedAt | src/devkit/data/ModelCollectionBase.cpp:173-189 | where every item stands after reversing |
| Transactions.RunsStayExact | src/devkit/data/DataModelBase.cpp:244-378 | after any run of begin, set, commit and revert each level records exactly the tracked properties that differ from its snapshot, compared with the current values at the top and with the next snapshot below, and the flag says whether the top records any |
| Transactions.ExactLevel | src/devkit/data/DataModelBase.cpp:59-77 | what that means for one level and one property, with the recorded value |
| Transactions.SetKeepsExact | src/devkit/data/DataModelBase.cpp:22-77 | setting a property records it, keeps it or forgets it as the snapshot demands |
| Transactions.BeginKeepsExact | src/devkit/data/DataModelBase.cpp:244-251 | a new level starts with nothing recorded and the flag off |
| Transactions.CommitKeepsExact | src/devkit/data/DataModelBase.cpp:253-273 | a commit keeps the values and makes the level below exact |
| Transactions.MergeIsDifference | src/devkit/data/DataModelBase.cpp:323-378 | folding two adjacent differences gives the difference across both |
| Transactions.RevertKeepsExact | src/devkit/data/DataModelBase.cpp:275-291 | a revert brings every tracked property back to the snapshot and leaves the level below exact |
| Transactions.RestoreIsSnapshot | src/devkit/data/DataModelBase.cpp:293-321 | writing the recorded originals back restores the snapshot |
| Transactions.RevertUndoes | src/devkit/data/DataModelBase.cpp:244-321 | reverting undoes all that happened to the tracked properties since the transaction began, whatever transactions were begun and ended in between, and leaves the older snapshots |
| Transactions.SnapshotsBelow | src/devkit/data/DataModelBase.cpp:244-291 | a run that never ends more transactions than it begins keeps the snapshots from before it, below those it left open |
| Transactions.SetGives | src/devkit/data/DataModelBase.cpp:22-57 | in the machine of snapshots, setting changes that property and no other, the flag apart |
| Transactions.BeginGives | src/devkit/data/DataModelBase.cpp:244-251 | beginning keeps all values and remembers them |
| Transactions.CommitGives | src/devkit/data/DataModelBase.cpp:253-273 | committing keeps all values and forgets the latest snapshot |
| Transactions.RevertGives | src/devkit/data/DataModelBase.cpp:275-291 | reverting takes the tracked properties from the latest snapshot, forgets it, and keeps the others |
| Transactions.RestoringStep | src/devkit/data/DataModelBase.cpp:293-321 | setting one original of a modified level again leaves the flag on and the other levels alone, and records at most that property |
| Transactions.ExactIsUnique | src/ui/TransactionalViewModelBase.cpp:21-237 | exactness determines what is recorded: two implementations that keep it agree at every level of every run |
| Transactions.BoolChangesBack | src/ui/TransactionalViewModelBase.cpp:21-36 | a recorded boolean that changes has changed back, so forgetting it without comparing is the same as comparing |
| Transactions.RecordedDiffers | src/devkit/data/DataModelBase.cpp:59-77 | a recorded original always differs from the current value |
| DataModel.DataModelBase.constructor | src/devkit/data/DataModelBase.hh:106-106 | a model starts with no transaction, exact and unmodified |
| DataModel.ValueChanged | src/devkit/data/DataModelBase.cpp:59-77 | the sorted vector records the first original and forgets it when the value is back |
| DataModel.FindEntry | src/devkit/data/DataModelBase.cpp:13-20 | finds the entry of a property, or the place where it belongs |
| DataModel.MergeInto | src/devkit/data/DataModelBase.cpp:323-378 | folding the entries one by one gives the merged level |
| DataModel.DecodeEncode | src/devkit/data/DataModelBase.cpp:59-77 | a value is read back from its entry |
| DataModel.DataModelBase.OnValueChanged | src/devkit/data/DataModelBase.cpp:22-57 | the change is recorded, the flag follows, and the change is held back or reported once |
| DataModel.DataModelBase.RecordInTop | src/devkit/data/DataModelBase.cpp:26-30 | the top transaction records the change; the flag to set is whether it records any |
| DataModel.DataModelBase.SetValue | src/devkit/data/DataModelBase.cpp:22-57 | setting a property steps the machine of differences; outside a batch every property that gets another value, the flag included, is reported once with its true old and new value and no other is, so setting the current value reports nothing; inside one nothing is reported |
| DataModel.DataModelBase.BeginTransaction | src/devkit/data/DataModelBase.cpp:244-251 | steps the machine; reports the flag only if it changes |
| DataModel.DataModelBase.CommitTransaction | src/devkit/data/DataModelBase.cpp:253-273 | steps the machine; reports the flag only if it changes |
| DataModel.DataModelBase.RevertTransaction | src/devkit/data/DataModelBase.cpp:275-321 | steps the machine through the model's own setter; outside a batch every property that gets another value, the flag included, is reported once with its true old and new value and no other is reported, inside one nothing is |
| DataModel.DataModelBase.RestoreOriginals | src/devkit/data/DataModelBase.cpp:293-321 | the originals are set again one after the other, the flag and the other levels stay, and what is reported outside a batch is exactly the properties whose value changes, once each |
| DataModel.DataModelBase.IsModified | src/devkit/data/DataModelBase.hh:80-103 | true exactly when the top transaction records the property |
| DataModel.DataModelBase.BeginUpdate | src/devkit/data/DataModelBase.cpp:193-199 | opens a batch, or counts one more |
| DataModel.DataModelBase.EndUpdate | src/devkit/data/DataModelBase.cpp:201-242 | the outermost end reports each property that differs from its value at the outermost begin once, with exactly those two values, and nothing else; values and transactions stay |
| DataModel.DataModelBase.Deliver | src/devkit/data/DataModelBase.cpp:33-56 | a change is held back while a batch is open, reported otherwise |
| DataModel.DelayChange | src/devkit/data/DataModelBase.cpp:35-45 | the first old value stays and the newest new value wins, one entry for each property |
| DataModel.DelayInto | src/devkit/data/DataModelBase.cpp:33-46 | the three lists together describe how the current values differ from those at the start of the batch |
| DataModel.EffectiveIsExact | src/devkit/data/DataModelBase.cpp:201-242 | dropping the changes that ended where they began leaves exactly the properties that differ |
| DataModel.DataModelBase.NotifyEffective | src/devkit/data/DataModelBase.cpp:211-238 | reports the held-back changes whose values differ, in order |
| TransactionalViewModel.TransactionalViewModelBase.constructor | src/ui/TransactionalViewModelBase.hh:10-40 | a view model starts like the machine of snapshots with none |
| TransactionalViewModel.TransactionalViewModelBase.SetValue | src/ui/TransactionalViewModelBase.cpp:10-74 | is a step of a machine that keeps whole snapshots; every property that gets another value, the flag included, is told once with its true old and new value and no other is, the flag first |
| TransactionalViewModel.TransactionalViewModelBase.BeginTransaction | src/ui/TransactionalViewModelBase.cpp:94-101 | is a step of the snapshot machine; only a change of the flag is told |
| TransactionalViewModel.TransactionalViewModelBase.CommitTransaction | src/ui/TransactionalViewModelBase.cpp:103-123 | is a step of the snapshot machine; only a change of the flag is told |
| TransactionalViewModel.TransactionalViewModelBase.RevertTransaction | src/ui/TransactionalViewModelBase.cpp:125-178 | is a step of the snapshot machine; every property that gets another value, the flag included, is told once with its true old and new value, in whatever order the maps are gone through |
| TransactionalViewModel.TransactionalViewModelBase.GetPreviousValue | src/ui/TransactionalViewModelBase.hh:107-131 | gives the snapshot's value exactly for the tracked properties that differ from it |
| TransactionalViewModel.TransactionalViewModelBase.ChangeValue | src/ui/TransactionalViewModelBase.cpp:10-92 | sets a property, records it and tells of exactly what changes, with and without a transaction, also while originals are being restored and the level is not exact |
| TransactionalViewModel.TransactionalViewModelBase.OnValueChanged | src/ui/TransactionalViewModelBase.cpp:10-74 | the top transaction records a change that was made, the flag follows, and the flag and the property are told in that order |
| TransactionalViewModel.TransactionalViewModelBase.Restore | src/ui/TransactionalViewModelBase.cpp:143-178 | setting the integers and booleans, then the strings, in any order, restores every recorded property, leaves the flag alone and tells of each that changes once |
| Reports.ToldIsExact | src/devkit/data/DataModelBase.cpp:22-57 | what is told of setting a property, with or without a transaction, is exactly what changes: each property once, with its true old and new value |
| Reports.SetAndTold | src/devkit/data/DataModelBase.cpp:22-57 | setting a property to another value changes that property and perhaps the flag, and tells of the flag first |
| Reports.RestoredOneMore | src/devkit/data/DataModelBase.cpp:293-321 | setting one more recorded original makes an exact report of the changes so far an exact report of all of them, without a word of the flag |
| Reports.ExactFlag | src/devkit/data/DataModelBase.cpp:275-291 | changing the flag last and reporting it keeps the report exact |
| Reports.JoinReports | src/devkit/data/DataModelBase.cpp:211-238 | exact reports for different kinds of properties join to an exact report for all of them |
| TransactionalViewModel.ValueChanged | src/ui/TransactionalViewModelBase.cpp:21-92 | the maps record what the machine of differences records, although booleans are not compared |
| TransactionalViewModel.Fold | src/ui/TransactionalViewModelBase.cpp:180-237 | folding a map into the one below in any order gives the same result |
| TransactionalViewModel.MergeInto | src/ui/TransactionalViewModelBase.cpp:180-237 | folding both maps gives the merged level |
| TransactionalViewModel.VectorAndMapsAgree | src/ui/TransactionalViewModelBase.cpp:21-237 | a sorted vector and a pair of maps that hold the same level keep the same properties with the same values |
| SortedEntries.Find | src/devkit/data/DataModelBase.cpp:13-20 | lower_bound finds the entry of a key exactly when there is one |
| SortedEntries.InsertRepresents | src/devkit/data/DataModelBase.cpp:59-77 | inserting at the place found keeps the vector a sorted map |
| SortedEntries.EraseRepresents | src/devkit/data/DataModelBase.cpp:73-76 | erasing an entry removes its key from the map |
| StandardAlgorithms.LowerBound | src/devkit/data/ModelPropertyContainer.cpp:13-22 | the position that std::lower_bound gives |
| StandardAlgorithms.BinarySearch | src/services/PointerFinder.cpp:214 | true exactly when the key occurs |
| StandardAlgorithms.Sort | src/services/PointerFinder.cpp:162-166 | a sorted permutation, as std::sort promises, in no particular order of equivalent elements |
| PropertyContainer.RunsAreMaps | src/devkit/data/ModelPropertyContainer.cpp:24-232 | after any run of writes that leaves no emptied slot behind, every property reads the last value written to it, or its default |
| PropertyContainer.RunsAreMapsExactly | src/devkit/data/ModelPropertyContainer.cpp:24-232 | from any sound container, every property reads the last value written to it after each write of a run if and only if no write of the run lands in a slot that another property owns |
| PropertyContainer.WriteReads | src/devkit/data/ModelPropertyContainer.cpp:24-232 | what is written is read back, in every state; writing the current value changes nothing |
| PropertyContainer.WriteIsTold | src/devkit/data/ModelPropertyContainer.cpp:24-232 | a write tells of its own property once, with the values it reads before and after, exactly when they differ; this is all that changes if and only if the write does not land in a slot that another property owns |
| PropertyContainer.OthersUnchanged | src/devkit/data/ModelPropertyContainer.cpp:80-192 | a write leaves all other properties alone if and only if the slot it changes is not owned by another property |
| PropertyContainer.WriteKeepsClean | src/devkit/data/ModelPropertyContainer.cpp:146-188 | a clean container, where each stored string has a slot of its own, stays clean if and only if the write does not put an empty string over a stored one whose default is not empty |
| PropertyContainer.CleanNeverCollides | src/devkit/data/ModelPropertyContainer.cpp:80-192 | in a clean container no write hits the slot of another property |
| PropertyContainer.EmptiedPropertyIsOverwritten | src/devkit/data/ModelPropertyContainer.cpp:165-184 | the failing case: a property that was emptied later reads what was written to another one |
| PropertyContainer.WriteKeepsSound | src/devkit/data/ModelPropertyContainer.cpp:24-232 | in any state no number is kept at its default, every string entry is the mark of the empty string or points at a slot, and a slot with a string has an owner |
| PropertyContainer.WriteKeepsNoDefaults | src/devkit/data/ModelPropertyContainer.cpp:137-188 | a clean container that keeps no property at its default stays so if and only if the write does not set a property kept as the empty string to its default |
| PropertyContainer.EmptiedPropertyKeepsDefault | src/devkit/data/ModelPropertyContainer.cpp:143-149 | the failing case: a property that was emptied and then set to its default keeps its entry, though the container is clean |
| PropertyContainer.RunsStaySound | src/devkit/data/ModelPropertyContainer.cpp:24-232 | the same after any run |
| PropertyContainer.ChunkOnlyWhenFull | src/devkit/data/ModelPropertyContainer.cpp:80-105 | while clean, four slots are added only when as many properties hold strings as there are slots |
| PropertyContainer.SlotsMatchOwners | src/devkit/data/ModelPropertyContainer.cpp:80-192 | in a clean container a slot holds a string exactly when a property owns it, and then one property only |
| PropertyContainer.FullPool | src/devkit/data/ModelPropertyContainer.cpp:80-105 | in a clean container without an empty slot as many properties own slots as there are slots |
| PropertyContainer.FirstEmpty | src/devkit/data/ModelPropertyContainer.cpp:84-99 | the index of the first slot that looks empty |
| PropertyContainer.Load | src/devkit/data/ModelPropertyContainer.cpp:80-105 | only that slot changes; the pool grows by four exactly when no slot is empty |
| PropertyContainer.ModelPropertyContainer.constructor | src/devkit/data/ModelPropertyContainer.hh:15-15 | a new container is empty and clean, and every property reads as its default |
| PropertyContainer.ModelPropertyContainer.FindValue | src/devkit/data/ModelPropertyContainer.cpp:13-22 | the number kept for a key |
| PropertyContainer.ModelPropertyContainer.GetValue | src/devkit/data/ModelPropertyContainer.hh:37-92 | reads the value or the default |
| PropertyContainer.ModelPropertyContainer.GetStringAt | src/devkit/data/ModelPropertyContainer.cpp:62-78 | walking the chunks finds the slot with the index; an index that is no slot reads as empty |
| PropertyContainer.ModelPropertyContainer.LoadIntoEmptyStringSlot | src/devkit/data/ModelPropertyContainer.cpp:80-105 | the two loops find the first empty slot; a chunk of four is added exactly when there is none |
| PropertyContainer.ModelPropertyContainer.SetBool | src/devkit/data/ModelPropertyContainer.cpp:24-56 | writes the value; listeners are told of the property once, with the values it reads before and after, exactly when they differ, and of no other property |
| PropertyContainer.ModelPropertyContainer.SetInt | src/devkit/data/ModelPropertyContainer.cpp:198-232 | the same for integers |
| PropertyContainer.ModelPropertyContainer.SetString | src/devkit/data/ModelPropertyContainer.cpp:107-192 | the same for strings, whether the property was absent, kept as the empty string, or kept in a slot |
| NotifyTargetSet.LiveIsInsertionOrder | src/devkit/data/NotifyTargetSet.hh:110-166 | after any run the set holds exactly the listeners added and not removed since, each once, in the order they were added |
| NotifyTargetSet.SnapshotsAreIsolated | src/devkit/data/NotifyTargetSet.hh:186-232 | whatever happens until it unlocks, a lock holder goes on seeing the list it locked |
| NotifyTargetSet.LocksAddUp | src/devkit/data/NotifyTargetSet.hh:186-232 | the lock counts of the chain add up to the number of lock holders |
| NotifyTargetSet.NotifyTargetSet.HolderSeesItsList | src/devkit/data/NotifyTargetSet.hh:186-232 | the node of every lock holder is still in the chain, is locked, and holds the list the holder saw |
| NotifyTargetSet.NotifyTargetSet.UnlockedIsOneNode | src/devkit/data/NotifyTargetSet.hh:215-232 | when nothing is locked at most one node is left |
| NotifyTargetSet.NotifyTargetSet.Add | src/devkit/data/NotifyTargetSet.hh:110-127 | adds to the live list unless it is there; every lock holder keeps its node and list |
| NotifyTargetSet.NotifyTargetSet.Remove | src/devkit/data/NotifyTargetSet.hh:133-156 | takes the listener out of the live list; every lock holder keeps its node and list |
| NotifyTargetSet.NotifyTargetSet.Clear | src/devkit/data/NotifyTargetSet.hh:159-166 | empties the live list; every lock holder keeps its node and list |
| NotifyTargetSet.NotifyTargetSet.EnsureMutable | src/devkit/data/NotifyTargetSet.hh:257-266 | an unlocked first node is left as it is; a locked one gets a fresh unlocked copy with the same list in front of it |
| NotifyTargetSet.NotifyTargetSet.Lock | src/devkit/data/NotifyTargetSet.hh:201-210 | the newest holder sees the live list; older holders are as before |
| NotifyTargetSet.NotifyTargetSet.LockIfNotEmpty | src/devkit/data/NotifyTargetSet.hh:186-193 | locks exactly when the live list is not empty |
| NotifyTargetSet.NotifyTargetSet.Unlock | src/devkit/data/NotifyTargetSet.hh:215-232 | releases the newest holder and no other, frees only a node nobody holds, keeps the live list; without a lock it does nothing |
| NotifyTargetSet.NotifyTargetSet.IsEmpty | src/devkit/data/NotifyTargetSet.hh:171-174 | true exactly when the live list is empty |
| NotifyTargetSet.HolderIsInChain | src/devkit/data/NotifyTargetSet.hh:235-254 | a holder stands for one lock of a node of the chain |
| NotifyTargetSet.Erased | src/devkit/data/NotifyTargetSet.hh:139-155 | finding and erasing takes out the one occurrence and keeps the order |
| CapturedMemoryBlock.CapturedMemoryBlock.constructor | src/devkit/data/CapturedMemoryBlock.hh:23-40 | a new block has all addresses matching |
| CapturedMemoryBlock.CapturedMemoryBlock.SetMatchingAddresses | src/devkit/data/CapturedMemoryBlock.cpp:242-263 | the matching addresses are those of the slice that lie in the block if and only if the slice has another length than the block, or its elements are distinct and within it; the stored count, always the length of the slice, is right if and only if the slice is as long as the block, or distinct and within it; padding bits are clear |
| CapturedMemoryBlock.FullSlice | src/devkit/data/CapturedMemoryBlock.cpp:244-246 | a slice as long as the block holds all of its addresses exactly when it is distinct and within it |
| CapturedMemoryBlock.DuplicatesMatchAll | src/devkit/data/CapturedMemoryBlock.cpp:244-246 | the failing case: after setting the slice 0, 0 in a block of two addresses, the address 1 matches too |
| CapturedMemoryBlock.CapturedMemoryBlock.ExcludeMatchingAddress | src/devkit/data/CapturedMemoryBlock.cpp:281-304 | that address stops matching and no other if and only if it did not match before or the lowered count is not the number of addresses; otherwise all match afterwards. The count goes down exactly if the address matched, and a right count stays right. The padding bits are clear afterwards if and only if they were, or, for the first exclusion, the address count is divisible by 8 |
| CapturedMemoryBlock.ExcludedMatchesAgain | src/devkit/data/CapturedMemoryBlock.cpp:281-304 | the failing case: a block of two addresses whose count is three excludes one, and both match |
| CapturedMemoryBlock.CapturedMemoryBlock.ContainsMatchingAddress | src/devkit/data/CapturedMemoryBlock.cpp:315-331 | true exactly for matching addresses of the block |
| CapturedMemoryBlock.CapturedMemoryBlock.HasMatchingAddress | src/devkit/data/CapturedMemoryBlock.hh:162-173 | the quick test agrees with the matching addresses inside the block; without bits it accepts any address |
| CapturedMemoryBlock.CapturedMemoryBlock.GetAddressIndex | src/devkit/data/CapturedMemoryBlock.cpp:333-380 | the number of matching addresses below a matching one, -1 for any other address |
| CapturedMemoryBlock.CapturedMemoryBlock.GetMatchingAddress | src/devkit/data/CapturedMemoryBlock.cpp:382-400 | the matching address with the given rank; for any other index the wrapped sum while all match, otherwise 0, or an address behind the matching ones when a padding bit stands at that place |
| CapturedMemoryBlock.CapturedMemoryBlock.ListedIsRanked | src/devkit/data/CapturedMemoryBlock.cpp:333-400 | rank and select undo each other, and there are as many matching addresses as the rank of the end |
| CapturedMemoryBlock.CapturedMemoryBlock.EnumerateMatchingAddressesInternal | src/devkit/data/CapturedMemoryBlock.cpp:416-448 | visits the addresses of the bits that are set, in ascending order, up to where the callback stops; these are the matching ones if and only if no padding bit is set |
| CapturedMemoryBlock.CapturedMemoryBlock.EnumerateMatchingAddresses | src/devkit/data/CapturedMemoryBlock.cpp:402-414 | visits exactly the matching addresses in ascending order while all match, otherwise the addresses of the bits set, which are the matching ones if and only if no padding bit is set; up to where the callback stops |
| CapturedMemoryBlock.CapturedMemoryBlock.ListedComesFirst | src/devkit/data/CapturedMemoryBlock.cpp:416-448 | the matching addresses come first in what is enumerated; with a padding bit set there is more |
| CapturedMemoryBlock.PaddingIsListed | src/devkit/data/CapturedMemoryBlock.cpp:281-304 | the failing case: a block of nine addresses that excludes one enumerates more than the eight that match |
| CapturedMemoryBlock.CapturedMemoryBlock.ScannedIsListed | src/devkit/data/CapturedMemoryBlock.cpp:419-448 | the bits enumerated are the matching addresses exactly when the padding is clear |
| CapturedMemoryBlock.CapturedMemoryBlock.CopyMatchingAddresses | src/devkit/data/CapturedMemoryBlock.cpp:265-279 | the block has the same matching addresses and count as the source |
| CapturedMemoryBlock.AllHit | src/devkit/data/CapturedMemoryBlock.cpp:242-263 | a slice hits as many addresses of a block as it has elements exactly when all lie in it and are distinct |
| CapturedMemoryBlock.RankIsHits | src/devkit/data/CapturedMemoryBlock.cpp:250-262 | the bits set are as many as the addresses of the block that the slice hits |
| CapturedMemoryBlock.RankWithout | src/devkit/data/CapturedMemoryBlock.cpp:302-304 | clearing a set bit takes one off the count, clearing another one does nothing |
| CapturedMemoryBlock.ScanByte | src/devkit/data/CapturedMemoryBlock.cpp:431-444 | shifting a byte until it is zero reports the addresses of its bits |
| CapturedMemoryBlock.ScanBytes | src/devkit/data/CapturedMemoryBlock.cpp:424-447 | the bytes are gone through until the addresses of the block are passed |
| MatchingBits.SelectUndoesRank | src/devkit/data/CapturedMemoryBlock.cpp:333-400 | an address with a rank stands at that place of the list |
| MatchingBits.RankUndoesSelect | src/devkit/data/CapturedMemoryBlock.cpp:333-400 | the rank of a listed address is its place |
| MatchingBits.RankIsCount | src/devkit/data/CapturedMemoryBlock.cpp:333-377 | the rank counts the set of the flags below |
| MatchingBits.MarkedAscend | src/devkit/data/CapturedMemoryBlock.cpp:402-448 | the list is ascending and holds only flags that are set |
| MatchingBits.MarkedExtend | src/devkit/data/CapturedMemoryBlock.cpp:419-448 | longer flags give the same list exactly when nothing is set beyond |
| MatchingBits.HalvesAddUp | src/devkit/data/CapturedMemoryBlock.cpp:355-364 | the table entries of the two halves of a byte add up to its bits |
| MatchingBits.CountWholeBytes | src/devkit/data/CapturedMemoryBlock.cpp:353-368 | counting whole bytes by table gives the rank |
| MatchingBits.CountInByte | src/devkit/data/CapturedMemoryBlock.cpp:369-379 | counting with a growing mask gives the rank within a byte |
| MatchingBits.WriteFlag | src/devkit/data/CapturedMemoryBlock.cpp:259-260 | setting or clearing one bit of a byte changes that flag alone |
| SharedMemory.CapturedMemory.Construct | src/devkit/data/CapturedMemoryBlock.hh:23-40 | a new block with more than eight bytes points at the given buffer, which counts one reference and which no other block points at; all counts stay right and all other blocks and their bytes are as before |
| SharedMemory.CapturedMemory.Copy | src/devkit/data/CapturedMemoryBlock.cpp:6-20 | the copy shows the same bytes and shares the buffer, which counts it |
| SharedMemory.CapturedMemory.Move | src/devkit/data/CapturedMemoryBlock.cpp:38-53 | the new block shows the bytes, the old one shows none, no count changes |
| SharedMemory.CapturedMemory.Destroy | src/devkit/data/CapturedMemoryBlock.cpp:70-77 | a buffer is freed only if no block points at it any more; all other blocks show the same bytes |
| SharedMemory.CapturedMemory.ShareMemory | src/devkit/data/CapturedMemoryBlock.cpp:83-109 | the block takes over the buffer of the first other block with the same size, hash and bytes, or remembers the hash; every block shows the same bytes and every count stays right, also when both already share one |
| SharedMemory.CapturedMemory.Fill | src/devkit/data/CapturedMemoryBlock.hh:50-61 | writing through the pointer changes exactly the blocks that share the buffer, so only this one while it has one reference |
| SharedMemory.Repoint | src/devkit/data/CapturedMemoryBlock.cpp:94-101 | taking the other reference before giving up the own one keeps every count right |
| SharedMemory.SoleOwner | src/devkit/data/CapturedMemoryBlock.cpp:73-76 | a buffer with one reference has no second block pointing at it |
| SharedMemory.RemoveBlock | src/devkit/data/CapturedMemoryBlock.cpp:70-77 | giving up a block keeps every count right and leaves no dangling pointer |
| SessionTracker.SessionTracker.ReloadIsMemory | src/data/context/SessionTracker.cpp:36-90 | once no session is going on, and if the file loaded at first ended with a line end, loading the journal gives the per-game totals and last starts that are in memory if and only if, for each game, the length of every session since and the start of its latest one fit in 32 bits |
| SessionTracker.SessionTracker.ReloadFindsSessions | src/data/context/SessionTracker.cpp:36-73 | loading at any moment finds the old sessions, those ended since, and the one going on with the length of its latest ping, clipped to 32 bits, if the file loaded at first ended with a line end |
| SessionTracker.SessionTracker.ReloadUnfinished | src/data/context/SessionTracker.cpp:36-73 | if it did not, the first session written is read as the end of its unfinished line, and all others as they are |
| SessionTracker.SessionTracker.WrittenIsFile | src/data/context/SessionTracker.cpp:146-188 | the file is what was loaded and one line for each session since; nothing is left of overwritten lines |
| SessionTracker.LateStartIsClipped | src/data/context/SessionTracker.cpp:46-69 | the failing case: a session that begins at second 2^32; a second tracker for the same file has another list |
| SessionTracker.SessionTracker.constructor | src/data/context/SessionTracker.cpp:28-34 | a tracker for an arbitrary file holds the totals of the sessions it can read and writes behind its end |
| SessionTracker.SessionTracker.LoadSessions | src/data/context/SessionTracker.cpp:36-73 | the list holds exactly the totals and last starts of the lines with the right form and checksum |
| SessionTracker.SessionTracker.AddSession | src/data/context/SessionTracker.cpp:75-90 | the game of the session gains its length and gets its start as the last one, all other games keep theirs, and the list has one entry for each game |
| SessionTracker.SessionTracker.SortSessions | src/data/context/SessionTracker.cpp:92-99 | the entries stay, and no entry has a later last start than the one before it |
| SessionTracker.SessionTracker.BeginSession | src/data/context/SessionTracker.cpp:101-124 | ends the session going on, lists the new game, and keeps the file |
| SessionTracker.SessionTracker.EndSession | src/data/context/SessionTracker.cpp:126-144 | the file is the journal of all ended sessions, with one line for this one in place of its pings |
| SessionTracker.SessionTracker.UpdateSession | src/data/context/SessionTracker.cpp:146-171 | a ping of the current session beyond a minute makes its line say the time so far; any other ping changes nothing |
| SessionTracker.SessionTracker.WriteSessionStats | src/data/context/SessionTracker.cpp:173-188 | the line covers the whole of the previous one and the position behind it is returned |
| SessionTracker.SessionTracker.GetTotalPlaytime | src/data/context/SessionTracker.cpp:190-214 | the sum of the lengths of the game's sessions, those read from the file and those ended since, plus the time of the one going on |
| SessionTracker.LineRoundTrip | src/data/context/SessionTracker.cpp:46-69 | a line is read back as it was written if and only if its numbers fit in 32 bits |
| SessionTracker.LineIsRead | src/data/context/SessionTracker.cpp:46-69 | a line is read back with its numbers clipped to 32 bits |
| SessionTracker.TextIsRead | src/data/context/SessionTracker.cpp:43-70 | a text of whole lines is read as its old sessions followed by the ones written |
| SessionTracker.UnfinishedLineSwallows | src/data/context/SessionTracker.cpp:43-70 | behind an unfinished line a session is read as part of that line |
| SessionTracker.UnfinishedTextIsRead | src/data/context/SessionTracker.cpp:43-70 | behind an unfinished line only the first of several sessions is |
| SessionTracker.LongerCovers | src/data/context/SessionTracker.cpp:173-188 | the line of a longer session is not shorter |
| SessionTracker.TotalsOfAll | src/data/context/SessionTracker.cpp:75-90 | when all game ids fit in 32 bits, adding what was read gives the totals that adding in memory gives if and only if, for each game, every length and the latest start fit |
| SessionTracker.GameIsRead | src/data/context/SessionTracker.cpp:75-90 | for one game: the time read is never more than the time played, and is that time exactly when all lengths fit; the last start read is the true one exactly when the latest start fits |
| SessionTracker.TotalsGrow | src/data/context/SessionTracker.cpp:75-90 | adding sessions adds the sum of their lengths to the total of their game; its last start is that of its latest session |
| SessionTracker.TotalsAreSums | src/data/context/SessionTracker.cpp:36-73 | the totals read are the sums of the lengths read for each game, and the last start is that of its last line |
| SessionTracker.SessionTracker.TotalIsPlayed | src/data/context/SessionTracker.cpp:190-214 | a game that is listed has the sum of its sessions, one that is not was never played |
| SessionTracker.PlaysHundred | src/data/context/SessionTracker.cpp:101-144 | a client plays for 100 seconds from an empty journal, is told 100, and leaves one line that says so |
| SessionTracker.ReloadsHundred | src/data/context/SessionTracker.cpp:36-73 | a second tracker for that journal is told 100 too |
| SessionTracker.LineOfSession | src/data/context/SessionTracker.cpp:173-188 | a line in full: game, start and length with a colon each, the first and last characters of their checksum, and the line end |
| SessionTracker.HoldsPermuted | src/data/context/SessionTracker.cpp:92-99 | sorting keeps one entry for each game |
| SessionTracker.WriteBehind | src/data/context/SessionTracker.cpp:184-187 | a text at least as long as what stood at the end replaces it completely |
| JournalText.LargerIsNotShorter | src/data/context/SessionTracker.cpp:178-179 | a larger number never prints shorter |
| JournalText.NumberOfDecimal | src/devkit/util/Tokenizer.hh:92-101 | a printed number is the number its digits stand for |
| JournalText.ReadPrinted | src/devkit/util/Tokenizer.hh:92-101 | a printed number is read back, clipped to 32 bits, up to its last digit |
| JournalText.ReadsLikeStrtoul | src/devkit/util/Tokenizer.hh:92-101 | a sign is read and a negative number wraps; without a digit nothing is read |
| JournalText.LinesJoin | src/devkit/services/impl/FileTextReader.hh:23-30 | a text of whole lines followed by another text is read line by line in that order |

## Left out

- PointerFinder.Analyze: promises chains beyond direct pointers only as far as no memo cuts them off; when two places begin at the same address of the first capture, which of their chains are found depends on the order of the candidates, which sorting by offset leaves open (`src/services/PointerFinder.cpp:162-166`, `394-407`).
- PointerFinder.GetPointers: does not model the progress fractions that are passed to the callback, only its answers.
- PointerFinder.InitializePotentialPointers: takes the wrap-around of the 32-bit subtraction as two's complement, so routes hold modulo 2^32 and need no bound on addresses; `Capture::Initialize` and `NarrowSearch` are not part of this model.
- ModelCollection.ModelCollectionBase.UpdateIndices: keeps items as values in the list, each with an identity, instead of objects on the heap, so the aliasing of an item is not modelled; `OnBeforeItemRemoved`, `OnBeginUpdate` and `OnEndUpdate`, frozen collections, starting to watch in the middle of a batch, and listeners that change the collection are left out.
- ModelCollection.ModelCollectionBase.EndUpdate: the observer ignores indices outside its list; what an observer that fails on -1 does is not modelled.
- ModelCollection.ModelCollectionBase.NotifyModelValueChanged: the three overloads differ only in the type of the value and are one method.
- DataModel.DataModelBase.EndUpdate: the replayed changes go straight to the listeners instead of through `OnValueChanged` with a marked argument; listeners that change the model while they are notified are left out.
- DataModel.DataModelBase.RevertTransaction: the order in which the changes are reported is not part of its contract.
- TransactionalViewModel.TransactionalViewModelBase.SetValue: bindings and the debug-only copies of values are left out; an event is the property with its old and new value.
- PropertyContainer.ModelPropertyContainer.SetString: the mutex and the debug-only map are left out; keys and indices are unbounded integers.
- NotifyTargetSet.NotifyTargetSet.Lock: the iterators that a lock holder runs over its list are left out; a holder is a node and the list it saw there.
- CapturedMemoryBlock.CapturedMemoryBlock.constructor: a block lies wholly in the 32-bit address space, padding included; the eight bytes inside a block and the allocated ones are one array, and the address count is fixed.
- CapturedMemoryBlock.CapturedMemoryBlock.SetMatchingAddresses: for a block without addresses the padding of its one inline byte is as it was.
- SharedMemory.CapturedMemory.Copy: models the byte buffers alone; the bitmap part of copying, moving and destroying sizes by the number of matches (`src/devkit/data/CapturedMemoryBlock.cpp:25-34`, `57-67`, `79-80`) and is left out.
- SharedMemory.CapturedMemory.ShareMemory: blocks and buffers are entries of two maps, known by identity and address, instead of objects on the heap; the hash is a parameter, and the loop of `OptimizeMemory` that computes it is left out.
- SessionTracker.SessionTracker.ReloadIsMemory: the file loaded at first ends with a line end, as every file the tracker has written does; `SessionTracker.SessionTracker.ReloadUnfinished` says what is read otherwise, which depends on the checksum. Changing the user in the middle of a session is left out.
- SessionTracker.SessionTracker.UpdateSession: scheduling the next ping and the memory security check are left out.
- `SearchResults`, `Memory`, the achievement runtime, the emulator and game contexts, the server connection and all windows are not part of this model.
