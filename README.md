# Sorting race visualizer: the step-instrumented sorting engine

The app shows two lanes of bars side by side. Each lane holds a shuffled
`1...N` and is sorted by one of four algorithms: insertion sort, selection
sort, quicksort (Lomuto partition, pivot last) or top-down merge sort. Each
algorithm works in place on a `SortState` (`data`, `highlightedIndices`,
`description`). Before every `processStep` callback it sets the highlighted
indices. The controller records one frame per callback into `stepStates`:
a pair of deep copies of the two lanes, each labelled. The timeline opens
with an "Initial State" pair and closes with a "Complete" pair. A timer then
replays the frames one per tick.

This project models that engine in Dafny. It has seven modules:

- `State` (`state.dfy`). `SortState` is a class with its three fields and
  `copy`. `Snapshot` is what one `processStep` observes of a lane. `Swap`
  is `swapAt`. The module also holds the shared predicates: sortedness,
  "unchanged outside a range" and highlights in range.
- `Insertion`, `Selection`, `Quick` and `Merge` each do two things:
  - give the exact trace of each sort as functions on snapshots
    (`InsertionRun`, `SelectionRun`, `QuickRun`, `MergeSortRun`). Each
    returns the final lane and the sequence of snapshots passed to
    `processStep`;
  - give the in-place loops and recursion as methods on a `SortState`. Each
    method is proved to leave exactly that final state and return exactly
    that trace.

  Lemmas about the trace functions prove the following:
  - the array ends sorted;
  - the array ends as a permutation of its input;
  - the length is unchanged;
  - every emitted snapshot highlights only valid indices;
  - the lane's final state is its last emitted snapshot;
  - each algorithm's own trace shape;
  - for partition and merge, nothing outside `low...high` changes.
- `Timeline` (`timeline.dfy`) is the recorded timeline of one run, as a
  function of:
  - the two starting lanes;
  - the two algorithm choices;
  - a schedule, a sequence of lane choices that decides whose `processStep`
    comes next. The schedule stands in for the two concurrent sorting
    threads.

  Lemmas prove the following about it:
  - the timeline is bracketed by the Initial and Complete pairs;
  - every lane step appears once, in its own order;
  - the frames follow the schedule;
  - labels are correct;
  - each lane shows its latest snapshot;
  - highlights are in range in every frame;
  - the final frame shows both arrays sorted. From a shuffled `1...N`,
    that means exactly `1...N`.
- `Controller` (`controller.dfy`) is the `ViewController` class with the
  fields `state1`, `state2`, `stepStates` and `currentStep`, plus a flag
  for whether the step timer is scheduled. Its methods are `resetDataSets`,
  `recordStep`, `startSingleRun`, the sort button's start branch,
  `startStepTimer`, `stopStepTimer` and the timer's tick. `StartSingleRun` is
  proved to append exactly the `Timeline` function's frames. `PlayBack`
  ticks until the timer stops and is proved to show every recorded frame
  in order.

Algorithm choices `0...3` select insertion, selection, quick and merge sort,
as the segmented controls' indices do. Any other index runs no sort, as the
`default: break` branches do. Insertion sort's outer range `1..<count` traps
on an empty array, so every member that runs it requires a non-empty array.

Where the code differs from the app's stated design, the model follows the
code:

- The timeline holds the number of steps plus two frames: the Initial pair,
  one frame per step, and the Complete pair. It is not the number of steps
  plus one.
- The Complete pair copies the lanes as they are after their last step. It
  keeps the last highlights and does not clear them.
- In every recorded frame, the lane that did not step is labelled
  "Waiting", even after it has finished. It is never labelled "Complete"
  before the final pair.

## Model

| member | source | states |
|---|---|---|
| State.SortState.constructor | HW_1/ViewController.swift:28-35 | A new lane holds the given array, with no highlights and an empty description. |
| State.SortState.Copy | HW_1/ViewController.swift:37-42 | `copy()` returns a new object equal to the original in data, highlights and description. |
| State.CopyThenMutate | HW_1/ViewController.swift:37-42 | The copy is isolated: it still shows the original's old contents after the original's data and highlights are changed. |
| State.Swap | HW_1/ViewController.swift:311 | `swapAt` keeps the array's length. |
| State.SwapPermutes | HW_1/ViewController.swift:311 | `swapAt` only rearranges: the multiset of values is unchanged. |
| State.Span | HW_1/ViewController.swift:402 | `Set((low...high).map { $0 })` holds exactly the integers from `low` to `high`. |
| State.Ascending | HW_1/ViewController.swift:96-97 | `(1...size).map { $0 }` is the run whose `k`-th element is `1 + k`. |
| State.SortedPermutationOfAscending | HW_1/ViewController.swift:96-97 | A sorted rearrangement of `lo...lo+n-1` is exactly that run. |
| Insertion.Sink | HW_1/ViewController.swift:305-319 | The inner `while j > 0` loop keeps the array's length. |
| Insertion.InsertFrom | HW_1/ViewController.swift:304-320 | The outer loop from index `i` on keeps the array's length. |
| Insertion.SinkTrace | HW_1/ViewController.swift:305-319 | The inner loop first shows `{j, j-1}` on the untouched array. Every snapshot highlights two indices in `0...j`. It emits at most `2j` snapshots. At a non-inversion it emits that one probe and leaves the array as it was. |
| Insertion.SinkSorts | HW_1/ViewController.swift:305-319 | The array is sorted below `j` and already-passed elements lie above that prefix. Sinking `data[j]` then leaves `data[0..<hi]` sorted. |
| Insertion.SinkSortsPrefix | HW_1/ViewController.swift:304-320 | After the pass for outer index `i`, the prefix `data[0...i]` is sorted. |
| Insertion.InsertFromSorts | HW_1/ViewController.swift:304-320 | If the prefix `data[0..<i]` is sorted, the remaining passes leave the whole array sorted. |
| Insertion.InsertionSorts | HW_1/ViewController.swift:303-321 | `insertionSort` leaves the array sorted ascending. |
| Insertion.SinkPermutes | HW_1/ViewController.swift:305-319 | The inner loop only rearranges the array. |
| Insertion.InsertFromPermutes | HW_1/ViewController.swift:304-320 | The remaining passes only rearrange the array. |
| Insertion.InsertionPermutes | HW_1/ViewController.swift:303-321 | `insertionSort` leaves a permutation of its input. |
| Insertion.SwapRoundConforms | HW_1/ViewController.swift:307-315 | The probe `{j, j-1}` and, after the swap, `{j-1, j}` both highlight valid indices and show all bars. |
| Insertion.SinkConforms | HW_1/ViewController.swift:305-319 | Every snapshot of the inner loop has all bars and only valid highlights. |
| Insertion.InsertFromConforms | HW_1/ViewController.swift:304-320 | Every snapshot of the remaining passes has all bars and only valid highlights. |
| Insertion.InsertionConforms | HW_1/ViewController.swift:303-321 | Every snapshot `insertionSort` emits has all bars and only valid highlights. |
| Insertion.SinkEndsOnLastStep | HW_1/ViewController.swift:305-319 | After the inner loop, the lane is in the state of its last emitted snapshot. |
| Insertion.InsertFromEndsOnLastStep | HW_1/ViewController.swift:304-320 | After the remaining passes, the lane is in the state of its last emitted snapshot. |
| Insertion.InsertionEndsOnLastStep | HW_1/ViewController.swift:303-321 | After `insertionSort`, the lane is in the state of its last emitted snapshot, or its start state if it emitted none. |
| Insertion.SinkInPlace | HW_1/ViewController.swift:305-319 | The in-place inner loop leaves the lane in the state `Sink` gives and emits exactly `Sink`'s trace. The description is kept. |
| Insertion.InsertAll | HW_1/ViewController.swift:304-320 | The in-place outer loop leaves the lane in the state `InsertionRun` gives and emits exactly its trace. |
| Insertion.InsertionSort | HW_1/ViewController.swift:303-321 | `insertionSort` emits exactly `InsertionRun`'s trace. It leaves the data sorted and a permutation of the input. Every snapshot conforms, and the lane ends on its last snapshot. |
| Selection.ScanMin | HW_1/ViewController.swift:327-334 | The scan leaves the array untouched. It returns a `minIndex` in `i..<count`. It emits one snapshot per remaining `j`. |
| Selection.SelectPass | HW_1/ViewController.swift:325-344 | One round of the outer loop keeps the array's length. |
| Selection.SelectFrom | HW_1/ViewController.swift:324-345 | The outer loop from `i` on keeps the array's length. |
| Selection.ScanFindsMin | HW_1/ViewController.swift:327-334 | The scan ends on the first index of the least element of `data[i..<count]`. |
| Selection.PassMin | HW_1/ViewController.swift:325-334 | After the inner scan started at `minIndex = i`, `minIndex` is the first position of the minimum of `data[i..<count]`. |
| Selection.SelectPassPlaces | HW_1/ViewController.swift:324-345 | After iteration `i`, `data[0...i]` is sorted and none of its elements exceeds a later one. |
| Selection.SelectFromSorts | HW_1/ViewController.swift:324-345 | With that invariant at `i`, the remaining rounds leave the array sorted. |
| Selection.SelectionSorts | HW_1/ViewController.swift:323-346 | `selectionSort` leaves the array sorted ascending. |
| Selection.ScanProbes | HW_1/ViewController.swift:327-330 | Given that `minIndex` is the first least element seen so far, the scan's `k`-th snapshot shows the untouched array and highlights exactly `{minIndex, j}`, where `j` is the index probed and `minIndex` the first least element of `data[i..<j]`. |
| Selection.SelectPassTrace | HW_1/ViewController.swift:325-344 | A round emits one probe per later index `j`, each highlighting exactly `{minIndex, j}` with `minIndex` the running minimum, on the untouched array. Exactly when `i != minIndex`, it then emits `{i, minIndex}` before and after the swap and ends on the swapped array. Otherwise the array is unchanged. |
| Selection.ScanConforms | HW_1/ViewController.swift:327-330 | Every scan snapshot `{minIndex, j}` highlights valid indices. |
| Selection.SelectPassConforms | HW_1/ViewController.swift:325-344 | Every snapshot of a round has all bars and valid highlights. |
| Selection.SelectPassPermutes | HW_1/ViewController.swift:336-344 | A round only rearranges the array. |
| Selection.SelectFromConforms | HW_1/ViewController.swift:324-345 | Every snapshot of the remaining rounds conforms. |
| Selection.SelectFromPermutes | HW_1/ViewController.swift:324-345 | The remaining rounds only rearrange the array. |
| Selection.SelectionConforms | HW_1/ViewController.swift:323-346 | Every snapshot `selectionSort` emits has all bars and only valid highlights. |
| Selection.SelectionPermutes | HW_1/ViewController.swift:323-346 | `selectionSort` leaves a permutation of its input. |
| Selection.ScanEndsOnLastStep | HW_1/ViewController.swift:327-334 | After the scan, the lane is in the state of its last snapshot. |
| Selection.SelectFromEndsOnLastStep | HW_1/ViewController.swift:324-345 | After the remaining rounds, the lane is in the state of its last snapshot. |
| Selection.SelectionEndsOnLastStep | HW_1/ViewController.swift:323-346 | After `selectionSort`, the lane is in the state of its last snapshot, or its start state if it emitted none. |
| Selection.ScanInPlace | HW_1/ViewController.swift:325-334 | The in-place scan returns `ScanMin`'s `minIndex`, leaves its state and emits its trace. |
| Selection.SelectPassInPlace | HW_1/ViewController.swift:325-344 | One in-place round leaves `SelectPass`'s state and emits its trace. |
| Selection.SelectAll | HW_1/ViewController.swift:324-345 | The in-place outer loop leaves `SelectionRun`'s state and emits its trace. |
| Selection.SelectionSort | HW_1/ViewController.swift:323-346 | `selectionSort` emits exactly `SelectionRun`'s trace. It leaves the data sorted and a permutation of the input. Every snapshot conforms, and the lane ends on its last snapshot. |
| Quick.ScanRound | HW_1/ViewController.swift:361-373 | One scan iteration advances `i` by at most one and keeps the length. |
| Quick.PartitionScan | HW_1/ViewController.swift:361-381 | The rest of `partition` returns a boundary between `i` and `high` and keeps the length. |
| Quick.Partitioned | HW_1/ViewController.swift:357-382 | `partition(low, high)` returns `p` in `low...high` and keeps the length. |
| Quick.QuickRange | HW_1/ViewController.swift:349-355 | The nested `quickSort(low, high)` keeps the length. |
| Quick.QuickStep | HW_1/ViewController.swift:350-354 | Partitioning and sorting both sides keeps the length. |
| Quick.QuickSides | HW_1/ViewController.swift:351-353 | Sorting the two sides of the pivot keeps the length. |
| Quick.RoundInside | HW_1/ViewController.swift:365-372 | A scan iteration changes nothing outside `low...high`. It keeps all of that range on one side of any bound it was all on. |
| Quick.ScanInside | HW_1/ViewController.swift:361-379 | The rest of `partition` changes nothing outside `low...high` and keeps a range that was all on one side of a bound on that side. |
| Quick.PartitionInside | HW_1/ViewController.swift:357-382 | `partition` changes nothing outside `low...high` and keeps a range that was all on one side of a bound on that side. |
| Quick.QuickRangeOutside | HW_1/ViewController.swift:349-355 | `quickSort(low, high)` changes nothing outside `low...high`. |
| Quick.SidesOutside | HW_1/ViewController.swift:351-353 | Sorting both sides changes nothing outside `low...high`. |
| Quick.QuickRangeKeepsSide | HW_1/ViewController.swift:349-355 | If all of `low...high` lies below (or not below) a bound, it still does after `quickSort(low, high)`. |
| Quick.SidesKeepSide | HW_1/ViewController.swift:351-353 | The same holds for sorting both sides. |
| Quick.RoundSplits | HW_1/ViewController.swift:361-373 | A scan iteration keeps the Lomuto invariant. Elements in `low..<i` are below the pivot and those in `i..<j` are not. The pivot stays at `high`. |
| Quick.ScanSplits | HW_1/ViewController.swift:361-381 | The finished scan puts the pivot at `p`, with only smaller elements before it and none smaller after it. |
| Quick.PartitionSplits | HW_1/ViewController.swift:357-382 | `partition` returns `p` with the old `data[high]` at `p`, everything in `low..<p` below it and everything in `p+1...high` at least it. |
| Quick.ScanProbesInOrder | HW_1/ViewController.swift:361-373 | From loop index `j` on, each remaining index `a` has a probe `{a, high, i'}` at position `ProbePos(a)` of the trace, and these positions strictly increase with `a`. |
| Quick.ScanTrace | HW_1/ViewController.swift:361-381 | From loop index `j` on, every snapshot of `partition` has the shape of a probe `{j', high, i'}` of a remaining index or of a swap snapshot `{i', j'}` with `i' < j'`, or is the pivot move `{p, high}` on the final array, which comes last and only when `p != high`. When `p != high` it is emitted. There are between `high - j` and `2 * (high - j) + 1` snapshots. |
| Quick.PartitionTrace | HW_1/ViewController.swift:357-382 | `partition(low, high)` has a probe of every index `j` of `low..<high` at position `ProbePos(j)`, in increasing order of `j`. Every snapshot is shaped as a probe, as a swap snapshot `{i, j}` with `i != j`, or as the pivot move `{p, high}`, which comes last exactly when `p != high`. There are between `high - low` and `2 * (high - low) + 1` snapshots. |
| Quick.FirstNotBelow | HW_1/ViewController.swift:359-373 | The result is the first index of `data[k..<a]` whose element is not below the pivot, or `a` if there is none. |
| Quick.BoundaryIsFirst | HW_1/ViewController.swift:359-373 | Any boundary `i` with `data[low..<i]` below the pivot and `data[i..<j]` not below it is that first index. So the Lomuto boundary is determined by the data. |
| Quick.ScanBoundaries | HW_1/ViewController.swift:361-373 | From a loop state that keeps the scan invariant, the probe of each remaining index `j` highlights `{j, high, i}`, where `i` is the Lomuto boundary of the data that probe shows. |
| Quick.ScanSlots | HW_1/ViewController.swift:361-381 | From a loop state that keeps the scan invariant, each snapshot is, by its position, one of three things. It is the probe of a remaining index `j`. Or it is the swap snapshot `{i, j}` right after the probe of `j`, with `i < j` the boundary and the data split around `i + 1`. Or it is the pivot move `{p, high}`, last and only when `p != high`. |
| Quick.PartitionSlots | HW_1/ViewController.swift:357-382 | In `partition(low, high)`, the probe of each `j` at `ProbePos(j)` highlights `{j, high, i}` with `i` the Lomuto boundary. Every other position holds the swap snapshot right after the probe of its `j`, or the last pivot move. So each index is probed exactly once, and at most one swap snapshot follows each probe. |
| Quick.QuickRangeSorts | HW_1/ViewController.swift:349-355 | `quickSort(low, high)` leaves `data[low...high]` sorted. |
| Quick.SidesSort | HW_1/ViewController.swift:351-353 | After a partition split around `p`, sorting both sides leaves `low...high` sorted. |
| Quick.LeftSideSorts | HW_1/ViewController.swift:352 | `quickSort(low, p-1)` sorts its range, changes nothing outside it and keeps the elements below the pivot. |
| Quick.RightSideSorts | HW_1/ViewController.swift:353 | `quickSort(p+1, high)` sorts its range, changes nothing outside it and keeps the elements not below the pivot. |
| Quick.QuickSorts | HW_1/ViewController.swift:348-385 | `quickSort` leaves the array sorted ascending. |
| Quick.RoundConforms | HW_1/ViewController.swift:362-369 | The probe `{j, high, i}` and the swap snapshot `{i, j}` highlight valid indices. |
| Quick.PlaceConforms | HW_1/ViewController.swift:375-379 | The pivot-move snapshot `{i, high}` highlights valid indices. |
| Quick.ScanConforms | HW_1/ViewController.swift:361-379 | Every snapshot of the rest of `partition` conforms. |
| Quick.RoundPermutes | HW_1/ViewController.swift:365-372 | A scan iteration only rearranges the array. |
| Quick.PlacePermutes | HW_1/ViewController.swift:375-379 | Moving the pivot only rearranges the array. |
| Quick.ScanPermutes | HW_1/ViewController.swift:361-379 | The rest of `partition` only rearranges the array. |
| Quick.QuickRangeConforms | HW_1/ViewController.swift:349-355 | Every snapshot of `quickSort(low, high)` conforms. |
| Quick.SidesConform | HW_1/ViewController.swift:351-353 | Every snapshot of partitioning and sorting both sides conforms. |
| Quick.QuickRangePermutes | HW_1/ViewController.swift:349-355 | `quickSort(low, high)` only rearranges the array. |
| Quick.SidesPermute | HW_1/ViewController.swift:351-353 | Sorting both sides only rearranges the array. |
| Quick.QuickConforms | HW_1/ViewController.swift:348-385 | Every snapshot `quickSort` emits has all bars and only valid highlights. |
| Quick.QuickPermutes | HW_1/ViewController.swift:348-385 | `quickSort` leaves a permutation of its input. |
| Quick.RoundEndsOnLastStep | HW_1/ViewController.swift:361-373 | After a scan iteration, the lane is in the state of its last snapshot. |
| Quick.ScanEndsOnLastStep | HW_1/ViewController.swift:361-381 | After the rest of `partition`, the lane is in the state of its last snapshot. |
| Quick.QuickRangeEndsOnLastStep | HW_1/ViewController.swift:349-355 | After `quickSort(low, high)`, the lane is in the state of its last snapshot. |
| Quick.SidesEndOnLastStep | HW_1/ViewController.swift:351-353 | After both sides, the lane is in the state of its last snapshot. |
| Quick.QuickEndsOnLastStep | HW_1/ViewController.swift:348-385 | After `quickSort`, the lane is in the state of its last snapshot, or its start state if it emitted none. |
| Quick.Partition | HW_1/ViewController.swift:357-382 | The in-place `partition` returns `Partitioned`'s `p`, leaves its state and emits exactly its trace. |
| Quick.QuickSortRange | HW_1/ViewController.swift:349-355 | The in-place recursion leaves `QuickRange`'s state and emits its trace. |
| Quick.QuickSort | HW_1/ViewController.swift:348-385 | `quickSort` emits exactly `QuickRun`'s trace. It leaves the data sorted and a permutation of the input. Every snapshot conforms, and the lane ends on its last snapshot. |
| Merge.MergeScan | HW_1/ViewController.swift:405-426 | The compare loop and the two drains leave `temp` as long as the two halves together. |
| Merge.CompareStep | HW_1/ViewController.swift:405-416 | One comparison and what follows it leave `temp` as long as the two halves together. |
| Merge.WriteBack | HW_1/ViewController.swift:428-432 | The write-back loop keeps the array's length. |
| Merge.MergeRun | HW_1/ViewController.swift:397-433 | `merge(low, mid, high)` keeps the array's length. |
| Merge.MergeRange | HW_1/ViewController.swift:388-395 | The nested `mergeSort(low, high)` keeps the array's length. |
| Merge.MergeStep | HW_1/ViewController.swift:389-394 | Sorting both halves and merging them keeps the array's length. |
| Merge.ScanPermutes | HW_1/ViewController.swift:405-426 | `temp` is a rearrangement of the two halves. |
| Merge.ScanSorts | HW_1/ViewController.swift:405-426 | From sorted halves, `temp` is sorted. |
| Merge.ScanShows | HW_1/ViewController.swift:405-407 | Every comparison snapshot shows the untouched array and highlights exactly two indices, one of what remains of each half. |
| Merge.WriteBackPlaces | HW_1/ViewController.swift:428-429 | After the write-back from `i`, the array is its old prefix, then `temp`'s tail, then its old suffix. |
| Merge.WriteBackShows | HW_1/ViewController.swift:428-432 | The write-back emits exactly one snapshot per index, in ascending order, and highlights only that index. |
| Merge.WriteBackEndsOnLastStep | HW_1/ViewController.swift:428-432 | After the write-back, the lane is in the state of its last snapshot. |
| Merge.MergePlaces | HW_1/ViewController.swift:397-433 | `merge` replaces exactly `data[low...high]` by the merged `temp`. |
| Merge.MergePermutes | HW_1/ViewController.swift:397-433 | `merge` only rearranges the array. |
| Merge.MergeOutside | HW_1/ViewController.swift:397-433 | `merge` changes nothing outside `low...high`. |
| Merge.MergeSorts | HW_1/ViewController.swift:397-433 | With sorted halves `low...mid` and `mid+1...high`, `merge` leaves `low...high` sorted. |
| Merge.MergeShows | HW_1/ViewController.swift:397-433 | `merge` first shows the full set `{low...high}`. Each comparison snapshot after it highlights exactly one index of `low...mid` and one of `mid+1...high` on the untouched array. It ends with exactly `high-low+1` snapshots highlighting `{low}`, …, `{high}` in ascending order. |
| Merge.MergeConforms | HW_1/ViewController.swift:397-433 | Every snapshot of `merge` has all bars and only valid highlights. |
| Merge.MergeEndsOnLastStep | HW_1/ViewController.swift:397-433 | After `merge`, the lane is in the state of its last snapshot. |
| Merge.MergeRangeOutside | HW_1/ViewController.swift:388-395 | `mergeSort(low, high)` changes nothing outside `low...high`. |
| Merge.MergeRangePermutes | HW_1/ViewController.swift:388-395 | `mergeSort(low, high)` only rearranges the array. |
| Merge.MergeRangeSorts | HW_1/ViewController.swift:388-395 | `mergeSort(low, high)` leaves `low...high` sorted. |
| Merge.MergeRangeConforms | HW_1/ViewController.swift:388-395 | Every snapshot of `mergeSort(low, high)` conforms. |
| Merge.MergeRangeEndsOnLastStep | HW_1/ViewController.swift:388-395 | After `mergeSort(low, high)`, the lane is in the state of its last snapshot. |
| Merge.MergeSortSorts | HW_1/ViewController.swift:387-436 | `mergeSort` leaves the array sorted ascending and a permutation of its input. |
| Merge.MergeSortConforms | HW_1/ViewController.swift:387-436 | Every snapshot `mergeSort` emits conforms. The lane ends on its last snapshot, or its start state if it emitted none. |
| Merge.Drain | HW_1/ViewController.swift:418-426 | A drain loop appends the rest of one half to `temp`, in order. |
| Merge.Gather | HW_1/ViewController.swift:398-426 | The in-place full-span snapshot, compare loop and drains leave the array untouched. They build exactly `MergeHalves`' `temp` and emit the full span followed by its snapshots. |
| Merge.WriteBackInPlace | HW_1/ViewController.swift:428-432 | The in-place write-back leaves `WriteBack`'s state and emits its trace. |
| Merge.Merge | HW_1/ViewController.swift:397-433 | The in-place `merge` leaves `MergeRun`'s state and emits exactly its trace. |
| Merge.MergeSortRange | HW_1/ViewController.swift:388-395 | The in-place recursion leaves `MergeRange`'s state and emits its trace. |
| Merge.MergeSort | HW_1/ViewController.swift:387-436 | `mergeSort` emits exactly `MergeSortRun`'s trace. It leaves the data sorted and a permutation of the input. Every snapshot conforms, and the lane ends on its last snapshot. |
| Timeline.SortRunFacts | HW_1/ViewController.swift:176-206 | Whichever case the lane's `switch` takes, every snapshot conforms and the lane ends on its last snapshot. Choices `0...3` leave the data sorted and a permutation of the input. Any other choice emits nothing and changes nothing. |
| Timeline.Interleave | HW_1/ViewController.swift:175-245 | The lanes record exactly one frame per `processStep` of either lane. |
| Timeline.InterleaveLabels | HW_1/ViewController.swift:178-240 | Each recorded frame labels the lane that stepped with its algorithm's name and the other lane "Waiting". |
| Timeline.InterleaveKeepsOrder | HW_1/ViewController.swift:175-245 | Reading the frames a lane owns gives exactly that lane's `processStep` snapshots, in order: none lost, duplicated or reordered. |
| Timeline.InterleaveShowsLatest | HW_1/ViewController.swift:178-240 | In every frame, each lane shows the latest snapshot it had emitted by then, or its start. |
| Timeline.InterleaveFollows | HW_1/ViewController.swift:175-245 | A schedule that names each lane once per step it takes is followed exactly: frame `k` belongs to lane `schedule[k]`. |
| Timeline.InterleaveConforms | HW_1/ViewController.swift:175-245 | If both lanes' snapshots conform, every recorded frame shows all bars of both lanes with valid highlights. |
| Timeline.TimelineBracketed | HW_1/ViewController.swift:168-252 | A run records its steps plus two frames. The first is the dual "Initial State" pair of the starting lanes. The last is the dual "Complete" pair of each lane's final state. No frame in between carries either label. |
| Timeline.TimelineKeepsOrder | HW_1/ViewController.swift:168-252 | Between the brackets, each lane's own frames are exactly its algorithm's trace, in order. |
| Timeline.TimelineConforms | HW_1/ViewController.swift:168-252 | Every frame of the timeline shows all bars of both lanes, and every highlight is a valid index. |
| Timeline.TimelineEndsSorted | HW_1/ViewController.swift:249-252 | The Complete pair shows both arrays sorted and each a permutation of its start. A lane started on a shuffled `1...N` shows exactly `1...N`. |
| Controller.RunLane | HW_1/ViewController.swift:176-206 | The lane's `switch` on the algorithm index runs that sort in place. The lane ends in `SortRun`'s state, with its steps and its description unchanged. |
| Controller.SortCopy | HW_1/ViewController.swift:164-207 | Sorting a copy of a lane yields exactly `SortRun` from that lane's state. |
| Controller.ViewController.constructor | HW_1/ViewController.swift:49-52 | Loading the view resets the data sets. The result is two distinct fresh lanes with the given arrays and no highlights, an empty timeline, the cursor at 0 and no timer. |
| Controller.ViewController.ResetDataSets | HW_1/ViewController.swift:92-105 | Resetting stops the timer. It installs two distinct fresh lanes with the given arrays, empties `stepStates` and sets `currentStep` to 0. |
| Controller.ViewController.RecordStep | HW_1/ViewController.swift:266-277 | `recordStep` appends exactly one pair to `stepStates`, carrying the two lanes with `desc1` and `desc2`. Nothing else changes. |
| Controller.ViewController.RecordLanes | HW_1/ViewController.swift:175-245 | Recording the lanes' steps appends exactly the interleaved frames. Nothing else changes. |
| Controller.ViewController.RecordRest | HW_1/ViewController.swift:175-252 | The lanes' steps followed by the final "Complete" pair are appended. Nothing else changes. |
| Controller.ViewController.StartSingleRun | HW_1/ViewController.swift:154-264 | A run appends exactly the timeline of its starting lanes, from Initial to Complete. It leaves `state1`/`state2` untouched and starts the step timer with the cursor at 0. |
| Controller.ViewController.SortTapped | HW_1/ViewController.swift:143-151 | Tapping Sort when idle resets the data sets and runs. The timeline is then exactly the run's timeline from the new arrays, and playback starts at frame 0. |
| Controller.ViewController.StopStepTimer | HW_1/ViewController.swift:298-301 | Stopping unschedules the timer and changes nothing else. |
| Controller.ViewController.StartStepTimer | HW_1/ViewController.swift:279-296 | Starting resets `currentStep` to 0, schedules the timer and keeps the lanes and the timeline. |
| Controller.ViewController.Tick | HW_1/ViewController.swift:284-295 | With frames left, a tick shows frame `currentStep` in both lanes and advances the cursor by one. Otherwise it stops the timer and changes nothing else. `currentStep` never exceeds the number of frames. |
| Controller.ViewController.PlayBack | HW_1/ViewController.swift:283-295 | Ticking until the timer stops shows every frame of `stepStates`, in order. It ends with the cursor at the end, the timer stopped and the lanes showing the last frame. |

## Left out

- `HW_1/SortingAlgorithmView.swift` and `drawBars` (the bar rendering) are not part of this model. They are floating-point geometry and UIKit drawing calls.
- The `DispatchQueue`/`DispatchGroup` concurrency and the `DispatchQueue.main.async` hops are replaced by a schedule. The schedule is a sequence of lane choices that fixes whose `processStep` is recorded next. The model covers every interleaving a schedule can name, one frame per step, and not the threads themselves.
- Timeline.InterleaveShowsLatest: the lane that did not step is shown at the latest snapshot it emitted. The code copies that lane's live state while its own thread may be mutating it, which is a data race a sequential model cannot represent. The copy may therefore catch a swap before its highlight is set.
- Controller.ViewController.RecordStep: takes the two lanes as snapshots rather than as objects to copy, so the deep copies of `copy()` and `recordStep` become values. `copy()` itself is modelled as `State.SortState.Copy`.
- Controller.ViewController.Tick: the lanes are rebuilt as fresh objects showing the frame. The code assigns the recorded frame's own objects to `state1`/`state2`, which aliases them. Nothing later mutates those objects.
- The `Timer` scheduling, its interval, and the `asyncAfter` delay that re-enables the controls are wall-clock timing. Only the cursor logic is modelled, and playback is a loop of ticks.
- `shuffled()` is randomness: the lanes' starting arrays are parameters. Timeline.TimelineEndsSorted states the result for a start that is any permutation of `1...N`.
- The outlets, actions and segmented-control setup, the styling, `setControlsEnabled`, the cancel branch of the sort button and the `isSorting` flag and guard are user-interface plumbing. The algorithm indices and the arrays are taken as parameters.
- `runCount`, `maxRuns` and the run log line are bookkeeping with no effect on the timeline.
- Merge.MergeShows: states each comparison snapshot as highlighting exactly one index of each half. It does not say which one, namely the cursors `{left, right}`, nor how many comparisons there are. `Merge.Merge` is proved to emit exactly `MergeRun`'s trace, which holds the exact pairs.
- Insertion.SinkTrace: bounds the number of snapshots rather than counting them. The exact trace is `Sink`'s, which `Insertion.SinkInPlace` is proved to emit.
- Quick.PartitionTrace: classifies snapshots by their shape, so the pivot move `{p, high}` also has the shape of a probe with `i == j == p`. Quick.PartitionSlots tells the two apart by position. Swap snapshots are located and bounded, not counted, because which `j` swaps depends on the data. The exact trace is `Partitioned`'s, which `Quick.Partition` is proved to emit.
