/**
 * Step-instrumented top-down merge sort (`mergeSort` with its nested
 * `merge`, which gathers the merged run in a temporary array and then writes
 * it back one index at a time). The functions give the exact trace handed to
 * `processStep`; the methods are the loops and recursion, proved to produce
 * that trace and that final state.
 */
module Merge {
  import opened State

  /** What the comparison and drain loops of `merge` leave: the merged run `temp` and the snapshots emitted. */
  datatype Scan = Scan(temp: seq<int>, steps: seq<Snapshot>)

  /**
   * The comparison loop of `merge` with `a` the part of the left half still to
   * be taken (from cursor `left` on) and `b` that of the right half (from
   * `right` on), then the two drain loops. Each comparison shows
   * `{left, right}` and takes the left head on a tie; the drains only append
   * to `temp`. The array `d` itself is not touched.
   */
  function MergeScan(d: seq<int>, a: seq<int>, b: seq<int>, left: int, right: int): (r: Scan)
    ensures |r.temp| == |a| + |b|
    decreases |a| + |b|, 1
  {
    if |a| > 0 && |b| > 0 then CompareStep(d, a, b, left, right) else Scan(a + b, [])
  }

  /** One iteration of the comparison loop, with both halves non-empty, and the rest of `merge`'s gathering after it. */
  function CompareStep(d: seq<int>, a: seq<int>, b: seq<int>, left: int, right: int): (r: Scan)
    requires |a| > 0 && |b| > 0
    ensures |r.temp| == |a| + |b|
    decreases |a| + |b|, 0
  {
    var probe := Snapshot(d, {left, right});
    if a[0] <= b[0] then
      var rest := MergeScan(d, a[1..], b, left + 1, right);
      Scan([a[0]] + rest.temp, [probe] + rest.steps)
    else
      var rest := MergeScan(d, a, b[1..], left, right + 1);
      Scan([b[0]] + rest.temp, [probe] + rest.steps)
  }

  /** The write-back loop `for i in low...high` from index `i` on: store `temp[i - low]` at `i`, then show `{i}`. */
  function WriteBack(s: Snapshot, temp: seq<int>, low: nat, i: nat, high: nat): (r: Run)
    requires low <= i <= high + 1 <= |s.data| && |temp| == high + 1 - low
    ensures |r.after.data| == |s.data|
    decreases high + 1 - i
  {
    if i > high then Run(s, [])
    else
      var shown := Snapshot(s.data[i := temp[i - low]], {i});
      var rest := WriteBack(shown, temp, low, i + 1, high);
      Run(rest.after, [shown] + rest.steps)
  }

  /** `merge(low, mid, high)`: show the whole range, compare and gather, then write the run back. */
  function MergeRun(s: Snapshot, low: nat, mid: nat, high: nat): (r: Run)
    requires low <= mid < high < |s.data|
    ensures |r.after.data| == |s.data|
  {
    var first := Snapshot(s.data, Span(low, high));
    var scan := MergeHalves(s.data, low, mid, high);
    var back := WriteBack(Snapshot(s.data, Final(first, scan.steps).highlighted), scan.temp, low, low, high);
    Run(back.after, [first] + scan.steps + back.steps)
  }

  /** The comparison and drain loops of `merge(low, mid, high)`, from cursors `low` and `mid + 1`. */
  function MergeHalves(d: seq<int>, low: nat, mid: nat, high: nat): Scan
    requires low <= mid < high < |d|
  {
    MergeScan(d, d[low..mid + 1], d[mid + 1..high + 1], low, mid + 1)
  }

  /** The nested `mergeSort(low, high)`: nothing to do on fewer than two elements. */
  function MergeRange(s: Snapshot, low: nat, high: int): (r: Run)
    requires low <= high + 1 <= |s.data|
    ensures |r.after.data| == |s.data|
    decreases high - low + 1, 1
  {
    if low < high then MergeStep(s, low, high) else Run(s, [])
  }

  /** `mergeSort(low, high)` on two or more elements: sort each half around `mid = (low + high) / 2`, then merge them. */
  function MergeStep(s: Snapshot, low: nat, high: nat): (r: Run)
    requires low < high < |s.data|
    ensures |r.after.data| == |s.data|
    decreases high - low + 1, 0
  {
    var mid := (low + high) / 2;
    var left := MergeRange(s, low, mid);
    var right := MergeRange(left.after, mid + 1, high);
    var merged := MergeRun(right.after, low, mid, high);
    Run(merged.after, left.steps + right.steps + merged.steps)
  }

  /** The whole sort, `mergeSort(low: 0, high: count - 1)`. */
  function MergeSortRun(s: Snapshot): Run
  {
    MergeRange(s, 0, |s.data| - 1)
  }

  /** Every element of `t` is at least `b` when `t` rearranges a sequence whose elements all are. */
  lemma AllAtLeast(t: seq<int>, u: seq<int>, b: int)
    requires multiset(t) == multiset(u) && forall k :: 0 <= k < |u| ==> u[k] >= b
    ensures forall k :: 0 <= k < |t| ==> t[k] >= b
  {
    forall k | 0 <= k < |t| ensures t[k] >= b {
      assert t[k] in multiset(u);
    }
  }

  /** Putting an element no larger than any of a sorted sequence in front keeps it sorted. */
  lemma SortedCons(x: int, t: seq<int>)
    requires Sorted(t) && forall k :: 0 <= k < |t| ==> t[k] >= x
    ensures Sorted([x] + t)
  {
    forall a, b | 0 <= a < b < |[x] + t| ensures ([x] + t)[a] <= ([x] + t)[b] {
      if a > 0 { assert ([x] + t)[a] == t[a - 1]; }
      assert ([x] + t)[b] == t[b - 1];
    }
  }

  /** The gathered run holds exactly the elements of both halves still to be merged. */
  lemma {:induction false} ScanPermutes(d: seq<int>, a: seq<int>, b: seq<int>, left: int, right: int)
    ensures multiset(MergeScan(d, a, b, left, right).temp) == multiset(a + b)
    decreases |a| + |b|
  {
    if |a| > 0 && |b| > 0 {
      if a[0] <= b[0] {
        ScanPermutes(d, a[1..], b, left + 1, right);
        assert a + b == [a[0]] + (a[1..] + b);
      } else {
        ScanPermutes(d, a, b[1..], left, right + 1);
        assert b == [b[0]] + b[1..];
      }
    }
  }

  /** The head taken from the left half is no larger than anything still to be merged. */
  lemma LeftHeadLeast(a: seq<int>, b: seq<int>)
    requires Sorted(a) && Sorted(b) && |a| > 0 && |b| > 0 && a[0] <= b[0]
    ensures forall k :: 0 <= k < |a[1..] + b| ==> (a[1..] + b)[k] >= a[0]
  {
    forall k | 0 <= k < |a[1..] + b| ensures (a[1..] + b)[k] >= a[0] {
      if k < |a| - 1 { assert (a[1..] + b)[k] == a[k + 1]; } else { assert (a[1..] + b)[k] == b[k - (|a| - 1)]; }
    }
  }

  /** The head taken from the right half is smaller than anything still to be merged. */
  lemma RightHeadLeast(a: seq<int>, b: seq<int>)
    requires Sorted(a) && Sorted(b) && |a| > 0 && |b| > 0 && a[0] > b[0]
    ensures forall k :: 0 <= k < |a + b[1..]| ==> (a + b[1..])[k] >= b[0]
  {
    forall k | 0 <= k < |a + b[1..]| ensures (a + b[1..])[k] >= b[0] {
      if k < |a| { assert (a + b[1..])[k] == a[k]; } else { assert (a + b[1..])[k] == b[k - |a| + 1]; }
    }
  }

  /** Merging two sorted halves gathers a sorted run. */
  lemma {:induction false} ScanSorts(d: seq<int>, a: seq<int>, b: seq<int>, left: int, right: int)
    requires Sorted(a) && Sorted(b)
    ensures Sorted(MergeScan(d, a, b, left, right).temp)
    decreases |a| + |b|
  {
    if |a| > 0 && |b| > 0 {
      if a[0] <= b[0] {
        var rest := MergeScan(d, a[1..], b, left + 1, right);
        assert Sorted(a[1..]);
        ScanSorts(d, a[1..], b, left + 1, right);
        ScanPermutes(d, a[1..], b, left + 1, right);
        LeftHeadLeast(a, b);
        AllAtLeast(rest.temp, a[1..] + b, a[0]);
        SortedCons(a[0], rest.temp);
      } else {
        var rest := MergeScan(d, a, b[1..], left, right + 1);
        assert Sorted(b[1..]);
        ScanSorts(d, a, b[1..], left, right + 1);
        ScanPermutes(d, a, b[1..], left, right + 1);
        RightHeadLeast(a, b);
        AllAtLeast(rest.temp, a + b[1..], b[0]);
        SortedCons(b[0], rest.temp);
      }
    } else if |a| == 0 {
      assert a + b == b;
    } else {
      assert a + b == a;
    }
  }

  /** A comparison snapshot: the untouched array `d`, highlighting exactly one index in `lo1..<hi1` and one in `lo2..<hi2`. */
  ghost predicate ShowsWithin(s: Snapshot, d: seq<int>, lo1: int, hi1: int, lo2: int, hi2: int)
  {
    s.data == d && exists x, y :: lo1 <= x < hi1 && lo2 <= y < hi2 && s.highlighted == {x, y}
  }

  /**
   * Every comparison snapshot shows the untouched array and highlights
   * exactly two indices, one of what remains of each half.
   */
  lemma {:induction false} ScanShows(d: seq<int>, a: seq<int>, b: seq<int>, left: int, right: int)
    requires left + |a| <= right
    ensures forall k :: 0 <= k < |MergeScan(d, a, b, left, right).steps| ==>
      ShowsWithin(MergeScan(d, a, b, left, right).steps[k], d, left, left + |a|, right, right + |b|)
    decreases |a| + |b|
  {
    if |a| > 0 && |b| > 0 {
      var probe := Snapshot(d, {left, right});
      var rest, left', right';
      if a[0] <= b[0] {
        rest, left', right' := MergeScan(d, a[1..], b, left + 1, right), left + 1, right;
        ScanShows(d, a[1..], b, left + 1, right);
      } else {
        rest, left', right' := MergeScan(d, a, b[1..], left, right + 1), left, right + 1;
        ScanShows(d, a, b[1..], left, right + 1);
      }
      var steps := MergeScan(d, a, b, left, right).steps;
      assert steps == [probe] + rest.steps;
      forall k | 0 <= k < |steps| ensures ShowsWithin(steps[k], d, left, left + |a|, right, right + |b|) {
        if k == 0 {
          assert steps[0].highlighted == {left, right};
        } else {
          assert steps[k] == rest.steps[k - 1];
          assert ShowsWithin(rest.steps[k - 1], d, left', left + |a|, right', right + |b|);
          var x, y :| left' <= x < left + |a| && right' <= y < right + |b| && rest.steps[k - 1].highlighted == {x, y};
          assert steps[k].highlighted == {x, y};
        }
      }
    }
  }

  /** The write-back stores `temp[i - low...]` over `i...high` and leaves the rest of the array alone. */
  lemma {:induction false} WriteBackPlaces(s: Snapshot, temp: seq<int>, low: nat, i: nat, high: nat)
    requires low <= i <= high + 1 <= |s.data| && |temp| == high + 1 - low
    ensures WriteBack(s, temp, low, i, high).after.data == s.data[..i] + temp[i - low..] + s.data[high + 1..]
    decreases high + 1 - i
  {
    if i > high {
      assert s.data[..i] + s.data[high + 1..] == s.data;
    } else {
      var shown := Snapshot(s.data[i := temp[i - low]], {i});
      WriteBackPlaces(shown, temp, low, i + 1, high);
      assert shown.data[..i + 1] == s.data[..i] + [temp[i - low]];
      assert shown.data[high + 1..] == s.data[high + 1..];
      assert temp[i - low..] == [temp[i - low]] + temp[i + 1 - low..];
    }
  }

  /** The write-back shows `{i}`, `{i+1}`, ..., `{high}`: one snapshot per index, in ascending order. */
  lemma {:induction false} WriteBackShows(s: Snapshot, temp: seq<int>, low: nat, i: nat, high: nat)
    requires low <= i <= high + 1 <= |s.data| && |temp| == high + 1 - low
    ensures |WriteBack(s, temp, low, i, high).steps| == high + 1 - i
    ensures forall k :: 0 <= k < |WriteBack(s, temp, low, i, high).steps| ==>
      WriteBack(s, temp, low, i, high).steps[k].highlighted == {i + k} && |WriteBack(s, temp, low, i, high).steps[k].data| == |s.data|
    decreases high + 1 - i
  {
    if i <= high {
      var shown := Snapshot(s.data[i := temp[i - low]], {i});
      var rest := WriteBack(shown, temp, low, i + 1, high);
      WriteBackShows(shown, temp, low, i + 1, high);
      var steps := WriteBack(s, temp, low, i, high).steps;
      assert steps == [shown] + rest.steps;
      forall k | 0 <= k < |steps| ensures steps[k].highlighted == {i + k} && |steps[k].data| == |s.data| {
        if k > 0 {
          assert steps[k] == rest.steps[k - 1];
        }
      }
    }
  }

  lemma {:induction false} WriteBackEndsOnLastStep(s: Snapshot, temp: seq<int>, low: nat, i: nat, high: nat)
    requires low <= i <= high + 1 <= |s.data| && |temp| == high + 1 - low
    ensures WriteBack(s, temp, low, i, high).after == Final(s, WriteBack(s, temp, low, i, high).steps)
    decreases high + 1 - i
  {
    if i <= high {
      var shown := Snapshot(s.data[i := temp[i - low]], {i});
      WriteBackEndsOnLastStep(shown, temp, low, i + 1, high);
      FinalAppend(s, [shown], WriteBack(shown, temp, low, i + 1, high).steps);
    }
  }

  /** After `merge`, the range holds the gathered run and everything else is as before. */
  lemma MergePlaces(s: Snapshot, low: nat, mid: nat, high: nat)
    requires low <= mid < high < |s.data|
    ensures MergeRun(s, low, mid, high).after.data == s.data[..low] + MergeHalves(s.data, low, mid, high).temp + s.data[high + 1..]
  {
    var first := Snapshot(s.data, Span(low, high));
    var scan := MergeHalves(s.data, low, mid, high);
    WriteBackPlaces(Snapshot(s.data, Final(first, scan.steps).highlighted), scan.temp, low, low, high);
  }

  /** `merge` only rearranges the lane's array. */
  lemma MergePermutes(s: Snapshot, low: nat, mid: nat, high: nat)
    requires low <= mid < high < |s.data|
    ensures multiset(MergeRun(s, low, mid, high).after.data) == multiset(s.data)
  {
    MergePlaces(s, low, mid, high);
    ScanPermutes(s.data, s.data[low..mid + 1], s.data[mid + 1..high + 1], low, mid + 1);
    assert s.data[low..mid + 1] + s.data[mid + 1..high + 1] == s.data[low..high + 1];
    assert s.data == s.data[..low] + s.data[low..high + 1] + s.data[high + 1..];
  }

  /** `merge` leaves every index outside `low...high` alone. */
  lemma MergeOutside(s: Snapshot, low: nat, mid: nat, high: nat)
    requires low <= mid < high < |s.data|
    ensures SameOutside(s.data, MergeRun(s, low, mid, high).after.data, low, high)
  {
    MergePlaces(s, low, mid, high);
    var e := MergeRun(s, low, mid, high).after.data;
    forall k | 0 <= k < |s.data| && (k < low || k > high) ensures e[k] == s.data[k] {
      if k < low {
        assert e[k] == s.data[..low][k];
      } else {
        assert e[k] == s.data[high + 1..][k - (high + 1)];
      }
    }
  }

  /** `merge` of two sorted halves `low...mid` and `mid+1...high` leaves `low...high` sorted. */
  lemma MergeSorts(s: Snapshot, low: nat, mid: nat, high: nat)
    requires low <= mid < high < |s.data|
    requires SortedBetween(s.data, low, mid + 1) && SortedBetween(s.data, mid + 1, high + 1)
    ensures SortedBetween(MergeRun(s, low, mid, high).after.data, low, high + 1)
  {
    MergePlaces(s, low, mid, high);
    var temp := MergeHalves(s.data, low, mid, high).temp;
    ScanSorts(s.data, s.data[low..mid + 1], s.data[mid + 1..high + 1], low, mid + 1);
    var e := MergeRun(s, low, mid, high).after.data;
    forall k | low <= k <= high ensures e[k] == temp[k - low] {
      assert e[k] == (s.data[..low] + temp)[k];
    }
  }

  /**
   * The shape of what `merge(low, mid, high)` shows on array `d`: first the
   * whole range `{low...high}`; then one snapshot per comparison, of the
   * untouched array with exactly one index of each half; then exactly `high - low + 1`
   * snapshots `{low}`, `{low+1}`, ..., `{high}`.
   */
  ghost predicate MergeShape(steps: seq<Snapshot>, d: seq<int>, low: int, mid: int, high: int)
    requires low <= mid < high
  {
    && |steps| > high - low + 1
    && steps[0] == Snapshot(d, Span(low, high))
    && (forall k :: 1 <= k < |steps| - (high - low + 1) ==> ShowsWithin(steps[k], d, low, mid + 1, mid + 1, high + 1))
    && (forall k :: |steps| - (high - low + 1) <= k < |steps| ==>
          steps[k].highlighted == {k - (|steps| - (high + 1))} && |steps[k].data| == |d|)
  }

  lemma MergeShows(s: Snapshot, low: nat, mid: nat, high: nat)
    requires low <= mid < high < |s.data|
    ensures MergeShape(MergeRun(s, low, mid, high).steps, s.data, low, mid, high)
  {
    var first := Snapshot(s.data, Span(low, high));
    var scan := MergeHalves(s.data, low, mid, high);
    var start := Snapshot(s.data, Final(first, scan.steps).highlighted);
    var back := WriteBack(start, scan.temp, low, low, high);
    ScanShows(s.data, s.data[low..mid + 1], s.data[mid + 1..high + 1], low, mid + 1);
    WriteBackShows(start, scan.temp, low, low, high);
    var steps := [first] + scan.steps + back.steps;
    forall k | 1 <= k < 1 + |scan.steps| ensures ShowsWithin(steps[k], s.data, low, mid + 1, mid + 1, high + 1) {
      assert steps[k] == scan.steps[k - 1];
    }
    forall k | 1 + |scan.steps| <= k < |steps|
      ensures steps[k].highlighted == {k - (|steps| - (high + 1))} && |steps[k].data| == |s.data|
    {
      assert steps[k] == back.steps[k - 1 - |scan.steps|];
    }
  }

  /** Every snapshot `merge` hands to `processStep` shows all the bars and valid highlights only. */
  lemma MergeConforms(s: Snapshot, low: nat, mid: nat, high: nat)
    requires low <= mid < high < |s.data|
    ensures AllConform(MergeRun(s, low, mid, high).steps, |s.data|)
  {
    MergeShows(s, low, mid, high);
  }

  lemma MergeEndsOnLastStep(s: Snapshot, low: nat, mid: nat, high: nat)
    requires low <= mid < high < |s.data|
    ensures MergeRun(s, low, mid, high).after == Final(s, MergeRun(s, low, mid, high).steps)
  {
    var first := Snapshot(s.data, Span(low, high));
    var scan := MergeHalves(s.data, low, mid, high);
    var start := Snapshot(s.data, Final(first, scan.steps).highlighted);
    var back := WriteBack(start, scan.temp, low, low, high);
    WriteBackEndsOnLastStep(start, scan.temp, low, low, high);
    WriteBackShows(start, scan.temp, low, low, high);
    FinalAppend(s, [first] + scan.steps, back.steps);
  }

  /** `mergeSort(low, high)` leaves every index outside `low...high` alone. */
  lemma {:induction false} MergeRangeOutside(s: Snapshot, low: nat, high: int)
    requires low <= high + 1 <= |s.data|
    ensures SameOutside(s.data, MergeRange(s, low, high).after.data, low, high)
    decreases high - low + 1
  {
    if low < high {
      var mid := (low + high) / 2;
      var left := MergeRange(s, low, mid);
      var right := MergeRange(left.after, mid + 1, high);
      MergeRangeOutside(s, low, mid);
      MergeRangeOutside(left.after, mid + 1, high);
      MergeOutside(right.after, low, mid, high);
    }
  }

  /** `mergeSort(low, high)` only rearranges the lane's array. */
  lemma {:induction false} MergeRangePermutes(s: Snapshot, low: nat, high: int)
    requires low <= high + 1 <= |s.data|
    ensures multiset(MergeRange(s, low, high).after.data) == multiset(s.data)
    decreases high - low + 1
  {
    if low < high {
      var mid := (low + high) / 2;
      var left := MergeRange(s, low, mid);
      var right := MergeRange(left.after, mid + 1, high);
      MergeRangePermutes(s, low, mid);
      MergeRangePermutes(left.after, mid + 1, high);
      MergePermutes(right.after, low, mid, high);
    }
  }

  /** `mergeSort(low, high)` leaves `data[low...high]` sorted. */
  lemma {:induction false} MergeRangeSorts(s: Snapshot, low: nat, high: int)
    requires low <= high + 1 <= |s.data|
    ensures SortedBetween(MergeRange(s, low, high).after.data, low, high + 1)
    decreases high - low + 1
  {
    if low < high {
      var mid := (low + high) / 2;
      var left := MergeRange(s, low, mid);
      var right := MergeRange(left.after, mid + 1, high);
      MergeRangeSorts(s, low, mid);
      MergeRangeSorts(left.after, mid + 1, high);
      MergeRangeOutside(left.after, mid + 1, high);
      assert SortedBetween(right.after.data, low, mid + 1) by {
        forall k | low <= k <= mid ensures right.after.data[k] == left.after.data[k] {
        }
      }
      MergeSorts(right.after, low, mid, high);
    }
  }

  /** Every snapshot `mergeSort(low, high)` hands to `processStep` shows all the bars and valid highlights only. */
  lemma {:induction false} MergeRangeConforms(s: Snapshot, low: nat, high: int)
    requires low <= high + 1 <= |s.data|
    ensures AllConform(MergeRange(s, low, high).steps, |s.data|)
    decreases high - low + 1
  {
    if low < high {
      var mid := (low + high) / 2;
      var left := MergeRange(s, low, mid);
      var right := MergeRange(left.after, mid + 1, high);
      MergeRangeConforms(s, low, mid);
      MergeRangeConforms(left.after, mid + 1, high);
      MergeConforms(right.after, low, mid, high);
      AllConformAppend(left.steps, right.steps, |s.data|);
      AllConformAppend(left.steps + right.steps, MergeRun(right.after, low, mid, high).steps, |s.data|);
    }
  }

  lemma {:induction false} MergeRangeEndsOnLastStep(s: Snapshot, low: nat, high: int)
    requires low <= high + 1 <= |s.data|
    ensures MergeRange(s, low, high).after == Final(s, MergeRange(s, low, high).steps)
    decreases high - low + 1
  {
    if low < high {
      var mid := (low + high) / 2;
      var left := MergeRange(s, low, mid);
      var right := MergeRange(left.after, mid + 1, high);
      MergeRangeEndsOnLastStep(s, low, mid);
      MergeRangeEndsOnLastStep(left.after, mid + 1, high);
      MergeEndsOnLastStep(right.after, low, mid, high);
      FinalAppend(s, left.steps, right.steps);
      FinalAppend(s, left.steps + right.steps, MergeRun(right.after, low, mid, high).steps);
    }
  }

  /** The sort leaves its array sorted and a rearrangement of what it started with. */
  lemma MergeSortSorts(s: Snapshot)
    ensures Sorted(MergeSortRun(s).after.data) && multiset(MergeSortRun(s).after.data) == multiset(s.data)
  {
    MergeRangeSorts(s, 0, |s.data| - 1);
    MergeRangePermutes(s, 0, |s.data| - 1);
  }

  lemma MergeSortConforms(s: Snapshot)
    ensures AllConform(MergeSortRun(s).steps, |s.data|)
    ensures MergeSortRun(s).after == Final(s, MergeSortRun(s).steps)
  {
    MergeRangeConforms(s, 0, |s.data| - 1);
    MergeRangeEndsOnLastStep(s, 0, |s.data| - 1);
  }

  /**
   * `temp` and `steps` were gathered so far and the comparison loop, resumed at
   * cursors `left` and `right`, gathers the rest of `goal.temp` and emits the
   * rest of `all`.
   */
  predicate ScanResumes(temp: seq<int>, steps: seq<Snapshot>, d: seq<int>, mid: nat, high: nat, left: nat, right: nat,
                        goal: Scan, all: seq<Snapshot>)
    requires left <= mid + 1 <= right <= high + 1 <= |d|
  {
    var rest := MergeScan(d, d[left..mid + 1], d[right..high + 1], left, right);
    temp + rest.temp == goal.temp && steps + rest.steps == all
  }

  /** One iteration of the comparison loop: show `{left, right}` and append the smaller head (the left one on a tie). */
  lemma CompareKeepsTrace(temp: seq<int>, steps: seq<Snapshot>, d: seq<int>, mid: nat, high: nat, left: nat, right: nat,
                          goal: Scan, all: seq<Snapshot>, temp': seq<int>, steps': seq<Snapshot>, left': nat, right': nat)
    requires left <= mid < mid + 1 <= right <= high < |d|
    requires ScanResumes(temp, steps, d, mid, high, left, right, goal, all)
    requires steps' == steps + [Snapshot(d, {left, right})]
    requires d[left] <= d[right] ==> temp' == temp + [d[left]] && left' == left + 1 && right' == right
    requires d[left] > d[right] ==> temp' == temp + [d[right]] && left' == left && right' == right + 1
    ensures left' <= mid + 1 <= right' <= high + 1
    ensures ScanResumes(temp', steps', d, mid, high, left', right', goal, all)
  {
    var probe := Snapshot(d, {left, right});
    var a, b := d[left..mid + 1], d[right..high + 1];
    assert a[1..] == d[left + 1..mid + 1] && b[1..] == d[right + 1..high + 1];
    var rest := MergeScan(d, d[left'..mid + 1], d[right'..high + 1], left', right');
    assert MergeScan(d, a, b, left, right) == CompareStep(d, a, b, left, right);
    assert CompareStep(d, a, b, left, right) == Scan([temp'[|temp|]] + rest.temp, [probe] + rest.steps);
    assert temp' + rest.temp == temp + ([temp'[|temp|]] + rest.temp);
    assert steps' + rest.steps == steps + ([probe] + rest.steps);
  }

  /** When the comparison loop stops, everything is emitted and `temp` lacks only what is left of the halves. */
  lemma ScanDone(temp: seq<int>, steps: seq<Snapshot>, d: seq<int>, mid: nat, high: nat, left: nat, right: nat,
                 goal: Scan, all: seq<Snapshot>)
    requires left <= mid + 1 <= right <= high + 1 <= |d| && !(left <= mid && right <= high)
    requires ScanResumes(temp, steps, d, mid, high, left, right, goal, all)
    ensures steps == all && temp + d[left..mid + 1] + d[right..high + 1] == goal.temp
  {
  }

  /** One iteration of a drain loop: move the head of `d[lo..hi]` onto `temp`. */
  lemma DrainStep(temp: seq<int>, d: seq<int>, lo: nat, hi: nat, tail: seq<int>, goal: seq<int>)
    requires lo < hi <= |d| && temp + d[lo..hi] + tail == goal
    ensures (temp + [d[lo]]) + d[lo + 1..hi] + tail == goal
  {
    assert d[lo..hi] == [d[lo]] + d[lo + 1..hi];
  }

  /** `steps` was emitted so far and the write-back, resumed at `i` on `s`, emits the rest of `goal` and ends where `goal` ends. */
  predicate WriteResumes(steps: seq<Snapshot>, s: Snapshot, temp: seq<int>, low: nat, i: nat, high: nat, goal: Run)
    requires low <= i <= high + 1 <= |s.data| && |temp| == high + 1 - low
  {
    var rest := WriteBack(s, temp, low, i, high);
    rest.after == goal.after && steps + rest.steps == goal.steps
  }

  /** One iteration of the write-back loop. */
  lemma WriteKeepsTrace(steps: seq<Snapshot>, s: Snapshot, temp: seq<int>, low: nat, i: nat, high: nat, goal: Run,
                        steps': seq<Snapshot>, next: Snapshot)
    requires low <= i <= high < |s.data| && |temp| == high + 1 - low
    requires WriteResumes(steps, s, temp, low, i, high, goal)
    requires next == Snapshot(s.data[i := temp[i - low]], {i}) && steps' == steps + [next]
    ensures WriteResumes(steps', next, temp, low, i + 1, high, goal)
  {
    var rest := WriteBack(next, temp, low, i + 1, high);
    assert steps' + rest.steps == steps + ([next] + rest.steps);
  }

  /**
   * A drain loop of `merge`, `while from <= to { temp.append(data[from]); from += 1 }`:
   * appends what is left of one half, in order.
   */
  method Drain(data: seq<int>, temp: seq<int>, from: nat, to: int) returns (r: seq<int>)
    requires from <= to + 1 <= |data|
    ensures r == temp + data[from..to + 1]
  {
    r := temp;
    var i := from;
    while i <= to
      invariant from <= i <= to + 1 && r + data[i..to + 1] == temp + data[from..to + 1]
    {
      DrainStep(r, data, i, to + 1, [], temp + data[from..to + 1]);
      r := r + [data[i]];
      i := i + 1;
    }
  }

  /**
   * The first part of `merge(low, mid, high)`: show the whole range, then
   * compare and gather both halves into `temp`. The array is left as it was.
   */
  method Gather(state: SortState, low: nat, mid: nat, high: nat) returns (temp: seq<int>, steps: seq<Snapshot>)
    requires low <= mid < high < |state.data|
    modifies state
    ensures var first := Snapshot(old(state.data), Span(low, high));
      && temp == MergeHalves(old(state.data), low, mid, high).temp
      && steps == [first] + MergeHalves(old(state.data), low, mid, high).steps
      && state.Snap() == Snapshot(old(state.data), Final(first, MergeHalves(old(state.data), low, mid, high).steps).highlighted)
    ensures state.description == old(state.description)
  {
    ghost var d := state.data;
    ghost var goal := MergeHalves(d, low, mid, high);
    ghost var first := Snapshot(d, Span(low, high));
    ghost var all := [first] + goal.steps;
    temp := [];
    var left := low;
    var right := mid + 1;
    state.highlightedIndices := Span(low, high);
    steps := [state.Snap()];                         // processStep()
    while left <= mid && right <= high
      invariant low <= left <= mid + 1 <= right <= high + 1
      invariant state.data == d && state.description == old(state.description)
      invariant |steps| > 0 && state.Snap() == steps[|steps| - 1]
      invariant ScanResumes(temp, steps, d, mid, high, left, right, goal, all)
      decreases (mid + 1 - left) + (high + 1 - right)
    {
      ghost var temp0, steps0, left0, right0 := temp, steps, left, right;
      state.highlightedIndices := {left, right};
      steps := steps + [state.Snap()];               // processStep()
      if state.data[left] <= state.data[right] {
        temp := temp + [state.data[left]];
        left := left + 1;
      } else {
        temp := temp + [state.data[right]];
        right := right + 1;
      }
      CompareKeepsTrace(temp0, steps0, d, mid, high, left0, right0, goal, all, temp, steps, left, right);
    }
    ScanDone(temp, steps, d, mid, high, left, right, goal, all);
    assert state.Snap() == Final(first, goal.steps);
    temp := Drain(state.data, temp, left, mid);
    temp := Drain(state.data, temp, right, high);
  }

  /** The last part of `merge(low, mid, high)`: `for i in low...high`, store `temp[i - low]` at `i` and show `{i}`. */
  method WriteBackInPlace(state: SortState, temp: seq<int>, low: nat, high: nat) returns (steps: seq<Snapshot>)
    requires low <= high < |state.data| && |temp| == high + 1 - low
    modifies state
    ensures state.Snap() == WriteBack(old(state.Snap()), temp, low, low, high).after
    ensures steps == WriteBack(old(state.Snap()), temp, low, low, high).steps
    ensures state.description == old(state.description)
  {
    ghost var goal := WriteBack(state.Snap(), temp, low, low, high);
    steps := [];
    for i := low to high + 1
      invariant |state.data| == |old(state.data)| && state.description == old(state.description)
      invariant WriteResumes(steps, state.Snap(), temp, low, i, high, goal)
    {
      ghost var s0, steps0 := state.Snap(), steps;
      state.data := state.data[i := temp[i - low]];
      state.highlightedIndices := {i};
      steps := steps + [state.Snap()];               // processStep()
      WriteKeepsTrace(steps0, s0, temp, low, i, high, goal, steps, state.Snap());
    }
  }

  /** `merge(low, mid, high)`, in place on `state`. */
  method Merge(state: SortState, low: nat, mid: nat, high: nat) returns (steps: seq<Snapshot>)
    requires low <= mid < high < |state.data|
    modifies state
    ensures state.Snap() == MergeRun(old(state.Snap()), low, mid, high).after
    ensures steps == MergeRun(old(state.Snap()), low, mid, high).steps
    ensures state.description == old(state.description)
  {
    var temp, gathered := Gather(state, low, mid, high);
    var written := WriteBackInPlace(state, temp, low, high);
    steps := gathered + written;
  }

  /** The nested `mergeSort(low, high)`, in place on `state`. */
  method MergeSortRange(state: SortState, low: nat, high: int) returns (steps: seq<Snapshot>)
    requires low <= high + 1 <= |state.data|
    modifies state
    ensures state.Snap() == MergeRange(old(state.Snap()), low, high).after
    ensures steps == MergeRange(old(state.Snap()), low, high).steps
    ensures state.description == old(state.description)
    decreases high - low + 1
  {
    if low < high {
      var mid := (low + high) / 2;
      var first := MergeSortRange(state, low, mid);
      var second := MergeSortRange(state, mid + 1, high);
      var third := Merge(state, low, mid, high);
      steps := first + second + third;
    } else {
      steps := [];
    }
  }

  /** The instrumented sort, in place on `state`: sorted, rearranged, and every snapshot well-formed. */
  method MergeSort(state: SortState) returns (steps: seq<Snapshot>)
    modifies state
    ensures state.Snap() == MergeSortRun(old(state.Snap())).after
    ensures steps == MergeSortRun(old(state.Snap())).steps
    ensures Sorted(state.data) && multiset(state.data) == multiset(old(state.data))
    ensures AllConform(steps, |old(state.data)|)
    ensures state.Snap() == Final(old(state.Snap()), steps)
    ensures state.description == old(state.description)
  {
    steps := MergeSortRange(state, 0, |state.data| - 1);
    MergeSortSorts(old(state.Snap()));
    MergeSortConforms(old(state.Snap()));
  }
}
