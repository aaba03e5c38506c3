/**
 * Step-instrumented quicksort (`quickSort` with its nested `partition`,
 * Lomuto scheme, pivot taken last). The functions give the exact trace handed
 * to `processStep`; the methods are the in-place loop and recursion, proved to
 * produce that trace and that final state.
 */
module Quick {
  import opened State

  /** Where `partition` put its boundary, the lane afterwards and the snapshots it emitted. */
  datatype Split = Split(p: int, after: Snapshot, steps: seq<Snapshot>)

  /** What one iteration of the scan loop leaves: the lane, the next `i` and the snapshots emitted. */
  datatype Round = Round(lane: Snapshot, i: int, emitted: seq<Snapshot>)

  /**
   * One iteration of the `for j in low..<high` loop of `partition`, with `i`
   * the next slot for an element below the pivot: show `{j, high, i}`; on an
   * element below the pivot swap it to `i` (showing `{i, j}`) unless it is
   * already there, and advance `i`.
   */
  function ScanRound(s: Snapshot, high: nat, pivot: int, i: nat, j: nat): (r: Round)
    requires i <= j < high < |s.data|
    ensures i <= r.i <= i + 1 && |r.lane.data| == |s.data|
  {
    var probe := Snapshot(s.data, {j, high, i});
    if s.data[j] < pivot then
      if i != j then
        var shown := Snapshot(Swap(s.data, i, j), {i, j});
        Round(shown, i + 1, [probe] + [shown])
      else
        Round(probe, i + 1, [probe])
    else
      Round(probe, i, [probe])
  }

  /**
   * The rest of `partition` from loop index `j` on: the remaining
   * iterations, then moving the pivot from `high` to the boundary `i`
   * (showing `{i, high}`) unless it is already there.
   */
  function PartitionScan(s: Snapshot, low: nat, high: nat, pivot: int, i: nat, j: nat): (r: Split)
    requires low <= i <= j <= high < |s.data|
    ensures i <= r.p <= high && |r.after.data| == |s.data|
    decreases high - j
  {
    if j == high then
      if i != high then
        var shown := Snapshot(Swap(s.data, i, high), {i, high});
        Split(i, shown, [shown])
      else
        Split(i, s, [])
    else
      var round := ScanRound(s, high, pivot, i, j);
      var rest := PartitionScan(round.lane, low, high, pivot, round.i, j + 1);
      Split(rest.p, rest.after, round.emitted + rest.steps)
  }

  /** `partition(low, high)` with the pivot `data[high]`. */
  function Partitioned(s: Snapshot, low: nat, high: nat): (r: Split)
    requires low <= high < |s.data|
    ensures low <= r.p <= high && |r.after.data| == |s.data|
  {
    PartitionScan(s, low, high, s.data[high], low, low)
  }

  /** The nested `quickSort(low, high)`: nothing to do on fewer than two elements. */
  function QuickRange(s: Snapshot, low: nat, high: int): (r: Run)
    requires low <= high + 1 <= |s.data|
    ensures |r.after.data| == |s.data|
    decreases high - low + 1, 2
  {
    if low < high then QuickStep(s, low, high) else Run(s, [])
  }

  /** `quickSort(low, high)` on two or more elements: partition, then sort each side of the pivot. */
  function QuickStep(s: Snapshot, low: nat, high: nat): (r: Run)
    requires low < high < |s.data|
    ensures |r.after.data| == |s.data|
    decreases high - low + 1, 1
  {
    QuickSides(Partitioned(s, low, high), low, high)
  }

  /**
   * After `partition` put its pivot at `split.p`: its snapshots, then those of
   * sorting the elements before the pivot, then those of sorting the ones after it.
   */
  function QuickSides(split: Split, low: nat, high: int): (r: Run)
    requires low <= split.p <= high < |split.after.data|
    ensures |r.after.data| == |split.after.data|
    decreases high - low + 1, 0
  {
    var left := QuickRange(split.after, low, split.p - 1);
    var right := QuickRange(left.after, split.p + 1, high);
    Run(right.after, split.steps + left.steps + right.steps)
  }

  /** The whole sort, `quickSort(low: 0, high: count - 1)`. */
  function QuickRun(s: Snapshot): Run
  {
    QuickRange(s, 0, |s.data| - 1)
  }

  /** The elements at indices `low...high` all lie on one side of `bound`: all below it, or none below it. */
  predicate OnSide(d: seq<int>, low: int, high: int, bound: int, below: bool)
    requires 0 <= low && high < |d|
  {
    forall k :: low <= k <= high ==> (d[k] < bound <==> below)
  }

  /** `e` only rearranges `d` within `low...high`, keeping all of them on one side of any bound they all were on. */
  predicate MovesWithin(d: seq<int>, e: seq<int>, low: int, high: int, bound: int, below: bool)
    requires 0 <= low && high < |d|
  {
    SameOutside(d, e, low, high) && (OnSide(d, low, high, bound, below) ==> OnSide(e, low, high, bound, below))
  }

  /**
   * `d[low...high]` is split around index `p`: the pivot at `p`, only smaller
   * elements before it and none smaller after it.
   */
  predicate SplitAround(d: seq<int>, low: int, p: int, high: int, pivot: int)
    requires 0 <= low <= p <= high < |d|
  {
    && d[p] == pivot
    && (forall k :: low <= k < p ==> d[k] < pivot)
    && (forall k :: p < k <= high ==> d[k] >= pivot)
  }

  /** Swapping two indices inside `low...high` moves elements only within it. */
  lemma SwapInside(d: seq<int>, low: int, high: int, a: int, b: int, bound: int, below: bool)
    requires 0 <= low <= a <= high < |d| && low <= b <= high
    ensures MovesWithin(d, Swap(d, a, b), low, high, bound, below)
  {
  }

  /** Moving within a range composes. */
  lemma MovesWithinTrans(d: seq<int>, e: seq<int>, f: seq<int>, low: int, high: int, bound: int, below: bool)
    requires 0 <= low && high < |d|
    requires MovesWithin(d, e, low, high, bound, below) && MovesWithin(e, f, low, high, bound, below)
    ensures MovesWithin(d, f, low, high, bound, below)
  {
  }

  /** One scan iteration only moves elements among `low...high`. */
  lemma RoundInside(s: Snapshot, low: nat, high: nat, pivot: int, i: nat, j: nat, bound: int, below: bool)
    requires low <= i <= j < high < |s.data|
    ensures MovesWithin(s.data, ScanRound(s, high, pivot, i, j).lane.data, low, high, bound, below)
  {
    if s.data[j] < pivot && i != j {
      SwapInside(s.data, low, high, i, j, bound, below);
    }
  }

  /** `partition`, from any loop index on, only moves elements among `low...high`. */
  lemma {:induction false} ScanInside(s: Snapshot, low: nat, high: nat, pivot: int, i: nat, j: nat, bound: int, below: bool)
    requires low <= i <= j <= high < |s.data|
    ensures MovesWithin(s.data, PartitionScan(s, low, high, pivot, i, j).after.data, low, high, bound, below)
    decreases high - j
  {
    if j < high {
      var round := ScanRound(s, high, pivot, i, j);
      RoundInside(s, low, high, pivot, i, j, bound, below);
      ScanInside(round.lane, low, high, pivot, round.i, j + 1, bound, below);
      MovesWithinTrans(s.data, round.lane.data, PartitionScan(s, low, high, pivot, i, j).after.data, low, high, bound, below);
    } else if i != high {
      SwapInside(s.data, low, high, i, high, bound, below);
    }
  }

  /** `partition` only moves elements among `low...high`. */
  lemma PartitionInside(s: Snapshot, low: nat, high: nat, bound: int, below: bool)
    requires low <= high < |s.data|
    ensures MovesWithin(s.data, Partitioned(s, low, high).after.data, low, high, bound, below)
  {
    ScanInside(s, low, high, s.data[high], low, low, bound, below);
  }

  /** Partitioning and then sorting each side leaves everything outside the range alone. */
  lemma OutsideJoin(d: seq<int>, d1: seq<int>, d2: seq<int>, e: seq<int>, low: int, p: int, high: int)
    requires 0 <= low <= p <= high < |d|
    requires SameOutside(d, d1, low, high)
    requires SameOutside(d1, d2, low, p - 1) && SameOutside(d2, e, p + 1, high)
    ensures SameOutside(d, e, low, high) && e[p] == d1[p]
  {
  }

  /** `quickSort(low, high)` leaves every index outside `low...high` alone. */
  lemma {:induction false} QuickRangeOutside(s: Snapshot, low: nat, high: int)
    requires low <= high + 1 <= |s.data|
    ensures SameOutside(s.data, QuickRange(s, low, high).after.data, low, high)
    decreases high - low + 1, 1
  {
    if low < high {
      PartitionInside(s, low, high, 0, true);
      SidesOutside(Partitioned(s, low, high), low, high, s.data);
    }
  }

  lemma {:induction false} SidesOutside(split: Split, low: nat, high: int, d: seq<int>)
    requires low <= split.p <= high < |split.after.data| && SameOutside(d, split.after.data, low, high)
    ensures SameOutside(d, QuickSides(split, low, high).after.data, low, high)
    decreases high - low + 1, 0
  {
    var left := QuickRange(split.after, low, split.p - 1);
    var right := QuickRange(left.after, split.p + 1, high);
    QuickRangeOutside(split.after, low, split.p - 1);
    QuickRangeOutside(left.after, split.p + 1, high);
    OutsideJoin(d, split.after.data, left.after.data, right.after.data, low, split.p, high);
  }

  /** Partitioning and then sorting each side keeps the range on one side of a bound. */
  lemma KeepsJoin(d: seq<int>, d1: seq<int>, d2: seq<int>, e: seq<int>, low: int, p: int, high: int, bound: int, below: bool)
    requires 0 <= low <= p <= high < |d| && |d1| == |d|
    requires SameOutside(d1, d2, low, p - 1) && SameOutside(d2, e, p + 1, high)
    requires OnSide(d, low, high, bound, below) ==> OnSide(d1, low, high, bound, below)
    requires OnSide(d1, low, p - 1, bound, below) ==> OnSide(d2, low, p - 1, bound, below)
    requires OnSide(d2, p + 1, high, bound, below) ==> OnSide(e, p + 1, high, bound, below)
    ensures OnSide(d, low, high, bound, below) ==> OnSide(e, low, high, bound, below)
  {
    if OnSide(d, low, high, bound, below) {
      assert OnSide(d1, low, p - 1, bound, below);
      assert OnSide(d2, p + 1, high, bound, below) by {
        forall k | p + 1 <= k <= high ensures d2[k] < bound <==> below {
          assert d2[k] == d1[k];
        }
      }
      forall k | low <= k <= high ensures e[k] < bound <==> below {
        if k < p {
          assert e[k] == d2[k];
        } else if k == p {
          assert e[k] == d1[k];
        }
      }
    }
  }

  /**
   * `quickSort(low, high)` keeps `data[low...high]` on one side of any bound
   * it was on: all below it, or none below it.
   */
  lemma {:induction false} QuickRangeKeepsSide(s: Snapshot, low: nat, high: int, bound: int, below: bool)
    requires low <= high + 1 <= |s.data|
    ensures OnSide(s.data, low, high, bound, below) ==> OnSide(QuickRange(s, low, high).after.data, low, high, bound, below)
    decreases high - low + 1, 1
  {
    if low < high {
      PartitionInside(s, low, high, bound, below);
      SidesKeepSide(Partitioned(s, low, high), low, high, bound, below, s.data);
    }
  }

  lemma {:induction false} SidesKeepSide(split: Split, low: nat, high: int, bound: int, below: bool, d: seq<int>)
    requires low <= split.p <= high < |split.after.data| == |d|
    requires OnSide(d, low, high, bound, below) ==> OnSide(split.after.data, low, high, bound, below)
    ensures OnSide(d, low, high, bound, below) ==> OnSide(QuickSides(split, low, high).after.data, low, high, bound, below)
    decreases high - low + 1, 0
  {
    var left := QuickRange(split.after, low, split.p - 1);
    var right := QuickRange(left.after, split.p + 1, high);
    QuickRangeKeepsSide(split.after, low, split.p - 1, bound, below);
    QuickRangeKeepsSide(left.after, split.p + 1, high, bound, below);
    QuickRangeOutside(split.after, low, split.p - 1);
    QuickRangeOutside(left.after, split.p + 1, high);
    KeepsJoin(d, split.after.data, left.after.data, right.after.data, low, split.p, high, bound, below);
  }

  /** The loop invariant of the scan: `data[low..<i]` below the pivot, `data[i..<j]` not below it. */
  predicate ScanInvariant(d: seq<int>, low: int, i: int, j: int, pivot: int)
    requires 0 <= low <= i <= j <= |d|
  {
    && (forall k :: low <= k < i ==> d[k] < pivot)
    && (forall k :: i <= k < j ==> d[k] >= pivot)
  }

  /** One scan iteration keeps the invariant, and the pivot stays at `high`. */
  lemma RoundSplits(s: Snapshot, low: nat, high: nat, pivot: int, i: nat, j: nat)
    requires low <= i <= j < high < |s.data|
    requires ScanInvariant(s.data, low, i, j, pivot)
    ensures ScanInvariant(ScanRound(s, high, pivot, i, j).lane.data, low, ScanRound(s, high, pivot, i, j).i, j + 1, pivot)
    ensures ScanRound(s, high, pivot, i, j).lane.data[high] == s.data[high]
  {
    var d := s.data;
    if d[j] < pivot && i != j {
      assert Swap(d, i, j) == d[i := d[j]][j := d[i]];
    }
  }

  /**
   * From a loop index whose invariant holds, with the pivot still at `high`,
   * `partition` ends with the pivot at the returned index, only smaller
   * elements before it and none smaller after it.
   */
  lemma {:induction false} ScanSplits(s: Snapshot, low: nat, high: nat, pivot: int, i: nat, j: nat)
    requires low <= i <= j <= high < |s.data| && s.data[high] == pivot
    requires ScanInvariant(s.data, low, i, j, pivot)
    ensures SplitAround(PartitionScan(s, low, high, pivot, i, j).after.data, low,
                        PartitionScan(s, low, high, pivot, i, j).p, high, pivot)
    decreases high - j
  {
    var d := s.data;
    if j < high {
      var round := ScanRound(s, high, pivot, i, j);
      RoundSplits(s, low, high, pivot, i, j);
      ScanSplits(round.lane, low, high, pivot, round.i, j + 1);
    } else if i != high {
      assert Swap(d, i, high) == d[i := d[high]][high := d[i]];
    }
  }

  /**
   * `partition` returns `p` in `low...high` with the old `data[high]` at `p`,
   * only smaller elements before it and none smaller after it in the range.
   */
  lemma PartitionSplits(s: Snapshot, low: nat, high: nat)
    requires low <= high < |s.data|
    ensures SplitAround(Partitioned(s, low, high).after.data, low, Partitioned(s, low, high).p, high, s.data[high])
  {
    ScanSplits(s, low, high, s.data[high], low, low);
  }

  /** A probe of the scan loop at index `j'`, with boundary `i'`: `{j', high, i'}`. */
  predicate ProbeAt(st: Snapshot, low: int, i': int, j': int, high: int)
  {
    low <= i' <= j' < high && st.highlighted == {j', high, i'}
  }

  /** The snapshot after swapping two distinct indices `i' < j'` of the scan: `{i', j'}`. */
  predicate SwapShotAt(st: Snapshot, low: int, i': int, j': int, high: int)
  {
    low <= i' < j' < high && st.highlighted == {i', j'}
  }

  /** A snapshot of the scan loop from index `from` on: a probe of a remaining index, or a swap snapshot. */
  ghost predicate ScanShot(st: Snapshot, low: int, high: int, from: int)
  {
    || (exists a, b :: ProbeAt(st, low, b, a, high) && from <= a)
    || (exists a, b :: SwapShotAt(st, low, b, a, high))
  }

  /** Where, in the trace of `partition` from loop index `j` on, the probe of index `a` sits. */
  ghost function ProbePos(s: Snapshot, low: nat, high: nat, pivot: int, i: nat, j: nat, a: nat): nat
    requires low <= i <= j <= a < high < |s.data|
    decreases a - j
  {
    if a == j then 0
    else
      var round := ScanRound(s, high, pivot, i, j);
      |round.emitted| + ProbePos(round.lane, low, high, pivot, round.i, j + 1, a)
  }

  /**
   * Every remaining loop index `a` has a probe `{a, high, i'}` at position
   * `ProbePos(a)` of the trace, and these positions increase with `a`.
   */
  lemma {:induction false} ScanProbesInOrder(s: Snapshot, low: nat, high: nat, pivot: int, i: nat, j: nat)
    requires low <= i <= j <= high < |s.data|
    ensures forall a :: j <= a < high ==>
      && ProbePos(s, low, high, pivot, i, j, a) < |PartitionScan(s, low, high, pivot, i, j).steps|
      && exists b :: ProbeAt(PartitionScan(s, low, high, pivot, i, j).steps[ProbePos(s, low, high, pivot, i, j, a)], low, b, a, high)
    ensures forall a :: j <= a < high - 1 ==> ProbePos(s, low, high, pivot, i, j, a) < ProbePos(s, low, high, pivot, i, j, a + 1)
    decreases high - j
  {
    if j < high {
      var round := ScanRound(s, high, pivot, i, j);
      var rest := PartitionScan(round.lane, low, high, pivot, round.i, j + 1);
      var steps := PartitionScan(s, low, high, pivot, i, j).steps;
      ScanProbesInOrder(round.lane, low, high, pivot, round.i, j + 1);
      assert steps == round.emitted + rest.steps;
      var e := |round.emitted|;
      assert e >= 1 && round.emitted[0] == Snapshot(s.data, {j, high, i});
      forall a | j <= a < high
        ensures ProbePos(s, low, high, pivot, i, j, a) < |steps|
        ensures exists b :: ProbeAt(steps[ProbePos(s, low, high, pivot, i, j, a)], low, b, a, high)
      {
        if a == j {
          assert ProbeAt(steps[0], low, i, j, high);
        } else {
          var q := ProbePos(round.lane, low, high, pivot, round.i, j + 1, a);
          assert ProbePos(s, low, high, pivot, i, j, a) == e + q;
          assert steps[e + q] == rest.steps[q];
        }
      }
      forall a | j <= a < high - 1
        ensures ProbePos(s, low, high, pivot, i, j, a) < ProbePos(s, low, high, pivot, i, j, a + 1)
      {
        assert ProbePos(s, low, high, pivot, i, j, a + 1) == e + ProbePos(round.lane, low, high, pivot, round.i, j + 1, a + 1);
      }
    }
  }

  /**
   * The probe of index `a` with the Lomuto boundary `i'` of the data it shows:
   * `{a, high, i'}`, with `data[low..<i']` below the pivot and `data[i'..<a]` not.
   */
  ghost predicate BoundaryProbe(st: Snapshot, low: nat, a: int, high: int, pivot: int)
  {
    exists b :: ProbeAt(st, low, b, a, high) && a <= |st.data| && ScanInvariant(st.data, low, b, a, pivot)
  }

  /**
   * The swap snapshot `{i', a}` of index `a` with boundary `i' < a`: after the
   * swap `data[low...i']` is below the pivot and `data[i' + 1...a]` is not.
   */
  ghost predicate BoundarySwap(st: Snapshot, low: nat, a: int, high: int, pivot: int)
  {
    exists b :: SwapShotAt(st, low, b, a, high) && a < |st.data| && ScanInvariant(st.data, low, b + 1, a + 1, pivot)
  }

  /** Position `k` of the trace from loop index `j` on is the probe of some remaining index. */
  ghost predicate ProbeSlot(s: Snapshot, low: nat, high: nat, pivot: int, i: nat, j: nat, k: int)
  {
    exists a :: low <= i <= j <= a < high < |s.data| && ProbePos(s, low, high, pivot, i, j, a) == k
  }

  /** Position `k` follows the probe of some remaining index `a` and holds that index's swap snapshot `st`. */
  ghost predicate SwapSlot(s: Snapshot, low: nat, high: nat, pivot: int, i: nat, j: nat, k: int, st: Snapshot)
  {
    exists a :: low <= i <= j <= a < high < |s.data| && ProbePos(s, low, high, pivot, i, j, a) + 1 == k
      && BoundarySwap(st, low, a, high, pivot)
  }

  /** The first index of `d[k..<a]` whose element is not below the pivot, or `a` if there is none. */
  function FirstNotBelow(d: seq<int>, k: int, a: int, pivot: int): (r: int)
    requires 0 <= k <= a <= |d|
    ensures k <= r <= a
    ensures forall t :: k <= t < r ==> d[t] < pivot
    ensures r < a ==> d[r] >= pivot
    decreases a - k
  {
    if k == a || d[k] >= pivot then k else FirstNotBelow(d, k + 1, a, pivot)
  }

  /**
   * A boundary `b` that splits `d[low..<a]` around the pivot is the first
   * index from `k` on not below it, so the boundary of a probe is determined
   * by the data the probe shows.
   */
  lemma {:induction false} BoundaryIsFirst(d: seq<int>, low: nat, k: int, b: int, a: int, pivot: int)
    requires low <= k <= b <= a <= |d| && ScanInvariant(d, low, b, a, pivot)
    ensures FirstNotBelow(d, k, a, pivot) == b
    decreases b - k
  {
    if k < b {
      BoundaryIsFirst(d, low, k + 1, b, a, pivot);
    }
  }

  /**
   * From a loop state that keeps the scan invariant, the probe of every
   * remaining index `a` highlights the Lomuto boundary of the data it shows.
   */
  lemma {:induction false} ScanBoundaries(s: Snapshot, low: nat, high: nat, pivot: int, i: nat, j: nat)
    requires low <= i <= j <= high < |s.data| && ScanInvariant(s.data, low, i, j, pivot)
    ensures forall a :: j <= a < high ==>
      && ProbePos(s, low, high, pivot, i, j, a) < |PartitionScan(s, low, high, pivot, i, j).steps|
      && BoundaryProbe(PartitionScan(s, low, high, pivot, i, j).steps[ProbePos(s, low, high, pivot, i, j, a)], low, a, high, pivot)
    decreases high - j
  {
    if j < high {
      var round := ScanRound(s, high, pivot, i, j);
      var rest := PartitionScan(round.lane, low, high, pivot, round.i, j + 1);
      var steps := PartitionScan(s, low, high, pivot, i, j).steps;
      RoundSplits(s, low, high, pivot, i, j);
      ScanBoundaries(round.lane, low, high, pivot, round.i, j + 1);
      assert steps == round.emitted + rest.steps;
      var e := |round.emitted|;
      forall a | j <= a < high
        ensures ProbePos(s, low, high, pivot, i, j, a) < |steps|
        ensures BoundaryProbe(steps[ProbePos(s, low, high, pivot, i, j, a)], low, a, high, pivot)
      {
        if a == j {
          assert steps[0] == Snapshot(s.data, {j, high, i});
          assert ProbeAt(steps[0], low, i, j, high);
        } else {
          var q := ProbePos(round.lane, low, high, pivot, round.i, j + 1, a);
          assert ProbePos(s, low, high, pivot, i, j, a) == e + q;
          assert steps[e + q] == rest.steps[q];
        }
      }
    }
  }

  /**
   * From a loop state that keeps the scan invariant, each snapshot of the
   * rest of `partition` is, by its position, the probe of a remaining index,
   * the swap snapshot right after that index's probe, or the pivot move
   * `{p, high}`, last and only when `p != high`.
   */
  lemma {:induction false} ScanSlots(s: Snapshot, low: nat, high: nat, pivot: int, i: nat, j: nat)
    requires low <= i <= j <= high < |s.data| && ScanInvariant(s.data, low, i, j, pivot)
    ensures var r := PartitionScan(s, low, high, pivot, i, j);
      forall k :: 0 <= k < |r.steps| ==>
        || ProbeSlot(s, low, high, pivot, i, j, k)
        || SwapSlot(s, low, high, pivot, i, j, k, r.steps[k])
        || (k == |r.steps| - 1 && r.p != high && r.steps[k] == Snapshot(r.after.data, {r.p, high}))
    decreases high - j
  {
    var r := PartitionScan(s, low, high, pivot, i, j);
    if j < high {
      var round := ScanRound(s, high, pivot, i, j);
      var rest := PartitionScan(round.lane, low, high, pivot, round.i, j + 1);
      RoundSplits(s, low, high, pivot, i, j);
      ScanSlots(round.lane, low, high, pivot, round.i, j + 1);
      assert r.steps == round.emitted + rest.steps && r.p == rest.p && r.after == rest.after;
      var e := |round.emitted|;
      forall k | 0 <= k < |r.steps|
        ensures || ProbeSlot(s, low, high, pivot, i, j, k)
                || SwapSlot(s, low, high, pivot, i, j, k, r.steps[k])
                || (k == |r.steps| - 1 && r.p != high && r.steps[k] == Snapshot(r.after.data, {r.p, high}))
      {
        if k == 0 {
          assert ProbePos(s, low, high, pivot, i, j, j) == 0;
        } else if k < e {
          assert r.steps[k] == round.lane && round.lane.highlighted == {i, j};
          assert SwapShotAt(r.steps[k], low, i, j, high);
          assert BoundarySwap(r.steps[k], low, j, high, pivot);
          assert ProbePos(s, low, high, pivot, i, j, j) + 1 == k;
        } else {
          var q := k - e;
          assert r.steps[k] == rest.steps[q];
          if ProbeSlot(round.lane, low, high, pivot, round.i, j + 1, q) {
            var a :| low <= round.i <= j + 1 <= a < high < |s.data| && ProbePos(round.lane, low, high, pivot, round.i, j + 1, a) == q;
            assert ProbePos(s, low, high, pivot, i, j, a) == k;
          } else if SwapSlot(round.lane, low, high, pivot, round.i, j + 1, q, rest.steps[q]) {
            var a :| low <= round.i <= j + 1 <= a < high < |s.data| && ProbePos(round.lane, low, high, pivot, round.i, j + 1, a) + 1 == q
              && BoundarySwap(rest.steps[q], low, a, high, pivot);
            assert ProbePos(s, low, high, pivot, i, j, a) + 1 == k;
          }
        }
      }
    } else if i != high {
      assert r.steps == [Snapshot(r.after.data, {r.p, high})];
    }
  }

  /**
   * From loop index `j` on, every snapshot `partition` emits has the shape of
   * a probe `{a, high, i'}` of a remaining index `a`, of a swap snapshot
   * `{i', j'}` of two distinct indices, or is the pivot move `{p, high}`, last
   * and only when `p != high`; that last snapshot is emitted exactly when
   * `p != high`. There are between `high - j` and `2 * (high - j) + 1` snapshots.
   */
  lemma {:induction false} ScanTrace(s: Snapshot, low: nat, high: nat, pivot: int, i: nat, j: nat)
    requires low <= i <= j <= high < |s.data|
    ensures var r := PartitionScan(s, low, high, pivot, i, j);
      && high - j <= |r.steps| <= 2 * (high - j) + 1
      && (forall k :: 0 <= k < |r.steps| ==>
            || ScanShot(r.steps[k], low, high, j)
            || (k == |r.steps| - 1 && r.p != high && r.steps[k] == Snapshot(r.after.data, {r.p, high})))
      && (r.p != high ==> |r.steps| > 0 && r.steps[|r.steps| - 1] == Snapshot(r.after.data, {r.p, high}))
      && (r.p == high ==> |r.steps| <= 2 * (high - j))
    decreases high - j
  {
    var r := PartitionScan(s, low, high, pivot, i, j);
    if j < high {
      var round := ScanRound(s, high, pivot, i, j);
      var rest := PartitionScan(round.lane, low, high, pivot, round.i, j + 1);
      ScanTrace(round.lane, low, high, pivot, round.i, j + 1);
      assert r.steps == round.emitted + rest.steps && r.p == rest.p && r.after == rest.after;
      var e := |round.emitted|;
      assert ProbeAt(round.emitted[0], low, i, j, high);
      assert e == 2 ==> SwapShotAt(round.emitted[1], low, i, j, high);
      forall k | 0 <= k < |r.steps|
        ensures || ScanShot(r.steps[k], low, high, j)
                || (k == |r.steps| - 1 && r.p != high && r.steps[k] == Snapshot(r.after.data, {r.p, high}))
      {
        if k == 0 {
          assert ProbeAt(r.steps[k], low, i, j, high);
        } else if k < e {
          assert SwapShotAt(r.steps[k], low, i, j, high);
        } else {
          var q := k - e;
          assert r.steps[k] == rest.steps[q];
          if ScanShot(rest.steps[q], low, high, j + 1) && exists a, b :: ProbeAt(rest.steps[q], low, b, a, high) && j + 1 <= a {
            var a, b :| ProbeAt(rest.steps[q], low, b, a, high) && j + 1 <= a;
            assert ProbeAt(r.steps[k], low, b, a, high) && j <= a;
          } else if ScanShot(rest.steps[q], low, high, j + 1) {
            var a, b :| SwapShotAt(rest.steps[q], low, b, a, high);
            assert SwapShotAt(r.steps[k], low, b, a, high);
          }
        }
      }
    } else if i != high {
      assert r.steps == [Snapshot(r.after.data, {r.p, high})];
    }
  }

  /**
   * The whole of `partition(low, high)`: a probe of each loop index `j` in
   * `low..<high` at position `ProbePos(j)`, these positions increasing with
   * `j`; every snapshot shaped as a probe, as a swap snapshot `{i, j}` with
   * `i != j`, or as the pivot move `{p, high}`, which comes last exactly when
   * `p != high`; between `high - low` and `2 * (high - low) + 1` snapshots.
   */
  lemma PartitionTrace(s: Snapshot, low: nat, high: nat)
    requires low <= high < |s.data|
    ensures var r := Partitioned(s, low, high);
      && high - low <= |r.steps| <= 2 * (high - low) + 1
      && (forall a :: low <= a < high ==>
            && ProbePos(s, low, high, s.data[high], low, low, a) < |r.steps|
            && exists b :: ProbeAt(r.steps[ProbePos(s, low, high, s.data[high], low, low, a)], low, b, a, high))
      && (forall a :: low <= a < high - 1 ==>
            ProbePos(s, low, high, s.data[high], low, low, a) < ProbePos(s, low, high, s.data[high], low, low, a + 1))
      && (forall k :: 0 <= k < |r.steps| ==>
            || ScanShot(r.steps[k], low, high, low)
            || (k == |r.steps| - 1 && r.p != high && r.steps[k] == Snapshot(r.after.data, {r.p, high})))
      && (r.p != high ==> |r.steps| > 0 && r.steps[|r.steps| - 1] == Snapshot(r.after.data, {r.p, high}))
  {
    ScanTrace(s, low, high, s.data[high], low, low);
    ScanProbesInOrder(s, low, high, s.data[high], low, low);
  }

  /**
   * Which snapshot of `partition(low, high)` is what: the probe of each loop
   * index `j` at `ProbePos(j)` highlights `{j, high, i}` with `i` the Lomuto
   * boundary of the data it shows, and every other position holds the swap
   * snapshot `{i, j}` right after the probe of `j`, or the last pivot move.
   */
  lemma PartitionSlots(s: Snapshot, low: nat, high: nat)
    requires low <= high < |s.data|
    ensures var r := Partitioned(s, low, high);
      && (forall a :: low <= a < high ==>
            && ProbePos(s, low, high, s.data[high], low, low, a) < |r.steps|
            && BoundaryProbe(r.steps[ProbePos(s, low, high, s.data[high], low, low, a)], low, a, high, s.data[high]))
      && (forall k :: 0 <= k < |r.steps| ==>
            || ProbeSlot(s, low, high, s.data[high], low, low, k)
            || SwapSlot(s, low, high, s.data[high], low, low, k, r.steps[k])
            || (k == |r.steps| - 1 && r.p != high && r.steps[k] == Snapshot(r.after.data, {r.p, high})))
  {
    ScanBoundaries(s, low, high, s.data[high], low, low);
    ScanSlots(s, low, high, s.data[high], low, low);
  }


  /**
   * Sorting each side of a split pivot, each side staying on its side of the
   * pivot value, leaves the whole range sorted.
   */
  lemma SortJoin(d: seq<int>, d2: seq<int>, e: seq<int>, low: int, p: int, high: int, pivot: int)
    requires 0 <= low <= p <= high < |d|
    requires SplitAround(d, low, p, high, pivot)
    requires SameOutside(d, d2, low, p - 1) && SameOutside(d2, e, p + 1, high)
    requires OnSide(d, low, p - 1, pivot, true) ==> OnSide(d2, low, p - 1, pivot, true)
    requires OnSide(d2, p + 1, high, pivot, false) ==> OnSide(e, p + 1, high, pivot, false)
    requires SortedBetween(d2, low, p) && SortedBetween(e, p + 1, high + 1)
    ensures SortedBetween(e, low, high + 1)
  {
    assert OnSide(d, low, p - 1, pivot, true);
    assert forall k :: p + 1 <= k <= high ==> d2[k] == d[k];
    assert OnSide(d2, p + 1, high, pivot, false);
    assert forall k :: low <= k <= p ==> e[k] == d2[k];
    assert e[p] == pivot;
  }

  /** `quickSort(low, high)` leaves `data[low...high]` sorted. */
  lemma {:induction false} QuickRangeSorts(s: Snapshot, low: nat, high: int)
    requires low <= high + 1 <= |s.data|
    ensures SortedBetween(QuickRange(s, low, high).after.data, low, high + 1)
    decreases high - low + 1, 2
  {
    if low < high {
      PartitionSplits(s, low, high);
      SidesSort(Partitioned(s, low, high), low, high, s.data[high]);
    }
  }

  /** Partitioning around `pivot` and then sorting both sides sorts the whole range. */
  lemma {:induction false} SidesSort(split: Split, low: nat, high: int, pivot: int)
    requires low <= split.p <= high < |split.after.data|
    requires SplitAround(split.after.data, low, split.p, high, pivot)
    ensures SortedBetween(QuickSides(split, low, high).after.data, low, high + 1)
    decreases high - low + 1, 1
  {
    var left := QuickRange(split.after, low, split.p - 1);
    var right := QuickRange(left.after, split.p + 1, high);
    assert QuickSides(split, low, high).after == right.after;
    LeftSideSorts(split.after, low, split.p, high, pivot);
    RightSideSorts(left.after, low, split.p, high, pivot);
    SortJoin(split.after.data, left.after.data, right.after.data, low, split.p, high, pivot);
  }

  /** Sorting the elements before the pivot at `p`: sorted, nothing else moved, all still below the pivot. */
  lemma {:induction false} LeftSideSorts(s: Snapshot, low: nat, p: nat, high: int, pivot: int)
    requires low <= p <= high < |s.data|
    ensures var e := QuickRange(s, low, p - 1).after.data;
      SortedBetween(e, low, p) && SameOutside(s.data, e, low, p - 1)
      && (OnSide(s.data, low, p - 1, pivot, true) ==> OnSide(e, low, p - 1, pivot, true))
    decreases high - low + 1, 0
  {
    QuickRangeSorts(s, low, p - 1);
    QuickRangeOutside(s, low, p - 1);
    QuickRangeKeepsSide(s, low, p - 1, pivot, true);
  }

  /** Sorting the elements after the pivot at `p`: sorted, nothing else moved, none below the pivot. */
  lemma {:induction false} RightSideSorts(s: Snapshot, low: nat, p: nat, high: int, pivot: int)
    requires low <= p <= high < |s.data|
    ensures var e := QuickRange(s, p + 1, high).after.data;
      SortedBetween(e, p + 1, high + 1) && SameOutside(s.data, e, p + 1, high)
      && (OnSide(s.data, p + 1, high, pivot, false) ==> OnSide(e, p + 1, high, pivot, false))
    decreases high - low + 1, 0
  {
    QuickRangeSorts(s, p + 1, high);
    QuickRangeOutside(s, p + 1, high);
    QuickRangeKeepsSide(s, p + 1, high, pivot, false);
  }

  /** The sort leaves its array sorted. */
  lemma QuickSorts(s: Snapshot)
    ensures Sorted(QuickRun(s).after.data)
  {
    QuickRangeSorts(s, 0, |s.data| - 1);
  }

  /** One scan iteration emits snapshots that show all bars and highlight valid indices. */
  lemma RoundConforms(s: Snapshot, high: nat, pivot: int, i: nat, j: nat)
    requires i <= j < high < |s.data|
    ensures AllConform(ScanRound(s, high, pivot, i, j).emitted, |s.data|)
  {
    var probe := Snapshot(s.data, {j, high, i});
    assert Conforms(probe, |s.data|);
    if s.data[j] < pivot && i != j {
      var shown := Snapshot(Swap(s.data, i, j), {i, j});
      assert Conforms(shown, |s.data|);
      AllConformAppend([probe], [shown], |s.data|);
    }
  }

  /** Moving the pivot into place emits a conforming snapshot. */
  lemma PlaceConforms(s: Snapshot, low: nat, high: nat, pivot: int, i: nat)
    requires low <= i <= high < |s.data|
    ensures AllConform(PartitionScan(s, low, high, pivot, i, high).steps, |s.data|)
  {
    if i != high {
      assert Conforms(Snapshot(Swap(s.data, i, high), {i, high}), |s.data|);
    }
  }

  /** `partition`, from any loop index on, emits only conforming snapshots. */
  lemma {:induction false} ScanConforms(s: Snapshot, low: nat, high: nat, pivot: int, i: nat, j: nat)
    requires low <= i <= j <= high < |s.data|
    ensures AllConform(PartitionScan(s, low, high, pivot, i, j).steps, |s.data|)
    decreases high - j
  {
    if j < high {
      var round := ScanRound(s, high, pivot, i, j);
      RoundConforms(s, high, pivot, i, j);
      ScanConforms(round.lane, low, high, pivot, round.i, j + 1);
      AllConformAppend(round.emitted, PartitionScan(round.lane, low, high, pivot, round.i, j + 1).steps, |s.data|);
    } else {
      PlaceConforms(s, low, high, pivot, i);
    }
  }

  /** One scan iteration only rearranges the array. */
  lemma RoundPermutes(s: Snapshot, high: nat, pivot: int, i: nat, j: nat)
    requires i <= j < high < |s.data|
    ensures multiset(ScanRound(s, high, pivot, i, j).lane.data) == multiset(s.data)
  {
    if s.data[j] < pivot && i != j {
      SwapPermutes(s.data, i, j);
    }
  }

  /** Moving the pivot into place only rearranges the array. */
  lemma PlacePermutes(s: Snapshot, low: nat, high: nat, pivot: int, i: nat)
    requires low <= i <= high < |s.data|
    ensures multiset(PartitionScan(s, low, high, pivot, i, high).after.data) == multiset(s.data)
  {
    if i != high {
      SwapPermutes(s.data, i, high);
    }
  }

  /** `partition`, from any loop index on, only rearranges the array. */
  lemma {:induction false} ScanPermutes(s: Snapshot, low: nat, high: nat, pivot: int, i: nat, j: nat)
    requires low <= i <= j <= high < |s.data|
    ensures multiset(PartitionScan(s, low, high, pivot, i, j).after.data) == multiset(s.data)
    decreases high - j
  {
    if j < high {
      var round := ScanRound(s, high, pivot, i, j);
      RoundPermutes(s, high, pivot, i, j);
      ScanPermutes(round.lane, low, high, pivot, round.i, j + 1);
    } else {
      PlacePermutes(s, low, high, pivot, i);
    }
  }

  lemma {:induction false} QuickRangeConforms(s: Snapshot, low: nat, high: int)
    requires low <= high + 1 <= |s.data|
    ensures AllConform(QuickRange(s, low, high).steps, |s.data|)
    decreases high - low + 1, 1
  {
    if low < high {
      ScanConforms(s, low, high, s.data[high], low, low);
      SidesConform(Partitioned(s, low, high), low, high);
    }
  }

  lemma {:induction false} SidesConform(split: Split, low: nat, high: int)
    requires low <= split.p <= high < |split.after.data| && AllConform(split.steps, |split.after.data|)
    ensures AllConform(QuickSides(split, low, high).steps, |split.after.data|)
    decreases high - low + 1, 0
  {
    var left := QuickRange(split.after, low, split.p - 1);
    var right := QuickRange(left.after, split.p + 1, high);
    QuickRangeConforms(split.after, low, split.p - 1);
    QuickRangeConforms(left.after, split.p + 1, high);
    AllConformAppend(split.steps, left.steps, |split.after.data|);
    AllConformAppend(split.steps + left.steps, right.steps, |split.after.data|);
  }

  lemma {:induction false} QuickRangePermutes(s: Snapshot, low: nat, high: int)
    requires low <= high + 1 <= |s.data|
    ensures multiset(QuickRange(s, low, high).after.data) == multiset(s.data)
    decreases high - low + 1, 1
  {
    if low < high {
      ScanPermutes(s, low, high, s.data[high], low, low);
      SidesPermute(Partitioned(s, low, high), low, high);
    }
  }

  lemma {:induction false} SidesPermute(split: Split, low: nat, high: int)
    requires low <= split.p <= high < |split.after.data|
    ensures multiset(QuickSides(split, low, high).after.data) == multiset(split.after.data)
    decreases high - low + 1, 0
  {
    var left := QuickRange(split.after, low, split.p - 1);
    QuickRangePermutes(split.after, low, split.p - 1);
    QuickRangePermutes(left.after, split.p + 1, high);
  }

  /**
   * Every snapshot handed to `processStep` shows all the lane's bars and
   * highlights only valid indices.
   */
  lemma QuickConforms(s: Snapshot)
    ensures AllConform(QuickRun(s).steps, |s.data|)
  {
    QuickRangeConforms(s, 0, |s.data| - 1);
  }

  /** The sort only rearranges its input. */
  lemma QuickPermutes(s: Snapshot)
    ensures multiset(QuickRun(s).after.data) == multiset(s.data)
  {
    QuickRangePermutes(s, 0, |s.data| - 1);
  }

  /** A scan iteration leaves the lane as its last snapshot shows it. */
  lemma RoundEndsOnLastStep(s: Snapshot, high: nat, pivot: int, i: nat, j: nat)
    requires i <= j < high < |s.data|
    ensures ScanRound(s, high, pivot, i, j).lane == Final(s, ScanRound(s, high, pivot, i, j).emitted)
  {
  }

  lemma {:induction false} ScanEndsOnLastStep(s: Snapshot, low: nat, high: nat, pivot: int, i: nat, j: nat)
    requires low <= i <= j <= high < |s.data|
    ensures PartitionScan(s, low, high, pivot, i, j).after == Final(s, PartitionScan(s, low, high, pivot, i, j).steps)
    decreases high - j
  {
    if j < high {
      var round := ScanRound(s, high, pivot, i, j);
      RoundEndsOnLastStep(s, high, pivot, i, j);
      ScanEndsOnLastStep(round.lane, low, high, pivot, round.i, j + 1);
      FinalAppend(s, round.emitted, PartitionScan(round.lane, low, high, pivot, round.i, j + 1).steps);
    }
  }

  lemma {:induction false} QuickRangeEndsOnLastStep(s: Snapshot, low: nat, high: int)
    requires low <= high + 1 <= |s.data|
    ensures QuickRange(s, low, high).after == Final(s, QuickRange(s, low, high).steps)
    decreases high - low + 1, 1
  {
    if low < high {
      ScanEndsOnLastStep(s, low, high, s.data[high], low, low);
      SidesEndOnLastStep(Partitioned(s, low, high), low, high, s);
    }
  }

  lemma {:induction false} SidesEndOnLastStep(split: Split, low: nat, high: int, start: Snapshot)
    requires low <= split.p <= high < |split.after.data| && split.after == Final(start, split.steps)
    ensures QuickSides(split, low, high).after == Final(start, QuickSides(split, low, high).steps)
    decreases high - low + 1, 0
  {
    var left := QuickRange(split.after, low, split.p - 1);
    var right := QuickRange(left.after, split.p + 1, high);
    QuickRangeEndsOnLastStep(split.after, low, split.p - 1);
    QuickRangeEndsOnLastStep(left.after, split.p + 1, high);
    FinalAppend(start, split.steps, left.steps);
    FinalAppend(start, split.steps + left.steps, right.steps);
  }

  /** Nothing changes after the last `processStep`: the lane ends as its last snapshot shows it. */
  lemma QuickEndsOnLastStep(s: Snapshot)
    ensures QuickRun(s).after == Final(s, QuickRun(s).steps)
  {
    QuickRangeEndsOnLastStep(s, 0, |s.data| - 1);
  }

  /**
   * `done` was emitted so far and the scan, resumed at `(i, j)` on `s`, emits
   * the rest of `goal` and ends where `goal` ends.
   */
  predicate Resumes(done: seq<Snapshot>, s: Snapshot, low: nat, high: nat, pivot: int, i: nat, j: nat, goal: Split)
    requires low <= i <= j <= high < |s.data|
  {
    var rest := PartitionScan(s, low, high, pivot, i, j);
    rest.p == goal.p && rest.after == goal.after && done + rest.steps == goal.steps
  }

  /** An iteration of the scan loop that swaps an element below the pivot down to `i`. */
  lemma ScanSwapKeepsTrace(done: seq<Snapshot>, s: Snapshot, low: nat, high: nat, pivot: int, i: nat, j: nat, goal: Split,
                           now: seq<Snapshot>, next: Snapshot)
    requires low <= i < j < high < |s.data| && s.data[j] < pivot
    requires Resumes(done, s, low, high, pivot, i, j, goal)
    requires next == Snapshot(Swap(s.data, i, j), {i, j})
    requires now == done + [Snapshot(s.data, {j, high, i})] + [next]
    ensures Resumes(now, next, low, high, pivot, i + 1, j + 1, goal)
  {
    var probe := Snapshot(s.data, {j, high, i});
    var rest := PartitionScan(next, low, high, pivot, i + 1, j + 1);
    assert done + [probe] + [next] + rest.steps == done + ([probe] + [next] + rest.steps);
  }

  /** An iteration of the scan loop that finds an element below the pivot already at `i`. */
  lemma ScanStayKeepsTrace(done: seq<Snapshot>, s: Snapshot, low: nat, high: nat, pivot: int, i: nat, goal: Split,
                           now: seq<Snapshot>, next: Snapshot)
    requires low <= i < high < |s.data| && s.data[i] < pivot
    requires Resumes(done, s, low, high, pivot, i, i, goal)
    requires next == Snapshot(s.data, {i, high, i})
    requires now == done + [next]
    ensures Resumes(now, next, low, high, pivot, i + 1, i + 1, goal)
  {
    var rest := PartitionScan(next, low, high, pivot, i + 1, i + 1);
    assert done + [next] + rest.steps == done + ([next] + rest.steps);
  }

  /** An iteration of the scan loop that leaves an element not below the pivot where it is. */
  lemma ScanSkipKeepsTrace(done: seq<Snapshot>, s: Snapshot, low: nat, high: nat, pivot: int, i: nat, j: nat, goal: Split,
                           now: seq<Snapshot>, next: Snapshot)
    requires low <= i <= j < high < |s.data| && s.data[j] >= pivot
    requires Resumes(done, s, low, high, pivot, i, j, goal)
    requires next == Snapshot(s.data, {j, high, i})
    requires now == done + [next]
    ensures Resumes(now, next, low, high, pivot, i, j + 1, goal)
  {
    var rest := PartitionScan(next, low, high, pivot, i, j + 1);
    assert done + [next] + rest.steps == done + ([next] + rest.steps);
  }

  /** Moving the pivot into place at the end of the scan completes `goal`. */
  lemma ScanPlaceKeepsTrace(done: seq<Snapshot>, s: Snapshot, low: nat, high: nat, pivot: int, i: nat, goal: Split)
    requires low <= i <= high < |s.data|
    requires Resumes(done, s, low, high, pivot, i, high, goal)
    ensures i == goal.p
    ensures i != high ==> Snapshot(Swap(s.data, i, high), {i, high}) == goal.after
    ensures i != high ==> done + [Snapshot(Swap(s.data, i, high), {i, high})] == goal.steps
    ensures i == high ==> s == goal.after && done == goal.steps
  {
  }

  /** `partition(low, high)`, in place on `state`; returns the pivot's final index. */
  method Partition(state: SortState, low: nat, high: nat) returns (p: int, steps: seq<Snapshot>)
    requires low <= high < |state.data|
    modifies state
    ensures p == Partitioned(old(state.Snap()), low, high).p
    ensures state.Snap() == Partitioned(old(state.Snap()), low, high).after
    ensures steps == Partitioned(old(state.Snap()), low, high).steps
    ensures state.description == old(state.description)
  {
    var pivot := state.data[high];
    ghost var goal := PartitionScan(state.Snap(), low, high, pivot, low, low);
    var i := low;
    steps := [];
    for j := low to high
      invariant low <= i <= j && |state.data| == |old(state.data)|
      invariant Resumes(steps, state.Snap(), low, high, pivot, i, j, goal)
      invariant state.description == old(state.description)
    {
      ghost var s0, was := state.Snap(), steps;
      state.highlightedIndices := {j, high, i};
      steps := steps + [state.Snap()];              // processStep()
      if state.data[j] < pivot {
        if i != j {
          state.data := Swap(state.data, i, j);
          state.highlightedIndices := {i, j};
          steps := steps + [state.Snap()];          // processStep()
          ScanSwapKeepsTrace(was, s0, low, high, pivot, i, j, goal, steps, state.Snap());
        } else {
          ScanStayKeepsTrace(was, s0, low, high, pivot, i, goal, steps, state.Snap());
        }
        i := i + 1;
      } else {
        ScanSkipKeepsTrace(was, s0, low, high, pivot, i, j, goal, steps, state.Snap());
      }
    }
    ScanPlaceKeepsTrace(steps, state.Snap(), low, high, pivot, i, goal);
    if i != high {
      state.data := Swap(state.data, i, high);
      state.highlightedIndices := {i, high};
      steps := steps + [state.Snap()];              // processStep()
    }
    p := i;
  }

  /** The nested `quickSort(low, high)`, in place on `state`. */
  method QuickSortRange(state: SortState, low: nat, high: int) returns (steps: seq<Snapshot>)
    requires low <= high + 1 <= |state.data|
    modifies state
    ensures state.Snap() == QuickRange(old(state.Snap()), low, high).after
    ensures steps == QuickRange(old(state.Snap()), low, high).steps
    ensures state.description == old(state.description)
    decreases high - low + 1
  {
    if low < high {
      ghost var s0 := state.Snap();
      var p, first := Partition(state, low, high);
      var second := QuickSortRange(state, low, p - 1);
      var third := QuickSortRange(state, p + 1, high);
      steps := first + second + third;
      assert QuickRange(s0, low, high) == QuickSides(Partitioned(s0, low, high), low, high);
    } else {
      steps := [];
    }
  }

  /** The instrumented sort, in place on `state`; `steps` are the snapshots `processStep` sees. */
  method QuickSort(state: SortState) returns (steps: seq<Snapshot>)
    modifies state
    ensures state.Snap() == QuickRun(old(state.Snap())).after
    ensures steps == QuickRun(old(state.Snap())).steps
    ensures Sorted(state.data) && multiset(state.data) == multiset(old(state.data))
    ensures AllConform(steps, |old(state.data)|)
    ensures state.Snap() == Final(old(state.Snap()), steps)
    ensures state.description == old(state.description)
  {
    steps := QuickSortRange(state, 0, |state.data| - 1);
    QuickSorts(old(state.Snap()));
    QuickConforms(old(state.Snap()));
    QuickPermutes(old(state.Snap()));
    QuickEndsOnLastStep(old(state.Snap()));
  }
}
