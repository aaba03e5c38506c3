/**
 * Step-instrumented selection sort (`selectionSort`). The functions give the
 * exact trace handed to `processStep`; the methods are the in-place loops,
 * proved to produce that trace and that final state.
 */
module Selection {
  import opened State

  /** Where the scan for the minimum ended, the lane afterwards and the snapshots it emitted. */
  datatype Scan = Scan(minIndex: int, after: Snapshot, steps: seq<Snapshot>)

  /**
   * The inner `for j in i+1..<count` loop from `j` on, with `m` the index of
   * the least element seen so far: show `{m, j}`, then move `m` to `j` only
   * on a strictly smaller element.
   */
  function ScanMin(s: Snapshot, i: nat, m: nat, j: nat): (r: Scan)
    requires i <= m < j <= |s.data|
    ensures i <= r.minIndex < |s.data| && r.after.data == s.data
    ensures |r.steps| == |s.data| - j
    decreases |s.data| - j
  {
    if j == |s.data| then Scan(m, s, [])
    else
      var probe := Snapshot(s.data, {m, j});
      var next := if s.data[j] < s.data[m] then j else m;
      var rest := ScanMin(probe, i, next, j + 1);
      Scan(rest.minIndex, rest.after, [probe] + rest.steps)
  }

  /**
   * One round of the outer loop: scan for the minimum of `data[i..<count]`;
   * only when it is not already at `i`, show `{i, minIndex}`, swap, and show
   * `{i, minIndex}` again.
   */
  function SelectPass(s: Snapshot, i: nat): (r: Run)
    requires i < |s.data|
    ensures |r.after.data| == |s.data|
  {
    var scan := ScanMin(s, i, i, i + 1);
    var m := scan.minIndex;
    if i != m then
      var before := Snapshot(scan.after.data, {i, m});
      var swapped := Snapshot(Swap(before.data, i, m), {i, m});
      Run(swapped, scan.steps + [before] + [swapped])
    else
      Run(scan.after, scan.steps)
  }

  /** The outer `for i in 0..<count` loop from index `i` on. */
  function SelectFrom(s: Snapshot, i: nat): (r: Run)
    requires i <= |s.data|
    ensures |r.after.data| == |s.data|
    decreases |s.data| - i
  {
    if i == |s.data| then Run(s, [])
    else
      var pass := SelectPass(s, i);
      var rest := SelectFrom(pass.after, i + 1);
      Run(rest.after, pass.steps + rest.steps)
  }

  /** The whole sort (an empty array gives an empty trace). */
  function SelectionRun(s: Snapshot): Run
  {
    SelectFrom(s, 0)
  }

  /**
   * The scan ends on the first index of the least element of `data[i..<count]`,
   * given that `m` is the first index of the least element of `data[i..<j]`.
   */
  lemma {:induction false} ScanFindsMin(s: Snapshot, i: nat, m: nat, j: nat)
    requires i <= m < j <= |s.data|
    requires forall k :: i <= k < j ==> s.data[m] <= s.data[k]
    requires forall k :: i <= k < m ==> s.data[m] < s.data[k]
    ensures var r := ScanMin(s, i, m, j);
      && (forall k :: i <= k < |s.data| ==> s.data[r.minIndex] <= s.data[k])
      && (forall k :: i <= k < r.minIndex ==> s.data[r.minIndex] < s.data[k])
    decreases |s.data| - j
  {
    if j < |s.data| {
      var probe := Snapshot(s.data, {m, j});
      var next := if s.data[j] < s.data[m] then j else m;
      ScanFindsMin(probe, i, next, j + 1);
    }
  }

  /** The minimum of the unsorted part, found by one outer round. */
  lemma PassMin(s: Snapshot, i: nat)
    requires i < |s.data|
    ensures var m := ScanMin(s, i, i, i + 1).minIndex;
      && (forall k :: i <= k < |s.data| ==> s.data[m] <= s.data[k])
      && (forall k :: i <= k < m ==> s.data[m] < s.data[k])
  {
    ScanFindsMin(s, i, i, i + 1);
  }

  /**
   * After the round for index `i`, `data[0...i]` is sorted and no element of
   * it exceeds an element after it, given the same of `data[0..<i]`.
   */
  lemma SelectPassPlaces(s: Snapshot, i: nat)
    requires i < |s.data|
    requires SortedBetween(s.data, 0, i)
    requires forall a, b :: 0 <= a < i <= b < |s.data| ==> s.data[a] <= s.data[b]
    ensures var e := SelectPass(s, i).after.data;
      && SortedBetween(e, 0, i + 1)
      && forall a, b :: 0 <= a < i + 1 <= b < |e| ==> e[a] <= e[b]
  {
    var d := s.data;
    var m := ScanMin(s, i, i, i + 1).minIndex;
    PassMin(s, i);
    var e := SelectPass(s, i).after.data;
    if i != m {
      assert e == d[i := d[m]][m := d[i]];
    } else {
      assert e == d;
    }
    assert forall k :: 0 <= k < i ==> e[k] == d[k];
    assert forall k :: i <= k < |d| ==> e[i] <= e[k];
  }

  lemma {:induction false} SelectFromSorts(s: Snapshot, i: nat)
    requires i <= |s.data|
    requires SortedBetween(s.data, 0, i)
    requires forall a, b :: 0 <= a < i <= b < |s.data| ==> s.data[a] <= s.data[b]
    ensures Sorted(SelectFrom(s, i).after.data)
    decreases |s.data| - i
  {
    if i < |s.data| {
      SelectPassPlaces(s, i);
      SelectFromSorts(SelectPass(s, i).after, i + 1);
    }
  }

  /** The sort leaves its array sorted. */
  lemma SelectionSorts(s: Snapshot)
    ensures Sorted(SelectionRun(s).after.data)
  {
    SelectFromSorts(s, 0);
  }

  lemma {:induction false} ScanConforms(s: Snapshot, i: nat, m: nat, j: nat)
    requires i <= m < j <= |s.data|
    ensures AllConform(ScanMin(s, i, m, j).steps, |s.data|)
    decreases |s.data| - j
  {
    if j < |s.data| {
      var probe := Snapshot(s.data, {m, j});
      var next := if s.data[j] < s.data[m] then j else m;
      assert Conforms(probe, |s.data|);
      ScanConforms(probe, i, next, j + 1);
      AllConformAppend([probe], ScanMin(probe, i, next, j + 1).steps, |s.data|);
    }
  }

  /** `m` is the first index of the least element of `d[i..<upto]`. */
  predicate LeastSoFar(d: seq<int>, i: int, m: int, upto: int)
  {
    && 0 <= i <= m < upto <= |d|
    && (forall t :: i <= t < upto ==> d[m] <= d[t])
    && (forall t :: i <= t < m ==> d[m] < d[t])
  }

  /**
   * The `k`-th probe of a scan started at `j` highlights exactly the pair
   * `{minIndex, j + k}`, with `minIndex` the first least element of `d[i..<j + k]`.
   */
  predicate ProbesPair(st: Snapshot, d: seq<int>, i: int, minIndex: int, j: int, k: int)
  {
    st.highlighted == {minIndex, j + k} && LeastSoFar(d, i, minIndex, j + k)
  }

  /** The `k`-th probe of a scan started at `j`: the untouched array `d` and the pair `{minIndex, j + k}`. */
  ghost predicate ScanProbeShot(st: Snapshot, d: seq<int>, i: int, j: int, k: int)
  {
    st.data == d && exists minIndex :: ProbesPair(st, d, i, minIndex, j, k)
  }

  /**
   * The scan's `k`-th snapshot shows the untouched array and highlights
   * exactly `{minIndex, j + k}`, where `minIndex` is the first index of the
   * least element of `data[i..<j + k]` seen so far.
   */
  lemma {:induction false} ScanProbes(s: Snapshot, i: nat, m: nat, j: nat)
    requires i <= m < j <= |s.data| && LeastSoFar(s.data, i, m, j)
    ensures forall k :: 0 <= k < |ScanMin(s, i, m, j).steps| ==> ScanProbeShot(ScanMin(s, i, m, j).steps[k], s.data, i, j, k)
    decreases |s.data| - j
  {
    if j < |s.data| {
      var probe := Snapshot(s.data, {m, j});
      var next := if s.data[j] < s.data[m] then j else m;
      assert LeastSoFar(s.data, i, next, j + 1);
      ScanProbes(probe, i, next, j + 1);
      var steps := ScanMin(s, i, m, j).steps;
      var rest := ScanMin(probe, i, next, j + 1).steps;
      assert steps == [probe] + rest;
      forall k | 0 <= k < |steps|
        ensures ScanProbeShot(steps[k], s.data, i, j, k)
      {
        if k == 0 {
          assert ProbesPair(steps[0], s.data, i, m, j, 0);
        } else {
          assert steps[k] == rest[k - 1];
          var minIndex :| ProbesPair(rest[k - 1], s.data, i, minIndex, j + 1, k - 1);
          assert ProbesPair(steps[k], s.data, i, minIndex, j, k);
        }
      }
    }
  }

  /**
   * A round emits one probe `{minIndex, j}` per index `j` after `i`, on the
   * untouched array and with `minIndex` the running minimum; the swap and its
   * two `{i, minIndex}` snapshots happen exactly when the minimum is not
   * already at `i`, and otherwise the array is left as it was.
   */
  lemma SelectPassTrace(s: Snapshot, i: nat)
    requires i < |s.data|
    ensures var m := ScanMin(s, i, i, i + 1).minIndex;
      var r := SelectPass(s, i);
      && |r.steps| == |s.data| - i - 1 + (if m != i then 2 else 0)
      && (forall k :: 0 <= k < |s.data| - i - 1 ==> ScanProbeShot(r.steps[k], s.data, i, i + 1, k))
      && (m != i ==> r.steps[|r.steps| - 2] == Snapshot(s.data, {i, m})
                     && r.steps[|r.steps| - 1] == Snapshot(Swap(s.data, i, m), {i, m})
                     && r.after == r.steps[|r.steps| - 1])
      && (m == i ==> r.after.data == s.data)
  {
    ScanProbes(s, i, i, i + 1);
    var scan := ScanMin(s, i, i, i + 1);
    var r := SelectPass(s, i);
    forall k | 0 <= k < |s.data| - i - 1
      ensures ScanProbeShot(r.steps[k], s.data, i, i + 1, k)
    {
      assert r.steps[k] == scan.steps[k];
    }
  }

  /** The round's snapshots show all bars and highlight valid indices. */
  lemma SelectPassConforms(s: Snapshot, i: nat)
    requires i < |s.data|
    ensures AllConform(SelectPass(s, i).steps, |s.data|)
  {
    var scan := ScanMin(s, i, i, i + 1);
    var m := scan.minIndex;
    ScanConforms(s, i, i, i + 1);
    if i != m {
      var before := Snapshot(s.data, {i, m});
      var swapped := Snapshot(Swap(s.data, i, m), {i, m});
      assert Conforms(before, |s.data|) && Conforms(swapped, |s.data|);
      AllConformAppend(scan.steps, [before], |s.data|);
      AllConformAppend(scan.steps + [before], [swapped], |s.data|);
    }
  }

  /** The round only rearranges the array. */
  lemma SelectPassPermutes(s: Snapshot, i: nat)
    requires i < |s.data|
    ensures multiset(SelectPass(s, i).after.data) == multiset(s.data)
  {
    var m := ScanMin(s, i, i, i + 1).minIndex;
    if i != m {
      SwapPermutes(s.data, i, m);
    }
  }

  lemma {:induction false} SelectFromConforms(s: Snapshot, i: nat)
    requires i <= |s.data|
    ensures AllConform(SelectFrom(s, i).steps, |s.data|)
    decreases |s.data| - i
  {
    if i < |s.data| {
      var pass := SelectPass(s, i);
      SelectPassConforms(s, i);
      SelectFromConforms(pass.after, i + 1);
      AllConformAppend(pass.steps, SelectFrom(pass.after, i + 1).steps, |s.data|);
    }
  }

  lemma {:induction false} SelectFromPermutes(s: Snapshot, i: nat)
    requires i <= |s.data|
    ensures multiset(SelectFrom(s, i).after.data) == multiset(s.data)
    decreases |s.data| - i
  {
    if i < |s.data| {
      var pass := SelectPass(s, i);
      SelectPassPermutes(s, i);
      SelectFromPermutes(pass.after, i + 1);
    }
  }

  /**
   * Every snapshot handed to `processStep` shows all the lane's bars and
   * highlights only valid indices.
   */
  lemma SelectionConforms(s: Snapshot)
    ensures AllConform(SelectionRun(s).steps, |s.data|)
  {
    SelectFromConforms(s, 0);
  }

  /** The sort only rearranges its input. */
  lemma SelectionPermutes(s: Snapshot)
    ensures multiset(SelectionRun(s).after.data) == multiset(s.data)
  {
    SelectFromPermutes(s, 0);
  }

  lemma {:induction false} ScanEndsOnLastStep(s: Snapshot, i: nat, m: nat, j: nat)
    requires i <= m < j <= |s.data|
    ensures ScanMin(s, i, m, j).after == Final(s, ScanMin(s, i, m, j).steps)
    decreases |s.data| - j
  {
    if j < |s.data| {
      var probe := Snapshot(s.data, {m, j});
      var next := if s.data[j] < s.data[m] then j else m;
      ScanEndsOnLastStep(probe, i, next, j + 1);
      FinalAppend(s, [probe], ScanMin(probe, i, next, j + 1).steps);
    }
  }

  lemma {:induction false} SelectFromEndsOnLastStep(s: Snapshot, i: nat)
    requires i <= |s.data|
    ensures SelectFrom(s, i).after == Final(s, SelectFrom(s, i).steps)
    decreases |s.data| - i
  {
    if i < |s.data| {
      var scan := ScanMin(s, i, i, i + 1);
      var pass := SelectPass(s, i);
      ScanEndsOnLastStep(s, i, i, i + 1);
      if i != scan.minIndex {
        var before := Snapshot(scan.after.data, {i, scan.minIndex});
        FinalAppend(s, scan.steps + [before], [pass.after]);
      }
      assert pass.after == Final(s, pass.steps);
      SelectFromEndsOnLastStep(pass.after, i + 1);
      FinalAppend(s, pass.steps, SelectFrom(pass.after, i + 1).steps);
    }
  }

  /** Nothing changes after the last `processStep`: the lane ends as its last snapshot shows it. */
  lemma SelectionEndsOnLastStep(s: Snapshot)
    ensures SelectionRun(s).after == Final(s, SelectionRun(s).steps)
  {
    SelectFromEndsOnLastStep(s, 0);
  }

  /** One step of the inner loop. */
  lemma ScanStepKeepsTrace(done: seq<Snapshot>, s: Snapshot, i: nat, m: nat, j: nat, goal: Scan)
    requires i <= m < j < |s.data|
    requires ScanMin(s, i, m, j).minIndex == goal.minIndex && ScanMin(s, i, m, j).after == goal.after
    requires done + ScanMin(s, i, m, j).steps == goal.steps
    ensures var probe := Snapshot(s.data, {m, j});
      var next := if s.data[j] < s.data[m] then j else m;
      && ScanMin(probe, i, next, j + 1).minIndex == goal.minIndex
      && ScanMin(probe, i, next, j + 1).after == goal.after
      && done + [probe] + ScanMin(probe, i, next, j + 1).steps == goal.steps
  {
    var probe := Snapshot(s.data, {m, j});
    var next := if s.data[j] < s.data[m] then j else m;
    var rest := ScanMin(probe, i, next, j + 1).steps;
    assert done + [probe] + rest == done + ([probe] + rest);
  }

  /**
   * The inner `for j in i+1..<count` loop for outer index `i`, in place on
   * `state`; `steps` are the snapshots it hands to `processStep`.
   */
  method ScanInPlace(state: SortState, i: nat) returns (minIndex: nat, steps: seq<Snapshot>)
    requires i < |state.data|
    modifies state
    ensures minIndex == ScanMin(old(state.Snap()), i, i, i + 1).minIndex
    ensures state.Snap() == ScanMin(old(state.Snap()), i, i, i + 1).after
    ensures steps == ScanMin(old(state.Snap()), i, i, i + 1).steps
    ensures state.description == old(state.description)
  {
    ghost var goal := ScanMin(state.Snap(), i, i, i + 1);
    var n := |state.data|;
    minIndex := i;
    steps := [];
    for j := i + 1 to n
      invariant i <= minIndex < j && |state.data| == n
      invariant ScanMin(state.Snap(), i, minIndex, j).minIndex == goal.minIndex
      invariant ScanMin(state.Snap(), i, minIndex, j).after == goal.after
      invariant steps + ScanMin(state.Snap(), i, minIndex, j).steps == goal.steps
      invariant state.description == old(state.description)
    {
      ScanStepKeepsTrace(steps, state.Snap(), i, minIndex, j, goal);
      state.highlightedIndices := {minIndex, j};
      steps := steps + [state.Snap()];              // processStep()
      if state.data[j] < state.data[minIndex] {
        minIndex := j;
      }
    }
  }

  /** What remains of the outer loop from index `i` on state `s` completes the trace `goal`, after the snapshots `done`. */
  predicate SelectResumes(done: seq<Snapshot>, s: Snapshot, i: nat, goal: Run)
  {
    i <= |s.data| && SelectFrom(s, i).after == goal.after && done + SelectFrom(s, i).steps == goal.steps
  }

  lemma SelectRoundKeepsTrace(done: seq<Snapshot>, s: Snapshot, i: nat, more: seq<Snapshot>, next: Snapshot, goal: Run)
    requires SelectResumes(done, s, i, goal) && i < |s.data|
    requires next == SelectPass(s, i).after && more == SelectPass(s, i).steps
    ensures SelectResumes(done + more, next, i + 1, goal)
  {
    var rest := SelectFrom(next, i + 1).steps;
    assert SelectFrom(s, i).steps == more + rest;
    assert done + more + rest == done + (more + rest);
  }


  /** One round of the outer loop for index `i`, in place on `state`. */
  method SelectPassInPlace(state: SortState, i: nat) returns (steps: seq<Snapshot>)
    requires i < |state.data|
    modifies state
    ensures state.Snap() == SelectPass(old(state.Snap()), i).after
    ensures steps == SelectPass(old(state.Snap()), i).steps
    ensures state.description == old(state.description)
  {
    var minIndex;
    minIndex, steps := ScanInPlace(state, i);
    if i != minIndex {
      state.highlightedIndices := {i, minIndex};
      steps := steps + [state.Snap()];              // processStep()
      state.data := Swap(state.data, i, minIndex);
      state.highlightedIndices := {i, minIndex};
      steps := steps + [state.Snap()];              // processStep()
    }
  }

  /** The outer `for i in 0..<state.data.count` loop, in place on `state`, proved to follow the reference trace. */
  method SelectAll(state: SortState) returns (steps: seq<Snapshot>)
    modifies state
    ensures state.Snap() == SelectionRun(old(state.Snap())).after
    ensures steps == SelectionRun(old(state.Snap())).steps
    ensures state.description == old(state.description)
  {
    ghost var goal := SelectionRun(state.Snap());
    var n := |state.data|;
    steps := [];
    assert [] + goal.steps == goal.steps;
    for i := 0 to n
      invariant |state.data| == n
      invariant SelectResumes(steps, state.Snap(), i, goal)
      invariant state.description == old(state.description)
    {
      ghost var s0 := state.Snap();
      var more := SelectPassInPlace(state, i);
      SelectRoundKeepsTrace(steps, s0, i, more, state.Snap(), goal);
      steps := steps + more;
    }
  }

  /** The instrumented sort, in place on `state`; `steps` are the snapshots `processStep` sees. */
  method SelectionSort(state: SortState) returns (steps: seq<Snapshot>)
    modifies state
    ensures state.Snap() == SelectionRun(old(state.Snap())).after
    ensures steps == SelectionRun(old(state.Snap())).steps
    ensures Sorted(state.data) && multiset(state.data) == multiset(old(state.data))
    ensures AllConform(steps, |old(state.data)|)
    ensures state.Snap() == Final(old(state.Snap()), steps)
    ensures state.description == old(state.description)
  {
    steps := SelectAll(state);
    SelectionSorts(old(state.Snap()));
    SelectionConforms(old(state.Snap()));
    SelectionPermutes(old(state.Snap()));
    SelectionEndsOnLastStep(old(state.Snap()));
  }
}
