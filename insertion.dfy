/**
 * Step-instrumented insertion sort (`insertionSort`). The functions give the
 * exact trace of snapshots that the loops hand to `processStep`; the methods
 * are the in-place loops, proved to produce that trace and that final state.
 */
module Insertion {
  import opened State

  /**
   * The inner `while j > 0` loop started at `j`: probe `{j, j-1}`; on an
   * inversion swap, step down to `k = j-1` and show `{k, k+1}`; stop at the
   * first non-inversion or at `j == 0`.
   */
  function Sink(s: Snapshot, j: nat): (r: Run)
    requires j < |s.data|
    ensures |r.after.data| == |s.data|
    decreases j
  {
    if j == 0 then Run(s, [])
    else
      var probe := Snapshot(s.data, {j, j - 1});
      if s.data[j] < s.data[j - 1] then
        var k := j - 1;
        var shown := Snapshot(Swap(s.data, j, k), {k, k + 1});
        var rest := Sink(shown, k);
        Run(rest.after, [probe, shown] + rest.steps)
      else
        Run(probe, [probe])
  }

  /** The outer `for i in 1..<count` loop from index `i` on. */
  function InsertFrom(s: Snapshot, i: nat): (r: Run)
    requires 1 <= i <= |s.data|
    ensures |r.after.data| == |s.data|
    decreases |s.data| - i
  {
    if i == |s.data| then Run(s, [])
    else
      var pass := Sink(s, i);
      var rest := InsertFrom(pass.after, i + 1);
      Run(rest.after, pass.steps + rest.steps)
  }

  /** The whole sort; `1..<count` traps on an empty array, hence the precondition. */
  function InsertionRun(s: Snapshot): Run
    requires |s.data| >= 1
  {
    InsertFrom(s, 1)
  }

  /**
   * The inner loop first probes `{j, j-1}`; every snapshot it emits highlights
   * two indices no greater than `j`; it emits at most two per position it
   * passes; and at a non-inversion it stops after that one probe, leaving the
   * array as it was.
   */
  lemma {:induction false} SinkTrace(s: Snapshot, j: nat)
    requires 0 < j < |s.data|
    ensures Sink(s, j).steps[0] == Snapshot(s.data, {j, j - 1})
    ensures 1 <= |Sink(s, j).steps| <= 2 * j
    ensures forall k :: 0 <= k < |Sink(s, j).steps| ==>
      |Sink(s, j).steps[k].highlighted| == 2 && forall x :: x in Sink(s, j).steps[k].highlighted ==> 0 <= x <= j
    ensures !(s.data[j] < s.data[j - 1]) ==> |Sink(s, j).steps| == 1 && Sink(s, j).after.data == s.data
    decreases j
  {
    if s.data[j] < s.data[j - 1] {
      var k := j - 1;
      var shown := Snapshot(Swap(s.data, j, k), {k, k + 1});
      if k > 0 {
        SinkTrace(shown, k);
      }
    }
  }

  /** After the swap at an inversion, the shape `SinkSorts` needs holds one index lower. */
  lemma SwapKeepsShape(d: seq<int>, e: seq<int>, j: nat, hi: nat)
    requires 0 < j < hi <= |d| && d[j] < d[j - 1] && e == Swap(d, j, j - 1)
    requires SortedBetween(d, 0, j) && SortedBetween(d, j + 1, hi)
    requires forall a, b :: 0 <= a < j < b < hi ==> d[a] <= d[b]
    requires forall b :: j < b < hi ==> d[j] <= d[b]
    ensures SortedBetween(e, 0, j - 1) && SortedBetween(e, j, hi)
    ensures forall a, b :: 0 <= a < j - 1 < b < hi ==> e[a] <= e[b]
    ensures forall b :: j - 1 < b < hi ==> e[j - 1] <= e[b]
  {
    assert e == d[j := d[j - 1]][j - 1 := d[j]];
    forall a, b | 0 <= a < b < j - 1 ensures e[a] <= e[b] {
      assert e[a] == d[a] && e[b] == d[b];
    }
    forall a, b | j <= a < b < hi ensures e[a] <= e[b] {
      assert e[b] == d[b];
      if a == j { assert e[a] == d[j - 1]; } else { assert e[a] == d[a]; }
    }
    forall a, b | 0 <= a < j - 1 < b < hi ensures e[a] <= e[b] {
      assert e[a] == d[a];
      if b == j { assert e[b] == d[j - 1]; } else { assert e[b] == d[b]; }
    }
    forall b | j - 1 < b < hi ensures e[j - 1] <= e[b] {
      if b == j { assert e[b] == d[j - 1]; } else { assert e[b] == d[b]; }
    }
  }

  /** Where the inner loop stops (`j == 0` or no inversion), the whole of `0..<hi` is sorted. */
  lemma StopSorted(d: seq<int>, j: nat, hi: nat)
    requires j < hi <= |d| && (j == 0 || d[j - 1] <= d[j])
    requires SortedBetween(d, 0, j) && SortedBetween(d, j + 1, hi)
    requires forall a, b :: 0 <= a < j < b < hi ==> d[a] <= d[b]
    requires forall b :: j < b < hi ==> d[j] <= d[b]
    ensures SortedBetween(d, 0, hi)
  {
    forall a, b | 0 <= a < b < hi ensures d[a] <= d[b] {
      if b < j {
      } else if b == j {
        if a < j - 1 { assert d[a] <= d[j - 1]; }
      } else if a < j {
      } else if a == j {
      } else {
      }
    }
  }

  /**
   * Sinking the element at `j` into the sorted prefix `d[0..j)`, with the
   * already-passed elements `d(j..hi)` sorted, above the prefix and not below
   * `d[j]`, leaves `d[0..hi)` sorted.
   */
  lemma {:induction false} SinkSorts(s: Snapshot, j: nat, hi: nat)
    requires j < hi <= |s.data|
    requires SortedBetween(s.data, 0, j) && SortedBetween(s.data, j + 1, hi)
    requires forall a, b :: 0 <= a < j < b < hi ==> s.data[a] <= s.data[b]
    requires forall b :: j < b < hi ==> s.data[j] <= s.data[b]
    ensures SortedBetween(Sink(s, j).after.data, 0, hi)
    decreases j
  {
    var d := s.data;
    if j > 0 && d[j] < d[j - 1] {
      SwapKeepsShape(d, Swap(d, j, j - 1), j, hi);
      SinkSorts(Snapshot(Swap(d, j, j - 1), {j - 1, j - 1 + 1}), j - 1, hi);
    } else {
      assert Sink(s, j).after.data == d;
      StopSorted(d, j, hi);
    }
  }


  /** After the pass for outer index `i`, the prefix `data[0...i]` is sorted. */
  lemma SinkSortsPrefix(s: Snapshot, i: nat)
    requires 1 <= i < |s.data| && SortedBetween(s.data, 0, i)
    ensures SortedBetween(Sink(s, i).after.data, 0, i + 1)
  {
    SinkSorts(s, i, i + 1);
  }

  lemma {:induction false} InsertFromSorts(s: Snapshot, i: nat)
    requires 1 <= i <= |s.data| && SortedBetween(s.data, 0, i)
    ensures Sorted(InsertFrom(s, i).after.data)
    decreases |s.data| - i
  {
    if i < |s.data| {
      SinkSortsPrefix(s, i);
      InsertFromSorts(Sink(s, i).after, i + 1);
    }
  }

  /** The sort leaves its array sorted. */
  lemma InsertionSorts(s: Snapshot)
    requires |s.data| >= 1
    ensures Sorted(InsertionRun(s).after.data)
  {
    InsertFromSorts(s, 1);
  }

  lemma {:induction false} SinkPermutes(s: Snapshot, j: nat)
    requires j < |s.data|
    ensures multiset(Sink(s, j).after.data) == multiset(s.data)
    decreases j
  {
    if j > 0 && s.data[j] < s.data[j - 1] {
      var shown := Snapshot(Swap(s.data, j, j - 1), {j - 1, j - 1 + 1});
      assert Sink(s, j).after == Sink(shown, j - 1).after;
      SinkPermutes(shown, j - 1);
      SwapPermutes(s.data, j, j - 1);
    }
  }

  /** The two snapshots of an inner-loop round that swaps show all bars and highlight valid indices. */
  lemma SwapRoundConforms(s: Snapshot, j: nat)
    requires 0 < j < |s.data|
    ensures AllConform([Snapshot(s.data, {j, j - 1}), Snapshot(Swap(s.data, j, j - 1), {j - 1, j - 1 + 1})], |s.data|)
  {
    assert Conforms(Snapshot(s.data, {j, j - 1}), |s.data|);
    assert Conforms(Snapshot(Swap(s.data, j, j - 1), {j - 1, j - 1 + 1}), |s.data|);
  }

  lemma {:induction false} SinkConforms(s: Snapshot, j: nat)
    requires j < |s.data|
    ensures AllConform(Sink(s, j).steps, |s.data|)
    decreases j
  {
    if j > 0 {
      var probe := Snapshot(s.data, {j, j - 1});
      if s.data[j] < s.data[j - 1] {
        var shown := Snapshot(Swap(s.data, j, j - 1), {j - 1, j - 1 + 1});
        var rest := Sink(shown, j - 1).steps;
        assert Sink(s, j).steps == [probe, shown] + rest;
        SwapRoundConforms(s, j);
        SinkConforms(shown, j - 1);
        AllConformAppend([probe, shown], rest, |s.data|);
      } else {
        assert Conforms(probe, |s.data|);
        assert Sink(s, j).steps == [probe];
      }
    }
  }

  lemma {:induction false} InsertFromConforms(s: Snapshot, i: nat)
    requires 1 <= i <= |s.data|
    ensures AllConform(InsertFrom(s, i).steps, |s.data|)
    decreases |s.data| - i
  {
    if i < |s.data| {
      var pass := Sink(s, i);
      SinkConforms(s, i);
      InsertFromConforms(pass.after, i + 1);
      AllConformAppend(pass.steps, InsertFrom(pass.after, i + 1).steps, |s.data|);
    }
  }

  lemma {:induction false} InsertFromPermutes(s: Snapshot, i: nat)
    requires 1 <= i <= |s.data|
    ensures multiset(InsertFrom(s, i).after.data) == multiset(s.data)
    decreases |s.data| - i
  {
    if i < |s.data| {
      var pass := Sink(s, i);
      SinkPermutes(s, i);
      InsertFromPermutes(pass.after, i + 1);
    }
  }

  /**
   * Every snapshot handed to `processStep` shows all the lane's bars and
   * highlights only valid indices.
   */
  lemma InsertionConforms(s: Snapshot)
    requires |s.data| >= 1
    ensures AllConform(InsertionRun(s).steps, |s.data|)
  {
    InsertFromConforms(s, 1);
  }

  /** The sort only rearranges its input. */
  lemma InsertionPermutes(s: Snapshot)
    requires |s.data| >= 1
    ensures multiset(InsertionRun(s).after.data) == multiset(s.data)
  {
    InsertFromPermutes(s, 1);
  }

  lemma {:induction false} SinkEndsOnLastStep(s: Snapshot, j: nat)
    requires j < |s.data|
    ensures Sink(s, j).after == Final(s, Sink(s, j).steps)
    decreases j
  {
    if j > 0 && s.data[j] < s.data[j - 1] {
      var shown := Snapshot(Swap(s.data, j, j - 1), {j - 1, j - 1 + 1});
      SinkEndsOnLastStep(shown, j - 1);
      assert Sink(s, j).steps == [Snapshot(s.data, {j, j - 1}), shown] + Sink(shown, j - 1).steps;
    }
  }

  lemma {:induction false} InsertFromEndsOnLastStep(s: Snapshot, i: nat)
    requires 1 <= i <= |s.data|
    ensures InsertFrom(s, i).after == Final(s, InsertFrom(s, i).steps)
    decreases |s.data| - i
  {
    if i < |s.data| {
      var pass := Sink(s, i);
      SinkEndsOnLastStep(s, i);
      InsertFromEndsOnLastStep(pass.after, i + 1);
      FinalAppend(s, pass.steps, InsertFrom(pass.after, i + 1).steps);
    }
  }

  /** Nothing changes after the last `processStep`: the lane ends as its last snapshot shows it. */
  lemma InsertionEndsOnLastStep(s: Snapshot)
    requires |s.data| >= 1
    ensures InsertionRun(s).after == Final(s, InsertionRun(s).steps)
  {
    InsertFromEndsOnLastStep(s, 1);
  }

  /** What remains of the inner loop from `j` on state `s` completes the pass `goal`, after the snapshots `done`. */
  predicate SinkResumes(done: seq<Snapshot>, s: Snapshot, j: nat, goal: Run)
  {
    j < |s.data| && Sink(s, j).after == goal.after && done + Sink(s, j).steps == goal.steps
  }

  lemma SinkSwapKeepsTrace(done: seq<Snapshot>, s: Snapshot, j: nat, now: Snapshot, goal: Run)
    requires SinkResumes(done, s, j, goal) && 0 < j && s.data[j] < s.data[j - 1]
    requires now == Snapshot(Swap(s.data, j, j - 1), {j - 1, j - 1 + 1})
    ensures SinkResumes(done + [Snapshot(s.data, {j, j - 1})] + [now], now, j - 1, goal)
  {
    var probe := Snapshot(s.data, {j, j - 1});
    assert Sink(s, j).steps == [probe, now] + Sink(now, j - 1).steps;
    assert done + [probe] + [now] + Sink(now, j - 1).steps == done + ([probe, now] + Sink(now, j - 1).steps);
  }

  lemma SinkStopKeepsTrace(done: seq<Snapshot>, s: Snapshot, j: nat, goal: Run)
    requires SinkResumes(done, s, j, goal) && 0 < j && !(s.data[j] < s.data[j - 1])
    ensures goal.after == Snapshot(s.data, {j, j - 1}) && done + [Snapshot(s.data, {j, j - 1})] == goal.steps
  {
  }


  /**
   * The inner `while j > 0` loop for outer index `i`, in place on `state`;
   * `steps` are the snapshots it hands to `processStep`.
   */
  method SinkInPlace(state: SortState, i: nat) returns (steps: seq<Snapshot>)
    requires i < |state.data|
    modifies state
    ensures state.Snap() == Sink(old(state.Snap()), i).after
    ensures steps == Sink(old(state.Snap()), i).steps
    ensures state.description == old(state.description)
  {
    ghost var pass := Sink(state.Snap(), i);
    steps := [];
    var j: nat := i;
    assert [] + pass.steps == pass.steps;
    while j > 0
      invariant j <= i && |state.data| == |old(state.data)|
      invariant SinkResumes(steps, state.Snap(), j, pass)
      invariant state.description == old(state.description)
    {
      ghost var was, s0, j0 := steps, state.Snap(), j;
      state.highlightedIndices := {j, j - 1};
      steps := steps + [state.Snap()];                // processStep()
      if state.data[j] < state.data[j - 1] {
        state.data := Swap(state.data, j, j - 1);
        j := j - 1;
        state.highlightedIndices := {j, j + 1};
        steps := steps + [state.Snap()];              // processStep()
        SinkSwapKeepsTrace(was, s0, j0, state.Snap(), pass);
      } else {
        SinkStopKeepsTrace(was, s0, j0, pass);
        break;
      }
    }
  }

  /** What remains of the outer loop from index `i` on state `s` completes the trace `goal`, after the snapshots `done`. */
  predicate InsertResumes(done: seq<Snapshot>, s: Snapshot, i: nat, goal: Run)
  {
    1 <= i <= |s.data| && InsertFrom(s, i).after == goal.after && done + InsertFrom(s, i).steps == goal.steps
  }

  lemma PassKeepsTrace(done: seq<Snapshot>, s: Snapshot, i: nat, more: seq<Snapshot>, next: Snapshot, goal: Run)
    requires InsertResumes(done, s, i, goal) && i < |s.data|
    requires next == Sink(s, i).after && more == Sink(s, i).steps
    ensures InsertResumes(done + more, next, i + 1, goal)
  {
    var rest := InsertFrom(next, i + 1).steps;
    assert InsertFrom(s, i).steps == more + rest;
    assert done + more + rest == done + (more + rest);
  }

  /** The outer `for i in 1..<state.data.count` loop, in place on `state`, proved to follow the reference trace. */
  method InsertAll(state: SortState) returns (steps: seq<Snapshot>)
    requires |state.data| >= 1
    modifies state
    ensures state.Snap() == InsertionRun(old(state.Snap())).after
    ensures steps == InsertionRun(old(state.Snap())).steps
    ensures state.description == old(state.description)
  {
    ghost var goal := InsertionRun(state.Snap());
    var n := |state.data|;
    steps := [];
    assert [] + goal.steps == goal.steps;
    for i := 1 to n
      invariant |state.data| == n
      invariant InsertResumes(steps, state.Snap(), i, goal)
      invariant state.description == old(state.description)
    {
      ghost var s0 := state.Snap();
      var more := SinkInPlace(state, i);
      PassKeepsTrace(steps, s0, i, more, state.Snap(), goal);
      steps := steps + more;
    }
  }

  /** The instrumented sort, in place on `state`; `steps` are the snapshots `processStep` sees. */
  method InsertionSort(state: SortState) returns (steps: seq<Snapshot>)
    requires |state.data| >= 1
    modifies state
    ensures state.Snap() == InsertionRun(old(state.Snap())).after
    ensures steps == InsertionRun(old(state.Snap())).steps
    ensures Sorted(state.data) && multiset(state.data) == multiset(old(state.data))
    ensures AllConform(steps, |old(state.data)|)
    ensures state.Snap() == Final(old(state.Snap()), steps)
    ensures state.description == old(state.description)
  {
    steps := InsertAll(state);
    InsertionSorts(old(state.Snap()));
    InsertionConforms(old(state.Snap()));
    InsertionPermutes(old(state.Snap()));
    InsertionEndsOnLastStep(old(state.Snap()));
  }
}
