/**
 * The view controller's recording and playback state: `stepStates`, the
 * playback cursor `currentStep`, the step timer, and the two lanes on
 * screen. Drawing is not modelled; a timer tick is one call of `Tick`.
 */
module Controller {
  import opened State
  import opened Timeline
  import Insertion
  import Selection
  import Quick
  import Merge

  /** One lane's `switch algorithm`: run the selected sort on `state` and return its `processStep` snapshots. */
  method RunLane(algorithm: int, state: SortState) returns (steps: seq<Snapshot>)
    requires algorithm == 0 ==> |state.data| >= 1
    modifies state
    ensures state.Snap() == SortRun(algorithm, old(state.Snap())).after
    ensures steps == SortRun(algorithm, old(state.Snap())).steps
    ensures state.description == old(state.description)
  {
    if algorithm == 0 {
      steps := Insertion.InsertionSort(state);
    } else if algorithm == 1 {
      steps := Selection.SelectionSort(state);
    } else if algorithm == 2 {
      steps := Quick.QuickSort(state);
    } else if algorithm == 3 {
      steps := Merge.MergeSort(state);
    } else {
      steps := [];
    }
  }

  /**
   * One lane of `startSingleRun`: sort an independent copy of the lane
   * (`stateN.copy()`) and return the copy's final state with the snapshots
   * its `processStep` calls saw. The lane itself is not touched.
   */
  method SortCopy(algorithm: int, state: SortState, ghost start: Snapshot) returns (run: Run)
    requires state.Snap() == start
    requires algorithm == 0 ==> |start.data| >= 1
    ensures run == SortRun(algorithm, start)
  {
    var lane := state.Copy();
    var steps := RunLane(algorithm, lane);
    run := Run(lane.Snap(), steps);
  }

  class ViewController {
    /** The lanes on screen. */
    var state1: SortState
    var state2: SortState
    /** The recorded frames, each a pair of independent copies. */
    var stepStates: seq<Frame>
    /** The playback cursor: the index of the next frame to show. */
    var currentStep: int
    /** Whether `stepTimer` is scheduled (non-nil). */
    var timerScheduled: bool

    /** The cursor never passes the end of the recording. */
    predicate Valid()
      reads this
    {
      0 <= currentStep <= |stepStates|
    }

    /** `viewDidLoad`: the controller starts from `resetDataSets` with the two shuffled arrays. */
    constructor (data1: seq<int>, data2: seq<int>)
      ensures Valid()
      ensures fresh(state1) && fresh(state2) && state1 != state2
      ensures state1.View() == LaneView(Snapshot(data1, {}), "")
      ensures state2.View() == LaneView(Snapshot(data2, {}), "")
      ensures stepStates == [] && currentStep == 0 && !timerScheduled
    {
      state1 := new SortState(data1);
      state2 := new SortState(data2);
      stepStates := [];
      currentStep := 0;
      timerScheduled := false;
    }

    /**
     * `resetDataSets`: stop playback, put fresh lanes over the two shuffled
     * arrays, and forget the recording.
     */
    method ResetDataSets(data1: seq<int>, data2: seq<int>)
      modifies this
      ensures Valid()
      ensures fresh(state1) && fresh(state2) && state1 != state2
      ensures state1.View() == LaneView(Snapshot(data1, {}), "")
      ensures state2.View() == LaneView(Snapshot(data2, {}), "")
      ensures stepStates == [] && currentStep == 0 && !timerScheduled
    {
      StopStepTimer();
      state1 := new SortState(data1);
      state2 := new SortState(data2);
      stepStates := [];
      currentStep := 0;
    }

    /**
     * `recordStep`: append exactly one frame holding copies of the two lanes,
     * relabelled `desc1` and `desc2`. Only the lanes' arrays and highlights
     * are copied, since the labels are overwritten.
     */
    method RecordStep(shown1: Snapshot, shown2: Snapshot, desc1: string, desc2: string)
      modifies this
      ensures stepStates == old(stepStates) + [Frame(LaneView(shown1, desc1), LaneView(shown2, desc2))]
      ensures state1 == old(state1) && state2 == old(state2)
      ensures currentStep == old(currentStep) && timerScheduled == old(timerScheduled)
    {
      stepStates := stepStates + [Frame(LaneView(shown1, desc1), LaneView(shown2, desc2))];
    }

    /**
     * The two lanes' `processStep` calls, each a `recordStep` of the stepping
     * lane's snapshot beside the other lane's latest one, in the order the
     * schedule gives.
     */
    method RecordLanes(schedule: seq<Lane>, last1: Snapshot, rest1: seq<Snapshot>, name1: string,
                       last2: Snapshot, rest2: seq<Snapshot>, name2: string)
      modifies this
      ensures stepStates == old(stepStates) + Interleave(schedule, last1, rest1, name1, last2, rest2, name2)
      ensures state1 == old(state1) && state2 == old(state2)
      ensures currentStep == old(currentStep) && timerScheduled == old(timerScheduled)
    {
      var pending, shown1, steps1, shown2, steps2 := schedule, last1, rest1, last2, rest2;
      ghost var goal := old(stepStates) + Interleave(schedule, last1, rest1, name1, last2, rest2, name2);
      while steps1 != [] || steps2 != []
        invariant stepStates + Interleave(pending, shown1, steps1, name1, shown2, steps2, name2) == goal
        invariant state1 == old(state1) && state2 == old(state2)
        invariant currentStep == old(currentStep) && timerScheduled == old(timerScheduled)
        decreases |steps1| + |steps2|
      {
        var next := if pending == [] then [] else pending[1..];
        if TakesFirst(pending, steps1, steps2) {
          FirstSteps(pending, shown1, steps1, name1, shown2, steps2, name2);
          AppendKeeps(stepStates, Frame(LaneView(steps1[0], name1), LaneView(shown2, Waiting)),
                      Interleave(next, steps1[0], steps1[1..], name1, shown2, steps2, name2), goal);
          RecordStep(steps1[0], shown2, name1, Waiting);
          shown1, steps1 := steps1[0], steps1[1..];
        } else {
          SecondSteps(pending, shown1, steps1, name1, shown2, steps2, name2);
          AppendKeeps(stepStates, Frame(LaneView(shown1, Waiting), LaneView(steps2[0], name2)),
                      Interleave(next, shown1, steps1, name1, steps2[0], steps2[1..], name2), goal);
          RecordStep(shown1, steps2[0], Waiting, name2);
          shown2, steps2 := steps2[0], steps2[1..];
        }
        pending := next;
      }
    }

    /** Record both lanes' steps, then the "Complete" frame of their final states. */
    method RecordRest(schedule: seq<Lane>, start1: Snapshot, run1: Run, name1: string, start2: Snapshot, run2: Run, name2: string)
      modifies this
      ensures stepStates == old(stepStates) + Interleave(schedule, start1, run1.steps, name1, start2, run2.steps, name2)
                              + [Frame(LaneView(run1.after, CompleteLabel), LaneView(run2.after, CompleteLabel))]
      ensures state1 == old(state1) && state2 == old(state2)
      ensures currentStep == old(currentStep) && timerScheduled == old(timerScheduled)
    {
      RecordLanes(schedule, start1, run1.steps, name1, start2, run2.steps, name2);
      RecordStep(run1.after, run2.after, CompleteLabel, CompleteLabel);
    }

    /**
     * `startSingleRun`: sort independent copies of the two lanes, record the
     * "Initial State" frame, every `processStep` of both lanes and the
     * "Complete" frame, then start playback. The lanes on screen are not
     * touched.
     */
    method StartSingleRun(algorithm1: int, algorithm2: int, schedule: seq<Lane>)
      requires algorithm1 == 0 ==> |state1.data| >= 1
      requires algorithm2 == 0 ==> |state2.data| >= 1
      modifies this
      ensures stepStates == old(stepStates) + RunTimeline(old(state1.Snap()), old(state2.Snap()), algorithm1, algorithm2, schedule)
      ensures state1 == old(state1) && state2 == old(state2)
      ensures Valid() && currentStep == 0 && timerScheduled
    {
      var start1, start2 := state1.Snap(), state2.Snap();
      RecordStep(start1, start2, InitialLabel, InitialLabel);
      var run1 := SortCopy(algorithm1, state1, start1);
      var run2 := SortCopy(algorithm2, state2, start2);
      RecordRest(schedule, start1, run1, AlgorithmName(algorithm1), start2, run2, AlgorithmName(algorithm2));
      RunTimelineParts(start1, start2, algorithm1, algorithm2, schedule, run1, run2);
      StartStepTimer();
    }

    /**
     * `sortButtonTapped` when no sort is running: reset the lanes to the two
     * shuffled arrays and start a run; the recording is then exactly the
     * run's timeline.
     */
    method SortTapped(data1: seq<int>, data2: seq<int>, algorithm1: int, algorithm2: int, schedule: seq<Lane>)
      requires algorithm1 == 0 ==> |data1| >= 1
      requires algorithm2 == 0 ==> |data2| >= 1
      modifies this
      ensures stepStates == RunTimeline(Snapshot(data1, {}), Snapshot(data2, {}), algorithm1, algorithm2, schedule)
      ensures state1.View() == LaneView(Snapshot(data1, {}), "")
      ensures state2.View() == LaneView(Snapshot(data2, {}), "")
      ensures Valid() && currentStep == 0 && timerScheduled
    {
      ResetDataSets(data1, data2);
      StartSingleRun(algorithm1, algorithm2, schedule);
    }

    /** `stopStepTimer`: invalidate and drop the timer. */
    method StopStepTimer()
      modifies this
      ensures !timerScheduled
      ensures state1 == old(state1) && state2 == old(state2)
      ensures stepStates == old(stepStates) && currentStep == old(currentStep)
    {
      timerScheduled := false;
    }

    /** `startStepTimer`: stop any running timer, rewind the cursor and schedule a new timer. */
    method StartStepTimer()
      modifies this
      ensures Valid() && currentStep == 0 && timerScheduled
      ensures state1 == old(state1) && state2 == old(state2) && stepStates == old(stepStates)
    {
      StopStepTimer();
      currentStep := 0;
      timerScheduled := true;
    }

    /**
     * One firing of the step timer: while frames remain, show the frame at
     * the cursor and advance; at the end, stop the timer.
     */
    method Tick()
      requires Valid()
      modifies this
      ensures Valid() && stepStates == old(stepStates)
      ensures old(currentStep) < |stepStates| ==>
                currentStep == old(currentStep) + 1 && timerScheduled == old(timerScheduled) &&
                fresh(state1) && fresh(state2) &&
                state1.View() == stepStates[old(currentStep)].lane1 &&
                state2.View() == stepStates[old(currentStep)].lane2
      ensures old(currentStep) == |stepStates| ==>
                currentStep == old(currentStep) && !timerScheduled &&
                state1 == old(state1) && state2 == old(state2)
    {
      if currentStep < |stepStates| {
        var step := stepStates[currentStep];
        state1 := FromView(step.lane1);
        state2 := FromView(step.lane2);
        currentStep := currentStep + 1;
      } else {
        StopStepTimer();
      }
    }

    /**
     * Playback: start the timer and let it fire until it stops itself. Every
     * recorded frame is shown exactly once, in order, and the lanes are left
     * showing the last frame.
     */
    method PlayBack() returns (shown: seq<Frame>)
      requires Valid()
      modifies this
      ensures shown == stepStates == old(stepStates)
      ensures Valid() && currentStep == |stepStates| && !timerScheduled
      ensures |stepStates| > 0 ==>
                state1.View() == stepStates[|stepStates| - 1].lane1 &&
                state2.View() == stepStates[|stepStates| - 1].lane2
    {
      StartStepTimer();
      shown := [];
      while timerScheduled
        invariant Valid() && stepStates == old(stepStates)
        invariant shown == stepStates[..currentStep]
        invariant !timerScheduled ==> currentStep == |stepStates|
        invariant 0 < currentStep ==>
                    state1.View() == stepStates[currentStep - 1].lane1 &&
                    state2.View() == stepStates[currentStep - 1].lane2
        decreases |stepStates| - currentStep + (if timerScheduled then 1 else 0)
      {
        var at := currentStep;
        Tick();
        if at < |stepStates| {
          shown := shown + [Frame(state1.View(), state2.View())];
        }
      }
    }
  }

  /** Moving the next frame from the pending part to the recorded part keeps the whole. */
  lemma AppendKeeps(done: seq<Frame>, f: Frame, rest: seq<Frame>, goal: seq<Frame>)
    requires done + ([f] + rest) == goal
    ensures (done + [f]) + rest == goal
  {
    assert done + ([f] + rest) == (done + [f]) + rest;
  }

  /** A new lane object showing a recorded frame's lane (`self.state1 = step.state1`). */
  method FromView(v: LaneView) returns (s: SortState)
    ensures fresh(s) && s.View() == v
  {
    s := new SortState(v.shown.data);
    s.highlightedIndices := v.shown.highlighted;
    s.description := v.description;
  }
}
