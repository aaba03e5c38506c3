/**
 * The recorded timeline of one run (`startSingleRun`): an "Initial State"
 * frame, one frame per `processStep` of either lane in the order the calls
 * reached `recordStep`, and a "Complete" frame. The two lanes run
 * concurrently in the app; here each lane's trace is the pure function of
 * its sort, and a schedule (a sequence of lane choices) fixes the order in
 * which their `processStep` calls were recorded.
 */
module Timeline {
  import opened State
  import Insertion
  import Selection
  import Quick
  import Merge

  /** The two lanes: `state1Copy` (left control) and `state2Copy` (right control). */
  datatype Lane = First | Second

  /** One entry of `stepStates`: the two lanes as they were copied by `recordStep`. */
  datatype Frame = Frame(lane1: LaneView, lane2: LaneView)

  const Waiting := "Waiting"
  const InitialLabel := "Initial State"
  const CompleteLabel := "Complete"

  /** The label a lane's own frames carry (`algorithms[i] + " Sort"`); an index outside the control records nothing. */
  function AlgorithmName(algorithm: int): string
  {
    if algorithm == 0 then "Insertion Sort"
    else if algorithm == 1 then "Selection Sort"
    else if algorithm == 2 then "Quick Sort"
    else if algorithm == 3 then "Merge Sort"
    else ""
  }

  /** The `switch algorithm` of one lane: the selected sort's run, or nothing for `default: break`. */
  function SortRun(algorithm: int, s: Snapshot): Run
    requires algorithm == 0 ==> |s.data| >= 1
  {
    if algorithm == 0 then Insertion.InsertionRun(s)
    else if algorithm == 1 then Selection.SelectionRun(s)
    else if algorithm == 2 then Quick.QuickRun(s)
    else if algorithm == 3 then Merge.MergeSortRun(s)
    else Run(s, [])
  }

  /**
   * Every selectable sort leaves the lane sorted and rearranged, shows only
   * valid highlights at each step, and ends in the state of its last
   * `processStep`; an unknown index leaves the lane untouched.
   */
  lemma SortRunFacts(algorithm: int, s: Snapshot)
    requires algorithm == 0 ==> |s.data| >= 1
    ensures AllConform(SortRun(algorithm, s).steps, |s.data|)
    ensures SortRun(algorithm, s).after == Final(s, SortRun(algorithm, s).steps)
    ensures 0 <= algorithm <= 3 ==>
              Sorted(SortRun(algorithm, s).after.data) &&
              multiset(SortRun(algorithm, s).after.data) == multiset(s.data)
    ensures !(0 <= algorithm <= 3) ==> SortRun(algorithm, s).steps == [] && SortRun(algorithm, s).after == s
  {
    if algorithm == 0 {
      Insertion.InsertionSorts(s); Insertion.InsertionPermutes(s);
      Insertion.InsertionConforms(s); Insertion.InsertionEndsOnLastStep(s);
    } else if algorithm == 1 {
      Selection.SelectionSorts(s); Selection.SelectionPermutes(s);
      Selection.SelectionConforms(s); Selection.SelectionEndsOnLastStep(s);
    } else if algorithm == 2 {
      Quick.QuickSorts(s); Quick.QuickPermutes(s);
      Quick.QuickConforms(s); Quick.QuickEndsOnLastStep(s);
    } else if algorithm == 3 {
      Merge.MergeSortSorts(s); Merge.MergeSortConforms(s);
    }
  }

  /** Whether the next recorded `processStep` is the first lane's. */
  predicate TakesFirst(schedule: seq<Lane>, rest1: seq<Snapshot>, rest2: seq<Snapshot>)
  {
    rest1 != [] && (rest2 == [] || schedule == [] || schedule[0] == First)
  }

  /**
   * The frames recorded while the lanes run: the stepping lane shows its new
   * snapshot under its algorithm's name, the other lane its latest snapshot
   * under "Waiting". `last1`/`last2` are the lanes' latest snapshots and
   * `rest1`/`rest2` the `processStep` snapshots still to come. A choice of a
   * lane that has finished, or a schedule that runs out, lets the remaining
   * lane go on.
   */
  function Interleave(schedule: seq<Lane>, last1: Snapshot, rest1: seq<Snapshot>, name1: string,
                      last2: Snapshot, rest2: seq<Snapshot>, name2: string): (r: seq<Frame>)
    ensures |r| == |rest1| + |rest2|
    decreases |rest1| + |rest2|
  {
    if rest1 == [] && rest2 == [] then []
    else
      var next := if schedule == [] then [] else schedule[1..];
      if TakesFirst(schedule, rest1, rest2) then
        [Frame(LaneView(rest1[0], name1), LaneView(last2, Waiting))]
          + Interleave(next, rest1[0], rest1[1..], name1, last2, rest2, name2)
      else
        [Frame(LaneView(last1, Waiting), LaneView(rest2[0], name2))]
          + Interleave(next, last1, rest1, name1, rest2[0], rest2[1..], name2)
  }

  /** The whole of `stepStates` after one run from the lanes' states `start1`, `start2`. */
  function RunTimeline(start1: Snapshot, start2: Snapshot, algorithm1: int, algorithm2: int,
                    schedule: seq<Lane>): seq<Frame>
    requires algorithm1 == 0 ==> |start1.data| >= 1
    requires algorithm2 == 0 ==> |start2.data| >= 1
  {
    var run1 := SortRun(algorithm1, start1);
    var run2 := SortRun(algorithm2, start2);
    [Frame(LaneView(start1, InitialLabel), LaneView(start2, InitialLabel))]
      + Interleave(schedule, start1, run1.steps, AlgorithmName(algorithm1),
                   start2, run2.steps, AlgorithmName(algorithm2))
      + [Frame(LaneView(run1.after, CompleteLabel), LaneView(run2.after, CompleteLabel))]
  }

  /** One unfolding of `Interleave` when the first lane steps. */
  lemma FirstSteps(schedule: seq<Lane>, last1: Snapshot, rest1: seq<Snapshot>, name1: string,
                   last2: Snapshot, rest2: seq<Snapshot>, name2: string)
    requires TakesFirst(schedule, rest1, rest2)
    ensures Interleave(schedule, last1, rest1, name1, last2, rest2, name2)
              == [Frame(LaneView(rest1[0], name1), LaneView(last2, Waiting))]
                 + Interleave(if schedule == [] then [] else schedule[1..], rest1[0], rest1[1..], name1, last2, rest2, name2)
  {
  }

  /** One unfolding of `Interleave` when the second lane steps. */
  lemma SecondSteps(schedule: seq<Lane>, last1: Snapshot, rest1: seq<Snapshot>, name1: string,
                    last2: Snapshot, rest2: seq<Snapshot>, name2: string)
    requires !TakesFirst(schedule, rest1, rest2) && rest2 != []
    ensures Interleave(schedule, last1, rest1, name1, last2, rest2, name2)
              == [Frame(LaneView(last1, Waiting), LaneView(rest2[0], name2))]
                 + Interleave(if schedule == [] then [] else schedule[1..], last1, rest1, name1, rest2[0], rest2[1..], name2)
  {
  }

  /** The three parts of a timeline, given the two lanes' runs. */
  lemma RunTimelineParts(start1: Snapshot, start2: Snapshot, algorithm1: int, algorithm2: int, schedule: seq<Lane>,
                         run1: Run, run2: Run)
    requires algorithm1 == 0 ==> |start1.data| >= 1
    requires algorithm2 == 0 ==> |start2.data| >= 1
    requires run1 == SortRun(algorithm1, start1) && run2 == SortRun(algorithm2, start2)
    ensures RunTimeline(start1, start2, algorithm1, algorithm2, schedule)
              == [Frame(LaneView(start1, InitialLabel), LaneView(start2, InitialLabel))]
                 + Interleave(schedule, start1, run1.steps, AlgorithmName(algorithm1), start2, run2.steps, AlgorithmName(algorithm2))
                 + [Frame(LaneView(run1.after, CompleteLabel), LaneView(run2.after, CompleteLabel))]
  {
  }

  function ViewOf(f: Frame, lane: Lane): LaneView
  {
    match lane
    case First => f.lane1
    case Second => f.lane2
  }

  /** The lane a recorded frame belongs to: the one not labelled "Waiting". */
  function Owner(f: Frame): Lane
  {
    if f.lane1.description == Waiting then Second else First
  }

  /** The snapshots a lane showed in its own frames (those where it is not "Waiting"), in order. */
  function OwnSteps(frames: seq<Frame>, lane: Lane): seq<Snapshot>
  {
    if frames == [] then []
    else
      (if ViewOf(frames[0], lane).description == Waiting then [] else [ViewOf(frames[0], lane).shown])
        + OwnSteps(frames[1..], lane)
  }

  lemma OwnStepsCons(f: Frame, frames: seq<Frame>, lane: Lane)
    ensures OwnSteps([f] + frames, lane) == OwnSteps([f], lane) + OwnSteps(frames, lane)
  {
    assert ([f] + frames)[1..] == frames;
    assert [f][1..] == [];
  }

  /** Each frame is one lane's step under its name while the other lane waits. */
  predicate Labelled(frames: seq<Frame>, name1: string, name2: string)
  {
    forall k :: 0 <= k < |frames| ==>
      (frames[k].lane1.description == name1 && frames[k].lane2.description == Waiting) ||
      (frames[k].lane1.description == Waiting && frames[k].lane2.description == name2)
  }

  /** In each frame, each lane shows the latest snapshot it had emitted by then (or its start). */
  predicate ShowsLatest(frames: seq<Frame>, start1: Snapshot, start2: Snapshot)
  {
    forall k :: 0 <= k < |frames| ==>
      frames[k].lane1.shown == Final(start1, OwnSteps(frames[..k + 1], First)) &&
      frames[k].lane2.shown == Final(start2, OwnSteps(frames[..k + 1], Second))
  }

  predicate FramesConform(frames: seq<Frame>, n1: int, n2: int)
  {
    forall k :: 0 <= k < |frames| ==> Conforms(frames[k].lane1.shown, n1) && Conforms(frames[k].lane2.shown, n2)
  }

  lemma {:induction false} InterleaveLabels(schedule: seq<Lane>, last1: Snapshot, rest1: seq<Snapshot>, name1: string,
                                            last2: Snapshot, rest2: seq<Snapshot>, name2: string)
    ensures Labelled(Interleave(schedule, last1, rest1, name1, last2, rest2, name2), name1, name2)
    decreases |rest1| + |rest2|
  {
    if rest1 == [] && rest2 == [] {
    } else {
      var next := if schedule == [] then [] else schedule[1..];
      if TakesFirst(schedule, rest1, rest2) {
        InterleaveLabels(next, rest1[0], rest1[1..], name1, last2, rest2, name2);
      } else {
        InterleaveLabels(next, last1, rest1, name1, rest2[0], rest2[1..], name2);
      }
    }
  }

  /** Restricted to one lane's own frames, the interleaving is exactly that lane's trace, in order. */
  lemma {:induction false} InterleaveKeepsOrder(schedule: seq<Lane>, last1: Snapshot, rest1: seq<Snapshot>, name1: string,
                                                last2: Snapshot, rest2: seq<Snapshot>, name2: string)
    requires name1 != Waiting && name2 != Waiting
    ensures OwnSteps(Interleave(schedule, last1, rest1, name1, last2, rest2, name2), First) == rest1
    ensures OwnSteps(Interleave(schedule, last1, rest1, name1, last2, rest2, name2), Second) == rest2
    decreases |rest1| + |rest2|, 1
  {
    if rest1 == [] && rest2 == [] {
    } else if TakesFirst(schedule, rest1, rest2) {
      FirstStepKeepsOrder(schedule, last1, rest1, name1, last2, rest2, name2);
    } else {
      SecondStepKeepsOrder(schedule, last1, rest1, name1, last2, rest2, name2);
    }
  }

  lemma {:induction false} FirstStepKeepsOrder(schedule: seq<Lane>, last1: Snapshot, rest1: seq<Snapshot>, name1: string,
                                               last2: Snapshot, rest2: seq<Snapshot>, name2: string)
    requires name1 != Waiting && name2 != Waiting
    requires TakesFirst(schedule, rest1, rest2)
    ensures OwnSteps(Interleave(schedule, last1, rest1, name1, last2, rest2, name2), First) == rest1
    ensures OwnSteps(Interleave(schedule, last1, rest1, name1, last2, rest2, name2), Second) == rest2
    decreases |rest1| + |rest2|, 0
  {
    var next := if schedule == [] then [] else schedule[1..];
    var f := Frame(LaneView(rest1[0], name1), LaneView(last2, Waiting));
    var g := Interleave(next, rest1[0], rest1[1..], name1, last2, rest2, name2);
    assert Interleave(schedule, last1, rest1, name1, last2, rest2, name2) == [f] + g;
    InterleaveKeepsOrder(next, rest1[0], rest1[1..], name1, last2, rest2, name2);
    OwnStepsCons(f, g, First);
    OwnStepsCons(f, g, Second);
    assert rest1 == [rest1[0]] + rest1[1..];
  }

  lemma {:induction false} SecondStepKeepsOrder(schedule: seq<Lane>, last1: Snapshot, rest1: seq<Snapshot>, name1: string,
                                                last2: Snapshot, rest2: seq<Snapshot>, name2: string)
    requires name1 != Waiting && name2 != Waiting
    requires !TakesFirst(schedule, rest1, rest2) && rest2 != []
    ensures OwnSteps(Interleave(schedule, last1, rest1, name1, last2, rest2, name2), First) == rest1
    ensures OwnSteps(Interleave(schedule, last1, rest1, name1, last2, rest2, name2), Second) == rest2
    decreases |rest1| + |rest2|, 0
  {
    var next := if schedule == [] then [] else schedule[1..];
    var f := Frame(LaneView(last1, Waiting), LaneView(rest2[0], name2));
    var g := Interleave(next, last1, rest1, name1, rest2[0], rest2[1..], name2);
    assert Interleave(schedule, last1, rest1, name1, last2, rest2, name2) == [f] + g;
    InterleaveKeepsOrder(next, last1, rest1, name1, rest2[0], rest2[1..], name2);
    OwnStepsCons(f, g, First);
    OwnStepsCons(f, g, Second);
    assert rest2 == [rest2[0]] + rest2[1..];
  }

  /** Prepending a frame that shows each lane's latest snapshot keeps `ShowsLatest`. */
  lemma ShowsLatestCons(f: Frame, g: seq<Frame>, start1: Snapshot, start2: Snapshot)
    requires f.lane1.shown == Final(start1, OwnSteps([f], First))
    requires f.lane2.shown == Final(start2, OwnSteps([f], Second))
    requires ShowsLatest(g, f.lane1.shown, f.lane2.shown)
    ensures ShowsLatest([f] + g, start1, start2)
  {
    var r := [f] + g;
    forall k | 0 <= k < |r|
      ensures r[k].lane1.shown == Final(start1, OwnSteps(r[..k + 1], First))
      ensures r[k].lane2.shown == Final(start2, OwnSteps(r[..k + 1], Second))
    {
      if k == 0 {
        assert r[..1] == [f];
      } else {
        assert r[..k + 1] == [f] + g[..k];
        assert r[k] == g[k - 1];
        OwnStepsCons(f, g[..k], First);
        OwnStepsCons(f, g[..k], Second);
        FinalAppend(start1, OwnSteps([f], First), OwnSteps(g[..k], First));
        FinalAppend(start2, OwnSteps([f], Second), OwnSteps(g[..k], Second));
      }
    }
  }

  /** The waiting lane is shown at the latest snapshot it emitted, never an older or a later one. */
  lemma {:induction false} InterleaveShowsLatest(schedule: seq<Lane>, last1: Snapshot, rest1: seq<Snapshot>, name1: string,
                                                 last2: Snapshot, rest2: seq<Snapshot>, name2: string)
    requires name1 != Waiting && name2 != Waiting
    ensures ShowsLatest(Interleave(schedule, last1, rest1, name1, last2, rest2, name2), last1, last2)
    decreases |rest1| + |rest2|
  {
    if rest1 == [] && rest2 == [] {
    } else {
      var next := if schedule == [] then [] else schedule[1..];
      if TakesFirst(schedule, rest1, rest2) {
        var f := Frame(LaneView(rest1[0], name1), LaneView(last2, Waiting));
        InterleaveShowsLatest(next, rest1[0], rest1[1..], name1, last2, rest2, name2);
        assert OwnSteps([f], First) == [rest1[0]];
        assert OwnSteps([f], Second) == [];
        ShowsLatestCons(f, Interleave(next, rest1[0], rest1[1..], name1, last2, rest2, name2), last1, last2);
      } else {
        var f := Frame(LaneView(last1, Waiting), LaneView(rest2[0], name2));
        InterleaveShowsLatest(next, last1, rest1, name1, rest2[0], rest2[1..], name2);
        assert OwnSteps([f], First) == [];
        assert OwnSteps([f], Second) == [rest2[0]];
        ShowsLatestCons(f, Interleave(next, last1, rest1, name1, rest2[0], rest2[1..], name2), last1, last2);
      }
    }
  }

  /** The schedule is followed: frame `k` belongs to lane `schedule[k]`. */
  predicate Follows(frames: seq<Frame>, schedule: seq<Lane>)
  {
    |frames| == |schedule| && forall k :: 0 <= k < |schedule| ==> Owner(frames[k]) == schedule[k]
  }

  /**
   * When the schedule names each lane exactly as often as that lane calls
   * `processStep`, frame `k` is the step of lane `schedule[k]`.
   */
  lemma {:induction false} InterleaveFollows(schedule: seq<Lane>, last1: Snapshot, rest1: seq<Snapshot>, name1: string,
                                             last2: Snapshot, rest2: seq<Snapshot>, name2: string)
    requires name1 != Waiting
    requires multiset(schedule)[First] == |rest1| && multiset(schedule)[Second] == |rest2|
    ensures Follows(Interleave(schedule, last1, rest1, name1, last2, rest2, name2), schedule)
    decreases |rest1| + |rest2|, 1
  {
    if schedule == [] {
      assert rest1 == [] && rest2 == [];
    } else {
      assert schedule == [schedule[0]] + schedule[1..];
      assert multiset(schedule) == multiset{schedule[0]} + multiset(schedule[1..]);
      if schedule[0] == First {
        FirstStepFollows(schedule, last1, rest1, name1, last2, rest2, name2);
      } else {
        SecondStepFollows(schedule, last1, rest1, name1, last2, rest2, name2);
      }
    }
  }

  lemma {:induction false} FirstStepFollows(schedule: seq<Lane>, last1: Snapshot, rest1: seq<Snapshot>, name1: string,
                                            last2: Snapshot, rest2: seq<Snapshot>, name2: string)
    requires name1 != Waiting
    requires schedule != [] && schedule[0] == First && rest1 != []
    requires multiset(schedule[1..])[First] == |rest1| - 1 && multiset(schedule[1..])[Second] == |rest2|
    ensures Follows(Interleave(schedule, last1, rest1, name1, last2, rest2, name2), schedule)
    decreases |rest1| + |rest2|, 0
  {
    var next := schedule[1..];
    InterleaveFollows(next, rest1[0], rest1[1..], name1, last2, rest2, name2);
    var g := Interleave(next, rest1[0], rest1[1..], name1, last2, rest2, name2);
    var r := Interleave(schedule, last1, rest1, name1, last2, rest2, name2);
    assert r == [Frame(LaneView(rest1[0], name1), LaneView(last2, Waiting))] + g;
    forall k | 0 < k < |schedule| ensures Owner(r[k]) == schedule[k] {
      assert r[k] == g[k - 1] && schedule[k] == next[k - 1];
    }
  }

  lemma {:induction false} SecondStepFollows(schedule: seq<Lane>, last1: Snapshot, rest1: seq<Snapshot>, name1: string,
                                             last2: Snapshot, rest2: seq<Snapshot>, name2: string)
    requires name1 != Waiting
    requires schedule != [] && schedule[0] == Second && rest2 != []
    requires multiset(schedule[1..])[First] == |rest1| && multiset(schedule[1..])[Second] == |rest2| - 1
    ensures Follows(Interleave(schedule, last1, rest1, name1, last2, rest2, name2), schedule)
    decreases |rest1| + |rest2|, 0
  {
    var next := schedule[1..];
    InterleaveFollows(next, last1, rest1, name1, rest2[0], rest2[1..], name2);
    var g := Interleave(next, last1, rest1, name1, rest2[0], rest2[1..], name2);
    var r := Interleave(schedule, last1, rest1, name1, last2, rest2, name2);
    assert r == [Frame(LaneView(last1, Waiting), LaneView(rest2[0], name2))] + g;
    forall k | 0 < k < |schedule| ensures Owner(r[k]) == schedule[k] {
      assert r[k] == g[k - 1] && schedule[k] == next[k - 1];
    }
  }

  /** Frames built from conforming snapshots conform. */
  lemma {:induction false} InterleaveConforms(schedule: seq<Lane>, last1: Snapshot, rest1: seq<Snapshot>, name1: string,
                                              last2: Snapshot, rest2: seq<Snapshot>, name2: string, n1: int, n2: int)
    requires Conforms(last1, n1) && AllConform(rest1, n1)
    requires Conforms(last2, n2) && AllConform(rest2, n2)
    ensures FramesConform(Interleave(schedule, last1, rest1, name1, last2, rest2, name2), n1, n2)
    decreases |rest1| + |rest2|
  {
    var r := Interleave(schedule, last1, rest1, name1, last2, rest2, name2);
    if rest1 == [] && rest2 == [] {
    } else {
      var next := if schedule == [] then [] else schedule[1..];
      if TakesFirst(schedule, rest1, rest2) {
        assert Conforms(rest1[0], n1);
        InterleaveConforms(next, rest1[0], rest1[1..], name1, last2, rest2, name2, n1, n2);
        var g := Interleave(next, rest1[0], rest1[1..], name1, last2, rest2, name2);
        forall k | 0 <= k < |r| ensures Conforms(r[k].lane1.shown, n1) && Conforms(r[k].lane2.shown, n2) {
          if k > 0 { assert r[k] == g[k - 1]; }
        }
      } else {
        assert Conforms(rest2[0], n2);
        InterleaveConforms(next, last1, rest1, name1, rest2[0], rest2[1..], name2, n1, n2);
        var g := Interleave(next, last1, rest1, name1, rest2[0], rest2[1..], name2);
        forall k | 0 <= k < |r| ensures Conforms(r[k].lane1.shown, n1) && Conforms(r[k].lane2.shown, n2) {
          if k > 0 { assert r[k] == g[k - 1]; }
        }
      }
    }
  }

  /**
   * The timeline is bracketed: the first frame shows both starting states as
   * "Initial State", the last shows each lane's state after its last
   * `processStep` (highlights included) as "Complete", and no frame in
   * between carries either label.
   */
  lemma TimelineBracketed(start1: Snapshot, start2: Snapshot, algorithm1: int, algorithm2: int, schedule: seq<Lane>)
    requires algorithm1 == 0 ==> |start1.data| >= 1
    requires algorithm2 == 0 ==> |start2.data| >= 1
    ensures |RunTimeline(start1, start2, algorithm1, algorithm2, schedule)|
              == |SortRun(algorithm1, start1).steps| + |SortRun(algorithm2, start2).steps| + 2
    ensures RunTimeline(start1, start2, algorithm1, algorithm2, schedule)[0]
              == Frame(LaneView(start1, InitialLabel), LaneView(start2, InitialLabel))
    ensures RunTimeline(start1, start2, algorithm1, algorithm2, schedule)[|SortRun(algorithm1, start1).steps| + |SortRun(algorithm2, start2).steps| + 1]
              == Frame(LaneView(Final(start1, SortRun(algorithm1, start1).steps), CompleteLabel),
                       LaneView(Final(start2, SortRun(algorithm2, start2).steps), CompleteLabel))
    ensures forall k :: 0 < k <= |SortRun(algorithm1, start1).steps| + |SortRun(algorithm2, start2).steps| ==>
              RunTimeline(start1, start2, algorithm1, algorithm2, schedule)[k].lane1.description !in {InitialLabel, CompleteLabel} &&
              RunTimeline(start1, start2, algorithm1, algorithm2, schedule)[k].lane2.description !in {InitialLabel, CompleteLabel}
  {
    var run1 := SortRun(algorithm1, start1);
    var run2 := SortRun(algorithm2, start2);
    var name1 := AlgorithmName(algorithm1);
    var name2 := AlgorithmName(algorithm2);
    SortRunFacts(algorithm1, start1);
    SortRunFacts(algorithm2, start2);
    var mid := Interleave(schedule, start1, run1.steps, name1, start2, run2.steps, name2);
    InterleaveLabels(schedule, start1, run1.steps, name1, start2, run2.steps, name2);
    var t := RunTimeline(start1, start2, algorithm1, algorithm2, schedule);
    forall k | 0 < k <= |mid|
      ensures t[k].lane1.description !in {InitialLabel, CompleteLabel}
      ensures t[k].lane2.description !in {InitialLabel, CompleteLabel}
    {
      assert t[k] == mid[k - 1];
    }
  }

  /** Each lane's own frames in the timeline are exactly its sort's `processStep` snapshots, in order. */
  lemma TimelineKeepsOrder(start1: Snapshot, start2: Snapshot, algorithm1: int, algorithm2: int, schedule: seq<Lane>)
    requires algorithm1 == 0 ==> |start1.data| >= 1
    requires algorithm2 == 0 ==> |start2.data| >= 1
    ensures OwnSteps(RunTimeline(start1, start2, algorithm1, algorithm2, schedule)[1..|SortRun(algorithm1, start1).steps| + |SortRun(algorithm2, start2).steps| + 1], First)
              == SortRun(algorithm1, start1).steps
    ensures OwnSteps(RunTimeline(start1, start2, algorithm1, algorithm2, schedule)[1..|SortRun(algorithm1, start1).steps| + |SortRun(algorithm2, start2).steps| + 1], Second)
              == SortRun(algorithm2, start2).steps
  {
    var run1 := SortRun(algorithm1, start1);
    var run2 := SortRun(algorithm2, start2);
    var mid := Interleave(schedule, start1, run1.steps, AlgorithmName(algorithm1), start2, run2.steps, AlgorithmName(algorithm2));
    var t := RunTimeline(start1, start2, algorithm1, algorithm2, schedule);
    assert t[1..|mid| + 1] == mid;
    InterleaveKeepsOrder(schedule, start1, run1.steps, AlgorithmName(algorithm1), start2, run2.steps, AlgorithmName(algorithm2));
  }

  /** Every frame of the timeline shows `n` bars per lane and only valid highlighted indices. */
  lemma TimelineConforms(start1: Snapshot, start2: Snapshot, algorithm1: int, algorithm2: int, schedule: seq<Lane>)
    requires algorithm1 == 0 ==> |start1.data| >= 1
    requires algorithm2 == 0 ==> |start2.data| >= 1
    requires HighlightsInRange(start1) && HighlightsInRange(start2)
    ensures FramesConform(RunTimeline(start1, start2, algorithm1, algorithm2, schedule), |start1.data|, |start2.data|)
  {
    var run1 := SortRun(algorithm1, start1);
    var run2 := SortRun(algorithm2, start2);
    SortRunFacts(algorithm1, start1);
    SortRunFacts(algorithm2, start2);
    var n1, n2 := |start1.data|, |start2.data|;
    var mid := Interleave(schedule, start1, run1.steps, AlgorithmName(algorithm1), start2, run2.steps, AlgorithmName(algorithm2));
    InterleaveConforms(schedule, start1, run1.steps, AlgorithmName(algorithm1), start2, run2.steps, AlgorithmName(algorithm2), n1, n2);
    assert Conforms(run1.after, n1) by {
      if run1.steps != [] { assert run1.after == run1.steps[|run1.steps| - 1]; }
    }
    assert Conforms(run2.after, n2) by {
      if run2.steps != [] { assert run2.after == run2.steps[|run2.steps| - 1]; }
    }
    var t := RunTimeline(start1, start2, algorithm1, algorithm2, schedule);
    forall k | 0 <= k < |t| ensures Conforms(t[k].lane1.shown, n1) && Conforms(t[k].lane2.shown, n2) {
      if 0 < k <= |mid| { assert t[k] == mid[k - 1]; }
    }
  }

  /**
   * With a sort selected in each lane, the "Complete" frame shows each lane
   * sorted and holding the values it started with; when a lane started from
   * a shuffled `1...n`, it shows exactly `1...n`.
   */
  lemma TimelineEndsSorted(start1: Snapshot, start2: Snapshot, algorithm1: int, algorithm2: int, schedule: seq<Lane>)
    requires 0 <= algorithm1 <= 3 && 0 <= algorithm2 <= 3
    requires algorithm1 == 0 ==> |start1.data| >= 1
    requires algorithm2 == 0 ==> |start2.data| >= 1
    ensures Sorted(RunTimeline(start1, start2, algorithm1, algorithm2, schedule)[|RunTimeline(start1, start2, algorithm1, algorithm2, schedule)| - 1].lane1.shown.data)
    ensures Sorted(RunTimeline(start1, start2, algorithm1, algorithm2, schedule)[|RunTimeline(start1, start2, algorithm1, algorithm2, schedule)| - 1].lane2.shown.data)
    ensures multiset(RunTimeline(start1, start2, algorithm1, algorithm2, schedule)[|RunTimeline(start1, start2, algorithm1, algorithm2, schedule)| - 1].lane1.shown.data)
              == multiset(start1.data)
    ensures multiset(RunTimeline(start1, start2, algorithm1, algorithm2, schedule)[|RunTimeline(start1, start2, algorithm1, algorithm2, schedule)| - 1].lane2.shown.data)
              == multiset(start2.data)
    ensures multiset(start1.data) == multiset(Ascending(1, |start1.data|)) ==>
              RunTimeline(start1, start2, algorithm1, algorithm2, schedule)[|RunTimeline(start1, start2, algorithm1, algorithm2, schedule)| - 1].lane1.shown.data
                == Ascending(1, |start1.data|)
    ensures multiset(start2.data) == multiset(Ascending(1, |start2.data|)) ==>
              RunTimeline(start1, start2, algorithm1, algorithm2, schedule)[|RunTimeline(start1, start2, algorithm1, algorithm2, schedule)| - 1].lane2.shown.data
                == Ascending(1, |start2.data|)
  {
    var run1 := SortRun(algorithm1, start1);
    var run2 := SortRun(algorithm2, start2);
    SortRunFacts(algorithm1, start1);
    SortRunFacts(algorithm2, start2);
    var t := RunTimeline(start1, start2, algorithm1, algorithm2, schedule);
    assert t[|t| - 1] == Frame(LaneView(run1.after, CompleteLabel), LaneView(run2.after, CompleteLabel));
    if multiset(start1.data) == multiset(Ascending(1, |start1.data|)) {
      SortedPermutationOfAscending(run1.after.data, 1, |start1.data|);
    }
    if multiset(start2.data) == multiset(Ascending(1, |start2.data|)) {
      SortedPermutationOfAscending(run2.after.data, 1, |start2.data|);
    }
  }
}
