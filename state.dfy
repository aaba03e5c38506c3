/** The lane state that every sort mutates and every recorded frame copies. */
module State {

  /** What one `processStep` call observes of a lane: its array and the highlighted indices. */
  datatype Snapshot = Snapshot(data: seq<int>, highlighted: set<int>)

  /** A lane as a recorded frame shows it: a snapshot and the label beside it. */
  datatype LaneView = LaneView(shown: Snapshot, description: string)

  /** The outcome of running (part of) a sort: the lane's state afterwards and the snapshots emitted on the way. */
  datatype Run = Run(after: Snapshot, steps: seq<Snapshot>)

  /** The mutable state of one lane (`SortState`). */
  class SortState {
    var data: seq<int>
    var highlightedIndices: set<int>
    var description: string

    constructor (data: seq<int>)
      ensures this.data == data && highlightedIndices == {} && description == ""
    {
      this.data := data;
      highlightedIndices := {};
      description := "";
    }

    function Snap(): Snapshot
      reads this
    {
      Snapshot(data, highlightedIndices)
    }

    function View(): LaneView
      reads this
    {
      LaneView(Snap(), description)
    }

    /** A new, independent object holding the same three fields. */
    method Copy() returns (c: SortState)
      ensures fresh(c)
      ensures c.data == data && c.highlightedIndices == highlightedIndices
      ensures c.description == description
    {
      c := new SortState(data);
      c.highlightedIndices := highlightedIndices;
      c.description := description;
    }
  }

  /**
   * Deep-copy isolation: once a copy is taken, later changes to the original
   * are not seen through the copy.
   */
  method CopyThenMutate(s: SortState, d: seq<int>, h: set<int>) returns (c: SortState)
    modifies s
    ensures c.View() == old(s.View())
    ensures s.data == d && s.highlightedIndices == h
  {
    c := s.Copy();
    s.data := d;
    s.highlightedIndices := h;
  }

  /** Swift's `swapAt(i, j)` on the lane's array (a no-op when `i == j`). */
  function Swap(s: seq<int>, i: int, j: int): (r: seq<int>)
    requires 0 <= i < |s| && 0 <= j < |s|
    ensures |r| == |s|
  {
    s[i := s[j]][j := s[i]]
  }

  /** Swapping rearranges: the values and their multiplicities are kept. */
  lemma SwapPermutes(s: seq<int>, i: int, j: int)
    requires 0 <= i < |s| && 0 <= j < |s|
    ensures multiset(Swap(s, i, j)) == multiset(s)
  {
  }

  /** The lane's state after its last `processStep`, or its starting state when it emitted none. */
  function Final(start: Snapshot, steps: seq<Snapshot>): Snapshot
  {
    if steps == [] then start else steps[|steps| - 1]
  }

  /** The last snapshot of a concatenation of traces. */
  lemma FinalAppend(start: Snapshot, a: seq<Snapshot>, b: seq<Snapshot>)
    ensures Final(start, a + b) == Final(Final(start, a), b)
  {
    if b != [] { assert (a + b)[|a + b| - 1] == b[|b| - 1]; } else { assert a + b == a; }
  }

  predicate SortedBetween(s: seq<int>, lo: int, hi: int)
    requires 0 <= lo && hi <= |s|
  {
    forall a, b :: lo <= a < b < hi ==> s[a] <= s[b]
  }

  predicate Sorted(s: seq<int>)
  {
    forall a, b :: 0 <= a < b < |s| ==> s[a] <= s[b]
  }

  /** `e` agrees with `d` at every index outside `low...high`. */
  predicate SameOutside(d: seq<int>, e: seq<int>, low: int, high: int)
  {
    |d| == |e| && forall k :: 0 <= k < |d| && (k < low || k > high) ==> e[k] == d[k]
  }

  /** Every highlighted index is a valid offset into the snapshot's array. */
  predicate HighlightsInRange(s: Snapshot)
  {
    forall x :: x in s.highlighted ==> 0 <= x < |s.data|
  }

  /** A snapshot that a lane of `n` bars may legitimately show: `n` bars, and only valid indices highlighted. */
  predicate Conforms(s: Snapshot, n: int)
  {
    |s.data| == n && HighlightsInRange(s)
  }

  predicate AllConform(steps: seq<Snapshot>, n: int)
  {
    forall k :: 0 <= k < |steps| ==> Conforms(steps[k], n)
  }

  /** The set `{lo...hi}` that `Set((low...high).map { $0 })` builds. */
  function Span(lo: int, hi: int): (r: set<int>)
    ensures forall x :: x in r <==> lo <= x <= hi
    decreases hi - lo
  {
    if lo > hi then {} else {lo} + Span(lo + 1, hi)
  }

  /** The ascending run `lo, lo+1, ..., lo+n-1`. */
  function Ascending(lo: int, n: nat): (r: seq<int>)
    ensures |r| == n && forall k :: 0 <= k < n ==> r[k] == lo + k
    decreases n
  {
    if n == 0 then [] else [lo] + Ascending(lo + 1, n - 1)
  }

  lemma AllConformAppend(a: seq<Snapshot>, b: seq<Snapshot>, n: int)
    requires AllConform(a, n) && AllConform(b, n)
    ensures AllConform(a + b, n)
  {
    forall k | 0 <= k < |a + b| ensures Conforms((a + b)[k], n) {
      if k < |a| { assert (a + b)[k] == a[k]; } else { assert (a + b)[k] == b[k - |a|]; }
    }
  }

  /** Removing equal heads from two rearrangements of each other leaves rearrangements of each other. */
  lemma TailsPermuted(s: seq<int>, t: seq<int>)
    requires |s| > 0 && |t| > 0 && s[0] == t[0] && multiset(s) == multiset(t)
    ensures multiset(s[1..]) == multiset(t[1..])
  {
    assert s == [s[0]] + s[1..] && t == [t[0]] + t[1..];
    assert multiset(s) == multiset([s[0]]) + multiset(s[1..]);
    assert multiset(t) == multiset([t[0]]) + multiset(t[1..]);
    forall x ensures multiset(s[1..])[x] == multiset(t[1..])[x] {
      assert multiset(s)[x] == multiset([s[0]])[x] + multiset(s[1..])[x];
      assert multiset(t)[x] == multiset([t[0]])[x] + multiset(t[1..])[x];
    }
  }

  /** The least element of a sorted rearrangement of `lo, ..., lo+n-1` is `lo`. */
  lemma SortedPermutationHead(s: seq<int>, lo: int, n: nat)
    requires Sorted(s) && multiset(s) == multiset(Ascending(lo, n)) && n > 0
    ensures |s| == n && s[0] == lo
  {
    var t := Ascending(lo, n);
    assert |multiset(s)| == |s| && |multiset(t)| == |t|;
    assert t[0] in multiset(s);
    var k :| 0 <= k < |s| && s[k] == lo;
    assert s[0] in multiset(t);
  }

  /**
   * A sorted rearrangement of `lo, ..., lo+n-1` is that run itself: the
   * final arrays of a sort over a shuffled `1...size` are exactly `1...size`.
   */
  lemma {:induction false} SortedPermutationOfAscending(s: seq<int>, lo: int, n: nat)
    requires Sorted(s) && multiset(s) == multiset(Ascending(lo, n))
    ensures s == Ascending(lo, n)
    decreases n
  {
    var t := Ascending(lo, n);
    if n == 0 {
      assert |multiset(s)| == |s|;
    } else {
      SortedPermutationHead(s, lo, n);
      TailsPermuted(s, t);
      assert t[1..] == Ascending(lo + 1, n - 1);
      SortedPermutationOfAscending(s[1..], lo + 1, n - 1);
      forall k | 0 <= k < n ensures s[k] == t[k] {
        if k > 0 { assert s[k] == s[1..][k - 1]; }
      }
    }
  }
}
