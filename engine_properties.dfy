/** What running the step engine tick after tick achieves. */
module EngineProperties {
  import opened StepEngine

  // ----- Composing ticks -----

  lemma {:induction false} RunAdd(s: SortState, t: nat, u: nat)
    requires WellFormed(s)
    ensures Run(s, t + u) == Run(Run(s, t), u)
    decreases t
  {
    if t > 0 {
      RunAdd(Step(s), t - 1, u);
    }
  }

  /** One more tick after t ticks. */
  lemma {:induction false} RunLast(s: SortState, t: nat)
    requires WellFormed(s)
    ensures Run(s, t + 1) == Step(Run(s, t))
    decreases t
  {
    if t > 0 {
      RunLast(Step(s), t - 1);
    }
  }

  // ----- Pausing -----

  /** While the running flag is off, ticks change nothing. */
  lemma {:induction false} PausedIsFixed(s: SortState, t: nat)
    requires Inv(s) && !s.isSorting
    ensures Run(s, t) == s
    decreases t
  {
    if t > 0 {
      PausedIsFixed(s, t - 1);
      RunAdd(s, 1, t - 1);
    }
  }

  /** Pausing, letting any number of ticks pass and resuming gives back the
      exact state that was paused. */
  lemma PauseResume(s: SortState, t: nat)
    requires Inv(s) && s.isSorting
    ensures Inv(s.(isSorting := false))
    ensures Run(s.(isSorting := false), t).(isSorting := true) == s
  {
    PausedIsFixed(s.(isSorting := false), t);
  }

  // ----- Termination and the number of ticks -----

  /** Each running tick brings completion one tick closer; the completing
      tick is the one that stops the engine. */
  lemma StepCountsDown(s: SortState)
    requires Inv(s) && s.isSorting
    ensures Inv(Step(s))
    ensures NextMove(s) == Complete ==> TicksLeft(s) == 1 && Done(Step(s))
    ensures NextMove(s) != Complete ==> Step(s).isSorting && TicksLeft(Step(s)) == TicksLeft(s) - 1
  {
    StepPreservesInv(s);
    var r := Step(s);
    match NextMove(s)
    case Complete =>
    case StartPass =>
      assert InPass(r) && r.comparingIndex == |s.sortedIndices| + 1;
    case Compare =>
    case Finalize =>
      assert Idle(r) && !InPass(r);
  }

  /** A running engine completes after exactly TicksLeft(s) ticks: it is
      still running after fewer, and done after that many. */
  lemma {:induction false} RunToCompletion(s: SortState)
    requires Inv(s) && s.isSorting
    ensures Done(Run(s, TicksLeft(s)))
    ensures forall t :: 0 <= t < TicksLeft(s) ==> Run(s, t).isSorting
    decreases TicksLeft(s)
  {
    StepCountsDown(s);
    var T := TicksLeft(s);
    if NextMove(s) == Complete {
      assert Run(s, 1) == Run(Step(s), 0);
    } else {
      RunToCompletion(Step(s));
      forall t | 0 <= t < T ensures Run(s, t).isSorting {
        if t > 0 {
          assert Run(s, t) == Run(Step(s), t - 1);
        }
      }
      assert Run(s, T) == Run(Step(s), T - 1);
    }
  }

  /** In a completed run the array is sorted and the counters hold their
      totals: n passes, n(n-1)/2 comparisons and fewer swaps than bars. */
  lemma DoneState(s: SortState)
    requires Inv(s) && Done(s)
    ensures Sorted(s.arr)
    ensures s.iterations == |s.arr|
    ensures s.comparisons == |s.arr| * (|s.arr| - 1) / 2
    ensures |s.arr| > 0 ==> s.swaps <= |s.arr| - 1
  {
    PassComparisonsTotal(|s.arr|, |s.arr|);
  }

  /** Everything a run to completion guarantees, from any reachable running state. */
  lemma CompletedRun(s: SortState)
    requires Inv(s) && s.isSorting
    ensures var r := Run(s, TicksLeft(s)); var n := |r.arr|;
      n == |s.arr| && Done(r) && Sorted(r.arr) && multiset(r.arr) == multiset(s.arr) &&
      r.iterations == n && r.comparisons == n * (n - 1) / 2 && (n > 0 ==> r.swaps <= n - 1)
    ensures forall t :: 0 <= t < TicksLeft(s) ==> Run(s, t).isSorting
  {
    var T := TicksLeft(s);
    RunToCompletion(s);
    RunPreservesInv(s, T);
    RunPermutes(s, T);
    DoneState(Run(s, T));
  }

  lemma {:induction false} PassComparisonsTotal(n: nat, k: nat)
    requires k <= n
    ensures 2 * PassComparisons(n, k) == k * (2 * n - k - 1)
  {
    if k > 0 {
      PassComparisonsTotal(n, k - 1);
    }
  }

  lemma {:induction false} IdleTicksTotal(m: nat)
    ensures 2 * IdleTicks(m) == m * (m + 3) + 2
  {
    if m > 0 {
      IdleTicksTotal(m - 1);
    }
  }

  /** From a freshly generated array with the running flag on, the engine
      stops after exactly n(n-1)/2 + 2n + 1 ticks, leaving a sorted
      rearrangement of the generated values, all positions finalized, n
      passes, n(n-1)/2 comparisons and at most n-1 swaps. */
  lemma SortFromReset(values: seq<int>)
    ensures Inv(Generated(values, true))
    ensures var n := |values|;
      var T := n * (n - 1) / 2 + 2 * n + 1;
      var r := Run(Generated(values, true), T);
      Done(r) && Sorted(r.arr) && multiset(r.arr) == multiset(values) &&
      r.iterations == n && r.comparisons == n * (n - 1) / 2 && (n > 0 ==> r.swaps <= n - 1) &&
      (forall t :: 0 <= t < T ==> Run(Generated(values, true), t).isSorting)
  {
    var s := Generated(values, true);
    var n := |values|;
    assert Inv(s);
    IdleTicksTotal(n);
    assert TicksLeft(s) == n * (n - 1) / 2 + 2 * n + 1;
    CompletedRun(s);
  }

  // ----- One pass -----

  /** The first minimum of a[lo..hi), found by the same left-to-right scan
      with a strict comparison. */
  function MinPos(a: seq<int>, lo: int, hi: int): (m: int)
    requires 0 <= lo < hi <= |a|
    ensures IsFirstMin(a, lo, hi, m)
    decreases hi
  {
    if hi == lo + 1 then lo
    else
      var m := MinPos(a, lo, hi - 1);
      if a[hi - 1] < a[m] then hi - 1 else m
  }

  lemma FirstMinUnique(a: seq<int>, lo: int, hi: int, m1: int, m2: int)
    requires IsFirstMin(a, lo, hi, m1) && IsFirstMin(a, lo, hi, m2)
    ensures m1 == m2
  {
    assert a[m1] <= a[m2] && a[m2] <= a[m1];
  }

  /** Running, inside the pass at k = |sortedIndices|, with minIndex the
      first minimum of the positions scanned so far. */
  predicate Scanning(s: SortState) {
    var k := |s.sortedIndices|;
    s.isSorting && k < |s.arr| && s.currentIndex == k &&
    IsFirstMin(s.arr, k, s.comparingIndex, s.minIndex)
  }

  /** The comparison ticks of a pass leave the array alone and end with
      minIndex at the first minimum of the unsorted suffix. */
  lemma {:induction false} ScanRest(s: SortState)
    requires Scanning(s)
    ensures WellFormed(s)
    ensures var n, k := |s.arr|, |s.sortedIndices|;
      var r := Run(s, n - s.comparingIndex);
      r.isSorting && r.currentIndex == k && r.comparingIndex == n &&
      r.arr == s.arr && r.sortedIndices == s.sortedIndices &&
      r.minIndex == MinPos(s.arr, k, n) &&
      r.iterations == s.iterations && r.swaps == s.swaps &&
      r.comparisons == s.comparisons + (n - s.comparingIndex)
    decreases |s.arr| - s.comparingIndex
  {
    var n, k := |s.arr|, |s.sortedIndices|;
    if s.comparingIndex == n {
      FirstMinUnique(s.arr, k, n, s.minIndex, MinPos(s.arr, k, n));
    } else {
      CompareStep(s);
      var s1 := Step(s);
      ScanRest(s1);
      assert Run(s, n - s.comparingIndex) == Run(s1, n - s1.comparingIndex);
    }
  }

  /** A comparison tick extends the scanned range by one position. */
  lemma CompareStep(s: SortState)
    requires Scanning(s) && s.comparingIndex < |s.arr|
    ensures WellFormed(s)
    ensures var r := Step(s);
      Scanning(r) && r.comparingIndex == s.comparingIndex + 1 &&
      r.arr == s.arr && r.sortedIndices == s.sortedIndices &&
      r.iterations == s.iterations && r.swaps == s.swaps && r.comparisons == s.comparisons + 1
  {
    assert IsFirstMin(s.arr, |s.sortedIndices|, s.comparingIndex + 1, Step(s).minIndex);
  }

  lemma StartStep(s: SortState)
    requires Inv(s) && s.isSorting && Idle(s) && |s.sortedIndices| < |s.arr|
    ensures Inv(Step(s)) && Step(s).isSorting && InPass(Step(s))
    ensures Step(s).comparingIndex == |s.sortedIndices| + 1
    ensures Step(s).arr == s.arr && Step(s).sortedIndices == s.sortedIndices
    ensures Step(s).iterations == s.iterations + 1 && Step(s).comparisons == s.comparisons
    ensures Step(s).swaps == s.swaps
  {
    StepPreservesInv(s);
  }

  lemma FinalizeStep(s: SortState)
    requires Inv(s) && s.isSorting && s.currentIndex == |s.sortedIndices| && s.comparingIndex == |s.arr|
    ensures var k, m := |s.sortedIndices|, s.minIndex; var r := Step(s);
      r.isSorting && Idle(r) && |r.sortedIndices| == k + 1 &&
      r.arr == (if m == k then s.arr else SwapAt(s.arr, k, m)) &&
      r.iterations == s.iterations && r.comparisons == s.comparisons &&
      r.swaps == s.swaps + (if m == k then 0 else 1) && Inv(r)
  {
    StepPreservesInv(s);
  }

  /** The pass at position k, from its start tick to its finalize tick
      (n-k+1 ticks), makes exactly n-1-k comparisons, moves the first
      minimum of the unsorted suffix to position k by at most one swap,
      and finalizes position k. The last pass (k = n-1) takes two ticks
      and never swaps. */
  lemma OnePass(s: SortState)
    requires Inv(s) && s.isSorting && Idle(s) && |s.sortedIndices| < |s.arr|
    ensures var n, k := |s.arr|, |s.sortedIndices|;
      var r := Run(s, n - k + 1);
      var m := MinPos(s.arr, k, n);
      r.isSorting && Idle(r) && |r.sortedIndices| == k + 1 &&
      r.arr == (if m == k then s.arr else SwapAt(s.arr, k, m)) &&
      r.iterations == s.iterations + 1 &&
      r.comparisons == s.comparisons + (n - 1 - k) &&
      r.swaps == s.swaps + (if m == k then 0 else 1)
    ensures |s.sortedIndices| == |s.arr| - 1 ==>
      Run(s, 2).arr == s.arr && Run(s, 2).swaps == s.swaps
  {
    var n, k := |s.arr|, |s.sortedIndices|;
    StartStep(s);
    var s1 := Step(s);
    ScanRest(s1);
    var s2 := Run(s1, n - k - 1);
    RunPreservesInv(s1, n - k - 1);
    var m := MinPos(s.arr, k, n);
    assert s2.arr == s.arr && s2.minIndex == m && s2.sortedIndices == s.sortedIndices;
    assert s2.iterations == s.iterations + 1 && s2.swaps == s.swaps;
    assert s2.comparisons == s.comparisons + (n - 1 - k);
    FinalizeStep(s2);
    assert Run(s, n - k) == s2;
    RunLast(s, n - k);
  }

  // ----- A worked example -----

  /** A running idle state of the worked example: k positions finalized. */
  function ExampleState(a: seq<int>, k: nat, iterations: nat, comparisons: nat, swaps: nat): SortState
    requires k <= |a|
  {
    SortState(a, Keys(k), NoIndex, NoIndex, NoIndex, true, iterations, comparisons, swaps)
  }

  /** One pass of the worked example, from the state before it to the state after it. */
  lemma ExamplePass(s: SortState, m: int, a': seq<int>, comparisons': nat, swaps': nat)
    requires Inv(s) && s.isSorting && Idle(s) && |s.sortedIndices| < |s.arr|
    requires MinPos(s.arr, |s.sortedIndices|, |s.arr|) == m
    requires a' == if m == |s.sortedIndices| then s.arr else SwapAt(s.arr, |s.sortedIndices|, m)
    requires comparisons' == s.comparisons + |s.arr| - 1 - |s.sortedIndices|
    requires swaps' == s.swaps + if m == |s.sortedIndices| then 0 else 1
    ensures Run(s, |s.arr| - |s.sortedIndices| + 1)
         == ExampleState(a', |s.sortedIndices| + 1, s.iterations + 1, comparisons', swaps')
  {
    OnePass(s);
    RunPreservesInv(s, |s.arr| - |s.sortedIndices| + 1);
  }

  /** The passes of the worked example, one at a time. */
  lemma ExampleFirstPass(lo: int, low: int, mid: int, high: int)
    requires lo < low < mid < high
    ensures Inv(ExampleState([mid, low, high, lo], 0, 0, 0, 0))
    ensures Run(ExampleState([mid, low, high, lo], 0, 0, 0, 0), 5) == ExampleState([lo, low, high, mid], 1, 1, 3, 1)
  {
    var s := ExampleState([mid, low, high, lo], 0, 0, 0, 0);
    assert Inv(s);
    assert MinPos(s.arr, 0, 4) == 3;
    assert SwapAt(s.arr, 0, 3) == [lo, low, high, mid];
    ExamplePass(s, 3, [lo, low, high, mid], 3, 1);
  }

  lemma ExampleSecondPass(lo: int, low: int, mid: int, high: int)
    requires lo < low < mid < high
    ensures Inv(ExampleState([lo, low, high, mid], 1, 1, 3, 1))
    ensures Run(ExampleState([lo, low, high, mid], 1, 1, 3, 1), 4) == ExampleState([lo, low, high, mid], 2, 2, 5, 1)
  {
    var s := ExampleState([lo, low, high, mid], 1, 1, 3, 1);
    assert Inv(s);
    assert MinPos(s.arr, 1, 4) == 1;
    ExamplePass(s, 1, [lo, low, high, mid], 5, 1);
  }

  lemma ExampleThirdPass(lo: int, low: int, mid: int, high: int)
    requires lo < low < mid < high
    ensures Inv(ExampleState([lo, low, high, mid], 2, 2, 5, 1))
    ensures Run(ExampleState([lo, low, high, mid], 2, 2, 5, 1), 3) == ExampleState([lo, low, mid, high], 3, 3, 6, 2)
  {
    var s := ExampleState([lo, low, high, mid], 2, 2, 5, 1);
    assert PassComparisons(4, 1) == 3;
    assert Inv(s);
    assert MinPos(s.arr, 2, 4) == 3;
    assert SwapAt(s.arr, 2, 3) == [lo, low, mid, high];
    ExamplePass(s, 3, [lo, low, mid, high], 6, 2);
  }

  lemma ExampleLastPass(lo: int, low: int, mid: int, high: int)
    requires lo < low < mid < high
    ensures Inv(ExampleState([lo, low, mid, high], 3, 3, 6, 2))
    ensures Run(ExampleState([lo, low, mid, high], 3, 3, 6, 2), 2) == ExampleState([lo, low, mid, high], 4, 4, 6, 2)
  {
    var s := ExampleState([lo, low, mid, high], 3, 3, 6, 2);
    assert PassComparisons(4, 1) == 3 && PassComparisons(4, 2) == 5;
    assert Inv(s);
    assert MinPos(s.arr, 3, 4) == 3;
    ExamplePass(s, 3, [lo, low, mid, high], 6, 2);
  }

  /** An array shaped like [5, 3, 8, 1] sorts in 15 ticks with 4 passes,
      6 comparisons and 2 swaps: the first pass swaps positions 0 and 3,
      the second swaps nothing, the third swaps positions 2 and 3 and the
      last pass only finalizes. */
  lemma WorkedExample(lo: int, low: int, mid: int, high: int)
    requires lo < low < mid < high
    ensures var r := Run(Generated([mid, low, high, lo], true), 15);
      Done(r) && r.arr == [lo, low, mid, high] &&
      r.iterations == 4 && r.comparisons == 6 && r.swaps == 2
  {
    var s := Generated([mid, low, high, lo], true);
    assert s == ExampleState([mid, low, high, lo], 0, 0, 0, 0);
    ExampleFirstPass(lo, low, mid, high);
    ExampleSecondPass(lo, low, mid, high);
    ExampleThirdPass(lo, low, mid, high);
    ExampleLastPass(lo, low, mid, high);
    var s1 := ExampleState([lo, low, high, mid], 1, 1, 3, 1);
    var s2 := ExampleState([lo, low, high, mid], 2, 2, 5, 1);
    var s3 := ExampleState([lo, low, mid, high], 3, 3, 6, 2);
    var s4 := ExampleState([lo, low, mid, high], 4, 4, 6, 2);
    RunAdd(s, 5, 4);
    assert Run(s, 9) == s2;
    RunAdd(s, 9, 3);
    assert Run(s, 12) == s3;
    RunAdd(s, 12, 2);
    assert Run(s, 14) == s4;
    RunLast(s, 14);
    assert NextMove(s4) == Complete;
  }
}
