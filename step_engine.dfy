/** The selection-sort step engine. One tick makes exactly one move: nothing
    while paused, completion, the start of a pass, one comparison, or the
    end of a pass with at most one swap. The component's state fields are
    gathered into one value, and a tick is a map from the state before it
    to the state after it (every setter of a tick reads the values from
    before the tick). */
module StepEngine {

  /** -1, the state's marker for "no index". */
  const NoIndex: int := -1

  /** The component's sort state; arr is its `array` field. */
  datatype SortState = SortState(
    arr: seq<int>,
    sortedIndices: seq<int>,
    currentIndex: int,
    comparingIndex: int,
    minIndex: int,
    isSorting: bool,
    iterations: nat,
    comparisons: nat,
    swaps: nat)

  /** The five moves a tick can make. */
  datatype Move = Paused | Complete | StartPass | Compare | Finalize

  /** The indices 0, 1, ..., n-1 in order. */
  function Keys(n: nat): (r: seq<int>)
    ensures |r| == n && forall i :: 0 <= i < n ==> r[i] == i
  {
    seq(n, i => i)
  }

  /** s with the values at i and j exchanged. */
  function SwapAt(s: seq<int>, i: int, j: int): (r: seq<int>)
    requires 0 <= i < |s| && 0 <= j < |s|
    ensures |r| == |s| && r[i] == s[j] && r[j] == s[i]
    ensures forall t :: 0 <= t < |s| && t != i && t != j ==> r[t] == s[t]
  {
    s[i := s[j]][j := s[i]]
  }

  lemma SwapAtPermutes(s: seq<int>, i: int, j: int)
    requires 0 <= i < |s| && 0 <= j < |s|
    ensures multiset(SwapAt(s, i, j)) == multiset(s)
  {
  }

  predicate Sorted(s: seq<int>) {
    forall i, j :: 0 <= i < j < |s| ==> s[i] <= s[j]
  }

  /** The state a fresh array starts from: nothing finalized, no pointers,
      counters at zero; the running flag is left as it was. It is a
      reachable state. */
  function Generated(values: seq<int>, running: bool): (r: SortState)
    ensures Inv(r) && Idle(r) && r.arr == values && r.isSorting == running
    ensures r.iterations == 0 && r.comparisons == 0 && r.swaps == 0 && |r.sortedIndices| == 0
  {
    SortState(values, [], NoIndex, NoIndex, NoIndex, running, 0, 0, 0)
  }

  // ----- The transition -----

  /** Which move the next tick makes, tested in the order the tick tests it. */
  function NextMove(s: SortState): (r: Move)
    ensures r == Paused <==> !s.isSorting
    ensures r in {Compare, Finalize} ==>
      s.isSorting && |s.sortedIndices| < |s.arr| && s.comparingIndex != NoIndex
    ensures r == Complete ==> s.isSorting && |s.arr| <= |s.sortedIndices|
  {
    if !s.isSorting then Paused
    else if |s.sortedIndices| >= |s.arr| then Complete
    else if s.comparingIndex == NoIndex then StartPass
    else if s.comparingIndex < |s.arr| then Compare
    else Finalize
  }

  /** The pointers a tick reads are positions of the array: once
      comparingIndex is set, currentIndex and minIndex index the array and
      comparingIndex is not negative. */
  predicate WellFormed(s: SortState) {
    s.comparingIndex == NoIndex ||
    (0 <= s.currentIndex < |s.arr| && 0 <= s.minIndex < |s.arr| && 0 <= s.comparingIndex)
  }

  /** One tick. */
  function Step(s: SortState): (r: SortState)
    requires WellFormed(s)
    ensures WellFormed(r)
    ensures !s.isSorting ==> r == s
    ensures |r.arr| == |s.arr|
    ensures s.iterations <= r.iterations && s.comparisons <= r.comparisons && s.swaps <= r.swaps
    ensures r.arr != s.arr ==> NextMove(s) == Finalize && r.swaps == s.swaps + 1
  {
    var n, k := |s.arr|, |s.sortedIndices|;
    match NextMove(s)
    case Paused => s
    case Complete =>
      s.(isSorting := false, sortedIndices := Keys(n),
         currentIndex := NoIndex, comparingIndex := NoIndex, minIndex := NoIndex)
    case StartPass =>
      s.(currentIndex := k, comparingIndex := k + 1, minIndex := k,
         iterations := s.iterations + 1)
    case Compare =>
      s.(comparisons := s.comparisons + 1,
         minIndex := if s.arr[s.comparingIndex] < s.arr[s.minIndex] then s.comparingIndex else s.minIndex,
         comparingIndex := s.comparingIndex + 1)
    case Finalize =>
      var swapped := s.minIndex != s.currentIndex;
      s.(swaps := if swapped then s.swaps + 1 else s.swaps,
         arr := if swapped then SwapAt(s.arr, s.currentIndex, s.minIndex) else s.arr,
         sortedIndices := s.sortedIndices + [s.currentIndex],
         currentIndex := NoIndex, comparingIndex := NoIndex, minIndex := NoIndex)
  }

  /** t ticks in a row. */
  function Run(s: SortState, t: nat): (r: SortState)
    requires WellFormed(s)
    ensures WellFormed(r) && |r.arr| == |s.arr|
    ensures s.iterations <= r.iterations && s.comparisons <= r.comparisons && s.swaps <= r.swaps
    decreases t
  {
    if t == 0 then s else Run(Step(s), t - 1)
  }

  /** A tick at most exchanges two values. */
  lemma StepPermutes(s: SortState)
    requires WellFormed(s)
    ensures multiset(Step(s).arr) == multiset(s.arr)
  {
    if NextMove(s) == Finalize && s.minIndex != s.currentIndex {
      SwapAtPermutes(s.arr, s.currentIndex, s.minIndex);
    }
  }

  /** Any number of ticks only rearranges the values. */
  lemma {:induction false} RunPermutes(s: SortState, t: nat)
    requires WellFormed(s)
    ensures multiset(Run(s, t).arr) == multiset(s.arr)
    decreases t
  {
    if t > 0 {
      StepPermutes(s);
      RunPermutes(Step(s), t - 1);
    }
  }

  // ----- The invariant every reachable state keeps -----

  /** a[m] is the first occurrence of the minimum of a[lo..hi). */
  predicate IsFirstMin(a: seq<int>, lo: int, hi: int, m: int) {
    0 <= lo <= m < hi <= |a| &&
    (forall j :: lo <= j < hi ==> a[m] <= a[j]) &&
    (forall j :: lo <= j < m ==> a[m] < a[j])
  }

  /** The first k positions hold the k smallest values, in order. */
  predicate Finalized(a: seq<int>, k: int) {
    0 <= k <= |a| &&
    (forall i, j :: 0 <= i < j < k ==> a[i] <= a[j]) &&
    (forall i, j :: 0 <= i < k <= j < |a| ==> a[i] <= a[j])
  }

  /** Between passes: all three pointers are "none". */
  predicate Idle(s: SortState) {
    s.currentIndex == NoIndex && s.comparingIndex == NoIndex && s.minIndex == NoIndex
  }

  /** Inside the pass at k = |sortedIndices|: positions k..comparingIndex-1
      have been scanned and minIndex is their first minimum. */
  predicate InPass(s: SortState) {
    var k := |s.sortedIndices|;
    k < |s.arr| && s.currentIndex == k && s.minIndex < s.comparingIndex &&
    IsFirstMin(s.arr, k, s.comparingIndex, s.minIndex)
  }

  /** Comparisons made by the passes at positions 0..k-1 of an array of length n:
      the pass at i compares n-1-i times. */
  function PassComparisons(n: nat, k: nat): nat
    requires k <= n
  {
    if k == 0 then 0 else PassComparisons(n, k - 1) + (n - k)
  }

  /** The counters agree with how far the sort has got. */
  predicate CountersMatch(s: SortState) {
    var n, k := |s.arr|, |s.sortedIndices|;
    k <= n &&
    s.iterations == k + (if InPass(s) then 1 else 0) &&
    s.comparisons == PassComparisons(n, k) + (if InPass(s) then s.comparingIndex - k - 1 else 0) &&
    s.swaps <= k && (n == 0 || s.swaps <= n - 1)
  }

  predicate Inv(s: SortState) {
    var n, k := |s.arr|, |s.sortedIndices|;
    WellFormed(s) && k <= n &&
    s.sortedIndices == Keys(k) &&
    Finalized(s.arr, k) &&
    (Idle(s) || InPass(s)) &&
    CountersMatch(s)
  }

  /** The sort has run to completion. */
  predicate Done(s: SortState) {
    !s.isSorting && Idle(s) && s.sortedIndices == Keys(|s.arr|)
  }

  // ----- Ticks left -----

  /** Ticks from a running idle state with m positions still to finalize
      until the tick that stops the engine, that tick included: each pass
      takes m+1 ticks (start, m-1 comparisons, finalize). */
  function IdleTicks(m: nat): nat {
    if m == 0 then 1 else m + 1 + IdleTicks(m - 1)
  }

  function TicksLeft(s: SortState): nat
    requires Inv(s)
  {
    var n, k := |s.arr|, |s.sortedIndices|;
    if InPass(s) then n - s.comparingIndex + 1 + IdleTicks(n - k - 1) else IdleTicks(n - k)
  }

  // ----- Every tick keeps the invariant -----

  lemma StepPreservesInv(s: SortState)
    requires Inv(s)
    ensures Inv(Step(s))
  {
    match NextMove(s)
    case Paused =>
    case Complete =>
    case StartPass =>
    case Compare => CompareKeepsInv(s);
    case Finalize => FinalizeKeepsInv(s);
  }

  /** Any number of ticks keeps the invariant. */
  lemma {:induction false} RunPreservesInv(s: SortState, t: nat)
    requires Inv(s)
    ensures Inv(Run(s, t))
    decreases t
  {
    if t > 0 {
      StepPreservesInv(s);
      RunPreservesInv(Step(s), t - 1);
    }
  }

  lemma CompareKeepsInv(s: SortState)
    requires Inv(s) && NextMove(s) == Compare
    ensures Inv(Step(s))
  {
    var r := Step(s);
    var k, c, m := |s.sortedIndices|, s.comparingIndex, s.minIndex;
    assert InPass(s);
    assert IsFirstMin(s.arr, k, c + 1, r.minIndex);
    assert InPass(r);
  }

  lemma FinalizeKeepsInv(s: SortState)
    requires Inv(s) && NextMove(s) == Finalize
    ensures Inv(Step(s))
  {
    var r := Step(s);
    var n, k, m := |s.arr|, |s.sortedIndices|, s.minIndex;
    assert InPass(s) && s.comparingIndex == n;
    var a, b := s.arr, r.arr;
    assert b == if m != k then SwapAt(a, k, m) else a;
    // Every value at k or beyond is still there after the swap.
    assert forall j :: k <= j < n ==> b[j] == a[j] || b[j] == a[k] || b[j] == a[m];
    assert forall i :: 0 <= i < k ==> b[i] == a[i];
    assert b[k] == a[m];
    assert Finalized(b, k + 1);
    assert Idle(r) && !InPass(r);
  }
}
