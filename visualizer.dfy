/** The visualizer component as an object: its state fields, updated in
    place by the timer tick and the buttons. */
module Visualizer {
  import opened Controls
  import opened Generator
  import opened StepEngine
  import opened EngineProperties

  /** A tick keeps the invariant, the number of bars and their range. */
  lemma StepKeepsValues(s: SortState)
    requires Inv(s) && InRange(s.arr)
    ensures Inv(Step(s)) && InRange(Step(s).arr) && |Step(s).arr| == |s.arr|
  {
    StepPreservesInv(s);
    StepPermutes(s);
    InRangeOfPermutation(s.arr, Step(s).arr);
    assert |Step(s).arr| == |multiset(Step(s).arr)|;
  }

  class SelectionSortVisualizer {
    var arr: seq<int>              // the component's `array`
    var sortedIndices: seq<int>
    var currentIndex: int
    var comparingIndex: int
    var minIndex: int
    var isSorting: bool
    var iterations: nat
    var comparisons: nat
    var swaps: nat
    var speed: int                 // tick interval in milliseconds
    var arraySize: int

    /** The sort state held in the fields. */
    function State(): SortState
      reads this
    {
      SortState(arr, sortedIndices, currentIndex, comparingIndex, minIndex,
                isSorting, iterations, comparisons, swaps)
    }

    ghost predicate Valid()
      reads this
    {
      Inv(State()) && InRange(arr) && |arr| == arraySize &&
      ValidSpeed(speed) && ValidSize(arraySize)
    }

    /** Mounting: the initial settings, then the mount effect generates the
        first array from arraySize random draws. */
    constructor (draws: seq<real>)
      requires ValidDraws(draws) && |draws| == DefaultSize
      ensures Valid()
      ensures State() == Generated(ArrayFromDraws(draws), false)
      ensures speed == DefaultSpeed && arraySize == DefaultSize
    {
      arr, sortedIndices := [], [];
      currentIndex, comparingIndex, minIndex := NoIndex, NoIndex, NoIndex;
      isSorting := false;
      iterations, comparisons, swaps := 0, 0, 0;
      speed, arraySize := DefaultSpeed, DefaultSize;
      new;
      GenerateArray(draws);
    }

    /** A new array of arraySize values; progress and counters start over
        and the running flag is left alone. */
    method GenerateArray(draws: seq<real>)
      requires ValidDraws(draws) && |draws| == arraySize
      requires ValidSpeed(speed) && ValidSize(arraySize)
      modifies this
      ensures Valid()
      ensures State() == Generated(ArrayFromDraws(draws), old(isSorting))
      ensures speed == old(speed) && arraySize == old(arraySize)
    {
      arr := ArrayFromDraws(draws);
      sortedIndices := [];
      currentIndex := NoIndex;
      comparingIndex := NoIndex;
      minIndex := NoIndex;
      iterations := 0;
      comparisons := 0;
      swaps := 0;
      assert State() == Generated(arr, isSorting);
    }

    /** One timer tick: the step engine's move for the current state. */
    method Tick()
      requires Valid()
      modifies this
      ensures Valid()
      ensures State() == Step(old(State()))
      ensures speed == old(speed) && arraySize == old(arraySize)
    {
      if !isSorting {
        return;
      }
      var n := |arr|;
      var i := |sortedIndices|;
      if i >= n {
        CompleteSort();
      } else if comparingIndex == NoIndex {
        StartIteration();
      } else if comparingIndex < n {
        CompareNext();
      } else {
        FinishPass();
      }
    }

    /** Every position is final: stop, mark all positions sorted, clear
        the pointers. */
    method CompleteSort()
      requires Valid() && NextMove(State()) == Complete
      modifies this
      ensures Valid()
      ensures State() == Step(old(State()))
      ensures speed == old(speed) && arraySize == old(arraySize)
    {
      StepKeepsValues(State());
      isSorting := false;
      sortedIndices := Keys(|arr|);
      currentIndex := NoIndex;
      comparingIndex := NoIndex;
      minIndex := NoIndex;
    }

    /** The pass at the first unfinalized position i starts: i is both the
        current position and the minimum so far, and i+1 is compared next. */
    method StartIteration()
      requires Valid() && NextMove(State()) == StartPass
      modifies this
      ensures Valid()
      ensures State() == Step(old(State()))
      ensures speed == old(speed) && arraySize == old(arraySize)
    {
      StepKeepsValues(State());
      var i := |sortedIndices|;
      currentIndex := i;
      comparingIndex := i + 1;
      minIndex := i;
      iterations := iterations + 1;
    }

    /** One comparison: a strictly smaller value becomes the new minimum. */
    method CompareNext()
      requires Valid() && NextMove(State()) == Compare
      modifies this
      ensures Valid()
      ensures State() == Step(old(State()))
      ensures speed == old(speed) && arraySize == old(arraySize)
    {
      StepKeepsValues(State());
      assert InPass(State());
      comparisons := comparisons + 1;
      if arr[comparingIndex] < arr[minIndex] {
        minIndex := comparingIndex;
      }
      comparingIndex := comparingIndex + 1;
    }

    /** The end of the pass: swap the minimum into place if it is elsewhere,
        finalize the current position, clear the pointers. */
    method FinishPass()
      requires Valid() && NextMove(State()) == Finalize
      modifies this
      ensures Valid()
      ensures State() == Step(old(State()))
      ensures speed == old(speed) && arraySize == old(arraySize)
    {
      StepKeepsValues(State());
      assert InPass(State());
      if minIndex != currentIndex {
        swaps := swaps + 1;
        arr := SwapAt(arr, currentIndex, minIndex);
      }
      sortedIndices := sortedIndices + [currentIndex];
      currentIndex := NoIndex;
      comparingIndex := NoIndex;
      minIndex := NoIndex;
    }

    /** The timer driving the engine: while running, one tick after
        another, until the completing tick turns running off. Returns the
        number of ticks taken. */
    method SortToCompletion() returns (ticks: nat)
      requires Valid() && isSorting
      modifies this
      ensures Valid()
      ensures ticks == TicksLeft(old(State()))
      ensures State() == Run(old(State()), ticks)
      ensures Done(State()) && Sorted(arr) && multiset(arr) == multiset(old(arr))
      ensures iterations == |arr| && comparisons == |arr| * (|arr| - 1) / 2
      ensures |arr| > 0 ==> swaps <= |arr| - 1
      ensures speed == old(speed) && arraySize == old(arraySize)
    {
      ghost var start := State();
      ghost var total := TicksLeft(start);
      CompletedRun(start);
      ticks := 0;
      while isSorting
        invariant Valid()
        invariant ticks <= total && State() == Run(start, ticks)
        invariant speed == old(speed) && arraySize == old(arraySize)
        decreases total - ticks
      {
        RunLast(start, ticks);
        Tick();
        ticks := ticks + 1;
      }
    }

    /** Start / Pause. */
    method ToggleSorting()
      requires Valid()
      modifies this
      ensures Valid()
      ensures State() == old(State()).(isSorting := !old(isSorting))
      ensures speed == old(speed) && arraySize == old(arraySize)
    {
      isSorting := !isSorting;
    }

    /** Reset: stop, then generate a new array of the current size. */
    method ResetSort(draws: seq<real>)
      requires Valid()
      requires ValidDraws(draws) && |draws| == arraySize
      modifies this
      ensures Valid()
      ensures State() == Generated(ArrayFromDraws(draws), false)
      ensures speed == old(speed) && arraySize == old(arraySize)
    {
      isSorting := false;
      GenerateArray(draws);
    }

    method IncreaseSpeed()
      requires Valid()
      modifies this
      ensures Valid()
      ensures speed == FasterSpeed(old(speed))
      ensures State() == old(State()) && arraySize == old(arraySize)
    {
      speed := FasterSpeed(speed);
    }

    method DecreaseSpeed()
      requires Valid()
      modifies this
      ensures Valid()
      ensures speed == SlowerSpeed(old(speed))
      ensures State() == old(State()) && arraySize == old(arraySize)
    {
      speed := SlowerSpeed(speed);
    }

    /** A size change regenerates the array, from draws for the new size,
        but only when the clamped size differs from the old one. */
    method IncreaseSize(draws: seq<real>)
      requires Valid()
      requires ValidDraws(draws) && |draws| == LargerSize(arraySize)
      modifies this
      ensures Valid()
      ensures arraySize == LargerSize(old(arraySize)) && speed == old(speed)
      ensures State() == if arraySize == old(arraySize) then old(State())
                         else Generated(ArrayFromDraws(draws), old(isSorting))
    {
      var size := LargerSize(arraySize);
      if size != arraySize {
        arraySize := size;
        GenerateArray(draws);
      }
    }

    method DecreaseSize(draws: seq<real>)
      requires Valid()
      requires ValidDraws(draws) && |draws| == SmallerSize(arraySize)
      modifies this
      ensures Valid()
      ensures arraySize == SmallerSize(old(arraySize)) && speed == old(speed)
      ensures State() == if arraySize == old(arraySize) then old(State())
                         else Generated(ArrayFromDraws(draws), old(isSorting))
    {
      var size := SmallerSize(arraySize);
      if size != arraySize {
        arraySize := size;
        GenerateArray(draws);
      }
    }
  }
}
