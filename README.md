# Selection sort visualizer: the step engine, verified

This project models the `SelectionSort` React component of a selection-sort
visualizer and proves what its animation does. The component keeps its sort in
state fields:

- `array`, the bar values
- `sortedIndices`, the finalized positions
- three pointers, `currentIndex`, `comparingIndex` and `minIndex`, each `-1` for "none"
- the running flag `isSorting`
- the counters `iterations`, `comparisons` and `swaps`

A timer calls `selectionSort` once per tick. Each call makes exactly one move:

- nothing while paused
- completion once every position is final
- the start of a pass
- one comparison
- the end of a pass, with at most one swap

Every setter in one call reads the values from before the call, so a tick is a
map from the old state to the new state.

The model has six modules:

- `Controls` (`controls.dfy`): the two clamped settings. These are the tick interval (100 to 1000 ms in steps of 100) and the number of bars (5 to 50 in steps of 5).
- `Generator` (`generator.dfy`): a new array from random draws. Each value is `floor(draw * 100) + 5`, so it lies in [5, 104].
- `StepEngine` (`step_engine.dfy`): the state as a datatype and one tick as the function `Step`, with `t` ticks as `Run`. It also holds the invariant every reachable state keeps and the proof that each tick keeps it.
- `EngineProperties` (`engine_properties.dfy`): what runs of ticks achieve. This covers pausing, exact tick counts to completion, one pass in full, the totals of a completed run, and a worked example.
- `Presentation` (`presentation.dfy`): bar colours, pointer labels and the status line, and what each means in a reachable state.
- `Visualizer` (`visualizer.dfy`): the component as a class whose fields the methods update in place. It has `Tick`, a driver loop `SortToCompletion` that stands for the timer, and the buttons. The sort methods (`Tick`, its four move methods and `SortToCompletion`) are proved against `StepEngine`. `GenerateArray`, `ResetSort` and the constructor are proved against `Generator` and `StepEngine`. `ToggleSorting` is stated directly on the component's fields. The speed and size buttons are proved against `Controls`.

Behaviour of the code that the model keeps:

- The pass at the last position is started and finalized too, with no comparison. A full run of n bars therefore makes n passes, n(n-1)/2 comparisons and at most n-1 swaps.
- From a fresh array with the running flag on, the engine stops after exactly n(n-1)/2 + 2n + 1 ticks.
- Because the comparison is a strict `<`, the minimum chosen is the first one.
- For an array ordered like [5, 3, 8, 1], the code makes 4 passes, 6 comparisons and 2 swaps. The third pass swaps 8 and 5 (`WorkedExample`).
- The status line reads "Starting new iteration..." also on the tick just before completion, because it tests only `comparingIndex`.
- A size change regenerates the array only when the clamped size differs from the old one. The regeneration is keyed on `arraySize`, so it does not touch the running flag.

## Model

| member | source | states |
|---|---|---|
| Controls.FasterSpeed | src/components/SelectionSort.tsx:202-204 | never below 100 ms; from a reachable interval gives a reachable interval no longer than before; leaves the interval unchanged exactly at 100 ms |
| Controls.SlowerSpeed | src/components/SelectionSort.tsx:206-208 | never above 1000 ms; keeps the interval reachable and no shorter; unchanged exactly at 1000 ms |
| Controls.LargerSize | src/components/SelectionSort.tsx:211-213 | never above 50 bars; keeps the size reachable and no smaller; unchanged exactly at 50 |
| Controls.SmallerSize | src/components/SelectionSort.tsx:215-217 | never below 5 bars; keeps the size reachable and no larger; unchanged exactly at 5 |
| Controls.SpeedButtonsUndo | src/components/SelectionSort.tsx:202-208 | away from the bound it clamps at, "faster" followed by "slower" gives back the interval, and the other way round |
| Controls.SizeButtonsUndo | src/components/SelectionSort.tsx:211-217 | away from the bound it clamps at, "larger" followed by "smaller" gives back the size, and the other way round |
| Generator.BarValue | src/components/SelectionSort.tsx:85 | the value v for a draw d in [0, 1) satisfies v-5 <= 100d < v-4 (it is 5 plus the whole part of 100d), and lies in [5, 104] |
| Generator.ArrayFromDraws | src/components/SelectionSort.tsx:85 | one value per draw, each related to its draw as above, all in [5, 104] |
| Generator.InRangeOfPermutation | src/components/SelectionSort.tsx:151-153 | rearranging the values keeps every one of them in [5, 104] |
| StepEngine.Keys | src/components/SelectionSort.tsx:120 | the list 0, 1, ..., n-1 |
| StepEngine.Generated | src/components/SelectionSort.tsx:86-93 | the reset state holds the given values, finalizes nothing, sets no pointer and zeroes every counter; it is reachable (meets the invariant) and keeps the running flag it is given |
| StepEngine.NextMove | src/components/SelectionSort.tsx:112-147 | the move a tick makes, tested in the code's order: paused exactly when not running; a comparison or finalize only while running, with a position left and a pass under way; completion only when every position is finalized. Its moves' meaning is given by Step and StepPreservesInv |
| StepEngine.SwapAt | src/components/SelectionSort.tsx:151-152 | the two positions exchange values and every other position keeps its value |
| StepEngine.SwapAtPermutes | src/components/SelectionSort.tsx:151-153 | a swap keeps the multiset of values |
| StepEngine.Step | src/components/SelectionSort.tsx:111-164 | while paused the tick changes nothing; the array keeps its length; no counter decreases; the array changes only at a finalize that counts one swap; the pointers it reads stay valid positions |
| StepEngine.Run | src/components/SelectionSort.tsx:166-176 | any number of ticks keeps the length and the pointer validity, and no counter decreases |
| StepEngine.StepPermutes | src/components/SelectionSort.tsx:147-154 | a tick keeps the multiset of values |
| StepEngine.RunPermutes | src/components/SelectionSort.tsx:147-154 | any number of ticks keeps the multiset of values |
| StepEngine.StepPreservesInv | src/components/SelectionSort.tsx:111-164 | each tick keeps the invariant: finalized positions are exactly 0..k-1; the first k positions are sorted and none exceeds a later value; between passes all pointers are -1; during a pass currentIndex = k <= minIndex < comparingIndex <= n and minIndex is the first minimum of the scanned range; the counters match the progress |
| StepEngine.CompareKeepsInv | src/components/SelectionSort.tsx:137-146 | a comparison tick extends the scanned range by one and keeps minIndex at its first minimum |
| StepEngine.FinalizeKeepsInv | src/components/SelectionSort.tsx:147-163 | the finalize tick extends the sorted, finalized prefix by one position |
| StepEngine.RunPreservesInv | src/components/SelectionSort.tsx:166-176 | any number of ticks keeps the invariant |
| EngineProperties.RunAdd | src/components/SelectionSort.tsx:166-176 | t ticks followed by u ticks are t+u ticks |
| EngineProperties.RunLast | src/components/SelectionSort.tsx:166-176 | t+1 ticks are t ticks followed by one more |
| EngineProperties.PausedIsFixed | src/components/SelectionSort.tsx:112 | while paused, any number of ticks leaves the state unchanged |
| EngineProperties.PauseResume | src/components/SelectionSort.tsx:179-181 | pausing, letting any number of ticks pass and resuming gives back exactly the paused state |
| EngineProperties.StepCountsDown | src/components/SelectionSort.tsx:117-163 | every running tick brings completion one tick closer; the completing tick leaves the engine stopped, all positions finalized and no pointer set |
| EngineProperties.RunToCompletion | src/components/SelectionSort.tsx:117-125 | from any reachable running state the engine is still running after fewer than TicksLeft ticks and done after exactly that many |
| EngineProperties.DoneState | src/components/SelectionSort.tsx:117-125 | in a completed state the array is sorted, iterations = n, comparisons = n(n-1)/2 and swaps <= n-1 |
| EngineProperties.CompletedRun | src/components/SelectionSort.tsx:111-164 | a run to completion leaves a sorted rearrangement of the values with n passes, n(n-1)/2 comparisons and at most n-1 swaps |
| EngineProperties.PassComparisonsTotal | src/components/SelectionSort.tsx:137-138 | the passes at positions 0..k-1 make k(2n-k-1)/2 comparisons in all |
| EngineProperties.IdleTicksTotal | src/components/SelectionSort.tsx:128-163 | with m positions left between passes, completion takes m(m+3)/2 + 1 ticks |
| EngineProperties.SortFromReset | src/components/SelectionSort.tsx:111-164 | from a fresh array with running on, the engine runs for n(n-1)/2 + 2n + 1 ticks and then stops with a sorted rearrangement of the generated values, n passes, n(n-1)/2 comparisons and at most n-1 swaps |
| EngineProperties.MinPos | src/components/SelectionSort.tsx:137-146 | the position of the first minimum of a range, as the left-to-right scan with a strict comparison finds it |
| EngineProperties.FirstMinUnique | src/components/SelectionSort.tsx:141 | a range has only one first minimum |
| EngineProperties.ScanRest | src/components/SelectionSort.tsx:137-146 | the comparison ticks of a pass leave the array alone, count one comparison each and end with minIndex at the first minimum of the unsorted suffix |
| EngineProperties.CompareStep | src/components/SelectionSort.tsx:137-146 | one comparison tick extends the scan by one position and counts one comparison |
| EngineProperties.StartStep | src/components/SelectionSort.tsx:128-134 | a pass start sets i = k, j = k+1, min = k and counts one pass |
| EngineProperties.FinalizeStep | src/components/SelectionSort.tsx:147-163 | a finalize swaps positions k and minIndex if they differ, counting one swap only then, and finalizes position k |
| EngineProperties.OnePass | src/components/SelectionSort.tsx:128-163 | the pass at k takes n-k+1 ticks, makes n-1-k comparisons, moves the first minimum of the suffix to k by at most one swap and finalizes k; the last pass never swaps |
| EngineProperties.WorkedExample | src/components/SelectionSort.tsx:111-164 | an array ordered like [5, 3, 8, 1] is done after 15 ticks, sorted, with 4 passes, 6 comparisons and 2 swaps |
| Presentation.Hex | src/components/SelectionSort.tsx:194-198 | each colour's CSS literal, a seven-character "#rrggbb" string; HexDistinct shows the five literals differ |
| Presentation.HexDistinct | src/components/SelectionSort.tsx:194-198 | two colours get the same CSS literal exactly when they are the same colour |
| Presentation.BarColor | src/components/SelectionSort.tsx:193-199 | getBarColor's precedence: green exactly for a finalized index, gray exactly for an index that is neither finalized nor any pointer; BarColorMeaning gives each colour's meaning in a reachable state |
| Presentation.BarLabels | src/components/SelectionSort.tsx:29-46 | the "i", "min" and "j" label conditions: "i" and "min" never sit on the same bar, and one of them is shown exactly at the current or minimum position; LabelsMeaning relates the labels to the colours |
| Presentation.StatusLine | src/components/SelectionSort.tsx:266-280 | the status-line case split: "fully sorted" or "press start" exactly when not running, and a swap message always names two different positions; StatusAnnouncesNextTick gives its meaning |
| Presentation.BarColorMeaning | src/components/SelectionSort.tsx:193-199 | in a reachable state a bar is green exactly when finalized, red exactly at the minimum of a pass, blue exactly at the current position once the minimum has moved off it, yellow exactly at the compared position, gray otherwise |
| Presentation.LabelsMeaning | src/components/SelectionSort.tsx:29-46 | the "min" label sits exactly on a red bar other than the current position; the "i" label sits on a red or blue bar; the "j" label sits exactly on the yellow bar; between passes no bar has a label |
| Presentation.StatusAnnouncesNextTick | src/components/SelectionSort.tsx:266-280 | the status line announces the next tick: a pass start or completion, the comparison it names, the swap it names, or a finalize without a swap; when stopped it says "fully sorted" exactly when every position is final, and then the array is sorted |
| Visualizer.StepKeepsValues | src/components/SelectionSort.tsx:147-154 | a tick keeps the invariant, the number of bars and the range of every value |
| Visualizer.SelectionSortVisualizer.constructor | src/components/SelectionSort.tsx:70-99 | mounting starts at 500 ms and 10 bars and generates the first array from the draws, not running |
| Visualizer.SelectionSortVisualizer.GenerateArray | src/components/SelectionSort.tsx:84-94 | the array has one value in [5, 104] per draw; nothing is finalized, no pointer is set and every counter is 0; the running flag and settings are unchanged |
| Visualizer.SelectionSortVisualizer.Tick | src/components/SelectionSort.tsx:111-164 | the fields after the tick are exactly Step of the fields before it, and the component stays valid |
| Visualizer.SelectionSortVisualizer.CompleteSort | src/components/SelectionSort.tsx:117-125 | the completion move, equal to Step |
| Visualizer.SelectionSortVisualizer.StartIteration | src/components/SelectionSort.tsx:128-134 | the pass-start move, equal to Step |
| Visualizer.SelectionSortVisualizer.CompareNext | src/components/SelectionSort.tsx:137-146 | the comparison move, equal to Step |
| Visualizer.SelectionSortVisualizer.FinishPass | src/components/SelectionSort.tsx:147-163 | the finalize move, with its swap made on the array field, equal to Step |
| Visualizer.SelectionSortVisualizer.SortToCompletion | src/components/SelectionSort.tsx:166-176 | ticking while running stops after exactly TicksLeft ticks, with the array a sorted rearrangement of the old one, every position finalized, n passes, n(n-1)/2 comparisons and at most n-1 swaps |
| Visualizer.SelectionSortVisualizer.ToggleSorting | src/components/SelectionSort.tsx:179-181 | flips the running flag and changes nothing else |
| Visualizer.SelectionSortVisualizer.ResetSort | src/components/SelectionSort.tsx:184-190 | stops the engine and generates a fresh array of the current size |
| Visualizer.SelectionSortVisualizer.IncreaseSpeed | src/components/SelectionSort.tsx:202-204 | the interval becomes FasterSpeed of the old one and the sort state is unchanged |
| Visualizer.SelectionSortVisualizer.DecreaseSpeed | src/components/SelectionSort.tsx:206-208 | the interval becomes SlowerSpeed of the old one and the sort state is unchanged |
| Visualizer.SelectionSortVisualizer.IncreaseSize | src/components/SelectionSort.tsx:211-213 | the size becomes LargerSize of the old one; the array is regenerated for the new size only if the size changed, and the running flag is kept |
| Visualizer.SelectionSortVisualizer.DecreaseSize | src/components/SelectionSort.tsx:215-217 | the size becomes SmallerSize of the old one; the array is regenerated for the new size only if the size changed, and the running flag is kept |

## Left out

- Rendering is not modelled: the JSX, the `Bar` component's layout and styling, the legend and the instructional text. The model keeps only the bar colours, the pointer-label conditions and the status line.
- The bar width `Math.max(20, 500 / array.length - 4)` is floating-point layout arithmetic and is not modelled.
- `window.setTimeout`, `clearTimeout` and the effect lifecycles are not modelled. The timer is the loop in `SortToCompletion`, which calls `Tick` while running. The speed is stored and clamped but does not affect the result. A button press between ticks is a method call between two `Tick` calls.
- Cancelling the pending timeout on pause or reset is not modelled separately. A tick that finds the running flag off does nothing, which gives the same state.
- `Math.random` is not modelled: the draws are a parameter, as reals in [0, 1). Arithmetic on them is exact real arithmetic, not IEEE double arithmetic.
- The status line is a datatype that carries the positions the message quotes, not the message text.
- `src/App.tsx` is a layout wrapper with no logic and is not part of this model.
- StepEngine.Step: requires that the pointers it reads are valid positions (`WellFormed`). Every reachable state meets this. The code would read `undefined` from an invalid position, and that case is not modelled.
- Visualizer.SelectionSortVisualizer.Tick: requires the reachable-state invariant (`Valid`), which every constructor and method establishes and keeps.
