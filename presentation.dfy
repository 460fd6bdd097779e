/** What the component shows for a state: the colour of each bar, the
    pointer labels above it, and the status line. */
module Presentation {
  import opened StepEngine

  datatype Color = Green | Red | Blue | Yellow | Gray

  /** The CSS colour each bar colour is drawn in. */
  function Hex(c: Color): (r: string)
    ensures |r| == 7 && r[0] == '#'
  {
    match c
    case Green => "#4ade80"
    case Red => "#f87171"
    case Blue => "#60a5fa"
    case Yellow => "#fbbf24"
    case Gray => "#94a3b8"
  }

  /** The five colours are drawn in five different CSS colours. */
  lemma HexDistinct(c1: Color, c2: Color)
    ensures Hex(c1) == Hex(c2) <==> c1 == c2
  {
    if c1 != c2 {
      assert Hex(c1)[1..3] != Hex(c2)[1..3] || Hex(c1)[3..] != Hex(c2)[3..];
    }
  }

  /** A bar's colour: finalized, else the minimum so far, else the current
      position, else the position being compared, else the default. */
  function BarColor(s: SortState, index: int): (r: Color)
    ensures r == Green <==> index in s.sortedIndices
    ensures r == Gray <==>
      index !in s.sortedIndices && index != s.minIndex && index != s.currentIndex && index != s.comparingIndex
  {
    if index in s.sortedIndices then Green
    else if index == s.minIndex then Red
    else if index == s.currentIndex then Blue
    else if index == s.comparingIndex then Yellow
    else Gray
  }

  /** The pointer labels drawn above a bar: "i", "min" and "j". The "min"
      label is left off the bar that already carries "i". */
  datatype Labels = Labels(current: bool, min: bool, comparing: bool)

  function BarLabels(s: SortState, index: int): (r: Labels)
    ensures !(r.current && r.min)
    ensures r.current || r.min <==> index == s.currentIndex || index == s.minIndex
  {
    Labels(index == s.currentIndex, index == s.minIndex && index != s.currentIndex, index == s.comparingIndex)
  }

  /** The status line, with the positions it quotes. */
  datatype Status =
    | StartingIteration
    | Swapping(current: int, min: int)
    | AlreadyInPlace(current: int)
    | Comparing(min: int, comparing: int)
    | FullySorted
    | PressStart

  function StatusLine(s: SortState): (r: Status)
    ensures r in {FullySorted, PressStart} <==> !s.isSorting
    ensures r.Swapping? ==> r.current != r.min
  {
    if s.isSorting then
      if s.comparingIndex == NoIndex then StartingIteration
      else if s.comparingIndex >= |s.arr| then
        if s.minIndex != s.currentIndex then Swapping(s.currentIndex, s.minIndex)
        else AlreadyInPlace(s.currentIndex)
      else Comparing(s.minIndex, s.comparingIndex)
    else if |s.sortedIndices| == |s.arr| then FullySorted
    else PressStart
  }

  /** In a reachable state, the bar colours partition the positions:
      green exactly for the finalized prefix, red exactly for the minimum of
      the pass, blue for the current position only while the minimum has
      moved off it, yellow exactly for the position being compared. */
  lemma BarColorMeaning(s: SortState, index: int)
    requires Inv(s) && 0 <= index < |s.arr|
    ensures BarColor(s, index) == Green <==> index < |s.sortedIndices|
    ensures BarColor(s, index) == Red <==> InPass(s) && index == s.minIndex
    ensures BarColor(s, index) == Blue <==> InPass(s) && index == s.currentIndex && s.minIndex != s.currentIndex
    ensures BarColor(s, index) == Yellow <==> InPass(s) && index == s.comparingIndex
    ensures BarColor(s, index) == Gray <==>
      index >= |s.sortedIndices| && (InPass(s) ==> index != s.minIndex && index != s.currentIndex && index != s.comparingIndex)
  {
    var k := |s.sortedIndices|;
    assert index in s.sortedIndices <==> index < k by {
      if index < k {
        assert s.sortedIndices[index] == index;
      }
    }
  }

  /** The "min" label sits exactly on a red bar that is not the current
      position, the "j" label exactly on the yellow bar; between passes no
      bar carries a label. */
  lemma LabelsMeaning(s: SortState, index: int)
    requires Inv(s) && 0 <= index < |s.arr|
    ensures BarLabels(s, index).min <==> BarColor(s, index) == Red && index != s.currentIndex
    ensures BarLabels(s, index).current ==> BarColor(s, index) in {Red, Blue}
    ensures BarLabels(s, index).comparing <==> BarColor(s, index) == Yellow
    ensures Idle(s) ==> BarLabels(s, index) == Labels(false, false, false)
  {
    BarColorMeaning(s, index);
  }

  /** In a reachable state the status line announces what the next tick
      does: a pass start (or completion, once every position is final),
      the comparison it names, the swap it names, or a finalize without a
      swap; when not running it reports "fully sorted" exactly when every
      position is final, and then the array is sorted. */
  lemma StatusAnnouncesNextTick(s: SortState)
    requires Inv(s)
    ensures StatusLine(s) == StartingIteration <==> NextMove(s) in {StartPass, Complete}
    ensures StatusLine(s).Comparing? <==> NextMove(s) == Compare
    ensures StatusLine(s).Comparing? ==>
      StatusLine(s).min == s.minIndex && StatusLine(s).comparing == s.comparingIndex &&
      Step(s).comparisons == s.comparisons + 1 && Step(s).arr == s.arr
    ensures StatusLine(s).Swapping? <==> NextMove(s) == Finalize && Step(s).swaps == s.swaps + 1
    ensures StatusLine(s).Swapping? ==>
      Step(s).arr == SwapAt(s.arr, StatusLine(s).current, StatusLine(s).min)
    ensures StatusLine(s).AlreadyInPlace? <==> NextMove(s) == Finalize && Step(s).swaps == s.swaps
    ensures StatusLine(s).AlreadyInPlace? ==> Step(s).arr == s.arr
    ensures StatusLine(s) == FullySorted <==> !s.isSorting && |s.sortedIndices| == |s.arr|
    ensures StatusLine(s) == FullySorted ==> Sorted(s.arr)
    ensures StatusLine(s) == PressStart <==> !s.isSorting && |s.sortedIndices| < |s.arr|
  {
  }
}
