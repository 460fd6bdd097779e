/** The control surface's two clamped settings: the tick interval in
    milliseconds and the number of bars. Each button moves a setting by one
    step and clamps it at the end of its range. */
module Controls {

  const MinSpeed: int := 100
  const MaxSpeed: int := 1000
  const SpeedStep: int := 100
  const DefaultSpeed: int := 500

  const MinSize: int := 5
  const MaxSize: int := 50
  const SizeStep: int := 5
  const DefaultSize: int := 10

  /** A tick interval the controls can reach from the default. */
  predicate ValidSpeed(ms: int) {
    MinSpeed <= ms <= MaxSpeed && ms % SpeedStep == 0
  }

  /** An array size the controls can reach from the default. */
  predicate ValidSize(size: int) {
    MinSize <= size <= MaxSize && size % SizeStep == 0
  }

  /** "Faster": a shorter interval, never below MinSpeed. */
  function FasterSpeed(ms: int): (r: int)
    ensures MinSpeed <= r
    ensures ValidSpeed(ms) ==> ValidSpeed(r) && r <= ms
    ensures r == ms <==> ms == MinSpeed
  {
    if ms - SpeedStep > MinSpeed then ms - SpeedStep else MinSpeed
  }

  /** "Slower": a longer interval, never above MaxSpeed. */
  function SlowerSpeed(ms: int): (r: int)
    ensures r <= MaxSpeed
    ensures ValidSpeed(ms) ==> ValidSpeed(r) && ms <= r
    ensures r == ms <==> ms == MaxSpeed
  {
    if ms + SpeedStep < MaxSpeed then ms + SpeedStep else MaxSpeed
  }

  /** "Increase size": five more bars, never above MaxSize. */
  function LargerSize(size: int): (r: int)
    ensures r <= MaxSize
    ensures ValidSize(size) ==> ValidSize(r) && size <= r
    ensures r == size <==> size == MaxSize
  {
    if size + SizeStep < MaxSize then size + SizeStep else MaxSize
  }

  /** "Decrease size": five fewer bars, never below MinSize. */
  function SmallerSize(size: int): (r: int)
    ensures MinSize <= r
    ensures ValidSize(size) ==> ValidSize(r) && r <= size
    ensures r == size <==> size == MinSize
  {
    if size - SizeStep > MinSize then size - SizeStep else MinSize
  }

  /** Away from the bound they clamp at, the two speed buttons undo each other. */
  lemma SpeedButtonsUndo(ms: int)
    requires ValidSpeed(ms)
    ensures ms != MinSpeed ==> SlowerSpeed(FasterSpeed(ms)) == ms
    ensures ms != MaxSpeed ==> FasterSpeed(SlowerSpeed(ms)) == ms
  {
  }

  /** Away from the bound they clamp at, the two size buttons undo each other. */
  lemma SizeButtonsUndo(size: int)
    requires ValidSize(size)
    ensures size != MaxSize ==> SmallerSize(LargerSize(size)) == size
    ensures size != MinSize ==> LargerSize(SmallerSize(size)) == size
  {
  }
}
