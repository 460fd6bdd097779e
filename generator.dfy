/** The array generator: one bar per random draw, each value
    floor(draw * 100) + 5 for a draw in [0, 1). */
module Generator {

  const MinValue: int := 5
  const MaxValue: int := 104

  /** Draws as the random source gives them: reals in [0, 1). */
  predicate ValidDraws(draws: seq<real>) {
    forall i :: 0 <= i < |draws| ==> 0.0 <= draws[i] < 1.0
  }

  /** Every bar value lies in the generator's range. */
  predicate InRange(values: seq<int>) {
    forall v :: v in values ==> MinValue <= v <= MaxValue
  }

  /** The bar for one draw: 5 plus the whole part of draw * 100. */
  function BarValue(d: real): (v: int)
    requires 0.0 <= d < 1.0
    ensures (v - 5) as real <= d * 100.0 < (v - 4) as real
    ensures MinValue <= v <= MaxValue
  {
    (d * 100.0).Floor + 5
  }

  /** The values of a freshly generated array, one per draw. */
  function ArrayFromDraws(draws: seq<real>): (values: seq<int>)
    requires ValidDraws(draws)
    ensures |values| == |draws|
    ensures forall i :: 0 <= i < |draws| ==>
      (values[i] - 5) as real <= draws[i] * 100.0 < (values[i] - 4) as real
    ensures InRange(values)
  {
    seq(|draws|, i requires 0 <= i < |draws| => BarValue(draws[i]))
  }

  /** Rearranging the values keeps them in range. */
  lemma InRangeOfPermutation(a: seq<int>, b: seq<int>)
    requires InRange(a) && multiset(a) == multiset(b)
    ensures InRange(b)
  {
    forall v | v in b ensures MinValue <= v <= MaxValue {
      assert v in multiset(b);
      assert v in multiset(a);
      assert v in a;
    }
  }
}
