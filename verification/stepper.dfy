/** The year stepper behind the "Previous Year" / "Next Year" buttons: the
    slider index moves by one and wraps around at both ends of 0..21. */
module Stepper {

  const LastIndex: int := 21

  /** A slider position; the slider's own bounds keep it in 0..21. */
  type YearIndex = i: int | 0 <= i <= LastIndex

  /** `index++; index = index > 21 ? 0 : index`. */
  function Forward(i: YearIndex): (j: YearIndex)
    ensures j == (i + 1) % (LastIndex + 1)
  {
    var n := i + 1;
    if n > LastIndex then 0 else n
  }

  /** `index--; index = index < 0 ? 21 : index`. */
  function Reverse(i: YearIndex): (j: YearIndex)
    ensures j == (i + LastIndex) % (LastIndex + 1)
  {
    var n := i - 1;
    if n < 0 then LastIndex else n
  }

  /** The two buttons undo each other, and wrap at the ends. */
  lemma StepsAreInverse(i: YearIndex)
    ensures Forward(Reverse(i)) == i
    ensures Reverse(Forward(i)) == i
    ensures Forward(LastIndex) == 0 && Reverse(0) == LastIndex
  {
  }

  /** The index after `n` presses of "Next Year". */
  function Advance(i: YearIndex, n: nat): YearIndex {
    if n == 0 then i else Forward(Advance(i, n - 1))
  }

  /** Pressing "Next Year" n times moves n positions around the 22-year cycle. */
  lemma {:induction false} AdvanceIsModular(i: YearIndex, n: nat)
    ensures Advance(i, n) == (i + n) % (LastIndex + 1)
  {
    if n > 0 {
      AdvanceIsModular(i, n - 1);
    }
  }

  /** Twenty-two presses bring the slider back to where it started, and no
      smaller positive number of presses does. */
  lemma FullCycle(i: YearIndex, n: nat)
    requires 0 < n <= LastIndex + 1
    ensures Advance(i, n) == i <==> n == LastIndex + 1
  {
    AdvanceIsModular(i, n);
    if i + n <= LastIndex {
      assert (i + n) % (LastIndex + 1) == i + n;
    } else {
      assert (i + n) % (LastIndex + 1) == i + n - (LastIndex + 1);
    }
  }
}
