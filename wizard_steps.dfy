/** The three-step wizard (post caption, comments, review) shared by both
    annotation forms and by the older server-rendered form: Next stops at
    the last step, Back stops at the first. */
module Steps {

  /** The number of steps; the steps are numbered 0 to LastStep. */
  const StepCount: int := 3

  const LastStep: int := StepCount - 1

  predicate InRange(step: int) {
    0 <= step <= LastStep
  }

  /** `Math.min(step + 1, LastStep)`. */
  function Next(step: int): (r: int)
    ensures step < LastStep ==> r == step + 1
    ensures step >= LastStep ==> r == LastStep
    ensures InRange(step) ==> InRange(r)
  {
    if step + 1 < LastStep then step + 1 else LastStep
  }

  /** `Math.max(step - 1, 0)`. */
  function Back(step: int): (r: int)
    ensures step > 0 ==> r == step - 1
    ensures step <= 0 ==> r == 0
    ensures InRange(step) ==> InRange(r)
  {
    if step - 1 > 0 then step - 1 else 0
  }

  /** Back undoes Next everywhere but at the last step, and Next undoes Back
      everywhere but at the first. */
  lemma NextBackInverse(step: int)
    ensures 0 <= step < LastStep ==> Back(Next(step)) == step
    ensures 0 < step <= LastStep ==> Next(Back(step)) == step
    ensures Next(LastStep) == LastStep && Back(0) == 0
  {
  }
}
