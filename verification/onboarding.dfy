/** The first-run tutorial (components/OnboardingOverlay.tsx): four pages,
    a button that advances and, on the last page, completes. */
module Onboarding {

  /** The number of tutorial pages. */
  const StepCount: nat := 4

  /** What one press does: the page shown next and whether the overlay
      completed. */
  datatype Next = Next(step: nat, completed: bool)

  /** `handleNext`: advance while a page remains, otherwise complete and
      stay on the last page. */
  function HandleNext(step: nat): (r: Next)
    ensures r.completed <==> step >= StepCount - 1
    ensures !r.completed ==> r.step == step + 1 && r.step < StepCount
    ensures r.completed ==> r.step == step
  {
    if step < StepCount - 1 then Next(step + 1, false) else Next(step, true)
  }

  /** The label of the button on a page. */
  function ButtonLabel(step: nat): (r: string)
    ensures r == "INITIALIZE" <==> HandleNext(step).completed && step == StepCount - 1
  {
    if step == StepCount - 1 then "INITIALIZE" else "NEXT >>"
  }

  /** The page after `k` presses from the first page, and whether some press
      completed the overlay. */
  function Presses(k: nat): (r: Next)
    ensures r.step < StepCount
  {
    if k == 0 then Next(0, false)
    else
      var prev := Presses(k - 1);
      if prev.completed then prev
      else HandleNext(prev.step)
  }

  /** Pressing walks the pages in order and completes on exactly the fourth
      press, with the last page's button reading INITIALIZE just before. */
  lemma {:induction false} PressesWalkPages(k: nat)
    ensures Presses(k).step == if k < StepCount then k else StepCount - 1
    ensures Presses(k).completed <==> k >= StepCount
    ensures k == StepCount - 1 ==> ButtonLabel(Presses(k).step) == "INITIALIZE"
  {
    if k > 0 {
      PressesWalkPages(k - 1);
    }
  }
}
