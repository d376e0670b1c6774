/**
 * The state rules inside `CasinoFinder.renderProgressBar`: each quiz step
 * is completed, active or upcoming, a trailing "Best Match" unit follows,
 * and the bar reports `aria-valuenow` out of `aria-valuemax`. All of it is a
 * function of the step count, the current step and whether results show.
 */
module Progress {

  datatype StepState = Completed | Active | Upcoming

  /** The state of step `i`. */
  function StateOf(i: nat, currentStep: nat, showResults: bool): StepState {
    if showResults || i < currentStep then Completed
    else if i == currentStep then Active
    else Upcoming
  }

  /** The states of all steps, in step order. */
  function States(stepCount: nat, currentStep: nat, showResults: bool): seq<StepState> {
    seq(stepCount, i requires 0 <= i => StateOf(i, currentStep, showResults))
  }

  /** The state of the trailing "Best Match" unit. */
  function BestMatchState(showResults: bool): StepState {
    if showResults then Active else Upcoming
  }

  /** `aria-valuemax`: one unit per step plus the result unit. */
  function ValueMax(stepCount: nat): nat {
    stepCount + 1
  }

  /** `aria-valuenow`. */
  function ValueNow(stepCount: nat, currentStep: nat, showResults: bool): nat {
    if showResults then ValueMax(stepCount) else currentStep + 1
  }

  /** The number of finished segments the bar fills. */
  function CompletedSegments(stepCount: nat, currentStep: nat, showResults: bool): nat {
    if showResults then ValueMax(stepCount) - 1 else currentStep
  }

  /** How often `st` occurs in `s`. */
  function Count(s: seq<StepState>, st: StepState): nat {
    if s == [] then 0
    else Count(s[..|s| - 1], st) + (if s[|s| - 1] == st then 1 else 0)
  }

  function Weight(st: StepState): nat {
    match st
    case Completed => 2
    case Active => 1
    case Upcoming => 0
  }

  /** No step is skipped: completed steps come first, then at most the
      active one, then the upcoming ones. */
  lemma StatesInOrder(stepCount: nat, currentStep: nat, showResults: bool)
    ensures var r := States(stepCount, currentStep, showResults);
      && (forall i, j :: 0 <= i < j < |r| ==> Weight(r[i]) >= Weight(r[j]))
      && (forall i, j :: 0 <= i < j < |r| && r[i] == Active ==> r[j] == Upcoming)
  {
  }

  lemma {:induction false} CountStates(n: nat, currentStep: nat, showResults: bool)
    ensures Count(States(n, currentStep, showResults), Completed) ==
      if showResults then n else if currentStep < n then currentStep else n
    ensures Count(States(n, currentStep, showResults), Active) ==
      if !showResults && currentStep < n then 1 else 0
  {
    if n > 0 {
      CountStates(n - 1, currentStep, showResults);
      assert States(n, currentStep, showResults)[..n - 1] == States(n - 1, currentStep, showResults);
    }
  }

  /** While the quiz runs (`currentStep` a step index) the counts of the bar
      agree: the value is one more than the completed steps, the filled
      segments are the completed steps, exactly one step is active unless
      results show, the value stays within 1 .. `aria-valuemax`, and the
      "Best Match" unit is active exactly when the value is at the maximum. */
  lemma ProgressAgrees(stepCount: nat, currentStep: nat, showResults: bool)
    requires currentStep < stepCount
    ensures var r := States(stepCount, currentStep, showResults);
      && ValueNow(stepCount, currentStep, showResults) == Count(r, Completed) + 1
      && CompletedSegments(stepCount, currentStep, showResults) == Count(r, Completed)
      && Count(r, Active) == (if showResults then 0 else 1)
      && 1 <= ValueNow(stepCount, currentStep, showResults) <= ValueMax(stepCount)
      && (ValueNow(stepCount, currentStep, showResults) == ValueMax(stepCount) <==> showResults)
      && (BestMatchState(showResults) == Active <==>
          ValueNow(stepCount, currentStep, showResults) == ValueMax(stepCount))
  {
    CountStates(stepCount, currentStep, showResults);
  }
}
