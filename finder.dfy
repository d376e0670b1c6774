/**
 * The quiz step sequencer of `CasinoFinder` (assets/js/casino-finder.js):
 * the current step index and the answers map, changed in place by the three
 * transitions an option click, the back button and the reset button fire.
 * Rendering is not modelled; `completed` records that the last transition
 * put the loading screen up (and, once its timers run out, the results).
 */
module Finder {
  import opened FinderData
  import Scoring
  import Ranking

  datatype Option<T> = None | Some(value: T)

  class CasinoFinder {
    const steps: seq<Step>
    const casinos: seq<Scoring.Casino>
    var currentStep: nat
    var answers: map<string, string>
    var completed: bool

    /** The current step is always one of the configured steps. */
    ghost predicate Valid()
      reads this
    {
      0 < |steps| && currentStep < |steps|
    }

    /** Every answer is filed under the id of a configured step. */
    ghost predicate KeysAreStepIds()
      reads this
    {
      forall k :: k in answers ==> k in Ids(steps)
    }

    /** A new quiz starts at the first step with no answers. The first
        render reads the first step, so there must be one. */
    constructor (steps: seq<Step>, casinos: seq<Scoring.Casino>)
      requires |steps| > 0
      ensures Valid() && KeysAreStepIds()
      ensures this.steps == steps && this.casinos == casinos
      ensures currentStep == 0 && answers == map[] && !completed
    {
      this.steps := steps;
      this.casinos := casinos;
      currentStep := 0;
      answers := map[];
      completed := false;
    }

    /** The value shown as selected on the current step, if any. */
    function SelectedValue(): Option<string>
      reads this
      requires Valid()
    {
      if Scoring.Answered(answers, steps[currentStep].id) then Some(answers[steps[currentStep].id]) else None
    }

    /** Records the answer under `stepId` (overwriting any earlier one), then
        advances to the next step or, on the last step, completes the quiz. */
    method HandleOptionClick(stepId: string, value: string)
      requires Valid()
      modifies this
      ensures Valid()
      ensures answers == old(answers)[stepId := value]
      ensures old(currentStep) < |steps| - 1 ==> currentStep == old(currentStep) + 1 && !completed
      ensures old(currentStep) == |steps| - 1 ==> currentStep == old(currentStep) && completed
      ensures old(KeysAreStepIds()) && stepId == steps[old(currentStep)].id ==> KeysAreStepIds()
    {
      answers := answers[stepId := value];
      if currentStep < |steps| - 1 {
        currentStep := currentStep + 1;
        completed := false;
      } else {
        completed := true;
      }
    }

    /** Back one step, keeping every answer; nothing happens on the first step. */
    method GoToPreviousStep()
      requires Valid()
      modifies this
      ensures Valid()
      ensures answers == old(answers)
      ensures old(currentStep) == 0 ==> currentStep == 0 && completed == old(completed)
      ensures old(currentStep) > 0 ==> currentStep == old(currentStep) - 1 && !completed
      ensures old(KeysAreStepIds()) ==> KeysAreStepIds()
    {
      if currentStep > 0 {
        currentStep := currentStep - 1;
        completed := false;
      }
    }

    /** From any state: first step, no answers, quiz running. */
    method Reset()
      modifies this
      ensures Valid() == (|steps| > 0) && KeysAreStepIds()
      ensures currentStep == 0 && answers == map[] && !completed
    {
      currentStep := 0;
      answers := map[];
      completed := false;
    }

    /** The recommendation for the answers collected so far. */
    method CalculateResults() returns (top: seq<Scoring.Casino>)
      ensures top == Ranking.TopMatches(casinos, answers)
      ensures |top| <= 3
      ensures forall i :: 0 <= i < |top| ==> top[i] in casinos && Scoring.Score(top[i], answers) > 0.0
    {
      top := Ranking.TopMatches(casinos, answers);
    }
  }

  /** Starting over and answering every step in order completes the quiz
      with exactly one answer per step. */
  method AnswerEveryStep(f: CasinoFinder, values: seq<string>)
    requires f.Valid()
    requires |values| == |f.steps|
    requires Distinct(Ids(f.steps))
    modifies f
    ensures f.Valid() && f.completed && f.currentStep == |f.steps| - 1
    ensures f.answers.Keys == FirstIds(f.steps, |f.steps|)
    ensures |f.answers| == |f.steps|
    ensures forall i :: 0 <= i < |f.steps| ==> f.answers[f.steps[i].id] == values[i]
    ensures f.KeysAreStepIds()
  {
    f.Reset();
    var steps, n := f.steps, |f.steps|;
    var i := 0;
    while i < n
      invariant 0 <= i <= n
      invariant f.Valid()
      invariant i < n ==> f.currentStep == i
      invariant i == n ==> f.currentStep == i - 1 && f.completed
      invariant f.answers.Keys == FirstIds(steps, i)
      invariant |f.answers| == i
      invariant forall j :: 0 <= j < i ==> steps[j].id in f.answers && f.answers[steps[j].id] == values[j]
    {
      var id := steps[i].id;
      FirstIdsExclude(steps, i);
      FirstIdsNext(steps, i);
      f.HandleOptionClick(id, values[i]);
      forall j | 0 <= j < i
        ensures steps[j].id in f.answers && f.answers[steps[j].id] == values[j]
      {
        assert steps[j].id in FirstIds(steps, i);
      }
      i := i + 1;
    }
    forall k | k in f.answers ensures k in Ids(steps) {
      var j :| 0 <= j < n && steps[j].id == k;
      assert Ids(steps)[j] == k;
    }
  }

  /** The ids of the first `n` steps. */
  ghost function FirstIds(steps: seq<Step>, n: nat): set<string>
    requires n <= |steps|
  {
    set j | 0 <= j < n :: steps[j].id
  }

  lemma FirstIdsNext(steps: seq<Step>, n: nat)
    requires n < |steps|
    ensures FirstIds(steps, n + 1) == FirstIds(steps, n) + {steps[n].id}
  {
  }

  lemma FirstIdsExclude(steps: seq<Step>, n: nat)
    requires n < |steps| && Distinct(Ids(steps))
    ensures steps[n].id !in FirstIds(steps, n)
  {
    forall j | 0 <= j < n ensures steps[j].id != steps[n].id {
      assert Ids(steps)[j] != Ids(steps)[n];
    }
  }

  /** Answering a step and then going back shows that answer as selected again. */
  method AnswerThenGoBack(f: CasinoFinder, value: string)
    requires f.Valid() && f.currentStep < |f.steps| - 1
    requires value != ""
    modifies f
    ensures f.Valid() && f.currentStep == old(f.currentStep)
    ensures f.SelectedValue() == Some(value)
    ensures !f.completed
  {
    f.HandleOptionClick(f.steps[f.currentStep].id, value);
    f.GoToPreviousStep();
  }
}
