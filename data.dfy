/**
 * `Casino_Finder_Data::get_steps`: the ordered quiz steps and their options,
 * and the well-formedness the sequencer and the scorer rely on.
 */
module FinderData {
  import Scoring

  /** One selectable answer of a step. */
  datatype Choice = Choice(caption: string, value: string, icon: string)

  /** One question screen. */
  datatype Step = Step(id: string, title: string, question: string, options: seq<Choice>)

  const Steps: seq<Step> := [
    Step("casino-type", "Type of Casino", "What type of casino are you looking for?", [
      Choice("Online Casino", "online", "\U{1F3B0}"),
      Choice("Sweepstakes", "sweepstakes", "\U{1F39F}\U{FE0F}"),
      Choice("Social Casino", "social", "\U{1F465}"),
      Choice("No Deposit", "no-deposit", "\U{1F381}"),
      Choice("Fast Paying", "fast-paying", "\U{26A1}")]),
    Step("game", "Preferred Game", "What type of game do you prefer?", [
      Choice("Slots", "slots", "\U{1F3B0}"),
      Choice("Blackjack", "blackjack", "\U{1F0CF}"),
      Choice("Live Dealer", "live-dealer", "\U{1F3A5}"),
      Choice("Table Games", "table-games", "\U{1F3B2}")]),
    Step("banking", "Deposit Method", "What is your preferred deposit method?", [
      Choice("Credit Card", "credit-card", "\U{1F4B3}"),
      Choice("PayPal", "paypal", "\U{1F17F}\U{FE0F}"),
      Choice("Crypto", "crypto", "\U{20BF}"),
      Choice("Apple Pay / Google Pay", "mobile-wallet", "\U{1F4F1}")]),
    Step("payout", "Payout Speed", "How fast do you want your payouts?", [
      Choice("Instant", "instant", "\U{26A1}"),
      Choice("1\U{2013}2 Days", "1-2-days", "\U{1F550}"),
      Choice("Up to 1 Week", "up-to-1-week", "\U{1F4C5}")])
  ]

  function Ids(steps: seq<Step>): (r: seq<string>)
    ensures |r| == |steps| && forall i :: 0 <= i < |steps| ==> r[i] == steps[i].id
  {
    if steps == [] then [] else [steps[0].id] + Ids(steps[1..])
  }

  function Values(options: seq<Choice>): (r: seq<string>)
    ensures |r| == |options| && forall i :: 0 <= i < |options| ==> r[i] == options[i].value
  {
    if options == [] then [] else [options[0].value] + Values(options[1..])
  }

  predicate Distinct(xs: seq<string>) {
    forall i, j :: 0 <= i < j < |xs| ==> xs[i] != xs[j]
  }

  /** Unique step ids, and per step a non-empty option list with unique values. */
  predicate WellFormed(steps: seq<Step>) {
    && Distinct(Ids(steps))
    && forall i :: 0 <= i < |steps| ==> |steps[i].options| > 0 && Distinct(Values(steps[i].options))
  }

  /** Four steps, in the order casino type, game, banking, payout. */
  lemma StepOrder()
    ensures Ids(Steps) == ["casino-type", "game", "banking", "payout"]
  {
  }

  /** The option lists hold 5, 4, 4 and 3 entries. */
  lemma OptionCounts()
    ensures |Steps| == 4
    ensures |Steps[0].options| == 5 && |Steps[1].options| == 4
    ensures |Steps[2].options| == 4 && |Steps[3].options| == 3
  {
  }

  /** Two strings differ when their lengths or their first characters do. */
  predicate Separated(a: string, b: string) {
    |a| != |b| || (a != [] && b != [] && a[0] != b[0])
  }

  lemma DistinctBySeparation(xs: seq<string>)
    requires forall i, j :: 0 <= i < j < |xs| ==> Separated(xs[i], xs[j])
    ensures Distinct(xs)
  {
    forall i, j | 0 <= i < j < |xs|
      ensures xs[i] != xs[j]
    {
      assert Separated(xs[i], xs[j]);
    }
  }

  /** Step ids are distinct, no option list is empty, option values are distinct within a step. */
  lemma StepsWellFormed()
    ensures WellFormed(Steps)
  {
    StepOrder();
    DistinctBySeparation(Ids(Steps));
    forall i | 0 <= i < |Steps|
      ensures |Steps[i].options| > 0 && Distinct(Values(Steps[i].options))
    {
      OptionValuesDistinct(i);
    }
  }

  lemma OptionValuesDistinct(i: nat)
    requires i < |Steps|
    ensures |Steps[i].options| > 0 && Distinct(Values(Steps[i].options))
  {
    var vs := Values(Steps[i].options);
    if i == 0 {
      assert vs == ["online", "sweepstakes", "social", "no-deposit", "fast-paying"];
    } else if i == 1 {
      assert vs == ["slots", "blackjack", "live-dealer", "table-games"];
    } else if i == 2 {
      assert vs == ["credit-card", "paypal", "crypto", "mobile-wallet"];
    } else {
      assert vs == ["instant", "1-2-days", "up-to-1-week"];
    }
    DistinctBySeparation(vs);
  }

  /** The payout step offers exactly the scorer's payout scale, fastest first. */
  lemma PayoutOptionsAreScale()
    ensures Steps[3].id == Scoring.PayoutKey
    ensures Values(Steps[3].options) == Scoring.PayoutScale
  {
  }

  /** Every answer key the scorer reads is the id of a configured step. */
  lemma ScoredKeysAreStepIds()
    ensures forall k :: k in Scoring.ScoredKeys ==> k in Ids(Steps)
  {
    StepOrder();
  }
}
