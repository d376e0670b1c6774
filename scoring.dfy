/**
 * The per-casino match score of the recommendation engine: the body of the
 * `casinos.map` callback in `CasinoFinder.calculateResults`. Three criteria
 * test list membership, the fourth compares payout speeds on an ordinal scale.
 * Scores are exact reals, so the half weight 7.5 needs no rounding.
 */
module Scoring {

  /** A catalog entry, reduced to the fields the scorer and the ranking read. */
  datatype Casino = Casino(
    name: string,
    rating: real,
    types: seq<string>,
    games: seq<string>,
    banking: seq<string>,
    payoutSpeed: string)

  /** The quiz answers: step id to the chosen option value. */
  type Answers = map<string, string>

  const TypeKey: string := "casino-type"
  const GameKey: string := "game"
  const BankingKey: string := "banking"
  const PayoutKey: string := "payout"

  const TypeWeight: real := 40.0
  const GameWeight: real := 25.0
  const BankingWeight: real := 20.0
  const PayoutWeight: real := 15.0

  /** Payout speeds from fastest to slowest. */
  const PayoutScale: seq<string> := ["instant", "1-2-days", "up-to-1-week"]

  /** The answer keys the scorer reads. */
  const ScoredKeys: seq<string> := [TypeKey, GameKey, BankingKey, PayoutKey]

  /** `answers[key]` used as a JavaScript condition: present and not the empty string. */
  predicate Answered(answers: Answers, key: string) {
    key in answers && answers[key] != ""
  }

  /** `Array.prototype.indexOf` on strings: the first position of `v`, or -1. */
  function IndexOf(s: seq<string>, v: string): (r: int)
    ensures -1 <= r < |s|
    ensures r == -1 <==> v !in s
    ensures 0 <= r ==> s[r] == v && forall j :: 0 <= j < r ==> s[j] != v
  {
    if s == [] then -1
    else if s[0] == v then 0
    else
      var k := IndexOf(s[1..], v);
      if k == -1 then -1 else k + 1
  }

  /** Points of one list-membership criterion (casino type, game or banking). */
  function MembershipPoints(answers: Answers, key: string, offered: seq<string>, weight: real): real {
    if Answered(answers, key) && answers[key] in offered then weight else 0.0
  }

  /** Points of the payout-speed criterion, computed on `PAYOUT_SCALE` positions. */
  function PayoutPoints(answers: Answers, speed: string): real {
    if !Answered(answers, PayoutKey) then 0.0
    else
      var diff := IndexOf(PayoutScale, speed) - IndexOf(PayoutScale, answers[PayoutKey]);
      if diff <= 0 then PayoutWeight
      else if diff == 1 then PayoutWeight / 2.0
      else 0.0
  }

  /** The score of one casino against the answers. */
  function Score(c: Casino, answers: Answers): (r: real)
    ensures 0.0 <= r <= 100.0
  {
    MembershipPoints(answers, TypeKey, c.types, TypeWeight)
    + MembershipPoints(answers, GameKey, c.games, GameWeight)
    + MembershipPoints(answers, BankingKey, c.banking, BankingWeight)
    + PayoutPoints(answers, c.payoutSpeed)
  }

  /** Rank of a known payout speed: 0 is the fastest. */
  function Ordinal(speed: string): (r: nat)
    requires speed in PayoutScale
    ensures r < |PayoutScale|
  {
    if speed == "instant" then 0
    else if speed == "1-2-days" then 1
    else 2
  }

  /** Casino-type, game and banking answers each earn their weight exactly
      when answered and offered: withdrawing one answer lowers the score by
      that weight in that case and leaves it unchanged otherwise. */
  lemma MembershipCriteria(c: Casino, answers: Answers)
    ensures Score(c, answers) == Score(c, answers - {TypeKey})
      + (if Answered(answers, TypeKey) && answers[TypeKey] in c.types then 40.0 else 0.0)
    ensures Score(c, answers) == Score(c, answers - {GameKey})
      + (if Answered(answers, GameKey) && answers[GameKey] in c.games then 25.0 else 0.0)
    ensures Score(c, answers) == Score(c, answers - {BankingKey})
      + (if Answered(answers, BankingKey) && answers[BankingKey] in c.banking then 20.0 else 0.0)
  {
  }

  /** For speeds on the scale: full 15 when the casino is at least as fast
      as requested, 7.5 when exactly one step slower, 0 when two or more,
      and nothing at all when payout speed was not answered. */
  lemma PayoutCriterion(c: Casino, answers: Answers)
    requires c.payoutSpeed in PayoutScale
    requires Answered(answers, PayoutKey) ==> answers[PayoutKey] in PayoutScale
    ensures !Answered(answers, PayoutKey) ==> PayoutPoints(answers, c.payoutSpeed) == 0.0
    ensures Answered(answers, PayoutKey) ==>
      var wanted, offered := Ordinal(answers[PayoutKey]), Ordinal(c.payoutSpeed);
      PayoutPoints(answers, c.payoutSpeed) ==
        if offered <= wanted then 15.0
        else if offered == wanted + 1 then 7.5
        else 0.0
    ensures Score(c, answers) == Score(c, answers - {PayoutKey}) + PayoutPoints(answers, c.payoutSpeed)
  {
    if Answered(answers, PayoutKey) {
      IndexOfScale(c.payoutSpeed);
      IndexOfScale(answers[PayoutKey]);
    }
  }

  /** `PAYOUT_SCALE.indexOf` agrees with the ordinal rank on known speeds. */
  lemma IndexOfScale(speed: string)
    requires speed in PayoutScale
    ensures IndexOf(PayoutScale, speed) == Ordinal(speed)
  {
    assert PayoutScale[0] == "instant" && PayoutScale[1] == "1-2-days";
  }

  /** A casino whose payout speed is off the scale gets index -1, which is
      never slower than any answer: it always earns the full payout weight. */
  lemma UnknownCasinoSpeedEarnsFullPayout(c: Casino, answers: Answers)
    requires Answered(answers, PayoutKey)
    requires c.payoutSpeed !in PayoutScale
    ensures PayoutPoints(answers, c.payoutSpeed) == PayoutWeight
  {
  }

  /** An answer off the scale gets index -1: an instant casino is then "one
      step slower" (7.5), other known speeds earn 0, an unknown speed 15. */
  lemma UnknownAnswerSpeed(c: Casino, answers: Answers)
    requires Answered(answers, PayoutKey)
    requires answers[PayoutKey] !in PayoutScale
    ensures PayoutPoints(answers, c.payoutSpeed) ==
      if c.payoutSpeed == "instant" then 7.5
      else if c.payoutSpeed in PayoutScale then 0.0
      else 15.0
  {
    if c.payoutSpeed in PayoutScale {
      IndexOfScale(c.payoutSpeed);
    }
  }

  /** A full score of 100 is reached exactly when all three membership
      criteria match and the payout is at least as fast as requested. */
  lemma PerfectScore(c: Casino, answers: Answers)
    ensures Score(c, answers) == 100.0 <==>
      && Answered(answers, TypeKey) && answers[TypeKey] in c.types
      && Answered(answers, GameKey) && answers[GameKey] in c.games
      && Answered(answers, BankingKey) && answers[BankingKey] in c.banking
      && PayoutPoints(answers, c.payoutSpeed) == PayoutWeight
  {
  }

  /** Every value a sum of a subset of {40, 25, 20} plus 0, 7.5 or 15 can take. */
  const AttainableScores: set<real> := {
    0.0, 7.5, 15.0,
    20.0, 27.5, 35.0,
    25.0, 32.5, 40.0,
    45.0, 52.5, 60.0,
    47.5, 55.0,
    65.0, 72.5, 80.0,
    67.5, 75.0,
    85.0, 92.5, 100.0 }

  /** Scores only take the values of `AttainableScores`. */
  lemma ScoreIsAttainable(c: Casino, answers: Answers)
    ensures Score(c, answers) in AttainableScores
  {
  }

  /** With no answer recorded every casino scores 0. */
  lemma NoAnswersScoreZero(c: Casino, answers: Answers)
    requires forall k :: k in ScoredKeys ==> !Answered(answers, k)
    ensures Score(c, answers) == 0.0
  {
    assert !Answered(answers, ScoredKeys[0]) && !Answered(answers, ScoredKeys[1]);
    assert !Answered(answers, ScoredKeys[2]) && !Answered(answers, ScoredKeys[3]);
  }

  /** A casino offering everything asked for, at the requested payout speed, scores 100. */
  lemma FullMatchScoresHundred()
    ensures
      var answers := map[TypeKey := "online", GameKey := "slots", BankingKey := "crypto", PayoutKey := "instant"];
      Score(Casino("A", 4.0, ["online"], ["slots", "blackjack"], ["crypto"], "instant"), answers) == 100.0
  {
  }

  /** Matching only the casino type, one payout step slower: 40 + 7.5. */
  lemma TypeAndSlowerPayoutScore()
    ensures
      var answers := map[TypeKey := "online", GameKey := "slots", BankingKey := "crypto", PayoutKey := "instant"];
      Score(Casino("B", 4.0, ["online"], ["blackjack"], ["paypal"], "1-2-days"), answers) == 47.5
  {
    IndexOfScale("1-2-days");
  }
}
