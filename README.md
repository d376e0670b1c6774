# Casino Finder quiz core in Dafny

This project models the logic of the Casino Finder WordPress plugin: a
four-question quiz that ranks a catalog of casinos against the answers
and returns up to three of them. Three parts are modelled.

- **The step sequencer.** The `CasinoFinder` class keeps a current step
  index and an answers map (step id to chosen value). An option click
  records an answer and moves to the next step or, on the last step, puts
  up the loading screen. The back button moves one step back. The reset
  button starts over.
- **The recommendation engine.** `calculateResults` scores every casino.
  Casino type, game and banking each earn their weight (40, 25, 20) when the
  answer is in the casino's list. Payout speed earns 15 when the casino is at
  least as fast as asked and 7.5 when it is one step slower. The scored
  list is then stably sorted by score and then rating, both descending.
  Zero scores are dropped and at most three casinos are kept.
- **The pure helpers and the configuration.** These are the HTML escaper
  `esc`, the state rules of the progress bar, and the PHP step
  configuration `Casino_Finder_Data::get_steps`.

Files and modules:

- `data.dfy`, module `FinderData`: the step list and its well-formedness.
- `scoring.dfy`, module `Scoring`: the per-casino score.
- `ranking.dfy`, module `Ranking`: sort, filter and truncation.
- `escaping.dfy`, module `Escaping`: `esc` and a decoder for it.
- `progress.dfy`, module `Progress`: step states and `aria-valuenow`/`aria-valuemax`.
- `finder.dfy`, module `Finder`: the `CasinoFinder` class.

Modelling choices:

- Scores and ratings are exact `real`s. Every score is a sum of some of
  40, 25, 20, 15 and 7.5, so it is a multiple of 2.5. JavaScript doubles
  hold these sums exactly, so the model's values are the ones the code
  computes, with no rounding.
- The sort comparator `b.score - a.score || b.casino.rating - a.casino.rating`
  is modelled literally (`Ranking.Compare`). The sort is a stable insertion
  sort. `Ranking.StableSortIsUnique` proves that every sorted arrangement
  that keeps ties in input order equals it. So the order does not depend
  on which stable sort the JavaScript engine uses.
- `PAYOUT_SCALE.indexOf` is modelled with its `-1` result. The code as
  written gives a casino whose payout speed is not on the scale the full
  15 points whenever payout speed was answered
  (`Scoring.UnknownCasinoSpeedEarnsFullPayout`). An answer that is not on the
  scale gives an instant casino 7.5 points (`Scoring.UnknownAnswerSpeed`).
- `completed` is the sequencer's explicit phase flag, which the source
  leaves implicit. Answering the last step sets it; the loading screen is
  then shown. Any transition that re-renders a question clears it.
- `handleOptionClick` does not check that `stepId` is the current step's
  id (assets/js/casino-finder.js:89-90); the model does not either. It takes
  `stepId` as a parameter and records the answer under it. The property
  that answer keys stay step ids is proved for clicks on the current step.
- The attainable scores are exactly `Scoring.AttainableScores`: every
  subset of {40, 25, 20} plus 0, 7.5 or 15. This includes sums such as
  27.5 (20 + 7.5), 35 (20 + 15) and 47.5 (40 + 7.5).
- A casino's `types`, `games` and `banking` are arrays that the code tests
  with `includes` (assets/js/casino-finder.js:299, 305, 311), so the model
  uses `seq<string>`.

## Model

| member | source | states |
|---|---|---|
| `FinderData.StepOrder` | includes/class-casino-finder-data.php:11-56 | the configuration has four steps, with ids `casino-type`, `game`, `banking`, `payout` in that order |
| `FinderData.OptionCounts` | includes/class-casino-finder-data.php:16-54 | the steps offer 5, 4, 4 and 3 options |
| `FinderData.StepsWellFormed` | includes/class-casino-finder-data.php:11-56 | step ids are pairwise distinct; each step has a non-empty option list whose values are pairwise distinct |
| `FinderData.PayoutOptionsAreScale` | includes/class-casino-finder-data.php:47-54 | the payout step's option values are exactly the scorer's `PAYOUT_SCALE`, `instant`, `1-2-days`, `up-to-1-week`, in that order |
| `FinderData.ScoredKeysAreStepIds` | includes/class-casino-finder-data.php:13-47 | every answer key the scorer reads is the id of a configured step |
| `Scoring.IndexOf` | assets/js/casino-finder.js:318-319 | `indexOf` returns -1 exactly when the value is absent; otherwise it returns the first position holding the value |
| `Scoring.IndexOfScale` | assets/js/casino-finder.js:292 | on the payout scale, `indexOf` gives the ordinal rank: instant 0, 1-2-days 1, up-to-1-week 2 |
| `Scoring.Score` | assets/js/casino-finder.js:294-330 | every score lies in [0, 100] |
| `Scoring.MembershipCriteria` | assets/js/casino-finder.js:297-313 | casino type, game and banking each add 40, 25 or 20 exactly when that answer is present, non-empty and in the casino's list; withdrawing the answer lowers the score by that weight and by nothing else |
| `Scoring.PayoutCriterion` | assets/js/casino-finder.js:315-327 | for speeds on the scale: 15 when the casino's rank is at most the requested one, 7.5 when exactly one slower, 0 when two or more slower, 0 with no payout answer; the payout answer affects nothing else |
| `Scoring.UnknownCasinoSpeedEarnsFullPayout` | assets/js/casino-finder.js:316-323 | a casino payout speed off the scale (index -1) always earns the full 15 once payout was answered |
| `Scoring.UnknownAnswerSpeed` | assets/js/casino-finder.js:316-326 | a payout answer off the scale gives 7.5 to instant casinos, 0 to other known speeds and 15 to unknown ones |
| `Scoring.PerfectScore` | assets/js/casino-finder.js:285-327 | a score is 100 if and only if all three membership criteria match and the payout earns its full weight |
| `Scoring.ScoreIsAttainable` | assets/js/casino-finder.js:285-327 | every score is a sum of a subset of {40, 25, 20} plus 0, 7.5 or 15 |
| `Scoring.NoAnswersScoreZero` | assets/js/casino-finder.js:298-327 | with none of the four keys answered, every casino scores 0 |
| `Scoring.FullMatchScoresHundred` | assets/js/casino-finder.js:294-330 | online/slots/crypto/instant answered and all offered at instant payout: score 100 |
| `Scoring.TypeAndSlowerPayoutScore` | assets/js/casino-finder.js:294-330 | same answers, only the type matching and a 1-2-days payout: score 47.5 |
| `Ranking.CompareMeaning` | assets/js/casino-finder.js:333 | the comparator is non-positive exactly when the first record has the higher score, or the same score and a rating at least as high; it is zero exactly on equal score and rating, and antisymmetric |
| `Ranking.InsertSorted` | assets/js/casino-finder.js:333 | inserting into a sorted list keeps it sorted and adds exactly the inserted record |
| `Ranking.SortByRank` | assets/js/casino-finder.js:333 | the sorted list is ordered by score descending, then rating descending, and is a permutation of the input |
| `Ranking.SortIsStable` | assets/js/casino-finder.js:333 | for every score and rating, the records with that key keep their input order |
| `Ranking.StableSortIsUnique` | assets/js/casino-finder.js:333 | any sorted rearrangement that keeps every key class in input order equals the model's sort |
| `Ranking.ScoreAll` | assets/js/casino-finder.js:294-330 | one record per catalog entry, in catalog order, each carrying that casino's score |
| `Ranking.TopMatches` | assets/js/casino-finder.js:284-340 | at most three results, each a catalog entry with a positive score |
| `Ranking.TopMatchesLength` | assets/js/casino-finder.js:336-339 | the result holds min(3, number of positive-scoring entries) casinos; it is empty exactly when every casino scores 0 |
| `Ranking.TopMatchesOrdered` | assets/js/casino-finder.js:333-339 | results are ordered by score descending, then rating descending |
| `Ranking.TopMatchesComplete` | assets/js/casino-finder.js:333-339 | a positive-scoring catalog entry missing from the result means the result has three entries, each ranking at least as high as it |
| `Ranking.TopMatchesStable` | assets/js/casino-finder.js:333-339 | for every score and rating, the result's casinos with that key are a prefix of the catalog's casinos with that key, in catalog order |
| `Ranking.HigherRatingBreaksTie` | assets/js/casino-finder.js:333-339 | two casinos scoring 60 rank the 4.8-rated one before the 4.5-rated one, and a zero-scoring casino is dropped despite its 5.0 rating |
| `Escaping.Esc` | assets/js/casino-finder.js:29-32 | the escaped text holds no raw `<`, `>`, `"` or `'` |
| `Escaping.EscKeepsPlainText` | assets/js/casino-finder.js:29-31 | text without any of `& < > " '` is returned unchanged |
| `Escaping.EscConcat` | assets/js/casino-finder.js:31 | escaping works character by character: it distributes over concatenation |
| `Escaping.AmpersandsStartEntities` | assets/js/casino-finder.js:30-31 | every `&` in the output begins one of `&amp;`, `&lt;`, `&gt;`, `&quot;`, `&#039;` |
| `Escaping.UnescapeEsc` | assets/js/casino-finder.js:29-32 | decoding the five entities inverts the escaper: the original text comes back |
| `Progress.StatesInOrder` | assets/js/casino-finder.js:345-348 | step states never go up along the bar, and every step after an active one is upcoming: completed steps, then at most one active step, then upcoming steps |
| `Progress.CountStates` | assets/js/casino-finder.js:345-348 | the bar shows `currentStep` completed steps and one active step while the quiz runs, and all steps completed and none active when results show |
| `Progress.ProgressAgrees` | assets/js/casino-finder.js:343-369 | `aria-valuenow` is one more than the number of completed steps and lies in 1 .. `aria-valuemax` (steps + 1); it reaches the maximum exactly when results show, which is exactly when the trailing Best Match unit is active; the filled segments equal the completed steps |
| `Finder.CasinoFinder.constructor` | assets/js/casino-finder.js:6-15 | a new quiz is on its first step with no answers and not completed |
| `Finder.CasinoFinder.HandleOptionClick` | assets/js/casino-finder.js:89-98 | sets `answers[stepId]` to the value, overwriting it and leaving other keys alone; advances by exactly one below the last step, otherwise stays and completes; keeps the index in range and, for the current step's id, keeps answer keys among step ids |
| `Finder.CasinoFinder.GoToPreviousStep` | assets/js/casino-finder.js:100-105 | no change on the first step; otherwise one step back; never touches the answers |
| `Finder.CasinoFinder.Reset` | assets/js/casino-finder.js:107-111 | from any state: step 0, no answers, not completed |
| `Finder.CasinoFinder.CalculateResults` | assets/js/casino-finder.js:188-191 | the recommendation computed from the current answers and the catalog: at most three catalog casinos with positive scores |
| `Finder.AnswerEveryStep` | assets/js/casino-finder.js:89-111 | after a reset, answering each step in order completes the quiz on the last step with exactly one answer per step id, holding the chosen values |
| `Finder.AnswerThenGoBack` | assets/js/casino-finder.js:89-105 | answering a step and going back returns to that step with the answer shown as selected |

## Left out

- DOM rendering: `render`, `renderStep`'s markup, `renderResults`' cards,
  `setFocus` and `scrollToTop`. These only produce markup. The selected
  value `renderStep` reads is modelled as `CasinoFinder.SelectedValue`.
- Event plumbing: `handleClick` and `handleKeydown` dispatch on DOM
  elements. The three transitions are methods called directly.
- Timers and browser APIs. `announce` and `handleCopyCode` are not
  modelled: they use the clipboard, `setTimeout` and an ARIA live
  region. `renderLoadingScreen`'s staged messages and `matchMedia` delay
  are not modelled either. Its one effect on the core, computing the
  results from the current answers, is `CasinoFinder.CalculateResults`.
- `progressPercent` is a floating-point division used only as a CSS value.
- The casino catalog, the loading messages and the other configuration
  strings come from `Casino_Finder_Data::get_config`. That method is not
  part of this model, so the catalog is a parameter. Casino display fields
  (logo, promo code, URLs, bonus text, flags) are not read by the scorer
  and are omitted.
- `esc` applies `String(...)` to non-string arguments. The model escapes
  strings only.
- Ratings are real numbers. A non-numeric or NaN rating, which would make
  the comparator inconsistent, is not modelled.
- Finder.CasinoFinder.constructor: requires a non-empty step list. With no
  steps the JavaScript constructor throws: `init` calls `render`, whose
  `renderStep(0)` reads the `id` of a step that does not exist
  (assets/js/casino-finder.js:132-133).
- The WordPress glue is not modelled: hook registration, the singleton,
  asset enqueueing, the shortcode and its theme whitelist, and the
  `defer` attribute rewrite.
