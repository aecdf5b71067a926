# Lottery predictor: statistics and scoring, modelled in Dafny

This project models the `LotteryPredictor` class of `Prediction.js`. The class takes a
history of lottery draws (oldest first, each draw a list of numbers) and builds, in one
chronological pass, a statistics record for every candidate number 1..maxNumber:

- how often the number was drawn;
- the index of the last draw that contained it;
- how often it sat at each of the first five positions of a draw;
- a transition table counting how often each number appeared in the draw right after a
  draw containing it.

From those records it computes four sub-scores per candidate:

- overdue: draws since the last appearance against the expected gap;
- affinity: mean normalised transition count from the numbers of the last draw;
- frequency: closeness of the observed frequency to the uniform share;
- positional: share of appearances at the most frequent tracked position.

`predict` combines the four with the weights 0.35 / 0.25 / 0.25 / 0.15, sorts the
candidates by the combined score, and returns the best `k` with their scores.
`getNumberStats` reports the raw figures and sub-scores of one number.

Layout, one module per file:

- `wrappers.dfy` (`Wrappers`): the `Option` type.
- `draws.dfy` (`Draws`): the history and the reference definitions of every statistic.
  These are written as recursions over the history and are independent of the analysis
  loops: occurrences, last appearance, position counters, transition counts, maxNumber.
  The file also holds the lemmas about them.
- `statistics.dfy` (`Statistics`): the per-number record, `findMaxNumber`,
  `initializeStatistics` and the nested analysis loops. Each loop is proved to produce
  exactly the reference statistics.
- `engine.dfy` (`Engine`): the predictor record and its constructor.
- `scores.dfy` (`Scores`): the four sub-scores and their combination.
- `ranking.dfy` (`Ranking`): the stable sort by score and the top-`k` prefix.
- `prediction.dfy` (`Prediction`): `predict` and `getNumberStats`.
- `properties.dfy` (`Properties`): what the scores mean for the history the statistics
  came from, and worked scenarios on small histories.

Modelling choices:

- The JavaScript object keyed 1..maxNumber is a sequence whose entry `n - 1` belongs to
  number `n`.
- Scores are exact `real`s. Each division is written as the source writes it.
- Failures of the source are explicit `None` results.
  - The constructor fails on a drawn number below 1 (`statistics[number]` is undefined
    at `Prediction.js:50`).
  - `predict` fails when a number of `lastDraw` has no record and there is at least one
    candidate to score (`Prediction.js:101`).
  - An empty history is not rejected by the code: maxNumber is 0, `predict` returns
    empty lists and every `getNumberStats` query returns null. The model does the same.
- The negative `k` of `slice(0, k)` follows JavaScript's slice rule: it counts back from
  the end.
- Behaviour of the code that a reader might not expect, reproduced by the model:
  - Duplicates inside a draw each count as an occurrence.
  - A transition count is a sum of products of per-draw multiplicities, because the
    update runs once per slot of the later draw.
  - A positional score of 50 does not imply that the number was never drawn.
  - Ties in the combined score are broken by ascending number. This is the order that
    the stable `Array.sort` keeps from the ascending keys of `Object.keys`.

## Model

| member | source | states |
|---|---|---|
| Statistics.FindMaxNumber | Prediction.js:10-21 | The scan returns the reference maxNumber (0 for a history with no numbers), and every drawn number is at most the result |
| Draws.MaxNumberBounds | Prediction.js:10-21 | Every drawn number is at most maxNumber. maxNumber is 0 or occurs in some draw. For a history of positive numbers it is 0 exactly when every draw is empty |
| Statistics.InitializeStatistics | Prediction.js:23-35 | One record per number 1..maxNumber, each exactly the statistics of the empty history: no occurrences, never seen, five zero counters, no transitions |
| Statistics.AddTransition | Prediction.js:64-67 | Counts one more transition from `prevNumber` to `number`, starting a missing key from 0. No other count and no other field changes, and stored counts stay at least 1 |
| Statistics.RecordTransitions | Prediction.js:61-68 | Every record `t` gains as many transitions towards `number` as there are copies of `t` in the previous draw. Only the transition tables change |
| Statistics.ReadSlot | Prediction.js:46-69 | If the table describes the earlier draws plus the slots read so far, then after reading one more slot it describes the history extended by that slot |
| Statistics.AnalyzeDraw | Prediction.js:42-71 | If the table describes the draws before `drawIndex`, then after reading that draw it describes the draws up to and including it |
| Statistics.Analyze | Prediction.js:37-72 | From records describing no draws, the pass ends with each record equal to the reference statistics of the whole history. These are occurrences with duplicates, the latest draw index, per-slot counts and summed per-pair products, and every stored count is at least 1 |
| Engine.NewPredictor | Prediction.js:2-7 | Construction fails exactly when some drawn number is below 1. Otherwise it keeps the history, sets maxNumber, and gives every candidate the statistics the history determines |
| Draws.CountIsMultiplicity | Prediction.js:46-50 | The copies of `n` counted in one draw are its multiplicity in the draw, so duplicates count one by one |
| Draws.PairCountIsProduct | Prediction.js:46-68 | One pair of consecutive draws adds (copies of `p` in the earlier) times (copies of `m` in the later) transitions from `p` to `m` |
| Draws.TransitionsPositive | Prediction.js:61-68 | A transition count from `p` to `m` is positive exactly when some draw containing `m` directly follows a draw containing `p`. The first draw has no predecessor |
| Draws.PositionSumSplit | Prediction.js:50-58 | The five position counters plus the copies at positions 5 and beyond add up to the occurrence count |
| Draws.PositionSumBound | Prediction.js:46-58 | The five position counters sum to at most the occurrence count, with equality exactly when the number never sits at index 5 or more |
| Draws.PositionCountZero | Prediction.js:55-58 | A position counter is 0 exactly when no draw holds the number at that slot |
| Draws.OccurrencesZero | Prediction.js:46-50 | The occurrence count is 0 exactly when no draw contains the number |
| Draws.LastAppearanceIsLatest | Prediction.js:52-53 | The recorded last appearance is the latest draw holding the number: no later draw holds it, and it is null exactly when no draw does |
| Draws.NeverSeenIffNoOccurrence | Prediction.js:49-53 | The last appearance is null exactly when the occurrence count is 0 |
| Scores.OverdueScore | Prediction.js:74-89 | 100 for a number never drawn. Otherwise never negative, and 0 exactly when the last appearance is the final draw |
| Scores.OverdueGrowsWithAbsence | Prediction.js:83-88 | Of two numbers drawn at some point, the one seen less recently is strictly more overdue |
| Scores.AffinityScore | Prediction.js:91-112 | 50 with no last draw or an empty one. 50 when no entry of the last draw was ever followed by the number. Positive when some entry was |
| Scores.AffinitiesEmpty | Prediction.js:100-108 | No term enters the average exactly when no entry of the last draw has a recorded transition to the number |
| Scores.AffinitiesBetween | Prediction.js:100-108 | Every averaged term lies within any bounds of the normalised transition counts of the supporting entries |
| Scores.AffinityIsMean | Prediction.js:97-111 | When some entry of the last draw supports the number, the score lies between any lower and upper bound of the supporting normalised counts. This is the property of a mean |
| Scores.Share | Prediction.js:116 | `o` draws out of `total` as a percentage: never negative, and times `total` it gives 100 times `o` |
| Scores.FrequencyScore | Prediction.js:114-124 | At most 100, and exactly 100 when occurrences times maxNumber equals the number of draws, i.e. the observed share is the uniform one |
| Scores.ClosenessIsDeviation | Prediction.js:116-123 | The frequency score in closed form: 100 - 300 * `|occurrences * maxNumber - draws|` / (draws * maxNumber), where draws * maxNumber is positive |
| Scores.FrequencyCloserIsHigher | Prediction.js:116-123 | One number scores at most another exactly when its gap to the uniform share, `|occurrences * maxNumber - draws|`, is at least the other's |
| Scores.MaxCount | Prediction.js:132 | `Math.max` over the counters: the result is one of them and no counter exceeds it |
| Scores.PositionalScore | Prediction.js:126-140 | 50 with no occurrence. Otherwise never negative, 0 exactly when all five counters are 0, and at most 100 exactly when no counter exceeds the occurrence count |
| Scores.CombinedIsWeightedMean | Prediction.js:147-154 | The weights 0.35, 0.25, 0.25, 0.15 are non-negative and sum to one: the combined score lies between any common bounds of the four sub-scores, and four equal sub-scores combine to that value |
| Ranking.SortRanked | Prediction.js:158-160 | Stably sorting the ascending candidates gives descending scores, with equal scores in ascending number order |
| Ranking.BestOf | Prediction.js:157-163 | The first `count` numbers of 1..n by that order: distinct, ranked, and each ahead of every number left out |
| Prediction.SliceEnd | Prediction.js:163 | The end index of `slice(0, k)`: `k` clamped to the list length, with a negative `k` counting back from the end |
| Prediction.RankCandidates | Prediction.js:142-169 | `min(k, maxNumber)` distinct candidates, or maxNumber + k when `k` is negative. Each ranks ahead of every later one and every omitted candidate. The scores list names the same numbers in the same order, each with its combined score |
| Prediction.Predict | Prediction.js:142-169 | Fails exactly when there is a candidate and the last draw holds a number without a record. It is empty when there is no candidate, and otherwise the ranked shortlist |
| Prediction.GetNumberStats | Prediction.js:172-190 | Null exactly when the number is outside 1..maxNumber. Otherwise it is the report on that candidate |
| Prediction.Report | Prediction.js:177-189 | It reports the occurrences and, as the frequency, their share of the draws. The draws-since count is absent exactly when the number was never drawn, and otherwise is below the number of draws. It reports the three sub-scores, and the frequency score is 100 minus three times the distance between the reported frequency and 100 / maxNumber |
| Properties.NeverDrawnScores | Prediction.js:74-140 | A number absent from every draw has overdue score 100, positional score 50 and frequency score 100 - 300 / maxNumber |
| Properties.OverdueZeroIffInLastDraw | Prediction.js:78-88 | The overdue score is 0 exactly for the numbers of the most recent draw |
| Properties.PositionalScoreInRange | Prediction.js:126-140 | On the statistics of a history the positional score lies in [0, 100] |
| Properties.PositionalZeroIffOnlyUntracked | Prediction.js:126-140 | A number that was drawn scores 0 positionally exactly when it never sat at one of the first five positions |
| Properties.SupportMeansTransition | Prediction.js:100-104 | An entry of the last draw supports a number exactly when a draw containing the number directly followed one containing the entry. Its normalised count is the transition count over the number of draws, times 100 |
| Properties.AffinityNeutralWithoutTransitions | Prediction.js:91-112 | If no draw containing the number ever followed a draw containing an entry of the last draw, the affinity score is 50 |
| Properties.DrawsSinceMeaning | Prediction.js:184-185 | A reported draws-since count `d` means the draw `d` places before the end holds the number and no later draw does. No count means no draw holds it |
| Properties.ReportedFrequency | Prediction.js:183 | The reported frequency is the share of draws of the occurrence count in the history, duplicates counted, so frequency times draws is 100 times occurrences |
| Properties.ExampleScenario | Prediction.js:74-89 | On `[[1,2,3,4,5],[2,3,4,5,6],[1,3,5,7,9]]`: maxNumber is 9, 7 occurs once in the last draw with overdue 0, 8 is never drawn with overdue 100, and 10 has no report |
| Properties.PositionalFiftyWhileDrawn | Prediction.js:126-140 | On `[[1,2],[2,1]]`, 1 occurs twice and still scores 50 positionally |
| Properties.DuplicatesMultiply | Prediction.js:46-68 | On `[[1,1],[2,2]]`, 1 has two occurrences and four recorded transitions to 2 |

## Left out

- `parseCSV` (text parsing with `parseInt` and a header heuristic): the model starts
  from parsed draws.
- `initializeApp`, the application object and the `DOMContentLoaded` hook: DOM events,
  file reading, `localStorage` persistence and rendering are I/O and UI.
- The `toFixed(2)` strings, the `'%'` suffix and the `'Jamais apparu'` label are
  presentation only. `getNumberStats` returns the underlying numbers, with the
  draws-since count as an optional integer.
- IEEE-754 doubles: scores are exact reals. Rounding can make two scores that are equal
  as reals differ as doubles, and the reverse, so ties may be ordered differently in the
  JavaScript.
- The unused `preferredPosition` (`Prediction.js:133`) has no effect on any result.
- Values that are not integers (fractional numbers in draws, a fractional or
  non-numeric `k`) are outside the model: draws are `seq<int>` and `k` is an `int`.
- Scores.AffinityScore: requires every number of the last draw to have a record. The
  JavaScript throws otherwise, and that failure is modelled one level up, in
  `Prediction.Predict`.
- Scores.AffinityIsMean: states the mean through its bounds and does not give the exact
  value.
