/** The public queries of the predictor: the ranked shortlist and the per-number report. */
module Prediction {
  import opened Wrappers
  import opened Draws
  import opened Statistics
  import opened Engine
  import opened Scores
  import opened Ranking

  datatype ScoredNumber = ScoredNumber(number: int, score: real)

  /** The two parallel lists returned by a prediction. */
  datatype PredictionResult = PredictionResult(predictions: seq<int>, scores: seq<ScoredNumber>)

  /** Combined score of every candidate; entry i scores number i + 1. */
  function ScoreTable(p: Predictor, lastDraw: Option<seq<int>>): (t: seq<real>)
    requires Shaped(p) && LastDrawInRange(p, lastDraw)
    ensures |t| == p.maxNumber
    ensures forall i :: 0 <= i < |t| ==> t[i] == CombinedScore(p, i + 1, lastDraw)
  {
    seq(p.maxNumber, i requires 0 <= i < p.maxNumber => CombinedScore(p, i + 1, lastDraw))
  }

  /**
   End index of `slice(0, k)` on a list of length `len`: a negative `k` counts back
   from the end, and the result is clamped to 0..len.
   */
  function SliceEnd(k: int, len: nat): (e: nat)
    ensures e <= len
    ensures 0 <= k <= len ==> e == k
    ensures k > len ==> e == len
    ensures k < 0 && -k <= len ==> e == len + k
    ensures k < 0 && -k > len ==> e == 0
  {
    if k < 0 then (if len + k < 0 then 0 else len + k)
    else if k < len then k else len
  }

  /** `a` is listed ahead of `b`: a higher combined score, or an equal one and a smaller number. */
  predicate RanksAhead(p: Predictor, lastDraw: Option<seq<int>>, a: int, b: int)
    requires Shaped(p) && Candidate(p, a) && Candidate(p, b) && LastDrawInRange(p, lastDraw)
  {
    var sa, sb := CombinedScore(p, a, lastDraw), CombinedScore(p, b, lastDraw);
    sa > sb || (sa == sb && a < b)
  }

  /** Ordering by the score table is ordering by combined score, ties by number. */
  lemma TableOrderIsRanking(p: Predictor, lastDraw: Option<seq<int>>)
    requires Shaped(p) && LastDrawInRange(p, lastDraw)
    ensures forall a, b :: Candidate(p, a) && Candidate(p, b) ==>
      (Before(ScoreTable(p, lastDraw), a, b) <==> RanksAhead(p, lastDraw, a, b))
  {
    var table := ScoreTable(p, lastDraw);
    forall a, b | Candidate(p, a) && Candidate(p, b)
      ensures Before(table, a, b) <==> RanksAhead(p, lastDraw, a, b)
    {
      assert table[a - 1] == CombinedScore(p, a, lastDraw);
      assert table[b - 1] == CombinedScore(p, b, lastDraw);
    }
  }

  /**
   The `k` best candidates (all of them when `k` is at least maxNumber), best first,
   each with its combined score.
   */
  function RankCandidates(p: Predictor, k: int, lastDraw: Option<seq<int>>): (r: PredictionResult)
    requires Shaped(p) && LastDrawInRange(p, lastDraw)
    ensures 0 <= k ==> |r.predictions| == if k < p.maxNumber then k else p.maxNumber
    ensures k < 0 ==> |r.predictions| == if -k < p.maxNumber then p.maxNumber + k else 0
    ensures forall i :: 0 <= i < |r.predictions| ==> Candidate(p, r.predictions[i])
    ensures forall i, j :: 0 <= i < j < |r.predictions| ==> r.predictions[i] != r.predictions[j]
    ensures forall i, j :: 0 <= i < j < |r.predictions| ==>
      RanksAhead(p, lastDraw, r.predictions[i], r.predictions[j])
    ensures forall i, n :: 0 <= i < |r.predictions| && Candidate(p, n) && n !in r.predictions ==>
      RanksAhead(p, lastDraw, r.predictions[i], n)
    ensures |r.scores| == |r.predictions|
    ensures forall i :: 0 <= i < |r.scores| ==>
      r.scores[i] == ScoredNumber(r.predictions[i], CombinedScore(p, r.predictions[i], lastDraw))
  {
    var table := ScoreTable(p, lastDraw);
    TableOrderIsRanking(p, lastDraw);
    var top := BestOf(table, SliceEnd(k, p.maxNumber));
    PredictionResult(top, seq(|top|, i requires 0 <= i < |top| => ScoredNumber(top[i], table[top[i] - 1])))
  }

  /**
   `predict`: scoring reads the record of every number of the last draw, which fails
   (None) as soon as there is a candidate to score and some number of the last draw
   has no record; with no candidate at all the result is empty.
   */
  function Predict(p: Predictor, k: int, lastDraw: Option<seq<int>>): (r: Option<PredictionResult>)
    requires Shaped(p)
    ensures r.None? <==> p.maxNumber > 0 && !LastDrawInRange(p, lastDraw)
    ensures p.maxNumber == 0 ==> r == Some(PredictionResult([], []))
    ensures LastDrawInRange(p, lastDraw) ==> r == Some(RankCandidates(p, k, lastDraw))
  {
    if p.maxNumber == 0 then Some(PredictionResult([], []))
    else if !LastDrawInRange(p, lastDraw) then None
    else Some(RankCandidates(p, k, lastDraw))
  }

  /** What `getNumberStats` reports about one candidate (before any text formatting). */
  datatype NumberReport = NumberReport(
    number: int,
    occurrences: nat,
    frequency: real,
    drawsSinceLastAppearance: Option<int>,
    overdueScore: real,
    frequencyScore: real,
    positionalScore: real)

  /** The report on `n`, or None when `n` is outside 1..maxNumber. */
  function GetNumberStats(p: Predictor, n: int): (r: Option<NumberReport>)
    requires Shaped(p)
    ensures r.None? <==> n < 1 || n > p.maxNumber
    ensures r.Some? ==> Candidate(p, n) && r.value == Report(p, n)
  {
    if n < 1 || n > p.maxNumber then None else Some(Report(p, n))
  }

  /**
   The figures reported for a candidate: its occurrences, its share of the draws as a
   percentage, the draws since its last appearance, and its three sub-scores.
   */
  function Report(p: Predictor, n: int): (r: NumberReport)
    requires Shaped(p) && Candidate(p, n)
    ensures r.number == n && r.occurrences == StatsOf(p, n).occurrences
    ensures r.frequency == Share(r.occurrences, |p.historicalData|)
    ensures r.drawsSinceLastAppearance.None? <==> StatsOf(p, n).lastAppearance.None?
    ensures r.drawsSinceLastAppearance.Some? ==>
      0 <= r.drawsSinceLastAppearance.value < |p.historicalData|
    ensures r.overdueScore == OverdueScore(p, n)
    ensures r.frequencyScore == FrequencyScore(p, n)
    ensures r.frequencyScore == 100.0 - 3.0 * Abs(r.frequency - 100.0 / p.maxNumber as real)
    ensures r.positionalScore == PositionalScore(p, n)
  {
    var stats := StatsOf(p, n);
    var totalDraws := |p.historicalData|;
    ShareOfDraws(p, n);
    NumberReport(
      n,
      stats.occurrences,
      Share(stats.occurrences, totalDraws),
      match stats.lastAppearance
      case None => None
      case Some(last) => Some(totalDraws - last - 1),
      OverdueScore(p, n),
      FrequencyScore(p, n),
      PositionalScore(p, n))
  }
}
