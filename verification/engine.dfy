/** The predictor object: the history it was built from and the statistics derived once from it. */
module Engine {
  import opened Wrappers
  import opened Draws
  import opened Statistics

  /** Entry `n` of the candidate range 1..maxNumber sits at `statistics[n - 1]`. */
  datatype Predictor = Predictor(historicalData: History, maxNumber: nat, statistics: seq<NumberStats>)

  /**
   The shape the scoring functions rely on: one record per candidate, five position
   counters each, last appearances inside the history, and some draw whenever some
   candidate exists.
   */
  predicate Shaped(p: Predictor) {
    && |p.statistics| == p.maxNumber
    && (p.maxNumber > 0 ==> |p.historicalData| > 0)
    && forall t :: 0 <= t < |p.statistics| ==>
         && |p.statistics[t].drawPositions| == TrackedPositions
         && (p.statistics[t].lastAppearance.Some? ==> p.statistics[t].lastAppearance.value < |p.historicalData|)
  }

  /** Every record is exactly what the history says about its number. */
  ghost predicate Valid(p: Predictor) {
    && Shaped(p)
    && ValidHistory(p.historicalData)
    && p.maxNumber == MaxNumber(p.historicalData)
    && forall t :: 0 <= t < |p.statistics| ==> Summarises(p.historicalData, t + 1, p.statistics[t])
  }

  /** Statistics that summarise a history have the shape scoring relies on. */
  lemma SummariesAreShaped(h: History, stats: seq<NumberStats>)
    requires |stats| == MaxNumber(h)
    requires forall t :: 0 <= t < |stats| ==> Summarises(h, t + 1, stats[t])
    ensures Shaped(Predictor(h, MaxNumber(h), stats))
  {
    MaxNumberBounds(h);
  }

  /**
   The constructor: find maxNumber, allocate one fresh record per candidate, then run
   the single analysis pass. The pass fails (None) on a number below 1, which has no
   record to update.
   */
  method NewPredictor(h: History) returns (r: Option<Predictor>)
    ensures r.None? <==> !ValidHistory(h)
    ensures r.Some? ==> r.value.historicalData == h && r.value.maxNumber == MaxNumber(h)
    ensures r.Some? ==> Valid(r.value)
  {
    var maxNumber := FindMaxNumber(h);
    if !ValidHistory(h) {
      return None;
    }
    var stats := InitializeStatistics(maxNumber);
    stats := Analyze(h, stats);
    SummariesAreShaped(h, stats);
    r := Some(Predictor(h, maxNumber, stats));
  }
}
