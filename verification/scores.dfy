/**
 The four sub-scores of a candidate number and their fixed-weight combination.
 Scores are exact reals: an idealisation of the double-precision arithmetic of the
 JavaScript, with every division written as `Prediction.js` writes it.
 */
module Scores {
  import opened Wrappers
  import opened Draws
  import opened Statistics
  import opened Engine

  const OverdueWeight: real := 0.35
  const AffinityWeight: real := 0.25
  const FrequencyWeight: real := 0.25
  const PositionalWeight: real := 0.15

  /** Score given when there is no data to judge by. */
  const NeutralScore: real := 50.0

  /** Score given to a number that was never drawn. */
  const NeverDrawnOverdue: real := 100.0

  predicate Candidate(p: Predictor, n: int) {
    1 <= n <= p.maxNumber
  }

  /** The record of candidate `n`. */
  function StatsOf(p: Predictor, n: int): NumberStats
    requires Shaped(p) && Candidate(p, n)
  {
    p.statistics[n - 1]
  }

  function Abs(x: real): real {
    if x < 0.0 then -x else x
  }

  /**
   Draws since the last appearance, measured against the expected gap
   totalDraws / maxNumber, as a percentage; 100 for a number never drawn.
   */
  function OverdueScore(p: Predictor, n: int): (r: real)
    requires Shaped(p) && Candidate(p, n)
    ensures StatsOf(p, n).lastAppearance.None? ==> r == NeverDrawnOverdue
    ensures r >= 0.0
    ensures r == 0.0 <==> StatsOf(p, n).lastAppearance == Some(|p.historicalData| - 1)
  {
    var totalDraws := |p.historicalData|;
    match StatsOf(p, n).lastAppearance
    case None => NeverDrawnOverdue
    case Some(last) =>
      var drawsSinceLastAppearance := totalDraws - last - 1;
      var expectedFrequency := totalDraws as real / p.maxNumber as real;
      drawsSinceLastAppearance as real / expectedFrequency * 100.0
  }

  /** A number absent for longer is strictly more overdue. */
  lemma OverdueGrowsWithAbsence(p: Predictor, a: int, b: int)
    requires Shaped(p) && Candidate(p, a) && Candidate(p, b)
    requires StatsOf(p, a).lastAppearance.Some? && StatsOf(p, b).lastAppearance.Some?
    requires StatsOf(p, a).lastAppearance.value < StatsOf(p, b).lastAppearance.value
    ensures OverdueScore(p, a) > OverdueScore(p, b)
  {
    var total := |p.historicalData| as real;
    var e := total / p.maxNumber as real;
    var da := (|p.historicalData| - StatsOf(p, a).lastAppearance.value - 1) as real;
    var db := (|p.historicalData| - StatsOf(p, b).lastAppearance.value - 1) as real;
    assert e > 0.0;
    assert da > db;
    assert da / e > db / e;
  }

  /** o / T * 100 equals 100 / M exactly when o * M == T. */
  lemma RatioMatchesIdeal(o: nat, total: nat, maxNumber: nat)
    requires total > 0 && maxNumber > 0
    ensures o as real / total as real * 100.0 == 100.0 / maxNumber as real <==> o * maxNumber == total
  {
    var x, t, m := o as real, total as real, maxNumber as real;
    assert x / t * 100.0 * (t * m) == 100.0 * x * m;
    assert 100.0 / m * (t * m) == 100.0 * t;
    assert (o * maxNumber) as real == x * m;
  }

  /** `o` draws out of `total`, as a percentage; it scales back to `o` draws. */
  function Share(o: nat, total: nat): (r: real)
    requires total > 0
    ensures r >= 0.0
    ensures r * total as real == 100.0 * o as real
  {
    var x, t := o as real, total as real;
    assert x / t * t == x;
    x / t * 100.0
  }

  /**
   Closeness of `o` appearances in `total` draws (as a percentage of draws) to the
   uniform ideal 100 / maxNumber: 100 minus three times the distance.
   */
  function Closeness(o: nat, total: nat, maxNumber: nat): real
    requires total > 0 && maxNumber > 0
  {
    var frequency := Share(o, total);
    var idealFrequency := 100.0 / maxNumber as real;
    100.0 - Abs(frequency - idealFrequency) * 3.0
  }

  /** Distance, in whole units, between o * maxNumber and the number of draws. */
  function Deviation(o: nat, total: nat, maxNumber: nat): nat {
    var d := o * maxNumber - total;
    if d < 0 then -d else d
  }

  /** |o / T * 100 - 100 / M| scaled by T * M is 100 * |o * M - T|. */
  lemma ScaledDistance(o: nat, total: nat, maxNumber: nat)
    requires total > 0 && maxNumber > 0
    ensures Abs(o as real / total as real * 100.0 - 100.0 / maxNumber as real) * (total * maxNumber) as real
      == 100.0 * Deviation(o, total, maxNumber) as real
  {
    var x, t, m := o as real, total as real, maxNumber as real;
    var diff := x / t * 100.0 - 100.0 / m;
    assert x / t * t == x;
    assert 100.0 / m * m == 100.0;
    assert diff * (t * m) == 100.0 * (x * m - t);
    assert (total * maxNumber) as real == t * m;
    assert (o * maxNumber - total) as real == x * m - t;
    if diff < 0.0 {
      assert x * m - t < 0.0;
    } else {
      assert x * m - t >= 0.0;
    }
  }

  /** The closeness score in terms of the whole-unit deviation. */
  lemma ClosenessIsDeviation(o: nat, total: nat, maxNumber: nat)
    requires total > 0 && maxNumber > 0
    ensures total * maxNumber > 0
    ensures Closeness(o, total, maxNumber)
      == 100.0 - 3.0 * (100.0 * Deviation(o, total, maxNumber) as real / (total * maxNumber) as real)
  {
    assert total * maxNumber >= total;
    var da := Abs(o as real / total as real * 100.0 - 100.0 / maxNumber as real);
    ScaledDistance(o, total, maxNumber);
    Quotient(da, (total * maxNumber) as real, 100.0 * Deviation(o, total, maxNumber) as real);
  }

  /** x * k == y with k positive makes x the quotient y / k. */
  lemma Quotient(x: real, k: real, y: real)
    requires k > 0.0 && x * k == y
    ensures x == y / k
  {
  }

  /** Dividing by the same positive number keeps the order. */
  lemma DivisionOrder(x: real, y: real, k: real)
    requires k > 0.0
    ensures x / k <= y / k <==> x <= y
  {
    assert x / k * k == x && y / k * k == y;
    assert (y / k - x / k) * k == y - x;
  }

  /** A smaller deviation from the ideal means a higher closeness, and conversely. */
  lemma ClosenessOrder(a: nat, b: nat, total: nat, maxNumber: nat)
    requires total > 0 && maxNumber > 0
    ensures Closeness(a, total, maxNumber) <= Closeness(b, total, maxNumber)
      <==> Deviation(b, total, maxNumber) <= Deviation(a, total, maxNumber)
  {
    ClosenessIsDeviation(a, total, maxNumber);
    ClosenessIsDeviation(b, total, maxNumber);
    var ga, gb := Deviation(a, total, maxNumber) as real, Deviation(b, total, maxNumber) as real;
    DivisionOrder(100.0 * gb, 100.0 * ga, (total * maxNumber) as real);
  }

  /**
   How close the observed frequency (percent of draws) of `n` is to the uniform ideal
   100 / maxNumber: 100 minus three times the distance.
   */
  function FrequencyScore(p: Predictor, n: int): (r: real)
    requires Shaped(p) && Candidate(p, n)
    ensures r <= 100.0
    ensures r == 100.0 <==> StatsOf(p, n).occurrences * p.maxNumber == |p.historicalData|
  {
    RatioMatchesIdeal(StatsOf(p, n).occurrences, |p.historicalData|, p.maxNumber);
    Closeness(StatsOf(p, n).occurrences, |p.historicalData|, p.maxNumber)
  }

  /**
   The frequency score is measured from the share of draws that hold `n`.
   */
  lemma ShareOfDraws(p: Predictor, n: int)
    requires Shaped(p) && Candidate(p, n)
    ensures FrequencyScore(p, n)
      == 100.0 - 3.0 * Abs(Share(StatsOf(p, n).occurrences, |p.historicalData|) - 100.0 / p.maxNumber as real)
  {
  }

  /** How far `n`'s occurrences are from an exactly uniform share: |occurrences * maxNumber - draws|. */
  function Gap(p: Predictor, n: int): nat
    requires Shaped(p) && Candidate(p, n)
  {
    Deviation(StatsOf(p, n).occurrences, |p.historicalData|, p.maxNumber)
  }

  /**
   The frequency score orders candidates by closeness to the ideal: `a` scores at most
   `b` exactly when `a`'s gap is at least `b`'s.
   */
  lemma FrequencyCloserIsHigher(p: Predictor, a: int, b: int)
    requires Shaped(p) && Candidate(p, a) && Candidate(p, b)
    ensures FrequencyScore(p, a) <= FrequencyScore(p, b) <==> Gap(p, b) <= Gap(p, a)
  {
    ClosenessOrder(StatsOf(p, a).occurrences, StatsOf(p, b).occurrences, |p.historicalData|, p.maxNumber);
  }

  /** The largest of a non-empty list of counters. */
  function MaxCount(c: seq<nat>): (r: nat)
    requires |c| > 0
    ensures r in c
    ensures forall q :: 0 <= q < |c| ==> c[q] <= r
  {
    if |c| == 1 then c[0]
    else
      var rest := MaxCount(c[..|c| - 1]);
      if rest < c[|c| - 1] then c[|c| - 1] else rest
  }

  /** m / o * 100 is 0 exactly when m is, and at most 100 exactly when m <= o. */
  lemma PercentageBounds(m: nat, o: nat)
    requires o > 0
    ensures m as real / o as real * 100.0 >= 0.0
    ensures m as real / o as real * 100.0 == 0.0 <==> m == 0
    ensures m as real / o as real * 100.0 <= 100.0 <==> m <= o
  {
    var x, y := m as real, o as real;
    var r := x / y;
    assert r * y == x;
    assert r >= 0.0;
    assert r == 0.0 <==> m == 0;
    assert (r - 1.0) * y == x - y;
  }

  /** Share of the appearances spent at the most frequent tracked position, as a percentage. */
  function PositionalScore(p: Predictor, n: int): (r: real)
    requires Shaped(p) && Candidate(p, n)
    ensures StatsOf(p, n).occurrences == 0 ==> r == NeutralScore
    ensures StatsOf(p, n).occurrences > 0 ==> r >= 0.0
    ensures StatsOf(p, n).occurrences > 0 ==>
      (r == 0.0 <==> forall q :: 0 <= q < TrackedPositions ==> StatsOf(p, n).drawPositions[q] == 0)
    ensures StatsOf(p, n).occurrences > 0 ==>
      (r <= 100.0 <==> forall q :: 0 <= q < TrackedPositions ==> StatsOf(p, n).drawPositions[q] <= StatsOf(p, n).occurrences)
  {
    var st := StatsOf(p, n);
    var totalAppearances := st.occurrences;
    if totalAppearances == 0 then NeutralScore
    else
      var maxPositionCount := MaxCount(st.drawPositions);
      PercentageBounds(maxPositionCount, totalAppearances);
      maxPositionCount as real / totalAppearances as real * 100.0
  }

  /** Every number of the optional last draw is a candidate (others have no record to read). */
  predicate LastDrawInRange(p: Predictor, lastDraw: Option<seq<int>>) {
    lastDraw.Some? ==> forall k :: 0 <= k < |lastDraw.value| ==> 1 <= lastDraw.value[k] <= p.maxNumber
  }

  predicate AllCandidates(p: Predictor, s: seq<int>) {
    forall k :: 0 <= k < |s| ==> 1 <= s[k] <= p.maxNumber
  }

  /** Some earlier draw containing `prevNumber` was immediately followed by one containing `n`. */
  predicate Supports(p: Predictor, prevNumber: int, n: int)
    requires Shaped(p) && Candidate(p, prevNumber)
  {
    AfterCount(StatsOf(p, prevNumber), n) > 0
  }

  /** Transition count from `prevNumber` to `n`, as a percentage of all draws. */
  function NormalisedFrequency(p: Predictor, prevNumber: int, n: int): real
    requires Shaped(p) && Candidate(p, prevNumber)
  {
    AfterCount(StatsOf(p, prevNumber), n) as real / |p.historicalData| as real * 100.0
  }

  /**
   The normalised frequencies of the entries of `s` that support `n`, in the order of `s`
   and with multiplicity: the terms the affinity score averages.
   */
  function Affinities(p: Predictor, n: int, s: seq<int>): seq<real>
    requires Shaped(p) && AllCandidates(p, s)
  {
    if s == [] then []
    else
      var x := s[|s| - 1];
      Affinities(p, n, s[..|s| - 1]) + (if Supports(p, x, n) then [NormalisedFrequency(p, x, n)] else [])
  }

  function Sum(v: seq<real>): real {
    if v == [] then 0.0 else Sum(v[..|v| - 1]) + v[|v| - 1]
  }

  /** There is no term exactly when no entry of `s` supports `n`. */
  lemma {:induction false} AffinitiesEmpty(p: Predictor, n: int, s: seq<int>)
    requires Shaped(p) && AllCandidates(p, s)
    ensures Affinities(p, n, s) == [] <==> forall k :: 0 <= k < |s| ==> !Supports(p, s[k], n)
  {
    if s != [] {
      var e := s[..|s| - 1];
      assert forall k :: 0 <= k < |e| ==> e[k] == s[k];
      AffinitiesEmpty(p, n, e);
    }
  }

  /** Every term is the normalised frequency of a supporting entry, and lies within any bounds of those. */
  lemma {:induction false} AffinitiesBetween(p: Predictor, n: int, s: seq<int>, lo: real, hi: real)
    requires Shaped(p) && AllCandidates(p, s)
    requires forall k :: 0 <= k < |s| && Supports(p, s[k], n) ==> lo <= NormalisedFrequency(p, s[k], n) <= hi
    ensures forall i :: 0 <= i < |Affinities(p, n, s)| ==> lo <= Affinities(p, n, s)[i] <= hi
  {
    if s != [] {
      var e, x := s[..|s| - 1], s[|s| - 1];
      assert forall k :: 0 <= k < |e| ==> e[k] == s[k];
      AffinitiesBetween(p, n, e, lo, hi);
      assert Supports(p, x, n) ==> lo <= NormalisedFrequency(p, x, n) <= hi;
    }
  }

  /** A supporting entry has been followed by `n` at least once, so its term is positive. */
  lemma {:induction false} AffinitiesPositive(p: Predictor, n: int, s: seq<int>)
    requires Shaped(p) && AllCandidates(p, s)
    ensures forall i :: 0 <= i < |Affinities(p, n, s)| ==> Affinities(p, n, s)[i] > 0.0
  {
    if s != [] {
      var e, x := s[..|s| - 1], s[|s| - 1];
      assert forall k :: 0 <= k < |e| ==> e[k] == s[k];
      AffinitiesPositive(p, n, e);
      if Supports(p, x, n) {
        var c, t := AfterCount(StatsOf(p, x), n) as real, |p.historicalData| as real;
        assert c / t > 0.0;
      }
    }
  }

  /** A sum of terms within [lo, hi] lies within [count * lo, count * hi]. */
  lemma {:induction false} SumBetween(v: seq<real>, lo: real, hi: real)
    requires forall i :: 0 <= i < |v| ==> lo <= v[i] <= hi
    ensures |v| as real * lo <= Sum(v) <= |v| as real * hi
  {
    if v != [] {
      var e := v[..|v| - 1];
      assert forall i :: 0 <= i < |e| ==> e[i] == v[i];
      SumBetween(e, lo, hi);
      assert |v| as real * lo == |e| as real * lo + lo;
      assert |v| as real * hi == |e| as real * hi + hi;
    }
  }

  /** A non-empty sum of positive terms is positive. */
  lemma {:induction false} SumPositive(v: seq<real>)
    requires forall i :: 0 <= i < |v| ==> v[i] > 0.0
    ensures Sum(v) >= 0.0
    ensures v != [] ==> Sum(v) > 0.0
  {
    if v != [] {
      var e := v[..|v| - 1];
      assert forall i :: 0 <= i < |e| ==> e[i] == v[i];
      SumPositive(e);
    }
  }

  /** A quotient by a positive number keeps bounds scaled by that number. */
  lemma MeanBetween(sum: real, count: real, lo: real, hi: real)
    requires count > 0.0 && count * lo <= sum <= count * hi
    ensures lo <= sum / count <= hi
  {
    assert sum / count * count == sum;
  }

  /**
   The mean of the normalised transition counts towards `n` over the entries of the
   last draw that have one; 50 when there is no last draw or no such entry.
   */
  function AffinityScore(p: Predictor, n: int, lastDraw: Option<seq<int>>): (r: real)
    requires Shaped(p) && LastDrawInRange(p, lastDraw)
    ensures lastDraw.None? || lastDraw.value == [] ==> r == NeutralScore
    ensures lastDraw.Some? && (forall k :: 0 <= k < |lastDraw.value| ==> !Supports(p, lastDraw.value[k], n))
      ==> r == NeutralScore
    ensures lastDraw.Some? && (exists k :: 0 <= k < |lastDraw.value| && Supports(p, lastDraw.value[k], n))
      ==> r > 0.0
  {
    if lastDraw.None? || |lastDraw.value| == 0 then NeutralScore
    else
      var affinities := Affinities(p, n, lastDraw.value);
      AffinitiesEmpty(p, n, lastDraw.value);
      AffinitiesPositive(p, n, lastDraw.value);
      SumPositive(affinities);
      var affinityScore := Sum(affinities);
      var totalAffinities := |affinities|;
      if totalAffinities > 0 then affinityScore / totalAffinities as real else NeutralScore
  }

  /**
   When some entry of the last draw supports `n`, the affinity score is a mean: it lies
   between any lower and upper bound of the supporting normalised frequencies.
   */
  lemma AffinityIsMean(p: Predictor, n: int, lastDraw: seq<int>, lo: real, hi: real)
    requires Shaped(p) && AllCandidates(p, lastDraw)
    requires exists k :: 0 <= k < |lastDraw| && Supports(p, lastDraw[k], n)
    requires forall k :: 0 <= k < |lastDraw| && Supports(p, lastDraw[k], n) ==>
      lo <= NormalisedFrequency(p, lastDraw[k], n) <= hi
    ensures lo <= AffinityScore(p, n, Some(lastDraw)) <= hi
  {
    var affinities := Affinities(p, n, lastDraw);
    var count := |affinities| as real;
    assert count > 0.0 by {
      AffinitiesEmpty(p, n, lastDraw);
    }
    assert count * lo <= Sum(affinities) <= count * hi by {
      AffinitiesBetween(p, n, lastDraw, lo, hi);
      SumBetween(affinities, lo, hi);
    }
    assert AffinityScore(p, n, Some(lastDraw)) == Sum(affinities) / count;
    MeanBetween(Sum(affinities), count, lo, hi);
  }

  /** 0.35 overdue + 0.25 affinity + 0.25 frequency + 0.15 positional. */
  function CombinedScore(p: Predictor, n: int, lastDraw: Option<seq<int>>): real
    requires Shaped(p) && Candidate(p, n) && LastDrawInRange(p, lastDraw)
  {
    Combine(OverdueScore(p, n), AffinityScore(p, n, lastDraw), FrequencyScore(p, n), PositionalScore(p, n))
  }

  /** The weighted sum of the four sub-scores, in the order overdue, affinity, frequency, positional. */
  function Combine(overdue: real, affinity: real, frequency: real, positional: real): real {
    overdue * OverdueWeight + affinity * AffinityWeight
    + frequency * FrequencyWeight + positional * PositionalWeight
  }

  /**
   The weights are non-negative and add up to one, so the combination lies between
   any common lower and upper bound of the four sub-scores, and four equal sub-scores
   combine to that same value.
   */
  lemma CombinedIsWeightedMean(overdue: real, affinity: real, frequency: real, positional: real, lo: real, hi: real)
    requires lo <= overdue <= hi && lo <= affinity <= hi
    requires lo <= frequency <= hi && lo <= positional <= hi
    ensures lo <= Combine(overdue, affinity, frequency, positional) <= hi
    ensures Combine(lo, lo, lo, lo) == lo
  {
  }
}
