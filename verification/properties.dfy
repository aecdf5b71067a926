/**
 What the scores mean for the history a predictor was built from, and worked
 scenarios on small histories.
 */
module Properties {
  import opened Wrappers
  import opened Draws
  import opened Statistics
  import opened Engine
  import opened Scores
  import opened Prediction

  /**
   A number never drawn is maximally overdue, has the neutral positional score, and
   its frequency score is 100 - 3 * (100 / maxNumber).
   */
  lemma NeverDrawnScores(p: Predictor, n: int)
    requires Valid(p) && Candidate(p, n)
    requires forall i :: 0 <= i < |p.historicalData| ==> n !in p.historicalData[i]
    ensures OverdueScore(p, n) == 100.0
    ensures PositionalScore(p, n) == 50.0
    ensures FrequencyScore(p, n) == 100.0 - 300.0 / p.maxNumber as real
  {
    var h := p.historicalData;
    assert Summarises(h, n, p.statistics[n - 1]);
    LastAppearanceIsLatest(h, n);
    OccurrencesZero(h, n);
    assert StatsOf(p, n).occurrences == 0;
    var t, m := |h| as real, p.maxNumber as real;
    assert 0.0 / t * 100.0 == 0.0;
    assert Abs(0.0 - 100.0 / m) == 100.0 / m;
    assert 100.0 / m * 3.0 == 300.0 / m;
  }

  /** The overdue score is 0 exactly for the numbers of the most recent draw. */
  lemma OverdueZeroIffInLastDraw(p: Predictor, n: int)
    requires Valid(p) && Candidate(p, n)
    ensures OverdueScore(p, n) == 0.0 <==> n in p.historicalData[|p.historicalData| - 1]
  {
    var h := p.historicalData;
    assert Summarises(h, n, p.statistics[n - 1]);
    if n !in h[|h| - 1] {
      var last := LastAppearance(h[..|h| - 1], n);
      assert last.Some? ==> last.value < |h| - 1;
    }
  }

  /** On the statistics of a history, the positional score lies in [0, 100]. */
  lemma PositionalScoreInRange(p: Predictor, n: int)
    requires Valid(p) && Candidate(p, n)
    ensures 0.0 <= PositionalScore(p, n) <= 100.0
  {
    var h, st := p.historicalData, StatsOf(p, n);
    assert forall q :: 0 <= q < TrackedPositions ==> st.drawPositions[q] <= st.occurrences by {
      assert Summarises(h, n, st);
      PositionSumBound(h, n);
      assert st.drawPositions[0] + st.drawPositions[1] + st.drawPositions[2]
        + st.drawPositions[3] + st.drawPositions[4] <= st.occurrences;
    }
  }

  /**
   A number that was drawn scores 0 positionally exactly when it never sat at one of
   the five tracked positions (it only appeared at index 5 or beyond).
   */
  lemma PositionalZeroIffOnlyUntracked(p: Predictor, n: int)
    requires Valid(p) && Candidate(p, n) && StatsOf(p, n).occurrences > 0
    ensures PositionalScore(p, n) == 0.0
      <==> forall i, q :: 0 <= i < |p.historicalData| && 0 <= q < TrackedPositions && q < |p.historicalData[i]|
             ==> p.historicalData[i][q] != n
  {
    var h := p.historicalData;
    assert Summarises(h, n, p.statistics[n - 1]);
    PositionCountZero(h, n, 0);
    PositionCountZero(h, n, 1);
    PositionCountZero(h, n, 2);
    PositionCountZero(h, n, 3);
    PositionCountZero(h, n, 4);
  }

  /**
   `prevNumber` supports `n` exactly when some draw containing `n` immediately follows a
   draw containing `prevNumber`, and its normalised frequency is the transition count
   over the number of draws, as a percentage.
   */
  lemma SupportMeansTransition(p: Predictor, prevNumber: int, n: int)
    requires Valid(p) && Candidate(p, prevNumber)
    ensures Supports(p, prevNumber, n) <==> exists i :: Follows(p.historicalData, i, prevNumber, n)
    ensures NormalisedFrequency(p, prevNumber, n)
      == Transitions(p.historicalData, prevNumber, n) as real / |p.historicalData| as real * 100.0
  {
    assert Summarises(p.historicalData, prevNumber, p.statistics[prevNumber - 1]);
    TransitionsPositive(p.historicalData, prevNumber, n);
  }

  /**
   If no draw containing `n` ever followed a draw containing a number of the last
   draw, the affinity score is the neutral 50.
   */
  lemma AffinityNeutralWithoutTransitions(p: Predictor, n: int, lastDraw: seq<int>)
    requires Valid(p) && AllCandidates(p, lastDraw)
    requires forall k, i :: 0 <= k < |lastDraw| ==> !Follows(p.historicalData, i, lastDraw[k], n)
    ensures AffinityScore(p, n, Some(lastDraw)) == 50.0
  {
    forall k | 0 <= k < |lastDraw|
      ensures !Supports(p, lastDraw[k], n)
    {
      SupportMeansTransition(p, lastDraw[k], n);
    }
  }

  /**
   The reported draws-since count `d` means: the draw `d` places before the end holds
   `n` and none of the `d` later draws does; no count means no draw holds `n`.
   */
  lemma DrawsSinceMeaning(p: Predictor, n: int)
    requires Valid(p) && Candidate(p, n)
    ensures GetNumberStats(p, n).Some?
    ensures var since := GetNumberStats(p, n).value.drawsSinceLastAppearance;
      && (since.None? <==> forall i :: 0 <= i < |p.historicalData| ==> n !in p.historicalData[i])
      && (since.Some? ==>
            && 0 <= since.value < |p.historicalData|
            && n in p.historicalData[|p.historicalData| - 1 - since.value]
            && forall i :: |p.historicalData| - since.value <= i < |p.historicalData| ==> n !in p.historicalData[i])
  {
    assert Summarises(p.historicalData, n, p.statistics[n - 1]);
    LastAppearanceIsLatest(p.historicalData, n);
  }

  /**
   The reported frequency is the share of draws holding `n`, duplicates counted: by
   `Share`'s contract, times the number of draws it gives 100 times the occurrences.
   */
  lemma ReportedFrequency(p: Predictor, n: int)
    requires Valid(p) && Candidate(p, n)
    ensures GetNumberStats(p, n).Some?
    ensures GetNumberStats(p, n).value.frequency == Share(Occurrences(p.historicalData, n), |p.historicalData|)
  {
    assert Summarises(p.historicalData, n, p.statistics[n - 1]);
    assert GetNumberStats(p, n).value == Report(p, n);
  }

  /** The three-draw history used in the worked scenario. */
  function ExampleHistory(): History {
    [[1, 2, 3, 4, 5], [2, 3, 4, 5, 6], [1, 3, 5, 7, 9]]
  }

  /** The largest number of the example history is 9. */
  lemma ExampleMaxNumber()
    ensures MaxNumber(ExampleHistory()) == 9
  {
    var h := ExampleHistory();
    MaxNumberBounds(h);
    assert 9 == h[2][4];
    var m := MaxNumber(h);
    if m != 0 {
      var i :| 0 <= i < |h| && m in h[i];
      assert i == 0 || i == 1 || i == 2;
    }
  }

  /**
   On the example history: maxNumber is 9; 7 (drawn once, in the final draw) has
   overdue score 0; 8 (never drawn) has overdue score 100; 10 has no report.
   */
  lemma ExampleScenario(p: Predictor)
    requires Valid(p) && p.historicalData == ExampleHistory()
    ensures p.maxNumber == 9
    ensures StatsOf(p, 7).occurrences == 1 && StatsOf(p, 7).lastAppearance == Some(2)
    ensures OverdueScore(p, 7) == 0.0
    ensures OverdueScore(p, 8) == 100.0
    ensures GetNumberStats(p, 10).None?
  {
    var h := ExampleHistory();
    ExampleMaxNumber();
    assert Summarises(h, 7, p.statistics[6]);
    ExampleSeven();
    assert 7 in h[2];
    OverdueZeroIffInLastDraw(p, 7);
    assert forall i :: 0 <= i < |h| ==> 8 !in h[i];
    NeverDrawnScores(p, 8);
  }

  /** 7 occurs once in the example history, in its final draw. */
  lemma ExampleSeven()
    ensures Occurrences(ExampleHistory(), 7) == 1
  {
    var h := ExampleHistory();
    var g := h[..2];
    assert h == g + [h[2]];
    assert forall i :: 0 <= i < |g| ==> 7 !in g[i];
    OccurrencesZero(g, 7);
    AppendDraw(g, h[2], 7);
    assert h[2] == [1, 3, 5, 7] + [9];
    assert [1, 3, 5, 7] == [1, 3, 5] + [7];
    assert Count(7, [1, 3, 5]) == 0 by { CountPositive(7, [1, 3, 5]); }
  }

  /**
   A neutral positional score does not mean "never drawn": 1, drawn once at position 0
   and once at position 1, also scores 50.
   */
  lemma PositionalFiftyWhileDrawn(p: Predictor)
    requires Valid(p) && p.historicalData == [[1, 2], [2, 1]]
    ensures StatsOf(p, 1).occurrences == 2
    ensures PositionalScore(p, 1) == 50.0
  {
    var h := p.historicalData;
    MaxNumberBounds(h);
    assert 2 in h[0];
    assert Summarises(h, 1, p.statistics[0]);
    assert h == [[1, 2]] + [[2, 1]];
    assert [[1, 2]] == [] + [[1, 2]];
    AppendDraw([], [1, 2], 1);
    AppendDraw([[1, 2]], [2, 1], 1);
    assert Count(1, [1, 2]) == 1 && Count(1, [2, 1]) == 1;
    assert PositionCount(h, 1, 0) == 1;
    assert PositionCount(h, 1, 1) == 1;
  }

  /**
   Duplicates inside a draw count once per copy, and transition counts multiply:
   two copies of 1 followed by two copies of 2 record four transitions.
   */
  lemma DuplicatesMultiply(p: Predictor)
    requires Valid(p) && p.historicalData == [[1, 1], [2, 2]]
    ensures StatsOf(p, 1).occurrences == 2
    ensures AfterCount(StatsOf(p, 1), 2) == 4
  {
    var h := p.historicalData;
    MaxNumberBounds(h);
    assert 2 in h[1];
    assert Summarises(h, 1, p.statistics[0]);
    assert h == [[1, 1]] + [[2, 2]];
    assert [[1, 1]] == [] + [[1, 1]];
    AppendDraw([], [1, 1], 1);
    AppendDraw([[1, 1]], [2, 2], 1);
    AppendDrawTransitions([[1, 1]], [2, 2], 1, 2);
    AppendDrawTransitions([], [1, 1], 1, 2);
    PairCountIsProduct(1, [1, 1], 2, [2, 2]);
    assert Count(1, [1, 1]) == 2 && Count(1, [2, 2]) == 0;
    assert Count(2, [2, 2]) == 2;
  }
}
