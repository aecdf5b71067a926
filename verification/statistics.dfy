/**
 The per-number statistics table and the one-pass analysis that fills it
 (findMaxNumber, initializeStatistics and analyze of the predictor).
 */
module Statistics {
  import opened Wrappers
  import opened Draws

  /**
   What the predictor records about one candidate number. `afterDrawFrequency`
   is keyed by successor numbers; a key is present only once its count is at least 1.
   */
  datatype NumberStats = NumberStats(
    occurrences: nat,
    lastAppearance: Option<nat>,
    afterDrawFrequency: map<int, nat>,
    drawPositions: seq<nat>)

  /** The recorded transition count towards `m`, reading a missing key as 0. */
  function AfterCount(st: NumberStats, m: int): nat {
    if m in st.afterDrawFrequency then st.afterDrawFrequency[m] else 0
  }

  /** Every count stored in the transition table is at least 1. */
  ghost predicate StoredCountsPositive(st: NumberStats) {
    forall m :: m in st.afterDrawFrequency ==> st.afterDrawFrequency[m] >= 1
  }

  /** `st` is exactly what history `h` says about number `n`. */
  ghost predicate Summarises(h: History, n: int, st: NumberStats) {
    && st.occurrences == Occurrences(h, n)
    && st.lastAppearance == LastAppearance(h, n)
    && |st.drawPositions| == TrackedPositions
    && (forall q :: 0 <= q < TrackedPositions ==> st.drawPositions[q] == PositionCount(h, n, q))
    && (forall m :: AfterCount(st, m) == Transitions(h, n, m))
    && StoredCountsPositive(st)
  }

  const EmptyStats := NumberStats(0, None, map[], [0, 0, 0, 0, 0])

  /** One fresh entry per number 1..maxNumber; entry n sits at index n - 1. */
  function InitializeStatistics(maxNumber: nat): (r: seq<NumberStats>)
    ensures |r| == maxNumber
    ensures forall t :: 0 <= t < |r| ==> Summarises([], t + 1, r[t])
  {
    seq(maxNumber, _ => EmptyStats)
  }

  /** Scans every number of every draw, keeping the largest seen, starting from 0. */
  method FindMaxNumber(h: History) returns (max: int)
    ensures max == MaxNumber(h)
    ensures forall i, j :: 0 <= i < |h| && 0 <= j < |h[i]| ==> h[i][j] <= max
  {
    max := 0;
    assert h[..0] == [];
    for i := 0 to |h|
      invariant max == MaxNumber(h[..i])
    {
      var draw := h[i];
      var before := max;
      assert draw[..0] == [];
      for j := 0 to |draw|
        invariant max == Larger(before, MaxIn(draw[..j]))
      {
        assert draw[..j + 1][..j] == draw[..j];
        assert MaxIn(draw[..j + 1]) == Larger(MaxIn(draw[..j]), draw[j]);
        if draw[j] > max {
          max := draw[j];
        }
      }
      assert draw[..|draw|] == draw;
      assert h[..i + 1][..i] == h[..i];
      assert MaxNumber(h[..i + 1]) == Larger(MaxNumber(h[..i]), MaxIn(draw));
    }
    assert h[..|h|] == h;
    MaxNumberBounds(h);
  }

  /**
   Counts one more transition from `prevNumber` to `number`, creating the key at 1
   when it is missing.
   */
  function AddTransition(stats: seq<NumberStats>, prevNumber: int, number: int): (r: seq<NumberStats>)
    requires 1 <= prevNumber <= |stats|
    ensures |r| == |stats|
    ensures forall t :: 0 <= t < |r| ==> r[t] == stats[t].(afterDrawFrequency := r[t].afterDrawFrequency)
    ensures forall t, m :: 0 <= t < |r| ==>
      AfterCount(r[t], m) == AfterCount(stats[t], m) + (if t == prevNumber - 1 && m == number then 1 else 0)
    ensures forall t :: 0 <= t < |r| && StoredCountsPositive(stats[t]) ==> StoredCountsPositive(r[t])
  {
    var entry := stats[prevNumber - 1];
    var current := if number in entry.afterDrawFrequency then entry.afterDrawFrequency[number] else 0;
    stats[prevNumber - 1 := entry.(afterDrawFrequency := entry.afterDrawFrequency[number := current + 1])]
  }

  /**
   Adds one transition from every number of `previousDraw` (duplicates included)
   towards `number`; nothing else in the table changes.
   */
  method RecordTransitions(previousDraw: Draw, number: int, stats: seq<NumberStats>)
    returns (r: seq<NumberStats>)
    requires forall k :: 0 <= k < |previousDraw| ==> 1 <= previousDraw[k] <= |stats|
    ensures |r| == |stats|
    ensures forall t :: 0 <= t < |r| ==> r[t] == stats[t].(afterDrawFrequency := r[t].afterDrawFrequency)
    ensures forall t, m :: 0 <= t < |r| ==>
      AfterCount(r[t], m) == AfterCount(stats[t], m) + (if m == number then Count(t + 1, previousDraw) else 0)
    ensures forall t :: 0 <= t < |r| && StoredCountsPositive(stats[t]) ==> StoredCountsPositive(r[t])
  {
    r := stats;
    assert previousDraw[..0] == [];
    assert forall n :: Count(n, previousDraw[..0]) == 0;
    for k := 0 to |previousDraw|
      invariant |r| == |stats|
      invariant forall t :: 0 <= t < |r| ==> r[t] == stats[t].(afterDrawFrequency := r[t].afterDrawFrequency)
      invariant forall t, m :: 0 <= t < |r| ==>
        AfterCount(r[t], m) == AfterCount(stats[t], m) + (if m == number then Count(t + 1, previousDraw[..k]) else 0)
      invariant forall t :: 0 <= t < |r| && StoredCountsPositive(stats[t]) ==> StoredCountsPositive(r[t])
    {
      var prevNumber := previousDraw[k];
      r := AddTransition(r, prevNumber, number);
      forall n
        ensures Count(n, previousDraw[..k + 1]) == Count(n, previousDraw[..k]) + (if prevNumber == n then 1 else 0)
      {
        CountPrefixStep(n, previousDraw, k);
      }
    }
    assert previousDraw[..|previousDraw|] == previousDraw;
  }

  /** Reading slot `|d|` as `x` adds one transition from every copy of `n` in the previous draw. */
  lemma TransitionsSlotStep(g: History, d: Draw, x: int, n: int, m: int)
    ensures Transitions(g + [d + [x]], n, m)
      == Transitions(g + [d], n, m) + (if g != [] && m == x then Count(n, g[|g| - 1]) else 0)
  {
    AppendDrawTransitions(g, d, n, m);
    AppendDrawTransitions(g, d + [x], n, m);
    if g != [] {
      PairCountSnoc(n, g[|g| - 1], m, d, x);
    }
  }

  /** Reading slot `|d|` as `x` moves every other statistic of `n` by at most one. */
  lemma CountersSlotStep(g: History, d: Draw, x: int, n: int)
    ensures Occurrences(g + [d + [x]], n) == Occurrences(g + [d], n) + (if n == x then 1 else 0)
    ensures LastAppearance(g + [d + [x]], n) == if n == x then Some(|g|) else LastAppearance(g + [d], n)
    ensures forall q: nat ::
      PositionCount(g + [d + [x]], n, q) == PositionCount(g + [d], n, q) + (if q == |d| && n == x then 1 else 0)
  {
    AppendDraw(g, d, n);
    AppendDraw(g, d + [x], n);
    CountSnoc(n, d, x);
    assert n in d + [x] <==> n in d || n == x;
    forall q: nat
      ensures PositionCount(g + [d + [x]], n, q)
        == PositionCount(g + [d], n, q) + (if q == |d| && n == x then 1 else 0)
    {
      assert q < |d| ==> (d + [x])[q] == d[q];
    }
  }

  /**
   How the record of `n` must change when slot `|d|` of the draw being read (whose
   first slots are `d`) turns out to hold `x`, for the result to describe the longer prefix.
   */
  lemma SlotStep(g: History, d: Draw, x: int, n: int, before: NumberStats, after: NumberStats)
    requires Summarises(g + [d], n, before)
    requires after.occurrences == before.occurrences + (if n == x then 1 else 0)
    requires after.lastAppearance == if n == x then Some(|g|) else before.lastAppearance
    requires |after.drawPositions| == TrackedPositions
    requires forall q :: 0 <= q < TrackedPositions ==>
      after.drawPositions[q] == before.drawPositions[q] + (if q == |d| && n == x then 1 else 0)
    requires forall m ::
      AfterCount(after, m) == AfterCount(before, m) + (if g != [] && m == x then Count(n, g[|g| - 1]) else 0)
    requires StoredCountsPositive(after)
    ensures Summarises(g + [d + [x]], n, after)
  {
    CountersSlotStep(g, d, x, n);
    forall m
      ensures AfterCount(after, m) == Transitions(g + [d + [x]], n, m)
    {
      TransitionsSlotStep(g, d, x, n, m);
    }
  }

  /** A draw with nothing read from it yet changes no statistic. */
  lemma EmptyDrawChangesNothing(g: History, n: int, st: NumberStats)
    requires Summarises(g, n, st)
    ensures Summarises(g + [[]], n, st)
  {
    AppendDraw(g, [], n);
    forall m
      ensures Transitions(g + [[]], n, m) == Transitions(g, n, m)
    {
      AppendDrawTransitions(g, [], n, m);
    }
  }

  /**
   Reads one slot of draw `drawIndex`, whose earlier slots `d` have been read: the
   number there gains an occurrence, its last appearance, a position count while the
   slot is tracked, and every number of the previous draw gains a transition to it.
   */
  method ReadSlot(h: History, drawIndex: nat, d: Draw, number: int, stats: seq<NumberStats>)
    returns (r: seq<NumberStats>)
    requires ValidHistory(h) && drawIndex < |h| && |stats| == MaxNumber(h) && 1 <= number <= |stats|
    requires forall t :: 0 <= t < |stats| ==> Summarises(h[..drawIndex] + [d], t + 1, stats[t])
    ensures |r| == |stats|
    ensures forall t :: 0 <= t < |r| ==> Summarises(h[..drawIndex] + [d + [number]], t + 1, r[t])
  {
    var g := h[..drawIndex];
    var entry := stats[number - 1];
    var positions := entry.drawPositions;
    if |d| < TrackedPositions {
      positions := positions[|d| := positions[|d|] + 1];
    }
    var bumped := stats[number - 1 := entry.(occurrences := entry.occurrences + 1,
                                             lastAppearance := Some(drawIndex),
                                             drawPositions := positions)];
    r := bumped;
    if drawIndex > 0 {
      MaxNumberBounds(h);
      r := RecordTransitions(h[drawIndex - 1], number, bumped);
      assert g[|g| - 1] == h[drawIndex - 1];
    }
    forall t | 0 <= t < |r|
      ensures Summarises(g + [d + [number]], t + 1, r[t])
    {
      SlotStep(g, d, number, t + 1, stats[t], r[t]);
    }
  }

  /** Reads draw `drawIndex` slot by slot, as the body of the analysis loop does. */
  method AnalyzeDraw(h: History, drawIndex: nat, stats: seq<NumberStats>) returns (r: seq<NumberStats>)
    requires ValidHistory(h) && drawIndex < |h| && |stats| == MaxNumber(h)
    requires forall t :: 0 <= t < |stats| ==> Summarises(h[..drawIndex], t + 1, stats[t])
    ensures |r| == |stats|
    ensures forall t :: 0 <= t < |r| ==> Summarises(h[..drawIndex + 1], t + 1, r[t])
  {
    var g := h[..drawIndex];
    var draw := h[drawIndex];
    MaxNumberBounds(h);
    r := stats;
    forall t | 0 <= t < |r|
      ensures Summarises(g + [draw[..0]], t + 1, r[t])
    {
      assert draw[..0] == [];
      EmptyDrawChangesNothing(g, t + 1, r[t]);
    }
    for positionIndex := 0 to |draw|
      invariant |r| == |stats|
      invariant forall t :: 0 <= t < |r| ==> Summarises(g + [draw[..positionIndex]], t + 1, r[t])
    {
      var number := draw[positionIndex];
      r := ReadSlot(h, drawIndex, draw[..positionIndex], number, r);
      assert draw[..positionIndex + 1] == draw[..positionIndex] + [number];
    }
    assert draw[..|draw|] == draw;
    assert h[..drawIndex + 1] == g + [draw];
  }

  /**
   The single chronological pass: starting from a table that describes no draws, the
   result describes the whole history, for every number 1..maxNumber.
   */
  method Analyze(h: History, init: seq<NumberStats>) returns (stats: seq<NumberStats>)
    requires ValidHistory(h) && |init| == MaxNumber(h)
    requires forall t :: 0 <= t < |init| ==> Summarises([], t + 1, init[t])
    ensures |stats| == |init|
    ensures forall t :: 0 <= t < |stats| ==> Summarises(h, t + 1, stats[t])
  {
    stats := init;
    assert h[..0] == [];
    for drawIndex := 0 to |h|
      invariant |stats| == |init|
      invariant forall t :: 0 <= t < |stats| ==> Summarises(h[..drawIndex], t + 1, stats[t])
    {
      stats := AnalyzeDraw(h, drawIndex, stats);
    }
    assert h[..|h|] == h;
  }
}
