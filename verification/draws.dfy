/**
 Historical draws and the closed-form quantities the predictor derives from them.
 Every function here is defined by recursion on the LAST element, so that the
 one-pass analysis (which extends a prefix of the history one slot at a time)
 can be related to them step by step.
 */
module Draws {
  import opened Wrappers

  /** One lottery event: the numbers drawn, in drawing order. */
  type Draw = seq<int>

  /** Past draws, oldest first; the index of a draw is its chronological position. */
  type History = seq<Draw>

  /** Number of leading positions of a draw that are tracked individually. */
  const TrackedPositions: nat := 5

  /** Every drawn number is a positive integer (the statistics table is indexed by it). */
  predicate ValidHistory(h: History) {
    forall i, j :: 0 <= i < |h| && 0 <= j < |h[i]| ==> 1 <= h[i][j]
  }

  function Larger(a: int, b: int): int {
    if a < b then b else a
  }

  /** Copies of `n` in draw `d`: duplicates inside a draw are counted one by one. */
  function Count(n: int, d: Draw): nat {
    if d == [] then 0 else Count(n, d[..|d| - 1]) + (if d[|d| - 1] == n then 1 else 0)
  }

  /** A draw holds a copy of `n` exactly when it contains `n`. */
  lemma CountPositive(n: int, d: Draw)
    ensures Count(n, d) > 0 <==> n in d
  {
    CountIsMultiplicity(n, d);
  }

  /** Count is the multiplicity of `n` in the draw taken as a multiset. */
  lemma {:induction false} CountIsMultiplicity(n: int, d: Draw)
    ensures Count(n, d) == multiset(d)[n]
  {
    if d != [] {
      assert d == d[..|d| - 1] + [d[|d| - 1]];
      CountIsMultiplicity(n, d[..|d| - 1]);
    }
  }

  /** Number of (draw, position) slots holding `n`, duplicates included. */
  function Occurrences(h: History, n: int): nat {
    if h == [] then 0 else Occurrences(h[..|h| - 1], n) + Count(n, h[|h| - 1])
  }

  /** Index of the most recent draw containing `n`, or None if no draw does. */
  function LastAppearance(h: History, n: int): (r: Option<nat>)
    ensures r.Some? ==> r.value < |h| && n in h[r.value]
  {
    if h == [] then None
    else if n in h[|h| - 1] then Some(|h| - 1)
    else LastAppearance(h[..|h| - 1], n)
  }

  /** Number of draws whose slot `q` holds `n`. */
  function PositionCount(h: History, n: int, q: nat): (r: nat)
    ensures r <= |h|
  {
    if h == [] then 0
    else PositionCount(h[..|h| - 1], n, q) + (if q < |h[|h| - 1]| && h[|h| - 1][q] == n then 1 else 0)
  }

  /** Draw `i` holds `m` and the draw just before it holds `p`. */
  predicate Follows(h: History, i: int, p: int, m: int) {
    1 <= i < |h| && p in h[i - 1] && m in h[i]
  }

  /**
   Transitions contributed by one pair of consecutive draws (`a` then `b`): for every
   copy of `m` in `b`, one per copy of `p` in `a`.
   */
  function PairCount(p: int, a: Draw, m: int, b: Draw): nat {
    if b == [] then 0
    else PairCount(p, a, m, b[..|b| - 1]) + (if b[|b| - 1] == m then Count(p, a) else 0)
  }

  /**
   Sum over consecutive pairs of draws (i-1, i), i >= 1, of the pairs (copy of `p` in
   draw i-1, copy of `m` in draw i); the first draw has no predecessor.
   */
  function Transitions(h: History, p: int, m: int): nat {
    if |h| <= 1 then 0
    else Transitions(h[..|h| - 1], p, m) + PairCount(p, h[|h| - 2], m, h[|h| - 1])
  }

  /** Largest number of a draw, starting from 0. */
  function MaxIn(d: Draw): (r: int)
    ensures r >= 0
  {
    if d == [] then 0 else Larger(MaxIn(d[..|d| - 1]), d[|d| - 1])
  }

  /** Largest number anywhere in the history, starting from 0. */
  function MaxNumber(h: History): (r: int)
    ensures r >= 0
  {
    if h == [] then 0 else Larger(MaxNumber(h[..|h| - 1]), MaxIn(h[|h| - 1]))
  }

  /** Occurrences of `n` in the untracked tail (positions 5 and beyond) of every draw. */
  function LateOccurrences(h: History, n: int): nat {
    if h == [] then 0 else LateOccurrences(h[..|h| - 1], n) + Count(n, Untracked(h[|h| - 1]))
  }

  function Untracked(d: Draw): Draw {
    if |d| <= TrackedPositions then [] else d[TrackedPositions..]
  }

  /** Sum of the five position counters of `n`. */
  function PositionSum(h: History, n: int): nat {
    PositionCount(h, n, 0) + PositionCount(h, n, 1) + PositionCount(h, n, 2)
    + PositionCount(h, n, 3) + PositionCount(h, n, 4)
  }

  /** Copies of `n` among the tracked slots of one draw. */
  function TrackedHits(n: int, d: Draw): nat {
    (if 0 < |d| && d[0] == n then 1 else 0) + (if 1 < |d| && d[1] == n then 1 else 0)
    + (if 2 < |d| && d[2] == n then 1 else 0) + (if 3 < |d| && d[3] == n then 1 else 0)
    + (if 4 < |d| && d[4] == n then 1 else 0)
  }

  /** Extending a draw by one number adds one copy of that number and nothing else. */
  lemma CountSnoc(n: int, d: Draw, x: int)
    ensures Count(n, d + [x]) == Count(n, d) + (if x == n then 1 else 0)
  {
    assert (d + [x])[..|d|] == d;
  }

  /** How the counters of `n` change when one more draw is appended. */
  lemma AppendDraw(g: History, d: Draw, n: int)
    ensures Occurrences(g + [d], n) == Occurrences(g, n) + Count(n, d)
    ensures LastAppearance(g + [d], n) == if n in d then Some(|g|) else LastAppearance(g, n)
    ensures forall q: nat ::
      PositionCount(g + [d], n, q) == PositionCount(g, n, q) + (if q < |d| && d[q] == n then 1 else 0)
    ensures LateOccurrences(g + [d], n) == LateOccurrences(g, n) + Count(n, Untracked(d))
  {
    assert (g + [d])[..|g|] == g;
  }

  /** Appending a draw adds the pairs it forms with the previous last draw. */
  lemma AppendDrawTransitions(g: History, d: Draw, p: int, m: int)
    ensures Transitions(g + [d], p, m)
      == if g == [] then 0 else Transitions(g, p, m) + PairCount(p, g[|g| - 1], m, d)
  {
    assert (g + [d])[..|g|] == g;
  }

  /** Extending the successor draw by `x` adds one transition per copy of `p` when `x` is `m`. */
  lemma PairCountSnoc(p: int, a: Draw, m: int, b: Draw, x: int)
    ensures PairCount(p, a, m, b + [x]) == PairCount(p, a, m, b) + (if x == m then Count(p, a) else 0)
  {
    assert (b + [x])[..|b|] == b;
  }

  /** A pair of draws contributes (copies of `p` in `a`) * (copies of `m` in `b`) transitions. */
  lemma {:induction false} PairCountIsProduct(p: int, a: Draw, m: int, b: Draw)
    ensures PairCount(p, a, m, b) == Count(p, a) * Count(m, b)
  {
    if b != [] {
      var e, x := b[..|b| - 1], b[|b| - 1];
      PairCountIsProduct(p, a, m, e);
      assert b == e + [x];
      CountSnoc(m, e, x);
      if x == m {
        MultiplySucc(Count(p, a), Count(m, e));
      }
    }
  }

  lemma MultiplySucc(c: nat, k: nat)
    ensures c * (k + 1) == c * k + c
  {
  }

  /** Counting over a prefix one slot longer adds that slot. */
  lemma CountPrefixStep(n: int, d: Draw, k: nat)
    requires k < |d|
    ensures Count(n, d[..k + 1]) == Count(n, d[..k]) + (if d[k] == n then 1 else 0)
  {
    assert d[..k + 1] == d[..k] + [d[k]];
    CountSnoc(n, d[..k], d[k]);
  }

  /** Within one draw, the tracked copies and the untracked copies make up all copies. */
  lemma TrackedPlusUntracked(n: int, d: Draw)
    ensures TrackedHits(n, d) + Count(n, Untracked(d)) == Count(n, d)
  {
    var m := if |d| <= TrackedPositions then |d| else TrackedPositions;
    assert d == d[..m] + d[m..];
    CountAppend(n, d[..m], d[m..]);
    assert Untracked(d) == d[m..];
    TrackedHitsCountPrefix(n, d);
  }

  /** The tracked copies are the copies among the first (at most five) slots. */
  lemma TrackedHitsCountPrefix(n: int, d: Draw)
    ensures TrackedHits(n, d) == Count(n, d[..if |d| <= TrackedPositions then |d| else TrackedPositions])
  {
    var m := if |d| <= TrackedPositions then |d| else TrackedPositions;
    assert d[..0] == [];
    if 0 < m { CountPrefixStep(n, d, 0); }
    if 1 < m { CountPrefixStep(n, d, 1); }
    if 2 < m { CountPrefixStep(n, d, 2); }
    if 3 < m { CountPrefixStep(n, d, 3); }
    if 4 < m { CountPrefixStep(n, d, 4); }
    if m == 0 {
    } else if m == 1 {
      assert TrackedHits(n, d) == Count(n, d[..1]);
    } else if m == 2 {
      assert TrackedHits(n, d) == Count(n, d[..2]);
    } else if m == 3 {
      assert TrackedHits(n, d) == Count(n, d[..3]);
    } else if m == 4 {
      assert TrackedHits(n, d) == Count(n, d[..4]);
    } else {
      assert TrackedHits(n, d) == Count(n, d[..5]);
    }
  }

  /** Counting over two concatenated draws adds the counts. */
  lemma CountAppend(n: int, a: Draw, b: Draw)
    ensures Count(n, a + b) == Count(n, a) + Count(n, b)
  {
    CountIsMultiplicity(n, a);
    CountIsMultiplicity(n, b);
    CountIsMultiplicity(n, a + b);
    assert multiset(a + b) == multiset(a) + multiset(b);
  }

  /**
   The five position counters of `n` add up to its occurrences minus the copies
   sitting at positions 5 and beyond.
   */
  lemma {:induction false} PositionSumSplit(h: History, n: int)
    ensures PositionSum(h, n) + LateOccurrences(h, n) == Occurrences(h, n)
  {
    if h != [] {
      var g, d := h[..|h| - 1], h[|h| - 1];
      assert h == g + [d];
      PositionSumSplit(g, n);
      AppendDraw(g, d, n);
      PositionSumStep(g, d, n);
      TrackedPlusUntracked(n, d);
    }
  }

  /** Appending a draw adds its tracked copies of `n` to the sum of the position counters. */
  lemma PositionSumStep(g: History, d: Draw, n: int)
    ensures PositionSum(g + [d], n) == PositionSum(g, n) + TrackedHits(n, d)
  {
    AppendDraw(g, d, n);
    assert PositionCount(g + [d], n, 0) == PositionCount(g, n, 0) + (if 0 < |d| && d[0] == n then 1 else 0);
    assert PositionCount(g + [d], n, 1) == PositionCount(g, n, 1) + (if 1 < |d| && d[1] == n then 1 else 0);
    assert PositionCount(g + [d], n, 2) == PositionCount(g, n, 2) + (if 2 < |d| && d[2] == n then 1 else 0);
    assert PositionCount(g + [d], n, 3) == PositionCount(g, n, 3) + (if 3 < |d| && d[3] == n then 1 else 0);
    assert PositionCount(g + [d], n, 4) == PositionCount(g, n, 4) + (if 4 < |d| && d[4] == n then 1 else 0);
  }

  /**
   The five position counters never exceed the occurrence count, and they add up to it
   exactly when `n` never sits at a position of index 5 or more.
   */
  lemma PositionSumBound(h: History, n: int)
    ensures PositionSum(h, n) <= Occurrences(h, n)
    ensures PositionSum(h, n) == Occurrences(h, n)
      <==> forall i, j :: 0 <= i < |h| && TrackedPositions <= j < |h[i]| ==> h[i][j] != n
  {
    PositionSumSplit(h, n);
    LateOccurrencesZero(h, n);
  }

  /** No late occurrence exactly when `n` never sits at a position of index 5 or more. */
  lemma {:induction false} LateOccurrencesZero(h: History, n: int)
    ensures LateOccurrences(h, n) == 0
      <==> forall i, j :: 0 <= i < |h| && TrackedPositions <= j < |h[i]| ==> h[i][j] != n
  {
    if h != [] {
      var g, d := h[..|h| - 1], h[|h| - 1];
      LateOccurrencesZero(g, n);
      CountPositive(n, Untracked(d));
      assert forall i :: 0 <= i < |g| ==> g[i] == h[i];
      assert n in Untracked(d) <==> exists j :: TrackedPositions <= j < |d| && d[j] == n by {
        if |d| > TrackedPositions {
          assert forall j :: TrackedPositions <= j < |d| ==> d[j] == Untracked(d)[j - TrackedPositions];
        }
      }
    }
  }

  /** `n` has no occurrence exactly when no draw contains it. */
  lemma {:induction false} OccurrencesZero(h: History, n: int)
    ensures Occurrences(h, n) == 0 <==> forall i :: 0 <= i < |h| ==> n !in h[i]
  {
    if h != [] {
      var g := h[..|h| - 1];
      OccurrencesZero(g, n);
      CountPositive(n, h[|h| - 1]);
      assert forall i :: 0 <= i < |g| ==> g[i] == h[i];
    }
  }

  /**
   LastAppearance is the index of the most recent draw containing `n`: that draw
   contains `n`, no later draw does, and it is None exactly when no draw does.
   */
  lemma {:induction false} LastAppearanceIsLatest(h: History, n: int)
    ensures LastAppearance(h, n).Some? ==> forall i :: LastAppearance(h, n).value < i < |h| ==> n !in h[i]
    ensures LastAppearance(h, n).None? <==> forall i :: 0 <= i < |h| ==> n !in h[i]
  {
    if h != [] && n !in h[|h| - 1] {
      var g := h[..|h| - 1];
      LastAppearanceIsLatest(g, n);
      assert forall i :: 0 <= i < |g| ==> g[i] == h[i];
    }
  }

  /** LastAppearance is None exactly when the occurrence count is 0. */
  lemma NeverSeenIffNoOccurrence(h: History, n: int)
    ensures LastAppearance(h, n).None? <==> Occurrences(h, n) == 0
  {
    LastAppearanceIsLatest(h, n);
    OccurrencesZero(h, n);
  }

  /** A position counter is 0 exactly when no draw holds `n` at that position. */
  lemma {:induction false} PositionCountZero(h: History, n: int, q: nat)
    ensures PositionCount(h, n, q) == 0 <==> forall i :: 0 <= i < |h| && q < |h[i]| ==> h[i][q] != n
  {
    if h != [] {
      var g := h[..|h| - 1];
      PositionCountZero(g, n, q);
      assert forall i :: 0 <= i < |g| ==> g[i] == h[i];
    }
  }

  /**
   A transition count from `p` to `m` is positive exactly when some draw containing `m`
   immediately follows a draw containing `p`; the first draw is never a successor.
   */
  lemma {:induction false} TransitionsPositive(h: History, p: int, m: int)
    ensures Transitions(h, p, m) > 0 <==> exists i :: Follows(h, i, p, m)
  {
    if |h| > 1 {
      var g := h[..|h| - 1];
      TransitionsPositive(g, p, m);
      PairCountIsProduct(p, h[|h| - 2], m, h[|h| - 1]);
      var a, b := Count(p, h[|h| - 2]), Count(m, h[|h| - 1]);
      CountPositive(p, h[|h| - 2]);
      CountPositive(m, h[|h| - 1]);
      assert a * b > 0 <==> a > 0 && b > 0;
      assert PairCount(p, h[|h| - 2], m, h[|h| - 1]) > 0 <==> Follows(h, |h| - 1, p, m);
      assert forall i :: i != |h| - 1 ==> (Follows(h, i, p, m) <==> Follows(g, i, p, m));
    } else {
      assert forall i :: !Follows(h, i, p, m);
    }
  }

  /** Every number of a draw is at most MaxIn, and MaxIn is 0 or one of them. */
  lemma {:induction false} MaxInBounds(d: Draw)
    ensures forall j :: 0 <= j < |d| ==> d[j] <= MaxIn(d)
    ensures MaxIn(d) == 0 || MaxIn(d) in d
  {
    if d != [] {
      var e := d[..|d| - 1];
      MaxInBounds(e);
      assert forall j :: 0 <= j < |e| ==> e[j] == d[j];
    }
  }

  /**
   maxNumber bounds every drawn number; it is 0 or drawn somewhere; and for a history
   of positive numbers it is 0 exactly when every draw is empty.
   */
  lemma {:induction false} MaxNumberBounds(h: History)
    ensures forall i, j :: 0 <= i < |h| && 0 <= j < |h[i]| ==> h[i][j] <= MaxNumber(h)
    ensures MaxNumber(h) == 0 || exists i :: 0 <= i < |h| && MaxNumber(h) in h[i]
    ensures ValidHistory(h) ==> (MaxNumber(h) == 0 <==> forall i :: 0 <= i < |h| ==> h[i] == [])
  {
    if h != [] {
      var g := h[..|h| - 1];
      MaxNumberBounds(g);
      MaxInBounds(h[|h| - 1]);
      assert forall i :: 0 <= i < |g| ==> g[i] == h[i];
      if MaxNumber(h) != 0 && MaxNumber(h) != MaxIn(h[|h| - 1]) {
        var i :| 0 <= i < |g| && MaxNumber(g) in g[i];
        assert MaxNumber(h) in h[i];
      }
      if ValidHistory(h) && h[|h| - 1] != [] {
        assert 1 <= h[|h| - 1][0] <= MaxIn(h[|h| - 1]);
      }
    }
  }
}
