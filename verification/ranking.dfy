/**
 Ordering candidates by score. `Prediction.js` sorts the ascending candidate list with a
 comparator on scores only, using a stable sort; the model is a stable insertion sort,
 proved to order by descending score with ties in ascending number order.
 */
module Ranking {

  /** Every entry is a number whose score is in the table (`table[n - 1]` scores n). */
  predicate InTable(table: seq<real>, s: seq<int>) {
    forall i :: 0 <= i < |s| ==> 1 <= s[i] <= |table|
  }

  /** `a` goes ahead of `b`: a higher score, or an equal score and a smaller number. */
  predicate Before(table: seq<real>, a: int, b: int)
    requires 1 <= a <= |table| && 1 <= b <= |table|
  {
    table[a - 1] > table[b - 1] || (table[a - 1] == table[b - 1] && a < b)
  }

  predicate Ranked(table: seq<real>, s: seq<int>)
    requires InTable(table, s)
  {
    forall i, j :: 0 <= i < j < |s| ==> Before(table, s[i], s[j])
  }

  predicate Ascending(s: seq<int>) {
    forall i, j :: 0 <= i < j < |s| ==> s[i] < s[j]
  }

  /** Places `x` ahead of the first entry whose score does not exceed its own. */
  function Insert(table: seq<real>, x: int, l: seq<int>): (r: seq<int>)
    requires 1 <= x <= |table| && InTable(table, l)
    ensures InTable(table, r)
    ensures multiset(r) == multiset(l) + multiset{x}
  {
    if l == [] || table[x - 1] >= table[l[0] - 1] then [x] + l
    else
      assert l == [l[0]] + l[1..];
      [l[0]] + Insert(table, x, l[1..])
  }

  /** Stable sort by descending score: each element is inserted into the sorted rest. */
  function SortByScore(table: seq<real>, xs: seq<int>): (r: seq<int>)
    requires InTable(table, xs)
    ensures InTable(table, r)
    ensures multiset(r) == multiset(xs)
  {
    if xs == [] then []
    else
      assert xs == [xs[0]] + xs[1..];
      Insert(table, xs[0], SortByScore(table, xs[1..]))
  }

  /** A ranked list stays ranked under a new head that goes ahead of all its entries. */
  lemma RankedCons(table: seq<real>, h: int, t: seq<int>)
    requires 1 <= h <= |table| && InTable(table, t) && Ranked(table, t)
    requires forall j :: 0 <= j < |t| ==> Before(table, h, t[j])
    ensures InTable(table, [h] + t) && Ranked(table, [h] + t)
  {
    var r := [h] + t;
    assert forall j :: 0 < j < |r| ==> r[j] == t[j - 1];
  }

  /** Every entry of `Insert(table, x, l)` is `x` or an entry of `l`. */
  lemma InsertMembers(table: seq<real>, x: int, l: seq<int>)
    requires 1 <= x <= |table| && InTable(table, l)
    ensures forall j :: 0 <= j < |Insert(table, x, l)| ==> Insert(table, x, l)[j] == x || Insert(table, x, l)[j] in l
  {
    var r := Insert(table, x, l);
    forall j | 0 <= j < |r|
      ensures r[j] == x || r[j] in l
    {
      assert r[j] in multiset(r);
    }
  }

  /** Inserting a number smaller than all others into a ranked list keeps it ranked. */
  lemma {:induction false} InsertRanked(table: seq<real>, x: int, l: seq<int>)
    requires 1 <= x <= |table| && InTable(table, l) && Ranked(table, l)
    requires forall i :: 0 <= i < |l| ==> x < l[i]
    ensures Ranked(table, Insert(table, x, l))
  {
    if l == [] || table[x - 1] >= table[l[0] - 1] {
      forall j | 0 <= j < |l|
        ensures Before(table, x, l[j])
      {
        if j > 0 {
          assert Before(table, l[0], l[j]);
        }
      }
      RankedCons(table, x, l);
    } else {
      var rest := l[1..];
      assert forall i :: 0 <= i < |rest| ==> rest[i] == l[i + 1];
      InsertRanked(table, x, rest);
      InsertMembers(table, x, rest);
      var tail := Insert(table, x, rest);
      forall j | 0 <= j < |tail|
        ensures Before(table, l[0], tail[j])
      {
        if tail[j] != x {
          var k :| 0 <= k < |rest| && rest[k] == tail[j];
          assert Before(table, l[0], l[k + 1]);
        }
      }
      RankedCons(table, l[0], tail);
    }
  }

  /**
   Sorting an ascending list yields descending scores, equal scores staying in
   ascending number order (the order a stable sort keeps).
   */
  lemma {:induction false} SortRanked(table: seq<real>, xs: seq<int>)
    requires InTable(table, xs) && Ascending(xs)
    ensures Ranked(table, SortByScore(table, xs))
  {
    if xs != [] {
      var rest := xs[1..];
      SortRanked(table, rest);
      var sorted := SortByScore(table, rest);
      forall i | 0 <= i < |sorted|
        ensures xs[0] < sorted[i]
      {
        assert sorted[i] in multiset(sorted);
        assert sorted[i] in multiset(rest);
        var k :| 0 <= k < |rest| && rest[k] == sorted[i];
        assert rest[k] == xs[k + 1];
      }
      InsertRanked(table, xs[0], sorted);
    }
  }

  /**
   In a ranked list, every entry of the first `m` goes ahead of every entry
   outside them: the prefix holds the best `m`.
   */
  lemma RankedPrefixIsBest(table: seq<real>, s: seq<int>, m: nat)
    requires InTable(table, s) && Ranked(table, s) && m <= |s|
    ensures forall i, n :: 0 <= i < m && n in s && n !in s[..m] ==> Before(table, s[..m][i], n)
  {
    forall i, n | 0 <= i < m && n in s && n !in s[..m]
      ensures Before(table, s[..m][i], n)
    {
      var j :| 0 <= j < |s| && s[j] == n;
      assert s[..m][i] == s[i];
    }
  }

  /** A prefix of a ranked list is ranked. */
  lemma RankedPrefix(table: seq<real>, s: seq<int>, m: nat)
    requires InTable(table, s) && Ranked(table, s) && m <= |s|
    ensures InTable(table, s[..m]) && Ranked(table, s[..m])
  {
    var top := s[..m];
    assert forall i :: 0 <= i < m ==> top[i] == s[i];
  }

  /** The entries of a ranked list are pairwise distinct. */
  lemma RankedIsDistinct(table: seq<real>, s: seq<int>)
    requires InTable(table, s) && Ranked(table, s)
    ensures forall i, j :: 0 <= i < j < |s| ==> s[i] != s[j]
  {
  }

  /** The numbers 1..|table| in ascending order. */
  function AllNumbers(table: seq<real>): (c: seq<int>)
    ensures |c| == |table| && InTable(table, c) && Ascending(c)
    ensures forall n :: 1 <= n <= |table| ==> n in c
  {
    var c := seq(|table|, i => i + 1);
    forall n | 1 <= n <= |table|
      ensures n in c
    {
      assert c[n - 1] == n;
    }
    c
  }

  /** Sorting all the numbers gives a ranked list that still holds each of them. */
  lemma SortedAllNumbers(table: seq<real>)
    ensures |SortByScore(table, AllNumbers(table))| == |table|
    ensures Ranked(table, SortByScore(table, AllNumbers(table)))
    ensures forall n :: 1 <= n <= |table| ==> n in SortByScore(table, AllNumbers(table))
  {
    var candidates := AllNumbers(table);
    var sortedNumbers := SortByScore(table, candidates);
    SortRanked(table, candidates);
    assert |sortedNumbers| == |multiset(sortedNumbers)| == |multiset(candidates)| == |table|;
    forall n | 1 <= n <= |table|
      ensures n in sortedNumbers
    {
      assert n in candidates;
      assert n in multiset(candidates);
      assert n in multiset(sortedNumbers);
    }
  }

  /**
   The first `count` numbers of 1..|table| by descending score, ties by ascending number:
   distinct, ranked, and each ahead of every number left out.
   */
  function BestOf(table: seq<real>, count: nat): (top: seq<int>)
    requires count <= |table|
    ensures |top| == count
    ensures InTable(table, top)
    ensures Ranked(table, top)
    ensures forall i, j :: 0 <= i < j < |top| ==> top[i] != top[j]
    ensures forall i, n :: 0 <= i < |top| && 1 <= n <= |table| && n !in top ==> Before(table, top[i], n)
  {
    var sortedNumbers := SortByScore(table, AllNumbers(table));
    SortedAllNumbers(table);
    RankedPrefix(table, sortedNumbers, count);
    RankedPrefixIsBest(table, sortedNumbers, count);
    var top := sortedNumbers[..count];
    RankedIsDistinct(table, top);
    top
  }
}
