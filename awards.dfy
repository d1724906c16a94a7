/** The points handed out at the end of a race (`givePoints` of
    `race/StandardRace.java` and `race/DeathRace.java`): each place of the final
    ranking earns an award, and a car collects the awards of the places it
    holds. */
module Awards {
  import opened Utils
  import opened Sorting

  /** `StandardRace.scoreArray`. */
  const STANDARD_SCORES: seq<int> := [5, 3, 1]

  /** A StandardRace pays 5, 3 and 1 points for the first three places of the
      ranking by non-increasing distance, and nothing below. */
  function StandardAward(place: nat): int {
    if place < |STANDARD_SCORES| then STANDARD_SCORES[place] else 0
  }

  /** A DeathRace pays `i` points for place `i` of the ranking by ascending
      distance. */
  function DeathAward(place: nat): int {
    place
  }

  /** The points `c` collects from the first `n` places of `ranked`. */
  function PointsUpTo<T(==)>(ranked: seq<T>, c: T, n: nat, award: nat -> int): int
    requires n <= |ranked|
    decreases n
  {
    if n == 0 then 0
    else PointsUpTo(ranked, c, n - 1, award) + (if ranked[n - 1] == c then award(n - 1) else 0)
  }

  /** The sum of the awards of the first `n` places. */
  function TotalAward(n: nat, award: nat -> int): int
    decreases n
  {
    if n == 0 then 0 else TotalAward(n - 1, award) + award(n - 1)
  }

  /** In a ranking without repetitions, the car in place `i` gets exactly the
      award of place `i` if that place is paid, and nothing otherwise. */
  lemma {:induction false} PointsAtPlace<T>(ranked: seq<T>, i: nat, n: nat, award: nat -> int)
    requires Distinct(ranked) && i < |ranked| && n <= |ranked|
    ensures PointsUpTo(ranked, ranked[i], n, award) == if i < n then award(i) else 0
    decreases n
  {
    if n > 0 {
      PointsAtPlace(ranked, i, n - 1, award);
    }
  }

  /** A car outside the paid places gets nothing. */
  lemma {:induction false} PointsOutside<T>(ranked: seq<T>, c: T, n: nat, award: nat -> int)
    requires n <= |ranked| && c !in ranked[..n]
    ensures PointsUpTo(ranked, c, n, award) == 0
    decreases n
  {
    if n > 0 {
      assert ranked[n - 1] == ranked[..n][n - 1];
      assert ranked[..n - 1] == ranked[..n][..n - 1];
      PointsOutside(ranked, c, n - 1, award);
    }
  }

  /** Awards that are never negative never lower a score. */
  lemma {:induction false} PointsNonNegative<T>(ranked: seq<T>, c: T, n: nat, award: nat -> int)
    requires n <= |ranked|
    requires forall p: nat :: award(p) >= 0
    ensures PointsUpTo(ranked, c, n, award) >= 0
    decreases n
  {
    if n > 0 {
      PointsNonNegative(ranked, c, n - 1, award);
    }
  }

  /** The points collected by the cars of the first `m` places. */
  function SumPoints<T(==)>(ranked: seq<T>, m: nat, n: nat, award: nat -> int): int
    requires m <= |ranked| && n <= |ranked|
    decreases m
  {
    if m == 0 then 0
    else SumPoints(ranked, m - 1, n, award) + PointsUpTo(ranked, ranked[m - 1], n, award)
  }

  /** Over a ranking without repetitions, the cars together collect exactly the
      awards of the paid places. */
  lemma {:induction false} SumPointsTotal<T>(ranked: seq<T>, m: nat, n: nat, award: nat -> int)
    requires Distinct(ranked) && m <= |ranked| && n <= |ranked|
    ensures SumPoints(ranked, m, n, award) == TotalAward(Min(m, n), award)
    decreases m
  {
    if m > 0 {
      SumPointsTotal(ranked, m - 1, n, award);
      PointsAtPlace(ranked, m - 1, n, award);
    }
  }

  /** A StandardRace over `n` cars hands out the first min(3, n) entries of
      [5, 3, 1]: 0, 5, 8 or 9 points in all. */
  lemma StandardTotal(n: nat)
    ensures TotalAward(Min(3, n), StandardAward) == [0, 5, 8, 9][Min(3, n)]
  {
    if n >= 3 {
      assert TotalAward(3, StandardAward) == TotalAward(2, StandardAward) + 1;
      assert TotalAward(2, StandardAward) == TotalAward(1, StandardAward) + 3;
    } else if n == 2 {
      assert TotalAward(2, StandardAward) == TotalAward(1, StandardAward) + 3;
    }
  }

  /** A DeathRace over `n` cars hands out 0 + 1 + ... + (n - 1) = n(n-1)/2
      points. */
  lemma {:induction false} DeathTotal(n: nat)
    ensures 2 * TotalAward(n, DeathAward) == n * (n - 1)
    ensures TotalAward(n, DeathAward) == n * (n - 1) / 2
    decreases n
  {
    if n > 0 {
      DeathTotal(n - 1);
      assert n * (n - 1) == (n - 1) * (n - 2) + 2 * (n - 1);
    }
  }

  /** The StandardRace awards never grow down the ranking. */
  lemma StandardAwardDescending(p: nat, q: nat)
    requires p <= q
    ensures StandardAward(p) >= StandardAward(q) >= 0
  {
  }

  /** Among two cars of equal distance in a StandardRace, the one later in the
      list before the ranking comes out ahead and gets at least as many points. */
  lemma StandardTieBreak<T>(s: seq<T>, key: T -> int, i: nat, j: nat)
    requires Distinct(s) && i < j < |s| && key(s[i]) == key(s[j])
    ensures |SortAndReverse(s, key)| == |s|
    ensures Before(SortAndReverse(s, key), s[j], s[i])
    ensures var ranked := SortAndReverse(s, key);
      PointsUpTo(ranked, s[j], Min(3, |s|), StandardAward) >=
      PointsUpTo(ranked, s[i], Min(3, |s|), StandardAward)
  {
    var ranked := SortAndReverse(s, key);
    SortAndReverseSpec(s, key);
    assert Before(s, s[i], s[j]);
    SortAndReverseFlipsTies(s, key, s[i], s[j]);
    DistinctPermutation(s, ranked);
    var p, q :| 0 <= p < q < |ranked| && ranked[p] == s[j] && ranked[q] == s[i];
    PointsAtPlace(ranked, p, Min(3, |s|), StandardAward);
    PointsAtPlace(ranked, q, Min(3, |s|), StandardAward);
    StandardAwardDescending(p, q);
  }
}
