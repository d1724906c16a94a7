/** `utils/ComparatorScoreCarByDistance.java` and
    `utils/ComparatorScoreCarByPoints.java`: the three-way comparisons the races
    and the tournament sort with, and how they agree with the integer keys the
    sorts of this model use. */
module Comparators {
  import opened Cars
  import opened Sorting

  /** `ComparatorScoreCarByDistance.compare`: the sign of the distance
      difference. */
  function CompareByDistance(a: Car, b: Car): (r: int)
    reads a, b
    ensures r == 1 <==> a.distance > b.distance
    ensures r == 0 <==> a.distance == b.distance
    ensures r == -1 <==> a.distance < b.distance
  {
    if a.distance > b.distance then 1
    else if a.distance == b.distance then 0
    else -1
  }

  /** `ComparatorScoreCarByPoints.compare`: the sign of the score difference. */
  function CompareByPoints(a: Car, b: Car): (r: int)
    reads a, b
    ensures r == -1 <==> a.score < b.score
    ensures r == 0 <==> a.score == b.score
    ensures r == 1 <==> a.score > b.score
  {
    if a.score < b.score then -1
    else if a.score == b.score then 0
    else 1
  }

  /** Both comparators answer in {-1, 0, 1} and are antisymmetric. */
  lemma ComparatorsAntisymmetric(a: Car, b: Car)
    ensures CompareByDistance(a, b) in {-1, 0, 1}
    ensures CompareByDistance(a, b) == -CompareByDistance(b, a)
    ensures CompareByPoints(a, b) in {-1, 0, 1}
    ensures CompareByPoints(a, b) == -CompareByPoints(b, a)
  {
  }

  /** The points comparator is a total preorder: any two cars compare one way
      or the other, and "not after" is transitive. */
  lemma CompareByPointsPreorder(a: Car, b: Car, c: Car)
    ensures CompareByPoints(a, b) <= 0 || CompareByPoints(b, a) <= 0
    ensures CompareByPoints(a, b) <= 0 && CompareByPoints(b, c) <= 0 ==> CompareByPoints(a, c) <= 0
  {
  }

  /** The key of each car of `cs` is its distance at the time of the call. */
  function DistanceOf(cs: seq<Car>): (key: Car -> int)
    reads set c | c in cs
    ensures forall c :: c in cs ==> key(c) == c.distance
  {
    var m := map c | c in cs :: c.distance;
    c => if c in m then m[c] else 0
  }

  /** The key of each car of `cs` is its score at the time of the call. */
  function ScoreOf(cs: seq<Car>): (key: Car -> int)
    reads set c | c in cs
    ensures forall c :: c in cs ==> key(c) == c.score
  {
    var m := map c | c in cs :: c.score;
    c => if c in m then m[c] else 0
  }

  /** Sorting `cs` by its distances gives a list in which every earlier car
      compares as not farther than every later one, which is the order
      `Collections.sort` establishes with the distance comparator. */
  lemma SortedByDistanceAgrees(cs: seq<Car>)
    ensures var s := SortAsc(cs, DistanceOf(cs));
      forall i, j :: 0 <= i < j < |s| ==> CompareByDistance(s[i], s[j]) <= 0
  {
    var key := DistanceOf(cs);
    var s := SortAsc(cs, key);
    SortAscPermutation(cs, key);
    SortAscSorted(cs, key);
    forall i, j | 0 <= i < j < |s| ensures CompareByDistance(s[i], s[j]) <= 0 {
      assert s[i] in multiset(cs) && s[j] in multiset(cs);
    }
  }

  /** Sorting `cs` by its scores gives a list in which every earlier car
      compares as not above every later one, as with the points comparator. */
  lemma SortedByPointsAgrees(cs: seq<Car>)
    ensures var s := SortAsc(cs, ScoreOf(cs));
      forall i, j :: 0 <= i < j < |s| ==> CompareByPoints(s[i], s[j]) <= 0
  {
    var key := ScoreOf(cs);
    var s := SortAsc(cs, key);
    SortAscPermutation(cs, key);
    SortAscSorted(cs, key);
    forall i, j | 0 <= i < j < |s| ensures CompareByPoints(s[i], s[j]) <= 0 {
      assert s[i] in multiset(cs) && s[j] in multiset(cs);
    }
  }

  /** Every car of the list has covered the same distance, as when all of
      them are at rest. */
  ghost predicate Level(cs: seq<Car>)
    reads set c | c in cs
  {
    forall c, d :: c in cs && d in cs ==> c.distance == d.distance
  }

  /** A permutation of a level list is level. */
  lemma LevelPermutation(a: seq<Car>, b: seq<Car>)
    requires multiset(a) == multiset(b) && Level(a)
    ensures Level(b)
  {
    forall c | c in b ensures c in a {
      assert c in multiset(b);
    }
  }

  /** Cars at rest are level: they have all covered no distance. */
  lemma AtRestLevel(cs: seq<Car>)
    requires forall c :: c in cs ==> c.MotionState() == AT_REST
    ensures Level(cs)
  {
    assert forall c :: c in cs ==> c.distance == 0;
  }

  /** Ranking a level list by distance only reverses it. */
  lemma LevelRanking(cs: seq<Car>)
    requires Level(cs)
    ensures SortAndReverse(cs, DistanceOf(cs)) == Reverse(cs)
  {
    var key := DistanceOf(cs);
    assert forall i, j :: 0 <= i < |cs| && 0 <= j < |cs| ==> key(cs[i]) == key(cs[j]);
    SortAndReverseLevel(cs, key);
  }
}
