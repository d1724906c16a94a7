/** The list orderings the core relies on: `Collections.sort` with a comparator
    on an integer key (a stable sort, ascending), `Collections.reverse`, and the
    two combined, which is how races and tournaments rank their cars.

    The sort is written as an insertion sort.  Sortedness together with
    stability (every run of equal keys keeps its order) fixes the result
    uniquely, so any stable sort, the library's merge sort included, returns
    this list. */
module Sorting {

  /** Non-decreasing keys from left to right. */
  ghost predicate SortedAsc<T>(s: seq<T>, key: T -> int) {
    forall i, j :: 0 <= i < j < |s| ==> key(s[i]) <= key(s[j])
  }

  /** Non-increasing keys from left to right. */
  ghost predicate SortedDesc<T>(s: seq<T>, key: T -> int) {
    forall i, j :: 0 <= i < j < |s| ==> key(s[i]) >= key(s[j])
  }

  /** The elements whose key is `v`, in their order in `s`. */
  function Filter<T>(s: seq<T>, key: T -> int, v: int): seq<T>
    decreases |s|
  {
    if s == [] then []
    else (if key(s[0]) == v then [s[0]] else []) + Filter(s[1..], key, v)
  }

  /** `Collections.reverse`. */
  function Reverse<T>(s: seq<T>): seq<T>
    decreases |s|
  {
    if s == [] then [] else Reverse(s[1..]) + [s[0]]
  }

  /** Insert `x` before the first element whose key is not smaller. */
  function Insert<T>(x: T, s: seq<T>, key: T -> int): seq<T>
    decreases |s|
  {
    if s == [] || key(x) <= key(s[0]) then [x] + s
    else [s[0]] + Insert(x, s[1..], key)
  }

  /** `Collections.sort(list, comparator)` for a comparator on `key`. */
  function SortAsc<T>(s: seq<T>, key: T -> int): seq<T>
    decreases |s|
  {
    if s == [] then [] else Insert(s[0], SortAsc(s[1..], key), key)
  }

  /** Sort ascending, then reverse: the ranking used by races and tournaments. */
  function SortAndReverse<T>(s: seq<T>, key: T -> int): seq<T> {
    Reverse(SortAsc(s, key))
  }

  /** The position of the first element that has the smallest key. */
  function FirstMinIndex<T>(s: seq<T>, key: T -> int): (k: nat)
    requires |s| > 0
    ensures k < |s|
    ensures forall j :: 0 <= j < |s| ==> key(s[k]) <= key(s[j])
    ensures forall j :: 0 <= j < k ==> key(s[j]) > key(s[k])
    decreases |s|
  {
    if |s| == 1 then 0
    else
      var k := FirstMinIndex(s[1..], key);
      if key(s[0]) <= key(s[1 + k]) then 0 else 1 + k
  }

  // ---------------------------------------------------------------------------
  // Reverse

  lemma {:induction false} ReverseAt<T>(s: seq<T>)
    ensures |Reverse(s)| == |s|
    ensures forall i :: 0 <= i < |s| ==> Reverse(s)[i] == s[|s| - 1 - i]
    decreases |s|
  {
    if s != [] {
      ReverseAt(s[1..]);
    }
  }

  /** Reversing twice gives the list back. */
  lemma ReverseReverse<T>(s: seq<T>)
    ensures Reverse(Reverse(s)) == s
  {
    ReverseAt(s);
    ReverseAt(Reverse(s));
  }

  /** `s` after `n` reversals: reversed when `n` is odd, as it was when `n` is
      even. */
  function Flip<T>(s: seq<T>, n: nat): seq<T> {
    if n % 2 == 1 then Reverse(s) else s
  }

  /** One more reversal of `Flip(s, n)` is `Flip(s, n + 1)`. */
  lemma FlipStep<T>(s: seq<T>, n: nat)
    ensures Reverse(Flip(s, n)) == Flip(s, n + 1)
  {
    if n % 2 == 1 {
      ReverseReverse(s);
    }
  }

  lemma {:induction false} ReverseMultiset<T>(s: seq<T>)
    ensures multiset(Reverse(s)) == multiset(s)
    decreases |s|
  {
    if s != [] {
      ReverseMultiset(s[1..]);
      assert s == [s[0]] + s[1..];
    }
  }

  // ---------------------------------------------------------------------------
  // Filter

  lemma {:induction false} FilterAppend<T>(a: seq<T>, b: seq<T>, key: T -> int, v: int)
    ensures Filter(a + b, key, v) == Filter(a, key, v) + Filter(b, key, v)
    decreases |a|
  {
    if a == [] {
      assert a + b == b;
    } else {
      var ab := a + b;
      var head := if key(a[0]) == v then [a[0]] else [];
      assert ab[0] == a[0];
      assert ab[1..] == a[1..] + b;
      FilterAppend(a[1..], b, key, v);
      assert Filter(ab, key, v) == head + (Filter(a[1..], key, v) + Filter(b, key, v));
      assert head + (Filter(a[1..], key, v) + Filter(b, key, v)) == (head + Filter(a[1..], key, v)) + Filter(b, key, v);
    }
  }

  /** Reversing a list reverses every run of equal keys. */
  lemma {:induction false} FilterReverse<T>(s: seq<T>, key: T -> int, v: int)
    ensures Filter(Reverse(s), key, v) == Reverse(Filter(s, key, v))
    decreases |s|
  {
    if s != [] {
      FilterReverse(s[1..], key, v);
      FilterAppend(Reverse(s[1..]), [s[0]], key, v);
      var f := Filter(s[1..], key, v);
      if key(s[0]) == v {
        assert Filter(s, key, v) == [s[0]] + f;
        assert ([s[0]] + f)[1..] == f;
      } else {
        assert Filter(s, key, v) == f;
      }
    }
  }

  // ---------------------------------------------------------------------------
  // Insert

  lemma {:induction false} InsertMultiset<T>(x: T, s: seq<T>, key: T -> int)
    ensures multiset(Insert(x, s, key)) == multiset(s) + multiset{x}
    decreases |s|
  {
    if !(s == [] || key(x) <= key(s[0])) {
      InsertMultiset(x, s[1..], key);
      assert s == [s[0]] + s[1..];
    }
  }

  lemma {:induction false} InsertSorted<T>(x: T, s: seq<T>, key: T -> int)
    requires SortedAsc(s, key)
    ensures SortedAsc(Insert(x, s, key), key)
    decreases |s|
  {
    if !(s == [] || key(x) <= key(s[0])) {
      InsertSorted(x, s[1..], key);
      var t := Insert(x, s[1..], key);
      InsertMultiset(x, s[1..], key);
      forall j | 0 <= j < |t| ensures key(s[0]) <= key(t[j]) {
        assert t[j] in multiset(t);
        if t[j] != x {
          assert t[j] in multiset(s[1..]);
          var m :| 0 <= m < |s[1..]| && s[1..][m] == t[j];
          assert s[1 + m] == t[j];
        }
      }
    }
  }

  /** Inserting `x` adds it at the front of the run of its key and leaves every
      other run alone. */
  lemma {:induction false} InsertFilter<T>(x: T, s: seq<T>, key: T -> int, v: int)
    ensures Filter(Insert(x, s, key), key, v)
         == (if key(x) == v then [x] else []) + Filter(s, key, v)
    decreases |s|
  {
    var front: seq<T> := if key(x) == v then [x] else [];
    if s == [] || key(x) <= key(s[0]) {
      var t := [x] + s;
      assert t[0] == x && t[1..] == s;
      assert Filter(t, key, v) == front + Filter(s, key, v);
    } else {
      var rest := Insert(x, s[1..], key);
      var t := [s[0]] + rest;
      assert t[0] == s[0] && t[1..] == rest;
      InsertFilter(x, s[1..], key, v);
      assert Filter(rest, key, v) == front + Filter(s[1..], key, v);
      var head: seq<T> := if key(s[0]) == v then [s[0]] else [];
      assert Filter(t, key, v) == head + Filter(rest, key, v);
      assert Filter(s, key, v) == head + Filter(s[1..], key, v);
      if key(x) == v {
        assert head == [];
      } else {
        assert front == [];
      }
    }
  }

  lemma {:induction false} InsertHead<T>(x: T, s: seq<T>, key: T -> int)
    ensures Insert(x, s, key)[0] == if s == [] || key(x) <= key(s[0]) then x else s[0]
  {
  }

  // ---------------------------------------------------------------------------
  // SortAsc

  /** The sort returns a permutation of its input. */
  lemma {:induction false} SortAscPermutation<T>(s: seq<T>, key: T -> int)
    ensures multiset(SortAsc(s, key)) == multiset(s)
    decreases |s|
  {
    if s != [] {
      SortAscPermutation(s[1..], key);
      InsertMultiset(s[0], SortAsc(s[1..], key), key);
      assert s == [s[0]] + s[1..];
    }
  }

  /** Insertion looks at the keys of the elements only. */
  lemma {:induction false} InsertAgree<T>(x: T, s: seq<T>, k1: T -> int, k2: T -> int)
    requires k1(x) == k2(x)
    requires forall y :: y in s ==> k1(y) == k2(y)
    ensures Insert(x, s, k1) == Insert(x, s, k2)
    decreases |s|
  {
    if s != [] && k1(x) > k1(s[0]) {
      InsertAgree(x, s[1..], k1, k2);
    }
  }

  /** The sort looks at the keys of the elements only: two keys that agree
      on every element give the same order. */
  lemma {:induction false} SortAscAgree<T>(s: seq<T>, k1: T -> int, k2: T -> int)
    requires forall y :: y in s ==> k1(y) == k2(y)
    ensures SortAsc(s, k1) == SortAsc(s, k2)
    decreases |s|
  {
    if s != [] {
      SortAscAgree(s[1..], k1, k2);
      SortAscPermutation(s[1..], k1);
      forall y | y in SortAsc(s[1..], k1) ensures k1(y) == k2(y) {
        assert y in multiset(s[1..]);
      }
      InsertAgree(s[0], SortAsc(s[1..], k1), k1, k2);
    }
  }

  /** The sort returns its input in non-decreasing key order. */
  lemma {:induction false} SortAscSorted<T>(s: seq<T>, key: T -> int)
    ensures SortedAsc(SortAsc(s, key), key)
    decreases |s|
  {
    if s != [] {
      SortAscSorted(s[1..], key);
      InsertSorted(s[0], SortAsc(s[1..], key), key);
    }
  }

  /** The sort is stable: the elements of equal key keep their relative order. */
  lemma {:induction false} SortAscStable<T>(s: seq<T>, key: T -> int, v: int)
    ensures Filter(SortAsc(s, key), key, v) == Filter(s, key, v)
    decreases |s|
  {
    if s != [] {
      SortAscStable(s[1..], key, v);
      InsertFilter(s[0], SortAsc(s[1..], key), key, v);
    }
  }

  /** After sorting, the front element is the first element of smallest key:
      `remove(0)` after a sort removes the earliest of the slowest. */
  lemma {:induction false} SortAscHead<T>(s: seq<T>, key: T -> int)
    requires |s| > 0
    ensures |SortAsc(s, key)| == |s|
    ensures SortAsc(s, key)[0] == s[FirstMinIndex(s, key)]
    decreases |s|
  {
    SortAscPermutation(s, key);
    assert |multiset(SortAsc(s, key))| == |multiset(s)|;
    if |s| > 1 {
      SortAscHead(s[1..], key);
      InsertHead(s[0], SortAsc(s[1..], key), key);
    }
  }

  /** The sort is the only stable sort: a sorted list that keeps every run of
      equal keys of `s` is `SortAsc(s)`. */
  lemma {:induction false} SortAscUnique<T>(s: seq<T>, t: seq<T>, key: T -> int)
    requires SortedAsc(t, key)
    requires forall v :: Filter(t, key, v) == Filter(s, key, v)
    ensures t == SortAsc(s, key)
    decreases |s| + |t|
  {
    var r := SortAsc(s, key);
    SortAscSorted(s, key);
    forall v ensures Filter(t, key, v) == Filter(r, key, v) {
      SortAscStable(s, key, v);
    }
    SortedUnique(t, r, key);
  }

  /** Two sorted lists with the same runs of equal keys are the same list. */
  lemma {:induction false} SortedUnique<T>(t: seq<T>, r: seq<T>, key: T -> int)
    requires SortedAsc(t, key) && SortedAsc(r, key)
    requires forall v :: Filter(t, key, v) == Filter(r, key, v)
    ensures t == r
    decreases |t| + |r|
  {
    if t == [] || r == [] {
      if t != [] {
        FilterFrontNonEmpty(t, key);
        assert false;
      } else if r != [] {
        FilterFrontNonEmpty(r, key);
        assert false;
      }
    } else {
      SortedSameFront(t, r, key);
      SameTailFilters(t, r, key);
      SortedUnique(t[1..], r[1..], key);
      assert t == [t[0]] + t[1..];
      assert r == [r[0]] + r[1..];
    }
  }

  /** Two sorted lists with the same runs of equal keys start alike: the
      smallest key comes first in both, and so does the first element of its
      run. */
  lemma SortedSameFront<T>(t: seq<T>, r: seq<T>, key: T -> int)
    requires t != [] && r != [] && SortedAsc(t, key) && SortedAsc(r, key)
    requires forall v :: Filter(t, key, v) == Filter(r, key, v)
    ensures t[0] == r[0]
  {
    if key(t[0]) < key(r[0]) {
      FilterEmptyBelow(r, key, key(t[0]));
      FilterFrontNonEmpty(t, key);
      assert false;
    } else if key(r[0]) < key(t[0]) {
      FilterEmptyBelow(t, key, key(r[0]));
      FilterFrontNonEmpty(r, key);
      assert false;
    }
    var v0 := key(t[0]);
    assert Filter(t, key, v0) == [t[0]] + Filter(t[1..], key, v0);
    assert Filter(r, key, v0) == [r[0]] + Filter(r[1..], key, v0);
    assert Filter(t, key, v0)[0] == t[0];
    assert Filter(r, key, v0)[0] == r[0];
  }

  /** Dropping the same first element keeps the runs of equal keys the same. */
  lemma SameTailFilters<T>(t: seq<T>, r: seq<T>, key: T -> int)
    requires t != [] && r != [] && t[0] == r[0]
    requires forall v :: Filter(t, key, v) == Filter(r, key, v)
    ensures forall v :: Filter(t[1..], key, v) == Filter(r[1..], key, v)
  {
    var v0 := key(t[0]);
    forall v ensures Filter(t[1..], key, v) == Filter(r[1..], key, v) {
      if v != v0 {
        assert Filter(t, key, v) == Filter(t[1..], key, v);
        assert Filter(r, key, v) == Filter(r[1..], key, v);
      } else {
        assert Filter(t, key, v0) == [t[0]] + Filter(t[1..], key, v0);
        assert Filter(r, key, v0) == [r[0]] + Filter(r[1..], key, v0);
        assert ([t[0]] + Filter(t[1..], key, v0))[1..] == Filter(t[1..], key, v0);
        assert ([r[0]] + Filter(r[1..], key, v0))[1..] == Filter(r[1..], key, v0);
      }
    }
  }

  lemma FilterFrontNonEmpty<T>(s: seq<T>, key: T -> int)
    requires s != []
    ensures Filter(s, key, key(s[0])) != []
  {
  }

  /** In a sorted list whose front key exceeds `v`, nothing has key `v`. */
  lemma {:induction false} FilterEmptyBelow<T>(s: seq<T>, key: T -> int, v: int)
    requires s != [] && SortedAsc(s, key) && v < key(s[0])
    ensures Filter(s, key, v) == []
    decreases |s|
  {
    if |s| > 1 {
      FilterEmptyBelow(s[1..], key, v);
    }
  }

  // ---------------------------------------------------------------------------
  // Sort, then reverse

  /** Sort-then-reverse returns a permutation of its input in non-increasing key
      order, and every run of equal keys comes out in the REVERSE of its order in
      the input. */
  lemma SortAndReverseSpec<T>(s: seq<T>, key: T -> int)
    ensures multiset(SortAndReverse(s, key)) == multiset(s)
    ensures |SortAndReverse(s, key)| == |s|
    ensures SortedDesc(SortAndReverse(s, key), key)
    ensures forall v :: Filter(SortAndReverse(s, key), key, v) == Reverse(Filter(s, key, v))
  {
    var a := SortAsc(s, key);
    SortAscPermutation(s, key);
    SortAscSorted(s, key);
    ReverseMultiset(a);
    ReverseAt(a);
    assert |multiset(a)| == |multiset(s)|;
    forall v ensures Filter(Reverse(a), key, v) == Reverse(Filter(s, key, v)) {
      FilterReverse(a, key, v);
      SortAscStable(s, key, v);
    }
  }

  /** When every element has the same key the stable sort keeps the list as
      it is, so sort-then-reverse just reverses it. */
  lemma SortAndReverseLevel<T>(s: seq<T>, key: T -> int)
    requires forall i, j :: 0 <= i < |s| && 0 <= j < |s| ==> key(s[i]) == key(s[j])
    ensures SortAndReverse(s, key) == Reverse(s)
  {
    SortAscUnique(s, s, key);
  }

  // ---------------------------------------------------------------------------
  // Relative order of two elements

  /** `x` stands somewhere before `y` in `s`. */
  ghost predicate Before<T>(s: seq<T>, x: T, y: T) {
    exists p, q :: 0 <= p < q < |s| && s[p] == x && s[q] == y
  }

  /** No element occurs twice. */
  ghost predicate Distinct<T>(s: seq<T>) {
    forall i, j :: 0 <= i < j < |s| ==> s[i] != s[j]
  }

  lemma BeforeCons<T>(a: T, t: seq<T>, x: T, y: T)
    ensures Before([a] + t, x, y) <==> (a == x && y in t) || Before(t, x, y)
  {
    var s := [a] + t;
    if Before(s, x, y) {
      var p, q :| 0 <= p < q < |s| && s[p] == x && s[q] == y;
      assert t[q - 1] == y;
      if p > 0 {
        assert t[p - 1] == x;
      }
    }
    if a == x && y in t {
      var q :| 0 <= q < |t| && t[q] == y;
      assert s[0] == x && s[q + 1] == y;
    }
    if Before(t, x, y) {
      var p, q :| 0 <= p < q < |t| && t[p] == x && t[q] == y;
      assert s[p + 1] == x && s[q + 1] == y;
    }
  }

  lemma {:induction false} FilterIn<T>(s: seq<T>, key: T -> int, v: int, y: T)
    ensures y in Filter(s, key, v) <==> y in s && key(y) == v
    decreases |s|
  {
    if s != [] {
      FilterIn(s[1..], key, v, y);
      assert s == [s[0]] + s[1..];
    }
  }

  /** Two elements of the same key stand in the same order in the run of that
      key as in the whole list. */
  lemma {:induction false} FilterBefore<T>(s: seq<T>, key: T -> int, x: T, y: T)
    requires key(x) == key(y)
    ensures Before(Filter(s, key, key(x)), x, y) <==> Before(s, x, y)
    decreases |s|
  {
    var v := key(x);
    if s != [] {
      var t := s[1..];
      assert s == [s[0]] + t;
      FilterBefore(t, key, x, y);
      BeforeCons(s[0], t, x, y);
      var ft := Filter(t, key, v);
      FilterIn(t, key, v, y);
      if key(s[0]) == v {
        assert Filter(s, key, v) == [s[0]] + ft;
        BeforeCons(s[0], ft, x, y);
      } else {
        assert Filter(s, key, v) == ft;
      }
    }
  }

  lemma ReverseBefore<T>(s: seq<T>, x: T, y: T)
    ensures Before(Reverse(s), x, y) <==> Before(s, y, x)
  {
    ReverseAt(s);
    var r, n := Reverse(s), |s|;
    if Before(r, x, y) {
      var p, q :| 0 <= p < q < n && r[p] == x && r[q] == y;
      assert s[n - 1 - q] == y && s[n - 1 - p] == x;
    }
    if Before(s, y, x) {
      var p, q :| 0 <= p < q < n && s[p] == y && s[q] == x;
      assert r[n - 1 - q] == x && r[n - 1 - p] == y;
    }
  }

  /** Stability, pair by pair: two elements of equal key keep their order. */
  lemma SortAscKeepsTies<T>(s: seq<T>, key: T -> int, x: T, y: T)
    requires key(x) == key(y)
    ensures Before(SortAsc(s, key), x, y) <==> Before(s, x, y)
  {
    FilterBefore(SortAsc(s, key), key, x, y);
    FilterBefore(s, key, x, y);
    SortAscStable(s, key, key(x));
  }

  /** Sort-then-reverse puts two elements of equal key in the reverse of their
      order in the input: with scores [5, 5, 3] for A, B, C it ranks B, A, C. */
  lemma SortAndReverseFlipsTies<T>(s: seq<T>, key: T -> int, x: T, y: T)
    requires key(x) == key(y)
    ensures Before(SortAndReverse(s, key), y, x) <==> Before(s, x, y)
  {
    ReverseBefore(SortAsc(s, key), y, x);
    SortAscKeepsTies(s, key, x, y);
  }

  lemma DistinctMultiplicity<T>(s: seq<T>)
    ensures Distinct(s) <==> forall x :: multiset(s)[x] <= 1
  {
    if Distinct(s) {
      DistinctAtMostOnce(s);
    } else {
      var i, j :| 0 <= i < j < |s| && s[i] == s[j];
      var x := s[i];
      assert s == s[..j] + s[j..];
      assert s[..j][i] == x;
      assert s[j..][0] == x;
      assert multiset(s)[x] == multiset(s[..j])[x] + multiset(s[j..])[x];
    }
  }

  /** In a list without repetitions every element occurs once. */
  lemma {:induction false} DistinctAtMostOnce<T>(s: seq<T>)
    requires Distinct(s)
    ensures forall x :: multiset(s)[x] <= 1
    decreases |s|
  {
    if s != [] {
      var t := s[1..];
      assert s == [s[0]] + t;
      assert Distinct(t) by {
        forall i, j | 0 <= i < j < |t| ensures t[i] != t[j] {
          assert t[i] == s[i + 1] && t[j] == s[j + 1];
        }
      }
      DistinctAtMostOnce(t);
      assert s[0] !in t by {
        forall k | 0 <= k < |t| ensures t[k] != s[0] {
          assert t[k] == s[k + 1];
        }
      }
      assert multiset(s) == multiset{s[0]} + multiset(t);
      forall x ensures multiset(s)[x] <= 1 {
        if x == s[0] {
          assert multiset(t)[x] == 0;
        }
      }
    }
  }

  /** A permutation of a list without repetitions has none either. */
  lemma DistinctPermutation<T>(a: seq<T>, b: seq<T>)
    requires multiset(a) == multiset(b) && Distinct(a)
    ensures Distinct(b)
  {
    DistinctMultiplicity(a);
    DistinctMultiplicity(b);
  }
}
