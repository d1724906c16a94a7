/** What the code does with `java.util.List` beyond plain appends: `contains`
    and `remove(Object)` look for the first element that `equals` the argument,
    and the imports append an element only when the list does not contain it
    yet.  `same(x, e)` plays `x.equals(e)`. */
module Lists {

  /** The position of the first element of `xs` that `x` equals, or `|xs|` when
      there is none: the element `contains` finds and `remove` drops. */
  function FirstMatch<T>(xs: seq<T>, x: T, same: (T, T) -> bool): (k: nat)
    ensures k <= |xs|
    ensures forall i :: 0 <= i < k ==> !same(x, xs[i])
    ensures k < |xs| ==> same(x, xs[k])
    decreases |xs|
  {
    if xs == [] then 0
    else if same(x, xs[0]) then 0
    else 1 + FirstMatch(xs[1..], x, same)
  }

  /** `contains`. */
  predicate Contains<T>(xs: seq<T>, x: T, same: (T, T) -> bool) {
    FirstMatch(xs, x, same) < |xs|
  }

  /** A match in a list is still the first match once more elements follow. */
  lemma FirstMatchExtend<T>(xs: seq<T>, ys: seq<T>, x: T, same: (T, T) -> bool)
    requires Contains(xs, x, same)
    ensures FirstMatch(xs + ys, x, same) == FirstMatch(xs, x, same)
  {
    var k := FirstMatch(xs, x, same);
    assert (xs + ys)[k] == xs[k];
    assert forall i :: 0 <= i < k ==> (xs + ys)[i] == xs[i];
  }

  /** `same` is an equivalence relation. */
  ghost predicate Equivalence<T(!new)>(same: (T, T) -> bool) {
    (forall a :: same(a, a)) &&
    (forall a, b :: same(a, b) ==> same(b, a)) &&
    (forall a, b, c :: same(a, b) && same(b, c) ==> same(a, c))
  }

  /** No element of `xs` equals another. */
  ghost predicate NoTwoSame<T>(xs: seq<T>, same: (T, T) -> bool) {
    forall i, j :: 0 <= i < j < |xs| ==> !same(xs[j], xs[i])
  }

  /** `xs` after appending, in order, each element of `incoming` that the list
      built so far does not contain: the append-if-absent loop of the
      imports. */
  function Merge<T>(xs: seq<T>, incoming: seq<T>, same: (T, T) -> bool): seq<T>
    decreases |incoming|
  {
    if incoming == [] then xs
    else
      var m := Merge(xs, incoming[..|incoming| - 1], same);
      var x := incoming[|incoming| - 1];
      if Contains(m, x, same) then m else m + [x]
  }

  /** Merging one more element appends it unless the merge so far contains
      it. */
  lemma MergeStep<T>(xs: seq<T>, incoming: seq<T>, x: T, same: (T, T) -> bool)
    ensures Merge(xs, incoming + [x], same) ==
      var m := Merge(xs, incoming, same);
      if Contains(m, x, same) then m else m + [x]
  {
    assert (incoming + [x])[..|incoming|] == incoming;
  }

  /** The merge keeps the list it starts from as a prefix and only adds
      elements of `incoming`, so it is never longer than both together. */
  lemma {:induction false} MergePrefix<T>(xs: seq<T>, incoming: seq<T>, same: (T, T) -> bool)
    ensures |xs| <= |Merge(xs, incoming, same)| <= |xs| + |incoming|
    ensures Merge(xs, incoming, same)[..|xs|] == xs
    ensures forall i :: |xs| <= i < |Merge(xs, incoming, same)| ==> Merge(xs, incoming, same)[i] in incoming
    decreases |incoming|
  {
    if incoming != [] {
      var front := incoming[..|incoming| - 1];
      MergePrefix(xs, front, same);
      var m := Merge(xs, front, same);
      assert forall y :: y in front ==> y in incoming;
      if !Contains(m, incoming[|incoming| - 1], same) {
        assert (m + [incoming[|incoming| - 1]])[..|xs|] == m[..|xs|];
      }
    }
  }

  /** Merging `a` and then `b` is merging `a + b`: importing in two parts is
      importing the whole. */
  lemma {:induction false} MergeAppend<T>(xs: seq<T>, a: seq<T>, b: seq<T>, same: (T, T) -> bool)
    ensures Merge(xs, a + b, same) == Merge(Merge(xs, a, same), b, same)
    decreases |b|
  {
    if b == [] {
      assert a + b == a;
    } else {
      assert (a + b)[..|a + b| - 1] == a + b[..|b| - 1];
      assert (a + b)[|a + b| - 1] == b[|b| - 1];
      MergeAppend(xs, a, b[..|b| - 1], same);
    }
  }

  /** For an equivalence, after the merge the list contains every incoming
      element. */
  lemma {:induction false} MergeCovers<T(!new)>(xs: seq<T>, incoming: seq<T>, same: (T, T) -> bool)
    requires Equivalence(same)
    ensures forall i :: 0 <= i < |incoming| ==> Contains(Merge(xs, incoming, same), incoming[i], same)
    decreases |incoming|
  {
    if incoming != [] {
      var front := incoming[..|incoming| - 1];
      var x := incoming[|incoming| - 1];
      var m := Merge(xs, front, same);
      MergeCovers(xs, front, same);
      if Contains(m, x, same) {
      } else {
        forall i | 0 <= i < |incoming| ensures Contains(m + [x], incoming[i], same) {
          if i < |front| {
            assert incoming[i] == front[i];
            FirstMatchExtend(m, [x], incoming[i], same);
          } else {
            assert (m + [x])[|m|] == x;
            assert same(x, x);
          }
        }
      }
    }
  }

  /** The merge keeps a list without two equal elements that way. */
  lemma {:induction false} MergeNoTwoSame<T(!new)>(xs: seq<T>, incoming: seq<T>, same: (T, T) -> bool)
    requires Equivalence(same) && NoTwoSame(xs, same)
    ensures NoTwoSame(Merge(xs, incoming, same), same)
    decreases |incoming|
  {
    if incoming != [] {
      var x := incoming[|incoming| - 1];
      var m := Merge(xs, incoming[..|incoming| - 1], same);
      MergeNoTwoSame(xs, incoming[..|incoming| - 1], same);
      if !Contains(m, x, same) {
        forall i, j | 0 <= i < j < |m + [x]| ensures !same((m + [x])[j], (m + [x])[i]) {
          if j == |m| {
            assert (m + [x])[j] == x && (m + [x])[i] == m[i];
            assert !same(x, m[i]);
          } else {
            assert (m + [x])[j] == m[j] && (m + [x])[i] == m[i];
          }
        }
      }
    }
  }

  /** When the list already contains every incoming element the merge changes
      nothing. */
  lemma {:induction false} MergeContained<T>(xs: seq<T>, incoming: seq<T>, same: (T, T) -> bool)
    requires forall i :: 0 <= i < |incoming| ==> Contains(xs, incoming[i], same)
    ensures Merge(xs, incoming, same) == xs
    decreases |incoming|
  {
    if incoming != [] {
      MergeContained(xs, incoming[..|incoming| - 1], same);
    }
  }

  /** Importing the same elements a second time changes nothing. */
  lemma MergeIdempotent<T(!new)>(xs: seq<T>, incoming: seq<T>, same: (T, T) -> bool)
    requires Equivalence(same)
    ensures Merge(Merge(xs, incoming, same), incoming, same) == Merge(xs, incoming, same)
  {
    MergeCovers(xs, incoming, same);
    MergeContained(Merge(xs, incoming, same), incoming, same);
  }

  /** `s` repeated `n` times: what a loop that appends `s` once per visit
      leaves after `n` visits. */
  function Repeat<T>(s: seq<T>, n: nat): (r: seq<T>)
    ensures |r| == n * |s|
    decreases n
  {
    if n == 0 then [] else Repeat(s, n - 1) + s
  }

  /** The prefix of length `i + 1` is the prefix of length `i` and `s[i]`. */
  lemma TakeStep<T>(s: seq<T>, i: nat)
    requires i < |s|
    ensures s[..i + 1] == s[..i] + [s[i]]
  {
  }

  /** A list that starts with `a` is `a` followed by the rest. */
  lemma PrefixRest<T>(a: seq<T>, b: seq<T>)
    requires |a| <= |b| && b[..|a|] == a
    ensures b == a + b[|a|..]
  {
  }

  /** Appending in two steps is appending once. */
  lemma AppendAssoc<T>(a: seq<T>, b: seq<T>, c: seq<T>)
    ensures (a + b) + c == a + (b + c)
  {
  }

  /** Extending a prefix by one element adds one to that element's count. */
  lemma CountStep<T>(s: seq<T>, i: nat, x: T)
    requires i < |s|
    ensures multiset(s[..i + 1])[x] == multiset(s[..i])[x] + (if x == s[i] then 1 else 0)
  {
    assert s[..i + 1] == s[..i] + [s[i]];
  }

  /** Appending `xs` once more to the entry of `keys[i]` keeps every entry of
      `keys` its start value followed by one copy of `xs` per occurrence of its
      key in the prefix: the prefix of length `i + 1` after the step. */
  lemma RepeatStep<K, T>(keys: seq<K>, i: nat, xs: seq<T>, start: map<K, seq<T>>, before: map<K, seq<T>>, after: map<K, seq<T>>)
    requires i < |keys|
    requires forall k :: k in keys ==> k in start && k in before && k in after
    requires forall k :: k in keys ==> before[k] == start[k] + Repeat(xs, multiset(keys[..i])[k])
    requires after[keys[i]] == before[keys[i]] + xs
    requires forall k :: k in keys && k != keys[i] ==> after[k] == before[k]
    ensures forall k :: k in keys ==> after[k] == start[k] + Repeat(xs, multiset(keys[..i + 1])[k])
  {
    forall k | k in keys ensures after[k] == start[k] + Repeat(xs, multiset(keys[..i + 1])[k]) {
      CountStep(keys, i, k);
    }
  }
}
