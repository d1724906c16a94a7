/** The driving loops of `startRace` (`race/StandardRace.java`,
    `race/DeathRace.java`): in every tick each car of the race's list is driven
    once per position it holds, with an option drawn in [0, 2].  The random
    source is an oracle: the draw for position `pos` in tick `tick`. */
module Rounds {
  import opened Utils
  import opened Cars
  import opened Lists

  type Oracle = (nat, nat) -> nat

  /** `Utils.getRandomNumberInRange(0, 2)` for one car in one tick. */
  function DriveOption(oracle: Oracle, tick: nat, pos: nat): (option: int)
    ensures 0 <= option <= 2
  {
    RandomInRange(0, 2, oracle(tick, pos))
  }

  /** The options `c` is driven with in one tick over the first `upto`
      positions of `cs`, one per position at which it stands, in list order. */
  function RoundOptions(cs: seq<Car>, upto: nat, c: Car, tick: nat, oracle: Oracle): seq<int>
    requires upto <= |cs|
    decreases upto
  {
    if upto == 0 then []
    else
      RoundOptions(cs, upto - 1, c, tick, oracle) +
      (if cs[upto - 1] == c then [DriveOption(oracle, tick, upto - 1)] else [])
  }

  /** The options `c` is driven with in `n` ticks starting at tick `from`. */
  function TickOptions(cs: seq<Car>, c: Car, from: nat, n: nat, oracle: Oracle): seq<int>
    decreases n
  {
    if n == 0 then []
    else TickOptions(cs, c, from, n - 1, oracle) + RoundOptions(cs, |cs|, c, from + n - 1, oracle)
  }

  /** In one tick a car is driven as many times as it occurs in the list. */
  lemma {:induction false} RoundOptionsLength(cs: seq<Car>, upto: nat, c: Car, tick: nat, oracle: Oracle)
    requires upto <= |cs|
    ensures |RoundOptions(cs, upto, c, tick, oracle)| == multiset(cs[..upto])[c]
    decreases upto
  {
    if upto > 0 {
      var prev := RoundOptions(cs, upto - 1, c, tick, oracle);
      var here: seq<int> := if cs[upto - 1] == c then [DriveOption(oracle, tick, upto - 1)] else [];
      assert RoundOptions(cs, upto, c, tick, oracle) == prev + here;
      RoundOptionsLength(cs, upto - 1, c, tick, oracle);
      CountStep(cs, upto - 1, c);
      assert |prev + here| == |prev| + (if cs[upto - 1] == c then 1 else 0);
    }
  }

  /** Over `n` ticks a car is driven `n` times per occurrence in the list. */
  lemma TickOptionsLength(cs: seq<Car>, c: Car, from: nat, n: nat, oracle: Oracle)
    ensures |TickOptions(cs, c, from, n, oracle)| == n * multiset(cs)[c]
  {
    assert cs[..|cs|] == cs;
    TickOptionsCount(cs, c, from, n, oracle, multiset(cs)[c]);
  }

  lemma {:induction false} TickOptionsCount(cs: seq<Car>, c: Car, from: nat, n: nat, oracle: Oracle, k: nat)
    requires k == multiset(cs[..|cs|])[c]
    ensures |TickOptions(cs, c, from, n, oracle)| == n * k
    decreases n
  {
    if n > 0 {
      TickOptionsCount(cs, c, from, n - 1, oracle, k);
      RoundOptionsLength(cs, |cs|, c, from + n - 1, oracle);
      MulStep(n, k);
    }
  }

  lemma MulStep(n: nat, k: nat)
    requires n > 0
    ensures (n - 1) * k + k == n * k
  {
  }

  /** `a` ticks followed by `b` more are `a + b` ticks. */
  lemma {:induction false} TickOptionsSplit(cs: seq<Car>, c: Car, from: nat, a: nat, b: nat, oracle: Oracle)
    ensures TickOptions(cs, c, from, a + b, oracle)
         == TickOptions(cs, c, from, a, oracle) + TickOptions(cs, c, from + a, b, oracle)
    decreases b
  {
    if b > 0 {
      TickOptionsSplit(cs, c, from, a, b - 1, oracle);
    }
  }

  lemma {:induction false} RoundOptionsPrefix(cs: seq<Car>, p: nat, upto: nat, tick: nat, oracle: Oracle)
    requires p < |cs| && upto <= |cs|
    requires forall k :: 0 <= k < |cs| && k != p ==> cs[k] != cs[p]
    ensures RoundOptions(cs, upto, cs[p], tick, oracle) == if p < upto then [DriveOption(oracle, tick, p)] else []
    decreases upto
  {
    if upto > 0 {
      RoundOptionsPrefix(cs, p, upto - 1, tick, oracle);
    }
  }

  /** A car that stands once in the list, at `p`, is driven exactly once per
      tick, with the draw for its position. */
  lemma {:induction false} TickOptionsSingle(cs: seq<Car>, p: nat, from: nat, n: nat, oracle: Oracle)
    requires p < |cs|
    requires forall k :: 0 <= k < |cs| && k != p ==> cs[k] != cs[p]
    ensures |TickOptions(cs, cs[p], from, n, oracle)| == n
    ensures forall t :: 0 <= t < n ==> TickOptions(cs, cs[p], from, n, oracle)[t] == DriveOption(oracle, from + t, p)
    decreases n
  {
    if n > 0 {
      TickOptionsSingle(cs, p, from, n - 1, oracle);
      RoundOptionsPrefix(cs, p, |cs|, from + n - 1, oracle);
    }
  }

  /** The motion of `c` after one tick over the first `upto` positions of
      `cs`: it is driven once for each position it holds, in list order, with
      the option drawn for that position. */
  function RoundMotion(m: Motion, cs: seq<Car>, upto: nat, c: Car, tick: nat, oracle: Oracle): Motion
    requires upto <= |cs|
    decreases upto
  {
    if upto == 0 then m
    else
      var before := RoundMotion(m, cs, upto - 1, c, tick, oracle);
      if cs[upto - 1] == c then Driven(before, DriveOption(oracle, tick, upto - 1)) else before
  }

  /** The motion of `c` after `n` ticks over `cs`, numbered from `from`. */
  function TickMotion(m: Motion, cs: seq<Car>, c: Car, from: nat, n: nat, oracle: Oracle): Motion
    decreases n
  {
    if n == 0 then m
    else RoundMotion(TickMotion(m, cs, c, from, n - 1, oracle), cs, |cs|, c, from + n - 1, oracle)
  }

  /** One tick drives a car with exactly the options `RoundOptions` lists. */
  lemma {:induction false} RoundMotionOptions(m: Motion, cs: seq<Car>, upto: nat, c: Car, tick: nat, oracle: Oracle)
    requires upto <= |cs|
    ensures RoundMotion(m, cs, upto, c, tick, oracle) == DrivenBy(m, RoundOptions(cs, upto, c, tick, oracle))
    decreases upto
  {
    if upto > 0 {
      var a := RoundOptions(cs, upto - 1, c, tick, oracle);
      RoundMotionOptions(m, cs, upto - 1, c, tick, oracle);
      if cs[upto - 1] == c {
        var o := DriveOption(oracle, tick, upto - 1);
        assert (a + [o])[..|a|] == a;
      } else {
        assert a + [] == a;
      }
    }
  }

  /** `n` ticks drive a car with exactly the options `TickOptions` lists. */
  lemma {:induction false} TickMotionOptions(m: Motion, cs: seq<Car>, c: Car, from: nat, n: nat, oracle: Oracle)
    ensures TickMotion(m, cs, c, from, n, oracle) == DrivenBy(m, TickOptions(cs, c, from, n, oracle))
    decreases n
  {
    if n > 0 {
      TickMotionOptions(m, cs, c, from, n - 1, oracle);
      TickMotionOptionsStep(m, cs, c, from, n, oracle);
    }
  }

  /** If `n` ticks drive a car with the options of `n` ticks, so do `n + 1`. */
  lemma TickMotionOptionsStep(m: Motion, cs: seq<Car>, c: Car, from: nat, n: nat, oracle: Oracle)
    requires n > 0
    requires TickMotion(m, cs, c, from, n - 1, oracle) == DrivenBy(m, TickOptions(cs, c, from, n - 1, oracle))
    ensures TickMotion(m, cs, c, from, n, oracle) == DrivenBy(m, TickOptions(cs, c, from, n, oracle))
  {
    var prev := TickMotion(m, cs, c, from, n - 1, oracle);
    var a := TickOptions(cs, c, from, n - 1, oracle);
    var b := RoundOptions(cs, |cs|, c, from + n - 1, oracle);
    RoundMotionOptions(prev, cs, |cs|, c, from + n - 1, oracle);
    DrivenByAppend(m, a, b);
  }

  /** `a` ticks and then `b` more are `a + b` ticks. */
  lemma {:induction false} TickMotionSplit(m: Motion, cs: seq<Car>, c: Car, from: nat, a: nat, b: nat, oracle: Oracle)
    ensures TickMotion(m, cs, c, from, a + b, oracle)
         == TickMotion(TickMotion(m, cs, c, from, a, oracle), cs, c, from + a, b, oracle)
    decreases b
  {
    if b > 0 {
      TickMotionSplit(m, cs, c, from, a, b - 1, oracle);
    }
  }

  /** However long the race and whatever the draws, a car that starts in a
      reachable state stays in one and never loses distance. */
  lemma TickMotionValid(m: Motion, cs: seq<Car>, c: Car, from: nat, n: nat, oracle: Oracle)
    requires ValidMotion(m)
    ensures ValidMotion(TickMotion(m, cs, c, from, n, oracle))
    ensures TickMotion(m, cs, c, from, n, oracle).distance >= m.distance
  {
    TickMotionOptions(m, cs, c, from, n, oracle);
    DrivenByValid(m, TickOptions(cs, c, from, n, oracle));
  }

  /** One tick more is one more round over the list. */
  lemma TickMotionNext(m: Motion, cs: seq<Car>, c: Car, from: nat, n: nat, oracle: Oracle)
    ensures TickMotion(m, cs, c, from, n + 1, oracle) == RoundMotion(TickMotion(m, cs, c, from, n, oracle), cs, |cs|, c, from + n, oracle)
  {
  }

  /** A car that is not in the list is not driven. */
  lemma TickMotionAbsent(m: Motion, cs: seq<Car>, c: Car, from: nat, n: nat, oracle: Oracle)
    requires c !in cs
    ensures TickMotion(m, cs, c, from, n, oracle) == m
  {
    TickMotionOptions(m, cs, c, from, n, oracle);
    TickOptionsLength(cs, c, from, n, oracle);
    assert multiset(cs)[c] == 0;
  }
}
