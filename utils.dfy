/** The helpers of `utils/Utils.java` that the core uses: the bounded random
    draw, the 1-based selection check and the parsing of a list of selections.
    Java's 32-bit `int` is written out where its wrap-around shows. */
module Utils {
  import opened Wrappers

  const TWO_POW_31: int := 0x8000_0000
  const TWO_POW_32: int := 0x1_0000_0000

  /** The values of a Java `int`. */
  type Int32 = x: int | -0x8000_0000 <= x < 0x8000_0000

  /** Java `int` arithmetic: the result agrees with `x` modulo 2^32 and lies in
      the `int` range, so a value already in range is kept. */
  function Wrap32(x: int): (r: Int32)
    ensures (r - x) % TWO_POW_32 == 0
    ensures -TWO_POW_31 <= x < TWO_POW_31 ==> r == x
  {
    ((x + TWO_POW_31) % TWO_POW_32) - TWO_POW_31
  }

  function Min(a: int, b: int): int { if a <= b then a else b }
  function Max(a: int, b: int): int { if a <= b then b else a }

  /** `getRandomNumberInRange(min, max)` with the random source as an oracle:
      the bounds are swapped when `min > max`, and `draw` stands for the value
      `Math.random() * (max - min + 1)` truncates to, reduced into that span.
      Whatever the draw, the result lies between the two bounds. */
  function RandomInRange(min: int, max: int, draw: nat): (r: int)
    ensures Min(min, max) <= r <= Max(min, max)
  {
    var lo := if min > max then max else min;
    var hi := if min > max then min else max;
    lo + draw % (hi - lo + 1)
  }

  /** Swapping the bounds never changes the draw. */
  lemma RandomInRangeSymmetric(a: int, b: int, draw: nat)
    ensures RandomInRange(a, b, draw) == RandomInRange(b, a, draw)
  {
  }

  /** Every value between the bounds is the result of some draw. */
  lemma RandomInRangeReaches(a: int, b: int, v: int)
    requires Min(a, b) <= v <= Max(a, b)
    ensures RandomInRange(a, b, (v - Min(a, b)) as nat) == v
  {
    var lo, span := Min(a, b), Max(a, b) - Min(a, b) + 1;
    assert 0 <= v - lo < span;
    assert (v - lo) % span == v - lo;
  }

  /** `checkSelection(i, size)`: a 1-based menu choice is valid. */
  predicate CheckSelection(i: int, size: int) {
    1 <= i <= size
  }

  /** The single-choice path of `showAndSelectFromList` keeps asking until
      the choice passes the check or is 0, and returns the choice minus 1 as
      an `int`.  A choice passes exactly when that result indexes the list,
      even at the bottom of the `int` range, where `- 1` wraps around; 0
      gives -1. */
  lemma CheckSelectionIsIndex(i: Int32, size: nat)
    requires size < TWO_POW_31
    ensures CheckSelection(i, size) <==> 0 <= Wrap32(i - 1) < size
    ensures i == 0 ==> Wrap32(i - 1) == -1
  {
  }

  // ---------------------------------------------------------------------------
  // Integer.valueOf on decimal strings

  predicate IsDigit(ch: char) { '0' <= ch <= '9' }

  predicate AllDigits(s: string) { forall i :: 0 <= i < |s| ==> IsDigit(s[i]) }

  /** The value of a string of decimal digits, most significant first. */
  function DigitsValue(s: string): nat
    requires AllDigits(s)
    decreases |s|
  {
    if s == [] then 0
    else DigitsValue(s[..|s| - 1]) * 10 + (s[|s| - 1] as int - '0' as int)
  }

  /** `Integer.valueOf(s)`: an optional sign, at least one digit, and a value in
      the `int` range; anything else is a `NumberFormatException` (`None`).
      A string of digits is read as its value when that fits and fails when it
      does not; a minus sign followed by digits gives the negated value, down
      to -2^31. */
  function ParseDecimal(s: string): (r: Option<Int32>)
    ensures r.Some? ==> |s| > 0 && (s[0] == '-' || s[0] == '+' || IsDigit(s[0]))
    ensures r.Some? ==> |s| > 1 || IsDigit(s[0])
    ensures r.Some? ==> forall i :: 0 < i < |s| ==> IsDigit(s[i])
    ensures |s| > 0 && AllDigits(s) ==>
      (r.Some? <==> DigitsValue(s) < TWO_POW_31) && (r.Some? ==> r.value == DigitsValue(s))
    ensures |s| > 1 && s[0] == '-' && AllDigits(s[1..]) ==>
      (r.Some? <==> DigitsValue(s[1..]) <= TWO_POW_31) && (r.Some? ==> r.value == -(DigitsValue(s[1..]) as int))
  {
    if |s| == 0 then None
    else
      var negative := s[0] == '-';
      var digits := if s[0] == '-' || s[0] == '+' then s[1..] else s;
      if |digits| == 0 || !AllDigits(digits) then None
      else
        var v: int := if negative then -(DigitsValue(digits) as int) else DigitsValue(digits);
        if -TWO_POW_31 <= v < TWO_POW_31 then Some(v) else None
  }

  /** The decimal digits of a natural number, most significant first. */
  function ShowNat(n: nat): (r: string)
    ensures |r| > 0 && AllDigits(r)
  {
    if n < 10 then [('0' as int + n) as char]
    else ShowNat(n / 10) + [('0' as int + n % 10) as char]
  }

  /** The decimal text of an `int`, as `Integer.toString` writes it. */
  function ShowInt(n: Int32): string {
    if n < 0 then "-" + ShowNat(-(n as int)) else ShowNat(n)
  }

  lemma {:induction false} DigitsValueShowNat(n: nat)
    ensures DigitsValue(ShowNat(n)) == n
  {
    if n >= 10 {
      var s := ShowNat(n);
      assert s[..|s| - 1] == ShowNat(n / 10);
      DigitsValueShowNat(n / 10);
    }
  }

  /** Parsing is the inverse of printing on the whole `int` range. */
  lemma ParseShowInt(n: Int32)
    ensures ParseDecimal(ShowInt(n)) == Some(n)
  {
    if n < 0 {
      var s := ShowInt(n);
      assert s[1..] == ShowNat(-(n as int));
      DigitsValueShowNat(-(n as int));
    } else {
      DigitsValueShowNat(n);
    }
  }

  /** `parseIntArray`: each selection text is parsed and turned into a 0-based
      index by subtracting 1 (in `int` arithmetic); the first text that does not
      parse makes the whole call fail, as the exception does. */
  method ParseIntArray(arr: seq<string>) returns (r: Option<seq<Int32>>)
    ensures r.Some? <==> forall k :: 0 <= k < |arr| ==> ParseDecimal(arr[k]).Some?
    ensures r.Some? ==> |r.value| == |arr|
    ensures r.Some? ==> forall k :: 0 <= k < |arr| ==> r.value[k] == Wrap32(ParseDecimal(arr[k]).value as int - 1)
  {
    var list: seq<Int32> := [];
    var i := 0;
    while i < |arr|
      invariant 0 <= i <= |arr|
      invariant |list| == i
      invariant forall k :: 0 <= k < i ==> ParseDecimal(arr[k]).Some?
      invariant forall k :: 0 <= k < i ==> list[k] == Wrap32(ParseDecimal(arr[k]).value as int - 1)
    {
      var parsed := ParseDecimal(arr[i]);
      if parsed.None? {
        assert !ParseDecimal(arr[i]).Some?;
        return None;
      }
      list := list + [Wrap32(parsed.value as int - 1)];
      i := i + 1;
    }
    return Some(list);
  }
}
