/** The JSON tree that the exports build and the imports read, in place of the
    text form that the JSON library parses and prints.  A JSON object is a map
    from keys to values, as the library's `JSONObject` is a hash map. */
module Json {
  import opened Wrappers

  datatype Json =
    | JNull
    | JBool(b: bool)
    | JInt(i: int)
    | JString(s: string)
    | JArray(items: seq<Json>)
    | JObject(fields: map<string, Json>)

  /** `JSONObject.get`: the value stored under `key`, or null when it is missing. */
  function Get(fields: map<string, Json>, key: string): (r: Json)
    ensures key in fields ==> r == fields[key]
    ensures key !in fields ==> r == JNull
  {
    if key in fields then fields[key] else JNull
  }

  /** A cast to `String`: only a JSON string succeeds. */
  function AsString(j: Json): (r: Option<string>)
    ensures r.Some? <==> j.JString?
  {
    if j.JString? then Some(j.s) else None
  }

  /** A cast to `JSONArray`: only a JSON array succeeds. */
  function AsArray(j: Json): (r: Option<seq<Json>>)
    ensures r.Some? <==> j.JArray?
  {
    if j.JArray? then Some(j.items) else None
  }

  /** Decode every element of a JSON array with `f`; the first element that
      fails makes the whole list fail, as the exception inside the import loop
      does. */
  function DecodeAll<T>(items: seq<Json>, f: Json -> Option<T>): (r: Option<seq<T>>)
    ensures r.Some? ==> |r.value| == |items|
    decreases |items|
  {
    if items == [] then Some([])
    else
      var rest := DecodeAll(items[1..], f);
      match f(items[0])
      case None => None
      case Some(x) => if rest.None? then None else Some([x] + rest.value)
  }

  /** The list decodes exactly when every element does, and then to the
      decoded elements in order. */
  lemma {:induction false} DecodeAllSpec<T>(items: seq<Json>, f: Json -> Option<T>)
    ensures DecodeAll(items, f).Some? <==> forall i :: 0 <= i < |items| ==> f(items[i]).Some?
    ensures DecodeAll(items, f).Some? ==> forall i :: 0 <= i < |items| ==> DecodeAll(items, f).value[i] == f(items[i]).value
    decreases |items|
  {
    if items != [] {
      DecodeAllSpec(items[1..], f);
      assert forall i :: 1 <= i < |items| ==> items[i] == items[1..][i - 1];
    }
  }

  /** When every element decodes to the matching element of `out`, the whole
      list decodes to `out`. */
  lemma DecodeAllOf<T>(items: seq<Json>, f: Json -> Option<T>, out: seq<T>)
    requires |items| == |out|
    requires forall i :: 0 <= i < |items| ==> f(items[i]) == Some(out[i])
    ensures DecodeAll(items, f) == Some(out)
  {
    DecodeAllSpec(items, f);
    assert DecodeAll(items, f).value == out;
  }

  /** The `i`-th element of a list that decodes is the `i`-th element
      decoded. */
  lemma DecodeAllAt<T>(items: seq<Json>, f: Json -> Option<T>, out: seq<T>, i: nat)
    requires DecodeAll(items, f) == Some(out) && i < |items|
    ensures f(items[i]) == Some(out[i])
  {
    DecodeAllSpec(items, f);
  }

  /** The position of the first element `f` cannot decode, or `|items|` when
      it decodes them all: where the import loop stops with an exception. */
  function FirstFailure<T>(items: seq<Json>, f: Json -> Option<T>): (k: nat)
    ensures k <= |items|
    decreases |items|
  {
    if items == [] then 0
    else if f(items[0]).None? then 0
    else 1 + FirstFailure(items[1..], f)
  }

  /** The elements decoded before the first failure: what the import loop
      has handled when it stops. */
  function DecodedPrefix<T>(items: seq<Json>, f: Json -> Option<T>): (r: seq<T>)
    ensures |r| <= |items|
    decreases |items|
  {
    if items == [] then []
    else if f(items[0]).None? then []
    else [f(items[0]).value] + DecodedPrefix(items[1..], f)
  }

  /** Every element before the first failure decodes, the element at it does
      not, and there is no failure exactly when the whole list decodes; the
      decoded prefix holds the decoded elements, and is the whole decoded list
      when there is no failure. */
  lemma {:induction false} DecodedPrefixSpec<T>(items: seq<Json>, f: Json -> Option<T>)
    ensures |DecodedPrefix(items, f)| == FirstFailure(items, f)
    ensures forall i :: 0 <= i < FirstFailure(items, f) ==> f(items[i]) == Some(DecodedPrefix(items, f)[i])
    ensures FirstFailure(items, f) < |items| ==> f(items[FirstFailure(items, f)]).None?
    ensures FirstFailure(items, f) == |items| <==> DecodeAll(items, f).Some?
    ensures DecodeAll(items, f).Some? ==> DecodedPrefix(items, f) == DecodeAll(items, f).value
    decreases |items|
  {
    if items != [] && f(items[0]).Some? {
      DecodedPrefixSpec(items[1..], f);
      assert forall i :: 1 <= i < |items| ==> items[i] == items[1..][i - 1];
    }
  }

  /** The `i`-th element before the first failure decodes to the `i`-th
      element of the prefix; an element at the length of the prefix does not
      decode. */
  lemma DecodedPrefixAt<T>(items: seq<Json>, f: Json -> Option<T>, i: nat)
    requires i < |items| && i <= |DecodedPrefix(items, f)|
    ensures i < |DecodedPrefix(items, f)| ==> f(items[i]) == Some(DecodedPrefix(items, f)[i])
    ensures i == |DecodedPrefix(items, f)| ==> f(items[i]).None?
  {
    DecodedPrefixSpec(items, f);
  }

  /** The whole list decodes exactly when the prefix is as long as the list. */
  lemma DecodedPrefixAll<T>(items: seq<Json>, f: Json -> Option<T>)
    ensures |DecodedPrefix(items, f)| == |items| <==> DecodeAll(items, f).Some?
  {
    DecodedPrefixSpec(items, f);
  }
}
