/** `race/Race.java` with its two variants `race/StandardRace.java` and
    `race/DeathRace.java`, as one class tagged with its kind.  A race has
    garages, the cars that take part, and (for an elimination race) the list of
    cars still in the running.  Its JSON forms, its equality and copy, how it
    picks its cars, how it is driven, the points it gives and its podium. */
module Races {
  import opened Wrappers
  import opened Text
  import opened Json
  import opened Utils
  import opened Sorting
  import opened Cars
  import opened Comparators
  import opened Garages
  import opened Awards
  import opened Rounds

  const RACE_NAME_KEY: string := "name"
  const RACE_TYPE_KEY: string := "type"
  const SECOND_ARGUMENT_KEY: string := "secondArgument"
  const GARAGE_LIST_KEY: string := "garageList"
  const RACE_CAR_LIST_KEY: string := "carList"
  const STANDARD_CODE: string := "SR"
  const DEATH_CODE: string := "DR"

  /** Number of ticks in one hour of a StandardRace. */
  const MINUTES_PER_HOUR: int := 60

  /** A StandardRace lasts a number of hours; a DeathRace has a number of laps
      before the eliminations start.  Both numbers are the race's parameter. */
  datatype RaceKind = Standard | Death

  /** What `equals`, `clone` and the info export look at. */
  datatype RaceInfo = RaceInfo(kind: RaceKind, name: string, param: Int32)

  /** `equals`: the same variant, names equal ignoring case, the same hours or
      laps. */
  predicate SameRace(a: RaceInfo, b: RaceInfo) {
    a.kind == b.kind && EqualsIgnoreCase(a.name, b.name) && a.param == b.param
  }

  lemma SameRaceEquivalence(a: RaceInfo, b: RaceInfo, c: RaceInfo)
    ensures SameRace(a, a)
    ensures SameRace(a, b) ==> SameRace(b, a)
    ensures SameRace(a, b) && SameRace(b, c) ==> SameRace(a, c)
  {
  }

  /** The type code written by the exports. */
  function KindCode(k: RaceKind): string {
    if k == Standard then STANDARD_CODE else DEATH_CODE
  }

  /** The type read by `importRace`: "SR" in any case is a StandardRace, every
      other code a DeathRace. */
  function KindOf(code: string): (k: RaceKind)
    ensures k == Standard <==> EqualsIgnoreCase(code, STANDARD_CODE)
  {
    if EqualsIgnoreCase(code, STANDARD_CODE) then Standard else Death
  }

  /** Reading back a written type code gives the same kind. */
  lemma KindOfCode(k: RaceKind)
    ensures KindOf(KindCode(k)) == k
  {
    if k == Death {
      assert Fold(DEATH_CODE)[0] != Fold(STANDARD_CODE)[0];
    }
  }

  // ---------------------------------------------------------------------------
  // JSON form

  /** A race as its full JSON form carries it. */
  datatype RaceRec = RaceRec(info: RaceInfo, garages: seq<GarageRec>, cars: seq<CarInfo>)

  function InfoFields(info: RaceInfo): map<string, Json> {
    map[RACE_NAME_KEY := JString(info.name), RACE_TYPE_KEY := JString(KindCode(info.kind)),
        SECOND_ARGUMENT_KEY := JInt(info.param)]
  }

  /** `exportRaceInfo`: name, type code and hours or laps. */
  function EncodeRaceInfo(info: RaceInfo): (j: Json)
    ensures j.JObject? && j.fields.Keys == {RACE_NAME_KEY, RACE_TYPE_KEY, SECOND_ARGUMENT_KEY}
  {
    JObject(InfoFields(info))
  }

  /** `exportRaceWithGarageAndCarsToJson`: the info fields, the garages by name
      only and the cars. */
  function EncodeRace(info: RaceInfo, garageNames: seq<string>, cars: seq<CarInfo>): (j: Json)
    ensures j.JObject?
    ensures j.fields.Keys == {RACE_NAME_KEY, RACE_TYPE_KEY, SECOND_ARGUMENT_KEY, GARAGE_LIST_KEY, RACE_CAR_LIST_KEY}
  {
    var names := seq(|garageNames|, i requires 0 <= i < |garageNames| => EncodeGarageName(garageNames[i]));
    JObject(InfoFields(info)[GARAGE_LIST_KEY := JArray(names)][RACE_CAR_LIST_KEY := JArray(EncodeCars(cars))])
  }

  /** An optional array of the import: a missing one is empty, any other
      non-array fails the cast, otherwise every element must decode. */
  function DecodeOptionalList<T>(j: Json, f: Json -> Option<T>): (r: Option<seq<T>>)
    ensures j == JNull ==> r == Some([])
    ensures j.JArray? ==> r == DecodeAll(j.items, f)
    ensures !j.JArray? && j != JNull ==> r.None?
  {
    if j == JNull then Some([])
    else if !j.JArray? then None
    else DecodeAll(j.items, f)
  }

  /** `importRace`: type and name must be strings and the second argument an
      integer, narrowed to a Java `int`; the optional `garageList` is read with
      the garage import and the optional `carList` with the car import. */
  function DecodeRace(j: Json): (r: Option<RaceRec>)
    ensures r.Some? ==> j.JObject? && Get(j.fields, RACE_NAME_KEY) == JString(r.value.info.name)
    ensures r.Some? ==> (Get(j.fields, SECOND_ARGUMENT_KEY).JInt? &&
      r.value.info.param == Wrap32(Get(j.fields, SECOND_ARGUMENT_KEY).i))
    ensures r.Some? ==> (Get(j.fields, RACE_TYPE_KEY).JString? &&
      r.value.info.kind == KindOf(Get(j.fields, RACE_TYPE_KEY).s))
    ensures r.Some? ==> DecodeOptionalList(Get(j.fields, GARAGE_LIST_KEY), DecodeGarage) == Some(r.value.garages)
    ensures r.Some? ==> DecodeOptionalList(Get(j.fields, RACE_CAR_LIST_KEY), DecodeCar) == Some(r.value.cars)
  {
    if !j.JObject? then None
    else
      var f := j.fields;
      match (AsString(Get(f, RACE_TYPE_KEY)), AsString(Get(f, RACE_NAME_KEY)), Get(f, SECOND_ARGUMENT_KEY))
      case (Some(code), Some(name), JInt(n)) =>
        var garages := DecodeOptionalList(Get(f, GARAGE_LIST_KEY), DecodeGarage);
        var cars := DecodeOptionalList(Get(f, RACE_CAR_LIST_KEY), DecodeCar);
        if garages.None? || cars.None? then None
        else Some(RaceRec(RaceInfo(KindOf(code), name, Wrap32(n)), garages.value, cars.value))
      case _ => None
  }

  /** The garages the full export leaves after a round trip: the same names,
      without cars. */
  function Bare(names: seq<string>): (r: seq<GarageRec>)
    ensures |r| == |names|
    ensures forall i :: 0 <= i < |names| ==> r[i] == GarageRec(names[i], [])
  {
    seq(|names|, i requires 0 <= i < |names| => GarageRec(names[i], []))
  }

  /** Importing the info export gives the same race, without garages or cars. */
  lemma DecodeEncodeRaceInfo(info: RaceInfo)
    ensures DecodeRace(EncodeRaceInfo(info)) == Some(RaceRec(info, [], []))
  {
    var f := EncodeRaceInfo(info).fields;
    assert Get(f, RACE_TYPE_KEY) == JString(KindCode(info.kind));
    assert Get(f, RACE_NAME_KEY) == JString(info.name);
    assert Get(f, SECOND_ARGUMENT_KEY) == JInt(info.param);
    assert GARAGE_LIST_KEY !in f && RACE_CAR_LIST_KEY !in f;
    KindOfCode(info.kind);
  }

  /** Importing the full export gives the same race with the same cars in the
      same order, and garages of the same names without their cars. */
  lemma DecodeEncodeRace(info: RaceInfo, garageNames: seq<string>, cars: seq<CarInfo>)
    ensures DecodeRace(EncodeRace(info, garageNames, cars)) == Some(RaceRec(info, Bare(garageNames), cars))
  {
    var j := EncodeRace(info, garageNames, cars);
    var f := j.fields;
    assert Get(f, RACE_TYPE_KEY) == JString(KindCode(info.kind));
    assert Get(f, RACE_NAME_KEY) == JString(info.name);
    assert Get(f, SECOND_ARGUMENT_KEY) == JInt(info.param);
    KindOfCode(info.kind);
    var gl := Get(f, GARAGE_LIST_KEY).items;
    forall i | 0 <= i < |gl| ensures DecodeGarage(gl[i]) == Some(Bare(garageNames)[i]) {
      DecodeEncodeGarageName(garageNames[i]);
    }
    DecodeAllOf(gl, DecodeGarage, Bare(garageNames));
    var cl := Get(f, RACE_CAR_LIST_KEY).items;
    forall i | 0 <= i < |cl| ensures DecodeCar(cl[i]) == Some(cars[i]) {
      DecodeEncodeCar(cars[i]);
    }
    DecodeAllOf(cl, DecodeCar, cars);
  }

  // ---------------------------------------------------------------------------
  // Ranking and points

  /** The order `givePoints` ranks the cars in: by non-increasing distance for
      a StandardRace (sort, then reverse), by ascending distance for a
      DeathRace. */
  function Ranking<T>(kind: RaceKind, s: seq<T>, key: T -> int): seq<T> {
    if kind == Standard then SortAndReverse(s, key) else SortAsc(s, key)
  }

  /** The award of each place of the ranking. */
  function Award(kind: RaceKind): nat -> int {
    if kind == Standard then StandardAward else DeathAward
  }

  /** How many places of the ranking are paid: the first three (or fewer) of a
      StandardRace, every place of a DeathRace. */
  function Places(kind: RaceKind, n: nat): (p: nat)
    ensures p <= n
    ensures kind == Death ==> p == n
    ensures kind == Standard ==> p == Min(3, n)
  {
    if kind == Standard then Min(3, n) else n
  }

  /** The ranking holds the same cars, in the direction of the race's kind. */
  lemma RankingSpec<T>(kind: RaceKind, s: seq<T>, key: T -> int)
    ensures multiset(Ranking(kind, s, key)) == multiset(s)
    ensures |Ranking(kind, s, key)| == |s|
    ensures kind == Standard ==>
      forall i, j :: 0 <= i < j < |s| ==> key(Ranking(kind, s, key)[i]) >= key(Ranking(kind, s, key)[j])
    ensures kind == Death ==>
      forall i, j :: 0 <= i < j < |s| ==> key(Ranking(kind, s, key)[i]) <= key(Ranking(kind, s, key)[j])
  {
    if kind == Standard {
      SortAndReverseSpec(s, key);
    } else {
      SortAscPermutation(s, key);
      SortAscSorted(s, key);
      assert |multiset(SortAsc(s, key))| == |multiset(s)|;
    }
  }

  /** `givePoints` never takes points away: every award is at least zero. */
  lemma RacePointsNonNegative<T>(kind: RaceKind, ranked: seq<T>, c: T)
    ensures PointsUpTo(ranked, c, Places(kind, |ranked|), Award(kind)) >= 0
  {
    forall p: nat ensures Award(kind)(p) >= 0 {
      if kind == Standard {
        assert StandardAward(p) >= 0 by {
          if p < |STANDARD_SCORES| {
            assert STANDARD_SCORES[p] in STANDARD_SCORES;
          }
        }
      }
    }
    PointsNonNegative(ranked, c, Places(kind, |ranked|), Award(kind));
  }

  /** In a race without repeated cars, the car ranked first of a StandardRace
      has gone at least as far as every other and earns 5 points; the car
      ranked last in a DeathRace of `n` cars has gone at least as far as every
      other and earns `n - 1` points. */
  lemma RankingWinner<T>(kind: RaceKind, s: seq<T>, key: T -> int)
    requires Distinct(s) && |s| > 0
    ensures var r := Ranking(kind, s, key);
      |r| == |s| &&
      var w := if kind == Standard then r[0] else r[|s| - 1];
      (forall x :: x in s ==> key(w) >= key(x)) &&
      PointsUpTo(r, w, Places(kind, |s|), Award(kind)) == if kind == Standard then 5 else |s| - 1
  {
    var r := Ranking(kind, s, key);
    RankingSpec(kind, s, key);
    DistinctPermutation(s, r);
    forall x | x in s ensures x in r {
      assert x in multiset(s);
    }
    if kind == Standard {
      PointsAtPlace(r, 0, Places(kind, |s|), Award(kind));
    } else {
      PointsAtPlace(r, |s| - 1, Places(kind, |s|), Award(kind));
    }
  }

  /** In a race without repeated cars, the points of one `givePoints` add up
      to 5 + 3 + 1 over the first three places of a StandardRace, and to
      0 + 1 + ... + (n - 1) in a DeathRace of `n` cars. */
  lemma RankingTotal<T>(kind: RaceKind, s: seq<T>, key: T -> int)
    requires Distinct(s)
    ensures var r := Ranking(kind, s, key);
      |r| == |s| &&
      SumPoints(r, |s|, Places(kind, |s|), Award(kind)) ==
        if kind == Standard then [0, 5, 8, 9][Min(3, |s|)] else |s| * (|s| - 1) / 2
  {
    var r := Ranking(kind, s, key);
    RankingSpec(kind, s, key);
    DistinctPermutation(s, r);
    SumPointsTotal(r, |s|, Places(kind, |s|), Award(kind));
    if kind == Standard {
      StandardTotal(|s|);
    } else {
      DeathTotal(|s|);
    }
  }

  // ---------------------------------------------------------------------------
  // Elimination laps

  /** Each car's motion at the time of the call. */
  function MotionsOf(cs: seq<Car>): (m: map<Car, Motion>)
    reads set c | c in cs
    ensures forall c :: c in cs ==> c in m && m[c] == c.MotionState()
  {
    map c | c in cs :: c.MotionState()
  }

  /** The distances the `j`-th elimination lap (counted from 1) sorts by:
      each car's distance after `j` ticks over `cs` from tick `from`,
      starting from the motions `m0`. */
  function LapKey(m0: map<Car, Motion>, cs: seq<Car>, from: nat, j: nat, oracle: Oracle): Car -> int {
    c => if c in m0 then TickMotion(m0[c], cs, c, from, j, oracle).distance else 0
  }

  /** The cars still running after `k` elimination laps on `list`: each lap
      sorts the cars still running by that lap's distances (keeping the order
      of equal distances) and takes the front one out. */
  function StillRunning(list: seq<Car>, m0: map<Car, Motion>, cs: seq<Car>, from: nat, k: nat, oracle: Oracle): seq<Car>
    decreases k, 0
  {
    if k == 0 then list
    else
      var s := LapOrder(list, m0, cs, from, k - 1, oracle);
      if s == [] then [] else s[1..]
  }

  /** The order the lap after the first `k` sorts the cars still running in. */
  function LapOrder(list: seq<Car>, m0: map<Car, Motion>, cs: seq<Car>, from: nat, k: nat, oracle: Oracle): seq<Car>
    decreases k, 1
  {
    SortAsc(StillRunning(list, m0, cs, from, k, oracle), LapKey(m0, cs, from, k + 1, oracle))
  }

  /** The cars the first `k` elimination laps on `list` take out, in order. */
  function KnockedOut(list: seq<Car>, m0: map<Car, Motion>, cs: seq<Car>, from: nat, k: nat, oracle: Oracle): seq<Car>
    decreases k
  {
    if k == 0 then []
    else
      var s := LapOrder(list, m0, cs, from, k - 1, oracle);
      KnockedOut(list, m0, cs, from, k - 1, oracle) + (if s == [] then [] else [s[0]])
  }

  /** One lap, as the race object performs it: if `key` reads the cars'
      distances after the lap's tick off `now` and sorting the cars still
      running by it puts `out` in front of `rest`, the lap leaves `rest`
      running and takes `out` out, and no car is lost or gained. */
  lemma EliminationLap(list: seq<Car>, m0: map<Car, Motion>, cs: seq<Car>, from: nat, k: nat, oracle: Oracle,
                       running: seq<Car>, eliminated: seq<Car>, key: Car -> int, now: map<Car, Motion>, out: Car, rest: seq<Car>)
    requires running == StillRunning(list, m0, cs, from, k, oracle)
    requires eliminated == KnockedOut(list, m0, cs, from, k, oracle)
    requires multiset(list) == multiset(running) + multiset(eliminated)
    requires forall c :: c in running ==> c in m0 && c in now && key(c) == now[c].distance
    requires forall c :: c in running && c in cs ==> now[c] == TickMotion(m0[c], cs, c, from, k + 1, oracle)
    requires forall c :: c in running && c !in cs ==> now[c] == m0[c]
    requires SortAsc(running, key) == [out] + rest
    requires multiset(running) == multiset(rest) + multiset{out}
    ensures StillRunning(list, m0, cs, from, k + 1, oracle) == rest
    ensures KnockedOut(list, m0, cs, from, k + 1, oracle) == eliminated + [out]
    ensures |rest| == |running| - 1
    ensures forall c :: c in rest ==> c in running
    ensures multiset(list) == multiset(rest) + multiset(eliminated + [out])
  {
    LapSort(m0, cs, from, k, oracle, running, key, now, out, rest);
  }

  /** The distances a lap reads off the cars are the lap's distances: `now`
      holds the cars' motions after the lap's tick, and a car not in `cs` has
      not moved since `m0`. */
  lemma LapDistances(m0: map<Car, Motion>, cs: seq<Car>, from: nat, i: nat, oracle: Oracle,
                     running: seq<Car>, key: Car -> int, now: map<Car, Motion>)
    requires forall c :: c in running ==> c in now && key(c) == now[c].distance
    requires forall c :: c in running ==>
      c in m0 && now[c] == if c in cs then TickMotion(m0[c], cs, c, from, i + 1, oracle) else m0[c]
    ensures forall c :: c in running ==> key(c) == LapKey(m0, cs, from, i + 1, oracle)(c)
  {
    forall c | c in running && c !in cs {
      TickMotionAbsent(m0[c], cs, c, from, i + 1, oracle);
    }
  }

  /** A lap that sorts the cars still running by their distances after its
      tick sorts them as the lap's key does: the same car comes out front. */
  lemma LapSort(m0: map<Car, Motion>, cs: seq<Car>, from: nat, i: nat, oracle: Oracle,
                running: seq<Car>, key: Car -> int, now: map<Car, Motion>, out: Car, rest: seq<Car>)
    requires forall c :: c in running ==> c in m0 && c in now && key(c) == now[c].distance
    requires forall c :: c in running && c in cs ==> now[c] == TickMotion(m0[c], cs, c, from, i + 1, oracle)
    requires forall c :: c in running && c !in cs ==> now[c] == m0[c]
    requires SortAsc(running, key) == [out] + rest
    ensures SortAsc(running, LapKey(m0, cs, from, i + 1, oracle)) == [out] + rest
    ensures |rest| == |running| - 1
    ensures forall c :: c in rest ==> c in running
  {
    LapDistances(m0, cs, from, i, oracle, running, key, now);
    SortAscAgree(running, key, LapKey(m0, cs, from, i + 1, oracle));
    SortAscPermutation(running, key);
    assert |multiset(SortAsc(running, key))| == |multiset(running)|;
    forall c | c in rest ensures c in running {
      assert c in multiset(SortAsc(running, key));
    }
  }

  /** After `k` laps, `k` cars (or all of them, if fewer) are out and the
      rest are still running. */
  lemma {:induction false} EliminationCount(list: seq<Car>, m0: map<Car, Motion>, cs: seq<Car>, from: nat, k: nat, oracle: Oracle)
    ensures |KnockedOut(list, m0, cs, from, k, oracle)| == Min(k, |list|)
    ensures |StillRunning(list, m0, cs, from, k, oracle)| == |list| - Min(k, |list|)
    decreases k
  {
    if k > 0 {
      EliminationCount(list, m0, cs, from, k - 1, oracle);
      LapOrderSplit(list, m0, cs, from, k, oracle);
    }
  }

  /** The `k`-th lap (counted from 1) splits the cars still running into the
      one it takes out and the ones it leaves running. */
  lemma LapOrderSplit(list: seq<Car>, m0: map<Car, Motion>, cs: seq<Car>, from: nat, k: nat, oracle: Oracle)
    requires k > 0
    ensures var r := StillRunning(list, m0, cs, from, k - 1, oracle);
      var out := KnockedOut(list, m0, cs, from, k, oracle)[|KnockedOut(list, m0, cs, from, k - 1, oracle)|..];
      |out| == (if r == [] then 0 else 1) &&
      |StillRunning(list, m0, cs, from, k, oracle)| == |r| - |out| &&
      KnockedOut(list, m0, cs, from, k, oracle) == KnockedOut(list, m0, cs, from, k - 1, oracle) + out
  {
    var r := StillRunning(list, m0, cs, from, k - 1, oracle);
    var s := LapOrder(list, m0, cs, from, k - 1, oracle);
    SortAscPermutation(r, LapKey(m0, cs, from, k, oracle));
    assert |s| == |r| by {
      assert |multiset(s)| == |multiset(r)|;
    }
    if s != [] {
      assert s == [s[0]] + s[1..];
    }
  }

  /** The laps only add to the cars taken out: the order after `k` laps
      starts with the order after fewer laps. */
  lemma {:induction false} KnockedOutPrefix(list: seq<Car>, m0: map<Car, Motion>, cs: seq<Car>, from: nat, j: nat, k: nat, oracle: Oracle)
    requires j <= k
    ensures |KnockedOut(list, m0, cs, from, j, oracle)| <= |KnockedOut(list, m0, cs, from, k, oracle)|
    ensures KnockedOut(list, m0, cs, from, k, oracle)[..|KnockedOut(list, m0, cs, from, j, oracle)|] ==
      KnockedOut(list, m0, cs, from, j, oracle)
    decreases k
  {
    if j < k {
      KnockedOutPrefix(list, m0, cs, from, j, k - 1, oracle);
      var a := KnockedOut(list, m0, cs, from, k - 1, oracle);
      var b := KnockedOut(list, m0, cs, from, k, oracle);
      assert b[..|a|] == a;
    }
  }

  /** The car the `j`-th lap (counted from 0) takes out is the first of the
      cars then still running that has gone least far by that lap's
      distances: `remove(0)` after the stable sort. */
  lemma EliminationSlowest(list: seq<Car>, m0: map<Car, Motion>, cs: seq<Car>, from: nat, j: nat, k: nat, oracle: Oracle)
    requires j < k && j < |list|
    ensures var r := StillRunning(list, m0, cs, from, j, oracle);
      var key := LapKey(m0, cs, from, j + 1, oracle);
      |r| > 0 && j < |KnockedOut(list, m0, cs, from, k, oracle)| &&
      KnockedOut(list, m0, cs, from, k, oracle)[j] == r[FirstMinIndex(r, key)] &&
      forall c :: c in r ==> key(KnockedOut(list, m0, cs, from, k, oracle)[j]) <= key(c)
  {
    var r := StillRunning(list, m0, cs, from, j, oracle);
    var key := LapKey(m0, cs, from, j + 1, oracle);
    var s := LapOrder(list, m0, cs, from, j, oracle);
    EliminationCount(list, m0, cs, from, j, oracle);
    KnockedOutPrefix(list, m0, cs, from, j + 1, k, oracle);
    SortAscHead(r, key);
    var before := KnockedOut(list, m0, cs, from, j, oracle);
    assert KnockedOut(list, m0, cs, from, j + 1, oracle) == before + [s[0]];
    var i := FirstMinIndex(r, key);
    forall c | c in r ensures key(r[i]) <= key(c) {
      var n :| 0 <= n < |r| && r[n] == c;
    }
  }

  // ---------------------------------------------------------------------------
  // The race object

  class Race {
    const kind: RaceKind
    const name: string
    /** The hours of a StandardRace, the laps before the eliminations of a
        DeathRace. */
    const param: Int32
    var garages: seq<Garage>
    var cars: seq<Car>
    /** The cars a DeathRace still has in the running (`deathList`). */
    var deathList: seq<Car>

    /** `new StandardRace(name, hours)` / `new DeathRace(name, laps)`: no
        garages, no cars. */
    constructor (kind: RaceKind, name: string, param: Int32)
      ensures this.kind == kind && this.name == name && this.param == param
      ensures garages == [] && cars == [] && deathList == []
    {
      this.kind := kind;
      this.name := name;
      this.param := param;
      garages := [];
      cars := [];
      deathList := [];
    }

    function Info(): RaceInfo {
      RaceInfo(kind, name, param)
    }

    /** `equals`: the same variant, the same hours or laps, and names that
        agree letter by letter once lower-cased. */
    predicate Equals(other: Race)
      ensures Equals(other) <==>
        kind == other.kind && param == other.param && |name| == |other.name| &&
        forall i :: 0 <= i < |name| ==> Lower(name[i]) == Lower(other.name[i])
    {
      EqualsIgnoreCaseCharwise(name, other.name);
      SameRace(Info(), other.Info())
    }

    /** `exportRaceInfo`: importing it gives back exactly this race's
        variant, name and parameter, with no garages or cars. */
    function ExportInfo(): (j: Json)
      ensures DecodeRace(j) == Some(RaceRec(Info(), [], []))
    {
      DecodeEncodeRaceInfo(Info());
      EncodeRaceInfo(Info())
    }

    function GarageNames(): (names: seq<string>)
      reads this, set g | g in garages
      ensures |names| == |garages|
      ensures forall i :: 0 <= i < |garages| ==> names[i] == garages[i].name
    {
      seq(|garages|, i reads this, set g | g in garages requires 0 <= i < |garages| => garages[i].name)
    }

    /** `exportRaceWithGarageAndCarsToJson`: importing it gives back this race's info, its
        garage names without cars, and its cars in order. */
    function ExportFull(): (j: Json)
      reads this, set g | g in garages, set c | c in cars
      ensures DecodeRace(j) == Some(RaceRec(Info(), Bare(GarageNames()), Infos(cars)))
    {
      DecodeEncodeRace(Info(), GarageNames(), Infos(cars));
      EncodeRace(Info(), GarageNames(), Infos(cars))
    }

    /** `clone`: a new race of the same kind, name and parameter, with no
        garages or cars; it equals the original. */
    method Clone() returns (r: Race)
      ensures fresh(r) && r.Info() == Info() && r.Equals(this)
      ensures r.garages == [] && r.cars == [] && r.deathList == []
    {
      r := new Race(kind, name, param);
      SameRaceEquivalence(Info(), Info(), Info());
    }

    /** `registerGarage`: the garage goes at the end of the list. */
    method RegisterGarage(g: Garage)
      modifies this
      ensures garages == old(garages) + [g]
      ensures cars == old(cars) && deathList == old(deathList)
    {
      garages := garages + [g];
    }

    /** The inner loop of `Tournament.registerGaragesInEachRace`: each garage
        in turn goes at the end of the list. */
    method RegisterGarages(gs: seq<Garage>)
      modifies this
      ensures garages == old(garages) + gs
      ensures cars == old(cars) && deathList == old(deathList)
    {
      var j := 0;
      while j < |gs|
        invariant 0 <= j <= |gs|
        invariant garages == old(garages) + gs[..j]
        invariant cars == old(cars) && deathList == old(deathList)
      {
        assert gs[..j + 1] == gs[..j] + [gs[j]];
        RegisterGarage(gs[j]);
        j := j + 1;
      }
      assert gs[..j] == gs;
    }

    /** `registerCars(list)`: the cars go at the end of the list. */
    method RegisterCarList(list: seq<Car>)
      modifies this
      ensures cars == old(cars) + list
      ensures garages == old(garages) && deathList == old(deathList)
    {
      cars := cars + list;
    }

    /** `registerCars()`: with exactly one garage the race's cars become that
        garage's cars; otherwise one car drawn from each garage, in garage
        order, goes at the end of the list (an empty garage has no car to
        draw). */
    method RegisterCars(draws: nat -> nat)
      requires |garages| != 1 ==> forall i :: 0 <= i < |garages| ==> |garages[i].cars| > 0
      modifies this
      ensures cars == if |old(garages)| == 1 then old(garages[0].cars) else old(cars) + old(PickEach(garages, draws))
      ensures garages == old(garages) && deathList == old(deathList)
    {
      if |garages| == 1 {
        cars := garages[0].cars;
      } else {
        ghost var picks := PickEach(garages, draws);
        var i := 0;
        while i < |garages|
          invariant 0 <= i <= |garages|
          invariant garages == old(garages) && deathList == old(deathList)
          invariant |cars| == |old(cars)| + i
          invariant cars[..|old(cars)|] == old(cars)
          invariant forall k :: 0 <= k < i ==> cars[|old(cars)| + k] == picks[k]
        {
          cars := cars + [garages[i].PickCar(draws(i))];
          i := i + 1;
        }
        assert cars == old(cars) + picks;
      }
    }

    /** `resetCars`: every car of the race is back at rest; scores and garages
        are kept. */
    method ResetCars()
      modifies set c | c in cars
      ensures forall c :: c in cars ==> c.MotionState() == AT_REST
      ensures forall c :: c in cars ==> c.score == old(c.score) && c.garage == old(c.garage)
    {
      var i := 0;
      while i < |cars|
        invariant 0 <= i <= |cars|
        invariant forall k :: 0 <= k < i ==> cars[k].MotionState() == AT_REST
        invariant forall c :: c in cars ==> c.score == old(c.score) && c.garage == old(c.garage)
      {
        cars[i].RestartCounters();
        i := i + 1;
      }
    }

    /** One tick of `startRace`: every position of the list drives its car
        once, with the option drawn for that position.  A car is driven once
        per position it holds. */
    method DriveRound(tick: nat, oracle: Oracle)
      modifies set c | c in cars
      ensures forall c :: c in cars ==>
        c.MotionState() == RoundMotion(old(c.MotionState()), cars, |cars|, c, tick, oracle)
      ensures forall c :: c in cars ==> c.score == old(c.score) && c.garage == old(c.garage)
    {
      var i := 0;
      while i < |cars|
        invariant 0 <= i <= |cars|
        invariant forall c :: c in cars ==>
          c.MotionState() == RoundMotion(old(c.MotionState()), cars, i, c, tick, oracle)
        invariant forall c :: c in cars ==> c.score == old(c.score) && c.garage == old(c.garage)
      {
        var option := DriveOption(oracle, tick, i);
        cars[i].DriveInRace(option);
        i := i + 1;
      }
    }

    /** `n` ticks of `startRace`, numbered from `from`. */
    method DriveTicks(from: nat, n: nat, oracle: Oracle)
      modifies set c | c in cars
      ensures forall c :: c in cars ==>
        c.MotionState() == TickMotion(old(c.MotionState()), cars, c, from, n, oracle)
      ensures forall c :: c in cars ==> c.score == old(c.score) && c.garage == old(c.garage)
    {
      var t := 0;
      while t < n
        invariant 0 <= t <= n
        invariant forall c :: c in cars ==>
          c.MotionState() == TickMotion(old(c.MotionState()), cars, c, from, t, oracle)
        invariant forall c :: c in cars ==> c.score == old(c.score) && c.garage == old(c.garage)
      {
        DriveRound(from + t, oracle);
        t := t + 1;
      }
    }

    /** One elimination of a DeathRace: the list still running is sorted by
        distance and its first car, one that has gone least far, leaves it. */
    method EliminateSlowest() returns (ghost out: Car)
      requires |deathList| > 0
      modifies this
      ensures deathList == SortAsc(old(deathList), DistanceOf(old(deathList)))[1..]
      ensures SortAsc(old(deathList), DistanceOf(old(deathList))) == [out] + deathList
      ensures out == old(deathList)[FirstMinIndex(old(deathList), DistanceOf(old(deathList)))]
      ensures forall c :: c in old(deathList) ==> out.distance <= c.distance
      ensures multiset(old(deathList)) == multiset(deathList) + multiset{out}
      ensures garages == old(garages) && cars == old(cars)
    {
      var key := DistanceOf(deathList);
      var sorted := SortAsc(deathList, key);
      SortAscPermutation(deathList, key);
      SortAscHead(deathList, key);
      out := sorted[0];
      assert sorted == [sorted[0]] + sorted[1..];
      deathList := sorted[1..];
    }

    /** One elimination round of a DeathRace: every car of the race is driven
        for one tick, then one car leaves the list still running. */
    method EliminationRound(tick: nat, oracle: Oracle) returns (ghost out: Car)
      requires |deathList| > 0
      modifies this, set c | c in cars
      ensures garages == old(garages) && cars == old(cars)
      ensures forall c :: c in cars ==>
        c.MotionState() == RoundMotion(old(c.MotionState()), cars, |cars|, c, tick, oracle)
      ensures forall c :: c in cars ==> c.score == old(c.score) && c.garage == old(c.garage)
      ensures multiset(old(deathList)) == multiset(deathList) + multiset{out}
      ensures SortAsc(old(deathList), DistanceOf(old(deathList))) == [out] + deathList
      ensures out == old(deathList)[FirstMinIndex(old(deathList), DistanceOf(old(deathList)))]
      ensures forall c :: c in old(deathList) ==> out.distance <= c.distance
    {
      DriveRound(tick, oracle);
      out := EliminateSlowest();
    }

    /** The elimination rounds of a DeathRace, from tick `from` on: for one
        tick fewer than the list still running is long, every car of the race
        (eliminated or not) is driven and then one car is eliminated.  At most
        one car is left running; together with the eliminated ones they are the
        cars the list held.  Lap by lap, the list still running and the cars
        taken out are `StillRunning` and `KnockedOut` of the list and motions
        the rounds start from. */
    method Eliminations(from: nat, oracle: Oracle) returns (ghost eliminated: seq<Car>)
      modifies this, set c | c in cars
      ensures garages == old(garages) && cars == old(cars)
      ensures forall c :: c in cars ==>
        c.MotionState() == TickMotion(old(c.MotionState()), cars, c, from, Max(0, |old(deathList)| - 1), oracle)
      ensures forall c :: c in cars ==> c.score == old(c.score) && c.garage == old(c.garage)
      ensures |eliminated| == Max(0, |old(deathList)| - 1)
      ensures |deathList| == Min(1, |old(deathList)|)
      ensures multiset(old(deathList)) == multiset(deathList) + multiset(eliminated)
      ensures forall k :: k == Max(0, |old(deathList)| - 1) ==>
        deathList == StillRunning(old(deathList), old(MotionsOf(cars + deathList)), cars, from, k, oracle) &&
        eliminated == KnockedOut(old(deathList), old(MotionsOf(cars + deathList)), cars, from, k, oracle)
    {
      ghost var list := deathList;
      ghost var m0 := MotionsOf(cars + deathList);
      ghost var held := map c | c in cars :: (c.score, c.garage);
      assert forall c :: c in cars ==> c in m0 && m0[c] == old(c.MotionState()) by {
        forall c | c in cars ensures c in cars + deathList { }
      }
      eliminated := [];
      var rounds := |deathList| - 1;
      var i := 0;
      while i < rounds
        invariant 0 <= i <= Max(0, rounds)
        invariant Eliminating(list, m0, from, oracle, i, eliminated, old(garages), old(cars), held)
      {
        var out := EliminationLapAt(list, m0, from, oracle, i, eliminated, old(garages), old(cars), held);
        eliminated := eliminated + [out];
        i := i + 1;
      }
      assert i == Max(0, |list| - 1);
      forall c | c in cars ensures c.MotionState() == TickMotion(old(c.MotionState()), cars, c, from, i, oracle) {
        assert m0[c] == old(c.MotionState());
      }
    }

    /** The elimination rounds after `i` laps on `list`, from the motions
        `m0`: the list still running and the cars taken out are those of the
        specification, every car of the race has been driven for `i` ticks
        and keeps its score and garage, and a car still running that is not
        in the race has not moved. */
    ghost predicate Eliminating(list: seq<Car>, m0: map<Car, Motion>, from: nat, oracle: Oracle, i: nat, eliminated: seq<Car>,
                                g0: seq<Garage>, c0: seq<Car>, held: map<Car, (int, string)>)
      reads this, set c | c in cars, set c | c in deathList
    {
      garages == g0 && cars == c0 &&
      deathList == StillRunning(list, m0, cars, from, i, oracle) &&
      eliminated == KnockedOut(list, m0, cars, from, i, oracle) &&
      |deathList| == |list| - i && |eliminated| == i &&
      multiset(list) == multiset(deathList) + multiset(eliminated) &&
      (forall c :: c in cars ==>
         c in m0 && c in held && c.MotionState() == TickMotion(m0[c], cars, c, from, i, oracle) && held[c] == (c.score, c.garage)) &&
      forall c :: c in deathList ==> c in m0 && (c !in cars ==> c.MotionState() == m0[c])
    }

    /** Lap `i` of the elimination rounds keeps `Eliminating`; one car leaves
        the list still running. */
    method EliminationLapAt(ghost list: seq<Car>, ghost m0: map<Car, Motion>, from: nat, oracle: Oracle,
                            i: nat, ghost eliminated: seq<Car>,
                            ghost g0: seq<Garage>, ghost c0: seq<Car>, ghost held: map<Car, (int, string)>) returns (ghost out: Car)
      requires Eliminating(list, m0, from, oracle, i, eliminated, g0, c0, held) && i + 1 < |list|
      modifies this, set c | c in cars
      ensures Eliminating(list, m0, from, oracle, i + 1, eliminated + [out], g0, c0, held)
    {
      ghost var running := deathList;
      out := LapRound(m0, from, oracle, i);
      EliminationLap(list, m0, cars, from, i, oracle, running, eliminated, DistanceOf(running), MotionsOf(running), out, deathList);
    }

    /** Lap `i` of the elimination rounds, from the motions `m0`: the round
        sorts the cars still running by the lap's distances and takes the
        front one out, and every car of the race has then been driven for one
        tick more. */
    method LapRound(ghost m0: map<Car, Motion>, from: nat, oracle: Oracle, i: nat) returns (ghost out: Car)
      requires |deathList| > 0
      requires forall c :: c in cars ==> c in m0 && c.MotionState() == TickMotion(m0[c], cars, c, from, i, oracle)
      requires forall c :: c in deathList ==> c in m0 && (c !in cars ==> c.MotionState() == m0[c])
      modifies this, set c | c in cars
      ensures garages == old(garages) && cars == old(cars)
      ensures forall c :: c in cars ==> c.MotionState() == TickMotion(m0[c], cars, c, from, i + 1, oracle)
      ensures forall c :: c in cars ==> c.score == old(c.score) && c.garage == old(c.garage)
      ensures SortAsc(old(deathList), DistanceOf(old(deathList))) == [out] + deathList
      ensures multiset(old(deathList)) == multiset(deathList) + multiset{out}
      ensures forall c :: c in old(deathList) ==> c in m0 && (c !in cars ==> c.MotionState() == m0[c])
    {
      ghost var pre := MotionsOf(cars);
      out := EliminationRound(from + i, oracle);
      forall c | c in cars ensures c.MotionState() == TickMotion(m0[c], cars, c, from, i + 1, oracle) {
        assert c.MotionState() == RoundMotion(pre[c], cars, |cars|, c, from + i, oracle);
        TickMotionNext(m0[c], cars, c, from, i, oracle);
      }
    }

    /** `startRace`.  A StandardRace drives every car for `hours * 60` ticks
        (computed as a Java `int`).  A DeathRace drives every car for its laps
        before the eliminations, then adds the race's cars to the list still
        running and runs the eliminations. */
    method StartRace(oracle: Oracle) returns (ghost eliminated: seq<Car>)
      modifies this, set c | c in cars
      ensures garages == old(garages) && cars == old(cars)
      ensures kind == Standard ==> deathList == old(deathList) && eliminated == []
      ensures forall c :: c in cars ==> c.MotionState() == TickMotion(old(c.MotionState()), cars, c, 0,
        if kind == Standard then Max(0, Wrap32(param * MINUTES_PER_HOUR))
        else Max(0, param) + Max(0, |old(deathList)| + |cars| - 1), oracle)
      ensures forall c :: c in cars ==> c.score == old(c.score) && c.garage == old(c.garage)
      ensures kind == Death ==>
        |eliminated| == Max(0, |old(deathList)| + |cars| - 1) &&
        |deathList| == Min(1, |old(deathList)| + |cars|) &&
        multiset(old(deathList)) + multiset(cars) == multiset(deathList) + multiset(eliminated)
    {
      if kind == Standard {
        DriveTicks(0, Max(0, Wrap32(param * MINUTES_PER_HOUR)), oracle);
        eliminated := [];
      } else {
        var laps := Max(0, param);
        DriveTicks(0, laps, oracle);
        deathList := deathList + cars;
        eliminated := Eliminations(laps, oracle);
        forall c | c in cars
          ensures c.MotionState() == TickMotion(old(c.MotionState()), cars, c, 0,
            laps + Max(0, |old(deathList)| + |cars| - 1), oracle)
        {
          TickMotionSplit(old(c.MotionState()), cars, c, 0, laps, Max(0, |old(deathList)| + |cars| - 1), oracle);
        }
      }
    }

    /** `sortCarsByDistanceAndReverse()`: the list sorted by ascending
        distance (keeping the order of equal distances), then reversed. */
    method SortByDistanceAndReverse()
      modifies this
      ensures cars == old(SortAndReverse(cars, DistanceOf(cars)))
      ensures multiset(cars) == multiset(old(cars))
      ensures forall i, j :: 0 <= i < j < |cars| ==> cars[i].distance >= cars[j].distance
      ensures garages == old(garages) && deathList == old(deathList)
    {
      var key := DistanceOf(cars);
      SortAndReverseSpec(cars, key);
      forall c | c in SortAndReverse(cars, key) ensures key(c) == c.distance {
        assert c in multiset(cars);
      }
      cars := SortAndReverse(cars, key);
    }

    /** `sortCarsByDistance(carList)`: the list sorted by ascending distance,
        keeping the order of equal distances. */
    method SortByDistance()
      modifies this
      ensures cars == old(SortAsc(cars, DistanceOf(cars)))
      ensures multiset(cars) == multiset(old(cars))
      ensures forall i, j :: 0 <= i < j < |cars| ==> cars[i].distance <= cars[j].distance
      ensures garages == old(garages) && deathList == old(deathList)
    {
      var key := DistanceOf(cars);
      SortAscPermutation(cars, key);
      SortAscSorted(cars, key);
      forall c | c in SortAsc(cars, key) ensures key(c) == c.distance {
        assert c in multiset(cars);
      }
      cars := SortAsc(cars, key);
    }

    /** The loop of `givePoints` over the ranked list: the car in each paid
        place gains that place's award. */
    method PayPlaces()
      modifies set c | c in cars
      ensures forall c :: c in cars ==>
        c.score == old(c.score) + PointsUpTo(cars, c, Places(kind, |cars|), Award(kind))
      ensures forall c :: c in cars ==> c.MotionState() == old(c.MotionState()) && c.garage == old(c.garage)
    {
      var places := Places(kind, |cars|);
      var i := 0;
      while i < places
        invariant 0 <= i <= places
        invariant forall c :: c in cars ==> c.score == old(c.score) + PointsUpTo(cars, c, i, Award(kind))
        invariant forall c :: c in cars ==> c.MotionState() == old(c.MotionState()) && c.garage == old(c.garage)
      {
        cars[i].AddScore(Award(kind)(i));
        i := i + 1;
      }
    }

    /** `givePoints`.  The cars are ranked as the race's kind ranks them, and
        the list is left in that order; then each car gains the award of every
        paid place it holds.  Nothing else about the cars changes. */
    method GivePoints()
      modifies this, set c | c in cars
      ensures cars == old(Ranking(kind, cars, DistanceOf(cars)))
      ensures multiset(cars) == multiset(old(cars))
      ensures forall c :: c in old(cars) ==>
        c.score == old(c.score) + PointsUpTo(cars, c, Places(kind, |cars|), Award(kind))
      ensures forall c :: c in old(cars) ==> c.MotionState() == old(c.MotionState()) && c.garage == old(c.garage)
      ensures garages == old(garages) && deathList == old(deathList)
    {
      if kind == Standard {
        SortByDistanceAndReverse();
      } else {
        SortByDistance();
      }
      forall c | c in cars ensures c in old(cars) {
        assert c in multiset(old(cars));
      }
      label Ranked:
      PayPlaces();
      forall c | c in old(cars)
        ensures c.score == old(c.score) + PointsUpTo(cars, c, Places(kind, |cars|), Award(kind))
        ensures c.MotionState() == old(c.MotionState()) && c.garage == old(c.garage)
      {
        assert c in multiset(cars);
        assert old@Ranked(c.score) == old(c.score);
        assert old@Ranked(c.MotionState()) == old(c.MotionState());
      }
    }

    /** `getPodium` / `getPodiumForTournament`: the list is sorted by distance
        and reversed, and the podium is its first three cars (all of them when
        there are fewer), in non-increasing order of distance. */
    method Podium() returns (podium: seq<Car>)
      modifies this
      ensures cars == old(SortAndReverse(cars, DistanceOf(cars)))
      ensures multiset(cars) == multiset(old(cars))
      ensures podium == cars[..Min(3, |cars|)]
      ensures forall i, j :: 0 <= i < j < |podium| ==> podium[i].distance >= podium[j].distance
      ensures garages == old(garages) && deathList == old(deathList)
      ensures old(Level(cars)) ==> Level(cars) && cars == Reverse(old(cars))
    {
      if Level(cars) {
        LevelRanking(cars);
      }
      SortByDistanceAndReverse();
      podium := cars[..Min(3, |cars|)];
      if old(Level(cars)) {
        LevelPermutation(old(cars), cars);
      }
    }

    /** A new race built from a decoded record: new garages with new cars, and
        new cars at rest for the race's list. */
    static method Build(rec: RaceRec) returns (r: Race)
      requires forall i :: 0 <= i < |rec.garages| ==> Stamp(rec.garages[i].cars, rec.garages[i].name) == rec.garages[i].cars
      ensures fresh(r) && r.Info() == rec.info && r.deathList == []
      ensures |r.garages| == |rec.garages|
      ensures forall i :: 0 <= i < |rec.garages| ==> fresh(r.garages[i]) && r.garages[i].Rec() == rec.garages[i]
      ensures Infos(r.cars) == rec.cars
      ensures forall c :: c in r.cars ==> fresh(c) && c.MotionState() == AT_REST && c.score == 0
    {
      var gs := BuildGarages(rec.garages);
      r := new Race(rec.info.kind, rec.info.name, rec.info.param);
      var i := 0;
      while i < |gs|
        invariant 0 <= i <= |gs|
        invariant fresh(r) && r.Info() == rec.info && r.deathList == [] && r.cars == []
        invariant r.garages == gs[..i]
        modifies r
      {
        r.RegisterGarage(gs[i]);
        i := i + 1;
      }
      assert r.garages == gs;
      var list := BuildCars(rec.cars);
      r.RegisterCarList(list);
    }

    /** New garages, one per record, in order. */
    static method BuildGarages(recs: seq<GarageRec>) returns (gs: seq<Garage>)
      requires forall i :: 0 <= i < |recs| ==> Stamp(recs[i].cars, recs[i].name) == recs[i].cars
      ensures |gs| == |recs|
      ensures forall i :: 0 <= i < |recs| ==> fresh(gs[i]) && gs[i].Rec() == recs[i]
    {
      gs := [];
      var i := 0;
      while i < |recs|
        invariant 0 <= i <= |recs|
        invariant |gs| == i
        invariant forall k :: 0 <= k < i ==> fresh(gs[k]) && gs[k].Rec() == recs[k]
      {
        var g := Garage.Build(recs[i]);
        gs := gs + [g];
        i := i + 1;
      }
    }

    /** New cars at rest, one per record, in order. */
    static method BuildCars(infos: seq<CarInfo>) returns (list: seq<Car>)
      ensures Infos(list) == infos
      ensures forall c :: c in list ==> fresh(c) && c.MotionState() == AT_REST && c.score == 0
    {
      list := [];
      var i := 0;
      while i < |infos|
        invariant 0 <= i <= |infos|
        invariant |list| == i
        invariant forall k :: 0 <= k < i ==> list[k].Info() == infos[k]
        invariant forall c :: c in list ==> fresh(c) && c.MotionState() == AT_REST && c.score == 0
      {
        var car := Car.Build(infos[i]);
        list := list + [car];
        i := i + 1;
      }
    }

    /** `importRace`: fails exactly when `DecodeRace` does; otherwise a new
        race with the decoded kind, name and parameter, new garages with the
        decoded names and cars, and new cars at rest with the decoded
        identities. */
    static method Import(j: Json) returns (r: Option<Race>)
      ensures r.Some? <==> DecodeRace(j).Some?
      ensures r.Some? ==> fresh(r.value) && r.value.Info() == DecodeRace(j).value.info
      ensures r.Some? ==> |r.value.garages| == |DecodeRace(j).value.garages|
      ensures r.Some? ==> forall i :: 0 <= i < |r.value.garages| ==>
        fresh(r.value.garages[i]) && r.value.garages[i].Rec() == DecodeRace(j).value.garages[i]
      ensures r.Some? ==> Infos(r.value.cars) == DecodeRace(j).value.cars
      ensures r.Some? ==> forall c :: c in r.value.cars ==> fresh(c) && c.MotionState() == AT_REST
      ensures r.Some? ==> r.value.deathList == []
    {
      var rec := DecodeRace(j);
      if rec.None? {
        return None;
      }
      forall i | 0 <= i < |rec.value.garages|
        ensures Stamp(rec.value.garages[i].cars, rec.value.garages[i].name) == rec.value.garages[i].cars
      {
        var items := Get(j.fields, GARAGE_LIST_KEY).items;
        DecodeAllAt(items, DecodeGarage, rec.value.garages, i);
        StampStamped(rec.value.garages[i].cars, rec.value.garages[i].name);
      }
      var race := Build(rec.value);
      return Some(race);
    }
  }
}
