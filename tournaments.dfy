/** `race/Tournament.java`: a named series of races that share one list of
    garages and one roster of cars.  The tournament pushes its garages and the
    very same roster car objects into every race, so the points a car earns in
    one race are the points it carries into the next; at the end the roster is
    ranked by points. */
module Tournaments {
  import opened Wrappers
  import opened Text
  import opened Json
  import opened Lists
  import opened Sorting
  import opened Cars
  import opened Comparators
  import opened Garages
  import opened Races
  import opened Utils

  const TOURNAMENT_NAME_KEY: string := "name"
  const RACE_LIST_KEY: string := "raceList"
  const TOURNAMENT_GARAGE_LIST_KEY: string := "garageList"
  const CARS_LIST_KEY: string := "carList"

  /** The infos of a list of races, position by position. */
  function RaceInfos(rs: seq<Race>): (r: seq<RaceInfo>)
    ensures |r| == |rs|
    ensures forall i :: 0 <= i < |rs| ==> r[i] == rs[i].Info()
  {
    seq(|rs|, i requires 0 <= i < |rs| => rs[i].Info())
  }

  // ---------------------------------------------------------------------------
  // JSON form

  /** A tournament as its JSON form carries it. */
  datatype TournamentRec = TournamentRec(name: string, races: seq<RaceRec>, garages: seq<GarageRec>, cars: seq<CarInfo>)

  /** `exporterTournamentToJson`: the name, the races by their info, the
      garages by name and the roster's cars. */
  function EncodeTournament(name: string, races: seq<RaceInfo>, garageNames: seq<string>, cars: seq<CarInfo>): (j: Json)
    ensures j.JObject?
    ensures j.fields.Keys == {TOURNAMENT_NAME_KEY, RACE_LIST_KEY, TOURNAMENT_GARAGE_LIST_KEY, CARS_LIST_KEY}
  {
    var rs := seq(|races|, i requires 0 <= i < |races| => EncodeRaceInfo(races[i]));
    var gs := seq(|garageNames|, i requires 0 <= i < |garageNames| => EncodeGarageName(garageNames[i]));
    JObject(map[TOURNAMENT_NAME_KEY := JString(name), RACE_LIST_KEY := JArray(rs),
                TOURNAMENT_GARAGE_LIST_KEY := JArray(gs), CARS_LIST_KEY := JArray(EncodeCars(cars))])
  }

  /** `importTournament`: the name must be a string and the three lists must
      be arrays (a missing one is dereferenced); races are read with the full
      race import, garages with the garage import and cars with the car
      import. */
  function DecodeTournament(j: Json): (r: Option<TournamentRec>)
    ensures r.Some? ==> j.JObject? && Get(j.fields, TOURNAMENT_NAME_KEY) == JString(r.value.name)
    ensures r.Some? ==> (Get(j.fields, RACE_LIST_KEY).JArray? &&
      DecodeAll(Get(j.fields, RACE_LIST_KEY).items, DecodeRace) == Some(r.value.races))
    ensures r.Some? ==> (Get(j.fields, TOURNAMENT_GARAGE_LIST_KEY).JArray? &&
      DecodeAll(Get(j.fields, TOURNAMENT_GARAGE_LIST_KEY).items, DecodeGarage) == Some(r.value.garages))
    ensures r.Some? ==> (Get(j.fields, CARS_LIST_KEY).JArray? &&
      DecodeAll(Get(j.fields, CARS_LIST_KEY).items, DecodeCar) == Some(r.value.cars))
  {
    if !j.JObject? then None
    else
      var f := j.fields;
      var name := AsString(Get(f, TOURNAMENT_NAME_KEY));
      var rs := AsArray(Get(f, RACE_LIST_KEY));
      var gs := AsArray(Get(f, TOURNAMENT_GARAGE_LIST_KEY));
      var cs := AsArray(Get(f, CARS_LIST_KEY));
      if name.None? || rs.None? || gs.None? || cs.None? then None
      else
        var races := DecodeAll(rs.value, DecodeRace);
        var garages := DecodeAll(gs.value, DecodeGarage);
        var cars := DecodeAll(cs.value, DecodeCar);
        if races.None? || garages.None? || cars.None? then None
        else Some(TournamentRec(name.value, races.value, garages.value, cars.value))
  }

  /** The races the export leaves after a round trip: the same infos, with no
      garages or cars. */
  function InfoOnly(infos: seq<RaceInfo>): (r: seq<RaceRec>)
    ensures |r| == |infos|
    ensures forall i :: 0 <= i < |infos| ==> r[i] == RaceRec(infos[i], [], [])
  {
    seq(|infos|, i requires 0 <= i < |infos| => RaceRec(infos[i], [], []))
  }

  /** Importing the export gives the same name, the same races (by info, with
      no garages or cars), garages of the same names with no cars, and the
      same cars, all in the same order. */
  lemma DecodeEncodeTournament(name: string, races: seq<RaceInfo>, garageNames: seq<string>, cars: seq<CarInfo>)
    ensures DecodeTournament(EncodeTournament(name, races, garageNames, cars)) ==
      Some(TournamentRec(name, InfoOnly(races), Bare(garageNames), cars))
  {
    var f := EncodeTournament(name, races, garageNames, cars).fields;
    assert Get(f, TOURNAMENT_NAME_KEY) == JString(name);
    var rl := Get(f, RACE_LIST_KEY).items;
    forall i | 0 <= i < |rl| ensures DecodeRace(rl[i]) == Some(InfoOnly(races)[i]) {
      DecodeEncodeRaceInfo(races[i]);
    }
    DecodeAllOf(rl, DecodeRace, InfoOnly(races));
    var gl := Get(f, TOURNAMENT_GARAGE_LIST_KEY).items;
    forall i | 0 <= i < |gl| ensures DecodeGarage(gl[i]) == Some(Bare(garageNames)[i]) {
      DecodeEncodeGarageName(garageNames[i]);
    }
    DecodeAllOf(gl, DecodeGarage, Bare(garageNames));
    var cl := Get(f, CARS_LIST_KEY).items;
    forall i | 0 <= i < |cl| ensures DecodeCar(cl[i]) == Some(cars[i]) {
      DecodeEncodeCar(cars[i]);
    }
    DecodeAllOf(cl, DecodeCar, cars);
  }

  /** One line of `getPodiumTournament`: a car's details and its points. */
  datatype Standing = Standing(details: string, points: int)

  // ---------------------------------------------------------------------------
  // The tournament object

  /** The garage list each race of `rs` holds. */
  ghost function GaragesOf(rs: seq<Race>): (m: map<Race, seq<Garage>>)
    reads set r | r in rs
    ensures forall r :: r in rs ==> r in m && m[r] == r.garages
  {
    map r | r in rs :: r.garages
  }

  /** The car list each race of `rs` holds. */
  ghost function CarsOf(rs: seq<Race>): (m: map<Race, seq<Car>>)
    reads set r | r in rs
    ensures forall r :: r in rs ==> r in m && m[r] == r.cars
  {
    map r | r in rs :: r.cars
  }

  class Tournament {
    const name: string
    var races: seq<Race>
    var garages: seq<Garage>
    /** `tournamentCarList`: the roster shared by every race. */
    var roster: seq<Car>

    constructor (name: string)
      ensures this.name == name && races == [] && garages == [] && roster == []
    {
      this.name := name;
      races := [];
      garages := [];
      roster := [];
    }

    /** `exporterTournamentToJson`: importing it gives this tournament's name,
        its races by info, its garage names with no cars and its roster's
        cars, in order. */
    function Export(): (j: Json)
      reads this, set c | c in roster
      ensures DecodeTournament(j) ==
        Some(TournamentRec(name, InfoOnly(RaceInfos(races)), Bare(Names(garages)), Infos(roster)))
    {
      DecodeEncodeTournament(name, RaceInfos(races), Names(garages), Infos(roster));
      EncodeTournament(name, RaceInfos(races), Names(garages), Infos(roster))
    }

    /** `getPodiumTournament`: one line per roster car, in roster order. */
    function Standings(): (lines: seq<Standing>)
      reads this, set c | c in roster
      ensures |lines| == |roster|
      ensures forall i :: 0 <= i < |roster| ==>
        lines[i].details == roster[i].GetDetails() && lines[i].points == roster[i].score
    {
      seq(|roster|, i reads this, set c | c in roster requires 0 <= i < |roster| =>
        Standing(roster[i].GetDetails(), roster[i].score))
    }

    /** `registerRaceToTournament`. */
    method RegisterRace(r: Race)
      modifies this
      ensures races == old(races) + [r]
      ensures garages == old(garages) && roster == old(roster)
    {
      races := races + [r];
    }

    /** `removeRaceFromTournament`: the first equal race goes; without one the
        list is unchanged. */
    method RemoveRace(r: Race)
      modifies this
      ensures var k := FirstMatch(RaceInfos(old(races)), r.Info(), SameRace);
        races == if k < |old(races)| then old(races[..k] + races[k + 1..]) else old(races)
      ensures garages == old(garages) && roster == old(roster)
    {
      var k := FirstMatch(RaceInfos(races), r.Info(), SameRace);
      if k < |races| {
        races := races[..k] + races[k + 1..];
      }
    }

    /** `registerGarageToTournament`. */
    method RegisterGarage(g: Garage)
      modifies this
      ensures garages == old(garages) + [g]
      ensures races == old(races) && roster == old(roster)
    {
      garages := garages + [g];
    }

    /** `removeGarageFromTournament`: the first garage with an equal name
        goes; without one the list is unchanged. */
    method RemoveGarage(g: Garage)
      modifies this
      ensures var k := FirstMatch(Names(old(garages)), g.name, EqualsIgnoreCase);
        garages == if k < |old(garages)| then old(garages[..k] + garages[k + 1..]) else old(garages)
      ensures races == old(races) && roster == old(roster)
    {
      var k := FirstMatch(Names(garages), g.name, EqualsIgnoreCase);
      if k < |garages| {
        garages := garages[..k] + garages[k + 1..];
      }
    }

    /** `registerCarInTournament`. */
    method RegisterCar(c: Car)
      modifies this
      ensures roster == old(roster) + [c]
      ensures races == old(races) && garages == old(garages)
    {
      roster := roster + [c];
    }

    /** `registerGaragesInEachRace`: every race gets every garage of the
        tournament, in order, at the end of its list (a race listed twice gets
        them twice). */
    method RegisterGaragesInEachRace()
      modifies set r | r in races
      ensures forall r :: r in races ==> r.garages == old(r.garages) + Repeat(garages, multiset(races)[r])
      ensures forall r :: r in races ==> r.cars == old(r.cars) && r.deathList == old(r.deathList)
    {
      ghost var start := GaragesOf(races);
      var i := 0;
      while i < |races|
        invariant 0 <= i <= |races|
        invariant forall r :: r in races ==> r.garages == start[r] + Repeat(garages, multiset(races[..i])[r])
        invariant forall r :: r in races ==> r.cars == old(r.cars) && r.deathList == old(r.deathList)
      {
        var r0 := races[i];
        ghost var before := GaragesOf(races);
        r0.RegisterGarages(garages);
        RepeatStep(races, i, garages, start, before, GaragesOf(races));
        i := i + 1;
      }
      assert races[..i] == races;
    }

    /** The race loop of `getTournamentInfo`: each listed race in turn builds
        its podium for the tournament (`ListedPodium`), which sorts its car
        list by distance and reverses it for good.  Races keep their garages,
        death lists and cars; a race whose cars are level is reversed once per
        listing. */
    method RacePodiums() returns (podiums: seq<seq<Car>>)
      modifies set r | r in races
      ensures |podiums| == |races|
      ensures forall r :: r in races ==>
        r.garages == old(r.garages) && r.deathList == old(r.deathList) && multiset(r.cars) == multiset(old(r.cars))
      ensures forall r :: r in races && old(Level(r.cars)) ==> Level(r.cars) && r.cars == Flip(old(r.cars), multiset(races)[r])
    {
      podiums := [];
      var i := 0;
      while i < |races|
        invariant 0 <= i <= |races| && |podiums| == i
        invariant forall r :: r in races ==>
          r.garages == old(r.garages) && r.deathList == old(r.deathList) && multiset(r.cars) == multiset(old(r.cars))
        invariant forall r :: r in races && old(Level(r.cars)) ==> Level(r.cars) && r.cars == Flip(old(r.cars), multiset(races[..i])[r])
      {
        label Before:
        var podium := ListedPodium(races, i);
        forall r | r in races && old(Level(r.cars))
          ensures r.cars == Flip(old(r.cars), multiset(races[..i + 1])[r])
        {
          CountStep(races, i, r);
          FlipStep(old(r.cars), multiset(races[..i])[r]);
        }
        podiums := podiums + [podium];
        i := i + 1;
      }
      assert races[..i] == races;
    }

    /** `getPodiumForTournament` of the `i`-th listed race, as the race loop
        sees it: that race's cars are permuted so that the first three are
        the podium, in non-increasing distance, and a level list is
        reversed; no other race changes. */
    static method ListedPodium(races: seq<Race>, i: nat) returns (podium: seq<Car>)
      requires i < |races|
      modifies races[i]
      ensures podium == races[i].cars[..Min(3, |races[i].cars|)]
      ensures forall a, b :: 0 <= a < b < |podium| ==> podium[a].distance >= podium[b].distance
      ensures forall r :: r in races ==>
        r.garages == old(r.garages) && r.deathList == old(r.deathList) && multiset(r.cars) == multiset(old(r.cars))
      ensures forall r :: r in races && old(Level(r.cars)) ==>
        Level(r.cars) && r.cars == if r == races[i] then Reverse(old(r.cars)) else old(r.cars)
    {
      podium := races[i].Podium();
    }

    /** `registerCarsInEachRace`: every race gets the roster's car objects,
        in order, at the end of its list (a race listed twice gets them
        twice). */
    method RegisterCarsInEachRace()
      modifies set r | r in races
      ensures forall r :: r in races ==> r.cars == old(r.cars) + Repeat(roster, multiset(races)[r])
      ensures forall r :: r in races ==> r.garages == old(r.garages) && r.deathList == old(r.deathList)
    {
      ghost var start := CarsOf(races);
      var i := 0;
      while i < |races|
        invariant 0 <= i <= |races|
        invariant forall r :: r in races ==> r.cars == start[r] + Repeat(roster, multiset(races[..i])[r])
        invariant forall r :: r in races ==> r.garages == old(r.garages) && r.deathList == old(r.deathList)
      {
        var r0 := races[i];
        ghost var before := CarsOf(races);
        r0.RegisterCarList(roster);
        RepeatStep(races, i, roster, start, before, CarsOf(races));
        i := i + 1;
      }
      assert races[..i] == races;
    }

    /** `registerCarsInTournament`: with exactly one garage all its cars, and
        otherwise one car drawn from each garage in garage order, go at the
        end of the roster (an empty garage has no car to draw). */
    method RegisterCarsInTournament(draws: nat -> nat)
      requires |garages| != 1 ==> forall i :: 0 <= i < |garages| ==> |garages[i].cars| > 0
      modifies this
      ensures races == old(races) && garages == old(garages)
      ensures roster == old(roster) + (if old(|garages|) == 1 then old(garages[0].cars) else old(PickEach(garages, draws)))
    {
      if |garages| == 1 {
        roster := roster + garages[0].cars;
      } else {
        ghost var picks := PickEach(garages, draws);
        var i := 0;
        while i < |garages|
          invariant 0 <= i <= |garages|
          invariant races == old(races) && garages == old(garages)
          invariant |roster| == |old(roster)| + i
          invariant roster[..|old(roster)|] == old(roster)
          invariant forall k :: 0 <= k < i ==> roster[|old(roster)| + k] == picks[k]
        {
          roster := roster + [garages[i].PickCar(draws(i))];
          i := i + 1;
        }
        assert roster == old(roster) + picks;
      }
    }

    /** `registerGaragesAndCars`: the garages into every race, then the cars
        into the roster, then the roster into every race. */
    method RegisterGaragesAndCars(draws: nat -> nat)
      requires |garages| != 1 ==> forall i :: 0 <= i < |garages| ==> |garages[i].cars| > 0
      modifies this, set r | r in races
      ensures races == old(races) && garages == old(garages)
      ensures roster == old(roster) + (if old(|garages|) == 1 then old(garages[0].cars) else old(PickEach(garages, draws)))
      ensures forall r :: r in races ==> r.garages == old(r.garages) + Repeat(garages, multiset(races)[r])
      ensures forall r :: r in races ==> r.cars == old(r.cars) + Repeat(roster, multiset(races)[r])
    {
      RegisterGaragesInEachRace();
      RegisterCarsInTournament(draws);
      RegisterCarsInEachRace();
    }

    /** `sortAndReverseListByPoints(tournamentCarList)`: the roster sorted by
        ascending score (keeping the order of equal scores), then reversed. */
    method RankRoster()
      modifies this
      ensures roster == old(SortAndReverse(roster, ScoreOf(roster)))
      ensures multiset(roster) == multiset(old(roster))
      ensures forall i, j :: 0 <= i < j < |roster| ==> roster[i].score >= roster[j].score
      ensures races == old(races) && garages == old(garages)
    {
      var key := ScoreOf(roster);
      SortAndReverseSpec(roster, key);
      forall c | c in SortAndReverse(roster, key) ensures key(c) == c.score {
        assert c in multiset(roster);
      }
      roster := SortAndReverse(roster, key);
    }

    /** `importTournament`: fails exactly when `DecodeTournament` does;
        otherwise a new tournament with new races, garages and cars carrying
        the decoded data, in order. */
    static method Import(j: Json) returns (t: Option<Tournament>)
      ensures t.Some? <==> DecodeTournament(j).Some?
      ensures t.Some? ==> fresh(t.value) && t.value.name == DecodeTournament(j).value.name
      ensures t.Some? ==> |t.value.races| == |DecodeTournament(j).value.races|
      ensures t.Some? ==> forall i :: 0 <= i < |t.value.races| ==>
        fresh(t.value.races[i]) && t.value.races[i].Info() == DecodeTournament(j).value.races[i].info
      ensures t.Some? ==> |t.value.garages| == |DecodeTournament(j).value.garages|
      ensures t.Some? ==> forall i :: 0 <= i < |t.value.garages| ==>
        fresh(t.value.garages[i]) && t.value.garages[i].Rec() == DecodeTournament(j).value.garages[i]
      ensures t.Some? ==> Infos(t.value.roster) == DecodeTournament(j).value.cars
      ensures t.Some? ==> forall c :: c in t.value.roster ==> fresh(c) && c.MotionState() == AT_REST && c.score == 0
    {
      var rec := DecodeTournament(j);
      if rec.None? {
        return None;
      }
      var f := j.fields;
      var rs := ImportRaces(Get(f, RACE_LIST_KEY).items, rec.value.races);
      var gs := ImportGarages(Get(f, TOURNAMENT_GARAGE_LIST_KEY).items, rec.value.garages);
      var cs := ImportCars(Get(f, CARS_LIST_KEY).items, rec.value.cars);
      var tr := new Tournament(rec.value.name);
      tr.races := rs;
      tr.garages := gs;
      tr.roster := cs;
      return Some(tr);
    }

    /** The race loop of `importTournament`: one imported race per element. */
    static method ImportRaces(items: seq<Json>, recs: seq<RaceRec>) returns (rs: seq<Race>)
      requires DecodeAll(items, DecodeRace) == Some(recs)
      ensures |rs| == |recs|
      ensures forall i :: 0 <= i < |recs| ==> fresh(rs[i]) && rs[i].Info() == recs[i].info
    {
      rs := [];
      var i := 0;
      while i < |items|
        invariant 0 <= i <= |items|
        invariant |rs| == i
        invariant forall k :: 0 <= k < i ==> fresh(rs[k]) && rs[k].Info() == recs[k].info
      {
        var r := ImportRaceAt(items, recs, i);
        rs := rs + [r];
        i := i + 1;
      }
    }

    /** One turn of the race loop of `importTournament`: the `i`-th element
        decodes, and the race imported from it has the `i`-th record's data. */
    static method ImportRaceAt(items: seq<Json>, recs: seq<RaceRec>, i: nat) returns (r: Race)
      requires DecodeAll(items, DecodeRace) == Some(recs) && i < |items|
      ensures fresh(r) && i < |recs| && r.Info() == recs[i].info
    {
      DecodeAllAt(items, DecodeRace, recs, i);
      var imported := Race.Import(items[i]);
      r := imported.value;
    }

    /** The garage loop of `importTournament`: one imported garage per
        element. */
    static method ImportGarages(items: seq<Json>, recs: seq<GarageRec>) returns (gs: seq<Garage>)
      requires DecodeAll(items, DecodeGarage) == Some(recs)
      ensures |gs| == |recs|
      ensures forall i :: 0 <= i < |recs| ==> fresh(gs[i]) && gs[i].Rec() == recs[i]
    {
      gs := [];
      var i := 0;
      while i < |items|
        invariant 0 <= i <= |items|
        invariant |gs| == i
        invariant forall k :: 0 <= k < i ==> fresh(gs[k]) && gs[k].Rec() == recs[k]
      {
        var g := ImportGarageAt(items, recs, i);
        gs := gs + [g];
        i := i + 1;
      }
    }

    /** One turn of the garage loop of `importTournament`: the `i`-th element
        decodes, and the garage imported from it has the `i`-th record. */
    static method ImportGarageAt(items: seq<Json>, recs: seq<GarageRec>, i: nat) returns (g: Garage)
      requires DecodeAll(items, DecodeGarage) == Some(recs) && i < |items|
      ensures fresh(g) && i < |recs| && g.Rec() == recs[i]
    {
      DecodeAllAt(items, DecodeGarage, recs, i);
      var imported := Garage.Import(items[i]);
      g := imported.value;
    }

    /** The car loop of `importTournament`: one imported car per element. */
    static method ImportCars(items: seq<Json>, recs: seq<CarInfo>) returns (cs: seq<Car>)
      requires DecodeAll(items, DecodeCar) == Some(recs)
      ensures Infos(cs) == recs
      ensures forall c :: c in cs ==> fresh(c) && c.MotionState() == AT_REST && c.score == 0
    {
      cs := [];
      var i := 0;
      while i < |items|
        invariant 0 <= i <= |items|
        invariant |cs| == i
        invariant forall k :: 0 <= k < i ==> cs[k].Info() == recs[k]
        invariant forall c :: c in cs ==> fresh(c) && c.MotionState() == AT_REST && c.score == 0
      {
        DecodeAllAt(items, DecodeCar, recs, i);
        var c := Car.Import(items[i]);
        cs := cs + [c.value];
        i := i + 1;
      }
    }
  }

  /** Exporting a tournament and importing it again gives the same name,
      races equal to the originals one by one (by info), garages of the same
      names and cars equal to the roster's, all in the same order. */
  lemma ImportExportTournament(t: Tournament)
    ensures DecodeTournament(t.Export()).Some?
    ensures var r := DecodeTournament(t.Export()).value;
      r.name == t.name && |r.races| == |t.races| && |r.garages| == |t.garages| &&
      r.cars == Infos(t.roster) &&
      (forall i :: 0 <= i < |t.races| ==> SameRace(r.races[i].info, t.races[i].Info())) &&
      (forall i :: 0 <= i < |t.garages| ==> r.garages[i] == GarageRec(t.garages[i].name, []))
  {
    DecodeEncodeTournament(t.name, RaceInfos(t.races), Names(t.garages), Infos(t.roster));
    forall i | 0 <= i < |t.races| ensures SameRace(t.races[i].Info(), t.races[i].Info()) {
      SameRaceEquivalence(t.races[i].Info(), t.races[i].Info(), t.races[i].Info());
    }
  }
}
