/** The non-interactive part of `race/Control.java`: the application's lists
    of garages, races and tournaments, the lookup of a garage by name, the
    three imports that merge JSON data into the lists without repeating
    entries, and the steps that follow the menu selections when races are
    added to a tournament, cars are registered in it and it is run. */
module Control {
  import opened Wrappers
  import opened Text
  import opened Json
  import opened Utils
  import opened Lists
  import opened Sorting
  import opened Cars
  import opened Comparators
  import opened Garages
  import opened Awards
  import opened Rounds
  import opened Races
  import opened Tournaments

  const GARAGES_KEY: string := "garages"
  const RACES_KEY: string := "races"
  const TOURNAMENT_KEY: string := "tournament"

  // ---------------------------------------------------------------------------
  // Reference definitions of the merges

  /** Two garage records are equal garages when their names agree ignoring
      case, as `Garage.equals` compares them. */
  predicate SameName(a: GarageRec, b: GarageRec) {
    EqualsIgnoreCase(a.name, b.name)
  }

  function RecNames(recs: seq<GarageRec>): (r: seq<string>)
    ensures |r| == |recs|
    ensures forall i :: 0 <= i < |recs| ==> r[i] == recs[i].name
  {
    seq(|recs|, i requires 0 <= i < |recs| => recs[i].name)
  }

  /** Looking up a record by name is looking up its name among the names. */
  lemma {:induction false} FirstMatchByName(xs: seq<GarageRec>, x: GarageRec)
    ensures FirstMatch(xs, x, SameName) == FirstMatch(RecNames(xs), x.name, EqualsIgnoreCase)
    decreases |xs|
  {
    if xs != [] {
      assert RecNames(xs)[1..] == RecNames(xs[1..]);
      FirstMatchByName(xs[1..], x);
    }
  }

  /** Merging records by name adds the same names as merging the names. */
  lemma {:induction false} MergeByName(names: seq<string>, recs: seq<GarageRec>)
    ensures RecNames(Merge(Bare(names), recs, SameName)) == Merge(names, RecNames(recs), EqualsIgnoreCase)
    decreases |recs|
  {
    if recs == [] {
      assert RecNames(Bare(names)) == names;
    } else {
      var front := recs[..|recs| - 1];
      var x := recs[|recs| - 1];
      MergeByName(names, front);
      assert RecNames(recs)[..|recs| - 1] == RecNames(front);
      var m := Merge(Bare(names), front, SameName);
      FirstMatchByName(m, x);
      assert RecNames(m + [x]) == RecNames(m) + [x.name];
    }
  }

  /** The infos of a list of decoded races. */
  function RecInfos(recs: seq<RaceRec>): (r: seq<RaceInfo>)
    ensures |r| == |recs|
    ensures forall i :: 0 <= i < |recs| ==> r[i] == recs[i].info
  {
    seq(|recs|, i requires 0 <= i < |recs| => recs[i].info)
  }

  /** The garage names of a list of decoded races, race after race. */
  function AllGarageNames(recs: seq<RaceRec>): seq<string>
    decreases |recs|
  {
    if recs == [] then []
    else AllGarageNames(recs[..|recs| - 1]) + RecNames(recs[|recs| - 1].garages)
  }

  /** Garages read from records carry the records' names. */
  lemma NamesOfRecs(gs: seq<Garage>, recs: seq<GarageRec>)
    requires |gs| == |recs| && forall k :: 0 <= k < |gs| ==> gs[k].Rec() == recs[k]
    ensures Names(gs) == RecNames(recs)
  {
    assert forall k :: 0 <= k < |gs| ==> gs[k].name == gs[k].Rec().name;
  }

  /** One more race merges its garage names after those of the races
      before it. */
  lemma AllGarageNamesStep(names: seq<string>, recs: seq<RaceRec>, i: nat, before: seq<string>)
    requires i < |recs|
    requires before == Merge(names, AllGarageNames(recs[..i]), EqualsIgnoreCase)
    ensures Merge(before, RecNames(recs[i].garages), EqualsIgnoreCase) == Merge(names, AllGarageNames(recs[..i + 1]), EqualsIgnoreCase)
  {
    assert recs[..i + 1][..i] == recs[..i];
    MergeAppend(names, AllGarageNames(recs[..i]), RecNames(recs[i].garages), EqualsIgnoreCase);
  }

  /** One more race merges its info after those of the races before it. */
  lemma RecInfosStep(infos: seq<RaceInfo>, recs: seq<RaceRec>, i: nat)
    requires i < |recs|
    ensures Merge(infos, RecInfos(recs[..i + 1]), SameRace) ==
      var m := Merge(infos, RecInfos(recs[..i]), SameRace);
      if Contains(m, recs[i].info, SameRace) then m else m + [recs[i].info]
  {
    assert RecInfos(recs[..i + 1])[..i] == RecInfos(recs[..i]);
  }

  /** One race merged after the first `i`: the garage names and race infos
      before and after it. */
  lemma RacesMergedStep(names0: seq<string>, infos0: seq<RaceInfo>, recs: seq<RaceRec>, i: nat,
                        names: seq<string>, infos: seq<RaceInfo>, names': seq<string>, infos': seq<RaceInfo>)
    requires i < |recs|
    requires names == Merge(names0, AllGarageNames(recs[..i]), EqualsIgnoreCase)
    requires infos == Merge(infos0, RecInfos(recs[..i]), SameRace)
    requires names' == Merge(names, RecNames(recs[i].garages), EqualsIgnoreCase)
    requires infos' == if Contains(infos, recs[i].info, SameRace) then infos else infos + [recs[i].info]
    ensures names' == Merge(names0, AllGarageNames(recs[..i + 1]), EqualsIgnoreCase)
    ensures infos' == Merge(infos0, RecInfos(recs[..i + 1]), SameRace)
  {
    AllGarageNamesStep(names0, recs, i, names);
    RecInfosStep(infos0, recs, i);
  }

  /** After the races are merged, every garage of each race is listed under
      its name (ignoring case), so the lookup of `importRaceData` finds one. */
  lemma RaceGaragesListed(names: seq<string>, recs: seq<RaceRec>, i: nat, j: nat)
    requires i < |recs| && j < |recs[i].garages|
    ensures Contains(Merge(names, AllGarageNames(recs), EqualsIgnoreCase), recs[i].garages[j].name, EqualsIgnoreCase)
  {
    AllGarageNamesHas(recs, i, j);
    EqualsIgnoreCaseEquivalence();
    MergeCovers(names, AllGarageNames(recs), EqualsIgnoreCase);
    var all := AllGarageNames(recs);
    var p :| 0 <= p < |all| && all[p] == recs[i].garages[j].name;
  }

  /** After the races are merged, every race has an equal race listed. */
  lemma RacesListed(infos: seq<RaceInfo>, recs: seq<RaceRec>, i: nat)
    requires i < |recs|
    ensures Contains(Merge(infos, RecInfos(recs), SameRace), recs[i].info, SameRace)
  {
    SameRaceIsEquivalence();
    MergeCovers(infos, RecInfos(recs), SameRace);
    assert RecInfos(recs)[i] == recs[i].info;
  }

  /** Every garage name of every race is among them. */
  lemma {:induction false} AllGarageNamesHas(recs: seq<RaceRec>, i: nat, j: nat)
    requires i < |recs| && j < |recs[i].garages|
    ensures recs[i].garages[j].name in AllGarageNames(recs)
    decreases |recs|
  {
    if i < |recs| - 1 {
      assert recs[..|recs| - 1][i] == recs[i];
      AllGarageNamesHas(recs[..|recs| - 1], i, j);
    } else {
      assert RecNames(recs[i].garages)[j] == recs[i].garages[j].name;
    }
  }

  lemma EqualsIgnoreCaseEquivalence()
    ensures Equivalence(EqualsIgnoreCase)
  {
    assert forall a, b :: EqualsIgnoreCase(a, b) <==> Fold(a) == Fold(b);
  }

  lemma SameRaceIsEquivalence()
    ensures Equivalence(SameRace)
  {
    forall a, b, c {
      SameRaceEquivalence(a, b, c);
    }
  }

  /** The position of the first garage of `gs` whose name matches `name`
      ignoring case, or `|gs|`: the loop of `getGarageFromList`. */
  function Lookup(gs: seq<Garage>, name: string): (k: nat)
    ensures k <= |gs|
    ensures forall i :: 0 <= i < k ==> !EqualsIgnoreCase(name, gs[i].name)
    ensures k < |gs| ==> EqualsIgnoreCase(name, gs[k].name)
  {
    FirstMatch(Names(gs), name, EqualsIgnoreCase)
  }

  /** The cars of a list whose garage matches `name` ignoring case, in list
      order: the cars `importRaceData` considers for one race garage. */
  function OfGarage(cs: seq<CarInfo>, name: string): (r: seq<CarInfo>)
    ensures |r| <= |cs|
    ensures forall i :: 0 <= i < |r| ==> EqualsIgnoreCase(r[i].garage, name)
    decreases |cs|
  {
    if cs == [] then []
    else
      var last := cs[|cs| - 1];
      OfGarage(cs[..|cs| - 1], name) + (if EqualsIgnoreCase(last.garage, name) then [last] else [])
  }

  /** The filter keeps exactly the cars of the list that match. */
  lemma {:induction false} OfGarageMembers(cs: seq<CarInfo>, name: string)
    ensures forall c :: c in OfGarage(cs, name) <==> c in cs && EqualsIgnoreCase(c.garage, name)
    decreases |cs|
  {
    if cs != [] {
      var last := cs[|cs| - 1];
      assert cs == cs[..|cs| - 1] + [last];
      OfGarageMembers(cs[..|cs| - 1], name);
    }
  }

  /** One more car of the race extends the stamped cars of the garage by it
      when it matches, and leaves them as they are when it does not. */
  lemma IncomingStep(cs: seq<CarInfo>, j: nat, name: string, stamp: string)
    requires j < |cs|
    ensures Stamp(OfGarage(cs[..j + 1], name), stamp) ==
      Stamp(OfGarage(cs[..j], name), stamp) + (if EqualsIgnoreCase(cs[j].garage, name) then [cs[j].(garage := stamp)] else [])
  {
    assert cs[..j + 1][..j] == cs[..j];
  }

  /** Two cars that differ at most in the case of their garage's name find the
      same first equal car in any list. */
  lemma SameCarFirstMatch(xs: seq<CarInfo>, a: CarInfo, b: CarInfo)
    requires a.brand == b.brand && a.model == b.model && EqualsIgnoreCase(a.garage, b.garage)
    ensures FirstMatch(xs, a, SameCar) == FirstMatch(xs, b, SameCar)
  {
    assert forall x :: SameCar(a, x) == SameCar(b, x);
  }

  /** One turn of the car loop of `importRaceData`, on records: the race car
      `now` is the car `info` as read, or that car already stamped with the
      garage name `gname`.  It matches `name` exactly when `info` does, and
      merging it then is one more step of the merge of the stamped matching
      cars. */
  lemma MergeTurn(held: seq<CarInfo>, incoming: seq<CarInfo>, now: CarInfo, info: CarInfo, name: string, gname: string)
    requires EqualsIgnoreCase(name, gname)
    requires now.brand == info.brand && now.model == info.model
    requires now.garage == info.garage || (now.garage == gname && EqualsIgnoreCase(info.garage, name))
    ensures EqualsIgnoreCase(now.garage, name) <==> EqualsIgnoreCase(info.garage, name)
    ensures var m := Merge(held, incoming, SameCar);
      Merge(held, incoming + (if EqualsIgnoreCase(info.garage, name) then [info.(garage := gname)] else []), SameCar) ==
        if EqualsIgnoreCase(now.garage, name) && !Contains(m, now, SameCar) then m + [info.(garage := gname)] else m
  {
    var s := info.(garage := gname);
    if EqualsIgnoreCase(now.garage, name) {
      MergeStep(held, incoming, s, SameCar);
      assert Fold(now.garage) == Fold(s.garage);
      SameCarFirstMatch(Merge(held, incoming, SameCar), now, s);
    } else {
      assert incoming + [] == incoming;
    }
  }

  /** A listed garage has the name, and it has a car to draw. */
  predicate CanPick(gs: seq<Garage>, name: string)
    reads set g | g in gs
  {
    Lookup(gs, name) < |gs| && |gs[Lookup(gs, name)].cars| > 0
  }

  /** One car drawn from the listed garage named like each wanted name, with
      the i-th draw for the i-th name; none when some name has no garage or
      its garage has no cars (the code dereferences null or indexes an empty
      list there). */
  function PickFromList(gs: seq<Garage>, wanted: seq<string>, draws: nat -> nat): (r: Option<seq<Car>>)
    reads set g | g in gs
    decreases |wanted|
  {
    if wanted == [] then Some([])
    else
      var n := |wanted| - 1;
      var front := PickFromList(gs, wanted[..n], draws);
      if front.None? || !CanPick(gs, wanted[n]) then None
      else Some(front.value + [gs[Lookup(gs, wanted[n])].PickCar(draws(n))])
  }

  /** The cars are drawn exactly when every wanted name has a garage with
      cars. */
  lemma {:induction false} PickFromListDefined(gs: seq<Garage>, wanted: seq<string>, draws: nat -> nat)
    ensures PickFromList(gs, wanted, draws).Some? <==> forall i :: 0 <= i < |wanted| ==> CanPick(gs, wanted[i])
    decreases |wanted|
  {
    if wanted != [] {
      var n := |wanted| - 1;
      var front := wanted[..n];
      PickFromListDefined(gs, front, draws);
      if PickFromList(gs, front, draws).None? {
        var j :| 0 <= j < n && !CanPick(gs, front[j]);
        assert front[j] == wanted[j];
      } else if CanPick(gs, wanted[n]) {
        assert forall i :: 0 <= i < n ==> front[i] == wanted[i];
      }
    }
  }

  /** When every wanted name has a garage with cars, one car is drawn per
      name, in order: for the `i`-th name the car the `i`-th draw picks from
      the listed garage of that name. */
  lemma PickFromListCars(gs: seq<Garage>, wanted: seq<string>, draws: nat -> nat)
    requires forall i :: 0 <= i < |wanted| ==> CanPick(gs, wanted[i])
    ensures PickFromList(gs, wanted, draws).Some?
    ensures |PickFromList(gs, wanted, draws).value| == |wanted|
    ensures forall i :: 0 <= i < |wanted| ==>
      CanPick(gs, wanted[i]) && PickFromList(gs, wanted, draws).value[i] == gs[Lookup(gs, wanted[i])].PickCar(draws(i))
  {
    PickFromListLength(gs, wanted, draws);
    forall i | 0 <= i < |wanted|
      ensures CanPick(gs, wanted[i]) && PickFromList(gs, wanted, draws).value[i] == gs[Lookup(gs, wanted[i])].PickCar(draws(i))
    {
      PickFromListAt(gs, wanted, draws, i);
    }
  }

  lemma {:induction false} PickFromListLength(gs: seq<Garage>, wanted: seq<string>, draws: nat -> nat)
    requires forall i :: 0 <= i < |wanted| ==> CanPick(gs, wanted[i])
    ensures PickFromList(gs, wanted, draws).Some?
    ensures |PickFromList(gs, wanted, draws).value| == |wanted|
    decreases |wanted|
  {
    if wanted != [] {
      var front := wanted[..|wanted| - 1];
      assert forall i :: 0 <= i < |front| ==> front[i] == wanted[i];
      PickFromListLength(gs, front, draws);
    }
  }

  lemma {:induction false} PickFromListAt(gs: seq<Garage>, wanted: seq<string>, draws: nat -> nat, i: nat)
    requires forall k :: 0 <= k < |wanted| ==> CanPick(gs, wanted[k])
    requires i < |wanted|
    ensures PickFromList(gs, wanted, draws).Some? && |PickFromList(gs, wanted, draws).value| == |wanted|
    ensures CanPick(gs, wanted[i]) && PickFromList(gs, wanted, draws).value[i] == gs[Lookup(gs, wanted[i])].PickCar(draws(i))
    decreases |wanted|
  {
    PickFromListLength(gs, wanted, draws);
    var n := |wanted| - 1;
    var front := wanted[..n];
    assert forall k :: 0 <= k < n ==> front[k] == wanted[k];
    PickFromListLength(gs, front, draws);
    var f := PickFromList(gs, front, draws).value;
    assert PickFromList(gs, wanted, draws).value == f + [gs[Lookup(gs, wanted[n])].PickCar(draws(n))];
    if i < n {
      PickFromListAt(gs, front, draws, i);
      assert front[i] == wanted[i];
    }
  }

  /** Drawing for one more wanted name extends the cars drawn so far. */
  lemma PickStep(gs: seq<Garage>, wanted: seq<string>, draws: nat -> nat, i: nat)
    requires i < |wanted| && PickFromList(gs, wanted[..i], draws).Some? && CanPick(gs, wanted[i])
    ensures PickFromList(gs, wanted[..i + 1], draws) ==
      Some(PickFromList(gs, wanted[..i], draws).value + [gs[Lookup(gs, wanted[i])].PickCar(draws(i))])
  {
    assert wanted[..i + 1][..i] == wanted[..i];
  }

  // ---------------------------------------------------------------------------
  // The application object

  class Control {
    var garages: seq<Garage>
    var races: seq<Race>
    var tournaments: seq<Tournament>

    constructor ()
      ensures garages == [] && races == [] && tournaments == []
    {
      garages := [];
      races := [];
      tournaments := [];
    }

    /** `getGarageFromList`: the first listed garage whose name matches
        ignoring case, or none (`null`) when no name matches. */
    function GarageFromList(name: string): (g: Option<Garage>)
      reads this
      ensures g.None? <==> forall i :: 0 <= i < |garages| ==> !EqualsIgnoreCase(name, garages[i].name)
      ensures g.Some? ==> exists k :: (0 <= k < |garages| && g.value == garages[k] &&
        EqualsIgnoreCase(name, garages[k].name) &&
        forall i :: 0 <= i < k ==> !EqualsIgnoreCase(name, garages[i].name))
    {
      var k := Lookup(garages, name);
      if k < |garages| then Some(garages[k]) else None
    }

    /** `exportAppDataToString`: the garages with their cars, the races with
        their garages and cars, and the tournaments. */
    function ExportAppData(): (j: Json)
      reads this, set g | g in garages, set g, c | g in garages && c in g.cars :: c
      reads set r | r in races, set r, g | r in races && g in r.garages :: g
      reads set r, c | r in races && c in r.cars :: c
      reads set t | t in tournaments, set t, c | t in tournaments && c in t.roster :: c
      ensures j.JObject? && j.fields.Keys == {GARAGES_KEY, RACES_KEY, TOURNAMENT_KEY}
      ensures j.fields[GARAGES_KEY].JArray? && |j.fields[GARAGES_KEY].items| == |garages|
      ensures j.fields[RACES_KEY].JArray? && |j.fields[RACES_KEY].items| == |races|
      ensures j.fields[TOURNAMENT_KEY].JArray? && |j.fields[TOURNAMENT_KEY].items| == |tournaments|
    {
      var gs := seq(|garages|, i reads this, set g | g in garages, set g, c | g in garages && c in g.cars :: c
        requires 0 <= i < |garages| => garages[i].ExportWithCars());
      var rs := seq(|races|, i reads this, set r | r in races, set r, g | r in races && g in r.garages :: g,
        set r, c | r in races && c in r.cars :: c
        requires 0 <= i < |races| => races[i].ExportFull());
      var ts := seq(|tournaments|, i reads this, set t | t in tournaments, set t, c | t in tournaments && c in t.roster :: c
        requires 0 <= i < |tournaments| => tournaments[i].Export());
      JObject(map[GARAGES_KEY := JArray(gs), RACES_KEY := JArray(rs), TOURNAMENT_KEY := JArray(ts)])
    }

    /** The garages listed are `before` followed by one new garage for each
        record `recs` adds when merged by name, with that record's name and
        cars. */
    static ghost predicate MergedFrom(gs: seq<Garage>, before: seq<Garage>, recs: seq<GarageRec>)
      reads set g | g in gs, set g, c | g in gs && c in g.cars :: c
    {
      var merged := Merge(Bare(Names(before)), recs, SameName);
      |gs| == |merged| && |before| <= |gs| && gs[..|before|] == before &&
      (forall i :: |before| <= i < |gs| ==> gs[i].Rec() == merged[i]) &&
      RecNames(merged) == Names(gs)
    }

    /** `importGarageData` (the garages array of the application file): each
        garage read from the array is appended unless a listed garage already
        has its name (ignoring case); listed garages are not touched.  A value
        that is not an array stops the import at once, and an element that is
        not a garage stops it there, with the earlier elements merged. */
    method ImportGarageData(appData: map<string, Json>) returns (ok: bool)
      modifies this
      ensures races == old(races) && tournaments == old(tournaments)
      ensures ok <==> Get(appData, GARAGES_KEY).JArray? && DecodeAll(Get(appData, GARAGES_KEY).items, DecodeGarage).Some?
      ensures !Get(appData, GARAGES_KEY).JArray? ==> garages == old(garages)
      ensures Get(appData, GARAGES_KEY).JArray? ==>
        MergedFrom(garages, old(garages), DecodedPrefix(Get(appData, GARAGES_KEY).items, DecodeGarage))
      ensures Get(appData, GARAGES_KEY).JArray? ==>
        Names(garages) == Merge(old(Names(garages)), RecNames(DecodedPrefix(Get(appData, GARAGES_KEY).items, DecodeGarage)), EqualsIgnoreCase)
      ensures forall i :: |old(garages)| <= i < |garages| ==> fresh(garages[i])
    {
      var list := Get(appData, GARAGES_KEY);
      if !list.JArray? {
        return false;
      }
      var items := list.items;
      ghost var added;
      ok, added := ImportGarageItems(items, DecodedPrefix(items, DecodeGarage));
      forall k | |old(garages)| <= k < |garages| ensures fresh(garages[k]) {
        assert garages[k] in added;
      }
      MergeByName(old(Names(garages)), DecodedPrefix(items, DecodeGarage));
      DecodedPrefixAll(items, DecodeGarage);
    }

    /** The loop of `importGarageData` over the elements of the array, whose
        leading garages are `recs`. */
    method ImportGarageItems(items: seq<Json>, ghost recs: seq<GarageRec>) returns (ok: bool, ghost added: seq<Garage>)
      requires recs == DecodedPrefix(items, DecodeGarage)
      modifies this
      ensures races == old(races) && tournaments == old(tournaments)
      ensures ok <==> |recs| == |items|
      ensures garages == old(garages) + added
      ensures MergedFrom(garages, old(garages), recs)
      ensures forall h :: h in added ==> fresh(h)
    {
      added := [];
      var i := 0;
      while i < |items|
        invariant 0 <= i <= |recs|
        invariant races == old(races) && tournaments == old(tournaments)
        invariant garages == old(garages) + added
        invariant MergedFrom(garages, old(garages), recs[..i])
        invariant forall h :: h in added ==> fresh(h)
      {
        var read, more := ImportOneGarage(old(garages), items, recs, i);
        if !read {
          assert recs[..i] == recs;
          return false, added;
        }
        AppendAssoc(old(garages), added, more);
        added := added + more;
        i := i + 1;
      }
      assert recs[..i] == recs;
      return true, added;
    }

    /** The `i`-th element of the garage array, read as a garage and merged
        when it is one. */
    method ImportOneGarage(ghost before: seq<Garage>, items: seq<Json>, ghost recs: seq<GarageRec>, i: nat)
        returns (read: bool, ghost added: seq<Garage>)
      requires recs == DecodedPrefix(items, DecodeGarage) && i <= |recs| && i < |items|
      requires MergedFrom(garages, before, recs[..i])
      modifies this
      ensures races == old(races) && tournaments == old(tournaments)
      ensures read <==> i < |recs|
      ensures garages == old(garages) + added
      ensures !read ==> added == []
      ensures read ==> MergedFrom(garages, before, recs[..i + 1])
      ensures forall h :: h in added ==> fresh(h)
    {
      DecodedPrefixAt(items, DecodeGarage, i);
      var g := Garage.Import(items[i]);
      if g.None? {
        return false, [];
      }
      MergeGarage(before, recs, i, g.value);
      added := if Contains(Names(old(garages)), g.value.name, EqualsIgnoreCase) then [] else [g.value];
      return true, added;
    }

    /** `importRaceData` (the races array of the application file): for each
        race read from the array, every one of its garages is appended unless
        a listed garage has its name, and each of the race's cars whose garage
        matches is registered in the listed garage of that name unless it
        already holds an equal car; the race itself is appended unless an
        equal race is listed.  A value that is not an array stops the import
        at once, and an element that is not a race stops it there, with the
        earlier races merged.  Listed garages and races stay in place, and
        listed garages only gain cars. */
    method ImportRaceData(appData: map<string, Json>) returns (ok: bool)
      modifies this, set h | h in garages
      ensures tournaments == old(tournaments)
      ensures ok <==> Get(appData, RACES_KEY).JArray? && DecodeAll(Get(appData, RACES_KEY).items, DecodeRace).Some?
      ensures !Get(appData, RACES_KEY).JArray? ==> garages == old(garages) && races == old(races)
      ensures |old(garages)| <= |garages| && garages[..|old(garages)|] == old(garages)
      ensures |old(races)| <= |races| && races[..|old(races)|] == old(races)
      ensures Get(appData, RACES_KEY).JArray? ==>
        Names(garages) == Merge(old(Names(garages)), AllGarageNames(DecodedPrefix(Get(appData, RACES_KEY).items, DecodeRace)), EqualsIgnoreCase)
      ensures Get(appData, RACES_KEY).JArray? ==>
        RaceInfos(races) == Merge(old(RaceInfos(races)), RecInfos(DecodedPrefix(Get(appData, RACES_KEY).items, DecodeRace)), SameRace)
      ensures forall k :: 0 <= k < |old(garages)| ==> old(garages[k].cars) <= garages[k].cars
      ensures forall k :: |old(garages)| <= k < |garages| ==> fresh(garages[k])
      ensures forall k :: |old(races)| <= k < |races| ==> fresh(races[k])
    {
      var list := Get(appData, RACES_KEY);
      if !list.JArray? {
        return false;
      }
      ghost var newGarages, newRaces;
      ok, newGarages, newRaces := ImportRaceItems(list.items, DecodedPrefix(list.items, DecodeRace));
      DecodedPrefixAll(list.items, DecodeRace);
      forall k | |old(garages)| <= k < |garages| ensures fresh(garages[k]) {
        assert garages[k] in newGarages;
      }
      forall k | |old(races)| <= k < |races| ensures fresh(races[k]) {
        assert races[k] in newRaces;
      }
    }

    /** The loop of `importRaceData` over the elements of the races array. */
    method ImportRaceItems(items: seq<Json>, ghost recs: seq<RaceRec>) returns (ok: bool, ghost newGarages: seq<Garage>, ghost newRaces: seq<Race>)
      requires recs == DecodedPrefix(items, DecodeRace)
      modifies this, set h | h in garages
      ensures tournaments == old(tournaments)
      ensures ok <==> |recs| == |items|
      ensures garages == old(garages) + newGarages && races == old(races) + newRaces
      ensures Names(garages) == Merge(old(Names(garages)), AllGarageNames(recs), EqualsIgnoreCase)
      ensures RaceInfos(races) == Merge(old(RaceInfos(races)), RecInfos(recs), SameRace)
      ensures forall k :: 0 <= k < |old(garages)| ==> old(garages[k].cars) <= garages[k].cars
      ensures forall h :: h in newGarages ==> fresh(h)
      ensures forall h :: h in newRaces ==> fresh(h)
    {
      ghost var names0 := Names(garages);
      ghost var infos0 := RaceInfos(races);
      newGarages, newRaces := [], [];
      ok := true;
      var i := 0;
      while ok && i < |items|
        invariant 0 <= i <= |recs|
        invariant !ok ==> i == |recs| < |items|
        invariant tournaments == old(tournaments)
        invariant garages == old(garages) + newGarages && races == old(races) + newRaces
        invariant RacesMergedFrom(names0, infos0, recs, i)
        invariant forall k :: 0 <= k < |old(garages)| ==> old(garages[k].cars) <= garages[k].cars
        invariant forall h :: h in newGarages ==> fresh(h)
        invariant forall h :: h in newRaces ==> fresh(h)
      {
        var read, addedGarages, addedRaces := ImportOneRace(items, recs, i, names0, infos0);
        if read {
          AppendAssoc(old(garages), newGarages, addedGarages);
          AppendAssoc(old(races), newRaces, addedRaces);
          newGarages := newGarages + addedGarages;
          newRaces := newRaces + addedRaces;
          i := i + 1;
        } else {
          ok := false;
        }
      }
      assert recs[..i] == recs;
    }

    /** The body of the `importRaceData` loop for the `i`-th element: it is
        read as a race and merged, or, when it is not a race, nothing
        changes. */
    method ImportOneRace(items: seq<Json>, ghost recs: seq<RaceRec>, i: nat, ghost names0: seq<string>, ghost infos0: seq<RaceInfo>)
        returns (read: bool, ghost addedGarages: seq<Garage>, ghost addedRaces: seq<Race>)
      requires recs == DecodedPrefix(items, DecodeRace) && i <= |recs| && i < |items|
      requires RacesMergedFrom(names0, infos0, recs, i)
      modifies this, set h | h in garages
      ensures tournaments == old(tournaments)
      ensures garages == old(garages) + addedGarages && races == old(races) + addedRaces
      ensures read <==> i < |recs|
      ensures read ==> RacesMergedFrom(names0, infos0, recs, i + 1)
      ensures !read ==> addedGarages == [] && addedRaces == []
      ensures forall k :: 0 <= k < |old(garages)| ==> old(garages[k].cars) <= garages[k].cars
      ensures forall k :: 0 <= k < |addedGarages| ==> fresh(addedGarages[k])
      ensures forall k :: 0 <= k < |addedRaces| ==> fresh(addedRaces[k])
    {
      var r := ReadRace(items, recs, i);
      if r.None? {
        return false, [], [];
      }
      addedGarages, addedRaces := MergeRaceStep(recs, i, names0, infos0, r.value);
      read := true;
    }

    /** The `i`-th element of the races array, read as a new race. */
    static method ReadRace(items: seq<Json>, ghost recs: seq<RaceRec>, i: nat) returns (r: Option<Race>)
      requires recs == DecodedPrefix(items, DecodeRace) && i <= |recs| && i < |items|
      ensures r.Some? <==> i < |recs|
      ensures r.Some? ==> fresh(r.value) && r.value.Info() == recs[i].info
      ensures r.Some? ==> Names(r.value.garages) == RecNames(recs[i].garages)
      ensures r.Some? ==> forall h :: h in r.value.garages ==> fresh(h)
      ensures r.Some? ==> forall c :: c in r.value.cars ==> fresh(c)
    {
      DecodedPrefixAt(items, DecodeRace, i);
      r := Race.Import(items[i]);
      if r.Some? {
        NamesOfRecs(r.value.garages, recs[i].garages);
      }
    }

    /** The garage names and race infos are those of merging the first `i`
        races read into `names0` and `infos0`. */
    ghost predicate RacesMergedFrom(names0: seq<string>, infos0: seq<RaceInfo>, recs: seq<RaceRec>, i: nat)
      reads this
    {
      i <= |recs| &&
      Names(garages) == Merge(names0, AllGarageNames(recs[..i]), EqualsIgnoreCase) &&
      RaceInfos(races) == Merge(infos0, RecInfos(recs[..i]), SameRace)
    }

    /** One step of the `importRaceData` loop, for the `i`-th race read. */
    method MergeRaceStep(ghost recs: seq<RaceRec>, ghost i: nat, ghost names0: seq<string>, ghost infos0: seq<RaceInfo>, r: Race)
        returns (ghost addedGarages: seq<Garage>, ghost addedRaces: seq<Race>)
      requires i < |recs| && r.Info() == recs[i].info && Names(r.garages) == RecNames(recs[i].garages)
      requires RacesMergedFrom(names0, infos0, recs, i)
      modifies this, set h | h in garages, set h | h in r.garages, set c | c in r.cars
      ensures tournaments == old(tournaments)
      ensures garages == old(garages) + addedGarages && races == old(races) + addedRaces
      ensures RacesMergedFrom(names0, infos0, recs, i + 1)
      ensures forall k :: 0 <= k < |old(garages)| ==> old(garages[k].cars) <= garages[k].cars
      ensures forall k :: 0 <= k < |addedGarages| ==> addedGarages[k] in r.garages
      ensures forall k :: 0 <= k < |addedRaces| ==> addedRaces[k] == r
    {
      MergeRace(r);
      RacesMergedStep(names0, infos0, recs, i, old(Names(garages)), old(RaceInfos(races)), Names(garages), RaceInfos(races));
      PrefixRest(old(garages), garages);
      PrefixRest(old(races), races);
      addedGarages, addedRaces := garages[|old(garages)|..], races[|old(races)|..];
    }

    /** The body of the `importRaceData` loop for one race: the garages the
        race brings that are not listed yet are appended, in order, cars of
        the race go into the listed garages, and the race is appended unless
        an equal race is listed. */
    method MergeRace(r: Race)
      modifies this, set h | h in garages, set h | h in r.garages, set c | c in r.cars
      ensures tournaments == old(tournaments)
      ensures |old(garages)| <= |garages| && garages[..|old(garages)|] == old(garages)
      ensures Names(garages) == Merge(old(Names(garages)), Names(r.garages), EqualsIgnoreCase)
      ensures forall k :: |old(garages)| <= k < |garages| ==> garages[k] in r.garages
      ensures forall k :: 0 <= k < |old(garages)| ==> old(garages[k].cars) <= garages[k].cars
      ensures races == old(races) + (if Contains(RaceInfos(old(races)), r.Info(), SameRace) then [] else [r])
      ensures RaceInfos(races) ==
        if Contains(RaceInfos(old(races)), r.Info(), SameRace) then RaceInfos(old(races)) else RaceInfos(old(races)) + [r.Info()]
    {
      MergeRaceGarages(r);
      AddRaceIfAbsent(r);
    }

    /** The first `j` garages of `r` are merged by name into the garages
        `g0` listed before. */
    ghost predicate RaceGaragesMerged(g0: seq<Garage>, r: Race, j: nat)
      reads this, r
    {
      j <= |r.garages| && |g0| <= |garages| && garages[..|g0|] == g0 &&
      Names(garages) == Merge(Names(g0), Names(r.garages)[..j], EqualsIgnoreCase) &&
      (forall k :: |g0| <= k < |garages| ==> garages[k] in r.garages)
    }

    /** The car lists of the garages `g0` only grew from `cars0`. */
    static ghost predicate CarsGrown(g0: seq<Garage>, cars0: seq<seq<Car>>)
      reads set h | h in g0
    {
      |cars0| == |g0| && forall k :: 0 <= k < |g0| ==> cars0[k] <= g0[k].cars
    }

    /** Appending a garage of the race keeps every garage past `g0` one of
        the race's. */
    static lemma AppendedFrom(g0: seq<Garage>, before: seq<Garage>, after: seq<Garage>, rg: seq<Garage>, g: Garage)
      requires forall k :: |g0| <= k < |before| ==> before[k] in rg
      requires g in rg && (after == before || after == before + [g])
      ensures forall k :: |g0| <= k < |after| ==> after[k] in rg
    {
      forall k | |g0| <= k < |after| ensures after[k] in rg {
        if k >= |before| {
          assert after[k] == g;
        } else {
          assert after[k] == before[k];
        }
      }
    }

    /** The garage loop of `importRaceData` for one race. */
    method MergeRaceGarages(r: Race)
      modifies this, set h | h in garages, set h | h in r.garages, set c | c in r.cars
      ensures races == old(races) && tournaments == old(tournaments)
      ensures |old(garages)| <= |garages| && garages[..|old(garages)|] == old(garages)
      ensures Names(garages) == Merge(old(Names(garages)), Names(r.garages), EqualsIgnoreCase)
      ensures forall k :: |old(garages)| <= k < |garages| ==> garages[k] in r.garages
      ensures forall k :: 0 <= k < |old(garages)| ==> old(garages[k].cars) <= garages[k].cars
    {
      ghost var g0 := garages;
      ghost var cars0 := seq(|g0|, k requires 0 <= k < |g0| reads set h | h in g0 => g0[k].cars);
      var j := 0;
      while j < |r.garages|
        invariant 0 <= j
        invariant races == old(races) && tournaments == old(tournaments)
        invariant RaceGaragesMerged(g0, r, j) && CarsGrown(g0, cars0)
      {
        MergeRaceGarage(g0, cars0, r, j);
        j := j + 1;
      }
      assert Names(r.garages)[..j] == Names(r.garages);
    }

    /** The garage loop body of `importRaceData` for the `j`-th garage of the
        race: the garage is appended unless a listed one has its name, and the
        race's cars of that garage are merged into the listed one. */
    method MergeRaceGarage(ghost g0: seq<Garage>, ghost cars0: seq<seq<Car>>, r: Race, j: nat)
      requires j < |r.garages| && RaceGaragesMerged(g0, r, j) && CarsGrown(g0, cars0)
      modifies this, (set h | h in garages), r.garages[j], set c | c in r.cars
      ensures races == old(races) && tournaments == old(tournaments)
      ensures RaceGaragesMerged(g0, r, j + 1) && CarsGrown(g0, cars0)
      ensures Contains(Names(garages), r.garages[j].name, EqualsIgnoreCase)
      ensures var G := garages[Lookup(garages, r.garages[j].name)];
        Infos(G.cars) == Merge(old(Infos(G.cars)), Stamp(OfGarage(old(Infos(r.cars)), r.garages[j].name), G.name), SameCar)
    {
      var g := r.garages[j];
      AddRaceGarage(g0, r, j);
      ghost var G := garages[Lookup(garages, g.name)];
      ghost var held := Infos(G.cars);
      ghost var race := Infos(r.cars);
      assert held == old(Infos(G.cars)) && race == old(Infos(r.cars));
      label Added:
      MergeRaceCars(r, g);
      assert Infos(G.cars) == Merge(held, Stamp(OfGarage(race, g.name), G.name), SameCar);
      forall k | 0 <= k < |g0| ensures cars0[k] <= g0[k].cars {
        if g0[k] == G {
          assert cars0[k] <= old@Added(G.cars) <= G.cars;
        } else {
          assert g0[k].cars == old(g0[k].cars);
        }
      }
    }

    /** The `j`-th garage of the race is appended unless a listed one has its
        name. */
    method AddRaceGarage(ghost g0: seq<Garage>, r: Race, j: nat)
      requires j < |r.garages| && RaceGaragesMerged(g0, r, j)
      modifies this
      ensures races == old(races) && tournaments == old(tournaments)
      ensures RaceGaragesMerged(g0, r, j + 1)
      ensures Contains(Names(garages), r.garages[j].name, EqualsIgnoreCase)
      ensures garages == old(garages) || garages == old(garages) + [r.garages[j]]
    {
      var g := r.garages[j];
      TakeStep(Names(r.garages), j);
      MergeStep(Names(g0), Names(r.garages)[..j], g.name, EqualsIgnoreCase);
      AddGarageIfAbsent(g);
      AppendedFrom(g0, old(garages), garages, r.garages, g);
    }

    /** One step of the `importGarageData` loop: `g` is appended unless a
        listed garage has its name, which is one more step of the merge. */
    method MergeGarage(ghost before: seq<Garage>, ghost all: seq<GarageRec>, ghost i: nat, g: Garage)
      requires i < |all| && MergedFrom(garages, before, all[..i]) && g.Rec() == all[i]
      modifies this
      ensures races == old(races) && tournaments == old(tournaments)
      ensures garages == old(garages) + (if Contains(Names(old(garages)), g.name, EqualsIgnoreCase) then [] else [g])
      ensures MergedFrom(garages, before, all[..i + 1])
    {
      AddGarageIfAbsent(g);
      MergedFromStep(old(garages), before, all, i, g);
    }

    /** Appending a garage unless one of its name is listed is one more step
        of the merge by name. */
    static lemma MergedFromStep(gs: seq<Garage>, before: seq<Garage>, all: seq<GarageRec>, i: nat, g: Garage)
      requires i < |all| && MergedFrom(gs, before, all[..i]) && g.Rec() == all[i]
      ensures MergedFrom(gs + (if Contains(Names(gs), g.name, EqualsIgnoreCase) then [] else [g]), before, all[..i + 1])
    {
      var recs := all[..i];
      var rec := all[i];
      TakeStep(all, i);
      var m := Merge(Bare(Names(before)), recs, SameName);
      assert (recs + [rec])[..|recs|] == recs;
      FirstMatchByName(m, rec);
      if !Contains(Names(gs), g.name, EqualsIgnoreCase) {
        var after := gs + [g];
        assert RecNames(m + [rec]) == RecNames(m) + [rec.name];
        assert Names(after) == Names(gs) + [g.name];
        assert after[..|before|] == before;
        forall k | |before| <= k < |after| ensures after[k].Rec() == (m + [rec])[k] {
          if k < |gs| {
            assert (m + [rec])[k] == m[k] && after[k] == gs[k];
          } else {
            assert after[k] == g && (m + [rec])[k] == rec;
          }
        }
      }
    }

    /** `if (!garageList.contains(g)) garageList.add(g)`. */
    method AddGarageIfAbsent(g: Garage)
      modifies this
      ensures races == old(races) && tournaments == old(tournaments)
      ensures garages == old(garages) + (if Contains(Names(old(garages)), g.name, EqualsIgnoreCase) then [] else [g])
      ensures Contains(Names(garages), g.name, EqualsIgnoreCase)
      ensures Names(garages) == if Contains(Names(old(garages)), g.name, EqualsIgnoreCase) then Names(old(garages)) else Names(old(garages)) + [g.name]
    {
      if FirstMatch(Names(garages), g.name, EqualsIgnoreCase) == |garages| {
        garages := garages + [g];
        assert Names(garages) == Names(old(garages)) + [g.name];
        assert EqualsIgnoreCase(g.name, Names(garages)[|old(garages)|]);
      }
    }

    /** `if (!raceList.contains(r)) raceList.add(r)`. */
    method AddRaceIfAbsent(r: Race)
      modifies this
      ensures garages == old(garages) && tournaments == old(tournaments)
      ensures races == old(races) + (if Contains(RaceInfos(old(races)), r.Info(), SameRace) then [] else [r])
      ensures RaceInfos(races) ==
        if Contains(RaceInfos(old(races)), r.Info(), SameRace) then RaceInfos(old(races)) else RaceInfos(old(races)) + [r.Info()]
    {
      if FirstMatch(RaceInfos(races), r.Info(), SameRace) == |races| {
        races := races + [r];
      }
    }

    /** The innermost step of `importRaceData`: the car is registered in the
        garage (taking its name) unless the garage already holds an equal car;
        otherwise nothing changes.  The cars already in the garage are never
        restamped. */
    static method MergeCar(garage: Garage, sc: Car)
      modifies garage, sc
      ensures Contains(old(Infos(garage.cars)), old(sc.Info()), SameCar) ==>
        garage.cars == old(garage.cars) && sc.garage == old(sc.garage)
      ensures !Contains(old(Infos(garage.cars)), old(sc.Info()), SameCar) ==>
        garage.cars == old(garage.cars) + [sc] && sc.garage == garage.name
      ensures sc.MotionState() == old(sc.MotionState()) && sc.score == old(sc.score)
      ensures forall c :: c in old(garage.cars) ==> c.garage == old(c.garage)
      ensures Infos(garage.cars) == if Contains(old(Infos(garage.cars)), old(sc.Info()), SameCar) then old(Infos(garage.cars))
        else old(Infos(garage.cars)) + [old(sc.Info()).(garage := garage.name)]
    {
      ghost var cur := Infos(garage.cars);
      if FirstMatch(Infos(garage.cars), sc.Info(), SameCar) == |garage.cars| {
        forall k | 0 <= k < |garage.cars| ensures garage.cars[k] != sc {
          assert !SameCar(sc.Info(), Infos(garage.cars)[k]);
          SameCarEquivalence(sc.Info(), sc.Info(), sc.Info());
        }
        garage.RegisterCar(sc);
        assert Infos(old(garage.cars)) == cur;
        assert Infos(garage.cars) == Infos(old(garage.cars)) + [sc.Info()];
      }
    }

    /** The car loop of `importRaceData` for the race garage `g`: every car of
        the race whose garage matches `g`'s name (ignoring case) is merged into
        the listed garage of that name.  That garage only gains cars, each one
        of the race's cars carrying the garage's name; read as brand, model and
        garage, its list becomes the merge of what it held with the race's cars
        of that garage, in race order, each stamped with the garage's name. */
    method MergeRaceCars(r: Race, g: Garage)
      requires Contains(Names(garages), g.name, EqualsIgnoreCase)
      modifies garages[Lookup(garages, g.name)], set c | c in r.cars
      ensures var G := garages[Lookup(garages, g.name)];
        |old(G.cars)| <= |G.cars| && G.cars[..|old(G.cars)|] == old(G.cars) &&
        (forall k :: |old(G.cars)| <= k < |G.cars| ==> G.cars[k] in r.cars && G.cars[k].garage == G.name) &&
        forall c :: c in old(G.cars) ==> c.garage == old(c.garage)
      ensures var G := garages[Lookup(garages, g.name)];
        Infos(G.cars) == Merge(old(Infos(G.cars)), Stamp(OfGarage(old(Infos(r.cars)), g.name), G.name), SameCar)
      ensures forall c :: c in r.cars ==> c.MotionState() == old(c.MotionState()) && c.score == old(c.score)
    {
      var G := garages[Lookup(garages, g.name)];
      ghost var held := Infos(G.cars);
      ghost var race := Infos(r.cars);
      ghost var orig := map c | c in r.cars :: c.Info();
      CarsMergingStart(G, r.cars, g.name, orig);
      var j := 0;
      while j < |r.cars|
        invariant CarsMerging(G, old(G.cars), held, r.cars, race, orig, g.name, j)
        invariant forall c :: c in old(G.cars) ==> c.garage == old(c.garage)
        invariant forall c :: c in r.cars ==> c.MotionState() == old(c.MotionState()) && c.score == old(c.score)
      {
        var garage := GarageFromList(g.name);
        assert garage.value == G;
        MergeRaceCarAt(G, r.cars, g.name, old(G.cars), held, race, orig, j);
        j := j + 1;
      }
      assert race[..j] == race;
    }

    /** The state of the car loop of `importRaceData` after `j` turns for the
        listed garage `G`: it still starts with the cars it held, every car
        it gained is a race car carrying its name, its list read as brand,
        model and garage is the merge so far, and each race car either kept
        the garage it was read with or, matching `name`, took `G`'s name. */
    static ghost predicate CarsMerging(G: Garage, cars0: seq<Car>, held: seq<CarInfo>, rc: seq<Car>,
                                       race: seq<CarInfo>, orig: map<Car, CarInfo>, name: string, j: nat)
      reads G, set c | c in G.cars, set c | c in rc
    {
      j <= |race| && |cars0| <= |G.cars| && G.cars[..|cars0|] == cars0 &&
      (forall k :: |cars0| <= k < |G.cars| ==> G.cars[k] in rc && G.cars[k].garage == G.name) &&
      Infos(G.cars) == Merge(held, Stamp(OfGarage(race[..j], name), G.name), SameCar) &&
      forall c :: c in rc ==>
        (c in orig && c.brand == orig[c].brand && c.model == orig[c].model &&
         (c.garage == orig[c].garage || (c.garage == G.name && EqualsIgnoreCase(orig[c].garage, name))))
    }

    /** Before the first turn nothing is merged yet. */
    static lemma CarsMergingStart(G: Garage, rc: seq<Car>, name: string, orig: map<Car, CarInfo>)
      requires orig == map c | c in rc :: c.Info()
      ensures CarsMerging(G, G.cars, Infos(G.cars), rc, Infos(rc), orig, name, 0)
      ensures forall k :: 0 <= k < |rc| ==> rc[k] in orig && Infos(rc)[k] == orig[rc[k]]
    {
      assert Infos(rc)[..0] == [];
    }

    /** The `j`-th turn of the car loop keeps `CarsMerging`. */
    static method MergeRaceCarAt(G: Garage, rc: seq<Car>, name: string, ghost cars0: seq<Car>, ghost held: seq<CarInfo>,
                                 ghost race: seq<CarInfo>, ghost orig: map<Car, CarInfo>, j: nat)
      requires j < |rc| == |race| && EqualsIgnoreCase(name, G.name)
      requires CarsMerging(G, cars0, held, rc, race, orig, name, j)
      requires forall k :: 0 <= k < |rc| ==> rc[k] in orig && race[k] == orig[rc[k]]
      modifies G, rc[j]
      ensures CarsMerging(G, cars0, held, rc, race, orig, name, j + 1)
      ensures forall c :: c in old(G.cars) ==> c.garage == old(c.garage)
      ensures forall c :: c in rc ==> c.MotionState() == old(c.MotionState()) && c.score == old(c.score)
    {
      var sc := rc[j];
      IncomingStep(race, j, name, G.name);
      MergeRaceCar(G, sc, name, held, Stamp(OfGarage(race[..j], name), G.name), orig[sc]);
    }

    /** One turn of the car loop of `importRaceData`: a car whose garage
        matches `name` is merged into `G`, so the garage's list becomes one
        more step of the merge; a car that does not match changes nothing.
        `info` is the car as it was read from the race, before any turn
        stamped it. */
    static method MergeRaceCar(G: Garage, sc: Car, name: string, ghost held: seq<CarInfo>,
                               ghost incoming: seq<CarInfo>, ghost info: CarInfo)
      requires EqualsIgnoreCase(name, G.name)
      requires Infos(G.cars) == Merge(held, incoming, SameCar)
      requires sc.brand == info.brand && sc.model == info.model
      requires sc.garage == info.garage || (sc.garage == G.name && EqualsIgnoreCase(info.garage, name))
      modifies G, sc
      ensures Infos(G.cars) ==
        Merge(held, incoming + (if EqualsIgnoreCase(info.garage, name) then [info.(garage := G.name)] else []), SameCar)
      ensures sc.garage == old(sc.garage) || (sc.garage == G.name && EqualsIgnoreCase(info.garage, name))
      ensures G.cars == old(G.cars) || (G.cars == old(G.cars) + [sc] && sc.garage == G.name)
      ensures sc.MotionState() == old(sc.MotionState()) && sc.score == old(sc.score)
      ensures forall c :: c in old(G.cars) ==> c.garage == old(c.garage)
    {
      MergeTurn(held, incoming, sc.Info(), info, name, G.name);
      if EqualsIgnoreCase(sc.garage, name) {
        assert sc.Info().(garage := G.name) == info.(garage := G.name);
        MergeCar(G, sc);
      }
    }

    /** `importTournamentData`: every tournament read from the array is
        appended, since a new tournament is never already listed (`contains`
        compares references: `Tournament` defines no `equals`).  A value that
        is not an array stops the import at once, and an element that is not
        a tournament stops it there. */
    method ImportTournamentData(appData: map<string, Json>) returns (ok: bool)
      modifies this
      ensures garages == old(garages) && races == old(races)
      ensures ok <==> Get(appData, TOURNAMENT_KEY).JArray? && DecodeAll(Get(appData, TOURNAMENT_KEY).items, DecodeTournament).Some?
      ensures !Get(appData, TOURNAMENT_KEY).JArray? ==> tournaments == old(tournaments)
      ensures Get(appData, TOURNAMENT_KEY).JArray? ==>
        var recs := DecodedPrefix(Get(appData, TOURNAMENT_KEY).items, DecodeTournament);
        |tournaments| == |old(tournaments)| + |recs| && tournaments[..|old(tournaments)|] == old(tournaments) &&
        forall k :: 0 <= k < |recs| ==> fresh(tournaments[|old(tournaments)| + k]) && tournaments[|old(tournaments)| + k].name == recs[k].name
    {
      var list := Get(appData, TOURNAMENT_KEY);
      if !list.JArray? {
        return false;
      }
      ghost var added;
      ok, added := ImportTournamentItems(list.items);
      DecodedPrefixAll(list.items, DecodeTournament);
      assert forall k :: 0 <= k < |added| ==> tournaments[|old(tournaments)| + k] == added[k];
    }

    /** The loop of `importTournamentData` over the elements of the array. */
    method ImportTournamentItems(items: seq<Json>) returns (ok: bool, ghost added: seq<Tournament>)
      modifies this
      ensures garages == old(garages) && races == old(races)
      ensures ok <==> |added| == |items|
      ensures tournaments == old(tournaments) + added && |added| == |DecodedPrefix(items, DecodeTournament)|
      ensures forall k :: 0 <= k < |added| ==> fresh(added[k]) && added[k].name == DecodedPrefix(items, DecodeTournament)[k].name
    {
      var read;
      ok, read := ReadTournaments(items, DecodedPrefix(items, DecodeTournament));
      tournaments := tournaments + read;
      added := read;
    }

    /** The tournaments read from `items` in order, until an element that is
        not one.  Each is a new object, so the `contains` check of the loop
        never finds it listed and every one is appended. */
    static method ReadTournaments(items: seq<Json>, ghost recs: seq<TournamentRec>) returns (ok: bool, read: seq<Tournament>)
      requires recs == DecodedPrefix(items, DecodeTournament)
      ensures ok <==> |read| == |items|
      ensures |read| == |recs|
      ensures forall k :: 0 <= k < |read| ==> fresh(read[k]) && read[k].name == recs[k].name
    {
      read := [];
      var i := 0;
      while i < |items|
        invariant 0 <= i <= |recs|
        invariant |read| == i
        invariant forall k :: 0 <= k < i ==> fresh(read[k]) && read[k].name == recs[k].name
      {
        var t := ImportOneTournament(items, recs, i);
        if t.None? {
          break;
        }
        read := read + [t.value];
        i := i + 1;
      }
      ok := i == |items|;
    }

    /** The `i`-th element of the tournament array, read as a tournament. */
    static method ImportOneTournament(items: seq<Json>, ghost recs: seq<TournamentRec>, i: nat) returns (t: Option<Tournament>)
      requires recs == DecodedPrefix(items, DecodeTournament) && i <= |recs| && i < |items|
      ensures t.Some? <==> i < |recs|
      ensures t.Some? ==> fresh(t.value) && t.value.name == recs[i].name
    {
      DecodedPrefixAt(items, DecodeTournament, i);
      t := Tournament.Import(items[i]);
    }

    /** `addRaceToTournament(t)`: a clone of each selected race (by position
        in the race list) goes at the end of the tournament's races; the
        listed races themselves are not shared. */
    method AddRaceToTournament(t: Tournament, selected: seq<int>)
      requires forall k :: 0 <= k < |selected| ==> 0 <= selected[k] < |races|
      modifies t
      ensures t.garages == old(t.garages) && t.roster == old(t.roster)
      ensures |t.races| == |old(t.races)| + |selected| && t.races[..|old(t.races)|] == old(t.races)
      ensures forall k :: 0 <= k < |selected| ==>
        fresh(t.races[|old(t.races)| + k]) && BlankCopy(t.races[|old(t.races)| + k], races[selected[k]])
    {
      ghost var clones: seq<Race> := [];
      var i := 0;
      while i < |selected|
        invariant 0 <= i <= |selected|
        invariant t.garages == old(t.garages) && t.roster == old(t.roster)
        invariant t.races == old(t.races) + clones && |clones| == i
        invariant forall k :: 0 <= k < i ==> fresh(clones[k]) && BlankCopy(clones[k], races[selected[k]])
      {
        var race := races[selected[i]].Clone();
        AppendAssoc(old(t.races), clones, [race]);
        t.RegisterRace(race);
        clones := clones + [race];
        i := i + 1;
      }
      assert forall k :: 0 <= k < |clones| ==> t.races[|old(t.races)| + k] == clones[k];
    }

    /** `c` has the variant, name and parameter of `template` and no
        garages or cars: what `clone` gives. */
    ghost predicate BlankCopy(c: Race, template: Race)
      reads c
    {
      c.Info() == template.Info() && c.garages == [] && c.cars == [] && c.deathList == []
    }

    /** `registerCarsFromGarageToTornament` once the tournament is chosen:
        the tournament's garages go into every race; then, with exactly one
        tournament garage, all cars of the listed garage of that name join
        the roster, and otherwise one car drawn from the listed garage of
        each tournament garage's name, in order; then the roster goes into
        every race.  A name with no listed garage, or (with several garages)
        a garage with no cars, stops there: the code fails on `null` or on an
        empty list. */
    method RegisterCarsFromGarageToTournament(t: Tournament, draws: nat -> nat) returns (ok: bool)
      modifies t, set r | r in t.races
      ensures t.races == old(t.races) && t.garages == old(t.garages)
      ensures forall r :: r in t.races ==> r.garages == old(r.garages) + Repeat(t.garages, multiset(t.races)[r])
      ensures ok <==> if |t.garages| == 1 then Lookup(garages, t.garages[0].name) < |garages|
                      else PickFromList(garages, Names(t.garages), draws).Some?
      ensures ok && |t.garages| == 1 ==> t.roster == old(t.roster) + garages[Lookup(garages, t.garages[0].name)].cars
      ensures ok && |t.garages| != 1 ==> t.roster == old(t.roster) + PickFromList(garages, Names(t.garages), draws).value
      ensures ok ==> forall r :: r in t.races ==> r.cars == old(r.cars) + Repeat(t.roster, multiset(t.races)[r])
      ensures !ok ==> forall r :: r in t.races ==> r.cars == old(r.cars)
      ensures !ok ==> |old(t.roster)| <= |t.roster| && t.roster[..|old(t.roster)|] == old(t.roster)
    {
      t.RegisterGaragesInEachRace();
      ok := FillRoster(t, draws);
      if ok {
        t.RegisterCarsInEachRace();
      }
    }

    /** The roster part of `registerCarsFromGarageToTornament`: the whole
        listed garage with one tournament garage, one drawn car per
        tournament garage otherwise. */
    method FillRoster(t: Tournament, draws: nat -> nat) returns (ok: bool)
      modifies t
      ensures t.races == old(t.races) && t.garages == old(t.garages)
      ensures ok <==> if |t.garages| == 1 then Lookup(garages, t.garages[0].name) < |garages|
                      else PickFromList(garages, Names(t.garages), draws).Some?
      ensures ok && |t.garages| == 1 ==> t.roster == old(t.roster) + garages[Lookup(garages, t.garages[0].name)].cars
      ensures ok && |t.garages| != 1 ==> t.roster == old(t.roster) + PickFromList(garages, Names(t.garages), draws).value
      ensures |old(t.roster)| <= |t.roster| && t.roster[..|old(t.roster)|] == old(t.roster)
    {
      if |t.garages| == 1 {
        ok := TakeGarageIntoRoster(t);
      } else {
        ok := PickIntoRoster(t, draws);
      }
    }

    /** The one-garage branch of `registerCarsFromGarageToTornament`: every
        car of the listed garage with the tournament garage's name joins the
        roster. */
    method TakeGarageIntoRoster(t: Tournament) returns (ok: bool)
      requires |t.garages| == 1
      modifies t
      ensures t.races == old(t.races) && t.garages == old(t.garages)
      ensures ok <==> Lookup(garages, t.garages[0].name) < |garages|
      ensures ok ==> t.roster == old(t.roster) + garages[Lookup(garages, t.garages[0].name)].cars
      ensures !ok ==> t.roster == old(t.roster)
    {
      var w := GarageFromList(t.garages[0].name);
      if w.None? {
        return false;
      }
      t.roster := t.roster + w.value.cars;
      return true;
    }

    /** The several-garage branch of `registerCarsFromGarageToTornament`: for
        each tournament garage in order, a car drawn from the listed garage of
        its name joins the roster. */
    method PickIntoRoster(t: Tournament, draws: nat -> nat) returns (ok: bool)
      modifies t
      ensures t.races == old(t.races) && t.garages == old(t.garages)
      ensures ok <==> PickFromList(garages, Names(t.garages), draws).Some?
      ensures ok ==> t.roster == old(t.roster) + PickFromList(garages, Names(t.garages), draws).value
      ensures |old(t.roster)| <= |t.roster| && t.roster[..|old(t.roster)|] == old(t.roster)
    {
      ghost var wanted := Names(t.garages);
      ghost var picked: seq<Car> := [];
      var i := 0;
      while i < |t.garages|
        invariant 0 <= i <= |t.garages|
        invariant t.races == old(t.races) && t.garages == old(t.garages)
        invariant PickFromList(garages, wanted[..i], draws) == Some(picked)
        invariant t.roster == old(t.roster) + picked
      {
        var g := GarageFromList(t.garages[i].name);
        if g.None? || |g.value.cars| == 0 {
          assert !CanPick(garages, wanted[i]);
          PickFromListDefined(garages, wanted, draws);
          return false;
        }
        PickStep(garages, wanted, draws, i);
        var c := g.value.PickCar(draws(i));
        AppendAssoc(old(t.roster), picked, [c]);
        t.RegisterCar(c);
        picked := picked + [c];
        i := i + 1;
      }
      assert wanted[..i] == wanted;
      return true;
    }

    /** `startSelectedTournament` once the tournament is chosen: every race
        of the tournament, in order, is run, scored and reset (the race
        `oracles(i)` drives the `i`-th one), the roster is sorted by
        non-increasing score, and the tournament's report is built, which
        ranks every race again by distance.  Every car of a race ends at rest;
        no car loses points; races keep their garages and the same cars.  How
        the report reorders each race is stated by `ReportAtRest`. */
    static method StartTournament(t: Tournament, oracles: nat -> Oracle)
      modifies t, set r | r in t.races, set r, c | r in t.races && c in r.cars :: c
      ensures t.races == old(t.races) && t.garages == old(t.garages)
      ensures forall r :: r in t.races ==> r.garages == old(r.garages) && multiset(r.cars) == multiset(old(r.cars))
      ensures forall r, c :: r in t.races && c in r.cars ==> c.MotionState() == AT_REST
      ensures forall r, c :: r in t.races && c in old(r.cars) ==> c.score >= old(c.score) && c.garage == old(c.garage)
      ensures multiset(t.roster) == multiset(old(t.roster))
      ensures forall i, j :: 0 <= i < j < |t.roster| ==> t.roster[i].score >= t.roster[j].score
    {
      PlayTournament(t, oracles);
      ReportAtRest(t);
    }

    /** `getTournamentInfo` on a tournament whose race cars are all at rest:
        every race is ranked by distance once per listing, which, as all its
        cars are level, reverses it each time. */
    static method ReportAtRest(t: Tournament)
      requires forall r, c :: r in t.races && c in r.cars ==> c.MotionState() == AT_REST
      modifies set r | r in t.races
      ensures forall r :: r in t.races ==>
        r.garages == old(r.garages) && multiset(r.cars) == multiset(old(r.cars)) &&
        r.cars == Flip(old(r.cars), multiset(t.races)[r])
      ensures forall r, c :: r in t.races && c in r.cars ==> c.MotionState() == AT_REST
    {
      forall r | r in t.races ensures Level(r.cars) {
        AtRestLevel(r.cars);
      }
      var podiums := t.RacePodiums();
      forall r | r in t.races ensures forall c :: c in r.cars ==> c in old(r.cars) {
        assert multiset(r.cars) == multiset(old(r.cars));
        forall c | c in r.cars ensures c in old(r.cars) {
          assert c in multiset(r.cars);
        }
      }
    }

    /** The races and the ranking of `startSelectedTournament`: every race
        is run, scored and reset, and the roster is then sorted by
        non-increasing score. */
    static method PlayTournament(t: Tournament, oracles: nat -> Oracle)
      modifies t, set r | r in t.races, set r, c | r in t.races && c in r.cars :: c
      ensures t.races == old(t.races) && t.garages == old(t.garages)
      ensures forall r :: r in t.races ==> r.garages == old(r.garages) && multiset(r.cars) == multiset(old(r.cars))
      ensures forall r, c :: r in t.races && c in r.cars ==> c.MotionState() == AT_REST
      ensures forall r, c :: r in t.races && c in old(r.cars) ==> c.score >= old(c.score) && c.garage == old(c.garage)
      ensures multiset(t.roster) == multiset(old(t.roster))
      ensures forall i, j :: 0 <= i < j < |t.roster| ==> t.roster[i].score >= t.roster[j].score
    {
      RunRaces(t, oracles);
      t.RankRoster();
    }

    /** The race loop of `startSelectedTournament`. */
    static method RunRaces(t: Tournament, oracles: nat -> Oracle)
      modifies set r | r in t.races, set r, c | r in t.races && c in r.cars :: c
      ensures forall r :: r in t.races ==> r.garages == old(r.garages) && multiset(r.cars) == multiset(old(r.cars))
      ensures forall r, c :: r in t.races && c in r.cars ==> c.MotionState() == AT_REST
      ensures forall r, c :: r in t.races && c in old(r.cars) ==> c.score >= old(c.score) && c.garage == old(c.garage)
    {
      var races := t.races;
      var i := 0;
      while i < |races|
        invariant 0 <= i <= |races|
        invariant forall r :: r in races ==> r.garages == old(r.garages) && multiset(r.cars) == multiset(old(r.cars))
        invariant forall r, c :: r in races && c in old(r.cars) ==> c.score >= old(c.score) && c.garage == old(c.garage)
        invariant forall k, c :: 0 <= k < i && c in races[k].cars ==> c.MotionState() == AT_REST
      {
        var r := races[i];
        assert forall c :: c in r.cars ==> c in multiset(old(r.cars)) && c in old(r.cars);
        label before:
        RunRaceAmong(races, i, oracles(i));
        assert forall r, c :: r in races && c in old(r.cars) ==> c in old@before(r.cars) by {
          forall r, c | r in races && c in old(r.cars) ensures c in old@before(r.cars) {
            assert c in multiset(old@before(r.cars));
          }
        }
        i := i + 1;
      }
    }

    /** Race `i` of the loop: it is run, scored and reset, and what the loop
        keeps of the other races stays as it was. */
    static method RunRaceAmong(races: seq<Race>, i: nat, oracle: Oracle)
      requires i < |races|
      modifies races[i], set c | c in races[i].cars
      ensures forall r :: r in races ==> r.garages == old(r.garages) && multiset(r.cars) == multiset(old(r.cars))
      ensures forall r, c :: r in races && c in old(r.cars) ==> c.score >= old(c.score) && c.garage == old(c.garage)
      ensures forall c :: c in races[i].cars ==> c.MotionState() == AT_REST
      ensures forall r, c :: r in races && c in r.cars && c !in races[i].cars ==> c.MotionState() == old(c.MotionState())
    {
      var r := races[i];
      assert forall c :: c in r.cars ==> c in multiset(old(r.cars)) && c in old(r.cars);
      RunRace(r, oracle);
      assert forall c :: c in old(r.cars) ==> c in multiset(r.cars) && c in r.cars;
    }

    /** The body of the `startSelectedTournament` loop for one race:
        `startRace`, `givePoints`, `resetCars`.  The race's cars end in the
        order of the ranking, at rest, each with the awards of its places
        added to its score. */
    static method RunRace(r: Race, oracle: Oracle)
      modifies r, set c | c in r.cars
      ensures r.garages == old(r.garages) && multiset(r.cars) == multiset(old(r.cars))
      ensures forall c :: c in r.cars ==> c.MotionState() == AT_REST
      ensures forall c :: c in old(r.cars) ==>
        c.score == old(c.score) + PointsUpTo(r.cars, c, Places(r.kind, |r.cars|), Award(r.kind)) &&
        c.score >= old(c.score) && c.garage == old(c.garage)
    {
      ghost var eliminated := r.StartRace(oracle);
      r.GivePoints();
      assert forall c :: c in r.cars ==> c in multiset(old(r.cars));
      r.ResetCars();
      forall c | c in old(r.cars)
        ensures PointsUpTo(r.cars, c, Places(r.kind, |r.cars|), Award(r.kind)) >= 0
      {
        RacePointsNonNegative(r.kind, r.cars, c);
      }
    }
  }
}
