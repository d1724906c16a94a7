/** `race/Garage.java`: a named list of cars.  Registering a car stamps it with
    the garage's name; garages compare by name ignoring case; one car can be
    drawn from the list; and the garage has two JSON forms, by name only and
    with its cars. */
module Garages {
  import opened Wrappers
  import opened Text
  import opened Json
  import opened Utils
  import opened Lists
  import opened Cars

  const NAME_KEY: string := "name"
  const CAR_LIST_KEY: string := "carList"

  /** A garage as its JSON form carries it. */
  datatype GarageRec = GarageRec(name: string, cars: seq<CarInfo>)

  /** The cars as `registerCarToGarage` leaves them: each takes the garage's
      name, brand and model are kept. */
  function Stamp(cars: seq<CarInfo>, name: string): (r: seq<CarInfo>)
    ensures |r| == |cars|
    ensures forall i :: 0 <= i < |cars| ==>
      r[i] == CarInfo(cars[i].brand, cars[i].model, name)
  {
    seq(|cars|, i requires 0 <= i < |cars| => cars[i].(garage := name))
  }

  /** Stamping cars that already carry the name changes nothing. */
  lemma StampStamped(cars: seq<CarInfo>, name: string)
    requires forall i :: 0 <= i < |cars| ==> cars[i].garage == name
    ensures Stamp(cars, name) == cars
  {
  }

  // ---------------------------------------------------------------------------
  // JSON form

  /** `exportGarageToJson`: the name only. */
  function EncodeGarageName(name: string): (j: Json)
    ensures j.JObject? && j.fields.Keys == {NAME_KEY}
  {
    JObject(map[NAME_KEY := JString(name)])
  }

  function EncodeCars(cs: seq<CarInfo>): (js: seq<Json>)
    ensures |js| == |cs|
    ensures forall i :: 0 <= i < |cs| ==> js[i] == EncodeCar(cs[i])
  {
    seq(|cs|, i requires 0 <= i < |cs| => EncodeCar(cs[i]))
  }

  /** `exportGarageWithCarsToJson`: the name and the list of car exports. */
  function EncodeGarage(g: GarageRec): (j: Json)
    ensures j.JObject? && j.fields.Keys == {NAME_KEY, CAR_LIST_KEY}
  {
    JObject(map[NAME_KEY := JString(g.name), CAR_LIST_KEY := JArray(EncodeCars(g.cars))])
  }

  /** The cars of a garage's `carList`, each stamped with the garage's name;
      the first element that is not a readable car makes the whole list fail. */
  function DecodeCarsIn(items: seq<Json>, name: string): (r: Option<seq<CarInfo>>)
    ensures r.Some? <==> forall i :: 0 <= i < |items| ==> DecodeCarIn(items[i], name).Some?
    ensures r.Some? ==> |r.value| == |items|
    ensures r.Some? ==> forall i :: 0 <= i < |items| ==> r.value[i] == DecodeCarIn(items[i], name).value
  {
    var f := (j: Json) => DecodeCarIn(j, name);
    DecodeAllSpec(items, f);
    DecodeAll(items, f)
  }

  /** `importGarageFromJSONObject`: the name must be a string; a missing
      `carList` gives a garage without cars, any other non-array fails the
      cast.  Every decoded car carries the garage's name. */
  function DecodeGarage(j: Json): (r: Option<GarageRec>)
    ensures r.Some? ==> j.JObject? && Get(j.fields, NAME_KEY) == JString(r.value.name)
    ensures r.Some? ==> forall i :: 0 <= i < |r.value.cars| ==> r.value.cars[i].garage == r.value.name
    ensures r.Some? && Get(j.fields, CAR_LIST_KEY) == JNull ==> r.value.cars == []
  {
    if !j.JObject? then None
    else
      match AsString(Get(j.fields, NAME_KEY))
      case None => None
      case Some(name) =>
        var list := Get(j.fields, CAR_LIST_KEY);
        if list == JNull then Some(GarageRec(name, []))
        else if !list.JArray? then None
        else
          match DecodeCarsIn(list.items, name)
          case None => None
          case Some(cars) => Some(GarageRec(name, cars))
  }

  lemma DecodeEncodeCarsIn(cs: seq<CarInfo>, name: string)
    ensures DecodeCarsIn(EncodeCars(cs), name) == Some(Stamp(cs, name))
  {
    var js := EncodeCars(cs);
    forall i | 0 <= i < |cs| ensures DecodeCarIn(js[i], name) == Some(Stamp(cs, name)[i]) {
      DecodeEncodeCar(cs[i]);
    }
    assert DecodeCarsIn(js, name).value == Stamp(cs, name);
  }

  /** Importing the export with cars gives a garage of the same name whose cars
      are the same cars, in the same order, each carrying that name. */
  lemma DecodeEncodeGarage(g: GarageRec)
    ensures DecodeGarage(EncodeGarage(g)) == Some(GarageRec(g.name, Stamp(g.cars, g.name)))
  {
    var f := EncodeGarage(g).fields;
    assert Get(f, NAME_KEY) == JString(g.name);
    assert Get(f, CAR_LIST_KEY) == JArray(EncodeCars(g.cars));
    DecodeEncodeCarsIn(g.cars, g.name);
  }

  /** Importing the name-only export gives a garage of that name with no cars. */
  lemma DecodeEncodeGarageName(name: string)
    ensures DecodeGarage(EncodeGarageName(name)) == Some(GarageRec(name, []))
  {
    var f := EncodeGarageName(name).fields;
    assert Get(f, NAME_KEY) == JString(name);
    assert CAR_LIST_KEY !in f;
  }

  // ---------------------------------------------------------------------------
  // The garage object

  class Garage {
    const name: string
    var cars: seq<Car>

    /** `new Garage(name)`: no cars. */
    constructor (name: string)
      ensures this.name == name && cars == []
    {
      this.name := name;
      cars := [];
    }

    /** `equals`: the names agree letter by letter once lower-cased; the cars
        play no part. */
    predicate Equals(other: Garage)
      ensures Equals(other) <==>
        |name| == |other.name| && forall i :: 0 <= i < |name| ==> Lower(name[i]) == Lower(other.name[i])
    {
      EqualsIgnoreCaseCharwise(name, other.name);
      EqualsIgnoreCase(name, other.name)
    }

    function Rec(): GarageRec
      reads this, set c | c in cars
    {
      GarageRec(name, Infos(cars))
    }

    /** `exportGarageToJson`: importing it gives a garage of this name
        with no cars. */
    function ExportName(): (j: Json)
      ensures DecodeGarage(j) == Some(GarageRec(name, []))
    {
      DecodeEncodeGarageName(name);
      EncodeGarageName(name)
    }

    /** `exportGarageWithCarsToJson`: importing it gives this garage's name and its
        cars in order, each carrying the garage's name. */
    function ExportWithCars(): (j: Json)
      reads this, set c | c in cars
      ensures DecodeGarage(j) == Some(GarageRec(name, Stamp(Infos(cars), name)))
    {
      DecodeEncodeGarage(Rec());
      EncodeGarage(Rec())
    }

    /** Every car of the garage carries the garage's name, as
        `registerCarToGarage` leaves it. */
    ghost predicate Stamped()
      reads this, set c | c in cars
    {
      forall i :: 0 <= i < |cars| ==> cars[i].garage == name
    }

    /** `getRandomCarFromList`: the draw picks an index between 0 and the last
        position; an empty garage has no car to give. */
    function PickCar(draw: nat): (c: Car)
      reads this
      requires |cars| > 0
      ensures c in cars
    {
      cars[RandomInRange(0, |cars| - 1, draw)]
    }

    /** `registerCarToGarage`: the car takes the garage's name and goes at the
        end; the cars before it are the same. */
    method RegisterCar(c: Car)
      modifies this, c
      ensures cars == old(cars) + [c]
      ensures c.garage == name
      ensures c.MotionState() == old(c.MotionState()) && c.score == old(c.score)
    {
      c.SetGarage(name);
      cars := cars + [c];
    }

    /** `removeCarFromGarage`: the first car equal to `c` goes; without one the
        list is unchanged. */
    method RemoveCar(c: Car)
      modifies this
      ensures var k := old(FirstMatch(Infos(cars), c.Info(), SameCar));
        cars == if k < |old(cars)| then old(cars[..k] + cars[k + 1..]) else old(cars)
    {
      var k := FirstMatch(Infos(cars), c.Info(), SameCar);
      if k < |cars| {
        cars := cars[..k] + cars[k + 1..];
      }
    }

    /** A new garage holding new cars with the record's identities, each
        registered in turn. */
    static method Build(rec: GarageRec) returns (g: Garage)
      ensures fresh(g) && g.name == rec.name
      ensures Infos(g.cars) == Stamp(rec.cars, rec.name)
      ensures forall c :: c in g.cars ==> fresh(c) && c.MotionState() == AT_REST && c.score == 0
      ensures g.Stamped()
    {
      g := new Garage(rec.name);
      var i := 0;
      while i < |rec.cars|
        invariant 0 <= i <= |rec.cars|
        invariant fresh(g) && |g.cars| == i
        invariant forall k :: 0 <= k < i ==> g.cars[k].Info() == Stamp(rec.cars, rec.name)[k]
        invariant forall c :: c in g.cars ==> fresh(c) && c.MotionState() == AT_REST && c.score == 0
      {
        var car := Car.Build(rec.cars[i]);
        g.RegisterCar(car);
        i := i + 1;
      }
    }

    /** `importGarageFromJSONObject`: fails exactly when `DecodeGarage` does;
        otherwise a new garage with new cars, at rest, with the decoded
        identities. */
    static method Import(j: Json) returns (g: Option<Garage>)
      ensures g.Some? <==> DecodeGarage(j).Some?
      ensures g.Some? ==> fresh(g.value) && g.value.Rec() == DecodeGarage(j).value
      ensures g.Some? ==> forall c :: c in g.value.cars ==> fresh(c) && c.MotionState() == AT_REST
    {
      var rec := DecodeGarage(j);
      if rec.None? {
        return None;
      }
      StampStamped(rec.value.cars, rec.value.name);
      var garage := Build(rec.value);
      return Some(garage);
    }
  }

  /** `PickCar` on each garage in turn, with the i-th draw for the i-th garage:
      what the loop over the garages collects. */
  function PickEach(gs: seq<Garage>, draws: nat -> nat): (r: seq<Car>)
    reads set g | g in gs
    requires forall i :: 0 <= i < |gs| ==> |gs[i].cars| > 0
    ensures |r| == |gs|
    ensures forall i :: 0 <= i < |gs| ==> r[i] == gs[i].PickCar(draws(i))
    decreases |gs|
  {
    if gs == [] then []
    else PickEach(gs[..|gs| - 1], draws) + [gs[|gs| - 1].PickCar(draws(|gs| - 1))]
  }

  /** Every car of a garage is the pick of some draw. */
  lemma PickCarReaches(g: Garage, k: nat)
    requires k < |g.cars|
    ensures g.PickCar(k) == g.cars[k]
  {
    RandomInRangeReaches(0, |g.cars| - 1, k);
  }

  /** Each picked car belongs to the garage it was drawn from. */
  lemma PickEachFromGarage(gs: seq<Garage>, draws: nat -> nat)
    requires forall i :: 0 <= i < |gs| ==> |gs[i].cars| > 0
    ensures forall i :: 0 <= i < |gs| ==> PickEach(gs, draws)[i] in gs[i].cars
  {
  }

  /** The names of a list of garages, position by position. */
  function Names(gs: seq<Garage>): (r: seq<string>)
    ensures |r| == |gs|
    ensures forall i :: 0 <= i < |gs| ==> r[i] == gs[i].name
  {
    seq(|gs|, i requires 0 <= i < |gs| => gs[i].name)
  }

  /** Exporting a garage with its cars and importing it again gives an equal
      garage whose cars equal the originals one by one, in order, each carrying
      the garage's name. */
  lemma ImportExportGarage(g: Garage)
    ensures DecodeGarage(g.ExportWithCars()).Some?
    ensures var r := DecodeGarage(g.ExportWithCars()).value;
      r.name == g.name && |r.cars| == |g.cars| &&
      forall i :: 0 <= i < |g.cars| ==>
        r.cars[i] == CarInfo(g.cars[i].brand, g.cars[i].model, g.name)
    ensures g.Stamped() ==> DecodeGarage(g.ExportWithCars()) == Some(g.Rec())
  {
    DecodeEncodeGarage(g.Rec());
    if g.Stamped() {
      StampStamped(Infos(g.cars), g.name);
    }
  }
}
