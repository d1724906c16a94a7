/** `race/ScoreCar.java`: a car's motion, its score, its identity (brand, model
    and garage, compared ignoring case) and its JSON form.

    Distance is kept exactly, in thousandths of a metre: one tick at velocity
    `v` (km/h) covers `v * 16.667` metres, that is `v * 16667` thousandths. */
module Cars {
  import opened Wrappers
  import opened Text
  import opened Json
  import opened Utils

  const MAX_SPEED: int := 200
  const SPEED_STEP: int := 5
  /** Thousandths of a metre covered in one tick per km/h of velocity. */
  const DISTANCE_FACTOR: int := 16667

  const BRAND_KEY: string := "brand"
  const MODEL_KEY: string := "model"
  const GARAGE_KEY: string := "garage"

  // ---------------------------------------------------------------------------
  // Motion

  /** Velocity in km/h and distance in thousandths of a metre. */
  datatype Motion = Motion(velocity: int, distance: int)

  const AT_REST: Motion := Motion(0, 0)

  /** The states a car can reach from rest: a velocity on the 5 km/h grid
      between 0 and `MAX_SPEED`, and a distance that is not negative. */
  predicate ValidMotion(m: Motion) {
    0 <= m.velocity <= MAX_SPEED && m.velocity % SPEED_STEP == 0 && m.distance >= 0
  }

  /** `accelerate`: one step faster unless the car is at top speed, then the
      distance of one tick at the new velocity. */
  function Accelerated(m: Motion): (r: Motion)
    ensures r.velocity > m.velocity <==> m.velocity < MAX_SPEED
    ensures r.distance - m.distance == r.velocity * DISTANCE_FACTOR
    ensures ValidMotion(m) ==> ValidMotion(r) && r.velocity == Min(m.velocity + SPEED_STEP, MAX_SPEED)
  {
    var v := if m.velocity < MAX_SPEED then m.velocity + SPEED_STEP else m.velocity;
    Motion(v, m.distance + v * DISTANCE_FACTOR)
  }

  /** `brake`: one step slower unless the car is stopped, then the distance of
      one tick at the new velocity. */
  function Braked(m: Motion): (r: Motion)
    ensures r.velocity < m.velocity <==> m.velocity > 0
    ensures r.distance - m.distance == r.velocity * DISTANCE_FACTOR
    ensures ValidMotion(m) ==> ValidMotion(r) && r.velocity == Max(m.velocity - SPEED_STEP, 0)
  {
    var v := if m.velocity > 0 then m.velocity - SPEED_STEP else m.velocity;
    Motion(v, m.distance + v * DISTANCE_FACTOR)
  }

  /** `driveInRace(option)`: a non-zero option accelerates, zero brakes.  The two
      moves never agree, so the result tells which one was taken. */
  function Driven(m: Motion, option: int): (r: Motion)
    ensures r.distance - m.distance == r.velocity * DISTANCE_FACTOR
    ensures ValidMotion(m) ==> ValidMotion(r) && r.distance >= m.distance
    ensures ValidMotion(m) ==>
      r.velocity == (if option != 0 then Min(m.velocity + SPEED_STEP, MAX_SPEED) else Max(m.velocity - SPEED_STEP, 0))
  {
    if option != 0 then Accelerated(m) else Braked(m)
  }

  /** Driving accelerates exactly when the option is not zero and brakes
      exactly when it is, and it keeps a reachable state reachable without
      losing distance. */
  lemma DrivenSpec(m: Motion, option: int)
    ensures Driven(m, option) == Accelerated(m) <==> option != 0
    ensures Driven(m, option) == Braked(m) <==> option == 0
    ensures ValidMotion(m) ==> ValidMotion(Driven(m, option)) && Driven(m, option).distance >= m.distance
  {
    AcceleratedIsNotBraked(m);
  }

  lemma AcceleratedIsNotBraked(m: Motion)
    ensures Accelerated(m) != Braked(m)
  {
    if m.velocity < MAX_SPEED {
      assert Accelerated(m).velocity > m.velocity >= Braked(m).velocity;
    } else {
      assert Braked(m).velocity < m.velocity == Accelerated(m).velocity;
    }
  }

  /** The motion after driving with each option in turn. */
  function DrivenBy(m: Motion, options: seq<int>): Motion
    decreases |options|
  {
    if options == [] then m
    else Driven(DrivenBy(m, options[..|options| - 1]), options[|options| - 1])
  }

  /** Driving with `a` and then with `b` is driving with `a + b`. */
  lemma {:induction false} DrivenByAppend(m: Motion, a: seq<int>, b: seq<int>)
    ensures DrivenBy(m, a + b) == DrivenBy(DrivenBy(m, a), b)
    decreases |b|
  {
    if b == [] {
      assert a + b == a;
    } else {
      var b' := b[..|b| - 1];
      assert (a + b)[..|a + b| - 1] == a + b';
      DrivenByAppend(m, a, b');
    }
  }

  /** Whatever the options, a car that starts in a reachable state stays on the
      velocity grid within [0, MAX_SPEED] and never loses distance. */
  lemma {:induction false} DrivenByValid(m: Motion, options: seq<int>)
    requires ValidMotion(m)
    ensures ValidMotion(DrivenBy(m, options))
    ensures DrivenBy(m, options).distance >= m.distance
    decreases |options|
  {
    if options != [] {
      DrivenByValid(m, options[..|options| - 1]);
      DrivenSpec(DrivenBy(m, options[..|options| - 1]), options[|options| - 1]);
    }
  }

  /** A car driven from rest by any options is in a valid state. */
  lemma FromRestValid(options: seq<int>)
    ensures ValidMotion(DrivenBy(AT_REST, options))
  {
    DrivenByValid(AT_REST, options);
  }

  // ---------------------------------------------------------------------------
  // Identity and JSON form

  /** What `equals` and the JSON form look at: brand, model and garage name. */
  datatype CarInfo = CarInfo(brand: string, model: string, garage: string)

  /** `ScoreCar.equals`: brand, model and garage all equal ignoring case. */
  predicate SameCar(a: CarInfo, b: CarInfo) {
    EqualsIgnoreCase(a.brand, b.brand) && EqualsIgnoreCase(a.model, b.model) &&
    EqualsIgnoreCase(a.garage, b.garage)
  }

  /** `equals` is an equivalence, so `contains` and `remove` on car lists
      do not depend on which side the argument is. */
  lemma SameCarEquivalence(a: CarInfo, b: CarInfo, c: CarInfo)
    ensures SameCar(a, a)
    ensures SameCar(a, b) ==> SameCar(b, a)
    ensures SameCar(a, b) && SameCar(b, c) ==> SameCar(a, c)
  {
  }

  /** `getDetails`: brand and model, then the garage in parentheses when the
      car has one. */
  function Details(c: CarInfo): (s: string)
    ensures |s| >= |c.brand| + 1 + |c.model|
    ensures s[..|c.brand| + 1 + |c.model|] == c.brand + " " + c.model
    ensures |s| == |c.brand| + 1 + |c.model| <==> c.garage == ""
    ensures c.garage != "" ==> s[|c.brand| + 1 + |c.model|..] == " (" + c.garage + ")"
  {
    var head := c.brand + " " + c.model;
    if c.garage != "" then head + " (" + c.garage + ")" else head
  }

  /** `exportCarToJson`: one string field per identity field. */
  function EncodeCar(c: CarInfo): (j: Json)
    ensures j.JObject? && j.fields.Keys == {BRAND_KEY, MODEL_KEY, GARAGE_KEY}
  {
    JObject(map[BRAND_KEY := JString(c.brand), MODEL_KEY := JString(c.model),
                GARAGE_KEY := JString(c.garage)])
  }

  /** `importCarFromJson` (with the cast of its argument to `JSONObject`): the
      three fields are read as strings.  A number, a list or an object fails
      the cast; a missing field or a JSON `null`, which the cast lets through
      as a `null` string, is refused as well, because the model has no `null`
      strings. */
  function DecodeCar(j: Json): (r: Option<CarInfo>)
    ensures r.Some? <==>
      j.JObject? && Get(j.fields, BRAND_KEY).JString? && Get(j.fields, MODEL_KEY).JString? &&
      Get(j.fields, GARAGE_KEY).JString?
    ensures r.Some? ==>
      r.value == CarInfo(Get(j.fields, BRAND_KEY).s, Get(j.fields, MODEL_KEY).s, Get(j.fields, GARAGE_KEY).s)
  {
    if !j.JObject? then None
    else
      match (AsString(Get(j.fields, BRAND_KEY)), AsString(Get(j.fields, MODEL_KEY)),
             AsString(Get(j.fields, GARAGE_KEY)))
      case (Some(brand), Some(model), Some(garage)) => Some(CarInfo(brand, model, garage))
      case _ => None
  }

  /** The import reads back exactly what the export wrote. */
  lemma DecodeEncodeCar(c: CarInfo)
    ensures DecodeCar(EncodeCar(c)) == Some(c)
  {
    var f := EncodeCar(c).fields;
    assert Get(f, BRAND_KEY) == JString(c.brand);
    assert Get(f, MODEL_KEY) == JString(c.model);
    assert Get(f, GARAGE_KEY) == JString(c.garage);
  }

  /** A car read inside a garage: brand and model as for `DecodeCar`, the garage
      field may also be missing (the garage overwrites it right away), and the
      car takes the garage's name. */
  function DecodeCarIn(j: Json, garage: string): (r: Option<CarInfo>)
    ensures r.Some? ==> r.value.garage == garage
    ensures DecodeCar(j).Some? ==> r == Some(DecodeCar(j).value.(garage := garage))
  {
    if !j.JObject? then None
    else
      var g := Get(j.fields, GARAGE_KEY);
      match (AsString(Get(j.fields, BRAND_KEY)), AsString(Get(j.fields, MODEL_KEY)))
      case (Some(brand), Some(model)) =>
        if g.JNull? || g.JString? then Some(CarInfo(brand, model, garage)) else None
      case _ => None
  }

  // ---------------------------------------------------------------------------
  // The car object

  class Car {
    const brand: string
    const model: string
    var garage: string
    var velocity: int
    /** In thousandths of a metre. */
    var distance: int
    var score: int

    /** `new ScoreCar(brand, model)`: at rest, no score, no garage. */
    constructor (brand: string, model: string)
      ensures this.brand == brand && this.model == model && garage == ""
      ensures velocity == 0 && distance == 0 && score == 0
    {
      this.brand := brand;
      this.model := model;
      garage := "";
      velocity := 0;
      distance := 0;
      score := 0;
    }

    function MotionState(): Motion
      reads this
    {
      Motion(velocity, distance)
    }

    function Info(): CarInfo
      reads this
    {
      CarInfo(brand, model, garage)
    }

    /** `equals`: brand, model and garage agree letter by letter once
        lower-cased. */
    predicate Equals(other: Car)
      reads this, other
      ensures Equals(other) <==>
        |brand| == |other.brand| && |model| == |other.model| && |garage| == |other.garage| &&
        (forall i :: 0 <= i < |brand| ==> Lower(brand[i]) == Lower(other.brand[i])) &&
        (forall i :: 0 <= i < |model| ==> Lower(model[i]) == Lower(other.model[i])) &&
        (forall i :: 0 <= i < |garage| ==> Lower(garage[i]) == Lower(other.garage[i]))
    {
      EqualsIgnoreCaseCharwise(brand, other.brand);
      EqualsIgnoreCaseCharwise(model, other.model);
      EqualsIgnoreCaseCharwise(garage, other.garage);
      SameCar(Info(), other.Info())
    }

    /** `getDetails`: "brand model", then " (garage)" when the car has one. */
    function GetDetails(): (s: string)
      reads this
      ensures |s| >= |brand| + 1 + |model| && s[..|brand| + 1 + |model|] == brand + " " + model
      ensures garage == "" ==> |s| == |brand| + 1 + |model|
      ensures garage != "" ==> s[|brand| + 1 + |model|..] == " (" + garage + ")"
    {
      Details(Info())
    }

    /** `exportCarToJson`: the import reads back this car's brand, model and
        garage. */
    function Export(): (j: Json)
      reads this
      ensures j.JObject? && j.fields.Keys == {BRAND_KEY, MODEL_KEY, GARAGE_KEY}
      ensures DecodeCar(j) == Some(Info())
    {
      DecodeEncodeCar(Info());
      EncodeCar(Info())
    }

    method Accelerate()
      modifies this
      ensures MotionState() == Accelerated(old(MotionState()))
      ensures garage == old(garage) && score == old(score)
    {
      if velocity < MAX_SPEED {
        velocity := velocity + SPEED_STEP;
      }
      distance := distance + velocity * DISTANCE_FACTOR;
    }

    method Brake()
      modifies this
      ensures MotionState() == Braked(old(MotionState()))
      ensures garage == old(garage) && score == old(score)
    {
      if velocity > 0 {
        velocity := velocity - SPEED_STEP;
      }
      distance := distance + velocity * DISTANCE_FACTOR;
    }

    method DriveInRace(option: int)
      modifies this
      ensures MotionState() == Driven(old(MotionState()), option)
      ensures garage == old(garage) && score == old(score)
    {
      if option != 0 {
        Accelerate();
      } else {
        Brake();
      }
    }

    method AddScore(points: int)
      modifies this
      ensures score == old(score) + points
      ensures MotionState() == old(MotionState()) && garage == old(garage)
    {
      score := score + points;
    }

    /** `restartCounters`: back at rest, the score is kept.  Running it twice
        leaves the same state as running it once. */
    method RestartCounters()
      modifies this
      ensures MotionState() == AT_REST
      ensures score == old(score) && garage == old(garage)
    {
      velocity := 0;
      distance := 0;
    }

    /** `restartScore`: only the score goes back to 0. */
    method RestartScore()
      modifies this
      ensures score == 0
      ensures MotionState() == old(MotionState()) && garage == old(garage)
    {
      score := 0;
    }

    method SetGarage(name: string)
      modifies this
      ensures garage == name
      ensures MotionState() == old(MotionState()) && score == old(score)
    {
      garage := name;
    }

    /** A new car with the given identity, as the imports build it. */
    static method Build(info: CarInfo) returns (c: Car)
      ensures fresh(c) && c.Info() == info
      ensures c.MotionState() == AT_REST && c.score == 0
    {
      c := new Car(info.brand, info.model);
      c.SetGarage(info.garage);
    }

    /** `importCarFromJson`: fails exactly when `DecodeCar` does; otherwise a new
        car at rest with no score and the decoded identity. */
    static method Import(j: Json) returns (c: Option<Car>)
      ensures c.Some? <==> DecodeCar(j).Some?
      ensures c.Some? ==> fresh(c.value) && c.value.Info() == DecodeCar(j).value
      ensures c.Some? ==> c.value.MotionState() == AT_REST && c.value.score == 0
    {
      var info := DecodeCar(j);
      if info.None? {
        return None;
      }
      var car := Build(info.value);
      return Some(car);
    }
  }

  /** The identities of a list of cars, position by position. */
  function Infos(cs: seq<Car>): (r: seq<CarInfo>)
    reads set c | c in cs
    ensures |r| == |cs|
    ensures forall i :: 0 <= i < |cs| ==> r[i] == cs[i].Info()
  {
    seq(|cs|, i reads set c | c in cs requires 0 <= i < |cs| => cs[i].Info())
  }
}
