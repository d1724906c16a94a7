# Racing tournament engine, modelled in Dafny

This project models the engine of a small racing-tournament application written in Java. The model covers:

- **Cars.** A `ScoreCar` speeds up and slows down in steps of 5 km/h between 0 and 200 km/h. It adds up distance and collects points. Two cars are equal when brand, model and garage match ignoring case.
- **Garages.** A `Garage` stamps the cars it registers with its own name. Garages compare by name ignoring case. A garage can hand out one car picked at random.
- **Races.** A race is a `StandardRace` or a `DeathRace`.
  - A race picks its cars from its garages.
  - A StandardRace drives its cars for `hours * 60` ticks and pays 5/3/1 points to the first three.
  - A DeathRace drives its cars for some warm-up laps. It then eliminates the slowest car, one per lap, until one car is left, and pays each car its place in the ascending ranking.
- **Tournaments.** A `Tournament` pushes its garages and one shared roster of car objects into every race. It ranks the roster by points at the end.
- **Import and export.** Cars, garages, races and tournaments are exported to a JSON tree and read back from one. The application object `Control` imports data by merging it into its lists without repeating entries.
- **Selection steps.** `Control` also performs the steps that run after a menu selection: cloning races into a tournament, filling its roster, and running it.

Each Java class becomes a Dafny module.

| module | models |
|---|---|
| `Cars` | `ScoreCar` |
| `Garages` | `Garage` |
| `Races` | `Race`, `StandardRace` and `DeathRace`, as one class tagged with its kind |
| `Tournaments` | `Tournament` |
| `Control` | the non-interactive part of `Control` |
| `Comparators` | the two comparators |
| `Utils` | `Utils` |

The remaining modules are supporting definitions:

- `Rounds`: the driving loops;
- `Awards`: the points tables;
- `Sorting`: stable sort and reverse;
- `Lists`: `contains`, `remove` and append-if-absent;
- `Json`: a JSON tree;
- `Text`: case-insensitive comparison;
- `Wrappers`: `Option`.

The objects keep their Java identities, so the aliasing the code relies on is modelled:

- cars, garages, races, tournaments and the application are classes whose methods update their fields;
- a race and its tournament's roster hold the same car objects, so points earned in one race carry into the next.

Distance is kept exactly, as an integer in thousandths of a metre. One tick at `v` km/h adds `v * 16667`. Randomness is an oracle passed in as a parameter:

- the drive option of each car in each tick;
- the index drawn from each garage.

Java's 32-bit `int` arithmetic is written out where the core relies on it:

- the narrowing of the imported race parameter;
- `hours * 60`;
- the `- 1` of `parseIntArray`.

A JSON value, field or cast that the Java code would crash on makes the Dafny decoder return `None`. The crash cases are:

- a type that does not match;
- a missing list that is iterated;
- a field that is absent where a string is required.

An import that reads an array element by element stops at the first element that fails, exactly where the exception would stop the loop.

These behaviours of the code are modelled as written, even where a reader might expect otherwise:

- **`registerCars()`.**
  - With several garages it appends one car per garage without clearing the list first (`Races.Race.RegisterCars`).
  - With one garage the list is replaced.
- **DeathRace elimination laps.** Every car of the race's list is driven in each lap, eliminated cars included (`Races.Race.Eliminations`).
- **Sort-then-reverse.** Tied cars come out in the reverse of their order before the sort (`Sorting.SortAndReverseFlipsTies`). For example, scores 5, 5, 3 for A, B, C rank as B, A, C.
- **`importTournamentData`.** `Tournament` defines no `equals`, so `contains` compares references. Every imported tournament is therefore appended (`Control.Control.ImportTournamentData`).

## Model

| member | source | states |
|---|---|---|
| Cars.Accelerated | src/main/java/race/ScoreCar.java:85-90 | velocity rises exactly when it is below 200, and then by 5, capped at 200; the distance grows by the new velocity times 16.667 m; a reachable state stays reachable |
| Cars.Braked | src/main/java/race/ScoreCar.java:109-114 | velocity falls exactly when it is above 0, and then by 5, not below 0; the distance grows by the new velocity times 16.667 m; a reachable state stays reachable |
| Cars.Driven | src/main/java/race/ScoreCar.java:136-142 | the distance grows by the new velocity times 16.667 m; from a reachable state, a nonzero option raises the velocity by 5 up to 200 and option 0 lowers it by 5 down to 0, and the state stays reachable without losing distance |
| Cars.DrivenSpec | src/main/java/race/ScoreCar.java:136-142 | driving accelerates if and only if the option is not 0 and brakes if and only if it is 0; from a reachable state it never loses distance |
| Cars.DrivenByValid | src/main/java/race/ScoreCar.java:85-142 | under any sequence of drive options, velocity stays a multiple of 5 within [0, 200] and distance never decreases |
| Cars.FromRestValid | src/main/java/race/ScoreCar.java:43-63 | a car starting at the initial velocity and distance 0 is in a valid state after any sequence of drive options |
| Cars.SameCarEquivalence | src/main/java/race/ScoreCar.java:149-158 | car equality (brand, model and garage ignoring case) is reflexive, symmetric and transitive |
| Text.EqualsIgnoreCaseCharwise | src/main/java/race/ScoreCar.java:151-153 | two strings are equal ignoring case if and only if they have the same length and agree character by character after lower-casing |
| Cars.Details | src/main/java/race/ScoreCar.java:188-200 | the details start with brand, a space and model; they are exactly that long if and only if the car has no garage, and otherwise " (", the garage and ")" follow |
| Cars.EncodeCar | src/main/java/race/ScoreCar.java:165-171 | the export is an object with exactly the keys brand, model and garage |
| Cars.DecodeCar | src/main/java/race/ScoreCar.java:331-341 | the import succeeds if and only if it is given an object whose three fields are strings, and then yields exactly those three strings; a missing or `null` field is refused (see "Left out") |
| Cars.DecodeEncodeCar | src/main/java/race/ScoreCar.java:331-341 | importing an exported identity gives the same identity back |
| Cars.Car.constructor | src/main/java/race/ScoreCar.java:73-76 | a new car has the given brand and model, no garage, and velocity, distance and score all 0 |
| Cars.Car.Accelerate | src/main/java/race/ScoreCar.java:85-90 | the motion becomes `Accelerated` of the old motion; score and garage are unchanged |
| Cars.Car.Brake | src/main/java/race/ScoreCar.java:109-114 | the motion becomes `Braked` of the old motion; score and garage are unchanged |
| Cars.Car.DriveInRace | src/main/java/race/ScoreCar.java:136-142 | the motion becomes `Driven` of the old motion and the option; score and garage are unchanged |
| Cars.Car.AddScore | src/main/java/race/ScoreCar.java:99-101 | the score grows by the points; motion and garage are unchanged |
| Cars.Car.RestartCounters | src/main/java/race/ScoreCar.java:250-253 | velocity and distance become 0; score and garage are kept |
| Cars.Car.RestartScore | src/main/java/race/ScoreCar.java:258-260 | only the score becomes 0 |
| Cars.Car.SetGarage | src/main/java/race/ScoreCar.java:288-290 | only the garage changes |
| Cars.Car.Equals | src/main/java/race/ScoreCar.java:149-158 | two cars are equal if and only if brand, model and garage each have the same length in both and agree character by character after lower-casing |
| Cars.Car.GetDetails | src/main/java/race/ScoreCar.java:188-200 | brand, a space and model, followed by " (", the garage and ")" exactly when the car has a garage |
| Cars.Car.Export | src/main/java/race/ScoreCar.java:165-171 | an object with exactly the keys brand, model and garage, whose import gives this car's brand, model and garage back |
| Cars.Car.Build | src/main/java/race/ScoreCar.java:336-337 | a new car with the given identity, at rest, with no score |
| Cars.Car.Import | src/main/java/race/ScoreCar.java:331-341 | fails exactly when `DecodeCar` fails; otherwise a new car at rest with score 0 and the decoded identity |
| Cars.DecodeCarIn | src/main/java/race/Garage.java:193-199 | a car read inside a garage carries the garage's name; where the plain car import succeeds, it gives that car with the garage's name |
| Comparators.CompareByDistance | src/main/java/utils/ComparatorScoreCarByDistance.java:15-27 | the result is 1 if and only if the first distance is greater, 0 if and only if the distances are equal, and -1 if and only if it is smaller |
| Comparators.CompareByPoints | src/main/java/utils/ComparatorScoreCarByPoints.java:15-27 | the result is -1 if and only if the first score is smaller, 0 if and only if the scores are equal, and 1 if and only if it is greater |
| Comparators.ComparatorsAntisymmetric | src/main/java/utils/ComparatorScoreCarByDistance.java:15-27 | both comparators answer in {-1, 0, 1}, and swapping the arguments negates the answer |
| Comparators.CompareByPointsPreorder | src/main/java/utils/ComparatorScoreCarByPoints.java:15-27 | the points comparator is total and "not after" is transitive |
| Comparators.SortedByDistanceAgrees | src/main/java/race/Race.java:388-390 | after sorting by distance, every earlier car compares as not farther than every later one |
| Comparators.SortedByPointsAgrees | src/main/java/race/Tournament.java:401-404 | after sorting by score, every earlier car compares as not above every later one |
| Comparators.AtRestLevel | src/main/java/race/Race.java:316-320 | cars at rest, as `resetCars` leaves them, have all covered the same distance |
| Comparators.LevelPermutation | src/main/java/race/Race.java:409-412 | a permutation of cars that have all covered the same distance is still level |
| Comparators.LevelRanking | src/main/java/race/StandardRace.java:58 | ranking cars that have all covered the same distance by distance and reversing only reverses them |
| Utils.RandomInRange | src/main/java/utils/Utils.java:31-39 | whatever the draw, the result lies between the smaller and the larger bound |
| Utils.RandomInRangeSymmetric | src/main/java/utils/Utils.java:32-36 | swapping the bounds does not change the result |
| Utils.RandomInRangeReaches | src/main/java/utils/Utils.java:38 | every value between the bounds is the result of some draw |
| Utils.CheckSelectionIsIndex | src/main/java/utils/Utils.java:201-206 | a choice passes the check if and only if the choice minus 1, computed as a Java `int` as `showAndSelectFromList` does, indexes the list, even where the subtraction wraps around; the cancel choice 0 gives -1 |
| Utils.Wrap32 | src/main/java/race/StandardRace.java:131 | Java `int` arithmetic: the result equals the exact value modulo 2^32 and lies in the `int` range; a value already in range is kept |
| Utils.ParseDecimal | src/main/java/utils/Utils.java:183 | `Integer.valueOf` succeeds only on an optional sign followed by at least one digit; unsigned digits parse exactly when their value is below 2^31, and then to that value; a minus sign and digits parse exactly when the value is at most 2^31, and then to its negation |
| Utils.ParseShowInt | src/main/java/utils/Utils.java:183 | `Integer.valueOf` reads back the decimal text of every `int` |
| Utils.ParseIntArray | src/main/java/utils/Utils.java:180-186 | succeeds if and only if every string parses; then the result has the same length, and element k is the k-th parsed value minus 1 (as a Java `int`), in order |
| Lists.FirstMatch | src/main/java/race/Garage.java:161-165 | the position found is the first that the argument equals, or the length when there is none |
| Lists.MergeStep | src/main/java/race/Control.java:411-416 | one more element is appended exactly when the list built so far does not contain it |
| Lists.MergePrefix | src/main/java/race/Control.java:409-417 | the merge keeps the existing list as a prefix and only appends incoming elements, at most one per incoming element |
| Lists.MergeAppend | src/main/java/race/Control.java:409-417 | merging two batches one after the other is merging them together |
| Lists.MergeCovers | src/main/java/race/Control.java:409-417 | after the merge, the list contains every incoming element |
| Lists.MergeNoTwoSame | src/main/java/race/Control.java:409-417 | a list without two equal elements keeps that property through the merge |
| Lists.MergeContained | src/main/java/race/Control.java:409-417 | when the list already contains every incoming element, the merge changes nothing |
| Lists.MergeIdempotent | src/main/java/race/Control.java:409-417 | importing the same data a second time changes nothing |
| Lists.RepeatStep | src/main/java/race/Tournament.java:286-292 | one turn of a loop that appends the same batch to the entry of the i-th key: afterwards every key has the batch appended once per time it occurs among the first i + 1 keys |
| Json.Get | src/main/java/race/ScoreCar.java:332-334 | a missing key reads as null |
| Json.DecodeAllSpec | src/main/java/race/Tournament.java:417-436 | a list decodes exactly when every element does, and then to the decoded elements in order |
| Json.DecodedPrefixSpec | src/main/java/race/Control.java:410-416 | an import loop handles exactly the elements before the first one that fails; the element at that position fails; there is no failure exactly when the whole list decodes |
| Garages.Stamp | src/main/java/race/Garage.java:149-152 | every registered car takes the garage's name; brand and model are kept |
| Garages.StampStamped | src/main/java/race/Garage.java:149-152 | restamping cars that already carry the name changes nothing |
| Garages.EncodeGarageName | src/main/java/race/Garage.java:68-74 | the name-only export has exactly the key name |
| Garages.EncodeGarage | src/main/java/race/Garage.java:82-95 | the export with cars has exactly the keys name and carList, with one car export per car |
| Garages.DecodeCarsIn | src/main/java/race/Garage.java:193-199 | the car list decodes exactly when every car does, and then to those cars in order |
| Garages.DecodeGarage | src/main/java/race/Garage.java:189-201 | an imported garage has the name field as its name, every car carries that name, and a missing carList gives no cars |
| Garages.DecodeEncodeGarage | src/main/java/race/Garage.java:189-201 | importing the export with cars gives the same name and the same cars in the same order, each carrying the garage's name |
| Garages.DecodeEncodeGarageName | src/main/java/race/Garage.java:68-74 | importing the name-only export gives a garage of that name with no cars |
| Garages.ImportExportGarage | src/main/java/race/Garage.java:82-95 | exporting a garage and importing it gives its name and, car by car in order, each car's brand and model with the garage's name; a garage whose cars carry its name comes back unchanged |
| Garages.Garage.constructor | src/main/java/race/Garage.java:46-50 | a new garage has the name and no cars |
| Garages.Garage.PickCar | src/main/java/race/Garage.java:124-129 | for any draw, the car picked is one of the garage's cars; the garage must have a car |
| Garages.PickCarReaches | src/main/java/race/Garage.java:124-129 | every car of the garage is the pick of some draw |
| Garages.Garage.RegisterCar | src/main/java/race/Garage.java:149-152 | the car takes the garage's name and goes at the end; the earlier cars are the same |
| Garages.Garage.RemoveCar | src/main/java/race/Garage.java:161-165 | the first car equal to the argument is removed; without one the list is unchanged |
| Garages.Garage.Equals | src/main/java/race/Garage.java:53-60 | two garages are equal if and only if their names have the same length and agree character by character after lower-casing |
| Garages.Garage.ExportName | src/main/java/race/Garage.java:68-74 | importing the name-only export gives a garage of this name with no cars |
| Garages.Garage.ExportWithCars | src/main/java/race/Garage.java:82-95 | importing the export with cars gives this garage's name and its cars in order, each carrying the garage's name |
| Garages.Garage.Build | src/main/java/race/Garage.java:191-199 | a new garage of the record's name whose new cars are at rest and carry the record's identities stamped with the name |
| Garages.Garage.Import | src/main/java/race/Garage.java:189-201 | fails exactly when `DecodeGarage` fails; otherwise a new garage with new cars at rest and the decoded name and cars |
| Garages.PickEach | src/main/java/race/Race.java:272-276 | one car per garage, in garage order; the i-th car is the i-th garage's pick for the i-th draw |
| Garages.PickEachFromGarage | src/main/java/race/Race.java:272-276 | each picked car belongs to the garage it was drawn from |
| Rounds.DriveOption | src/main/java/race/StandardRace.java:133 | the option drawn for each car lies in [0, 2] |
| Rounds.RoundOptionsLength | src/main/java/race/StandardRace.java:132-134 | in one tick a car is driven once for each position it holds in the list |
| Rounds.TickOptionsLength | src/main/java/race/StandardRace.java:130-137 | over n ticks a car is driven n times per position it holds |
| Rounds.TickOptionsSingle | src/main/java/race/StandardRace.java:130-137 | a car that stands once in the list is driven exactly once per tick, with the draw for its position |
| Rounds.TickOptionsSplit | src/main/java/race/DeathRace.java:117-131 | the options of a ticks followed by b more are those of a + b ticks |
| Rounds.RoundMotionOptions | src/main/java/race/StandardRace.java:132-134 | one tick drives a car with exactly the options of its positions, in list order |
| Rounds.TickMotionOptions | src/main/java/race/StandardRace.java:130-137 | n ticks drive a car with exactly the options of those ticks, in order |
| Rounds.TickMotionSplit | src/main/java/race/DeathRace.java:117-131 | a ticks followed by b more are a + b ticks: the warm-up and the elimination laps chain |
| Rounds.TickMotionValid | src/main/java/race/StandardRace.java:130-137 | however many ticks and whatever the draws, a car in a reachable state stays in one and never loses distance |
| Rounds.TickMotionAbsent | src/main/java/race/StandardRace.java:132-134 | a car that is not in the list is not driven |
| Rounds.TickMotionNext | src/main/java/race/DeathRace.java:127-130 | n + 1 ticks are n ticks followed by one more round over the list at tick from + n |
| Sorting.SortAscPermutation | src/main/java/race/Race.java:388-390 | the sort returns a permutation of its input |
| Sorting.SortAscSorted | src/main/java/race/Race.java:388-390 | the sort returns its input in non-decreasing key order |
| Sorting.SortAscStable | src/main/java/race/Race.java:388-390 | the sort is stable: elements of equal key keep their relative order |
| Sorting.SortAscKeepsTies | src/main/java/race/Race.java:388-390 | two elements of equal key come out in the same order as they went in |
| Sorting.SortAscUnique | src/main/java/race/Race.java:388-390 | any sorted list that keeps every run of equal keys is this sort's result, so the model agrees with the library's stable merge sort |
| Sorting.SortAscHead | src/main/java/race/DeathRace.java:131-132 | after sorting, the front element is the first element of smallest key in the list before the sort |
| Sorting.InsertAgree | src/main/java/race/Race.java:388-390 | inserting into a sorted list looks only at the keys: two keys that agree on the elements give the same result |
| Sorting.SortAscAgree | src/main/java/race/Race.java:388-390 | the sort looks only at the keys: two keys that agree on every element give the same order |
| Sorting.FirstMinIndex | src/main/java/race/DeathRace.java:131-132 | the position returned holds a smallest key, and every earlier position holds a larger one |
| Sorting.ReverseAt | src/main/java/race/Race.java:329-331 | the reversal has the same length and element i is element n - 1 - i of the input |
| Sorting.ReverseMultiset | src/main/java/race/Race.java:329-331 | the reversal is a permutation |
| Sorting.ReverseBefore | src/main/java/race/Race.java:329-331 | x comes before y after the reversal if and only if y came before x |
| Sorting.ReverseReverse | src/main/java/race/Race.java:329-331 | reversing twice gives the list back |
| Sorting.FlipStep | src/main/java/race/Tournament.java:214-221 | one more reversal turns n reversals into n + 1 |
| Sorting.SortAndReverseSpec | src/main/java/race/Race.java:409-412 | sort-then-reverse gives a permutation of the same length in non-increasing key order, each run of equal keys reversed |
| Sorting.SortAndReverseFlipsTies | src/main/java/race/Race.java:409-412 | two elements of equal key come out in the reverse of their order before the sort, and only then |
| Sorting.SortAndReverseLevel | src/main/java/race/Race.java:409-412 | when all keys are equal, sort-then-reverse only reverses the list |
| Awards.PointsAtPlace | src/main/java/race/StandardRace.java:112-115 | in a ranking without repeated cars, the car at place i gains exactly the award of place i when that place is paid, and nothing otherwise |
| Awards.PointsOutside | src/main/java/race/StandardRace.java:104-115 | a car outside the paid places gains nothing |
| Awards.PointsNonNegative | src/main/java/race/DeathRace.java:99-102 | awards that are never negative never lower a score |
| Awards.SumPointsTotal | src/main/java/race/StandardRace.java:112-115 | over a ranking without repeated cars, the cars together gain exactly the awards of the paid places |
| Awards.StandardTotal | src/main/java/race/StandardRace.java:103-116 | a StandardRace with n cars hands out the first min(3, n) entries of [5, 3, 1]: 0, 5, 8 or 9 points in all |
| Awards.DeathTotal | src/main/java/race/DeathRace.java:96-103 | a DeathRace with n cars hands out 0 + 1 + ... + (n - 1) = n(n-1)/2 points |
| Awards.StandardAwardDescending | src/main/java/race/StandardRace.java:15-37 | the StandardRace awards never grow down the ranking and are never negative |
| Awards.StandardTieBreak | src/main/java/race/StandardRace.java:106 | of two cars with equal distance, the one later in the list before the ranking is ranked ahead and gains at least as many points |
| Races.SameRaceEquivalence | src/main/java/race/Race.java:470-500 | race equality (same variant, names equal ignoring case, same hours or laps) is reflexive, symmetric and transitive |
| Races.KindOf | src/main/java/race/Race.java:434-438 | the imported type is StandardRace if and only if the code is "SR" ignoring case; anything else is a DeathRace |
| Races.KindOfCode | src/main/java/race/Race.java:106-118 | the code the export writes reads back as the same variant |
| Races.EncodeRaceInfo | src/main/java/race/Race.java:106-118 | the info export has exactly the keys name, type and secondArgument |
| Races.EncodeRace | src/main/java/race/Race.java:126-156 | the full export has exactly the info keys, garageList and carList |
| Races.DecodeOptionalList | src/main/java/race/Race.java:442-462 | a missing list reads as empty, a non-array fails the cast, and an array decodes element by element |
| Races.DecodeRace | src/main/java/race/Race.java:429-468 | an imported race has the name field, the variant read from the type field, the second argument narrowed to a Java `int`, and the decoded garage and car lists |
| Races.DecodeEncodeRaceInfo | src/main/java/race/Race.java:429-468 | importing the info export gives the same variant, name and parameter, with no garages or cars |
| Races.DecodeEncodeRace | src/main/java/race/Race.java:126-156 | importing the full export gives the same race with the same cars in order, and garages of the same names with no cars |
| Races.Places | src/main/java/race/StandardRace.java:104-110 | a StandardRace pays the first min(3, n) places, and a DeathRace pays every place |
| Races.RankingSpec | src/main/java/race/Race.java:388-412 | the ranking is a permutation of the cars, in non-increasing distance order for a StandardRace and ascending order for a DeathRace |
| Races.RacePointsNonNegative | src/main/java/race/DeathRace.java:96-103 | `givePoints` never takes points away from any car |
| Races.RankingWinner | src/main/java/race/StandardRace.java:103-116 | the leader of a StandardRace has gone at least as far as every other car and gains 5; the last-ranked car of a DeathRace with n cars has gone at least as far as every other and gains n - 1 |
| Races.RankingTotal | src/main/java/race/DeathRace.java:96-103 | one `givePoints` over distinct cars pays 0, 5, 8 or 9 points in a StandardRace and n(n-1)/2 in a DeathRace |
| Races.Race.constructor | src/main/java/race/Race.java:95-98 | a new race has its variant, name and parameter, and no garages or cars |
| Races.Race.Clone | src/main/java/race/Race.java:503-509 | a new race with the same variant, name and parameter, no garages or cars, equal to the original |
| Races.Race.Equals | src/main/java/race/Race.java:470-500 | two races are equal if and only if they are of the same variant with the same hours or laps, and their names have the same length and agree character by character after lower-casing |
| Races.Race.ExportInfo | src/main/java/race/Race.java:106-118 | importing the info export gives this race's variant, name and parameter, with no garages and no cars |
| Races.Race.ExportFull | src/main/java/race/Race.java:126-156 | importing the full export gives this race's info, its garages' names with no cars, and its cars in order |
| Races.Race.RegisterGarage | src/main/java/race/Race.java:297-299 | the garage goes at the end of the list; nothing else changes |
| Races.Race.RegisterGarages | src/main/java/race/Tournament.java:288-290 | the garages go at the end of the list in order; nothing else changes |
| Races.Race.RegisterCarList | src/main/java/race/Race.java:286-288 | the cars go at the end of the list in order; nothing else changes |
| Races.Race.RegisterCars | src/main/java/race/Race.java:266-284 | with exactly one garage the car list becomes that garage's cars; otherwise one car drawn from each garage, in garage order, is appended to the existing list |
| Races.Race.ResetCars | src/main/java/race/Race.java:316-320 | every car of the race is at rest; no score or garage changes |
| Races.Race.DriveRound | src/main/java/race/StandardRace.java:132-134 | each car's motion is that of one tick over the list (one drive per position it holds); no score or garage changes |
| Races.Race.DriveTicks | src/main/java/race/StandardRace.java:131-135 | each car's motion is that of n ticks over the list; no score or garage changes |
| Races.Race.EliminateSlowest | src/main/java/race/DeathRace.java:131-132 | the running list becomes its stable sort by distance without its front; the car removed has gone no farther than any other, and it is the first such car |
| Races.Race.EliminationRound | src/main/java/race/DeathRace.java:128-132 | every car of the race is driven for one tick; the running list then becomes its stable sort by the new distances without its front, and the car that leaves is the first of smallest distance and has gone no farther than any other; no score or garage changes |
| Races.Race.Eliminations | src/main/java/race/DeathRace.java:125-133 | the loop runs one lap fewer than the running list is long; every car of the race, eliminated or not, is driven each lap; the list left running and the cars taken out, in order, are those of the lap-by-lap specification (`Races.StillRunning`, `Races.KnockedOut`: each lap sorts the cars still running by that lap's distances and takes the front one out); at most one car is left running, and the remaining and eliminated cars together are the cars the list held |
| Races.Race.EliminationLapAt | src/main/java/race/DeathRace.java:127-133 | one turn of the elimination loop: from the state after i laps of the specification (list still running, cars taken out, every car of the race driven i ticks with its score and garage kept) it performs lap i + 1 and reaches the state after i + 1 laps, the car it takes out appended |
| Races.Race.LapRound | src/main/java/race/DeathRace.java:128-132 | one lap on the race object: every car of the race is driven one more tick, the running list sorted by the new distances is the car taken out followed by the new running list, and no car is lost; a running car outside the race does not move; no score or garage changes |
| Races.EliminationLap | src/main/java/race/DeathRace.java:128-132 | when the running list is the specification's after k laps and sorting it by the distances after the next tick puts one car in front of the rest, the specification after k + 1 laps leaves that rest running and has taken out the earlier cars followed by that car |
| Races.LapSort | src/main/java/race/DeathRace.java:128-131 | sorting by the distances the cars show after the lap's tick gives the specification's order for that lap, and the lap drops exactly one car of the running list |
| Races.LapDistances | src/main/java/race/DeathRace.java:128-130 | the distances the cars show after tick i + 1 are the specification's distances for lap i + 1 on every car still running |
| Races.EliminationCount | src/main/java/race/DeathRace.java:125-133 | after k laps on n cars, min(k, n) cars have been taken out and the others are still running |
| Races.LapOrderSplit | src/main/java/race/DeathRace.java:131-132 | the k-th lap takes out exactly one car when any is running and none otherwise, and appends it to the cars taken out before |
| Races.KnockedOutPrefix | src/main/java/race/DeathRace.java:127-133 | the cars taken out in the first j laps stay, in order, at the front of those taken out in any k >= j laps |
| Races.EliminationSlowest | src/main/java/race/DeathRace.java:129-132 | the car the lap after the first j takes out is the first car of smallest distance, after that lap's tick, among the cars running after j laps |
| Races.Race.StartRace | src/main/java/race/StandardRace.java:130-137 | a StandardRace drives every car for max(0, hours * 60) ticks, the product computed as a Java `int`; a DeathRace (`DeathRace.startRace`) drives every car for max(0, laps) warm-up ticks, appends its cars to the running list and runs one elimination lap fewer than that list is long, leaving one car when there was any; no score or garage changes |
| Races.Race.SortByDistanceAndReverse | src/main/java/race/Race.java:397-412 | the car list becomes its stable sort by distance, reversed: a permutation in non-increasing distance order |
| Races.Race.SortByDistance | src/main/java/race/Race.java:388-390 | the car list becomes its stable sort by distance: a permutation in non-decreasing distance order |
| Races.Race.PayPlaces | src/main/java/race/StandardRace.java:112-115 | each car gains the awards of the paid places it holds; motion and garage are unchanged |
| Races.Race.GivePoints | src/main/java/race/StandardRace.java:103-116 | the cars are left ranked and each gains the award of its place: a StandardRace ranks by non-increasing distance and the first three gain 5, 3 and 1; a DeathRace (`DeathRace.givePoints`) ranks in ascending distance order and the car at place i gains i points; the ranking is a permutation of the cars |
| Races.Race.Podium | src/main/java/race/Race.java:198-206 | the car list is sorted and reversed by distance, and the podium of either variant (`getPodium`, `getPodiumForTournament`) is its first min(3, n) cars, in non-increasing distance order |
| Races.Race.Build | src/main/java/race/Race.java:441-465 | a new race with the record's info, new garages with the records' names and cars, and new cars at rest with the records' identities |
| Races.Race.Import | src/main/java/race/Race.java:429-468 | fails exactly when `DecodeRace` fails; otherwise a new race with the decoded info, new garages with the decoded names and cars, and new cars at rest with the decoded identities |
| Tournaments.EncodeTournament | src/main/java/race/Tournament.java:91-114 | the export has exactly the keys name, raceList, garageList and carList |
| Tournaments.DecodeTournament | src/main/java/race/Tournament.java:413-439 | an imported tournament has the name field, and its three lists are arrays whose elements all decode (races with the race import, garages with the garage import, cars with the car import) |
| Tournaments.DecodeEncodeTournament | src/main/java/race/Tournament.java:413-439 | importing the export gives the same name, the same race infos with no garages or cars, garages of the same names with no cars, and the same cars, all in order |
| Tournaments.ImportExportTournament | src/main/java/race/Tournament.java:91-114 | exporting a tournament and importing it gives an equal name, races equal one by one, garages of the same names, and the roster's cars, in order |
| Tournaments.Tournament.constructor | src/main/java/race/Tournament.java:82-84 | a new tournament has the name and empty lists |
| Tournaments.Tournament.Standings | src/main/java/race/Tournament.java:148-161 | one line per roster car, in roster order, with that car's details and points |
| Tournaments.Tournament.Export | src/main/java/race/Tournament.java:91-114 | importing the export gives this tournament's name, its races' infos with no garages or cars, its garages' names with no cars, and its roster's cars, all in order |
| Tournaments.Tournament.RegisterRace | src/main/java/race/Tournament.java:313-315 | the race goes at the end of the list; nothing else changes |
| Tournaments.Tournament.RemoveRace | src/main/java/race/Tournament.java:337-339 | the first equal race is removed; without one the list is unchanged |
| Tournaments.Tournament.RegisterGarage | src/main/java/race/Tournament.java:301-304 | the garage goes at the end of the list; nothing else changes |
| Tournaments.Tournament.RemoveGarage | src/main/java/race/Tournament.java:325-328 | the first garage with an equal name is removed; without one the list is unchanged |
| Tournaments.Tournament.RegisterCar | src/main/java/race/Tournament.java:236-239 | the car goes at the end of the roster; nothing else changes |
| Tournaments.Tournament.RegisterGaragesInEachRace | src/main/java/race/Tournament.java:286-292 | every race gets all the tournament's garages appended in order, once per time it is listed; nothing else changes |
| Tournaments.Tournament.RegisterCarsInEachRace | src/main/java/race/Tournament.java:245-250 | every race gets the roster's own car objects appended in order, once per time it is listed |
| Tournaments.Tournament.RegisterCarsInTournament | src/main/java/race/Tournament.java:257-267 | with exactly one garage all its cars are appended to the roster, and otherwise one car drawn per garage in garage order |
| Tournaments.Tournament.RegisterGaragesAndCars | src/main/java/race/Tournament.java:276-280 | the combined effect of the three steps in that order: garages into every race, cars into the roster, and the roster into every race |
| Tournaments.Tournament.RankRoster | src/main/java/race/Tournament.java:390-404 | the roster becomes its stable sort by score, reversed: a permutation in non-increasing score order |
| Tournaments.Tournament.RacePodiums | src/main/java/race/Tournament.java:214-221 | one podium per listed race; every race keeps its garages, its death list and a permutation of its cars; a race whose cars have all covered the same distance ends up reversed once per time it is listed |
| Tournaments.Tournament.ListedPodium | src/main/java/race/StandardRace.java:54-82 | `getPodiumForTournament` (also DeathRace.java:67-93) on one listed race: its podium is the front min(3, n) of its new car list, in non-increasing distance; the race keeps its garages, death list and a permutation of its cars; a level list is reversed; no other listed race changes |
| Tournaments.Tournament.Import | src/main/java/race/Tournament.java:413-439 | fails exactly when `DecodeTournament` fails; otherwise a new tournament with the decoded name, new races with the decoded infos, new garages and new cars at rest, in order |
| Tournaments.Tournament.ImportRaces | src/main/java/race/Tournament.java:417-422 | one new race per element, in order, with that element's info |
| Tournaments.Tournament.ImportGarages | src/main/java/race/Tournament.java:424-429 | one new garage per element, in order, with that element's name and cars |
| Tournaments.Tournament.ImportRaceAt | src/main/java/race/Tournament.java:418-421 | when the whole race list decodes, importing its i-th element succeeds and gives a new race with the i-th decoded record's info |
| Tournaments.Tournament.ImportGarageAt | src/main/java/race/Tournament.java:425-428 | when the whole garage list decodes, importing its i-th element gives a new garage with the i-th decoded record's name and cars |
| Tournaments.Tournament.ImportCars | src/main/java/race/Tournament.java:431-436 | one new car at rest per element, in order, with that element's identity |
| Control.Lookup | src/main/java/race/Control.java:328-335 | the position of the first garage whose name matches ignoring case, or the length when none matches |
| Control.Control.constructor | src/main/java/race/Control.java:60 | the application starts with empty lists |
| Control.Control.GarageFromList | src/main/java/race/Control.java:328-335 | the result is none (`null`) if and only if no listed garage's name matches ignoring case; otherwise it is the first listed garage that matches |
| Control.Control.ExportAppData | src/main/java/race/Control.java:232-238 | the export has exactly the keys garages, races and tournament, each an array with one element per listed entity |
| Control.EqualsIgnoreCaseEquivalence | src/main/java/race/Garage.java:53-60 | comparing names ignoring case is an equivalence, so garage `contains` does not depend on which side the argument is |
| Control.PickFromListDefined | src/main/java/race/Control.java:590-594 | one car can be drawn for every tournament garage if and only if each one's name has a listed garage with cars |
| Control.PickFromListCars | src/main/java/race/Control.java:590-594 | when every name has a listed garage with cars, one car is drawn per name, in order: the i-th draw's pick from the listed garage of the i-th name |
| Control.RaceGaragesListed | src/main/java/race/Control.java:450-457 | after the races are merged, every garage of every imported race has a listed garage of its name, so the lookup at line 457 finds one |
| Control.RacesListed | src/main/java/race/Control.java:464-466 | after the races are merged, every imported race has an equal race listed |
| Control.Control.ImportGarageData | src/main/java/race/Control.java:409-417 | each garage read is appended exactly when no listed garage has its name, so the names become the merge of the old names with the read names; listed garages stay in place; the import succeeds if and only if a garages array is present and every element of it is a garage |
| Control.Control.ImportGarageItems | src/main/java/race/Control.java:411-416 | the loop merges by name exactly the garages before the first element that is not one, and succeeds if and only if there is no such element |
| Control.Control.ImportOneGarage | src/main/java/race/Control.java:412-415 | one element is read and merged when it is a garage; otherwise nothing changes |
| Control.Control.MergeGarage | src/main/java/race/Control.java:413-415 | the garage is appended exactly when no listed garage has its name |
| Control.Control.MergedFromStep | src/main/java/race/Control.java:413-415 | appending a garage exactly when its name is not listed is one more step of the merge by name |
| Control.Control.AddGarageIfAbsent | src/main/java/race/Control.java:451-453 | the garage is appended exactly when no listed garage has its name; afterwards a garage of its name is listed |
| Control.Control.ImportRaceData | src/main/java/race/Control.java:446-468 | the garage names become the merge of the old names with the garage names of the races read, and the race list the merge by race equality; listed garages and races stay in place; listed garages only gain cars; the import succeeds if and only if a races array is present and every element of it is a race |
| Control.Control.ImportRaceItems | src/main/java/race/Control.java:448-467 | the loop merges exactly the races before the first element that is not one, and succeeds if and only if there is no such element |
| Control.Control.ImportOneRace | src/main/java/race/Control.java:449-466 | one element is read and merged when it is a race; otherwise nothing changes |
| Control.Control.ReadRace | src/main/java/race/Control.java:449 | the element is read as a new race exactly when it decodes, with the decoded info and garage names |
| Control.Control.MergeRaceStep | src/main/java/race/Control.java:450-466 | merging one race extends the merged garage names and race infos by that race's garage names and info |
| Control.Control.MergeRace | src/main/java/race/Control.java:450-466 | the race's garages are merged by name and the race is appended exactly when no equal race is listed |
| Control.Control.MergeRaceGarages | src/main/java/race/Control.java:450-463 | the names of the race's garages are merged into the listed names in order; new garages are the race's own; listed garages only gain cars |
| Control.Control.MergeRaceGarage | src/main/java/race/Control.java:451-462 | one more of the race's garages is merged by name, and the cars of the listed garages only grow; read as brand, model and garage, the listed garage of that name becomes the merge, by car equality, of what it held with the race's cars of that garage, in race order, each stamped with the garage's name |
| Control.Control.AddRaceGarage | src/main/java/race/Control.java:451-453 | the race's garage is appended exactly when no listed garage has its name; afterwards one of its name is listed |
| Control.Control.MergeCar | src/main/java/race/Control.java:458-460 | the car is registered into the garage (taking its name) exactly when the garage holds no equal car; otherwise nothing changes |
| Control.Control.MergeRaceCars | src/main/java/race/Control.java:455-462 | the listed garage of that name only gains cars, each one of the race's cars carrying the garage's name; the cars already in it keep their garage; read as brand, model and garage, its list becomes the merge, by car equality, of what it held with the race's cars whose garage matches the name ignoring case, in race order, each stamped with the garage's name; no car's motion or score changes |
| Control.Control.CarsMergingStart | src/main/java/race/Control.java:455 | before the first turn of the car loop nothing is merged, and every race car is recorded with its identity as read |
| Control.Control.MergeRaceCarAt | src/main/java/race/Control.java:455-461 | one turn of the car loop extends the merge by the next race car and keeps the loop invariant; the garages of the cars already held and every car's motion and score are unchanged |
| Control.Control.MergeRaceCar | src/main/java/race/Control.java:456-461 | a race car whose garage matches the name extends the merge by that car stamped with the garage's name (appended only when the garage holds no equal car); a car that does not match changes nothing |
| Control.MergeTurn | src/main/java/race/Control.java:455-461 | the merge of a race car into a garage, read as brand, model and garage: a car matching the name ignoring case extends the merge by itself stamped with the garage's name when the garage holds no equal car; a car that does not match changes nothing |
| Control.OfGarage | src/main/java/race/Control.java:455-456 | the cars kept all have a garage matching the name ignoring case, and there are no more of them than in the list |
| Control.OfGarageMembers | src/main/java/race/Control.java:455-456 | the filter keeps exactly the cars of the list whose garage matches the name ignoring case |
| Control.IncomingStep | src/main/java/race/Control.java:455-461 | one more race car extends the matching stamped cars by that car, stamped, exactly when its garage matches |
| Control.SameCarFirstMatch | src/main/java/race/Control.java:458 | two cars that differ only in the case of their garage find the same first equal car in any list, so stamping a race car with the garage's name does not change what `contains` finds |
| Control.Control.AddRaceIfAbsent | src/main/java/race/Control.java:464-466 | the race is appended exactly when no equal race is listed |
| Control.Control.ImportTournamentData | src/main/java/race/Control.java:494-502 | every tournament read before the first element that is not one is appended as a new object, in order, with its name; the import succeeds if and only if a tournament array is present and every element of it is a tournament |
| Control.Control.ImportTournamentItems | src/main/java/race/Control.java:496-501 | one new tournament per element read, appended in order |
| Control.Control.ReadTournaments | src/main/java/race/Control.java:496-501 | the tournaments read in order, up to the first element that is not one, each a new object with the read name |
| Control.Control.ImportOneTournament | src/main/java/race/Control.java:497 | the element is read as a new tournament exactly when it decodes |
| Control.Control.AddRaceToTournament | src/main/java/race/Control.java:179-186 | one new clone per selected race (same variant, name and parameter, no garages or cars) is appended to the tournament's races, in selection order; the listed races themselves are not added |
| Control.Control.RegisterCarsFromGarageToTournament | src/main/java/race/Control.java:584-597 | the tournament garages go into every race; the roster then gains the listed garage's cars (one garage) or one drawn car per garage name; the roster goes into every race; it fails exactly when a name has no listed garage or, with several garages, one with no cars |
| Control.Control.FillRoster | src/main/java/race/Control.java:585-594 | the roster gains all cars of the listed garage (one garage) or one drawn car per tournament garage name, and fails exactly when the code would dereference null or draw from an empty garage |
| Control.Control.TakeGarageIntoRoster | src/main/java/race/Control.java:586-588 | all cars of the listed garage with the tournament garage's name join the roster; it fails, changing nothing, exactly when there is no such garage |
| Control.Control.PickIntoRoster | src/main/java/race/Control.java:590-593 | one car drawn from the listed garage of each tournament garage's name joins the roster, in order, exactly when each has a listed garage with cars |
| Control.Control.StartTournament | src/main/java/race/Control.java:1041-1047 | every race is run, scored and reset, the roster is sorted by non-increasing score, and the report ranks every race by distance again; every car of a race ends at rest, no car loses points, races keep their garages and the same cars; how the report reorders each race is stated by `Control.Control.ReportAtRest` |
| Control.Control.PlayTournament | src/main/java/race/Control.java:1041-1046 | every race is run, scored and reset, and the roster is then sorted by non-increasing score; every car of a race ends at rest, no car loses points, and races keep their garages and the same cars |
| Control.Control.ReportAtRest | src/main/java/race/Control.java:1047 | the report on a tournament whose race cars are all at rest reverses each race's list once per time it is listed; races keep their garages and cars, which stay at rest |
| Control.Control.RunRaces | src/main/java/race/Control.java:1041-1045 | after every race of the tournament is run, scored and reset, each race keeps its garages and a permutation of its cars, every car is at rest, and no car has lost points |
| Control.Control.RunRaceAmong | src/main/java/race/Control.java:1041-1045 | one turn of the race loop: race i's cars end at rest; every race keeps its garages and the same cars; no car of any race loses points or changes garage; a car outside race i keeps its motion |
| Control.Control.RunRace | src/main/java/race/Control.java:1042-1044 | after `startRace`, `givePoints` and `resetCars`, the race's cars are a permutation of its cars at the start, all at rest, each with the awards of its places added to its score |

## Left out

- Menus, console input and printing are not modelled. This covers `show*Menu`, `list*`, the interactive `add*`/`remove*` wrappers of `Control`, `Input` and `Utils.showFromList`/`showAndSelectFromList`. The selected positions and the chosen tournament are parameters instead.
- Files and JSON text are not modelled: `ProgramExporter`, `WriteJSON`, the `export*ToFile`/`import*FromFile`/`importAppData` methods and the text parsing and printing of the JSON library. JSON is an abstract tree, and a JSON object is a map, as the library's hash map is, so key order plays no part.
- The JSON library reads integers as `Long`. The tree has one unbounded integer, and `intValue()` is modelled as its 32-bit narrowing.
- Floating point is not modelled. The 16.667 factor becomes exact thousandths of a metre, which is exact for velocities that are multiples of 5. `Utils.formatLocalNumber` is not modelled.
- `Math.random` is replaced by caller-supplied draws. The cast inside `getRandomNumberInRange` can overflow for bounds that are 2^31 apart. That case is not modelled: the draw is reduced into the span instead.
- `equalsIgnoreCase` is modelled on the letters A-Z only. Full Unicode case folding is not modelled.
- Utils.ParseDecimal: reads only the ASCII digits `0`-`9`. `Integer.valueOf` also accepts other Unicode decimal digits (through `Character.digit`), which the model rejects.
- A missing `type` makes `importRace` dereference `null` at once (Race.java:436), so the model's failed decode is exact there.
- Cars.DecodeCar: refuses a car whose `brand`, `model` or `garage` is missing or JSON `null`, where `importCarFromJson` casts the `null` through and builds a car holding it. The model has no `null` strings. Java fails later, and only on some paths. A `null` brand or model makes `equals` crash when that car is the receiver. A `null` garage does the same, and also crashes `getDetails` (ScoreCar.java:193) and `importRaceData` for a race with a garage (Control.java:456). A garage import overwrites the field through `registerCarToGarage`, which is why `Cars.DecodeCarIn` accepts a car without one. The export writes the `null` back.
- Cars.Car.Import: fails where `Cars.DecodeCar` does, so it rejects the car with a missing or `null` string that the Java builds. The same gap carries to `Races.DecodeRace` and `Races.Race.Import` for a race's cars, and to `Tournaments.DecodeTournament`, `Tournaments.Tournament.Import` and `Control.Control.ImportTournamentData` for a tournament's roster. There the model stops at that element, while the Java goes on.
- Garages.DecodeGarage: a missing or `null` garage `name` is refused likewise. The Java builds the garage, and `equals` crashes later only when that garage is compared. The same applies to a race's or a tournament's `name` (`Races.DecodeRace`, `Tournaments.DecodeTournament`).
- Crashes in lookups are handled in two ways.
  - A crash the code runs into during a lookup (a `null` garage, an empty garage) is an `ok = false` result or a `None`.
  - A crash on an argument is a precondition. Examples are a race drawing from an empty garage, and a selected race position out of range.
- After a failed lookup, `registerCarsFromGarageToTornament` leaves the roster in a partial state. The model states this state only as a roster that keeps its old cars as a prefix.
- Several methods are not modelled:
  - `Race.removeGarageFromList`, the getters and setters, `Race.init` and `Race.setPodiumPoints`;
  - `Garage.init` (its call is commented out in the constructor) and every `main` method;
  - the exact text of `getPodium`, `getPodiumForTournament`, `getTournamentInfo`, `getPodiumTournament` and `toString`.
  - Only the entries of the podiums and standings, their number and their order are modelled (`Races.Race.Podium`, `Tournaments.Tournament.Standings`).
- `exportGaragesArray`, `exportRacesArray` and `exportTournamentArray` appear only inside `Control.Control.ExportAppData`. For the application export that function states the keys and the element counts. The round trip of each part is stated by `Garages.Garage.ExportWithCars` (with `Garages.ImportExportGarage`), `Races.Race.ExportFull`, `Races.Race.ExportInfo` and `Tournaments.Tournament.Export` (with `Tournaments.ImportExportTournament`).
- Cars.Car.AddScore: does not model the 32-bit wrap-around of `score`. Scores are unbounded integers, so a car holding more than 2^31 - 1 points is not modelled.
- Control.Control.ImportTournamentData: states each appended tournament's name and that it is a new object. The races, garages and cars of each tournament are stated by `Tournaments.Tournament.Import`.
- Control.Control.ImportRaceData: states the merged garage names and race list, and that listed garages only gain cars. Which cars join which garage is stated per race garage by `Control.Control.MergeRaceGarage` and `Control.Control.MergeRaceCars`, not composed over the whole import.
- Control.Control.MergeRaceGarages: states the merged garage names and that listed garages only gain cars. Which cars join each listed garage is stated per race garage by `Control.Control.MergeRaceGarage`, not composed over the garage loop.
- Control.Control.StartTournament: states the scores only as non-decreasing. The exact points each race adds are stated per race by `Control.Control.RunRace` and `Races.Race.GivePoints`. It does not state each race's final order: the report reverses the order the races leave (`Control.Control.ReportAtRest` states this exactly), but that intermediate order is not stated across the race loop, so only a permutation of the race's cars is promised.
- Tournaments.Tournament.ImportRaces: states each imported race's info only. The garages and cars a race element may carry are stated by `Races.Race.Import`.
- Tournaments.Tournament.RacePodiums: states the reversal of each race's list only for races whose cars have all covered the same distance, the case `startSelectedTournament` reaches. For other races it states a permutation, and the ranking one listing produces is stated per race by `Races.Race.Podium`.
- Control.Control.RunRaces: states the scores only as non-decreasing. The awards each race adds are stated for one race by `Control.Control.RunRace` (with `Races.Race.GivePoints`). Cars can be shared between races, and each race's ranking depends on the distances the races before it leave, so the sum of awards over the loop is not stated.
- Control.Control.PlayTournament: states the scores only as non-decreasing, for the reason given for `Control.Control.RunRaces`. The roster that follows is stated to be a permutation of itself in non-increasing score order.
- Races.Race.StartRace: states each car's motion as the result of the driving ticks and the count of cars eliminated. Which car is eliminated in each lap is stated by `Races.Race.Eliminations` (against `Races.StillRunning` and `Races.KnockedOut`) and `Races.EliminationSlowest`, not repeated in this contract.
