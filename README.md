# Range: a plant-monitoring tolerance band, in Dafny

This project models the `Range` class of the Team Plant Power Android app. A `Range` is a
mutable object with three fields:

- a category string, `type`: "Light", "Humidity", "Temperature", or any other string;
- a lower bound, `minRange`, and an upper bound, `maxRange`, both of type `double`.

A range is *unset* when its bounds are NaN. The class offers these operations:

- three constructors;
- getters and setters;
- `resetRange`, which makes the range unset;
- `isRangeSet`;
- `validateRange`: a category other than "Temperature" must keep both bounds within 0..100, and every category needs min ≤ max;
- `isInRange`, a containment test with both ends included;
- `toMap`, which exports the range as a three-entry record for the document database.

The model has two files:

- `doubles.dfy` (module `Doubles`) models a Java `double` as the class uses it. Bounds and readings are only compared and tested for NaN, never used in arithmetic. So a value is `NaN`, `NegInf`, `PosInf` or `Finite(r)` with `r` an exact `real`. The comparisons `Less`, `LessEq`, `Greater` and `GreaterEq` follow section 5.11 of IEEE 754-2008, as Java's `<`, `<=`, `>` and `>=` do: every ordered comparison with a NaN operand is false.
- `ranges.dfy` (module `Ranges`) holds the class `Range`. Its fields are `category`, `minRange` and `maxRange`. The Java field `type` is renamed `category` because `type` is a Dafny keyword.
  - The setters and `ResetRange` are methods that state the whole new state through the value `State()`.
  - `IsRangeSet` and `IsInRange` are predicates over the fields, as in the source.
  - `ValidateRange` keeps the source's step-by-step flag. It is proved equal to the predicate `ValidBounds`, and lemmas then say what `ValidBounds` means.
  - `ToMap` fills the record one entry at a time. It is proved equal to the function `Record`. The round trip of the export is stated against `ReadRecord`, the inverse of `Record`.

The source leaves one behaviour open, and the model keeps it as written: every comparison with NaN is false, so `validateRange()` returns true on an unset range of any category (`UnsetPassesValidation`).

## Model

| member | source | states |
|---|---|---|
| Ranges.Range.constructor | app/src/main/java/com/teamplantpower/team_plant_power/Range.java:20-24 | the default range has an empty category and NaN bounds, so it is not set |
| Ranges.Range.WithBounds | app/src/main/java/com/teamplantpower/team_plant_power/Range.java:32-36 | the category is empty and both bounds are stored exactly as given, with no validation |
| Ranges.Range.WithType | app/src/main/java/com/teamplantpower/team_plant_power/Range.java:44-48 | all three fields are stored exactly as given, with no validation |
| Ranges.Range.GetType | app/src/main/java/com/teamplantpower/team_plant_power/Range.java:55-57 | returns the current category and changes nothing |
| Ranges.Range.GetMinRange | app/src/main/java/com/teamplantpower/team_plant_power/Range.java:63-65 | returns the current lower bound and changes nothing |
| Ranges.Range.GetMaxRange | app/src/main/java/com/teamplantpower/team_plant_power/Range.java:71-73 | returns the current upper bound and changes nothing |
| Ranges.Range.SetType | app/src/main/java/com/teamplantpower/team_plant_power/Range.java:81-83 | only the category changes, to the given string; both bounds are unchanged |
| Ranges.Range.SetMinRange | app/src/main/java/com/teamplantpower/team_plant_power/Range.java:89-91 | only the lower bound changes; the category and the upper bound are unchanged |
| Ranges.Range.SetMaxRange | app/src/main/java/com/teamplantpower/team_plant_power/Range.java:97-99 | only the upper bound changes; the category and the lower bound are unchanged |
| Ranges.Range.ResetRange | app/src/main/java/com/teamplantpower/team_plant_power/Range.java:105-108 | both bounds become NaN and the category stays, so the range is no longer set; resetting an already reset range changes nothing (idempotence) |
| Ranges.Range.ValidateRange | app/src/main/java/com/teamplantpower/team_plant_power/Range.java:117-130 | the flag is true exactly when no test fails: outside Temperature, no bound compares below 0 or above 100; in every category, min does not compare above max |
| Ranges.PercentValidation | app/src/main/java/com/teamplantpower/team_plant_power/Range.java:117-130 | for a set range outside Temperature, validation holds iff 0 ≤ min ≤ 100, 0 ≤ max ≤ 100 and min ≤ max |
| Ranges.TemperatureValidation | app/src/main/java/com/teamplantpower/team_plant_power/Range.java:117-130 | for a set Temperature range, validation holds iff min ≤ max, whatever the magnitudes |
| Ranges.UnsetRangeValidation | app/src/main/java/com/teamplantpower/team_plant_power/Range.java:117-130 | on a range that is not set, the min > max test never fails, so validation holds iff, outside Temperature, each bound is NaN or within 0..100; a half-set range can pass |
| Ranges.UnsetPassesValidation | app/src/main/java/com/teamplantpower/team_plant_power/Range.java:117-130 | a range whose two bounds are NaN passes validation in every category |
| Ranges.Range.IsRangeSet | app/src/main/java/com/teamplantpower/team_plant_power/Range.java:137-139 | neither bound is NaN; a range that is not set accepts no reading |
| Ranges.Range.IsInRange | app/src/main/java/com/teamplantpower/team_plant_power/Range.java:148-153 | a reading in range is not NaN, and the range then has min ≤ max |
| Ranges.InRangeNeedsNumbers | app/src/main/java/com/teamplantpower/team_plant_power/Range.java:148-153 | a reading is in range only if the range is set and the reading is not NaN |
| Ranges.InRangeIsClosedInterval | app/src/main/java/com/teamplantpower/team_plant_power/Range.java:148-153 | with finite bounds lo and hi, a finite reading x is in range iff lo ≤ x ≤ hi, both ends included |
| Ranges.EndsInRange | app/src/main/java/com/teamplantpower/team_plant_power/Range.java:148-153 | a set range with min ≤ max contains both its min and its max |
| Ranges.AcceptsSomeReading | app/src/main/java/com/teamplantpower/team_plant_power/Range.java:137-153 | some reading is in range iff the range is set and min ≤ max |
| Ranges.ValidRangeContainsEnds | app/src/main/java/com/teamplantpower/team_plant_power/Range.java:117-153 | a set range that passes validation contains both its ends |
| Ranges.ValidPercentRangeAcceptsPercents | app/src/main/java/com/teamplantpower/team_plant_power/Range.java:117-153 | a set range outside Temperature that passes validation accepts only readings between 0 and 100 |
| Ranges.Range.ToMap | app/src/main/java/com/teamplantpower/team_plant_power/Range.java:160-167 | the record built entry by entry is the range's export record; the object does not change |
| Ranges.RecordShape | app/src/main/java/com/teamplantpower/team_plant_power/Range.java:160-167 | the export has exactly three entries, under the keys "type", "minRange" and "maxRange" |
| Ranges.RecordRoundTrip | app/src/main/java/com/teamplantpower/team_plant_power/Range.java:160-167 | `ReadRecord`, the inverse of `Record`, gives back the three fields of the export exactly |
| Ranges.RecordDeterminedByFields | app/src/main/java/com/teamplantpower/team_plant_power/Range.java:160-167 | a record with exactly the three keys on which `ReadRecord` gives some fields is the export of those fields |
| Doubles.Less | app/src/main/java/com/teamplantpower/team_plant_power/Range.java:121 | Java `<` on doubles: never true when either side is NaN, and never true of equal values |
| Doubles.IsNaN | app/src/main/java/com/teamplantpower/team_plant_power/Range.java:138 | `Double.isNaN`: a value is NaN iff it is not `<=` itself |
| Doubles.Greater | app/src/main/java/com/teamplantpower/team_plant_power/Range.java:125 | Java `>`: false with a NaN operand; between numbers, true iff not `<=` |
| Doubles.GreaterEq | app/src/main/java/com/teamplantpower/team_plant_power/Range.java:149 | Java `>=`: false with a NaN operand; between numbers, true iff not `<` |
| Doubles.LessEq | app/src/main/java/com/teamplantpower/team_plant_power/Range.java:149 | Java `<=` on doubles: never true when either side is NaN |

## Left out

- Firebase: the `@Exclude` annotations only steer the database's object mapper, which is not part of this model.
- Reading a stored record back: how the database turns a record into a `Range` is not modelled. `ReadRecord` is only the inverse of `Record`, and its `None` for a missing key or a value of the wrong kind is a choice of this model.
- `java.io.Serializable`: it is serialization plumbing with no behaviour of its own.
- A null `type`: in the model the category is always a string. In the source, `setType(null)` or the three-argument constructor can store null, and `validateRange()` would then throw a `NullPointerException`. That path is not modelled.
- Double precision: finite bounds are exact reals, because the class only compares them. The model does not distinguish `-0.0` from `0.0`, which compare equal in Java. It also has a single NaN, with no payloads.
- Boxing in the `HashMap`: values are the sum type `Str | Number`. The Java map is mutable and fresh on each call. The Dafny `map` is a value, so later changes a caller makes to the returned map are not modelled.
- String comparison: `type.equals("Temperature")` is Dafny sequence equality.
- Concurrency: the class has no synchronization, and it is modelled as single-threaded.
