/**
  A tolerance band of a plant-monitoring app: a category ("Light", "Humidity",
  "Temperature", or anything else) with a lower and an upper bound. A range is
  "unset" when its bounds are NaN. Bounds are validated only on demand, and the
  range exports itself as a three-entry record for the document database.
 */
module Ranges {
  import opened Doubles

  /** The one category whose bounds are not limited to 0..100. */
  const Temperature: string := "Temperature"

  /** The key names of the exported record, fixed by the database's schema. */
  const TypeKey: string := "type"
  const MinKey: string := "minRange"
  const MaxKey: string := "maxRange"

  datatype Option<T> = None | Some(value: T)

  /** A value of the exported record: the category string or a boxed bound. */
  datatype Value = Str(s: string) | Number(d: Double)

  /** The three fields of a range, as one value. */
  datatype Fields = Fields(category: string, minRange: Double, maxRange: Double)

  /** The record a range exports: one entry per field, under the schema's keys. */
  function Record(f: Fields): map<string, Value> {
    map[TypeKey := Str(f.category), MinKey := Number(f.minRange), MaxKey := Number(f.maxRange)]
  }

  /** The inverse of `Record`, against which the round trip of the export is
      stated: each key must be present and hold a value of its field's kind. */
  function ReadRecord(m: map<string, Value>): Option<Fields> {
    if TypeKey in m && MinKey in m && MaxKey in m
       && m[TypeKey].Str? && m[MinKey].Number? && m[MaxKey].Number?
    then Some(Fields(m[TypeKey].s, m[MinKey].d, m[MaxKey].d))
    else None
  }

  /** The exported record has exactly the three schema keys. */
  lemma RecordShape(f: Fields)
    ensures Record(f).Keys == {TypeKey, MinKey, MaxKey}
    ensures |Record(f)| == 3
  {
  }

  /** Reading the exported record gives back the three fields, unchanged. */
  lemma RecordRoundTrip(f: Fields)
    ensures ReadRecord(Record(f)) == Some(f)
  {
  }

  /** Conversely, a record with exactly the schema keys that reads back as `f`
      is the record `f` exports: the export loses nothing and adds nothing. */
  lemma RecordDeterminedByFields(m: map<string, Value>, f: Fields)
    requires m.Keys == {TypeKey, MinKey, MaxKey}
    requires ReadRecord(m) == Some(f)
    ensures m == Record(f)
  {
  }

  /** `0 <= x <= 100` as Java evaluates it on a double (false for NaN). */
  predicate InPercent(x: Double) {
    LessEq(Finite(0.0), x) && LessEq(x, Finite(100.0))
  }

  /** No comparison places `x` below 0 or above 100 (true for NaN). */
  predicate NotOutsidePercent(x: Double) {
    !Less(x, Finite(0.0)) && !Greater(x, Finite(100.0))
  }

  class Range {
    var category: string
    var minRange: Double
    var maxRange: Double

    function State(): Fields
      reads this
    {
      Fields(category, minRange, maxRange)
    }

    /** An empty category and an unset range. */
    constructor ()
      ensures State() == Fields("", NaN, NaN)
      ensures !IsRangeSet()
    {
      category := "";
      minRange := NaN;
      maxRange := NaN;
    }

    /** Bounds only, with an empty category; nothing is validated. */
    constructor WithBounds(minRange: Double, maxRange: Double)
      ensures State() == Fields("", minRange, maxRange)
    {
      category := "";
      this.minRange := minRange;
      this.maxRange := maxRange;
    }

    /** All three fields as given; nothing is validated. */
    constructor WithType(category: string, minRange: Double, maxRange: Double)
      ensures State() == Fields(category, minRange, maxRange)
    {
      this.category := category;
      this.minRange := minRange;
      this.maxRange := maxRange;
    }

    method GetType() returns (t: string)
      ensures t == category
    {
      t := category;
    }

    method GetMinRange() returns (x: Double)
      ensures x == minRange
    {
      x := minRange;
    }

    method GetMaxRange() returns (x: Double)
      ensures x == maxRange
    {
      x := maxRange;
    }

    method SetType(category: string)
      modifies this
      ensures State() == old(State()).(category := category)
    {
      this.category := category;
    }

    method SetMinRange(minRange: Double)
      modifies this
      ensures State() == old(State()).(minRange := minRange)
    {
      this.minRange := minRange;
    }

    method SetMaxRange(maxRange: Double)
      modifies this
      ensures State() == old(State()).(maxRange := maxRange)
    {
      this.maxRange := maxRange;
    }

    /** Both bounds become NaN; the category stays. Resetting an unset range
        changes nothing, so a second reset is a no-op. */
    method ResetRange()
      modifies this
      ensures State() == old(State()).(minRange := NaN, maxRange := NaN)
      ensures !IsRangeSet()
      ensures old(minRange) == NaN && old(maxRange) == NaN ==> State() == old(State())
    {
      minRange := NaN;
      maxRange := NaN;
    }

    /** `isRangeSet()`: neither bound is NaN. An unset range accepts no reading. */
    predicate IsRangeSet()
      reads this
      ensures !IsRangeSet() ==> forall value :: !IsInRange(value)
    {
      !IsNaN(minRange) && !IsNaN(maxRange)
    }

    /** `isInRange(value)`: `value >= min && value <= max`, both ends included. */
    predicate IsInRange(value: Double)
      reads this
      ensures IsInRange(value) ==> !IsNaN(value) && LessEq(minRange, maxRange)
    {
      GreaterEq(value, minRange) && LessEq(value, maxRange)
    }

    /** What `validateRange()` accepts: no test it makes fails. A category other
        than Temperature must not have a bound that compares below 0 or above
        100, and no category may have min compare above max. */
    predicate ValidBounds()
      reads this
    {
      (category != Temperature ==> NotOutsidePercent(minRange) && NotOutsidePercent(maxRange))
      && !Greater(minRange, maxRange)
    }

    /** `validateRange()`: a flag that starts true and each failed test clears. */
    method ValidateRange() returns (inRange: bool)
      ensures inRange == ValidBounds()
    {
      inRange := true;
      if category != Temperature {
        if Less(minRange, Finite(0.0)) || Greater(minRange, Finite(100.0))
           || Less(maxRange, Finite(0.0)) || Greater(maxRange, Finite(100.0))
        {
          inRange := false;
        }
      }
      if Greater(minRange, maxRange) {
        inRange := false;
      }
    }

    /** `toMap()`: a fresh record filled one entry at a time. */
    method ToMap() returns (result: map<string, Value>)
      ensures result == Record(State())
    {
      result := map[];
      result := result[TypeKey := Str(category)];
      result := result[MinKey := Number(minRange)];
      result := result[MaxKey := Number(maxRange)];
    }
  }

  /** Validation of a set range, non-Temperature: both bounds within 0..100 and
      min at most max. */
  lemma PercentValidation(r: Range)
    requires r.IsRangeSet() && r.category != Temperature
    ensures r.ValidBounds() <==>
      InPercent(r.minRange) && InPercent(r.maxRange) && LessEq(r.minRange, r.maxRange)
  {
  }

  /** Validation of a set Temperature range: min at most max, whatever their size. */
  lemma TemperatureValidation(r: Range)
    requires r.IsRangeSet() && r.category == Temperature
    ensures r.ValidBounds() <==> LessEq(r.minRange, r.maxRange)
  {
  }

  /** Every comparison with NaN is false, so an unset range of any category
      passes validation. */
  lemma UnsetPassesValidation(r: Range)
    requires r.minRange == NaN && r.maxRange == NaN
    ensures r.ValidBounds()
  {
  }

  /** On a range that is not set, the test `min > max` never fires: validation
      fails only when, outside Temperature, a bound that is a number lies
      outside 0..100. So a half-set range can pass validation too. */
  lemma UnsetRangeValidation(r: Range)
    requires !r.IsRangeSet()
    ensures r.ValidBounds() <==>
      (r.category != Temperature ==>
        (IsNaN(r.minRange) || InPercent(r.minRange)) && (IsNaN(r.maxRange) || InPercent(r.maxRange)))
  {
  }

  /** A reading is in range only if the range is set and the reading is a number. */
  lemma InRangeNeedsNumbers(r: Range, value: Double)
    requires r.IsInRange(value)
    ensures r.IsRangeSet() && !IsNaN(value)
  {
  }

  /** On finite bounds and readings, `isInRange` is the closed interval. */
  lemma InRangeIsClosedInterval(r: Range, lo: real, hi: real, x: real)
    requires r.minRange == Finite(lo) && r.maxRange == Finite(hi)
    ensures r.IsInRange(Finite(x)) <==> lo <= x <= hi
  {
  }

  /** Both ends of a set range with min at most max are in range. */
  lemma EndsInRange(r: Range)
    requires r.IsRangeSet() && LessEq(r.minRange, r.maxRange)
    ensures r.IsInRange(r.minRange) && r.IsInRange(r.maxRange)
  {
  }

  /** Some reading is in range exactly when the range is set and min is at
      most max: an inverted range, or one with a NaN bound, accepts nothing. */
  lemma AcceptsSomeReading(r: Range)
    ensures (exists value :: r.IsInRange(value)) <==> r.IsRangeSet() && LessEq(r.minRange, r.maxRange)
  {
    if r.IsRangeSet() && LessEq(r.minRange, r.maxRange) {
      EndsInRange(r);
    }
  }

  /** A set range that passes validation contains its own ends. */
  lemma ValidRangeContainsEnds(r: Range)
    requires r.IsRangeSet() && r.ValidBounds()
    ensures r.IsInRange(r.minRange) && r.IsInRange(r.maxRange)
  {
  }

  /** A set non-Temperature range that passes validation accepts only readings
      between 0 and 100. */
  lemma ValidPercentRangeAcceptsPercents(r: Range, value: Double)
    requires r.IsRangeSet() && r.category != Temperature && r.ValidBounds()
    requires r.IsInRange(value)
    ensures InPercent(value)
  {
  }

  /** Worked examples: what callers can conclude from the contracts alone. */
  method Scenarios()
  {
    var humidity := new Range.WithType("Humidity", Finite(20.0), Finite(80.0));
    var ok := humidity.ValidateRange();
    assert ok;
    assert humidity.IsInRange(Finite(50.0)) && !humidity.IsInRange(Finite(90.0));

    var low := new Range.WithType("Humidity", Finite(-5.0), Finite(80.0));
    ok := low.ValidateRange();
    assert !ok;

    var temperature := new Range.WithType(Temperature, Finite(-10.0), Finite(35.0));
    ok := temperature.ValidateRange();
    assert ok;

    var inverted := new Range.WithType("Light", Finite(60.0), Finite(40.0));
    ok := inverted.ValidateRange();
    assert !ok;

    var empty := new Range();
    var record := empty.ToMap();
    assert !empty.IsRangeSet();
    assert record == map[TypeKey := Str(""), MinKey := Number(NaN), MaxKey := Number(NaN)];

    var light := new Range.WithType("Light", Finite(10.0), Finite(90.0));
    light.ResetRange();
    assert !light.IsRangeSet() && light.category == "Light";
  }
}
