/**
 * The hour-of-day classifier of api/lib/time.js: `isValidHour`, in both
 * versions left by an unresolved merge, and `whatPartOfDay`.
 */
module Time {
  import opened Wrappers
  import opened JsNumber
  import opened JsValue

  const MinHour: int := 0
  const MaxHour: int := 23
  const DaylightStart: int := 7
  const DaylightEnd: int := 17

  datatype PartOfDay = Daylight | Night | Undetermined {
    /** The string `whatPartOfDay` returns. */
    function Label(): string {
      match this
      case Daylight => "Daylight"
      case Night => "Night"
      case Undetermined => "Undetermined"
    }
  }

  /** The value denoting the integer hour `h`. */
  function ClockHour(h: int): Value {
    Num(FromInt(h))
  }

  /**
   * `isValidHour` as written on the HEAD side of the merge: all three checks
   * are evaluated before the conjunction, so the range test converts `hour`
   * to a number even when it is not one, and throws where that conversion does.
   */
  function IsValidHourHead(hour: Value): (r: Completion<bool>)
    ensures r == Normal(true) ==> hour.Num?
  {
    var isNumber := TypeOf(hour) == "number";
    var isInteger := IsIntegerValue(hour);
    match ToNumeric(hour)
    case None => TypeError
    case Some(x) =>
      var isInRange := Ge(x, FromInt(MinHour)) && Le(x, FromInt(MaxHour));
      Normal(isNumber && isInteger && isInRange)
  }

  /**
   * `isValidHour` as written on the incoming side: an early `false` when any
   * check fails. The `||` stops at the type check, so the range tests only
   * ever see numbers.
   */
  predicate IsValidHourIncoming(hour: Value) {
    if TypeOf(hour) != "number"
       || !IsIntegerValue(hour)
       || Lt(hour.n, FromInt(MinHour))
       || Gt(hour.n, FromInt(MaxHour))
    then false
    else true
  }

  /** `isValidHour`: the incoming side, which answers for every value (see `HeadThrowsOnSymbol`). */
  predicate IsValidHour(hour: Value) {
    IsValidHourIncoming(hour)
  }

  /**
   * Wherever the HEAD version of `isValidHour` returns, it returns what the
   * incoming version does. It throws exactly where converting the value to a
   * number throws, which only symbols and objects do, and there the incoming
   * version returns false.
   */
  lemma MergeSidesAgree(hour: Value)
    ensures IsValidHourHead(hour).Normal? ==> (IsValidHourHead(hour).value <==> IsValidHourIncoming(hour))
    ensures IsValidHourHead(hour).TypeError? <==> ToNumeric(hour).None?
    ensures ToNumeric(hour).None? ==> (hour.Symbol? || hour.Object?) && !IsValidHourIncoming(hour)
  {
  }

  /** A value is a valid hour exactly when it is the number of one of the hours 0 to 23. */
  lemma ValidHourIsClockHour(hour: Value)
    ensures IsValidHour(hour) <==> exists h :: MinHour <= h <= MaxHour && hour == ClockHour(h)
  {
    if IsValidHour(hour) {
      var h := hour.n.x.Floor;
      assert hour == ClockHour(h);
    }
  }

  function WhatPartOfDay(hour: Value): (part: PartOfDay)
    ensures part == Undetermined <==> !IsValidHour(hour)
  {
    if !IsValidHour(hour) then Undetermined
    else if Ge(hour.n, FromInt(DaylightStart)) && Le(hour.n, FromInt(DaylightEnd)) then Daylight
    else Night
  }

  /** `whatPartOfDay` built on the HEAD version of `isValidHour`: it throws where that does. */
  function WhatPartOfDayHead(hour: Value): (r: Completion<PartOfDay>)
    ensures r.TypeError? <==> ToNumeric(hour).None?
  {
    match IsValidHourHead(hour)
    case TypeError => TypeError
    case Normal(valid) =>
      if !valid then Normal(Undetermined)
      else if Ge(hour.n, FromInt(DaylightStart)) && Le(hour.n, FromInt(DaylightEnd)) then Normal(Daylight)
      else Normal(Night)
  }

  /** Where the HEAD version of `whatPartOfDay` returns, it gives the same answer as the incoming one. */
  lemma HeadAgreesWhereItReturns(hour: Value)
    requires WhatPartOfDayHead(hour).Normal?
    ensures WhatPartOfDayHead(hour).value == WhatPartOfDay(hour)
  {
    MergeSidesAgree(hour);
  }

  /**
   * On the HEAD side, `whatPartOfDay(Symbol())` and
   * `whatPartOfDay(Object.create(null))` throw a TypeError from the range
   * test; the incoming side answers "Undetermined" for both.
   */
  lemma HeadThrowsOnSymbol()
    ensures WhatPartOfDayHead(Symbol(0)) == TypeError
    ensures WhatPartOfDayHead(Object(0, None)) == TypeError
    ensures WhatPartOfDay(Symbol(0)) == Undetermined
    ensures WhatPartOfDay(Object(0, None)) == Undetermined
  {
  }

  /** Hours 7 to 17 are daylight, the other hours from 0 to 23 are night. */
  lemma ClassifyClockHour(h: int)
    requires MinHour <= h <= MaxHour
    ensures WhatPartOfDay(ClockHour(h)) == if DaylightStart <= h <= DaylightEnd then Daylight else Night
  {
  }

  /** Every value that is not one of the hours 0 to 23 is undetermined. */
  lemma NonHourUndetermined(hour: Value)
    requires forall h :: MinHour <= h <= MaxHour ==> hour != ClockHour(h)
    ensures WhatPartOfDay(hour) == Undetermined
  {
    ValidHourIsClockHour(hour);
  }

  /** A daylight or night answer is only ever given for one of the hours 0 to 23. */
  lemma ClassifiedIsClockHour(hour: Value)
    requires WhatPartOfDay(hour) != Undetermined
    ensures exists h :: MinHour <= h <= MaxHour && hour == ClockHour(h)
  {
    ValidHourIsClockHour(hour);
  }

  /** The labels are three distinct strings, so the string answer determines the classification. */
  lemma LabelsDistinct(a: PartOfDay, b: PartOfDay)
    ensures a.Label() == b.Label() <==> a == b
  {
  }

  /** The cases exercised by the module's tests, and a few the type-strict check implies. */
  lemma DayOrNightExamples()
    ensures WhatPartOfDay(ClockHour(7)) == Daylight
    ensures WhatPartOfDay(ClockHour(12)) == Daylight
    ensures WhatPartOfDay(ClockHour(18)) == Night
    ensures WhatPartOfDay(ClockHour(3)) == Night
    ensures WhatPartOfDay(ClockHour(-1)) == Undetermined
    ensures WhatPartOfDay(ClockHour(25)) == Undetermined
    ensures WhatPartOfDay(ClockHour(24)) == Undetermined
    ensures WhatPartOfDay(Num(Finite(3.5))) == Undetermined
    ensures WhatPartOfDay(Num(NaN)) == Undetermined
    ensures WhatPartOfDay(Str("7")) == Undetermined
    ensures WhatPartOfDay(Null) == Undetermined
    ensures WhatPartOfDay(Symbol(0)) == Undetermined
    ensures WhatPartOfDay(Object(0, Some(ClockHour(7)))) == Undetermined
  {
  }
}
