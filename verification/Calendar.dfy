/**
 * The calendar arithmetic of `Date.UTC` and its inverse (sections 21.4.1 and
 * 21.4.3.4 of ECMA-262), on whole days since 1 January 1970. Months are counted
 * from zero, as `Date.UTC` and `getUTCMonth` count them.
 */
module Calendar {
  import opened Core

  const MS_PER_DAY := 86_400_000

  /** The day an instant in milliseconds falls on. */
  function DayOfInstant(at: int): int {
    at / MS_PER_DAY
  }

  // ------------------------------------------------------------------ years --

  predicate Leap(y: int) {
    y % 4 == 0 && (y % 100 != 0 || y % 400 == 0)
  }

  function DaysInYear(y: int): int {
    if Leap(y) then 366 else 365
  }

  /** The day number of 1 January: the lengths of the years between it and 1970. */
  function DayFromYear(y: int): int
    decreases if y >= 1970 then y - 1970 else 1970 - y
  {
    if y == 1970 then 0
    else if y > 1970 then DayFromYear(y - 1) + DaysInYear(y - 1)
    else DayFromYear(y + 1) - DaysInYear(y)
  }

  lemma YearLength(y: int)
    ensures DayFromYear(y + 1) == DayFromYear(y) + DaysInYear(y)
  {
  }

  function LeapCount(y: int): int {
    (y - 1969) / 4 - (y - 1901) / 100 + (y - 1601) / 400
  }

  lemma FourthStep(y: int)
    ensures (y - 1968) / 4 == (y - 1969) / 4 + if y % 4 == 0 then 1 else 0
  {
  }

  lemma HundredthStep(y: int)
    ensures (y - 1900) / 100 == (y - 1901) / 100 + if y % 100 == 0 then 1 else 0
  {
  }

  lemma FourHundredthStep(y: int)
    ensures (y - 1600) / 400 == (y - 1601) / 400 + if y % 400 == 0 then 1 else 0
  {
  }

  lemma HundredsDivide(y: int, q: int)
    requires y == 400 * q
    ensures y % 100 == 0
  {
    assert y == 100 * (4 * q);
  }

  lemma FoursDivide(y: int, q: int)
    requires y == 100 * q
    ensures y % 4 == 0
  {
    assert y == 4 * (25 * q);
  }

  lemma DividesDown(y: int)
    ensures y % 400 == 0 ==> y % 100 == 0
    ensures y % 100 == 0 ==> y % 4 == 0
  {
    if y % 400 == 0 { HundredsDivide(y, y / 400); }
    if y % 100 == 0 { FoursDivide(y, y / 100); }
  }

  lemma LeapByRules(y: int)
    ensures (if Leap(y) then 1 else 0)
         == (if y % 4 == 0 then 1 else 0) - (if y % 100 == 0 then 1 else 0) + if y % 400 == 0 then 1 else 0
  {
    DividesDown(y);
  }

  lemma LeapCountStep(y: int)
    ensures LeapCount(y + 1) == LeapCount(y) + if Leap(y) then 1 else 0
  {
    FourthStep(y);
    HundredthStep(y);
    FourHundredthStep(y);
    LeapByRules(y);
  }

  /** DayFromYear of section 21.4.1.6 of ECMA-262 is that sum in closed form. */
  lemma {:induction false} DayFromYearClosedForm(y: int)
    ensures DayFromYear(y) == 365 * (y - 1970) + LeapCount(y)
    decreases if y >= 1970 then y - 1970 else 1970 - y
  {
    if y > 1970 {
      DayFromYearClosedForm(y - 1);
      LeapCountStep(y - 1);
    } else if y < 1970 {
      DayFromYearClosedForm(y + 1);
      LeapCountStep(y);
    }
  }

  lemma {:induction false} YearsIncrease(a: int, b: int)
    requires a < b
    ensures DayFromYear(a) + 365 * (b - a) <= DayFromYear(b)
    decreases b - a
  {
    YearLength(b - 1);
    if a < b - 1 { YearsIncrease(a, b - 1); }
  }

  /** An upper estimate never reached from above: the walk in `YearOf` starts here. */
  lemma {:induction false} EstimateBelow(day: int)
    ensures DayFromYear(FirstGuess(day)) <= day
  {
    var k := FirstGuess(day) - 1970;
    if k > 0 {
      YearsBounded(k);
    } else if k < 0 {
      YearsIncrease(1970 + k, 1970);
    }
  }

  lemma {:induction false} YearsBounded(k: nat)
    ensures DayFromYear(1970 + k) <= 366 * k
  {
    if k > 0 {
      YearsBounded(k - 1);
      YearLength(1970 + k - 1);
    }
  }

  function FirstGuess(day: int): int {
    1970 + if day >= 0 then day / 366 else day / 365
  }

  function WalkYears(day: int, y: int): (r: int)
    requires DayFromYear(y) <= day
    ensures DayFromYear(r) <= day < DayFromYear(r + 1)
    decreases day - DayFromYear(y)
  {
    YearLength(y);
    if DayFromYear(y + 1) <= day then WalkYears(day, y + 1) else y
  }

  /** `getUTCFullYear`: the year whose first day is the last one not after `day`. */
  function YearOf(day: int): (y: int)
    ensures DayFromYear(y) <= day < DayFromYear(y + 1)
  {
    EstimateBelow(day);
    WalkYears(day, FirstGuess(day))
  }

  lemma YearUnique(day: int, y: int)
    requires DayFromYear(y) <= day < DayFromYear(y + 1)
    ensures YearOf(day) == y
  {
    var r := YearOf(day);
    if r < y && r + 1 < y { YearsIncrease(r + 1, y); }
    if y < r && y + 1 < r { YearsIncrease(y + 1, r); }
  }

  // ----------------------------------------------------------------- months --

  function DaysInMonth(y: int, m: int): int
    requires 0 <= m < 12
  {
    if m == 1 then (if Leap(y) then 29 else 28)
    else if m == 3 || m == 5 || m == 8 || m == 10 then 30
    else 31
  }

  function CommonDaysBefore(m: int): int
    requires 0 <= m <= 12
  {
    if m <= 6 then
      if m <= 3 then (if m == 0 then 0 else if m == 1 then 31 else if m == 2 then 59 else 90)
      else if m == 4 then 120 else if m == 5 then 151 else 181
    else if m <= 9 then (if m == 7 then 212 else if m == 8 then 243 else 273)
    else if m == 10 then 304 else if m == 11 then 334 else 365
  }

  /** Days of the year before the first of month `m`; month 12 is the year's length. */
  function DaysBefore(y: int, m: int): (d: int)
    requires 0 <= m <= 12
    ensures m == 12 ==> d == DaysInYear(y)
    ensures 28 * m <= d <= 31 * m
  {
    CommonDaysBefore(m) + if m >= 2 && Leap(y) then 1 else 0
  }

  lemma MonthLength(y: int, m: int)
    requires 0 <= m < 12
    ensures DaysBefore(y, m + 1) == DaysBefore(y, m) + DaysInMonth(y, m)
  {
  }

  lemma {:induction false} MonthsIncrease(y: int, a: int, b: int)
    requires 0 <= a < b <= 12
    ensures DaysBefore(y, a) < DaysBefore(y, b)
    decreases b - a
  {
    MonthLength(y, b - 1);
    if a < b - 1 { MonthsIncrease(y, a, b - 1); }
  }

  function WalkMonths(y: int, within: int, m: int): (r: int)
    requires 0 <= m < 12 && DaysBefore(y, m) <= within < DaysInYear(y)
    ensures 0 <= r < 12 && DaysBefore(y, r) <= within < DaysBefore(y, r + 1)
    decreases 12 - m
  {
    if within < DaysBefore(y, m + 1) then m else WalkMonths(y, within, m + 1)
  }

  function DayWithinYear(day: int): (d: int)
    ensures 0 <= d < DaysInYear(YearOf(day))
  {
    YearLength(YearOf(day));
    day - DayFromYear(YearOf(day))
  }

  /** `getUTCMonth`. */
  function MonthOf(day: int): (m: int)
    ensures 0 <= m < 12
    ensures DaysBefore(YearOf(day), m) <= DayWithinYear(day) < DaysBefore(YearOf(day), m + 1)
  {
    WalkMonths(YearOf(day), DayWithinYear(day), 0)
  }

  /** `getUTCDate`. */
  function DateOf(day: int): (d: int)
    ensures 1 <= d <= DaysInMonth(YearOf(day), MonthOf(day))
  {
    MonthLength(YearOf(day), MonthOf(day));
    DayWithinYear(day) - DaysBefore(YearOf(day), MonthOf(day)) + 1
  }

  // --------------------------------------------------------------- Date.UTC --

  /** MakeDay: a month outside 0..11 carries into the year, a day into the month. */
  function MakeDay(y: int, m: int, d: int): int {
    var year, month := y + m / 12, m % 12;
    DayFromYear(year) + DaysBefore(year, month) + d - 1
  }

  /** `Date.UTC(y, m, d)` in days: years 0..99 mean 1900..1999. */
  function UtcDay(y: int, m: int, d: int): int {
    MakeDay(if 0 <= y <= 99 then 1900 + y else y, m, d)
  }

  /** The day `now` falls on, sent back through `Date.UTC` as every reader does. */
  function UtcToday(now: int): int {
    var day := DayOfInstant(now);
    UtcDay(YearOf(day), MonthOf(day), DateOf(day))
  }

  /** A day that exists, `m` counted from zero. */
  predicate RealDay(y: int, m: int, d: int) {
    0 <= m < 12 && 1 <= d <= DaysInMonth(y, m)
  }

  lemma {:induction false} MakeDayInRange(y: int, m: int, d: int)
    requires 0 <= m < 12
    ensures MakeDay(y, m, d) == DayFromYear(y) + DaysBefore(y, m) + d - 1
  {
    assert m / 12 == 0 && m % 12 == m;
  }

  lemma MonthUnique(y: int, within: int, m: int, r: int)
    requires 0 <= m < 12 && 0 <= r < 12
    requires DaysBefore(y, m) <= within < DaysBefore(y, m + 1)
    requires DaysBefore(y, r) <= within < DaysBefore(y, r + 1)
    ensures m == r
  {
    if r + 1 < m { MonthsIncrease(y, r + 1, m); }
    if m + 1 < r { MonthsIncrease(y, m + 1, r); }
  }

  lemma RealDayWithinYear(y: int, m: int, d: int)
    requires RealDay(y, m, d)
    ensures DaysBefore(y, m) <= DaysBefore(y, m) + d - 1 < DaysBefore(y, m + 1) <= DaysInYear(y)
  {
    MonthLength(y, m);
    if m + 1 < 12 { MonthsIncrease(y, m + 1, 12); }
  }

  lemma {:induction false} OffsetWithinYear(day: int, y: int, offset: int)
    requires 0 <= offset < DaysInYear(y) && day == DayFromYear(y) + offset
    ensures YearOf(day) == y && DayWithinYear(day) == offset
  {
    YearLength(y);
    YearUnique(day, y);
  }

  lemma MonthAtOffset(day: int, y: int, m: int, offset: int)
    requires 0 <= m < 12 && YearOf(day) == y && DayWithinYear(day) == offset
    requires DaysBefore(y, m) <= offset < DaysBefore(y, m + 1)
    ensures MonthOf(day) == m
  {
    MonthUnique(y, offset, m, MonthOf(day));
  }

  lemma CivilAtOffset(day: int, y: int, m: int, d: int)
    requires RealDay(y, m, d)
    requires YearOf(day) == y && DayWithinYear(day) == DaysBefore(y, m) + d - 1
    ensures MonthOf(day) == m && DateOf(day) == d
  {
    RealDayWithinYear(y, m, d);
    MonthAtOffset(day, y, m, DaysBefore(y, m) + d - 1);
  }

  /** `MakeDay` of a real day is read back unchanged. */
  lemma CivilOfMakeDay(y: int, m: int, d: int)
    requires RealDay(y, m, d)
    ensures YearOf(MakeDay(y, m, d)) == y && MonthOf(MakeDay(y, m, d)) == m && DateOf(MakeDay(y, m, d)) == d
  {
    MakeDayInRange(y, m, d);
    RealDayWithinYear(y, m, d);
    OffsetWithinYear(MakeDay(y, m, d), y, DaysBefore(y, m) + d - 1);
    CivilAtOffset(MakeDay(y, m, d), y, m, d);
  }

  /** Every day number is the `MakeDay` of what is read out of it. */
  lemma MakeDayOfCivil(day: int)
    ensures MakeDay(YearOf(day), MonthOf(day), DateOf(day)) == day
    ensures RealDay(YearOf(day), MonthOf(day), DateOf(day))
  {
    MakeDayInRange(YearOf(day), MonthOf(day), DateOf(day));
  }

  // ------------------------------------------------------ calendar-day order --

  predicate CivilLeq(y0: int, m0: int, d0: int, y1: int, m1: int, d1: int) {
    y0 < y1 || (y0 == y1 && (m0 < m1 || (m0 == m1 && d0 <= d1)))
  }

  lemma CivilBefore(y0: int, m0: int, d0: int, y1: int, m1: int, d1: int)
    requires RealDay(y0, m0, d0) && RealDay(y1, m1, d1)
    requires CivilLeq(y0, m0, d0, y1, m1, d1)
    ensures MakeDay(y0, m0, d0) <= MakeDay(y1, m1, d1)
    ensures (y0, m0, d0) != (y1, m1, d1) ==> MakeDay(y0, m0, d0) < MakeDay(y1, m1, d1)
  {
    MakeDayInRange(y0, m0, d0);
    MakeDayInRange(y1, m1, d1);
    RealDayWithinYear(y0, m0, d0);
    if y0 < y1 {
      YearLength(y0);
      if y0 + 1 < y1 { YearsIncrease(y0 + 1, y1); }
    } else if m0 + 1 < m1 {
      MonthsIncrease(y0, m0 + 1, m1);
    }
  }

  /** The order of real days is the order of their day numbers. */
  lemma CivilOrder(y0: int, m0: int, d0: int, y1: int, m1: int, d1: int)
    requires RealDay(y0, m0, d0) && RealDay(y1, m1, d1)
    ensures CivilLeq(y0, m0, d0, y1, m1, d1) <==> MakeDay(y0, m0, d0) <= MakeDay(y1, m1, d1)
  {
    if CivilLeq(y0, m0, d0, y1, m1, d1) {
      CivilBefore(y0, m0, d0, y1, m1, d1);
    } else {
      CivilBefore(y1, m1, d1, y0, m0, d0);
    }
  }

  // ------------------------------------------------------------ the round trip --

  predicate Digit(c: char) {
    '0' <= c <= '9'
  }

  function DigitValue(c: char): (v: nat)
    requires Digit(c)
    ensures v <= 9
  {
    c as int - '0' as int
  }

  datatype YearMonthDay = YearMonthDay(year: int, month: int, day: int)

  /** `/^(\d{4})-(\d{2})-(\d{2})$/`, with the groups read as numbers. */
  function ParseIso(s: string): (r: Option<YearMonthDay>)
    ensures r.Some? ==> 0 <= r.value.year <= 9999 && 0 <= r.value.month <= 99 && 0 <= r.value.day <= 99
  {
    if |s| == 10 && s[4] == '-' && s[7] == '-'
       && Digit(s[0]) && Digit(s[1]) && Digit(s[2]) && Digit(s[3])
       && Digit(s[5]) && Digit(s[6]) && Digit(s[8]) && Digit(s[9])
    then
      Some(YearMonthDay(
        1000 * DigitValue(s[0]) + 100 * DigitValue(s[1]) + 10 * DigitValue(s[2]) + DigitValue(s[3]),
        10 * DigitValue(s[5]) + DigitValue(s[6]),
        10 * DigitValue(s[8]) + DigitValue(s[9])))
    else None
  }

  function DigitChar(n: nat): (c: char)
    requires n <= 9
    ensures Digit(c) && DigitValue(c) == n
  {
    ('0' as int + n) as char
  }

  function TwoDigits(n: nat): string
    requires n <= 99
  {
    [DigitChar(n / 10), DigitChar(n % 10)]
  }

  predicate Writable(p: YearMonthDay) {
    0 <= p.year <= 9999 && 0 <= p.month <= 99 && 0 <= p.day <= 99
  }

  /** `YYYY-MM-DD`. */
  function WriteIso(p: YearMonthDay): string
    requires Writable(p)
  {
    TwoDigits(p.year / 100) + TwoDigits(p.year % 100) + "-" + TwoDigits(p.month) + "-" + TwoDigits(p.day)
  }

  lemma DigitsAreTheirValue(c: char)
    requires Digit(c)
    ensures DigitChar(DigitValue(c)) == c
  {
  }

  lemma TwoDigitsOf(tens: char, ones: char)
    requires Digit(tens) && Digit(ones)
    ensures TwoDigits(10 * DigitValue(tens) + DigitValue(ones)) == [tens, ones]
  {
    DigitsAreTheirValue(tens);
    DigitsAreTheirValue(ones);
  }

  lemma ParsesBack(p: YearMonthDay)
    requires Writable(p)
    ensures ParseIso(WriteIso(p)) == Some(p)
  {
    var s := WriteIso(p);
    assert s[0] == DigitChar(p.year / 100 / 10) && s[1] == DigitChar(p.year / 100 % 10);
    assert s[2] == DigitChar(p.year % 100 / 10) && s[3] == DigitChar(p.year % 100 % 10);
  }

  /** A text is read as a day exactly when it is that day written out. */
  lemma ParseIsoIff(s: string, p: YearMonthDay)
    requires Writable(p)
    ensures ParseIso(s) == Some(p) <==> s == WriteIso(p)
  {
    ParsesBack(p);
    if ParseIso(s) == Some(p) {
      TwoDigitsOf(s[0], s[1]);
      TwoDigitsOf(s[2], s[3]);
      TwoDigitsOf(s[5], s[6]);
      TwoDigitsOf(s[8], s[9]);
      var century, rest := 10 * DigitValue(s[0]) + DigitValue(s[1]), 10 * DigitValue(s[2]) + DigitValue(s[3]);
      assert p.year == 100 * century + rest && p.year / 100 == century && p.year % 100 == rest;
    }
  }

  /** What the three readers test after parsing: `Date.UTC` gives the fields back. */
  predicate RoundTrips(p: YearMonthDay) {
    var day := UtcDay(p.year, p.month - 1, p.day);
    YearOf(day) == p.year && MonthOf(day) == p.month - 1 && DateOf(day) == p.day
  }

  lemma {:induction false} EarlyYearsMapToTheTwentiethCentury(p: YearMonthDay)
    requires 0 <= p.year <= 99 && 0 <= p.month <= 99 && 0 <= p.day <= 99
    ensures YearOf(UtcDay(p.year, p.month - 1, p.day)) > 1800
  {
    var day := UtcDay(p.year, p.month - 1, p.day);
    var year := 1900 + p.year + (p.month - 1) / 12;
    assert year >= 1899;
    if 1899 < year { YearsIncrease(1899, year); }
    YearsIncrease(1898, 1899);
    var r := YearOf(day);
    if r + 1 <= 1898 && r + 1 < 1898 { YearsIncrease(r + 1, 1898); }
  }

  lemma RealDaysRoundTrip(p: YearMonthDay)
    requires 100 <= p.year && RealDay(p.year, p.month - 1, p.day)
    ensures RoundTrips(p)
  {
    assert UtcDay(p.year, p.month - 1, p.day) == MakeDay(p.year, p.month - 1, p.day);
    CivilOfMakeDay(p.year, p.month - 1, p.day);
  }

  lemma RoundTripsAreReal(p: YearMonthDay)
    requires RoundTrips(p)
    ensures RealDay(p.year, p.month - 1, p.day)
  {
  }

  /** The round trip accepts exactly the real Gregorian days of years 100 to 9999. */
  lemma RoundTripIffReal(p: YearMonthDay)
    requires 0 <= p.year <= 9999 && 0 <= p.month <= 99 && 0 <= p.day <= 99
    ensures RoundTrips(p) <==> 100 <= p.year && RealDay(p.year, p.month - 1, p.day)
  {
    if p.year <= 99 {
      EarlyYearsMapToTheTwentiethCentury(p);
    } else if RealDay(p.year, p.month - 1, p.day) {
      RealDaysRoundTrip(p);
    } else if RoundTrips(p) {
      RoundTripsAreReal(p);
    }
  }

  /** `text` is a real day of the years 100 to 9999, and that day is `day`. */
  ghost predicate NamesDay(text: string, day: int) {
    exists p :: Writable(p) && 100 <= p.year && RealDay(p.year, p.month - 1, p.day)
                && text == WriteIso(p) && day == MakeDay(p.year, p.month - 1, p.day)
  }

  lemma NamedDayReads(text: string, p: YearMonthDay)
    requires Writable(p) && 100 <= p.year && RealDay(p.year, p.month - 1, p.day) && text == WriteIso(p)
    ensures ParseIso(text) == Some(p) && RoundTrips(p)
    ensures UtcDay(p.year, p.month - 1, p.day) == MakeDay(p.year, p.month - 1, p.day)
  {
    ParseIsoIff(text, p);
    RoundTripIffReal(p);
  }

  lemma ReadDayIsNamed(text: string)
    requires ParseIso(text).Some? && RoundTrips(ParseIso(text).value)
    ensures var p := ParseIso(text).value; NamesDay(text, UtcDay(p.year, p.month - 1, p.day))
  {
    var p := ParseIso(text).value;
    ParseIsoIff(text, p);
    RoundTripIffReal(p);
  }

  /** What a reader that parses and round-trips accepts, and the day it then compares. */
  lemma ReadsNamedDays(text: string)
    ensures (ParseIso(text).Some? && RoundTrips(ParseIso(text).value)) <==> exists day :: NamesDay(text, day)
    ensures forall day :: NamesDay(text, day) ==>
              ParseIso(text).Some? && day == UtcDay(ParseIso(text).value.year, ParseIso(text).value.month - 1, ParseIso(text).value.day)
  {
    forall day | NamesDay(text, day)
      ensures ParseIso(text).Some? && RoundTrips(ParseIso(text).value)
      ensures day == UtcDay(ParseIso(text).value.year, ParseIso(text).value.month - 1, ParseIso(text).value.day)
    {
      var p :| Writable(p) && 100 <= p.year && RealDay(p.year, p.month - 1, p.day)
               && text == WriteIso(p) && day == MakeDay(p.year, p.month - 1, p.day);
      NamedDayReads(text, p);
    }
    if ParseIso(text).Some? && RoundTrips(ParseIso(text).value) { ReadDayIsNamed(text); }
  }

  /**
   * The day `today` sends through `Date.UTC` is the day of the clock, except in the years
   * 0 to 99, which `Date.UTC` takes for the twentieth century.
   */
  lemma UtcTodayIs(now: int)
    ensures var day := DayOfInstant(now);
            UtcToday(now) == if 0 <= YearOf(day) <= 99 then MakeDay(1900 + YearOf(day), MonthOf(day), DateOf(day)) else day
  {
    MakeDayOfCivil(DayOfInstant(now));
  }
}
