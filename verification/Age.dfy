/**
 * Ages from calendar dates: the gate in `packages/platform/src/age.ts` and the
 * separately written `ageFromBirthdate` in `packages/dating/src/profile.ts`.
 */
module Age {
  import opened Core
  import opened Calendar

  const ADULT_MINIMUM_AGE := 18

  /** `maxAge` is `None` for the open-ended top band. */
  datatype Band = Band(minAge: int, maxAge: Option<int>)

  const AGE_BANDS: seq<Band> := [
    Band(18, Some(22)), Band(23, Some(27)), Band(28, Some(32)), Band(33, Some(37)),
    Band(38, Some(42)), Band(43, Some(47)), Band(48, Some(52)), Band(53, Some(57)), Band(58, None)
  ]

  datatype BirthRefusal = Impossible | InFuture

  function ReadDateOfBirth(value: string, now: int): Result<YearMonthDay, BirthRefusal> {
    var p := ParseIso(value);
    if p == None || !RoundTrips(p.value) then Err(Impossible)
    else if UtcDay(p.value.year, p.value.month - 1, p.value.day) >= UtcToday(now) then Err(InFuture)
    else Ok(p.value)
  }

  function AgeOn(p: YearMonthDay, now: int): int {
    var year := YearOf(DayOfInstant(now));
    var today := UtcToday(now);
    var born := UtcDay(p.year, p.month - 1, p.day);
    var birthdayThisYear := UtcDay(year, p.month - 1, p.day);
    var age := if today < birthdayThisYear then year - p.year - 1 else year - p.year;
    if age < 0 || born > today then 0 else age
  }

  function AgeFromBirthdate(birthdate: Option<string>, now: int): Option<int> {
    if birthdate == None then None else
      var p := ParseIso(birthdate.value);
      if p == None || !RoundTrips(p.value) then None else
        var day := DayOfInstant(now);
        var born := UtcDay(p.value.year, p.value.month - 1, p.value.day);
        var hadBirthday := MonthOf(day) > MonthOf(born) || (MonthOf(day) == MonthOf(born) && DateOf(day) >= p.value.day);
        var age := YearOf(day) - p.value.year - if hadBirthday then 0 else 1;
        if UtcToday(now) < born then None else Some(age)
  }

  function BandFrom(bands: seq<Band>, age: int): (r: Option<Band>)
    ensures r.Some? ==> r.value in bands && r.value.minAge <= age
    ensures r.Some? && r.value.maxAge.Some? ==> age <= r.value.maxAge.value
  {
    if bands == [] then None
    else if age >= bands[0].minAge && (bands[0].maxAge == None || age <= bands[0].maxAge.value) then Some(bands[0])
    else BandFrom(bands[1..], age)
  }

  /** `Throws` is the branch the gate says no admitted age reaches. */
  datatype AgeGate = Refused | Admitted(ageYears: int, band: Band) | Throws

  function EvaluateAgeGate(p: YearMonthDay, now: int): AgeGate {
    var age := AgeOn(p, now);
    if age < ADULT_MINIMUM_AGE then Refused else
      var band := BandFrom(AGE_BANDS, age);
      if band == None then Throws else Admitted(age, band.value)
  }

  // ------------------------------------------------------------- properties --

  /** A date of birth the readers accept: real, and of a year `Date.UTC` does not remap. */
  predicate Readable(p: YearMonthDay) {
    100 <= p.year <= 9999 && 1 <= p.month <= 12 && RealDay(p.year, p.month - 1, p.day)
  }

  /** `p` is the calendar day of `now` or an earlier one. */
  predicate BornBy(p: YearMonthDay, now: int) {
    var day := DayOfInstant(now);
    CivilLeq(p.year, p.month - 1, p.day, YearOf(day), MonthOf(day), DateOf(day))
  }

  /** The `n`th birthday has been reached; 29 February falls to 1 March in a common year. */
  predicate ReachedBirthday(p: YearMonthDay, n: int, now: int) {
    var day := DayOfInstant(now);
    CivilLeq(p.year + n, p.month - 1, p.day, YearOf(day), MonthOf(day), DateOf(day))
  }

  lemma BornIsCivil(p: YearMonthDay, now: int)
    requires Readable(p) && YearOf(DayOfInstant(now)) >= 100
    ensures UtcDay(p.year, p.month - 1, p.day) <= UtcToday(now) <==> BornBy(p, now)
  {
    var day := DayOfInstant(now);
    MakeDayOfCivil(day);
    CivilOrder(p.year, p.month - 1, p.day, YearOf(day), MonthOf(day), DateOf(day));
  }

  /** In a common year `Date.UTC` turns 29 February into 1 March. */
  lemma LeapDayTest(y: int, month: int, date: int)
    requires !Leap(y) && RealDay(y, month, date)
    ensures MakeDay(y, 1, 29) <= MakeDay(y, month, date) <==> CivilLeq(y, 1, 29, y, month, date)
  {
    MakeDayInRange(y, 1, 29);
    MakeDayInRange(y, 2, 1);
    CivilOrder(y, 2, 1, y, month, date);
  }

  /** This year's birthday, a real day or 29 February of a common year, compared with a day of the year. */
  lemma BirthdayInYear(y: int, m: int, d: int, month: int, date: int)
    requires 0 <= m < 12 && RealDay(y, month, date) && (RealDay(y, m, d) || (m == 1 && d == 29))
    ensures MakeDay(y, m, d) <= MakeDay(y, month, date) <==> CivilLeq(y, m, d, y, month, date)
  {
    if RealDay(y, m, d) {
      CivilOrder(y, m, d, y, month, date);
    } else {
      LeapDayTest(y, month, date);
    }
  }

  lemma RealElsewhere(y: int, x: int, m: int, d: int)
    requires RealDay(y, m, d)
    ensures RealDay(x, m, d) || (m == 1 && d == 29)
  {
  }

  /** `Date.UTC` of this year's birthday, 29 February included, compared with today. */
  lemma BirthdayTest(p: YearMonthDay, now: int)
    requires Readable(p) && YearOf(DayOfInstant(now)) >= 100
    ensures UtcDay(YearOf(DayOfInstant(now)), p.month - 1, p.day) <= UtcToday(now)
       <==> CivilLeq(YearOf(DayOfInstant(now)), p.month - 1, p.day,
                     YearOf(DayOfInstant(now)), MonthOf(DayOfInstant(now)), DateOf(DayOfInstant(now)))
  {
    var day := DayOfInstant(now);
    MakeDayOfCivil(day);
    BirthdayFrom100(p, YearOf(day), MonthOf(day), DateOf(day));
  }

  lemma BirthdayFrom100(p: YearMonthDay, y: int, month: int, date: int)
    requires Readable(p) && y >= 100 && RealDay(y, month, date)
    ensures UtcDay(y, p.month - 1, p.day) <= UtcDay(y, month, date) <==> CivilLeq(y, p.month - 1, p.day, y, month, date)
  {
    RealElsewhere(p.year, y, p.month - 1, p.day);
    BirthdayInYear(y, p.month - 1, p.day, month, date);
  }

  /** What `readDateOfBirth` accepts: exactly a real day of years 100..9999 before today. */
  lemma ReadsExactlyPastRealDays(value: string, now: int)
    ensures ReadDateOfBirth(value, now).Ok?
       <==> ParseIso(value).Some? && Readable(ParseIso(value).value)
            && UtcDay(ParseIso(value).value.year, ParseIso(value).value.month - 1, ParseIso(value).value.day) < UtcToday(now)
    ensures ReadDateOfBirth(value, now) == Err(Impossible)
       <==> ParseIso(value).None? || !Readable(ParseIso(value).value)
  {
    if ParseIso(value).Some? { RoundTripIffReal(ParseIso(value).value); }
  }

  /** `ageOn` counts the birthdays reached: the independent definition of an age. */
  lemma AgeCountsBirthdays(p: YearMonthDay, now: int, n: int)
    requires Readable(p) && BornBy(p, now)
    ensures AgeOn(p, now) == n <==> ReachedBirthday(p, n, now) && !ReachedBirthday(p, n + 1, now)
  {
    BirthdayTest(p, now);
    BornIsCivil(p, now);
  }

  lemma UnbornIsZero(p: YearMonthDay, now: int)
    requires Readable(p) && !BornBy(p, now)
    ensures AgeOn(p, now) == 0
  {
    if YearOf(DayOfInstant(now)) >= 100 { BornIsCivil(p, now); }
  }

  lemma ProfileAge(birthdate: string, now: int)
    requires ParseIso(birthdate).Some? && Readable(ParseIso(birthdate).value) && BornBy(ParseIso(birthdate).value, now)
    ensures AgeFromBirthdate(Some(birthdate), now)
         == var p, day := ParseIso(birthdate).value, DayOfInstant(now);
            Some(YearOf(day) - p.year - if ReachedBirthday(p, YearOf(day) - p.year, now) then 0 else 1)
  {
    var p := ParseIso(birthdate).value;
    RealDaysRoundTrip(p);
    BornIsCivil(p, now);
  }

  /** The two implementations agree on every birth date not after today. */
  lemma ImplementationsAgree(birthdate: string, now: int)
    requires ParseIso(birthdate).Some? && Readable(ParseIso(birthdate).value) && BornBy(ParseIso(birthdate).value, now)
    ensures AgeFromBirthdate(Some(birthdate), now) == Some(AgeOn(ParseIso(birthdate).value, now))
  {
    var p, day := ParseIso(birthdate).value, DayOfInstant(now);
    ProfileAge(birthdate, now);
    var n := YearOf(day) - p.year - if ReachedBirthday(p, YearOf(day) - p.year, now) then 0 else 1;
    AgeCountsBirthdays(p, now, n);
  }

  /** An age never falls while the clock advances. */
  lemma AgeNeverFalls(p: YearMonthDay, earlier: int, later: int)
    requires Readable(p) && earlier <= later
    ensures AgeOn(p, earlier) <= AgeOn(p, later)
  {
    if !BornBy(p, earlier) {
      UnbornIsZero(p, earlier);
    } else {
      var d0, d1 := DayOfInstant(earlier), DayOfInstant(later);
      assert d0 <= d1;
      MakeDayOfCivil(d0);
      MakeDayOfCivil(d1);
      CivilOrder(YearOf(d0), MonthOf(d0), DateOf(d0), YearOf(d1), MonthOf(d1), DateOf(d1));
      AgeCountsBirthdays(p, earlier, AgeOn(p, earlier));
      AgeCountsBirthdays(p, later, AgeOn(p, later));
    }
  }

  lemma {:induction false} BandsCover(age: int)
    requires age >= ADULT_MINIMUM_AGE
    ensures BandFrom(AGE_BANDS, age).Some?
  {
    BandsSkip(AGE_BANDS, if age >= 58 then 8 else (age - 18) / 5, age);
  }

  lemma {:induction false} BandsSkip(bands: seq<Band>, i: nat, age: int)
    requires i < |bands| && bands[i].minAge <= age && (bands[i].maxAge == None || age <= bands[i].maxAge.value)
    ensures BandFrom(bands, age).Some?
  {
    if i > 0 { BandsSkip(bands[1..], i - 1, age); }
  }

  /** The gate refuses exactly ages under 18, never throws, and names a band holding the age. */
  lemma GateRefusesExactlyMinors(p: YearMonthDay, now: int)
    ensures EvaluateAgeGate(p, now) == Refused <==> AgeOn(p, now) < 18
    ensures !EvaluateAgeGate(p, now).Throws?
    ensures EvaluateAgeGate(p, now).Admitted? ==>
              var Admitted(age, band) := EvaluateAgeGate(p, now);
              age == AgeOn(p, now) && band in AGE_BANDS && band.minAge <= age
              && (band.maxAge.Some? ==> age <= band.maxAge.value)
  {
    if AgeOn(p, now) >= 18 { BandsCover(AgeOn(p, now)); }
  }
}
