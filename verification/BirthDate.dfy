/**
  The birth date of a civil identity (src/crypto/person-identity.ts) and the ages computed from
  it (src/persons/responsibilities.service.ts, src/persons/emancipation.service.ts), against the
  year-only walls of db/schema/017_person_responsibilities.sql and 020_emancipation.sql.
 */
module BirthDates {
  import opened Characters
  import opened Wrappers
  import opened Digits
  import opened Calendars

  const MIN_BIRTH_YEAR := 1900

  /** The shape AAAA-MM-JJ. */
  predicate DateShape(s: string) {
    |s| == 10 && AllDigits(s[..4]) && s[4] == '-' && AllDigits(s[5..7]) && s[7] == '-' && AllDigits(s[8..])
  }

  /** How an engine reads a day such as 31 February: carried into March, or not a date at all. */
  datatype Overflow = Carried | NotADate

  /** Date parsing of `s` at midnight UTC; months and days outside 1-12 and 1-31 never parse. */
  function ParseDate(s: string, overflow: Overflow): Option<int>
    requires DateShape(s)
  {
    var c := Civil(Num(s[..4]), Num(s[5..7]), Num(s[8..]));
    if !(1 <= c.month <= 12 && 1 <= c.day <= 31) then None
    else if overflow == NotADate && !RealDay(c) then None
    else Some(DayNumber(c))
  }

  datatype Refusal = BadShape | NotOnCalendar | InTheFuture | TooOld

  /** toISOString().slice(0, 10) of a day; years past 9999 carry a sign and two more digits. */
  function Reserialised(n: int): string {
    CivilOfIsReal(n);
    var c := CivilOf(n);
    if FourDigitYear(c) then Iso(c)
    else ([if c.year < 0 then '-' else '+'] + Pad(if c.year < 0 then -c.year else c.year, 6)
          + "-" + Pad(c.month, 2) + "-" + Pad(c.day, 2))[..10]
  }

  /** A shaped date against what it re-serialises to, if anything, and the date of today. */
  function RefuseDate(back: Option<string>, today: string, s: string): Option<Refusal>
    requires DateShape(s)
  {
    if back != Some(s) then Some(NotOnCalendar)
    else if Before(today, s) then Some(InTheFuture)
    else if Num(s[..4]) < MIN_BIRTH_YEAR then Some(TooOld)
    else None
  }

  /** The date part of validateIdentity. */
  function CheckBirthDate(s: string, today: int, overflow: Overflow): Option<Refusal> {
    if !DateShape(s) then Some(BadShape)
    else
      var parsed := ParseDate(s, overflow);
      RefuseDate(if parsed.None? then None else Some(Reserialised(parsed.value)), Reserialised(today), s)
  }

  /** What each refusal says of the date, the first that applies; a date that escapes all three is accepted. */
  lemma RefusalsSay(back: Option<string>, today: string, s: string)
    requires DateShape(s)
    ensures RefuseDate(back, today, s) == Some(NotOnCalendar) <==> back != Some(s)
    ensures RefuseDate(back, today, s) == Some(InTheFuture) <==> back == Some(s) && Before(today, s)
    ensures RefuseDate(back, today, s) == Some(TooOld) <==> back == Some(s) && !Before(today, s) && Num(s[..4]) < 1900
    ensures RefuseDate(back, today, s).None? <==> back == Some(s) && !Before(today, s) && Num(s[..4]) >= 1900
  {
  }

  /** The fields of a shaped string, put back together, are the string. */
  lemma ShapeFields(s: string)
    requires DateShape(s)
    ensures 0 <= Num(s[..4]) <= 9999 && 0 <= Num(s[5..7]) <= 99 && 0 <= Num(s[8..]) <= 99
    ensures Pad(Num(s[..4]), 4) + "-" + Pad(Num(s[5..7]), 2) + "-" + Pad(Num(s[8..]), 2) == s
  {
    Pow10Values();
    PadOfNum(s[..4]);
    PadOfNum(s[5..7]);
    PadOfNum(s[8..]);
    assert s == s[..4] + "-" + s[5..7] + "-" + s[8..];
  }

  lemma IsoShape(c: Civil)
    requires RealDay(c) && FourDigitYear(c)
    ensures DateShape(Iso(c))
    ensures Civil(Num(Iso(c)[..4]), Num(Iso(c)[5..7]), Num(Iso(c)[8..])) == c
  {
    Pow10Values();
    DayIsTwoDigits(c);
    FieldsOf(Pad(c.year, 4), Pad(c.month, 2), Pad(c.day, 2));
    NumOfPad(c.year, 4);
    NumOfPad(c.month, 2);
    NumOfPad(c.day, 2);
  }

  /** A string re-serialises to itself exactly when it is the date of a real day. */
  lemma ReserialisesIffReal(s: string, overflow: Overflow)
    requires DateShape(s)
    ensures
      var c := Civil(Num(s[..4]), Num(s[5..7]), Num(s[8..]));
      && ((ParseDate(s, overflow).Some? && Reserialised(ParseDate(s, overflow).value) == s) <==> RealDay(c))
      && (RealDay(c) ==> FourDigitYear(c) && Iso(c) == s)
  {
    var c := Civil(Num(s[..4]), Num(s[5..7]), Num(s[8..]));
    ShapeFields(s);
    if RealDay(c) {
      DayIsTwoDigits(c);
      CivilOfDayNumber(c);
    } else if ParseDate(s, overflow).Some? {
      CarriedIsAnother(c, s);
    }
  }

  /** A carried day comes back as another date. */
  lemma CarriedIsAnother(c: Civil, s: string)
    requires DateShape(s) && c == Civil(Num(s[..4]), Num(s[5..7]), Num(s[8..])) && !RealDay(c)
    ensures Reserialised(DayNumber(c)) != s
  {
    var r := CivilOf(DayNumber(c));
    CivilOfIsReal(DayNumber(c));
    if FourDigitYear(r) {
      IsoShape(r);
    } else {
      assert !IsDigit(Reserialised(DayNumber(c))[0]);
      assert IsDigit(s[..4][0]);
    }
  }

  /** A date the check should accept. */
  ghost predicate DateOf(c: Civil, s: string, today: int) {
    RealDay(c) && 1900 <= c.year <= 9999 && DayNumber(c) <= today && s == Iso(c)
  }

  lemma TodayComparison(c: Civil, today: int)
    requires FourDigitYear(CivilOf(today)) && RealDay(c) && FourDigitYear(c)
    ensures Before(Reserialised(today), Iso(c)) <==> today < DayNumber(c)
  {
    CivilOfIsReal(today);
    IsoOrder(CivilOf(today), c);
    NumbersAreOrder(CivilOf(today), c);
  }

  lemma AcceptedIsADate(s: string, today: int, overflow: Overflow)
    requires FourDigitYear(CivilOf(today)) && CheckBirthDate(s, today, overflow).None?
    ensures DateOf(Civil(Num(s[..4]), Num(s[5..7]), Num(s[8..])), s, today)
  {
    ReserialisesIffReal(s, overflow);
    TodayComparison(Civil(Num(s[..4]), Num(s[5..7]), Num(s[8..])), today);
  }

  lemma DateIsAccepted(c: Civil, s: string, today: int, overflow: Overflow)
    requires FourDigitYear(CivilOf(today)) && DateOf(c, s, today)
    ensures CheckBirthDate(s, today, overflow).None?
  {
    IsoShape(c);
    ReserialisesIffReal(s, overflow);
    TodayComparison(c, today);
  }

  /**
    The check accepts a string exactly when it is the date of a real Gregorian day from
    1900-01-01 to today, whichever way the engine treats a day past the end of its month.
   */
  lemma BirthDateAcceptedIff(s: string, today: int, overflow: Overflow)
    requires FourDigitYear(CivilOf(today))
    ensures CheckBirthDate(s, today, overflow).None? <==> exists c: Civil :: DateOf(c, s, today)
  {
    if CheckBirthDate(s, today, overflow).None? { AcceptedIsADate(s, today, overflow); }
    if c: Civil :| DateOf(c, s, today) { DateIsAccepted(c, s, today, overflow); }
  }

  // ---------------------------------------------------------------------------
  // Ages
  // ---------------------------------------------------------------------------

  function ExactAgeInYears(birth: Civil, today: Civil): int {
    var age := today.year - birth.year;
    if today.month < birth.month || (today.month == birth.month && today.day < birth.day) then age - 1 else age
  }

  /** The k-th anniversary, as a place in the calendar: 29 February stays one in every year. */
  function Anniversary(birth: Civil, k: int): Civil { birth.(year := birth.year + k) }

  predicate NotAfter(a: Civil, b: Civil) { a == b || Earlier(a, b) }

  /** The age is the one k whose anniversary has come while the next has not. */
  lemma AgeIsUnique(birth: Civil, today: Civil, k: int)
    ensures NotAfter(Anniversary(birth, k), today) && Earlier(today, Anniversary(birth, k + 1)) <==>
              k == ExactAgeInYears(birth, today)
  {
  }

  lemma AgeNeverDecreases(birth: Civil, today: Civil, later: Civil)
    requires NotAfter(today, later) && 1 <= birth.month <= 12 && 1 <= today.month <= 12 && 1 <= later.month <= 12
    ensures ExactAgeInYears(birth, today) <= ExactAgeInYears(birth, later)
    ensures today.year - birth.year - 1 <= ExactAgeInYears(birth, today) <= today.year - birth.year
  {
  }

  /** A real day is at least k years after another exactly when the day count has passed the anniversary. */
  lemma AgeInDays(birth: Civil, today: Civil, k: int)
    requires RealDay(birth) && RealDay(today) && RealDay(Anniversary(birth, k))
    ensures ExactAgeInYears(birth, today) >= k <==> DayNumber(Anniversary(birth, k)) <= DayNumber(today)
  {
    NumbersAreOrder(today, Anniversary(birth, k));
    assert ExactAgeInYears(birth, today) >= k <==> NotAfter(Anniversary(birth, k), today);
    OrderIsTotal(today, Anniversary(birth, k));
  }

  // ---------------------------------------------------------------------------
  // The day-precise facades and the year-only walls
  // ---------------------------------------------------------------------------

  /** Attaching a dependent: refused by the facade from the exact age on, by the wall past the year. */
  predicate AttachFacade(birth: Civil, today: Civil, minimumAge: int) { ExactAgeInYears(birth, today) < minimumAge }

  predicate AttachWall(birthYear: int, dbYear: int, minimumAge: int) { dbYear - birthYear <= minimumAge }

  predicate EmancipationFacade(birth: Civil, today: Civil, minimumAge: int) { ExactAgeInYears(birth, today) >= minimumAge }

  predicate EmancipationWall(birthYear: int, dbYear: int, minimumAge: int) { dbYear - birthYear >= minimumAge }

  /**
    The facade of an attachment implies the wall for every birth date exactly when the database
    is not in a later year than the service, or is one year ahead on the service's 31 December.
   */
  lemma AttachFacadeImpliesWallIff(today: Civil, dbYear: int, minimumAge: int)
    requires RealDay(today)
    ensures dbYear <= today.year || (dbYear == today.year + 1 && today.month == 12 && today.day == 31) <==>
              forall birth: Civil | RealDay(birth) && AttachFacade(birth, today, minimumAge) ::
                AttachWall(birth.year, dbYear, minimumAge)
  {
    if dbYear > today.year {
      forall birth: Civil | RealDay(birth) ensures birth.day <= 31 && birth.month <= 12 { DayIsTwoDigits(birth); }
      DayIsTwoDigits(today);
      if dbYear > today.year + 1 {
        var birth := Civil(today.year - minimumAge + 1, 1, 1);
        assert RealDay(birth) && AttachFacade(birth, today, minimumAge);
        assert !AttachWall(birth.year, dbYear, minimumAge);
      } else if !(today.month == 12 && today.day == 31) {
        var birth := Civil(today.year - minimumAge, 12, 31);
        assert RealDay(birth) && AttachFacade(birth, today, minimumAge);
        assert !AttachWall(birth.year, dbYear, minimumAge);
      }
    }
  }

  /** So a database whose calendar day is at most the service's next day never refuses what the facade let through. */
  lemma AttachWallIsSilent(birth: Civil, today: Civil, dbDay: Civil, minimumAge: int)
    requires RealDay(birth) && RealDay(today) && RealDay(dbDay) && DayNumber(dbDay) <= DayNumber(today) + 1
    requires AttachFacade(birth, today, minimumAge)
    ensures AttachWall(birth.year, dbDay.year, minimumAge)
  {
    if dbDay.year > today.year { NextYearIsTomorrow(today, dbDay); }
    AttachFacadeImpliesWallIff(today, dbDay.year, minimumAge);
  }

  lemma NextYearIsTomorrow(today: Civil, next: Civil)
    requires RealDay(today) && RealDay(next) && DayNumber(next) <= DayNumber(today) + 1 && next.year > today.year
    ensures next.year == today.year + 1 && today.month == 12 && today.day == 31
  {
    YearsBelow(today.year + 1, next);
    LastDay(today);
    NoGap(DayFromYear(today.year + 1), next.year - today.year - 1, DayNumber(next), DayNumber(today));
  }

  lemma NoGap(start: int, gap: int, next: int, today: int)
    requires gap >= 0 && start + 365 * gap <= next <= today + 1 && today < start
    ensures gap == 0 && today == start - 1
  {
  }

  lemma YearsBelow(y: int, c: Civil)
    requires RealDay(c) && y <= c.year
    ensures DayFromYear(y) + 365 * (c.year - y) <= DayNumber(c)
  {
    assert DayFromYear(c.year) <= DayNumber(c) by { InYear(c); }
    YearsIncrease(y, c.year);
  }

  lemma LastDay(c: Civil)
    requires RealDay(c)
    ensures DayNumber(c) < DayFromYear(c.year + 1)
    ensures DayNumber(c) == DayFromYear(c.year + 1) - 1 ==> c.month == 12 && c.day == 31
  {
    InYear(c);
    YearsFollow(c.year);
    if c.month < 12 { MonthsIncrease(c.year, c.month, 12); }
  }

  /** The facade of an emancipation implies the wall exactly when the database is in no earlier year. */
  lemma EmancipationFacadeImpliesWallIff(today: Civil, dbYear: int, minimumAge: int)
    requires RealDay(today)
    ensures dbYear >= today.year <==>
              forall birth: Civil | RealDay(birth) && EmancipationFacade(birth, today, minimumAge) ::
                EmancipationWall(birth.year, dbYear, minimumAge)
  {
    if dbYear < today.year {
      var birth := Civil(today.year - minimumAge, 1, 1);
      assert RealDay(birth) && EmancipationFacade(birth, today, minimumAge) by {
        assert ExactAgeInYears(birth, today) == minimumAge;
      }
      assert !EmancipationWall(birth.year, dbYear, minimumAge);
    }
  }
}
