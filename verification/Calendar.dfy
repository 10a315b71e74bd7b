/** The proleptic Gregorian calendar of ECMA-262, section 21.4.1: days are numbered from 1970-01-01. */
module Calendars {
  import opened Digits

  datatype Civil = Civil(year: int, month: int, day: int)

  predicate Leap(y: int) { y % 4 == 0 && (y % 100 != 0 || y % 400 == 0) }

  function DaysInYear(y: int): int { if Leap(y) then 366 else 365 }

  function DayFromYear(y: int): int {
    365 * (y - 1970) + (y - 1969) / 4 - (y - 1901) / 100 + (y - 1601) / 400
  }

  lemma YearsFollow(y: int)
    ensures DayFromYear(y + 1) == DayFromYear(y) + DaysInYear(y)
  {
    var by4 := (y - 1968) / 4 - (y - 1969) / 4;
    var by100 := (y - 1900) / 100 - (y - 1901) / 100;
    var by400 := (y - 1600) / 400 - (y - 1601) / 400;
    assert by4 == if y % 4 == 0 then 1 else 0 by { EveryFourth(y); }
    assert by100 == if y % 100 == 0 then 1 else 0 by { EveryHundredth(y); }
    assert by400 == if y % 400 == 0 then 1 else 0 by { EveryFourHundredth(y); }
    assert DayFromYear(y + 1) - DayFromYear(y) == 365 + by4 - by100 + by400;
    Multiples(y);
  }

  lemma Multiples(y: int)
    ensures y % 400 == 0 ==> y % 100 == 0
    ensures y % 100 == 0 ==> y % 4 == 0
  {
  }

  lemma EveryFourth(y: int)
    ensures (y - 1968) / 4 - (y - 1969) / 4 == if y % 4 == 0 then 1 else 0
  {
  }

  lemma EveryHundredth(y: int)
    ensures (y - 1900) / 100 - (y - 1901) / 100 == if y % 100 == 0 then 1 else 0
  {
  }

  lemma EveryFourHundredth(y: int)
    ensures (y - 1600) / 400 - (y - 1601) / 400 == if y % 400 == 0 then 1 else 0
  {
  }

  /** Days before the first of a month, from January. */
  function DaysBefore(y: int, m: int): int
    requires 1 <= m <= 13
  {
    var leap := if Leap(y) then 1 else 0;
    if m == 1 then 0 else if m == 2 then 31 else if m == 3 then 59 + leap else if m == 4 then 90 + leap
    else if m == 5 then 120 + leap else if m == 6 then 151 + leap else if m == 7 then 181 + leap
    else if m == 8 then 212 + leap else if m == 9 then 243 + leap else if m == 10 then 273 + leap
    else if m == 11 then 304 + leap else if m == 12 then 334 + leap else 365 + leap
  }

  function MonthLength(y: int, m: int): int
    requires 1 <= m <= 12
  {
    DaysBefore(y, m + 1) - DaysBefore(y, m)
  }

  predicate RealDay(c: Civil) { 1 <= c.month <= 12 && 1 <= c.day <= MonthLength(c.year, c.month) }

  /** MakeDay, months counted from 1 and any overflow carried. */
  function DayNumber(c: Civil): int {
    var y := c.year + (c.month - 1) / 12;
    var m := (c.month - 1) % 12 + 1;
    DayFromYear(y) + DaysBefore(y, m) + c.day - 1
  }

  /** YearFromTime, searched downwards from any year that is late enough. */
  function YearFrom(n: int, y: int): (r: int)
    requires n < DayFromYear(y + 1)
    ensures DayFromYear(r) <= n < DayFromYear(r + 1)
    decreases DayFromYear(y + 1) - n
  {
    YearsFollow(y);
    if DayFromYear(y) <= n then y else YearFrom(n, y - 1)
  }

  function YearOf(n: int): (r: int)
    ensures DayFromYear(r) <= n < DayFromYear(r + 1)
  {
    YearFrom(n, 1970 + if n < 0 then 0 else n)
  }

  function MonthOf(y: int, d: int, m: int): (r: int)
    requires 1 <= m <= 12 && 0 <= d < DaysBefore(y, m + 1)
    ensures 1 <= r <= m && DaysBefore(y, r) <= d < DaysBefore(y, r + 1)
    decreases m
  {
    if DaysBefore(y, m) <= d then m else MonthOf(y, d, m - 1)
  }

  function CivilOf(n: int): Civil {
    var y := YearOf(n);
    YearsFollow(y);
    var d := n - DayFromYear(y);
    var m := MonthOf(y, d, 12);
    Civil(y, m, d - DaysBefore(y, m) + 1)
  }

  // ---------------------------------------------------------------------------
  // The calendar is sound
  // ---------------------------------------------------------------------------

  lemma {:induction false} YearsIncrease(y: int, z: int)
    requires y <= z
    ensures DayFromYear(y) + 365 * (z - y) <= DayFromYear(z)
    decreases z - y
  {
    if y < z {
      YearsFollow(z - 1);
      YearsIncrease(y, z - 1);
    }
  }

  lemma MonthsIncrease(y: int, m: int, n: int)
    requires 1 <= m < n <= 13
    ensures DaysBefore(y, m + 1) <= DaysBefore(y, n)
  {
  }

  /** Calendar order. */
  predicate Earlier(a: Civil, b: Civil) {
    a.year < b.year || (a.year == b.year && (a.month < b.month || (a.month == b.month && a.day < b.day)))
  }

  lemma NumbersFollowOrder(a: Civil, b: Civil)
    requires RealDay(a) && RealDay(b) && Earlier(a, b)
    ensures DayNumber(a) < DayNumber(b)
  {
    if a.year < b.year { LaterYear(a, b); } else { SameYear(a, b); }
  }

  lemma LaterYear(a: Civil, b: Civil)
    requires RealDay(a) && RealDay(b) && a.year < b.year
    ensures DayNumber(a) < DayNumber(b)
  {
    assert DayNumber(a) < DayFromYear(a.year + 1) by { InYear(a); }
    assert DayFromYear(a.year + 1) <= DayFromYear(b.year) by { YearsIncrease(a.year + 1, b.year); }
    assert DayFromYear(b.year) <= DayNumber(b) by { InYear(b); }
  }

  lemma SameYear(a: Civil, b: Civil)
    requires RealDay(a) && RealDay(b) && a.year == b.year && Earlier(a, b)
    ensures DayNumber(a) < DayNumber(b)
  {
    InYear(a);
    InYear(b);
    if a.month < b.month { MonthsIncrease(a.year, a.month, b.month); }
  }

  lemma MonthFits(m: int)
    requires 1 <= m <= 12
    ensures (m - 1) / 12 == 0 && (m - 1) % 12 == m - 1
  {
  }

  lemma NumberInYear(c: Civil)
    requires RealDay(c)
    ensures DayNumber(c) == DayFromYear(c.year) + DaysBefore(c.year, c.month) + c.day - 1
  {
    MonthFits(c.month);
  }

  lemma MonthInYear(y: int, m: int)
    requires 1 <= m <= 12
    ensures 0 <= DaysBefore(y, m) <= DaysBefore(y, m + 1) <= DaysInYear(y)
  {
    if m < 12 { MonthsIncrease(y, m, 13); }
  }

  lemma InYear(c: Civil)
    requires RealDay(c)
    ensures DayNumber(c) == DayFromYear(c.year) + DaysBefore(c.year, c.month) + c.day - 1
    ensures DayFromYear(c.year) <= DayNumber(c) < DayFromYear(c.year + 1)
  {
    NumberInYear(c);
    MonthInYear(c.year, c.month);
    assert DayFromYear(c.year + 1) == DayFromYear(c.year) + DaysInYear(c.year) by { YearsFollow(c.year); }
  }

  lemma OrderIsTotal(a: Civil, b: Civil)
    ensures a == b || Earlier(a, b) || Earlier(b, a)
  {
  }

  lemma NumbersAreOrder(a: Civil, b: Civil)
    requires RealDay(a) && RealDay(b)
    ensures DayNumber(a) < DayNumber(b) <==> Earlier(a, b)
    ensures DayNumber(a) == DayNumber(b) <==> a == b
  {
    if Earlier(a, b) { NumbersFollowOrder(a, b); }
    if Earlier(b, a) { NumbersFollowOrder(b, a); }
    OrderIsTotal(a, b);
  }

  /** The month of a day of the year leaves a day of that month. */
  lemma MonthLeavesDay(y: int, d: int)
    requires 0 <= d < DaysBefore(y, 13)
    ensures
      var m := MonthOf(y, d, 12);
      RealDay(Civil(y, m, d - DaysBefore(y, m) + 1))
  {
  }

  /** The year of a day number leaves a day of that year. */
  lemma YearLeavesDay(n: int)
    ensures 0 <= n - DayFromYear(YearOf(n)) < DaysBefore(YearOf(n), 13)
  {
    YearsFollow(YearOf(n));
  }

  lemma CivilOfFits(n: int)
    ensures RealDay(CivilOf(n))
    ensures DaysBefore(CivilOf(n).year, CivilOf(n).month) + CivilOf(n).day - 1 == n - DayFromYear(CivilOf(n).year)
  {
    YearLeavesDay(n);
    MonthLeavesDay(YearOf(n), n - DayFromYear(YearOf(n)));
  }

  lemma CivilOfIsReal(n: int)
    ensures RealDay(CivilOf(n)) && DayNumber(CivilOf(n)) == n
  {
    var c := CivilOf(n);
    CivilOfFits(n);
    assert DayNumber(c) == DayFromYear(c.year) + DaysBefore(c.year, c.month) + c.day - 1 by { InYear(c); }
  }

  lemma CivilOfDayNumber(c: Civil)
    requires RealDay(c)
    ensures CivilOf(DayNumber(c)) == c
  {
    CivilOfIsReal(DayNumber(c));
    NumbersAreOrder(CivilOf(DayNumber(c)), c);
  }

  // ---------------------------------------------------------------------------
  // Dates as strings
  // ---------------------------------------------------------------------------

  predicate FourDigitYear(c: Civil) { 0 <= c.year <= 9999 }

  /** toISOString().slice(0, 10), for years 0 to 9999. */
  function Iso(c: Civil): (s: string)
    requires RealDay(c) && FourDigitYear(c)
    ensures |s| == 10
  {
    Pad(c.year, 4) + "-" + Pad(c.month, 2) + "-" + Pad(c.day, 2)
  }

  lemma Pow10Values()
    ensures Pow10(2) == 100 && Pow10(4) == 10_000
  {
    assert Pow10(1) == 10 && Pow10(3) == 1000;
  }

  lemma DayIsTwoDigits(c: Civil)
    requires RealDay(c)
    ensures c.day <= 31
  {
  }

  /** The order of date strings is the order of dates. */
  lemma IsoOrder(a: Civil, b: Civil)
    requires RealDay(a) && FourDigitYear(a) && RealDay(b) && FourDigitYear(b)
    ensures Before(Iso(a), Iso(b)) <==> Earlier(a, b)
    ensures Iso(a) == Iso(b) <==> a == b
  {
    Pow10Values();
    DayIsTwoDigits(a);
    DayIsTwoDigits(b);
    PadOrder(a.year, b.year, 4);
    PadOrder(a.month, b.month, 2);
    PadOrder(a.day, b.day, 2);
    var ya, ma, da := Pad(a.year, 4), Pad(a.month, 2), Pad(a.day, 2);
    var yb, mb, db := Pad(b.year, 4), Pad(b.month, 2), Pad(b.day, 2);
    IsoCompare(ya, ma, da, yb, mb, db);
    FieldsOf(ya, ma, da);
    FieldsOf(yb, mb, db);
  }

  lemma IsoCompare(ya: string, ma: string, da: string, yb: string, mb: string, db: string)
    requires |ya| == |yb| && |ma| == |mb|
    ensures Before(ya + "-" + ma + "-" + da, yb + "-" + mb + "-" + db) <==>
              Before(ya, yb) || (ya == yb && (Before(ma, mb) || (ma == mb && Before(da, db))))
  {
    assert ya + "-" + ma + "-" + da == ya + ("-" + (ma + ("-" + da)));
    assert yb + "-" + mb + "-" + db == yb + ("-" + (mb + ("-" + db)));
    FieldsCompare(ya, "-" + (ma + ("-" + da)), yb, "-" + (mb + ("-" + db)));
    Dash(ma + ("-" + da), mb + ("-" + db));
    FieldsCompare(ma, "-" + da, mb, "-" + db);
    Dash(da, db);
  }

  lemma FieldsOf(y: string, m: string, d: string)
    ensures
      var s := y + "-" + m + "-" + d;
      s[..|y|] == y && s[|y| + 1..|y| + 1 + |m|] == m && s[|y| + |m| + 2..] == d
  {
  }

  lemma Dash(a: string, b: string)
    ensures Before("-" + a, "-" + b) <==> Before(a, b)
  {
    assert ("-" + a)[1..] == a && ("-" + b)[1..] == b;
  }
}
