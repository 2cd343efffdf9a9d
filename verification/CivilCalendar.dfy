/**
 The day arithmetic of the language's `Date` (section 21.4.1 of ECMA-262): day numbers counted from
 1 January 1970, years, months and dates, and the year rule of `Date.UTC`.
 */
module CivilCalendar {

  /** `month` counts from zero, `date` from one. */
  datatype CivilDay = CivilDay(year: int, month: int, date: int)

  predicate IsLeapYear(year: int) {
    year % 4 == 0 && (year % 100 != 0 || year % 400 == 0)
  }

  function YearLength(year: int): int {
    if IsLeapYear(year) then 366 else 365
  }

  /** The number of the year's first day. */
  function DayFromYear(year: int): int {
    365 * (year - 1970) + (year - 1969) / 4 - (year - 1901) / 100 + (year - 1601) / 400
  }

  /** Days of the year before the month begins; month 12 is the end of the year. */
  function MonthStart(month: int, leap: bool): (day: int)
    requires 0 <= month <= 12
  {
    var extra := if leap && month >= 2 then 1 else 0;
    [0, 31, 59, 90, 120, 151, 181, 212, 243, 273, 304, 334, 365][month] + extra
  }

  function MonthLength(month: int, leap: bool): int
    requires 0 <= month < 12
  {
    MonthStart(month + 1, leap) - MonthStart(month, leap)
  }

  predicate IsCalendarDay(c: CivilDay) {
    0 <= c.month < 12 && 1 <= c.date <= MonthLength(c.month, IsLeapYear(c.year))
  }

  // ---- The calendar, day after day ----

  /** Thirty days has April, June, September and November; February has 28, or 29 in a leap year. */
  function DaysIn(month: int, year: int): int {
    if month == 3 || month == 5 || month == 8 || month == 10 then 30
    else if month == 1 then if year % 4 == 0 && (year % 100 != 0 || year % 400 == 0) then 29 else 28
    else 31
  }

  function NextDay(c: CivilDay): CivilDay {
    if c.date < DaysIn(c.month, c.year) then c.(date := c.date + 1)
    else if c.month < 11 then CivilDay(c.year, c.month + 1, 1)
    else CivilDay(c.year + 1, 0, 1)
  }

  /** Day 0 is 1 January 1970, and the number of the next day is the next number. */
  lemma DaysAreCounted(c: CivilDay)
    ensures IsCalendarDay(c) <==> 0 <= c.month <= 11 && 1 <= c.date <= DaysIn(c.month, c.year)
    ensures DayNumber(CivilDay(1970, 0, 1)) == 0
    ensures IsCalendarDay(c) ==> IsCalendarDay(NextDay(c)) && DayNumber(NextDay(c)) == DayNumber(c) + 1
  {
    hide DayNumber;
    FirstDay();
    if 0 <= c.month < 12 {
      MonthLengths(c.month, c.year);
    }
    if IsCalendarDay(c) {
      NextDayCounts(c);
    }
  }

  lemma FirstDay()
    ensures DayNumber(CivilDay(1970, 0, 1)) == 0
  {}

  lemma NextDayCounts(c: CivilDay)
    requires IsCalendarDay(c)
    ensures IsCalendarDay(NextDay(c)) && DayNumber(NextDay(c)) == DayNumber(c) + 1
  {
    hide DayNumber, DayFromYear;
    YearsAdjoin(c.year);
    MonthLengths(c.month, c.year);
    NextDayIsADay(c);
    DayNumberIs(c);
    DayNumberIs(NextDay(c));
  }

  lemma NextDayIsADay(c: CivilDay)
    requires IsCalendarDay(c)
    ensures IsCalendarDay(NextDay(c))
  {
    MonthLengths(c.month, c.year);
  }

  lemma MonthLengths(month: int, year: int)
    requires 0 <= month < 12
    ensures MonthLength(month, IsLeapYear(year)) == DaysIn(month, year)
  {}

  // ---- From a day number to its year, month and date ----

  lemma QuarterStep(year: int)
    ensures (year - 1968) / 4 == (year - 1969) / 4 + if year % 4 == 0 then 1 else 0
  {}

  lemma CenturyStep(year: int)
    ensures (year - 1900) / 100 == (year - 1901) / 100 + if year % 100 == 0 then 1 else 0
  {}

  lemma FourCenturyStep(year: int)
    ensures (year - 1600) / 400 == (year - 1601) / 400 + if year % 400 == 0 then 1 else 0
  {}

  lemma LeapRuleNests(year: int)
    ensures year % 400 == 0 ==> year % 100 == 0
    ensures year % 100 == 0 ==> year % 4 == 0
  {
    if year % 400 == 0 {
      HundredsDivide(4 * (year / 400));
    }
    if year % 100 == 0 {
      FoursDivide(25 * (year / 100));
    }
  }

  lemma HundredsDivide(k: int)
    ensures 100 * k % 100 == 0
  {}

  lemma FoursDivide(k: int)
    ensures 4 * k % 4 == 0
  {}

  lemma YearsAdjoin(year: int)
    ensures DayFromYear(year + 1) == DayFromYear(year) + YearLength(year)
  {
    QuarterStep(year);
    CenturyStep(year);
    FourCenturyStep(year);
    LeapRuleNests(year);
  }

  predicate IsDayOfYear(day: int, year: int) {
    DayFromYear(year) <= day < DayFromYear(year + 1)
  }

  function YearUp(year: int, day: int): (y: int)
    requires DayFromYear(year) <= day
    ensures IsDayOfYear(day, y)
    decreases day - DayFromYear(year)
  {
    YearsAdjoin(year);
    if day < DayFromYear(year + 1) then year else YearUp(year + 1, day)
  }

  function YearDown(year: int, day: int): (y: int)
    requires day < DayFromYear(year + 1)
    ensures IsDayOfYear(day, y)
    decreases DayFromYear(year + 1) - day
  {
    YearsAdjoin(year);
    if DayFromYear(year) <= day then year else YearDown(year - 1, day)
  }

  function YearOf(day: int): (y: int)
    ensures IsDayOfYear(day, y)
  {
    if DayFromYear(1970) <= day then YearUp(1970, day) else YearDown(1969, day)
  }

  lemma {:induction false} YearsAreOrdered(a: int, b: int)
    requires a <= b
    ensures DayFromYear(a) + (b - a) * 365 <= DayFromYear(b)
    decreases b - a
  {
    hide DayFromYear;
    if a < b {
      YearsAdjoin(b - 1);
      YearsAreOrdered(a, b - 1);
    }
  }

  lemma YearIsUnique(day: int, a: int, b: int)
    requires IsDayOfYear(day, a) && IsDayOfYear(day, b)
    ensures a == b
  {
    hide DayFromYear;
    if a < b {
      YearsAreOrdered(a + 1, b);
    } else if b < a {
      YearsAreOrdered(b + 1, a);
    }
  }

  function MonthUp(month: int, dayInYear: int, leap: bool): (m: int)
    requires 0 <= month < 12 && MonthStart(month, leap) <= dayInYear < MonthStart(12, leap)
    ensures month <= m < 12 && MonthStart(m, leap) <= dayInYear < MonthStart(m + 1, leap)
    decreases 12 - month
  {
    if dayInYear < MonthStart(month + 1, leap) then month else MonthUp(month + 1, dayInYear, leap)
  }

  function CivilOf(day: int): (c: CivilDay)
    ensures IsCalendarDay(c)
  {
    var year := YearOf(day);
    YearsAdjoin(year);
    var leap := IsLeapYear(year);
    var dayInYear := day - DayFromYear(year);
    var month := MonthUp(0, dayInYear, leap);
    CivilDay(year, month, dayInYear - MonthStart(month, leap) + 1)
  }

  // ---- And back ----

  /** `MakeDay`: months outside 0 to 11 carry into the year, dates outside the month into the days. */
  function MakeDay(year: int, month: int, date: int): int {
    var y, m := year + month / 12, month % 12;
    DayFromYear(y) + MonthStart(m, IsLeapYear(y)) + date - 1
  }

  function DayNumber(c: CivilDay): int {
    MakeDay(c.year, c.month, c.date)
  }

  lemma DayNumberIs(c: CivilDay)
    requires 0 <= c.month < 12
    ensures DayNumber(c) == DayFromYear(c.year) + MonthStart(c.month, IsLeapYear(c.year)) + c.date - 1
  {
    assert c.month / 12 == 0 && c.month % 12 == c.month;
  }

  lemma DayNumberOfCivil(day: int)
    ensures DayNumber(CivilOf(day)) == day
  {
    hide DayFromYear, MonthStart, MonthUp, YearOf, IsLeapYear, DayNumber;
    YearsAdjoin(YearOf(day));
    DayNumberIs(CivilOf(day));
  }

  lemma MonthStartsAreOrdered(a: int, b: int, leap: bool)
    requires 0 <= a <= b <= 12
    ensures MonthStart(a, leap) <= MonthStart(b, leap)
  {}

  lemma MonthIsUnique(a: int, b: int, dayInYear: int, leap: bool)
    requires 0 <= a < 12 && MonthStart(a, leap) <= dayInYear < MonthStart(a + 1, leap)
    requires 0 <= b < 12 && MonthStart(b, leap) <= dayInYear < MonthStart(b + 1, leap)
    ensures a == b
  {
    hide MonthStart;
    if a < b {
      MonthStartsAreOrdered(a + 1, b, leap);
    } else if b < a {
      MonthStartsAreOrdered(b + 1, a, leap);
    }
  }

  lemma DayIsInItsYear(c: CivilDay)
    requires IsCalendarDay(c)
    ensures IsDayOfYear(DayNumber(c), c.year)
  {
    hide DayNumber, DayFromYear, IsLeapYear, MonthStart, YearLength;
    DayNumberIs(c);
    YearsAdjoin(c.year);
    YearIsTwelveMonths(c.year);
    MonthsBegin(IsLeapYear(c.year));
    MonthStartsAreOrdered(c.month + 1, 12, IsLeapYear(c.year));
    MonthStartsAreOrdered(0, c.month, IsLeapYear(c.year));
  }

  lemma CivilOfItsNumber(c: CivilDay)
    requires IsCalendarDay(c)
    ensures CivilOf(DayNumber(c)) == c
  {
    hide MonthStart, YearOf, DayNumber, DayFromYear, IsLeapYear, MonthUp, YearLength;
    var day := DayNumber(c);
    DayIsInItsYear(c);
    DayNumberIs(c);
    YearsAdjoin(c.year);
    YearIsUnique(day, YearOf(day), c.year);
    YearIsTwelveMonths(c.year);
    var leap, dayInYear := IsLeapYear(c.year), day - DayFromYear(c.year);
    MonthsBegin(leap);
    MonthIsUnique(MonthUp(0, dayInYear, leap), c.month, dayInYear, leap);
  }

  /** Day numbers and calendar days correspond one to one: a number is that of exactly the day read off it. */
  lemma CivilOfDayNumber(day: int, c: CivilDay)
    ensures IsCalendarDay(c) && DayNumber(c) == day <==> c == CivilOf(day)
  {
    hide DayNumber, CivilOf, IsCalendarDay;
    CivilOfIsADay(day);
    DayNumberOfCivil(day);
    if IsCalendarDay(c) {
      CivilOfItsNumber(c);
    }
  }

  lemma CivilOfIsADay(day: int)
    ensures IsCalendarDay(CivilOf(day))
  {}

  lemma YearIsTwelveMonths(year: int)
    ensures YearLength(year) == MonthStart(12, IsLeapYear(year))
  {}

  lemma MonthsBegin(leap: bool)
    ensures MonthStart(0, leap) == 0
  {}

  // ---- `Date.UTC` ----

  /** Two-digit years are taken for those of the twentieth century. */
  function FullYear(year: int): int {
    if 0 <= year <= 99 then 1900 + year else year
  }

  function UtcDay(year: int, month: int, date: int): int {
    MakeDay(FullYear(year), month, date)
  }

  /**
   How many days `Date.UTC` moves a day on when it rebuilds it from its parts: 1900 years in the years 0 to
   99, and one day less from the end of February of the year 0, since that year is a leap year and 1900 is not.
   */
  function UtcShift(day: int): int {
    if !(DayFromYear(0) <= day < DayFromYear(100)) then 0 else if day < DayFromYear(0) + 60 then 693961 else 693960
  }

  lemma YearsOfADay(day: int, year: int)
    ensures YearOf(day) < year <==> day < DayFromYear(year)
  {
    hide DayFromYear;
    if YearOf(day) < year {
      YearsAreOrdered(YearOf(day) + 1, year);
    } else {
      YearsAreOrdered(year, YearOf(day));
    }
  }

  lemma NineteenHundredYearsOn(year: int)
    requires 0 <= year <= 99
    ensures DayFromYear(year + 1900) - DayFromYear(year) == if year == 0 then 693961 else 693960
    ensures IsLeapYear(year + 1900) <==> year != 0 && IsLeapYear(year)
  {
    assert (year + 1900 - 1969) / 4 == (year - 1969) / 4 + 475;
    assert (year + 1900 - 1901) / 100 == (year - 1901) / 100 + 19;
    assert (year + 1900 - 1601) / 400 == 0;
    assert (year - 1601) / 400 == if year == 0 then -5 else -4;
    assert year % 400 == 0 <==> year == 0;
    assert (year + 1900) % 400 != 0;
    assert (year + 1900) % 100 == year % 100;
  }

  lemma CivilYear(day: int)
    ensures CivilOf(day).year == YearOf(day)
  {}

  lemma LeapMonths(month: int, date: int)
    requires 0 <= month < 12 && 1 <= date <= MonthLength(month, true)
    ensures MonthStart(month, false) == MonthStart(month, true) - if month >= 2 then 1 else 0
    ensures MonthStart(month, true) + date - 1 < 60 <==> month < 2
  {}

  /** `Date.UTC` of the parts of a day gives the day moved on by so much. */
  lemma UtcOfCivilIs(day: int)
    ensures var c := CivilOf(day); UtcDay(c.year, c.month, c.date) == day + UtcShift(day)
  {
    hide DayFromYear, MonthStart, MonthLength, YearOf, DayNumber, CivilOf, IsLeapYear;
    var c := CivilOf(day);
    DayNumberOfCivil(day);
    DayNumberIs(c);
    CivilYear(day);
    YearsOfADay(day, 0);
    YearsOfADay(day, 100);
    if 0 <= c.year <= 99 {
      DayNumberIs(CivilDay(c.year + 1900, c.month, c.date));
      NineteenHundredYearsOn(c.year);
      YearZeroIsLeap();
      if c.year == 0 {
        LeapMonths(c.month, c.date);
      } else {
        YearsAreOrdered(1, c.year);
        YearsAdjoin(0);
      }
    }
  }

  lemma YearZeroIsLeap()
    ensures IsLeapYear(0) && YearLength(0) == 366
  {}

  /** So the day comes back exactly outside the years 0 to 99. */
  lemma UtcOfCivil(day: int)
    ensures var c := CivilOf(day); UtcDay(c.year, c.month, c.date) == day <==> !(0 <= c.year <= 99)
  {
    hide DayFromYear, YearOf, CivilOf, UtcDay;
    UtcOfCivilIs(day);
    CivilYear(day);
    YearsOfADay(day, 0);
    YearsOfADay(day, 100);
  }
}
