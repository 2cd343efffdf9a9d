/**
 The `YYYY-MM-DD` form of a week in links and labels
 (apps/api/src/modules/monitoring/error-fingerprint.ts:25-48).
 */
module WeekParam {
  import opened Options
  import opened CivilCalendar
  import opened WeekArithmetic

  // ---- Decimal digits ----

  predicate IsDigit(c: char) {
    '0' <= c <= '9'
  }

  function DigitOf(c: char): (d: int)
    requires IsDigit(c)
    ensures 0 <= d <= 9
  {
    c as int - '0' as int
  }

  function CharOf(d: int): (c: char)
    requires 0 <= d <= 9
    ensures IsDigit(c) && DigitOf(c) == d
  {
    (d + '0' as int) as char
  }

  function TwoDigits(n: int): (s: string)
    requires 0 <= n <= 99
    ensures |s| == 2 && IsDigit(s[0]) && IsDigit(s[1]) && DigitOf(s[0]) * 10 + DigitOf(s[1]) == n
  {
    [CharOf(n / 10), CharOf(n % 10)]
  }

  function FourDigits(n: int): (s: string)
    requires 0 <= n <= 9999
    ensures |s| == 4
  {
    TwoDigits(n / 100) + TwoDigits(n % 100)
  }

  function ReadTwo(value: string, at: nat): (n: int)
    requires at + 2 <= |value| && IsDigit(value[at]) && IsDigit(value[at + 1])
    ensures 0 <= n <= 99
  {
    DigitOf(value[at]) * 10 + DigitOf(value[at + 1])
  }

  // ---- Format ----

  /** The date part of `toISOString`; years outside 0 to 9999 take a sign and six digits. */
  function IsoDate(c: CivilDay): string
    requires IsCalendarDay(c) && -999999 <= c.year <= 999999
  {
    var year := if 0 <= c.year <= 9999 then FourDigits(c.year)
                else var magnitude := if c.year < 0 then -c.year else c.year;
                  [if c.year < 0 then '-' else '+'] + TwoDigits(magnitude / 10000) + FourDigits(magnitude % 10000);
    DatesHaveTwoDigits(c);
    year + "-" + TwoDigits(c.month + 1) + "-" + TwoDigits(c.date)
  }

  lemma DatesHaveTwoDigits(c: CivilDay)
    requires IsCalendarDay(c)
    ensures 1 <= c.month + 1 <= 12 && 1 <= c.date <= 31
  {}

  /** The first ten characters of the ISO form of the local day. */
  function FormatWeekParam(weekStart: int): string
    requires -999999 <= LocalYear(weekStart) <= 999999
  {
    IsoDate(CivilOf(LocalDay(weekStart)))[..10]
  }

  // ---- Parse ----

  /** `^\d{4}-\d{2}-\d{2}$`. */
  predicate IsWellFormed(value: string) {
    && |value| == 10 && value[4] == '-' && value[7] == '-'
    && (forall k :: 0 <= k < 10 && k != 4 && k != 7 ==> IsDigit(value[k]))
  }

  /** The day the string names, which need not be in the calendar. */
  function NamedDay(value: string): CivilDay
    requires IsWellFormed(value)
  {
    CivilDay(ReadTwo(value, 0) * 100 + ReadTwo(value, 2), ReadTwo(value, 5) - 1, ReadTwo(value, 8))
  }

  function ParseWeekParam(value: string): Option<int> {
    if !IsWellFormed(value) then None
    else
      var named := NamedDay(value);
      var utc := UtcDay(named.year, named.month, named.date);
      if CivilOf(utc) != named then None
      else Some(WeekStartOf(NoonOf(utc)))
  }

  function NoonOf(day: int): int {
    day * DAY_MS - VN_OFFSET_MS + DAY_MS / 2
  }

  lemma NoonIsInItsDay(day: int)
    ensures LocalDay(NoonOf(day)) == day
  {}

  lemma WeekOfNoon(day: int)
    requires !IsShortYear(CivilOf(day).year)
    ensures WeekStartOf(NoonOf(day)) == MondayOf(day) * DAY_MS - VN_OFFSET_MS
    ensures IsWeekStart(WeekStartOf(NoonOf(day))) && LocalDay(WeekStartOf(NoonOf(day))) == MondayOf(day)
  {
    hide NoonOf, CivilOf, LocalDay, MondayOf, WeekStartOf, WeekDay;
    NoonIsInItsDay(day);
    OrdinaryWeekStartIs(NoonOf(day));
    MondayIsMonday(day);
    MidnightOfDay(MondayOf(day));
  }

  /** Rebuilding a named day from its parts gives it back exactly for calendar days outside the short years. */
  lemma ProbeAgrees(named: CivilDay)
    ensures CivilOf(UtcDay(named.year, named.month, named.date)) == named
       <==> IsCalendarDay(named) && !IsShortYear(named.year)
  {
    var utc := UtcDay(named.year, named.month, named.date);
    hide CivilOf, DayFromYear, MonthStart;
    if IsCalendarDay(named) {
      CivilOfItsNumber(named);
      UtcOfCivil(DayNumber(named));
      if CivilOf(utc) == named {
        DayNumberOfCivil(utc);
      }
    }
  }

  /**
   A string is accepted exactly when it is well formed and names a calendar day from the year 100 on, and
   then gives the start of the week that day is in.
   */
  lemma ParseIsExact(value: string)
    ensures ParseWeekParam(value).Some?
       <==> IsWellFormed(value) && IsCalendarDay(NamedDay(value)) && NamedDay(value).year >= 100
    ensures ParseWeekParam(value).Some? ==>
              IsWeekStart(ParseWeekParam(value).value) &&
              LocalDay(ParseWeekParam(value).value) == MondayOf(DayNumber(NamedDay(value)))
  {
    hide NamedDay, IsCalendarDay, CivilOf, UtcDay, DayNumber, WeekStartOf, IsWeekStart, LocalDay, MondayOf, NoonOf,
         IsWellFormed;
    if IsWellFormed(value) {
      var named := NamedDay(value);
      var day := UtcDay(named.year, named.month, named.date);
      NamedYear(value);
      ProbeAgrees(named);
      if CivilOf(day) == named {
        DayNumberOfCivil(day);
        WeekOfNoon(day);
      }
    }
  }

  lemma NamedYear(value: string)
    requires IsWellFormed(value)
    ensures 0 <= NamedDay(value).year <= 9999
  {}

  lemma FormatNamesTheDay(c: CivilDay)
    requires IsCalendarDay(c) && 0 <= c.year <= 9999
    ensures |IsoDate(c)| == 10 && IsWellFormed(IsoDate(c)) && NamedDay(IsoDate(c)) == c
  {
    DatesHaveTwoDigits(c);
    hide TwoDigits, IsCalendarDay;
    var a, b, m, d := TwoDigits(c.year / 100), TwoDigits(c.year % 100), TwoDigits(c.month + 1), TwoDigits(c.date);
    var value := a + b + "-" + m + "-" + d;
    assert value == IsoDate(c);
    assert value[0] == a[0] && value[1] == a[1] && value[2] == b[0] && value[3] == b[1];
    assert value[5] == m[0] && value[6] == m[1] && value[8] == d[0] && value[9] == d[1];
  }

  /** The digit at a position. */
  function Digit(value: string, k: nat): int
    requires k < |value|
  {
    value[k] as int - '0' as int
  }

  /** Year, month and date are read off the digits as they stand; months count from zero. */
  lemma NamedDayIs(value: string)
    requires IsWellFormed(value)
    ensures NamedDay(value).year
         == 1000 * Digit(value, 0) + 100 * Digit(value, 1) + 10 * Digit(value, 2) + Digit(value, 3)
    ensures NamedDay(value).month == 10 * Digit(value, 5) + Digit(value, 6) - 1
    ensures NamedDay(value).date == 10 * Digit(value, 8) + Digit(value, 9)
    ensures value[4] == '-' && value[7] == '-' && |value| == 10
  {
    hide IsDigit;
    assert IsDigit(value[0]) && IsDigit(value[1]) && IsDigit(value[2]) && IsDigit(value[3]);
  }

  /** What is printed for a week start is read back as it, for the years of four digits from 100 on. */
  lemma ParseOfFormat(w: int)
    requires IsWeekStart(w) && 100 <= LocalYear(w) <= 9999
    ensures ParseWeekParam(FormatWeekParam(w)) == Some(w)
  {
    hide CivilOf, IsoDate, NamedDay, IsWellFormed, WeekStartOf, UtcDay, IsWeekStart, LocalDay, MondayOf, NoonOf;
    var day := LocalDay(w);
    FormatNamesTheDay(CivilOf(day));
    assert IsoDate(CivilOf(day))[..10] == IsoDate(CivilOf(day));
    UtcOfCivil(day);
    WeekOfNoon(day);
    OrdinaryWeekStartIs(w);
    WeekStartAgain(w);
  }
}
