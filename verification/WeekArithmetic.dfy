/**
 Weeks of Vietnamese local time (apps/api/src/modules/monitoring/error-fingerprint.ts:4-23).
 Instants are milliseconds from 1 January 1970 UTC, as in the language's `Date`.
 */
module WeekArithmetic {
  import opened CivilCalendar

  const VN_OFFSET_MS := 7 * 60 * 60 * 1000
  const DAY_MS := 24 * 60 * 60 * 1000
  const WEEK_MS := 7 * 24 * 60 * 60 * 1000

  /** Sunday is day 0 of a week; 1 January 1970 was a Thursday. */
  function WeekDay(day: int): int {
    (day + 4) % 7
  }

  function DayOf(t: int): int {
    t / 86400000
  }

  function LocalDay(t: int): int {
    DayOf(t + VN_OFFSET_MS)
  }

  function LocalYear(t: int): int {
    CivilOf(LocalDay(t)).year
  }

  function DaysSinceMonday(day: int): (n: int)
    ensures 0 <= n < 7
  {
    (WeekDay(day) + 6) % 7
  }

  /** Local midnight is rebuilt from year, month and date, and taken back to the Monday. */
  function WeekStartOf(t: int): int {
    var local := CivilOf(LocalDay(t));
    var localMidnight := UtcDay(local.year, local.month, local.date) * DAY_MS;
    localMidnight - DaysSinceMonday(LocalDay(t)) * DAY_MS - VN_OFFSET_MS
  }

  function PreviousWeekStart(t: int): int {
    WeekStartOf(t) - WEEK_MS
  }

  // ---- The week of an instant ----

  /** Monday, 00:00 local time. */
  predicate IsWeekStart(w: int) {
    (w + VN_OFFSET_MS) % 86400000 == 0 && WeekDay(LocalDay(w)) == 1
  }

  predicate IsWeekStartOf(w: int, t: int) {
    IsWeekStart(w) && w <= t < w + WEEK_MS
  }

  /** The years that `Date.UTC` takes for abbreviations. */
  predicate IsShortYear(year: int) {
    0 <= year <= 99
  }

  /** The Monday of the day's week. */
  function MondayOf(day: int): int {
    day - DaysSinceMonday(day)
  }

  lemma MondayIsMonday(day: int)
    ensures WeekDay(MondayOf(day)) == 1 && MondayOf(day) <= day < MondayOf(day) + 7
  {}

  lemma MidnightOfDay(day: int)
    ensures LocalDay(day * DAY_MS - VN_OFFSET_MS) == day
    ensures (day * DAY_MS - VN_OFFSET_MS + VN_OFFSET_MS) % 86400000 == 0
  {}

  lemma DayHoldsItsInstants(t: int)
    ensures LocalDay(t) * DAY_MS <= t + VN_OFFSET_MS < (LocalDay(t) + 1) * DAY_MS
  {}

  /** Every week start, in all years: the Monday of the week, moved on as `Date.UTC` moves the day. */
  lemma WeekStartIs(t: int)
    ensures WeekStartOf(t) == (MondayOf(LocalDay(t)) + UtcShift(LocalDay(t))) * DAY_MS - VN_OFFSET_MS
  {
    hide CivilOf, LocalDay, DaysSinceMonday, UtcDay, UtcShift;
    UtcOfCivilIs(LocalDay(t));
  }

  lemma ShortYearShifts(t: int)
    ensures IsShortYear(LocalYear(t)) <==> UtcShift(LocalDay(t)) != 0
    ensures IsShortYear(LocalYear(t)) <==> DayFromYear(0) <= LocalDay(t) < DayFromYear(100)
    ensures UtcShift(LocalDay(t)) == 0 || UtcShift(LocalDay(t)) >= 693960
  {
    hide CivilOf, YearOf, DayFromYear, LocalDay;
    CivilYear(LocalDay(t));
    YearsOfADay(LocalDay(t), 0);
    YearsOfADay(LocalDay(t), 100);
  }

  lemma OrdinaryWeekStartIs(t: int)
    requires !IsShortYear(LocalYear(t))
    ensures WeekStartOf(t) == MondayOf(LocalDay(t)) * DAY_MS - VN_OFFSET_MS
  {
    hide LocalYear, WeekStartOf, MondayOf, LocalDay, UtcShift;
    WeekStartIs(t);
    ShortYearShifts(t);
  }

  /** The week start is the Monday on or before the instant, exactly outside the years that `Date.UTC` abbreviates. */
  lemma WeekStartIsTheMonday(t: int)
    ensures IsWeekStartOf(WeekStartOf(t), t) <==> !IsShortYear(LocalYear(t))
  {
    hide LocalYear, WeekStartOf, MondayOf, LocalDay, WeekDay, UtcShift;
    WeekStartIs(t);
    ShortYearShifts(t);
    var monday := MondayOf(LocalDay(t));
    MondayIsMonday(LocalDay(t));
    MidnightOfDay(monday);
    DayHoldsItsInstants(t);
  }

  /** In all years but those: the last Monday 00:00 at seven hours east of Greenwich; 5 January 1970 was a Monday. */
  lemma MondayMidnightInVietnam(t: int)
    requires t + 25200000 < -719528 * 86400000 || t + 25200000 >= -683003 * 86400000
    ensures (WeekStartOf(t) + 25200000 - 4 * 86400000) % 604800000 == 0
    ensures WeekStartOf(t) <= t < WeekStartOf(t) + 604800000
  {
    assert DayFromYear(0) == -719528 && DayFromYear(100) == -683003;
    DaysOutside(t);
    hide LocalYear, WeekStartOf, DayFromYear, LocalDay, MondayOf;
    ShortYearShifts(t);
    OrdinaryWeekStartIs(t);
    DayHoldsItsInstants(t);
    WholeWeeks(LocalDay(t));
  }

  lemma DaysOutside(t: int)
    requires t + 25200000 < -719528 * 86400000 || t + 25200000 >= -683003 * 86400000
    ensures LocalDay(t) < -719528 || LocalDay(t) >= -683003
  {}

  lemma WholeWeeks(day: int)
    ensures (MondayOf(day) * 86400000 - 4 * 86400000) % 604800000 == 0
    ensures MondayOf(day) <= day < MondayOf(day) + 7
  {
    var n := MondayOf(day) - 4;
    assert n % 7 == 0;
    assert (n / 7 * 604800000) % 604800000 == 0;
  }

  /** No other instant is the start of that week. */
  lemma WeekStartIsUnique(w: int, w': int, t: int)
    requires IsWeekStartOf(w, t) && IsWeekStartOf(w', t)
    ensures w == w'
  {
    var d, d' := LocalDay(w), LocalDay(w');
    assert w + VN_OFFSET_MS == d * DAY_MS && w' + VN_OFFSET_MS == d' * DAY_MS;
    MondaysAreAWeekApart(d, d');
  }

  lemma MondaysAreAWeekApart(d: int, d': int)
    requires WeekDay(d) == 1 && WeekDay(d') == 1 && -7 < d - d' < 7
    ensures d == d'
  {}

  /**
   The later day begins its week before the earlier one does: the earlier one is of the years 0 to 99, and
   either the later one is after them but within 99138 weeks, or the two are of the one week in which
   February of the year 0 ends, before and after its end.
   */
  predicate LosesOrder(d: int, d': int) {
    && DayFromYear(0) <= d < DayFromYear(100)
    && (if d' < DayFromYear(100) then d < DayFromYear(0) + 60 <= d' && MondayOf(d') == MondayOf(d)
        else d' < MondayOf(d) + 99138 * 7)
  }

  /** Week starts are ordered as their instants are, exactly unless the days lose their order. */
  lemma WeekStartsAreOrdered(t: int, t': int)
    requires t <= t'
    ensures WeekStartOf(t) <= WeekStartOf(t') <==> !LosesOrder(LocalDay(t), LocalDay(t'))
    ensures !IsShortYear(LocalYear(t)) ==> WeekStartOf(t) <= WeekStartOf(t')
  {
    hide LocalYear, WeekStartOf, MondayOf, UtcShift;
    ShortYearShifts(t);
    WeekStartIs(t);
    WeekStartIs(t');
    OrderIsLost(LocalDay(t), LocalDay(t'));
  }

  lemma OrderIsLost(d: int, d': int)
    requires d <= d'
    ensures LosesOrder(d, d') <==> MondayOf(d') + UtcShift(d') < MondayOf(d) + UtcShift(d)
  {
    hide MondayOf;
    assert DayFromYear(0) == -719528 && DayFromYear(100) == -683003;
    MondaysAreOrdered(d, d');
    MondayComesBefore(d, d', UtcShift(d));
  }

  /** Mondays differ by weeks. */
  lemma MondayComesBefore(d: int, d': int, shift: int)
    ensures MondayOf(d) == MondayOf(d') || MondayOf(d) + 7 <= MondayOf(d') || MondayOf(d') + 7 <= MondayOf(d)
    ensures shift == 693960 || shift == 693961 ==> (MondayOf(d') < MondayOf(d) + shift <==> d' < MondayOf(d) + 693966)
  {}

  lemma MondaysAreOrdered(d: int, d': int)
    requires d <= d'
    ensures MondayOf(d) <= MondayOf(d')
  {}

  /**
   Taking the week start again changes nothing, exactly outside the years 0 to 99 and the first three days of
   the year 100, whose Monday lies in the year 99.
   */
  lemma WeekStartOfWeekStart(t: int)
    ensures WeekStartOf(WeekStartOf(t)) == WeekStartOf(t)
       <==> !(DayFromYear(0) <= LocalDay(t) < DayFromYear(100) + 3)
  {
    hide LocalYear, WeekStartOf, MondayOf, LocalDay, WeekDay, UtcShift, DayFromYear;
    var w := WeekStartOf(t);
    var day := MondayOf(LocalDay(t)) + UtcShift(LocalDay(t));
    WeekStartIs(t);
    WeekStartIs(w);
    MidnightOfDay(day);
    ShiftAfterMonday(LocalDay(t));
  }

  /** The day that the week start falls on is a Monday, and not moved on again, under the same condition. */
  lemma ShiftAfterMonday(day: int)
    ensures var d := MondayOf(day) + UtcShift(day);
            MondayOf(d) + UtcShift(d) == d <==> !(DayFromYear(0) <= day < DayFromYear(100) + 3)
  {
    var first, last := DayFromYear(0), DayFromYear(100);
    assert first == -719528 && last == -683003;
  }

  lemma WeekStartAgain(w: int)
    requires IsWeekStart(w) && !IsShortYear(LocalYear(w))
    ensures WeekStartOf(w) == w
  {
    WeekStartIsTheMonday(w);
    hide LocalYear, WeekStartOf, LocalDay, WeekDay;
    WeekStartIsUnique(WeekStartOf(w), w, w);
  }

  /**
   The previous week is the week of the instant seven days before, exactly outside the first weeks of the years
   0 and 100 and the week after the end of February of the year 0.
   */
  lemma PreviousWeekIsTheWeekBefore(t: int)
    ensures PreviousWeekStart(t) == WeekStartOf(t - WEEK_MS)
       <==> !(0 <= LocalDay(t) - DayFromYear(0) < 7 || 60 <= LocalDay(t) - DayFromYear(0) < 67 ||
              0 <= LocalDay(t) - DayFromYear(100) < 7)
  {
    hide LocalYear, WeekStartOf, MondayOf, LocalDay, UtcShift;
    WeekStartIs(t);
    WeekStartIs(t - WEEK_MS);
    WeekBack(t);
    ShiftWeekBack(LocalDay(t));
  }

  lemma ShiftWeekBack(day: int)
    ensures UtcShift(day) == UtcShift(day - 7)
       <==> !(0 <= day - DayFromYear(0) < 7 || 60 <= day - DayFromYear(0) < 67 || 0 <= day - DayFromYear(100) < 7)
  {}

  lemma WeekBack(t: int)
    ensures LocalDay(t - WEEK_MS) == LocalDay(t) - 7
    ensures MondayOf(LocalDay(t - WEEK_MS)) == MondayOf(LocalDay(t)) - 7
  {
    assert LocalDay(t - WEEK_MS) == LocalDay(t) - 7;
  }

  lemma NewYearOfFifty()
    ensures DayNumber(CivilDay(50, 0, 1)) == -701265
    ensures MondayOf(-701265) == -701270
    ensures UtcShift(-701265) == 693960
  {
    hide DayNumber;
    DayNumberIs(CivilDay(50, 0, 1));
  }

  lemma DecemberOfFortyNine()
    ensures IsCalendarDay(CivilDay(1949, 11, 27))
    ensures DayNumber(CivilDay(1949, 11, 27)) == -7310
  {
    hide DayNumber;
    DayNumberIs(CivilDay(1949, 11, 27));
  }

  /** By the code's reckoning the week of New Year's Day of the year 50 begins on 27 December 1949. */
  lemma YearFiftyIsMovedOn()
    ensures var t := DayNumber(CivilDay(50, 0, 1)) * DAY_MS - VN_OFFSET_MS;
            && CivilOf(LocalDay(WeekStartOf(t))) == CivilDay(1949, 11, 27)
            && !IsWeekStartOf(WeekStartOf(t), t)
  {
    hide CivilOf, WeekStartOf, LocalDay, DayNumber, MondayOf, UtcShift, IsCalendarDay, IsWeekStart;
    NewYearOfFifty();
    DecemberOfFortyNine();
    MidnightOfDay(-701265);
    MidnightOfDay(-7310);
    WeekStartIs(-701265 * DAY_MS - VN_OFFSET_MS);
    CivilOfItsNumber(CivilDay(1949, 11, 27));
  }
}
