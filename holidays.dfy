/**
 * The two holiday predicates of the Gantt timeline. A day is given by its
 * calendar fields as JavaScript's `Date` reports them: the full year, the
 * month 1..12, the day of the month and the weekday 0..6 with 0 for Sunday.
 */
module Holidays {

  datatype CalendarDay = CalendarDay(year: int, month: int, day: int, weekday: int)

  /** The weekday numbers of `getDay()`. */
  const Sunday := 0
  const Friday := 5
  const Saturday := 6

  /** The fixed month/day list of the uncompiled page: Jan 1-3, a fixed set of single days, and Dec 23 onwards. */
  predicate ListedInPage(month: int, day: int) {
    || (month == 1 && day <= 3)
    || (month == 2 && day in {11, 23})
    || (month == 3 && day == 20)
    || (month == 4 && day == 29)
    || (month == 5 && day in {3, 4, 5})
    || (month == 7 && day == 15)
    || (month == 8 && day == 11)
    || (month == 9 && day in {16, 23})
    || (month == 10 && day == 14)
    || (month == 11 && day in {3, 23})
    || (month == 12 && day >= 23)
  }

  /** `isHoliday` of the uncompiled page as written: weekday 5 and 6 (Friday and Saturday) are the weekend. */
  predicate PageIsHoliday(d: CalendarDay) {
    d.weekday >= Friday || ListedInPage(d.month, d.day)
  }

  /** The same predicate with the weekend it evidently means: Saturday and Sunday. */
  predicate PageIsHolidayCorrected(d: CalendarDay) {
    d.weekday == Sunday || d.weekday == Saturday || ListedInPage(d.month, d.day)
  }

  /** The 2026 table of the compiled page: nineteen month/day pairs. */
  const Holidays2026: seq<(int, int)> := [
    (1, 1), (1, 12), (2, 11), (2, 23), (3, 20), (4, 29), (5, 3), (5, 4), (5, 5), (7, 20),
    (8, 11), (9, 21), (9, 23), (10, 12), (11, 3), (11, 23), (12, 29), (12, 30), (12, 31)
  ]

  /** The shorter list the compiled page uses for every year other than 2026. */
  predicate ListedOtherYears(month: int, day: int) {
    || (month == 1 && day == 1)
    || (month == 2 && day == 11)
    || (month == 4 && day == 29)
    || (month == 5 && day in {3, 4, 5})
    || (month == 8 && day == 11)
    || (month == 11 && day in {3, 23})
    || (month == 12 && day >= 29)
  }

  /** `isHoliday` of the compiled page: Saturday and Sunday, then the 2026 table or the shorter list. */
  predicate CompiledIsHoliday(d: CalendarDay) {
    if d.weekday == Sunday || d.weekday == Saturday then true
    else if d.year == 2026 then exists k :: 0 <= k < |Holidays2026| && Holidays2026[k] == (d.month, d.day)
    else ListedOtherYears(d.month, d.day)
  }

  // ----- Properties -----

  /** The uncompiled page's predicate reads only the weekday, the month and the day, never the year. */
  lemma PageIgnoresYear(d: CalendarDay, e: CalendarDay)
    requires d.weekday == e.weekday && d.month == e.month && d.day == e.day
    ensures PageIsHoliday(d) == PageIsHoliday(e)
  {
  }

  /** The uncompiled page marks every Friday and Saturday, and a Sunday only when its month/day is listed. */
  lemma PageWeekend(d: CalendarDay)
    ensures d.weekday == Friday || d.weekday == Saturday ==> PageIsHoliday(d)
    ensures d.weekday == Sunday ==> (PageIsHoliday(d) <==> ListedInPage(d.month, d.day))
  {
  }

  /**
   * An ordinary Friday, 16 October 2026, is a holiday for the page as
   * written, and the Sunday two days later is not.
   */
  lemma PageWeekendShifted()
    ensures PageIsHoliday(CalendarDay(2026, 10, 16, Friday))
    ensures !PageIsHoliday(CalendarDay(2026, 10, 18, Sunday))
    ensures !PageIsHolidayCorrected(CalendarDay(2026, 10, 16, Friday))
    ensures PageIsHolidayCorrected(CalendarDay(2026, 10, 18, Sunday))
  {
  }

  /** The corrected predicate agrees with the written one from Monday to Thursday, and with the compiled weekend on every day. */
  lemma CorrectedWeekend(d: CalendarDay)
    ensures 1 <= d.weekday <= 4 ==> (PageIsHolidayCorrected(d) <==> PageIsHoliday(d))
    ensures d.weekday == Sunday || d.weekday == Saturday ==> PageIsHolidayCorrected(d) && CompiledIsHoliday(d)
    ensures d.weekday == Friday ==> (PageIsHolidayCorrected(d) <==> ListedInPage(d.month, d.day))
  {
  }

  /** In 2026 a weekday (Monday to Friday) is a holiday of the compiled page exactly when its month/day is one of the nineteen pairs. */
  lemma Compiled2026(d: CalendarDay)
    requires d.year == 2026 && 1 <= d.weekday <= 5
    ensures CompiledIsHoliday(d) <==> (d.month, d.day) in Holidays2026
  {
  }

  /** Outside 2026 the compiled page marks a weekday only for its shorter list, which includes 29-31 December. */
  lemma CompiledOtherYears(d: CalendarDay)
    requires d.year != 2026 && 1 <= d.weekday <= 5
    ensures CompiledIsHoliday(d) <==> ListedOtherYears(d.month, d.day)
    ensures d.month == 12 && 29 <= d.day <= 31 ==> CompiledIsHoliday(d)
  {
  }

  /** Every day on the compiled page's list for other years is also on the uncompiled page's list. */
  lemma OtherYearsWithinPageList(month: int, day: int)
    requires ListedOtherYears(month, day)
    ensures ListedInPage(month, day)
  {
  }
}
