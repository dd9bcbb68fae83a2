/**
 * The calendar types the controller works with, and the conversion from a
 * date-only value to a timestamp at midnight (DateConverter.DateOnlyToDateTime).
 *
 * A .NET `DateOnly` is always a valid proleptic Gregorian date between
 * 0001-01-01 and 9999-12-31; that is a property of the type, so it is a
 * subset type here rather than a precondition of every operation.
 */
module Converters {

  /** Gregorian leap-year rule. */
  predicate IsLeapYear(year: int) {
    year % 4 == 0 && (year % 100 != 0 || year % 400 == 0)
  }

  /** Number of days in a month of a year, for months 1..12. */
  function DaysInMonth(year: int, month: int): (n: int)
    requires 1 <= month <= 12
    ensures 28 <= n <= 31
    ensures month == 2 ==> (n == 29 <==> IsLeapYear(year))
  {
    if month == 2 then (if IsLeapYear(year) then 29 else 28)
    else if month == 4 || month == 6 || month == 9 || month == 11 then 30
    else 31
  }

  /** True for a calendar day that a `DateOnly` (and a `DateTime`) can hold. */
  predicate IsValidDay(year: int, month: int, day: int) {
    1 <= year <= 9999 && 1 <= month <= 12 && 1 <= day <= DaysInMonth(year, month)
  }

  /** A calendar date with no time of day. */
  datatype Date = Date(year: int, month: int, day: int)

  /** The values a `DateOnly` can take. */
  type DateOnly = d: Date | IsValidDay(d.year, d.month, d.day) witness Date(1, 1, 1)

  /** A local timestamp, down to the millisecond (no time zone, no kind). */
  datatype DateTime = DateTime(year: int, month: int, day: int,
                               hour: int, minute: int, second: int, millisecond: int)

  /** True for a timestamp a `DateTime` can hold. */
  predicate IsValidDateTime(t: DateTime) {
    && IsValidDay(t.year, t.month, t.day)
    && 0 <= t.hour < 24 && 0 <= t.minute < 60 && 0 <= t.second < 60
    && 0 <= t.millisecond < 1000
  }

  /** True when the time-of-day part of a timestamp is 00:00:00.000. */
  predicate IsMidnight(t: DateTime) {
    t.hour == 0 && t.minute == 0 && t.second == 0 && t.millisecond == 0
  }

  /** The calendar day a valid timestamp falls on (DateOnly.FromDateTime). */
  function DateOf(t: DateTime): (d: DateOnly)
    requires IsValidDateTime(t)
    ensures d.year == t.year && d.month == t.month && d.day == t.day
  {
    Date(t.year, t.month, t.day)
  }

  /**
   * `new DateTime(d.Year, d.Month, d.Day)`: the same calendar day at midnight.
   * The three-argument constructor cannot throw here, because every DateOnly
   * is a day the constructor accepts.
   */
  function DateOnlyToDateTime(d: DateOnly): (t: DateTime)
    ensures IsValidDateTime(t)
    ensures t.year == d.year && t.month == d.month && t.day == d.day
    ensures IsMidnight(t)
  {
    DateTime(d.year, d.month, d.day, 0, 0, 0, 0)
  }

  /** Nothing of the date is lost: the day of the timestamp is the input day. */
  lemma DateOfDateOnlyToDateTime(d: DateOnly)
    ensures DateOf(DateOnlyToDateTime(d)) == d
  {
  }

  /** Every valid timestamp at midnight is the conversion of its own day. */
  lemma DateOnlyToDateTimeOfMidnight(t: DateTime)
    requires IsValidDateTime(t) && IsMidnight(t)
    ensures DateOnlyToDateTime(DateOf(t)) == t
  {
  }

  /** Distinct dates give distinct timestamps, and equal dates equal ones. */
  lemma DateOnlyToDateTimeInjective(a: DateOnly, b: DateOnly)
    ensures DateOnlyToDateTime(a) == DateOnlyToDateTime(b) <==> a == b
  {
    DateOfDateOnlyToDateTime(a);
    DateOfDateOnlyToDateTime(b);
  }
}
