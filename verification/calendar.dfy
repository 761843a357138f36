/**
 * Calendar arithmetic the handlers rely on: Gregorian month lengths, month
 * indices (`year * 12 + month`), a total order on instants and the
 * normalisation JavaScript's `Date` applies to out-of-range fields.
 * Months are zero-based as in JavaScript; time zones are not modelled.
 */
module Calendar {
  import opened Wrappers

  datatype Moment = Moment(year: int, month: int, day: int, hour: int, minute: int, second: int, ms: int)

  predicate IsLeapYear(y: int) { (y % 4 == 0 && y % 100 != 0) || y % 400 == 0 }

  function DaysInMonth(y: int, m: int): (n: int)
    requires 0 <= m < 12
    ensures 28 <= n <= 31
  {
    if m == 1 then (if IsLeapYear(y) then 29 else 28)
    else if m == 3 || m == 5 || m == 8 || m == 10 then 30
    else 31
  }

  /** A moment a JavaScript `Date` can denote: every field in range. */
  predicate Valid(d: Moment)
  {
    0 <= d.month < 12 && 1 <= d.day <= DaysInMonth(d.year, d.month)
    && 0 <= d.hour < 24 && 0 <= d.minute < 60 && 0 <= d.second < 60 && 0 <= d.ms < 1000
  }

  /** Every field in the range a `Date` field takes, the day bounded by the longest month. */
  predicate Clock(d: Moment)
  {
    0 <= d.month < 12 && 1 <= d.day <= 31
    && 0 <= d.hour < 24 && 0 <= d.minute < 60 && 0 <= d.second < 60 && 0 <= d.ms < 1000
  }

  /** The month a moment falls in, counted from year 0. */
  function MonthIndex(d: Moment): int { d.year * 12 + d.month }

  /** The year and month of a month index, as `new Date(y, m, 1)` normalises them. */
  function YearOfIndex(i: int): int { i / 12 }
  function MonthOfIndex(i: int): (m: int)
    ensures 0 <= m < 12
  {
    i % 12
  }

  lemma IndexRoundTrip(i: int)
    ensures YearOfIndex(i) * 12 + MonthOfIndex(i) == i
  {
  }

  /** A number that orders valid moments chronologically (the source compares epoch times). */
  function Ordinal(d: Moment): int
  {
    ((((MonthIndex(d) * 32 + d.day) * 24 + d.hour) * 60 + d.minute) * 60 + d.second) * 1000 + d.ms
  }

  /** A valid moment in an earlier month is earlier. */
  lemma EarlierMonthIsEarlier(a: Moment, b: Moment)
    requires Valid(a) && Valid(b) && MonthIndex(a) < MonthIndex(b)
    ensures Ordinal(a) < Ordinal(b)
  {
  }

  /** `from <= d <= to` with either bound absent meaning unbounded. */
  predicate InRange(d: Moment, from: Option<Moment>, to: Option<Moment>)
  {
    (from.None? || Ordinal(from.value) <= Ordinal(d)) && (to.None? || Ordinal(d) <= Ordinal(to.value))
  }

  /** Calendar months from `a`'s month to `b`'s month, both counted. */
  function MonthsInclusive(a: Moment, b: Moment): int
  {
    MonthIndex(b) - MonthIndex(a) + 1
  }
}
