/** Instants are integers counting milliseconds since 1970-01-01T00:00Z.
    Local time is the instant shifted by a fixed offset (milliseconds
    east of UTC); days, months and years follow the proleptic Gregorian
    calendar in that local time. This is what `Date#setHours(23, 59, 59, 999)`
    and date-fns' `startOfMonth`/`endOfMonth`/`startOfYear`/`endOfYear`
    compute when the offset does not change. */
module Calendar {

  const DayMs: int := 86_400_000

  /** `new Date(t).setHours(23, 59, 59, 999)`: the last millisecond of the
      local day that contains `t`. */
  function EndOfDay(t: int, offset: int): (r: int)
    ensures t <= r < t + DayMs
    ensures (r + offset + 1) % DayMs == 0
  {
    var local := t + offset;
    local - local % DayMs + DayMs - 1 - offset
  }

  /** The end of a day is its own end of day. */
  lemma EndOfDayIdempotent(t: int, offset: int)
    ensures EndOfDay(EndOfDay(t, offset), offset) == EndOfDay(t, offset)
  {
  }

  /** Later instants never end their day earlier. */
  lemma EndOfDayMonotone(a: int, b: int, offset: int)
    requires a <= b
    ensures EndOfDay(a, offset) <= EndOfDay(b, offset)
  {
  }

  predicate IsLeapYear(y: int) {
    y % 4 == 0 && (y % 100 != 0 || y % 400 == 0)
  }

  function DaysInMonth(y: int, m: int): (d: int)
    requires 1 <= m <= 12
    ensures 28 <= d <= 31
    ensures m == 2 ==> d == (if IsLeapYear(y) then 29 else 28)
  {
    if m == 2 then (if IsLeapYear(y) then 29 else 28)
    else if m == 4 || m == 6 || m == 9 || m == 11 then 30
    else 31
  }

  /** Days of year `y` before the first of month `m`. */
  function DaysBeforeMonth(y: int, m: int): (d: int)
    requires 1 <= m <= 12
    ensures m == 1 ==> d == 0
    ensures m == 12 ==> d + DaysInMonth(y, m) == if IsLeapYear(y) then 366 else 365
  {
    var cumulative := [0, 31, 59, 90, 120, 151, 181, 212, 243, 273, 304, 334];
    cumulative[m - 1] + (if IsLeapYear(y) && m > 2 then 1 else 0)
  }

  /** Each month starts the day after the previous one ends. */
  lemma MonthFollows(y: int, m: int)
    requires 1 <= m < 12
    ensures DaysBeforeMonth(y, m) + DaysInMonth(y, m) == DaysBeforeMonth(y, m + 1)
  {
  }

  /** Days from 1970-01-01 to the first of January of year `y`. */
  function DaysBeforeYear(y: int): int {
    var p := y - 1;
    365 * p + p / 4 - p / 100 + p / 400 - 719162
  }

  /** A year has 366 days when it is a leap year and 365 otherwise, and
      the day count starts at 1970. */
  lemma YearLength(y: int)
    ensures DaysBeforeYear(1970) == 0
    ensures DaysBeforeYear(y + 1) - DaysBeforeYear(y) == if IsLeapYear(y) then 366 else 365
  {
    StepOver4(y);
    StepOver100(y);
    StepOver400(y);
  }

  /** Going from `y - 1` to `y` passes a multiple of 4 (of 100, of 400)
      exactly when `y` is one. */
  lemma StepOver4(y: int)
    ensures y / 4 - (y - 1) / 4 == if y % 4 == 0 then 1 else 0
  {
  }

  lemma StepOver100(y: int)
    ensures y / 100 - (y - 1) / 100 == if y % 100 == 0 then 1 else 0
  {
  }

  lemma StepOver400(y: int)
    ensures y / 400 - (y - 1) / 400 == if y % 400 == 0 then 1 else 0
  {
  }

  /** A whole number of days, in milliseconds, is a multiple of a day. */
  lemma WholeDays(days: int)
    ensures (days * DayMs) % DayMs == 0 && (days * DayMs) / DayMs == days
  {
  }

  /** Local midnight at the start of the first day of month `m` of year `y`
      (date-fns `startOfMonth(new Date(y, m - 1))`). */
  function StartOfMonth(y: int, m: int, offset: int): (r: int)
    requires 1 <= m <= 12
    ensures (r + offset) % DayMs == 0
    ensures m == 1 ==> (r + offset) / DayMs == DaysBeforeYear(y)
  {
    var days := DaysBeforeYear(y) + DaysBeforeMonth(y, m);
    WholeDays(days);
    days * DayMs - offset
  }

  /** The last millisecond of the last day of month `m` of year `y`
      (date-fns `endOfMonth`): a last millisecond of a local day, 28 to 31
      days after the month starts. */
  function EndOfMonth(y: int, m: int, offset: int): (r: int)
    requires 1 <= m <= 12
    ensures StartOfMonth(y, m, offset) < r
    ensures (r + offset + 1) % DayMs == 0
    ensures StartOfMonth(y, m, offset) + 28 * DayMs <= r + 1 <= StartOfMonth(y, m, offset) + 31 * DayMs
  {
    var days := DaysBeforeYear(y) + DaysBeforeMonth(y, m) + DaysInMonth(y, m);
    WholeDays(days);
    assert StartOfMonth(y, m, offset) + DaysInMonth(y, m) * DayMs == days * DayMs - offset;
    StartOfMonth(y, m, offset) + DaysInMonth(y, m) * DayMs - 1
  }

  function StartOfYear(y: int, offset: int): int {
    StartOfMonth(y, 1, offset)
  }

  function EndOfYear(y: int, offset: int): int {
    EndOfMonth(y, 12, offset)
  }

  /** A month's window ends the millisecond before the next month's window
      starts; December's ends just before the next year starts. */
  lemma MonthsAbut(y: int, m: int, offset: int)
    requires 1 <= m <= 12
    ensures m < 12 ==> EndOfMonth(y, m, offset) + 1 == StartOfMonth(y, m + 1, offset)
    ensures m == 12 ==> EndOfMonth(y, m, offset) + 1 == StartOfYear(y + 1, offset)
  {
    YearLength(y);
    if m < 12 { MonthFollows(y, m); }
  }

  /** Every month of a year lies inside that year's window. */
  lemma {:induction false} MonthWithinYear(y: int, m: int, offset: int)
    requires 1 <= m <= 12
    ensures StartOfYear(y, offset) <= StartOfMonth(y, m, offset)
    ensures EndOfMonth(y, m, offset) <= EndOfYear(y, offset)
    decreases 12 - m
  {
    if m < 12 {
      MonthsAbut(y, m, offset);
      MonthWithinYear(y, m + 1, offset);
    }
  }

  /** The window of a year is 365 or 366 whole local days. */
  lemma YearWindowLength(y: int, offset: int)
    ensures EndOfYear(y, offset) + 1 - StartOfYear(y, offset)
            == (if IsLeapYear(y) then 366 else 365) * DayMs
  {
  }

  lemma LastMillisecond(days: int)
    ensures (days * DayMs - 1) % DayMs == DayMs - 1
  {
    var x := days * 86_400_000 - 1;
    assert x == (days - 1) * 86_400_000 + 86_399_999;
  }

  /** The end of a month is already the end of its day, so pushing it to
      23:59:59.999 again changes nothing. */
  lemma EndOfMonthIsEndOfDay(y: int, m: int, offset: int)
    requires 1 <= m <= 12
    ensures EndOfDay(EndOfMonth(y, m, offset), offset) == EndOfMonth(y, m, offset)
  {
    var days := DaysBeforeYear(y) + DaysBeforeMonth(y, m) + DaysInMonth(y, m);
    assert EndOfMonth(y, m, offset) + offset == days * DayMs - 1;
    LastMillisecond(days);
  }
}
