/** Instants, day counts and calendar dates as the JavaScript `Date` object
    computes them. A date-only string such as "2024-01-15" denotes midnight
    UTC; `getMonth`, `setMonth` and `setHours` work in the local zone, which
    is a fixed offset from UTC (no daylight saving).

    An instant is an integer number of milliseconds since 1970-01-01T00:00.
    A calendar date uses JavaScript's conventions: the month is 0-based
    (`getMonth()`), the day of month 1-based (`getDate()`). */
module Dates {

  const MsPerDay: int := 1000 * 60 * 60 * 24

  /** `Math.floor(x / d)`: Dafny's `/` on `int` already floors for a positive divisor. */
  function FloorDiv(x: int, d: int): (q: int)
    requires d > 0
    ensures d * q <= x < d * q + d
  {
    x / d
  }

  /** `Math.ceil(x / d)`. */
  function CeilDiv(x: int, d: int): (q: int)
    requires d > 0
    ensures d * q - d < x <= d * q
  {
    -((-x) / d)
  }

  datatype CivilDate = CivilDate(year: int, month: int, day: int)

  predicate IsLeapYear(y: int) {
    y % 4 == 0 && (y % 100 != 0 || y % 400 == 0)
  }

  function DaysInYear(y: int): int {
    if IsLeapYear(y) then 366 else 365
  }

  function DaysInMonth(y: int, m: int): (n: int)
    requires 0 <= m < 12
    ensures 28 <= n <= 31
  {
    if m == 1 then (if IsLeapYear(y) then 29 else 28)
    else if m == 3 || m == 5 || m == 8 || m == 10 then 30
    else 31
  }

  /** Days in the months of year `y` before month `m` (0-based). */
  function DaysBeforeMonth(y: int, m: int): int
    requires 0 <= m <= 12
  {
    if m == 0 then 0 else DaysBeforeMonth(y, m - 1) + DaysInMonth(y, m - 1)
  }

  /** Leap years among the years before `y`, counted from a fixed origin; only
      differences of this function are meaningful. */
  function LeapYearsBefore(y: int): int {
    (y - 1) / 4 - (y - 1) / 100 + (y - 1) / 400
  }

  /** Days from 1970-01-01 to January 1st of year `y` (negative before 1970). */
  function DaysBeforeYear(y: int): int {
    365 * (y - 1970) + LeapYearsBefore(y) - LeapYearsBefore(1970)
  }

  /** ECMAScript's MakeDay: the day number of (year, month, date) where the month
      and the date may lie outside their ranges and are carried over, as
      `setMonth` and `setDate` do. */
  function MakeDay(year: int, month: int, date: int): int {
    var y := year + month / 12;
    var m := month % 12;
    DaysBeforeYear(y) + DaysBeforeMonth(y, m) + date - 1
  }

  predicate ValidDate(c: CivilDate) {
    0 <= c.month < 12 && 1 <= c.day <= DaysInMonth(c.year, c.month)
  }

  /** The instant `new Date(c)` denotes: midnight at the start of that day. */
  function TimeValue(c: CivilDate): int {
    MakeDay(c.year, c.month, c.day) * MsPerDay
  }

  /** `d.setDate(d.getDate() + n)` on the date `c`: the result is exactly `n`
      whole days later, whatever months or years the step crosses. */
  function AddDays(c: CivilDate, n: int): (t: int)
    ensures t == TimeValue(c) + n * MsPerDay
  {
    MakeDay(c.year, c.month, c.day + n) * MsPerDay
  }

  /** `d.setMonth(d.getMonth() + n)` on the date `c`: the day of month is kept
      and, when the target month is shorter, carried into the next month. */
  function AddMonths(c: CivilDate, n: int): int {
    MakeDay(c.year, c.month + n, c.day) * MsPerDay
  }

  /** `setHours(0, 0, 0, 0)`: the midnight that starts the day of `t`. */
  function StartOfDay(t: int): (r: int)
    ensures r <= t < r + MsPerDay
    ensures r % MsPerDay == 0
  {
    (t / MsPerDay) * MsPerDay
  }

  /** A fixed offset of local time from UTC in milliseconds, positive east of
      Greenwich; every real zone lies within a day of UTC. */
  type Offset = z: int | -MsPerDay < z < MsPerDay

  /** `setHours(0, 0, 0, 0)` in the local zone: the last local midnight at or
      before `t`. */
  function LocalMidnight(t: int, zone: Offset): (r: int)
    ensures r <= t < r + MsPerDay
    ensures (r + zone) % MsPerDay == 0
  {
    StartOfDay(t + zone) - zone
  }

  /** The first local midnight at or after `t`. */
  function NextLocalMidnight(t: int, zone: Offset): (r: int)
    ensures t <= r < t + MsPerDay
    ensures (r + zone) % MsPerDay == 0
  {
    CeilDiv(t + zone, MsPerDay) * MsPerDay - zone
  }

  /** How long after a UTC midnight the next local midnight comes: nothing at
      UTC, the rest of the day east of it, the offset west of it. */
  function ZoneGap(zone: Offset): (g: int)
    ensures 0 <= g < MsPerDay
    ensures g == 0 <==> zone == 0
  {
    if zone > 0 then MsPerDay - zone else -zone
  }

  /** From a UTC midnight, the next local midnight is `ZoneGap` later. */
  lemma NextLocalMidnightOfUtcMidnight(t: int, zone: Offset)
    requires t % MsPerDay == 0
    ensures NextLocalMidnight(t, zone) == t + ZoneGap(zone)
  {
    var k := t / MsPerDay;
    assert t == k * MsPerDay;
    if zone > 0 {
      assert t + zone == k * MsPerDay + zone;
      assert CeilDiv(t + zone, MsPerDay) == k + 1;
    } else {
      assert CeilDiv(t + zone, MsPerDay) == k;
    }
  }

  /** Today's local midnight has passed `t` exactly when the first local
      midnight after `t` has come. */
  lemma LocalMidnightReached(t: int, now: int, zone: Offset)
    ensures t <= LocalMidnight(now, zone) <==> NextLocalMidnight(t, zone) <= now
  {
    var c := CeilDiv(t + zone, MsPerDay);
    var f := (now + zone) / MsPerDay;
    assert LocalMidnight(now, zone) + zone == f * MsPerDay;
    assert NextLocalMidnight(t, zone) + zone == c * MsPerDay;
    if t <= LocalMidnight(now, zone) {
      assert (c - 1) * MsPerDay < t + zone <= f * MsPerDay;
      assert c <= f;
      ScaleDays(c, c, f);
    }
    if NextLocalMidnight(t, zone) <= now {
      assert c * MsPerDay <= now + zone < (f + 1) * MsPerDay;
      assert c <= f;
      ScaleDays(c, c, f);
    }
  }

  /** The calendar date before `c`. */
  function PrevDay(c: CivilDate): (p: CivilDate)
    ensures ValidDate(c) ==> ValidDate(p) && TimeValue(p) == TimeValue(c) - MsPerDay
  {
    if c.day > 1 || c.month < 0 || c.month >= 12 then c.(day := c.day - 1)
    else if c.month > 0 then
      var p := CivilDate(c.year, c.month - 1, DaysInMonth(c.year, c.month - 1));
      EndOfPreviousMonth(c.year, c.month);
      p
    else
      EndOfPreviousYear(c.year);
      CivilDate(c.year - 1, 11, 31)
  }

  /** The last day of month `m - 1` is the day before the first of month `m`. */
  lemma EndOfPreviousMonth(y: int, m: int)
    requires 0 < m < 12
    ensures MakeDay(y, m - 1, DaysInMonth(y, m - 1)) == MakeDay(y, m, 1) - 1
  {
    assert (m - 1) / 12 == 0 && (m - 1) % 12 == m - 1;
    assert m / 12 == 0 && m % 12 == m;
  }

  /** December 31 is the day before January 1 of the next year. */
  lemma EndOfPreviousYear(y: int)
    ensures MakeDay(y - 1, 11, 31) == MakeDay(y, 0, 1) - 1
  {
    YearLength(y - 1);
    MonthsFillYear(y - 1);
    assert DaysBeforeMonth(y - 1, 12) == DaysBeforeMonth(y - 1, 11) + 31;
  }

  /** Whole days from `from` to `to`, rounded down: `Math.floor((to - from) / day)`. */
  function DaysBetween(from: int, to: int): (n: int)
    ensures n * MsPerDay <= to - from < n * MsPerDay + MsPerDay
  {
    FloorDiv(to - from, MsPerDay)
  }

  lemma {:induction false} LeapYearStep(y: int)
    ensures LeapYearsBefore(y + 1) - LeapYearsBefore(y) == (if IsLeapYear(y) then 1 else 0)
  {
    assert y / 4 - (y - 1) / 4 == (if y % 4 == 0 then 1 else 0);
    assert y / 100 - (y - 1) / 100 == (if y % 100 == 0 then 1 else 0);
    assert y / 400 - (y - 1) / 400 == (if y % 400 == 0 then 1 else 0);
    if y % 400 == 0 {
      assert y % 100 == 0 && y % 4 == 0;
    } else if y % 100 == 0 {
      assert y % 4 == 0;
    }
  }

  /** Consecutive years are `DaysInYear` apart. */
  lemma YearLength(y: int)
    ensures DaysBeforeYear(y + 1) - DaysBeforeYear(y) == DaysInYear(y)
  {
    LeapYearStep(y);
  }

  /** The twelve months fill the year. */
  lemma {:induction false} MonthsFillYear(y: int)
    ensures DaysBeforeMonth(y, 12) == DaysInYear(y)
  {
    var feb := DaysInMonth(y, 1);
    assert DaysBeforeMonth(y, 1) == 31;
    assert DaysBeforeMonth(y, 2) == 31 + feb;
    assert DaysBeforeMonth(y, 3) == 62 + feb;
    assert DaysBeforeMonth(y, 4) == 92 + feb;
    assert DaysBeforeMonth(y, 5) == 123 + feb;
    assert DaysBeforeMonth(y, 6) == 153 + feb;
    assert DaysBeforeMonth(y, 7) == 184 + feb;
    assert DaysBeforeMonth(y, 8) == 215 + feb;
    assert DaysBeforeMonth(y, 9) == 245 + feb;
    assert DaysBeforeMonth(y, 10) == 276 + feb;
    assert DaysBeforeMonth(y, 11) == 306 + feb;
  }

  /** JavaScript's day-of-month overflow: `k` days past the last day of month
      `m` is day `k` of the following month, including from December into
      January of the next year. */
  lemma DayOverflow(y: int, m: int, k: int)
    requires 0 <= m < 12
    ensures MakeDay(y, m, DaysInMonth(y, m) + k) == MakeDay(y, m + 1, k)
  {
    if m == 11 {
      YearLength(y);
      MonthsFillYear(y);
    }
  }

  /** `setMonth` carries whole years: adding 12 months is adding one year. */
  lemma MonthCarry(y: int, m: int, d: int)
    ensures MakeDay(y, m + 12, d) == MakeDay(y + 1, m, d)
  {
  }

  /** The month-overflow case of the training helpers: January 31, 2023 plus
      one month is March 3, 2023, not the last day of February. */
  lemma Jan31PlusOneMonth()
    ensures AddMonths(CivilDate(2023, 0, 31), 1) == TimeValue(CivilDate(2023, 2, 3))
  {
    DayOverflow(2023, 1, 3);
  }

  /** One `setMonth` step moves a date forward by the length of the month it
      starts in, whatever the day of month. */
  lemma MonthStep(y: int, m: int, d: int)
    ensures MakeDay(y, m + 1, d) == MakeDay(y, m, d) + DaysInMonth(y + m / 12, m % 12)
  {
    var y', m' := y + m / 12, m % 12;
    if m' == 11 {
      assert (m + 1) / 12 == m / 12 + 1 && (m + 1) % 12 == 0;
      YearLength(y');
      MonthsFillYear(y');
    } else {
      assert (m + 1) / 12 == m / 12 && (m + 1) % 12 == m' + 1;
    }
  }

  /** Adding `n` months to a date moves it by 28 to 31 days per month. */
  lemma AddMonthsBounds(c: CivilDate, n: nat)
    ensures TimeValue(c) + 28 * n * MsPerDay <= AddMonths(c, n) <= TimeValue(c) + 31 * n * MsPerDay
  {
    var delta := MonthsDays(c.year, c.month, c.day, n);
    ScaleDays(28 * n, delta, 31 * n);
  }

  /** Day numbers `n` months apart differ by 28 to 31 days per month. */
  lemma {:induction false} MonthsDays(y: int, m: int, d: int, n: nat) returns (delta: int)
    ensures delta == MakeDay(y, m + n, d) - MakeDay(y, m, d)
    ensures 28 * n <= delta <= 31 * n
  {
    if n == 0 {
      delta := 0;
    } else {
      var prev := MonthsDays(y, m, d, n - 1);
      var k := m + n - 1;
      MonthStep(y, k, d);
      assert MakeDay(y, m + n, d) == MakeDay(y, k + 1, d);
      delta := prev + DaysInMonth(y + k / 12, k % 12);
    }
  }

  /** Whole days scale to milliseconds monotonically. */
  lemma ScaleDays(lo: int, x: int, hi: int)
    requires lo <= x <= hi
    ensures lo * MsPerDay <= x * MsPerDay <= hi * MsPerDay
  {
  }
}
