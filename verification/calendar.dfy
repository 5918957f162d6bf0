/**
 Proleptic Gregorian calendar dates.

 A date string `YYYY-MM-DD` of the application is modelled as the triple
 `Civil(year, month, day)`; two date strings are equal exactly when their
 triples are. Arithmetic on dates (the millisecond difference of two
 UTC-midnight timestamps, `setDate(getDate() + i)`) is modelled through the
 day number, the count of days since 1970-01-01.
 */
module Calendar {

  datatype Civil = Civil(year: int, month: int, day: int)

  predicate IsLeapYear(y: int) {
    y % 4 == 0 && (y % 100 != 0 || y % 400 == 0)
  }

  function DaysInMonth(y: int, m: int): (n: int)
    ensures 28 <= n <= 31
    ensures n == 29 <==> m == 2 && IsLeapYear(y)
  {
    if m == 2 then (if IsLeapYear(y) then 29 else 28)
    else if m == 4 || m == 6 || m == 9 || m == 11 then 30
    else 31
  }

  /** A triple that names a real calendar day. */
  predicate Valid(c: Civil) {
    1 <= c.month <= 12 && 1 <= c.day <= DaysInMonth(c.year, c.month)
  }

  /** `a` is strictly earlier than `b` in calendar order. */
  predicate Before(a: Civil, b: Civil) {
    a.year < b.year ||
    (a.year == b.year && (a.month < b.month || (a.month == b.month && a.day < b.day)))
  }

  lemma BeforeTransitive(a: Civil, b: Civil, c: Civil)
    requires Before(a, b) && Before(b, c)
    ensures Before(a, c)
  {
  }

  /** Days in the March-based years before the March-based year `y`
      (counted from the March-based year 0). */
  function YearStart(y: int): int {
    365 * y + y / 4 - y / 100 + y / 400
  }

  /** Days from the first of March to the first of the given month of a
      March-based year (March is month index 0, February index 11). */
  function MonthStart(c: Civil): int {
    var mp := if c.month > 2 then c.month - 3 else c.month + 9;
    (153 * mp + 2) / 5
  }

  /** Days since 1970-01-01; 1970-01-01 itself is day 0. */
  function DayNumber(c: Civil): int {
    var y := if c.month <= 2 then c.year - 1 else c.year;
    YearStart(y) + MonthStart(c) + c.day - 1 - 719468
  }

  /** Day of the week in the convention of `Date.prototype.getDay`:
      0 is Sunday and 6 is Saturday. */
  function Weekday(c: Civil): (w: int)
    ensures 0 <= w < 7
    ensures c == Civil(1970, 1, 1) ==> w == 4
  {
    (DayNumber(c) + 4) % 7
  }

  /** The calendar day after `c`. */
  function NextDay(c: Civil): Civil {
    if c.day < DaysInMonth(c.year, c.month) then c.(day := c.day + 1)
    else if c.month < 12 then Civil(c.year, c.month + 1, 1)
    else Civil(c.year + 1, 1, 1)
  }

  /** The date `n` days after `c`. */
  function AddDays(c: Civil, n: nat): Civil {
    if n == 0 then c else NextDay(AddDays(c, n - 1))
  }

  /** `Math.ceil(d / 7)`: which week of its month a day-of-month falls in. */
  function WeekOfMonth(d: int): (w: int)
    ensures 7 * (w - 1) < d <= 7 * w
  {
    (d + 6) / 7
  }

  lemma DivStep4(y: int)
    ensures y / 4 - (y - 1) / 4 == if y % 4 == 0 then 1 else 0
  {
  }

  lemma DivStep100(y: int)
    ensures y / 100 - (y - 1) / 100 == if y % 100 == 0 then 1 else 0
  {
  }

  lemma DivStep400(y: int)
    ensures y / 400 - (y - 1) / 400 == if y % 400 == 0 then 1 else 0
  {
  }

  /** A March-based year is 366 days long exactly when the calendar year in
      which its February falls is a leap year. */
  lemma {:induction false} YearLength(y: int)
    ensures YearStart(y) - YearStart(y - 1) == if IsLeapYear(y) then 366 else 365
  {
    DivStep4(y);
    DivStep100(y);
    DivStep400(y);
  }

  /** `NextDay` moves to a valid date whose day number is one larger. */
  lemma {:induction false} NextDayStep(c: Civil)
    requires Valid(c)
    ensures Valid(NextDay(c))
    ensures DayNumber(NextDay(c)) == DayNumber(c) + 1
  {
    if c.day < DaysInMonth(c.year, c.month) {
    } else if c.month == 2 {
      EndOfFebruary(c.year);
    } else if c.month < 12 {
      EndOfMonth(c.year, c.month);
    } else {
      assert NextDay(c) == Civil(c.year + 1, 1, 1);
      YearStartStep(c.year);
    }
  }

  /** The day after the last day of February is the first of March. */
  lemma EndOfFebruary(y: int)
    ensures DayNumber(Civil(y, 3, 1)) == DayNumber(Civil(y, 2, DaysInMonth(y, 2))) + 1
  {
    YearLength(y);
  }

  /** Between March and December the day after a month's last day is the
      first of the next month. */
  lemma EndOfMonth(y: int, m: int)
    requires m == 1 || 3 <= m < 12
    ensures DayNumber(Civil(y, m + 1, 1)) == DayNumber(Civil(y, m, DaysInMonth(y, m))) + 1
  {
  }

  /** The day after the 31st of December is the first of January, both in
      the same March-based year. */
  lemma YearStartStep(y: int)
    ensures DayNumber(Civil(y + 1, 1, 1)) == DayNumber(Civil(y, 12, 31)) + 1
  {
  }

  /** `AddDays(c, n)` is the valid date whose day number is `n` larger. */
  lemma {:induction false} AddDaysNumber(c: Civil, n: nat)
    requires Valid(c)
    ensures Valid(AddDays(c, n))
    ensures DayNumber(AddDays(c, n)) == DayNumber(c) + n
  {
    if n > 0 {
      AddDaysNumber(c, n - 1);
      NextDayStep(AddDays(c, n - 1));
    }
  }

  /** The first `n` dates from `c` have consecutive day numbers. */
  lemma ConsecutiveDays(c: Civil, n: nat)
    requires Valid(c)
    ensures forall i :: 0 <= i < n ==> DayNumber(AddDays(c, i)) == DayNumber(c) + i
  {
    forall i | 0 <= i < n
      ensures DayNumber(AddDays(c, i)) == DayNumber(c) + i
    {
      AddDaysNumber(c, i);
    }
  }

  /** Distinct offsets from one valid date give distinct dates. */
  lemma AddDaysInjective(c: Civil, i: nat, j: nat)
    requires Valid(c)
    requires i != j
    ensures AddDays(c, i) != AddDays(c, j)
  {
    AddDaysNumber(c, i);
    AddDaysNumber(c, j);
  }

  /** Within a month the day number grows with the day of the month. */
  lemma DayInMonth(c: Civil)
    ensures DayNumber(c) == DayNumber(Civil(c.year, c.month, 1)) + c.day - 1
  {
  }

  /** The day after the last day of a month is the first of the next one. */
  lemma MonthEnd(y: int, m: int)
    requires 1 <= m <= 12
    ensures NextDay(Civil(y, m, DaysInMonth(y, m))).day == 1
    ensures 1 <= NextDay(Civil(y, m, DaysInMonth(y, m))).month <= 12
    ensures NextDay(Civil(y, m, DaysInMonth(y, m))).year * 12 + NextDay(Civil(y, m, DaysInMonth(y, m))).month
            == y * 12 + m + 1
  {
  }

  /** The first of a month plus the length of that month is no later than
      the first of any later month. */
  lemma {:induction false} MonthStartsIncrease(y1: int, m1: int, y2: int, m2: int)
    requires 1 <= m1 <= 12 && 1 <= m2 <= 12
    requires y1 * 12 + m1 < y2 * 12 + m2
    ensures DayNumber(Civil(y1, m1, 1)) + DaysInMonth(y1, m1) <= DayNumber(Civil(y2, m2, 1))
    decreases y2 * 12 + m2 - (y1 * 12 + m1)
  {
    var last := Civil(y1, m1, DaysInMonth(y1, m1));
    DayInMonth(last);
    NextDayStep(last);
    MonthEnd(y1, m1);
    var next := NextDay(last);
    assert DayNumber(next) == DayNumber(Civil(y1, m1, 1)) + DaysInMonth(y1, m1);
    if next.year * 12 + next.month < y2 * 12 + m2 {
      MonthStartsIncrease(next.year, next.month, y2, m2);
    } else {
      assert next.year == y2 && next.month == m2;
    }
  }

  /** The day number follows calendar order on valid dates. */
  lemma DayNumberMonotone(a: Civil, b: Civil)
    requires Valid(a) && Valid(b)
    requires Before(a, b)
    ensures DayNumber(a) < DayNumber(b)
  {
    DayInMonth(a);
    DayInMonth(b);
    if a.year != b.year || a.month != b.month {
      assert a.year * 12 + a.month < b.year * 12 + b.month;
      MonthStartsIncrease(a.year, a.month, b.year, b.month);
    }
  }

  /** Distinct valid dates have distinct day numbers. */
  lemma DayNumberInjective(a: Civil, b: Civil)
    requires Valid(a) && Valid(b)
    requires DayNumber(a) == DayNumber(b)
    ensures a == b
  {
    if Before(a, b) {
      DayNumberMonotone(a, b);
    } else if Before(b, a) {
      DayNumberMonotone(b, a);
    }
  }

  /** Counting days forward from a valid date reaches any valid date that
      is not earlier. */
  lemma ReachesEnd(start: Civil, end: Civil)
    requires Valid(start) && Valid(end)
    requires DayNumber(start) <= DayNumber(end)
    ensures AddDays(start, DayNumber(end) - DayNumber(start)) == end
  {
    AddDaysNumber(start, DayNumber(end) - DayNumber(start));
    DayNumberInjective(AddDays(start, DayNumber(end) - DayNumber(start)), end);
  }

  /** On valid dates, calendar order and day-number order agree. */
  lemma DayNumberOrder(a: Civil, b: Civil)
    ensures Valid(a) && Valid(b) ==> (Before(a, b) <==> DayNumber(a) < DayNumber(b))
  {
    if Valid(a) && Valid(b) {
      if Before(a, b) {
        DayNumberMonotone(a, b);
      } else if Before(b, a) {
        DayNumberMonotone(b, a);
      }
    }
  }

  /** The weekday of the next day is the following weekday. */
  lemma WeekdayNext(c: Civil)
    requires Valid(c)
    ensures Weekday(NextDay(c)) == (Weekday(c) + 1) % 7
  {
    NextDayStep(c);
    WeekStep(DayNumber(c) + 4);
  }

  lemma WeekStep(x: int)
    ensures (x + 1) % 7 == (x % 7 + 1) % 7
  {
  }
}
