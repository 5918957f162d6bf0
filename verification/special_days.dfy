/**
 Properties of the special-day classifier and of the 2026 holiday table:
 the table is unambiguous, holidays take precedence over weekends, Sundays
 and the second and fourth Saturdays are days off, outsourced staff get no
 automatic labels.
 */
module SpecialDays {
  import opened Wrappers
  import opened Calendar
  import opened Types
  import opened Constants

  /** Each entry of the table is dated strictly after the previous one. */
  predicate Chronological(table: seq<Holiday>) {
    forall i :: 0 < i < |table| ==> Before(table[i - 1].date, table[i].date)
  }

  /** No two entries share a date, so `find` by date is unambiguous. */
  predicate DistinctDates(table: seq<Holiday>) {
    forall i, j :: 0 <= i < j < |table| ==> table[i].date != table[j].date
  }

  lemma {:induction false} ChronologicalOrdered(table: seq<Holiday>, i: nat, j: nat)
    requires Chronological(table)
    requires i < j < |table|
    ensures Before(table[i].date, table[j].date)
    decreases j - i
  {
    if i + 1 < j {
      ChronologicalOrdered(table, i + 1, j);
    }
  }

  lemma ChronologicalDistinct(table: seq<Holiday>)
    requires Chronological(table)
    ensures DistinctDates(table)
  {
    forall i, j | 0 <= i < j < |table|
      ensures table[i].date != table[j].date
    {
      ChronologicalOrdered(table, i, j);
    }
  }

  /** In a chronological table, a date strictly between two neighbouring
      entries is not listed. */
  lemma NotListedBetween(table: seq<Holiday>, i: int, date: Civil)
    requires Chronological(table)
    requires 0 <= i < |table| - 1
    requires Before(table[i].date, date) && Before(date, table[i + 1].date)
    ensures !Listed(table, date)
  {
    forall j | 0 <= j < |table|
      ensures table[j].date != date
    {
      if j < i {
        ChronologicalOrdered(table, j, i);
        BeforeTransitive(table[j].date, table[i].date, date);
      } else if i + 1 < j {
        ChronologicalOrdered(table, i + 1, j);
        BeforeTransitive(date, table[i + 1].date, table[j].date);
      }
    }
  }

  /** The 2026 table: sixteen entries in calendar order, pairwise
      distinct. */
  lemma GokTable()
    ensures |GokHolidays2026| == 16
    ensures Chronological(GokHolidays2026)
    ensures DistinctDates(GokHolidays2026)
  {
    GokChronological();
    ChronologicalDistinct(GokHolidays2026);
  }

  lemma GokChronological()
    ensures Chronological(GokHolidays2026)
  {
    GokFirstHalfChronological();
    GokSecondHalfChronological();
  }

  /** The first half of the table is in calendar order. */
  lemma GokFirstHalfChronological()
    ensures forall i :: 0 < i <= 8 ==> Before(GokHolidays2026[i - 1].date, GokHolidays2026[i].date)
  {
  }

  /** The second half of the table is in calendar order. */
  lemma GokSecondHalfChronological()
    ensures forall i :: 8 <= i < 16 ==> Before(GokHolidays2026[i - 1].date, GokHolidays2026[i].date)
  {
  }

  /** Every date of the 2026 table is a real day of 2026. */
  lemma GokTableDates()
    ensures forall i :: 0 <= i < |GokHolidays2026| ==>
              Valid(GokHolidays2026[i].date) && GokHolidays2026[i].date.year == 2026
  {
  }

  /** With distinct dates, `find` on an entry's date returns that entry. */
  lemma FindDistinct(table: seq<Holiday>, i: int)
    requires DistinctDates(table)
    requires 0 <= i < |table|
    ensures FindHoliday(table, table[i].date) == Some(table[i])
  {
    assert Listed(table, table[i].date);
  }

  /** Outsourced employees never get an automatic label. */
  lemma OutsourcedNeverSpecial(date: Civil)
    ensures SpecialDayInfo(date, OUTSOURCED) == None
  {
  }

  /** Every listed holiday is classified HOLIDAY under its own name. */
  lemma ListedHolidayClassified(i: int)
    requires 0 <= i < |GokHolidays2026|
    ensures SpecialDayInfo(GokHolidays2026[i].date, REGULAR) ==
            Some(SpecialDay(HOLIDAY, GokHolidays2026[i].name))
  {
    GokTable();
    FindDistinct(GokHolidays2026, i);
  }

  /** For a regular employee the label is HOLIDAY exactly on listed dates. */
  lemma HolidayIffListed(date: Civil)
    ensures (SpecialDayInfo(date, REGULAR).Some? && SpecialDayInfo(date, REGULAR).value.status == HOLIDAY)
            <==> Listed(GokHolidays2026, date)
  {
  }

  /** A Sunday that is not a holiday is a weekend day named "Sunday". */
  lemma SundayRule(date: Civil)
    requires !Listed(GokHolidays2026, date)
    requires Weekday(date) == 0
    ensures SpecialDayInfo(date, REGULAR) == Some(SpecialDay(WEEKEND, "Sunday"))
  {
  }

  /** A Saturday that is not a holiday is off exactly when it is the second
      (days 8 to 14) or fourth (days 22 to 28) Saturday of its month. */
  lemma SaturdayRule(date: Civil)
    requires Valid(date)
    requires !Listed(GokHolidays2026, date)
    requires Weekday(date) == 6
    ensures SpecialDayInfo(date, REGULAR) == Some(SpecialDay(WEEKEND, "2nd Saturday")) <==> 8 <= date.day <= 14
    ensures SpecialDayInfo(date, REGULAR) == Some(SpecialDay(WEEKEND, "4th Saturday")) <==> 22 <= date.day <= 28
    ensures SpecialDayInfo(date, REGULAR) == None <==>
              date.day <= 7 || 15 <= date.day <= 21 || 29 <= date.day
  {
  }

  /** Monday to Friday, a day that is not a holiday gets no label. */
  lemma WorkdayRule(date: Civil)
    requires !Listed(GokHolidays2026, date)
    requires 1 <= Weekday(date) <= 5
    ensures SpecialDayInfo(date, REGULAR) == None
  {
  }

  /** For a regular employee a valid date is a weekend day off exactly when
      it is not a holiday and is a Sunday or a second or fourth Saturday. */
  lemma WeekendIff(date: Civil)
    requires Valid(date)
    ensures (SpecialDayInfo(date, REGULAR).Some? && SpecialDayInfo(date, REGULAR).value.status == WEEKEND)
            <==> !Listed(GokHolidays2026, date) &&
                 (Weekday(date) == 0 ||
                  (Weekday(date) == 6 && (8 <= date.day <= 14 || 22 <= date.day <= 28)))
  {
  }

  /** Kannada Rajyotsava and Deepavali fall on Sundays in 2026. */
  lemma SundayHolidayDates2026()
    ensures Weekday(Civil(2026, 11, 1)) == 0
    ensures Weekday(Civil(2026, 11, 8)) == 0
  {
  }

  /** Kannada Rajyotsava (a Sunday) is still classified as a holiday. */
  lemma RajyotsavaIsHoliday()
    ensures SpecialDayInfo(Civil(2026, 11, 1), REGULAR) == Some(SpecialDay(HOLIDAY, "Kannada Rajyotsava"))
  {
    assert GokHolidays2026[13] == Holiday(Civil(2026, 11, 1), "Kannada Rajyotsava", PUBLIC);
    ListedHolidayClassified(13);
  }

  /** Deepavali (a Sunday) is still classified as a holiday. */
  lemma DeepavaliIsHoliday()
    ensures SpecialDayInfo(Civil(2026, 11, 8), REGULAR) == Some(SpecialDay(HOLIDAY, "Deepavali"))
  {
    assert GokHolidays2026[14] == Holiday(Civil(2026, 11, 8), "Deepavali", PUBLIC);
    ListedHolidayClassified(14);
  }
}
