/** An independent reference for the date operations: the number of days
    from 1 January of year 1 to a date, built from year and month lengths.
    `NextDate` adds one day to it, `PreviousDate` takes one away, and
    `CompareTo` orders dates as their day numbers are ordered. */
module DayNumbering {
  import opened Int32
  import opened Calendar
  import opened Dates

  function YearLength(year: int32): int
  {
    if IsLeapYear(year) then 366 else 365
  }

  /** Days in the years 1 .. year - 1. */
  function DaysBeforeYear(year: int32): nat
    requires year >= 1
    decreases year
  {
    if year == 1 then 0 else DaysBeforeYear(year - 1) + YearLength(year - 1)
  }

  /** The count of days before a year in closed form: 365 per year plus one
      for every leap year among 1 .. year - 1. */
  lemma {:induction false} DaysBeforeYearClosedForm(year: int32)
    requires year >= 1
    ensures var n := year as int - 1; DaysBeforeYear(year) == 365 * n + n / 4 - n / 100 + n / 400
    decreases year
  {
    if year > 1 {
      DaysBeforeYearClosedForm(year - 1);
      LeapCountStep(year as int - 1);
    }
  }

  /** Among 1 .. k there is one more leap year than among 1 .. k - 1 exactly
      when k is itself a leap year. */
  lemma LeapCountStep(k: int)
    ensures var before := (k - 1) / 4 - (k - 1) / 100 + (k - 1) / 400;
            k / 4 - k / 100 + k / 400 - before == if k % 4 == 0 && (k % 100 != 0 || k % 400 == 0) then 1 else 0
  {
    QuotientStep(k, 4);
    QuotientStep(k, 100);
    QuotientStep(k, 400);
  }

  /** Every 400 years the calendar repeats after exactly 146097 days. */
  lemma FourHundredYearCycle(year: int32)
    requires year >= 1 && year as int + 400 <= MAX
    ensures DaysBeforeYear(year + 400) == DaysBeforeYear(year) + 146097
  {
    DaysBeforeYearClosedForm(year);
    DaysBeforeYearClosedForm(year + 400);
    var n := year as int - 1;
    DivisionUnique(n + 400, 4, n / 4 + 100, n % 4);
    DivisionUnique(n + 400, 100, n / 100 + 4, n % 100);
    DivisionUnique(n + 400, 400, n / 400 + 1, n % 400);
  }

  /** Days in the months 1 .. month - 1 of `year`. */
  function DaysBeforeMonth(month: int32, year: int32): nat
    requires 1 <= month <= 13
    decreases month
  {
    if month == 1 then 0 else DaysBeforeMonth(month - 1, year) + DaysInMonth(month - 1, year) as int
  }

  /** Days elapsed since 1/1/1: zero for that date. */
  function DayNumber(d: Date): nat
    requires d.Valid()
  {
    DaysBeforeYear(d.year) + DaysBeforeMonth(d.month, d.year) + d.day as int - 1
  }

  /** The twelve month lengths add up to the length of the year. */
  lemma MonthLengthsMakeYear(year: int32)
    ensures DaysBeforeMonth(13, year) == YearLength(year)
  {
    var feb := DaysInMonth(2, year) as int;
    assert DaysBeforeMonth(2, year) == 31;
    assert DaysBeforeMonth(3, year) == 31 + feb;
    assert DaysBeforeMonth(4, year) == 62 + feb;
    assert DaysBeforeMonth(5, year) == 92 + feb;
    assert DaysBeforeMonth(6, year) == 123 + feb;
    assert DaysBeforeMonth(7, year) == 153 + feb;
    assert DaysBeforeMonth(8, year) == 184 + feb;
    assert DaysBeforeMonth(9, year) == 215 + feb;
    assert DaysBeforeMonth(10, year) == 245 + feb;
    assert DaysBeforeMonth(11, year) == 276 + feb;
    assert DaysBeforeMonth(12, year) == 306 + feb;
  }

  /** Later months start no earlier, and a month ends where the next begins. */
  lemma {:induction false} DaysBeforeMonthGrows(m1: int32, m2: int32, year: int32)
    requires 1 <= m1 < m2 <= 13
    ensures DaysBeforeMonth(m1, year) + DaysInMonth(m1, year) as int <= DaysBeforeMonth(m2, year)
    decreases m2
  {
    if m2 > m1 + 1 {
      DaysBeforeMonthGrows(m1, m2 - 1, year);
    }
  }

  /** Later years start no earlier, and a year ends where the next begins. */
  lemma {:induction false} DaysBeforeYearGrows(y1: int32, y2: int32)
    requires 1 <= y1 < y2
    ensures DaysBeforeYear(y1) + YearLength(y1) <= DaysBeforeYear(y2)
    decreases y2
  {
    if y2 > y1 + 1 {
      DaysBeforeYearGrows(y1, y2 - 1);
    }
  }

  /** A date's day number lies within its year. */
  lemma DayNumberWithinYear(d: Date)
    requires d.Valid()
    ensures DaysBeforeYear(d.year) <= DayNumber(d) < DaysBeforeYear(d.year) + YearLength(d.year)
  {
    if d.month < 12 {
      DaysBeforeMonthGrows(d.month, 13, d.year);
    }
    MonthLengthsMakeYear(d.year);
  }

  /** The successor is exactly one day later. */
  lemma NextDateAddsOneDay(d: Date)
    requires d.Valid() && d != Last
    ensures NextDate(d).Ok? && DayNumber(NextDate(d).value) == DayNumber(d) + 1
  {
    var n := NextDate(d).value;
    if d.day == DaysInMonth(d.month, d.year) && d.month == 12 {
      MonthLengthsMakeYear(d.year);
      assert n.year == d.year + 1;
    }
  }

  /** The predecessor is exactly one day earlier. */
  lemma PreviousDateRemovesOneDay(d: Date)
    requires d.Valid() && d != Epoch
    ensures PreviousDate(d).Ok? && DayNumber(PreviousDate(d).value) + 1 == DayNumber(d)
  {
    var p := PreviousDate(d).value;
    NextUndoesPrevious(d);
    assert NextDate(p) == Ok(d);
    NextDateAddsOneDay(p);
  }

  /** `CompareTo` orders dates as their day numbers are ordered. */
  lemma CompareToMatchesDayNumber(a: Date, b: Date)
    requires a.Valid() && b.Valid()
    ensures CompareTo(a, b) < 0 <==> DayNumber(a) < DayNumber(b)
    ensures CompareTo(a, b) == 0 <==> DayNumber(a) == DayNumber(b)
  {
    if Precedes(a, b) {
      PrecedesMeansEarlier(a, b);
    } else if Precedes(b, a) {
      PrecedesMeansEarlier(b, a);
    }
  }

  lemma PrecedesMeansEarlier(a: Date, b: Date)
    requires a.Valid() && b.Valid() && Precedes(a, b)
    ensures DayNumber(a) < DayNumber(b)
  {
    if a.year < b.year {
      DayNumberWithinYear(a);
      DayNumberWithinYear(b);
      DaysBeforeYearGrows(a.year, b.year);
    } else if a.month < b.month {
      DaysBeforeMonthGrows(a.month, b.month, a.year);
    }
  }

  /** No date is skipped: nothing lies strictly between a date and its
      successor. */
  lemma NothingBetweenDateAndNext(d: Date, e: Date)
    requires d.Valid() && d != Last && e.Valid()
    requires CompareTo(d, e) < 0
    ensures CompareTo(NextDate(d).value, e) <= 0
  {
    NextDateAddsOneDay(d);
    CompareToMatchesDayNumber(d, e);
    CompareToMatchesDayNumber(NextDate(d).value, e);
  }
}
