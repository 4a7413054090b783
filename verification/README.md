# Calendar date value type

A Dafny model of the `Date` class of the `tp3-date` exercise: an immutable
Gregorian calendar date made of three Java ints (day, month, year) with a
checked constructor, the leap-year rule, month lengths, the next and previous
day, `compareTo`, `equals`, `hashCode` and `toString` in `DD/MM/YYYY` form.

Files and modules:

- `int32.dfy`, module `Int32`: Java's `int` as the newtype `int32`, its
  wrap-around (`Wrap`, `Sub`) and its truncating remainder (`Rem`).
- `calendar.dfy`, module `Calendar`: the static rules `IsLeapYear`,
  `DaysInMonth`, `IsValidDate`.
- `date.dfy`, module `Dates`: the `Date` datatype with its `Valid` predicate,
  the constructor `MakeDate`, `NextDate`, `PreviousDate`, `CompareTo`,
  `Equals`, `HashCode`, the two failure kinds and their messages, and the
  carry, borrow and round-trip lemmas.
- `date_order.dfy`, module `DateOrder`: `CompareTo` is a strict total order
  consistent with `Equals`.
- `day_number.dfy`, module `DayNumbering`: an independent reference, the
  number of days since 1/1/1 built from year and month lengths. `NextDate`
  adds one day to it, `PreviousDate` takes one away, `CompareTo` follows its
  order, and nothing lies between a date and its successor.
- `date_format.dfy`, module `DateFormat`: the zero-padded decimal text of
  `toString`, and a reader `Parse` that gets the date back from it.
- `date_examples.dfy`, module `DateExamples`: concrete values from the unit
  tests.

Modelling choices:

- Exceptions become `Result<T>` values: `Err(InvalidDate)` for "Invalid date
  provided." and `Err(YearOutOfRange)` for "Year out of valid range."
- A Java `Date` object always passed its constructor's check, so the
  operations on a date require `d.Valid()`; that is the class invariant, not
  an extra demand on callers. `MakeDate` and `Parse` accept any input.
- Years are Java ints. `nextDate` on 31/12/2147483647 increments the year with
  wrap-around to -2147483648 and the constructor then throws "Invalid date
  provided."; the model does the same, so `NextDate` fails exactly on `Last`.
- Java's `%` truncates toward zero, Dafny's is Euclidean; `Rem` models the
  Java operator and the leap-year contract is proved against the Euclidean
  statement of the rule (both agree on divisibility, also for negative years).
- The `compareTo` subtractions are Java subtractions (`Sub`); on valid dates
  they never wrap, and `CompareTo`'s contract gives the exact year, month or
  day difference that decides the comparison.
- `hashCode` wraps after each `31 * h + field` step; the model wraps the whole
  step, which gives the same int.

## Model

| member | source | states |
|---|---|---|
| Int32.Wrap | code/tp3-date/src/main/Date.java:98 | The wrapped value is congruent to the exact one modulo 2^32, and equal to it when the exact value fits in an int. |
| Int32.Sub | code/tp3-date/src/main/Date.java:144-152 | A Java subtraction equals the exact difference whenever that difference fits in an int. |
| Int32.Rem | code/tp3-date/src/main/Date.java:57-62 | Java's remainder lies in 0..b-1 for a non-negative dividend and in -(b-1)..0 for a negative one, and is zero exactly when b divides the dividend. |
| Int32.WrapInjectiveNear | code/tp3-date/src/main/Date.java:177-184 | Two exact results closer than 2^32 that wrap to the same int are equal. |
| Calendar.IsLeapYear | code/tp3-date/src/main/Date.java:53-64 | A year is a leap year exactly when it is divisible by 4 and either not by 100 or by 400. |
| Calendar.LeapYearCycle | code/tp3-date/src/main/Date.java:53-64 | The leap-year rule repeats every 400 years. |
| Calendar.DaysInMonth | code/tp3-date/src/main/Date.java:73-79 | A month has 28 to 31 days: 29 exactly for February of a leap year, 28 exactly for February otherwise, 30 exactly for months 4, 6, 9 and 11. |
| Calendar.IsValidDate | code/tp3-date/src/main/Date.java:33-45 | A triple is valid exactly when the year is positive, the month is 1..12, and the day is 1..28, or 29 outside February of a common year, or 30 outside February, or 31 in a 31-day month. |
| Dates.MakeDate | code/tp3-date/src/main/Date.java:16-23 | The constructor succeeds exactly on valid triples, keeps the three fields, and otherwise fails with the invalid-date error. |
| Dates.NextDate | code/tp3-date/src/main/Date.java:86-103 | The next day of a valid date is valid and strictly later; it fails, with the invalid-date error, exactly on 31/12 of the largest int year. |
| Dates.PreviousDate | code/tp3-date/src/main/Date.java:110-128 | The previous day of a valid date is valid and strictly earlier; it fails, with the year-out-of-range error, exactly on 1/1/1. |
| Dates.CompareTo | code/tp3-date/src/main/Date.java:139-153 | On valid dates the result is zero exactly for equal dates, negative exactly when the first precedes the second in (year, month, day) order, positive exactly when it follows; it equals the exact difference of the years when they differ, else of the months when they differ, else of the days. |
| Dates.Equals | code/tp3-date/src/main/Date.java:167-174 | Two dates are equal exactly when they are the same value. |
| Dates.HashCode | code/tp3-date/src/main/Date.java:176-184 | On a valid date the hash is the int that 506447 + 961·day + 31·month + year wraps to. |
| Dates.NextDateCarries | code/tp3-date/src/main/Date.java:86-103 | Before the month's end the day grows by one; at the end of months 1..11 the result is day 1 of the next month; after 31 December it is 1 January of the next year. |
| Dates.PreviousDateBorrows | code/tp3-date/src/main/Date.java:110-128 | After day 1 the day drops by one; from day 1 of months 2..12 the result is the last day of the previous month; from 1 January of a year after 1 it is 31 December of the year before. |
| Dates.PreviousUndoesNext | code/tp3-date/src/main/Date.java:86-128 | For every valid date but the last, the previous day of its next day is the date itself. |
| Dates.NextUndoesPrevious | code/tp3-date/src/main/Date.java:86-128 | For every valid date but 1/1/1, the next day of its previous day is the date itself. |
| Dates.HashCodeSeparatesWithinYear | code/tp3-date/src/main/Date.java:176-184 | Two valid dates of the same year with the same hash are equal. |
| DateOrder.CompareToAntisymmetric | code/tp3-date/src/main/Date.java:139-153 | Swapping the two dates negates the result exactly. |
| DateOrder.CompareToTransitive | code/tp3-date/src/main/Date.java:139-153 | If a is before b and b before c then a is before c. |
| DateOrder.CompareToConsistentWithEquals | code/tp3-date/src/main/Date.java:139-174 | The comparison is zero exactly when `equals` holds. |
| DateOrder.CompareToTotal | code/tp3-date/src/main/Date.java:139-153 | Of two distinct valid dates one is before the other. |
| DayNumbering.DaysBeforeYearClosedForm | code/tp3-date/src/main/Date.java:53-64 | The days before a year are 365 per year plus the leap years counted as n/4 - n/100 + n/400. |
| DayNumbering.FourHundredYearCycle | code/tp3-date/src/main/Date.java:53-64 | Every 400 years span exactly 146097 days. |
| DayNumbering.MonthLengthsMakeYear | code/tp3-date/src/main/Date.java:73-79 | The twelve month lengths add up to 366 in a leap year and 365 otherwise. |
| DayNumbering.DayNumberWithinYear | code/tp3-date/src/main/Date.java:33-45 | The day number of a valid date lies inside its own year. |
| DayNumbering.NextDateAddsOneDay | code/tp3-date/src/main/Date.java:86-103 | The next day of a valid date other than the last has a day number one larger. |
| DayNumbering.PreviousDateRemovesOneDay | code/tp3-date/src/main/Date.java:110-128 | The previous day of a valid date other than 1/1/1 has a day number one smaller. |
| DayNumbering.CompareToMatchesDayNumber | code/tp3-date/src/main/Date.java:139-153 | The comparison is negative exactly when the first date has the smaller day number, and zero exactly when the day numbers are equal. |
| DayNumbering.NothingBetweenDateAndNext | code/tp3-date/src/main/Date.java:86-103 | No valid date lies strictly between a date and its next day. |
| DateFormat.ZeroPad | code/tp3-date/src/main/Date.java:162 | The padded text is all digits, spells the value, and is as long as the width or the unpadded text, whichever is longer. |
| DateFormat.ToString | code/tp3-date/src/main/Date.java:160-163 | The text has two digits spelling the day, '/', two digits spelling the month, '/', and at least four digits spelling the year; it is exactly 10 characters for years up to 9999. |
| DateFormat.ParseToString | code/tp3-date/src/main/Date.java:160-163 | Reading the text of a valid date back gives the same date. |
| DateExamples.LeapYearExamples | code/tp3-date/src/test/DateTest.java:83-102 | 2024, 2000, 2400 and 400 are leap years; 2023, 1900, 2100, 100 and 1 are not. |
| DateExamples.ValidityExamples | code/tp3-date/src/test/DateTest.java:10-81 | The valid and invalid triples of the constructor and validity tests, and the constructor's message. |
| DateExamples.ValidityBoundaryExamples | code/tp3-date/src/test/DateTest.java:388-588 | The tests' boundary triples: month ends, century years, November, years 1, 9999 and 0. |
| DateExamples.NextDateExamples | code/tp3-date/src/test/DateTest.java:104-137 | The tests' next-day values, month and year ends included. |
| DateExamples.NextDateBoundaryExamples | code/tp3-date/src/test/DateTest.java:348-380 | 1/1/1 has a next day, and the tests' month-end successors. |
| DateExamples.PreviousDateExamples | code/tp3-date/src/test/DateTest.java:139-174 | The tests' previous-day values and the failure on 1/1/1 with its message. |
| DateExamples.PreviousDateMidYearExamples | code/tp3-date/src/test/DateTest.java:428-440 | The day before 1/2/2023 is 31/1/2023 and before 15/5/2023 is 14/5/2023. |
| DateExamples.CompareToExamples | code/tp3-date/src/test/DateTest.java:176-216 | The tests' signs of the comparison. |
| DateExamples.CompareToBoundaryExamples | code/tp3-date/src/test/DateTest.java:614-633 | The tests' signs across month, year and in-month boundaries. |
| DateExamples.HashCodeExamples | code/tp3-date/src/test/DateTest.java:272-284 | Equal dates hash alike, and 15/8/2023 and 16/8/2023 hash differently. |
| DateExamples.HashCodeLimitsExample | code/tp3-date/src/test/DateTest.java:697-702 | 1/1/2023 and 31/12/2023 hash differently. |
| DateExamples.ToStringPadsDayAndMonth | code/tp3-date/src/test/DateTest.java:286-290 | 5/7/2023 prints as "05/07/2023". |
| DateExamples.ToStringKeepsTwoDigitFields | code/tp3-date/src/test/DateTest.java:298-302 | 15/12/2023 prints as "15/12/2023". |
| DateExamples.ToStringPadsDay | code/tp3-date/src/test/DateTest.java:678-682 | 9/12/2023 prints as "09/12/2023". |
| DateExamples.ToStringPadsMonth | code/tp3-date/src/test/DateTest.java:684-688 | 15/3/2023 prints as "15/03/2023". |
| DateExamples.ToStringPadsYear | code/tp3-date/src/main/Date.java:162 | 1/1/1 prints as "01/01/0001". |

## Left out

- `compareTo(null)` throwing `NullPointerException`: a Dafny `Date` value cannot be null.
- `equals` against an object that is not a `Date`, and the reference-identity shortcut: a Dafny datatype has neither subclasses nor identity.
- `String.format` itself: the `%02d` and `%04d` conversions are written out by hand (`ZeroPad`) for the non-negative values a valid date holds.
- DateFormat.ToString: gives the text under a locale whose zero digit is ASCII '0' (the digits '0'..'9'), which is what the unit tests expect; `String.format` without a locale argument uses the JVM's default format locale, whose digits may differ.
- Dates.HashCodeSeparatesWithinYear: states distinct hashes only within one year, because dates of different years can collide (the hash adds the year to 31 times the month).
- The balanced-bracket checker and the TLS socket factory of the other exercises: separate components of the repository, whose implementations are not modelled here.
- The JUnit test harness: its expected values appear as lemmas in `DateExamples` instead.
