/** The immutable calendar date value: its checked constructor, the next and
    previous day, the ordering, equality and hash code. */
module Dates {
  import opened Int32
  import opened Calendar

  /** The two ways an operation on dates fails; each is an
      `IllegalArgumentException` in the Java class. */
  datatype DateError = InvalidDate | YearOutOfRange

  /** The exception message carried by each failure. */
  function Message(e: DateError): string
  {
    match e
    case InvalidDate => "Invalid date provided."
    case YearOutOfRange => "Year out of valid range."
  }

  datatype Result<+T> = Ok(value: T) | Err(error: DateError)

  /** A date as three Java ints. Only `MakeDate` creates values that stand for
      Java `Date` objects, and those always satisfy `Valid`. */
  datatype Date = Date(day: int32, month: int32, year: int32)
  {
    predicate Valid()
    {
      IsValidDate(day, month, year)
    }
  }

  /** The earliest date there is. */
  const Epoch: Date := Date(1, 1, 1)

  /** The latest date a Java int year can hold. */
  const Last: Date := Date(31, 12, MAX as int32)

  /** Lexicographic order on (year, month, day), stated without subtraction. */
  predicate Precedes(a: Date, b: Date)
  {
    || a.year < b.year
    || (a.year == b.year && a.month < b.month)
    || (a.year == b.year && a.month == b.month && a.day < b.day)
  }

  /** The constructor: it refuses exactly the triples that are not dates. */
  function MakeDate(day: int32, month: int32, year: int32): (r: Result<Date>)
    ensures r.Ok? <==> IsValidDate(day, month, year)
    ensures r.Ok? ==> r.value.Valid() && r.value == Date(day, month, year)
    ensures r.Err? ==> r.error == InvalidDate
  {
    if !IsValidDate(day, month, year) then Err(InvalidDate)
    else Ok(Date(day, month, year))
  }

  /** The following day. The day rolls over to 1 past the end of the month
      and the month to January past December; the year then grows by one in
      Java's wrapping arithmetic, so the day after `Last` would have a negative
      year and the constructor refuses it. */
  function NextDate(d: Date): (r: Result<Date>)
    requires d.Valid()
    ensures r.Err? <==> d == Last
    ensures r.Err? ==> r.error == InvalidDate
    ensures r.Ok? ==> r.value.Valid() && CompareTo(d, r.value) < 0
  {
    var maxDay := DaysInMonth(d.month, d.year);
    if d.day + 1 <= maxDay then MakeDate(d.day + 1, d.month, d.year)
    else if d.month + 1 <= 12 then MakeDate(1, d.month + 1, d.year)
    else MakeDate(1, 1, Wrap(d.year as int + 1))
  }

  /** The preceding day. Day 1 goes back to the last day of the previous month,
      January to December of the previous year, and there is nothing before
      1/1/1. */
  function PreviousDate(d: Date): (r: Result<Date>)
    requires d.Valid()
    ensures r.Err? <==> d == Epoch
    ensures r.Err? ==> r.error == YearOutOfRange
    ensures r.Ok? ==> r.value.Valid() && CompareTo(r.value, d) < 0
  {
    if d.day - 1 >= 1 then MakeDate(d.day - 1, d.month, d.year)
    else if d.month - 1 >= 1 then MakeDate(DaysInMonth(d.month - 1, d.year), d.month - 1, d.year)
    else if d.year - 1 < 1 then Err(YearOutOfRange)
    else MakeDate(DaysInMonth(12, d.year - 1), 12, d.year - 1)
  }

  /** Java's `Date.compareTo`: the Java difference of the first field, in the
      order year, month, day, that differs. On dates the subtractions never
      wrap, so the sign follows `Precedes`. */
  function CompareTo(a: Date, b: Date): (c: int32)
    ensures a.Valid() && b.Valid() ==> (c == 0 <==> a == b)
    ensures a.Valid() && b.Valid() ==> (c < 0 <==> Precedes(a, b))
    ensures a.Valid() && b.Valid() ==> (c > 0 <==> Precedes(b, a))
    ensures a.Valid() && b.Valid() && a.year != b.year ==> c as int == a.year as int - b.year as int
    ensures a.Valid() && b.Valid() && a.year == b.year && a.month != b.month ==> c as int == a.month as int - b.month as int
    ensures a.Valid() && b.Valid() && a.year == b.year && a.month == b.month ==> c as int == a.day as int - b.day as int
  {
    if a.year != b.year then Sub(a.year, b.year)
    else if a.month != b.month then Sub(a.month, b.month)
    else Sub(a.day, b.day)
  }

  /** Java's `Date.equals` on two dates: all three fields agree. */
  function Equals(a: Date, b: Date): (same: bool)
    ensures same <==> a == b
  {
    a.day == b.day && a.month == b.month && a.year == b.year
  }

  /** Java's `Date.hashCode`: 17, then `31 * h + field` for day, month and
      year, each step in Java's wrapping arithmetic. */
  function HashCode(d: Date): (h: int32)
    ensures d.Valid() ==> h == Wrap(506447 + 961 * d.day as int + 31 * d.month as int + d.year as int)
  {
    var h1 := Wrap(31 * 17 + d.day as int);
    var h2 := Wrap(31 * h1 as int + d.month as int);
    Wrap(31 * h2 as int + d.year as int)
  }

  /** Within a month the day advances, past its end the next month starts,
      and past December the next year starts. */
  lemma NextDateCarries(d: Date)
    requires d.Valid()
    ensures d.day < DaysInMonth(d.month, d.year) ==> NextDate(d) == Ok(Date(d.day + 1, d.month, d.year))
    ensures d.day == DaysInMonth(d.month, d.year) && d.month < 12 ==> NextDate(d) == Ok(Date(1, d.month + 1, d.year))
    ensures d.day == 31 && d.month == 12 && d != Last ==> NextDate(d) == Ok(Date(1, 1, d.year + 1))
  {
  }

  /** After day 1 the day goes back by one; from day 1 the last day of the
      previous month is reached, and from 1 January the 31 December before. */
  lemma PreviousDateBorrows(d: Date)
    requires d.Valid()
    ensures d.day > 1 ==> PreviousDate(d) == Ok(Date(d.day - 1, d.month, d.year))
    ensures d.day == 1 && d.month > 1 ==> PreviousDate(d) == Ok(Date(DaysInMonth(d.month - 1, d.year), d.month - 1, d.year))
    ensures d.day == 1 && d.month == 1 && d.year > 1 ==> PreviousDate(d) == Ok(Date(31, 12, d.year - 1))
  {
  }

  /** Stepping forward and then back returns to the same date. */
  lemma PreviousUndoesNext(d: Date)
    requires d.Valid() && d != Last
    ensures NextDate(d).Ok? && PreviousDate(NextDate(d).value) == Ok(d)
  {
  }

  /** Stepping back and then forward returns to the same date. */
  lemma NextUndoesPrevious(d: Date)
    requires d.Valid() && d != Epoch
    ensures PreviousDate(d).Ok? && NextDate(PreviousDate(d).value) == Ok(d)
  {
    PreviousDateBorrows(d);
    NextDateCarries(PreviousDate(d).value);
  }

  /** Two dates of the same year with equal hash codes are the same date. */
  lemma HashCodeSeparatesWithinYear(a: Date, b: Date)
    requires a.Valid() && b.Valid() && a.year == b.year
    requires HashCode(a) == HashCode(b)
    ensures a == b
  {
    var x := 506447 + 961 * a.day as int + 31 * a.month as int + a.year as int;
    var y := 506447 + 961 * b.day as int + 31 * b.month as int + b.year as int;
    WrapInjectiveNear(x, y);
  }
}
