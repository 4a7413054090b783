/** The Gregorian calendar rules behind the date type: the leap-year rule,
    the length of each month and the validity of a (day, month, year) triple.
    Every argument is a Java `int`. */
module Calendar {
  import opened Int32

  /** A year is a leap year when it is divisible by 4, except for century
      years, which are leap years only when divisible by 400. The body follows
      the Java method's chain of tests with Java's truncating remainder; the
      contract states the rule with the mathematical one. */
  function IsLeapYear(year: int32): (leap: bool)
    ensures leap <==> year as int % 4 == 0 && (year as int % 100 != 0 || year as int % 400 == 0)
  {
    if Rem(year as int, 4) != 0 then false
    else if Rem(year as int, 100) != 0 then true
    else Rem(year as int, 400) == 0
  }

  /** The rule repeats every 400 years. */
  lemma LeapYearCycle(year: int32)
    requires year as int + 400 <= MAX
    ensures IsLeapYear(year) == IsLeapYear(year + 400)
  {
    var y := year as int;
    DivisionUnique(y + 400, 4, y / 4 + 100, y % 4);
    DivisionUnique(y + 400, 100, y / 100 + 4, y % 100);
    DivisionUnique(y + 400, 400, y / 400 + 1, y % 400);
  }

  /** The number of days of `month` in `year`. Any month other than 2, 4, 6,
      9 and 11 falls to the default case of 31 days, as in the Java switch. */
  function DaysInMonth(month: int32, year: int32): (days: int32)
    ensures 28 <= days <= 31
    ensures days == 29 <==> month == 2 && IsLeapYear(year)
    ensures days == 28 <==> month == 2 && !IsLeapYear(year)
    ensures days == 30 <==> month == 4 || month == 6 || month == 9 || month == 11
  {
    match month
    case 2 => if IsLeapYear(year) then 29 else 28
    case 4 | 6 | 9 | 11 => 30
    case _ => 31
  }

  /** A triple names a real date when the year is positive, the month is
      1..12 and the day lies between 1 and the length of that month. */
  function IsValidDate(day: int32, month: int32, year: int32): (valid: bool)
    ensures valid <==>
      && year >= 1
      && 1 <= month <= 12
      && 1 <= day
      && (|| day <= 28
          || (day == 29 && (month != 2 || IsLeapYear(year)))
          || (day == 30 && month != 2)
          || (day == 31 && month in {1, 3, 5, 7, 8, 10, 12}))
  {
    if year < 1 then false
    else if month < 1 || month > 12 then false
    else
      var maxDay := DaysInMonth(month, year);
      day >= 1 && day <= maxDay
  }
}
