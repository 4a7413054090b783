/** Concrete values from the unit tests of the Java class (DateTest.java), checked against the model. */
module DateExamples {
  import opened Calendar
  import opened Dates
  import opened DateFormat

  lemma LeapYearExamples()
    ensures IsLeapYear(2024) && IsLeapYear(2000) && IsLeapYear(2400) && IsLeapYear(400)
    ensures !IsLeapYear(2023) && !IsLeapYear(1900) && !IsLeapYear(2100)
    ensures !IsLeapYear(100) && !IsLeapYear(1)
  {
  }

  lemma ValidityExamples()
    ensures IsValidDate(15, 8, 2023) && IsValidDate(29, 2, 2024)
    ensures IsValidDate(1, 1, 2023) && IsValidDate(31, 1, 2023) && IsValidDate(30, 4, 2023)
    ensures IsValidDate(28, 2, 2023)
    ensures !IsValidDate(0, 1, 2023) && !IsValidDate(32, 1, 2023) && !IsValidDate(31, 4, 2023)
    ensures !IsValidDate(15, 0, 2023) && !IsValidDate(15, 13, 2023)
    ensures !IsValidDate(15, 8, 0) && !IsValidDate(15, 8, -1)
    ensures !IsValidDate(29, 2, 2023) && !IsValidDate(30, 2, 2024)
    ensures MakeDate(32, 1, 2023) == Err(InvalidDate) && Message(InvalidDate) == "Invalid date provided."
  {
  }

  lemma ValidityBoundaryExamples()
    ensures !IsValidDate(29, 2, 2021) && IsValidDate(31, 12, 2023)
    ensures IsValidDate(30, 6, 2023) && !IsValidDate(31, 6, 2023)
    ensures !IsValidDate(29, 2, 1900) && IsValidDate(29, 2, 2000)
    ensures IsValidDate(30, 11, 2023) && !IsValidDate(31, 11, 2023)
    ensures IsValidDate(15, 8, 1) && IsValidDate(15, 8, 9999) && !IsValidDate(15, 8, 0)
  {
  }

  lemma NextDateExamples()
    ensures NextDate(Date(15, 8, 2023)) == Ok(Date(16, 8, 2023))
    ensures NextDate(Date(31, 1, 2023)) == Ok(Date(1, 2, 2023))
    ensures NextDate(Date(28, 2, 2024)) == Ok(Date(29, 2, 2024))
    ensures NextDate(Date(28, 2, 2023)) == Ok(Date(1, 3, 2023))
    ensures NextDate(Date(31, 12, 2023)) == Ok(Date(1, 1, 2024))
  {
  }

  lemma NextDateBoundaryExamples()
    ensures NextDate(Date(1, 1, 1)).Ok?
    ensures NextDate(Date(31, 1, 2023)) == Ok(Date(1, 2, 2023))
    ensures NextDate(Date(29, 2, 2024)) == Ok(Date(1, 3, 2024))
    ensures NextDate(Date(28, 2, 2023)) == Ok(Date(1, 3, 2023))
    ensures NextDate(Date(30, 4, 2023)) == Ok(Date(1, 5, 2023))
  {
  }

  lemma PreviousDateExamples()
    ensures PreviousDate(Date(15, 8, 2023)) == Ok(Date(14, 8, 2023))
    ensures PreviousDate(Date(1, 3, 2023)) == Ok(Date(28, 2, 2023))
    ensures PreviousDate(Date(1, 3, 2024)) == Ok(Date(29, 2, 2024))
    ensures PreviousDate(Date(1, 1, 2023)) == Ok(Date(31, 12, 2022))
    ensures PreviousDate(Date(1, 1, 1)) == Err(YearOutOfRange)
    ensures Message(YearOutOfRange) == "Year out of valid range."
  {
  }

  lemma PreviousDateMidYearExamples()
    ensures PreviousDate(Date(1, 2, 2023)) == Ok(Date(31, 1, 2023))
    ensures PreviousDate(Date(15, 5, 2023)) == Ok(Date(14, 5, 2023))
  {
  }

  lemma CompareToExamples()
    ensures CompareTo(Date(15, 8, 2023), Date(15, 8, 2023)) == 0
    ensures CompareTo(Date(16, 8, 2023), Date(15, 8, 2023)) > 0
    ensures CompareTo(Date(14, 8, 2023), Date(15, 8, 2023)) < 0
    ensures CompareTo(Date(15, 8, 2024), Date(15, 8, 2023)) > 0
    ensures CompareTo(Date(15, 9, 2023), Date(15, 8, 2023)) > 0
  {
  }

  lemma CompareToBoundaryExamples()
    ensures CompareTo(Date(1, 8, 2023), Date(31, 8, 2023)) < 0
    ensures CompareTo(Date(31, 12, 2023), Date(1, 1, 2024)) < 0
    ensures CompareTo(Date(31, 5, 2023), Date(1, 6, 2023)) < 0
  {
  }

  lemma HashCodeExamples()
    ensures HashCode(Date(15, 8, 2023)) == HashCode(Date(15, 8, 2023))
    ensures HashCode(Date(15, 8, 2023)) != HashCode(Date(16, 8, 2023))
  {
  }

  lemma HashCodeLimitsExample()
    ensures HashCode(Date(1, 1, 2023)) != HashCode(Date(31, 12, 2023))
  {
  }

  lemma ToStringPadsDay()
    ensures ToString(Date(9, 12, 2023)) == "09/12/2023"
  {
    ToStringJoinsFields(Date(9, 12, 2023));
    assert Decimal(2023) == "2023";
    assert ZeroPad(2023, 4) == "2023";
    assert ZeroPad(9, 2) == "09";
    assert ZeroPad(12, 2) == "12";
  }

  lemma ToStringPadsMonth()
    ensures ToString(Date(15, 3, 2023)) == "15/03/2023"
  {
    ToStringJoinsFields(Date(15, 3, 2023));
    assert Decimal(2023) == "2023";
    assert ZeroPad(2023, 4) == "2023";
    assert ZeroPad(15, 2) == "15";
    assert ZeroPad(3, 2) == "03";
  }

  lemma ToStringPadsDayAndMonth()
    ensures ToString(Date(5, 7, 2023)) == "05/07/2023"
  {
    ToStringJoinsFields(Date(5, 7, 2023));
    assert Decimal(2023) == "2023";
    assert ZeroPad(2023, 4) == "2023";
    assert ZeroPad(5, 2) == "05";
    assert ZeroPad(7, 2) == "07";
  }

  lemma ToStringKeepsTwoDigitFields()
    ensures ToString(Date(15, 12, 2023)) == "15/12/2023"
  {
    ToStringJoinsFields(Date(15, 12, 2023));
    assert Decimal(2023) == "2023";
    assert ZeroPad(2023, 4) == "2023";
    assert ZeroPad(15, 2) == "15";
    assert ZeroPad(12, 2) == "12";
  }

  lemma ToStringPadsYear()
    ensures ToString(Date(1, 1, 1)) == "01/01/0001"
  {
    ToStringJoinsFields(Date(1, 1, 1));
    assert ZeroPad(1, 2) == "01";
    assert ZeroPad(1, 4) == "0001";
  }
}
