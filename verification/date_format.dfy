/** The `DD/MM/YYYY` text of a date, as Java's `Date.toString` produces it
    with the Java format "%02d/%02d/%04d", and a reader for that text that
    recovers the date. */
module DateFormat {
  import opened Int32
  import opened Dates

  predicate IsDigit(c: char)
  {
    '0' <= c <= '9'
  }

  predicate AllDigits(s: string)
  {
    forall i :: 0 <= i < |s| ==> IsDigit(s[i])
  }

  function DigitChar(v: nat): (c: char)
    requires v < 10
    ensures IsDigit(c) && DigitValue(c) == v
  {
    "0123456789"[v]
  }

  function DigitValue(c: char): nat
    requires IsDigit(c)
  {
    c as int - '0' as int
  }

  function Pow10(k: nat): nat
  {
    if k == 0 then 1 else 10 * Pow10(k - 1)
  }

  /** The number a string of decimal digits spells, most significant first. */
  function ValueOf(s: string): (v: nat)
    requires AllDigits(s)
    ensures v < Pow10(|s|)
  {
    if |s| == 0 then 0 else ValueOf(s[..|s| - 1]) * 10 + DigitValue(s[|s| - 1])
  }

  /** The shortest decimal text of `n`: no leading zero except for 0 itself. */
  function Decimal(n: nat): (s: string)
    ensures 1 <= |s| && AllDigits(s)
    ensures |s| > 1 ==> s[0] != '0'
    decreases n
  {
    if n < 10 then [DigitChar(n)] else Decimal(n / 10) + [DigitChar(n % 10)]
  }

  function Zeros(k: nat): (s: string)
    ensures |s| == k && AllDigits(s)
  {
    seq(k, _ => '0')
  }

  /** Java's `%0<width>d` on a non-negative value: the decimal text,
      left-padded with zeros up to `width` characters, never truncated. */
  function ZeroPad(n: nat, width: nat): (s: string)
    ensures AllDigits(s) && ValueOf(s) == n
    ensures |s| == if |Decimal(n)| < width then width else |Decimal(n)|
  {
    var digits := Decimal(n);
    ValueOfDecimal(n);
    if |digits| < width then
      ValueOfAfterZeros(width - |digits|, digits);
      Zeros(width - |digits|) + digits
    else digits
  }

  /** Java's `Date.toString`. */
  function ToString(d: Date): (s: string)
    requires d.Valid()
    ensures |s| >= 10 && s[2] == '/' && s[5] == '/'
    ensures d.year <= 9999 ==> |s| == 10
    ensures AllDigits(s[..2]) && AllDigits(s[3..5]) && AllDigits(s[6..])
    ensures ValueOf(s[..2]) == d.day as int && ValueOf(s[3..5]) == d.month as int
    ensures ValueOf(s[6..]) == d.year as int
    ensures |s| - 6 == if |Decimal(d.year as nat)| < 4 then 4 else |Decimal(d.year as nat)|
  {
    DecimalFits(d.day as nat, 2);
    DecimalFits(d.month as nat, 2);
    FourDigitYears(d.year as nat);
    var dd, mm, yyyy := ZeroPad(d.day as nat, 2), ZeroPad(d.month as nat, 2), ZeroPad(d.year as nat, 4);
    var s := dd + "/" + mm + "/" + yyyy;
    assert s[..2] == dd && s[3..5] == mm && s[6..] == yyyy;
    s
  }

  /** The text of a date is its three padded fields joined by slashes. */
  lemma ToStringJoinsFields(d: Date)
    requires d.Valid()
    ensures ToString(d) == ZeroPad(d.day as nat, 2) + "/" + ZeroPad(d.month as nat, 2) + "/" + ZeroPad(d.year as nat, 4)
  {
  }

  /** Reads `DD/MM/Y...Y` (two digits, slash, two digits, slash, four or more
      digits) and builds the date through the checked constructor. */
  function Parse(s: string): (r: Result<Date>)
    ensures r.Ok? ==> r.value.Valid()
  {
    if |s| < 10 || s[2] != '/' || s[5] != '/' then Err(InvalidDate)
    else if !AllDigits(s[..2]) || !AllDigits(s[3..5]) || !AllDigits(s[6..]) then Err(InvalidDate)
    else
      var year := ValueOf(s[6..]);
      if year > MAX then Err(InvalidDate)
      else MakeDate(ValueOf(s[..2]) as int32, ValueOf(s[3..5]) as int32, year as int32)
  }

  /** Reading back the text of a date gives the same date. */
  lemma ParseToString(d: Date)
    requires d.Valid()
    ensures Parse(ToString(d)) == Ok(d)
  {
    var s := ToString(d);
    assert ValueOf(s[..2]) as int32 == d.day && ValueOf(s[3..5]) as int32 == d.month;
    assert ValueOf(s[6..]) as int32 == d.year;
  }

  lemma FourDigitYears(year: nat)
    ensures year <= 9999 ==> |Decimal(year)| <= 4
  {
    if year <= 9999 {
      DecimalFits(year, 4);
    }
  }

  /** The text of a value below 10^k has at most k digits. */
  lemma {:induction false} DecimalFits(n: nat, k: nat)
    requires 1 <= k && n < Pow10(k)
    ensures |Decimal(n)| <= k
    decreases n
  {
    if n >= 10 {
      DecimalFits(n / 10, k - 1);
    }
  }

  lemma {:induction false} ValueOfDecimal(n: nat)
    ensures ValueOf(Decimal(n)) == n
    decreases n
  {
    if n >= 10 {
      var prefix := Decimal(n / 10);
      var s := Decimal(n);
      assert s[..|s| - 1] == prefix;
      ValueOfDecimal(n / 10);
    }
  }

  /** Leading zeros do not change the value. */
  lemma {:induction false} ValueOfAfterZeros(k: nat, s: string)
    requires AllDigits(s)
    ensures ValueOf(Zeros(k) + s) == ValueOf(s)
    decreases |s|
  {
    var t := Zeros(k) + s;
    if |s| == 0 {
      assert t == Zeros(k);
      ValueOfZeros(k);
    } else {
      assert t[..|t| - 1] == Zeros(k) + s[..|s| - 1];
      ValueOfAfterZeros(k, s[..|s| - 1]);
    }
  }

  lemma {:induction false} ValueOfZeros(k: nat)
    ensures ValueOf(Zeros(k)) == 0
  {
    if k > 0 {
      assert Zeros(k)[..k - 1] == Zeros(k - 1);
      ValueOfZeros(k - 1);
    }
  }
}
