/**
 * Calendar dates in the zero-padded `YYYY-MM-DD` form that `datetime.strptime(s,
 * "%Y-%m-%d")` accepts: four-digit year from 1 to 9999, a month from 01 to 12, and a day
 * that exists in that month of the Gregorian calendar.
 */
module Calendar {
  import opened Wrappers

  datatype Date = Date(year: int, month: int, day: int)

  /** Gregorian leap years: divisible by 4, except centuries not divisible by 400. */
  predicate IsLeapYear(y: int) {
    y % 4 == 0 && (y % 100 != 0 || y % 400 == 0)
  }

  function DaysInMonth(y: int, m: int): (n: int)
    requires 1 <= m <= 12
    ensures 28 <= n <= 31
    ensures n == 29 <==> m == 2 && IsLeapYear(y)
  {
    if m == 2 then (if IsLeapYear(y) then 29 else 28)
    else if m == 4 || m == 6 || m == 9 || m == 11 then 30
    else 31
  }

  function DaysInYear(y: int): int {
    DaysInMonth(y, 1) + DaysInMonth(y, 2) + DaysInMonth(y, 3) + DaysInMonth(y, 4)
    + DaysInMonth(y, 5) + DaysInMonth(y, 6) + DaysInMonth(y, 7) + DaysInMonth(y, 8)
    + DaysInMonth(y, 9) + DaysInMonth(y, 10) + DaysInMonth(y, 11) + DaysInMonth(y, 12)
  }

  /** The month lengths add up to the length of the year. */
  lemma YearLength(y: int)
    ensures DaysInYear(y) == if IsLeapYear(y) then 366 else 365
  {
  }

  /** A date `datetime` can represent: year 1 to 9999 and a day that exists. */
  predicate IsValidDate(d: Date) {
    && 1 <= d.year <= 9999
    && 1 <= d.month <= 12
    && 1 <= d.day <= DaysInMonth(d.year, d.month)
  }

  predicate IsDigit(c: char) { '0' <= c <= '9' }

  predicate AllDigits(s: string) { forall i :: 0 <= i < |s| ==> IsDigit(s[i]) }

  function DigitValue(c: char): nat
    requires IsDigit(c)
  {
    c as int - '0' as int
  }

  function DigitChar(n: nat): char
    requires n < 10
  {
    (n + '0' as int) as char
  }

  /** The number a string of decimal digits denotes. */
  function NumberValue(s: string): nat
    requires AllDigits(s)
  {
    if s == [] then 0 else 10 * NumberValue(s[..|s| - 1]) + DigitValue(s[|s| - 1])
  }

  function Pow10(n: nat): nat {
    if n == 0 then 1 else 10 * Pow10(n - 1)
  }

  /** The last `width` decimal digits of `n`, zero-padded on the left. */
  function PadNumber(n: nat, width: nat): (s: string)
    ensures |s| == width && AllDigits(s)
  {
    if width == 0 then [] else PadNumber(n / 10, width - 1) + [DigitChar(n % 10)]
  }

  /** Formatting a number that fits and reading it back gives the number. */
  lemma {:induction false} NumberValueOfPad(n: nat, width: nat)
    requires n < Pow10(width)
    ensures NumberValue(PadNumber(n, width)) == n
  {
    if width > 0 {
      NumberValueOfPad(n / 10, width - 1);
      var s := PadNumber(n, width);
      assert s[..|s| - 1] == PadNumber(n / 10, width - 1);
    }
  }

  /** Reading a digit string and formatting it to the same width gives the string back. */
  lemma {:induction false} PadOfNumberValue(s: string)
    requires AllDigits(s)
    ensures NumberValue(s) < Pow10(|s|)
    ensures PadNumber(NumberValue(s), |s|) == s
  {
    if s != [] {
      var init := s[..|s| - 1];
      PadOfNumberValue(init);
      var v := NumberValue(s);
      assert v / 10 == NumberValue(init) && v % 10 == DigitValue(s[|s| - 1]);
      assert s == init + [s[|s| - 1]];
    }
  }

  /** Ten characters: four digits, '-', two digits, '-', two digits. */
  predicate HasDateShape(s: string) {
    && |s| == 10 && s[4] == '-' && s[7] == '-'
    && IsDigit(s[0]) && IsDigit(s[1]) && IsDigit(s[2]) && IsDigit(s[3])
    && IsDigit(s[5]) && IsDigit(s[6]) && IsDigit(s[8]) && IsDigit(s[9])
  }

  /** The year, month and day fields of a date-shaped string, read digit by digit. */
  function DateOfDigits(s: string): Date
    requires HasDateShape(s)
  {
    Date(1000 * DigitValue(s[0]) + 100 * DigitValue(s[1]) + 10 * DigitValue(s[2]) + DigitValue(s[3]),
         10 * DigitValue(s[5]) + DigitValue(s[6]),
         10 * DigitValue(s[8]) + DigitValue(s[9]))
  }

  /**
   * `datetime.strptime(s, "%Y-%m-%d")` for zero-padded input: the date, or None where
   * the source's call raises and the item is skipped.
   */
  function ParseDate(s: string): (r: Option<Date>)
    ensures r.Some? ==> IsValidDate(r.value)
  {
    if !HasDateShape(s) then None
    else
      var d := DateOfDigits(s);
      if IsValidDate(d) then Some(d) else None
  }

  /** The `YYYY-MM-DD` text of a date. */
  function FormatDate(d: Date): string
    requires IsValidDate(d)
  {
    PadNumber(d.year, 4) + "-" + PadNumber(d.month, 2) + "-" + PadNumber(d.day, 2)
  }

  /** The `YYYY-MM` month bucket of a date (`to_period("M")` rendered as text). */
  function MonthBucket(d: Date): string
    requires IsValidDate(d)
  {
    PadNumber(d.year, 4) + "-" + PadNumber(d.month, 2)
  }

  /** A two-digit field read positionally. */
  lemma TwoDigits(f: string)
    requires |f| == 2 && AllDigits(f)
    ensures NumberValue(f) == 10 * DigitValue(f[0]) + DigitValue(f[1])
  {
    assert f[..1][..0] == [] && f[..1][0] == f[0];
    assert NumberValue(f[..1]) == DigitValue(f[0]);
  }

  /** A four-digit field read positionally. */
  lemma FourDigits(f: string)
    requires |f| == 4 && AllDigits(f)
    ensures NumberValue(f) == 1000 * DigitValue(f[0]) + 100 * DigitValue(f[1])
                              + 10 * DigitValue(f[2]) + DigitValue(f[3])
  {
    assert f[..3][..2] == f[..2];
    TwoDigits(f[..2]);
  }

  /** The digit groups of a date-shaped string denote the year, month and day it is read as. */
  lemma DateFields(s: string)
    requires HasDateShape(s)
    ensures AllDigits(s[..4]) && AllDigits(s[5..7]) && AllDigits(s[8..])
    ensures DateOfDigits(s) == Date(NumberValue(s[..4]), NumberValue(s[5..7]), NumberValue(s[8..]))
  {
    assert forall i :: 0 <= i < 4 ==> s[..4][i] == s[i];
    assert forall i :: 0 <= i < 2 ==> s[5..7][i] == s[5 + i] && s[8..][i] == s[8 + i];
    FourDigits(s[..4]);
    TwoDigits(s[5..7]);
    TwoDigits(s[8..]);
  }

  /** The three digit groups of a joined `YYYY-MM-DD` string are where the parser reads them. */
  lemma DateTextParts(y: string, m: string, d: string)
    requires |y| == 4 && |m| == 2 && |d| == 2
    requires AllDigits(y) && AllDigits(m) && AllDigits(d)
    ensures var s := y + "-" + m + "-" + d;
      HasDateShape(s) && s[..4] == y && s[5..7] == m && s[8..] == d
  {
    var s := y + "-" + m + "-" + d;
    assert s[..4] == y && s[5..7] == m && s[8..] == d;
    assert s[0] == y[0] && s[1] == y[1] && s[2] == y[2] && s[3] == y[3];
    assert s[5] == m[0] && s[6] == m[1] && s[8] == d[0] && s[9] == d[1];
  }

  /** Every valid date is accepted in its formatted form, and read back unchanged. */
  lemma ParseFormatted(d: Date)
    requires IsValidDate(d)
    ensures ParseDate(FormatDate(d)) == Some(d)
  {
    DateTextParts(PadNumber(d.year, 4), PadNumber(d.month, 2), PadNumber(d.day, 2));
    DateFields(FormatDate(d));
    NumberValueOfPad(d.year, 4);
    NumberValueOfPad(d.month, 2);
    NumberValueOfPad(d.day, 2);
  }

  /** Every accepted string is exactly the formatted form of the date it denotes. */
  lemma FormattedParse(s: string)
    requires ParseDate(s).Some?
    ensures FormatDate(ParseDate(s).value) == s
    ensures MonthBucket(ParseDate(s).value) == s[..7]
  {
    var d := ParseDate(s).value;
    DateFields(s);
    assert d == Date(NumberValue(s[..4]), NumberValue(s[5..7]), NumberValue(s[8..]));
    assert PadNumber(d.year, 4) == s[..4] by {
      PadOfNumberValue(s[..4]);
    }
    assert PadNumber(d.month, 2) == s[5..7] by {
      PadOfNumberValue(s[5..7]);
    }
    assert PadNumber(d.day, 2) == s[8..] by {
      PadOfNumberValue(s[8..]);
    }
    assert s == s[..4] + "-" + s[5..7] + "-" + s[8..];
    assert s[..7] == s[..4] + "-" + s[5..7];
  }

  /** February 29 is accepted in leap years, centuries divisible by 400 included. */
  lemma LeapDaysAccepted()
    ensures ParseDate("2024-02-29") == Some(Date(2024, 2, 29))
    ensures ParseDate("2000-02-29") == Some(Date(2000, 2, 29))
  {
  }

  /** February 29 is refused in common years, other centuries included. */
  lemma LeapDaysRefused()
    ensures ParseDate("1900-02-29").None?
    ensures ParseDate("2023-02-29").None?
  {
  }

  /** Days past the end of their month, year 0 and unpadded fields are refused. */
  lemma ImpossibleDatesRefused()
    ensures ParseDate("2024-02-30").None?
    ensures ParseDate("2024-04-31").None?
    ensures ParseDate("0000-01-01").None?
    ensures ParseDate("2024-1-05").None?
  {
  }
}
