/**
 * Calendar dates (`java.time.LocalDate`), their order, and the `dd-MM-yyyy`
 * rendering that the mapper applies to a book's published date.
 */
module Dates {
  import opened Wrappers
  import opened Decimal

  datatype Date = Date(year: int, month: int, day: int)

  /** The proleptic Gregorian leap-year rule used by `java.time`. */
  predicate IsLeapYear(y: int) {
    y % 4 == 0 && (y % 100 != 0 || y % 400 == 0)
  }

  function DaysInMonth(y: int, m: int): (n: int)
    requires 1 <= m <= 12
    ensures 28 <= n <= 31
  {
    if m == 2 then (if IsLeapYear(y) then 29 else 28)
    else if m == 4 || m == 6 || m == 9 || m == 11 then 30
    else 31
  }

  /** A real calendar date whose year `yyyy` renders as exactly four digits. */
  predicate InRange(d: Date) {
    1 <= d.year <= 9999 && 1 <= d.month <= 12 && 1 <= d.day <= DaysInMonth(d.year, d.month)
  }

  /** A `LocalDate` of years 1 to 9999. */
  type LocalDate = d: Date | InRange(d) witness Date(2000, 1, 1)

  /** `a.isAfter(b)`: the lexicographic order on (year, month, day). */
  predicate IsAfter(a: Date, b: Date) {
    a.year > b.year
    || (a.year == b.year && a.month > b.month)
    || (a.year == b.year && a.month == b.month && a.day > b.day)
  }

  lemma {:induction false} IsAfterIsStrictTotalOrder(a: Date, b: Date, c: Date)
    ensures !IsAfter(a, a)
    ensures IsAfter(a, b) ==> !IsAfter(b, a)
    ensures IsAfter(a, b) && IsAfter(b, c) ==> IsAfter(a, c)
    ensures a != b ==> IsAfter(a, b) || IsAfter(b, a)
  {
  }

  function TwoDigits(n: int): string
    requires 0 <= n <= 99
  {
    [Digit(n / 10), Digit(n % 10)]
  }

  function FourDigits(n: int): string
    requires 0 <= n <= 9999
  {
    [Digit(n / 1000), Digit(n / 100 % 10), Digit(n / 10 % 10), Digit(n % 10)]
  }

  /**
   * The date as `dd-MM-yyyy`: ten characters, dashes at indices 2 and 5,
   * and the text reads back as the same date.
   */
  function Format(d: LocalDate): (s: string)
    ensures |s| == 10 && s[2] == '-' && s[5] == '-'
    ensures forall i | 0 <= i < 10 && i != 2 && i != 5 :: IsDigit(s[i])
    ensures Parse(s) == Some(d)
  {
    var s := TwoDigits(d.day) + "-" + TwoDigits(d.month) + "-" + FourDigits(d.year);
    TwoDigitsValue(d.day);
    TwoDigitsValue(d.month);
    FourDigitsValue(d.year);
    assert s[0..2] == TwoDigits(d.day) && s[3..5] == TwoDigits(d.month) && s[6..10] == FourDigits(d.year);
    s
  }

  /** The number written by the two ASCII digits `s[i]`, `s[i + 1]`. */
  function Number2(s: string, i: nat): int
    requires i + 2 <= |s| && IsDigit(s[i]) && IsDigit(s[i + 1])
  {
    10 * DigitValue(s[i]) + DigitValue(s[i + 1])
  }

  /** The number written by the four ASCII digits starting at `s[i]`. */
  function Number4(s: string, i: nat): int
    requires i + 4 <= |s| && IsDigit(s[i]) && IsDigit(s[i + 1]) && IsDigit(s[i + 2]) && IsDigit(s[i + 3])
  {
    1000 * DigitValue(s[i]) + 100 * DigitValue(s[i + 1]) + 10 * DigitValue(s[i + 2]) + DigitValue(s[i + 3])
  }

  /** Strict parsing of `dd-MM-yyyy` text: `None` for any other shape or an impossible date. */
  function Parse(s: string): Option<LocalDate> {
    if |s| == 10 && s[2] == '-' && s[5] == '-'
       && IsDigit(s[0]) && IsDigit(s[1]) && IsDigit(s[3]) && IsDigit(s[4])
       && IsDigit(s[6]) && IsDigit(s[7]) && IsDigit(s[8]) && IsDigit(s[9])
    then
      var d := Date(Number4(s, 6), Number2(s, 3), Number2(s, 0));
      if InRange(d) then Some(d) else None
    else None
  }

  lemma TwoDigitsValue(n: int)
    requires 0 <= n <= 99
    ensures Number2(TwoDigits(n), 0) == n
  {
  }

  lemma FourDigitsValue(n: int)
    requires 0 <= n <= 9999
    ensures Number4(FourDigits(n), 0) == n
  {
    assert n / 100 == (n / 10) / 10;
    assert n / 1000 == (n / 100) / 10;
  }

  lemma TwoDigitsOfValue(s: string, i: nat)
    requires i + 2 <= |s| && IsDigit(s[i]) && IsDigit(s[i + 1])
    ensures TwoDigits(Number2(s, i)) == s[i..i + 2]
  {
    var a, b := DigitValue(s[i]), DigitValue(s[i + 1]);
    assert (10 * a + b) / 10 == a && (10 * a + b) % 10 == b;
  }

  lemma FourDigitsOfValue(s: string, i: nat)
    requires i + 4 <= |s| && IsDigit(s[i]) && IsDigit(s[i + 1]) && IsDigit(s[i + 2]) && IsDigit(s[i + 3])
    ensures FourDigits(Number4(s, i)) == s[i..i + 4]
  {
    var a, b, c, e := DigitValue(s[i]), DigitValue(s[i + 1]), DigitValue(s[i + 2]), DigitValue(s[i + 3]);
    var n := 1000 * a + 100 * b + 10 * c + e;
    assert n / 1000 == a;
    assert n / 100 == 10 * a + b;
    assert n / 100 % 10 == b;
    assert n / 10 == 100 * a + 10 * b + c;
    assert n / 10 % 10 == c;
    assert n % 10 == e;
  }

  /** Parsing is the inverse of `Format` in the other direction too: accepted text is the rendering. */
  lemma {:induction false} FormatParse(s: string)
    requires Parse(s).Some?
    ensures Format(Parse(s).value) == s
  {
    var d := Parse(s).value;
    TwoDigitsOfValue(s, 0);
    TwoDigitsOfValue(s, 3);
    FourDigitsOfValue(s, 6);
    assert s == s[0..2] + "-" + s[3..5] + "-" + s[6..10];
  }
}
