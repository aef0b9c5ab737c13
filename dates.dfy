/**
 * A calendar value standing for .NET `System.DateTime`, and its short-date
 * text in the invariant culture (format specifier "d", pattern MM/dd/yyyy).
 */
module Dates {

  function IsLeapYear(year: int): bool {
    year % 4 == 0 && (year % 100 != 0 || year % 400 == 0)
  }

  function DaysInMonth(year: int, month: int): int {
    if month == 2 then (if IsLeapYear(year) then 29 else 28)
    else if month == 4 || month == 6 || month == 9 || month == 11 then 30
    else 31
  }

  /** Number of 100-nanosecond ticks in one day. */
  const TicksPerDay: int := 864_000_000_000

  datatype Moment = Moment(year: int, month: int, day: int, ticksOfDay: int) {
    /** The range `DateTime` can represent: 0001-01-01 up to the last tick of 9999-12-31. */
    predicate InRange() {
      && 1 <= year <= 9999
      && 1 <= month <= 12
      && 1 <= day <= DaysInMonth(year, month)
      && 0 <= ticksOfDay < TicksPerDay
    }
  }

  type DateTime = m: Moment | m.InRange() witness Moment(1, 1, 1, 0)

  /** `default(DateTime)`: midnight of 0001-01-01. */
  const MinValue: DateTime := Moment(1, 1, 1, 0)

  function DigitChar(d: int): char
    requires 0 <= d <= 9
  {
    (48 + d) as char
  }

  function DigitValue(c: char): int {
    c as int - 48
  }

  /** `n` written with exactly `width` decimal digits, leading zeros kept. */
  function Padded(n: nat, width: nat): (s: string)
    ensures |s| == width
    ensures forall i :: 0 <= i < width ==> '0' <= s[i] <= '9'
  {
    if width == 0 then "" else Padded(n / 10, width - 1) + [DigitChar(n % 10)]
  }

  function Power10(k: nat): (p: nat)
    ensures p >= 1
  {
    if k == 0 then 1 else 10 * Power10(k - 1)
  }

  /** The number a string of decimal digits denotes. */
  function DecimalValue(s: string): int {
    if s == [] then 0 else 10 * DecimalValue(s[..|s| - 1]) + DigitValue(s[|s| - 1])
  }

  /** Reading back a padded number gives the number, as long as it fits the width. */
  lemma {:induction false} PaddedRoundTrip(n: nat, width: nat)
    requires n < Power10(width)
    ensures DecimalValue(Padded(n, width)) == n
  {
    if width > 0 {
      var s := Padded(n, width);
      assert s[..|s| - 1] == Padded(n / 10, width - 1);
      PaddedRoundTrip(n / 10, width - 1);
    }
  }

  /** `DateTime.ToString("d", CultureInfo.InvariantCulture)`. */
  function ShortDate(d: DateTime): (s: string)
    ensures |s| == 10 && s[2] == '/' && s[5] == '/'
  {
    Padded(d.month, 2) + "/" + Padded(d.day, 2) + "/" + Padded(d.year, 4)
  }

  /** Recovers year, month and day from a short-date string. */
  function ParseShortDate(s: string): (ymd: (int, int, int))
    requires |s| == 10
  {
    (DecimalValue(s[6..10]), DecimalValue(s[0..2]), DecimalValue(s[3..5]))
  }

  /** The short date keeps the whole calendar date: reading it back gives year, month and day. */
  lemma ShortDateRoundTrip(d: DateTime)
    ensures ParseShortDate(ShortDate(d)) == (d.year, d.month, d.day)
  {
    var s := ShortDate(d);
    assert s[0..2] == Padded(d.month, 2);
    assert s[3..5] == Padded(d.day, 2);
    assert s[6..10] == Padded(d.year, 4);
    assert Power10(2) == 100 && Power10(4) == 10000;
    PaddedRoundTrip(d.month, 2);
    PaddedRoundTrip(d.day, 2);
    PaddedRoundTrip(d.year, 4);
  }

  /** Two dates print alike exactly when they fall on the same calendar day. */
  lemma ShortDateSameDay(d1: DateTime, d2: DateTime)
    ensures ShortDate(d1) == ShortDate(d2) <==>
            (d1.year, d1.month, d1.day) == (d2.year, d2.month, d2.day)
  {
    ShortDateRoundTrip(d1);
    ShortDateRoundTrip(d2);
  }
}
