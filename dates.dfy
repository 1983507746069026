/**
 * Calendar dates as Python's `datetime` holds them, the `tm_yday` field of
 * `timetuple()`, and the two `strftime` formats the pages use
 * (`%Y-%m-%d` and `%b %d`).
 */
module Dates {
  import Numerals

  datatype CalDate = CalDate(year: int, month: int, day: int)

  predicate IsLeap(y: int)
  {
    y % 4 == 0 && (y % 100 != 0 || y % 400 == 0)
  }

  function DaysInMonth(y: int, m: int): int
    requires 1 <= m <= 12
  {
    if m == 2 then (if IsLeap(y) then 29 else 28)
    else if m == 4 || m == 6 || m == 9 || m == 11 then 30
    else 31
  }

  /** The dates `datetime.date` accepts: years 1 to 9999. */
  predicate ValidDate(d: CalDate)
  {
    1 <= d.year <= 9999 && 1 <= d.month <= 12 && 1 <= d.day <= DaysInMonth(d.year, d.month)
  }

  type Date = d: CalDate | ValidDate(d) witness CalDate(2025, 1, 1)

  /** A timestamp as `datetime.fromisoformat` returns it (time zone left out). */
  datatype DateTime = DateTime(date: Date, hour: int, minute: int, second: int, microsecond: int)

  /** Days of the year before the first of month `m`. */
  function DaysBefore(y: int, m: int): int
    requires 1 <= m <= 12
  {
    var common := [0, 31, 59, 90, 120, 151, 181, 212, 243, 273, 304, 334][m - 1];
    if m > 2 && IsLeap(y) then common + 1 else common
  }

  /** `d.timetuple().tm_yday`: 1 on January 1st, 365 or 366 on December 31st. */
  function DayOfYear(d: Date): (r: int)
    ensures 1 <= r <= (if IsLeap(d.year) then 366 else 365)
    ensures d.month == 1 ==> r == d.day
    ensures d.month == 12 && d.day == 31 ==> r == (if IsLeap(d.year) then 366 else 365)
  {
    DaysBefore(d.year, d.month) + d.day
  }

  /** Later dates of the same year have larger day numbers. */
  lemma DayOfYearIncreasing(a: Date, b: Date)
    requires a.year == b.year
    requires a.month < b.month || (a.month == b.month && a.day < b.day)
    ensures DayOfYear(a) < DayOfYear(b)
  {
    if a.month < b.month {
      assert DaysBefore(a.year, a.month) + DaysInMonth(a.year, a.month) <= DaysBefore(b.year, b.month);
    }
  }

  /** Zero-padded two-digit numeral. */
  function Pad2(n: int): (s: string)
    requires 0 <= n <= 99
    ensures |s| == 2 && Numerals.AllDigits(s)
  {
    [Numerals.DigitChar(n / 10), Numerals.DigitChar(n % 10)]
  }

  /** Zero-padded four-digit numeral. */
  function Pad4(n: int): (s: string)
    requires 0 <= n <= 9999
    ensures |s| == 4 && Numerals.AllDigits(s)
  {
    Pad2(n / 100) + Pad2(n % 100)
  }

  /** `d.strftime('%Y-%m-%d')`. */
  function FormatIso(d: Date): (s: string)
    ensures |s| == 10
    ensures forall k :: 0 <= k < |s| ==> s[k] == '-' || Numerals.IsDigit(s[k])
  {
    Pad4(d.year) + "-" + Pad2(d.month) + "-" + Pad2(d.day)
  }

  const MonthAbbrevs: seq<string> :=
    ["Jan", "Feb", "Mar", "Apr", "May", "Jun", "Jul", "Aug", "Sep", "Oct", "Nov", "Dec"]

  /** `d.strftime('%b %d')` in the C locale. */
  function FormatMonthDay(d: Date): (s: string)
    ensures |s| == 6
  {
    MonthAbbrevs[d.month - 1] + " " + Pad2(d.day)
  }

  /** Reads back `YYYY-MM-DD`; the inverse of FormatIso. */
  function ParseIso(s: string): CalDate
    requires |s| == 10
    requires Numerals.AllDigits(s[..4]) && Numerals.AllDigits(s[5..7]) && Numerals.AllDigits(s[8..])
  {
    CalDate(Numerals.DigitsValue(s[..4]), Numerals.DigitsValue(s[5..7]), Numerals.DigitsValue(s[8..]))
  }

  lemma Pad2Value(n: int)
    requires 0 <= n <= 99
    ensures Numerals.DigitsValue(Pad2(n)) == n
  {
    var s := Pad2(n);
    assert Numerals.DigitValue(s[0]) == n / 10 && Numerals.DigitValue(s[1]) == n % 10;
    assert s[..1][..0] == [];
    assert s[..1] == [s[0]];
    assert Numerals.DigitsValue(s[..1]) == n / 10;
  }

  lemma Pad4Value(n: int)
    requires 0 <= n <= 9999
    ensures Numerals.DigitsValue(Pad4(n)) == n
  {
    var hi, lo := Pad2(n / 100), Pad2(n % 100);
    var s := hi + lo;
    Pad2Value(n / 100);
    Pad2Value(n % 100);
    assert s[..3] == hi + [lo[0]];
    assert s[..2] == hi;
    assert (hi + [lo[0]])[..2] == hi;
    assert Numerals.DigitsValue(s[..3]) == Numerals.DigitsValue(hi) * 10 + Numerals.DigitValue(lo[0]);
    assert lo[..1] == [lo[0]] && lo[..1][..0] == [];
    assert Numerals.DigitsValue(lo) == Numerals.DigitValue(lo[0]) * 10 + Numerals.DigitValue(lo[1]);
  }

  /** Formatting a date and reading it back gives the same date. */
  lemma {:induction false} IsoRoundTrip(d: Date)
    ensures var s := FormatIso(d);
      Numerals.AllDigits(s[..4]) && Numerals.AllDigits(s[5..7]) && Numerals.AllDigits(s[8..]) &&
      ParseIso(s) == d
  {
    var s := FormatIso(d);
    assert s[..4] == Pad4(d.year) && s[5..7] == Pad2(d.month) && s[8..] == Pad2(d.day);
    Pad4Value(d.year);
    Pad2Value(d.month);
    Pad2Value(d.day);
  }
}
