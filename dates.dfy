/**
 * Calendar dates and the two text forms the filter reads: the ISO form
 * `yyyy-MM-dd` at the head of a record's `createdAt` (`LocalDate.parse`, strict),
 * and the `dd-MM-yyyy` form of the query bounds (`DateTimeFormatter.ofPattern`,
 * whose default smart resolver clamps an over-long day to the month's last day).
 */
module Dates {
  import opened Wrappers

  datatype Date = Date(year: int, month: int, day: int)

  predicate IsLeapYear(y: int) {
    y % 4 == 0 && (y % 100 != 0 || y % 400 == 0)
  }

  function DaysInMonth(y: int, m: int): (n: int)
    requires 1 <= m <= 12
    ensures 28 <= n <= 31
  {
    if m == 2 then (if IsLeapYear(y) then 29 else 28)
    else if m == 4 || m == 6 || m == 9 || m == 11 then 30
    else 31
  }

  /** A day that exists in the proleptic Gregorian calendar. */
  predicate IsValid(d: Date) {
    1 <= d.month <= 12 && 1 <= d.day <= DaysInMonth(d.year, d.month)
  }

  /** `a.isBefore(b)`: chronological order, year first, then month, then day. */
  predicate IsBefore(a: Date, b: Date) {
    a.year < b.year
    || (a.year == b.year && a.month < b.month)
    || (a.year == b.year && a.month == b.month && a.day < b.day)
  }

  // ---- decimal digits ----

  predicate IsDigit(c: char) {
    '0' <= c <= '9'
  }

  predicate AllDigits(s: string) {
    forall i | 0 <= i < |s| :: IsDigit(s[i])
  }

  /** The number a string of decimal digits spells, most significant digit first. */
  function DigitsValue(s: string): nat
    requires AllDigits(s)
  {
    if s == [] then 0 else DigitsValue(s[..|s| - 1]) * 10 + DigitValue(s[|s| - 1])
  }

  function Pow10(n: nat): (p: nat)
    ensures p >= 1
  {
    if n == 0 then 1 else 10 * Pow10(n - 1)
  }

  /** The last `width` decimal digits of `n`, with leading zeros. */
  function Digits(n: nat, width: nat): (s: string)
    ensures |s| == width && AllDigits(s)
  {
    if width == 0 then [] else Digits(n / 10, width - 1) + [('0' as int + n % 10) as char]
  }

  /** Reading back `width` printed digits gives the number, when it fits in them. */
  lemma {:induction false} DigitsValueOfDigits(n: nat, width: nat)
    requires n < Pow10(width)
    ensures DigitsValue(Digits(n, width)) == n
  {
    if width > 0 {
      var s := Digits(n, width);
      assert s[..|s| - 1] == Digits(n / 10, width - 1);
      assert DigitValue(s[|s| - 1]) == n % 10;
      assert n / 10 < Pow10(width - 1);
      DigitsValueOfDigits(n / 10, width - 1);
      assert n == n / 10 * 10 + n % 10;
    }
  }

  function DigitValue(c: char): int {
    c as int - '0' as int
  }

  /** Printing the value of a digit string at its own width gives the string back. */
  lemma {:induction false} DigitsOfDigitsValue(s: string)
    requires AllDigits(s)
    ensures Digits(DigitsValue(s), |s|) == s
  {
    if s != [] {
      var init := s[..|s| - 1];
      DigitsOfDigitsValue(init);
      var v := DigitsValue(init);
      var d := DigitValue(s[|s| - 1]);
      assert (v * 10 + d) / 10 == v && (v * 10 + d) % 10 == d;
      assert s == init + [s[|s| - 1]];
    }
  }

  lemma DigitsValueBound(s: string)
    requires AllDigits(s)
    ensures DigitsValue(s) < Pow10(|s|)
  {
  }

  // ---- ISO form: yyyy-MM-dd ----

  /** `LocalDate.parse` on ten characters: four year digits, a dash, two month digits,
      a dash, two day digits, and a day that exists; anything else is a parse failure. */
  function ParseIsoDate(s: string): (r: Option<Date>)
    ensures r.Some? ==> IsValid(r.value) && 0 <= r.value.year <= 9999
  {
    if |s| == 10 && s[4] == '-' && s[7] == '-'
      && AllDigits(s[..4]) && AllDigits(s[5..7]) && AllDigits(s[8..])
    then
      DigitsValueBound(s[..4]);
      var d := Date(DigitsValue(s[..4]), DigitsValue(s[5..7]), DigitsValue(s[8..]));
      if IsValid(d) then Some(d) else None
    else None
  }

  function FormatIsoDate(d: Date): string
    requires 0 <= d.year <= 9999 && 1 <= d.month <= 12 && 1 <= d.day <= 31
  {
    Digits(d.year, 4) + "-" + Digits(d.month, 2) + "-" + Digits(d.day, 2)
  }

  /** Every valid date with a four-digit year is read back from its ISO text. */
  lemma ParseFormatIsoDate(d: Date)
    requires IsValid(d) && 0 <= d.year <= 9999
    ensures ParseIsoDate(FormatIsoDate(d)) == Some(d)
  {
    FormatIsoDateParts(d);
    DigitsValueOfDigits(d.year, 4);
    DigitsValueOfDigits(d.month, 2);
    DigitsValueOfDigits(d.day, 2);
  }

  lemma FormatIsoDateParts(d: Date)
    requires 0 <= d.year <= 9999 && 1 <= d.month <= 12 && 1 <= d.day <= 31
    ensures var s := FormatIsoDate(d);
      |s| == 10 && s[4] == '-' && s[7] == '-'
      && s[..4] == Digits(d.year, 4) && s[5..7] == Digits(d.month, 2) && s[8..] == Digits(d.day, 2)
  {
  }

  /** Whatever the ISO parser accepts is exactly the text of the date it returns. */
  lemma FormatParseIsoDate(s: string)
    requires ParseIsoDate(s).Some?
    ensures FormatIsoDate(ParseIsoDate(s).value) == s
  {
    DigitsOfDigitsValue(s[..4]);
    DigitsOfDigitsValue(s[5..7]);
    DigitsOfDigitsValue(s[8..]);
    assert s == s[..4] + "-" + s[5..7] + "-" + s[8..];
  }

  // ---- query form: dd-MM-yyyy ----

  /** `LocalDate.parse(s, ofPattern("dd-MM-yyyy"))`: two day digits, a dash, two month
      digits, a dash, four year digits; the day must lie in 1..31, the month in 1..12
      and the year of the era must be at least 1; a day past the end of its month is
      moved back to the month's last day. */
  function ParseDayMonthYear(s: string): (r: Option<Date>)
    ensures r.Some? ==> IsValid(r.value) && 1 <= r.value.year <= 9999
  {
    if |s| == 10 && s[2] == '-' && s[5] == '-'
      && AllDigits(s[..2]) && AllDigits(s[3..5]) && AllDigits(s[6..])
    then
      DigitsValueBound(s[6..]);
      var day, month, year := DigitsValue(s[..2]), DigitsValue(s[3..5]), DigitsValue(s[6..]);
      if 1 <= day <= 31 && 1 <= month <= 12 && year >= 1 then
        var last := DaysInMonth(year, month);
        Some(Date(year, month, if day <= last then day else last))
      else None
    else None
  }

  function FormatDayMonthYear(d: Date): string
    requires 0 <= d.year <= 9999 && 1 <= d.month <= 12 && 1 <= d.day <= 31
  {
    Digits(d.day, 2) + "-" + Digits(d.month, 2) + "-" + Digits(d.year, 4)
  }

  /** What the `dd-MM-yyyy` parse makes of any printed day, month and year: a year of
      the era gives the date, with the day clamped to the month's length. */
  lemma ParseOfFormatDayMonthYear(d: Date)
    requires 0 <= d.year <= 9999 && 1 <= d.month <= 12 && 1 <= d.day <= 31
    ensures d.year == 0 ==> ParseDayMonthYear(FormatDayMonthYear(d)).None?
    ensures d.year >= 1 ==>
      (ParseDayMonthYear(FormatDayMonthYear(d))
       == Some(Date(d.year, d.month, if d.day <= DaysInMonth(d.year, d.month) then d.day else DaysInMonth(d.year, d.month))))
  {
    var s := FormatDayMonthYear(d);
    FormatDayMonthYearParts(d);
    DigitsValueOfDigits(d.year, 4);
    DigitsValueOfDigits(d.month, 2);
    DigitsValueOfDigits(d.day, 2);
    assert DigitsValue(s[..2]) == d.day && DigitsValue(s[3..5]) == d.month && DigitsValue(s[6..]) == d.year;
  }

  lemma FormatDayMonthYearParts(d: Date)
    requires 0 <= d.year <= 9999 && 1 <= d.month <= 12 && 1 <= d.day <= 31
    ensures var s := FormatDayMonthYear(d);
      |s| == 10 && s[2] == '-' && s[5] == '-'
      && s[..2] == Digits(d.day, 2) && s[3..5] == Digits(d.month, 2) && s[6..] == Digits(d.year, 4)
  {
  }

  /** Whatever the `dd-MM-yyyy` parse accepts is the text of a day 1..31, a month
      1..12 and a year of the era, and the date returned is that one with its day
      clamped to the month's length; so "32-01-2024" and "15-13-2024" are rejected. */
  lemma FormatParseDayMonthYear(s: string)
    requires ParseDayMonthYear(s).Some?
    ensures exists e: Date :: PrintedAs(e, s) && ParseDayMonthYear(s).value == ClampDay(e)
  {
    DigitsValueBound(s[6..]);
    var e := Date(DigitsValue(s[6..]), DigitsValue(s[3..5]), DigitsValue(s[..2]));
    assert ParseDayMonthYear(s) == Some(ClampDay(e));
    FormatOfDayMonthYearFields(s, e);
  }

  lemma FormatOfDayMonthYearFields(s: string, e: Date)
    requires |s| == 10 && s[2] == '-' && s[5] == '-'
    requires AllDigits(s[..2]) && AllDigits(s[3..5]) && AllDigits(s[6..])
    requires e == Date(DigitsValue(s[6..]), DigitsValue(s[3..5]), DigitsValue(s[..2]))
    requires 1 <= e.year <= 9999 && 1 <= e.month <= 12 && 1 <= e.day <= 31
    ensures PrintedAs(e, s)
  {
    FormatOfDigitFields(s[..2], s[3..5], s[6..]);
    assert s == s[..2] + "-" + s[3..5] + "-" + s[6..];
  }

  /** Printing the values of three digit fields gives the fields back. */
  lemma FormatOfDigitFields(dd: string, mm: string, yyyy: string)
    requires |dd| == 2 && |mm| == 2 && |yyyy| == 4
    requires AllDigits(dd) && AllDigits(mm) && AllDigits(yyyy)
    requires 1 <= DigitsValue(dd) <= 31 && 1 <= DigitsValue(mm) <= 12 && DigitsValue(yyyy) <= 9999
    ensures FormatDayMonthYear(Date(DigitsValue(yyyy), DigitsValue(mm), DigitsValue(dd))) == dd + "-" + mm + "-" + yyyy
  {
    DigitsOfDigitsValue(dd);
    DigitsOfDigitsValue(mm);
    DigitsOfDigitsValue(yyyy);
  }

  /** `s` is the `dd-MM-yyyy` text of a day 1..31, a month 1..12 and a year of the era. */
  predicate PrintedAs(e: Date, s: string) {
    1 <= e.year <= 9999 && 1 <= e.month <= 12 && 1 <= e.day <= 31 && FormatDayMonthYear(e) == s
  }

  /** The day moved back to the month's last day when the month is shorter. */
  function ClampDay(e: Date): Date
    requires 1 <= e.month <= 12
  {
    e.(day := if e.day <= DaysInMonth(e.year, e.month) then e.day else DaysInMonth(e.year, e.month))
  }

  /** Every valid date of the era is read back from its `dd-MM-yyyy` text. */
  lemma ParseFormatDayMonthYear(d: Date)
    requires IsValid(d) && 1 <= d.year <= 9999
    ensures ParseDayMonthYear(FormatDayMonthYear(d)) == Some(d)
  {
    ParseOfFormatDayMonthYear(d);
  }

  /** A day that does not exist in its month is clamped, not rejected: "31-04-2024"
      is read as 30 April 2024 and "29-02-2023" as 28 February 2023. */
  lemma ParseDayMonthYearClamps(d: Date)
    requires 1 <= d.month <= 12 && 1 <= d.year <= 9999
    requires DaysInMonth(d.year, d.month) < d.day <= 31
    ensures ParseDayMonthYear(FormatDayMonthYear(d)) == Some(d.(day := DaysInMonth(d.year, d.month)))
  {
    ParseOfFormatDayMonthYear(d);
  }
}
