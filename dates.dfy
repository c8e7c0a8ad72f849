/**
 * Calendar dates as the application sees them: a (year, month, day) triple of the proleptic Gregorian
 * calendar, where `month` runs 1..12 (JavaScript's `getMonth()` is `month - 1`), and the
 * `YYYY-MM-DD` text the absence table stores.
 */
module Dates {
  import opened Wrappers
  import opened Text

  datatype Date = Date(year: int, month: int, day: int)

  predicate IsLeapYear(y: int)
  {
    y % 4 == 0 && (y % 100 != 0 || y % 400 == 0)
  }

  /** The length of month `m`: 29 days for February of a leap year, 28 otherwise; 30 for April, June, September, November. */
  function DaysInMonth(y: int, m: int): (n: int)
    requires 1 <= m <= 12
    ensures 28 <= n <= 31
    ensures m == 2 ==> (n == 29 <==> IsLeapYear(y)) && (n == 28 <==> !IsLeapYear(y))
    ensures (m == 4 || m == 6 || m == 9 || m == 11) ==> n == 30
    ensures m != 2 && m != 4 && m != 6 && m != 9 && m != 11 ==> n == 31
  {
    if m == 2 then (if IsLeapYear(y) then 29 else 28)
    else if m == 4 || m == 6 || m == 9 || m == 11 then 30
    else 31
  }

  /** A day that exists in the calendar. */
  predicate ValidDate(d: Date)
  {
    1 <= d.month <= 12 && 1 <= d.day <= DaysInMonth(d.year, d.month)
  }

  /** A date that exists, as every `date` column and JavaScript `Date` holds. */
  type Day = d: Date | ValidDate(d) witness Date(1970, 1, 1)

  /** Chronological order of days. */
  predicate DateLe(a: Date, b: Date)
  {
    a.year < b.year || (a.year == b.year && (a.month < b.month || (a.month == b.month && a.day <= b.day)))
  }

  /** An integer that orders valid dates chronologically (`Date.getTime()` up to scale). */
  function DateKey(d: Date): int
  {
    d.year * 10000 + d.month * 100 + d.day
  }

  lemma DateKeyOrder(a: Date, b: Date)
    requires ValidDate(a) && ValidDate(b)
    ensures DateLe(a, b) <==> DateKey(a) <= DateKey(b)
  {
  }

  /**
   * The year `new Date(y, m, d)` and `new Date(y, m, 1)` build from the year argument `y`:
   * JavaScript reads 0..99 as 1900..1999.
   */
  function JsYear(y: int): int
  {
    if 0 <= y <= 99 then 1900 + y else y
  }

  /**
   * Years every day of which a JavaScript `Date` can hold in any time zone: a time value lies within
   * 8.64e15 ms (10^8 days) of 1 January 1970, that is from 20 April -271821 to 13 September 275760.
   */
  predicate InDateRange(y: int)
  {
    -271820 <= y <= 275759
  }

  /** The day after `d`: the next day of the month, else the first of the next month, else 1 January. */
  function NextDay(d: Date): (r: Date)
    requires ValidDate(d)
    ensures ValidDate(r)
    ensures DateLe(d, r) && r != d
    ensures forall e :: ValidDate(e) && DateLe(d, e) && e != d ==> DateLe(r, e)
  {
    if d.day < DaysInMonth(d.year, d.month) then Date(d.year, d.month, d.day + 1)
    else if d.month < 12 then Date(d.year, d.month + 1, 1)
    else Date(d.year + 1, 1, 1)
  }

  /** `formatDateToString`: year, `-`, month padded to two digits, `-`, day padded to two digits. */
  function FormatDate(d: Date): string
    requires ValidDate(d)
  {
    IntToString(d.year) + "-" + PadStart2(NatToString(d.month)) + "-" + PadStart2(NatToString(d.day))
  }

  /** Reads `YYYY-MM-DD` back into a date; `None` for any other shape. */
  function ParseDate(s: string): Option<Date>
  {
    if |s| == 10 && s[4] == '-' && s[7] == '-'
       && (forall i :: 0 <= i < 10 && i != 4 && i != 7 ==> IsDigit(s[i]))
    then
      assert forall i :: 0 <= i < 4 ==> s[..4][i] == s[i];
      assert forall i :: 0 <= i < 2 ==> s[5..7][i] == s[5 + i] && s[8..][i] == s[8 + i];
      Some(Date(DigitsValue(s[..4]), DigitsValue(s[5..7]), DigitsValue(s[8..])))
    else None
  }

  /** A number below 100 padded to two digits, and its value read back. */
  lemma TwoDigits(n: nat)
    requires n < 100
    ensures |PadStart2(NatToString(n))| == 2
    ensures forall i :: 0 <= i < 2 ==> IsDigit(PadStart2(NatToString(n))[i])
    ensures DigitsValue(PadStart2(NatToString(n))) == n
  {
    NatToStringLength(n);
    DigitsValueOfNatToString(n);
    if n < 10 {
      var p := PadStart2(NatToString(n));
      assert p == "0" + [DigitChar(n)];
      assert p[..1] == "0";
      assert DigitsValue(p[..1]) == 10 * DigitsValue(p[..1][..0]) + 0;
    }
  }

  /** For four-digit years the formatted date has ten characters and parses back to the same date. */
  lemma FormatDateRoundTrip(d: Date)
    requires ValidDate(d) && 1000 <= d.year <= 9999
    ensures |FormatDate(d)| == 10
    ensures ParseDate(FormatDate(d)) == Some(d)
  {
    var y := NatToString(d.year);
    var m := PadStart2(NatToString(d.month));
    var dd := PadStart2(NatToString(d.day));
    NatToStringLength(d.year);
    DigitsValueOfNatToString(d.year);
    TwoDigits(d.month);
    TwoDigits(d.day);
    var s := FormatDate(d);
    assert s == y + "-" + m + "-" + dd;
    assert s[..4] == y;
    assert s[5..7] == m;
    assert s[8..] == dd;
  }

  /** Two valid dates with four-digit years format to the same text only if they are the same day. */
  lemma FormatDateInjective(a: Date, b: Date)
    requires ValidDate(a) && 1000 <= a.year <= 9999
    requires ValidDate(b) && 1000 <= b.year <= 9999
    ensures FormatDate(a) == FormatDate(b) <==> a == b
  {
    FormatDateRoundTrip(a);
    FormatDateRoundTrip(b);
  }

  /** The first seven characters of a formatted date with a four-digit year: the year, `-`, the padded month. */
  lemma FormatDateMonth(d: Date)
    requires ValidDate(d) && 1000 <= d.year <= 9999
    ensures |NatToString(d.year)| == 4 && |PadStart2(NatToString(d.month))| == 2
    ensures FormatDate(d)[..7] == NatToString(d.year) + "-" + PadStart2(NatToString(d.month))
  {
    NatToStringLength(d.year);
    TwoDigits(d.month);
    var ym := NatToString(d.year) + "-" + PadStart2(NatToString(d.month));
    assert FormatDate(d) == ym + ("-" + PadStart2(NatToString(d.day)));
  }

  /** The `YYYY-MM` prefix of a formatted date (`date.substring(0, 7)`) names exactly its year and month. */
  lemma MonthPrefix(a: Date, b: Date)
    requires ValidDate(a) && 1000 <= a.year <= 9999
    requires ValidDate(b) && 1000 <= b.year <= 9999
    ensures FormatDate(a)[..7] == FormatDate(b)[..7] <==> a.year == b.year && a.month == b.month
  {
    FormatDateMonth(a);
    FormatDateMonth(b);
    var ya, ma := NatToString(a.year), PadStart2(NatToString(a.month));
    var yb, mb := NatToString(b.year), PadStart2(NatToString(b.month));
    if ya + "-" + ma == yb + "-" + mb {
      assert ya == (ya + "-" + ma)[..4];
      assert yb == (yb + "-" + mb)[..4];
      assert ma == (ya + "-" + ma)[5..];
      assert mb == (yb + "-" + mb)[5..];
      DigitsValueOfNatToString(a.year);
      DigitsValueOfNatToString(b.year);
      TwoDigits(a.month);
      TwoDigits(b.month);
    }
  }

  /**
   * The days of month `m` of year `y`: each one exists and lies in the month, the first is the 1st,
   * each next one is the day after the previous, and the day after the last lies in another month.
   */
  function MonthDays(y: int, m: int): (days: seq<Date>)
    requires 1 <= m <= 12
    ensures |days| == DaysInMonth(y, m)
    ensures forall i :: 0 <= i < |days| ==> ValidDate(days[i]) && days[i].year == y && days[i].month == m
    ensures days[0] == Date(y, m, 1)
    ensures forall i :: 0 <= i < |days| - 1 ==> days[i + 1] == NextDay(days[i])
    ensures NextDay(days[|days| - 1]).month != m
    ensures forall i :: 0 <= i < |days| ==> days[i].day == i + 1
  {
    seq(DaysInMonth(y, m), i => Date(y, m, i + 1))
  }
}
