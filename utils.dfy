/** The shared helpers of `lib/utils.ts`: work-hour difference, the days of a month and the absence colours. */
module Utils {
  import opened Dates

  /** Minutes since midnight of a `HH:MM` time. */
  type Minutes = m: nat | m < 24 * 60

  /**
   * `calculateWorkHours`: the hours from `start` to `end`, clamped at zero
   * (`Math.max(0, endTotal - startTotal)`).
   */
  function CalculateWorkHours(start: Minutes, end: Minutes): (hours: real)
    ensures hours >= 0.0
    ensures end >= start ==> hours * 60.0 == (end - start) as real
    ensures end <= start ==> hours == 0.0
  {
    if end >= start then (end - start) as real / 60.0 else 0.0
  }

  /**
   * `getMonthDays(year, month)` with JavaScript's zero-based `month`. `new Date(year, month, 1)` reads
   * a year from 0 to 99 as 1900 + year (`JsYear`). A month index outside 0..11 rolls the date into
   * another month, and a year outside `InDateRange` gives an invalid date whose `getMonth()` is `NaN`:
   * either way the loop stops at once and the result is empty.
   */
  method GetMonthDays(year: int, month: int) returns (days: seq<Date>)
    ensures 0 <= month < 12 && InDateRange(JsYear(year)) ==> days == MonthDays(JsYear(year), month + 1)
    ensures !(0 <= month < 12 && InDateRange(JsYear(year))) ==> days == []
  {
    days := [];
    var y := JsYear(year);
    if !(0 <= month < 12 && InDateRange(y)) {
      return;
    }
    var date := Date(y, month + 1, 1);
    while date.month == month + 1
      invariant ValidDate(date)
      invariant date.month == month + 1 ==> date.year == y && |days| == date.day - 1
      invariant date.month != month + 1 ==> |days| == DaysInMonth(y, month + 1)
      invariant forall i :: 0 <= i < |days| ==> days[i] == Date(y, month + 1, i + 1)
      decreases if date.month == month + 1 then 32 - date.day else 0
    {
      days := days + [date];
      date := NextDay(date);
    }
  }

  /** `getAbsenceColor`: the badge colour of the five built-in absence codes, blue for anything else. */
  function AbsenceColor(typeId: string): (color: string)
    ensures typeId !in {"V", "S", "B", "D", "C"} <==> color == "bg-blue-500"
  {
    match typeId
    case "V" => "bg-green-500"
    case "S" => "bg-purple-500"
    case "B" => "bg-red-500"
    case "D" => "bg-gray-500"
    case "C" => "bg-yellow-500"
    case _ => "bg-blue-500"
  }
}
