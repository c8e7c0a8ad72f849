/**
 * The month grid of `components/ui/calendar.tsx`: one column per day of the shown month, month
 * navigation, and the absence shown in each cell.
 */
module Calendar {
  import opened Wrappers
  import opened Seqs
  import opened Dates
  import opened Utils

  /** A record as the grid receives it; `date` is the stored `YYYY-MM-DD` text. */
  datatype CalendarRecord = CalendarRecord(employeeId: string, date: string, absenceTypeId: string)

  /**
   * `new Date(y, m + 1, 1)`: the first day of the following month, December rolling over to January.
   * The year argument goes through `JsYear`, so from a year 0..99 the result lies in 1900 + y.
   */
  function NextMonthStart(d: Day): (r: Day)
    ensures r.day == 1 && DateLe(d, r) && r != d
    ensures d.month < 12 ==> r.year == JsYear(d.year) && r.month == d.month + 1
    ensures d.month == 12 ==> r.year == JsYear(d.year) + 1 && r.month == 1
    ensures !(0 <= d.year <= 99) ==> (d.month < 12 ==> r.year == d.year) && (d.month == 12 ==> r.year == d.year + 1)
  {
    var y := JsYear(d.year);
    if d.month == 12 then Date(y + 1, 1, 1) else Date(y, d.month + 1, 1)
  }

  /**
   * `new Date(y, m - 1, 1)`: the first day of the previous month, January rolling back to December.
   * The year argument goes through `JsYear`, so from a year 0..99 the result lies in 1900 + y - 1
   * or 1900 + y, after `d`.
   */
  function PrevMonthStart(d: Day): (r: Day)
    ensures r.day == 1
    ensures d.month > 1 ==> r.year == JsYear(d.year) && r.month == d.month - 1
    ensures d.month == 1 ==> r.year == JsYear(d.year) - 1 && r.month == 12
    ensures !(0 <= d.year <= 99) ==> DateLe(r, d) && r != d
    ensures 0 <= d.year <= 99 ==> DateLe(d, r) && r != d
  {
    var y := JsYear(d.year);
    if d.month == 1 then Date(y - 1, 12, 1) else Date(y, d.month - 1, 1)
  }

  /**
   * Going forward and back, or back and forward, lands on the first day of the starting month,
   * unless a step passes a year 0..99 to `new Date`: from 1 January 100 going back reaches
   * December 99, and going forward from there reaches January 2000.
   */
  lemma MonthNavigationRoundTrip(d: Day)
    ensures d.year >= 100 || d.year <= -2 ==> PrevMonthStart(NextMonthStart(d)) == Date(d.year, d.month, 1)
    ensures d.year >= 101 || (d.year == 100 && d.month > 1) || d.year < 0 ==>
              NextMonthStart(PrevMonthStart(d)) == Date(d.year, d.month, 1)
    ensures NextMonthStart(PrevMonthStart(Date(100, 1, 1))) == Date(2000, 1, 1)
  {
  }

  /** The record lies on day `d` (`isSameDay(new Date(record.date), date)`). */
  predicate OnDay(r: CalendarRecord, d: Day)
  {
    ParseDate(r.date) == Some(d)
  }

  /** `getAbsenceForEmployee`. */
  function AbsenceFor(records: seq<CalendarRecord>, employeeId: string, d: Day): Option<CalendarRecord>
  {
    Find(records, (r: CalendarRecord) => r.employeeId == employeeId && OnDay(r, d))
  }

  /** The result is the first record of that employee on that day, and nothing only when there is none. */
  lemma AbsenceForSpec(records: seq<CalendarRecord>, employeeId: string, d: Day)
    ensures AbsenceFor(records, employeeId, d).None? <==>
              forall i :: 0 <= i < |records| ==> !(records[i].employeeId == employeeId && OnDay(records[i], d))
    ensures AbsenceFor(records, employeeId, d).Some? ==>
              exists i :: 0 <= i < |records| && records[i] == AbsenceFor(records, employeeId, d).value
                          && records[i].employeeId == employeeId && OnDay(records[i], d)
                          && forall j :: 0 <= j < i ==> !(records[j].employeeId == employeeId && OnDay(records[j], d))
  {
    var k := FindIndex(records, (r: CalendarRecord) => r.employeeId == employeeId && OnDay(r, d));
    if k >= 0 {
      assert records[k] == AbsenceFor(records, employeeId, d).value;
    }
  }

  /** A record stored with the day written as `YYYY-MM-DD` lies on that day and on no other (four-digit years). */
  lemma StoredDateOnDay(r: CalendarRecord, stored: Day, d: Day)
    requires 1000 <= stored.year <= 9999 && 1000 <= d.year <= 9999
    requires r.date == FormatDate(stored)
    ensures OnDay(r, d) <==> stored == d
  {
    FormatDateRoundTrip(stored);
  }

  /** The badge class of a cell: the five built-in codes have a colour, any other type none. */
  function CellColor(typeId: string): Option<string>
  {
    if typeId == "V" then Some("bg-green-500")
    else if typeId == "S" then Some("bg-purple-500")
    else if typeId == "B" then Some("bg-red-500")
    else if typeId == "D" then Some("bg-gray-500")
    else if typeId == "C" then Some("bg-yellow-500")
    else None
  }

  /** The grid colours the five built-in codes exactly as `getAbsenceColor` does, and leaves others without the blue fallback. */
  lemma CellColorAgrees(typeId: string)
    ensures CellColor(typeId).Some? <==> AbsenceColor(typeId) != "bg-blue-500"
    ensures CellColor(typeId).Some? ==> CellColor(typeId).value == AbsenceColor(typeId)
  {
  }

  /** The month the grid shows. */
  class CalendarView {
    var current: Day

    /**
     * The columns, `eachDayOfInterval` over the current month: every one a real day of the current month, so the "outside the month" styling
     * (`!isSameMonth(day, currentDate)`) never applies; the first is the 1st, each next one the following
     * day, and there is one per day of the month.
     */
    function Days(): (days: seq<Date>)
      reads this
      ensures |days| == DaysInMonth(current.year, current.month)
      ensures forall i :: 0 <= i < |days| ==> ValidDate(days[i]) && days[i].year == current.year
                                               && days[i].month == current.month
      ensures days[0] == Date(current.year, current.month, 1)
      ensures forall i :: 0 <= i < |days| - 1 ==> days[i + 1] == NextDay(days[i])
      ensures NextDay(days[|days| - 1]).month != current.month
    {
      MonthDays(current.year, current.month)
    }

    constructor(today: Day)
      ensures current == today
    {
      current := today;
    }

    /** `nextMonth`. */
    method NextMonth()
      modifies this
      ensures current == NextMonthStart(old(current))
    {
      current := NextMonthStart(current);
    }

    /** `prevMonth`. */
    method PrevMonth()
      modifies this
      ensures current == PrevMonthStart(old(current))
    {
      current := PrevMonthStart(current);
    }
  }
}
