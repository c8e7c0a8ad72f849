/**
 * `generateMonthlyHoursReport` (`app/dashboard/reports/page.tsx`): absence hours per employee per
 * month. The records are bucketed by month (`date.substring(0, 7)`) and, inside a month, by employee
 * id; each (month, employee) pair of a known employee becomes one row, and the rows are sorted newest
 * month first.
 *
 * Months are keyed by (year, month) rather than by the `YYYY-MM` text; `MonthTextIsPrefix` shows the
 * two agree for four-digit years, and the newest-first order is the numeric order of months.
 */
module MonthlyReport {
  import opened Wrappers
  import opened Seqs
  import opened Text
  import opened Dates
  import opened Sorting
  import opened ReportModel

  type MonthOfYear = m: int | 1 <= m <= 12 witness 1

  datatype YearMonth = YearMonth(year: int, month: MonthOfYear)

  /** The month a day falls in. */
  function MonthOf(d: Day): YearMonth
  {
    YearMonth(d.year, d.month)
  }

  /** `YYYY-MM`, the month key and the `monthDisplay` of a row. */
  function MonthText(ym: YearMonth): string
  {
    IntToString(ym.year) + "-" + PadStart2(NatToString(ym.month))
  }

  /** For four-digit years the month text is the first seven characters of the stored date. */
  lemma MonthTextIsPrefix(d: Day)
    requires 1000 <= d.year <= 9999
    ensures MonthText(MonthOf(d)) == FormatDate(d)[..7]
  {
    NatToStringLength(d.year);
    TwoDigits(d.month);
    var head := MonthText(MonthOf(d));
    assert |head| == 7;
    assert FormatDate(d) == head + "-" + PadStart2(NatToString(d.day));
  }

  // ---------------------------------------------------------------------------------------------
  // The reference: which records a (month, employee) entry sums
  // ---------------------------------------------------------------------------------------------

  /** The records of employee `id` dated in month `ym`, in order. */
  function MonthRecords(records: seq<AbsenceRecord>, ym: YearMonth, id: string): seq<AbsenceRecord>
  {
    if records == [] then []
    else
      var last := records[|records| - 1];
      MonthRecords(records[..|records| - 1], ym, id)
      + (if MonthOf(last.date) == ym && last.employeeId == id then [last] else [])
  }

  /** The employees with a record in month `ym`. */
  function MonthEmployees(records: seq<AbsenceRecord>, ym: YearMonth): set<string>
  {
    if records == [] then {}
    else
      var last := records[|records| - 1];
      MonthEmployees(records[..|records| - 1], ym) + (if MonthOf(last.date) == ym then {last.employeeId} else {})
  }

  /** The months with at least one record. */
  function Months(records: seq<AbsenceRecord>): set<YearMonth>
  {
    if records == [] then {} else Months(records[..|records| - 1]) + {MonthOf(records[|records| - 1].date)}
  }

  lemma {:induction false} MissingEmployeeHasNoRecords(records: seq<AbsenceRecord>, ym: YearMonth, id: string)
    requires id !in MonthEmployees(records, ym)
    ensures MonthRecords(records, ym, id) == []
  {
    if records != [] {
      MissingEmployeeHasNoRecords(records[..|records| - 1], ym, id);
    }
  }

  lemma {:induction false} MissingMonthHasNoEmployees(records: seq<AbsenceRecord>, ym: YearMonth)
    requires ym !in Months(records)
    ensures MonthEmployees(records, ym) == {}
  {
    if records != [] {
      MissingMonthHasNoEmployees(records[..|records| - 1], ym);
    }
  }

  lemma {:induction false} MonthsMember(records: seq<AbsenceRecord>, k: nat)
    requires k < |records|
    ensures MonthOf(records[k].date) in Months(records)
    ensures records[k].employeeId in MonthEmployees(records, MonthOf(records[k].date))
  {
    if k < |records| - 1 {
      MonthsMember(records[..|records| - 1], k);
    }
  }

  lemma SnocPrefix(records: seq<AbsenceRecord>, r: AbsenceRecord)
    ensures (records + [r])[..|records|] == records
  {
  }

  // ---------------------------------------------------------------------------------------------
  // Inner dictionary: hours per employee within one month
  // ---------------------------------------------------------------------------------------------

  datatype EmployeeHours = EmployeeHours(employeeId: string, hours: nat)

  function EntryIndex(entries: seq<EmployeeHours>, id: string): int
  {
    FindIndex(entries, (e: EmployeeHours) => e.employeeId == id)
  }

  /** `monthlyData[m][id] ||= 0; monthlyData[m][id] += h`. */
  function AddHours(entries: seq<EmployeeHours>, id: string, h: nat): seq<EmployeeHours>
  {
    var k := EntryIndex(entries, id);
    var es := if k < 0 then entries + [EmployeeHours(id, 0)] else entries;
    var j := if k < 0 then |entries| else k;
    es[j := es[j].(hours := es[j].hours + h)]
  }

  function EntryIds(entries: seq<EmployeeHours>): set<string>
  {
    if entries == [] then {} else EntryIds(entries[..|entries| - 1]) + {entries[|entries| - 1].employeeId}
  }

  predicate DistinctEntries(entries: seq<EmployeeHours>)
  {
    forall i, j :: 0 <= i < j < |entries| ==> entries[i].employeeId != entries[j].employeeId
  }

  /** An entry holds the `hours || 8` of exactly its employee's records of the month. */
  predicate EntryMatches(e: EmployeeHours, records: seq<AbsenceRecord>, ym: YearMonth)
  {
    e.hours == Sum(MonthRecords(records, ym, e.employeeId), HoursOrEight) && e.hours >= 1
  }

  /** The inner dictionary of month `ym`: one entry per employee with a record that month, each exact. */
  predicate EntriesExact(entries: seq<EmployeeHours>, records: seq<AbsenceRecord>, ym: YearMonth)
  {
    DistinctEntries(entries)
    && EntryIds(entries) == MonthEmployees(records, ym)
    && forall i :: 0 <= i < |entries| ==> EntryMatches(entries[i], records, ym)
  }

  lemma {:induction false} EntryIdsIndex(entries: seq<EmployeeHours>, id: string)
    ensures id in EntryIds(entries) <==> EntryIndex(entries, id) >= 0
  {
    if entries != [] {
      var m := |entries| - 1;
      EntryIdsIndex(entries[..m], id);
      if EntryIndex(entries[..m], id) >= 0 {
        assert entries[EntryIndex(entries[..m], id)].employeeId == id;
      }
    }
  }

  lemma {:induction false} EntryIdsUpdate(entries: seq<EmployeeHours>, j: nat, e: EmployeeHours)
    requires j < |entries| && e.employeeId == entries[j].employeeId
    ensures EntryIds(entries[j := e]) == EntryIds(entries)
  {
    var m := |entries| - 1;
    if j < m {
      assert entries[j := e][..m] == entries[..m][j := e];
      EntryIdsUpdate(entries[..m], j, e);
    } else {
      assert entries[j := e][..m] == entries[..m];
    }
  }

  lemma AddHoursIds(entries: seq<EmployeeHours>, records: seq<AbsenceRecord>, ym: YearMonth, r: AbsenceRecord)
    requires MonthOf(r.date) == ym
    requires DistinctEntries(entries) && EntryIds(entries) == MonthEmployees(records, ym)
    ensures DistinctEntries(AddHours(entries, r.employeeId, HoursOrEight(r)))
    ensures EntryIds(AddHours(entries, r.employeeId, HoursOrEight(r))) == MonthEmployees(records + [r], ym)
  {
    var id := r.employeeId;
    var k := EntryIndex(entries, id);
    var es := if k < 0 then entries + [EmployeeHours(id, 0)] else entries;
    var j := if k < 0 then |entries| else k;
    var result := AddHours(entries, id, HoursOrEight(r));
    assert es[j].employeeId == id;
    assert forall i :: 0 <= i < |result| ==> result[i].employeeId == es[i].employeeId;
    SnocPrefix(records, r);
    EntryIdsIndex(entries, id);
    if k < 0 {
      assert es[..|entries|] == entries;
    }
    EntryIdsUpdate(es, j, result[j]);
  }

  lemma AddHoursMatches(entries: seq<EmployeeHours>, records: seq<AbsenceRecord>, ym: YearMonth, r: AbsenceRecord)
    requires MonthOf(r.date) == ym
    requires EntriesExact(entries, records, ym)
    ensures forall i :: 0 <= i < |AddHours(entries, r.employeeId, HoursOrEight(r))| ==>
              EntryMatches(AddHours(entries, r.employeeId, HoursOrEight(r))[i], records + [r], ym)
  {
    var id := r.employeeId;
    var k := EntryIndex(entries, id);
    var j := if k < 0 then |entries| else k;
    var result := AddHours(entries, id, HoursOrEight(r));
    if k < 0 {
      EntryIdsIndex(entries, id);
      MissingEmployeeHasNoRecords(records, ym, id);
      OwnEntry(0, records, ym, r);
    } else {
      assert EntryMatches(entries[k], records, ym);
      OwnEntry(entries[k].hours, records, ym, r);
    }
    forall i | 0 <= i < |result| && i != j
      ensures EntryMatches(result[i], records + [r], ym)
    {
      assert result[i] == entries[i];
      OtherEntry(entries[i], records, ym, r);
    }
  }

  /** The entry of the record's own employee: its old total plus the record's hours is the new exact total. */
  lemma OwnEntry(h: nat, records: seq<AbsenceRecord>, ym: YearMonth, r: AbsenceRecord)
    requires MonthOf(r.date) == ym
    requires h == Sum(MonthRecords(records, ym, r.employeeId), HoursOrEight)
    ensures EntryMatches(EmployeeHours(r.employeeId, h + HoursOrEight(r)), records + [r], ym)
  {
    SnocPrefix(records, r);
    var mine := MonthRecords(records, ym, r.employeeId);
    assert MonthRecords(records + [r], ym, r.employeeId) == mine + [r];
    SumAppend(mine, [r], HoursOrEight);
    SumSingleton(r, HoursOrEight);
  }

  /** An entry of another employee stays exact when a record is added. */
  lemma OtherEntry(e: EmployeeHours, records: seq<AbsenceRecord>, ym: YearMonth, r: AbsenceRecord)
    requires EntryMatches(e, records, ym) && e.employeeId != r.employeeId
    ensures EntryMatches(e, records + [r], ym)
  {
    SnocPrefix(records, r);
    assert MonthRecords(records + [r], ym, e.employeeId) == MonthRecords(records, ym, e.employeeId);
  }

  /** A record of another month leaves an exact inner dictionary exact. */
  lemma OtherMonthEntries(entries: seq<EmployeeHours>, records: seq<AbsenceRecord>, ym: YearMonth, r: AbsenceRecord)
    requires MonthOf(r.date) != ym
    requires EntriesExact(entries, records, ym)
    ensures EntriesExact(entries, records + [r], ym)
  {
    SnocPrefix(records, r);
    forall i | 0 <= i < |entries|
      ensures EntryMatches(entries[i], records + [r], ym)
    {
      assert EntryMatches(entries[i], records, ym);
      assert MonthRecords(records + [r], ym, entries[i].employeeId) == MonthRecords(records, ym, entries[i].employeeId);
    }
  }

  // ---------------------------------------------------------------------------------------------
  // Outer dictionary: one bucket per month
  // ---------------------------------------------------------------------------------------------

  datatype MonthBucket = MonthBucket(month: YearMonth, entries: seq<EmployeeHours>)

  function BucketIndex(buckets: seq<MonthBucket>, ym: YearMonth): int
  {
    FindIndex(buckets, (b: MonthBucket) => b.month == ym)
  }

  /** One step of the `forEach`: create the month if missing, then add the record's hours to its employee. */
  function AddMonthRecord(buckets: seq<MonthBucket>, r: AbsenceRecord): seq<MonthBucket>
  {
    var ym := MonthOf(r.date);
    var k := BucketIndex(buckets, ym);
    var bs := if k < 0 then buckets + [MonthBucket(ym, [])] else buckets;
    var j := if k < 0 then |buckets| else k;
    bs[j := bs[j].(entries := AddHours(bs[j].entries, r.employeeId, HoursOrEight(r)))]
  }

  function BucketMonths(buckets: seq<MonthBucket>): set<YearMonth>
  {
    if buckets == [] then {} else BucketMonths(buckets[..|buckets| - 1]) + {buckets[|buckets| - 1].month}
  }

  predicate DistinctMonths(buckets: seq<MonthBucket>)
  {
    forall i, j :: 0 <= i < j < |buckets| ==> buckets[i].month != buckets[j].month
  }

  predicate BucketExact(b: MonthBucket, records: seq<AbsenceRecord>)
  {
    EntriesExact(b.entries, records, b.month)
  }

  /** `monthlyData`: one bucket per month with records, each inner dictionary exact. */
  predicate BucketsExact(buckets: seq<MonthBucket>, records: seq<AbsenceRecord>)
  {
    DistinctMonths(buckets)
    && BucketMonths(buckets) == Months(records)
    && forall i :: 0 <= i < |buckets| ==> BucketExact(buckets[i], records)
  }

  lemma {:induction false} BucketMonthsIndex(buckets: seq<MonthBucket>, ym: YearMonth)
    ensures ym in BucketMonths(buckets) <==> BucketIndex(buckets, ym) >= 0
  {
    if buckets != [] {
      var m := |buckets| - 1;
      BucketMonthsIndex(buckets[..m], ym);
      if BucketIndex(buckets[..m], ym) >= 0 {
        assert buckets[BucketIndex(buckets[..m], ym)].month == ym;
      }
    }
  }

  lemma {:induction false} BucketMonthsUpdate(buckets: seq<MonthBucket>, j: nat, b: MonthBucket)
    requires j < |buckets| && b.month == buckets[j].month
    ensures BucketMonths(buckets[j := b]) == BucketMonths(buckets)
  {
    var m := |buckets| - 1;
    if j < m {
      assert buckets[j := b][..m] == buckets[..m][j := b];
      BucketMonthsUpdate(buckets[..m], j, b);
    } else {
      assert buckets[j := b][..m] == buckets[..m];
    }
  }

  lemma AddMonthRecordMonths(buckets: seq<MonthBucket>, records: seq<AbsenceRecord>, r: AbsenceRecord)
    requires DistinctMonths(buckets) && BucketMonths(buckets) == Months(records)
    ensures DistinctMonths(AddMonthRecord(buckets, r))
    ensures BucketMonths(AddMonthRecord(buckets, r)) == Months(records + [r])
  {
    var ym := MonthOf(r.date);
    var k := BucketIndex(buckets, ym);
    var bs := if k < 0 then buckets + [MonthBucket(ym, [])] else buckets;
    var j := if k < 0 then |buckets| else k;
    var result := AddMonthRecord(buckets, r);
    assert bs[j].month == ym;
    assert forall i :: 0 <= i < |result| ==> result[i].month == bs[i].month;
    SnocPrefix(records, r);
    BucketMonthsIndex(buckets, ym);
    if k < 0 {
      assert bs[..|buckets|] == buckets;
    }
    BucketMonthsUpdate(bs, j, result[j]);
  }

  lemma AddMonthRecordExact(buckets: seq<MonthBucket>, records: seq<AbsenceRecord>, r: AbsenceRecord)
    requires BucketsExact(buckets, records)
    ensures forall i :: 0 <= i < |AddMonthRecord(buckets, r)| ==> BucketExact(AddMonthRecord(buckets, r)[i], records + [r])
  {
    var ym := MonthOf(r.date);
    var k := BucketIndex(buckets, ym);
    var bs := if k < 0 then buckets + [MonthBucket(ym, [])] else buckets;
    var j := if k < 0 then |buckets| else k;
    var result := AddMonthRecord(buckets, r);
    if k < 0 {
      BucketMonthsIndex(buckets, ym);
      MissingMonthHasNoEmployees(records, ym);
    } else {
      assert BucketExact(buckets[k], records);
    }
    assert EntriesExact(bs[j].entries, records, ym);
    AddHoursIds(bs[j].entries, records, ym, r);
    AddHoursMatches(bs[j].entries, records, ym, r);
    assert BucketExact(result[j], records + [r]);
    forall i | 0 <= i < |result| && i != j
      ensures BucketExact(result[i], records + [r])
    {
      assert result[i] == buckets[i];
      assert BucketExact(buckets[i], records);
      OtherMonthEntries(buckets[i].entries, records, buckets[i].month, r);
    }
  }

  lemma AddMonthRecordStep(buckets: seq<MonthBucket>, records: seq<AbsenceRecord>, r: AbsenceRecord)
    requires BucketsExact(buckets, records)
    ensures BucketsExact(AddMonthRecord(buckets, r), records + [r])
  {
    AddMonthRecordMonths(buckets, records, r);
    AddMonthRecordExact(buckets, records, r);
  }

  /** The body of the `forEach`: counts one record in `monthlyData`. */
  method CountMonthRecord(monthlyData: seq<MonthBucket>, r: AbsenceRecord) returns (updated: seq<MonthBucket>)
    ensures updated == AddMonthRecord(monthlyData, r)
  {
    updated := monthlyData;
    var monthKey := MonthOf(r.date);
    var k := BucketIndex(updated, monthKey);
    if k < 0 {
      updated := updated + [MonthBucket(monthKey, [])];
      k := |updated| - 1;
    }
    var entries := updated[k].entries;
    var e := EntryIndex(entries, r.employeeId);
    if e < 0 {
      entries := entries + [EmployeeHours(r.employeeId, 0)];
      e := |entries| - 1;
    }
    entries := entries[e := entries[e].(hours := entries[e].hours + HoursOrEight(r))];
    updated := updated[k := updated[k].(entries := entries)];
  }

  /** `monthlyData` after the `forEach` has counted `records`, one record at a time. */
  function MonthBuckets(records: seq<AbsenceRecord>): seq<MonthBucket>
  {
    if records == [] then [] else AddMonthRecord(MonthBuckets(records[..|records| - 1]), records[|records| - 1])
  }

  /** The buckets the `forEach` builds hold, for every month and employee, exactly the `hours || 8` of their records. */
  lemma {:induction false} MonthBucketsExact(records: seq<AbsenceRecord>)
    ensures BucketsExact(MonthBuckets(records), records)
  {
    if records != [] {
      var m := |records| - 1;
      MonthBucketsExact(records[..m]);
      assert records[..m] + [records[m]] == records;
      AddMonthRecordStep(MonthBuckets(records[..m]), records[..m], records[m]);
    }
  }

  /** The `forEach` over the records: builds `monthlyData`, exact for every month and employee. */
  method CollectMonthBuckets(records: seq<AbsenceRecord>) returns (monthlyData: seq<MonthBucket>)
    ensures monthlyData == MonthBuckets(records)
    ensures BucketsExact(monthlyData, records)
  {
    monthlyData := [];
    for i := 0 to |records|
      invariant monthlyData == MonthBuckets(records[..i])
    {
      assert records[..i + 1][..i] == records[..i];
      monthlyData := CountMonthRecord(monthlyData, records[i]);
    }
    assert records[..|records|] == records;
    MonthBucketsExact(records);
  }

  // ---------------------------------------------------------------------------------------------
  // Rows
  // ---------------------------------------------------------------------------------------------

  /** `Math.ceil(hours / 8)`: the fewest eight-hour days that cover the hours. */
  function WorkingDays(hours: nat): (days: nat)
    ensures 8 * days >= hours
    ensures 8 * (days - 1) < hours
  {
    (hours + 7) / 8
  }

  /**
   * A row before the sort, still carrying its month for the sort key. The page's object does not hold
   * the employee id; the draft keeps it beside the row so that "one row per month and employee" can be
   * stated, and drops it together with the month.
   */
  datatype MonthlyDraft = MonthlyDraft(
    month: YearMonth, employeeId: string, monthDisplay: string, employee: string, department: string,
    totalHours: nat, workingDays: nat)

  /** A row of the report, after the sort key is stripped. */
  datatype MonthlyRow = MonthlyRow(
    monthDisplay: string, employee: string, department: string, totalHours: nat, workingDays: nat)

  /** Newest month first: the numeric order of `YYYY-MM` for four-digit years. */
  function DraftMonthKey(d: MonthlyDraft): int
  {
    d.month.year * 12 + d.month.month
  }

  function DraftOf(ym: YearMonth, e: Employee, hours: nat, departments: seq<Department>): MonthlyDraft
  {
    MonthlyDraft(ym, e.id, MonthText(ym), FullName(e), DepartmentName(departments, e.departmentId), hours, WorkingDays(hours))
  }

  /** The rows pushed for one month's entries: one per entry whose employee is found. */
  function EntryDrafts(ym: YearMonth, entries: seq<EmployeeHours>, employees: seq<Employee>,
                       departments: seq<Department>): seq<MonthlyDraft>
  {
    if entries == [] then []
    else
      var last := entries[|entries| - 1];
      var e := FindEmployee(employees, last.employeeId);
      EntryDrafts(ym, entries[..|entries| - 1], employees, departments)
      + (if e.Some? then [DraftOf(ym, e.value, last.hours, departments)] else [])
  }

  /** The rows pushed by the two nested loops, month by month. */
  function AllDrafts(buckets: seq<MonthBucket>, employees: seq<Employee>, departments: seq<Department>): seq<MonthlyDraft>
  {
    if buckets == [] then []
    else
      var last := buckets[|buckets| - 1];
      AllDrafts(buckets[..|buckets| - 1], employees, departments) + EntryDrafts(last.month, last.entries, employees, departments)
  }

  /**
   * Row `d` is the row of known employee `id`: their name and department, the hours of exactly their
   * records of the row's month, the days those hours cover, and the month's `YYYY-MM`.
   */
  predicate DraftFor(d: MonthlyDraft, id: string, records: seq<AbsenceRecord>, employees: seq<Employee>,
                     departments: seq<Department>)
  {
    var e := FindEmployee(employees, id);
    e.Some?
    && d.employee == FullName(e.value) && d.department == DepartmentName(departments, e.value.departmentId)
    && d.totalHours == Sum(MonthRecords(records, d.month, id), HoursOrEight) && d.totalHours >= 1
    && d.workingDays == WorkingDays(d.totalHours) && d.monthDisplay == MonthText(d.month)
  }

  /** Row `d` is the row of the employee it names. */
  predicate DraftMatches(d: MonthlyDraft, records: seq<AbsenceRecord>, employees: seq<Employee>, departments: seq<Department>)
  {
    DraftFor(d, d.employeeId, records, employees, departments)
  }

  /** The row built for an exact entry of a known employee is that employee's row. */
  lemma EntryDraftMatches(ym: YearMonth, entry: EmployeeHours, records: seq<AbsenceRecord>, employees: seq<Employee>,
                          departments: seq<Department>)
    requires EntryMatches(entry, records, ym) && FindEmployee(employees, entry.employeeId).Some?
    ensures DraftMatches(DraftOf(ym, FindEmployee(employees, entry.employeeId).value, entry.hours, departments),
                         records, employees, departments)
  {
    var e := FindEmployee(employees, entry.employeeId).value;
    assert e.id == entry.employeeId;
  }

  lemma {:induction false} EntryDraftsCorrect(ym: YearMonth, entries: seq<EmployeeHours>, records: seq<AbsenceRecord>,
                                              employees: seq<Employee>, departments: seq<Department>)
    requires forall i :: 0 <= i < |entries| ==> EntryMatches(entries[i], records, ym)
    ensures forall d :: d in EntryDrafts(ym, entries, employees, departments) ==>
              d.month == ym && DraftMatches(d, records, employees, departments)
  {
    if entries != [] {
      var m := |entries| - 1;
      var last := entries[m];
      EntryDraftsCorrect(ym, entries[..m], records, employees, departments);
      if FindEmployee(employees, last.employeeId).Some? {
        EntryDraftMatches(ym, last, records, employees, departments);
      }
    }
  }

  lemma {:induction false} AllDraftsCorrect(buckets: seq<MonthBucket>, records: seq<AbsenceRecord>,
                                            employees: seq<Employee>, departments: seq<Department>)
    requires forall i :: 0 <= i < |buckets| ==> BucketExact(buckets[i], records)
    ensures forall d :: d in AllDrafts(buckets, employees, departments) ==> DraftMatches(d, records, employees, departments)
  {
    if buckets != [] {
      var m := |buckets| - 1;
      AllDraftsCorrect(buckets[..m], records, employees, departments);
      assert BucketExact(buckets[m], records);
      EntryDraftsCorrect(buckets[m].month, buckets[m].entries, records, employees, departments);
    }
  }

  /** The entry at `q` of a known employee contributes its row. */
  lemma {:induction false} EntryDraftsContain(ym: YearMonth, entries: seq<EmployeeHours>, q: nat,
                                              employees: seq<Employee>, departments: seq<Department>)
    requires q < |entries| && FindEmployee(employees, entries[q].employeeId).Some?
    ensures DraftOf(ym, FindEmployee(employees, entries[q].employeeId).value, entries[q].hours, departments)
            in EntryDrafts(ym, entries, employees, departments)
  {
    if q < |entries| - 1 {
      EntryDraftsContain(ym, entries[..|entries| - 1], q, employees, departments);
    }
  }

  /** Every row of bucket `p` is among all rows. */
  lemma {:induction false} AllDraftsContain(buckets: seq<MonthBucket>, p: nat, employees: seq<Employee>,
                                            departments: seq<Department>, d: MonthlyDraft)
    requires p < |buckets| && d in EntryDrafts(buckets[p].month, buckets[p].entries, employees, departments)
    ensures d in AllDrafts(buckets, employees, departments)
  {
    if p < |buckets| - 1 {
      AllDraftsContain(buckets[..|buckets| - 1], p, employees, departments, d);
    }
  }

  /** Each record of a known employee is reported: its month has that employee's row. */
  lemma AllDraftsCover(buckets: seq<MonthBucket>, records: seq<AbsenceRecord>, employees: seq<Employee>,
                       departments: seq<Department>, k: nat)
    requires BucketsExact(buckets, records)
    requires k < |records| && FindEmployee(employees, records[k].employeeId).Some?
    ensures exists d :: d in AllDrafts(buckets, employees, departments) && d.month == MonthOf(records[k].date)
                        && d.employeeId == records[k].employeeId && DraftMatches(d, records, employees, departments)
  {
    var r := records[k];
    var ym := MonthOf(r.date);
    MonthsMember(records, k);
    BucketMonthsIndex(buckets, ym);
    var p := BucketIndex(buckets, ym);
    assert BucketExact(buckets[p], records);
    var entries := buckets[p].entries;
    EntryIdsIndex(entries, r.employeeId);
    var q := EntryIndex(entries, r.employeeId);
    assert EntryMatches(entries[q], records, ym);
    var e := FindEmployee(employees, r.employeeId).value;
    var d := DraftOf(ym, e, entries[q].hours, departments);
    EntryDraftsContain(ym, entries, q, employees, departments);
    AllDraftsContain(buckets, p, employees, departments, d);
    assert DraftMatches(d, records, employees, departments);
  }

  // ---------------------------------------------------------------------------------------------
  // One row per (month, employee), and the hours the rows add up to
  // ---------------------------------------------------------------------------------------------

  /** Two rows for the same month and employee. */
  predicate SameKey(a: MonthlyDraft, b: MonthlyDraft)
  {
    a.month == b.month && a.employeeId == b.employeeId
  }

  /** No two rows are for the same month and employee. */
  predicate DistinctKeys(drafts: seq<MonthlyDraft>)
  {
    forall i, j :: 0 <= i < j < |drafts| ==> !SameKey(drafts[i], drafts[j])
  }

  lemma DistinctConcat(a: seq<MonthlyDraft>, b: seq<MonthlyDraft>)
    requires DistinctKeys(a) && DistinctKeys(b)
    requires forall i, j :: 0 <= i < |a| && 0 <= j < |b| ==> !SameKey(a[i], b[j])
    ensures DistinctKeys(a + b)
  {
    forall i, j | 0 <= i < j < |a + b|
      ensures !SameKey((a + b)[i], (a + b)[j])
    {
      if j < |a| {
        assert !SameKey(a[i], a[j]);
      } else if i >= |a| {
        assert !SameKey(b[i - |a|], b[j - |a|]);
      } else {
        assert !SameKey(a[i], b[j - |a|]);
      }
    }
  }

  /** The rows of one month are for that month and for employees of its entries. */
  lemma {:induction false} EntryDraftsKeys(ym: YearMonth, entries: seq<EmployeeHours>, employees: seq<Employee>,
                                           departments: seq<Department>)
    ensures forall d :: d in EntryDrafts(ym, entries, employees, departments) ==>
              d.month == ym && d.employeeId in EntryIds(entries)
  {
    if entries != [] {
      EntryDraftsKeys(ym, entries[..|entries| - 1], employees, departments);
    }
  }

  /** A month's inner dictionary has one entry per employee, so its rows have one per employee. */
  lemma {:induction false} EntryDraftsDistinct(ym: YearMonth, entries: seq<EmployeeHours>, employees: seq<Employee>,
                                               departments: seq<Department>)
    requires DistinctEntries(entries)
    ensures DistinctKeys(EntryDrafts(ym, entries, employees, departments))
  {
    if entries != [] {
      var m := |entries| - 1;
      var id := entries[m].employeeId;
      var pre := EntryDrafts(ym, entries[..m], employees, departments);
      EntryDraftsDistinct(ym, entries[..m], employees, departments);
      EntryDraftsKeys(ym, entries[..m], employees, departments);
      assert forall j :: 0 <= j < m ==> entries[..m][j].employeeId != id;
      EntryIdsIndex(entries[..m], id);
      var e := FindEmployee(employees, id);
      if e.Some? {
        var d := DraftOf(ym, e.value, entries[m].hours, departments);
        assert forall i :: 0 <= i < |pre| ==> pre[i] in pre && !SameKey(pre[i], d);
        DistinctConcat(pre, [d]);
      } else {
        assert pre + [] == pre;
      }
    }
  }

  /** Every row built from `buckets` is for one of their months. */
  lemma {:induction false} AllDraftsMonths(buckets: seq<MonthBucket>, employees: seq<Employee>, departments: seq<Department>)
    ensures forall d :: d in AllDrafts(buckets, employees, departments) ==> d.month in BucketMonths(buckets)
  {
    if buckets != [] {
      var m := |buckets| - 1;
      AllDraftsMonths(buckets[..m], employees, departments);
      EntryDraftsKeys(buckets[m].month, buckets[m].entries, employees, departments);
    }
  }

  /** One bucket per month and one entry per employee in each give one row per month and employee. */
  lemma {:induction false} AllDraftsDistinct(buckets: seq<MonthBucket>, employees: seq<Employee>, departments: seq<Department>)
    requires DistinctMonths(buckets)
    requires forall i :: 0 <= i < |buckets| ==> DistinctEntries(buckets[i].entries)
    ensures DistinctKeys(AllDrafts(buckets, employees, departments))
  {
    if buckets != [] {
      var m := |buckets| - 1;
      var ym := buckets[m].month;
      var pre := AllDrafts(buckets[..m], employees, departments);
      var last := EntryDrafts(ym, buckets[m].entries, employees, departments);
      AllDraftsDistinct(buckets[..m], employees, departments);
      EntryDraftsDistinct(ym, buckets[m].entries, employees, departments);
      AllDraftsMonths(buckets[..m], employees, departments);
      EntryDraftsKeys(ym, buckets[m].entries, employees, departments);
      assert forall j :: 0 <= j < m ==> buckets[..m][j].month != ym;
      BucketMonthsIndex(buckets[..m], ym);
      assert forall i, j :: 0 <= i < |pre| && 0 <= j < |last| ==> pre[i] in pre && last[j] in last;
      DistinctConcat(pre, last);
    }
  }

  /** Without two rows for the same key, no row occurs twice. */
  lemma {:induction false} DistinctKeysCount(s: seq<MonthlyDraft>, x: MonthlyDraft)
    requires DistinctKeys(s)
    ensures multiset(s)[x] <= 1
  {
    if s != [] {
      var m := |s| - 1;
      assert s == s[..m] + [s[m]];
      DistinctKeysCount(s[..m], x);
      if x == s[m] {
        assert forall j :: 0 <= j < m ==> s[..m][j] != x;
        assert x !in s[..m];
      }
    }
  }

  /** A value at two positions occurs at least twice. */
  lemma RepeatedCount(s: seq<MonthlyDraft>, i: nat, j: nat)
    requires i < j < |s| && s[i] == s[j]
    ensures multiset(s)[s[i]] >= 2
  {
    assert s == s[..j] + [s[j]] + s[j + 1..];
    assert s[i] in s[..j];
  }

  /** Reordering the rows keeps one row per month and employee. */
  lemma DistinctKeysPermutation(a: seq<MonthlyDraft>, b: seq<MonthlyDraft>)
    requires multiset(a) == multiset(b) && DistinctKeys(a)
    ensures DistinctKeys(b)
  {
    forall i, j | 0 <= i < j < |b|
      ensures !SameKey(b[i], b[j])
    {
      if b[i] == b[j] {
        RepeatedCount(b, i, j);
        DistinctKeysCount(a, b[i]);
        assert false;
      } else {
        assert b[i] in multiset(a) && b[j] in multiset(a);
        var p :| 0 <= p < |a| && a[p] == b[i];
        var q :| 0 <= q < |a| && a[q] == b[j];
        if p < q {
          assert !SameKey(a[p], a[q]);
        } else {
          assert !SameKey(a[q], a[p]);
        }
      }
    }
  }

  /** An entry's contribution to the report: its hours when its employee is listed, else nothing. */
  function KnownEntryHours(employees: seq<Employee>): EmployeeHours -> nat
  {
    (e: EmployeeHours) => if FindEmployee(employees, e.employeeId).Some? then e.hours else 0
  }

  /** A month's contribution to the report: the hours of its listed employees. */
  function KnownBucketHours(employees: seq<Employee>): MonthBucket -> nat
  {
    (b: MonthBucket) => Sum(b.entries, KnownEntryHours(employees))
  }

  /** A record's contribution to the report: its `hours || 8` when its employee is listed, else nothing. */
  function KnownRecordHours(employees: seq<Employee>): AbsenceRecord -> nat
  {
    (r: AbsenceRecord) => if FindEmployee(employees, r.employeeId).Some? then HoursOrEight(r) else 0
  }

  function DraftHours(d: MonthlyDraft): nat
  {
    d.totalHours
  }

  /** Adding `h` hours to an employee's entry adds them to the report exactly when the employee is listed. */
  lemma AddHoursKnown(entries: seq<EmployeeHours>, id: string, h: nat, employees: seq<Employee>)
    ensures Sum(AddHours(entries, id, h), KnownEntryHours(employees))
            == Sum(entries, KnownEntryHours(employees)) + (if FindEmployee(employees, id).Some? then h else 0)
  {
    var f := KnownEntryHours(employees);
    var k := EntryIndex(entries, id);
    var es := if k < 0 then entries + [EmployeeHours(id, 0)] else entries;
    var j := if k < 0 then |entries| else k;
    if k < 0 {
      SumAppend(entries, [EmployeeHours(id, 0)], f);
      SumSingleton(EmployeeHours(id, 0), f);
    }
    assert es[j].employeeId == id;
    SumUpdate(es, j, es[j].(hours := es[j].hours + h), f);
  }

  /** Counting one record adds its hours to the buckets' total exactly when its employee is listed. */
  lemma AddMonthRecordKnown(buckets: seq<MonthBucket>, r: AbsenceRecord, employees: seq<Employee>)
    ensures Sum(AddMonthRecord(buckets, r), KnownBucketHours(employees))
            == Sum(buckets, KnownBucketHours(employees)) + KnownRecordHours(employees)(r)
  {
    var g := KnownBucketHours(employees);
    var ym := MonthOf(r.date);
    var k := BucketIndex(buckets, ym);
    var bs := if k < 0 then buckets + [MonthBucket(ym, [])] else buckets;
    var j := if k < 0 then |buckets| else k;
    if k < 0 {
      SumAppend(buckets, [MonthBucket(ym, [])], g);
      SumSingleton(MonthBucket(ym, []), g);
    }
    AddHoursKnown(bs[j].entries, r.employeeId, HoursOrEight(r), employees);
    SumUpdate(bs, j, bs[j].(entries := AddHours(bs[j].entries, r.employeeId, HoursOrEight(r))), g);
  }

  /** The buckets hold, over their listed employees, exactly the `hours || 8` of the listed employees' records. */
  lemma {:induction false} MonthBucketsKnown(records: seq<AbsenceRecord>, employees: seq<Employee>)
    ensures Sum(MonthBuckets(records), KnownBucketHours(employees)) == Sum(records, KnownRecordHours(employees))
  {
    if records != [] {
      var m := |records| - 1;
      MonthBucketsKnown(records[..m], employees);
      AddMonthRecordKnown(MonthBuckets(records[..m]), records[m], employees);
    }
  }

  /** A month's rows carry exactly the hours of its listed employees. */
  lemma {:induction false} EntryDraftsHours(ym: YearMonth, entries: seq<EmployeeHours>, employees: seq<Employee>,
                                            departments: seq<Department>)
    ensures Sum(EntryDrafts(ym, entries, employees, departments), DraftHours) == Sum(entries, KnownEntryHours(employees))
  {
    if entries != [] {
      var m := |entries| - 1;
      var pre := EntryDrafts(ym, entries[..m], employees, departments);
      EntryDraftsHours(ym, entries[..m], employees, departments);
      var e := FindEmployee(employees, entries[m].employeeId);
      if e.Some? {
        var d := DraftOf(ym, e.value, entries[m].hours, departments);
        SumAppend(pre, [d], DraftHours);
        SumSingleton(d, DraftHours);
      } else {
        assert pre + [] == pre;
      }
    }
  }

  /** All rows together carry exactly the hours of the buckets' listed employees. */
  lemma {:induction false} AllDraftsHours(buckets: seq<MonthBucket>, employees: seq<Employee>, departments: seq<Department>)
    ensures Sum(AllDrafts(buckets, employees, departments), DraftHours) == Sum(buckets, KnownBucketHours(employees))
  {
    if buckets != [] {
      var m := |buckets| - 1;
      AllDraftsHours(buckets[..m], employees, departments);
      EntryDraftsHours(buckets[m].month, buckets[m].entries, employees, departments);
      SumAppend(AllDrafts(buckets[..m], employees, departments),
                EntryDrafts(buckets[m].month, buckets[m].entries, employees, departments), DraftHours);
    }
  }

  /** The two nested `for ... of Object.entries(...)` loops. */
  method BuildDrafts(monthlyData: seq<MonthBucket>, employees: seq<Employee>, departments: seq<Department>)
    returns (data: seq<MonthlyDraft>)
    ensures data == AllDrafts(monthlyData, employees, departments)
  {
    data := [];
    for i := 0 to |monthlyData|
      invariant data == AllDrafts(monthlyData[..i], employees, departments)
    {
      assert monthlyData[..i + 1][..i] == monthlyData[..i];
      var drafts := MonthDrafts(monthlyData[i].month, monthlyData[i].entries, employees, departments);
      data := data + drafts;
    }
    assert monthlyData[..|monthlyData|] == monthlyData;
  }

  /** The inner loop: one row per employee of the month that the employee list knows. */
  method MonthDrafts(month: YearMonth, employeeHours: seq<EmployeeHours>, employees: seq<Employee>,
                     departments: seq<Department>) returns (drafts: seq<MonthlyDraft>)
    ensures drafts == EntryDrafts(month, employeeHours, employees, departments)
  {
    drafts := [];
    for j := 0 to |employeeHours|
      invariant drafts == EntryDrafts(month, employeeHours[..j], employees, departments)
    {
      assert employeeHours[..j + 1][..j] == employeeHours[..j];
      var employee := FindEmployee(employees, employeeHours[j].employeeId);
      if employee.Some? {
        drafts := drafts + [DraftOf(month, employee.value, employeeHours[j].hours, departments)];
      }
    }
    assert employeeHours[..|employeeHours|] == employeeHours;
  }

  function StripMonth(d: MonthlyDraft): MonthlyRow
  {
    MonthlyRow(d.monthDisplay, d.employee, d.department, d.totalHours, d.workingDays)
  }

  /** `data.map(({ month, ...rest }) => rest)`. */
  function StripAll(drafts: seq<MonthlyDraft>): seq<MonthlyRow>
  {
    seq(|drafts|, i requires 0 <= i < |drafts| => StripMonth(drafts[i]))
  }

  /**
   * `sorted` is a newest-first reordering of the rows the nested loops build from `monthlyData`: one row
   * per month and known employee, each with that employee's name, department and exact hours of the
   * month; every record of a known employee is reported under its month and employee, and the rows'
   * hours add up to the `hours || 8` of the known employees' records.
   */
  predicate MonthlyDraftsOf(sorted: seq<MonthlyDraft>, records: seq<AbsenceRecord>, employees: seq<Employee>,
                            departments: seq<Department>)
  {
    SortedDesc(sorted, DraftMonthKey)
    && multiset(sorted) == multiset(AllDrafts(MonthBuckets(records), employees, departments))
    && DistinctKeys(sorted)
    && (forall i :: 0 <= i < |sorted| ==> DraftMatches(sorted[i], records, employees, departments))
    && (forall k :: 0 <= k < |records| && FindEmployee(employees, records[k].employeeId).Some? ==>
          exists d :: d in sorted && d.month == MonthOf(records[k].date) && d.employeeId == records[k].employeeId)
    && Sum(sorted, DraftHours) == Sum(records, KnownRecordHours(employees))
  }

  /** Any reordering of the built rows keeps each row exact. */
  lemma PermutedDraftsMatch(sorted: seq<MonthlyDraft>, buckets: seq<MonthBucket>, records: seq<AbsenceRecord>,
                            employees: seq<Employee>, departments: seq<Department>)
    requires BucketsExact(buckets, records)
    requires multiset(sorted) == multiset(AllDrafts(buckets, employees, departments))
    ensures forall i :: 0 <= i < |sorted| ==> DraftMatches(sorted[i], records, employees, departments)
  {
    AllDraftsCorrect(buckets, records, employees, departments);
    forall i | 0 <= i < |sorted|
      ensures DraftMatches(sorted[i], records, employees, departments)
    {
      assert sorted[i] in multiset(AllDrafts(buckets, employees, departments));
    }
  }

  /** Any reordering of the built rows still reports every record of a known employee. */
  lemma PermutedDraftsCover(sorted: seq<MonthlyDraft>, buckets: seq<MonthBucket>, records: seq<AbsenceRecord>,
                            employees: seq<Employee>, departments: seq<Department>)
    requires BucketsExact(buckets, records)
    requires multiset(sorted) == multiset(AllDrafts(buckets, employees, departments))
    ensures forall k :: 0 <= k < |records| && FindEmployee(employees, records[k].employeeId).Some? ==>
              exists d :: d in sorted && d.month == MonthOf(records[k].date) && d.employeeId == records[k].employeeId
  {
    var data := AllDrafts(buckets, employees, departments);
    forall k | 0 <= k < |records| && FindEmployee(employees, records[k].employeeId).Some?
      ensures exists d :: d in sorted && d.month == MonthOf(records[k].date) && d.employeeId == records[k].employeeId
    {
      AllDraftsCover(buckets, records, employees, departments, k);
      var d :| d in data && d.month == MonthOf(records[k].date) && d.employeeId == records[k].employeeId;
      assert d in multiset(data);
    }
  }

  /** What `generateMonthlyHoursReport` promises of its rows: a `MonthlyDraftsOf` ordering with the month stripped. */
  ghost predicate MonthlyHoursOf(rows: seq<MonthlyRow>, records: seq<AbsenceRecord>, employees: seq<Employee>,
                                 departments: seq<Department>)
  {
    exists sorted :: MonthlyDraftsOf(sorted, records, employees, departments) && rows == StripAll(sorted)
  }

  /** The monthly report's rows: the sorted rows with the sort key stripped. */
  method GenerateMonthlyHours(employees: seq<Employee>, records: seq<AbsenceRecord>, departments: seq<Department>)
    returns (rows: seq<MonthlyRow>)
    ensures MonthlyHoursOf(rows, records, employees, departments)
    ensures forall i :: 0 <= i < |rows| ==> rows[i].totalHours >= 1 && 8 * rows[i].workingDays >= rows[i].totalHours
                                             && 8 * (rows[i].workingDays - 1) < rows[i].totalHours
  {
    var monthlyData := CollectMonthBuckets(records);
    var data := BuildDrafts(monthlyData, employees, departments);
    var sorted := SortedByKeyDesc(data, DraftMonthKey);
    PermutedDraftsMatch(sorted, monthlyData, records, employees, departments);
    PermutedDraftsCover(sorted, monthlyData, records, employees, departments);
    AllDraftsDistinct(monthlyData, employees, departments);
    DistinctKeysPermutation(data, sorted);
    AllDraftsHours(monthlyData, employees, departments);
    MonthBucketsKnown(records, employees);
    SumPermutation(sorted, data, DraftHours);
    rows := StripAll(sorted);
    assert MonthlyDraftsOf(sorted, records, employees, departments);
    forall i | 0 <= i < |rows|
      ensures rows[i].totalHours >= 1 && 8 * rows[i].workingDays >= rows[i].totalHours
              && 8 * (rows[i].workingDays - 1) < rows[i].totalHours
    {
      assert DraftMatches(sorted[i], records, employees, departments);
    }
  }
}
