/**
 * The six report generators of `app/dashboard/reports/page.tsx`. Each takes the (already filtered)
 * employees and absence records and builds the rows of one report, then sorts them descending by the
 * report's key.
 *
 * Decimal formatting (`toFixed(2)` of a floating-point quotient) is not modelled: a `NumberFormat`
 * value supplies the text, and the model only decides when it is used and with which operands.
 */
module ReportGenerators {
  import opened Wrappers
  import opened Seqs
  import opened Dates
  import opened Sorting
  import opened ReportModel

  /**
   * `ratio(a, b)` is `(a / b).toFixed(2)` and `percent(a, b)` is `((a / b) * 100).toFixed(2)`;
   * both are only asked for with `b > 0`.
   */
  datatype NumberFormat = NumberFormat(ratio: (nat, nat) -> string, percent: (nat, nat) -> string)

  /** `b > 0 ? ratio(a, b) : '0'`, the average every report shows. */
  function Average(fmt: NumberFormat, a: nat, b: nat): string
  {
    if b > 0 then fmt.ratio(a, b) else "0"
  }

  // ---------------------------------------------------------------------------------------------
  // Absence summary (`generateAbsenceSummaryReport`)
  // ---------------------------------------------------------------------------------------------

  datatype SummaryRow = SummaryRow(
    employee: string, department: string, totalHours: nat, absenceDays: nat, averageHours: string)

  function SummaryHours(r: SummaryRow): nat { r.totalHours }
  function SummaryDays(r: SummaryRow): nat { r.absenceDays }

  /** One employee's row: the count of their records and the sum of `hours || 0` over them. */
  function SummaryRowFor(e: Employee, records: seq<AbsenceRecord>, departments: seq<Department>, fmt: NumberFormat): SummaryRow
  {
    var mine := EmployeeRecords(records, e.id);
    var total := Sum(mine, HoursOrZero);
    SummaryRow(FullName(e), DepartmentName(departments, e.departmentId), total, |mine|, Average(fmt, total, |mine|))
  }

  /** `employees.map(...)`: one row per employee, in employee order. */
  function SummaryRows(employees: seq<Employee>, records: seq<AbsenceRecord>, departments: seq<Department>,
                       fmt: NumberFormat): seq<SummaryRow>
  {
    seq(|employees|, i requires 0 <= i < |employees| => SummaryRowFor(employees[i], records, departments, fmt))
  }

  /**
   * The summary loses and double-counts nothing: with distinct employee ids, the rows' days add up
   * to the number of records of the listed employees, and their hours to those records' hours.
   */
  lemma {:induction false} SummaryTotals(employees: seq<Employee>, records: seq<AbsenceRecord>,
                                         departments: seq<Department>, fmt: NumberFormat)
    requires DistinctIds(employees)
    ensures Sum(SummaryRows(employees, records, departments, fmt), SummaryDays)
            == |ListedRecords(records, IdsOf(employees))|
    ensures Sum(SummaryRows(employees, records, departments, fmt), SummaryHours)
            == Sum(ListedRecords(records, IdsOf(employees)), HoursOrZero)
  {
    var rows := SummaryRows(employees, records, departments, fmt);
    var n := |employees|;
    if n == 0 {
      assert IdsOf(employees) == {};
      assert ListedRecords(records, {}) == [];
    } else {
      var init, x := employees[..n - 1], employees[n - 1];
      assert rows[..n - 1] == SummaryRows(init, records, departments, fmt);
      assert IdsOf(employees) == IdsOf(init) + {x.id} by {
        assert employees == init + [x];
      }
      assert x.id !in IdsOf(init);
      SummaryTotals(init, records, departments, fmt);
      ListedSplit(records, IdsOf(init), x.id, HoursOrZero);
    }
  }

  /** What `generateAbsenceSummary` promises of its rows: every employee's row once, most hours first, totals kept. */
  predicate AbsenceSummaryOf(rows: seq<SummaryRow>, employees: seq<Employee>, records: seq<AbsenceRecord>,
                            departments: seq<Department>, fmt: NumberFormat)
  {
    SortedDesc(rows, SummaryHours)
    && multiset(rows) == multiset(SummaryRows(employees, records, departments, fmt))
    && (DistinctIds(employees) ==>
            Sum(rows, SummaryDays) == |ListedRecords(records, IdsOf(employees))|
            && Sum(rows, SummaryHours) == Sum(ListedRecords(records, IdsOf(employees)), HoursOrZero))
  }

  /** The summary report's rows: every employee's row, most absent hours first. */
  method GenerateAbsenceSummary(employees: seq<Employee>, records: seq<AbsenceRecord>,
                                departments: seq<Department>, fmt: NumberFormat) returns (rows: seq<SummaryRow>)
    ensures AbsenceSummaryOf(rows, employees, records, departments, fmt)
  {
    var summary := SummaryRows(employees, records, departments, fmt);
    rows := SortedByKeyDesc(summary, SummaryHours);
    SumPermutation(rows, summary, SummaryDays);
    SumPermutation(rows, summary, SummaryHours);
    if DistinctIds(employees) {
      SummaryTotals(employees, records, departments, fmt);
    }
  }

  // ---------------------------------------------------------------------------------------------
  // Detailed absences (`generateEmployeeAbsenceReport`)
  // ---------------------------------------------------------------------------------------------

  datatype DetailRow = DetailRow(
    date: Day, employee: string, department: string, absenceType: string, hours: nat, status: string)

  function DetailHours(r: DetailRow): nat { r.hours }

  /** The newest-first sort key: chronological order of the row's date. */
  function DetailDateKey(r: DetailRow): int { DateKey(r.date) }

  function DetailRowFor(e: Employee, r: AbsenceRecord, departments: seq<Department>, types: seq<AbsenceType>): DetailRow
  {
    DetailRow(r.date, FullName(e), DepartmentName(departments, e.departmentId),
              AbsenceTypeName(types, r.absenceTypeId), HoursOrEight(r), r.status)
  }

  /** The rows pushed for `records`, in record order: one per record whose employee is found. */
  function DetailRows(employees: seq<Employee>, records: seq<AbsenceRecord>, departments: seq<Department>,
                      types: seq<AbsenceType>): (rows: seq<DetailRow>)
    ensures forall i :: 0 <= i < |rows| ==> rows[i].hours >= 1
  {
    if records == [] then []
    else
      var rest := DetailRows(employees, records[..|records| - 1], departments, types);
      var r := records[|records| - 1];
      var e := FindEmployee(employees, r.employeeId);
      if e.Some? then rest + [DetailRowFor(e.value, r, departments, types)] else rest
  }

  /**
   * Exactly the records of listed employees become rows, and the rows' hours add up to those
   * records' `hours || 8`.
   */
  lemma {:induction false} DetailRowsTotals(employees: seq<Employee>, records: seq<AbsenceRecord>,
                                            departments: seq<Department>, types: seq<AbsenceType>)
    ensures |DetailRows(employees, records, departments, types)| == |ListedRecords(records, IdsOf(employees))|
    ensures Sum(DetailRows(employees, records, departments, types), DetailHours)
            == Sum(ListedRecords(records, IdsOf(employees)), HoursOrEight)
  {
    if records != [] {
      var n := |records|;
      var init, r := records[..n - 1], records[n - 1];
      DetailRowsTotals(employees, init, departments, types);
      assert records == init + [r];
      FilterSnoc(init, r, (r: AbsenceRecord) => r.employeeId in IdsOf(employees));
      FindEmployeeIds(employees, r.employeeId);
      var rest := DetailRows(employees, init, departments, types);
      var listed := ListedRecords(init, IdsOf(employees));
      if r.employeeId in IdsOf(employees) {
        var row := DetailRowFor(FindEmployee(employees, r.employeeId).value, r, departments, types);
        SumAppend(rest, [row], DetailHours);
        SumAppend(listed, [r], HoursOrEight);
        SumSingleton(row, DetailHours);
        SumSingleton(r, HoursOrEight);
      } else {
        assert listed + [] == listed;
      }
    }
  }

  /** What `generateEmployeeAbsence` promises of its rows: one per record of a listed employee, newest first, hours kept. */
  predicate EmployeeAbsenceOf(rows: seq<DetailRow>, employees: seq<Employee>, records: seq<AbsenceRecord>,
                             departments: seq<Department>, types: seq<AbsenceType>)
  {
    SortedDesc(rows, DetailDateKey)
    && multiset(rows) == multiset(DetailRows(employees, records, departments, types))
    && |rows| == |ListedRecords(records, IdsOf(employees))|
    && Sum(rows, DetailHours) == Sum(ListedRecords(records, IdsOf(employees)), HoursOrEight)
  }

  /** The detailed report's rows: one per record of a listed employee, newest first. */
  method GenerateEmployeeAbsence(employees: seq<Employee>, records: seq<AbsenceRecord>,
                                 departments: seq<Department>, types: seq<AbsenceType>) returns (rows: seq<DetailRow>)
    ensures EmployeeAbsenceOf(rows, employees, records, departments, types)
  {
    var detailed: seq<DetailRow> := [];
    for i := 0 to |records|
      invariant detailed == DetailRows(employees, records[..i], departments, types)
    {
      assert records[..i + 1][..i] == records[..i];
      var employee := FindEmployee(employees, records[i].employeeId);
      if employee.Some? {
        detailed := detailed + [DetailRowFor(employee.value, records[i], departments, types)];
      }
    }
    assert records[..|records|] == records;
    rows := SortedByKeyDesc(detailed, DetailDateKey);
    assert |multiset(rows)| == |multiset(detailed)|;
    SumPermutation(rows, detailed, DetailHours);
    DetailRowsTotals(employees, records, departments, types);
  }

  // ---------------------------------------------------------------------------------------------
  // Absences by type (`generateAbsenceByTypeReport`)
  // ---------------------------------------------------------------------------------------------

  /** The ids of the employees a list of records belongs to (`new Set(... employee_id)`). */
  function EmployeeIdsOf(records: seq<AbsenceRecord>): set<string>
  {
    if records == [] then {}
    else EmployeeIdsOf(records[..|records| - 1]) + {records[|records| - 1].employeeId}
  }

  /** A list of records names at least one and at most as many employees as it has records. */
  lemma {:induction false} EmployeeIdsBound(records: seq<AbsenceRecord>)
    ensures |EmployeeIdsOf(records)| <= |records|
    ensures records != [] ==> |EmployeeIdsOf(records)| >= 1
  {
    if records != [] {
      EmployeeIdsBound(records[..|records| - 1]);
    }
  }

  lemma EmployeeIdsSnoc(records: seq<AbsenceRecord>, r: AbsenceRecord)
    ensures EmployeeIdsOf(records + [r]) == EmployeeIdsOf(records) + {r.employeeId}
  {
    assert (records + [r])[..|records|] == records;
  }

  /** One entry of `typeSummary`: its key and its `{ count, totalHours, employees }`. */
  datatype TypeGroup = TypeGroup(name: string, count: nat, totalHours: nat, employees: set<string>)

  function GroupCount(g: TypeGroup): nat { g.count }
  function GroupHours(g: TypeGroup): nat { g.totalHours }

  /** The name a record is grouped under. */
  function TypeName(types: seq<AbsenceType>, r: AbsenceRecord): string
  {
    AbsenceTypeName(types, r.absenceTypeId)
  }

  /** The reference for one group: the records whose type name is `name`, in order. */
  function TypeRecords(records: seq<AbsenceRecord>, types: seq<AbsenceType>, name: string): seq<AbsenceRecord>
  {
    if records == [] then []
    else
      var last := records[|records| - 1];
      TypeRecords(records[..|records| - 1], types, name) + (if TypeName(types, last) == name then [last] else [])
  }

  /** `typeSummary[name]`: the position of the group keyed `name`, or -1. */
  function TypeIndex(groups: seq<TypeGroup>, name: string): int
  {
    FindIndex(groups, (g: TypeGroup) => g.name == name)
  }

  /** One step of the `forEach`: create the group if missing, then count the record in it. */
  function AddTypeRecord(groups: seq<TypeGroup>, types: seq<AbsenceType>, r: AbsenceRecord): seq<TypeGroup>
  {
    var name := TypeName(types, r);
    var k := TypeIndex(groups, name);
    var gs := if k < 0 then groups + [TypeGroup(name, 0, 0, {})] else groups;
    var j := if k < 0 then |groups| else k;
    gs[j := gs[j].(count := gs[j].count + 1, totalHours := gs[j].totalHours + HoursOrEight(r),
                   employees := gs[j].employees + {r.employeeId})]
  }

  predicate DistinctNames(groups: seq<TypeGroup>)
  {
    forall i, j :: 0 <= i < j < |groups| ==> groups[i].name != groups[j].name
  }

  /** The keys of `typeSummary`. */
  function GroupNames(groups: seq<TypeGroup>): set<string>
  {
    if groups == [] then {} else GroupNames(groups[..|groups| - 1]) + {groups[|groups| - 1].name}
  }

  /** The type names that occur in `records`. */
  function TypeNames(records: seq<AbsenceRecord>, types: seq<AbsenceType>): set<string>
  {
    if records == [] then {} else TypeNames(records[..|records| - 1], types) + {TypeName(types, records[|records| - 1])}
  }

  lemma {:induction false} GroupNamesIndex(groups: seq<TypeGroup>, n: string)
    ensures n in GroupNames(groups) <==> TypeIndex(groups, n) >= 0
  {
    if groups != [] {
      var m := |groups| - 1;
      GroupNamesIndex(groups[..m], n);
      if TypeIndex(groups[..m], n) >= 0 {
        assert groups[TypeIndex(groups[..m], n)].name == n;
      }
    }
  }

  lemma TypeRecordsSnoc(records: seq<AbsenceRecord>, types: seq<AbsenceType>, r: AbsenceRecord, n: string)
    ensures TypeRecords(records + [r], types, n)
            == TypeRecords(records, types, n) + (if TypeName(types, r) == n then [r] else [])
  {
    assert (records + [r])[..|records|] == records;
  }

  /** The per-group reference is the `filter` by type name. */
  lemma {:induction false} TypeRecordsIsFilter(records: seq<AbsenceRecord>, types: seq<AbsenceType>, n: string)
    ensures TypeRecords(records, types, n) == Filter(records, (r: AbsenceRecord) => TypeName(types, r) == n)
  {
    var p := (r: AbsenceRecord) => TypeName(types, r) == n;
    if records != [] {
      var m := |records| - 1;
      var pre, last := records[..m], records[m];
      assert pre + [last] == records;
      TypeRecordsIsFilter(pre, types, n);
      FilterSnoc(pre, last, p);
      assert TypeRecords(records, types, n) == TypeRecords(pre, types, n) + (if p(last) then [last] else []);
    }
  }

  /** A name that occurs in no record has no records. */
  lemma {:induction false} MissingTypeHasNoRecords(records: seq<AbsenceRecord>, types: seq<AbsenceType>, n: string)
    requires n !in TypeNames(records, types)
    ensures TypeRecords(records, types, n) == []
  {
    if records != [] {
      MissingTypeHasNoRecords(records[..|records| - 1], types, n);
    }
  }

  /** A group's numbers are those of exactly the records of its type. */
  predicate GroupMatches(g: TypeGroup, records: seq<AbsenceRecord>, types: seq<AbsenceType>)
  {
    var mine := TypeRecords(records, types, g.name);
    g.count == |mine| && g.count >= 1 && g.totalHours == Sum(mine, HoursOrEight) && g.employees == EmployeeIdsOf(mine)
  }

  /** `groups` has one group per type name occurring in `records`, each matching its records. */
  predicate GroupsByType(groups: seq<TypeGroup>, records: seq<AbsenceRecord>, types: seq<AbsenceType>)
  {
    DistinctNames(groups)
    && (forall i {:trigger GroupMatches(groups[i], records, types)} :: 0 <= i < |groups| ==> GroupMatches(groups[i], records, types))
    && GroupNames(groups) == TypeNames(records, types)
  }

  /** The group a record is counted in matches the records extended by it. */
  lemma CountedGroupMatches(g: TypeGroup, records: seq<AbsenceRecord>, types: seq<AbsenceType>, r: AbsenceRecord)
    requires g.name == TypeName(types, r)
    requires (g == TypeGroup(g.name, 0, 0, {}) && TypeRecords(records, types, g.name) == []) || GroupMatches(g, records, types)
    ensures GroupMatches(g.(count := g.count + 1, totalHours := g.totalHours + HoursOrEight(r),
                            employees := g.employees + {r.employeeId}), records + [r], types)
  {
    var mine := TypeRecords(records, types, g.name);
    TypeRecordsSnoc(records, types, r, g.name);
    SumAppend(mine, [r], HoursOrEight);
    SumSingleton(r, HoursOrEight);
    EmployeeIdsSnoc(mine, r);
  }

  /** Updating one group leaves the names of all groups as they were. */
  lemma {:induction false} GroupNamesUpdate(groups: seq<TypeGroup>, j: nat, g: TypeGroup)
    requires j < |groups| && g.name == groups[j].name
    ensures GroupNames(groups[j := g]) == GroupNames(groups)
  {
    var m := |groups| - 1;
    if j < m {
      assert groups[j := g][..m] == groups[..m][j := g];
      GroupNamesUpdate(groups[..m], j, g);
    } else {
      assert groups[j := g][..m] == groups[..m];
    }
  }

  /** A group of another type is not affected by one more record. */
  lemma OtherGroupMatches(g: TypeGroup, records: seq<AbsenceRecord>, types: seq<AbsenceType>, r: AbsenceRecord)
    requires GroupMatches(g, records, types) && g.name != TypeName(types, r)
    ensures GroupMatches(g, records + [r], types)
  {
    TypeRecordsSnoc(records, types, r, g.name);
    assert TypeRecords(records + [r], types, g.name) == TypeRecords(records, types, g.name);
  }

  /** Counting a record keeps the keys distinct and makes them the type names of the longer list. */
  lemma AddTypeRecordNames(groups: seq<TypeGroup>, records: seq<AbsenceRecord>, types: seq<AbsenceType>, r: AbsenceRecord)
    requires DistinctNames(groups) && GroupNames(groups) == TypeNames(records, types)
    ensures DistinctNames(AddTypeRecord(groups, types, r))
    ensures GroupNames(AddTypeRecord(groups, types, r)) == TypeNames(records + [r], types)
  {
    var name := TypeName(types, r);
    var k := TypeIndex(groups, name);
    var gs := if k < 0 then groups + [TypeGroup(name, 0, 0, {})] else groups;
    var j := if k < 0 then |groups| else k;
    var result := AddTypeRecord(groups, types, r);
    assert gs[j].name == name;
    assert forall i :: 0 <= i < |result| ==> result[i].name == gs[i].name;
    assert (records + [r])[..|records|] == records;
    GroupNamesIndex(groups, name);
    if k < 0 {
      assert gs[..|groups|] == groups;
    }
    GroupNamesUpdate(gs, j, result[j]);
  }

  /** Counting a record keeps every group in agreement with the records, the longer list included. */
  lemma AddTypeRecordMatches(groups: seq<TypeGroup>, records: seq<AbsenceRecord>, types: seq<AbsenceType>, r: AbsenceRecord)
    requires GroupsByType(groups, records, types)
    ensures forall i :: 0 <= i < |AddTypeRecord(groups, types, r)| ==>
              GroupMatches(AddTypeRecord(groups, types, r)[i], records + [r], types)
  {
    var name := TypeName(types, r);
    var k := TypeIndex(groups, name);
    var gs := if k < 0 then groups + [TypeGroup(name, 0, 0, {})] else groups;
    var j := if k < 0 then |groups| else k;
    var result := AddTypeRecord(groups, types, r);
    if k < 0 {
      GroupNamesIndex(groups, name);
      MissingTypeHasNoRecords(records, types, name);
    }
    CountedGroupMatches(gs[j], records, types, r);
    forall i | 0 <= i < |result|
      ensures GroupMatches(result[i], records + [r], types)
    {
      if i != j {
        assert result[i] == groups[i];
        assert GroupMatches(groups[i], records, types);
        OtherGroupMatches(groups[i], records, types, r);
      }
    }
  }

  /** Counting a record adds one case and its `hours || 8` to the totals over all groups. */
  lemma AddTypeRecordSums(groups: seq<TypeGroup>, types: seq<AbsenceType>, r: AbsenceRecord)
    ensures Sum(AddTypeRecord(groups, types, r), GroupCount) == Sum(groups, GroupCount) + 1
    ensures Sum(AddTypeRecord(groups, types, r), GroupHours) == Sum(groups, GroupHours) + HoursOrEight(r)
  {
    var name := TypeName(types, r);
    var k := TypeIndex(groups, name);
    var empty := TypeGroup(name, 0, 0, {});
    var gs := if k < 0 then groups + [empty] else groups;
    var j := if k < 0 then |groups| else k;
    var result := AddTypeRecord(groups, types, r);
    if k < 0 {
      SumAppend(groups, [empty], GroupCount);
      SumAppend(groups, [empty], GroupHours);
      SumSingleton(empty, GroupCount);
      SumSingleton(empty, GroupHours);
    }
    SumUpdate(gs, j, result[j], GroupCount);
    SumUpdate(gs, j, result[j], GroupHours);
  }

  /** One step of the `forEach` keeps the groups exact and the totals in step with the records. */
  lemma AddTypeRecordStep(groups: seq<TypeGroup>, records: seq<AbsenceRecord>, types: seq<AbsenceType>, r: AbsenceRecord)
    requires GroupsByType(groups, records, types)
    ensures GroupsByType(AddTypeRecord(groups, types, r), records + [r], types)
    ensures Sum(AddTypeRecord(groups, types, r), GroupCount) == Sum(groups, GroupCount) + 1
    ensures Sum(AddTypeRecord(groups, types, r), GroupHours) == Sum(groups, GroupHours) + HoursOrEight(r)
  {
    AddTypeRecordNames(groups, records, types, r);
    AddTypeRecordMatches(groups, records, types, r);
    AddTypeRecordSums(groups, types, r);
  }

  lemma {:induction false} TypeNamesMember(records: seq<AbsenceRecord>, types: seq<AbsenceType>, k: nat)
    requires k < |records|
    ensures TypeName(types, records[k]) in TypeNames(records, types)
  {
    if k < |records| - 1 {
      TypeNamesMember(records[..|records| - 1], types, k);
    }
  }

  /** Distinct names: as many names as groups. */
  lemma {:induction false} DistinctNamesCount(groups: seq<TypeGroup>)
    requires DistinctNames(groups)
    ensures |GroupNames(groups)| == |groups|
  {
    if groups != [] {
      var m := |groups| - 1;
      DistinctNamesCount(groups[..m]);
      GroupNamesIndex(groups[..m], groups[m].name);
    }
  }

  datatype TypeRow = TypeRow(
    absenceType: string, totalCases: nat, totalHours: nat, uniqueEmployees: nat, averageHours: string)

  function TypeCases(r: TypeRow): nat { r.totalCases }
  function TypeRowHours(r: TypeRow): nat { r.totalHours }

  function TypeRowOf(g: TypeGroup, fmt: NumberFormat): TypeRow
  {
    TypeRow(g.name, g.count, g.totalHours, |g.employees|, Average(fmt, g.totalHours, g.count))
  }

  /** `Object.entries(typeSummary).map(...)`. */
  function TypeRows(groups: seq<TypeGroup>, fmt: NumberFormat): seq<TypeRow>
  {
    seq(|groups|, i requires 0 <= i < |groups| => TypeRowOf(groups[i], fmt))
  }

  lemma {:induction false} TypeRowsTotals(groups: seq<TypeGroup>, fmt: NumberFormat)
    ensures Sum(TypeRows(groups, fmt), TypeCases) == Sum(groups, GroupCount)
    ensures Sum(TypeRows(groups, fmt), TypeRowHours) == Sum(groups, GroupHours)
  {
    if groups != [] {
      var n := |groups|;
      assert TypeRows(groups, fmt)[..n - 1] == TypeRows(groups[..n - 1], fmt);
      TypeRowsTotals(groups[..n - 1], fmt);
    }
  }

  /** A row of the by-type report agrees with the records of its type. */
  predicate TypeRowMatches(row: TypeRow, records: seq<AbsenceRecord>, types: seq<AbsenceType>, fmt: NumberFormat)
  {
    var mine := TypeRecords(records, types, row.absenceType);
    row.totalCases == |mine| && row.totalHours == Sum(mine, HoursOrEight)
    && row.uniqueEmployees == |EmployeeIdsOf(mine)| && row.averageHours == Average(fmt, row.totalHours, row.totalCases)
  }

  /** The rows built from exact groups agree with the records, one per type name. */
  lemma TypeRowsCorrect(summary: seq<TypeGroup>, records: seq<AbsenceRecord>, types: seq<AbsenceType>, fmt: NumberFormat)
    requires GroupsByType(summary, records, types)
    ensures forall i :: 0 <= i < |TypeRows(summary, fmt)| ==>
              TypeRowMatches(TypeRows(summary, fmt)[i], records, types, fmt)
              && 1 <= TypeRows(summary, fmt)[i].uniqueEmployees <= TypeRows(summary, fmt)[i].totalCases
    ensures forall k :: 0 <= k < |records| ==>
              exists row :: row in TypeRows(summary, fmt) && row.absenceType == TypeName(types, records[k])
    ensures |TypeRows(summary, fmt)| == |TypeNames(records, types)|
  {
    var data := TypeRows(summary, fmt);
    DistinctNamesCount(summary);
    forall i | 0 <= i < |data|
      ensures TypeRowMatches(data[i], records, types, fmt)
      ensures 1 <= data[i].uniqueEmployees <= data[i].totalCases
    {
      assert GroupMatches(summary[i], records, types);
      EmployeeIdsBound(TypeRecords(records, types, summary[i].name));
    }
    forall k | 0 <= k < |records|
      ensures exists row :: row in data && row.absenceType == TypeName(types, records[k])
    {
      var n := TypeName(types, records[k]);
      TypeNamesMember(records, types, k);
      GroupNamesIndex(summary, n);
      assert data[TypeIndex(summary, n)] in data;
    }
  }

  /** The state of `typeSummary` after the records `records`: grouped by type, counts and hours complete. */
  predicate TypeState(summary: seq<TypeGroup>, records: seq<AbsenceRecord>, types: seq<AbsenceType>)
  {
    GroupsByType(summary, records, types)
    && Sum(summary, GroupCount) == |records|
    && Sum(summary, GroupHours) == Sum(records, HoursOrEight)
  }

  /** Counting one more record keeps the state exact. */
  lemma TypeStateStep(summary: seq<TypeGroup>, records: seq<AbsenceRecord>, types: seq<AbsenceType>, r: AbsenceRecord)
    requires TypeState(summary, records, types)
    ensures TypeState(AddTypeRecord(summary, types, r), records + [r], types)
  {
    AddTypeRecordStep(summary, records, types, r);
    assert (records + [r])[..|records|] == records;
  }

  /** One iteration of the `forEach`: create the type's entry if missing, then add the record to it. */
  method CountTypeRecord(summary: seq<TypeGroup>, types: seq<AbsenceType>, r: AbsenceRecord)
    returns (updated: seq<TypeGroup>)
    ensures updated == AddTypeRecord(summary, types, r)
  {
    var typeName := TypeName(types, r);
    var k := TypeIndex(summary, typeName);
    updated := summary;
    if k < 0 {
      updated := updated + [TypeGroup(typeName, 0, 0, {})];
      k := |updated| - 1;
    }
    updated := updated[k := updated[k].(count := updated[k].count + 1,
                                        totalHours := updated[k].totalHours + HoursOrEight(r),
                                        employees := updated[k].employees + {r.employeeId})];
  }

  /** The `forEach` over the records: builds `typeSummary`. */
  method CollectTypeGroups(records: seq<AbsenceRecord>, types: seq<AbsenceType>) returns (summary: seq<TypeGroup>)
    ensures GroupsByType(summary, records, types)
    ensures Sum(summary, GroupCount) == |records|
    ensures Sum(summary, GroupHours) == Sum(records, HoursOrEight)
  {
    summary := [];
    for i := 0 to |records|
      invariant TypeState(summary, records[..i], types)
    {
      assert records[..i + 1] == records[..i] + [records[i]];
      TypeStateStep(summary, records[..i], types, records[i]);
      summary := CountTypeRecord(summary, types, records[i]);
    }
    assert records[..|records|] == records;
  }

  /** What `generateAbsenceByTypeReport` promises of its rows: one exact row per type name, most cases first, totals kept. */
  predicate AbsenceByTypeOf(rows: seq<TypeRow>, records: seq<AbsenceRecord>, types: seq<AbsenceType>, fmt: NumberFormat)
  {
    SortedDesc(rows, TypeCases)
    && (forall i :: 0 <= i < |rows| ==>
            TypeRowMatches(rows[i], records, types, fmt) && 1 <= rows[i].uniqueEmployees <= rows[i].totalCases)
    && (forall k :: 0 <= k < |records| ==>
            exists row :: row in rows && row.absenceType == TypeName(types, records[k]))
    && |rows| == |TypeNames(records, types)|
    && Sum(rows, TypeCases) == |records|
    && Sum(rows, TypeRowHours) == Sum(records, HoursOrEight)
  }

  /**
   * The by-type report's rows, most cases first: one row per type name occurring in the records, each
   * with the number of records of that type, their `hours || 8` and their distinct employees; the
   * cases add up to the number of records and the hours to all records' hours.
   */
  method GenerateAbsenceByType(records: seq<AbsenceRecord>, types: seq<AbsenceType>, fmt: NumberFormat)
    returns (rows: seq<TypeRow>)
    ensures AbsenceByTypeOf(rows, records, types, fmt)
  {
    var summary := CollectTypeGroups(records, types);
    var data := TypeRows(summary, fmt);
    TypeRowsTotals(summary, fmt);
    TypeRowsCorrect(summary, records, types, fmt);
    rows := SortedByKeyDesc(data, TypeCases);
    assert |rows| == |multiset(rows)| == |multiset(data)| == |data|;
    SumPermutation(rows, data, TypeCases);
    SumPermutation(rows, data, TypeRowHours);
    forall i | 0 <= i < |rows|
      ensures TypeRowMatches(rows[i], records, types, fmt) && 1 <= rows[i].uniqueEmployees <= rows[i].totalCases
    {
      assert rows[i] in multiset(data);
    }
    assert forall row :: row in data ==> row in rows by {
      forall row | row in data ensures row in rows {
        assert row in multiset(data);
      }
    }
  }

  // ---------------------------------------------------------------------------------------------
  // Company overview (`generateCompanyOverviewReport`): all employees and all records, unfiltered
  // ---------------------------------------------------------------------------------------------

  /** The employee with id `id` is found and belongs to company `cid` (`employee?.company_id === company.id`). */
  predicate InCompany(employees: seq<Employee>, id: string, cid: string)
  {
    var e := FindEmployee(employees, id);
    e.Some? && e.value.companyId == cid
  }

  function CompanyEmployees(employees: seq<Employee>, cid: string): seq<Employee>
  {
    Filter(employees, (e: Employee) => e.companyId == cid)
  }

  function CompanyAbsences(employees: seq<Employee>, records: seq<AbsenceRecord>, cid: string): seq<AbsenceRecord>
  {
    Filter(records, (r: AbsenceRecord) => InCompany(employees, r.employeeId, cid))
  }

  datatype CompanyRow = CompanyRow(
    company: string, totalEmployees: nat, totalAbsences: nat, totalAbsenceHours: nat,
    employeesWithAbsence: nat, absenceRate: string)

  lemma {:induction false} EmployeeIdsMember(records: seq<AbsenceRecord>, id: string)
    requires id in EmployeeIdsOf(records)
    ensures exists k :: 0 <= k < |records| && records[k].employeeId == id
  {
    var m := |records| - 1;
    if records[m].employeeId != id {
      EmployeeIdsMember(records[..m], id);
      var k :| 0 <= k < m && records[..m][k].employeeId == id;
      assert records[k].employeeId == id;
    }
  }

  lemma {:induction false} IdsOfBound(employees: seq<Employee>)
    ensures |IdsOf(employees)| <= |employees|
  {
    if employees != [] {
      var m := |employees| - 1;
      IdsOfBound(employees[..m]);
      assert IdsOf(employees) == IdsOf(employees[..m]) + {employees[m].id} by {
        assert employees == employees[..m] + [employees[m]];
      }
    }
  }

  /** Everyone with an absence in a company is one of the company's employees. */
  lemma AbsentEmployeesInCompany(employees: seq<Employee>, records: seq<AbsenceRecord>, cid: string)
    ensures EmployeeIdsOf(CompanyAbsences(employees, records, cid)) <= IdsOf(CompanyEmployees(employees, cid))
  {
    var absences := CompanyAbsences(employees, records, cid);
    forall id | id in EmployeeIdsOf(absences)
      ensures id in IdsOf(CompanyEmployees(employees, cid))
    {
      EmployeeIdsMember(absences, id);
      var k :| 0 <= k < |absences| && absences[k].employeeId == id;
      assert InCompany(employees, id, cid);
      FindEmployeeIds(employees, id);
      var e := FindEmployee(employees, id).value;
      var i :| 0 <= i < |employees| && employees[i] == e;
      assert e in CompanyEmployees(employees, cid);
    }
  }

  function CompanyRowFor(c: Company, employees: seq<Employee>, records: seq<AbsenceRecord>, fmt: NumberFormat): CompanyRow
  {
    var companyEmployees := CompanyEmployees(employees, c.id);
    var companyAbsences := CompanyAbsences(employees, records, c.id);
    var unique := |EmployeeIdsOf(companyAbsences)|;
    CompanyRow(c.name, |companyEmployees|, |companyAbsences|, Sum(companyAbsences, HoursOrEight), unique,
               if |companyEmployees| > 0 then fmt.percent(unique, |companyEmployees|) + "%" else "0%")
  }

  /** A company's row counts no more absent employees than it has employees. */
  lemma CompanyAbsentBound(c: Company, employees: seq<Employee>, records: seq<AbsenceRecord>, fmt: NumberFormat)
    ensures CompanyRowFor(c, employees, records, fmt).employeesWithAbsence
            <= CompanyRowFor(c, employees, records, fmt).totalEmployees
  {
    var companyEmployees := CompanyEmployees(employees, c.id);
    AbsentEmployeesInCompany(employees, records, c.id);
    SubsetCard(EmployeeIdsOf(CompanyAbsences(employees, records, c.id)), IdsOf(companyEmployees));
    IdsOfBound(companyEmployees);
  }

  /**
   * A company's row counts no more absent employees than absences or than employees, and at least
   * one hour per absence; with no employees its rate is `0%`.
   */
  lemma CompanyRowBounds(c: Company, employees: seq<Employee>, records: seq<AbsenceRecord>, fmt: NumberFormat)
    ensures var row := CompanyRowFor(c, employees, records, fmt);
            row.employeesWithAbsence <= row.totalAbsences <= row.totalAbsenceHours
            && row.employeesWithAbsence <= row.totalEmployees
            && (row.totalEmployees == 0 ==> row.absenceRate == "0%")
  {
    var companyAbsences := CompanyAbsences(employees, records, c.id);
    EmployeeIdsBound(companyAbsences);
    SumAtLeast(companyAbsences, HoursOrEight, 1);
    CompanyAbsentBound(c, employees, records, fmt);
  }

  /** `companies.map(...)`: one row per company, in company order (the rate sort is not modelled). */
  function CompanyOverview(companies: seq<Company>, employees: seq<Employee>, records: seq<AbsenceRecord>,
                           fmt: NumberFormat): seq<CompanyRow>
  {
    seq(|companies|, i requires 0 <= i < |companies| => CompanyRowFor(companies[i], employees, records, fmt))
  }

  /** Every company gets one row, in company order, within the bounds of `CompanyRowBounds`. */
  lemma CompanyOverviewRows(companies: seq<Company>, employees: seq<Employee>, records: seq<AbsenceRecord>, fmt: NumberFormat)
    ensures |CompanyOverview(companies, employees, records, fmt)| == |companies|
    ensures forall i :: 0 <= i < |companies| ==>
              var row := CompanyOverview(companies, employees, records, fmt)[i];
              row.company == companies[i].name
              && row.employeesWithAbsence <= row.totalAbsences <= row.totalAbsenceHours
              && row.employeesWithAbsence <= row.totalEmployees
  {
    forall i | 0 <= i < |companies| {
      CompanyRowBounds(companies[i], employees, records, fmt);
    }
  }
}
