/**
 * The department summary (`generateDepartmentSummaryReport` in `app/dashboard/reports/page.tsx`):
 * a first `forEach` puts every listed employee's full name into the bucket of their department name,
 * a second adds every record of a listed employee to its employee's bucket, and the buckets become
 * rows sorted by hours, most first.
 */
module DepartmentReport {
  import opened Wrappers
  import opened Seqs
  import opened Sorting
  import opened ReportModel
  import opened ReportGenerators

  /** One entry of `departmentData`: its key, the names pushed into it, and its absence totals. */
  datatype DeptGroup = DeptGroup(name: string, members: seq<string>, totalAbsences: nat, totalHours: nat)

  function MemberCount(g: DeptGroup): nat { |g.members| }
  function GroupAbsences(g: DeptGroup): nat { g.totalAbsences }
  function GroupHours(g: DeptGroup): nat { g.totalHours }

  /** The bucket an employee belongs to: `getDepartmentName(employee.department_id)`. */
  function DeptOf(departments: seq<Department>, e: Employee): string
  {
    DepartmentName(departments, e.departmentId)
  }

  /** The reference for one bucket's names: the employees of department `name`, in list order. */
  function DeptMembers(employees: seq<Employee>, departments: seq<Department>, name: string): seq<string>
  {
    if employees == [] then []
    else
      var last := employees[|employees| - 1];
      DeptMembers(employees[..|employees| - 1], departments, name) + (if DeptOf(departments, last) == name then [FullName(last)] else [])
  }

  /** The department names of a list of employees. */
  function DeptNames(employees: seq<Employee>, departments: seq<Department>): set<string>
  {
    if employees == [] then {}
    else DeptNames(employees[..|employees| - 1], departments) + {DeptOf(departments, employees[|employees| - 1])}
  }

  /**
   * The reference for one bucket's totals: the records whose employee is found in the list and
   * belongs to department `name`, in order.
   */
  function DeptRecords(employees: seq<Employee>, records: seq<AbsenceRecord>, departments: seq<Department>, name: string)
    : seq<AbsenceRecord>
  {
    if records == [] then []
    else
      var last := records[|records| - 1];
      var e := FindEmployee(employees, last.employeeId);
      DeptRecords(employees, records[..|records| - 1], departments, name)
      + (if e.Some? && DeptOf(departments, e.value) == name then [last] else [])
  }

  /** The keys of `departmentData`. */
  function DeptKeys(groups: seq<DeptGroup>): set<string>
  {
    if groups == [] then {} else DeptKeys(groups[..|groups| - 1]) + {groups[|groups| - 1].name}
  }

  predicate DistinctDepts(groups: seq<DeptGroup>)
  {
    forall i, j :: 0 <= i < j < |groups| ==> groups[i].name != groups[j].name
  }

  /** `departmentData[name]`: the position of the bucket keyed `name`, or -1. */
  function DeptIndex(groups: seq<DeptGroup>, name: string): int
  {
    FindIndex(groups, (g: DeptGroup) => g.name == name)
  }

  lemma {:induction false} DeptKeysIndex(groups: seq<DeptGroup>, n: string)
    ensures n in DeptKeys(groups) <==> DeptIndex(groups, n) >= 0
  {
    if groups != [] {
      var m := |groups| - 1;
      DeptKeysIndex(groups[..m], n);
      if DeptIndex(groups[..m], n) >= 0 {
        assert groups[DeptIndex(groups[..m], n)].name == n;
      }
    }
  }

  lemma {:induction false} DeptKeysUpdate(groups: seq<DeptGroup>, j: nat, g: DeptGroup)
    requires j < |groups| && g.name == groups[j].name
    ensures DeptKeys(groups[j := g]) == DeptKeys(groups)
  {
    var m := |groups| - 1;
    if j < m {
      assert groups[j := g][..m] == groups[..m][j := g];
      DeptKeysUpdate(groups[..m], j, g);
    } else {
      assert groups[j := g][..m] == groups[..m];
    }
  }

  lemma {:induction false} DeptNamesMember(employees: seq<Employee>, departments: seq<Department>, k: nat)
    requires k < |employees|
    ensures DeptOf(departments, employees[k]) in DeptNames(employees, departments)
  {
    if k < |employees| - 1 {
      DeptNamesMember(employees[..|employees| - 1], departments, k);
    }
  }

  /** A department no employee belongs to has no names. */
  lemma {:induction false} MissingDeptHasNoMembers(employees: seq<Employee>, departments: seq<Department>, n: string)
    requires n !in DeptNames(employees, departments)
    ensures DeptMembers(employees, departments, n) == []
  {
    if employees != [] {
      MissingDeptHasNoMembers(employees[..|employees| - 1], departments, n);
    }
  }

  /** The bucket names are the `filter` of the employees by department, mapped to full names. */
  lemma {:induction false} DeptMembersIsFilter(employees: seq<Employee>, departments: seq<Department>, n: string)
    ensures |DeptMembers(employees, departments, n)|
            == |Filter(employees, (e: Employee) => DeptOf(departments, e) == n)|
    ensures forall i :: 0 <= i < |DeptMembers(employees, departments, n)| ==>
              DeptMembers(employees, departments, n)[i]
              == FullName(Filter(employees, (e: Employee) => DeptOf(departments, e) == n)[i])
  {
    var p := (e: Employee) => DeptOf(departments, e) == n;
    if employees != [] {
      var m := |employees| - 1;
      var pre, last := employees[..m], employees[m];
      assert pre + [last] == employees;
      DeptMembersIsFilter(pre, departments, n);
      FilterSnoc(pre, last, p);
      assert DeptMembers(employees, departments, n)
             == DeptMembers(pre, departments, n) + (if p(last) then [FullName(last)] else []);
    }
  }

  // ---------------------------------------------------------------------------------------------
  // First `forEach`: employees into buckets
  // ---------------------------------------------------------------------------------------------

  /** One step of the first `forEach`: create the bucket if missing, then push the employee's name. */
  function AddEmployee(groups: seq<DeptGroup>, departments: seq<Department>, e: Employee): seq<DeptGroup>
  {
    var name := DeptOf(departments, e);
    var k := DeptIndex(groups, name);
    var gs := if k < 0 then groups + [DeptGroup(name, [], 0, 0)] else groups;
    var j := if k < 0 then |groups| else k;
    gs[j := gs[j].(members := gs[j].members + [FullName(e)])]
  }

  /** A bucket after the first pass: exactly its employees' names and no absences yet. */
  predicate MemberMatches(g: DeptGroup, employees: seq<Employee>, departments: seq<Department>)
  {
    g.members == DeptMembers(employees, departments, g.name) && g.members != []
    && g.totalAbsences == 0 && g.totalHours == 0
  }

  /** `groups` has one bucket per department name of `employees`, each holding exactly its employees. */
  predicate MembersExact(groups: seq<DeptGroup>, employees: seq<Employee>, departments: seq<Department>)
  {
    DistinctDepts(groups)
    && (forall i {:trigger MemberMatches(groups[i], employees, departments)} :: 0 <= i < |groups| ==>
          MemberMatches(groups[i], employees, departments))
    && DeptKeys(groups) == DeptNames(employees, departments)
  }

  lemma AddEmployeeKeys(groups: seq<DeptGroup>, employees: seq<Employee>, departments: seq<Department>, e: Employee)
    requires DistinctDepts(groups) && DeptKeys(groups) == DeptNames(employees, departments)
    ensures DistinctDepts(AddEmployee(groups, departments, e))
    ensures DeptKeys(AddEmployee(groups, departments, e)) == DeptNames(employees + [e], departments)
  {
    var name := DeptOf(departments, e);
    var k := DeptIndex(groups, name);
    var gs := if k < 0 then groups + [DeptGroup(name, [], 0, 0)] else groups;
    var j := if k < 0 then |groups| else k;
    var result := AddEmployee(groups, departments, e);
    assert gs[j].name == name;
    assert forall i :: 0 <= i < |result| ==> result[i].name == gs[i].name;
    assert (employees + [e])[..|employees|] == employees;
    DeptKeysIndex(groups, name);
    if k < 0 {
      assert gs[..|groups|] == groups;
    }
    DeptKeysUpdate(gs, j, result[j]);
  }

  lemma MembersSnoc(employees: seq<Employee>, departments: seq<Department>, e: Employee, n: string)
    ensures DeptMembers(employees + [e], departments, n)
            == DeptMembers(employees, departments, n) + (if DeptOf(departments, e) == n then [FullName(e)] else [])
  {
    assert (employees + [e])[..|employees|] == employees;
  }

  lemma AddEmployeeMatches(groups: seq<DeptGroup>, employees: seq<Employee>, departments: seq<Department>, e: Employee)
    requires MembersExact(groups, employees, departments)
    ensures forall i :: 0 <= i < |AddEmployee(groups, departments, e)| ==>
              MemberMatches(AddEmployee(groups, departments, e)[i], employees + [e], departments)
  {
    var name := DeptOf(departments, e);
    var k := DeptIndex(groups, name);
    var gs := if k < 0 then groups + [DeptGroup(name, [], 0, 0)] else groups;
    var j := if k < 0 then |groups| else k;
    var result := AddEmployee(groups, departments, e);
    if k < 0 {
      DeptKeysIndex(groups, name);
      MissingDeptHasNoMembers(employees, departments, name);
    } else {
      assert MemberMatches(groups[k], employees, departments);
    }
    MembersSnoc(employees, departments, e, name);
    forall i | 0 <= i < |result|
      ensures MemberMatches(result[i], employees + [e], departments)
    {
      if i != j {
        assert result[i] == groups[i];
        assert MemberMatches(groups[i], employees, departments);
        MembersSnoc(employees, departments, e, groups[i].name);
      }
    }
  }

  lemma AddEmployeeCount(groups: seq<DeptGroup>, departments: seq<Department>, e: Employee)
    ensures Sum(AddEmployee(groups, departments, e), MemberCount) == Sum(groups, MemberCount) + 1
  {
    var name := DeptOf(departments, e);
    var k := DeptIndex(groups, name);
    var empty := DeptGroup(name, [], 0, 0);
    var gs := if k < 0 then groups + [empty] else groups;
    var j := if k < 0 then |groups| else k;
    if k < 0 {
      SumAppend(groups, [empty], MemberCount);
      SumSingleton(empty, MemberCount);
    }
    SumUpdate(gs, j, AddEmployee(groups, departments, e)[j], MemberCount);
  }

  /** `departmentData` after the first `forEach` has pushed `employees`, one at a time. */
  function MemberGroups(employees: seq<Employee>, departments: seq<Department>): seq<DeptGroup>
  {
    if employees == [] then []
    else AddEmployee(MemberGroups(employees[..|employees| - 1], departments), departments, employees[|employees| - 1])
  }

  /** The buckets the first `forEach` builds name exactly the listed employees, each under their department. */
  lemma {:induction false} MemberGroupsExact(employees: seq<Employee>, departments: seq<Department>)
    ensures MembersExact(MemberGroups(employees, departments), employees, departments)
    ensures Sum(MemberGroups(employees, departments), MemberCount) == |employees|
  {
    if employees != [] {
      var m := |employees| - 1;
      var pre, e := employees[..m], employees[m];
      var prev := MemberGroups(pre, departments);
      assert pre + [e] == employees;
      MemberGroupsExact(pre, departments);
      AddEmployeeKeys(prev, pre, departments, e);
      AddEmployeeMatches(prev, pre, departments, e);
      AddEmployeeCount(prev, departments, e);
    }
  }

  /** The body of the first `forEach`: creates the employee's bucket if missing and pushes their name. */
  method AddMember(departmentData: seq<DeptGroup>, departments: seq<Department>, e: Employee)
    returns (updated: seq<DeptGroup>)
    ensures updated == AddEmployee(departmentData, departments, e)
  {
    updated := departmentData;
    var deptName := DeptOf(departments, e);
    var k := DeptIndex(updated, deptName);
    if k < 0 {
      updated := updated + [DeptGroup(deptName, [], 0, 0)];
      k := |updated| - 1;
    }
    updated := updated[k := updated[k].(members := updated[k].members + [FullName(e)])];
  }

  /** The first `forEach`: every listed employee is pushed into exactly the bucket of their department. */
  method CollectMembers(employees: seq<Employee>, departments: seq<Department>) returns (groups: seq<DeptGroup>)
    ensures MembersExact(groups, employees, departments)
    ensures Sum(groups, MemberCount) == |employees|
  {
    groups := [];
    for i := 0 to |employees|
      invariant groups == MemberGroups(employees[..i], departments)
    {
      assert employees[..i + 1][..i] == employees[..i];
      groups := AddMember(groups, departments, employees[i]);
    }
    assert employees[..|employees|] == employees;
    MemberGroupsExact(employees, departments);
  }

  // ---------------------------------------------------------------------------------------------
  // Second `forEach`: records into their employee's bucket
  // ---------------------------------------------------------------------------------------------

  /**
   * One step of the second `forEach`: a record of a listed employee adds one absence and its
   * `hours || 8` to that employee's bucket; the `if (departmentData[deptName])` guard is kept.
   */
  function AddDeptRecord(groups: seq<DeptGroup>, employees: seq<Employee>, departments: seq<Department>,
                         r: AbsenceRecord): seq<DeptGroup>
  {
    var e := FindEmployee(employees, r.employeeId);
    if e.None? then groups
    else
      var k := DeptIndex(groups, DeptOf(departments, e.value));
      if k < 0 then groups
      else groups[k := groups[k].(totalAbsences := groups[k].totalAbsences + 1,
                                  totalHours := groups[k].totalHours + HoursOrEight(r))]
  }

  /** A bucket's totals are those of exactly its department's records. */
  predicate RecordsCounted(g: DeptGroup, employees: seq<Employee>, records: seq<AbsenceRecord>, departments: seq<Department>)
  {
    var mine := DeptRecords(employees, records, departments, g.name);
    g.totalAbsences == |mine| && g.totalHours == Sum(mine, HoursOrEight)
  }

  /** Every bucket of `groups` has its names from `base` and its totals from `records`. */
  predicate CountedFrom(groups: seq<DeptGroup>, base: seq<DeptGroup>, employees: seq<Employee>,
                        records: seq<AbsenceRecord>, departments: seq<Department>)
  {
    |groups| == |base|
    && (forall i :: 0 <= i < |groups| ==> groups[i].name == base[i].name && groups[i].members == base[i].members)
    && (forall i {:trigger RecordsCounted(groups[i], employees, records, departments)} :: 0 <= i < |groups| ==>
          RecordsCounted(groups[i], employees, records, departments))
  }

  lemma DeptRecordsSnoc(employees: seq<Employee>, records: seq<AbsenceRecord>, departments: seq<Department>,
                        r: AbsenceRecord, n: string)
    ensures var e := FindEmployee(employees, r.employeeId);
            DeptRecords(employees, records + [r], departments, n)
            == DeptRecords(employees, records, departments, n)
               + (if e.Some? && DeptOf(departments, e.value) == n then [r] else [])
  {
    assert (records + [r])[..|records|] == records;
  }

  /** Every listed employee's bucket exists once the first pass is done, so the guard never fails. */
  lemma GuardHolds(groups: seq<DeptGroup>, employees: seq<Employee>, departments: seq<Department>, id: string)
    requires DeptKeys(groups) == DeptNames(employees, departments)
    requires FindEmployee(employees, id).Some?
    ensures DeptIndex(groups, DeptOf(departments, FindEmployee(employees, id).value)) >= 0
  {
    var e := FindEmployee(employees, id).value;
    var k := FindIndex(employees, (x: Employee) => x.id == id);
    assert employees[k] == e;
    DeptNamesMember(employees, departments, k);
    DeptKeysIndex(groups, DeptOf(departments, e));
  }

  lemma AddDeptRecordCounted(groups: seq<DeptGroup>, base: seq<DeptGroup>, employees: seq<Employee>,
                             records: seq<AbsenceRecord>, departments: seq<Department>, r: AbsenceRecord)
    requires CountedFrom(groups, base, employees, records, departments)
    requires DistinctDepts(groups)
    ensures CountedFrom(AddDeptRecord(groups, employees, departments, r), base, employees, records + [r], departments)
  {
    var result := AddDeptRecord(groups, employees, departments, r);
    var e := FindEmployee(employees, r.employeeId);
    var k := if e.Some? then DeptIndex(groups, DeptOf(departments, e.value)) else -1;
    forall i | 0 <= i < |result|
      ensures RecordsCounted(result[i], employees, records + [r], departments)
    {
      var n := groups[i].name;
      assert RecordsCounted(groups[i], employees, records, departments);
      var mine := DeptRecords(employees, records, departments, n);
      DeptRecordsSnoc(employees, records, departments, r, n);
      if i == k {
        SumAppend(mine, [r], HoursOrEight);
        SumSingleton(r, HoursOrEight);
      } else {
        assert result[i] == groups[i];
        assert !(e.Some? && DeptOf(departments, e.value) == n);
        assert DeptRecords(employees, records + [r], departments, n) == mine;
      }
    }
  }

  lemma AddDeptRecordSums(groups: seq<DeptGroup>, employees: seq<Employee>, departments: seq<Department>,
                          r: AbsenceRecord)
    requires DeptKeys(groups) == DeptNames(employees, departments)
    ensures var listed := r.employeeId in IdsOf(employees);
            Sum(AddDeptRecord(groups, employees, departments, r), GroupAbsences)
              == Sum(groups, GroupAbsences) + (if listed then 1 else 0)
            && Sum(AddDeptRecord(groups, employees, departments, r), GroupHours)
              == Sum(groups, GroupHours) + (if listed then HoursOrEight(r) else 0)
  {
    FindEmployeeIds(employees, r.employeeId);
    var e := FindEmployee(employees, r.employeeId);
    if e.Some? {
      GuardHolds(groups, employees, departments, r.employeeId);
      var k := DeptIndex(groups, DeptOf(departments, e.value));
      var result := AddDeptRecord(groups, employees, departments, r);
      SumUpdate(groups, k, result[k], GroupAbsences);
      SumUpdate(groups, k, result[k], GroupHours);
    }
  }

  /**
   * The state of the second `forEach` after `records`: the buckets of the first pass, each exact for
   * its department's records, with totals that follow the records of listed employees.
   */
  predicate CountState(groups: seq<DeptGroup>, base: seq<DeptGroup>, employees: seq<Employee>,
                       records: seq<AbsenceRecord>, departments: seq<Department>)
  {
    CountedFrom(groups, base, employees, records, departments)
    && DistinctDepts(groups) && DeptKeys(groups) == DeptNames(employees, departments)
    && Sum(groups, GroupAbsences) == |ListedRecords(records, IdsOf(employees))|
    && Sum(groups, GroupHours) == Sum(ListedRecords(records, IdsOf(employees)), HoursOrEight)
  }

  /** One step of the second `forEach` keeps every bucket exact and the totals in step with the listed records. */
  lemma AddDeptRecordStep(groups: seq<DeptGroup>, base: seq<DeptGroup>, employees: seq<Employee>,
                          records: seq<AbsenceRecord>, departments: seq<Department>, r: AbsenceRecord)
    requires CountState(groups, base, employees, records, departments)
    ensures CountState(AddDeptRecord(groups, employees, departments, r), base, employees, records + [r], departments)
  {
    AddDeptRecordCounted(groups, base, employees, records, departments, r);
    AddDeptRecordListed(groups, employees, records, departments, r);
    SameKeys(AddDeptRecord(groups, employees, departments, r), groups);
  }

  /** The totals over all buckets follow the records of listed employees, one record more. */
  lemma AddDeptRecordListed(groups: seq<DeptGroup>, employees: seq<Employee>, records: seq<AbsenceRecord>,
                            departments: seq<Department>, r: AbsenceRecord)
    requires DeptKeys(groups) == DeptNames(employees, departments)
    requires Sum(groups, GroupAbsences) == |ListedRecords(records, IdsOf(employees))|
    requires Sum(groups, GroupHours) == Sum(ListedRecords(records, IdsOf(employees)), HoursOrEight)
    ensures var next := AddDeptRecord(groups, employees, departments, r);
            Sum(next, GroupAbsences) == |ListedRecords(records + [r], IdsOf(employees))|
            && Sum(next, GroupHours) == Sum(ListedRecords(records + [r], IdsOf(employees)), HoursOrEight)
  {
    AddDeptRecordSums(groups, employees, departments, r);
    FilterSnoc(records, r, (x: AbsenceRecord) => x.employeeId in IdsOf(employees));
    var listed := ListedRecords(records, IdsOf(employees));
    if r.employeeId in IdsOf(employees) {
      assert ListedRecords(records + [r], IdsOf(employees)) == listed + [r];
      SumAppend(listed, [r], HoursOrEight);
      SumSingleton(r, HoursOrEight);
    } else {
      assert ListedRecords(records + [r], IdsOf(employees)) == listed;
    }
  }

  /** The body of the second `forEach` for one record. */
  method CountDeptRecord(groups: seq<DeptGroup>, employees: seq<Employee>, departments: seq<Department>,
                         r: AbsenceRecord) returns (updated: seq<DeptGroup>)
    ensures updated == AddDeptRecord(groups, employees, departments, r)
  {
    updated := groups;
    var employee := FindEmployee(employees, r.employeeId);
    if employee.Some? {
      var k := DeptIndex(groups, DeptOf(departments, employee.value));
      if k >= 0 {
        updated := groups[k := groups[k].(totalAbsences := groups[k].totalAbsences + 1,
                                          totalHours := groups[k].totalHours + HoursOrEight(r))];
      }
    }
  }

  /** The buckets after the second `forEach` has run over `records`, starting from `base`. */
  function CountAll(base: seq<DeptGroup>, employees: seq<Employee>, records: seq<AbsenceRecord>,
                    departments: seq<Department>): seq<DeptGroup>
  {
    if records == [] then base
    else
      var m := |records| - 1;
      AddDeptRecord(CountAll(base, employees, records[..m], departments), employees, departments, records[m])
  }

  /** Counting every record from the first pass's buckets leaves every bucket exact and the totals complete. */
  lemma {:induction false} CountAllState(base: seq<DeptGroup>, employees: seq<Employee>, records: seq<AbsenceRecord>,
                                         departments: seq<Department>)
    requires MembersExact(base, employees, departments)
    ensures CountState(CountAll(base, employees, records, departments), base, employees, records, departments)
  {
    if records == [] {
      BaseCounted(base, employees, departments);
    } else {
      var m := |records| - 1;
      var pre, last := records[..m], records[m];
      var prev := CountAll(base, employees, pre, departments);
      assert pre + [last] == records;
      assert CountAll(base, employees, records, departments) == AddDeptRecord(prev, employees, departments, last);
      CountAllState(base, employees, pre, departments);
      AddDeptRecordStep(prev, base, employees, pre, departments, last);
    }
  }

  /** The second `forEach`: every record of a listed employee is counted in its employee's bucket. */
  method CountRecords(base: seq<DeptGroup>, employees: seq<Employee>, records: seq<AbsenceRecord>,
                      departments: seq<Department>) returns (groups: seq<DeptGroup>)
    requires MembersExact(base, employees, departments)
    ensures CountState(groups, base, employees, records, departments)
  {
    groups := base;
    for i := 0 to |records|
      invariant groups == CountAll(base, employees, records[..i], departments)
    {
      assert records[..i + 1][..i] == records[..i];
      groups := CountDeptRecord(groups, employees, departments, records[i]);
    }
    assert records[..|records|] == records;
    CountAllState(base, employees, records, departments);
  }

  /** After the first pass every bucket is exact for no records, and the totals are zero. */
  lemma BaseCounted(base: seq<DeptGroup>, employees: seq<Employee>, departments: seq<Department>)
    requires MembersExact(base, employees, departments)
    ensures CountState(base, base, employees, [], departments)
  {
    forall i | 0 <= i < |base|
      ensures base[i].totalAbsences == 0 && base[i].totalHours == 0
    {
      assert MemberMatches(base[i], employees, departments);
    }
    ZeroSums(base);
    assert ListedRecords([], IdsOf(employees)) == [];
  }

  /** Buckets with no absences add up to nothing. */
  lemma {:induction false} ZeroSums(groups: seq<DeptGroup>)
    requires forall i :: 0 <= i < |groups| ==> groups[i].totalAbsences == 0 && groups[i].totalHours == 0
    ensures Sum(groups, GroupAbsences) == 0 && Sum(groups, GroupHours) == 0
  {
    if groups != [] {
      ZeroSums(groups[..|groups| - 1]);
    }
  }

  /** Two bucket lists with the same names position by position have the same keys, equally distinct. */
  lemma {:induction false} SameKeys(a: seq<DeptGroup>, b: seq<DeptGroup>)
    requires |a| == |b| && forall i :: 0 <= i < |a| ==> a[i].name == b[i].name
    ensures DeptKeys(a) == DeptKeys(b)
    ensures DistinctDepts(a) <==> DistinctDepts(b)
  {
    if a != [] {
      SameKeys(a[..|a| - 1], b[..|b| - 1]);
    }
  }

  // ---------------------------------------------------------------------------------------------
  // Rows
  // ---------------------------------------------------------------------------------------------

  datatype DeptRow = DeptRow(
    department: string, totalEmployees: nat, totalAbsences: nat, totalHours: nat, averagePerEmployee: string)

  function RowEmployees(r: DeptRow): nat { r.totalEmployees }
  function RowAbsences(r: DeptRow): nat { r.totalAbsences }
  function RowHours(r: DeptRow): nat { r.totalHours }

  function DeptRowOf(g: DeptGroup, fmt: NumberFormat): DeptRow
  {
    DeptRow(g.name, |g.members|, g.totalAbsences, g.totalHours, Average(fmt, g.totalHours, |g.members|))
  }

  /** `Object.entries(departmentData).map(...)`. */
  function DeptRows(groups: seq<DeptGroup>, fmt: NumberFormat): seq<DeptRow>
  {
    seq(|groups|, i requires 0 <= i < |groups| => DeptRowOf(groups[i], fmt))
  }

  lemma {:induction false} DeptRowsTotals(groups: seq<DeptGroup>, fmt: NumberFormat)
    ensures Sum(DeptRows(groups, fmt), RowEmployees) == Sum(groups, MemberCount)
    ensures Sum(DeptRows(groups, fmt), RowAbsences) == Sum(groups, GroupAbsences)
    ensures Sum(DeptRows(groups, fmt), RowHours) == Sum(groups, GroupHours)
  {
    if groups != [] {
      var n := |groups|;
      assert DeptRows(groups, fmt)[..n - 1] == DeptRows(groups[..n - 1], fmt);
      DeptRowsTotals(groups[..n - 1], fmt);
    }
  }

  /** A row of the department summary agrees with its department's employees and records. */
  predicate DeptRowMatches(row: DeptRow, employees: seq<Employee>, records: seq<AbsenceRecord>,
                           departments: seq<Department>, fmt: NumberFormat)
  {
    var mine := DeptRecords(employees, records, departments, row.department);
    row.totalEmployees == |DeptMembers(employees, departments, row.department)| && row.totalEmployees >= 1
    && row.totalAbsences == |mine| && row.totalHours == Sum(mine, HoursOrEight)
    && row.averagePerEmployee == Average(fmt, row.totalHours, row.totalEmployees)
  }

  /** Distinct keys: as many keys as buckets. */
  lemma {:induction false} DistinctDeptsCount(groups: seq<DeptGroup>)
    requires DistinctDepts(groups)
    ensures |DeptKeys(groups)| == |groups|
  {
    if groups != [] {
      var m := |groups| - 1;
      DistinctDeptsCount(groups[..m]);
      DeptKeysIndex(groups[..m], groups[m].name);
    }
  }

  lemma DeptRowsCorrect(groups: seq<DeptGroup>, base: seq<DeptGroup>, employees: seq<Employee>,
                        records: seq<AbsenceRecord>, departments: seq<Department>, fmt: NumberFormat)
    requires MembersExact(base, employees, departments)
    requires CountedFrom(groups, base, employees, records, departments)
    ensures forall i :: 0 <= i < |DeptRows(groups, fmt)| ==>
              DeptRowMatches(DeptRows(groups, fmt)[i], employees, records, departments, fmt)
    ensures forall k :: 0 <= k < |employees| ==>
              exists row :: row in DeptRows(groups, fmt) && row.department == DeptOf(departments, employees[k])
    ensures |DeptRows(groups, fmt)| == |DeptNames(employees, departments)|
  {
    var data := DeptRows(groups, fmt);
    SameKeys(groups, base);
    DistinctDeptsCount(groups);
    forall i | 0 <= i < |data|
      ensures DeptRowMatches(data[i], employees, records, departments, fmt)
    {
      assert MemberMatches(base[i], employees, departments);
      assert RecordsCounted(groups[i], employees, records, departments);
    }
    forall k | 0 <= k < |employees|
      ensures exists row :: row in data && row.department == DeptOf(departments, employees[k])
    {
      var n := DeptOf(departments, employees[k]);
      DeptNamesMember(employees, departments, k);
      DeptKeysIndex(groups, n);
      assert data[DeptIndex(groups, n)] in data;
    }
  }

  /** What `generateDepartmentSummary` promises of its rows: one exact row per department, most hours first, totals kept. */
  predicate DepartmentSummaryOf(rows: seq<DeptRow>, employees: seq<Employee>, records: seq<AbsenceRecord>,
                               departments: seq<Department>, fmt: NumberFormat)
  {
    SortedDesc(rows, RowHours)
    && (forall i :: 0 <= i < |rows| ==> DeptRowMatches(rows[i], employees, records, departments, fmt))
    && (forall k :: 0 <= k < |employees| ==>
            exists row :: row in rows && row.department == DeptOf(departments, employees[k]))
    && |rows| == |DeptNames(employees, departments)|
    && Sum(rows, RowEmployees) == |employees|
    && Sum(rows, RowAbsences) == |ListedRecords(records, IdsOf(employees))|
    && Sum(rows, RowHours) == Sum(ListedRecords(records, IdsOf(employees)), HoursOrEight)
  }

  /**
   * The department summary's rows, most hours first: one row per department name of the listed
   * employees, each with its employees, the records of those employees and their `hours || 8`.
   * Every listed employee is counted once, and the absences and hours add up to those of the
   * records whose employee is listed.
   */
  method GenerateDepartmentSummary(employees: seq<Employee>, records: seq<AbsenceRecord>,
                                   departments: seq<Department>, fmt: NumberFormat) returns (rows: seq<DeptRow>)
    ensures DepartmentSummaryOf(rows, employees, records, departments, fmt)
  {
    var base := CollectMembers(employees, departments);
    var groups := CountRecords(base, employees, records, departments);
    var data := DeptRows(groups, fmt);
    DeptRowsTotals(groups, fmt);
    assert Sum(groups, MemberCount) == Sum(base, MemberCount) by {
      SameMemberCounts(groups, base);
    }
    DeptRowsCorrect(groups, base, employees, records, departments, fmt);
    rows := SortedByKeyDesc(data, RowHours);
    assert |rows| == |multiset(rows)| == |multiset(data)| == |data|;
    SumPermutation(rows, data, RowEmployees);
    SumPermutation(rows, data, RowAbsences);
    SumPermutation(rows, data, RowHours);
    forall i | 0 <= i < |rows|
      ensures DeptRowMatches(rows[i], employees, records, departments, fmt)
    {
      assert rows[i] in multiset(data);
    }
    assert forall row :: row in data ==> row in rows by {
      forall row | row in data ensures row in rows {
        assert row in multiset(data);
      }
    }
  }

  lemma {:induction false} SameMemberCounts(a: seq<DeptGroup>, b: seq<DeptGroup>)
    requires |a| == |b| && forall i :: 0 <= i < |a| ==> a[i].members == b[i].members
    ensures Sum(a, MemberCount) == Sum(b, MemberCount)
  {
    if a != [] {
      SameMemberCounts(a[..|a| - 1], b[..|b| - 1]);
    }
  }
}
