/**
 * The data the reports page works on (`app/dashboard/reports/page.tsx`): employees, absence records and
 * the lookup tables, the name lookups, and the record filter that every report starts from.
 *
 * Hours are natural numbers; `0` stands both for a stored 0 and for a missing value, because every
 * report reads hours through `hours || x`, which treats the two alike.
 */
module ReportModel {
  import opened Wrappers
  import opened Seqs
  import opened Dates

  datatype Employee = Employee(
    id: string, firstName: string, lastName: string, email: string,
    companyId: string, departmentId: Option<string>, userId: Option<string>)

  datatype AbsenceRecord = AbsenceRecord(
    id: string, employeeId: string, absenceTypeId: string, date: Day, hours: nat, status: string)

  datatype AbsenceType = AbsenceType(id: string, name: string, color: string)
  datatype Company = Company(id: string, name: string)
  datatype Department = Department(id: string, name: string)

  /** `record.hours || 0`, as the absence summary reads hours. */
  function HoursOrZero(r: AbsenceRecord): nat
  {
    r.hours
  }

  /** `record.hours || 8`: a missing or zero value counts as a full eight-hour day. */
  function HoursOrEight(r: AbsenceRecord): (h: nat)
    ensures h >= 1
    ensures r.hours > 0 ==> h == r.hours
    ensures r.hours == 0 ==> h == 8
  {
    if r.hours == 0 then 8 else r.hours
  }

  /** `employees.find(emp => emp.id === id)`. */
  function FindEmployee(employees: seq<Employee>, id: string): Option<Employee>
  {
    Find(employees, (e: Employee) => e.id == id)
  }

  /** `${first_name} ${last_name}`. */
  function FullName(e: Employee): string
  {
    e.firstName + " " + e.lastName
  }

  /** `getCompanyName`: the name of the first company with that id, `Nepoznato` when none (or the name is empty). */
  function CompanyName(companies: seq<Company>, id: string): (name: string)
    ensures name != ""
    ensures (forall i :: 0 <= i < |companies| ==> companies[i].id != id) ==> name == "Nepoznato"
    ensures forall i :: 0 <= i < |companies| && companies[i].id == id
                        && (forall j :: 0 <= j < i ==> companies[j].id != id) ==>
              name == (if companies[i].name != "" then companies[i].name else "Nepoznato")
  {
    var c := Find(companies, (c: Company) => c.id == id);
    if c.Some? && c.value.name != "" then c.value.name else "Nepoznato"
  }

  /** `getEmployeeName`. */
  function EmployeeName(employees: seq<Employee>, id: string): string
  {
    var e := FindEmployee(employees, id);
    if e.Some? then FullName(e.value) else "Nepoznato"
  }

  /** `getAbsenceTypeName`: unknown ids (and nameless types) all become `Nepoznato`. */
  function AbsenceTypeName(types: seq<AbsenceType>, id: string): (name: string)
    ensures name != ""
    ensures (forall i :: 0 <= i < |types| ==> types[i].id != id) ==> name == "Nepoznato"
    ensures forall i :: 0 <= i < |types| && types[i].id == id && (forall j :: 0 <= j < i ==> types[j].id != id) ==>
              name == (if types[i].name != "" then types[i].name else "Nepoznato")
  {
    var t := Find(types, (t: AbsenceType) => t.id == id);
    if t.Some? && t.value.name != "" then t.value.name else "Nepoznato"
  }

  /** `getDepartmentName`: `Nije postavljeno` for no department, `Nepoznato` for an unknown one. */
  function DepartmentName(departments: seq<Department>, id: Option<string>): (name: string)
    ensures name != ""
    ensures (id.None? || id.value == "") ==> name == "Nije postavljeno"
    ensures id.Some? && id.value != "" && (forall i :: 0 <= i < |departments| ==> departments[i].id != id.value)
            ==> name == "Nepoznato"
    ensures forall i :: 0 <= i < |departments| && id.Some? && id.value != "" && departments[i].id == id.value
                        && (forall j :: 0 <= j < i ==> departments[j].id != id.value) ==>
              name == (if departments[i].name != "" then departments[i].name else "Nepoznato")
  {
    if id.None? || id.value == "" then "Nije postavljeno"
    else
      var d := Find(departments, (d: Department) => d.id == id.value);
      if d.Some? && d.value.name != "" then d.value.name else "Nepoznato"
  }

  /** The ids of a list of employees. */
  function IdsOf(employees: seq<Employee>): set<string>
  {
    set e | e in employees :: e.id
  }

  /** No two employees share an id (the table's primary key). */
  predicate DistinctIds(employees: seq<Employee>)
  {
    forall i, j :: 0 <= i < j < |employees| ==> employees[i].id != employees[j].id
  }

  /** `find` by id succeeds exactly for the ids in the list. */
  lemma FindEmployeeIds(employees: seq<Employee>, id: string)
    ensures FindEmployee(employees, id).Some? <==> id in IdsOf(employees)
    ensures FindEmployee(employees, id).Some? ==>
              FindEmployee(employees, id).value in employees && FindEmployee(employees, id).value.id == id
  {
    if id in IdsOf(employees) {
      var e :| e in employees && e.id == id;
      var k :| 0 <= k < |employees| && employees[k] == e;
    }
  }

  /** The records that belong to the employee with id `id`. */
  function EmployeeRecords(records: seq<AbsenceRecord>, id: string): seq<AbsenceRecord>
  {
    Filter(records, (r: AbsenceRecord) => r.employeeId == id)
  }

  /** The records whose employee id is one of `ids`. */
  function ListedRecords(records: seq<AbsenceRecord>, ids: set<string>): seq<AbsenceRecord>
  {
    Filter(records, (r: AbsenceRecord) => r.employeeId in ids)
  }

  /** Adding one more id `x` to the listed ones adds exactly that employee's records, count and hours. */
  lemma {:induction false} ListedSplit(records: seq<AbsenceRecord>, ids: set<string>, x: string, f: AbsenceRecord -> nat)
    requires x !in ids
    ensures |ListedRecords(records, ids + {x})| == |ListedRecords(records, ids)| + |EmployeeRecords(records, x)|
    ensures Sum(ListedRecords(records, ids + {x}), f) == Sum(ListedRecords(records, ids), f) + Sum(EmployeeRecords(records, x), f)
  {
    ListedSplitCount(records, ids, x);
    ListedSplitSum(records, ids, x, f);
  }

  lemma {:induction false} ListedSplitCount(records: seq<AbsenceRecord>, ids: set<string>, x: string)
    requires x !in ids
    ensures |ListedRecords(records, ids + {x})| == |ListedRecords(records, ids)| + |EmployeeRecords(records, x)|
  {
    if records != [] {
      ListedSplitCount(records[1..], ids, x);
    }
  }

  lemma {:induction false} ListedSplitSum(records: seq<AbsenceRecord>, ids: set<string>, x: string, f: AbsenceRecord -> nat)
    requires x !in ids
    ensures Sum(ListedRecords(records, ids + {x}), f) == Sum(ListedRecords(records, ids), f) + Sum(EmployeeRecords(records, x), f)
  {
    if records != [] {
      var r := records[0];
      ListedSplitSum(records[1..], ids, x, f);
      var a, b, c := ListedRecords(records[1..], ids + {x}), ListedRecords(records[1..], ids), EmployeeRecords(records[1..], x);
      SumSingleton(r, f);
      if r.employeeId == x {
        assert ListedRecords(records, ids + {x}) == [r] + a;
        assert ListedRecords(records, ids) == b;
        assert EmployeeRecords(records, x) == [r] + c;
        SumAppend([r], a, f);
        SumAppend([r], c, f);
      } else if r.employeeId in ids {
        assert ListedRecords(records, ids + {x}) == [r] + a;
        assert ListedRecords(records, ids) == [r] + b;
        assert EmployeeRecords(records, x) == c;
        SumAppend([r], a, f);
        SumAppend([r], b, f);
      } else {
        assert ListedRecords(records, ids + {x}) == a;
        assert ListedRecords(records, ids) == b;
        assert EmployeeRecords(records, x) == c;
      }
    }
  }

  /** The inputs of `generateReport` that narrow the data. */
  datatype ReportFilter = ReportFilter(start: Day, end: Day, companyFilter: string, isAdmin: bool)

  /** `filteredEmployees`: narrowed to the filter company only for an admin with a filter set. */
  function ReportEmployees(employees: seq<Employee>, f: ReportFilter): (r: seq<Employee>)
    ensures !(f.isAdmin && f.companyFilter != "") ==> r == employees
    ensures f.isAdmin && f.companyFilter != "" ==>
              (forall i :: 0 <= i < |r| ==> r[i] in employees && r[i].companyId == f.companyFilter)
              && (forall i :: 0 <= i < |employees| && employees[i].companyId == f.companyFilter ==> employees[i] in r)
  {
    if f.isAdmin && f.companyFilter != "" then Filter(employees, (e: Employee) => e.companyId == f.companyFilter)
    else employees
  }

  /**
   * The test one record passes in `filteredAbsenceRecords`. The company is checked against the full
   * employee list; the status is not looked at.
   */
  predicate KeepRecord(employees: seq<Employee>, f: ReportFilter, r: AbsenceRecord)
  {
    (f.companyFilter == ""
     || (var e := FindEmployee(employees, r.employeeId); e.Some? && e.value.companyId == f.companyFilter))
    && DateLe(f.start, r.date) && DateLe(r.date, f.end)
  }

  function FilterRecords(employees: seq<Employee>, records: seq<AbsenceRecord>, f: ReportFilter): seq<AbsenceRecord>
  {
    Filter(records, (r: AbsenceRecord) => KeepRecord(employees, f, r))
  }

  /** The first employee with id `id` exists and belongs to company `c`. */
  predicate FirstEmployeeInCompany(employees: seq<Employee>, id: string, c: string)
  {
    exists k :: 0 <= k < |employees| && employees[k].id == id && employees[k].companyId == c
                && (forall j :: 0 <= j < k ==> employees[j].id != id)
  }

  /**
   * A record survives exactly when its date is within [start, end] and, if a company filter is set,
   * its employee exists and belongs to that company; the survivors keep their order, and the status
   * plays no part.
   */
  lemma FilterRecordsSpec(employees: seq<Employee>, records: seq<AbsenceRecord>, f: ReportFilter)
    ensures IsSubsequence(FilterRecords(employees, records, f), records)
    ensures forall r :: r in FilterRecords(employees, records, f) <==>
              r in records && DateLe(f.start, r.date) && DateLe(r.date, f.end)
              && (f.companyFilter == "" || FirstEmployeeInCompany(employees, r.employeeId, f.companyFilter))
    ensures forall r: AbsenceRecord, s: string :: KeepRecord(employees, f, r) == KeepRecord(employees, f, r.(status := s))
  {
    FilterIsSubsequence(records, (r: AbsenceRecord) => KeepRecord(employees, f, r));
  }
}
