/**
 * The employee list page (`app/dashboard/employees/page.tsx`): which employees the list shows for the
 * current user and filters, how the filters are reset, how choosing a company reloads its departments,
 * and the name lookups shown in each row.
 */
module Employees {
  import opened Wrappers
  import opened Seqs
  import opened Text

  /**
   * An `employees` row. `userId` is the `user_id` column (`None` for SQL null); `departmentId` is
   * `department_id` (`None` for null).
   */
  datatype Employee = Employee(
    id: string, firstName: string, lastName: string, email: string, workGroup: int,
    companyId: string, departmentId: Option<string>, userId: Option<string>)

  datatype Company = Company(id: string, name: string)
  datatype Department = Department(id: string, name: string, companyId: string, isActive: bool)
  datatype WorkGroup = WorkGroup(id: int, name: string)

  /** The list's filter inputs: the signed-in user's id (`currentUser?.id`) and the three filter fields. */
  datatype ListFilter = ListFilter(
    isAdmin: bool, currentUser: Option<string>, companyFilter: string, departmentFilter: string, searchTerm: string)

  /** The search: the lower-cased term occurs in the full name, the e-mail, the first or the last name, ignoring case. */
  predicate SearchHit(e: Employee, term: string)
  {
    var q := ToLower(term);
    Contains(ToLower(e.firstName + " " + e.lastName), q) || Contains(ToLower(e.email), q)
    || Contains(ToLower(e.firstName), q) || Contains(ToLower(e.lastName), q)
  }

  /** The `filteredEmployees` callback, with its early returns in order. */
  predicate Shown(e: Employee, f: ListFilter)
  {
    if !f.isAdmin && !(e.userId.Some? && e.userId == f.currentUser) then false
    else if f.companyFilter != "" && e.companyId != f.companyFilter then false
    else if f.departmentFilter != "" && e.departmentId != Some(f.departmentFilter) then false
    else if f.searchTerm != "" then SearchHit(e, f.searchTerm)
    else true
  }

  /** `filteredEmployees`. */
  function FilterEmployees(employees: seq<Employee>, f: ListFilter): seq<Employee>
  {
    Filter(employees, (e: Employee) => Shown(e, f))
  }

  /**
   * The early returns amount to four independent conditions: a non-admin sees only the employee linked
   * to their own account; a set company or department filter must match exactly; a non-empty term must
   * be found by the search.
   */
  lemma ShownIff(e: Employee, f: ListFilter)
    ensures Shown(e, f) <==>
              (f.isAdmin || (f.currentUser.Some? && e.userId == f.currentUser))
              && (f.companyFilter == "" || e.companyId == f.companyFilter)
              && (f.departmentFilter == "" || e.departmentId == Some(f.departmentFilter))
              && (f.searchTerm == "" || SearchHit(e, f.searchTerm))
  {
  }

  /**
   * The shown list keeps the order of `employees` and holds exactly the employees passing the filters;
   * with no filter set, an administrator sees everyone.
   */
  lemma FilterEmployeesSpec(employees: seq<Employee>, f: ListFilter)
    ensures IsSubsequence(FilterEmployees(employees, f), employees)
    ensures forall e :: e in FilterEmployees(employees, f) <==> e in employees && Shown(e, f)
    ensures f.isAdmin && f.companyFilter == "" && f.departmentFilter == "" && f.searchTerm == "" ==>
              FilterEmployees(employees, f) == employees
  {
    FilterIsSubsequence(employees, (e: Employee) => Shown(e, f));
    if f.isAdmin && f.companyFilter == "" && f.departmentFilter == "" && f.searchTerm == "" {
      FilterAll(employees, (e: Employee) => Shown(e, f));
    }
  }

  /** A non-admin without an account link sees nobody, and one with an account sees only employees linked to it. */
  lemma NonAdminSeesOwnProfile(employees: seq<Employee>, f: ListFilter)
    requires !f.isAdmin
    ensures f.currentUser.None? ==> FilterEmployees(employees, f) == []
    ensures forall e :: e in FilterEmployees(employees, f) ==> f.currentUser.Some? && e.userId == f.currentUser
  {
    if f.currentUser.None? {
      FilterNone(employees, (e: Employee) => Shown(e, f));
    }
  }

  /** `getCompanyName`: the company's name, or `Nepoznato` when it is unknown or its name is empty. */
  function CompanyName(companies: seq<Company>, id: string): (name: string)
    ensures name != ""
    ensures (forall i :: 0 <= i < |companies| ==> companies[i].id != id) ==> name == "Nepoznato"
    ensures forall i :: 0 <= i < |companies| && companies[i].id == id
                        && (forall j :: 0 <= j < i ==> companies[j].id != id) ==>
              name == (if companies[i].name != "" then companies[i].name else "Nepoznato")
  {
    var c := Find(companies, (c: Company) => c.id == id);
    if c.Some? && c.value.name != "" then c.value.name else "Nepoznato"
  }

  /** `getDepartmentName`: `Nije postavljeno` without a department, `Nepoznato` for an unknown one. */
  function DepartmentName(departments: seq<Department>, id: Option<string>): (name: string)
    ensures name != ""
  {
    if id.None? || id.value == "" then "Nije postavljeno"
    else
      var d := Find(departments, (d: Department) => d.id == id.value);
      if d.Some? && d.value.name != "" then d.value.name else "Nepoznato"
  }

  /** `getWorkGroupName`: the group's name, or `Grupa <id>` when the group is not loaded. */
  function WorkGroupName(groups: seq<WorkGroup>, id: int): string
  {
    var g := Find(groups, (g: WorkGroup) => g.id == id);
    if g.Some? then g.value.name else "Grupa " + IntToString(id)
  }

  /** The three outcomes of the department lookup. */
  lemma DepartmentNameCases(departments: seq<Department>, id: Option<string>)
    ensures id.None? ==> DepartmentName(departments, id) == "Nije postavljeno"
    ensures id.Some? && id.value != "" && (forall i :: 0 <= i < |departments| ==> departments[i].id != id.value) ==>
              DepartmentName(departments, id) == "Nepoznato"
    ensures forall i :: 0 <= i < |departments| && id.Some? && id.value != "" && departments[i].id == id.value
                        && departments[i].name != "" && (forall j :: 0 <= j < i ==> departments[j].id != id.value) ==>
              DepartmentName(departments, id) == departments[i].name
  {
    if id.Some? && id.value != "" {
      var p := (d: Department) => d.id == id.value;
      var k := FindIndex(departments, p);
      forall i | 0 <= i < |departments| && departments[i].id == id.value
                 && (forall j :: 0 <= j < i ==> departments[j].id != id.value)
        ensures k == i
      {
        assert p(departments[i]);
      }
    }
  }

  /** The work-group label names a loaded group, and otherwise carries the group's number. */
  lemma WorkGroupNameCases(groups: seq<WorkGroup>, id: int)
    ensures (exists i :: 0 <= i < |groups| && groups[i].id == id) ==>
              exists i :: 0 <= i < |groups| && groups[i].id == id && WorkGroupName(groups, id) == groups[i].name
    ensures (forall i :: 0 <= i < |groups| ==> groups[i].id != id) ==> WorkGroupName(groups, id) == "Grupa " + IntToString(id)
  {
  }

  /** The active departments of a company (`eq('company_id', c).eq('is_active', true)`). */
  function CompanyDepartments(table: seq<Department>, companyId: string): seq<Department>
  {
    Filter(table, (d: Department) => d.companyId == companyId && d.isActive)
  }

  /** The filter state of the page and the department list it shows. */
  class EmployeesPage {
    var employees: seq<Employee>
    var departments: seq<Department>
    var filter: ListFilter

    /** The employees shown. */
    function Shown(): seq<Employee>
      reads this
    {
      FilterEmployees(employees, filter)
    }

    constructor(rows: seq<Employee>, allDepartments: seq<Department>, isAdmin: bool, currentUser: Option<string>)
      ensures employees == rows && departments == allDepartments
      ensures filter == ListFilter(isAdmin, currentUser, "", "", "")
    {
      employees := rows;
      departments := allDepartments;
      filter := ListFilter(isAdmin, currentUser, "", "", "");
    }

    /**
     * Choosing a company, followed by the effect on `companyFilter`: a new non-empty company reloads
     * its active departments from `table` (the list stays as it was when the request fails); clearing
     * it empties the department list and the department filter. Choosing the same company again
     * changes nothing else.
     */
    method SetCompany(companyId: string, table: seq<Department>, requestFails: bool)
      modifies this
      ensures filter == old(filter).(companyFilter := companyId)
                        .(departmentFilter := if companyId == "" && companyId != old(filter.companyFilter) then "" else old(filter.departmentFilter))
      ensures departments == (if companyId == old(filter.companyFilter) then old(departments)
                              else if companyId == "" then []
                              else if requestFails then old(departments)
                              else CompanyDepartments(table, companyId))
      ensures employees == old(employees)
    {
      var changed := companyId != filter.companyFilter;
      filter := filter.(companyFilter := companyId);
      if changed {
        if companyId != "" {
          if !requestFails {
            departments := CompanyDepartments(table, companyId);
          }
        } else {
          departments := [];
          filter := filter.(departmentFilter := "");
        }
      }
    }

    /**
     * `resetFilters`, followed by the company effect when the company filter was set: all three filter
     * fields are empty, and a cleared company also empties the department list.
     */
    method ResetFilters()
      modifies this
      ensures filter == old(filter).(companyFilter := "", departmentFilter := "", searchTerm := "")
      ensures departments == (if old(filter.companyFilter) != "" then [] else old(departments))
      ensures employees == old(employees)
    {
      var hadCompany := filter.companyFilter != "";
      filter := filter.(companyFilter := "", departmentFilter := "", searchTerm := "");
      if hadCompany {
        departments := [];
      }
    }
  }

  /** After a reset an administrator sees every employee, and anybody sees exactly the employees linked to them. */
  lemma ResetShowsAccessible(employees: seq<Employee>, f: ListFilter)
    ensures var g := f.(companyFilter := "", departmentFilter := "", searchTerm := "");
            forall e :: e in FilterEmployees(employees, g) <==>
                          e in employees && (f.isAdmin || (f.currentUser.Some? && e.userId == f.currentUser))
  {
    var g := f.(companyFilter := "", departmentFilter := "", searchTerm := "");
    FilterEmployeesSpec(employees, g);
  }
}
