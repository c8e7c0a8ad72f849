/**
 * The absence calendar page (`app/dashboard/page.tsx`): clicking a cell looks up the absence for that
 * employee and day, choosing a type writes the absence table (delete for "no absence", otherwise an
 * upsert keyed by employee and date), and the employee list can be searched.
 *
 * The absence table is held in memory; after every write the page reloads it, so the page's
 * `absenceRecords` and the table are one field here.
 */
module Dashboard {
  import opened Wrappers
  import opened Seqs
  import opened Text
  import opened Dates
  import opened WorkGroups

  datatype Employee = Employee(id: string, firstName: string, lastName: string, email: string, workGroup: int)

  /** A row of `absence_records`, with the date as the `YYYY-MM-DD` text the table stores. */
  datatype TableRecord = TableRecord(
    id: string, employeeId: string, absenceTypeId: string, date: string, hours: nat, status: string)

  const SaveFailed := "Greška pri čuvanju odsustva"

  /** The record belongs to employee `e` on the day written `ds`. */
  predicate OnKey(r: TableRecord, e: string, ds: string)
  {
    r.employeeId == e && r.date == ds
  }

  /** The table's conflict key `employee_id,date` is unique. */
  predicate UniqueKeys(table: seq<TableRecord>)
  {
    forall i, j :: 0 <= i < j < |table| ==> !OnKey(table[j], table[i].employeeId, table[i].date)
  }

  /** The records of employee `e` on day `ds`. */
  function KeyRecords(table: seq<TableRecord>, e: string, ds: string): seq<TableRecord>
  {
    Filter(table, (r: TableRecord) => OnKey(r, e, ds))
  }

  /** The records of every other (employee, day). */
  function OtherRecords(table: seq<TableRecord>, e: string, ds: string): seq<TableRecord>
  {
    Filter(table, (r: TableRecord) => !OnKey(r, e, ds))
  }

  /**
   * The lookup in `handleDateClick`: the type of the first record of that employee on that day
   * (`existingRecord?.absence_type_id || null`).
   */
  function ExistingType(records: seq<TableRecord>, e: string, d: Day): Option<string>
  {
    var r := Find(records, (r: TableRecord) => OnKey(r, e, FormatDate(d)));
    if r.Some? && r.value.absenceTypeId != "" then Some(r.value.absenceTypeId) else None
  }

  /**
   * With unique keys, the lookup finds a type exactly when the table has a record for that employee
   * and day with a non-empty type, and then it is that record's type.
   */
  lemma ExistingTypeSpec(records: seq<TableRecord>, e: string, d: Day)
    requires UniqueKeys(records)
    ensures var mine := KeyRecords(records, e, FormatDate(d));
            |mine| <= 1
            && (ExistingType(records, e, d).Some? <==> mine != [] && mine[0].absenceTypeId != "")
            && (ExistingType(records, e, d).Some? ==> ExistingType(records, e, d).value == mine[0].absenceTypeId)
  {
    var ds := FormatDate(d);
    var p := (r: TableRecord) => OnKey(r, e, ds);
    var k := FindIndex(records, p);
    if k >= 0 {
      OnlyOneOnKey(records, k, e, ds);
      FilterSingle(records, k, p);
    } else {
      FilterNone(records, p);
    }
  }

  /** With unique keys, the first record of a key is the only one. */
  lemma OnlyOneOnKey(table: seq<TableRecord>, k: nat, e: string, ds: string)
    requires UniqueKeys(table)
    requires k < |table| && OnKey(table[k], e, ds)
    ensures forall j :: 0 <= j < |table| && j != k ==> !OnKey(table[j], e, ds)
  {
    forall j | 0 <= j < |table| && j != k
      ensures !OnKey(table[j], e, ds)
    {
      if j < k {
        assert !OnKey(table[k], table[j].employeeId, table[j].date);
      }
    }
  }

  /** `delete().eq('employee_id', e).eq('date', ds)`. */
  function DeleteKey(table: seq<TableRecord>, e: string, ds: string): seq<TableRecord>
  {
    OtherRecords(table, e, ds)
  }

  /**
   * `upsert({...}, { onConflict: 'employee_id,date' })`: the record of that employee and day takes
   * the new type, 8 hours and status `approved`; without one, a new record (id `newId`) is added.
   */
  function UpsertKey(table: seq<TableRecord>, e: string, ds: string, typeId: string, newId: string): seq<TableRecord>
  {
    var k := FindIndex(table, (r: TableRecord) => OnKey(r, e, ds));
    if k >= 0 then table[k := table[k].(absenceTypeId := typeId, hours := 8, status := "approved")]
    else table + [TableRecord(newId, e, typeId, ds, 8, "approved")]
  }

  /** Dropping records keeps the key unique. */
  lemma {:induction false} SubsequenceUnique(a: seq<TableRecord>, b: seq<TableRecord>)
    requires IsSubsequence(a, b) && UniqueKeys(b)
    ensures UniqueKeys(a)
    ensures forall i :: 0 <= i < |a| ==> a[i] in b
    decreases |b|
  {
    if a != [] && b != [] {
      assert UniqueKeys(b[1..]);
      if a[0] == b[0] {
        SubsequenceUnique(a[1..], b[1..]);
        assert forall i :: 1 <= i < |a| ==> a[i] == a[1..][i - 1] && a[i] in b[1..];
      } else {
        SubsequenceUnique(a, b[1..]);
      }
    }
  }

  /**
   * Deleting removes every record of that employee and day and keeps all other records, in order;
   * the key stays unique.
   */
  lemma DeleteKeySpec(table: seq<TableRecord>, e: string, ds: string)
    ensures KeyRecords(DeleteKey(table, e, ds), e, ds) == []
    ensures OtherRecords(DeleteKey(table, e, ds), e, ds) == OtherRecords(table, e, ds)
    ensures UniqueKeys(table) ==> UniqueKeys(DeleteKey(table, e, ds))
  {
    var rest := DeleteKey(table, e, ds);
    FilterAll(rest, (r: TableRecord) => !OnKey(r, e, ds));
    FilterNone(rest, (r: TableRecord) => OnKey(r, e, ds));
    if UniqueKeys(table) {
      FilterIsSubsequence(table, (r: TableRecord) => !OnKey(r, e, ds));
      SubsequenceUnique(rest, table);
    }
  }

  /**
   * After the upsert the table holds exactly one record of that employee and day, with the chosen
   * type, 8 hours and status `approved`; the records of every other employee and day are as before;
   * the key stays unique.
   */
  lemma UpsertKeySpec(table: seq<TableRecord>, e: string, ds: string, typeId: string, newId: string)
    requires UniqueKeys(table)
    ensures UniqueKeys(UpsertKey(table, e, ds, typeId, newId))
    ensures var mine := KeyRecords(UpsertKey(table, e, ds, typeId, newId), e, ds);
            |mine| == 1 && OnKey(mine[0], e, ds) && mine[0].absenceTypeId == typeId && mine[0].hours == 8
            && mine[0].status == "approved"
    ensures OtherRecords(UpsertKey(table, e, ds, typeId, newId), e, ds) == OtherRecords(table, e, ds)
  {
    var k := FindIndex(table, (r: TableRecord) => OnKey(r, e, ds));
    if k >= 0 {
      UpsertExisting(table, k, e, ds, typeId);
    } else {
      UpsertNew(table, e, ds, TableRecord(newId, e, typeId, ds, 8, "approved"));
    }
  }

  /** Rewriting the one record of a key in place. */
  lemma UpsertExisting(table: seq<TableRecord>, k: nat, e: string, ds: string, typeId: string)
    requires UniqueKeys(table)
    requires k < |table| && OnKey(table[k], e, ds)
    ensures var x := table[k].(absenceTypeId := typeId, hours := 8, status := "approved");
            UniqueKeys(table[k := x]) && KeyRecords(table[k := x], e, ds) == [x]
            && OtherRecords(table[k := x], e, ds) == OtherRecords(table, e, ds)
  {
    var x := table[k].(absenceTypeId := typeId, hours := 8, status := "approved");
    var result := table[k := x];
    FilterUpdateOut(table, k, x, (r: TableRecord) => !OnKey(r, e, ds));
    OnlyOneOnKey(table, k, e, ds);
    assert forall j :: 0 <= j < |result| ==> result[j].employeeId == table[j].employeeId && result[j].date == table[j].date;
    FilterSingle(result, k, (r: TableRecord) => OnKey(r, e, ds));
  }

  /** Appending a record for a key the table does not hold. */
  lemma UpsertNew(table: seq<TableRecord>, e: string, ds: string, x: TableRecord)
    requires UniqueKeys(table) && OnKey(x, e, ds)
    requires forall j :: 0 <= j < |table| ==> !OnKey(table[j], e, ds)
    ensures UniqueKeys(table + [x]) && KeyRecords(table + [x], e, ds) == [x]
    ensures OtherRecords(table + [x], e, ds) == OtherRecords(table, e, ds)
  {
    FilterSnoc(table, x, (r: TableRecord) => !OnKey(r, e, ds));
    FilterSnoc(table, x, (r: TableRecord) => OnKey(r, e, ds));
    FilterNone(table, (r: TableRecord) => OnKey(r, e, ds));
  }

  /** The employee search of the calendar page: name, e-mail or work-group name contains the term, ignoring case. */
  predicate SearchMatches(e: Employee, groups: seq<WorkGroup>, term: string)
  {
    var q := ToLower(term);
    var g := Find(groups, (g: WorkGroup) => g.id == e.workGroup);
    var groupName := if g.Some? then ToLower(g.value.name) else "";
    Contains(ToLower(e.firstName + " " + e.lastName), q) || Contains(ToLower(e.email), q) || Contains(groupName, q)
    || Contains(ToLower(e.firstName), q) || Contains(ToLower(e.lastName), q)
  }

  /** `filteredEmployees`. */
  function SearchEmployees(employees: seq<Employee>, groups: seq<WorkGroup>, term: string): seq<Employee>
  {
    Filter(employees, (e: Employee) => SearchMatches(e, groups, term))
  }

  /**
   * The search keeps the list's order, keeps exactly the matching employees, and keeps everyone when
   * the term is empty.
   */
  lemma SearchEmployeesSpec(employees: seq<Employee>, groups: seq<WorkGroup>, term: string)
    ensures IsSubsequence(SearchEmployees(employees, groups, term), employees)
    ensures forall e :: e in SearchEmployees(employees, groups, term) <==> e in employees && SearchMatches(e, groups, term)
    ensures term == "" ==> SearchEmployees(employees, groups, term) == employees
  {
    FilterIsSubsequence(employees, (e: Employee) => SearchMatches(e, groups, term));
    if term == "" {
      forall i | 0 <= i < |employees|
        ensures SearchMatches(employees[i], groups, term)
      {
        ContainsIff(ToLower(employees[i].email), ToLower(term));
      }
      FilterAll(employees, (e: Employee) => SearchMatches(e, groups, term));
    }
  }

  /** The calendar page's state. */
  class DashboardPage {
    var records: seq<TableRecord>
    var selectedEmployee: Option<string>
    var selectedDate: Option<Day>
    var existingType: Option<string>
    var isPopupOpen: bool
    var error: Option<string>

    predicate Valid()
      reads this
    {
      UniqueKeys(records)
    }

    /** The page after loading the table: nothing selected, the popup closed. */
    constructor(table: seq<TableRecord>)
      requires UniqueKeys(table)
      ensures Valid() && records == table
      ensures selectedEmployee.None? && selectedDate.None? && existingType.None? && !isPopupOpen && error.None?
    {
      records := table;
      selectedEmployee := None;
      selectedDate := None;
      existingType := None;
      isPopupOpen := false;
      error := None;
    }

    /** `handleDateClick`: selects the cell, looks up its current type and opens the popup. */
    method DateClick(employeeId: string, date: Day)
      modifies this
      ensures selectedEmployee == Some(employeeId) && selectedDate == Some(date)
      ensures existingType == ExistingType(records, employeeId, date)
      ensures isPopupOpen
      ensures records == old(records) && error == old(error)
    {
      selectedEmployee := Some(employeeId);
      selectedDate := Some(date);
      existingType := ExistingType(records, employeeId, date);
      isPopupOpen := true;
    }

    /**
     * `handleAbsenceSelect`: does nothing without a selected employee and day; otherwise deletes the
     * cell's records (`None`) or upserts the chosen type, reloads (which clears the page error), closes
     * the popup and clears the selection. A failed write only records the error message.
     */
    method SelectAbsence(typeId: Option<string>, newId: string, writeFails: bool)
      requires Valid()
      modifies this
      ensures Valid()
      ensures var noCell := old(selectedEmployee).None? || old(selectedEmployee).value == "" || old(selectedDate).None?;
              (noCell ==>
                 records == old(records) && selectedEmployee == old(selectedEmployee) && selectedDate == old(selectedDate)
                 && existingType == old(existingType) && isPopupOpen == old(isPopupOpen) && error == old(error))
              && (!noCell && writeFails ==>
                 records == old(records) && selectedEmployee == old(selectedEmployee) && selectedDate == old(selectedDate)
                 && existingType == old(existingType) && isPopupOpen == old(isPopupOpen) && error == Some(SaveFailed))
              && (!noCell && !writeFails ==>
                 records == (var e, ds := old(selectedEmployee).value, FormatDate(old(selectedDate).value);
                             if typeId.None? then DeleteKey(old(records), e, ds)
                             else UpsertKey(old(records), e, ds, typeId.value, newId))
                 && selectedEmployee.None? && selectedDate.None? && existingType.None? && !isPopupOpen
                 && error.None?)
    {
      if selectedEmployee.None? || selectedEmployee.value == "" || selectedDate.None? {
        return;
      }
      var e := selectedEmployee.value;
      var ds := FormatDate(selectedDate.value);
      if writeFails {
        error := Some(SaveFailed);
        return;
      }
      if typeId.None? {
        DeleteKeySpec(records, e, ds);
        records := DeleteKey(records, e, ds);
      } else {
        UpsertKeySpec(records, e, ds, typeId.value, newId);
        records := UpsertKey(records, e, ds, typeId.value, newId);
      }
      error := None;
      isPopupOpen := false;
      selectedEmployee := None;
      selectedDate := None;
      existingType := None;
    }

    /** The popup's `onClose`: closes it and clears the selection; the table is untouched. */
    method ClosePopup()
      modifies this
      ensures !isPopupOpen && selectedEmployee.None? && selectedDate.None? && existingType.None?
      ensures records == old(records) && error == old(error)
    {
      isPopupOpen := false;
      selectedEmployee := None;
      selectedDate := None;
      existingType := None;
    }
  }
}
