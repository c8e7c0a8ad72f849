/**
 * The reports page around the generators (`app/dashboard/reports/page.tsx`): `generateReport` narrows
 * the data and dispatches on the report kind; each report's rows become plain objects; `getCellValue`
 * reads a column of such an object; `exportToCSV` turns the current report into CSV text.
 */
module ReportsPage {
  import opened Wrappers
  import opened Text
  import opened Dates
  import opened ReportModel
  import opened ReportGenerators
  import opened MonthlyReport
  import opened DepartmentReport
  import opened Csv

  /** A field value of a row object: a string or a (natural) number. */
  datatype JsValue = Str(s: string) | Num(n: nat)

  /** A row object: its defined fields by name. */
  type JsObject = map<string, JsValue>

  /** `String(value)`. */
  function JsString(v: JsValue): string
  {
    match v
    case Str(s) => s
    case Num(n) => NatToString(n)
  }

  /** JavaScript truthiness: the empty string and 0 are false. */
  predicate Truthy(v: JsValue)
  {
    match v
    case Str(s) => s != ""
    case Num(n) => n != 0
  }

  /** `row[key] || ''`. */
  function OrEmpty(row: JsObject, key: string): string
  {
    if key in row && Truthy(row[key]) then JsString(row[key]) else ""
  }

  /** `row[key] !== undefined ? row[key] : ''`. */
  function DefinedOrEmpty(row: JsObject, key: string): string
  {
    if key in row then JsString(row[key]) else ""
  }

  /** `getCellValue` as written: the cases in source order, so the second `'Vrsta odsustva'` case is never reached. */
  function CellValue(row: JsObject, column: string): string
  {
    if column == "Zaposleni" then OrEmpty(row, "employee")
    else if column == "Služba" then OrEmpty(row, "department")
    else if column == "Ukupno sati" then DefinedOrEmpty(row, "totalHours")
    else if column == "Dana odsustva" then DefinedOrEmpty(row, "absenceDays")
    else if column == "Prosječno sati/dan" then OrEmpty(row, "averageHours")
    else if column == "Datum" then OrEmpty(row, "date")
    else if column == "Vrsta odsustva" then OrEmpty(row, "absenceType")
    else if column == "Sati" then DefinedOrEmpty(row, "hours")
    else if column == "Status" then OrEmpty(row, "status")
    else if column == "Mjesec" then
      (if OrEmpty(row, "monthDisplay") != "" then OrEmpty(row, "monthDisplay") else OrEmpty(row, "month"))
    else if column == "Radnih dana (8h)" then DefinedOrEmpty(row, "workingDays")
    else if column == "Kompanija" then OrEmpty(row, "company")
    else if column == "Ukupno zaposlenih" then DefinedOrEmpty(row, "totalEmployees")
    else if column == "Ukupno odsustava" then DefinedOrEmpty(row, "totalAbsences")
    else if column == "Zaposlenih sa odsustvom" then DefinedOrEmpty(row, "employeesWithAbsence")
    else if column == "Stopa odsustva" then OrEmpty(row, "absenceRate")
    else if column == "Broj slučajeva" then DefinedOrEmpty(row, "totalCases")
    else if column == "Jedinstvenih zaposlenih" then DefinedOrEmpty(row, "uniqueEmployees")
    else if column == "Prosječno sati" then OrEmpty(row, "averageHours")
    else OrEmpty(row, column)
  }

  /**
   * `getCellValue` as evidently intended: `Ukupno sati` falls back to a company row's
   * `totalAbsenceHours`, and the department summary's `Prosječno sati po zaposlenom` reads
   * `averagePerEmployee`; every other column is read as written.
   */
  function CellValueFixed(row: JsObject, column: string): string
  {
    if column == "Ukupno sati" then
      (if "totalHours" in row then JsString(row["totalHours"]) else DefinedOrEmpty(row, "totalAbsenceHours"))
    else if column == "Prosječno sati po zaposlenom" then OrEmpty(row, "averagePerEmployee")
    else CellValue(row, column)
  }

  // ---------------------------------------------------------------------------------------------
  // Row objects and columns of the six reports
  // ---------------------------------------------------------------------------------------------

  function SummaryObject(r: SummaryRow): JsObject
  {
    map["employee" := Str(r.employee), "department" := Str(r.department), "totalHours" := Num(r.totalHours),
        "absenceDays" := Num(r.absenceDays), "averageHours" := Str(r.averageHours)]
  }

  function DetailObject(r: DetailRow): JsObject
  {
    map["date" := Str(FormatDate(r.date)), "employee" := Str(r.employee), "department" := Str(r.department),
        "absenceType" := Str(r.absenceType), "hours" := Num(r.hours), "status" := Str(r.status)]
  }

  function TypeObject(r: TypeRow): JsObject
  {
    map["absenceType" := Str(r.absenceType), "totalCases" := Num(r.totalCases), "totalHours" := Num(r.totalHours),
        "uniqueEmployees" := Num(r.uniqueEmployees), "averageHours" := Str(r.averageHours)]
  }

  function MonthlyObject(r: MonthlyRow): JsObject
  {
    map["monthDisplay" := Str(r.monthDisplay), "employee" := Str(r.employee), "department" := Str(r.department),
        "totalHours" := Num(r.totalHours), "workingDays" := Num(r.workingDays)]
  }

  function CompanyObject(r: CompanyRow): JsObject
  {
    map["company" := Str(r.company), "totalEmployees" := Num(r.totalEmployees), "totalAbsences" := Num(r.totalAbsences),
        "totalAbsenceHours" := Num(r.totalAbsenceHours), "employeesWithAbsence" := Num(r.employeesWithAbsence),
        "absenceRate" := Str(r.absenceRate)]
  }

  function DeptObject(r: DeptRow): JsObject
  {
    map["department" := Str(r.department), "totalEmployees" := Num(r.totalEmployees),
        "totalAbsences" := Num(r.totalAbsences), "totalHours" := Num(r.totalHours),
        "averagePerEmployee" := Str(r.averagePerEmployee)]
  }

  const SummaryColumns: seq<string> := ["Zaposleni", "Služba", "Ukupno sati", "Dana odsustva", "Prosječno sati/dan"]
  const DetailColumns: seq<string> := ["Datum", "Zaposleni", "Služba", "Vrsta odsustva", "Sati", "Status"]
  const TypeColumns: seq<string> := ["Vrsta odsustva", "Broj slučajeva", "Ukupno sati", "Jedinstvenih zaposlenih", "Prosječno sati"]
  const MonthlyColumns: seq<string> := ["Mjesec", "Zaposleni", "Služba", "Ukupno sati", "Radnih dana (8h)"]
  const CompanyColumns: seq<string> :=
    ["Kompanija", "Ukupno zaposlenih", "Ukupno odsustava", "Ukupno sati", "Zaposlenih sa odsustvom", "Stopa odsustva"]
  const DeptColumns: seq<string> :=
    ["Služba", "Ukupno zaposlenih", "Ukupno odsustava", "Ukupno sati", "Prosječno sati po zaposlenom"]

  /** The cells of one row object under the given columns, as `getCellValue` reads them. */
  function CellsAsWritten(row: JsObject, columns: seq<string>): (cells: seq<string>)
    ensures |cells| == |columns|
  {
    seq(|columns|, i requires 0 <= i < |columns| => CellValue(row, columns[i]))
  }

  /** The cells of one row object under the given columns, with the corrected reading. */
  function Cells(row: JsObject, columns: seq<string>): (cells: seq<string>)
    ensures |cells| == |columns|
  {
    seq(|columns|, i requires 0 <= i < |columns| => CellValueFixed(row, columns[i]))
  }

  /** How `getCellValue` reads the columns the reports share and those of the absence summary. */
  lemma ReadsSummaryColumns(row: JsObject)
    ensures CellValue(row, "Zaposleni") == OrEmpty(row, "employee")
    ensures CellValue(row, "Služba") == OrEmpty(row, "department")
    ensures CellValue(row, "Ukupno sati") == DefinedOrEmpty(row, "totalHours")
    ensures CellValue(row, "Dana odsustva") == DefinedOrEmpty(row, "absenceDays")
    ensures CellValue(row, "Prosječno sati/dan") == OrEmpty(row, "averageHours")
  {
  }

  /** How `getCellValue` reads the columns of the detailed report. */
  lemma ReadsDetailColumns(row: JsObject)
    ensures CellValue(row, "Datum") == OrEmpty(row, "date")
    ensures CellValue(row, "Vrsta odsustva") == OrEmpty(row, "absenceType")
    ensures CellValue(row, "Sati") == DefinedOrEmpty(row, "hours")
    ensures CellValue(row, "Status") == OrEmpty(row, "status")
  {
  }

  /** How `getCellValue` reads the columns of the monthly report. */
  lemma ReadsMonthlyColumns(row: JsObject)
    ensures CellValue(row, "Mjesec")
            == if OrEmpty(row, "monthDisplay") != "" then OrEmpty(row, "monthDisplay") else OrEmpty(row, "month")
    ensures CellValue(row, "Radnih dana (8h)") == DefinedOrEmpty(row, "workingDays")
  {
  }

  /** How `getCellValue` reads the first columns of the company overview. */
  lemma ReadsCompanyColumns(row: JsObject)
    ensures CellValue(row, "Kompanija") == OrEmpty(row, "company")
    ensures CellValue(row, "Ukupno zaposlenih") == DefinedOrEmpty(row, "totalEmployees")
    ensures CellValue(row, "Ukupno odsustava") == DefinedOrEmpty(row, "totalAbsences")
  {
  }

  /** How `getCellValue` reads the last columns of the company overview. */
  lemma ReadsRateColumns(row: JsObject)
    ensures CellValue(row, "Zaposlenih sa odsustvom") == DefinedOrEmpty(row, "employeesWithAbsence")
    ensures CellValue(row, "Stopa odsustva") == OrEmpty(row, "absenceRate")
  {
  }

  /** How `getCellValue` reads the columns of the by-type report. */
  lemma ReadsTypeColumns(row: JsObject)
    ensures CellValue(row, "Broj slučajeva") == DefinedOrEmpty(row, "totalCases")
    ensures CellValue(row, "Jedinstvenih zaposlenih") == DefinedOrEmpty(row, "uniqueEmployees")
    ensures CellValue(row, "Prosječno sati") == OrEmpty(row, "averageHours")
  {
  }

  /** The correction changes nothing for a report without the department average whose rows carry `totalHours`. */
  lemma FixedAgrees(row: JsObject, columns: seq<string>)
    requires "Prosječno sati po zaposlenom" !in columns
    requires "totalHours" in row || "Ukupno sati" !in columns
    ensures Cells(row, columns) == CellsAsWritten(row, columns)
  {
    forall i | 0 <= i < |columns|
      ensures CellValueFixed(row, columns[i]) == CellValue(row, columns[i])
    {
      assert columns[i] in columns;
    }
  }

  /** As written, a company row's `Ukupno sati` cell is always empty: the row has no `totalHours`. */
  lemma CompanyHoursCellEmpty(r: CompanyRow)
    ensures CellsAsWritten(CompanyObject(r), CompanyColumns)[3] == ""
  {
    ReadsSummaryColumns(CompanyObject(r));
  }

  /** As written, a department row's `Prosječno sati po zaposlenom` cell is always empty. */
  lemma DepartmentAverageCellEmpty(r: DeptRow)
    ensures CellsAsWritten(DeptObject(r), DeptColumns)[4] == ""
  {
  }

  /** The fields of a company row object read back as the row's own values. */
  lemma CompanyFields(r: CompanyRow)
    ensures OrEmpty(CompanyObject(r), "company") == r.company
    ensures DefinedOrEmpty(CompanyObject(r), "totalEmployees") == NatToString(r.totalEmployees)
    ensures DefinedOrEmpty(CompanyObject(r), "totalAbsences") == NatToString(r.totalAbsences)
    ensures DefinedOrEmpty(CompanyObject(r), "totalAbsenceHours") == NatToString(r.totalAbsenceHours)
    ensures DefinedOrEmpty(CompanyObject(r), "employeesWithAbsence") == NatToString(r.employeesWithAbsence)
    ensures OrEmpty(CompanyObject(r), "absenceRate") == r.absenceRate
    ensures "totalHours" !in CompanyObject(r)
  {
  }

  /** Corrected, every column of the company overview shows its row's own field. */
  lemma CompanyCells(r: CompanyRow)
    ensures Cells(CompanyObject(r), CompanyColumns)
            == [r.company, NatToString(r.totalEmployees), NatToString(r.totalAbsences), NatToString(r.totalAbsenceHours),
                NatToString(r.employeesWithAbsence), r.absenceRate]
  {
    var row := CompanyObject(r);
    ReadsCompanyColumns(row);
    ReadsRateColumns(row);
    CompanyFields(r);
  }

  /** The fields of a department row object read back as the row's own values. */
  lemma DeptFields(r: DeptRow)
    ensures OrEmpty(DeptObject(r), "department") == r.department
    ensures DefinedOrEmpty(DeptObject(r), "totalEmployees") == NatToString(r.totalEmployees)
    ensures DefinedOrEmpty(DeptObject(r), "totalAbsences") == NatToString(r.totalAbsences)
    ensures "totalHours" in DeptObject(r) && JsString(DeptObject(r)["totalHours"]) == NatToString(r.totalHours)
    ensures OrEmpty(DeptObject(r), "averagePerEmployee") == r.averagePerEmployee
  {
  }

  /** Corrected, every column of the department summary shows its row's own field. */
  lemma DeptCells(r: DeptRow)
    ensures Cells(DeptObject(r), DeptColumns)
            == [r.department, NatToString(r.totalEmployees), NatToString(r.totalAbsences), NatToString(r.totalHours),
                r.averagePerEmployee]
  {
    var row := DeptObject(r);
    ReadsSummaryColumns(row);
    ReadsCompanyColumns(row);
    DeptFields(r);
  }

  /** The fields of a summary row object read back as the row's own values. */
  lemma SummaryFields(s: SummaryRow)
    ensures OrEmpty(SummaryObject(s), "employee") == s.employee
    ensures OrEmpty(SummaryObject(s), "department") == s.department
    ensures "totalHours" in SummaryObject(s) && DefinedOrEmpty(SummaryObject(s), "totalHours") == NatToString(s.totalHours)
    ensures DefinedOrEmpty(SummaryObject(s), "absenceDays") == NatToString(s.absenceDays)
    ensures OrEmpty(SummaryObject(s), "averageHours") == s.averageHours
  {
  }

  /** As written, every column of the absence summary shows its row's own field. */
  lemma SummaryCellsAsWritten(s: SummaryRow)
    ensures CellsAsWritten(SummaryObject(s), SummaryColumns)
            == [s.employee, s.department, NatToString(s.totalHours), NatToString(s.absenceDays), s.averageHours]
  {
    var row := SummaryObject(s);
    SummaryFields(s);
    ReadsSummaryColumns(row);
  }

  /** The absence summary reads the same with and without the correction, each column its row's own field. */
  lemma SummaryCells(s: SummaryRow)
    ensures Cells(SummaryObject(s), SummaryColumns) == CellsAsWritten(SummaryObject(s), SummaryColumns)
            == [s.employee, s.department, NatToString(s.totalHours), NatToString(s.absenceDays), s.averageHours]
  {
    SummaryFields(s);
    FixedAgrees(SummaryObject(s), SummaryColumns);
    SummaryCellsAsWritten(s);
  }

  /** The fields of a detail row object read back as the row's own values. */
  lemma DetailFields(d: DetailRow)
    ensures OrEmpty(DetailObject(d), "date") == FormatDate(d.date)
    ensures OrEmpty(DetailObject(d), "employee") == d.employee
    ensures OrEmpty(DetailObject(d), "department") == d.department
    ensures OrEmpty(DetailObject(d), "absenceType") == d.absenceType
    ensures DefinedOrEmpty(DetailObject(d), "hours") == NatToString(d.hours)
    ensures OrEmpty(DetailObject(d), "status") == d.status
  {
  }

  /** As written, every column of the detailed report shows its row's own field. */
  lemma DetailCellsAsWritten(d: DetailRow)
    ensures CellsAsWritten(DetailObject(d), DetailColumns)
            == [FormatDate(d.date), d.employee, d.department, d.absenceType, NatToString(d.hours), d.status]
  {
    var row := DetailObject(d);
    DetailFields(d);
    ReadsSummaryColumns(row);
    ReadsDetailColumns(row);
  }

  /** The detailed report reads the same with and without the correction, each column its row's own field. */
  lemma DetailCells(d: DetailRow)
    ensures Cells(DetailObject(d), DetailColumns) == CellsAsWritten(DetailObject(d), DetailColumns)
            == [FormatDate(d.date), d.employee, d.department, d.absenceType, NatToString(d.hours), d.status]
  {
    DetailFields(d);
    FixedAgrees(DetailObject(d), DetailColumns);
    DetailCellsAsWritten(d);
  }

  /** The fields of a by-type row object read back as the row's own values. */
  lemma TypeFields(t: TypeRow)
    ensures OrEmpty(TypeObject(t), "absenceType") == t.absenceType
    ensures DefinedOrEmpty(TypeObject(t), "totalCases") == NatToString(t.totalCases)
    ensures "totalHours" in TypeObject(t) && DefinedOrEmpty(TypeObject(t), "totalHours") == NatToString(t.totalHours)
    ensures DefinedOrEmpty(TypeObject(t), "uniqueEmployees") == NatToString(t.uniqueEmployees)
    ensures OrEmpty(TypeObject(t), "averageHours") == t.averageHours
  {
  }

  /** As written, every column of the by-type report shows its row's own field. */
  lemma TypeCellsAsWritten(t: TypeRow)
    ensures CellsAsWritten(TypeObject(t), TypeColumns)
            == [t.absenceType, NatToString(t.totalCases), NatToString(t.totalHours), NatToString(t.uniqueEmployees),
                t.averageHours]
  {
    var row := TypeObject(t);
    TypeFields(t);
    ReadsSummaryColumns(row);
    ReadsDetailColumns(row);
    ReadsTypeColumns(row);
  }

  /** The by-type report reads the same with and without the correction, each column its row's own field. */
  lemma TypeCells(t: TypeRow)
    ensures Cells(TypeObject(t), TypeColumns) == CellsAsWritten(TypeObject(t), TypeColumns)
            == [t.absenceType, NatToString(t.totalCases), NatToString(t.totalHours), NatToString(t.uniqueEmployees),
                t.averageHours]
  {
    TypeFields(t);
    FixedAgrees(TypeObject(t), TypeColumns);
    TypeCellsAsWritten(t);
  }

  /** The fields of a monthly row object read back as the row's own values. */
  lemma MonthlyFields(m: MonthlyRow)
    ensures OrEmpty(MonthlyObject(m), "monthDisplay") == m.monthDisplay
    ensures OrEmpty(MonthlyObject(m), "month") == ""
    ensures OrEmpty(MonthlyObject(m), "employee") == m.employee
    ensures OrEmpty(MonthlyObject(m), "department") == m.department
    ensures "totalHours" in MonthlyObject(m) && DefinedOrEmpty(MonthlyObject(m), "totalHours") == NatToString(m.totalHours)
    ensures DefinedOrEmpty(MonthlyObject(m), "workingDays") == NatToString(m.workingDays)
  {
  }

  /** As written, every column of the monthly report shows its row's own field. */
  lemma MonthlyCellsAsWritten(m: MonthlyRow)
    ensures CellsAsWritten(MonthlyObject(m), MonthlyColumns)
            == [m.monthDisplay, m.employee, m.department, NatToString(m.totalHours), NatToString(m.workingDays)]
  {
    var row := MonthlyObject(m);
    MonthlyFields(m);
    ReadsSummaryColumns(row);
    ReadsMonthlyColumns(row);
  }

  /** The monthly report reads the same with and without the correction, each column its row's own field. */
  lemma MonthlyCells(m: MonthlyRow)
    ensures Cells(MonthlyObject(m), MonthlyColumns) == CellsAsWritten(MonthlyObject(m), MonthlyColumns)
            == [m.monthDisplay, m.employee, m.department, NatToString(m.totalHours), NatToString(m.workingDays)]
  {
    MonthlyFields(m);
    FixedAgrees(MonthlyObject(m), MonthlyColumns);
    MonthlyCellsAsWritten(m);
  }

  // ---------------------------------------------------------------------------------------------
  // `generateReport` and `exportToCSV`
  // ---------------------------------------------------------------------------------------------

  /** The `ReportData` the page keeps as `currentReport` (the description text is not modelled). */
  datatype Report = Report(id: string, title: string, columns: seq<string>, data: seq<JsObject>)

  /** The six report kinds `generateReport` knows. */
  const ReportKinds: set<string> :=
    {"absence-summary", "employee-absence", "absence-by-type", "monthly-hours", "company-overview", "department-summary"}

  const UnknownKindError := "Greška pri generisanju izvještaja: Nepoznat tip izvještaja"

  /** The columns each kind of report shows. */
  function ColumnsOf(kind: string): seq<string>
  {
    if kind == "absence-summary" then SummaryColumns
    else if kind == "employee-absence" then DetailColumns
    else if kind == "absence-by-type" then TypeColumns
    else if kind == "monthly-hours" then MonthlyColumns
    else if kind == "company-overview" then CompanyColumns
    else DeptColumns
  }

  function ObjectsOf<T>(rows: seq<T>, toObject: T -> JsObject): (objects: seq<JsObject>)
    ensures |objects| == |rows|
  {
    seq(|rows|, i requires 0 <= i < |rows| => toObject(rows[i]))
  }

  /**
   * `generateReport(reportType)`: narrows employees and records by the filter, runs the generator of
   * that kind (the company overview on the unfiltered data), and fails with the page's message for an
   * unknown kind. The summary has a row per listed employee, the detailed report a row per record of a
   * listed employee, the by-type report a row per type name, the company overview a row per company
   * and the department summary a row per department name.
   */
  method GenerateReport(kind: string, employees: seq<Employee>, records: seq<AbsenceRecord>, companies: seq<Company>,
                        departments: seq<Department>, types: seq<AbsenceType>, filter: ReportFilter, fmt: NumberFormat)
    returns (result: Result<Report>)
    ensures result.Failure? <==> kind !in ReportKinds
    ensures result.Failure? ==> result.error == UnknownKindError
    ensures result.Success? ==> result.value.id == kind && result.value.columns == ColumnsOf(kind)
    ensures var listed := ReportEmployees(employees, filter);
            var kept := FilterRecords(employees, records, filter);
            result.Success? ==>
              var data := result.value.data;
              (kind == "absence-summary" ==>
                 (exists rows :: AbsenceSummaryOf(rows, listed, kept, departments, fmt) && data == ObjectsOf(rows, SummaryObject))
                 && |data| == |listed|
                 && result.value.title
                    == "Pregled odsustava - " + (if filter.companyFilter != "" then CompanyName(companies, filter.companyFilter)
                                                 else "Sve kompanije"))
              && (kind == "employee-absence" ==>
                    (exists rows :: EmployeeAbsenceOf(rows, listed, kept, departments, types) && data == ObjectsOf(rows, DetailObject))
                    && |data| == |ListedRecords(kept, IdsOf(listed))|)
              && (kind == "absence-by-type" ==>
                    (exists rows :: AbsenceByTypeOf(rows, kept, types, fmt) && data == ObjectsOf(rows, TypeObject))
                    && |data| == |TypeNames(kept, types)|)
              && (kind == "monthly-hours" ==>
                    exists rows :: MonthlyHoursOf(rows, kept, listed, departments) && data == ObjectsOf(rows, MonthlyObject))
              && (kind == "company-overview" ==>
                    data == ObjectsOf(CompanyOverview(companies, employees, records, fmt), CompanyObject)
                    && |data| == |companies|)
              && (kind == "department-summary" ==>
                    (exists rows :: DepartmentSummaryOf(rows, listed, kept, departments, fmt) && data == ObjectsOf(rows, DeptObject))
                    && |data| == |DeptNames(listed, departments)|)
  {
    var listed := ReportEmployees(employees, filter);
    var kept := FilterRecords(employees, records, filter);
    if kind == "absence-summary" {
      var companyName := if filter.companyFilter != "" then CompanyName(companies, filter.companyFilter) else "Sve kompanije";
      var rows := GenerateAbsenceSummary(listed, kept, departments, fmt);
      assert |rows| == |multiset(rows)| == |SummaryRows(listed, kept, departments, fmt)|;
      result := Success(Report(kind, "Pregled odsustava - " + companyName, SummaryColumns, ObjectsOf(rows, SummaryObject)));
    } else if kind == "employee-absence" {
      var rows := GenerateEmployeeAbsence(listed, kept, departments, types);
      result := Success(Report(kind, "Detaljni pregled odsustava", DetailColumns, ObjectsOf(rows, DetailObject)));
    } else if kind == "absence-by-type" {
      var rows := GenerateAbsenceByType(kept, types, fmt);
      result := Success(Report(kind, "Odsustva po vrstama", TypeColumns, ObjectsOf(rows, TypeObject)));
    } else if kind == "monthly-hours" {
      var rows := GenerateMonthlyHours(listed, kept, departments);
      result := Success(Report(kind, "Mjesečni sati odsustva", MonthlyColumns, ObjectsOf(rows, MonthlyObject)));
    } else if kind == "company-overview" {
      var rows := CompanyOverview(companies, employees, records, fmt);
      CompanyOverviewRows(companies, employees, records, fmt);
      result := Success(Report(kind, "Pregled po kompanijama", CompanyColumns, ObjectsOf(rows, CompanyObject)));
    } else if kind == "department-summary" {
      var rows := GenerateDepartmentSummary(listed, kept, departments, fmt);
      result := Success(Report(kind, "Pregled po službama", DeptColumns, ObjectsOf(rows, DeptObject)));
    } else {
      result := Failure(UnknownKindError);
    }
  }

  /** The rows of a report as CSV cells. */
  function CellRows(report: Report): (rows: seq<seq<string>>)
    ensures |rows| == |report.data|
  {
    seq(|report.data|, i requires 0 <= i < |report.data| => Cells(report.data[i], report.columns))
  }

  /** `exportToCSV`: nothing without a current report, else the CSV text of its columns and cells. */
  function ExportCsv(current: Option<Report>): (text: Option<string>)
    ensures text.None? <==> current.None?
  {
    match current
    case None => None
    case Some(report) => Some(CsvText(report.columns, CellRows(report)))
  }

  /**
   * A report with at least one column exports to its header line, a newline, and a body that reads
   * back as exactly the report's cells, row by row.
   */
  lemma ExportCsvRoundTrip(report: Report)
    requires report.columns != []
    ensures var h := Join(report.columns, ',');
            var text := ExportCsv(Some(report)).value;
            |text| > |h| && text[..|h|] == h && text[|h|] == '\n' && ParseRecords(text[|h| + 1..]) == Some(CellRows(report))
  {
    CsvTextRoundTrip(report.columns, CellRows(report));
  }

  /** `title.replace(/ /g, '_')`. */
  function Underscored(title: string): (r: string)
    ensures |r| == |title|
    ensures forall i :: 0 <= i < |r| ==> r[i] != ' ' && (title[i] != ' ' ==> r[i] == title[i])
    ensures forall i :: 0 <= i < |title| && title[i] == ' ' ==> r[i] == '_'
  {
    if title == [] then [] else [if title[0] == ' ' then '_' else title[0]] + Underscored(title[1..])
  }

  /** The download name: the title with spaces as underscores, `_`, today's `YYYY-MM-DD`, `.csv`. */
  function ExportFileName(title: string, today: Day): string
  {
    Underscored(title) + "_" + FormatDate(today) + ".csv"
  }

  /**
   * The download name has no spaces: each space of the title became `_`, every other character is
   * kept, then `_`, the date and `.csv` follow (four-digit years).
   */
  lemma ExportFileNameShape(title: string, today: Day)
    requires 1000 <= today.year <= 9999
    ensures var name := ExportFileName(title, today);
            |name| == |title| + 15 && (forall i :: 0 <= i < |name| ==> name[i] != ' ')
            && (forall i :: 0 <= i < |title| ==> name[i] == if title[i] == ' ' then '_' else title[i])
            && name[|title|] == '_'
            && name[|title| + 1..|title| + 11] == FormatDate(today) && name[|title| + 11..] == ".csv"
  {
    var d := FormatDate(today);
    FormatDateRoundTrip(today);
    assert forall i :: 0 <= i < |d| ==> d[i] != ' ' by {
      var y := NatToString(today.year);
      assert d == y + "-" + PadStart2(NatToString(today.month)) + "-" + PadStart2(NatToString(today.day));
      TwoDigits(today.month);
      TwoDigits(today.day);
    }
  }
}
