# Absence tracking: a verified model of the dashboard pages

The application keeps a register of employee absences ("odsustva") per company: a month calendar with
one cell per employee and day, the work groups ("radne grupe") with their shift times, the employee
list with its filters and edit dialog, six reports with CSV export, and the authentication pages
around them. This project models the logic of those pages in Dafny and proves what they promise:

- how the dashboard writes the absence table: delete for "no absence", otherwise an upsert keyed by
  (employee, date);
- what each report computes;
- that the exported CSV reads back to the report's cells;
- when the forms accept their input;
- how the page state changes on each user action.

Modules follow the source files:

- `Wrappers`, `Seqs`, `Text`: JavaScript idioms: `Option`/`Result`, `filter`/`find`/`reduce`, `trim`, case mapping, `includes`, `padStart`, `String(n)`
- `Dates`, `Utils`: `lib/utils.ts` and the `YYYY-MM-DD` dates the absence table stores
- `Sorting`: the in-place descending `sort` every report applies
- `ReportModel`, `ReportGenerators`, `MonthlyReport`, `DepartmentReport`, `Csv`, `ReportsPage`: `app/dashboard/reports/page.tsx`
- `Dashboard`: `app/dashboard/page.tsx`
- `WorkGroups`: `app/dashboard/work-groups/page.tsx`
- `Employees`: `app/dashboard/employees/page.tsx`
- `EmployeeForm`: `components/employee-form.tsx`
- `AbsencePopup`: `components/ui/absence-popup.tsx`
- `Calendar`: `components/ui/calendar.tsx`
- `AuthError`: `app/auth/error/AuthErrorContent.tsx`
- `Nav`: `components/dashboard-nav.tsx`
- `Signup`: `app/auth/signup/page.tsx`

**Conventions of the model.**
- **State.** Page state that the source updates in place is a `class` whose methods say exactly what
  the new state is. The database tables a page writes are fields of those classes.
- **Remote calls.** The outcome of each remote call is a method parameter: a failure flag or an error
  message.
- **Hours.** A stored 0 and a missing value are the same, since every report reads `hours || 0` or
  `hours || 8`.
- **Dates** are (year, month 1..12, day) triples that exist in the Gregorian calendar. Shift times are
  minutes since midnight.
- **Decimal text.** The `toFixed(2)` averages and percentages come from a `NumberFormat` parameter. The
  model decides when each one is used and with which operands.

**Record status.** A record's `status` is one of `approved`, `pending` and `rejected`
(types/index.ts:61). No report in app/dashboard/reports/page.tsx filters on it, so the reports count
every record; `ReportModel.FilterRecordsSpec` proves that the record filter ignores the status. The
dashboard stores every record it writes as `approved` (app/dashboard/page.tsx:130-131). Only the
employee detail page selects `approved` records (app/dashboard/employees/[id]/page.tsx:75); that
page is not part of this model.

## Model

| member | source | states |
|---|---|---|
| `Utils.CalculateWorkHours` | lib/utils.ts:13-21 | the result is never negative; it is (end - start) in hours when end is after start and 0 otherwise |
| `Utils.GetMonthDays` | lib/utils.ts:23-33 | the loop that steps a date one day at a time returns exactly the days of the month (`MonthDays`), for the zero-based JavaScript month and the year `new Date` makes of the argument (1900 + y for 0..99); an index outside 0..11, or a year outside JavaScript's date range, gives no days |
| `Utils.AbsenceColor` | lib/utils.ts:35-45 | the result is the blue fallback exactly when the code is not one of V, S, B, D, C |
| `Dates.DaysInMonth` | lib/utils.ts:23-33 | every month has 28 to 31 days: February has 29 exactly in a leap year and 28 otherwise, April, June, September and November have 30, the other months 31 |
| `Dates.NextDay` | lib/utils.ts:29 | `setDate(getDate() + 1)` gives a valid date strictly after the old one, with no valid date in between |
| `Dates.MonthDays` | lib/utils.ts:23-33 | as many days as the month has, every one a real date of that month, numbered 1 upward; the first is the 1st, each next day is `NextDay` of the previous, and the day after the last lies in another month |
| `Dates.DateKeyOrder` | app/dashboard/reports/page.tsx:218-231 | comparing dates through their numeric key is chronological order |
| `Dates.FormatDateRoundTrip` | app/dashboard/page.tsx:44-49 | `formatDateToString` gives ten characters that parse back to the same date (four-digit years) |
| `Dates.FormatDateInjective` | app/dashboard/page.tsx:44-49 | two different days never get the same `YYYY-MM-DD` text, so it can serve as a key (four-digit years) |
| `Dates.MonthPrefix` | app/dashboard/reports/page.tsx:377 | `date.substring(0, 7)` of two stored dates agree exactly when year and month agree |
| `Text.TrimSpec` | app/dashboard/work-groups/page.tsx:107-109 | `trim()` removes white space at both ends only; it is empty exactly when the text is blank |
| `Text.ContainsIff` | app/dashboard/page.tsx:155-161 | `includes` holds exactly when the needle occurs at some position; the empty needle occurs everywhere |
| `Text.DigitsValueOfNatToString` | app/dashboard/page.tsx:46-47 | `String(n)` reads back as `n` |
| `Seqs.FilterIsSubsequence` | app/dashboard/employees/page.tsx:202 | `filter` keeps the elements it keeps in their original order |
| `Sorting.SortDescending` | app/dashboard/reports/page.tsx:296 | the in-place sort leaves the array ordered by the key, descending, and a permutation of what it held |
| `Sorting.SortedByKeyDesc` | app/dashboard/reports/page.tsx:361 | the sorted copy is descending by the key and a permutation of the input |
| `ReportModel.HoursOrEight` | app/dashboard/reports/page.tsx:319 | `hours || 8` is the stored hours when non-zero and 8 otherwise |
| `ReportModel.CompanyName` | app/dashboard/reports/page.tsx:184-186 | a company label is never empty: the first company with that id gives its name, and an unknown id or an empty name gives `Nepoznato` |
| `ReportModel.AbsenceTypeName` | app/dashboard/reports/page.tsx:193-195 | the first type with that id gives its name; an unknown type or an empty name reads `Nepoznato` |
| `ReportModel.DepartmentName` | app/dashboard/reports/page.tsx:197-200 | no department reads `Nije postavljeno`, an unknown one `Nepoznato`, a known one its first match's name (or `Nepoznato` when that name is empty) |
| `ReportModel.FindEmployeeIds` | app/dashboard/reports/page.tsx:188-191 | the employee lookup succeeds exactly for ids of listed employees and returns that employee |
| `ReportModel.ReportEmployees` | app/dashboard/reports/page.tsx:214-216 | only an administrator with a company filter narrows the list, and then to exactly that company's employees |
| `ReportModel.FilterRecordsSpec` | app/dashboard/reports/page.tsx:218-231 | a record is kept iff its date lies in the range and, under a company filter, its employee belongs to that company; order is kept; the status plays no part |
| `ReportGenerators.SummaryTotals` | app/dashboard/reports/page.tsx:278-293 | over all summary rows, the absence days add up to the records of listed employees and the hours to their `hours || 0` |
| `ReportGenerators.GenerateAbsenceSummary` | app/dashboard/reports/page.tsx:278-306 | the rows are a permutation of one row per employee, sorted by hours descending, with both totals preserved |
| `ReportGenerators.DetailRows` | app/dashboard/reports/page.tsx:311-323 | every detail row has at least one hour |
| `ReportGenerators.DetailRowsTotals` | app/dashboard/reports/page.tsx:311-323 | one row per record of a listed employee; hours add up to their `hours || 8` |
| `ReportGenerators.GenerateEmployeeAbsence` | app/dashboard/reports/page.tsx:308-336 | newest first, a permutation of the detail rows, one per listed record, hours conserved |
| `ReportGenerators.CollectTypeGroups` | app/dashboard/reports/page.tsx:339-350 | the `forEach` builds one group per type name, each holding exactly that type's count, hours and distinct employees; counts add up to all records, hours to their `hours || 8` |
| `ReportGenerators.TypeRowsCorrect` | app/dashboard/reports/page.tsx:352-358 | every row matches its type's records, at least one and at most `totalCases` distinct employees; every record's type has a row; one row per type name |
| `ReportGenerators.GenerateAbsenceByType` | app/dashboard/reports/page.tsx:338-371 | the rows are sorted by cases descending and match their type's records; every type appears once; cases and hours are conserved |
| `ReportGenerators.CompanyRowBounds` | app/dashboard/reports/page.tsx:423-441 | employees with absence are at most the absences, which are at most the hours, and at most the company's employees; no employees gives rate `0%` |
| `ReportGenerators.CompanyOverviewRows` | app/dashboard/reports/page.tsx:422-442 | one row per company, in company order, each satisfying those bounds |
| `ReportGenerators.CompanyAbsentBound` | app/dashboard/reports/page.tsx:431 | the distinct absent employees of a company are among its employees |
| `MonthlyReport.MonthTextIsPrefix` | app/dashboard/reports/page.tsx:377 | the month key is the stored date's `YYYY-MM` prefix (four-digit years) |
| `MonthlyReport.CollectMonthBuckets` | app/dashboard/reports/page.tsx:374-387 | the nested dictionary holds, per month and employee, exactly the sum of that employee's `hours || 8` in that month |
| `MonthlyReport.WorkingDays` | app/dashboard/reports/page.tsx:400 | `Math.ceil(hours / 8)`: the least number of 8-hour days that covers the hours |
| `MonthlyReport.BuildDrafts` | app/dashboard/reports/page.tsx:389-404 | the rows are built in dictionary order, skipping unknown employees |
| `MonthlyReport.AllDraftsCover` | app/dashboard/reports/page.tsx:389-404 | every record of a known employee has its (month, employee) row |
| `MonthlyReport.MonthBucketsExact` | app/dashboard/reports/page.tsx:374-387 | the dictionary built record by record holds, per month, each employee once with exactly the sum of their `hours \|\| 8` that month |
| `MonthlyReport.AllDraftsDistinct` | app/dashboard/reports/page.tsx:389-404 | rows built from a dictionary with one key per month and one entry per employee never repeat a (month, employee) pair |
| `MonthlyReport.DistinctKeysPermutation` | app/dashboard/reports/page.tsx:406-410 | reordering the rows by the sort keeps them free of repeated (month, employee) pairs |
| `MonthlyReport.MonthBucketsKnown` | app/dashboard/reports/page.tsx:374-387 | the dictionary's hours of known employees add up to the `hours \|\| 8` of all their records |
| `MonthlyReport.AllDraftsHours` | app/dashboard/reports/page.tsx:389-404 | the built rows' hours add up to the dictionary's hours of known employees; entries of unknown employees are dropped |
| `MonthlyReport.GenerateMonthlyHours` | app/dashboard/reports/page.tsx:373-420 | the result is a month-descending permutation of the rows built from the per-month, per-employee dictionary, with the sort key stripped: at most one row per (month, employee), each matching its month and employee, one for every record of a known employee, and the rows' hours add up to the `hours \|\| 8` of all records of known employees; every row has at least one hour and its working days |
| `DepartmentReport.CollectMembers` | app/dashboard/reports/page.tsx:465-471 | the grouping holds, per department name, exactly the full names of its employees in order; the member counts add up to the employees |
| `DepartmentReport.MemberGroupsExact` | app/dashboard/reports/page.tsx:465-471 | the grouping built employee by employee holds each department once with exactly its employees' names in order, and the member counts add up to the employees |
| `DepartmentReport.CountRecords` | app/dashboard/reports/page.tsx:474-483 | the second `forEach` counts each listed record once in its employee's department; totals add up to the listed records and their `hours || 8` |
| `DepartmentReport.GuardHolds` | app/dashboard/reports/page.tsx:478 | `if (departmentData[deptName])` never fails for a listed employee |
| `DepartmentReport.DeptRowsCorrect` | app/dashboard/reports/page.tsx:485-491 | each row matches its department; every employee's department has a row; one row per department name |
| `DepartmentReport.GenerateDepartmentSummary` | app/dashboard/reports/page.tsx:461-504 | sorted by hours descending, rows match their departments, every department once, employees, absences and hours all conserved |
| `Csv.ParseEscaped` | app/dashboard/reports/page.tsx:513 | doubling `"` inside quotes is undone by a CSV reader |
| `Csv.QuoteFieldShape` | app/dashboard/reports/page.tsx:513 | every field is wrapped in quotes and reads back to its text |
| `Csv.ParseRecordsRoundTrip` | app/dashboard/reports/page.tsx:510-515 | the joined quoted lines read back to the rows |
| `Csv.CsvTextRoundTrip` | app/dashboard/reports/page.tsx:509-517 | the content is the header line, a newline, and a body that reads back to the rows |
| `ReportsPage.ReadsSummaryColumns` | app/dashboard/reports/page.tsx:533-542 | on any row, `Zaposleni`, `Služba` and `Prosječno sati/dan` show the truthy field or nothing, `Ukupno sati` and `Dana odsustva` the defined field or nothing |
| `ReportsPage.ReadsDetailColumns` | app/dashboard/reports/page.tsx:543-550 | on any row, `Datum`, `Vrsta odsustva` and `Status` show the truthy field, `Sati` the defined field |
| `ReportsPage.ReadsMonthlyColumns` | app/dashboard/reports/page.tsx:551-554 | `Mjesec` shows `monthDisplay`, falling back to `month`; `Radnih dana (8h)` the defined `workingDays` |
| `ReportsPage.ReadsCompanyColumns` | app/dashboard/reports/page.tsx:555-560 | `Kompanija` shows the truthy `company`, the two totals their defined fields |
| `ReportsPage.ReadsRateColumns` | app/dashboard/reports/page.tsx:561-564 | `Zaposlenih sa odsustvom` shows the defined field, `Stopa odsustva` the truthy `absenceRate` |
| `ReportsPage.ReadsTypeColumns` | app/dashboard/reports/page.tsx:567-572 | `Broj slučajeva` and `Jedinstvenih zaposlenih` show their defined fields, `Prosječno sati` the truthy `averageHours` |
| `ReportsPage.FixedAgrees` | app/dashboard/reports/page.tsx:532-577 | the corrected lookup reads every report the same as the original when the report lacks the department-average column and its rows carry `totalHours` |
| `ReportsPage.SummaryCellsAsWritten` | app/dashboard/reports/page.tsx:532-577 | as written, a summary row exports its five fields |
| `ReportsPage.DetailCellsAsWritten` | app/dashboard/reports/page.tsx:532-577 | as written, a detail row exports its six fields |
| `ReportsPage.TypeCellsAsWritten` | app/dashboard/reports/page.tsx:532-577 | as written, a by-type row exports its five fields, the type read by the first `Vrsta odsustva` case |
| `ReportsPage.MonthlyCellsAsWritten` | app/dashboard/reports/page.tsx:532-577 | as written, a monthly row exports its five fields |
| `ReportsPage.CompanyHoursCellEmpty` | app/dashboard/reports/page.tsx:538-539 | as written, the company report's `Ukupno sati` cell is always empty |
| `ReportsPage.DepartmentAverageCellEmpty` | app/dashboard/reports/page.tsx:574-576 | as written, the department report's `Prosječno sati po zaposlenom` cell is always empty |
| `ReportsPage.CompanyCells` | app/dashboard/reports/page.tsx:532-577 | with the corrected lookup, a company row exports its six fields, hours included |
| `ReportsPage.DeptCells` | app/dashboard/reports/page.tsx:532-577 | with the corrected lookup, a department row exports its five fields, the average included |
| `ReportsPage.SummaryCells` | app/dashboard/reports/page.tsx:532-577 | a summary row exports its five fields, unchanged by the correction |
| `ReportsPage.DetailCells` | app/dashboard/reports/page.tsx:532-577 | a detail row exports date, employee, department, type, hours, status |
| `ReportsPage.TypeCells` | app/dashboard/reports/page.tsx:532-577 | a by-type row exports its five fields |
| `ReportsPage.MonthlyCells` | app/dashboard/reports/page.tsx:532-577 | a monthly row exports its five fields |
| `ReportsPage.GenerateReport` | app/dashboard/reports/page.tsx:202-275 | fails exactly for an unknown kind, with the page's message; otherwise id and columns follow the kind, the summary title names the company or `Sve kompanije`, each report has one row per listed employee, record, type, company or department, and its data are the objects of rows that meet the chosen generator's full contract over the company-filtered employees and the date-filtered records (for monthly hours: one row per month and employee, hours conserved) |
| `ReportsPage.ExportCsv` | app/dashboard/reports/page.tsx:506-517 | CSV text is produced exactly when there is a current report; the cells are read with the corrected column lookup `CellValueFixed`, not the page's `getCellValue` as written (see Findings) |
| `ReportsPage.ExportCsvRoundTrip` | app/dashboard/reports/page.tsx:506-517 | the exported text is the header and rows that read back to the report's cells, as the corrected lookup `CellValueFixed` gives them |
| `ReportsPage.Underscored` | app/dashboard/reports/page.tsx:523 | `replace(/ /g, '_')`: spaces become `_`, every other character is kept, and the length is unchanged |
| `ReportsPage.ExportFileNameShape` | app/dashboard/reports/page.tsx:523 | the file name is the title with each space turned into `_`, then `_`, the date, `.csv`; no space remains (four-digit years) |
| `Dashboard.ExistingTypeSpec` | app/dashboard/page.tsx:96-107 | with unique keys there is at most one record per cell, and the lookup returns its type exactly when it has a non-empty one |
| `Dashboard.DeleteKeySpec` | app/dashboard/page.tsx:115-122 | deleting leaves no record for the cell, every other record as it was, and the key unique |
| `Dashboard.UpsertKeySpec` | app/dashboard/page.tsx:124-133 | after the upsert the cell has exactly one record, with the type, 8 hours and `approved`; all other records are unchanged; the key stays unique |
| `Dashboard.SearchEmployeesSpec` | app/dashboard/page.tsx:149-162 | the search keeps list order, keeps exactly the matching employees, and an empty term keeps everyone |
| `Dashboard.DashboardPage.constructor` | app/dashboard/page.tsx:52-61 | the page starts with nothing selected and the popup closed |
| `Dashboard.DashboardPage.DateClick` | app/dashboard/page.tsx:96-107 | selects the cell, looks up its type, opens the popup |
| `Dashboard.DashboardPage.SelectAbsence` | app/dashboard/page.tsx:109-146 | no cell selected: nothing happens; failure: only the error message; success: the table is the delete or upsert result, the error is cleared, the popup closes and the selection is cleared; the key stays unique |
| `Dashboard.DashboardPage.ClosePopup` | app/dashboard/page.tsx:308-313 | closes the popup and clears the selection, table untouched |
| `WorkGroups.ValidateForm` | app/dashboard/work-groups/page.tsx:105-131 | the form is accepted iff the name is not blank, both times are set, and end is after start; each failing field gets its message, `end_time` the ordering error |
| `WorkGroups.MaxIdBounds` | app/dashboard/work-groups/page.tsx:154 | the `reduce` yields 0 or an existing id, and no id exceeds it |
| `WorkGroups.NewIdIsFresh` | app/dashboard/work-groups/page.tsx:154-158 | the new id is positive and greater than every existing id |
| `WorkGroups.UpdateGroup` | app/dashboard/work-groups/page.tsx:139-149 | only rows with the edited id change, and they take the form's values |
| `WorkGroups.DeleteGroupSpec` | app/dashboard/work-groups/page.tsx:88-92 | deleting keeps exactly the other groups, still ordered by id |
| `WorkGroups.SubsequenceIncreasing` | app/dashboard/work-groups/page.tsx:41-44 | a table read back in id order stays in id order after rows are removed |
| `WorkGroups.ShiftHours` | app/dashboard/work-groups/page.tsx:177-186 | the hours are (end - start) / 60 with no clamp: positive exactly when the shift ends after it starts, zero or negative otherwise |
| `WorkGroups.ValidShiftPositive` | app/dashboard/work-groups/page.tsx:120-127 | any form that passes validation has a positive shift length |
| `WorkGroups.GroupCounts` | app/dashboard/work-groups/page.tsx:245-257 | the standard-group count plus the rest-day count is the number of groups |
| `WorkGroups.WorkGroupsPage.constructor` | app/dashboard/work-groups/page.tsx:19-32 | the page opens with the default form (07:00 to 15:00) and nothing selected |
| `WorkGroups.WorkGroupsPage.AddGroup` | app/dashboard/work-groups/page.tsx:56-66 | opens the empty form for a new group |
| `WorkGroups.WorkGroupsPage.EditGroup` | app/dashboard/work-groups/page.tsx:68-78 | opens the form with the group's values |
| `WorkGroups.WorkGroupsPage.Submit` | app/dashboard/work-groups/page.tsx:133-175 | an invalid form writes nothing; a failed write shows only the submit message; success updates the edited row or appends max id + 1, clears the error and closes the form; ids stay increasing |
| `WorkGroups.WorkGroupsPage.AskDelete` | app/dashboard/work-groups/page.tsx:80-83 | remembers the group and opens the confirmation |
| `WorkGroups.WorkGroupsPage.ConfirmDelete` | app/dashboard/work-groups/page.tsx:85-103 | without a selection nothing happens; failure sets the delete message; success removes that id and closes the dialog |
| `Employees.ShownIff` | app/dashboard/employees/page.tsx:202-231 | the early returns amount to: admin or own profile, exact company match if set, exact department match if set, search hit if a term is given |
| `Employees.FilterEmployeesSpec` | app/dashboard/employees/page.tsx:202-231 | the shown list is an order-preserving subsequence of exactly the employees passing the filters; an admin with no filters sees everyone |
| `Employees.NonAdminSeesOwnProfile` | app/dashboard/employees/page.tsx:203-206 | a non-admin sees only employees whose `user_id` is theirs, and nobody without a signed-in user |
| `Employees.CompanyName` | app/dashboard/employees/page.tsx:233-235 | the company label is never empty: the first company with that id gives its name, and an unknown id or an empty name gives `Nepoznato` |
| `Employees.DepartmentName` | app/dashboard/employees/page.tsx:237-240 | the department label is never empty |
| `Employees.DepartmentNameCases` | app/dashboard/employees/page.tsx:237-240 | no department reads `Nije postavljeno`, an unknown one `Nepoznato`, a known one its first match's name |
| `Employees.WorkGroupNameCases` | app/dashboard/employees/page.tsx:242-245 | a loaded group shows its name, otherwise `Grupa <id>` |
| `Employees.EmployeesPage.constructor` | app/dashboard/employees/page.tsx:58-66 | the filters start empty |
| `Employees.EmployeesPage.SetCompany` | app/dashboard/employees/page.tsx:72-79 | a new company loads its active departments (kept on failure); clearing it empties the department list and filter; the same company changes nothing else |
| `Employees.EmployeesPage.ResetFilters` | app/dashboard/employees/page.tsx:195-199 | all three filters are cleared, and a cleared company empties the department list |
| `Employees.ResetShowsAccessible` | app/dashboard/employees/page.tsx:195-231 | after a reset the list is exactly the employees the user may see |
| `EmployeeForm.EmailPatternIff` | components/employee-form.tsx:75 | the direct check (one `@`, not first; no white space; a `.` after the `@` with a character on each side) accepts exactly the strings `^[^\s@]+@[^\s@]+\.[^\s@]+$` matches |
| `EmployeeForm.ValidEmailNotBlank` | components/employee-form.tsx:73-77 | an accepted address has exactly one `@` and is not blank |
| `EmployeeForm.ValidateForm` | components/employee-form.tsx:62-85 | accepted iff both names are not blank, the e-mail matches, and a group is chosen; each failure has its message, and a blank e-mail is "required", never "invalid" |
| `EmployeeForm.SubmitMessageCases` | components/employee-form.tsx:147-153 | the schema message replaces an error exactly when `user_id` and `null` both occur in it; others pass through |
| `EmployeeForm.UpdateRows` | components/employee-form.tsx:97-106 | only the employee's row takes the four form fields |
| `EmployeeForm.UpdateRowsKeepsIds` | components/employee-form.tsx:97-106 | ids are unchanged and all other rows stay as they were |
| `EmployeeForm.EmployeeDialog.constructor` | components/employee-form.tsx:34-41 | the form starts empty with group 1 |
| `EmployeeForm.EmployeeDialog.Open` | components/employee-form.tsx:43-60 | opening for an employee copies their four fields; otherwise empty fields and group 1; errors cleared |
| `EmployeeForm.EmployeeDialog.Submit` | components/employee-form.tsx:88-157 | invalid forms write nothing; an edit updates the row; an insert with null `user_id` that fails is retried once with the zero UUID, and an error shows only if the retry fails; `onSubmit` only after a successful write |
| `EmployeeForm.EmployeeDialog.KeyPress` | components/employee-form.tsx:159-164 | Enter without Shift has exactly the effect of `Submit` (`SubmitEffect`: nothing saved for an invalid form, otherwise the update or insert with its retry); any other key changes nothing |
| `AbsencePopup.HasChangesCases` | components/ui/absence-popup.tsx:60-62 | with a stored type a change means a different choice; without one it means a type was picked |
| `AbsencePopup.CurrentAbsence` | components/ui/absence-popup.tsx:53-55 | the current absence is the stored type's entry, found whenever the type is listed |
| `AbsencePopup.Popup.constructor` | components/ui/absence-popup.tsx:36 | nothing is selected before the popup opens |
| `AbsencePopup.Popup.Open` | components/ui/absence-popup.tsx:38-41 | opening resets the choice to the stored type, so Save starts disabled |
| `AbsencePopup.Popup.ChooseType` | components/ui/absence-popup.tsx:100-122 | picking a type selects it; Save stays disabled only if it is the stored type |
| `AbsencePopup.Popup.ChooseNone` | components/ui/absence-popup.tsx:124-143 | "Bez odsustva", offered only with a stored type, always enables Save |
| `AbsencePopup.Popup.Save` | components/ui/absence-popup.tsx:45-47 | Save hands back the choice, which differs from the stored type, and is a type when none was stored |
| `AbsencePopup.Popup.Delete` | components/ui/absence-popup.tsx:49-51 | Delete hands back "no absence" |
| `Calendar.NextMonthStart` | components/ui/calendar.tsx:31-33 | the next month starts on day 1 and lies after the given day, December going to January of the next year; a year 0..99 is read as 1900 + y |
| `Calendar.PrevMonthStart` | components/ui/calendar.tsx:35-37 | the previous month starts on day 1, January going to December of the year before; it lies before the given day, except that a year 0..99 is read as 1900 + y and the result lies after it |
| `Calendar.MonthNavigationRoundTrip` | components/ui/calendar.tsx:31-37 | back after forward, or forward after back, gives the first day of the starting month whenever no step passes a year 0..99 to `new Date`; from 1 January 100, back then forward reaches 1 January 2000 |
| `Calendar.AbsenceForSpec` | components/ui/calendar.tsx:39-45 | the lookup returns the first record of that employee on that day, and nothing only when there is none |
| `Calendar.StoredDateOnDay` | components/ui/calendar.tsx:43 | a record stored with a day's text lies on that day and no other |
| `Calendar.CellColorAgrees` | components/ui/calendar.tsx:108-114 | the grid colours the five built-in codes as `getAbsenceColor` does and gives other codes no colour |
| `Calendar.CalendarView.Days` | components/ui/calendar.tsx:27-29 | as many columns as the current month has days, every one a real date of that month (so the out-of-month styling never applies); the first is the 1st, each next is `NextDay` of the previous, and the day after the last lies in another month |
| `Calendar.CalendarView.constructor` | components/ui/calendar.tsx:25 | the grid starts at the given day |
| `Calendar.CalendarView.NextMonth` | components/ui/calendar.tsx:31-33 | moves to the next month's first day |
| `Calendar.CalendarView.PrevMonth` | components/ui/calendar.tsx:35-37 | moves to the previous month's first day |
| `AuthError.ErrorMessageCases` | app/auth/error/AuthErrorContent.tsx:25-38 | an unknown code shows a non-empty `error_description`, else the generic text; a known code never shows the generic text |
| `AuthError.ErrorTitleCases` | app/auth/error/AuthErrorContent.tsx:40-53 | the generic title is shown exactly for unknown codes; different known codes have different titles |
| `AuthError.SuggestedActionCases` | app/auth/error/AuthErrorContent.tsx:55-65 | `otp_expired` and `email_not_confirmed` get the resend link, `invalid_credentials` the login page, all others sign-up |
| `AuthError.Countdown.constructor` | app/auth/error/AuthErrorContent.tsx:11 | the countdown starts at 5 with no redirect |
| `AuthError.Countdown.Tick` | app/auth/error/AuthErrorContent.tsx:16-23 | each tick lowers the count by exactly 1, never below 0, and the redirect to sign-up happens exactly when it reaches 0 |
| `Nav.LocalPart` | components/dashboard-nav.tsx:35 | `split('@')[0]` is the prefix before the first `@`, or the whole text |
| `Nav.Initials` | components/dashboard-nav.tsx:34-36 | the initials have at most two characters and no `@` |
| `Nav.InitialsPrefix` | components/dashboard-nav.tsx:34-36 | the initials are the upper-cased first characters of the address, two when the local part allows |
| `Nav.RoleDisplayNameCases` | components/dashboard-nav.tsx:96-107 | only `admin` and `manager` get their own labels; every other role reads Korisnik |
| `Nav.RoleOrUser` | components/dashboard-nav.tsx:59 | a missing role reads as `user`, so the role is never empty |
| `Nav.ActiveLinkUnique` | components/dashboard-nav.tsx:128-139 | `pathname === href` highlights at most one link |
| `Nav.DashboardNav.VisibleLinks` | components/dashboard-nav.tsx:110-147 | links are shown, all five, iff a user is signed in and the page is not `/` |
| `Nav.DashboardNav.constructor` | components/dashboard-nav.tsx:39-44 | no user, role `user`, loading |
| `Nav.DashboardNav.LoadUser` | components/dashboard-nav.tsx:47-63 | stores the user and, when there is one, their role |
| `Nav.DashboardNav.AuthChange` | components/dashboard-nav.tsx:68-85 | follows the session; without one the role resets to `user` and no links show |
| `Signup.FailureMessage` | app/auth/signup/page.tsx:52-67 | a failure always shows a non-empty message |
| `Signup.SignupPage.constructor` | app/auth/signup/page.tsx:10-17 | empty fields, no error, not loading |
| `Signup.SignupPage.HandleSignup` | app/auth/signup/page.tsx:20-71 | the mismatch message comes before the length check, and neither sends a request; otherwise exactly one request is sent; success iff the response is ok; `loading` is false again on every path |

## Left out

- Network and auth calls. Supabase queries, `Promise.all` loads, sessions and the `/api/signup` route are not modelled. Their outcomes are method parameters: a failure flag, an error message or the loaded rows. A reload after a write is taken to succeed and to return the written table.
- `fetchData` failures, the loading flags shown while data arrives, and the employees page's add/edit/delete handlers are not modelled. Those handlers only open dialogs and reload.
- JSX rendering, CSS classes, the `cn` helper, and the display formats `format(date, 'MMMM yyyy')` and `toLocaleDateString`.
- Floating point. The `toFixed(2)` averages and rates come from the `NumberFormat` parameter. `ReportGenerators.CompanyOverviewRows` keeps the companies in input order: the `parseFloat` re-sort by rate is not modelled, because it orders by the decimal text.
- Report descriptions (free text with the date range) and the `type` tag of each report are not modelled.
- `Object.entries` order. JavaScript lists integer-like keys first. The model keeps pure insertion order for the type, department and month dictionaries. This only affects the order before the final sort.
- Stability of `Array.prototype.sort`. `Sorting.SortDescending` proves sorted and permutation, not that ties keep their order.
- Time zones. `new Date('YYYY-MM-DD')` parses as UTC and is compared in local time. The model compares calendar days.
- `ReportsPage.ExportCsv`: the export reads the cells with the corrected lookup `CellValueFixed`; the page's `exportToCSV` calls `getCellValue` as written, which leaves the company-overview `Ukupno sati` and the department `Prosječno sati po zaposlenom` cells empty (see Findings); for the other report kinds the two lookups agree (`ReportsPage.FixedAgrees`, `ReportsPage.SummaryCells` and the other per-kind cell lemmas).
- `WorkGroups.ShiftHours`: stated over exact reals; `toFixed(1)` on the displayed value is not modelled.
- `Utils.GetMonthDays`: a month index outside 0..11 gives no days. JavaScript would roll the date into another month and then stop at once, which gives the same empty result. The years -271821 and 275760, of which JavaScript's date range holds only part, are treated as wholly outside it.
- `Calendar.NextMonthStart`, `Calendar.PrevMonthStart`, `Calendar.MonthNavigationRoundTrip`, `Calendar.CalendarView.Days`, `Calendar.CalendarView.NextMonth`, `Calendar.CalendarView.PrevMonth`: the shown date is a calendar day of any year. Years outside JavaScript's date range (before -271821 or after 275760), where the page's `Date` becomes invalid, are not modelled; the page starts at today's date and moves one month per click.
- Stored hours are natural numbers. The column is `hours: number` (types/index.ts:60); fractional or negative stored hours are not modelled. The only writer in this model, the dashboard's upsert, stores 8 (app/dashboard/page.tsx:130).
- `Dates.FormatDateRoundTrip`, `Dates.FormatDateInjective`, `Dates.MonthPrefix`, `Calendar.StoredDateOnDay`, `MonthlyReport.MonthTextIsPrefix`, `ReportsPage.ExportFileNameShape`: stated for four-digit years, the only years whose `YYYY-MM-DD` text has fixed width.
- `MonthlyReport.CollectMonthBuckets`, `MonthlyReport.GenerateMonthlyHours`: records are bucketed by (year, month) for every year. The page keys them by `date.substring(0, 7)` (app/dashboard/reports/page.tsx:377), which is the same only for four-digit years: from year 10000 on, `"10000-01-05"` gives `"10000-0"`, so January to September of that year share one bucket and its row is labelled `"10000-0"`. Such years are not modelled.
- `ReportGenerators.CollectTypeGroups`, `ReportGenerators.GenerateAbsenceByType`, `DepartmentReport.CollectMembers`, `DepartmentReport.GenerateDepartmentSummary`, `ReportsPage.GenerateReport`, `Utils.AbsenceColor`: names that collide with `Object.prototype` members (`constructor`, `toString`, `valueOf`, `hasOwnProperty`, `__proto__`, ...) are not modelled; the model's dictionaries and colour table hold only their own keys. On the page, such a name finds an inherited value in the plain `{}` object. An absence type named `constructor` skips the entry at page.tsx:343, and then `.employees.add` at page.tsx:349 throws. A department named `toString` fails the same way at page.tsx:466-470. The catch at page.tsx:270-273 then shows `Greška pri generisanju izvještaja: …` and no report. `getAbsenceColor("toString")` (lib/utils.ts:44) returns the inherited function instead of `bg-blue-500`.
- Case mapping (`toLowerCase`, `toUpperCase`) covers ASCII letters only. Text lengths count characters, not UTF-16 code units, so `password.length` differs for characters outside the Basic Multilingual Plane.
- `Employees.Employee`: `user_id` is read as a nullable column. A row without the column would compare `undefined !== undefined` for a signed-out user; the model excludes every row when no user is signed in.
- `EmployeeForm.EmployeeDialog.Submit`: the `updated_at` timestamp is not stored.
- `Signup.SignupPage.HandleSignup`: the 3-second delay before the redirect is not modelled; the redirect is recorded as scheduled.

## Findings

| source | as written | input that shows it | evidently intended | confidence | as-written member | corrected member |
|---|---|---|---|---|---|---|
| app/dashboard/reports/page.tsx:538-539 | the `Ukupno sati` column reads `row.totalHours`, but company-overview rows carry `totalAbsenceHours`, so the exported cell is always empty | any company-overview report exported to CSV, e.g. a company with one 8-hour absence | the company's total absence hours | high, not executed | `ReportsPage.CompanyHoursCellEmpty` | `ReportsPage.CompanyCells` |
| app/dashboard/reports/page.tsx:574-576 | the column `Prosječno sati po zaposlenom` (line 501) has no case and falls to `row[column]`, which no row has, so the cell is always empty | any department-summary report exported to CSV | the row's `averagePerEmployee` | high, not executed | `ReportsPage.DepartmentAverageCellEmpty` | `ReportsPage.DeptCells` |
