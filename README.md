# Employee information system: a Dafny model of its core

The system is a Swing desktop client over a MySQL COMPANY schema (EMPLOYEE,
DEPARTMENT, WORKS_ON, DEPENDENT, ADMIN). A login dialog lets an admin or an
employee in by SSN. The main report window then lists every employee. Its
panels search with criteria and project the result onto the ticked attribute
boxes, average salaries per group, delete the ticked employees behind a
dependency guard, change one column of the ticked employees in a batch, and
add an employee through a validated form. An admin dialog grants admin rights
to an existing employee. The data access object (EmployeeDAO) builds the
parameterised SELECT of the search, maps result rows to Employee objects, and
performs the inserts, deletes and membership lookups.

The model keeps the program's own structure:

- The database is the class `CompanyStore.Database`. It holds the EMPLOYEE rows
  keyed by SSN, the DEPARTMENT rows, the SSNs on WORKS_ON and DEPENDENT, and the
  ADMIN set. The DAO's store operations are its methods.
- `Employee` is a class with twelve fields and setters. Its `Record()` is the
  value it holds.
- The list objects the report view shares with its panels are
  `Widgets.StringList` objects. The model follows aliasing: the delete and
  modify panels keep the very SSN list object of the view.
- Handlers that change fields are methods with `modifies` clauses. Each is
  proved against a specification function, and the properties of that function
  are proved as lemmas.
- Everything the program gets from outside is a parameter. That covers the
  dialog answers (`JOptionPane` confirmations), the rows the engine returns,
  the engine raising an `SQLException` (a `fails`/`raises` flag, the index
  `raisesAt` of the first statement of a batch that raises, or a `None`
  result), the
  statement time, the iteration order of a `HashMap`, and the library parsers
  and formatters (`JavaLib.Parsers`, `JavaLib.Formats`).

Module map (file → module):

| file | module | program part |
|---|---|---|
| wrappers.dfy | Wrappers | Option / Result |
| text.dfy | JavaText | `String.trim`, `String.join`, `nCopies`, `toUpperCase`, '?' counting |
| java_lib.dfy | JavaLib | number and date parsers, display formats |
| employee.dfy | EmployeeModel | model/Employee.java |
| store.dfy | CompanyStore | the tables and the DAO's store operations |
| employee_dao.dfy | EmployeeDao | row mapping and `getAllEmployees` |
| jdbc.dfy | Jdbc | positional binding of a `PreparedStatement` |
| search_query.dfy | SearchQuery | `EmployeeDAO.searchEmployees` |
| widgets.dfy | Widgets | check boxes, table models, shared lists |
| delete_guard.dfy | DeleteGuard | component/DBDelete.java |
| modify.dfy | BatchModify | component/DBModify.java |
| insert_form.dfy | InsertForm | component/DBUpdate.java |
| condition_search.dfy | ConditionSearch | component/DBConditionSearch.java |
| report_view.dfy | ReportView | view/EmployeeReportView.java |
| legacy_insert.dfy | LegacyInsert | the generic INSERT of org/example/DBUpdate.java |
| login.dfy | Login | view/LoginView.java |
| add_admin.dfy | AdminGrant | view/AddAdminView.java |

Where the design description and the code disagree, the model follows the
code:

- `searchEmployees` never rejects an attribute list. It ignores every key it
  does not know, "attributes" included, and always selects all twelve columns.
- A value in the modify panel that fails to convert makes the whole batch fail
  before any row changes. No row is skipped on its own.
- The criteria map built by the search panel (`Map<String,Object>` with
  type/value/attributes) and the map `searchEmployees` reads
  (`Map<String,List<Object>>` keyed Name … Salary) do not fit together. Each is
  modelled against its own code. The search panel's call into the DAO is given
  its result (a list of employees or a failure) as an input.

## Model

| member | source | states |
|---|---|---|
| EmployeeModel.Employee.constructor | src/main/java/org/example/model/Employee.java:27-28 | a new Employee holds Java's defaults: null references, '\u0000' chars, zero numbers |
| EmployeeModel.Employee.Full | src/main/java/org/example/model/Employee.java:31-45 | the ten arguments land in their own fields; the department name stays null and `modified` stays null, because the constructor copies the still-unset field |
| EmployeeModel.Employee.SetFirstName | src/main/java/org/example/model/Employee.java:52-54 | the first name becomes the argument; every other field is unchanged |
| EmployeeModel.Employee.SetMinit | src/main/java/org/example/model/Employee.java:60-62 | the initial becomes the argument; every other field is unchanged |
| EmployeeModel.Employee.SetLastName | src/main/java/org/example/model/Employee.java:68-70 | the last name becomes the argument; every other field is unchanged |
| EmployeeModel.Employee.SetSsn | src/main/java/org/example/model/Employee.java:76-78 | the SSN becomes the argument; every other field is unchanged |
| EmployeeModel.Employee.SetBirthDate | src/main/java/org/example/model/Employee.java:84-86 | the birth date becomes the argument; every other field is unchanged |
| EmployeeModel.Employee.SetAddress | src/main/java/org/example/model/Employee.java:92-94 | the address becomes the argument; every other field is unchanged |
| EmployeeModel.Employee.SetSex | src/main/java/org/example/model/Employee.java:100-102 | the sex becomes the argument; every other field is unchanged |
| EmployeeModel.Employee.SetSalary | src/main/java/org/example/model/Employee.java:108-110 | the salary becomes the argument; every other field is unchanged |
| EmployeeModel.Employee.SetSupervisorSsn | src/main/java/org/example/model/Employee.java:116-118 | the supervisor SSN becomes the argument; every other field is unchanged |
| EmployeeModel.Employee.SetDepartmentNumber | src/main/java/org/example/model/Employee.java:124-126 | the department number becomes the argument; every other field is unchanged |
| EmployeeModel.Employee.SetDepartmentName | src/main/java/org/example/model/Employee.java:132-134 | the department name becomes the argument; every other field is unchanged |
| EmployeeModel.Employee.SetModified | src/main/java/org/example/model/Employee.java:140-142 | the modified stamp becomes the argument; every other field is unchanged |
| CompanyStore.InsertedRow | src/main/java/org/example/dao/EmployeeDAO.java:68-94 | the inserted row carries the names, SSN, birth date, address and supervisor as bound, the initial and sex as one-char strings, salary and Dno as set, and the statement time as both created and modified |
| CompanyStore.WithColumn | src/main/java/org/example/component/DBModify.java:111 | an UPDATE sets exactly the chosen column and refreshes `modified`; key, names and created stay |
| CompanyStore.Completed | src/main/java/org/example/component/DBModify.java:114-143 | in a batch of n statements, exactly those before the one that raises complete; with none raising, all n do |
| CompanyStore.Database.constructor | src/main/java/org/example/dao/EmployeeDAO.java:12-18 | the store holds exactly the given tables |
| CompanyStore.Database.DepartmentName | src/main/java/org/example/dao/EmployeeDAO.java:12-18 | a joined Dname exists only for a Dno naming a DEPARTMENT row with a name, and is that name |
| CompanyStore.Database.IsEmployeeSsnExists | src/main/java/org/example/dao/EmployeeDAO.java:37-46 | true exactly when EMPLOYEE has a row with that SSN |
| CompanyStore.Database.IsAdminSsn | src/main/java/org/example/dao/EmployeeDAO.java:48-57 | true exactly when ADMIN holds that SSN |
| CompanyStore.Database.AddAdminSsn | src/main/java/org/example/dao/EmployeeDAO.java:59-66 | ADMIN gains the SSN and nothing else |
| CompanyStore.Database.AddEmployee | src/main/java/org/example/dao/EmployeeDAO.java:68-94 | a null birth date throws before the insert; a null or duplicate key, or any other engine refusal, raises; otherwise exactly one new row, filed under its SSN, and no other row changes |
| CompanyStore.Database.DeleteEmployee | src/main/java/org/example/dao/EmployeeDAO.java:96-105 | a statement that raises changes nothing; otherwise the row goes and the result is true exactly when a row existed |
| CompanyStore.Database.UpdateColumn | src/main/java/org/example/component/DBModify.java:111-141 | a statement that raises changes nothing; otherwise true exactly when the SSN has a row, which then gets the column and stamp, and nothing else changes |
| CompanyStore.DeleteTwice | src/main/java/org/example/dao/EmployeeDAO.java:96-105 | deleting the same SSN twice reports false the second time instead of failing |
| EmployeeDao.Joined | src/main/java/org/example/dao/EmployeeDAO.java:12-18 | the LEFT JOIN keeps all eleven EMPLOYEE columns it selects and finds a Dname only through an existing department |
| EmployeeDao.FirstChar | src/main/java/org/example/dao/EmployeeDAO.java:112 | `charAt(0)` succeeds exactly on a non-empty string and gives its first char; null and empty throw different errors |
| EmployeeDao.MapRow | src/main/java/org/example/dao/EmployeeDAO.java:107-133 | a null or empty Minit, then Sex, stops the mapping with its own error; otherwise names, SSN, birth date, address, supervisor and Dname land in their fields, SQL NULL salary and Dno read as 0, and `modified` is the stored stamp plus exactly 9 hours, or null |
| EmployeeDao.InsertThenRead | src/main/java/org/example/dao/EmployeeDAO.java:68-133 | an inserted employee reads back with the same names, initial, SSN, birth date, sex, salary and Dno, and its stamp shifted by 9 hours |
| EmployeeDao.MapRows | src/main/java/org/example/dao/EmployeeDAO.java:20-35 | the list maps every row in order when all rows map; otherwise the error is one a row raised |
| EmployeeDao.Records | src/main/java/org/example/dao/EmployeeDAO.java:29-31 | the values held by a list of Employee objects, in order |
| EmployeeDao.CreateEmployeeFromResultSet | src/main/java/org/example/dao/EmployeeDAO.java:107-133 | the setter calls build a fresh Employee holding the mapped row, or stop with the row's error |
| EmployeeDao.GetAllEmployees | src/main/java/org/example/dao/EmployeeDAO.java:20-35 | one fresh Employee per result row, in the engine's order, or the mapping error |
| EmployeeDao.FirstBadRow | src/main/java/org/example/dao/EmployeeDAO.java:29-31 | the first row that fails to map decides the error of the whole result |
| Jdbc.Positions | src/main/java/org/example/dao/EmployeeDAO.java:211-213 | exactly positions 1..n are bound, and position i + 1 holds the i-th value |
| Jdbc.BindAll | src/main/java/org/example/dao/EmployeeDAO.java:211-213 | the binding loop binds exactly those positions |
| SearchQuery.WithSingle | src/main/java/org/example/dao/EmployeeDAO.java:157-180 | a single-value predicate only extends the text |
| SearchQuery.WithSingleParam | src/main/java/org/example/dao/EmployeeDAO.java:157-180 | a given key adds exactly one parameter after the existing ones: the first value, wrapped in % for a LIKE (Name, Address); an absent or empty key adds none |
| SearchQuery.WithIn | src/main/java/org/example/dao/EmployeeDAO.java:182-194 | an IN predicate only extends the text |
| SearchQuery.Texts | src/main/java/org/example/dao/EmployeeDAO.java:186 | the values as text parameters, in list order |
| SearchQuery.WithInParams | src/main/java/org/example/dao/EmployeeDAO.java:182-194 | an IN key adds all its values as text, in list order, after the existing ones |
| SearchQuery.WithBounds | src/main/java/org/example/dao/EmployeeDAO.java:196-205 | salary bounds only extend the text |
| SearchQuery.SalaryBounds | src/main/java/org/example/dao/EmployeeDAO.java:196-205 | one parsed bound per salary value, in order, when all parse; otherwise the first value that does not parse is reported |
| SearchQuery.AppendFilters | src/main/java/org/example/dao/EmployeeDAO.java:157-194 | the appending code builds exactly the filter text and parameters of the criteria |
| SearchQuery.AppendIn | src/main/java/org/example/dao/EmployeeDAO.java:182-194 | one IN step appends the open text, n joined marks, ")" and the n values |
| SearchQuery.Build | src/main/java/org/example/dao/EmployeeDAO.java:146-205 | the builder yields exactly the specified statement, or the salary error |
| SearchQuery.AppendBounds | src/main/java/org/example/dao/EmployeeDAO.java:196-205 | the salary loop appends one bound and one parameter per value, or stops at the first value that does not parse |
| SearchQuery.SalaryBoundsStop | src/main/java/org/example/dao/EmployeeDAO.java:199-202 | a refused value after parsing values is the error of the whole list |
| SearchQuery.BuildSearchQuery | src/main/java/org/example/dao/EmployeeDAO.java:146-205 | the builder with the program's own texts |
| SearchQuery.SearchEmployees | src/main/java/org/example/dao/EmployeeDAO.java:135-225 | a bad salary fails before the engine is asked; an engine that raises is reported; otherwise the statement is bound position by position and every returned row is mapped, in order |
| SearchQuery.SqlWellMarked | src/main/java/org/example/dao/EmployeeDAO.java:146-198 | the base query holds no '?', each single-value and salary predicate holds exactly one, the IN openers none |
| SearchQuery.MarksMatchParams | src/main/java/org/example/dao/EmployeeDAO.java:154-213 | in a built statement the '?' count equals the parameter count |
| SearchQuery.PlaceholdersMatchParams | src/main/java/org/example/dao/EmployeeDAO.java:154-213 | the same for the statement searchEmployees prepares |
| SearchQuery.NoCriteria | src/main/java/org/example/dao/EmployeeDAO.java:146-154 | with no recognised non-empty key the statement is the base query ending in WHERE 1=1, with no parameter |
| SearchQuery.AlwaysAllColumns | src/main/java/org/example/dao/EmployeeDAO.java:140-152 | the text always starts with the full twelve-column SELECT, whatever the attributes |
| SearchQuery.Recognised | src/main/java/org/example/dao/EmployeeDAO.java:157-196 | keeps exactly the recognised keys with a non-empty list |
| SearchQuery.OnlyRecognisedKeysMatter | src/main/java/org/example/dao/EmployeeDAO.java:157-205 | dropping unknown keys and empty lists gives the same statement: an empty list counts as absent |
| SearchQuery.TextIgnoresValues | src/main/java/org/example/dao/EmployeeDAO.java:157-205 | the text depends only on which keys are given and on list lengths, never on a value |
| SearchQuery.NameComesFirst | src/main/java/org/example/dao/EmployeeDAO.java:157-160 | a name criterion is the first predicate and its parameter is "%" + first value + "%" |
| SearchQuery.ParameterCount | src/main/java/org/example/dao/EmployeeDAO.java:157-205 | one parameter per given single-value key, one per listed department or sex value, one per salary value |
| SearchQuery.SalaryErrors | src/main/java/org/example/dao/EmployeeDAO.java:196-205 | the search fails exactly when some salary value does not parse, naming the first |
| SearchQuery.SalaryParamsLast | src/main/java/org/example/dao/EmployeeDAO.java:196-205 | the parsed salary bounds close the parameter list, in list order |
| JavaText.TrimStart | src/main/java/org/example/view/LoginView.java:64 | never longer than its input |
| JavaText.TrimEnd | src/main/java/org/example/view/LoginView.java:64 | never longer than its input |
| JavaText.TrimStartMeaning | src/main/java/org/example/view/LoginView.java:64 | exactly the leading run of chars up to U+0020 is dropped |
| JavaText.TrimEndMeaning | src/main/java/org/example/view/LoginView.java:64 | exactly the trailing run of chars up to U+0020 is dropped |
| JavaText.TrimMeaning | src/main/java/org/example/view/LoginView.java:64 | `trim()` is the infix that neither starts nor ends with a blank, and is empty exactly for an all-blank text |
| JavaText.TrimIdempotent | src/main/java/org/example/view/AddAdminView.java:54 | trimming twice equals trimming once |
| JavaText.Repeat | src/main/java/org/example/dao/EmployeeDAO.java:184 | `nCopies(n, x)`: n elements, all x |
| JavaText.NoPlaceholders | src/main/java/org/example/dao/EmployeeDAO.java:146-152 | a text without '?' has no placeholder |
| JavaText.PlaceholdersAdd | src/main/java/org/example/dao/EmployeeDAO.java:154-205 | placeholders of a concatenation add up |
| JavaText.OnePlaceholder | src/main/java/org/example/dao/EmployeeDAO.java:158 | one '?' between '?'-free texts is one placeholder |
| JavaText.JoinedMarks | src/main/java/org/example/dao/EmployeeDAO.java:184 | n marks joined by a '?'-free separator are n placeholders |
| JavaText.JoinedWithoutMarks | src/main/java/org/example/DBUpdate.java:42-52 | '?'-free names joined stay '?'-free |
| JavaText.UpperChar | src/main/java/org/example/component/DBConditionSearch.java:263 | a lower-case ASCII letter goes to its capital; anything else is kept |
| JavaText.ToUpper | src/main/java/org/example/component/DBConditionSearch.java:263 | upper-cases char by char, keeping the length |
| Widgets.Checked | src/main/java/org/example/component/DBConditionSearch.java:161-166 | never more labels than boxes |
| Widgets.CheckedLabels | src/main/java/org/example/component/DBConditionSearch.java:161-166 | a label is collected exactly when a ticked box carries it |
| Widgets.CheckedEmpty | src/main/java/org/example/component/DBConditionSearch.java:188-194 | nothing is collected exactly when no box is ticked |
| Widgets.Justify | src/main/java/org/example/component/DBConditionSearch.java:298 | `addRow` cuts or pads a row with nulls to the column count |
| Widgets.StringList.constructor | src/main/java/org/example/view/EmployeeReportView.java:165-166 | a new list is empty |
| Widgets.StringList.Clear | src/main/java/org/example/view/EmployeeReportView.java:331-332 | `clear()` empties the list |
| Widgets.StringList.Add | src/main/java/org/example/view/EmployeeReportView.java:339-340 | `add` appends at the end |
| DeleteGuard.AnyHit | src/main/java/org/example/component/DBDelete.java:208-253 | the COUNT loop answers true exactly when one of its queries counts a row |
| DeleteGuard.HasSubordinates | src/main/java/org/example/component/DBDelete.java:195-205 | true exactly when someone names the SSN as Super_ssn |
| DeleteGuard.HasOtherDependencies | src/main/java/org/example/component/DBDelete.java:208-229 | true exactly when the SSN manages a department, works on a project or has a dependent |
| DeleteGuard.HasDependencies | src/main/java/org/example/component/DBDelete.java:231-253 | equals hasSubordinates or hasOtherDependencies |
| DeleteGuard.Supervisors | src/main/java/org/example/component/DBDelete.java:106-112 | the blocked list holds exactly the selected SSNs that supervise someone |
| DeleteGuard.CollectSupervisors | src/main/java/org/example/component/DBDelete.java:106-112 | the loop builds that list, in selection order |
| DeleteGuard.IndexOf | src/main/java/org/example/component/DBDelete.java:121 | `indexOf`: -1 exactly when absent, else the first position holding the value |
| DeleteGuard.BlockedNames | src/main/java/org/example/component/DBDelete.java:115-133 | each blocked SSN is reported by the name at its index in the name list; a lookup past that list throws |
| DeleteGuard.AlignedListsReportEveryName | src/main/java/org/example/component/DBDelete.java:54-56 | with index-aligned lists every blocked employee is reported by the name selected with it |
| DeleteGuard.FindOtherDependency | src/main/java/org/example/component/DBDelete.java:136-142 | the flag loop answers whether any selected SSN has another dependency |
| DeleteGuard.DeleteEach | src/main/java/org/example/component/DBDelete.java:165-170 | the SSNs before the first DELETE that raises are deleted and no later one; a loop without an error reports the number of distinct selected SSNs that had a row |
| DeleteGuard.FindView | src/main/java/org/example/component/DBDelete.java:63-66 | the parent walk finds the report frame exactly when it is an ancestor |
| DeleteGuard.DeletePanel.constructor | src/main/java/org/example/component/DBDelete.java:22-27 | a new panel has an empty selection |
| DeleteGuard.DeletePanel.UpdateSelectedEmployees | src/main/java/org/example/component/DBDelete.java:54-59 | the panel keeps the SSN list object itself and a copy of the names |
| DeleteGuard.DeletePanel.DeleteSelectedEmployees | src/main/java/org/example/component/DBDelete.java:61-192 | each gate (boxes, empty selection, several selected, supervisors, other dependencies, final confirm) stops with nothing deleted; a failing dependency query deletes nothing and a failing DELETE keeps the earlier deletions, both ending in the error dialog with the SSN list kept; only a completed loop clears the shared list |
| DeleteGuard.CheckAndDelete | src/main/java/org/example/component/DBDelete.java:106-170 | blocked exactly when a selected SSN supervises someone, reported by name; declined on a no; otherwise deletes in order up to the first DELETE that raises |
| DeleteGuard.DeletedWithinSelection | src/main/java/org/example/component/DBDelete.java:165-174 | the success count never exceeds the selection, and equals it for distinct existing SSNs |
| DeleteGuard.DistinctCount | src/main/java/org/example/component/DBDelete.java:165-170 | distinct SSNs form a set as large as the list |
| BatchModify.ColumnNameForDatabase | src/main/java/org/example/component/DBModify.java:73-83 | Supervisor maps to Super_ssn, Department to Dno, every other name to itself |
| BatchModify.OfferedColumns | src/main/java/org/example/component/DBModify.java:45-48 | the six offered entries edit six distinct columns, none a name or the SSN |
| BatchModify.BindValue | src/main/java/org/example/component/DBModify.java:117-136 | Sex must be exactly F or M; Salary, Dno and Bdate must parse; Address and Super_ssn take the text; only editable columns bind |
| BatchModify.WithColumnTwice | src/main/java/org/example/component/DBModify.java:111 | setting the same column twice in one run equals setting it once |
| BatchModify.Updated | src/main/java/org/example/component/DBModify.java:114-142 | selected existing rows get the column and stamp; every other row is unchanged and no row appears |
| BatchModify.Matches | src/main/java/org/example/component/DBModify.java:139-141 | the success count is at most the selection, and zero exactly when no selected SSN has a row |
| BatchModify.UpdateOneMore | src/main/java/org/example/component/DBModify.java:114-142 | one more UPDATE changes only that SSN's row, if any |
| BatchModify.SameAfterOneMore | src/main/java/org/example/component/DBModify.java:114-142 | the same, key by key |
| BatchModify.OnlyModifiedChanges | src/main/java/org/example/component/DBModify.java:91-107 | no selection, a blank value, a bad value or an engine failure on the first UPDATE changes no row; rows change only in a run that ends in Modified or fails later in the batch |
| BatchModify.ModifiedRows | src/main/java/org/example/component/DBModify.java:111-152 | a successful run had no failing UPDATE, touches exactly the selected existing rows, sets their stamp, keeps their key and names, and its count is positive exactly when one existed |
| BatchModify.PartialModify | src/main/java/org/example/component/DBModify.java:114-158 | an UPDATE that raises ends the batch with the database error: the SSNs before it are updated, every other row keeps its values |
| BatchModify.SexMustBeFOrM | src/main/java/org/example/component/DBModify.java:129-132 | any other sex value fails with no row changed |
| BatchModify.NumbersMustParse | src/main/java/org/example/component/DBModify.java:118-119 | a salary or Dno that does not parse fails with no row changed |
| BatchModify.ModifyPanel.constructor | src/main/java/org/example/component/DBModify.java:30-32 | no SSN list and no column yet |
| BatchModify.ModifyPanel.SetSelectedSsns | src/main/java/org/example/component/DBModify.java:173-175 | the panel keeps the list object itself |
| BatchModify.ModifyPanel.UpdateSelectedEmployees | src/main/java/org/example/component/DBModify.java:89-165 | the guarded UPDATE loop ends with exactly the specified outcome and rows, a failing UPDATE included |
| BatchModify.ModifyPanel.OnModify | src/main/java/org/example/component/DBModify.java:58-61 | the display name is mapped to its column and the batch runs on it |
| BatchModify.UpdateEach | src/main/java/org/example/component/DBModify.java:114-143 | the loop updates the selected SSNs before the first failing UPDATE, and counts the matched rows when none fails |
| InsertForm.ValidateInput | src/main/java/org/example/component/DBUpdate.java:248-271 | a blank trimmed text passes exactly when optional; a non-blank one passes exactly when the whole trimmed text matches |
| InsertForm.PassingPrefix | src/main/java/org/example/component/DBUpdate.java:273-285 | counts the passing fields from the front; the next one fails |
| InsertForm.FirstInvalid | src/main/java/org/example/component/DBUpdate.java:273-285 | no field is reported exactly when all eight pass; a reported field fails |
| InsertForm.ValidatedShapes | src/main/java/org/example/component/DBUpdate.java:275-282 | a validated form has letter names, a nine-digit SSN, a one- or two-digit Dno, and each optional field blank or well-shaped |
| InsertForm.Built | src/main/java/org/example/component/DBUpdate.java:187-203 | conversion succeeds exactly when the initial is non-blank and the date and numbers parse; the Employee then holds the trimmed texts and parsed values |
| InsertForm.Outcome | src/main/java/org/example/component/DBUpdate.java:179-222 | a click adds exactly for a validated, convertible form with a new SSN that the engine accepts; a duplicate key or any other engine refusal shows the database error |
| InsertForm.AddedOnlyWhenValid | src/main/java/org/example/component/DBUpdate.java:179-184 | no employee is inserted unless validation passes and the engine accepts the row; otherwise no row changes |
| InsertForm.AddedRow | src/main/java/org/example/component/DBUpdate.java:187-206 | the one new row carries the trimmed texts, parsed values and statement time; no other row changes |
| InsertForm.AddedShapes | src/main/java/org/example/component/DBUpdate.java:275-282 | every inserted SSN has nine digits, every inserted name is letters, the initial one letter |
| InsertForm.EmptyInitialCrashes | src/main/java/org/example/component/DBUpdate.java:189 | an optional blank initial passes validation and then stops the click uncaught |
| InsertForm.EmptyOptionalsStillParsed | src/main/java/org/example/component/DBUpdate.java:195 | an optional blank birth date still reaches the parser and ends with the format message |
| InsertForm.InsertDialog.constructor | src/main/java/org/example/component/DBUpdate.java:102-110 | a new dialog shows its form |
| InsertForm.InsertDialog.AddEmployee | src/main/java/org/example/component/DBUpdate.java:179-242 | the handler's outcome and rows are exactly those specified; the dialog closes only after an insert |
| InsertForm.BuildEmployee | src/main/java/org/example/component/DBUpdate.java:187-203 | the setter calls build a fresh Employee holding the converted form, or stop with its error |
| ConditionSearch.Criteria | src/main/java/org/example/component/DBConditionSearch.java:147-170 | "전체" puts no type or value; another type is put with its own input's value; attributes are the ticked labels |
| ConditionSearch.GetSearchCriteria | src/main/java/org/example/component/DBConditionSearch.java:147-170 | the puts and the label loop build exactly that map |
| ConditionSearch.AnyCheckBoxSelected | src/main/java/org/example/component/DBConditionSearch.java:188-194 | true exactly when some attribute box is ticked |
| ConditionSearch.GroupSql | src/main/java/org/example/component/DBConditionSearch.java:366-381 | a group query exists exactly for 성별, 부서 and 상급자 |
| ConditionSearch.GroupOptionsHaveQueries | src/main/java/org/example/component/DBConditionSearch.java:88-90 | every option except "그룹 없음" has its query |
| ConditionSearch.Averages | src/main/java/org/example/component/DBConditionSearch.java:388-392 | one entry per distinct first-column value |
| ConditionSearch.LastRowWins | src/main/java/org/example/component/DBConditionSearch.java:391 | a later row with the same key overwrites an earlier one |
| ConditionSearch.GetAverageSalaryByGroup | src/main/java/org/example/component/DBConditionSearch.java:362-396 | another option raises, a failing query raises, else the map of all result rows |
| ConditionSearch.GroupHeader | src/main/java/org/example/component/DBConditionSearch.java:333-338 | 성별 gives SEX, 부서 Dname, 상급자 SUPERVISOR, anything else itself |
| ConditionSearch.DisplayKey | src/main/java/org/example/component/DBConditionSearch.java:344-347 | a null or blank key is shown as "No Supervisor" |
| ConditionSearch.DisplayGroupResults | src/main/java/org/example/component/DBConditionSearch.java:324-356 | the loop builds the two-column group table |
| ConditionSearch.GroupTableShowsEveryGroup | src/main/java/org/example/component/DBConditionSearch.java:339-352 | two columns, one row per group, and every group's average shown |
| ConditionSearch.DisplayName | src/main/java/org/example/component/DBConditionSearch.java:277 | the name cell is first + " " + initial + ". " + last, with the initial at its place |
| ConditionSearch.AttributeCell | src/main/java/org/example/component/DBConditionSearch.java:275-295 | a cell exists exactly for the nine known labels |
| ConditionSearch.UpperLabels | src/main/java/org/example/component/DBConditionSearch.java:263 | each label upper-cased, in order |
| ConditionSearch.Projection | src/main/java/org/example/component/DBConditionSearch.java:258-298 | header "" then the ticked labels upper-cased; one row per employee, as wide as the header, starting unticked |
| ConditionSearch.HeaderColumns | src/main/java/org/example/component/DBConditionSearch.java:259-265 | the header loop builds that header |
| ConditionSearch.RowData | src/main/java/org/example/component/DBConditionSearch.java:269-297 | the inner loop builds an unticked box and the cells in box order |
| ConditionSearch.DisplayResults | src/main/java/org/example/component/DBConditionSearch.java:244-300 | the nested loops build exactly the projection |
| ConditionSearch.KnownRowCells | src/main/java/org/example/component/DBConditionSearch.java:273-297 | with known labels, one cell per ticked label, each that label's value |
| ConditionSearch.ProjectionCells | src/main/java/org/example/component/DBConditionSearch.java:268-298 | with known labels no row is cut or padded: each is the box and its cells |
| ConditionSearch.ProjectionRow | src/main/java/org/example/component/DBConditionSearch.java:268-298 | the same for one row |
| ConditionSearch.PerformSearch | src/main/java/org/example/component/DBConditionSearch.java:184-238 | the button's guards and branches end with exactly the specified view |
| ConditionSearch.NothingCheckedRunsNoQuery | src/main/java/org/example/component/DBConditionSearch.java:188-203 | with no box ticked no query runs |
| ConditionSearch.SalaryMustParse | src/main/java/org/example/component/DBConditionSearch.java:215-226 | a salary search with a non-numeric text runs no query |
| ConditionSearch.ResultsAreProjected | src/main/java/org/example/component/DBConditionSearch.java:229-230 | a search that reaches the engine shows its employees projected on the ticked boxes |
| ReportView.AttributeBoxes | src/main/java/org/example/view/EmployeeReportView.java:240-245 | nine unticked boxes labelled with the attributes, in order |
| ReportView.ReportLayoutSkipsRefresh | src/main/java/org/example/component/DBDelete.java:182-184 | in this window the delete panel finds the frame but its refresh test fails |
| ReportView.LoadedRow | src/main/java/org/example/view/EmployeeReportView.java:202-212 | ten values, the first an unticked box |
| ReportView.Listing | src/main/java/org/example/view/EmployeeReportView.java:196-215 | the header stays; one row per employee, in order, each cut or padded to the header |
| ReportView.FullListing | src/main/java/org/example/view/EmployeeReportView.java:262-277 | in the ten-column layout each row is exactly the employee's ten values; a failed load leaves no row |
| ReportView.ListingUnticked | src/main/java/org/example/view/EmployeeReportView.java:203 | a freshly loaded table selects nobody |
| ReportView.NameAndSalary | src/main/java/org/example/view/EmployeeReportView.java:240-245 | the boxes with only Name and Salary ticked |
| ReportView.NameAndSalaryChecked | src/main/java/org/example/component/DBConditionSearch.java:161-166 | they collect Name and Salary |
| ReportView.NameAndSalaryHeaders | src/main/java/org/example/component/DBConditionSearch.java:259-265 | a search with them shows "", NAME, SALARY |
| ReportView.RefreshAfterSearchMisaligns | src/main/java/org/example/view/EmployeeReportView.java:195-222 | a reload after that search puts the SSN under SALARY |
| ReportView.ReadRow | src/main/java/org/example/view/EmployeeReportView.java:335-338 | a row is ticked exactly when its box is TRUE and its name and SSN cells are strings |
| ReportView.Scan | src/main/java/org/example/view/EmployeeReportView.java:334-342 | the name and SSN lists stay equally long |
| ReportView.ScanComplete | src/main/java/org/example/view/EmployeeReportView.java:334-342 | the loop finishes exactly when every row can be read |
| ReportView.ScanSound | src/main/java/org/example/view/EmployeeReportView.java:337-340 | the k-th name and k-th SSN come from the same ticked row |
| ReportView.ScanCovers | src/main/java/org/example/view/EmployeeReportView.java:334-342 | a finished loop collects every ticked row |
| ReportView.ScanUnticked | src/main/java/org/example/view/EmployeeReportView.java:334-342 | no ticked row, no selection |
| ReportView.ScanSingle | src/main/java/org/example/view/EmployeeReportView.java:334-342 | one ticked row selects exactly its name and SSN |
| ReportView.ScanStops | src/main/java/org/example/view/EmployeeReportView.java:334-342 | a row that throws ends the loop there |
| ReportView.TickListedRow | src/main/java/org/example/view/EmployeeReportView.java:330-342 | ticking a listed row selects that employee's name and SSN |
| ReportView.TickProjectedRow | src/main/java/org/example/view/EmployeeReportView.java:330-342 | the same in a search result with Name and Ssn ticked |
| ReportView.EmployeeReportView.constructor | src/main/java/org/example/view/EmployeeReportView.java:173-182 | unticked boxes, empty lists, fresh panels, and the full listing |
| ReportView.EmployeeReportView.TickAttribute | src/main/java/org/example/view/EmployeeReportView.java:240-245 | one box changes its tick and keeps its label |
| ReportView.EmployeeReportView.LoadEmployeeData | src/main/java/org/example/view/EmployeeReportView.java:195-222 | empties the model on screen and adds the listing to it, keeping its header |
| ReportView.EmployeeReportView.ListedRows | src/main/java/org/example/view/EmployeeReportView.java:201-215 | the addRow loop gives one justified row per employee, in order |
| ReportView.EmployeeReportView.RefreshTable | src/main/java/org/example/view/EmployeeReportView.java:424-426 | the reload always ends in the ten-column full listing |
| ReportView.EmployeeReportView.UpdateTableModel | src/main/java/org/example/view/EmployeeReportView.java:353-363 | the new model replaces the one on screen |
| ReportView.EmployeeReportView.UpdateSelectedEmployees | src/main/java/org/example/view/EmployeeReportView.java:330-346 | both lists are refilled from the ticked rows, and when the loop finishes both panels hold the shared SSN list |
| ReportView.EmployeeReportView.ToggleRow | src/main/java/org/example/view/EmployeeReportView.java:309-313 | a click ticks one box and recomputes the selection |
| ReportView.EmployeeReportView.ClearSelectedEmployees | src/main/java/org/example/view/EmployeeReportView.java:417-422 | both lists empty and handed to both panels |
| ReportView.EmployeeReportView.SearchClicked | src/main/java/org/example/component/DBConditionSearch.java:180-238 | the selection is cleared first; a table is installed only when the search shows one |
| ReportView.EmployeeReportView.DeleteClicked | src/main/java/org/example/component/DBDelete.java:159-184 | deletes everything exactly when every gate passes and no statement raises, then shows the full listing; the SSN list is cleared, the names list is not; a database error keeps the earlier deletions and reloads nothing |
| ReportView.EmployeeReportView.ModifyClicked | src/main/java/org/example/component/DBModify.java:146-152 | the batch's effect, then, only when a row changed and nothing raised, the corrected reload into the ten-column listing (the program reloads into the model on screen, see Findings) |
| ReportView.EmployeeReportView.AddClicked | src/main/java/org/example/component/DBUpdate.java:206-215 | the insert's effect, then, only after an insert, a closed dialog and the corrected reload into the ten-column listing (the program reloads into the model on screen, see Findings) |
| LegacyInsert.ValuesInOrder | src/main/java/org/example/DBUpdate.java:57 | the map's values in the order of its keys |
| LegacyInsert.AddNewData | src/main/java/org/example/DBUpdate.java:39-64 | the text names the keys in order with one mark each; values are bound at 1..n in the same order |
| LegacyInsert.JoinKeys | src/main/java/org/example/DBUpdate.java:42-49 | the key loop gives the keys and one "?" per key |
| LegacyInsert.BindValues | src/main/java/org/example/DBUpdate.java:55-59 | the value loop binds position i + 1 to the i-th value |
| LegacyInsert.InsertSqlMarks | src/main/java/org/example/DBUpdate.java:52 | the text has one placeholder per column when no name holds a '?' |
| LegacyInsert.MarksMatchEntries | src/main/java/org/example/DBUpdate.java:46-59 | placeholders, map entries and bound values agree in number |
| LegacyInsert.BoundInOrder | src/main/java/org/example/DBUpdate.java:55-59 | parameter p is the value of the p-th column named in the text |
| LegacyInsert.DistinctKeys | src/main/java/org/example/DBUpdate.java:46 | a key order without repeats has as many keys as the map |
| Login.Decide | src/main/java/org/example/view/LoginView.java:61-85 | the trimmed SSN logs in as admin if in ADMIN, else as employee if in EMPLOYEE, else is refused; an engine failure is reported |
| Login.After | src/main/java/org/example/view/LoginView.java:67-73 | flags are only ever set, admin implies authenticated, failures change nothing |
| Login.LoginView.constructor | src/main/java/org/example/view/LoginView.java:13-14 | both flags start false |
| Login.LoginView.LoginClicked | src/main/java/org/example/view/LoginView.java:61-85 | the handler gives that outcome and those flags, and closes once authenticated |
| Login.TrimmedEntryAgrees | src/main/java/org/example/view/LoginView.java:64 | entering the trimmed text gives the same outcome |
| AdminGrant.Decide | src/main/java/org/example/view/AddAdminView.java:51-68 | granted exactly for a trimmed SSN in EMPLOYEE |
| AdminGrant.AdminsAfter | src/main/java/org/example/view/AddAdminView.java:57-63 | ADMIN gains only the trimmed SSN, only when granted, and stays inside EMPLOYEE if it was |
| AdminGrant.AddAdminView.constructor | src/main/java/org/example/view/AddAdminView.java:51-68 | a new dialog is open |
| AdminGrant.AddAdminView.AddClicked | src/main/java/org/example/view/AddAdminView.java:51-68 | the handler gives that outcome and ADMIN, and closes only after a grant |

## Left out

- Swing layout, fonts, renderers, column widths and the text of message dialogs. Each dialog is an outcome tag and each confirmation a boolean input.
- JDBC connections, cursors and the database engine. Rows returned, ORDER BY, LIKE matching, GROUP BY/AVG and CURRENT_TIMESTAMP are inputs (the statement time is `now`). Whether the engine raises is an input too, but why it raises (which foreign key, a lost connection) is not modelled.
- `BatchModify.Modification`: a connection that cannot be opened is modelled as the first UPDATE raising. That comes after the value check, while the program would show the database error even for a bad value.
- `DeleteGuard.DeletePanel.DeleteSelectedEmployees`: one flag, `checksRaise`, says that a subordinate or dependency query raises before the check phase ends. Which query raised is not modelled; it makes no difference to the outcome or the rows.
- `SearchQuery.SearchEmployees`: a null element of a criteria list is not modelled. Values are the text they print as.
- `EmployeeModel.Employee`: the department number is an unbounded integer, not a 32-bit Java `int`.
- `LegacyInsert.AddNewData`: a null value in the map is not modelled.
- Floating point. `double` is `real`; `Double.parseDouble`, `Integer.parseInt`, `SimpleDateFormat` parsing and `%.2f` / date / timestamp formatting are abstract functions in `JavaLib`.
- `HashMap` iteration order is an input (a key order that lists every key once). `keySet()` and `values()` are taken to follow the same order.
- `getDepartmentList`, `updateInputComponent` and `createSearchPanel` only fill combo boxes. The search inputs are given as `SearchInputs`.
- The search panel's call into `searchEmployees` is not connected. The two maps have different types in the program, so the search results are an input to `ConditionSearch.PerformSearch`.
- src/main/java/org/example/EmployeeReportSwing.java, src/main/java/org/example/DBDelete.java, src/main/java/org/example/DBTest.java and the commented-out older copies inside view/EmployeeReportView.java and component/DBUpdate.java are not part of this model.
- `addNewDataSwing` in src/main/java/org/example/DBUpdate.java fills a sample map and is not part of this model. The execution of the generic INSERT is left out; `LegacyInsert.AddNewData` returns the prepared statement.
- `ReportView.EmployeeReportView.constructor`: a row that cannot be mapped throws out of `loadEmployeeData` uncaught. The model then leaves the table empty instead of failing the construction.
- `ReportView.EmployeeReportView.LoadEmployeeData`: rows are collected and put in the model at once. `addRow` fires one table event per row, which this model does not follow.
- `ReportView.ReadRow`: a cast that throws inside the listener ends the selection loop. The model then stops, leaving the lists partly filled and the panels not updated. A null name or SSN cell counts as unreadable.
- `ReportView.EmployeeReportView.DeleteClicked`: after a confirmed delete the shared SSN list is cleared but the view's names list keeps the old names. This is stated, not corrected.
- The report view registers the selection listener twice after a search (`updateTableModel` and `addCheckboxListener`). The recompute is idempotent, so only one run is modelled.
- With the Name or Ssn box unticked in a search result, the modify panel still reads columns 1 and 2 as name and SSN. `ReportView.ReadRow` states what is read; which attribute sits there is not tied back to an employee.
- `CompanyStore.Database`: ADMIN is a set, so adding an SSN twice is not modelled as the engine's duplicate-key error.
- `BatchModify.BindValue`: a column outside the offered six is reported as `UnknownColumn`. The program would bind the text and let the engine refuse the statement, with the same effect of no row changed.
- `InsertForm.Built`: `validateInputs` lets a blank initial, birth date or salary through, yet `addEmployee` needs them. A blank initial crashes and a blank date or salary fails to parse. This is modelled as written, because the intent cannot be told from the code.

## Findings

| source | as written | input that shows it | evidently intended | confidence | as-written member | corrected member |
|---|---|---|---|---|---|---|
| src/main/java/org/example/component/DBDelete.java:182-184 | after a delete, the table is refreshed only when the panel's grandparent is the report frame | the panel sits in the bottom panel, inside the content pane, layered pane and root pane of the frame; its grandparent is the content pane, so a confirmed delete never refreshes | reload the listing after a confirmed delete, as the modify and add actions do | high; not executed | ReportView.ReportLayoutSkipsRefresh | ReportView.EmployeeReportView.DeleteClicked |
| src/main/java/org/example/view/EmployeeReportView.java:195-222, 424-426 | `refreshTable` reloads ten-value rows into whatever model is on screen, which keeps its header | search with only Name and Salary ticked, then modify or add an employee: each reloaded row is cut to three cells, and the SSN shows under SALARY | restore the ten-column layout before loading the listing; the model's `ModifyClicked` and `AddClicked` reload through this corrected version | high; not executed | ReportView.RefreshAfterSearchMisaligns | ReportView.EmployeeReportView.RefreshTable |
