/**
 * EmployeeDAO's reading side: one joined result row becomes an Employee
 * (createEmployeeFromResultSet), and getAllEmployees maps every row the
 * engine returns, in the engine's order.
 */
module EmployeeDao {
  import opened Wrappers
  import opened EmployeeModel
  import opened CompanyStore

  /** Nine hours in milliseconds: the shift applied to every modified stamp. */
  const KstOffset: int := 9 * 60 * 60 * 1000

  /** One row of EMPLOYEE e LEFT JOIN DEPARTMENT d, with the twelve selected columns. */
  datatype ResultRow = ResultRow(
    fname: Option<string>,
    minit: Option<string>,
    lname: Option<string>,
    ssn: string,
    bdate: Option<Millis>,
    address: Option<string>,
    sex: Option<string>,
    salary: Option<real>,
    superSsn: Option<string>,
    dno: Option<int>,
    dname: Option<string>,
    modified: Option<Millis>)

  /** The exception that stops the mapping of a row: charAt(0) on a null or empty string. */
  datatype RowError = MinitNull | MinitEmpty | SexNull | SexEmpty

  /** The joined row the engine produces for a stored EMPLOYEE row. */
  function Joined(row: EmployeeRow, departments: map<int, Department>): (r: ResultRow)
    ensures r.ssn == row.ssn && r.minit == row.minit && r.sex == row.sex && r.modified == row.modified
    ensures r.fname == row.fname && r.lname == row.lname && r.bdate == row.bdate && r.address == row.address
    ensures r.salary == row.salary && r.superSsn == row.superSsn && r.dno == row.dno
    ensures r.dname.Some? <==> row.dno.Some? && row.dno.value in departments && departments[row.dno.value].name.Some?
    ensures r.dname.Some? ==> r.dname == departments[row.dno.value].name
  {
    var dname := if row.dno.Some? && row.dno.value in departments then departments[row.dno.value].name else None;
    ResultRow(row.fname, row.minit, row.lname, row.ssn, row.bdate, row.address, row.sex,
              row.salary, row.superSsn, row.dno, dname, row.modified)
  }

  /** rs.getString(col).charAt(0). */
  function FirstChar(s: Option<string>, ifNull: RowError, ifEmpty: RowError): (r: Result<char, RowError>)
    ensures r.Ok? <==> s.Some? && |s.value| > 0
    ensures r.Ok? ==> r.value == s.value[0]
    ensures r.Err? ==> r.error == (if s.None? then ifNull else ifEmpty)
  {
    match s
    case None => Err(ifNull)
    case Some(t) => if |t| == 0 then Err(ifEmpty) else Ok(t[0])
  }

  /**
   * createEmployeeFromResultSet as a value: Minit is read before Sex, a NULL
   * Salary or Dno reads as 0, and a stored modified stamp comes back nine
   * hours later.
   */
  function MapRow(row: ResultRow): (r: Result<EmployeeRecord, RowError>)
    ensures r.Err? <==> row.minit.None? || row.minit == Some([]) || row.sex.None? || row.sex == Some([])
    ensures row.minit.None? ==> r == Err(MinitNull)
    ensures row.minit == Some([]) ==> r == Err(MinitEmpty)
    ensures row.minit.Some? && row.minit != Some([]) && row.sex.None? ==> r == Err(SexNull)
    ensures row.minit.Some? && row.minit != Some([]) && row.sex == Some([]) ==> r == Err(SexEmpty)
    ensures r.Ok? ==> r.value.firstName == row.fname && r.value.lastName == row.lname
    ensures r.Ok? ==> r.value.birthDate == row.bdate && r.value.address == row.address
    ensures r.Ok? ==> r.value.supervisorSsn == row.superSsn
    ensures r.Ok? ==> r.value.minit == row.minit.value[0] && r.value.sex == row.sex.value[0]
    ensures r.Ok? ==> r.value.ssn == Some(row.ssn) && r.value.departmentName == row.dname
    ensures r.Ok? ==> r.value.salary == (if row.salary.Some? then row.salary.value else 0.0)
    ensures r.Ok? ==> r.value.departmentNumber == (if row.dno.Some? then row.dno.value else 0)
    ensures r.Ok? ==> (r.value.modified.Some? <==> row.modified.Some?)
    ensures r.Ok? && row.modified.Some? ==> r.value.modified.value - row.modified.value == 9 * 3600 * 1000
  {
    match FirstChar(row.minit, MinitNull, MinitEmpty)
    case Err(e) => Err(e)
    case Ok(m) =>
      match FirstChar(row.sex, SexNull, SexEmpty)
      case Err(e) => Err(e)
      case Ok(s) =>
        Ok(EmployeeRecord(
             row.fname, m, row.lname, Some(row.ssn), row.bdate, row.address, s,
             row.salary.GetOr(0.0), row.superSsn, row.dno.GetOr(0), row.dname,
             if row.modified.Some? then Some(row.modified.value + KstOffset) else None))
  }

  /**
   * What addEmployee stores is what createEmployeeFromResultSet reads back,
   * except that the department name is the joined Dname and modified is
   * the insert time shifted by nine hours.
   */
  lemma InsertThenRead(e: EmployeeRecord, now: Millis, departments: map<int, Department>)
    requires e.ssn.Some? && e.birthDate.Some?
    ensures MapRow(Joined(InsertedRow(e, now), departments))
         == Ok(e.(departmentName := Joined(InsertedRow(e, now), departments).dname,
                  modified := Some(now + KstOffset)))
  {
    var row := InsertedRow(e, now);
    assert row.minit == Some([e.minit]) && row.sex == Some([e.sex]);
  }

  /** The mapped records of a result set, in row order; the first bad row stops it. */
  function MapRows(rows: seq<ResultRow>): (r: Result<seq<EmployeeRecord>, RowError>)
    ensures r.Ok? <==> forall i :: 0 <= i < |rows| ==> MapRow(rows[i]).Ok?
    ensures r.Ok? ==> |r.value| == |rows| && forall i :: 0 <= i < |rows| ==> r.value[i] == MapRow(rows[i]).value
    ensures r.Err? ==> exists i :: 0 <= i < |rows| && MapRow(rows[i]) == Err(r.error)
                                   && forall j :: 0 <= j < i ==> MapRow(rows[j]).Ok?
  {
    if rows == [] then Ok([])
    else
      var init := rows[..|rows| - 1];
      assert forall i :: 0 <= i < |init| ==> init[i] == rows[i];
      match MapRows(init)
      case Err(e) => Err(e)
      case Ok(xs) =>
        match MapRow(rows[|rows| - 1])
        case Err(e) => Err(e)
        case Ok(x) => Ok(xs + [x])
  }

  /** The records of a list of Employee objects. */
  function Records(es: seq<Employee>): (rs: seq<EmployeeRecord>)
    reads set i | 0 <= i < |es| :: es[i]
    ensures |rs| == |es| && forall i :: 0 <= i < |es| ==> rs[i] == es[i].Record()
  {
    seq(|es|, i reads set i | 0 <= i < |es| :: es[i] requires 0 <= i < |es| => es[i].Record())
  }

  /** createEmployeeFromResultSet: a new Employee filled by setter calls, column by column. */
  method CreateEmployeeFromResultSet(row: ResultRow) returns (r: Result<Employee, RowError>)
    ensures r.Err? <==> MapRow(row).Err?
    ensures r.Err? ==> r.error == MapRow(row).error
    ensures r.Ok? ==> fresh(r.value) && r.value.Record() == MapRow(row).value
  {
    var employee := new Employee();
    employee.SetFirstName(row.fname);
    var m := FirstChar(row.minit, MinitNull, MinitEmpty);
    if m.Err? {
      return Err(m.error);
    }
    employee.SetMinit(m.value);
    employee.SetLastName(row.lname);
    employee.SetSsn(Some(row.ssn));
    employee.SetBirthDate(row.bdate);
    employee.SetAddress(row.address);
    var s := FirstChar(row.sex, SexNull, SexEmpty);
    if s.Err? {
      return Err(s.error);
    }
    employee.SetSex(s.value);
    employee.SetSalary(row.salary.GetOr(0.0));
    employee.SetSupervisorSsn(row.superSsn);
    employee.SetDepartmentNumber(row.dno.GetOr(0));
    employee.SetDepartmentName(row.dname);
    if row.modified.Some? {
      employee.SetModified(Some(row.modified.value + KstOffset));
    }
    r := Ok(employee);
  }

  /** getAllEmployees: one new Employee per result row, in the order the engine returns them. */
  method GetAllEmployees(rows: seq<ResultRow>) returns (r: Result<seq<Employee>, RowError>)
    ensures r.Err? <==> MapRows(rows).Err?
    ensures r.Err? ==> r.error == MapRows(rows).error
    ensures r.Ok? ==> (forall i :: 0 <= i < |r.value| ==> fresh(r.value[i]))
                      && Records(r.value) == MapRows(rows).value
  {
    var employees: seq<Employee> := [];
    var i := 0;
    while i < |rows|
      invariant 0 <= i <= |rows| && |employees| == i
      invariant forall k :: 0 <= k < i ==> MapRow(rows[k]).Ok? && employees[k].Record() == MapRow(rows[k]).value
      invariant forall k :: 0 <= k < i ==> fresh(employees[k])
    {
      var e := CreateEmployeeFromResultSet(rows[i]);
      if e.Err? {
        FirstBadRow(rows, i);
        return Err(e.error);
      }
      employees := employees + [e.value];
      i := i + 1;
    }
    r := Ok(employees);
  }

  /** The first row that does not map is the error of the whole result set. */
  lemma FirstBadRow(rows: seq<ResultRow>, i: nat)
    requires i < |rows| && MapRow(rows[i]).Err?
    requires forall k :: 0 <= k < i ==> MapRow(rows[k]).Ok?
    ensures MapRows(rows) == Err(MapRow(rows[i]).error)
  {
    var j :| 0 <= j < |rows| && MapRow(rows[j]) == Err(MapRows(rows).error)
             && forall k :: 0 <= k < j ==> MapRow(rows[k]).Ok?;
    assert j == i;
  }
}
