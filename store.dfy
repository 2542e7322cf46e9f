/**
 * The company database as an in-memory store: EMPLOYEE keyed by Ssn, the
 * DEPARTMENT rows with their managers, the Essn columns of WORKS_ON and
 * DEPENDENT, and the ADMIN table. The membership checks, the insert, the
 * delete and the single-column update of EmployeeDAO and DBModify are
 * methods on it. The SQL engine's own checks (foreign keys, column types,
 * a lost connection) are not modelled one by one: each statement method
 * takes a flag saying whether the engine raises an SQLException on it.
 */
module CompanyStore {
  import opened Wrappers
  import opened EmployeeModel

  /** One EMPLOYEE row as stored; every column except the key may be NULL. */
  datatype EmployeeRow = EmployeeRow(
    fname: Option<string>,
    minit: Option<string>,
    lname: Option<string>,
    ssn: string,
    bdate: Option<Millis>,
    address: Option<string>,
    sex: Option<string>,
    salary: Option<real>,
    superSsn: Option<string>,
    dno: Option<int>,
    created: Option<Millis>,
    modified: Option<Millis>)

  datatype Department = Department(name: Option<string>, mgrSsn: Option<string>)

  /** The columns DBModify can set, each with the value bound for it. */
  datatype ColumnValue =
    | AddressValue(address: string)
    | SexValue(sex: string)
    | SalaryValue(salary: real)
    | BdateValue(bdate: Millis)
    | SuperSsnValue(superSsn: string)
    | DnoValue(dno: int)

  /** Why an INSERT INTO EMPLOYEE raises instead of adding a row. */
  datatype InsertError =
    | NullBirthDate   // getBirthDate().getTime() on a null date
    | NullKey         // a null Ssn for the primary key
    | DuplicateKey    // the Ssn is already in EMPLOYEE
    | EngineRefused   // any other SQLException: a Dno or Super_ssn with no row, a lost connection

  /**
   * The row addEmployee writes for an Employee with a key and a birth date:
   * the two chars become one-char strings, and created and modified both
   * take the statement's CURRENT_TIMESTAMP, here `now`.
   */
  function InsertedRow(e: EmployeeRecord, now: Millis): (row: EmployeeRow)
    requires e.ssn.Some? && e.birthDate.Some?
    ensures row.ssn == e.ssn.value && row.bdate == e.birthDate
    ensures row.fname == e.firstName && row.lname == e.lastName
    ensures row.address == e.address && row.superSsn == e.supervisorSsn
    ensures row.minit == Some([e.minit]) && row.sex == Some([e.sex])
    ensures row.salary == Some(e.salary) && row.dno == Some(e.departmentNumber)
    ensures row.created == Some(now) && row.modified == Some(now)
  {
    EmployeeRow(e.firstName, Some([e.minit]), e.lastName, e.ssn.value, e.birthDate, e.address,
                Some([e.sex]), Some(e.salary), e.supervisorSsn, Some(e.departmentNumber), Some(now), Some(now))
  }

  /** UPDATE EMPLOYEE SET <column> = ?, modified = CURRENT_TIMESTAMP on one row. */
  function WithColumn(row: EmployeeRow, v: ColumnValue, now: Millis): (r: EmployeeRow)
    ensures r.ssn == row.ssn && r.modified == Some(now)
    ensures r.fname == row.fname && r.minit == row.minit && r.lname == row.lname && r.created == row.created
    ensures r.address == (if v.AddressValue? then Some(v.address) else row.address)
    ensures r.sex == (if v.SexValue? then Some(v.sex) else row.sex)
    ensures r.salary == (if v.SalaryValue? then Some(v.salary) else row.salary)
    ensures r.bdate == (if v.BdateValue? then Some(v.bdate) else row.bdate)
    ensures r.superSsn == (if v.SuperSsnValue? then Some(v.superSsn) else row.superSsn)
    ensures r.dno == (if v.DnoValue? then Some(v.dno) else row.dno)
  {
    var r := match v
      case AddressValue(a) => row.(address := Some(a))
      case SexValue(s) => row.(sex := Some(s))
      case SalaryValue(x) => row.(salary := Some(x))
      case BdateValue(d) => row.(bdate := Some(d))
      case SuperSsnValue(s) => row.(superSsn := Some(s))
      case DnoValue(n) => row.(dno := Some(n));
    r.(modified := Some(now))
  }

  /**
   * How many statements of a batch of n complete when the one at index
   * raisesAt raises (None: none raises); the later ones never run.
   */
  function Completed(raisesAt: Option<nat>, n: nat): (k: nat)
    ensures k <= n
    ensures k < n <==> raisesAt.Some? && raisesAt.value < n
    ensures k < n ==> k == raisesAt.value
  {
    if raisesAt.Some? && raisesAt.value < n then raisesAt.value else n
  }

  class Database {
    var employees: map<string, EmployeeRow>
    var departments: map<int, Department>
    var worksOn: set<string>
    var dependents: set<string>
    var admins: set<string>

    /** Every EMPLOYEE row is filed under its own Ssn. */
    predicate Valid()
      reads this
    {
      forall k :: k in employees ==> employees[k].ssn == k
    }

    constructor (employees: map<string, EmployeeRow>, departments: map<int, Department>,
                 worksOn: set<string>, dependents: set<string>, admins: set<string>)
      ensures this.employees == employees && this.departments == departments
      ensures this.worksOn == worksOn && this.dependents == dependents && this.admins == admins
    {
      this.employees := employees;
      this.departments := departments;
      this.worksOn := worksOn;
      this.dependents := dependents;
      this.admins := admins;
    }

    /** Some EMPLOYEE row names ssn as its Super_ssn. */
    predicate IsSupervisor(ssn: string)
      reads this
    {
      exists k :: k in employees && employees[k].superSsn == Some(ssn)
    }

    /** Some DEPARTMENT row names ssn as its Mgr_ssn. */
    predicate IsManager(ssn: string)
      reads this
    {
      exists d :: d in departments && departments[d].mgrSsn == Some(ssn)
    }

    /** The Dname joined to an employee's Dno (LEFT JOIN DEPARTMENT). */
    function DepartmentName(dno: Option<int>): (name: Option<string>)
      reads this
      ensures name.Some? ==> dno.Some? && dno.value in departments && departments[dno.value].name == name
    {
      if dno.Some? && dno.value in departments then departments[dno.value].name else None
    }

    /** SELECT 1 FROM EMPLOYEE WHERE Ssn = ? finds a row. */
    method IsEmployeeSsnExists(ssn: string) returns (found: bool)
      ensures found <==> ssn in employees
    {
      found := ssn in employees;
    }

    /** SELECT 1 FROM ADMIN WHERE ssn = ? finds a row. */
    method IsAdminSsn(ssn: string) returns (found: bool)
      ensures found <==> ssn in admins
    {
      found := ssn in admins;
    }

    /** INSERT INTO ADMIN (ssn) VALUES (?). */
    method AddAdminSsn(ssn: string)
      modifies this`admins
      ensures admins == old(admins) + {ssn}
    {
      admins := admins + {ssn};
    }

    /**
     * addEmployee binds the ten columns of the Employee and lets the engine
     * stamp created and modified. A null birth date fails before the
     * statement runs; a null or taken key is refused by the engine, and
     * `raises` says the engine refuses the statement for any other reason.
     */
    method AddEmployee(e: Employee, now: Millis, raises: bool) returns (r: Result<bool, InsertError>)
      requires Valid()
      modifies this`employees
      ensures Valid()
      ensures e.Record().birthDate.None? ==> r == Err(NullBirthDate)
      ensures e.Record().birthDate.Some? && e.Record().ssn.None? ==> r == Err(NullKey)
      ensures e.Record().birthDate.Some? && e.Record().ssn.Some? ==>
                (r == Err(DuplicateKey) <==> e.Record().ssn.value in old(employees))
      ensures e.Record().birthDate.Some? && e.Record().ssn.Some? && e.Record().ssn.value !in old(employees) ==>
                (r == Err(EngineRefused) <==> raises)
      ensures r.Ok? <==> e.Record().birthDate.Some? && e.Record().ssn.Some? && e.Record().ssn.value !in old(employees)
                         && !raises
      ensures r.Ok? ==> r.value && employees == old(employees)[e.Record().ssn.value := InsertedRow(e.Record(), now)]
      ensures r.Err? ==> employees == old(employees)
    {
      var rec := e.Record();
      if rec.birthDate.None? {
        return Err(NullBirthDate);
      }
      if rec.ssn.None? {
        return Err(NullKey);
      }
      if rec.ssn.value in employees {
        return Err(DuplicateKey);
      }
      if raises {
        return Err(EngineRefused);
      }
      employees := employees[rec.ssn.value := InsertedRow(rec, now)];
      r := Ok(true);
    }

    /**
     * DELETE FROM EMPLOYEE WHERE Ssn = ?: true iff a row went; None when the
     * engine raises (`raises`), and then nothing changes.
     */
    method DeleteEmployee(ssn: string, raises: bool) returns (removed: Option<bool>)
      requires Valid()
      modifies this`employees
      ensures Valid()
      ensures removed.None? <==> raises
      ensures removed.Some? ==> (removed.value <==> ssn in old(employees)) && employees == old(employees) - {ssn}
      ensures removed.None? ==> employees == old(employees)
    {
      if raises {
        return None;
      }
      removed := Some(ssn in employees);
      employees := employees - {ssn};
    }

    /** The UPDATE of DBModify on one Ssn: true iff a row matched; None when the engine raises. */
    method UpdateColumn(ssn: string, v: ColumnValue, now: Millis, raises: bool) returns (updated: Option<bool>)
      requires Valid()
      modifies this`employees
      ensures Valid()
      ensures updated.None? <==> raises
      ensures updated == Some(true) <==> !raises && ssn in old(employees)
      ensures updated == Some(true) ==> employees == old(employees)[ssn := WithColumn(old(employees)[ssn], v, now)]
      ensures updated != Some(true) ==> employees == old(employees)
    {
      if raises {
        return None;
      }
      updated := Some(ssn in employees);
      if ssn in employees {
        employees := employees[ssn := WithColumn(employees[ssn], v, now)];
      }
    }
  }

  /** Deleting the same Ssn twice: the second call finds nothing and reports false. */
  method DeleteTwice(db: Database, ssn: string) returns (first: Option<bool>, second: Option<bool>)
    requires db.Valid()
    modifies db`employees
    ensures first == Some(ssn in old(db.employees))
    ensures second == Some(false)
    ensures db.employees == old(db.employees) - {ssn}
  {
    first := db.DeleteEmployee(ssn, false);
    second := db.DeleteEmployee(ssn, false);
  }
}
