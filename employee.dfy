/**
 * The Employee model object: one row of EMPLOYEE plus the joined department
 * name. Twelve mutable fields, a no-argument constructor, a ten-argument
 * constructor and one setter per field. The getters are plain field reads
 * and are not modelled as members of their own.
 */
module EmployeeModel {
  import opened Wrappers

  /** java.util.Date and java.sql.Timestamp: milliseconds since the epoch. */
  type Millis = int

  /** The value held by an Employee object at one moment; a null reference is None. */
  datatype EmployeeRecord = EmployeeRecord(
    firstName: Option<string>,
    minit: char,
    lastName: Option<string>,
    ssn: Option<string>,
    birthDate: Option<Millis>,
    address: Option<string>,
    sex: char,
    salary: real,
    supervisorSsn: Option<string>,
    departmentNumber: int,  // a Java int; the model does not bound it to 32 bits
    departmentName: Option<string>,
    modified: Option<Millis>)

  /** Java's default field values: null references, '\u0000' chars, zero numbers. */
  const Blank := EmployeeRecord(None, '\0', None, None, None, None, '\0', 0.0, None, 0, None, None)

  class Employee {
    var firstName: Option<string>
    var minit: char
    var lastName: Option<string>
    var ssn: Option<string>
    var birthDate: Option<Millis>
    var address: Option<string>
    var sex: char
    var salary: real
    var supervisorSsn: Option<string>
    var departmentNumber: int
    var departmentName: Option<string>
    var modified: Option<Millis>

    /** The object's fields, as one value. */
    function Record(): EmployeeRecord
      reads this
    {
      EmployeeRecord(firstName, minit, lastName, ssn, birthDate, address, sex, salary,
                     supervisorSsn, departmentNumber, departmentName, modified)
    }

    /** new Employee(): every field keeps its Java default. */
    constructor ()
      ensures Record() == Blank
    {
      firstName, minit, lastName, ssn := None, '\0', None, None;
      birthDate, address, sex, salary := None, None, '\0', 0.0;
      supervisorSsn, departmentNumber, departmentName, modified := None, 0, None, None;
    }

    /**
     * The ten-argument constructor stores its arguments. It then copies the
     * still-unset modified field into itself, so modified stays null, and it
     * never touches departmentName.
     */
    constructor Full(firstName: Option<string>, minit: char, lastName: Option<string>, ssn: Option<string>,
                     birthDate: Option<Millis>, address: Option<string>, sex: char, salary: real,
                     supervisorSsn: Option<string>, departmentNumber: int)
      ensures Record() == EmployeeRecord(firstName, minit, lastName, ssn, birthDate, address, sex, salary,
                                         supervisorSsn, departmentNumber, None, None)
    {
      this.firstName := firstName;
      this.minit := minit;
      this.lastName := lastName;
      this.ssn := ssn;
      this.birthDate := birthDate;
      this.address := address;
      this.sex := sex;
      this.salary := salary;
      this.supervisorSsn := supervisorSsn;
      this.departmentNumber := departmentNumber;
      this.departmentName := None;
      new;
      this.modified := None;
      this.modified := this.modified;
    }

    method SetFirstName(v: Option<string>)
      modifies this
      ensures Record() == old(Record()).(firstName := v)
    {
      firstName := v;
    }

    method SetMinit(v: char)
      modifies this
      ensures Record() == old(Record()).(minit := v)
    {
      minit := v;
    }

    method SetLastName(v: Option<string>)
      modifies this
      ensures Record() == old(Record()).(lastName := v)
    {
      lastName := v;
    }

    method SetSsn(v: Option<string>)
      modifies this
      ensures Record() == old(Record()).(ssn := v)
    {
      ssn := v;
    }

    method SetBirthDate(v: Option<Millis>)
      modifies this
      ensures Record() == old(Record()).(birthDate := v)
    {
      birthDate := v;
    }

    method SetAddress(v: Option<string>)
      modifies this
      ensures Record() == old(Record()).(address := v)
    {
      address := v;
    }

    method SetSex(v: char)
      modifies this
      ensures Record() == old(Record()).(sex := v)
    {
      sex := v;
    }

    method SetSalary(v: real)
      modifies this
      ensures Record() == old(Record()).(salary := v)
    {
      salary := v;
    }

    method SetSupervisorSsn(v: Option<string>)
      modifies this
      ensures Record() == old(Record()).(supervisorSsn := v)
    {
      supervisorSsn := v;
    }

    method SetDepartmentNumber(v: int)
      modifies this
      ensures Record() == old(Record()).(departmentNumber := v)
    {
      departmentNumber := v;
    }

    method SetDepartmentName(v: Option<string>)
      modifies this
      ensures Record() == old(Record()).(departmentName := v)
    {
      departmentName := v;
    }

    method SetModified(v: Option<Millis>)
      modifies this
      ensures Record() == old(Record()).(modified := v)
    {
      modified := v;
    }
  }
}
