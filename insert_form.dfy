/**
 * The add-employee dialog (component DBUpdate): eight of its ten inputs are
 * checked against a pattern, in form order, and the first failure stops the
 * click; the trimmed texts are then converted into an Employee and handed to
 * the DAO's insert. A successful insert closes the dialog; an insert the
 * engine refuses shows the database error.
 */
module InsertForm {
  import opened Wrappers
  import opened JavaText
  import opened EmployeeModel
  import opened CompanyStore
  import opened JavaLib

  /** The patterns of String.matches used by the dialog; each must match the whole text. */
  datatype Pattern =
    | Letters         // [a-zA-Z]+
    | OneLetter       // [a-zA-Z]
    | NineDigits      // \d{9}
    | DateShape       // \d{4}-\d{2}-\d{2}
    | SalaryShape     // (\d{1,8}(\.\d{2})?)
    | OneOrTwoDigits  // \d{1,2}

  predicate AllLetters(s: string) {
    forall i :: 0 <= i < |s| ==> IsAsciiLetter(s[i])
  }

  predicate Matches(p: Pattern, s: string) {
    match p
    case Letters => |s| >= 1 && AllLetters(s)
    case OneLetter => |s| == 1 && IsAsciiLetter(s[0])
    case NineDigits => |s| == 9 && AllDigits(s)
    case DateShape =>
      |s| == 10 && AllDigits(s[..4]) && s[4] == '-' && AllDigits(s[5..7]) && s[7] == '-' && AllDigits(s[8..])
    case SalaryShape =>
      (1 <= |s| <= 8 && AllDigits(s))
      || (4 <= |s| <= 11 && AllDigits(s[..|s| - 3]) && s[|s| - 3] == '.' && AllDigits(s[|s| - 2..]))
    case OneOrTwoDigits => 1 <= |s| <= 2 && AllDigits(s)
  }

  /** The validated inputs, in the order validateInputs checks them. */
  datatype Field = FirstName | Minit | LastName | Ssn | Birthdate | Salary | SuperSsn | Dno

  const ValidationOrder: seq<Field> := [FirstName, Minit, LastName, Ssn, Birthdate, Salary, SuperSsn, Dno]

  function PatternOf(f: Field): Pattern {
    match f
    case FirstName => Letters
    case Minit => OneLetter
    case LastName => Letters
    case Ssn => NineDigits
    case Birthdate => DateShape
    case Salary => SalaryShape
    case SuperSsn => NineDigits
    case Dno => OneOrTwoDigits
  }

  /** Only the names, the SSN and the department number must be filled in. */
  predicate Required(f: Field) {
    f in {FirstName, LastName, Ssn, Dno}
  }

  /** The texts of the dialog's inputs; sex is the item chosen in the F/M combo box. */
  datatype Form = Form(
    firstName: string, minit: string, lastName: string, ssn: string, birthdate: string,
    address: string, sex: char, salary: string, superSsn: string, dno: string)

  function Text(form: Form, f: Field): string {
    match f
    case FirstName => form.firstName
    case Minit => form.minit
    case LastName => form.lastName
    case Ssn => form.ssn
    case Birthdate => form.birthdate
    case Salary => form.salary
    case SuperSsn => form.superSsn
    case Dno => form.dno
  }

  /** validateInput: the trimmed text passes when it is empty and optional, or matches the pattern. */
  function ValidateInput(text: string, p: Pattern, required: bool): (ok: bool)
    ensures ok <==> (Trim(text) == [] && !required) || (Trim(text) != [] && Matches(p, Trim(text)))
  {
    var inputData := Trim(text);
    if inputData == [] then !required else Matches(p, inputData)
  }

  predicate Passes(form: Form, f: Field) {
    ValidateInput(Text(form, f), PatternOf(f), Required(f))
  }

  /** How many of the fields, from the front, pass their check. */
  function PassingPrefix(form: Form, fields: seq<Field>): (n: nat)
    ensures n <= |fields|
    ensures forall j :: 0 <= j < n ==> Passes(form, fields[j])
    ensures n < |fields| ==> !Passes(form, fields[n])
  {
    if fields == [] || !Passes(form, fields[0]) then 0
    else 1 + PassingPrefix(form, fields[1..])
  }

  /** validateInputs: the field whose message is shown, or None when the form may be submitted. */
  function FirstInvalid(form: Form): (r: Option<Field>)
    ensures r.None? <==> forall f :: f in ValidationOrder ==> Passes(form, f)
    ensures r.Some? ==> !Passes(form, r.value)
  {
    var n := PassingPrefix(form, ValidationOrder);
    if n < |ValidationOrder| then Some(ValidationOrder[n]) else None
  }

  /** A form that passes validation has these shapes, after trimming. */
  lemma ValidatedShapes(form: Form)
    requires FirstInvalid(form).None?
    ensures Matches(Letters, Trim(form.firstName)) && Matches(Letters, Trim(form.lastName))
    ensures Matches(NineDigits, Trim(form.ssn)) && Matches(OneOrTwoDigits, Trim(form.dno))
    ensures Trim(form.minit) == [] || Matches(OneLetter, Trim(form.minit))
    ensures Trim(form.birthdate) == [] || Matches(DateShape, Trim(form.birthdate))
    ensures Trim(form.salary) == [] || Matches(SalaryShape, Trim(form.salary))
    ensures Trim(form.superSsn) == [] || Matches(NineDigits, Trim(form.superSsn))
  {
    assert Passes(form, ValidationOrder[0]) && Passes(form, ValidationOrder[1]);
    assert Passes(form, ValidationOrder[2]) && Passes(form, ValidationOrder[3]);
    assert Passes(form, ValidationOrder[4]) && Passes(form, ValidationOrder[5]);
    assert Passes(form, ValidationOrder[6]) && Passes(form, ValidationOrder[7]);
  }

  /** Why the conversion after validation stops. */
  datatype FormError =
    | MinitMissing  // charAt(0) on an empty initial: StringIndexOutOfBoundsException, not caught
    | BadDate       // ParseException
    | BadNumber     // NumberFormatException from the salary or the department number

  /** The Employee addEmployee builds from a validated form, or where it stops. */
  function Built(form: Form, parsers: Parsers): (r: Result<EmployeeRecord, FormError>)
    ensures r.Ok? <==> Trim(form.minit) != [] && parsers.parseDate(Trim(form.birthdate)).Some?
                       && parsers.parseDouble(Trim(form.salary)).Some? && parsers.parseInt(Trim(form.dno)).Some?
    ensures r.Ok? ==>
      && r.value.firstName == Some(Trim(form.firstName)) && r.value.minit == Trim(form.minit)[0]
      && r.value.lastName == Some(Trim(form.lastName)) && r.value.ssn == Some(Trim(form.ssn))
      && r.value.birthDate == parsers.parseDate(Trim(form.birthdate))
      && r.value.address == Some(Trim(form.address)) && r.value.sex == form.sex
      && Some(r.value.salary) == parsers.parseDouble(Trim(form.salary))
      && r.value.supervisorSsn == Some(Trim(form.superSsn))
      && Some(r.value.departmentNumber) == parsers.parseInt(Trim(form.dno))
      && r.value.departmentName.None? && r.value.modified.None?
    ensures Trim(form.minit) == [] ==> r == Err(MinitMissing)
    ensures Trim(form.minit) != [] && parsers.parseDate(Trim(form.birthdate)).None? ==> r == Err(BadDate)
  {
    var minit := Trim(form.minit);
    if minit == [] then Err(MinitMissing)
    else
      match parsers.parseDate(Trim(form.birthdate))
      case None => Err(BadDate)
      case Some(birthDate) =>
        match parsers.parseDouble(Trim(form.salary))
        case None => Err(BadNumber)
        case Some(salary) =>
          match parsers.parseInt(Trim(form.dno))
          case None => Err(BadNumber)
          case Some(dno) =>
            Ok(Blank.(firstName := Some(Trim(form.firstName)), minit := minit[0],
                      lastName := Some(Trim(form.lastName)), ssn := Some(Trim(form.ssn)),
                      birthDate := Some(birthDate), address := Some(Trim(form.address)), sex := form.sex,
                      salary := salary, supervisorSsn := Some(Trim(form.superSsn)), departmentNumber := dno))
  }

  /** What a click on the add button ends with; each tag stands for the dialog shown. */
  datatype AddOutcome =
    | Invalid(field: Field)     // the field's pattern message
    | Crashed                   // the uncaught exception of an empty initial
    | Failed(error: FormError)  // the date or number message
    | Refused(reason: InsertError) // the database error message
    | Added                     // success message, table refresh, dialog closed

  datatype Effect = Effect(outcome: AddOutcome, rows: map<string, EmployeeRow>)

  /**
   * The outcome of one click; `raises` says the engine refuses the INSERT
   * for a reason other than the key (a Dno or Super_ssn with no row, a lost
   * connection).
   */
  function Outcome(rows: map<string, EmployeeRow>, form: Form, parsers: Parsers, raises: bool): (o: AddOutcome)
    ensures o.Added? <==> FirstInvalid(form).None? && Built(form, parsers).Ok? && Trim(form.ssn) !in rows && !raises
    ensures o.Refused? <==> FirstInvalid(form).None? && Built(form, parsers).Ok? && (Trim(form.ssn) in rows || raises)
  {
    var invalid := FirstInvalid(form);
    if invalid.Some? then Invalid(invalid.value)
    else
      var built := Built(form, parsers);
      if built.Err? then (if built.error == MinitMissing then Crashed else Failed(built.error))
      else if Trim(form.ssn) in rows then Refused(DuplicateKey)
      else if raises then Refused(EngineRefused)
      else Added
  }

  function Submission(rows: map<string, EmployeeRow>, form: Form, parsers: Parsers, now: Millis, raises: bool): Effect {
    var outcome := Outcome(rows, form, parsers, raises);
    if outcome.Added? then Effect(outcome, rows[Trim(form.ssn) := InsertedRow(Built(form, parsers).value, now)])
    else Effect(outcome, rows)
  }

  /**
   * An insert happens exactly for a validated, convertible form whose SSN is
   * new and which the engine accepts; otherwise no row changes.
   */
  lemma AddedOnlyWhenValid(rows: map<string, EmployeeRow>, form: Form, parsers: Parsers, now: Millis, raises: bool)
    ensures var e := Submission(rows, form, parsers, now, raises);
            e.outcome.Added? <==> FirstInvalid(form).None? && Built(form, parsers).Ok? && Trim(form.ssn) !in rows && !raises
    ensures var e := Submission(rows, form, parsers, now, raises);
            !e.outcome.Added? ==> e.rows == rows
  {
  }

  /**
   * After an insert the one new row carries the trimmed names, SSN and supervisor, the
   * parsed date and numbers and the statement time, and no other row changes.
   */
  lemma AddedRow(rows: map<string, EmployeeRow>, form: Form, parsers: Parsers, now: Millis, raises: bool)
    requires Submission(rows, form, parsers, now, raises).outcome.Added?
    ensures var e := Submission(rows, form, parsers, now, raises);
            var ssn := Trim(form.ssn);
            && e.rows.Keys == rows.Keys + {ssn}
            && (forall k :: k in rows ==> e.rows[k] == rows[k])
            && e.rows[ssn].ssn == ssn
            && e.rows[ssn].fname == Some(Trim(form.firstName))
            && e.rows[ssn].lname == Some(Trim(form.lastName))
            && e.rows[ssn].minit == Some([Trim(form.minit)[0]])
            && e.rows[ssn].superSsn == Some(Trim(form.superSsn))
            && e.rows[ssn].salary == parsers.parseDouble(Trim(form.salary))
            && e.rows[ssn].dno == parsers.parseInt(Trim(form.dno))
            && e.rows[ssn].bdate == parsers.parseDate(Trim(form.birthdate))
            && e.rows[ssn].created == Some(now) && e.rows[ssn].modified == Some(now)
  {
    var ssn := Trim(form.ssn);
    var record := Built(form, parsers).value;
    var row := InsertedRow(record, now);
    var after := rows[ssn := row];
    assert Submission(rows, form, parsers, now, raises).rows == after;
    assert after.Keys == rows.Keys + {ssn};
    assert after[ssn] == row;
    assert row.fname == record.firstName && row.lname == record.lastName && row.superSsn == record.supervisorSsn;
  }

  /** Only a form whose SSN has nine digits and whose names are letters is ever inserted. */
  lemma AddedShapes(rows: map<string, EmployeeRow>, form: Form, parsers: Parsers, now: Millis, raises: bool)
    requires Submission(rows, form, parsers, now, raises).outcome.Added?
    ensures Matches(NineDigits, Trim(form.ssn)) && Matches(OneOrTwoDigits, Trim(form.dno))
    ensures Matches(Letters, Trim(form.firstName)) && Matches(Letters, Trim(form.lastName))
    ensures Matches(OneLetter, Trim(form.minit))
  {
    ValidatedShapes(form);
  }

  /**
   * The initial is optional to the validation, yet an empty one stops the
   * click with an uncaught exception: a form whose other inputs are fine
   * passes validation and then inserts nothing.
   */
  lemma EmptyInitialCrashes(rows: map<string, EmployeeRow>, form: Form, parsers: Parsers, now: Millis, raises: bool)
    requires forall f :: f in ValidationOrder && f != Minit ==> Passes(form, f)
    requires Trim(form.minit) == []
    ensures FirstInvalid(form).None?
    ensures Submission(rows, form, parsers, now, raises) == Effect(Crashed, rows)
  {
    assert Passes(form, Minit);
  }

  /**
   * The birth date and the salary are optional to the validation, but an
   * empty one reaches a parser: when the parser refuses the empty text, the
   * click ends with the format message instead of an insert.
   */
  lemma EmptyOptionalsStillParsed(rows: map<string, EmployeeRow>, form: Form, parsers: Parsers, now: Millis, raises: bool)
    requires FirstInvalid(form).None? && Trim(form.minit) != []
    requires Trim(form.birthdate) == [] && parsers.parseDate([]).None?
    ensures Submission(rows, form, parsers, now, raises) == Effect(Failed(BadDate), rows)
  {
  }

  /** The dialog: its inputs and whether it is still showing. */
  class InsertDialog {
    var form: Form
    var showing: bool

    constructor (form: Form)
      ensures this.form == form && showing
    {
      this.form := form;
      showing := true;
    }

    /**
     * addEmployee: validate, build the Employee with its setters, insert it,
     * and close the dialog after a successful insert.
     */
    method AddEmployee(db: Database, parsers: Parsers, now: Millis, raises: bool) returns (outcome: AddOutcome)
      requires db.Valid()
      modifies this`showing, db`employees
      ensures db.Valid()
      ensures Effect(outcome, db.employees) == Submission(old(db.employees), form, parsers, now, raises)
      ensures showing == (old(showing) && !outcome.Added?)
    {
      var invalid := FirstInvalid(form);
      if invalid.Some? {
        return Invalid(invalid.value);
      }
      var built := BuildEmployee(form, parsers);
      if built.Err? {
        return if built.error == MinitMissing then Crashed else Failed(built.error);
      }
      var r := db.AddEmployee(built.value, now, raises);
      if r.Err? {
        return Refused(r.error);
      }
      outcome := Added;
      showing := false;
    }
  }

  /** The setter calls of addEmployee, stopping where a conversion throws. */
  method BuildEmployee(form: Form, parsers: Parsers) returns (r: Result<Employee, FormError>)
    ensures r.Ok? <==> Built(form, parsers).Ok?
    ensures r.Ok? ==> fresh(r.value) && r.value.Record() == Built(form, parsers).value
    ensures r.Err? ==> r.error == Built(form, parsers).error
  {
    var employee := new Employee();
    employee.SetFirstName(Some(Trim(form.firstName)));
    var minit := Trim(form.minit);
    if minit == [] {
      return Err(MinitMissing);
    }
    employee.SetMinit(minit[0]);
    employee.SetLastName(Some(Trim(form.lastName)));
    employee.SetSsn(Some(Trim(form.ssn)));
    var birthDate := parsers.parseDate(Trim(form.birthdate));
    if birthDate.None? {
      return Err(BadDate);
    }
    employee.SetBirthDate(birthDate);
    employee.SetAddress(Some(Trim(form.address)));
    employee.SetSex(form.sex);
    var salary := parsers.parseDouble(Trim(form.salary));
    if salary.None? {
      return Err(BadNumber);
    }
    employee.SetSalary(salary.value);
    employee.SetSupervisorSsn(Some(Trim(form.superSsn)));
    var dno := parsers.parseInt(Trim(form.dno));
    if dno.None? {
      return Err(BadNumber);
    }
    employee.SetDepartmentNumber(dno.value);
    r := Ok(employee);
  }
}
