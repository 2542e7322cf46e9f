/**
 * AddAdminView: the dialog that grants admin rights. The trimmed SSN is
 * added to ADMIN only when EMPLOYEE has a row with it, so ADMIN never gains
 * an SSN that is not an employee's.
 */
module AdminGrant {
  import opened JavaText
  import opened CompanyStore

  /** What the add button ends with; each is one message dialog. */
  datatype GrantOutcome = Granted | NotAnEmployee | DatabaseError

  /** The decision for an entered SSN; `fails` says the engine raised on the lookup or the insert. */
  function Decide(employees: set<string>, entered: string, fails: bool): (o: GrantOutcome)
    ensures o == Granted <==> !fails && Trim(entered) in employees
    ensures o == NotAnEmployee <==> !fails && Trim(entered) !in employees
  {
    if fails then DatabaseError
    else if Trim(entered) in employees then Granted
    else NotAnEmployee
  }

  /** ADMIN after the button: the trimmed SSN added exactly when it was granted. */
  function AdminsAfter(admins: set<string>, employees: set<string>, entered: string, fails: bool): (r: set<string>)
    ensures admins <= r && r - admins <= {Trim(entered)}
    ensures Trim(entered) in r <==> Trim(entered) in admins || Decide(employees, entered, fails) == Granted
    ensures admins <= employees ==> r <= employees
  {
    if Decide(employees, entered, fails) == Granted then admins + {Trim(entered)} else admins
  }

  class AddAdminView {
    /** dispose() has been called. */
    var disposed: bool

    constructor ()
      ensures !disposed
    {
      disposed := false;
    }

    /** The add button's handler. */
    method AddClicked(db: Database, entered: string, fails: bool) returns (outcome: GrantOutcome)
      modifies this, db`admins
      ensures outcome == Decide(db.employees.Keys, entered, fails)
      ensures db.admins == AdminsAfter(old(db.admins), db.employees.Keys, entered, fails)
      ensures disposed == (old(disposed) || outcome == Granted)
    {
      var ssn := Trim(entered);
      if fails {
        return DatabaseError;
      }
      var known := db.IsEmployeeSsnExists(ssn);
      if known {
        db.AddAdminSsn(ssn);
        disposed := true;
        outcome := Granted;
      } else {
        outcome := NotAnEmployee;
      }
    }
  }
}
